/**
 The connection manager: a single slot holding the current link, and the
 rule that picks the link an operation uses.
 */
module ConnectionManager {
  import opened Driver

  datatype Manager = Manager(current: Link)

  /** A new manager holds no current connection. */
  function Fresh(): (m: Manager)
    ensures GetCurrentConnection(m) == NullLink
    ensures GetConnection(m, NullLink) == NullLink
  {
    Manager(NullLink)
  }

  /** The stored link; the manager holds nothing else. */
  function GetCurrentConnection(m: Manager): (r: Link)
    ensures m == Manager(r)
  {
    m.current
  }

  /** Overwrites the slot with no validation, even with a falsy link. */
  function SetCurrentConnection(m: Manager, link: Link): (m': Manager)
    ensures GetCurrentConnection(m') == link
    ensures forall x: Link :: !x.falsy ==> GetConnection(m', x) == GetConnection(m, x)
  {
    Manager(link)
  }

  /** The link an operation uses: the explicit one when it is non-empty,
      otherwise the stored current one. */
  function GetConnection(m: Manager, explicit: Link): (r: Link)
    ensures !explicit.falsy ==> r == explicit
    ensures explicit.falsy ==> r == GetCurrentConnection(m)
  {
    if !explicit.falsy then explicit else m.current
  }

  /** Reading the slot and writing the value back changes nothing, and a call
      without a link resolves to what was read. */
  lemma CurrentConnectionRoundTrip(m: Manager, explicit: Link)
    requires explicit.falsy
    ensures SetCurrentConnection(m, GetCurrentConnection(m)) == m
    ensures GetConnection(m, explicit) == GetCurrentConnection(m)
  {
  }

  /** A value written to the slot is what a later unqualified call resolves to,
      whatever was there before. */
  lemma SetThenResolve(m: Manager, link: Link, explicit: Link)
    requires explicit.falsy
    ensures GetConnection(SetCurrentConnection(m, link), explicit) == link
  {
  }
}
