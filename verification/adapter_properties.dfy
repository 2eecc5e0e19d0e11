/**
 Properties that relate several adapter operations: reuse by `connect`,
 the closing flag and the escaping fallback, per-call link overrides, and
 the lazily built lookup tables.
 */
module AdapterProperties {
  import opened Php
  import opened Driver
  import opened FieldTables
  import opened ConnectionManager
  import opened MysqliAdapter

  /** A second `connect` after one that produced a usable link hands back the
      same link and opens nothing, whatever its arguments. */
  lemma ConnectTwiceReuses(a: Adapter, d: Driver, host: string, user: string, password: string,
                           host2: string, user2: string, password2: string)
    requires Connected(Connect(a, d, host, user, password, false, 0).value)
    ensures var first := Connect(a, d, host, user, password, false, 0);
            var second := Connect(first.state, d, host2, user2, password2, true, 0);
            second.value == first.value && second.calls == [] && second.state == first.state
  {
  }

  /** The new-link and client-flag arguments of `connect` change nothing. */
  lemma ConnectIgnoresNewLinkAndFlags(a: Adapter, d: Driver, host: string, user: string, password: string,
                                      newLink: bool, flags: int, newLink2: bool, flags2: int)
    ensures Connect(a, d, host, user, password, newLink, flags)
         == Connect(a, d, host, user, password, newLink2, flags2)
  {
  }

  /** `pconnect` opens the same link whatever the adapter held before. */
  lemma PConnectIgnoresCurrent(a: Adapter, b: Adapter, d: Driver, host: string, user: string, password: string)
    ensures PConnect(a, d, host, user, password, false, 0).value == PConnect(b, d, host, user, password, false, 0).value
    ensures PConnect(a, d, host, user, password, false, 0).calls == PConnect(b, d, host, user, password, false, 0).calls
  {
  }

  /** A second `close` with the same argument changes nothing and still reports success. */
  lemma CloseIdempotent(a: Adapter, link: Link)
    ensures var first := Close(a, link);
            Close(first.state, link) == Step(first.state, true, [])
  {
  }

  /** Once `close` has marked the adapter as closing, `realEscapeString` uses
      `addslashes` for every link, explicit or not, and calls nothing. */
  lemma ClosedAdapterEscapesLocally(a: Adapter, d: Driver, closeLink: Link, text: string, link: Link)
    requires Close(a, closeLink).state.isClosing
    ensures RealEscapeString(Close(a, closeLink).state, d, text, link) == Step(Close(a, closeLink).state, AddSlashes(text), [])
  {
  }

  /** `connect` reuses a healthy link without clearing the closing flag, so
      after `close` and a reconnect to the same link, `realEscapeString` still
      uses `addslashes` until a new link is opened. */
  lemma ReconnectKeepsLocalEscaping(a: Adapter, d: Driver, host: string, user: string, password: string, text: string)
    requires Closable(GetCurrentConnection(a.manager))
    ensures var closed := Close(a, NullLink);
            var again := Connect(closed.state, d, host, user, password, false, 0);
            && again.value == GetCurrentConnection(a.manager)
            && again.state.isClosing
            && RealEscapeString(again.state, d, text, NullLink).value == AddSlashes(text)
  {
  }

  /** Opening a new link clears the closing flag, so escaping goes to the
      driver again when the new link is a mysqli. */
  lemma FreshConnectRestoresDriverEscaping(a: Adapter, d: Driver, host: string, user: string, password: string, text: string)
    requires !Connected(GetCurrentConnection(a.manager))
    requires var l := d.connect(host, user, password); !l.falsy && l.isMysqli
    ensures var made := Connect(a, d, host, user, password, false, 0);
            var l := d.connect(host, user, password);
            RealEscapeString(made.state, d, text, NullLink).calls == [RealEscape(l, text)]
  {
  }

  /** An explicit link steers one call only: after any link-taking operation,
      a call without a link resolves to the link that was current before. */
  lemma ExplicitLinkIsNotStored(a: Adapter, d: Driver, link: Link, sql: string, db: string, text: string)
    ensures GetConnection(Query(a, d, sql, link).state.manager, NullLink) == GetCurrentConnection(a.manager)
    ensures GetConnection(AffectedRows(a, d, link).state.manager, NullLink) == GetCurrentConnection(a.manager)
    ensures GetConnection(SelectDb(a, d, db, link).state.manager, NullLink) == GetCurrentConnection(a.manager)
    ensures GetConnection(RealEscapeString(a, d, text, link).state.manager, NullLink) == GetCurrentConnection(a.manager)
    ensures GetConnection(Close(a, link).state.manager, NullLink) == GetCurrentConnection(a.manager)
  {
  }

  /** Whenever `query` reaches the driver, `affectedRows` on the same link does too. */
  lemma QueryGuardIsStricter(a: Adapter, d: Driver, sql: string, link: Link)
    requires RunsQuery(Query(a, d, sql, link).calls)
    ensures AffectedRows(a, d, link).calls != []
  {
  }

  /** With no usable current link both escape operations fall back to `addslashes`;
      with a current error-free mysqli and the adapter not closing, they give
      the same driver result. */
  lemma EscapeOperationsAgree(a: Adapter, d: Driver, text: string)
    ensures GetCurrentConnection(a.manager).falsy ==>
              EscapeString(a, d, text).value == AddSlashes(text) == RealEscapeString(a, d, text, NullLink).value
    ensures Closable(GetCurrentConnection(a.manager)) && !a.isClosing ==>
              EscapeString(a, d, text) == RealEscapeString(a, d, text, NullLink)
  {
  }

  /** After the first `fieldFlags` the flag table is fixed: later calls leave
      the adapter as it is and decode against the same table. */
  lemma FieldFlagsBuildsTableOnce(a: Adapter, d: Driver, res: ResultHandle, offset: int, res2: ResultHandle, offset2: int)
    requires CachesBuiltFrom(a, d)
    ensures var first := FieldFlags(a, d, res, offset);
            var second := FieldFlags(first.state, d, res2, offset2);
            && second.state == first.state
            && second.value == DecodeFlags(d.fieldFlags(res2, offset2), first.state.flagCache)
  {
  }

  /** Likewise for `fieldType`. */
  lemma FieldTypeBuildsTableOnce(a: Adapter, d: Driver, res: ResultHandle, offset: int, res2: ResultHandle, offset2: int)
    requires CachesBuiltFrom(a, d)
    ensures var first := FieldType(a, d, res, offset);
            var second := FieldType(first.state, d, res2, offset2);
            && second.state == first.state
            && second.value == Lookup(first.state.typeCache, d.fieldType(res2, offset2))
  {
  }

  /** A known type code is named after the last type constant with that value;
      an unknown one gives null. */
  lemma FieldTypeNamesLastConstant(a: Adapter, d: Driver, res: ResultHandle, offset: int, cs: seq<(string, int)>)
    requires CachesBuiltFrom(a, d) && d.constants == Some(cs)
    ensures FieldType(a, d, res, offset).value == LastTypeName(cs, d.fieldType(res, offset))
  {
  }

  /** The names `fieldFlags` decodes are exactly those of the first flag
      constant for each value that shares a bit with the field's bitmask. */
  lemma FieldFlagsNamesFirstConstants(a: Adapter, d: Driver, res: ResultHandle, offset: int, cs: seq<(string, int)>)
    requires CachesBuiltFrom(a, d) && d.constants == Some(cs)
    ensures var r := FieldFlags(a, d, res, offset);
            var bits := d.fieldFlags(res, offset);
            && r.value == DecodeFlags(bits, r.state.flagCache)
            && forall x :: x in FlagNames(bits, r.state.flagCache) <==>
                 exists v :: BitsShared(bits, v) && FirstFlagName(cs, v) == Some(x)
  {
    FlagNamesFirstConstants(d.fieldFlags(res, offset), cs);
  }
}
