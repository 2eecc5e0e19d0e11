/**
 The two lookup tables the adapter builds from the mysqli constant list
 (flag bit -> flag name, type code -> type name), and the decoding of a
 field's flag bitmask and type code into the legacy textual names.
 */
module FieldTables {
  import opened Php

  /** A PHP array with integer keys, in insertion order. */
  type Table = seq<(int, string)>

  function KeySet(t: Table): set<int>
  {
    set i | 0 <= i < |t| :: t[i].0
  }

  lemma KeySetConcat(a: Table, b: Table)
    ensures KeySet(a + b) == KeySet(a) + KeySet(b)
  {
    forall k | k in KeySet(a + b) ensures k in KeySet(a) + KeySet(b) {
      var i :| 0 <= i < |a + b| && (a + b)[i].0 == k;
      if i < |a| { assert a[i].0 == k; } else { assert b[i - |a|].0 == k; }
    }
    forall k | k in KeySet(a) + KeySet(b) ensures k in KeySet(a + b) {
      if k in KeySet(a) {
        var i :| 0 <= i < |a| && a[i].0 == k;
        assert (a + b)[i].0 == k;
      } else {
        var i :| 0 <= i < |b| && b[i].0 == k;
        assert (a + b)[i + |a|].0 == k;
      }
    }
  }

  lemma KeySetCons(p: (int, string), t: Table)
    ensures KeySet([p] + t) == {p.0} + KeySet(t)
    ensures KeySet(t + [p]) == KeySet(t) + {p.0}
  {
    KeySetConcat([p], t);
    KeySetConcat(t, [p]);
    assert KeySet([p]) == {p.0} by { assert [p][0].0 == p.0; }
  }

  predicate DistinctKeys(t: Table)
  {
    forall i, j :: 0 <= i < j < |t| ==> t[i].0 != t[j].0
  }

  /** `array_key_exists($k, $t) ? $t[$k] : null`. */
  function Lookup(t: Table, k: int): (r: Option<string>)
    ensures r.None? <==> k !in KeySet(t)
    ensures r.Some? ==> (k, r.value) in t
  {
    if |t| == 0 then None
    else if t[0].0 == k then Some(t[0].1)
    else
      KeySetCons(t[0], t[1..]);
      assert [t[0]] + t[1..] == t;
      Lookup(t[1..], k)
  }

  /** Appending a pair only answers for a key the table did not have. */
  lemma {:induction false} LookupAppend(t: Table, p: (int, string), k: int)
    ensures Lookup(t + [p], k)
         == if k in KeySet(t) then Lookup(t, k) else if p.0 == k then Some(p.1) else None
  {
    KeySetCons(p, t);
    if |t| == 0 {
      assert [p][1..] == [];
    } else {
      assert (t + [p])[1..] == t[1..] + [p];
      KeySetCons(t[0], t[1..]);
      assert [t[0]] + t[1..] == t;
      LookupAppend(t[1..], p, k);
    }
  }

  /** With one entry per key, each entry is what a lookup of its key finds. */
  lemma LookupEntry(t: Table, i: nat)
    requires DistinctKeys(t) && i < |t|
    ensures Lookup(t, t[i].0) == Some(t[i].1)
  {
    assert t[i].0 in KeySet(t);
    var r := Lookup(t, t[i].0);
    var j :| 0 <= j < |t| && t[j] == (t[i].0, r.value);
  }

  // ---------------------------------------------------------------------------
  // Recognising the constant names
  // ---------------------------------------------------------------------------

  const FlagMarker: string := "MYSQLI_"
  const FlagSuffix: string := "_FLAG"
  const TypePrefix: string := "MYSQLI_TYPE_"

  predicate OccursAt(s: string, pat: string, i: nat)
  {
    i + |pat| <= |s| && s[i..i + |pat|] == pat
  }

  predicate EndsWith(s: string, suffix: string)
  {
    |suffix| <= |s| && s[|s| - |suffix|..] == suffix
  }

  /** A position where `/MYSQLI_(.*)_FLAG$/` can start: "MYSQLI_" there, with
      room for "_FLAG" after it. */
  predicate FlagStart(name: string, i: nat)
  {
    i + |FlagMarker| + |FlagSuffix| <= |name| && OccursAt(name, FlagMarker, i)
  }

  /** The leftmost possible match start at or after `from`. */
  function LeftmostFlagStart(name: string, from: nat): (r: Option<nat>)
    ensures r.Some? ==> from <= r.value && FlagStart(name, r.value)
    ensures r.Some? ==> forall j :: from <= j < r.value ==> !FlagStart(name, j)
    ensures r.None? ==> forall j :: from <= j ==> !FlagStart(name, j)
    decreases |name| - from
  {
    if from + |FlagMarker| + |FlagSuffix| > |name| then None
    else if OccursAt(name, FlagMarker, from) then Some(from)
    else LeftmostFlagStart(name, from + 1)
  }

  /** The capture group of `/MYSQLI_(.*)_FLAG$/`. The pattern is not anchored
      at the start, so the match begins at the leftmost "MYSQLI_"; the greedy
      group then runs up to the final "_FLAG". */
  function FlagCapture(name: string): (r: Option<string>)
    ensures r.None? <==> !EndsWith(name, FlagSuffix) || forall i :: !FlagStart(name, i)
    ensures r.Some? ==> EndsWith(name, FlagMarker + r.value + FlagSuffix)
    ensures r.Some? ==> forall j :: 0 <= j < |name| - |FlagMarker + r.value + FlagSuffix| ==> !FlagStart(name, j)
  {
    if !EndsWith(name, FlagSuffix) then None
    else match LeftmostFlagStart(name, 0)
      case None => None
      case Some(i) =>
        var x := name[i + |FlagMarker| .. |name| - |FlagSuffix|];
        FlagMatchShape(name, i);
        Some(x)
  }

  /** A match starting at `i` of a name ending in "_FLAG" covers the whole tail. */
  lemma FlagMatchShape(name: string, i: nat)
    requires EndsWith(name, FlagSuffix) && FlagStart(name, i)
    ensures var x := name[i + |FlagMarker| .. |name| - |FlagSuffix|];
            name[i..] == FlagMarker + x + FlagSuffix && EndsWith(name, FlagMarker + x + FlagSuffix)
  {
    var x := name[i + |FlagMarker| .. |name| - |FlagSuffix|];
    assert name[i..] == name[i..i + |FlagMarker|] + x + name[|name| - |FlagSuffix|..];
  }

  /** The capture group of `/^MYSQLI_TYPE_(.*)/`: everything after the prefix. */
  function TypeCapture(name: string): (r: Option<string>)
    ensures r.Some? <==> OccursAt(name, TypePrefix, 0)
    ensures r.Some? ==> name == TypePrefix + r.value
  {
    if OccursAt(name, TypePrefix, 0) then Some(name[|TypePrefix|..]) else None
  }

  /** A flag constant with the usual shape yields the text between the markers. */
  lemma StandardFlagName(x: string)
    ensures FlagCapture(FlagMarker + x + FlagSuffix) == Some(x)
  {
    var name := FlagMarker + x + FlagSuffix;
    assert OccursAt(name, FlagMarker, 0);
    assert name[|name| - |FlagSuffix|..] == FlagSuffix;
    assert name[|FlagMarker| .. |name| - |FlagSuffix|] == x;
  }

  /** A name matches both patterns exactly when it starts with "MYSQLI_TYPE_"
      and ends with "_FLAG": such a name lands in both tables. */
  lemma MatchesBothPatterns(name: string)
    ensures FlagCapture(name).Some? && TypeCapture(name).Some?
        <==> OccursAt(name, TypePrefix, 0) && EndsWith(name, FlagSuffix)
  {
    if OccursAt(name, TypePrefix, 0) && EndsWith(name, FlagSuffix) {
      assert name[..|FlagMarker|] == name[..|TypePrefix|][..|FlagMarker|];
      assert FlagStart(name, 0);
    }
  }

  /** The (value, captured name) pairs of the constants a pattern matches, in order. */
  function FlagCandidates(cs: seq<(string, int)>): Table
  {
    if |cs| == 0 then []
    else
      var rest := FlagCandidates(cs[..|cs| - 1]);
      var c := cs[|cs| - 1];
      match FlagCapture(c.0)
      case None => rest
      case Some(x) => rest + [(c.1, x)]
  }

  function TypeCandidates(cs: seq<(string, int)>): Table
  {
    if |cs| == 0 then []
    else
      var rest := TypeCandidates(cs[..|cs| - 1]);
      var c := cs[|cs| - 1];
      match TypeCapture(c.0)
      case None => rest
      case Some(x) => rest + [(c.1, x)]
  }

  // ---------------------------------------------------------------------------
  // First-wins table (flags)
  // ---------------------------------------------------------------------------

  /** The position of the first pair with key `k`, or `|ps|` if there is none. */
  function IndexOf(ps: Table, k: int): (r: nat)
    ensures r <= |ps|
    ensures r < |ps| <==> k in KeySet(ps)
    ensures r < |ps| ==> ps[r].0 == k
    ensures forall j :: 0 <= j < r ==> ps[j].0 != k
  {
    if |ps| == 0 then 0
    else if ps[0].0 == k then 0
    else
      KeySetCons(ps[0], ps[1..]);
      assert [ps[0]] + ps[1..] == ps;
      1 + IndexOf(ps[1..], k)
  }

  lemma IndexOfAppend(ps: Table, p: (int, string), k: int)
    ensures k in KeySet(ps) ==> IndexOf(ps + [p], k) == IndexOf(ps, k)
    ensures k !in KeySet(ps) && p.0 == k ==> IndexOf(ps + [p], k) == |ps|
  {
    var r, r' := IndexOf(ps, k), IndexOf(ps + [p], k);
    KeySetCons(p, ps);
    if k in KeySet(ps) {
      assert (ps + [p])[r] == ps[r];
    } else if p.0 == k {
      assert (ps + [p])[|ps|] == p;
    }
  }

  /** One step of the flag loop: keep the first name seen for a value. */
  function AddIfAbsent(t: Table, p: (int, string)): Table
  {
    if p.0 in KeySet(t) then t else t + [p]
  }

  function FirstWins(ps: Table): Table
  {
    if |ps| == 0 then [] else AddIfAbsent(FirstWins(ps[..|ps| - 1]), ps[|ps| - 1])
  }

  lemma AppendFreshKey(t: Table, p: (int, string))
    requires DistinctKeys(t) && p.0 !in KeySet(t)
    ensures DistinctKeys(t + [p])
    ensures KeySet(t + [p]) == KeySet(t) + {p.0}
  {
    KeySetCons(p, t);
    forall i | 0 <= i < |t| ensures (t + [p])[i].0 != p.0 {
      assert t[i].0 in KeySet(t);
    }
  }

  /** The first-wins table has exactly one entry per value that occurs. */
  lemma {:induction false} FirstWinsKeys(ps: Table)
    ensures DistinctKeys(FirstWins(ps))
    ensures KeySet(FirstWins(ps)) == KeySet(ps)
  {
    if |ps| > 0 {
      var init, p := ps[..|ps| - 1], ps[|ps| - 1];
      assert ps == init + [p];
      FirstWinsKeys(init);
      KeySetCons(p, init);
      if p.0 !in KeySet(FirstWins(init)) {
        AppendFreshKey(FirstWins(init), p);
      }
    }
  }

  /** Each entry of the first-wins table is the first pair with its value,
      and the entries come in order of first occurrence. */
  lemma {:induction false} FirstWinsSpec(ps: Table)
    ensures forall a :: 0 <= a < |FirstWins(ps)| ==>
              IndexOf(ps, FirstWins(ps)[a].0) < |ps| &&
              FirstWins(ps)[a] == ps[IndexOf(ps, FirstWins(ps)[a].0)]
    ensures forall a, b :: 0 <= a < b < |FirstWins(ps)| ==>
              IndexOf(ps, FirstWins(ps)[a].0) < IndexOf(ps, FirstWins(ps)[b].0)
  {
    if |ps| > 0 {
      var init, p := ps[..|ps| - 1], ps[|ps| - 1];
      assert ps == init + [p];
      FirstWinsSpec(init);
      FirstWinsKeys(init);
      var t := FirstWins(init);
      var t' := FirstWins(ps);
      forall a | 0 <= a < |t|
        ensures IndexOf(ps, t[a].0) == IndexOf(init, t[a].0) < |init|
        ensures t[a] == ps[IndexOf(ps, t[a].0)]
      {
        assert t[a].0 in KeySet(t);
        IndexOfAppend(init, p, t[a].0);
      }
      if p.0 !in KeySet(t) {
        assert t' == t + [p];
        IndexOfAppend(init, p, p.0);
        assert t'[|t|] == p;
      } else {
        assert t' == t;
      }
    }
  }

  // ---------------------------------------------------------------------------
  // Last-wins table (types)
  // ---------------------------------------------------------------------------

  /** `$t[$k] = $v`: an existing key keeps its position and takes the new value. */
  function Put(t: Table, k: int, v: string): (r: Table)
    ensures Lookup(r, k) == Some(v)
    ensures forall k' :: k' != k ==> Lookup(r, k') == Lookup(t, k')
  {
    if |t| == 0 then [(k, v)]
    else if t[0].0 == k then [(k, v)] + t[1..]
    else [t[0]] + Put(t[1..], k, v)
  }

  lemma HeadKeyFresh(t: Table)
    requires |t| > 0 && DistinctKeys(t)
    ensures t[0].0 !in KeySet(t[1..])
  {
    forall i | 0 <= i < |t[1..]| ensures t[1..][i].0 != t[0].0 {
      assert t[1..][i] == t[i + 1];
    }
  }

  lemma {:induction false} PutKeys(t: Table, k: int, v: string)
    ensures KeySet(Put(t, k, v)) == KeySet(t) + {k}
  {
    if |t| == 0 {
      KeySetCons((k, v), []);
    } else {
      assert [t[0]] + t[1..] == t;
      KeySetCons(t[0], t[1..]);
      if t[0].0 == k {
        KeySetCons((k, v), t[1..]);
      } else {
        PutKeys(t[1..], k, v);
        KeySetCons(t[0], Put(t[1..], k, v));
      }
    }
  }

  lemma {:induction false} PutDistinct(t: Table, k: int, v: string)
    requires DistinctKeys(t)
    ensures DistinctKeys(Put(t, k, v))
  {
    var r := Put(t, k, v);
    if |t| > 0 {
      HeadKeyFresh(t);
      if t[0].0 == k {
        assert forall i :: 0 < i < |r| ==> r[i] == t[i];
      } else {
        var rest := Put(t[1..], k, v);
        assert DistinctKeys(t[1..]);
        PutDistinct(t[1..], k, v);
        PutKeys(t[1..], k, v);
        forall j | 0 < j < |r| ensures r[j].0 != t[0].0 {
          assert r[j] == rest[j - 1];
          assert r[j].0 in KeySet(rest);
        }
      }
    }
  }

  function LastWins(ps: Table): Table
  {
    if |ps| == 0 then [] else Put(LastWins(ps[..|ps| - 1]), ps[|ps| - 1].0, ps[|ps| - 1].1)
  }

  /** The name of the last pair with key `k`, scanning from the front. */
  function LastFor(ps: Table, k: int): Option<string>
  {
    if |ps| == 0 then None
    else match LastFor(ps[1..], k)
      case Some(v) => Some(v)
      case None => if ps[0].0 == k then Some(ps[0].1) else None
  }

  lemma {:induction false} LastForAppend(ps: Table, p: (int, string), k: int)
    ensures LastFor(ps + [p], k) == if p.0 == k then Some(p.1) else LastFor(ps, k)
  {
    if |ps| == 0 {
      assert [p][1..] == [];
    } else {
      assert (ps + [p])[1..] == ps[1..] + [p];
      LastForAppend(ps[1..], p, k);
    }
  }

  /** The last-wins table maps every value to the name of its last pair,
      and has one entry per value. */
  lemma {:induction false} LastWinsSpec(ps: Table)
    ensures DistinctKeys(LastWins(ps))
    ensures KeySet(LastWins(ps)) == KeySet(ps)
    ensures forall k :: Lookup(LastWins(ps), k) == LastFor(ps, k)
  {
    if |ps| > 0 {
      var init, p := ps[..|ps| - 1], ps[|ps| - 1];
      assert ps == init + [p];
      LastWinsSpec(init);
      KeySetCons(p, init);
      PutKeys(LastWins(init), p.0, p.1);
      PutDistinct(LastWins(init), p.0, p.1);
      forall k { LastForAppend(init, p, k); }
    }
  }

  // ---------------------------------------------------------------------------
  // The caches and the decoders
  // ---------------------------------------------------------------------------

  /** A constant the flag pattern matches, with value `v`. */
  predicate FlagConstant(c: (string, int), v: int)
  {
    c.1 == v && FlagCapture(c.0).Some?
  }

  /** A constant the type pattern matches, with value `v`. */
  predicate TypeConstant(c: (string, int), v: int)
  {
    c.1 == v && TypeCapture(c.0).Some?
  }

  /** The name the first flag constant with value `v` carries, if there is one. */
  function FirstFlagName(cs: seq<(string, int)>, v: int): (r: Option<string>)
    ensures r.None? <==> forall j :: 0 <= j < |cs| ==> !FlagConstant(cs[j], v)
    ensures r.Some? ==>
              exists j :: 0 <= j < |cs| && FlagConstant(cs[j], v) && FlagCapture(cs[j].0) == r
                          && forall i :: 0 <= i < j ==> !FlagConstant(cs[i], v)
  {
    if |cs| == 0 then None
    else if FlagConstant(cs[0], v) then FlagCapture(cs[0].0)
    else
      FirstFlagNameSkip(cs, v);
      FirstFlagName(cs[1..], v)
  }

  /** Skipping a first constant that is not a flag constant for `v` keeps the
      first-match property, shifted by one. */
  lemma FirstFlagNameSkip(cs: seq<(string, int)>, v: int)
    requires |cs| > 0 && !FlagConstant(cs[0], v)
    ensures (forall j :: 0 <= j < |cs[1..]| ==> !FlagConstant(cs[1..][j], v))
        <==> (forall j :: 0 <= j < |cs| ==> !FlagConstant(cs[j], v))
    ensures forall j :: 0 <= j < |cs[1..]| && FlagConstant(cs[1..][j], v)
                        && (forall i :: 0 <= i < j ==> !FlagConstant(cs[1..][i], v)) ==>
              FlagConstant(cs[j + 1], v) && cs[j + 1] == cs[1..][j]
              && forall i :: 0 <= i < j + 1 ==> !FlagConstant(cs[i], v)
  {
    assert forall j :: 1 <= j < |cs| ==> cs[j] == cs[1..][j - 1];
  }

  /** The name the last type constant with value `v` carries, if there is one. */
  function LastTypeName(cs: seq<(string, int)>, v: int): (r: Option<string>)
    ensures r.None? <==> forall j :: 0 <= j < |cs| ==> !TypeConstant(cs[j], v)
    ensures r.Some? ==>
              exists j :: 0 <= j < |cs| && TypeConstant(cs[j], v) && TypeCapture(cs[j].0) == r
                          && forall i :: j < i < |cs| ==> !TypeConstant(cs[i], v)
  {
    if |cs| == 0 then None
    else
      var rest := LastTypeName(cs[1..], v);
      assert forall j :: 1 <= j < |cs| ==> cs[j] == cs[1..][j - 1];
      if rest.Some? then rest
      else if TypeConstant(cs[0], v) then TypeCapture(cs[0].0)
      else None
  }

  lemma {:induction false} FirstFlagNameAppend(cs: seq<(string, int)>, c: (string, int), v: int)
    ensures FirstFlagName(cs + [c], v)
         == if FirstFlagName(cs, v).Some? then FirstFlagName(cs, v)
            else if FlagConstant(c, v) then FlagCapture(c.0) else None
  {
    if |cs| == 0 {
      assert [c][1..] == [];
    } else {
      assert (cs + [c])[1..] == cs[1..] + [c];
      FirstFlagNameAppend(cs[1..], c, v);
    }
  }

  lemma {:induction false} LastTypeNameAppend(cs: seq<(string, int)>, c: (string, int), v: int)
    ensures LastTypeName(cs + [c], v)
         == if TypeConstant(c, v) then TypeCapture(c.0) else LastTypeName(cs, v)
  {
    if |cs| == 0 {
      assert [c][1..] == [];
    } else {
      assert (cs + [c])[1..] == cs[1..] + [c];
      LastTypeNameAppend(cs[1..], c, v);
    }
  }

  /** The flag table built from a constant list maps each value to the name of
      the first flag constant with that value, and has one entry per value. */
  lemma {:induction false} FlagTableMeaning(cs: seq<(string, int)>)
    ensures DistinctKeys(FirstWins(FlagCandidates(cs)))
    ensures forall v :: Lookup(FirstWins(FlagCandidates(cs)), v) == FirstFlagName(cs, v)
  {
    FirstWinsKeys(FlagCandidates(cs));
    if |cs| > 0 {
      var init, c := cs[..|cs| - 1], cs[|cs| - 1];
      assert cs == init + [c];
      FlagTableMeaning(init);
      var ps := FlagCandidates(init);
      var t := FirstWins(ps);
      forall v ensures Lookup(FirstWins(FlagCandidates(cs)), v) == FirstFlagName(cs, v) {
        FirstFlagNameAppend(init, c, v);
        match FlagCapture(c.0)
        case None =>
          assert FlagCandidates(cs) == ps;
        case Some(x) =>
          var p := (c.1, x);
          assert FlagCandidates(cs) == ps + [p];
          assert (ps + [p])[..|ps|] == ps;
          assert FirstWins(ps + [p]) == AddIfAbsent(t, p);
          if p.0 !in KeySet(t) {
            LookupAppend(t, p, v);
          }
      }
    }
  }

  lemma {:induction false} LastForTypeCandidates(cs: seq<(string, int)>, v: int)
    ensures LastFor(TypeCandidates(cs), v) == LastTypeName(cs, v)
  {
    if |cs| > 0 {
      var init, c := cs[..|cs| - 1], cs[|cs| - 1];
      assert cs == init + [c];
      LastForTypeCandidates(init, v);
      LastTypeNameAppend(init, c, v);
      match TypeCapture(c.0)
      case None =>
      case Some(x) =>
        LastForAppend(TypeCandidates(init), (c.1, x), v);
    }
  }

  /** The type table built from a constant list maps each value to the name of
      the last type constant with that value, and has one entry per value. */
  lemma TypeTableMeaning(cs: seq<(string, int)>)
    ensures DistinctKeys(LastWins(TypeCandidates(cs)))
    ensures forall v :: Lookup(LastWins(TypeCandidates(cs)), v) == LastTypeName(cs, v)
  {
    LastWinsSpec(TypeCandidates(cs));
    forall v ensures LastFor(TypeCandidates(cs), v) == LastTypeName(cs, v) {
      LastForTypeCandidates(cs, v);
    }
  }

  /** `initFlagCache`: nothing when the extension is absent, otherwise the
      first name per value among the flag constants. */
  function InitFlagCache(constants: Option<seq<(string, int)>>): (r: Table)
    ensures constants.None? ==> r == []
    ensures constants.Some? ==>
              && DistinctKeys(r)
              && forall v :: Lookup(r, v) == FirstFlagName(constants.value, v)
  {
    match constants
    case None => []
    case Some(cs) =>
      FlagTableMeaning(cs);
      FirstWins(FlagCandidates(cs))
  }

  /** `initTypeCache`: nothing when the extension is absent, otherwise the
      last name per value among the type constants. */
  function InitTypeCache(constants: Option<seq<(string, int)>>): (r: Table)
    ensures constants.None? ==> r == []
    ensures constants.Some? ==>
              && DistinctKeys(r)
              && forall v :: Lookup(r, v) == LastTypeName(constants.value, v)
  {
    match constants
    case None => []
    case Some(cs) =>
      TypeTableMeaning(cs);
      LastWins(TypeCandidates(cs))
  }

  /** The names of the entries whose value shares a bit with `bits`, in table order. */
  function FlagNames(bits: int, t: Table): (r: seq<string>)
    ensures |r| <= |t|
    ensures forall x :: x in r ==> exists i :: 0 <= i < |t| && t[i].1 == x && BitsShared(bits, t[i].0)
    ensures forall i :: 0 <= i < |t| && BitsShared(bits, t[i].0) ==> t[i].1 in r
  {
    if |t| == 0 then []
    else
      var rest := FlagNames(bits, t[1..]);
      assert forall i :: 1 <= i < |t| ==> t[i] == t[1..][i - 1];
      (if BitsShared(bits, t[0].0) then [t[0].1] else []) + rest
  }

  /** One step of the `foreach`: the first entry's name, if it matches, then the rest. */
  lemma FlagNamesCons(bits: int, t: Table)
    requires |t| > 0
    ensures FlagNames(bits, t)
         == (if BitsShared(bits, t[0].0) then [t[0].1] else []) + FlagNames(bits, t[1..])
  {
  }

  /** The names come in table order, one per matching entry: an entry added at
      the end contributes its name at the end, or nothing. */
  lemma {:induction false} FlagNamesAppend(bits: int, t: Table, p: (int, string))
    ensures FlagNames(bits, t + [p])
         == FlagNames(bits, t) + (if BitsShared(bits, p.0) then [p.1] else [])
  {
    var last := if BitsShared(bits, p.0) then [p.1] else [];
    if |t| == 0 {
      assert t + [p] == [p] && [p][1..] == [];
      FlagNamesCons(bits, [p]);
    } else {
      var u := t + [p];
      assert u[0] == t[0] && u[1..] == t[1..] + [p];
      var head := if BitsShared(bits, t[0].0) then [t[0].1] else [];
      FlagNamesCons(bits, u);
      FlagNamesCons(bits, t);
      FlagNamesAppend(bits, t[1..], p);
      ConcatAssoc(head, FlagNames(bits, t[1..]), last);
    }
  }

  lemma ConcatAssoc(a: seq<string>, b: seq<string>, c: seq<string>)
    ensures a + (b + c) == (a + b) + c
  {
  }

  lemma FlagNameHasConstant(bits: int, cs: seq<(string, int)>, x: string)
    requires x in FlagNames(bits, InitFlagCache(Some(cs)))
    ensures exists v :: BitsShared(bits, v) && FirstFlagName(cs, v) == Some(x)
  {
    var t := InitFlagCache(Some(cs));
    var i :| 0 <= i < |t| && t[i].1 == x && BitsShared(bits, t[i].0);
    LookupEntry(t, i);
    assert FirstFlagName(cs, t[i].0) == Some(x);
  }

  lemma ConstantHasFlagName(bits: int, cs: seq<(string, int)>, v: int)
    requires BitsShared(bits, v) && FirstFlagName(cs, v).Some?
    ensures FirstFlagName(cs, v).value in FlagNames(bits, InitFlagCache(Some(cs)))
  {
    var t := InitFlagCache(Some(cs));
    var x := FirstFlagName(cs, v).value;
    assert Lookup(t, v) == Some(x);
    var i :| 0 <= i < |t| && t[i] == (v, x);
    assert t[i].1 == x && BitsShared(bits, t[i].0);
  }

  /** Decoding against the table built from a constant list names exactly the
      first flag constant of each value that shares a bit with the mask. */
  lemma FlagNamesFirstConstants(bits: int, cs: seq<(string, int)>)
    ensures forall x :: x in FlagNames(bits, InitFlagCache(Some(cs))) <==>
              exists v :: BitsShared(bits, v) && FirstFlagName(cs, v) == Some(x)
  {
    forall x | x in FlagNames(bits, InitFlagCache(Some(cs)))
      ensures exists v :: BitsShared(bits, v) && FirstFlagName(cs, v) == Some(x)
    {
      FlagNameHasConstant(bits, cs, x);
    }
    forall v | BitsShared(bits, v) && FirstFlagName(cs, v).Some?
      ensures FirstFlagName(cs, v).value in FlagNames(bits, InitFlagCache(Some(cs)))
    {
      ConstantHasFlagName(bits, cs, v);
    }
  }

  const PriKey: string := "PRI_KEY"
  const PrimaryKey: string := "PRIMARY_KEY"

  /** How one flag name appears in the legacy output. */
  function LegacyFlagName(name: string): string
  {
    StrToLower(StrReplace(PriKey, PrimaryKey, name))
  }

  /** The body of `fieldFlags` after the field's bitmask is fetched: join the
      matching names with spaces, rename PRI_KEY, lower-case. */
  function DecodeFlags(bits: int, t: Table): (r: string)
    ensures forall i :: 0 <= i < |r| ==> !IsUpper(r[i])
  {
    StrToLower(StrReplace(PriKey, PrimaryKey, Implode(" ", FlagNames(bits, t))))
  }

  /** The whole-string rename and lower-casing act on each flag name separately:
      the output is the space-joined legacy spelling of each matching name. */
  lemma DecodeFlagsByName(bits: int, t: Table)
    ensures DecodeFlags(bits, t) == Implode(" ", MapStrings(LegacyFlagName, FlagNames(bits, t)))
  {
    var names := FlagNames(bits, t);
    var rename := s => StrReplace(PriKey, PrimaryKey, s);
    StrReplaceImplode(PriKey, PrimaryKey, names);
    StrToLowerImplode(MapStrings(rename, names));
    assert MapStrings(StrToLower, MapStrings(rename, names)) == MapStrings(LegacyFlagName, names);
  }

  /** A set primary-key bit shows up as the token "primary_key". */
  lemma PrimaryKeyFlag(bits: int, t: Table, i: nat)
    requires i < |t| && t[i].1 == PriKey && BitsShared(bits, t[i].0)
    ensures "primary_key" in MapStrings(LegacyFlagName, FlagNames(bits, t))
  {
    var names := FlagNames(bits, t);
    var j :| 0 <= j < |names| && names[j] == PriKey;
    LegacyPriKey();
    assert MapStrings(LegacyFlagName, names)[j] == "primary_key";
  }

  lemma LegacyPriKey()
    ensures LegacyFlagName(PriKey) == "primary_key"
  {
    assert PriKey[..|PriKey|] == PriKey;
    assert StrReplace(PriKey, PrimaryKey, PriKey) == PrimaryKey + StrReplace(PriKey, PrimaryKey, "");
  }
}
