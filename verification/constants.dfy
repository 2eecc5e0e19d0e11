/**
 The legacy constants: each `MYSQL_*` name is defined as the value of its
 `MYSQLI_*` counterpart, unless it is already defined. The process's
 constant table is a map from name to value.
 */
module Constants {
  import opened Php

  type Symbols = map<string, int>

  /** (legacy name, mysqli counterpart), in the order they are defined. */
  const Aliases: seq<(string, string)> := [
    ("MYSQL_BOTH", "MYSQLI_BOTH"),
    ("MYSQL_NUM", "MYSQLI_NUM"),
    ("MYSQL_ASSOC", "MYSQLI_ASSOC"),
    ("MYSQL_CLIENT_COMPRESS", "MYSQLI_CLIENT_COMPRESS"),
    ("MYSQL_CLIENT_SSL", "MYSQLI_CLIENT_SSL"),
    ("MYSQL_CLIENT_INTERACTIVE", "MYSQLI_CLIENT_INTERACTIVE"),
    ("MYSQL_CLIENT_IGNORE_SPACE", "MYSQLI_CLIENT_IGNORE_SPACE")
  ]

  /** A name some alias defines. */
  predicate Defines(aliases: seq<(string, string)>, name: string)
  {
    exists i :: 0 <= i < |aliases| && aliases[i].0 == name
  }

  /** Legacy names are distinct and none is also a counterpart, so defining
      one alias never changes what another alias reads or writes. */
  predicate WellFormed(aliases: seq<(string, string)>)
  {
    && (forall i, j :: 0 <= i < j < |aliases| ==> aliases[i].0 != aliases[j].0)
    && (forall i, j :: 0 <= i < |aliases| && 0 <= j < |aliases| ==> aliases[i].0 != aliases[j].1)
  }

  /** Every alias can be completed: its legacy name or its counterpart is defined. */
  predicate Resolvable(defs: Symbols, aliases: seq<(string, string)>)
  {
    forall i :: 0 <= i < |aliases| ==> aliases[i].0 in defs || aliases[i].1 in defs
  }

  /** The define-if-undefined steps in order. Reading an undefined
      counterpart raises an Error in PHP: the run stops there, keeping the
      definitions already made. */
  function DefineAll(defs: Symbols, aliases: seq<(string, string)>): (r: Completion<Symbols>)
    requires WellFormed(aliases)
    ensures r.error.None? <==> Resolvable(defs, aliases)
    ensures forall n :: n in defs ==> n in r.state && r.state[n] == defs[n]
    ensures r.error.None? ==>
              forall i :: 0 <= i < |aliases| && aliases[i].0 !in defs ==>
                aliases[i].0 in r.state && r.state[aliases[i].0] == defs[aliases[i].1]
    decreases |aliases|
  {
    if |aliases| == 0 then Completion(defs, None)
    else
      var legacy, modern := aliases[0].0, aliases[0].1;
      var rest := aliases[1..];
      assert forall i :: 1 <= i < |aliases| ==> aliases[i] == rest[i - 1];
      if legacy in defs then DefineAll(defs, rest)
      else if modern !in defs then Completion(defs, Some(modern))
      else
        var defs' := defs[legacy := defs[modern]];
        assert forall i :: 0 <= i < |rest| ==> rest[i].1 != legacy && rest[i].0 != legacy;
        DefineAll(defs', rest)
  }

  /** A run that stops names the counterpart of an alias that was not
      defined either way; nothing but legacy names is ever added. */
  lemma {:induction false} DefineAllErrorAndDomain(defs: Symbols, aliases: seq<(string, string)>)
    requires WellFormed(aliases)
    ensures var r := DefineAll(defs, aliases);
            r.error.Some? ==>
              exists i :: 0 <= i < |aliases| && aliases[i].0 !in defs && aliases[i].1 !in defs
                          && r.error.value == aliases[i].1
    ensures forall n :: n !in defs && n in DefineAll(defs, aliases).state ==> Defines(aliases, n)
    decreases |aliases|
  {
    if |aliases| > 0 {
      var legacy, modern := aliases[0].0, aliases[0].1;
      var rest := aliases[1..];
      assert forall i :: 1 <= i < |aliases| ==> aliases[i] == rest[i - 1];
      if legacy in defs {
        DefineAllErrorAndDomain(defs, rest);
      } else if modern in defs {
        var defs' := defs[legacy := defs[modern]];
        assert forall i :: 0 <= i < |rest| ==> rest[i].1 != legacy && rest[i].0 != legacy;
        DefineAllErrorAndDomain(defs', rest);
        assert Defines(aliases, legacy);
      }
    }
  }

  /** The index of the first alias with neither name defined, or
      `|aliases|` when every alias can be completed. */
  function FirstMissing(defs: Symbols, aliases: seq<(string, string)>): (k: nat)
    ensures k <= |aliases|
    ensures forall i :: 0 <= i < k ==> aliases[i].0 in defs || aliases[i].1 in defs
    ensures k < |aliases| ==> aliases[k].0 !in defs && aliases[k].1 !in defs
    decreases |aliases|
  {
    if |aliases| == 0 then 0
    else if aliases[0].0 !in defs && aliases[0].1 !in defs then 0
    else
      var rest := aliases[1..];
      assert forall i :: 1 <= i < |aliases| ==> aliases[i] == rest[i - 1];
      1 + FirstMissing(defs, rest)
  }

  /** The first missing alias depends only on which of the aliases' own
      names are defined. */
  lemma {:induction false} FirstMissingSameNames(defs: Symbols, defs': Symbols, aliases: seq<(string, string)>)
    requires forall i :: 0 <= i < |aliases| ==>
               (aliases[i].0 in defs <==> aliases[i].0 in defs') && (aliases[i].1 in defs <==> aliases[i].1 in defs')
    ensures FirstMissing(defs, aliases) == FirstMissing(defs', aliases)
    decreases |aliases|
  {
    if |aliases| > 0 {
      var rest := aliases[1..];
      assert forall i :: 1 <= i < |aliases| ==> aliases[i] == rest[i - 1];
      FirstMissingSameNames(defs, defs', rest);
    }
  }

  /** Whether or not the run stops, every name it adds is the legacy name of
      an alias whose counterpart was defined, and gets that counterpart's value. */
  lemma {:induction false} DefineAllAddsCounterparts(defs: Symbols, aliases: seq<(string, string)>)
    requires WellFormed(aliases)
    ensures var r := DefineAll(defs, aliases);
            forall n :: n !in defs && n in r.state ==>
              exists i :: 0 <= i < |aliases| && aliases[i].0 == n && aliases[i].1 in defs
                          && r.state[n] == defs[aliases[i].1]
    decreases |aliases|
  {
    if |aliases| > 0 {
      var legacy, modern := aliases[0].0, aliases[0].1;
      var rest := aliases[1..];
      assert forall i :: 1 <= i < |aliases| ==> aliases[i] == rest[i - 1];
      if legacy in defs {
        DefineAllAddsCounterparts(defs, rest);
        var r := DefineAll(defs, rest);
        forall n | n !in defs && n in r.state
          ensures exists i :: 0 <= i < |aliases| && aliases[i].0 == n && aliases[i].1 in defs
                              && r.state[n] == defs[aliases[i].1]
        {
          var i :| 0 <= i < |rest| && rest[i].0 == n && rest[i].1 in defs && r.state[n] == defs[rest[i].1];
          assert aliases[i + 1] == rest[i];
        }
      } else if modern in defs {
        var defs' := defs[legacy := defs[modern]];
        assert forall i :: 0 <= i < |rest| ==> rest[i].1 != legacy && rest[i].0 != legacy;
        DefineAllAddsCounterparts(defs', rest);
        var r := DefineAll(defs', rest);
        forall n | n !in defs && n in r.state
          ensures exists i :: 0 <= i < |aliases| && aliases[i].0 == n && aliases[i].1 in defs
                              && r.state[n] == defs[aliases[i].1]
        {
          if n == legacy {
            assert aliases[0].0 == n && r.state[n] == defs[aliases[0].1];
          } else {
            var i :| 0 <= i < |rest| && rest[i].0 == n && rest[i].1 in defs' && r.state[n] == defs'[rest[i].1];
            assert aliases[i + 1] == rest[i];
          }
        }
      }
    }
  }

  /** The run stops exactly when some alias is missing both names, and then
      with an Error naming the counterpart of the first such alias. */
  lemma {:induction false} DefineAllErrorAtFirstMissing(defs: Symbols, aliases: seq<(string, string)>)
    requires WellFormed(aliases)
    ensures var r, k := DefineAll(defs, aliases), FirstMissing(defs, aliases);
            && (r.error.Some? <==> k < |aliases|)
            && (r.error.Some? ==> r.error.value == aliases[k].1)
    decreases |aliases|
  {
    if |aliases| > 0 {
      var legacy, modern := aliases[0].0, aliases[0].1;
      var rest := aliases[1..];
      assert forall i :: 1 <= i < |aliases| ==> aliases[i] == rest[i - 1];
      if legacy in defs {
        DefineAllErrorAtFirstMissing(defs, rest);
        assert FirstMissing(defs, aliases) == 1 + FirstMissing(defs, rest);
      } else if modern in defs {
        var defs' := defs[legacy := defs[modern]];
        assert forall i :: 0 <= i < |rest| ==> rest[i].1 != legacy && rest[i].0 != legacy;
        DefineAllErrorAtFirstMissing(defs', rest);
        FirstMissingSameNames(defs, defs', rest);
        assert FirstMissing(defs, aliases) == 1 + FirstMissing(defs, rest);
      }
    }
  }

  /** A run defines every alias before the first one missing both names, and
      no undefined legacy name from that alias on: the Error ends the run. */
  lemma {:induction false} DefineAllStopsAtFirstMissing(defs: Symbols, aliases: seq<(string, string)>)
    requires WellFormed(aliases)
    ensures var r, k := DefineAll(defs, aliases), FirstMissing(defs, aliases);
            && (forall j :: 0 <= j < k ==> aliases[j].0 in r.state)
            && (forall j :: k <= j < |aliases| && aliases[j].0 !in defs ==> aliases[j].0 !in r.state)
    decreases |aliases|
  {
    if |aliases| > 0 {
      var legacy, modern := aliases[0].0, aliases[0].1;
      var rest := aliases[1..];
      assert forall i :: 1 <= i < |aliases| ==> aliases[i] == rest[i - 1];
      if legacy in defs {
        DefineAllStopsAtFirstMissing(defs, rest);
        assert FirstMissing(defs, aliases) == 1 + FirstMissing(defs, rest);
      } else if modern in defs {
        var defs' := defs[legacy := defs[modern]];
        assert forall i :: 0 <= i < |rest| ==> rest[i].1 != legacy && rest[i].0 != legacy;
        DefineAllStopsAtFirstMissing(defs', rest);
        FirstMissingSameNames(defs, defs', rest);
        assert FirstMissing(defs, aliases) == 1 + FirstMissing(defs, rest);
      }
    }
  }

  /** When every legacy name is already defined nothing changes. */
  lemma {:induction false} DefineAllNoop(defs: Symbols, aliases: seq<(string, string)>)
    requires WellFormed(aliases)
    requires forall i :: 0 <= i < |aliases| ==> aliases[i].0 in defs
    ensures DefineAll(defs, aliases) == Completion(defs, None)
    decreases |aliases|
  {
    if |aliases| > 0 {
      var rest := aliases[1..];
      assert forall i :: 1 <= i < |aliases| ==> aliases[i] == rest[i - 1];
      DefineAllNoop(defs, rest);
    }
  }

  /** The seven legacy names have seven different lengths, and a legacy name
      has '_' where a counterpart has 'I' (after "MYSQL"). */
  lemma AliasShapes()
    ensures |Aliases[0].0| == 10 && Aliases[0].0[5] == '_' && Aliases[0].1[5] == 'I'
    ensures |Aliases[1].0| == 9 && Aliases[1].0[5] == '_' && Aliases[1].1[5] == 'I'
    ensures |Aliases[2].0| == 11 && Aliases[2].0[5] == '_' && Aliases[2].1[5] == 'I'
    ensures |Aliases[3].0| == 21 && Aliases[3].0[5] == '_' && Aliases[3].1[5] == 'I'
    ensures |Aliases[4].0| == 16 && Aliases[4].0[5] == '_' && Aliases[4].1[5] == 'I'
    ensures |Aliases[5].0| == 24 && Aliases[5].0[5] == '_' && Aliases[5].1[5] == 'I'
    ensures |Aliases[6].0| == 25 && Aliases[6].0[5] == '_' && Aliases[6].1[5] == 'I'
  {
  }

  lemma AliasesWellFormed()
    ensures WellFormed(Aliases)
  {
    AliasShapes();
    assert forall i :: 0 <= i < |Aliases| ==> Aliases[i].0[5] == '_' && Aliases[i].1[5] == 'I';
  }

  /** `initialize`. */
  function Initialize(defs: Symbols): (r: Completion<Symbols>)
    ensures r.error.None? <==> Resolvable(defs, Aliases)
    ensures r.error.None? ==> forall i :: 0 <= i < |Aliases| ==> Aliases[i].0 in r.state
    ensures forall n :: n in defs ==> n in r.state && r.state[n] == defs[n]
    ensures r.error.None? ==>
              forall i :: 0 <= i < |Aliases| && Aliases[i].0 !in defs ==>
                r.state[Aliases[i].0] == defs[Aliases[i].1]
    ensures forall n :: n !in defs && n in r.state ==> Defines(Aliases, n)
    ensures r.error.Some? ==>
              exists i :: 0 <= i < |Aliases| && Aliases[i].0 !in defs && Aliases[i].1 !in defs
                          && r.error.value == Aliases[i].1
    ensures forall n :: n !in defs && n in r.state ==>
              exists i :: 0 <= i < |Aliases| && Aliases[i].0 == n && Aliases[i].1 in defs
                          && r.state[n] == defs[Aliases[i].1]
    ensures var k := FirstMissing(defs, Aliases);
            && (r.error.Some? <==> k < |Aliases|)
            && (r.error.Some? ==> r.error.value == Aliases[k].1)
            && (forall j :: 0 <= j < k ==> Aliases[j].0 in r.state)
            && (forall j :: k <= j < |Aliases| && Aliases[j].0 !in defs ==> Aliases[j].0 !in r.state)
  {
    AliasesWellFormed();
    DefineAllErrorAndDomain(defs, Aliases);
    DefineAllAddsCounterparts(defs, Aliases);
    DefineAllErrorAtFirstMissing(defs, Aliases);
    DefineAllStopsAtFirstMissing(defs, Aliases);
    DefineAll(defs, Aliases)
  }

  /** Running the steps again on what a run left behind gives the same
      outcome, also when the run stopped at a missing counterpart: the names
      it defined are skipped and the same counterpart is still missing. */
  lemma {:induction false} DefineAllStable(defs: Symbols, aliases: seq<(string, string)>)
    requires WellFormed(aliases)
    ensures DefineAll(DefineAll(defs, aliases).state, aliases) == DefineAll(defs, aliases)
    decreases |aliases|
  {
    if |aliases| > 0 {
      var legacy, modern := aliases[0].0, aliases[0].1;
      var rest := aliases[1..];
      assert forall i :: 1 <= i < |aliases| ==> aliases[i] == rest[i - 1];
      if legacy in defs {
        DefineAllStable(defs, rest);
      } else if modern in defs {
        var defs' := defs[legacy := defs[modern]];
        assert forall i :: 0 <= i < |rest| ==> rest[i].1 != legacy && rest[i].0 != legacy;
        DefineAllStable(defs', rest);
      }
    }
  }

  /** `initialize` run on its own outcome, finished or not, repeats that outcome. */
  lemma InitializeStable(defs: Symbols)
    ensures Initialize(Initialize(defs).state) == Initialize(defs)
  {
    AliasesWellFormed();
    DefineAllStable(defs, Aliases);
  }

  /** When all seven legacy names are already defined, `initialize` changes nothing. */
  lemma InitializeNoop(defs: Symbols)
    requires forall i :: 0 <= i < |Aliases| ==> Aliases[i].0 in defs
    ensures Initialize(defs) == Completion(defs, None)
  {
    AliasesWellFormed();
    DefineAllNoop(defs, Aliases);
  }

  /** With the mysqli constants present, all seven legacy names end up defined. */
  lemma InitializeDefinesAll(defs: Symbols)
    requires forall i :: 0 <= i < |Aliases| ==> Aliases[i].1 in defs
    ensures Initialize(defs).error.None?
    ensures forall i :: 0 <= i < |Aliases| ==> Aliases[i].0 in Initialize(defs).state
  {
  }
}
