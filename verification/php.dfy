/**
 PHP runtime primitives the shim relies on: the `false` return sentinel,
 `empty()` on strings, the byte-string functions `addslashes`, `stripslashes`,
 `strtolower`, `implode` and `str_replace`, and the bitwise `&` of PHP's
 64-bit integers.
 */
module Php {

  datatype Option<+T> = None | Some(value: T)

  /** A PHP return value that is either the boolean `false` sentinel or a real value. */
  datatype Reply<+T> = False | Value(value: T)

  /** The state a call leaves behind, and the name of the undefined constant
      whose use aborted it (PHP raises an Error for it), if any. */
  datatype Completion<+T> = Completion(state: T, error: Option<string>)

  /** `empty($s)` for a string: true exactly for "" and "0". */
  predicate EmptyString(s: string)
  {
    s == "" || s == "0"
  }

  // ---------------------------------------------------------------------------
  // addslashes / stripslashes
  // ---------------------------------------------------------------------------

  /** The characters `addslashes` escapes: single quote, double quote, backslash, NUL. */
  predicate NeedsSlash(c: char)
  {
    c == '\'' || c == '"' || c == '\\' || c == '\0'
  }

  /** One character as `addslashes` writes it: NUL becomes backslash-zero,
      the other three special characters get a backslash in front. */
  function EscapeChar(c: char): (r: string)
    ensures NeedsSlash(c) ==> |r| == 2 && r[0] == '\\'
    ensures !NeedsSlash(c) ==> r == [c]
  {
    if c == '\0' then ['\\', '0']
    else if NeedsSlash(c) then ['\\', c]
    else [c]
  }

  function AddSlashes(s: string): (r: string)
    ensures |r| >= |s|
    ensures (forall i :: 0 <= i < |s| ==> !NeedsSlash(s[i])) ==> r == s
  {
    if s == [] then [] else EscapeChar(s[0]) + AddSlashes(s[1..])
  }

  /** `stripslashes`: a backslash is dropped and the character after it is
      kept literally, except that backslash-zero becomes NUL; a trailing lone
      backslash disappears. */
  function StripSlashes(s: string): string
    decreases |s|
  {
    if s == [] then []
    else if s[0] != '\\' then [s[0]] + StripSlashes(s[1..])
    else if |s| == 1 then []
    else (if s[1] == '0' then ['\0'] else [s[1]]) + StripSlashes(s[2..])
  }

  lemma StripEscapedChar(c: char, t: string)
    ensures StripSlashes(EscapeChar(c) + t) == [c] + StripSlashes(t)
  {
    var e := EscapeChar(c);
    if NeedsSlash(c) {
      assert (e + t)[0] == '\\' && (e + t)[1] == e[1];
      assert (e + t)[2..] == t;
    } else {
      assert (e + t)[0] == c && (e + t)[1..] == t;
    }
  }

  /** `stripslashes` undoes `addslashes`: escaping loses no information. */
  lemma {:induction false} StripSlashesOfAddSlashes(s: string)
    ensures StripSlashes(AddSlashes(s)) == s
  {
    if s != [] {
      StripEscapedChar(s[0], AddSlashes(s[1..]));
      StripSlashesOfAddSlashes(s[1..]);
      assert [s[0]] + s[1..] == s;
    }
  }

  /** Every quote that survives escaping is preceded by a backslash. */
  lemma {:induction false} AddSlashesQuotesEscaped(s: string, i: nat)
    requires i < |AddSlashes(s)| && AddSlashes(s)[i] == '\''
    ensures i > 0 && AddSlashes(s)[i - 1] == '\\'
  {
    var e := EscapeChar(s[0]);
    var rest := AddSlashes(s[1..]);
    assert AddSlashes(s) == e + rest;
    if i < |e| {
      assert e[i] == '\'';
      assert NeedsSlash(s[0]) && i == 1;
    } else {
      AddSlashesQuotesEscaped(s[1..], i - |e|);
      if i - |e| > 0 {
        assert (e + rest)[i - 1] == rest[i - |e| - 1];
      }
    }
  }

  // ---------------------------------------------------------------------------
  // strtolower
  // ---------------------------------------------------------------------------

  predicate IsUpper(c: char)
  {
    'A' <= c <= 'Z'
  }

  /** ASCII lower-casing, as PHP's locale-independent `strtolower`. */
  function LowerChar(c: char): (r: char)
    ensures !IsUpper(r)
    ensures !IsUpper(c) ==> r == c
  {
    if IsUpper(c) then (c as int + 32) as char else c
  }

  function StrToLower(s: string): (r: string)
    ensures |r| == |s|
    ensures forall i :: 0 <= i < |s| ==> r[i] == LowerChar(s[i])
  {
    seq(|s|, i requires 0 <= i < |s| => LowerChar(s[i]))
  }

  /** Lower-casing works character by character, so it splits over concatenation. */
  lemma StrToLowerConcat(a: string, b: string)
    ensures StrToLower(a + b) == StrToLower(a) + StrToLower(b)
  {
  }

  // ---------------------------------------------------------------------------
  // implode / str_replace
  // ---------------------------------------------------------------------------

  function Implode(sep: string, xs: seq<string>): string
  {
    if |xs| == 0 then ""
    else if |xs| == 1 then xs[0]
    else xs[0] + sep + Implode(sep, xs[1..])
  }

  /** `str_replace(search, rep, s)`: a left-to-right scan replacing each
      non-overlapping occurrence of `search`; an empty `search` leaves `s` alone. */
  function StrReplace(search: string, rep: string, s: string): string
    decreases |s|
  {
    if |search| == 0 || |s| < |search| then s
    else if s[..|search|] == search then rep + StrReplace(search, rep, s[|search|..])
    else [s[0]] + StrReplace(search, rep, s[1..])
  }

  /** A replacement never reaches across a character the search string does
      not contain, so `str_replace` splits at such a character. */
  lemma {:induction false} StrReplaceSplits(search: string, rep: string, a: string, c: char, b: string)
    requires c !in search
    ensures StrReplace(search, rep, a + [c] + b)
         == StrReplace(search, rep, a) + [c] + StrReplace(search, rep, b)
    decreases |a|
  {
    var s := a + [c] + b;
    var k := |search|;
    if |a| < k <= |s| {
      // the prefix of length k holds c, which the search string lacks
      assert s[..k][|a|] == c;
    }
    if k == 0 || |s| < k {
    } else if s[..k] == search {
      assert a[..k] == search;
      assert s[k..] == a[k..] + [c] + b;
      StrReplaceSplits(search, rep, a[k..], c, b);
    } else if |a| == 0 {
      assert s == [c] + b;
      assert s[1..] == b;
    } else {
      assert s[1..] == a[1..] + [c] + b;
      StrReplaceSplits(search, rep, a[1..], c, b);
      if |a| >= k {
        assert a[..k] == s[..k];
      } else {
        assert a == [a[0]] + a[1..];
      }
      assert StrReplace(search, rep, a) == [a[0]] + StrReplace(search, rep, a[1..]);
      assert s[0] == a[0];
    }
  }

  /** Applying a per-string function to each element of a list. */
  function MapStrings(f: string -> string, xs: seq<string>): (r: seq<string>)
    ensures |r| == |xs|
    ensures forall i :: 0 <= i < |xs| ==> r[i] == f(xs[i])
  {
    seq(|xs|, i requires 0 <= i < |xs| => f(xs[i]))
  }

  /** `str_replace` on a space-joined list equals the join of the replaced
      pieces, provided the search string holds no space. */
  lemma {:induction false} StrReplaceImplode(search: string, rep: string, xs: seq<string>)
    requires ' ' !in search
    ensures StrReplace(search, rep, Implode(" ", xs))
         == Implode(" ", MapStrings(s => StrReplace(search, rep, s), xs))
  {
    var f := s => StrReplace(search, rep, s);
    if |xs| == 0 {
    } else if |xs| == 1 {
    } else {
      StrReplaceSplits(search, rep, xs[0], ' ', Implode(" ", xs[1..]));
      StrReplaceImplode(search, rep, xs[1..]);
      assert MapStrings(f, xs)[1..] == MapStrings(f, xs[1..]);
    }
  }

  /** `strtolower` on a space-joined list equals the join of the lower-cased pieces. */
  lemma {:induction false} StrToLowerImplode(xs: seq<string>)
    ensures StrToLower(Implode(" ", xs)) == Implode(" ", MapStrings(StrToLower, xs))
  {
    if |xs| >= 2 {
      StrToLowerConcat(xs[0] + " ", Implode(" ", xs[1..]));
      StrToLowerConcat(xs[0], " ");
      StrToLowerImplode(xs[1..]);
      assert MapStrings(StrToLower, xs)[1..] == MapStrings(StrToLower, xs[1..]);
    }
  }

  // ---------------------------------------------------------------------------
  // 64-bit integers
  // ---------------------------------------------------------------------------

  const WordModulus: int := 0x1_0000_0000_0000_0000

  /** The two's-complement bit pattern of a PHP integer. */
  function ToWord(x: int): bv64
  {
    (x % WordModulus) as bv64
  }

  /** `($a & $b) != 0` on PHP integers. */
  predicate BitsShared(a: int, b: int)
  {
    ToWord(a) & ToWord(b) != 0
  }
}
