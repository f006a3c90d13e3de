/**
 * The PHP string primitives the matrix builders rely on: `strpos`, `str_replace`,
 * `explode`, `empty()` on strings, and decimal conversion between strings and integers.
 */
module Text {
  import opened Wrappers

  /** `pat` occurs in `s` starting at index `i`. */
  predicate OccursAt(s: string, pat: string, i: int) {
    0 <= i && i + |pat| <= |s| && s[i..i + |pat|] == pat
  }

  lemma OccursShift(s: string, pat: string, j: int)
    requires |s| > 0 && j >= 0
    ensures OccursAt(s, pat, j + 1) <==> OccursAt(s[1..], pat, j)
  {
    if 0 <= j && j + 1 + |pat| <= |s| {
      assert s[1..][j..j + |pat|] == s[j + 1..j + 1 + |pat|];
    }
  }

  /** `strpos($s, $pat)`: the index of the first occurrence, or None for FALSE. */
  function IndexOf(s: string, pat: string): (r: Option<nat>)
    ensures r.Some? ==> OccursAt(s, pat, r.value)
    ensures r.Some? ==> forall j :: 0 <= j < r.value ==> !OccursAt(s, pat, j)
    ensures r.None? ==> forall j :: !OccursAt(s, pat, j)
    decreases |s|
  {
    if |pat| > |s| then None
    else if s[..|pat|] == pat then Some(0)
    else
      var rest := IndexOf(s[1..], pat);
      match rest
      case None =>
        assert forall j :: !OccursAt(s, pat, j) by {
          forall j ensures !OccursAt(s, pat, j) {
            if j > 0 { OccursShift(s, pat, j - 1); }
          }
        }
        None
      case Some(k) =>
        OccursShift(s, pat, k);
        assert forall j :: 0 <= j < k + 1 ==> !OccursAt(s, pat, j) by {
          forall j | 0 <= j < k + 1 ensures !OccursAt(s, pat, j) {
            if j > 0 { OccursShift(s, pat, j - 1); }
          }
        }
        Some(k + 1)
  }

  /** `strpos($s, $pat) !== FALSE` */
  predicate Contains(s: string, pat: string)
  {
    IndexOf(s, pat).Some?
  }

  lemma ContainsIff(s: string, pat: string)
    ensures Contains(s, pat) <==> exists i :: OccursAt(s, pat, i)
  {
  }

  /** An occurrence inside `a` is an occurrence inside `x + a + y`. */
  lemma ContainsInfix(x: string, a: string, y: string, pat: string)
    requires Contains(a, pat)
    ensures Contains(x + a + y, pat)
  {
    var i := IndexOf(a, pat).value;
    assert (x + a + y)[|x| + i..|x| + i + |pat|] == a[i..i + |pat|];
    assert OccursAt(x + a + y, pat, |x| + i);
  }

  /**
   * `str_replace($pat, $rep, $s)`: scans left to right and replaces every
   * non-overlapping occurrence; an empty search string leaves `s` unchanged.
   */
  function ReplaceAll(s: string, pat: string, rep: string): string
    decreases |s|
  {
    if pat == [] then s
    else
      match IndexOf(s, pat)
      case None => s
      case Some(i) => s[..i] + rep + ReplaceAll(s[i + |pat|..], pat, rep)
  }

  /** The text between the occurrences of `pat`, leftmost occurrence first. */
  function Split(s: string, pat: string): (parts: seq<string>)
    requires pat != []
    ensures |parts| >= 1
    ensures forall k :: 0 <= k < |parts| ==> !Contains(parts[k], pat)
    decreases |s|
  {
    match IndexOf(s, pat)
    case None => [s]
    case Some(i) =>
      assert !Contains(s[..i], pat) by {
        forall j ensures !OccursAt(s[..i], pat, j) {
          if OccursAt(s[..i], pat, j) {
            assert s[..i][j..j + |pat|] == s[j..j + |pat|];
            assert OccursAt(s, pat, j);
          }
        }
      }
      [s[..i]] + Split(s[i + |pat|..], pat)
  }

  /** `implode($sep, $parts)` */
  function Join(parts: seq<string>, sep: string): string
  {
    if parts == [] then []
    else if |parts| == 1 then parts[0]
    else parts[0] + sep + Join(parts[1..], sep)
  }

  lemma JoinCons(a: string, rest: seq<string>, sep: string)
    requires |rest| >= 1
    ensures Join([a] + rest, sep) == a + sep + Join(rest, sep)
  {
    assert ([a] + rest)[1..] == rest;
  }

  /** Splitting at every occurrence and joining with the separator gives the text back. */
  lemma {:induction false} SplitJoin(s: string, pat: string)
    requires pat != []
    ensures Join(Split(s, pat), pat) == s
    decreases |s|
  {
    var found := IndexOf(s, pat);
    if found.Some? {
      var i := found.value;
      var rest := s[i + |pat|..];
      assert Split(s, pat) == [s[..i]] + Split(rest, pat);
      SplitJoin(rest, pat);
      JoinCons(s[..i], Split(rest, pat), pat);
      assert s == s[..i] + pat + rest;
    }
  }

  /** `str_replace` keeps the text between occurrences and puts `rep` in place of each one. */
  lemma {:induction false} ReplaceIsJoinOfSplit(s: string, pat: string, rep: string)
    requires pat != []
    ensures ReplaceAll(s, pat, rep) == Join(Split(s, pat), rep)
    decreases |s|
  {
    match IndexOf(s, pat)
    case None =>
    case Some(i) =>
      ReplaceIsJoinOfSplit(s[i + |pat|..], pat, rep);
  }

  /** When `rep` is non-empty and shares no character with `pat`, no occurrence of `pat` survives. */
  lemma {:induction false} JoinIsClean(parts: seq<string>, pat: string, rep: string)
    requires pat != [] && rep != []
    requires forall c :: c in rep ==> c !in pat
    requires forall k :: 0 <= k < |parts| ==> !Contains(parts[k], pat)
    ensures !Contains(Join(parts, rep), pat)
  {
    if |parts| > 1 {
      var p, tail := parts[0], Join(parts[1..], rep);
      JoinIsClean(parts[1..], pat, rep);
      var whole := p + rep + tail;
      assert Join(parts, rep) == whole;
      forall k ensures !OccursAt(whole, pat, k) {
        if !(0 <= k && k + |pat| <= |whole|) {
        } else if k + |pat| <= |p| {
          assert whole[k..k + |pat|] == p[k..k + |pat|];
          assert !OccursAt(p, pat, k);
        } else if k >= |p| + |rep| {
          var k' := k - |p| - |rep|;
          assert whole[k..k + |pat|] == tail[k'..k' + |pat|];
          assert !OccursAt(tail, pat, k');
        } else {
          var m := if k < |p| then |p| else k;
          assert whole[m] == rep[m - |p|];
          assert whole[m] !in pat;
          assert whole[k..k + |pat|][m - k] == whole[m];
        }
      }
    }
  }

  lemma ReplaceLeavesNoOccurrence(s: string, pat: string, rep: string)
    requires pat != [] && rep != []
    requires forall c :: c in rep ==> c !in pat
    ensures !Contains(ReplaceAll(s, pat, rep), pat)
  {
    ReplaceIsJoinOfSplit(s, pat, rep);
    JoinIsClean(Split(s, pat), pat, rep);
  }

  /** `explode($sep, $s)` for a one-character delimiter. */
  function Explode(s: string, sep: char): (parts: seq<string>)
    ensures |parts| >= 1
    ensures forall k :: 0 <= k < |parts| ==> sep !in parts[k]
  {
    if s == [] then [""]
    else
      var rest := Explode(s[1..], sep);
      if s[0] == sep then [""] + rest
      else [[s[0]] + rest[0]] + rest[1..]
  }

  /** Exploding and imploding with the same delimiter gives the text back. */
  lemma {:induction false} ExplodeJoin(s: string, sep: char)
    ensures Join(Explode(s, sep), [sep]) == s
  {
    if s != [] {
      var rest := Explode(s[1..], sep);
      ExplodeJoin(s[1..], sep);
      if s[0] != sep {
        if |rest| > 1 {
          assert rest == [rest[0]] + rest[1..];
          assert Join(rest, [sep]) == rest[0] + [sep] + Join(rest[1..], [sep]);
        }
        assert s == [s[0]] + s[1..];
      }
    }
  }

  /** The first component is everything before the first delimiter. */
  lemma {:induction false} ExplodeFirst(a: string, sep: char, t: string)
    requires sep !in a
    ensures Explode(a + [sep] + t, sep) == [a] + Explode(t, sep)
  {
    var s := a + [sep] + t;
    if a != [] {
      assert s[0] == a[0] && s[1..] == a[1..] + [sep] + t;
      ExplodeFirst(a[1..], sep, t);
      assert a == [a[0]] + a[1..];
    } else {
      assert s[0] == sep && s[1..] == t;
    }
  }

  /** A text without the delimiter explodes to itself alone. */
  lemma {:induction false} ExplodeWhole(a: string, sep: char)
    requires sep !in a
    ensures Explode(a, sep) == [a]
  {
    if a != [] {
      ExplodeWhole(a[1..], sep);
      assert a == [a[0]] + a[1..];
    }
  }

  /** PHP `empty()` on a string: "" and "0" are empty. */
  predicate PhpEmpty(s: string) {
    s == "" || s == "0"
  }

  predicate IsDigit(c: char) {
    '0' <= c <= '9'
  }

  predicate AllDigits(s: string) {
    forall i :: 0 <= i < |s| ==> IsDigit(s[i])
  }

  /** A plain decimal numeral, the only numeric strings this model does arithmetic on. */
  predicate IsNumeral(s: string) {
    |s| > 0 && AllDigits(s)
  }

  /** The value of a string of decimal digits (the empty string counts as 0). */
  function DigitsValue(s: string): nat
    requires AllDigits(s)
  {
    if s == [] then 0
    else DigitsValue(s[..|s| - 1]) * 10 + (s[|s| - 1] as int - '0' as int)
  }

  function DigitChar(d: nat): (c: char)
    requires d < 10
    ensures IsDigit(c) && c as int - '0' as int == d
  {
    ('0' as int + d) as char
  }

  /** The ten digit characters. */
  lemma DigitChars()
    ensures DigitChar(0) == '0' && DigitChar(1) == '1' && DigitChar(2) == '2' && DigitChar(3) == '3'
    ensures DigitChar(4) == '4' && DigitChar(5) == '5' && DigitChar(6) == '6' && DigitChar(7) == '7'
    ensures DigitChar(8) == '8' && DigitChar(9) == '9'
  {
  }

  /** PHP's conversion of a non-negative integer to its decimal string. */
  function NatToString(n: nat): (r: string)
    ensures IsNumeral(r)
    ensures DigitsValue(r) == n
    ensures r[0] == '0' ==> n == 0
  {
    if n < 10 then [DigitChar(n)]
    else
      var prefix := NatToString(n / 10);
      var r := prefix + [DigitChar(n % 10)];
      assert r[..|r| - 1] == prefix;
      r
  }

  /** PHP's conversion of an integer to its decimal string. */
  function IntToString(i: int): (r: string)
    ensures i >= 0 ==> r == NatToString(i)
    ensures i < 0 ==> r == "-" + NatToString(-i)
  {
    if i < 0 then "-" + NatToString(-i) else NatToString(i)
  }

  /** A numeral without a leading zero is printed back exactly. */
  lemma {:induction false} NumeralRoundTrip(s: string)
    requires IsNumeral(s) && (s[0] == '0' ==> |s| == 1)
    ensures NatToString(DigitsValue(s)) == s
  {
    var n := DigitsValue(s);
    if |s| == 1 {
      assert s[..|s| - 1] == [];
      assert DigitsValue(s[..|s| - 1]) == 0;
      assert n == DigitsValue(s[..|s| - 1]) * 10 + (s[0] as int - '0' as int);
      assert DigitChar(n) == s[0];
    } else {
      var prefix := s[..|s| - 1];
      assert prefix[0] == s[0];
      NumeralRoundTrip(prefix);
      var d := s[|s| - 1] as int - '0' as int;
      assert n == DigitsValue(prefix) * 10 + d;
      assert NatToString(0) == "0";
      assert DigitsValue(prefix) > 0;
      assert n / 10 == DigitsValue(prefix) && n % 10 == d;
      assert s == prefix + [s[|s| - 1]];
    }
  }
}
