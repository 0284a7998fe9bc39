/** The fragments of Python's `str` API that the modelled code relies on:
    `strip`, `lower`, `startswith`, `in`, `split`, `join`, `replace` and
    `str(int)`. */
module Strings {

  /** Python's `str.isspace()` for one character: the ASCII whitespace
      and separator controls plus the Unicode space separators. */
  predicate IsSpace(c: char)
  {
    || c == ' '
    || ('\t' <= c <= '\r')
    || ('\U{1c}' <= c <= '\U{1f}')
    || c == '\U{85}' || c == '\U{a0}' || c == '\U{1680}'
    || ('\U{2000}' <= c <= '\U{200a}')
    || c == '\U{2028}' || c == '\U{2029}' || c == '\U{202f}'
    || c == '\U{205f}' || c == '\U{3000}'
  }

  /** Drops the longest prefix whose characters all satisfy `drop`. */
  function StripLeft(s: string, drop: char -> bool): (r: string)
    ensures |r| <= |s| && r == s[|s| - |r|..]
    ensures |r| > 0 ==> !drop(r[0])
    ensures forall i :: 0 <= i < |s| - |r| ==> drop(s[i])
    decreases |s|
  {
    if |s| > 0 && drop(s[0]) then
      var r := StripLeft(s[1..], drop);
      assert s[1..][|s| - 1 - |r|..] == s[|s| - |r|..];
      assert forall i :: 1 <= i < |s| - |r| ==> s[i] == s[1..][i - 1];
      r
    else s
  }

  /** Drops the longest suffix whose characters all satisfy `drop`. */
  function StripRight(s: string, drop: char -> bool): (r: string)
    ensures |r| <= |s| && r == s[..|r|]
    ensures |r| > 0 ==> !drop(r[|r| - 1])
    ensures forall i :: |r| <= i < |s| ==> drop(s[i])
    decreases |s|
  {
    if |s| > 0 && drop(s[|s| - 1]) then StripRight(s[..|s| - 1], drop) else s
  }

  /** `s.strip(chars)`: both ends, with the set of characters given by `drop`. */
  function StripBy(s: string, drop: char -> bool): (r: string)
    ensures |r| <= |s|
    ensures |r| > 0 ==> !drop(r[0]) && !drop(r[|r| - 1])
    ensures (forall i :: 0 <= i < |s| ==> !drop(s[i])) ==> r == s
    ensures |s| > 0 && !drop(s[0]) && !drop(s[|s| - 1]) ==> r == s
    ensures forall i :: 0 <= i < |r| ==> r[i] in s
  {
    StripRight(StripLeft(s, drop), drop)
  }

  /** `s.strip()` with no argument. */
  function Strip(s: string): (r: string)
    ensures |r| <= |s|
    ensures |r| > 0 ==> !IsSpace(r[0]) && !IsSpace(r[|r| - 1])
  {
    StripBy(s, IsSpace)
  }

  /** `str.lower()` restricted to ASCII letters. */
  function LowerChar(c: char): (r: char)
    ensures 'A' <= c <= 'Z' ==> 'a' <= r <= 'z'
    ensures !('A' <= c <= 'Z') ==> r == c
  {
    if 'A' <= c <= 'Z' then (c as int + 32) as char else c
  }

  function Lower(s: string): (r: string)
    ensures |r| == |s|
    ensures forall i :: 0 <= i < |s| ==> r[i] == LowerChar(s[i])
  {
    seq(|s|, i requires 0 <= i < |s| => LowerChar(s[i]))
  }

  /** Lower-casing twice is lower-casing once. */
  lemma LowerIdempotent(s: string)
    ensures Lower(Lower(s)) == Lower(s)
  {
  }

  /** `s.startswith(p)`. */
  predicate StartsWith(s: string, p: string)
  {
    |p| <= |s| && s[..|p|] == p
  }

  /** A string starts with any of its prefixes. */
  lemma StartsWithAppend(p: string, q: string)
    ensures StartsWith(p + q, p)
  {
    assert (p + q)[..|p|] == p;
  }

  /** Python's `sub in s` for strings: `sub` occurs contiguously in `s`. */
  predicate Contains(s: string, sub: string)
  {
    exists i :: 0 <= i <= |s| - |sub| && OccursAt(s, sub, i)
  }

  /** `sub` occurs in `s` starting at index `i`. */
  predicate OccursAt(s: string, sub: string, i: int)
  {
    0 <= i <= |s| - |sub| && s[i..i + |sub|] == sub
  }

  /** `s.find(c)`: the index of the first `c`, or -1. */
  function IndexOf(s: string, c: char): (i: int)
    ensures -1 <= i < |s|
    ensures i >= 0 ==> s[i] == c
    ensures i >= 0 <==> c in s
    ensures forall j :: 0 <= j < (if i >= 0 then i else |s|) ==> s[j] != c
    decreases |s|
  {
    if |s| == 0 then -1
    else if s[0] == c then 0
    else
      var k := IndexOf(s[1..], c);
      assert c in s <==> c in s[1..] by {
        assert s == [s[0]] + s[1..];
      }
      if k < 0 then -1 else k + 1
  }

  /** `s[:k]`: a negative `k` counts from the end. */
  function SliceTo(s: string, k: int): (r: string)
    ensures |r| <= |s| && r == s[..|r|]
    ensures 0 <= k <= |s| ==> |r| == k
    ensures k > |s| ==> r == s
    ensures k < 0 ==> |r| == (if |s| + k >= 0 then |s| + k else 0)
  {
    if k >= 0 then (if k <= |s| then s[..k] else s)
    else if |s| + k >= 0 then s[..|s| + k] else []
  }

  /** `s.replace(a, b)` for single characters. */
  function ReplaceChar(s: string, a: char, b: char): (r: string)
    ensures |r| == |s|
    ensures forall i :: 0 <= i < |s| ==> r[i] == (if s[i] == a then b else s[i])
  {
    seq(|s|, i requires 0 <= i < |s| => if s[i] == a then b else s[i])
  }

  /** `s.split(sep)` for a one-character separator: the pieces between
      separators, always at least one (possibly empty) piece. */
  function Split(s: string, sep: char): (r: seq<string>)
    ensures |r| >= 1
    ensures forall i :: 0 <= i < |r| ==> sep !in r[i]
    decreases |s|
  {
    if |s| == 0 then [""]
    else if s[0] == sep then [""] + Split(s[1..], sep)
    else
      var rest := Split(s[1..], sep);
      [[s[0]] + rest[0]] + rest[1..]
  }

  /** `sep.join(xs)`. */
  function Join(xs: seq<string>, sep: string): string
    decreases |xs|
  {
    if |xs| == 0 then ""
    else if |xs| == 1 then xs[0]
    else xs[0] + sep + Join(xs[1..], sep)
  }

  /** Joining the pieces of a split restores the text. */
  lemma {:induction false} JoinSplit(s: string, sep: char)
    ensures Join(Split(s, sep), [sep]) == s
    decreases |s|
  {
    if |s| == 0 {
    } else if s[0] == sep {
      JoinSplit(s[1..], sep);
      var rest := Split(s[1..], sep);
      assert Split(s, sep) == [""] + rest;
      JoinCons("", rest, [sep]);
      assert s == [s[0]] + s[1..];
    } else {
      JoinSplit(s[1..], sep);
      var rest := Split(s[1..], sep);
      assert Split(s, sep) == [[s[0]] + rest[0]] + rest[1..];
      JoinExtendHead(s[0], rest, [sep]);
      assert s == [s[0]] + s[1..];
    }
  }

  /** `sep.join([x] + rest)` for a non-empty `rest`. */
  lemma JoinCons(x: string, rest: seq<string>, sep: string)
    requires |rest| >= 1
    ensures Join([x] + rest, sep) == x + sep + Join(rest, sep)
  {
    assert ([x] + rest)[1..] == rest;
  }

  /** Prefixing the first piece with `c` prefixes the join with `c`. */
  lemma JoinExtendHead(c: char, rest: seq<string>, sep: string)
    requires |rest| >= 1
    ensures Join([[c] + rest[0]] + rest[1..], sep) == [c] + Join(rest, sep)
  {
    var r := [[c] + rest[0]] + rest[1..];
    if |rest| > 1 {
      assert r[1..] == rest[1..];
    }
  }

  /** Splitting a join restores the pieces, provided no piece holds the
      separator. */
  lemma {:induction false} SplitJoin(xs: seq<string>, sep: char)
    requires |xs| >= 1
    requires forall i :: 0 <= i < |xs| ==> sep !in xs[i]
    ensures Split(Join(xs, [sep]), sep) == xs
    decreases |xs|, |xs[0]|
  {
    if |xs[0]| == 0 {
      if |xs| == 1 {
        assert Join(xs, [sep]) == "";
      } else {
        var tail := Join(xs[1..], [sep]);
        assert Join(xs, [sep]) == [sep] + tail;
        SplitJoin(xs[1..], sep);
        assert ([sep] + tail)[1..] == tail;
        assert xs == [""] + xs[1..];
      }
    } else {
      var c := xs[0][0];
      var ys := [xs[0][1..]] + xs[1..];
      assert ys[1..] == xs[1..];
      assert forall i :: 0 <= i < |ys| ==> sep !in ys[i] by {
        forall i | 0 <= i < |ys| ensures sep !in ys[i] {
          if i == 0 {
            assert forall j :: 0 <= j < |ys[0]| ==> ys[0][j] == xs[0][j + 1];
          } else {
            assert ys[i] == xs[i];
          }
        }
      }
      SplitJoin(ys, sep);
      var jx := Join(xs, [sep]);
      var jy := Join(ys, [sep]);
      if |xs| == 1 {
        assert jx == xs[0] && jy == xs[0][1..];
      } else {
        assert jx == xs[0] + [sep] + Join(xs[1..], [sep]);
        assert jy == xs[0][1..] + [sep] + Join(xs[1..], [sep]);
      }
      assert jx == [c] + jy;
      assert jx[0] == c && jx[1..] == jy;
      assert c != sep;
      var rest := Split(jy, sep);
      assert rest == ys;
      assert Split(jx, sep) == [[c] + rest[0]] + rest[1..];
      assert [c] + xs[0][1..] == xs[0];
      assert xs == [xs[0]] + xs[1..];
    }
  }

  /** `s.split()` with no argument: the maximal runs of non-space
      characters, in order. */
  function Words(s: string): (r: seq<string>)
    ensures forall i :: 0 <= i < |r| ==> IsWord(r[i])
    decreases |s|
  {
    var t := StripLeft(s, IsSpace);
    if |t| == 0 then []
    else
      var k := WordEnd(t, 0);
      assert k >= 1;
      var w := t[..k];
      assert forall j :: 0 <= j < |w| ==> w[j] == t[j];
      assert IsWord(w);
      var rest := Words(t[k..]);
      WordsCons(w, rest);
      [w] + rest
  }

  /** Prepending a word to a list of words gives a list of words. */
  lemma WordsCons(w: string, rest: seq<string>)
    requires IsWord(w)
    requires forall i :: 0 <= i < |rest| ==> IsWord(rest[i])
    ensures forall i :: 0 <= i < |[w] + rest| ==> IsWord(([w] + rest)[i])
  {
  }

  /** A non-empty run of non-space characters. */
  predicate IsWord(w: string)
  {
    |w| > 0 && forall j :: 0 <= j < |w| ==> !IsSpace(w[j])
  }

  /** The index of the first space at or after `i`, or `|t|`. */
  function WordEnd(t: string, i: nat): (k: nat)
    requires i <= |t|
    ensures i <= k <= |t|
    ensures forall j :: i <= j < k ==> !IsSpace(t[j])
    ensures k < |t| ==> IsSpace(t[k])
    decreases |t| - i
  {
    if i == |t| || IsSpace(t[i]) then i else WordEnd(t, i + 1)
  }

  /** A decimal digit. */
  function DigitChar(d: nat): (c: char)
    requires d < 10
    ensures '0' <= c <= '9' && c as int - '0' as int == d
  {
    (d + '0' as int) as char
  }

  predicate IsDigits(s: string)
  {
    forall i :: 0 <= i < |s| ==> '0' <= s[i] <= '9'
  }

  /** `str(n)` for a natural number: its decimal digits without leading zeros. */
  function NatToString(n: nat): (r: string)
    ensures |r| >= 1 && IsDigits(r)
    ensures |r| > 1 ==> r[0] != '0'
    decreases n
  {
    if n < 10 then [DigitChar(n)] else NatToString(n / 10) + [DigitChar(n % 10)]
  }

  /** `str(i)` for any integer. */
  function IntToString(i: int): (r: string)
    ensures |r| >= 1
    ensures i >= 0 ==> IsDigits(r)
    ensures i < 0 ==> r[0] == '-' && IsDigits(r[1..])
  {
    if i < 0 then "-" + NatToString(-i) else NatToString(i)
  }

  /** The number a string of decimal digits denotes (the inverse of `NatToString`). */
  function DigitsValue(s: string): nat
    requires IsDigits(s)
    decreases |s|
  {
    if |s| == 0 then 0
    else DigitsValue(s[..|s| - 1]) * 10 + (s[|s| - 1] as int - '0' as int)
  }

  lemma {:induction false} NatToStringRoundTrip(n: nat)
    ensures DigitsValue(NatToString(n)) == n
    decreases n
  {
    if n >= 10 {
      NatToStringRoundTrip(n / 10);
      var s := NatToString(n);
      assert s[..|s| - 1] == NatToString(n / 10);
    }
  }

  /** Distinct numbers print differently. */
  lemma NatToStringInjective(a: nat, b: nat)
    requires NatToString(a) == NatToString(b)
    ensures a == b
  {
    NatToStringRoundTrip(a);
    NatToStringRoundTrip(b);
  }
}
