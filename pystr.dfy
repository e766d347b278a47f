/**
 * The Python string built-ins that tikz_gui.py relies on, over `seq<char>`
 * (one `char` per Unicode code point, as in a Python `str`):
 * the substring test `p in t`, `str.strip()`, `str.count(c)`, the decimal
 * formatting `f"{n}"` of an int, and `c * n` for a one-character string.
 */
module PyStr {

  /** `p` occurs in `t` starting at index `i`. */
  predicate OccursAt(t: string, p: string, i: int)
  {
    0 <= i && i + |p| <= |t| && t[i..i + |p|] == p
  }

  /** Python's `p in t`. */
  predicate Contains(t: string, p: string)
    ensures Contains(t, p) ==> |p| <= |t|
  {
    exists i | 0 <= i <= |t| - |p| :: OccursAt(t, p, i)
  }

  /** A window that differs from `p` in one position is not an occurrence of `p`. */
  lemma MismatchNotOccurs(t: string, p: string, i: int, k: int)
    requires 0 <= i && i + |p| <= |t| && 0 <= k < |p| && t[i + k] != p[k]
    ensures !OccursAt(t, p, i)
  {
    assert t[i..i + |p|][k] == t[i + k];
  }

  /** An occurrence in `a` is still there after appending `b`. */
  lemma ContainsAppend(a: string, b: string, p: string)
    requires Contains(a, p)
    ensures Contains(a + b, p)
  {
    var i :| 0 <= i <= |a| - |p| && OccursAt(a, p, i);
    assert (a + b)[i..i + |p|] == a[i..i + |p|];
    assert OccursAt(a + b, p, i);
  }

  /** An occurrence in `b` is still there after prepending `a`. */
  lemma ContainsPrepend(a: string, b: string, p: string)
    requires Contains(b, p)
    ensures Contains(a + b, p)
  {
    var i :| 0 <= i <= |b| - |p| && OccursAt(b, p, i);
    assert (a + b)[|a| + i..|a| + i + |p|] == b[i..i + |p|];
    assert OccursAt(a + b, p, |a| + i);
  }

  /** A slice of a text cannot contain what the whole text does not. */
  lemma NotContainsSlice(t: string, p: string, lo: int, hi: int)
    requires 0 <= lo <= hi <= |t|
    requires !Contains(t, p)
    ensures !Contains(t[lo..hi], p)
  {
    forall i | 0 <= i <= |t[lo..hi]| - |p|
      ensures !OccursAt(t[lo..hi], p, i)
    {
      var w := t[lo..hi][i..i + |p|];
      forall k | 0 <= k < |p|
        ensures w[k] == t[lo + i + k]
      {
      }
      assert w == t[lo + i..lo + i + |p|];
      assert !OccursAt(t, p, lo + i);
    }
  }

  /** `p` occurs in `a + p + b` right after `a`. */
  lemma OccursBetween(a: string, p: string, b: string)
    ensures OccursAt(a + p + b, p, |a|)
  {
    assert (a + p + b)[|a|..|a| + |p|] == p;
  }

  /** A text none of whose characters is the first character of `p` does not contain `p`. */
  lemma NotContainsWithoutFirstChar(t: string, p: string)
    requires |p| > 0
    requires forall k :: 0 <= k < |t| ==> t[k] != p[0]
    ensures !Contains(t, p)
  {
    forall i | 0 <= i <= |t| - |p|
      ensures !OccursAt(t, p, i)
    {
      MismatchNotOccurs(t, p, i, 0);
    }
  }

  /**
   * A concatenation contains `p` only where one side does, when the last
   * character of `a` (or the first of `b`) is not a character of `p`: every
   * window that straddles the join covers that character.
   */
  lemma NotContainsConcat(a: string, b: string, p: string)
    requires !Contains(a, p) && !Contains(b, p)
    requires (|a| > 0 && a[|a| - 1] !in p) || (|b| > 0 && b[0] !in p)
    ensures !Contains(a + b, p)
  {
    forall i | 0 <= i <= |a + b| - |p|
      ensures !OccursAt(a + b, p, i)
    {
      if i + |p| <= |a| {
        assert (a + b)[i..i + |p|] == a[i..i + |p|];
        assert !OccursAt(a, p, i);
      } else if i >= |a| {
        assert (a + b)[i..i + |p|] == b[i - |a|..i - |a| + |p|];
        assert !OccursAt(b, p, i - |a|);
      } else {
        var j := if |a| > 0 && a[|a| - 1] !in p then |a| - 1 else |a|;
        assert (a + b)[j] !in p;
        assert p[j - i] in p;
        MismatchNotOccurs(a + b, p, i, j - i);
      }
    }
  }

  /** Python's `str.isspace()` for one character. */
  predicate IsSpace(c: char)
  {
    || '\t' <= c <= '\r'
    || '\U{1C}' <= c <= '\U{1F}'
    || c == ' '
    || c == '\U{85}'
    || c == '\U{A0}'
    || c == '\U{1680}'
    || '\U{2000}' <= c <= '\U{200A}'
    || c == '\U{2028}'
    || c == '\U{2029}'
    || c == '\U{202F}'
    || c == '\U{205F}'
    || c == '\U{3000}'
  }

  /** Every character of `s` is whitespace (vacuously so for the empty text). */
  predicate AllSpace(s: string)
  {
    forall k :: 0 <= k < |s| ==> IsSpace(s[k])
  }

  /** `s.lstrip()`: the suffix of `s` left after dropping leading whitespace. */
  function TrimStart(s: string): (r: string)
    ensures |r| <= |s| && r == s[|s| - |r|..]
    ensures forall k :: 0 <= k < |s| - |r| ==> IsSpace(s[k])
    ensures r == [] || !IsSpace(r[0])
  {
    if |s| > 0 && IsSpace(s[0]) then TrimStart(s[1..]) else s
  }

  /** `s.rstrip()`: the prefix of `s` left after dropping trailing whitespace. */
  function TrimEnd(s: string): (r: string)
    ensures |r| <= |s| && r == s[..|r|]
    ensures forall k :: |r| <= k < |s| ==> IsSpace(s[k])
    ensures r == [] || !IsSpace(r[|r| - 1])
  {
    if |s| > 0 && IsSpace(s[|s| - 1]) then TrimEnd(s[..|s| - 1]) else s
  }

  /**
   * `s.strip()`. The result neither starts nor ends with whitespace, and it
   * is empty exactly when `s` is all whitespace.
   */
  function Strip(s: string): (r: string)
    ensures |r| <= |s|
    ensures r == [] || (!IsSpace(r[0]) && !IsSpace(r[|r| - 1]))
    ensures r == [] <==> AllSpace(s)
  {
    var t := TrimStart(s);
    var r := TrimEnd(t);
    assert r != [] ==> r[0] == t[0];
    r
  }

  /** Stripping keeps a contiguous slice, so it cannot create an occurrence. */
  lemma StripNotContains(s: string, p: string)
    requires !Contains(s, p)
    ensures !Contains(Strip(s), p)
  {
    var t := TrimStart(s);
    NotContainsSlice(s, p, |s| - |t|, |s|);
    assert s[|s| - |t|..|s|] == t;
    NotContainsSlice(t, p, 0, |TrimEnd(t)|);
    assert t[0..|TrimEnd(t)|] == TrimEnd(t);
  }

  /** A text that neither starts nor ends with whitespace is left alone by `strip()`. */
  lemma StripUnchanged(s: string)
    requires s == [] || (!IsSpace(s[0]) && !IsSpace(s[|s| - 1]))
    ensures Strip(s) == s
  {
  }

  /** `lstrip()` of a concatenation: `b` is reached only when `a` is all whitespace. */
  lemma {:induction false} TrimStartConcat(a: string, b: string)
    ensures TrimStart(a + b) == if TrimStart(a) == [] then TrimStart(b) else TrimStart(a) + b
  {
    if a == [] {
      assert a + b == b;
    } else if IsSpace(a[0]) {
      assert (a + b)[0] == a[0];
      assert (a + b)[1..] == a[1..] + b;
      TrimStartConcat(a[1..], b);
    } else {
      assert (a + b)[0] == a[0];
    }
  }

  /** Trailing whitespace never changes the result of `strip()`. */
  lemma StripTrailingSpace(s: string, c: char)
    requires IsSpace(c)
    ensures Strip(s + [c]) == Strip(s)
  {
    TrimStartConcat(s, [c]);
    var t := TrimStart(s);
    if t != [] {
      assert (t + [c])[..|t + [c]| - 1] == t;
    }
  }

  /** `rstrip()` drops exactly the whitespace appended to a text that ends in a non-space. */
  lemma {:induction false} TrimEndPadding(m: string, pad: string)
    requires m != [] && !IsSpace(m[|m| - 1])
    requires forall k :: 0 <= k < |pad| ==> IsSpace(pad[k])
    ensures TrimEnd(m + pad) == m
  {
    if pad == [] {
      assert m + pad == m;
    } else {
      var t := m + pad;
      assert t[|t| - 1] == pad[|pad| - 1];
      assert t[..|t| - 1] == m + pad[..|pad| - 1];
      TrimEndPadding(m, pad[..|pad| - 1]);
    }
  }

  /** `strip()` recovers a stripped, non-empty text from any whitespace padding around it. */
  lemma StripPadded(before: string, m: string, after: string)
    requires m != [] && !IsSpace(m[0]) && !IsSpace(m[|m| - 1])
    requires forall k :: 0 <= k < |before| ==> IsSpace(before[k])
    requires forall k :: 0 <= k < |after| ==> IsSpace(after[k])
    ensures Strip(before + m + after) == m
  {
    assert before + m + after == before + (m + after);
    TrimStartConcat(before, m + after);
    assert TrimStart(before) == [];
    assert (m + after)[0] == m[0];
    assert TrimStart(m + after) == m + after;
    TrimEndPadding(m, after);
  }

  lemma AllSpaceBefore(s: string, i: nat)
    requires i <= |s| && forall k :: 0 <= k < i ==> IsSpace(s[k])
    ensures AllSpace(s[..i])
  {
    forall k | 0 <= k < i
      ensures IsSpace(s[..i][k])
    {
      assert s[..i][k] == s[k];
    }
  }

  lemma AllSpaceAfter(s: string, i: nat)
    requires i <= |s| && forall k :: i <= k < |s| ==> IsSpace(s[k])
    ensures AllSpace(s[i..])
  {
    forall k | 0 <= k < |s| - i
      ensures IsSpace(s[i..][k])
    {
      assert s[i..][k] == s[i + k];
    }
  }

  /** A prefix `r` of a suffix `t` of `s` is a slice of `s`; what `t` has after `r` is what `s` has. */
  lemma SuffixPrefixSlice(s: string, a: nat, t: string, r: string)
    requires a <= |s| && t == s[a..] && |r| <= |t| && r == t[..|r|]
    requires forall k :: |r| <= k < |t| ==> IsSpace(t[k])
    ensures s[a..a + |r|] == r
    ensures forall k :: a + |r| <= k < |s| ==> IsSpace(s[k])
  {
    forall k | a + |r| <= k < |s|
      ensures IsSpace(s[k])
    {
      assert s[k] == t[k - a];
    }
  }

  /** The positions `strip()` keeps: whitespace before `a` and from `b` on. */
  lemma StripBounds(s: string) returns (a: nat, b: nat)
    ensures a <= b <= |s| && Strip(s) == s[a..b]
    ensures forall k :: 0 <= k < a ==> IsSpace(s[k])
    ensures forall k :: b <= k < |s| ==> IsSpace(s[k])
  {
    var t := TrimStart(s);
    var r := TrimEnd(t);
    a := |s| - |t|;
    b := a + |r|;
    SuffixPrefixSlice(s, a, t, r);
  }

  /** `strip()` keeps the slice `s[a..b]` and drops only whitespace on either side of it. */
  lemma StripSlice(s: string) returns (a: nat, b: nat)
    ensures a <= b <= |s| && Strip(s) == s[a..b]
    ensures AllSpace(s[..a]) && AllSpace(s[b..])
  {
    a, b := StripBounds(s);
    AllSpaceBefore(s, a);
    AllSpaceAfter(s, b);
  }

  /** `s.count(c)` for a one-character `c`. */
  function CountChar(s: string, c: char): (n: nat)
    ensures n <= |s|
  {
    if s == [] then 0 else CountChar(s[..|s| - 1], c) + (if s[|s| - 1] == c then 1 else 0)
  }

  lemma {:induction false} CountCharConcat(a: string, b: string, c: char)
    ensures CountChar(a + b, c) == CountChar(a, c) + CountChar(b, c)
  {
    if b == [] {
      assert a + b == a;
    } else {
      assert (a + b)[..|a + b| - 1] == a + b[..|b| - 1];
      assert (a + b)[|a + b| - 1] == b[|b| - 1];
      CountCharConcat(a, b[..|b| - 1], c);
    }
  }

  /** `c * n` for a one-character string `c`. */
  function Repeat(c: char, n: nat): (r: string)
    ensures |r| == n && forall k :: 0 <= k < n ==> r[k] == c
  {
    if n == 0 then [] else Repeat(c, n - 1) + [c]
  }

  predicate IsDigit(c: char)
  {
    '0' <= c <= '9'
  }

  function DigitChar(d: nat): (c: char)
    requires d < 10
    ensures IsDigit(c) && c as int - '0' as int == d
  {
    ('0' as int + d) as char
  }

  /** `f"{n}"` for a natural number: decimal digits, no leading zero. */
  function NatToString(n: nat): (s: string)
    ensures |s| >= 1 && forall k :: 0 <= k < |s| ==> IsDigit(s[k])
    ensures s[0] == '0' ==> n == 0
  {
    if n < 10 then [DigitChar(n)] else NatToString(n / 10) + [DigitChar(n % 10)]
  }

  /** `int(s)` for a string of decimal digits. */
  function DigitsValue(s: string): nat
    requires forall k :: 0 <= k < |s| ==> IsDigit(s[k])
  {
    if s == [] then 0
    else
      assert IsDigit(s[|s| - 1]);
      DigitsValue(s[..|s| - 1]) * 10 + (s[|s| - 1] as int - '0' as int)
  }

  /** Reading the digits of `f"{n}"` back gives `n`. */
  lemma {:induction false} NatToStringRoundTrip(n: nat)
    ensures DigitsValue(NatToString(n)) == n
  {
    if n >= 10 {
      var s := NatToString(n);
      assert s[..|s| - 1] == NatToString(n / 10);
      NatToStringRoundTrip(n / 10);
    }
  }

  /** `f"{i}"` for any int: a minus sign before the digits of a negative number. */
  function IntToString(i: int): (s: string)
    ensures |s| >= 1 && (s[0] == '-' <==> i < 0)
    ensures s[0] == '0' ==> i == 0
    ensures i < 0 ==> |s| >= 2 && s[1] != '0'
  {
    if i < 0 then "-" + NatToString(-i) else NatToString(i)
  }

  /** `int(s)` for a string produced by `IntToString`. */
  function ParseInt(s: string): int
    requires |s| >= 1
    requires forall k :: 1 <= k < |s| ==> IsDigit(s[k])
    requires s[0] == '-' || IsDigit(s[0])
  {
    if s[0] == '-' then 0 - DigitsValue(s[1..]) else DigitsValue(s)
  }

  /** Formatting an int and parsing it back gives the same int, so distinct codes print distinctly. */
  lemma IntToStringRoundTrip(i: int)
    ensures var s := IntToString(i);
      |s| >= 1 && (s[0] == '-' || IsDigit(s[0])) && (forall k :: 1 <= k < |s| ==> IsDigit(s[k]))
      && ParseInt(s) == i
  {
    var s := IntToString(i);
    if i < 0 {
      var d := NatToString(-i);
      NatToStringRoundTrip(-i);
      assert s == "-" + d && s[1..] == d;
      forall k | 1 <= k < |s|
        ensures IsDigit(s[k])
      {
        assert s[k] == d[k - 1];
      }
    } else {
      NatToStringRoundTrip(i);
      assert s == NatToString(i);
    }
  }
}
