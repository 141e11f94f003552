/** Python string operations the pipeline relies on, over `seq<char>`. */
module Text {

  /** The characters Python's argument-less `str.strip()` removes (those for which `str.isspace()` holds). */
  predicate IsWhitespace(c: char)
  {
    || c == ' '
    || ('\t' <= c <= '\r')
    || ('\U{1C}' <= c <= '\U{1F}')
    || c == '\U{85}' || c == '\U{A0}' || c == '\U{1680}'
    || ('\U{2000}' <= c <= '\U{200A}')
    || c == '\U{2028}' || c == '\U{2029}' || c == '\U{202F}' || c == '\U{205F}' || c == '\U{3000}'
  }

  predicate AllWhitespace(s: string)
  {
    forall i :: 0 <= i < |s| ==> IsWhitespace(s[i])
  }

  /** `str.lstrip()`: drops the leading whitespace and nothing else. */
  function StripLeading(s: string): (r: string)
    ensures |r| <= |s| && r == s[|s| - |r|..]
    ensures AllWhitespace(s[..|s| - |r|])
    ensures r != [] ==> !IsWhitespace(r[0])
  {
    if |s| > 0 && IsWhitespace(s[0]) then
      var tail := s[1..];
      var r := StripLeading(tail);
      assert s[..|s| - |r|] == [s[0]] + tail[..|tail| - |r|];
      r
    else s
  }

  /** `str.rstrip()`: drops the trailing whitespace and nothing else. */
  function StripTrailing(s: string): (r: string)
    ensures |r| <= |s| && r == s[..|r|]
    ensures AllWhitespace(s[|r|..])
    ensures r != [] ==> !IsWhitespace(r[|r| - 1])
  {
    if |s| > 0 && IsWhitespace(s[|s| - 1]) then
      var front := s[..|s| - 1];
      var r := StripTrailing(front);
      assert s[|r|..] == front[|r|..] + [s[|s| - 1]];
      r
    else s
  }

  /** `str.strip()`: a contiguous middle slice of `s` with whitespace-free ends. */
  function Strip(s: string): (r: string)
    ensures |r| <= |s|
    ensures r != [] ==> !IsWhitespace(r[0]) && !IsWhitespace(r[|r| - 1])
    ensures r == [] <==> AllWhitespace(s)
  {
    var l := StripLeading(s);
    var r := StripTrailing(l);
    assert r == [] ==> AllWhitespace(s) by {
      if r == [] {
        assert s == s[..|s| - |l|] + l;
        assert AllWhitespace(l[|r|..]);
      }
    }
    r
  }

  /** `r` is the slice of `s` at offset `a`, and everything outside it is whitespace. */
  predicate StrippedAt(s: string, r: string, a: int)
  {
    0 <= a && a + |r| <= |s| && s[a..a + |r|] == r && AllWhitespace(s[..a]) && AllWhitespace(s[a + |r|..])
  }

  /** `str.strip()` removes whitespace only, from the two ends only: its result sits
      inside the input with nothing but whitespace around it. */
  lemma StripIsSlice(s: string)
    ensures exists a :: StrippedAt(s, Strip(s), a)
  {
    var l := StripLeading(s);
    var r := StripTrailing(l);
    var a := |s| - |l|;
    assert r == Strip(s);
    assert l == s[a..];
    assert s[a..a + |r|] == s[a..][..|r|];
    assert s[a + |r|..] == l[|r|..];
    assert StrippedAt(s, r, a);
  }

  function LowerChar(c: char): (d: char)
    ensures 'A' <= c <= 'Z' ==> 'a' <= d <= 'z' && d as int - c as int == 32
    ensures !('A' <= c <= 'Z') ==> d == c
  {
    if 'A' <= c <= 'Z' then (c as int + 32) as char else c
  }

  /** `str.lower()` restricted to ASCII letters; every other character is kept. */
  function Lower(s: string): (r: string)
    ensures |r| == |s|
    ensures forall i :: 0 <= i < |s| ==> r[i] == LowerChar(s[i])
  {
    seq(|s|, i requires 0 <= i < |s| => LowerChar(s[i]))
  }

  /** Two texts equal once lower-cased: the same length, the same letters at each index
      up to case, and the same other characters. */
  predicate SameUpToCase(a: string, b: string)
  {
    |a| == |b| && forall i :: 0 <= i < |a| ==> LowerChar(a[i]) == LowerChar(b[i])
  }

  /** Lower-casing only merges letters: a character that `LowerChar` leaves alone and is
      not a lower-case letter has no other character equal to it up to case. */
  lemma CaseOnlyMergesLetters(c: char, d: char)
    requires LowerChar(c) == LowerChar(d)
    requires !('a' <= c <= 'z') && !('A' <= c <= 'Z')
    ensures c == d
  {
  }

  lemma {:induction false} StripLeadingSameCase(a: string, b: string)
    requires SameUpToCase(a, b)
    ensures SameUpToCase(StripLeading(a), StripLeading(b))
    decreases |a|
  {
    if |a| > 0 && (IsWhitespace(a[0]) || IsWhitespace(b[0])) {
      if IsWhitespace(a[0]) {
        CaseOnlyMergesLetters(a[0], b[0]);
      } else {
        CaseOnlyMergesLetters(b[0], a[0]);
      }
      assert SameUpToCase(a[1..], b[1..]) by {
        forall i | 0 <= i < |a| - 1
          ensures LowerChar(a[1..][i]) == LowerChar(b[1..][i])
        {
          assert a[1..][i] == a[i + 1] && b[1..][i] == b[i + 1];
        }
      }
      StripLeadingSameCase(a[1..], b[1..]);
    }
  }

  lemma {:induction false} StripTrailingSameCase(a: string, b: string)
    requires SameUpToCase(a, b)
    ensures SameUpToCase(StripTrailing(a), StripTrailing(b))
    decreases |a|
  {
    var n := |a|;
    if n > 0 && (IsWhitespace(a[n - 1]) || IsWhitespace(b[n - 1])) {
      if IsWhitespace(a[n - 1]) {
        CaseOnlyMergesLetters(a[n - 1], b[n - 1]);
      } else {
        CaseOnlyMergesLetters(b[n - 1], a[n - 1]);
      }
      assert SameUpToCase(a[..n - 1], b[..n - 1]);
      StripTrailingSameCase(a[..n - 1], b[..n - 1]);
    }
  }

  /** Texts equal up to case strip to texts equal up to case. */
  lemma StripSameCase(a: string, b: string)
    requires SameUpToCase(a, b)
    ensures SameUpToCase(Strip(a), Strip(b))
  {
    StripLeadingSameCase(a, b);
    StripTrailingSameCase(StripLeading(a), StripLeading(b));
  }

  /** `s.replace(from, to)` for one-character `from` and `to`. */
  function ReplaceChar(s: string, from: char, to: char): (r: string)
    ensures |r| == |s|
    ensures forall i :: 0 <= i < |s| ==> r[i] == if s[i] == from then to else s[i]
  {
    if s == [] then [] else [if s[0] == from then to else s[0]] + ReplaceChar(s[1..], from, to)
  }

  /** Python's `needle in haystack`: try each start position of `haystack` in turn. */
  predicate Contains(haystack: string, needle: string)
    decreases |haystack|
  {
    needle <= haystack || (|haystack| > 0 && Contains(haystack[1..], needle))
  }

  /** `needle` sits in `haystack` starting at offset `k`. */
  ghost predicate OccursAt(haystack: string, needle: string, k: int)
  {
    0 <= k && k + |needle| <= |haystack| && haystack[k..k + |needle|] == needle
  }

  /** Reference meaning of substring containment: some offset holds `needle`. */
  ghost predicate Occurs(haystack: string, needle: string)
  {
    exists k :: OccursAt(haystack, needle, k)
  }

  /** Every string occurs in itself. */
  lemma OccursSelf(s: string)
    ensures Occurs(s, s)
  {
    assert OccursAt(s, s, 0);
  }

  /** The empty string occurs in every string. */
  lemma OccursEmpty(s: string)
    ensures Occurs(s, [])
  {
    assert OccursAt(s, [], 0);
  }

  /** A match found by the scan is a real occurrence, at the returned offset. */
  lemma {:induction false} ContainsOccurrence(haystack: string, needle: string) returns (k: int)
    requires Contains(haystack, needle)
    ensures OccursAt(haystack, needle, k)
    decreases |haystack|
  {
    if needle <= haystack {
      k := 0;
    } else {
      var tail := haystack[1..];
      var j := ContainsOccurrence(tail, needle);
      assert haystack[j + 1..j + 1 + |needle|] == tail[j..j + |needle|];
      k := j + 1;
    }
  }

  /** The scan does not miss an occurrence at any offset. */
  lemma {:induction false} OccurrenceContained(haystack: string, needle: string, k: int)
    requires OccursAt(haystack, needle, k)
    ensures Contains(haystack, needle)
    decreases k
  {
    if k == 0 {
      assert needle <= haystack;
    } else {
      var tail := haystack[1..];
      assert tail[k - 1..k - 1 + |needle|] == haystack[k..k + |needle|];
      OccurrenceContained(tail, needle, k - 1);
    }
  }

  /** The scanning search finds exactly the substrings. */
  lemma ContainsIffOccurs(haystack: string, needle: string)
    ensures Contains(haystack, needle) <==> Occurs(haystack, needle)
  {
    if Contains(haystack, needle) {
      var k := ContainsOccurrence(haystack, needle);
    }
    if Occurs(haystack, needle) {
      var k :| OccursAt(haystack, needle, k);
      OccurrenceContained(haystack, needle, k);
    }
  }

  predicate IsDigit(c: char)
  {
    '0' <= c <= '9'
  }

  function DigitChar(d: nat): (c: char)
    requires d < 10
    ensures IsDigit(c) && DigitValue(c) == d
  {
    (d + '0' as int) as char
  }

  function DigitValue(c: char): (d: nat)
    requires IsDigit(c)
    ensures d < 10
  {
    c as int - '0' as int
  }

  /** The number a string of decimal digits denotes. */
  function DecimalValue(s: string): nat
    requires forall i :: 0 <= i < |s| ==> IsDigit(s[i])
  {
    if s == [] then 0 else 10 * DecimalValue(s[..|s| - 1]) + DigitValue(s[|s| - 1])
  }

  /** Python's `str(n)` for a natural number: decimal digits without leading zeros. */
  function NatToString(n: nat): (r: string)
    ensures |r| >= 1
    ensures forall i :: 0 <= i < |r| ==> IsDigit(r[i])
    ensures r[0] == '0' ==> n == 0 && r == "0"
    ensures DecimalValue(r) == n
  {
    if n < 10 then [DigitChar(n)]
    else
      var r := NatToString(n / 10) + [DigitChar(n % 10)];
      assert r[..|r| - 1] == NatToString(n / 10);
      r
  }

  /** Python's `str(i)` for an integer: a minus sign before the digits of a negative number. */
  function IntToString(i: int): (r: string)
    ensures i >= 0 ==> r == NatToString(i)
    ensures i < 0 ==> r == "-" + NatToString(-i)
  {
    if i < 0 then "-" + NatToString(-i) else NatToString(i)
  }

  /** `sep.join(parts)`. */
  function Join(parts: seq<string>, sep: string): (r: string)
    ensures parts == [] ==> r == []
    ensures |parts| == 1 ==> r == parts[0]
  {
    if |parts| == 0 then ""
    else if |parts| == 1 then parts[0]
    else parts[0] + sep + Join(parts[1..], sep)
  }

  /** `c * n` for a one-character string `c`. */
  function Repeat(c: char, n: nat): (r: string)
    ensures |r| == n
    ensures forall i :: 0 <= i < n ==> r[i] == c
  {
    seq(n, _ => c)
  }
}
