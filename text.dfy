/**
 * String utilities the core relies on: trimming of whitespace and newlines
 * (Foundation's `trimmingCharacters(in: .whitespacesAndNewlines)`) and the
 * decimal rendering of an integer (Swift's string interpolation of an `Int`).
 * Strings are sequences of Unicode scalar values.
 */
module Text {
  import opened Wrappers

  /** The characters of `CharacterSet.whitespacesAndNewlines` as
      CoreFoundation defines the set: the Unicode White_Space property (tab
      to carriage return, space, NEL, no-break space, the Zs separators, line
      and paragraph separator) together with U+200B ZERO WIDTH SPACE, which
      CoreFoundation's whitespace range 0x2000-0x200B takes in. */
  predicate IsSpace(c: char) {
    ('\U{0009}' <= c <= '\U{000D}') || c == ' ' || c == '\U{0085}' || c == '\U{00A0}'
    || c == '\U{1680}' || ('\U{2000}' <= c <= '\U{200B}') || c == '\U{2028}'
    || c == '\U{2029}' || c == '\U{202F}' || c == '\U{205F}' || c == '\U{3000}'
  }

  predicate AllSpace(s: string) {
    forall i :: 0 <= i < |s| ==> IsSpace(s[i])
  }

  /** Neither the first nor the last character is whitespace. */
  predicate NoEdgeSpace(s: string) {
    s == [] || (!IsSpace(s[0]) && !IsSpace(s[|s| - 1]))
  }

  /** Length of the longest all-whitespace prefix. */
  function LeadingSpace(s: string): (n: nat)
    ensures n <= |s| && AllSpace(s[..n])
    ensures n < |s| ==> !IsSpace(s[n])
  {
    if |s| > 0 && IsSpace(s[0]) then
      var m := LeadingSpace(s[1..]);
      assert s[..1 + m] == [s[0]] + s[1..][..m];
      1 + m
    else
      0
  }

  /** Length of the longest all-whitespace suffix. */
  function TrailingSpace(s: string): (n: nat)
    ensures n <= |s| && AllSpace(s[|s| - n..])
    ensures n < |s| ==> !IsSpace(s[|s| - 1 - n])
  {
    if |s| > 0 && IsSpace(s[|s| - 1]) then
      var t := s[..|s| - 1];
      var m := TrailingSpace(t);
      assert s[|s| - (1 + m)..] == t[|t| - m..] + [s[|s| - 1]];
      AllSpaceConcat(t[|t| - m..], [s[|s| - 1]]);
      assert 1 + m < |s| ==> s[|s| - 1 - (1 + m)] == t[|t| - 1 - m];
      1 + m
    else
      0
  }

  lemma AllSpaceConcat(a: string, b: string)
    requires AllSpace(a) && AllSpace(b)
    ensures AllSpace(a + b)
  {
    forall k | 0 <= k < |a + b| ensures IsSpace((a + b)[k]) {
      if k >= |a| { assert (a + b)[k] == b[k - |a|]; }
    }
  }

  lemma AllSpaceSlice(s: string, i: nat, j: nat)
    requires i <= j <= |s| && AllSpace(s[i..j])
    ensures forall k :: i <= k < j ==> IsSpace(s[k])
  {
    forall k | i <= k < j ensures IsSpace(s[k]) { assert s[i..j][k - i] == s[k]; }
  }

  /** The prefix length satisfying LeadingSpace's contract is unique. */
  lemma LeadingSpaceUnique(s: string, m: nat)
    requires m <= |s| && AllSpace(s[..m])
    requires m < |s| ==> !IsSpace(s[m])
    ensures LeadingSpace(s) == m
  {
    var n := LeadingSpace(s);
    AllSpaceSlice(s, 0, n);
    AllSpaceSlice(s, 0, m);
  }

  /** The suffix length satisfying TrailingSpace's contract is unique. */
  lemma TrailingSpaceUnique(s: string, m: nat)
    requires m <= |s| && AllSpace(s[|s| - m..])
    requires m < |s| ==> !IsSpace(s[|s| - 1 - m])
    ensures TrailingSpace(s) == m
  {
  }

  /** `s` with leading and trailing whitespace removed. */
  function Trim(s: string): (r: string)
    ensures NoEdgeSpace(r)
    ensures |r| <= |s|
    ensures r == [] <==> AllSpace(s)
  {
    var i := LeadingSpace(s);
    var t := s[i..];
    var j := TrailingSpace(t);
    assert i < |s| ==> j < |t| && t[0] == s[i];
    assert i == |s| <==> AllSpace(s) by {
      if i == |s| { assert s[..i] == s; }
      if i < |s| { assert !IsSpace(s[i]); }
    }
    t[..|t| - j]
  }

  /** What Trim drops is whitespace on both sides: the input is the result
      padded with whitespace. */
  lemma TrimSplit(s: string) returns (pre: string, post: string)
    ensures s == pre + Trim(s) + post
    ensures AllSpace(pre) && AllSpace(post)
  {
    var i := LeadingSpace(s);
    var t := s[i..];
    var j := TrailingSpace(t);
    var k := |s| - j;
    assert Trim(s) == t[..|t| - j] == s[i..k];
    assert t[|t| - j..] == s[k..];
    pre, post := s[..i], s[k..];
    SplitThree(s, i, k);
  }

  lemma SplitThree(s: string, i: nat, k: nat)
    requires i <= k <= |s|
    ensures s == s[..i] + s[i..k] + s[k..]
  {
    assert s[..i] + s[i..k] == s[..k];
  }

  /** Trim of a whitespace-padded text without edge whitespace is that text:
      together with TrimSplit this characterizes Trim completely. */
  lemma TrimPadded(pre: string, t: string, post: string)
    requires AllSpace(pre) && AllSpace(post) && NoEdgeSpace(t)
    ensures Trim(pre + t + post) == t
  {
    var s := pre + t + post;
    if t == [] {
      assert s == pre + post;
      assert AllSpace(s) by {
        forall k | 0 <= k < |s| ensures IsSpace(s[k]) {
          if k < |pre| { assert s[k] == pre[k]; } else { assert s[k] == post[k - |pre|]; }
        }
      }
    } else {
      assert s[..|pre|] == pre;
      assert s[|pre|] == t[0];
      LeadingSpaceUnique(s, |pre|);
      var rest := s[|pre|..];
      assert rest == t + post;
      assert rest[|rest| - |post|..] == post;
      assert rest[|rest| - 1 - |post|] == t[|t| - 1];
      TrailingSpaceUnique(rest, |post|);
      assert rest[..|rest| - |post|] == t;
    }
  }

  /** Trimming twice is trimming once. */
  lemma TrimIdempotent(s: string)
    ensures Trim(Trim(s)) == Trim(s)
  {
    var t := Trim(s);
    assert [] + t + [] == t;
    TrimPadded([], t, []);
  }

  // ---------------------------------------------------------------------
  // Decimal rendering of integers

  predicate IsDigit(c: char) { '0' <= c <= '9' }

  predicate AllDigits(s: string) {
    forall i :: 0 <= i < |s| ==> IsDigit(s[i])
  }

  function DigitChar(d: nat): (c: char)
    requires d < 10
    ensures IsDigit(c)
  {
    ('0' as int + d) as char
  }

  function DigitValue(c: char): (d: nat)
    requires IsDigit(c)
    ensures d < 10
  {
    c as int - '0' as int
  }

  /** Decimal digits of `n`, most significant first, no leading zero. */
  function NatToDecimal(n: nat): (s: string)
    ensures |s| >= 1 && AllDigits(s)
    ensures |s| > 1 ==> s[0] != '0'
  {
    if n < 10 then [DigitChar(n)] else NatToDecimal(n / 10) + [DigitChar(n % 10)]
  }

  /** Swift's description of an `Int`: a minus sign for negative values. */
  function IntToDecimal(i: int): (s: string)
    ensures |s| >= 1
    ensures i < 0 <==> s[0] == '-'
    ensures i < 0 ==> AllDigits(s[1..]) && |s| >= 2
    ensures i >= 0 ==> AllDigits(s)
    ensures |s| > 1 && s[0] != '-' ==> s[0] != '0'
    ensures i < 0 && |s| > 2 ==> s[1] != '0'
  {
    if i < 0 then "-" + NatToDecimal(-i) else NatToDecimal(i)
  }

  /** The value of a string of decimal digits. */
  function DecimalValue(s: string): nat
    requires AllDigits(s)
  {
    if s == [] then 0 else 10 * DecimalValue(s[..|s| - 1]) + DigitValue(s[|s| - 1])
  }

  /** Reads back what IntToDecimal writes. */
  function ParseInt(s: string): Option<int> {
    if |s| > 1 && s[0] == '-' && AllDigits(s[1..]) then Some(0 - DecimalValue(s[1..]) as int)
    else if |s| > 0 && AllDigits(s) then Some(DecimalValue(s))
    else None
  }

  lemma {:induction false} DecimalValueOfNat(n: nat)
    ensures DecimalValue(NatToDecimal(n)) == n
  {
    var s := NatToDecimal(n);
    if n >= 10 {
      DecimalValueOfNat(n / 10);
      assert s[..|s| - 1] == NatToDecimal(n / 10);
      assert DigitValue(s[|s| - 1]) == n % 10;
    }
  }

  /** Decimal rendering is invertible, so distinct integers render differently. */
  lemma ParseIntToDecimal(i: int)
    ensures ParseInt(IntToDecimal(i)) == Some(i)
  {
    var s := IntToDecimal(i);
    if i < 0 {
      DecimalValueOfNat(-i);
      assert s[1..] == NatToDecimal(-i);
    } else {
      DecimalValueOfNat(i);
    }
  }
}
