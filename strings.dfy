/**
 * Strings as the dashboard builds and compares them: decimal rendering of
 * naturals (template-literal interpolation `${n}`), `padStart(2, "0")`, and the
 * code-unit lexicographic order that `Array.prototype.sort()` uses when it is
 * given no comparator.
 */
module Strings {

  // ---------------------------------------------------------------------------
  // Lexicographic order
  // ---------------------------------------------------------------------------

  /** `a` sorts strictly before `b`: the first differing character decides, and
      a proper prefix sorts before any of its extensions. */
  predicate LexLess(a: string, b: string)
    ensures LexLess(a, b) ==> a != b
    ensures |a| <= |b| && a == b[..|a|] ==> (LexLess(a, b) <==> |a| < |b|)
    ensures forall k :: 0 <= k < |a| && k < |b| && a[..k] == b[..k] && a[k] != b[k]
                        ==> (LexLess(a, b) <==> a[k] < b[k])
    decreases |a|
  {
    if |a| == 0 then |b| > 0
    else if |b| == 0 then false
    else if a[0] != b[0] then a[0] < b[0]
    else
      assert forall k :: 0 < k <= |a| && k <= |b| && a[..k] == b[..k]
                         ==> a[1..][..k - 1] == a[..k][1..] == b[..k][1..] == b[1..][..k - 1];
      LexLess(a[1..], b[1..])
  }

  predicate LexLessEq(a: string, b: string) {
    a == b || LexLess(a, b)
  }

  lemma {:induction false} LexLessIrreflexive(a: string)
    ensures !LexLess(a, a)
    decreases |a|
  {
    if |a| > 0 {
      LexLessIrreflexive(a[1..]);
    }
  }

  lemma {:induction false} LexLessTransitive(a: string, b: string, c: string)
    requires LexLess(a, b) && LexLess(b, c)
    ensures LexLess(a, c)
    decreases |a|
  {
    if |a| > 0 && a[0] == b[0] && b[0] == c[0] {
      LexLessTransitive(a[1..], b[1..], c[1..]);
    }
  }

  lemma {:induction false} LexLessTotal(a: string, b: string)
    requires a != b
    ensures LexLess(a, b) || LexLess(b, a)
    decreases |a|
  {
    if |a| > 0 && |b| > 0 && a[0] == b[0] {
      assert a == [a[0]] + a[1..] && b == [b[0]] + b[1..];
      LexLessTotal(a[1..], b[1..]);
    }
  }

  lemma LexLessAsymmetric(a: string, b: string)
    requires LexLess(a, b)
    ensures !LexLess(b, a)
  {
    if LexLess(b, a) {
      LexLessTransitive(a, b, a);
      LexLessIrreflexive(a);
    }
  }

  /** A shared prefix does not change the order. */
  lemma {:induction false} LexLessCommonPrefix(p: string, a: string, b: string)
    requires LexLess(a, b)
    ensures LexLess(p + a, p + b)
    decreases |p|
  {
    if |p| > 0 {
      assert (p + a)[0] == p[0] == (p + b)[0];
      assert (p + a)[1..] == p[1..] + a && (p + b)[1..] == p[1..] + b;
      LexLessCommonPrefix(p[1..], a, b);
    } else {
      assert p + a == a && p + b == b;
    }
  }

  /** Not sorting after is sorting before or being equal: the order is total. */
  lemma NotLessIsLessEq(a: string, b: string)
    ensures !LexLess(b, a) <==> LexLessEq(a, b)
  {
    if a != b {
      LexLessTotal(a, b);
    }
    LexLessIrreflexive(a);
    if LexLess(a, b) {
      LexLessAsymmetric(a, b);
    }
  }

  lemma LexLessEqTransitive(a: string, b: string, c: string)
    requires LexLessEq(a, b) && LexLessEq(b, c)
    ensures LexLessEq(a, c)
  {
    if a != b && b != c {
      LexLessTransitive(a, b, c);
    }
  }

  // ---------------------------------------------------------------------------
  // Decimal rendering of naturals
  // ---------------------------------------------------------------------------

  predicate IsDigit(c: char) {
    '0' <= c <= '9'
  }

  predicate AllDigits(s: string) {
    forall i :: 0 <= i < |s| ==> IsDigit(s[i])
  }

  function DigitChar(d: nat): (c: char)
    requires d < 10
    ensures IsDigit(c)
  {
    (48 + d) as char
  }

  function DigitValue(c: char): (d: nat)
    requires IsDigit(c)
    ensures d < 10
  {
    (c as int) - 48
  }

  /** The decimal form of `n` without leading zeros, as `${n}` renders it. */
  function NatToString(n: nat): (s: string)
    ensures 1 <= |s|
    ensures AllDigits(s)
    ensures n >= 10 <==> |s| >= 2
    ensures s[0] == '0' <==> n == 0
    decreases n
  {
    if n < 10 then [DigitChar(n)] else NatToString(n / 10) + [DigitChar(n % 10)]
  }

  /** Reads a string of decimal digits back as a natural (leading zeros allowed). */
  function ParseDigits(s: string): nat
    requires AllDigits(s)
    decreases |s|
  {
    if |s| == 0 then 0 else ParseDigits(s[..|s| - 1]) * 10 + DigitValue(s[|s| - 1])
  }

  lemma {:induction false} ParseNatToString(n: nat)
    ensures ParseDigits(NatToString(n)) == n
    decreases n
  {
    var s := NatToString(n);
    if n >= 10 {
      assert s[..|s| - 1] == NatToString(n / 10);
      ParseNatToString(n / 10);
    }
  }

  lemma NatToStringInjective(m: nat, n: nat)
    requires NatToString(m) == NatToString(n)
    ensures m == n
  {
    ParseNatToString(m);
    ParseNatToString(n);
  }

  /** `s.padStart(2, "0")`. */
  function PadStart2(s: string): (r: string)
    ensures |r| == if |s| < 2 then 2 else |s|
    ensures r[|r| - |s|..] == s
    ensures forall i :: 0 <= i < |r| - |s| ==> r[i] == '0'
  {
    if |s| == 0 then "00" else if |s| == 1 then "0" + s else s
  }

  /** A padded number parses back to itself, so padding keeps numbers apart;
      below 100 (every minute) it has exactly two digits. */
  lemma ParsePaddedMinute(m: nat)
    ensures AllDigits(PadStart2(NatToString(m)))
    ensures m < 100 <==> |PadStart2(NatToString(m))| == 2
    ensures ParseDigits(PadStart2(NatToString(m))) == m
  {
    var s := NatToString(m);
    var p := PadStart2(s);
    if m < 10 {
      assert p == ['0', DigitChar(m)];
      assert p[..1] == ['0'];
      assert ParseDigits(p[..1]) == 0;
    } else {
      ParseNatToString(m);
    }
  }

  // ---------------------------------------------------------------------------
  // Splitting at a separator
  // ---------------------------------------------------------------------------

  /** A separator that occurs in neither head splits the concatenation uniquely. */
  lemma SplitAtSeparator(a: string, b: string, a': string, b': string, sep: char)
    requires sep !in a && sep !in a'
    requires a + [sep] + b == a' + [sep] + b'
    ensures a == a' && b == b'
  {
    var s := a + [sep] + b;
    assert s[|a|] == sep && s[|a'|] == sep;
    assert forall i :: 0 <= i < |a| ==> s[i] == a[i] != sep;
    assert forall i :: 0 <= i < |a'| ==> s[i] == a'[i] != sep;
    assert a == s[..|a|] == a';
    assert b == s[|a| + 1..] == b';
  }

  /** Three digit fields joined by a non-digit separator split back uniquely. */
  lemma SplitThreeFields(a: string, b: string, c: string, a': string, b': string, c': string, sep: char)
    requires AllDigits(a) && AllDigits(b) && AllDigits(a') && AllDigits(b') && !IsDigit(sep)
    requires a + [sep] + b + [sep] + c == a' + [sep] + b' + [sep] + c'
    ensures a == a' && b == b' && c == c'
  {
    assert a + [sep] + b + [sep] + c == a + [sep] + (b + [sep] + c);
    assert a' + [sep] + b' + [sep] + c' == a' + [sep] + (b' + [sep] + c');
    DigitsLackSeparator(a, sep);
    DigitsLackSeparator(a', sep);
    DigitsLackSeparator(b, sep);
    DigitsLackSeparator(b', sep);
    SplitAtSeparator(a, b + [sep] + c, a', b' + [sep] + c', sep);
    SplitAtSeparator(b, c, b', c', sep);
  }

  lemma DigitsLackSeparator(s: string, sep: char)
    requires AllDigits(s) && !IsDigit(sep)
    ensures sep !in s
  {
  }
}
