/** Byte strings: the order used by sort.Strings, prefixes and suffixes, decimal digits. */
module Strings {

  /** Lexicographic order, the order of Go strings. */
  predicate Less(a: string, b: string) {
    b != [] && (a == [] || a[0] < b[0] || (a[0] == b[0] && Less(a[1..], b[1..])))
  }

  lemma {:induction false} LessIrreflexive(a: string)
    ensures !Less(a, a)
  {
    if a != [] { LessIrreflexive(a[1..]); }
  }

  lemma {:induction false} LessTotal(a: string, b: string)
    ensures a == b || Less(a, b) || Less(b, a)
  {
    if a != [] && b != [] && a[0] == b[0] {
      LessTotal(a[1..], b[1..]);
      assert a == [a[0]] + a[1..] && b == [b[0]] + b[1..];
    }
  }

  lemma {:induction false} LessTransitive(a: string, b: string, c: string)
    requires Less(a, b) && Less(b, c)
    ensures Less(a, c)
  {
    if a != [] && a[0] == b[0] == c[0] {
      LessTransitive(a[1..], b[1..], c[1..]);
    }
  }

  /** Strings that start with parts of equal length compare by those parts first. */
  lemma {:induction false} LessByParts(u: string, v: string, u': string, v': string)
    requires |u| == |u'|
    ensures Less(u + v, u' + v') <==> Less(u, u') || (u == u' && Less(v, v'))
  {
    if u == [] {
      assert u + v == v && u' + v' == v';
    } else {
      LessByParts(u[1..], v, u'[1..], v');
      assert (u + v)[1..] == u[1..] + v && (u' + v')[1..] == u'[1..] + v';
      assert u == [u[0]] + u[1..] && u' == [u'[0]] + u'[1..];
    }
  }

  /** Less means: a proper prefix, or smaller at the first difference. */
  lemma {:induction false} LessMeaning(a: string, b: string)
    ensures Less(a, b) <==> (|a| < |b| && a == b[..|a|]) ||
                            exists i :: 0 <= i < |a| && i < |b| && a[..i] == b[..i] && a[i] < b[i]
  {
    forall i | 0 < i <= |a| && i <= |b| && a[..i] == b[..i]
      ensures a[0] == b[0]
    {
      assert a[..i][0] == b[..i][0];
    }
    if a != [] && b != [] && a[0] == b[0] {
      var (a', b') := (a[1..], b[1..]);
      LessMeaning(a', b');
      assert a == [a[0]] + a' && b == [a[0]] + b';
      if i :| 0 <= i < |a'| && i < |b'| && a'[..i] == b'[..i] && a'[i] < b'[i] {
        assert a[..i + 1] == [a[0]] + a'[..i] == b[..i + 1] && a[i + 1] < b[i + 1];
      }
      if i :| 0 <= i < |a| && i < |b| && a[..i] == b[..i] && a[i] < b[i] {
        assert a'[..i - 1] == a[..i][1..] == b'[..i - 1] && a'[i - 1] < b'[i - 1];
      }
    } else if a != [] && b != [] {
      assert a[..0] == b[..0];
    }
  }

  predicate HasPrefix(s: string, p: string) {
    |p| <= |s| && s[..|p|] == p
  }

  predicate HasSuffix(s: string, x: string) {
    |x| <= |s| && s[|s| - |x|..] == x
  }

  lemma PrefixMeaning(s: string, p: string)
    ensures HasPrefix(s, p) <==> exists rest :: s == p + rest
    ensures HasSuffix(s, p) <==> exists rest :: s == rest + p
  {
    if HasPrefix(s, p) {
      assert s == p + s[|p|..];
    }
    if HasSuffix(s, p) {
      assert s == s[..|s| - |p|] + p;
    }
  }

  function TrimPrefix(s: string, p: string): string {
    if HasPrefix(s, p) then s[|p|..] else s
  }

  function TrimSuffix(s: string, x: string): string {
    if HasSuffix(s, x) then s[..|s| - |x|] else s
  }

  /** Only the prefix or suffix itself is taken off. */
  lemma TrimMeaning(s: string, p: string)
    ensures TrimPrefix(p + s, p) == s && TrimSuffix(s + p, p) == s
    ensures !HasPrefix(s, p) ==> TrimPrefix(s, p) == s
    ensures !HasSuffix(s, p) ==> TrimSuffix(s, p) == s
  {
  }

  /** Taking off a prefix and a suffix recovers exactly what they enclose. */
  lemma TrimEnclosed(p: string, s: string, x: string)
    ensures TrimSuffix(TrimPrefix(p + s + x, p), x) == s
  {
    assert (p + s + x)[|p|..] == s + x;
  }

  function Digit(n: int): char
    requires 0 <= n < 10
  {
    ('0' as int + n) as char
  }

  predicate IsDigit(c: char) {
    '0' <= c <= '9'
  }

  function DigitValue(c: char): (n: int)
    requires IsDigit(c)
    ensures 0 <= n < 10 && Digit(n) == c
  {
    c as int - '0' as int
  }

  /** Two decimal digits, padded with zero. */
  function Two(n: int): (s: string)
    requires 0 <= n < 100
    ensures |s| == 2
  {
    [Digit(n / 10), Digit(n % 10)]
  }

  /** Four decimal digits, padded with zeros. */
  function Four(n: int): (s: string)
    requires 0 <= n < 10000
    ensures |s| == 4
  {
    Two(n / 100) + Two(n % 100)
  }

  predicate AllDigits(s: string) {
    forall i :: 0 <= i < |s| ==> IsDigit(s[i])
  }

  /** The number written by a string of decimal digits. */
  function Value(s: string): (n: nat)
    requires AllDigits(s)
  {
    if s == [] then 0 else 10 * Value(s[..|s| - 1]) + DigitValue(s[|s| - 1])
  }

  lemma ValueOfTwo(s: string)
    requires |s| == 2 && AllDigits(s)
    ensures Value(s) == 10 * DigitValue(s[0]) + DigitValue(s[1])
  {
    var t := s[..1];
    assert t[..|t| - 1] == [] && t[0] == s[0];
    assert Value(t) == DigitValue(s[0]);
  }

  lemma ValueOfFour(s: string)
    requires |s| == 4 && AllDigits(s)
    ensures Value(s) == 100 * Value(s[..2]) + Value(s[2..])
  {
    ValueOfTwo(s[2..]);
    var t := s[..3];
    assert t[..|t| - 1] == s[..2] && t[2] == s[2];
    assert Value(t) == 10 * Value(s[..2]) + DigitValue(s[2]);
  }

  lemma TwoValue(n: int)
    requires 0 <= n < 100
    ensures AllDigits(Two(n)) && Value(Two(n)) == n
  {
    ValueOfTwo(Two(n));
  }

  lemma FourValue(n: int)
    requires 0 <= n < 10000
    ensures AllDigits(Four(n)) && Value(Four(n)) == n
  {
    TwoValue(n / 100);
    TwoValue(n % 100);
    var s := Four(n);
    assert s[..2] == Two(n / 100) && s[2..] == Two(n % 100);
    ValueOfFour(s);
  }

  /** Two-digit strings are exactly the renderings of 0 to 99. */
  lemma TwoOfValue(s: string)
    requires |s| == 2 && AllDigits(s)
    ensures 0 <= Value(s) < 100 && Two(Value(s)) == s
  {
    ValueOfTwo(s);
  }

  lemma FourOfValue(s: string)
    requires |s| == 4 && AllDigits(s)
    ensures 0 <= Value(s) < 10000 && Four(Value(s)) == s
  {
    TwoOfValue(s[..2]);
    TwoOfValue(s[2..]);
    ValueOfFour(s);
    var a, b := Value(s[..2]), Value(s[2..]);
    assert (100 * a + b) / 100 == a && (100 * a + b) % 100 == b;
    assert s == s[..2] + s[2..];
  }

  lemma TwoOrder(a: int, b: int)
    requires 0 <= a < 100 && 0 <= b < 100
    ensures Less(Two(a), Two(b)) <==> a < b
  {
    var x, y := Two(a), Two(b);
    assert x[1..] == [Digit(a % 10)] && y[1..] == [Digit(b % 10)];
    assert x[1..][1..] == [] && y[1..][1..] == [];
    assert Less(x[1..], y[1..]) <==> a % 10 < b % 10;
  }

  lemma FourOrder(a: int, b: int)
    requires 0 <= a < 10000 && 0 <= b < 10000
    ensures Less(Four(a), Four(b)) <==> a < b
  {
    LessByParts(Two(a / 100), Two(a % 100), Two(b / 100), Two(b % 100));
    TwoOrder(a / 100, b / 100);
    TwoOrder(a % 100, b % 100);
    TwoValue(a / 100);
    TwoValue(b / 100);
  }

  /** Decimal rendering without padding, Go's %d. */
  function Decimal(n: int): string
    decreases n < 0, if n < 0 then -n else n
  {
    if n < 0 then "-" + Decimal(-n)
    else if n < 10 then [Digit(n)]
    else Decimal(n / 10) + [Digit(n % 10)]
  }

  lemma {:induction false} DecimalValue(n: nat)
    ensures Decimal(n) != [] && AllDigits(Decimal(n)) && Value(Decimal(n)) == n
  {
    var s := Decimal(n);
    if n >= 10 {
      DecimalValue(n / 10);
      assert s[..|s| - 1] == Decimal(n / 10);
    } else {
      assert s[..0] == [];
    }
  }

  lemma DecimalInjective(a: int, b: int)
    ensures Decimal(a) == Decimal(b) <==> a == b
  {
    DecimalValue(if a < 0 then -a else a);
    DecimalValue(if b < 0 then -b else b);
    if Decimal(a) == Decimal(b) {
      if a < 0 {
        assert Decimal(a)[0] == '-';
        assert Decimal(a)[1..] == Decimal(-a);
      }
      if b < 0 {
        assert Decimal(b)[0] == '-';
        assert Decimal(b)[1..] == Decimal(-b);
      }
    }
  }
}
