/** The decimal texts that scores are written in (src/runtime.rs:573-584). */
module Decimals {

  predicate IsDigit(c: char) {
    '0' <= c <= '9'
  }

  predicate Digits(s: string) {
    forall c :: c in s ==> IsDigit(c)
  }

  /** The position of the first dot, or the length. */
  function Dot(s: string): (k: nat)
    ensures k <= |s|
  {
    if s == [] || s[0] == '.' then 0 else 1 + Dot(s[1..])
  }

  predicate CanonicalDecimal(value: string) {
    var unsigned := if "-" <= value then value[1..] else value;
    var integer := unsigned[..Dot(unsigned)];
    var fraction := if Dot(unsigned) < |unsigned| then unsigned[Dot(unsigned) + 1..] else [];
    value == "0"
    || (integer != [] && Digits(integer) && (integer == "0" || integer[0] != '0')
        && (fraction == [] || (Digits(fraction) && fraction[|fraction| - 1] != '0')))
  }

  // ------------------------------------------------------------------------ what is accepted

  /** Digits without a zero in front, or zero itself. */
  predicate Integer(s: string) {
    s != [] && Digits(s) && (s[0] == '0' ==> |s| == 1)
  }

  /** Digits without a zero at the end, or none. */
  predicate Fraction(s: string) {
    Digits(s) && (s != [] ==> s[|s| - 1] != '0')
  }

  /** A decimal by its parts; the dot may be there without digits after it. */
  datatype Parts = Parts(negative: bool, integer: string, dot: bool, fraction: string)

  predicate Proper(p: Parts) {
    Integer(p.integer) && Fraction(p.fraction) && (!p.dot ==> p.fraction == [])
  }

  function Rest(p: Parts): string {
    (if p.dot then "." else "") + p.fraction
  }

  function Unsigned(p: Parts): string {
    p.integer + Rest(p)
  }

  function Print(p: Parts): string {
    if p.negative then "-" + Unsigned(p) else Unsigned(p)
  }

  lemma {:induction false} DotOf(integer: string, rest: string)
    requires Digits(integer) && (rest != [] ==> rest[0] == '.')
    ensures Dot(integer + rest) == |integer|
  {
    if integer == [] {
      assert integer + rest == rest;
    } else {
      assert integer[0] in integer && (integer + rest)[0] == integer[0];
      assert (integer + rest)[1..] == integer[1..] + rest;
      DotOf(integer[1..], rest);
    }
  }

  lemma {:induction false} DotIs(s: string)
    ensures Dot(s) < |s| ==> s[Dot(s)] == '.'
  {
    if s != [] && s[0] != '.' {
      DotIs(s[1..]);
    }
  }

  /** The texts that are accepted are exactly the printed ones. */
  lemma AcceptsExactlyThePrinted(value: string)
    ensures CanonicalDecimal(value) <==> exists p :: Proper(p) && Print(p) == value
  {
    if CanonicalDecimal(value) {
      var p := PartsOf(value);
    }
    forall p | Proper(p) && Print(p) == value ensures CanonicalDecimal(value) {
      PrintedIsAccepted(p);
    }
  }

  lemma PartsOf(value: string) returns (p: Parts)
    requires CanonicalDecimal(value)
    ensures Proper(p) && Print(p) == value
  {
    if value == "0" {
      p := Parts(false, "0", false, "");
      assert Unsigned(p) == value;
    } else if "-" <= value {
      p := UnsignedPartsOf(value[1..]).(negative := true);
      assert value == "-" + value[1..];
    } else {
      p := UnsignedPartsOf(value);
    }
  }

  function UnsignedPartsOf(s: string): (p: Parts)
    ensures !p.negative && Unsigned(p) == s && (!p.dot ==> p.fraction == [])
    ensures p.integer == s[..Dot(s)] && p.fraction == if Dot(s) < |s| then s[Dot(s) + 1..] else []
  {
    DotIs(s);
    var k := Dot(s);
    assert k < |s| ==> s[k..] == "." + s[k + 1..];
    assert s == s[..k] + s[k..];
    Parts(false, s[..k], k < |s|, if k < |s| then s[k + 1..] else [])
  }

  lemma PrintedIsAccepted(p: Parts)
    requires Proper(p)
    ensures CanonicalDecimal(Print(p))
  {
    var rest, unsigned := Rest(p), Unsigned(p);
    assert p.integer[0] in p.integer;
    assert unsigned[0] == p.integer[0];
    DotOf(p.integer, rest);
    assert unsigned[..|p.integer|] == p.integer && unsigned[|p.integer|..] == rest;
    assert p.dot ==> unsigned[|p.integer| + 1..] == p.fraction;
    assert ("-" + unsigned)[1..] == unsigned;
  }

  // --------------------------------------------------------------- one text for every number

  function Digit(c: char): nat
    requires IsDigit(c)
  {
    c as int - '0' as int
  }

  function IntegerValue(s: string): nat
    requires Digits(s)
  {
    if s == [] then 0
    else
      assert s[|s| - 1] in s;
      10 * IntegerValue(s[..|s| - 1]) + Digit(s[|s| - 1])
  }

  function FractionValue(s: string): (v: real)
    requires Digits(s)
    ensures 0.0 <= v < 1.0
  {
    if s == [] then 0.0
    else
      assert s[0] in s;
      (Digit(s[0]) as real + FractionValue(s[1..])) / 10.0
  }

  /** The number that the parts stand for. */
  function Value(p: Parts): real
    requires Proper(p)
  {
    var size := IntegerValue(p.integer) as real + FractionValue(p.fraction);
    if p.negative then -size else size
  }

  lemma {:induction false} IntegerIsPositive(s: string)
    requires Integer(s) && s != "0"
    ensures IntegerValue(s) > 0
  {
    if |s| == 1 {
      assert s[0] in s && s[..0] == [];
    } else {
      assert s[..|s| - 1] != "0";
      IntegerIsPositive(s[..|s| - 1]);
    }
  }

  lemma {:induction false} SameInteger(a: string, b: string)
    requires Integer(a) && Integer(b) && IntegerValue(a) == IntegerValue(b)
    ensures a == b
    decreases |a|
  {
    var m, n := |a| - 1, |b| - 1;
    assert a[m] in a && b[n] in b && a == a[..m] + [a[m]] && b == b[..n] + [b[n]];
    if m > 0 {
      IntegerIsPositive(a[..m]);
    }
    if n > 0 {
      IntegerIsPositive(b[..n]);
    }
    assert Digit(a[m]) == Digit(b[n]) && IntegerValue(a[..m]) == IntegerValue(b[..n]);
    if m > 0 && n > 0 {
      SameInteger(a[..m], b[..n]);
    }
  }

  lemma {:induction false} FractionIsPositive(s: string)
    requires Fraction(s) && s != []
    ensures FractionValue(s) > 0.0
  {
    assert s[0] in s;
    if |s| > 1 {
      FractionIsPositive(s[1..]);
    }
  }

  lemma {:induction false} SameFraction(a: string, b: string)
    requires Fraction(a) && Fraction(b) && FractionValue(a) == FractionValue(b)
    ensures a == b
    decreases |a|
  {
    if a != [] {
      FractionIsPositive(a);
    }
    if b != [] {
      FractionIsPositive(b);
    }
    if a != [] && b != [] {
      assert a[0] in a && b[0] in b && a == [a[0]] + a[1..] && b == [b[0]] + b[1..];
      SameWhole(Digit(a[0]), FractionValue(a[1..]), Digit(b[0]), FractionValue(b[1..]));
      SameFraction(a[1..], b[1..]);
    }
  }

  lemma SameWhole(m: int, x: real, n: int, y: real)
    requires 0.0 <= x < 1.0 && 0.0 <= y < 1.0 && m as real + x == n as real + y
    ensures m == n && x == y
  {
    assert (m as real + x).Floor == m && (n as real + y).Floor == n;
  }

  predicate IsZero(p: Parts) {
    p.integer == "0" && p.fraction == []
  }

  /** Two accepted texts stand for the same number exactly if they differ at most in a dot that no digits
      follow and in the sign of zero. So every number but zero has one text without such a dot. */
  lemma SameNumberExactlyWhen(p: Parts, q: Parts)
    requires Proper(p) && Proper(q)
    ensures Value(p) == Value(q) <==>
      p.integer == q.integer && p.fraction == q.fraction && (p.negative == q.negative || IsZero(p))
  {
    SizeIsZero(p);
    SizeIsZero(q);
    var m, n := IntegerValue(p.integer), IntegerValue(q.integer);
    var x, y := FractionValue(p.fraction), FractionValue(q.fraction);
    if Value(p) == Value(q) && (p.negative == q.negative || IsZero(p)) {
      SameWhole(m, x, n, y);
      SameInteger(p.integer, q.integer);
      SameFraction(p.fraction, q.fraction);
    }
  }

  lemma SizeIsZero(p: Parts)
    requires Proper(p)
    ensures IntegerValue(p.integer) as real + FractionValue(p.fraction) == 0.0 <==> IsZero(p)
  {
    if p.integer != "0" {
      IntegerIsPositive(p.integer);
    } else {
      assert "0"[..0] == [] && IntegerValue("0") == 0;
    }
    if p.fraction != [] {
      FractionIsPositive(p.fraction);
    }
  }

  /** Zero has more texts than one, and so has every number by a last dot. */
  lemma NotAlwaysOneText()
    ensures CanonicalDecimal("0") && CanonicalDecimal("-0") && CanonicalDecimal("1") && CanonicalDecimal("1.")
  {
    PrintedIsAccepted(Parts(true, "0", false, ""));
    PrintedIsAccepted(Parts(false, "1", false, ""));
    PrintedIsAccepted(Parts(false, "1", true, ""));
    assert Print(Parts(true, "0", false, "")) == "-0" && Print(Parts(false, "1", false, "")) == "1";
    assert Print(Parts(false, "1", true, "")) == "1.";
  }
}
