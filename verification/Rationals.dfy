/** Canonical rational evidence: `validate_typed_values` of configuration_encoding.rs
    accepts a numerator and a denominator as decimal text only in the one form the
    big-number library itself prints. */
module Rationals {
  import opened Core

  // ---- Decimal text

  predicate IsDigit(c: char) {
    '0' <= c <= '9'
  }

  function DigitChar(d: nat): char
    requires d < 10
  {
    "0123456789"[d]
  }

  function NatText(n: nat): (s: string)
    ensures s != [] && IsDigit(s[0])
  {
    if n < 10 then [DigitChar(n)] else NatText(n / 10) + [DigitChar(n % 10)]
  }

  function IntText(n: int): string {
    if n < 0 then "-" + NatText(-n) else NatText(n)
  }

  /** Digits, with underscores allowed between them. */
  function Digits(s: string): Option<nat> {
    if s == [] then Some(0)
    else
      var c := s[|s| - 1];
      match Digits(s[..|s| - 1])
      case None => None
      case Some(n) =>
        if c == '_' then Some(n)
        else if IsDigit(c) then Some(10 * n + (c as int - '0' as int))
        else None
  }

  function ParseNat(s: string): Option<nat> {
    var t := if s != [] && s[0] == '+' then s[1..] else s;
    if t == [] || t[0] == '_' then None else Digits(t)
  }

  /** Text to big integer: a sign, then digits and inner underscores. */
  function ParseInt(s: string): Option<int> {
    if s != [] && s[0] == '-' then
      if |s| > 1 && s[1] == '+' then None
      else
        var m := ParseNat(s[1..]);
        if m.None? then None else Some(-(m.value as int))
    else
      var m := ParseNat(s);
      if m.None? then None else Some(m.value as int)
  }

  lemma {:induction false} DigitsOfText(n: nat)
    ensures Digits(NatText(n)) == Some(n)
  {
    var d := n % 10;
    assert DigitChar(d) as int - '0' as int == d && IsDigit(DigitChar(d));
    if n < 10 {
      assert NatText(n)[..0] == [];
    } else {
      DigitsOfText(n / 10);
      assert NatText(n)[..|NatText(n)| - 1] == NatText(n / 10);
    }
  }

  lemma ParseInvertsText(n: int)
    ensures ParseInt(IntText(n)) == Some(n)
  {
    DigitsOfText(if n < 0 then -n else n);
    if n < 0 { assert IntText(n)[1..] == NatText(-n); }
  }

  // ---- Lowest terms

  function Gcd(a: nat, b: nat): (g: nat)
    ensures a > 0 || b > 0 ==> g > 0
    decreases b
  {
    if b == 0 then a else Gcd(b, a % b)
  }

  function Abs(n: int): nat {
    if n < 0 then -n else n
  }

  predicate IsMultiple(a: int, k: int, b: int) {
    b == a * k
  }

  ghost predicate Divides(a: int, b: int) {
    exists k :: IsMultiple(a, k, b)
  }

  lemma ProductAtLeast(a: int, b: int)
    requires a >= 1 && b >= 1
    ensures a * b >= a && a * b >= b
  {
  }

  /** A multiple of `g` in [0, g) is zero, and a zero product has a zero factor. */
  lemma SmallMultiple(g: int, e: int)
    requires g > 0
    ensures 0 <= g * e < g ==> e == 0
  {
    if e >= 1 {
      ProductAtLeast(g, e);
    } else if e <= -1 {
      ProductAtLeast(g, -e);
      assert g * e == -(g * -e);
    }
  }

  lemma {:induction false} ExactQuotient(g: int, k: int)
    requires g > 0
    ensures (g * k) / g == k
  {
    var q := (g * k) / g;
    var e := k - q;
    assert g * e == g * k - g * q;
    SmallMultiple(g, e);
  }

  /** The greatest common divisor is an integer combination of its arguments. */
  lemma {:induction false} Bezout(a: nat, b: nat) returns (x: int, y: int)
    ensures a * x + b * y == Gcd(a, b)
    decreases b
  {
    if b == 0 {
      x, y := 1, 0;
    } else {
      var u, v := Bezout(b, a % b);
      x, y := v, u - (a / b) * v;
      calc {
        a * x + b * y;
        a * v + b * (u - (a / b) * v);
        a * v + b * u - b * ((a / b) * v);
        { assert b * ((a / b) * v) == (b * (a / b)) * v; }
        a * v + b * u - (b * (a / b)) * v;
        { assert a == b * (a / b) + a % b; assert (b * (a / b)) * v == (a - a % b) * v == a * v - (a % b) * v; }
        b * u + (a % b) * v;
      }
    }
  }

  lemma {:induction false} GcdDivides(a: nat, b: nat)
    ensures Divides(Gcd(a, b), a) && Divides(Gcd(a, b), b)
    decreases b
  {
    var g := Gcd(a, b);
    if b == 0 {
      assert IsMultiple(a, 1, a) && IsMultiple(a, 0, 0);
    } else {
      GcdDivides(b, a % b);
      var k :| IsMultiple(g, k, b);
      var m :| IsMultiple(g, m, a % b);
      var c := a / b;
      assert b * c == (g * k) * c == g * (k * c);
      assert a == b * c + a % b == g * (k * c) + g * m == g * (k * c + m);
      assert IsMultiple(g, k * c + m, a);
    }
  }

  /** A fraction in lowest terms, with a positive denominator. */
  predicate Lowest(p: int, q: int) {
    q > 0 && Gcd(Abs(p), q) == 1
  }

  function Reduce(p: int, q: int): (int, int)
    requires q > 0
  {
    var g := Gcd(Abs(p), q);
    (p / g, q / g)
  }

  /** Some integer combination of a fraction's terms is their divisor. */
  lemma SignedBezout(p: int, q: int) returns (x: int, y: int)
    requires q > 0
    ensures p * x + q * y == Gcd(Abs(p), q)
  {
    x, y := Bezout(Abs(p), q);
    if p < 0 {
      assert p * (-x) == Abs(p) * x;
      x := -x;
    }
  }

  lemma GcdDividesSigned(p: int, q: int) returns (n: int, d: int)
    requires q > 0
    ensures p == Gcd(Abs(p), q) * n && q == Gcd(Abs(p), q) * d
  {
    var g := Gcd(Abs(p), q);
    GcdDivides(Abs(p), q);
    var m: int :| IsMultiple(g, m, Abs(p));
    d :| IsMultiple(g, d, q);
    n := if p < 0 then -m else m;
    assert g * (-m) == -(g * m);
  }

  lemma PositiveFactor(g: int, d: int)
    requires g > 0 && g * d > 0
    ensures d > 0
  {
  }

  /** A common factor of a unit combination is one. */
  lemma FactorOfOne(c: int, e: int)
    requires c > 0 && c * e == 1
    ensures c == 1
  {
    PositiveFactor(c, e);
    ProductAtLeast(c, e);
  }

  lemma {:induction false} UnitCombination(n: int, d: int, x: int, y: int)
    requires d > 0 && n * x + d * y == 1
    ensures Lowest(n, d)
  {
    var c := Gcd(Abs(n), d);
    var s, k := GcdDividesSigned(n, d);
    assert n * x == (c * s) * x == c * (s * x);
    assert d * y == (c * k) * y == c * (k * y);
    assert c * (s * x + k * y) == c * (s * x) + c * (k * y);
    FactorOfOne(c, s * x + k * y);
  }

  lemma Reassociate(a: int, b: int, c: int)
    ensures (a * b) * c == a * (b * c) == b * (a * c)
  {
  }

  lemma Distribute(a: int, b: int, c: int)
    ensures a * (b + c) == a * b + a * c
  {
  }

  /** Dividing a combination of two multiples of `g` by `g`. */
  lemma CommonFactor(g: int, n: int, d: int, x: int, y: int)
    ensures (g * n) * x + (g * d) * y == g * (n * x + d * y)
  {
    Reassociate(g, n, x);
    Reassociate(g, d, y);
    Distribute(g, n * x, d * y);
  }

  lemma ReduceIsLowest(p: int, q: int)
    requires q > 0
    ensures var (n, d) := Reduce(p, q); Lowest(n, d) && n * q == p * d
  {
    var g := Gcd(Abs(p), q);
    var n, d := GcdDividesSigned(p, q);
    ExactQuotient(g, n);
    ExactQuotient(g, d);
    PositiveFactor(g, d);
    Reassociate(n, g, d);
    Reassociate(g, n, d);
    var x, y := SignedBezout(p, q);
    CommonFactor(g, n, d, x, y);
    Distribute(g, n * x + d * y, -1);
    SmallMultiple(g, n * x + d * y - 1);
    UnitCombination(n, d, x, y);
  }

  /** A denominator in lowest terms divides every denominator of the same value. */
  lemma LowestDivides(p: int, q: int, p2: int, q2: int)
    requires Lowest(p, q) && q2 > 0 && p * q2 == p2 * q
    ensures Divides(q, q2)
  {
    var x, y := SignedBezout(p, q);
    Distribute(q2, p * x, q * y);
    Reassociate(q2, p, x);
    Reassociate(q2, q, y);
    Reassociate(p2, q, x);
    Distribute(q, p2 * x, q2 * y);
    assert q2 * (p * x) == q * (p2 * x);
    assert IsMultiple(q, p2 * x + q2 * y, q2);
  }

  lemma MutualDivisors(a: int, b: int)
    requires a > 0 && b > 0 && Divides(a, b) && Divides(b, a)
    ensures a == b
  {
    var k :| IsMultiple(a, k, b);
    var m :| IsMultiple(b, m, a);
    PositiveFactor(a, k);
    PositiveFactor(b, m);
    ProductAtLeast(a, k);
    ProductAtLeast(b, m);
  }

  lemma {:induction false} LowestIsUnique(p: int, q: int, p2: int, q2: int)
    requires Lowest(p, q) && Lowest(p2, q2) && p * q2 == p2 * q
    ensures p == p2 && q == q2
  {
    LowestDivides(p, q, p2, q2);
    LowestDivides(p2, q2, p, q);
    MutualDivisors(q, q2);
    assert q * (p - p2) == p * q2 - p2 * q == 0;
    SmallMultiple(q, p - p2);
  }

  // ---- Acceptance

  /** The rational check on one value. */
  predicate AcceptsRational(numerator: string, denominator: string) {
    var n, d := ParseInt(numerator), ParseInt(denominator);
    n.Some? && d.Some? && d.value > 0 &&
    var (p, q) := Reduce(n.value, d.value);
    IntText(p) == numerator && IntText(q) == denominator
  }

  lemma ReduceLowest(p: int, q: int)
    requires Lowest(p, q)
    ensures Reduce(p, q) == (p, q)
  {
  }

  /** Exactly the printed forms of fractions in lowest terms are accepted: no
      leading zeros, plus signs, underscores, negative zeros or common factors. */
  lemma AcceptsExactlyPrintedLowest(numerator: string, denominator: string)
    ensures AcceptsRational(numerator, denominator) <==>
            exists p, q :: Lowest(p, q) && numerator == IntText(p) && denominator == IntText(q)
  {
    if AcceptsRational(numerator, denominator) {
      var n, d := ParseInt(numerator).value, ParseInt(denominator).value;
      ReduceIsLowest(n, d);
    }
    forall p, q | Lowest(p, q) && numerator == IntText(p) && denominator == IntText(q)
      ensures AcceptsRational(numerator, denominator)
    {
      ParseInvertsText(p);
      ParseInvertsText(q);
      ReduceLowest(p, q);
    }
  }

  /** The text pair denotes the rational p / q. */
  predicate Denotes(numerator: string, denominator: string, p: int, q: int) {
    var n, d := ParseInt(numerator), ParseInt(denominator);
    n.Some? && d.Some? && n.value * q == p * d.value
  }

  /** Every rational has exactly one accepted text pair. */
  lemma {:induction false} CanonicalTextIsUnique(p: int, q: int)
    requires q > 0
    ensures var (n, d) := Reduce(p, q);
            && AcceptsRational(IntText(n), IntText(d)) && Denotes(IntText(n), IntText(d), p, q)
            && forall numerator, denominator ::
                 AcceptsRational(numerator, denominator) && Denotes(numerator, denominator, p, q) ==>
                   numerator == IntText(n) && denominator == IntText(d)
  {
    var (n, d) := Reduce(p, q);
    ReduceIsLowest(p, q);
    ParseInvertsText(n);
    ParseInvertsText(d);
    ReduceLowest(n, d);
    forall numerator, denominator | AcceptsRational(numerator, denominator) && Denotes(numerator, denominator, p, q)
      ensures numerator == IntText(n) && denominator == IntText(d)
    {
      var a, b := ParseInt(numerator).value, ParseInt(denominator).value;
      ReduceIsLowest(a, b);
      var (x, y) := Reduce(a, b);
      ParseInvertsText(x);
      ParseInvertsText(y);
      SameValue(n, d, p, q, a, b);
      LowestIsUnique(a, b, n, d);
    }
  }

  lemma SameValue(n: int, d: int, p: int, q: int, a: int, b: int)
    requires q > 0 && n * q == p * d && a * q == p * b
    ensures a * d == n * b
  {
    assert (a * d) * q == (a * q) * d == (p * b) * d == (p * d) * b == (n * q) * b == (n * b) * q;
    assert q * (a * d - n * b) == q * (a * d) - q * (n * b) == 0;
    SmallMultiple(q, a * d - n * b);
  }

  // ---- Typed parameter values

  datatype Dimension = Length | Angle

  datatype ParameterValue =
    | Text(value: string)
    | Number(numerator: string, denominator: string)
    | Quantity(dimension: Dimension, numerator: string, denominator: string, unit: string)
    | Boolean(flag: bool)
    | Enum(choice: string)

  predicate AcceptsValue(value: ParameterValue) {
    match value
    case Number(n, d) => AcceptsRational(n, d)
    case Quantity(dimension, n, d, unit) =>
      (if dimension.Length? then unit == "m" else unit == "deg" || unit == "rad") && AcceptsRational(n, d)
    case _ => true
  }

  predicate AcceptsTyped(typed: map<string, ParameterValue>) {
    forall name :: name in typed ==> AcceptsValue(typed[name])
  }

  /** Printed integers have no sign but a minus before a negative one, and no leading zero. */
  lemma {:induction false} NatTextExact(n: nat)
    ensures var s := NatText(n);
            && s != "" && (forall i :: 0 <= i < |s| ==> '0' <= s[i] <= '9') && (s[0] == '0' <==> n == 0) && (n == 0 ==> s == "0")
  {
    if n >= 10 { NatTextExact(n / 10); }
  }

  lemma IntTextExact(n: int)
    ensures var s := IntText(n);
            && s != "" && (s[0] == '-' <==> n < 0) && (n == 0 ==> s == "0")
            && (n < 0 ==> |s| > 1 && s[1] != '0') && (n > 0 ==> s[0] != '0')
            && forall i :: (if n < 0 then 1 else 0) <= i < |s| ==> '0' <= s[i] <= '9'
  {
    NatTextExact(if n < 0 then -n else n);
  }

  /** A number, or a length in metres or an angle in degrees or radians, is accepted exactly
      as the printed fraction in lowest terms; the other kinds of value always are. */
  lemma ValuesExact(value: ParameterValue)
    ensures AcceptsValue(value) <==>
              && (value.Quantity? ==> if value.dimension.Length? then value.unit == "m" else value.unit in ["deg", "rad"])
              && (value.Number? || value.Quantity? ==>
                    exists p, q :: Lowest(p, q) && value.numerator == IntText(p) && value.denominator == IntText(q))
  {
    if value.Number? || value.Quantity? { AcceptsExactlyPrintedLowest(value.numerator, value.denominator); }
    hide AcceptsRational, Lowest, IntText;
  }

  /** `validate_typed_values`, stopping at the first value it rejects. */
  method ValidateTypedValues(typed: map<string, ParameterValue>) returns (ok: bool)
    ensures ok <==> AcceptsTyped(typed)
  {
    var rest := typed.Keys;
    while rest != {}
      invariant rest <= typed.Keys
      invariant forall name :: name in typed && name !in rest ==> AcceptsValue(typed[name])
      decreases rest
    {
      var name :| name in rest;
      if !AcceptsValue(typed[name]) {
        return false;
      }
      rest := rest - {name};
    }
    return true;
  }
}
