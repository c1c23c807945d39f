/** Pattern matching (tuple.cpp, `Pattern::matches`) and the order of the three element types. */
module Patterns {
  import opened Types
  import opened Numbers

  datatype Order = Less | Same | Greater | Unordered

  function CompareInt(a: int, b: int): Order {
    if a < b then Less else if a > b then Greater else Same
  }

  // std::string compares bytes as unsigned values, and a proper prefix is smaller.
  function CompareBytes(a: Bytes, b: Bytes): Order {
    if a == [] then (if b == [] then Same else Less)
    else if b == [] then Greater
    else if a[0] != b[0] then CompareInt(a[0] as int, b[0] as int)
    else CompareBytes(a[1..], b[1..])
  }

  predicate IsNaN(d: Double) {
    d % 0x8000_0000_0000_0000 > 0x7FF0_0000_0000_0000
  }

  // Sign and magnitude read as one integer; both zeros become 0.
  function DoubleKey(d: Double): int {
    if d < 0x8000_0000_0000_0000 then d else 0x8000_0000_0000_0000 - d
  }

  function CompareDouble(a: Double, b: Double): Order {
    if IsNaN(a) || IsNaN(b) then Unordered else CompareInt(DoubleKey(a), DoubleKey(b))
  }

  // The order of two elements, if they have the same type.
  function CompareElem(a: TupleElem, b: TupleElem): Option<Order> {
    match (a, b)
    case (IntElem(x), IntElem(y)) => Some(CompareInt(x, y))
    case (FloatElem(x), FloatElem(y)) => Some(CompareDouble(x, y))
    case (StrElem(x), StrElem(y)) => Some(CompareBytes(x, y))
    case _ => None
  }

  predicate Holds(op: Operator, o: Order) {
    match op
    case All => true
    case Equal => o == Same
    case NotEqual => o != Same
    case GreaterThan => o == Greater
    case LessThan => o == Less
    case NotGreaterThan => o == Less || o == Same
    case NotLessThan => o == Greater || o == Same
  }

  predicate Matches(p: Pattern, e: TupleElem) {
    var o := CompareElem(e, p.value);
    o.Some? && Holds(p.op, o.value)
  }

  // `==` on two elements as ServerDB::compareTupleElems applies it.
  predicate SameElem(a: TupleElem, b: TupleElem) {
    CompareElem(a, b) == Some(Same)
  }

  // The byte order is a total order: it answers Same for equal strings only, ...
  lemma {:induction false} SameBytesAreEqual(a: Bytes, b: Bytes)
    ensures CompareBytes(a, b) == Same <==> a == b
  {
    if a != [] && b != [] && a[0] == b[0] {
      SameBytesAreEqual(a[1..], b[1..]);
      assert a == [a[0]] + a[1..] && b == [b[0]] + b[1..];
    }
  }

  // ... is antisymmetric, never undecided, ...
  lemma {:induction false} BytesOrderMirrors(a: Bytes, b: Bytes)
    ensures CompareBytes(a, b) != Unordered
    ensures CompareBytes(a, b) == Less <==> CompareBytes(b, a) == Greater
  {
    if a != [] && b != [] && a[0] == b[0] {
      BytesOrderMirrors(a[1..], b[1..]);
    }
  }

  // ... and transitive.
  lemma {:induction false} BytesOrderIsTransitive(a: Bytes, b: Bytes, c: Bytes)
    requires CompareBytes(a, b) == Less && CompareBytes(b, c) == Less
    ensures CompareBytes(a, c) == Less
  {
    if a != [] && a[0] == b[0] == c[0] {
      BytesOrderIsTransitive(a[1..], b[1..], c[1..]);
    }
  }

  // What CompareBytes says of two strings that agree before position k.
  predicate LexLess(a: Bytes, b: Bytes, k: nat) {
    && k <= |a| && k <= |b| && a[..k] == b[..k]
    && k < |b| && (k == |a| || a[k] < b[k])
  }

  /** A string is less than another one iff it is a proper prefix of it or has the smaller byte at
      the first difference. */
  lemma {:induction false} StringOrderIsLexicographic(a: Bytes, b: Bytes)
    ensures CompareBytes(a, b) == Less <==>
            exists k: nat :: k <= |a| && k < |b| && a[..k] == b[..k] && (k == |a| || a[k] < b[k])
  {
    if CompareBytes(a, b) == Less {
      var k := FirstDifference(a, b);
      assert a[..k] == b[..k];
    }
    if k: nat :| k <= |a| && k < |b| && a[..k] == b[..k] && (k == |a| || a[k] < b[k]) {
      DifferenceDecides(a, b, k);
    }
  }

  lemma {:induction false} FirstDifference(a: Bytes, b: Bytes) returns (k: nat)
    requires CompareBytes(a, b) == Less
    ensures LexLess(a, b, k)
  {
    k := 0;
    if a != [] && a[0] == b[0] {
      var j := FirstDifference(a[1..], b[1..]);
      k := j + 1;
      assert a[..k] == [a[0]] + a[1..][..j] && b[..k] == [b[0]] + b[1..][..j];
    }
  }

  lemma {:induction false} DifferenceDecides(a: Bytes, b: Bytes, k: nat)
    requires LexLess(a, b, k)
    ensures CompareBytes(a, b) == Less
  {
    if k > 0 {
      assert a[0] == a[..k][0] == b[0];
      assert a[1..][..k - 1] == a[..k][1..] && b[1..][..k - 1] == b[..k][1..];
      DifferenceDecides(a[1..], b[1..], k - 1);
    }
  }

  // ---- Doubles -----------------------------------------------------------------------

  function Pow2(n: nat): (p: nat)
    ensures p > 0
  {
    if n == 0 then 1 else 2 * Pow2(n - 1)
  }

  const FRACTIONS := 0x10_0000_0000_0000

  // The value of a nonnegative double in units of the least one: 52 fraction bits below the
  // exponent, an implicit leading one except for the least exponent. Infinity comes out greater
  // than every finite value.
  function Scaled(d: nat): nat {
    var e, f := d / FRACTIONS, d % FRACTIONS;
    if e == 0 then f else (FRACTIONS + f) * Pow2(e - 1)
  }

  // The value of a double that is a number, in the same units.
  function Numeric(d: Double): int {
    if d < 0x8000_0000_0000_0000 then Scaled(d) else 0 - Scaled(d - 0x8000_0000_0000_0000)
  }

  // Every value with exponent e is below all values with a greater one.
  lemma {:induction false} ExponentsOrder(e: nat, f: nat, g: nat)
    requires e < g && f < FRACTIONS
    ensures (if e == 0 then f else (FRACTIONS + f) * Pow2(e - 1)) < FRACTIONS * Pow2(g - 1)
    decreases g
  {
    if g == e + 1 {
      if e > 0 {
        assert (FRACTIONS + f) * Pow2(e - 1) < 2 * FRACTIONS * Pow2(e - 1);
      }
    } else {
      ExponentsOrder(e, f, g - 1);
    }
  }

  /** The value of a double by its sign, exponent and fraction: below the least exponent that of its
      fraction, from there on with a leading one, and twice as much with each exponent more. */
  lemma NumericByFields(sign: nat, e: nat, f: nat)
    requires sign < 2 && e < 2048 && f < 0x10_0000_0000_0000
    ensures var d := sign * 0x8000_0000_0000_0000 + e * 0x10_0000_0000_0000 + f;
      var v := if sign == 0 then Numeric(d) else -Numeric(d);
      && d < 0x1_0000_0000_0000_0000
      && (e == 0 ==> v == f)
      && (e == 1 ==> v == 0x10_0000_0000_0000 + f)
      && (0 < e < 2047 ==>
            var more := Numeric(d + 0x10_0000_0000_0000); (if sign == 0 then more else -more) == 2 * v)
  {
    ScaledByFields(e, f);
    if e < 2047 {
      ScaledByFields(e + 1, f);
    }
    if 0 < e {
      Doubled(FRACTIONS + f, Pow2(e - 1));
    }
  }

  lemma ScaledByFields(e: nat, f: nat)
    requires e < 2048 && f < 0x10_0000_0000_0000
    ensures Scaled(e * 0x10_0000_0000_0000 + f) ==
            if e == 0 then f else (0x10_0000_0000_0000 + f) * Pow2(e - 1)
  {
  }

  lemma Doubled(a: nat, b: nat)
    ensures a * (2 * b) == 2 * (a * b)
  {
  }

  lemma Times(a: nat, b: nat, c: nat)
    requires c > 0
    ensures a < b ==> a * c < b * c
    ensures a <= b ==> a * c <= b * c
  {
  }

  lemma ScaledGrows(a: nat, b: nat)
    requires a < b
    ensures Scaled(a) < Scaled(b)
  {
    var e, f, g, h := a / FRACTIONS, a % FRACTIONS, b / FRACTIONS, b % FRACTIONS;
    if e < g {
      ExponentsOrder(e, f, g);
      Times(FRACTIONS, FRACTIONS + h, Pow2(g - 1));
    } else if e > 0 {
      Times(FRACTIONS + f, FRACTIONS + h, Pow2(e - 1));
    }
  }

  // All exponent bits set and a fraction.
  predicate NotANumber(d: Double) {
    (d / 0x10_0000_0000_0000) % 2048 == 2047 && d % 0x10_0000_0000_0000 != 0
  }

  lemma NaNByFields(d: Double)
    ensures IsNaN(d) <==> NotANumber(d)
  {
    var m := d % 0x8000_0000_0000_0000;
    assert d == m || d == m + 2048 * 0x10_0000_0000_0000;
    assert m / 0x10_0000_0000_0000 < 2048;
  }

  /** A double equals itself exactly if it is no NaN, that is unless its exponent bits are all set and
      its fraction is not zero; and of two others one is less, or they are the same. */
  lemma OrderIsDecided(a: Double, b: Double)
    ensures CompareDouble(a, a) == Same <==>
            !((a / 0x10_0000_0000_0000) % 2048 == 2047 && a % 0x10_0000_0000_0000 != 0)
    ensures CompareDouble(a, b) == Unordered <==> CompareDouble(a, a) != Same || CompareDouble(b, b) != Same
  {
    NaNByFields(a);
    NaNByFields(b);
  }

  /** The order of doubles is the order of their values; a NaN compares with nothing. */
  lemma DoubleOrderIsNumeric(a: Double, b: Double)
    ensures CompareDouble(a, b) ==
            if NotANumber(a) || NotANumber(b) then Unordered
            else if Numeric(a) < Numeric(b) then Less
            else if Numeric(a) > Numeric(b) then Greater
            else Same
  {
    NaNByFields(a);
    NaNByFields(b);
    var x, y := DoubleKey(a), DoubleKey(b);
    if Magnitude(x) < Magnitude(y) {
      ScaledGrows(Magnitude(x), Magnitude(y));
    } else if Magnitude(y) < Magnitude(x) {
      ScaledGrows(Magnitude(y), Magnitude(x));
    }
    assert Scaled(0) == 0;
    if x != 0 {
      ScaledGrows(0, Magnitude(x));
    }
    if y != 0 {
      ScaledGrows(0, Magnitude(y));
    }
  }

  // ---- What a pattern means ----------------------------------------------------------

  predicate SameType(a: TupleElem, b: TupleElem) {
    a.IntElem? == b.IntElem? && a.FloatElem? == b.FloatElem?
  }

  // Less as a number or in the lexicographic order.
  ghost predicate Below(a: TupleElem, b: TupleElem) {
    match (a, b)
    case (IntElem(x), IntElem(y)) => x < y
    case (FloatElem(x), FloatElem(y)) => !NotANumber(x) && !NotANumber(y) && Numeric(x) < Numeric(y)
    case (StrElem(x), StrElem(y)) =>
      exists k: nat :: k <= |x| && k < |y| && x[..k] == y[..k] && (k == |x| || x[k] < y[k])
    case _ => false
  }

  // The same number, the same string.
  predicate Alike(a: TupleElem, b: TupleElem) {
    match (a, b)
    case (IntElem(x), IntElem(y)) => x == y
    case (FloatElem(x), FloatElem(y)) => !NotANumber(x) && !NotANumber(y) && Numeric(x) == Numeric(y)
    case (StrElem(x), StrElem(y)) => x == y
    case _ => false
  }

  ghost predicate Compares(op: Operator, e: TupleElem, value: TupleElem) {
    match op
    case All => true
    case Equal => Alike(e, value)
    case NotEqual => !Alike(e, value)
    case GreaterThan => Below(value, e)
    case LessThan => Below(e, value)
    case NotGreaterThan => Below(e, value) || Alike(e, value)
    case NotLessThan => Below(value, e) || Alike(e, value)
  }

  /** A pattern matches exactly the elements of its type that stand to its value as the operator
      says, as numbers or in the lexicographic order; two elements are the same iff they are alike. */
  lemma OperatorsMean(op: Operator, value: TupleElem, e: TupleElem)
    ensures Matches(Pattern(value, op), e) <==> SameType(e, value) && Compares(op, e, value)
    ensures SameElem(e, value) <==> Alike(e, value)
  {
    match (e, value)
    case (FloatElem(x), FloatElem(y)) =>
      DoubleOrderIsNumeric(x, y);
    case (StrElem(x), StrElem(y)) =>
      StringOrderIsLexicographic(x, y);
      StringOrderIsLexicographic(y, x);
      SameBytesAreEqual(x, y);
      BytesOrderMirrors(x, y);
      BytesOrderMirrors(y, x);
    case _ =>
  }
}
