/** Doubles in [-1, 1) and 64-bit fixed point. */
module GeoFixed {
  import opened Wrappers
  import opened GeoBits

  // ----- doubling and halving reals -----

  // x times 2 to the k.
  function Times2(x: real, k: int): real
    decreases if k < 0 then -k else k
  {
    if k == 0 then x else if k > 0 then Times2(2.0 * x, k - 1) else Times2(x / 2.0, k + 1)
  }

  lemma {:induction false} Doubles(x: real, k: int)
    ensures Times2(2.0 * x, k) == 2.0 * Times2(x, k) == Times2(x, k + 1)
    decreases if k < 0 then -k else k
  {
    if k > 0 {
      Doubles(2.0 * x, k - 1);
    } else if k < 0 {
      Doubles(x / 2.0, k + 1);
      assert 2.0 * (x / 2.0) == x;
    }
  }

  lemma {:induction false} Compose(x: real, a: int, b: int)
    ensures Times2(Times2(x, a), b) == Times2(x, a + b)
    decreases if a < 0 then -a else a
  {
    if a > 0 {
      Compose(2.0 * x, a - 1, b);
      Doubles(x, a + b - 1);
    } else if a < 0 {
      Compose(x / 2.0, a + 1, b);
      Doubles(x / 2.0, a + b);
    }
  }

  lemma {:induction false} Order(x: real, y: real, k: int)
    ensures x < y <==> Times2(x, k) < Times2(y, k)
    ensures x == y <==> Times2(x, k) == Times2(y, k)
    decreases if k < 0 then -k else k
  {
    if k > 0 { Order(2.0 * x, 2.0 * y, k - 1); }
    if k < 0 { Order(x / 2.0, y / 2.0, k + 1); }
  }

  lemma {:induction false} Sum(x: real, y: real, k: int)
    ensures Times2(x + y, k) == Times2(x, k) + Times2(y, k)
    decreases if k < 0 then -k else k
  {
    if k > 0 {
      Sum(2.0 * x, 2.0 * y, k - 1);
      assert 2.0 * (x + y) == 2.0 * x + 2.0 * y;
    } else if k < 0 {
      Sum(x / 2.0, y / 2.0, k + 1);
      assert (x + y) / 2.0 == x / 2.0 + y / 2.0;
    }
  }

  lemma {:induction false} Zero(k: int)
    ensures Times2(0.0, k) == 0.0
    decreases if k < 0 then -k else k
  {
    if k > 0 { Zero(k - 1); }
    if k < 0 { Zero(k + 1); }
  }

  lemma {:induction false} MoreTimes(x: real, a: int, b: int)
    requires x >= 0.0 && a <= b
    ensures 0.0 <= Times2(x, a) <= Times2(x, b)
    decreases b - a
  {
    Zero(a);
    Order(x, 0.0, a);
    if a < b {
      MoreTimes(x, a, b - 1);
      Doubles(x, b - 1);
    }
  }

  lemma {:induction false} Whole(n: nat, k: nat)
    ensures Times2(n as real, k) == (n * Pow2(k)) as real
    decreases k
  {
    if k > 0 {
      Whole(2 * n, k - 1);
      assert 2.0 * n as real == (2 * n) as real;
      assert 2 * n * Pow2(k - 1) == n * (2 * Pow2(k - 1));
    }
  }

  lemma FloorIs(x: real, n: int)
    requires n as real <= x < n as real + 1.0
    ensures x.Floor == n
  {
  }

  // Halving k times and cutting the fraction off.
  lemma Halved(m: nat, k: nat)
    ensures Times2(m as real, 0 - k).Floor == m / Pow2(k)
  {
    hide Times2, Pow2;
    QuotientSmaller(m, Pow2(k));
    var (q, p) := (m / Pow2(k), Pow2(k));
    assert q * p <= m < (q + 1) * p by {
      Distribute(q, 1, p);
      assert m == q * p + m % p;
    }
    UpAndDown(q, k);
    UpAndDown(q + 1, k);
    Order(m as real, (q * p) as real, 0 - k);
    Order(m as real, ((q + 1) * p) as real, 0 - k);
    FloorIs(Times2(m as real, 0 - k), q);
  }

  lemma UpAndDown(q: nat, k: nat)
    ensures Times2((q * Pow2(k)) as real, 0 - k) == q as real
  {
    hide Times2, Pow2;
    Whole(q, k);
    Compose(q as real, k, 0 - k);
    NoTimes(q as real);
  }

  lemma NoTimes(x: real)
    ensures Times2(x, 0) == x
  {
  }

  // ----- binary64 -----

  type Exponent = n: nat | n < 2048
  type Fraction = n: nat | n < 0x10_0000_0000_0000

  datatype Double = Double(sign: bool, exp: Exponent, frac: Fraction)

  predicate Finite(d: Double) {
    d.exp < 2047
  }

  // The fraction with its hidden bit.
  function Mant(d: Double): nat {
    d.frac + HIDDEN
  }

  function Magnitude(d: Double): real
    requires Finite(d)
  {
    if d.exp == 0 then Times2(d.frac as real, -1074) else Times2(Mant(d) as real, d.exp - 1075)
  }

  function Value(d: Double): real
    requires Finite(d)
  {
    if d.sign then -Magnitude(d) else Magnitude(d)
  }

  // ----- to fixed point -----

  const HIDDEN: nat := 0x10_0000_0000_0000
  const TOP: nat := 0x8000_0000_0000_0000
  const LIMIT: nat := 0x1_0000_0000_0000_0000

  // The magnitude in units of 2^-63.
  function Scaled(d: Double): real
    requires Finite(d)
  {
    Times2(Magnitude(d), 63)
  }

  // The signed distance from 2^63, in units of 2^-63, with its fraction cut off.
  function Fixed(d: Double): Option<int> {
    if !Finite(d) || Value(d) < -1.0 || 1.0 <= Value(d) then None
    else
      var m := Scaled(d).Floor;
      Some(if d.sign then TOP - m else TOP + m)
  }

  // A 64-bit shift is defined for fewer than 64 places.
  predicate Shiftable(d: Double) {
    d.exp == 0 || d.exp >= 949
  }

  lemma Shifted(d: Double)
    requires Finite(d)
    ensures Scaled(d) == if d.exp == 0 then Times2(d.frac as real, -1011) else Times2(Mant(d) as real, d.exp - 1012)
  {
    hide Times2, Mant;
    Compose(d.frac as real, -1074, 63);
    Compose(Mant(d) as real, d.exp - 1075, 63);
  }

  lemma ScaledBounds(d: Double)
    requires Finite(d) && -1.0 <= Value(d) < 1.0
    ensures 0.0 <= Scaled(d) <= TOP as real && (!d.sign ==> Scaled(d) < TOP as real)
    ensures 0 <= Scaled(d).Floor <= TOP && (!d.sign ==> Scaled(d).Floor < TOP)
  {
    hide Times2, Pow2;
    var m := Magnitude(d);
    assert m >= 0.0 by {
      MoreTimes(d.frac as real, -1074, -1074);
      MoreTimes(Mant(d) as real, d.exp - 1075, d.exp - 1075);
    }
    hide Magnitude;
    Whole(1, 63);
    WordSizes();
    Zero(63);
    Order(0.0, m, 63);
    Order(m, 1.0, 63);
    FloorOrder(Scaled(d), TOP);
  }

  lemma FloorOrder(x: real, n: nat)
    ensures x >= 0.0 ==> x.Floor >= 0
    ensures x <= n as real ==> x.Floor <= n
    ensures x < n as real ==> x.Floor < n
  {
  }

  lemma FiftyTwo()
    ensures Pow2(52) == HIDDEN
  {
    Pow2Add(26, 26);
    assert Pow2(13) == 8192;
    Pow2Add(13, 13);
  }

  lemma WordSizes()
    ensures Pow2(63) == TOP && Pow2(64) == LIMIT
  {
    hide Pow2;
    FiftyTwo();
    Pow2Add(52, 11);
    Pow2Add(52, 12);
    assert Pow2(11) == 2048 && Pow2(12) == 4096 by { SmallPowers(); }
  }

  lemma SmallPowers()
    ensures Pow2(11) == 2048 && Pow2(12) == 4096
  {
  }

  lemma TinyIsNothing(d: Double)
    requires d.exp == 0
    ensures Scaled(d).Floor == 0
  {
    hide Times2, Pow2, Magnitude;
    Shifted(d);
    MoreTimes(d.frac as real, -1011, -52);
    Order(d.frac as real, HIDDEN as real, -52);
    UpAndDown(1, 52);
    FiftyTwo();
    FloorIs(Scaled(d), 0);
  }

  lemma PowNext(k: nat)
    ensures Pow2(k + 1) == 2 * Pow2(k)
  {
  }

  lemma NatMulOrder(x: nat, y: nat, z: nat)
    requires x <= y
    ensures x * z <= y * z
  {
    Distribute(y - x, x, z);
  }

  lemma {:induction false} Pow2Order(a: nat, b: nat)
    requires a <= b
    ensures Pow2(a) <= Pow2(b)
    decreases b - a
  {
    if a < b { Pow2Order(a, b - 1); }
  }

  // The shifted number is the floor.
  lemma ShiftIsFloor(d: Double)
    requires 0 < d.exp < 2047
    ensures Scaled(d).Floor == if d.exp > 1012 then Mant(d) * Pow2(d.exp - 1012) else Mant(d) / Pow2(1012 - d.exp)
    ensures d.exp >= 1012 ==> Scaled(d) == Scaled(d).Floor as real
  {
    hide Pow2, Times2, Magnitude;
    Shifted(d);
    if d.exp >= 1012 {
      Whole(Mant(d), d.exp - 1012);
      FloorIs(Scaled(d), Mant(d) * Pow2(d.exp - 1012));
      PowZero();
    } else {
      Halved(Mant(d), 1012 - d.exp);
    }
  }

  method DoubleToCode(d: Double) returns (code: Option<nat>)
    requires Shiftable(d)
    ensures code == Fixed(d)
  {
    hide Pow2, Times2, Magnitude, Scaled;
    if !Finite(d) || Value(d) < -1.0 || 1.0 <= Value(d) { return None; }
    if d.exp == 0 {
      TinyIsNothing(d);
      return Some(TOP);
    }
    var x := ShiftMantissa(d);
    ScaledBounds(d);
    x := if d.sign then (TOP - x) % LIMIT else (x + TOP) % LIMIT;
    CodeOf(d, x);
    return Some(x);
  }

  method ShiftMantissa(d: Double) returns (x: int)
    requires 949 <= d.exp < 2047 && -1.0 <= Value(d) < 1.0
    ensures x == Scaled(d).Floor
  {
    ShiftIsFloor(d);
    ScaledBounds(d);
    var shift := d.exp - 1012;
    hide *;
    if shift > 0 {
      ShiftLeftFits(Mant(d), shift);
      x := ShiftLeft(Mant(d), shift);
      TopFits();
    } else {
      ShiftRightIs(Mant(d), -shift);
      x := ShiftRight(Mant(d), -shift);
    }
  }

  lemma TopFits()
    ensures TOP < LIMIT
  {
  }

  lemma ShiftRightIs(m: nat, k: nat)
    ensures ShiftRight(m, k) == m / Pow2(k)
  {
  }

  lemma CodeOf(d: Double, x: nat)
    requires Finite(d) && -1.0 <= Value(d) < 1.0 && 0 <= Scaled(d).Floor <= TOP
    requires x == if d.sign then TOP - Scaled(d).Floor else Scaled(d).Floor + TOP
    ensures Fixed(d) == Some(x)
  {
    hide Scaled, Value;
  }

  // ----- and back -----

  function Length(m: nat): nat {
    if m == 0 then 0 else 1 + Length(m / 2)
  }

  lemma {:induction false} LengthBounds(m: nat)
    requires m > 0
    ensures Length(m) > 0 && Pow2(Length(m) - 1) <= m < Pow2(Length(m))
  {
    if m > 1 { LengthBounds(m / 2); }
  }

  lemma LengthUnique(m: nat, n: nat)
    requires n > 0 && Pow2(n - 1) <= m < Pow2(n)
    ensures Length(m) == n
  {
    LengthBounds(m);
    if Length(m) < n { Pow2Order(Length(m), n - 1); }
    if n < Length(m) { Pow2Order(n, Length(m) - 1); }
  }

  // A number cut down to its 53 leading bits.
  function Kept(m: nat): nat {
    if Length(m) <= 53 then m else m / Pow2(Length(m) - 53) * Pow2(Length(m) - 53)
  }

  // d is what is left of code c.
  predicate Floats(c: nat, d: Double) {
    && Finite(d)
    && d.sign == (c < TOP)
    && Scaled(d) == Kept(if c < TOP then TOP - c else c - TOP) as real
  }

  function ShiftLeft(m: nat, k: nat): (n: nat) {
    NatMulOrder(0, m, Pow2(k));
    m * Pow2(k) % LIMIT
  }

  function ShiftRight(m: nat, k: nat): (n: nat) {
    QuotientSmaller(m, Pow2(k));
    m / Pow2(k)
  }

  // The 53 leading bits of a number with i leading zeros, as a mantissa.
  function Mantissa(m: nat, i: nat): nat {
    if i > 11 then ShiftLeft(m, i - 11) else ShiftRight(m, 11 - i)
  }

  lemma MantissaSize(m: nat, i: nat)
    requires i < 64 && Length(m) == 64 - i
    ensures HIDDEN <= Mantissa(m, i) < 2 * HIDDEN
    ensures i > 11 ==> Mantissa(m, i) == m * Pow2(i - 11)
  {
    hide Pow2, Length, ShiftLeft, ShiftRight;
    if i > 11 { SizeUp(m, i - 11); } else { SizeDown(m, 11 - i); }
  }

  lemma SizeUp(m: nat, k: nat)
    requires k < 53 && Length(m) + k == 53
    ensures HIDDEN <= ShiftLeft(m, k) < 2 * HIDDEN && ShiftLeft(m, k) == m * Pow2(k)
  {
    hide Pow2, ShiftLeft;
    assert m > 0;
    LengthBounds(m);
    FiftyTwo();
    PowNext(52);
    var n := Length(m);
    hide *;
    assert HIDDEN <= m * Pow2(k) by {
      Pow2Add(n - 1, k);
      NatMulOrder(Pow2(n - 1), m, Pow2(k));
    }
    assert m * Pow2(k) < 2 * HIDDEN by {
      Pow2Add(n, k);
      StrictOrder(m, Pow2(n), Pow2(k));
    }
    ShiftLeftFits(m, k);
  }

  lemma ShiftLeftFits(m: nat, k: nat)
    ensures m * Pow2(k) < LIMIT ==> ShiftLeft(m, k) == m * Pow2(k)
  {
    hide Pow2;
    NatMulOrder(0, m, Pow2(k));
  }

  lemma StrictOrder(x: nat, y: nat, z: nat)
    requires x < y && z > 0
    ensures x * z < y * z
  {
    NatMulOrder(x + 1, y, z);
    Distribute(x, 1, z);
  }

  lemma SizeDown(m: nat, k: nat)
    requires Length(m) == 53 + k
    ensures HIDDEN <= ShiftRight(m, k) < 2 * HIDDEN
  {
    assert m > 0;
    LengthBounds(m);
    FiftyTwo();
    PowNext(52);
    hide Pow2, Length;
    Pow2Add(52, k);
    Pow2Add(53, k);
    QuotientBounds(m, Pow2(k), HIDDEN, 2 * HIDDEN);
  }

  lemma QuotientBounds(m: nat, p: nat, low: nat, high: nat)
    requires p > 0 && low * p <= m < high * p
    ensures low <= m / p < high
  {
    var q := m / p;
    if q < low {
      NatMulOrder(q + 1, low, p);
      Distribute(q, 1, p);
    }
    if q >= high { NatMulOrder(high, q, p); }
  }

  lemma MantissaIsKept(m: nat, i: nat, d: Double)
    requires i < 64 && Length(m) == 64 - i && d.exp == 1023 - i && d.frac == Mantissa(m, i) - HIDDEN
    ensures Scaled(d) == Kept(m) as real
  {
    hide Pow2, Times2, Scaled, Magnitude, Length;
    Shifted(d);
    MantissaSize(m, i);
    assert Mant(d) == Mantissa(m, i) && d.exp - 1012 == 11 - i;
    if i > 11 {
      UpAndDown(m, i - 11);
    } else {
      Whole(ShiftRight(m, 11 - i), 11 - i);
      PowZero();
    }
  }

  lemma LengthAgainst(m: nat, k: nat)
    ensures m / Pow2(k) == 0 <==> Length(m) <= k
  {
    hide Pow2;
    if m > 0 {
      LengthBounds(m);
      if Length(m) <= k { Pow2Order(Length(m), k); } else { Pow2Order(k, Length(m) - 1); }
      QuotientZero(m, Pow2(k));
    }
  }

  lemma QuotientZero(m: nat, p: nat)
    requires p > 0
    ensures m / p == 0 <==> m < p
  {
    if m < p { ModUnique(m, p, 0, m); }
    var q := m / p;
    assert m == q * p + m % p;
  }

  method CodeToDouble(c: nat) returns (d: Double)
    requires c < LIMIT
    ensures Floats(c, d)
  {
    hide Pow2, Times2, Mantissa, Magnitude, Scaled, Length, Kept;
    if c == TOP {
      NothingFloats();
      return Double(false, 0, 0);
    }
    var sign, m := c < TOP, if c < TOP then TOP - c else c - TOP;
    LengthAgainst(m, 64);
    WordSizes();
    QuotientZero(m, LIMIT);
    var i := 0;
    while i < 64
      invariant 0 <= i <= 64 - Length(m)
    {
      LengthAgainst(m, 63 - i);
      if ShiftRight(m, 63 - i) != 0 { break; }
      i := i + 1;
    }
    LengthAgainst(m, 0);
    PowZero();
    MantissaSize(m, i);
    d := Double(sign, 1023 - i, Mantissa(m, i) % HIDDEN);
    MantissaIsKept(m, i, d);
  }

  lemma NothingFloats()
    ensures Floats(TOP, Double(false, 0, 0))
  {
    hide Times2;
    Zero(-1074);
    Zero(63);
  }

  // ----- there and back -----

  // A 53-bit number shifted left loses nothing.
  lemma ShiftedIsKept(x: nat, k: nat)
    requires HIDDEN <= x < 2 * HIDDEN
    ensures Kept(x * Pow2(k)) == x * Pow2(k)
  {
    FiftyTwo();
    PowNext(52);
    hide Pow2, Length;
    Pow2Add(52, k);
    Pow2Add(53, k);
    NatMulOrder(Pow2(52), x, Pow2(k));
    StrictOrder(x, Pow2(53), Pow2(k));
    LengthUnique(x * Pow2(k), 53 + k);
    if k > 0 { ModUnique(x * Pow2(k), Pow2(k), x, 0); }
  }

  lemma ShortIsKept(m: nat)
    requires m < 2 * HIDDEN
    ensures Kept(m) == m
  {
    FiftyTwo();
    PowNext(52);
    hide Pow2, Length;
    LengthAgainst(m, 53);
    QuotientZero(m, Pow2(53));
  }

  // The code of a double keeps 53 bits at most.
  lemma CodeIsKept(d: Double)
    requires Fixed(d).Some?
    ensures Scaled(d).Floor >= 0
    ensures Kept(Scaled(d).Floor) == Scaled(d).Floor
  {
    hide Pow2, Times2, Kept, Magnitude, Scaled;
    if d.exp == 0 {
      TinyIsNothing(d);
      ShortIsKept(0);
    } else {
      var x := Mant(d);
      ShiftIsFloor(d);
      if d.exp > 1012 {
        ShiftedIsKept(x, d.exp - 1012);
      } else {
        QuotientSmaller(x, Pow2(1012 - d.exp));
        ShortIsKept(x / Pow2(1012 - d.exp));
      }
    }
  }

  lemma QuotientSmaller(m: nat, p: nat)
    requires p > 0
    ensures 0 <= m / p <= m
  {
    assert m == m / p * p + m % p;
    AtLeastOnceTimes(m / p, p);
  }

  lemma AtLeastOnceTimes(q: int, p: nat)
    requires p > 0
    ensures q >= 0 ==> q * p >= q
    ensures q < 0 ==> q * p <= 0 - p
  {
  }

  // From 2^-11 on a double is a whole number of units.
  lemma SmallMagnitude(x: nat, y: int)
    requires x < 2 * HIDDEN && y <= -64
    ensures Times2(x as real, y) < Times2(1.0, -11)
  {
    hide Times2, Pow2;
    MoreTimes(x as real, y, -64);
    Order(x as real, (2 * HIDDEN) as real, -64);
    FiftyTwo();
    PowNext(52);
    Whole(1, 53);
    Compose(1.0, 53, -64);
  }

  lemma LargeIsWhole(d: Double)
    requires Finite(d) && Magnitude(d) >= Times2(1.0, -11)
    ensures Scaled(d) == Scaled(d).Floor as real
  {
    hide Times2, Pow2, Scaled;
    if d.exp == 0 {
      SmallMagnitude(d.frac, -1074);
    } else if d.exp < 1012 {
      SmallMagnitude(Mant(d), d.exp - 1075);
    } else {
      ShiftIsFloor(d);
    }
  }

  lemma CodeDistance(d: Double, m: int)
    requires Fixed(d).Some? && m == Scaled(d).Floor && m >= 0
    ensures var c := Fixed(d).value; m == (if c < TOP then TOP - c else c - TOP) && (c < TOP <==> d.sign && m > 0)
  {
    hide Scaled, Magnitude;
    FloorOrder(Scaled(d), TOP);
  }

  lemma ThereAndBack(d: Double, d': Double)
    requires Fixed(d).Some? && 0 <= Fixed(d).value && Floats(Fixed(d).value, d')
    ensures Magnitude(d') > 0.0 ==> d'.sign == d.sign
    ensures Magnitude(d') <= Magnitude(d) < Magnitude(d') + Times2(1.0, -63)
    ensures Magnitude(d) >= Times2(1.0, -11) ==> Magnitude(d') == Magnitude(d)
  {
    hide Times2, Pow2, Scaled, Kept, Magnitude;
    var m := Scaled(d).Floor;
    CodeIsKept(d);
    CodeDistance(d, m);
    if Magnitude(d) >= Times2(1.0, -11) { LargeIsWhole(d); }
    Unscale(d, d', m);
  }

  lemma Unscale(d: Double, d': Double, m: int)
    requires Finite(d) && Finite(d') && m == Scaled(d).Floor && Scaled(d') == m as real
    ensures Magnitude(d') <= Magnitude(d) < Magnitude(d') + Times2(1.0, -63)
    ensures Scaled(d) == m as real ==> Magnitude(d') == Magnitude(d)
    ensures m == 0 ==> Magnitude(d') == 0.0
  {
    hide Times2, Magnitude;
    var (x, z, unit) := (Magnitude(d'), Magnitude(d), Times2(1.0, -63));
    Order(z, x, 63);
    Order(z, x + unit, 63);
    Sum(x, unit, 63);
    Compose(1.0, -63, 63);
    NoTimes(1.0);
    Order(x, 0.0, 63);
    Zero(63);
  }

  lemma FixedIsCode(d: Double)
    requires Fixed(d).Some?
    ensures 0 <= Fixed(d).value < LIMIT
  {
    hide Times2, Pow2, Scaled, Magnitude;
    ScaledBounds(d);
  }
}
