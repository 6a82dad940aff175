/** The number formatter at actual 64-bit floats. */
module FixedDoubles {
  import opened Basics
  import opened Decimals
  import opened Fixed

  const POW53: int := 9007199254740992
  const POW60: int := 1152921504606846976
  const POW333: int := 17498005798264095394980017816940970922825355447145699491406164851279623993595007385788105416184430592

  function Pow2(e: nat): (p: nat)
    ensures p >= 1
  {
    if e == 0 then 1 else 2 * Pow2(e - 1)
  }

  /** `v` is `m` over two to the `e`th, as every finite 64-bit float is: a whole number, or 53 bits over a power of two. */
  predicate IsFraction(v: real, m: int, e: nat) {
    v * (Pow2(e) as real) == m as real && (e == 0 || (m < POW53 && -m < POW53))
  }

  // -------------------------------------------------------- powers and places

  lemma {:induction false} Pow2Sum(a: nat, b: nat)
    ensures Pow2(a + b) == Pow2(a) * Pow2(b)
    decreases b
  {
    if b > 0 {
      Pow2Sum(a, b - 1);
      TwiceThrough(Pow2(a), Pow2(b - 1));
    }
  }

  lemma TwiceThrough(p: int, q: int)
    ensures 2 * (p * q) == p * (2 * q)
  {}

  lemma {:induction false} Pow2Grows(a: nat, b: nat)
    requires a <= b
    ensures Pow2(a) <= Pow2(b)
  {
    if a < b {
      Pow2Grows(a, b - 1);
    }
  }

  lemma PowTwice(e: nat, p: int)
    requires Pow2(e) == p
    ensures Pow2(2 * e) == p * p && Pow2(2 * e + 1) == 2 * (p * p)
  {
    Pow2Sum(e, e);
  }

  lemma Powers()
    ensures Pow2(53) == POW53 && Pow2(60) == POW60 && Pow2(333) == POW333
  {
    assert Pow2(3) == 8;
    PowTwice(3, 8);
    PowTwice(6, 64);
    PowTwice(13, 8192);
    PowTwice(26, 67108864);
    PowTwice(7, 128);
    PowTwice(15, 32768);
    PowTwice(30, 1073741824);
    PowTwice(5, 32);
    PowTwice(10, 1024);
    PowTwice(20, 1048576);
    PowTwice(41, 2199023255552);
    PowTwice(83, 9671406556917033397649408);
    PowTwice(166, 93536104789177786765035829293842113257979682750464);
  }

  /** Moving the point of a product moves it in one factor. */
  lemma {:induction false} ShiftProduct(y: real, p: real, k: nat)
    ensures Shift(y, k) * p == Shift(y * p, k)
  {
    if k > 0 {
      ShiftProduct(y, p, k - 1);
      TenThrough(Shift(y, k - 1), p);
    }
  }

  lemma TenThrough(y: real, p: real)
    ensures 10.0 * y * p == 10.0 * (y * p)
  {}

  lemma {:induction false} ShiftOrder(y: real, z: real, k: nat)
    requires y <= z
    ensures Shift(y, k) <= Shift(z, k)
  {
    if k > 0 {
      ShiftOrder(y, z, k - 1);
    }
  }

  lemma {:induction false} ShiftWhole(n: int, k: nat)
    ensures Shift(n as real, k) == ShiftInt(n, k) as real
  {
    if k > 0 {
      ShiftWhole(n, k - 1);
    }
  }

  function Magnitude(m: int): int {
    if m < 0 then -m else m
  }

  lemma AbsTimes(v: real, p: real, m: int)
    requires p > 0.0 && v * p == m as real
    ensures Abs(v) * p == Magnitude(m) as real
  {
    if v < 0.0 {
      Negated(v, p);
      ProductSign(-v, p);
    } else {
      ProductSign(v, p);
    }
  }

  lemma Negated(v: real, p: real)
    ensures -v * p == -(v * p)
  {}

  lemma ProductSign(y: real, p: real)
    requires p > 0.0
    ensures y > 0.0 ==> y * p > 0.0
    ensures y == 0.0 ==> y * p == 0.0
  {}

  /** In units of `1/p` a scaled multiple of `1/p` is whole. */
  lemma ScaledWhole(v: real, p: real, m: int, d: nat)
    requires p > 0.0 && v * p == m as real
    ensures Scaled(v, d) * p == ShiftInt(Magnitude(m), d) as real
  {
    AbsTimes(v, p, m);
    ShiftProduct(Abs(v), p, d);
    ShiftWhole(Magnitude(m), d);
  }

  // ------------------------------------------------------------ few digits

  lemma TwiceOut(x: real, m: real, q: real)
    ensures (x - m - 0.5) * (2.0 * q) == 2.0 * (x * q) - (2.0 * m + 1.0) * q
  {}

  /** A number past a tie, whole in units of `1/p`, is past it by at least half such a unit. */
  lemma PastByAUnit(x: real, n: int, p: int)
    requires 0 < p && x * (p as real) == n as real && Past(x, x.Floor) > 0.0
    ensures Past(x, x.Floor) * (2.0 * (p as real)) >= 1.0
  {
    var m, q := x.Floor, p as real;
    TwiceOut(x, m as real, q);
    MulReal(2 * m + 1, p);
    ProductSign(Past(x, m), 2.0 * q);
    var ties := (2 * m + 1) * p;
    var units := 2 * n - ties;
    assert (2 * m + 1) as real == 2.0 * m as real + 1.0;
    assert ties as real == (2.0 * m as real + 1.0) * q;
    assert Past(x, m) * (2.0 * q) == units as real;
    assert units > 0;
    assert units as real >= 1.0;
  }

  lemma MulReal(m: int, p: int)
    ensures (m * p) as real == m as real * p as real
  {}

  lemma ShiftFive(y: real)
    ensures Shift(y, 5) == 100000.0 * y
  {
    assert Shift(y, 1) == 10.0 * y;
    assert Shift(y, 2) == 100.0 * y;
    assert Shift(y, 3) == 1000.0 * y;
    assert Shift(y, 4) == 10000.0 * y;
  }

  lemma ShiftTen(y: real)
    ensures Shift(y, 10) == 10000000000.0 * y
  {
    ShiftMore(y, 5, 5);
    ShiftFive(y);
    ShiftFive(100000.0 * y);
  }

  lemma {:induction false} ShiftFar(k: nat)
    requires k >= 20
    ensures Shift(1.0, k) >= 100000000000000000000.0
  {
    if k == 20 {
      ShiftMore(1.0, 10, 10);
      ShiftTen(1.0);
      ShiftTen(10000000000.0);
    } else {
      ShiftFar(k - 1);
    }
  }

  lemma BelowHalf(y: real, q: real)
    requires q > 0.0 && y < 0.5
    ensures y * q < 0.5 * q
  {}

  /** So with twenty further places it is far out of the window. */
  lemma CoarseIsClear(x: real, n: int, p: int, k: nat)
    requires 0 < p <= POW60 && x * (p as real) == n as real && k >= 20
    ensures !JustPastEvenTie(x, k)
  {
    var past, q := Past(x, x.Floor), 2.0 * (p as real);
    if past > 0.0 {
      PastByAUnit(x, n, p);
      ShiftProduct(past, q, k);
      ShiftOrder(1.0, past * q, k);
      ShiftFar(k);
      if Shift(past, k) < 0.5 {
        BelowHalf(Shift(past, k), q);
      }
    }
  }

  /** Below 1/256 in magnitude, a hundredfold is not yet past the first tie. */
  lemma SmallIsClear(value: real, digits: nat, k: nat)
    requires 256.0 * Abs(value) < 1.0 && digits <= 2
    ensures !JustPastEvenTie(Scaled(value, digits), k)
  {
    ShiftTwo(Abs(value), digits);
    assert Scaled(value, digits).Floor == 0;
  }

  lemma ShiftTwo(y: real, k: nat)
    requires y >= 0.0 && k <= 2
    ensures Shift(y, k) <= 100.0 * y
  {
    if k == 2 {
      assert Shift(y, 2) == 10.0 * Shift(y, 1);
    }
  }

  lemma FineIsSmall(a: real, n: int, p: real)
    requires a >= 0.0 && a * p == n as real && n < POW53 && p >= 256.0 * (POW53 as real)
    ensures 256.0 * a < 1.0
  {
    AtLeast(a, 0.00390625, p);
  }

  lemma AtLeast(a: real, b: real, p: real)
    requires p >= 0.0
    ensures a >= b ==> a * p >= b * p
  {}

  lemma FineIsClear(value: real, m: int, p: int, digits: nat, k: nat)
    requires value * (p as real) == m as real && m < POW53 && -m < POW53 && p >= 256 * POW53 && digits <= 2
    ensures !JustPastEvenTie(Scaled(value, digits), k)
  {
    AbsTimes(value, p as real, m);
    FineIsSmall(Abs(value), Magnitude(m), p as real);
    SmallIsClear(value, digits, k);
  }

  lemma WholeIsClear(value: real, m: int, p: int, digits: nat, k: nat)
    requires value * (p as real) == m as real && 0 < p <= POW60 && k >= 20
    ensures !JustPastEvenTie(Scaled(value, digits), k)
  {
    ScaledWhole(value, p as real, m, digits);
    CoarseIsClear(Scaled(value, digits), ShiftInt(Magnitude(m), digits), p, k);
  }

  lemma FractionIsClear(value: real, m: int, e: nat, digits: nat)
    requires IsFraction(value, m, e) && digits <= 2
    ensures !JustPastEvenTie(Scaled(value, digits), 100 - digits)
  {
    if e > 60 {
      FinePart(value, m, e, digits);
    } else {
      CoarsePart(value, m, e, digits);
    }
  }

  lemma FinePart(value: real, m: int, e: nat, digits: nat)
    requires IsFraction(value, m, e) && digits <= 2 && e > 60
    ensures !JustPastEvenTie(Scaled(value, digits), 100 - digits)
  {
    Powers();
    Pow2Grows(61, e);
    FineIsClear(value, m, Pow2(e), digits, 100 - digits);
  }

  lemma CoarsePart(value: real, m: int, e: nat, digits: nat)
    requires IsFraction(value, m, e) && digits <= 2 && e <= 60
    ensures !JustPastEvenTie(Scaled(value, digits), 100 - digits)
  {
    Powers();
    Pow2Grows(e, 60);
    WholeIsClear(value, m, Pow2(e), digits, 100 - digits);
  }

  /** With the two digits or fewer the client asks for, every 64-bit float is printed rounded half to even. */
  lemma FewDigitsExact(value: real, m: int, e: nat, digits: nat)
    requires IsFraction(value, m, e) && digits <= 2
    ensures FixedText(value, digits) == Some(HalfEvenText(value, digits))
  {
    FractionIsClear(value, m, e, digits);
    FixedRoundsHalfEven(value, digits);
  }

  // -------------------------------------------------- one double printed wrong

  /** Nine over two to the 333rd, about 5.14e-100. */
  const TINY: real := 9.0 / 17498005798264095394980017816940970922825355447145699491406164851279623993595007385788105416184430592.0

  lemma TinyIsDouble()
    ensures IsFraction(TINY, 9, 333)
  {
    Powers();
  }

  lemma NineShifted()
    ensures Shift(9.0, 99) == 9000000000000000000000000000000000000000000000000000000000000000000000000000000000000000000000000000.0
  {
    ShiftMore(9.0, 90, 9);
    NinetyShifted();
    ShiftMore(9000000000000000000000000000000000000000000000000000000000000000000000000000000000000000000.0, 5, 4);
    assert Shift(9000000000000000000000000000000000000000000000000000000000000000000000000000000000000000000.0, 5) == 900000000000000000000000000000000000000000000000000000000000000000000000000000000000000000000000.0;
    assert Shift(900000000000000000000000000000000000000000000000000000000000000000000000000000000000000000000000.0, 4) == 9000000000000000000000000000000000000000000000000000000000000000000000000000000000000000000000000000.0;
  }

  lemma NinetyShifted()
    ensures Shift(9.0, 90) == 9000000000000000000000000000000000000000000000000000000000000000000000000000000000000000000.0
  {
    assert Shift(9.0, 0) == 9.0;
    ShiftMore(9.0, 0, 10);
    ShiftTen(9.0);
    ShiftMore(9.0, 10, 10);
    ShiftTen(90000000000.0);
    ShiftMore(9.0, 20, 10);
    ShiftTen(900000000000000000000.0);
    ShiftMore(9.0, 30, 10);
    ShiftTen(9000000000000000000000000000000.0);
    ShiftMore(9.0, 40, 10);
    ShiftTen(90000000000000000000000000000000000000000.0);
    ShiftMore(9.0, 50, 10);
    ShiftTen(900000000000000000000000000000000000000000000000000.0);
    ShiftMore(9.0, 60, 10);
    ShiftTen(9000000000000000000000000000000000000000000000000000000000000.0);
    ShiftMore(9.0, 70, 10);
    ShiftTen(90000000000000000000000000000000000000000000000000000000000000000000000.0);
    ShiftMore(9.0, 80, 10);
    ShiftTen(900000000000000000000000000000000000000000000000000000000000000000000000000000000.0);
  }

  lemma TinyScaled()
    ensures 0.5 < Scaled(TINY, 99) < 0.55
  {
    var p := 17498005798264095394980017816940970922825355447145699491406164851279623993595007385788105416184430592.0;
    ScaledWhole(TINY, p, 9, 99);
    ShiftWhole(9, 99);
    NineShifted();
    assert Scaled(TINY, 99) * p == 9000000000000000000000000000000000000000000000000000000000000000000000000000000000000000000000000000.0;
  }

  lemma JustPastHalf(x: real)
    requires 0.5 < x < 0.55
    ensures Printed(x, 1) == 0 && HalfEven(x) == 1
  {
    assert x.Floor == 0;
    OneShifted(Past(x, 0));
  }

  lemma PrintedZero(value: real, digits: nat)
    requires 0.5 < Scaled(value, digits) < 0.55
    ensures FixedWith(value, digits, digits + 1) == Some(Text(value, 0, digits))
    ensures HalfEvenText(value, digits) == Text(value, 1, digits)
    ensures Text(value, 0, digits) != Text(value, 1, digits)
  {
    JustPastHalf(Scaled(value, digits));
    PrintsNumber(value, digits, 1);
    SameTextIff(value, 0, 0, 1, digits);
  }

  /** The failing case: rounded half to even to 99 digits that double is 1e-99, and the client prints zero. */
  lemma TinyPrintedWrong()
    ensures IsFraction(TINY, 9, 333)
    ensures HalfEvenText(TINY, 99) == Text(TINY, 1, 99)
    ensures FixedText(TINY, 99) == Some(Text(TINY, 0, 99)) && Text(TINY, 0, 99) != Text(TINY, 1, 99)
  {
    TinyIsDouble();
    TinyScaled();
    PrintedZero(TINY, 99);
  }

  lemma OneShifted(y: real)
    ensures Shift(y, 1) == 10.0 * y
  {}
}
