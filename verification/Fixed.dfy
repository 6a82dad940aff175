/** The client's number formatter, which rounds ties to even on top of a `toFixed` that rounds them up. */
module Fixed {
  import opened Basics
  import opened Decimals

  // ------------------------------------------------- toFixed, as ECMA-262 has it

  function Decimal(n: nat): (s: string)
    ensures s != []
  {
    if n < 10 then [DigitChar(n)] else Decimal(n / 10) + [DigitChar(n % 10)]
  }

  function Zeros(k: nat): (s: string)
    ensures |s| == k
  {
    if k == 0 then "" else Zeros(k - 1) + "0"
  }

  /** The digits of `n`, at least `width` of them. */
  function Padded(n: nat, width: nat): (s: string)
    ensures s != [] && |s| >= width
  {
    var m := Decimal(n);
    if |m| < width then Zeros(width - |m|) + m else m
  }

  /** `n` tenths, hundredths and so on, with `f` places after the point. */
  function Placed(n: nat, f: nat): string {
    var m := Padded(n, f + 1);
    if f == 0 then m else m[..|m| - f] + "." + m[|m| - f..]
  }

  function Abs(x: real): (a: real)
    ensures a >= 0.0
  {
    if x < 0.0 then -x else x
  }

  /** The integer closest to `y`, the larger of two. */
  function Nearest(y: real): int {
    (y + 0.5).Floor
  }

  lemma NearestIsClosest(y: real, k: int)
    ensures Abs(Nearest(y) as real - y) < Abs(k as real - y)
            || (Abs(Nearest(y) as real - y) == Abs(k as real - y) && k <= Nearest(y))
  {}

  /** `y` with the point moved `k` places to the right: `y` times ten to the `k`. */
  function Shift(y: real, k: nat): real {
    if k == 0 then y else 10.0 * Shift(y, k - 1)
  }

  function ShiftInt(m: int, k: nat): int {
    if k == 0 then m else 10 * ShiftInt(m, k - 1)
  }

  lemma {:induction false} ShiftSign(y: real, k: nat)
    ensures Shift(y, k) > 0.0 <==> y > 0.0
    ensures Shift(y, k) == 0.0 <==> y == 0.0
  {
    if k > 0 {
      ShiftSign(y, k - 1);
    }
  }

  /** The magnitude of `x` in units of its `f`th place. */
  function Scaled(x: real, f: nat): (y: real)
    ensures y >= 0.0
  {
    ShiftSign(Abs(x), f);
    Shift(Abs(x), f)
  }

  function Sign(value: real): string {
    if value < 0.0 then "-" else ""
  }

  /** `toFixed` of a number below 1e21 (section 21.1.3.3 of ECMA-262). */
  function ToFixed(x: real, f: nat): string {
    Sign(x) + Placed(Nearest(Scaled(x, f)), f)
  }

  // --------------------------------------------------------- the formatter

  /** How `slice` reads an index: from the end when negative, never past either end. */
  function At(s: string, n: int): (k: nat)
    ensures k <= |s|
  {
    if n < 0 then (if |s| + n < 0 then 0 else |s| + n) else if n > |s| then |s| else n
  }

  function IndexOf(s: string, c: char): int {
    if s == [] then -1
    else if s[0] == c then 0
    else var k := IndexOf(s[1..], c); if k < 0 then -1 else k + 1
  }

  predicate EndsWith(s: string, c: char) {
    s != [] && s[|s| - 1] == c
  }

  /** `/^50*$/`. */
  predicate FiveZeros(s: string) {
    s != [] && s[0] == '5' && forall i :: 1 <= i < |s| ==> s[i] == '0'
  }

  predicate LastIsOdd(s: string) {
    s != [] && Digit(s[|s| - 1]) % 2 == 1
  }

  /** The start of the longer expansion that the formatter keeps, and what it then looks at. */
  function Kept(exact: string, d: nat): string {
    var point := IndexOf(exact, '.');
    exact[..At(exact, if d == 0 then point else point + 1 + d)]
  }

  function Rest(exact: string, d: nat): string {
    var point := IndexOf(exact, '.');
    var kept := if d == 0 then point else point + 1 + d;
    exact[At(exact, if d == 0 then kept + 1 else kept)..]
  }

  /** `fixed`, for a `toFixed` that writes up to `places` places; `None` where it throws a RangeError. */
  function FixedWith(value: real, digits: nat, places: nat): Option<string> {
    if digits + 1 > places then None
    else if !EndsWith(ToFixed(value, digits + 1), '5') then Some(ToFixed(value, digits))
    else
      var rounded := ToFixed(value, digits);
      var exact := ToFixed(Abs(value), places);
      var truncated := Kept(exact, digits);
      if !FiveZeros(Rest(exact, digits)) || LastIsOdd(truncated) then Some(rounded)
      else Some(Sign(value) + truncated)
  }

  /** `fixed`. */
  function FixedText(value: real, digits: nat): Option<string> {
    FixedWith(value, digits, 100)
  }

  // ------------------------------------------------- what it is meant to print

  /** The integer closest to `y`, the even one of two. */
  function HalfEven(y: real): int {
    var m := y.Floor;
    var over := y - m as real;
    if over < 0.5 || (over == 0.5 && m % 2 == 0) then m else m + 1
  }

  lemma HalfEvenIsClosest(y: real, k: int)
    ensures Abs(HalfEven(y) as real - y) < Abs(k as real - y)
            || (Abs(HalfEven(y) as real - y) == Abs(k as real - y) && (k == HalfEven(y) || HalfEven(y) % 2 == 0))
  {
    var m := y.Floor;
    if k < m {
      assert Abs(k as real - y) > Abs(m as real - y);
    } else if k > m + 1 {
      assert Abs(k as real - y) > Abs((m + 1) as real - y);
    }
  }

  function Text(value: real, n: nat, digits: nat): string {
    Sign(value) + Placed(n, digits)
  }

  function HalfEvenText(value: real, digits: nat): string {
    Text(value, HalfEven(Scaled(value, digits)), digits)
  }

  // ---------------------------------------------------------- digit strings

  lemma {:induction false} PaddedSnoc(n: nat, w: nat)
    requires w >= 1
    ensures Padded(n, w + 1) == Padded(n / 10, w) + [DigitChar(n % 10)]
  {
    if n < 10 {
      assert Decimal(n / 10) == "0";
      assert Zeros(w) == Zeros(w - 1) + "0";
      if w == 1 { assert Zeros(0) == "" && "" + "0" == "0"; }
    } else {
      var m := Decimal(n / 10);
      assert Decimal(n) == m + [DigitChar(n % 10)];
      if |m| < w {
        assert Zeros(w - |m|) + (m + [DigitChar(n % 10)]) == (Zeros(w - |m|) + m) + [DigitChar(n % 10)];
      }
    }
  }

  /** `n` without its last `k` digits, the number those digits write, and their text. */
  function Cut(n: nat, k: nat): nat {
    if k == 0 then n else Cut(n / 10, k - 1)
  }

  function Low(n: nat, k: nat): (r: nat)
    ensures r < Pow10(k)
  {
    if k == 0 then 0 else 10 * Low(n / 10, k - 1) + n % 10
  }

  function Tail(n: nat, k: nat): (s: string)
    ensures |s| == k
  {
    if k == 0 then "" else Tail(n / 10, k - 1) + [DigitChar(n % 10)]
  }

  lemma {:induction false} CutAndLow(n: nat, k: nat)
    ensures n == ShiftInt(Cut(n, k), k) + Low(n, k)
    decreases k
  {
    if k > 0 {
      CutAndLow(n / 10, k - 1);
    }
  }

  lemma {:induction false} CutTwice(n: nat, d: nat, k: nat)
    ensures Cut(n, d + k) == Cut(Cut(n, k), d)
    decreases k
  {
    if k > 0 {
      CutTwice(n / 10, d, k - 1);
    }
  }

  lemma {:induction false} PaddedTail(n: nat, w: nat, k: nat)
    requires w >= 1
    ensures Padded(n, w + k) == Padded(Cut(n, k), w) + Tail(n, k)
    decreases k
  {
    if k > 0 {
      PaddedTail(n / 10, w, k - 1);
      CutStep(n, k - 1);
      PaddedTailStep(n, w, k - 1, Padded(Cut(n, k), w));
    }
  }

  lemma CutStep(n: nat, k: nat)
    ensures Cut(n, k + 1) == Cut(n / 10, k)
  {}

  lemma PaddedTailStep(n: nat, w: nat, k: nat, front: string)
    requires w >= 1 && Padded(n / 10, w + k) == front + Tail(n / 10, k)
    ensures Padded(n, w + (k + 1)) == front + Tail(n, k + 1)
  {
    var last := [DigitChar(n % 10)];
    PaddedSnoc(n, w + k);
    Regroup(front, Tail(n / 10, k), last);
    assert Tail(n, k + 1) == Tail(n / 10, k) + last;
  }

  lemma {:induction false} TailSplits(n: nat, j: nat, k: nat)
    ensures Tail(n, j + k) == Tail(Cut(n, k), j) + Tail(n, k)
    decreases k
  {
    if k > 0 {
      TailSplits(n / 10, j, k - 1);
      Regroup(Tail(Cut(n, k), j), Tail(n / 10, k - 1), [DigitChar(n % 10)]);
    }
  }

  lemma PlacedParts(n: nat, f: nat)
    requires f > 0
    ensures Placed(n, f) == Padded(Cut(n, f), 1) + "." + Tail(n, f)
  {
    PaddedTail(n, 1, f);
    CutAtEnd(Padded(Cut(n, f), 1), Tail(n, f), Padded(n, 1 + f));
  }

  lemma CutAtEnd(i: string, t: string, m: string)
    requires m == i + t
    ensures |m| - |t| == |i| && m[..|i|] == i && m[|i|..] == t
  {}

  lemma PlacedLast(n: nat, f: nat)
    ensures Placed(n, f) != [] && Placed(n, f)[|Placed(n, f)| - 1] == DigitChar(n % 10)
  {
    if f > 0 {
      PlacedParts(n, f);
      assert Tail(n, f)[f - 1] == DigitChar(n % 10);
    } else {
      assert Padded(n, 1) == Decimal(n);
    }
  }

  predicate NoPoint(s: string) {
    forall i :: 0 <= i < |s| ==> s[i] != '.'
  }

  lemma {:induction false} DecimalNoPoint(n: nat)
    ensures NoPoint(Decimal(n))
  {
    if n >= 10 {
      DecimalNoPoint(n / 10);
    }
  }

  lemma {:induction false} IndexOfAfter(a: string, b: string)
    requires NoPoint(a)
    ensures IndexOf(a + ("." + b), '.') == |a|
  {
    if a == [] {
      assert a + ("." + b) == "." + b;
    } else {
      IndexOfAfter(a[1..], b);
      assert (a + ("." + b))[1..] == a[1..] + ("." + b);
    }
  }

  lemma ExactShape(n: nat, d: nat, k: nat)
    requires k > 0
    ensures var i := Padded(Cut(n, d + k), 1);
            && Placed(n, d + k) == i + ("." + (Tail(Cut(n, k), d) + Tail(n, k)))
            && IndexOf(Placed(n, d + k), '.') == |i|
  {
    PlacedParts(n, d + k);
    TailSplits(n, d, k);
    DecimalNoPoint(Cut(n, d + k));
    IndexOfAfter(Padded(Cut(n, d + k), 1), Tail(n, d + k));
    Regroup(Padded(Cut(n, d + k), 1), ".", Tail(n, d + k));
  }

  lemma Regroup(a: string, b: string, c: string)
    ensures a + b + c == a + (b + c)
  {}

  /** Cutting the longer expansion after `d` places gives the digits of the number without its last `k`. */
  lemma Truncation(n: nat, d: nat, k: nat)
    requires k > 0
    ensures Kept(Placed(n, d + k), d) == Placed(Cut(n, k), d) && Rest(Placed(n, d + k), d) == Tail(n, k)
  {
    ExactShape(n, d, k);
    CutTwice(n, d, k);
    var i := Padded(Cut(n, d + k), 1);
    if d == 0 {
      NoSign(Tail(n, k));
      Cuts(Placed(n, d + k), i, ".", Tail(n, k));
    } else {
      PlacedParts(Cut(n, k), d);
      KeptSome(Placed(n, d + k), i, Tail(Cut(n, k), d), Tail(n, k));
    }
  }

  lemma KeptSome(exact: string, i: string, head: string, tail: string)
    requires exact == i + ("." + (head + tail)) && IndexOf(exact, '.') == |i| && head != ""
    ensures Kept(exact, |head|) == i + "." + head && Rest(exact, |head|) == tail
  {
    assert exact == i + (("." + head) + tail);
    Cuts(exact, i, "." + head, tail);
  }

  lemma NoSign(s: string)
    ensures "" + s == s
  {}

  lemma Cuts(exact: string, i: string, mid: string, tail: string)
    requires exact == i + (mid + tail)
    ensures At(exact, |i|) == |i| && exact[..|i|] == i
    ensures At(exact, |i| + |mid|) == |i| + |mid|
    ensures exact[..|i| + |mid|] == i + mid && exact[|i| + |mid|..] == tail
  {}

  /** The rest reads "5", "50", "500" and so on exactly when it is half of its power of ten. */
  lemma {:induction false} FiveZerosIsHalf(n: nat, k: nat)
    requires k > 0
    ensures FiveZeros(Tail(n, k)) <==> 2 * Low(n, k) == Pow10(k)
  {
    if k == 1 {
      assert Low(n, 1) == n % 10 && Tail(n, 1) == [DigitChar(n % 10)];
    } else {
      FiveZerosIsHalf(n / 10, k - 1);
      LastZero(Tail(n / 10, k - 1), DigitChar(n % 10));
      HalfStep(Low(n / 10, k - 1), n % 10, Pow10(k - 2));
    }
  }

  lemma LastZero(up: string, c: char)
    requires up != []
    ensures FiveZeros(up + [c]) <==> FiveZeros(up) && c == '0'
  {
    var t := up + [c];
    assert t[0] == up[0] && t[|up|] == c;
    if FiveZeros(t) {
      assert forall i :: 1 <= i < |up| ==> up[i] == t[i];
    }
  }

  lemma HalfStep(h: int, last: int, p: int)
    requires 0 <= last < 10
    ensures 2 * (10 * h + last) == 10 * (10 * p) <==> 2 * h == 10 * p && last == 0
  {
    if 2 * (10 * h + last) == 10 * (10 * p) {
      assert last == 10 * (5 * p - h);
    }
  }

  // --------------------------------------------------------- the arithmetic

  /** How far `x` is past the tie over `m`. */
  function Past(x: real, m: int): real {
    x - m as real - 0.5
  }

  /** `x` is past a tie over an even number, but by less than half of one in the `k`th further place. */
  predicate JustPastEvenTie(x: real, k: nat) {
    x.Floor % 2 == 0 && 0.0 < Past(x, x.Floor) && Shift(Past(x, x.Floor), k) < 0.5
  }

  /** Rounded to `k` more places, `x` looks like a tie. */
  predicate InWindow(x: real, k: nat) {
    -0.5 <= Shift(Past(x, x.Floor), k) < 0.5
  }

  lemma {:induction false} ShiftMore(y: real, d: nat, k: nat)
    ensures Shift(y, d + k) == Shift(Shift(y, d), k)
  {
    if k > 0 {
      ShiftMore(y, d, k - 1);
    }
  }

  lemma {:induction false} PastTwice(x: real, m: int, k: nat)
    ensures 2.0 * Shift(Past(x, m), k) == 2.0 * Shift(x, k) - (2 * ShiftInt(m, k) + Pow10(k)) as real
  {
    if k > 0 {
      PastTwice(x, m, k - 1);
    }
  }

  lemma PastTie(x: real, m: int, k: nat)
    requires k > 0
    ensures Shift(Past(x, m), k) == Shift(x, k) - (ShiftInt(m, k) + 5 * Pow10(k - 1)) as real
  {
    PastTwice(x, m, k);
  }

  lemma {:induction false} ShiftBounds(y: real, k: nat, b: real)
    requires -b <= Shift(y, k) < b && b >= 0.0
    ensures -b <= y < b
  {
    if k > 0 {
      ShiftBounds(y, k - 1, b);
    }
  }

  lemma NearTie(x: real, t: int, k: nat)
    requires k > 0 && -0.5 <= Shift(Past(x, t), k) < 0.5
    ensures -0.05 <= Past(x, t) < 0.05 && x.Floor == t
  {
    ShiftBounds(Past(x, t), k - 1, 0.05);
  }

  lemma {:induction false} ShiftGap(m: int, t: int, k: nat)
    requires m < t
    ensures ShiftInt(m, k) + Pow10(k) <= ShiftInt(t, k)
  {
    if k > 0 {
      ShiftGap(m, t, k - 1);
    }
  }

  /** The `k` more places read as half exactly in the window, and the number above them is then the floor. */
  lemma HalfWindow(x: real, k: nat, n: nat)
    requires k > 0 && n == Nearest(Shift(x, k))
    ensures 2 * Low(n, k) == Pow10(k) <==> InWindow(x, k)
    ensures InWindow(x, k) ==> Cut(n, k) == x.Floor
  {
    CutAndLow(n, k);
    if InWindow(x, k) {
      PastTie(x, x.Floor, k);
      SameDigits(x.Floor, Cut(n, k), Low(n, k), k);
    } else if 2 * Low(n, k) == Pow10(k) {
      PastTie(x, Cut(n, k), k);
      NearTie(x, Cut(n, k), k);
    }
  }

  lemma SameDigits(m: int, t: int, low: nat, k: nat)
    requires k > 0 && ShiftInt(m, k) + 5 * Pow10(k - 1) == ShiftInt(t, k) + low && low < Pow10(k)
    ensures m == t && 2 * low == Pow10(k)
  {
    if m < t {
      ShiftGap(m, t, k);
    } else if t < m {
      ShiftGap(t, m, k);
    }
  }

  /** One place further, a number in the window ends in 5. */
  lemma WindowEndsInFive(x: real, k: nat)
    requires k > 0 && InWindow(x, k)
    ensures Nearest(10.0 * x) % 10 == 5
  {
    NearTie(x, x.Floor, k);
    assert Nearest(10.0 * x) == 10 * x.Floor + 5;
  }

  lemma GuardMeans(value: real, digits: nat)
    ensures EndsWith(ToFixed(value, digits + 1), '5') <==> Nearest(10.0 * Scaled(value, digits)) % 10 == 5
  {
    var n := Nearest(Scaled(value, digits + 1));
    PlacedLast(n, digits + 1);
    EndOf(Sign(value), Placed(n, digits + 1));
  }

  lemma ExactMeans(value: real, f: nat)
    ensures ToFixed(Abs(value), f) == Placed(Nearest(Scaled(value, f)), f)
  {
    assert Scaled(Abs(value), f) == Scaled(value, f);
    NoSign(Placed(Nearest(Scaled(value, f)), f));
  }

  lemma OddMeans(n: nat, f: nat)
    ensures LastIsOdd(Placed(n, f)) <==> n % 2 == 1
  {
    PlacedLast(n, f);
    DigitParity(n);
  }

  lemma DigitParity(n: nat)
    ensures Digit(DigitChar(n % 10)) % 2 == n % 2
  {
    var q, r := n / 10, n % 10;
    assert Digit(DigitChar(r)) == r;
    ParityOf(n, q, r);
  }

  lemma ParityOf(n: nat, q: nat, r: nat)
    requires n == 10 * q + r && r < 10
    ensures r % 2 == n % 2
  {
    assert n == 2 * (5 * q) + r;
  }

  /** Which way the formatter goes. */
  predicate LooksLikeEvenTie(value: real, digits: nat, exact: string) {
    EndsWith(ToFixed(value, digits + 1), '5') && FiveZeros(Rest(exact, digits)) && !LastIsOdd(Kept(exact, digits))
  }

  function Chosen(value: real, digits: nat, exact: string): string {
    if LooksLikeEvenTie(value, digits, exact) then Sign(value) + Kept(exact, digits) else ToFixed(value, digits)
  }

  lemma FixedShape(value: real, digits: nat, places: nat)
    requires digits < places
    ensures FixedWith(value, digits, places) == Some(Chosen(value, digits, ToFixed(Abs(value), places)))
  {}

  /** The number whose digits the formatter prints. */
  function Printed(x: real, k: nat): int {
    if InWindow(x, k) && x.Floor % 2 == 0 then x.Floor else Nearest(x)
  }

  lemma ChosenNumber(value: real, digits: nat, k: nat, exact: string)
    requires k > 0 && exact == Placed(Nearest(Scaled(value, digits + k)), digits + k)
    ensures Chosen(value, digits, exact) == Text(value, Printed(Scaled(value, digits), k), digits)
  {
    TieMeans(value, digits, k, exact);
  }

  lemma PrintsNumber(value: real, digits: nat, k: nat)
    requires k > 0
    ensures FixedWith(value, digits, digits + k) == Some(Text(value, Printed(Scaled(value, digits), k), digits))
  {
    FixedShape(value, digits, digits + k);
    ExactMeans(value, digits + k);
    ChosenNumber(value, digits, k, ToFixed(Abs(value), digits + k));
  }

  lemma TieMeans(value: real, digits: nat, k: nat, exact: string)
    requires k > 0 && exact == Placed(Nearest(Scaled(value, digits + k)), digits + k)
    ensures var x := Scaled(value, digits);
            && (LooksLikeEvenTie(value, digits, exact) <==> InWindow(x, k) && x.Floor % 2 == 0)
            && (InWindow(x, k) ==> Kept(exact, digits) == Placed(x.Floor, digits))
  {
    var x := Scaled(value, digits);
    var n := Nearest(Scaled(value, digits + k));
    ShiftMore(Abs(value), digits, k);
    HalfWindow(x, k, n);
    Truncation(n, digits, k);
    FiveZerosIsHalf(n, k);
    OddMeans(Cut(n, k), digits);
    GuardMeans(value, digits);
    assert Kept(exact, digits) == Placed(Cut(n, k), digits);
    if InWindow(x, k) {
      WindowEndsInFive(x, k);
    }
  }

  lemma PrintedIsHalfEven(x: real, k: nat)
    requires k > 0
    ensures Printed(x, k) == HalfEven(x) <==> !JustPastEvenTie(x, k)
    ensures x.Floor <= Printed(x, k) <= x.Floor + 1 && x.Floor <= HalfEven(x) <= x.Floor + 1
  {
    ShiftSign(Past(x, x.Floor), k);
  }

  /** A number's text tells it from the next. */
  lemma TextsDiffer(value: real, m: nat, digits: nat)
    ensures Text(value, m, digits) != Text(value, m + 1, digits)
  {
    PlacedLast(m, digits);
    PlacedLast(m + 1, digits);
    LastDiffers(Sign(value), Placed(m, digits), Placed(m + 1, digits), m);
  }

  lemma LastDiffers(sign: string, s: string, t: string, m: nat)
    requires s != [] && t != [] && s[|s| - 1] == DigitChar(m % 10) && t[|t| - 1] == DigitChar((m + 1) % 10)
    ensures sign + s != sign + t
  {
    EndOf(sign, s);
    EndOf(sign, t);
  }

  lemma EndOf(sign: string, s: string)
    requires s != []
    ensures (sign + s)[|sign + s| - 1] == s[|s| - 1]
  {}

  lemma SameTextIff(value: real, m: nat, n: nat, h: nat, digits: nat)
    requires m <= n <= m + 1 && m <= h <= m + 1
    ensures Text(value, n, digits) == Text(value, h, digits) <==> n == h
  {
    TextsDiffer(value, m, digits);
  }

  lemma WithRoundsHalfEven(value: real, digits: nat, k: nat)
    requires k > 0
    ensures FixedWith(value, digits, digits + k) == Some(HalfEvenText(value, digits))
            <==> !JustPastEvenTie(Scaled(value, digits), k)
  {
    var x := Scaled(value, digits);
    PrintsNumber(value, digits, k);
    PrintedIsHalfEven(x, k);
    SameTextIff(value, x.Floor, Printed(x, k), HalfEven(x), digits);
  }

  /**
   * The formatter prints the half-to-even rounding, except exactly where the value lies past a tie over
   * an even digit by less than half of 1e-100 (there it prints the value one too low).
   */
  lemma FixedRoundsHalfEven(value: real, digits: nat)
    requires digits < 100
    ensures FixedText(value, digits) == Some(HalfEvenText(value, digits))
            <==> !JustPastEvenTie(Scaled(value, digits), 100 - digits)
  {
    WithRoundsHalfEven(value, digits, 100 - digits);
  }
}
