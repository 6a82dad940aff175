/** The comparison that puts a comic archive's pages in reading order. */
module NaturalOrder {
  import opened Decimals
  import opened Text

  datatype Order = Less | Equal | Greater {
    function Flip(): Order {
      match this case Less => Greater case Equal => Equal case Greater => Less
    }

    /** `then_with`. */
    function Then(next: Order): Order {
      if this == Equal then next else this
    }
  }

  function CmpInt(a: int, b: int): Order {
    if a < b then Less else if a > b then Greater else Equal
  }

  function CmpText(a: string, b: string): Order {
    if a == [] then if b == [] then Equal else Less
    else if b == [] then Greater
    else CmpInt(a[0] as int, b[0] as int).Then(CmpText(a[1..], b[1..]))
  }

  // ------------------------------------------------------------- digit runs

  predicate AllDigits(s: string) {
    forall i :: 0 <= i < |s| ==> IsDigit(s[i])
  }

  /** How many digits `s` opens with. */
  function RunLength(s: string): (n: nat)
    ensures n <= |s| && (forall i :: 0 <= i < n ==> IsDigit(s[i])) && (n < |s| ==> !IsDigit(s[n]))
  {
    if s != [] && IsDigit(s[0]) then 1 + RunLength(s[1..]) else 0
  }

  /** The number a digit run writes. */
  function Value(run: string): int {
    if run == [] then 0 else Digit(run[0]) * Pow10(|run| - 1) + Value(run[1..])
  }

  /** `trim_start_matches('0')`. */
  function StripZeros(s: string): string {
    if s != [] && s[0] == '0' then StripZeros(s[1..]) else s
  }

  lemma {:induction false} ValueBounds(run: string)
    requires AllDigits(run)
    ensures 0 <= Value(run) < Pow10(|run|)
    ensures run != [] && run[0] != '0' ==> Pow10(|run| - 1) <= Value(run)
  {
    if run != [] {
      ValueBounds(run[1..]);
      var d, p := Digit(run[0]), Pow10(|run| - 1);
      ScaledUp(0, d, p);
      ScaledUp(d, 9, p);
      if d >= 1 {
        ScaledUp(1, d, p);
      }
    }
  }

  lemma {:induction false} StripKeepsValue(run: string)
    requires AllDigits(run)
    ensures AllDigits(StripZeros(run)) && Value(StripZeros(run)) == Value(run)
    ensures StripZeros(run) != [] ==> StripZeros(run)[0] != '0'
  {
    if run != [] && run[0] == '0' {
      StripKeepsValue(run[1..]);
      assert 0 * Pow10(|run| - 1) == 0;
    }
  }

  /** Digit runs of one length compare as texts exactly as they compare as numbers. */
  lemma {:induction false} TextIsNumeric(s: string, t: string)
    requires AllDigits(s) && AllDigits(t) && |s| == |t|
    ensures CmpText(s, t) == CmpInt(Value(s), Value(t))
  {
    if s != [] {
      TextIsNumeric(s[1..], t[1..]);
      ValueBounds(s[1..]);
      ValueBounds(t[1..]);
      var p := Pow10(|s| - 1);
      if s[0] < t[0] {
        HeadDecides(Digit(s[0]), Digit(t[0]), p, Value(s[1..]), Value(t[1..]));
      } else if t[0] < s[0] {
        HeadDecides(Digit(t[0]), Digit(s[0]), p, Value(t[1..]), Value(s[1..]));
      }
    }
  }

  lemma HeadDecides(d: int, e: int, p: nat, v: int, w: int)
    requires d < e && 0 <= v < p && 0 <= w
    ensures d * p + v < e * p + w
  {
    ScaledUp(d + 1, e, p);
    assert (d + 1) * p == d * p + p;
  }

  /** How two digit runs compare in the program: zeros stripped, by length, then as texts, then by full length. */
  function CmpRuns(da: string, db: string): Order {
    var sa, sb := StripZeros(da), StripZeros(db);
    CmpInt(|sa|, |sb|).Then(CmpText(sa, sb)).Then(CmpInt(|da|, |db|))
  }

  lemma RunsCompareByValue(da: string, db: string)
    requires AllDigits(da) && AllDigits(db)
    ensures CmpRuns(da, db) == CmpInt(Value(da), Value(db)).Then(CmpInt(|da|, |db|))
  {
    var sa, sb := StripZeros(da), StripZeros(db);
    StripKeepsValue(da);
    StripKeepsValue(db);
    ValueBounds(sa);
    ValueBounds(sb);
    if |sa| < |sb| {
      PowGrows(|sa|, |sb| - 1);
    } else if |sb| < |sa| {
      PowGrows(|sb|, |sa| - 1);
    } else {
      TextIsNumeric(sa, sb);
    }
  }

  // ------------------------------------------------------ names as key lists

  /** One token of a name: a whole digit run, or one other character without its case. */
  datatype Key = Number(value: int, length: nat) | Letter(c: char)

  function Keys(s: string): seq<Key>
    decreases |s|
  {
    if s == [] then []
    else if IsDigit(s[0]) then
      var n := RunLength(s);
      [Number(Value(s[..n]), n)] + Keys(s[n..])
    else [Letter(LowerChar(s[0]))] + Keys(s[1..])
  }

  /** Numbers by value, then by written length; every digit sorts as the digits do among other characters. */
  function CmpKey(x: Key, y: Key): Order {
    match (x, y)
    case (Number(v, m), Number(w, n)) => CmpInt(v, w).Then(CmpInt(m, n))
    case (Number(_, _), Letter(c)) => if c < '0' then Greater else Less
    case (Letter(c), Number(_, _)) => if c < '0' then Less else Greater
    case (Letter(c), Letter(d)) => CmpInt(c as int, d as int)
  }

  /** Lexicographic, a proper prefix first. */
  function CmpKeys(x: seq<Key>, y: seq<Key>): Order {
    if x == [] then if y == [] then Equal else Less
    else if y == [] then Greater
    else CmpKey(x[0], y[0]).Then(CmpKeys(x[1..], y[1..]))
  }

  function NameOrder(a: string, b: string): Order {
    CmpKeys(Keys(a), Keys(b))
  }

  // --------------------------------------------------------- the comparator

  /** `take_digits`. */
  method TakeDigits(s: string, i: nat) returns (run: string, next: nat)
    requires i <= |s|
    ensures next == i + RunLength(s[i..])
    ensures run == s[i..][..RunLength(s[i..])] && s[next..] == s[i..][RunLength(s[i..])..]
  {
    run, next := [], i;
    while next < |s| && IsDigit(s[next])
      invariant i <= next <= |s|
      invariant run == s[i..next]
      invariant forall k :: i <= k < next ==> IsDigit(s[k])
    {
      run := run + [s[next]];
      next := next + 1;
    }
    RunEnds(s, i, next);
    Slices(s, i, next - i);
  }

  lemma RunEnds(s: string, i: nat, next: nat)
    requires i <= next <= |s| && (forall k :: i <= k < next ==> IsDigit(s[k])) && (next < |s| ==> !IsDigit(s[next]))
    ensures RunLength(s[i..]) == next - i
  {
    RunLengthFromShape(s[i..], next - i);
  }

  /** `natural_cmp`. */
  method NaturalCmp(a: string, b: string) returns (ord: Order)
    ensures ord == NameOrder(a, b)
  {
    var i: nat, j: nat := 0, 0;
    while true
      invariant i <= |a| && j <= |b|
      invariant NameOrder(a[i..], b[j..]) == NameOrder(a, b)
      decreases |a| - i
    {
      if i == |a| && j == |b| {
        return Equal;
      }
      if i == |a| {
        return Less;
      }
      if j == |b| {
        return Greater;
      }
      if IsDigit(a[i]) && IsDigit(b[j]) {
        RunHeads(a[i..], b[j..]);
        var da, m := TakeDigits(a, i);
        var db, n := TakeDigits(b, j);
        ord := CmpRuns(da, db);
        i, j := m, n;
      } else {
        CharStep(a, i, b, j);
        ord := CmpInt(LowerChar(a[i]) as int, LowerChar(b[j]) as int);
        i, j := i + 1, j + 1;
      }
      if ord != Equal {
        return;
      }
    }
  }

  lemma RunHeads(s: string, t: string)
    requires s != [] && t != [] && IsDigit(s[0]) && IsDigit(t[0])
    ensures var m, n := RunLength(s), RunLength(t);
            NameOrder(s, t) == CmpRuns(s[..m], t[..n]).Then(NameOrder(s[m..], t[n..]))
  {
    var m, n := RunLength(s), RunLength(t);
    RunsCompareByValue(s[..m], t[..n]);
    assert Keys(s)[1..] == Keys(s[m..]) && Keys(t)[1..] == Keys(t[n..]);
  }

  lemma Slices(s: string, i: nat, n: nat)
    requires i + n <= |s|
    ensures s[i..i + n] == s[i..][..n] && s[i + n..] == s[i..][n..]
  {}

  lemma CharStep(a: string, i: nat, b: string, j: nat)
    requires i < |a| && j < |b| && !(IsDigit(a[i]) && IsDigit(b[j]))
    ensures NameOrder(a[i..], b[j..])
            == CmpInt(LowerChar(a[i]) as int, LowerChar(b[j]) as int).Then(NameOrder(a[i + 1..], b[j + 1..]))
  {
    assert a[i..][1..] == a[i + 1..] && b[j..][1..] == b[j + 1..];
  }

  // ----------------------------------------------------- it is a total order

  lemma {:induction false} OrderFlips(x: seq<Key>, y: seq<Key>)
    ensures CmpKeys(y, x) == CmpKeys(x, y).Flip()
  {
    if x != [] && y != [] {
      OrderFlips(x[1..], y[1..]);
    }
  }

  /** Every key was made from a name: a letter key is never a digit. */
  predicate Made(x: seq<Key>) {
    forall i :: 0 <= i < |x| ==> x[i].Letter? ==> !IsDigit(x[i].c)
  }

  lemma {:induction false} KeysMade(s: string)
    ensures Made(Keys(s))
    decreases |s|
  {
    if s != [] {
      KeysMade(s[if IsDigit(s[0]) then RunLength(s) else 1..]);
    }
  }

  lemma KeyTransitive(x: Key, y: Key, z: Key)
    requires x.Letter? ==> !IsDigit(x.c)
    requires y.Letter? ==> !IsDigit(y.c)
    requires z.Letter? ==> !IsDigit(z.c)
    requires CmpKey(x, y) != Greater && CmpKey(y, z) != Greater
    ensures CmpKey(x, z) == CmpKey(x, y).Then(CmpKey(y, z))
  {}

  lemma {:induction false} KeysTransitive(x: seq<Key>, y: seq<Key>, z: seq<Key>)
    requires Made(x) && Made(y) && Made(z)
    requires CmpKeys(x, y) != Greater && CmpKeys(y, z) != Greater
    ensures CmpKeys(x, z) == CmpKeys(x, y).Then(CmpKeys(y, z))
  {
    if x != [] && y != [] && z != [] {
      KeyTransitive(x[0], y[0], z[0]);
      if CmpKey(x[0], y[0]) == Equal && CmpKey(y[0], z[0]) == Equal {
        KeysTransitive(x[1..], y[1..], z[1..]);
      }
    }
  }

  lemma {:induction false} EqualKeys(x: seq<Key>, y: seq<Key>)
    ensures CmpKeys(x, y) == Equal <==> x == y
  {
    if x != [] && y != [] {
      EqualKeys(x[1..], y[1..]);
      assert x == [x[0]] + x[1..] && y == [y[0]] + y[1..];
    }
  }

  // -------------------------------------------------- equal up to ASCII case

  lemma RunLengthFromShape(s: string, n: nat)
    requires n <= |s| && (forall i :: 0 <= i < n ==> IsDigit(s[i])) && (n < |s| ==> !IsDigit(s[n]))
    ensures RunLength(s) == n
  {}

  lemma {:induction false} KeysIgnoreCase(s: string)
    ensures Keys(Lower(s)) == Keys(s)
    decreases |s|
  {
    LowerShape(s);
    if s != [] {
      var low := Lower(s);
      if IsDigit(s[0]) {
        var n := RunLength(s);
        assert low[..n] == s[..n] by {
          forall i | 0 <= i < n ensures low[i] == s[i] {
            assert IsDigit(s[..n][i]);
          }
        }
        RunLengthFromShape(low, n);
        LowerShape(s[n..]);
        assert low[n..] == Lower(s[n..]);
        KeysIgnoreCase(s[n..]);
      } else {
        KeysIgnoreCase(s[1..]);
      }
    }
  }

  lemma TextEqual(s: string, t: string)
    requires |s| == |t| && CmpText(s, t) == Equal
    ensures s == t
  {
    if s != [] {
      TextEqual(s[1..], t[1..]);
      assert s == [s[0]] + s[1..] && t == [t[0]] + t[1..];
    }
  }

  lemma {:induction false} SameKeysSameName(a: string, b: string)
    requires Keys(a) == Keys(b)
    ensures Lower(a) == Lower(b)
    decreases |a|
  {
    if a != [] && b != [] {
      assert Keys(a)[0] == Keys(b)[0] && Keys(a)[1..] == Keys(b)[1..];
      if IsDigit(a[0]) {
        var n := RunLength(a);
        TextIsNumeric(a[..n], b[..n]);
        TextEqual(a[..n], b[..n]);
        SameKeysSameName(a[n..], b[n..]);
        LowerJoins(a, n);
        LowerJoins(b, n);
      } else {
        SameKeysSameName(a[1..], b[1..]);
      }
    }
  }

  lemma {:induction false} LowerJoins(s: string, n: nat)
    requires n <= |s|
    ensures Lower(s) == Lower(s[..n]) + Lower(s[n..])
  {
    if n == 0 {
      assert s[0..] == s;
    } else {
      LowerJoins(s[1..], n - 1);
      assert s[..n][1..] == s[1..][..n - 1];
    }
  }

  lemma LowerPreorder(a: string, b: string, c: string)
    ensures NameOrder(b, a) == NameOrder(a, b).Flip()
    ensures NameOrder(a, b) == Equal <==> Lower(a) == Lower(b)
    ensures NameOrder(a, b) != Greater && NameOrder(b, c) != Greater
            ==> NameOrder(a, c) == NameOrder(a, b).Then(NameOrder(b, c))
  {
    OrderFlips(Keys(a), Keys(b));
    EqualKeys(Keys(a), Keys(b));
    if Keys(a) == Keys(b) {
      SameKeysSameName(a, b);
    }
    KeysIgnoreCase(a);
    KeysIgnoreCase(b);
    KeysMade(a);
    KeysMade(b);
    KeysMade(c);
    if NameOrder(a, b) != Greater && NameOrder(b, c) != Greater {
      KeysTransitive(Keys(a), Keys(b), Keys(c));
    }
  }

  /**
   * The order on names is total and transitive, turns round with its arguments, and calls two names
   * equal exactly when they differ by ASCII case at most.
   */
  lemma TotalPreorder(a: string, b: string, c: string)
    ensures NameOrder(b, a) == NameOrder(a, b).Flip()
    ensures NameOrder(a, b) == Equal <==> SameButCase(a, b)
    ensures NameOrder(a, b) != Greater && NameOrder(b, c) != Greater
            ==> NameOrder(a, c) == NameOrder(a, b).Then(NameOrder(b, c))
  {
    LowerPreorder(a, b, c);
    LowerIsCase(a, b);
  }

  // ------------------------------------------------------------ what decides

  predicate EndsInDigit(s: string) {
    s != [] && IsDigit(s[|s| - 1])
  }

  predicate StartsInDigit(s: string) {
    s != [] && IsDigit(s[0])
  }

  /** The first token of a name, and how much of the name it takes. */
  function FirstKey(s: string): (Key, nat)
    requires s != []
  {
    if IsDigit(s[0]) then (Number(Value(s[..RunLength(s)]), RunLength(s)), RunLength(s)) else (Letter(LowerChar(s[0])), 1)
  }

  lemma KeysStep(s: string)
    requires s != []
    ensures var (key, n) := FirstKey(s); 0 < n <= |s| && Keys(s) == [key] + Keys(s[n..])
  {}

  lemma FirstKeyStays(p: string, s: string)
    requires p != [] && !(EndsInDigit(p) && StartsInDigit(s))
    ensures FirstKey(p + s) == FirstKey(p)
  {
    if IsDigit(p[0]) {
      RunLengthFromShape(p + s, RunLength(p));
      assert (p + s)[..RunLength(p)] == p[..RunLength(p)];
    }
  }

  lemma DropConcat(p: string, s: string, n: nat)
    requires n <= |p|
    ensures (p + s)[n..] == p[n..] + s
  {}

  lemma ConsConcat<T>(x: T, a: seq<T>, b: seq<T>)
    ensures [x] + (a + b) == ([x] + a) + b
  {}

  lemma KeysGrow(p: string, s: string, n: nat)
    requires p != [] && n == FirstKey(p).1 <= |p| && FirstKey(p + s) == FirstKey(p)
    requires Keys(p[n..] + s) == Keys(p[n..]) + Keys(s)
    ensures Keys(p + s) == Keys(p) + Keys(s)
  {
    var key, rest := FirstKey(p).0, Keys(p[n..]);
    DropConcat(p, s, n);
    ConsConcat(key, rest, Keys(s));
    calc {
      Keys(p + s);
      { KeysStep(p + s); }
      [key] + (rest + Keys(s));
      ([key] + rest) + Keys(s);
      { KeysStep(p); }
      Keys(p) + Keys(s);
    }
  }

  lemma TailEnds(p: string, n: nat)
    requires n <= |p|
    ensures EndsInDigit(p[n..]) ==> EndsInDigit(p)
  {}

  lemma {:induction false} KeysConcat(p: string, s: string)
    requires !(EndsInDigit(p) && StartsInDigit(s))
    ensures Keys(p + s) == Keys(p) + Keys(s)
    decreases |p|
  {
    if p == [] {
      assert p + s == s;
    } else {
      var n := FirstKey(p).1;
      FirstKeyStays(p, s);
      TailEnds(p, n);
      KeysConcat(p[n..], s);
      KeysGrow(p, s, n);
    }
  }

  lemma {:induction false} SharedKeys(k: seq<Key>, x: seq<Key>, y: seq<Key>)
    ensures CmpKeys(k + x, k + y) == CmpKeys(x, y)
  {
    if k == [] {
      assert k + x == x && k + y == y;
    } else {
      assert (k + x)[1..] == k[1..] + x && (k + y)[1..] == k[1..] + y;
      SharedKeys(k[1..], x, y);
    }
  }

  /** What two names open with alike does not matter, unless it cuts a number in two. */
  lemma SharedPrefix(p: string, s: string, t: string)
    requires !(EndsInDigit(p) && (StartsInDigit(s) || StartsInDigit(t)))
    ensures NameOrder(p + s, p + t) == NameOrder(s, t)
  {
    KeysConcat(p, s);
    KeysConcat(p, t);
    SharedKeys(Keys(p), Keys(s), Keys(t));
  }

  /** The code a character is compared by: a capital counts as its small letter. */
  function FoldedCode(c: char): int {
    if 'A' <= c <= 'Z' then c as int - 'A' as int + 'a' as int else c as int
  }

  /** The first two characters that differ decide, unless both are digits or a number is cut there; an ended name comes first. */
  lemma FirstDifferenceDecides(p: string, c: char, s: string, d: char, t: string)
    requires !(IsDigit(c) && IsDigit(d)) && !(EndsInDigit(p) && (IsDigit(c) || IsDigit(d)))
    ensures FoldedCode(c) < FoldedCode(d) ==> NameOrder(p + ([c] + s), p + ([d] + t)) == Less
    ensures FoldedCode(c) > FoldedCode(d) ==> NameOrder(p + ([c] + s), p + ([d] + t)) == Greater
    ensures NameOrder(p, p + ([d] + t)) == Less
  {
    SharedPrefix(p, [c] + s, [d] + t);
    CharStep([c] + s, 0, [d] + t, 0);
    assert ([c] + s)[0..] == [c] + s && ([d] + t)[0..] == [d] + t;
    if !(EndsInDigit(p) && IsDigit(d)) {
      SharedPrefix(p, [], [d] + t);
      assert p + [] == p;
    }
  }

  /** Where two numbers differ in value, the smaller comes first, however they are written; equal ones, the shorter written. */
  lemma NumbersDecide(p: string, m: string, s: string, n: string, t: string)
    requires !EndsInDigit(p) && !StartsInDigit(s) && !StartsInDigit(t) && m != [] && n != [] && AllDigits(m) && AllDigits(n)
    ensures Value(m) < Value(n) || (Value(m) == Value(n) && |m| < |n|) ==> NameOrder(p + (m + s), p + (n + t)) == Less
    ensures Value(m) == Value(n) && |m| == |n| ==> NameOrder(p + (m + s), p + (n + t)) == NameOrder(s, t)
  {
    SharedPrefix(p, m + s, n + t);
    NumberKey(m, s);
    NumberKey(n, t);
  }

  lemma NumberKey(m: string, s: string)
    requires m != [] && AllDigits(m) && !StartsInDigit(s)
    ensures Keys(m + s) == [Number(Value(m), |m|)] + Keys(s)
  {
    RunLengthFromShape(m + s, |m|);
    assert (m + s)[..|m|] == m && (m + s)[|m|..] == s;
  }

  // --------------------------------------------------- one order for a comic

  predicate InOrder(pages: seq<string>) {
    forall i, j :: 0 <= i < j < |pages| ==> NameOrder(pages[i], pages[j]) != Greater
  }

  /** How many pages have this name without its case. */
  function CountLow(pages: seq<string>, low: string): nat {
    if pages == [] then 0 else CountLow(pages[1..], low) + if Lower(pages[0]) == low then 1 else 0
  }

  lemma {:induction false} CountConcat(p: seq<string>, q: seq<string>, low: string)
    ensures CountLow(p + q, low) == CountLow(p, low) + CountLow(q, low)
  {
    if p == [] {
      assert p + q == q;
    } else {
      CountConcat(p[1..], q, low);
      assert (p + q)[1..] == p[1..] + q;
    }
  }

  lemma {:induction false} PageWithLow(p: seq<string>, low: string) returns (k: nat)
    requires CountLow(p, low) > 0
    ensures k < |p| && Lower(p[k]) == low
  {
    if Lower(p[0]) == low {
      return 0;
    }
    k := PageWithLow(p[1..], low);
    k := k + 1;
  }

  lemma SamePagesLeft(p: seq<string>, a: seq<string>, b: seq<string>, q: seq<string>)
    requires p != [] && q == a + ([p[0]] + b) && multiset(p) == multiset(q)
    ensures multiset(p[1..]) == multiset(a + b)
  {
    assert p == [p[0]] + p[1..];
    assert multiset(p[1..]) == multiset(p) - multiset{p[0]};
    assert multiset(a + b) == multiset(q) - multiset{p[0]};
  }

  lemma CountWithout(a: seq<string>, x: string, b: seq<string>, low: string)
    ensures CountLow(a + ([x] + b), low) == CountLow(a + b, low) + if Lower(x) == low then 1 else 0
  {
    CountConcat(a, b, low);
    CountConcat(a, [x] + b, low);
    assert ([x] + b)[1..] == b;
  }

  lemma Around(q: seq<string>, x: string) returns (a: seq<string>, b: seq<string>)
    requires x in q
    ensures q == a + ([x] + b)
  {
    var k :| 0 <= k < |q| && q[k] == x;
    a, b := q[..k], q[k + 1..];
  }

  lemma {:induction false} PermutationKeepsCounts(p: seq<string>, q: seq<string>, low: string)
    requires multiset(p) == multiset(q)
    ensures CountLow(p, low) == CountLow(q, low)
    decreases |p|
  {
    if p == [] {
      assert |multiset(q)| == 0;
    } else {
      assert p[0] in multiset(q);
      var a, b := Around(q, p[0]);
      SamePagesLeft(p, a, b, q);
      PermutationKeepsCounts(p[1..], a + b, low);
      CountWithout(a, p[0], b, low);
    }
  }

  /** The same names, up to case, equally often. */
  ghost predicate SameNames(p: seq<string>, q: seq<string>) {
    forall low :: CountLow(p, low) == CountLow(q, low)
  }

  lemma SmallestFirst(p: seq<string>, q: seq<string>)
    requires InOrder(p) && p != [] && q != [] && SameNames(p, q)
    ensures NameOrder(p[0], q[0]) != Greater
  {
    assert CountLow(q, Lower(q[0])) > 0;
    var k := PageWithLow(p, Lower(q[0]));
    LowerPreorder(p[0], p[k], q[0]);
    LowerPreorder(p[k], q[0], q[0]);
    LowerPreorder(p[0], p[0], p[0]);
  }

  lemma {:induction false} SortedAgree(p: seq<string>, q: seq<string>, k: nat)
    requires InOrder(p) && InOrder(q) && |p| == |q| && SameNames(p, q) && k < |p|
    ensures Lower(p[k]) == Lower(q[k])
    decreases |p|
  {
    SmallestFirst(p, q);
    SmallestFirst(q, p);
    LowerPreorder(p[0], q[0], q[0]);
    if k > 0 {
      forall low ensures CountLow(p[1..], low) == CountLow(q[1..], low) {
        assert CountLow(p, low) == CountLow(q, low);
      }
      SortedAgree(p[1..], q[1..], k - 1);
    }
  }

  /** However the archive lists its pages, sorting them gives one reading order, up to ASCII case. */
  lemma OneReadingOrder(p: seq<string>, q: seq<string>)
    requires multiset(p) == multiset(q) && InOrder(p) && InOrder(q)
    ensures |p| == |q| && forall i :: 0 <= i < |p| ==> SameButCase(p[i], q[i])
  {
    assert |p| == |multiset(p)| && |q| == |multiset(q)|;
    forall low ensures CountLow(p, low) == CountLow(q, low) {
      PermutationKeepsCounts(p, q, low);
    }
    forall i | 0 <= i < |p| ensures SameButCase(p[i], q[i]) {
      SortedAgree(p, q, i);
      LowerIsCase(p[i], q[i]);
    }
  }
}
