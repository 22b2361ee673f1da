/** Block-level adaptive quantisation: the arithmetic of 8x8 variances, their median and the chosen QP deltas. */
module BlockAqSpec {
  import opened Bytes

  const QP_DELTA_WIRE_MIN: int := -24
  const QP_DELTA_WIRE_MAX: int := 24

  type i8 = x: int | -128 <= x < 128

  // ---------------------------------------------------------------- sums

  function Sum(s: seq<byte>): (n: nat)
    ensures n <= 255 * |s|
  {
    if s == [] then 0 else Sum(s[..|s| - 1]) + s[|s| - 1]
  }

  function SumSq(s: seq<byte>): (n: nat)
    ensures n <= 65025 * |s|
  {
    if s == [] then 0 else SumSq(s[..|s| - 1]) + Square(s[|s| - 1])
  }

  function Square(v: byte): (n: nat)
    ensures n <= 65025
  {
    v * v
  }

  /** The sum of squared distances from `v`. */
  function Spread(s: seq<byte>, v: int): (n: nat) {
    if s == [] then 0 else Spread(s[..|s| - 1], v) + SquareOf(s[|s| - 1] - v)
  }

  function SquareOf(d: int): (n: nat)
    ensures n == d * d
  {
    if d < 0 then (-d) * (-d) else d * d
  }

  lemma {:induction false} SpreadExpands(s: seq<byte>, v: int)
    ensures Spread(s, v) == SumSq(s) - 2 * v * Sum(s) + |s| * (v * v)
  {
    if s != [] {
      var x: int, n: nat := s[|s| - 1], |s| - 1;
      SpreadExpands(s[..n], v);
      OneMore(SumSq(s[..n]), Sum(s[..n]), n, v, x);
    }
  }

  lemma OneMore(q: int, a: int, n: int, v: int, x: int)
    ensures q - 2 * v * a + n * (v * v) + (x - v) * (x - v) == (q + x * x) - 2 * v * (a + x) + (n + 1) * (v * v)
  {
    assert (x - v) * (x - v) == x * x - 2 * (v * x) + v * v;
    assert 2 * v * (a + x) == 2 * v * a + 2 * (v * x);
    assert (n + 1) * (v * v) == n * (v * v) + v * v;
  }

  /** n times the sum of squares is at least the square of the sum. */
  lemma {:induction false} CauchySchwarz(s: seq<byte>)
    ensures |s| * SumSq(s) >= Sum(s) * Sum(s)
  {
    if s != [] {
      var v: int, n: nat := s[|s| - 1], |s| - 1;
      var q: nat, a: nat := SumSq(s[..n]), Sum(s[..n]);
      CauchySchwarz(s[..n]);
      SpreadExpands(s[..n], v);
      Extended(n, q, a, v);
    }
  }

  lemma Extended(n: nat, q: nat, a: nat, v: int)
    requires n * q >= a * a && q - 2 * v * a + n * (v * v) >= 0
    ensures (n + 1) * (q + v * v) >= (a + v) * (a + v)
  {
    assert (n + 1) * (q + v * v) == n * q + q + n * (v * v) + v * v;
    assert (a + v) * (a + v) == a * a + 2 * v * a + v * v;
  }

  // ---------------------------------------------------------------- variance

  /** What `sumsq / n - mean * mean` computes with truncating divisions, in unbounded arithmetic. */
  function RawVariance(s: seq<byte>): int {
    SumSq(s) / 64 - Sum(s) / 64 * (Sum(s) / 64)
  }

  /** 4096 times the true variance of 64 samples. */
  function Deviation(s: seq<byte>): int {
    64 * SumSq(s) - Sum(s) * Sum(s)
  }

  /** The unsigned subtraction never underflows, and the result fits the 16 bits it needs. */
  lemma VarianceNeverUnderflows(s: seq<byte>)
    requires |s| == 64
    ensures Deviation(s) >= 0
    ensures 0 <= RawVariance(s) <= 65025
  {
    CauchySchwarz(s);
    var q, a := SumSq(s), Sum(s);
    var m := a / 64;
    assert 64 * m <= a;
    SquaresGrow(64 * m, a);
    assert 64 * (64 * (m * m)) == (64 * m) * (64 * m);
    assert 0 <= m * m;
  }

  lemma SquaresGrow(a: nat, b: nat)
    requires a <= b
    ensures a * a <= b * b
  {
    assert a * a <= a * b <= b * b;
  }

  /**
   * How far the computed value is from the true variance: flooring the mean before squaring adds up to about twice
   * the mean, flooring the mean square takes off less than one.
   */
  lemma VarianceError(s: seq<byte>)
    requires |s| == 64
    ensures 4096 * RawVariance(s)
         == Deviation(s) - 64 * (SumSq(s) % 64) + 128 * (Sum(s) / 64) * (Sum(s) % 64) + (Sum(s) % 64) * (Sum(s) % 64)
  {
    var q, a := SumSq(s), Sum(s);
    var m, r := a / 64, a % 64;
    assert a * a == 4096 * (m * m) + 128 * m * r + r * r by {
      assert a == 64 * m + r;
      Expanded(m, r);
    }
  }

  lemma Expanded(m: int, r: int)
    ensures (64 * m + r) * (64 * m + r) == 4096 * (m * m) + 128 * m * r + r * r
  {
    assert (64 * m + r) * (64 * m + r) == 64 * m * (64 * m) + 64 * m * r + r * (64 * m) + r * r;
  }

  lemma Distributed(n: int, x: int)
    ensures (n + 1) * x == n * x + x
  {
  }

  lemma {:induction false} ConstantSums(v: byte, s: seq<byte>)
    requires forall i :: 0 <= i < |s| ==> s[i] == v
    ensures Sum(s) == |s| * v && SumSq(s) == |s| * (v * v)
  {
    if s != [] {
      ConstantSums(v, s[..|s| - 1]);
      Distributed(|s| - 1, v);
      Distributed(|s| - 1, v as int * v);
    }
  }

  /** A flat block has no variance. */
  lemma FlatIsZero(v: byte, s: seq<byte>)
    requires |s| == 64 && forall i :: 0 <= i < |s| ==> s[i] == v
    ensures RawVariance(s) == 0
  {
    ConstantSums(v, s);
  }

  // ---------------------------------------------------------------- median

  predicate Sorted(s: seq<nat>) {
    forall i, j :: 0 <= i < j < |s| ==> s[i] <= s[j]
  }

  /** Insertion from the upper end. */
  function Insert(s: seq<nat>, x: nat): (r: seq<nat>)
    ensures |r| == |s| + 1
  {
    if s == [] || s[|s| - 1] <= x then s + [x] else Insert(s[..|s| - 1], x) + [s[|s| - 1]]
  }

  function Sort(s: seq<nat>): (r: seq<nat>)
    ensures |r| == |s|
  {
    if s == [] then [] else Insert(Sort(s[..|s| - 1]), s[|s| - 1])
  }

  lemma SortedAppend(s: seq<nat>, last: nat)
    requires Sorted(s) && forall i :: 0 <= i < |s| ==> s[i] <= last
    ensures Sorted(s + [last])
  {
  }

  lemma AtMostLast(s: seq<nat>, x: nat, last: nat, t: seq<nat>)
    requires Sorted(s) && s != [] && s[|s| - 1] == last && x <= last
    requires forall i :: 0 <= i < |t| ==> t[i] == x || t[i] in s[..|s| - 1]
    ensures forall i :: 0 <= i < |t| ==> t[i] <= last
  {
  }

  lemma {:induction false} InsertKeepsSorted(s: seq<nat>, x: nat)
    requires Sorted(s)
    ensures Sorted(Insert(s, x))
    ensures forall i :: 0 <= i < |Insert(s, x)| ==> Insert(s, x)[i] == x || Insert(s, x)[i] in s
  {
    if s == [] || s[|s| - 1] <= x {
      SortedAppend(s, x);
    } else {
      var last, init := s[|s| - 1], s[..|s| - 1];
      var t := Insert(init, x);
      assert Sorted(init);
      InsertKeepsSorted(init, x);
      assert Insert(s, x) == t + [last] && s == init + [last];
      hide Insert, Sorted;
      AtMostLast(s, x, last, t);
      SortedAppend(t, last);
    }
  }

  lemma {:induction false} InsertContents(s: seq<nat>, x: nat)
    ensures multiset(Insert(s, x)) == multiset(s) + multiset{x}
  {
    if s != [] && s[|s| - 1] > x {
      InsertContents(s[..|s| - 1], x);
      assert s == s[..|s| - 1] + [s[|s| - 1]];
    }
  }

  /** The sorted values are the values, in order. */
  lemma {:induction false} SortSorts(s: seq<nat>)
    ensures Sorted(Sort(s)) && multiset(Sort(s)) == multiset(s)
  {
    if s != [] {
      SortSorts(s[..|s| - 1]);
      InsertKeepsSorted(Sort(s[..|s| - 1]), s[|s| - 1]);
      InsertContents(Sort(s[..|s| - 1]), s[|s| - 1]);
      assert s == s[..|s| - 1] + [s[|s| - 1]];
    }
  }

  /** The middle of sorted values; the mean of the two middle ones, rounded down, when their number is even. */
  function MiddleOf(s: seq<nat>): nat {
    if s == [] then 0
    else if |s| % 2 == 0 then (s[|s| / 2 - 1] + s[|s| / 2]) / 2
    else s[|s| / 2]
  }

  function Median(s: seq<nat>): nat {
    MiddleOf(Sort(s))
  }

  function CountAbove(s: seq<nat>, m: nat): (n: nat)
    ensures n <= |s|
  {
    if s == [] then 0 else CountAbove(s[..|s| - 1], m) + if s[|s| - 1] > m then 1 else 0
  }

  function CountBelow(s: seq<nat>, m: nat): (n: nat)
    ensures n <= |s|
  {
    if s == [] then 0 else CountBelow(s[..|s| - 1], m) + if s[|s| - 1] < m then 1 else 0
  }

  lemma {:induction false} InsertCounts(s: seq<nat>, x: nat, m: nat)
    ensures CountAbove(Insert(s, x), m) == CountAbove(s, m) + if x > m then 1 else 0
    ensures CountBelow(Insert(s, x), m) == CountBelow(s, m) + if x < m then 1 else 0
  {
    var r := Insert(s, x);
    if s == [] || s[|s| - 1] <= x {
      assert r[..|s|] == s;
    } else {
      InsertCounts(s[..|s| - 1], x, m);
      assert r[..|s|] == Insert(s[..|s| - 1], x);
    }
  }

  lemma {:induction false} SortCounts(s: seq<nat>, m: nat)
    ensures CountAbove(Sort(s), m) == CountAbove(s, m) && CountBelow(Sort(s), m) == CountBelow(s, m)
  {
    if s != [] {
      SortCounts(s[..|s| - 1], m);
      InsertCounts(Sort(s[..|s| - 1]), s[|s| - 1], m);
    }
  }

  /** No more elements of a sorted list are above `m` than come after its last element that is not. */
  lemma {:induction false} SortedAbove(s: seq<nat>, m: nat, k: nat)
    requires Sorted(s) && k <= |s| && (k > 0 ==> s[k - 1] <= m)
    ensures CountAbove(s, m) <= |s| - k
    decreases |s|
  {
    if k == |s| {
      NoneAbove(s, m);
    } else {
      SortedAbove(s[..|s| - 1], m, k);
    }
  }

  lemma {:induction false} NoneAbove(s: seq<nat>, m: nat)
    requires Sorted(s) && (s != [] ==> s[|s| - 1] <= m)
    ensures CountAbove(s, m) == 0
  {
    if |s| > 1 {
      assert s[|s| - 2] <= s[|s| - 1];
      NoneAbove(s[..|s| - 1], m);
    }
  }

  lemma {:induction false} SortedBelow(s: seq<nat>, m: nat, k: nat)
    requires Sorted(s) && k <= |s| && (k < |s| ==> m <= s[k])
    ensures CountBelow(s, m) <= k
    decreases |s|
  {
    if k < |s| {
      SortedBelow(s[..|s| - 1], m, k);
    }
  }

  lemma NothingCounted(m: nat)
    ensures CountAbove([], m) == 0 && CountBelow([], m) == 0
  {
  }

  /** At most half of the values lie strictly above their median, and at most half strictly below it. */
  lemma MedianSplits(s: seq<nat>)
    ensures CountAbove(s, Median(s)) <= |s| / 2
    ensures CountBelow(s, Median(s)) <= |s| / 2
  {
    var t, m := Sort(s), Median(s);
    SortSorts(s);
    SortCounts(s, m);
    hide Sort, CountAbove, CountBelow;
    if s == [] {
      NothingCounted(m);
    } else {
      var mid := |t| / 2;
      if |t| % 2 == 0 {
        assert t[mid - 1] <= m <= t[mid];
        SortedAbove(t, m, mid);
      } else {
        SortedAbove(t, m, mid + 1);
      }
      SortedBelow(t, m, mid);
    }
  }

  lemma LastIsGreatest(t: seq<nat>, x: nat)
    requires Sorted(t) && x in multiset(t)
    ensures t != [] && x <= t[|t| - 1]
  {
  }

  lemma WithoutLast(t: seq<nat>)
    requires t != []
    ensures multiset(t[..|t| - 1]) == multiset(t) - multiset{t[|t| - 1]}
  {
    assert t == t[..|t| - 1] + [t[|t| - 1]];
  }

  lemma SameLast(t: seq<nat>, u: seq<nat>)
    requires Sorted(t) && Sorted(u) && multiset(t) == multiset(u) && t != []
    ensures u != [] && t[|t| - 1] == u[|u| - 1]
  {
    hide Sorted;
    assert t[|t| - 1] in multiset(t);
    LastIsGreatest(u, t[|t| - 1]);
    assert u[|u| - 1] in multiset(u);
    LastIsGreatest(t, u[|u| - 1]);
  }

  lemma SortedInit(t: seq<nat>)
    requires Sorted(t) && t != []
    ensures Sorted(t[..|t| - 1])
  {
  }

  lemma {:induction false} SortedIsUnique(t: seq<nat>, u: seq<nat>)
    requires Sorted(t) && Sorted(u) && multiset(t) == multiset(u)
    ensures t == u
  {
    hide Sorted;
    if t == [] {
      assert |multiset(u)| == 0;
    } else {
      SameLast(t, u);
      WithoutLast(t);
      WithoutLast(u);
      SortedInit(t);
      SortedInit(u);
      SortedIsUnique(t[..|t| - 1], u[..|u| - 1]);
      assert t == t[..|t| - 1] + [t[|t| - 1]] && u == u[..|u| - 1] + [u[|u| - 1]];
    }
  }

  /** However the values are put in order, the median is the middle one, or the floor of the mean of the middle two. */
  lemma MedianIsMiddle(s: seq<nat>, t: seq<nat>)
    requires Sorted(t) && multiset(t) == multiset(s)
    ensures |t| == |s|
    ensures s == [] ==> Median(s) == 0
    ensures |s| % 2 == 1 ==> Median(s) == t[|s| / 2]
    ensures s != [] && |s| % 2 == 0 ==> 0 <= t[|s| / 2 - 1] + t[|s| / 2] - 2 * Median(s) <= 1
  {
    SortSorts(s);
    SortedIsUnique(t, Sort(s));
    hide Sort, Sorted;
  }

  // ---------------------------------------------------------------- deltas

  /** Integer division that truncates towards zero. */
  function TruncDiv(a: int, b: int): int
    requires b > 0
  {
    if a >= 0 then a / b else -(-a / b)
  }

  function Clamp(v: int, lo: int, hi: int): (r: int)
    requires lo <= hi
    ensures lo <= r <= hi
  {
    if v < lo then lo else if v > hi then hi else v
  }

  function AtLeastOne(n: nat): (m: nat)
    ensures m >= 1
  {
    if n == 0 then 1 else n
  }

  function BlockDelta(variance: nat, median: nat, strength: byte, lo: i8, hi: i8): (d: i8)
    requires lo <= hi
  {
    var med := AtLeastOne(median);
    Clamp(TruncDiv(-((variance - med) * AtLeastOne(strength)), med * 4 + 1), lo, hi)
  }

  lemma DivMonotone(a: int, b: int, d: int)
    requires a <= b && d > 0
    ensures TruncDiv(a, d) <= TruncDiv(b, d)
  {
    if 0 <= a {
      FloorMonotone(a, b, d);
    } else if b < 0 {
      FloorMonotone(-b, -a, d);
    } else {
      FloorMonotone(-a, -a, d);
      FloorMonotone(b, b, d);
    }
  }

  lemma FloorMonotone(a: nat, b: nat, d: nat)
    requires a <= b && d > 0
    ensures 0 <= a / d <= b / d
  {
    if a / d > b / d {
      assert d * (a / d) >= d * (b / d + 1) by {
        Product(d, b / d + 1, a / d);
      }
    }
  }

  lemma Product(d: nat, a: int, b: int)
    requires a <= b
    ensures d * a <= d * b
  {
  }

  lemma ClampMonotone(a: int, b: int, lo: int, hi: int)
    requires a <= b && lo <= hi
    ensures Clamp(a, lo, hi) <= Clamp(b, lo, hi)
  {
  }

  /** A busier block never gets a larger delta than a flatter one. */
  lemma DeltaMonotone(v: nat, w: nat, median: nat, strength: byte, lo: i8, hi: i8)
    requires lo <= hi && v <= w
    ensures BlockDelta(w, median, strength, lo, hi) <= BlockDelta(v, median, strength, lo, hi)
  {
    hide TruncDiv;
    var med: int, st: int := AtLeastOne(median), AtLeastOne(strength);
    Product(st, v - med, w - med);
    DivMonotone(-((w - med) * st), -((v - med) * st), med * 4 + 1);
    ClampMonotone(TruncDiv(-((w - med) * st), med * 4 + 1), TruncDiv(-((v - med) * st), med * 4 + 1), lo, hi);
  }

  /** The sign of a delta says on which side of the median, taken as at least one, the variance lies. */
  lemma DeltaSign(v: nat, median: nat, strength: byte, lo: i8, hi: i8)
    requires lo <= 0 <= hi
    ensures BlockDelta(v, median, strength, lo, hi) < 0 ==> v > AtLeastOne(median)
    ensures BlockDelta(v, median, strength, lo, hi) > 0 ==> v < AtLeastOne(median)
  {
    var med := AtLeastOne(median);
    DeltaMonotone(v, if v <= med then med else v, median, strength, lo, hi);
    DeltaMonotone(if v <= med then v else med, v, median, strength, lo, hi);
    assert (med - med) * AtLeastOne(strength) == 0;
    assert TruncDiv(0, med * 4 + 1) == 0;
    assert BlockDelta(med, median, strength, lo, hi) == 0;
  }

  lemma TruncSign(a: int, d: int)
    requires d > 0
    ensures TruncDiv(a, d) < 0 <==> a <= -d
    ensures TruncDiv(a, d) > 0 <==> a >= d
  {
    if a >= d {
      FloorMonotone(d, a, d);
    } else if a <= -d {
      FloorMonotone(d, -a, d);
    }
    assert d / d == 1;
  }

  /** A delta leaves zero exactly when the scaled distance from the median reaches 4 x median + 1. */
  lemma DeltaThreshold(v: nat, median: nat, strength: byte, lo: i8, hi: i8)
    requires lo < 0 < hi
    ensures var med, st := AtLeastOne(median), AtLeastOne(strength);
      && (BlockDelta(v, median, strength, lo, hi) < 0 <==> (v - med) * st >= 4 * med + 1)
      && (BlockDelta(v, median, strength, lo, hi) > 0 <==> (v - med) * st <= -(4 * med + 1))
  {
    var med: int, st: int := AtLeastOne(median), AtLeastOne(strength);
    TruncSign(-((v - med) * st), med * 4 + 1);
    hide TruncDiv;
  }

  /** An unclamped delta is the scaled distance over 4 x median + 1, its sign turned, rounded towards zero. */
  lemma DeltaRounds(v: nat, median: nat, strength: byte, lo: i8, hi: i8)
    requires lo <= hi
    ensures var med, st := AtLeastOne(median), AtLeastOne(strength);
      var d := BlockDelta(v, median, strength, lo, hi);
      lo < d < hi ==>
        && -(4 * med + 1) < d * (4 * med + 1) + (v - med) * st < 4 * med + 1
        && (d > 0 ==> d * (4 * med + 1) + (v - med) * st <= 0)
        && (d < 0 ==> d * (4 * med + 1) + (v - med) * st >= 0)
  {
    var med: int, st: int := AtLeastOne(median), AtLeastOne(strength);
    TruncRounds(-((v - med) * st), med * 4 + 1);
    hide TruncDiv;
  }

  lemma FloorRounds(a: nat, d: nat)
    requires d > 0
    ensures a / d >= 0 && 0 <= a - a / d * d < d
  {
    assert a == d * (a / d) + a % d;
  }

  lemma NegatedProduct(q: int, d: int)
    ensures -q * d == -(q * d)
  {
  }

  lemma TruncRounds(a: int, d: int)
    requires d > 0
    ensures -d < TruncDiv(a, d) * d - a < d
    ensures TruncDiv(a, d) > 0 ==> TruncDiv(a, d) * d <= a
    ensures TruncDiv(a, d) < 0 ==> TruncDiv(a, d) * d >= a
  {
    if a >= 0 {
      FloorRounds(a, d);
    } else {
      FloorRounds(-a, d);
      NegatedProduct(-a / d, d);
    }
  }

  function CountNegative(deltas: seq<i8>): nat {
    if deltas == [] then 0 else CountNegative(deltas[..|deltas| - 1]) + if deltas[|deltas| - 1] < 0 then 1 else 0
  }

  function CountPositive(deltas: seq<i8>): nat {
    if deltas == [] then 0 else CountPositive(deltas[..|deltas| - 1]) + if deltas[|deltas| - 1] > 0 then 1 else 0
  }

  function Deltas(vars: seq<nat>, median: nat, strength: byte, lo: i8, hi: i8): (d: seq<i8>)
    requires lo <= hi
  {
    seq<i8>(|vars|, i requires 0 <= i < |vars| => BlockDelta(vars[i], median, strength, lo, hi))
  }

  lemma {:induction false} SignCounts(vars: seq<nat>, median: nat, strength: byte, lo: i8, hi: i8)
    requires lo <= 0 <= hi
    ensures CountNegative(Deltas(vars, median, strength, lo, hi)) <= CountAbove(vars, AtLeastOne(median))
    ensures CountPositive(Deltas(vars, median, strength, lo, hi)) <= CountBelow(vars, AtLeastOne(median))
  {
    if vars != [] {
      var n := |vars| - 1;
      var d := Deltas(vars, median, strength, lo, hi);
      assert d[..n] == Deltas(vars[..n], median, strength, lo, hi);
      SignCounts(vars[..n], median, strength, lo, hi);
      DeltaSign(vars[n], median, strength, lo, hi);
    }
  }

  lemma {:induction false} CountAboveShrinks(s: seq<nat>, a: nat, b: nat)
    requires a <= b
    ensures CountAbove(s, b) <= CountAbove(s, a)
  {
    if s != [] {
      CountAboveShrinks(s[..|s| - 1], a, b);
    }
  }

  /** With a zero median a block gets a positive delta exactly when it is flat and the strength reaches five. */
  lemma ZeroMedian(v: nat, strength: byte, lo: i8, hi: i8)
    requires lo <= 0 <= hi
    ensures BlockDelta(v, 0, strength, lo, hi) > 0 <==> v == 0 && strength >= 5 && hi > 0
  {
    DeltaSign(v, 0, strength, lo, hi);
  }

  /** How many of the variances are zero. */
  function Flats(vars: seq<nat>): (n: nat)
    ensures n <= |vars|
  {
    if vars == [] then 0 else Flats(vars[..|vars| - 1]) + if vars[|vars| - 1] == 0 then 1 else 0
  }

  /** With a zero median the blocks that are coarsened are all the flat ones, or none. */
  lemma {:induction false} ZeroMedianCounts(vars: seq<nat>, strength: byte, lo: i8, hi: i8)
    requires lo <= 0 <= hi
    ensures CountPositive(Deltas(vars, 0, strength, lo, hi)) == if strength >= 5 && hi > 0 then Flats(vars) else 0
  {
    if vars != [] {
      var n := |vars| - 1;
      var d := Deltas(vars, 0, strength, lo, hi);
      assert d[..n] == Deltas(vars[..n], 0, strength, lo, hi);
      ZeroMedianCounts(vars[..n], strength, lo, hi);
      ZeroMedian(vars[n], strength, lo, hi);
    }
  }

  /** When at most half of a plane's blocks are coarsened. */
  predicate HalfCoarsened(vars: seq<nat>, strength: byte, hi: i8) {
    Median(vars) >= 1 || strength < 5 || hi == 0 || Flats(vars) <= |vars| / 2
  }

  /**
   * At most half of a plane's blocks get finer quantisation. At most half get coarser quantisation exactly when the
   * median variance is not zero, or the strength is below five, or no positive delta is allowed, or at most half of
   * the blocks are flat.
   */
  lemma HalfAndHalf(vars: seq<nat>, strength: byte, lo: i8, hi: i8)
    requires lo <= 0 <= hi
    ensures CountNegative(Deltas(vars, Median(vars), strength, lo, hi)) <= |vars| / 2
    ensures CountPositive(Deltas(vars, Median(vars), strength, lo, hi)) <= |vars| / 2 <==>
      HalfCoarsened(vars, strength, hi)
  {
    hide Median;
    var m := Median(vars);
    SignCounts(vars, m, strength, lo, hi);
    CountAboveShrinks(vars, m, AtLeastOne(m));
    MedianSplits(vars);
    ZeroMedianCounts(vars, strength, lo, hi);
  }

  lemma {:induction false} AllFlat(vars: seq<nat>)
    requires forall i :: 0 <= i < |vars| ==> vars[i] == 0
    ensures Sort(vars) == vars && Flats(vars) == |vars|
  {
    if vars != [] {
      AllFlat(vars[..|vars| - 1]);
      assert vars == vars[..|vars| - 1] + [vars[|vars| - 1]];
    }
  }

  /** Where all blocks are flat, all of them are coarsened once the strength reaches five. */
  lemma AllFlatAllCoarsened(vars: seq<nat>, strength: byte, lo: i8, hi: i8)
    requires lo <= 0 < hi && strength >= 5 && forall i :: 0 <= i < |vars| ==> vars[i] == 0
    ensures Median(vars) == 0 && CountPositive(Deltas(vars, Median(vars), strength, lo, hi)) == |vars|
  {
    AllFlat(vars);
    ZeroMedianCounts(vars, strength, lo, hi);
  }

  // ---------------------------------------------------------------- effective QP

  predicate ValidClip(clipMin: byte, clipMax: byte) {
    1 <= clipMin <= clipMax <= 51
  }

  function EffectiveQp(baseQp: byte, delta: i8, clipMin: byte, clipMax: byte): (qp: byte)
    requires clipMin <= clipMax
  {
    Clamp(Clamp(baseQp as int + delta, clipMin, clipMax), 1, 51)
  }

  /** Whatever the clip range, the effective QP is one the transform takes. */
  lemma QpIsLegal(baseQp: byte, delta: i8, clipMin: byte, clipMax: byte)
    requires clipMin <= clipMax
    ensures 1 <= EffectiveQp(baseQp, delta, clipMin, clipMax) <= 51
    ensures clipMin > 51 ==> EffectiveQp(baseQp, delta, clipMin, clipMax) == 51
    ensures clipMax == 0 ==> EffectiveQp(baseQp, delta, clipMin, clipMax) == 1
  {
  }

  /** The effective QP stays in any valid clip range, follows the delta inside it, and grows with the delta. */
  lemma QpInRange(baseQp: byte, delta: i8, larger: i8, clipMin: byte, clipMax: byte)
    requires ValidClip(clipMin, clipMax) && delta <= larger
    ensures clipMin <= EffectiveQp(baseQp, delta, clipMin, clipMax) <= clipMax
    ensures clipMin <= baseQp as int + delta <= clipMax ==>
      EffectiveQp(baseQp, delta, clipMin, clipMax) == baseQp as int + delta
    ensures EffectiveQp(baseQp, delta, clipMin, clipMax) <= EffectiveQp(baseQp, larger, clipMin, clipMax)
  {
  }

  /** Detail preservation end to end: of two blocks of a plane the busier is quantised no more coarsely. */
  lemma BusierIsFiner(v: nat, w: nat, median: nat, strength: byte, lo: i8, hi: i8, baseQp: byte, clipMin: byte,
                      clipMax: byte)
    requires lo <= hi && v <= w && ValidClip(clipMin, clipMax)
    ensures EffectiveQp(baseQp, BlockDelta(w, median, strength, lo, hi), clipMin, clipMax)
         <= EffectiveQp(baseQp, BlockDelta(v, median, strength, lo, hi), clipMin, clipMax)
  {
    DeltaMonotone(v, w, median, strength, lo, hi);
  }
}
