/** Bucket boundaries of histograms (src/chromium/metrics/histogram.cc). `double` is modelled
    by real numbers, the root by its defining equation over the integers. */
module HistogramLayout {

  const SAMPLE_MAX := 0x7fff_ffff

  /** What `FactoryGet` demands of its arguments, once it has clamped them. */
  predicate Declared(min: int, max: int, buckets: int) {
    1 <= min < max < SAMPLE_MAX && 2 < buckets <= max - min + 2
  }

  ghost predicate Increasing(r: seq<int>) {
    forall i, j :: 0 <= i < j < |r| ==> r[i] < r[j]
  }

  /** A layout starts with the underflow bucket and ends with the guard. */
  ghost predicate IsLayout(r: seq<int>, min: int, max: int, buckets: int) {
    && buckets > 2 && |r| == buckets + 1 && Increasing(r)
    && r[0] == 0 && r[1] == min && r[buckets - 1] == max && r[buckets] == SAMPLE_MAX
  }

  // ---- Powers ----------------------------------------------------------------------------

  function Pow(b: nat, k: nat): nat {
    if k == 0 then 1 else b * Pow(b, k - 1)
  }

  lemma {:induction false} PowMonotone(a: nat, b: nat, k: nat)
    requires a <= b
    ensures Pow(a, k) <= Pow(b, k)
  {
    if k > 0 {
      PowMonotone(a, b, k - 1);
      MulMonotone(a, b, Pow(a, k - 1), Pow(b, k - 1));
    }
  }

  lemma {:induction false} PowStrict(a: nat, b: nat, k: nat)
    requires a < b && k > 0
    ensures Pow(a, k) < Pow(b, k)
  {
    PowMonotone(a, b, k - 1);
    PowPositive(b, k - 1);
    calc {
      a * Pow(a, k - 1);
    <= { MulMonotone(a, a, Pow(a, k - 1), Pow(b, k - 1)); }
      a * Pow(b, k - 1);
    < { MulStrict(a, b, Pow(b, k - 1)); }
      b * Pow(b, k - 1);
    }
  }

  lemma {:induction false} PowPositive(b: nat, k: nat)
    requires b > 0
    ensures Pow(b, k) > 0
  {
    if k > 0 {
      PowPositive(b, k - 1);
      MulStrict(0, b, Pow(b, k - 1));
    }
  }

  lemma MulMonotone(a: nat, b: nat, x: nat, y: nat)
    requires a <= b && x <= y
    ensures a * x <= b * y
  {
    assert b * y - a * x == b * (y - x) + (b - a) * x;
  }

  lemma MulStrict(a: nat, b: nat, x: nat)
    requires a < b && x > 0
    ensures a * x < b * x
  {
    assert b * x - a * x == (b - a) * x;
  }

  lemma MulRegroup(a: nat, b: nat, x: nat, y: nat)
    ensures a * b * (x * y) == a * x * (b * y)
  {
    calc {
      a * b * (x * y);
      a * (b * (x * y));
      { assert b * (x * y) == x * (b * y); }
      a * (x * (b * y));
      a * x * (b * y);
    }
  }

  lemma {:induction false} PowOfProduct(a: nat, b: nat, k: nat)
    ensures Pow(a * b, k) == Pow(a, k) * Pow(b, k)
  {
    if k > 0 {
      PowOfProduct(a, b, k - 1);
      var x, y := Pow(a, k - 1), Pow(b, k - 1);
      MulRegroup(a, b, x, y);
    }
  }

  /** Bernoulli's inequality. */
  lemma {:induction false} Bernoulli(a: nat, k: nat)
    requires k > 0
    ensures (a + k) * Pow(a, k - 1) <= Pow(a + 1, k)
  {
    if k == 1 {
      assert Pow(a, 0) == 1 && Pow(a + 1, 0) == 1 && Pow(a + 1, 1) == a + 1;
    } else {
      Bernoulli(a, k - 1);
      var p := Pow(a, k - 2);
      assert Pow(a, k - 1) == a * p;
      calc {
        (a + k) * (a * p);
      <= { assert (a + 1) * ((a + k - 1) * p) - (a + k) * (a * p) == (k - 1) * p; }
        (a + 1) * ((a + k - 1) * p);
      <= { MulMonotone(a + 1, a + 1, (a + (k - 1)) * p, Pow(a + 1, k - 1)); }
        (a + 1) * Pow(a + 1, k - 1);
      }
    }
  }

  // ---- Exponential layout ----------------------------------------------------------------

  /** 2^k times the k-th power of where the next bucket would start: the root is the geometric
      step that reaches `max` from `current` in `k` equal ratios. */
  function Scaled(current: nat, max: nat, k: nat): nat
    requires k > 0
  {
    Pow(2, k) * (max * Pow(current, k - 1))
  }

  /** `m` is at most the root plus one half. */
  predicate Reaches(m: nat, current: nat, max: nat, k: nat)
    requires k > 0
  {
    m == 0 || Pow(2 * m - 1, k) <= Scaled(current, max, k)
  }

  /** `floor(exp(log_next) + 0.5)`: the largest such `m`, which is no more than `max`. */
  function Rounded(current: nat, max: nat, k: nat, bound: nat): (m: nat)
    requires k > 0
    ensures Reaches(m, current, max, k) && m <= bound
    ensures m < bound ==> !Reaches(m + 1, current, max, k)
    decreases bound
  {
    if Reaches(bound, current, max, k) then bound else Rounded(current, max, k, bound - 1)
  }

  /** With `k` buckets to go and room for them, the step leaves room for the others. */
  lemma LeavesRoom(m: nat, current: nat, max: nat, k: nat)
    requires k > 0 && 1 <= current && max - current >= k && Reaches(m, current, max, k)
    ensures m <= max - (k - 1)
  {
    var target := max - (k - 1);
    if m > target {
      RootBelow(current, max, k);
      PowStrict(2 * target, 2 * m - 1, k);
    }
  }

  /** The root does not pass the last boundary that leaves room. */
  lemma RootBelow(current: nat, max: nat, k: nat)
    requires k > 0 && 1 <= current && max - current >= k
    ensures Scaled(current, max, k) <= Pow(2 * (max - (k - 1)), k)
  {
    var a: nat := max - k;
    PowMonotone(current, a, k - 1);
    MulMonotone(max, max, Pow(current, k - 1), Pow(a, k - 1));
    Bernoulli(a, k);
    MulMonotone(Pow(2, k), Pow(2, k), max * Pow(current, k - 1), Pow(a + 1, k));
    PowOfProduct(2, a + 1, k);
  }

  /** The last step lands on the maximum. */
  lemma LastStep(current: nat, max: nat)
    requires 1 <= current < max
    ensures Reaches(max, current, max, 1)
  {
    assert Pow(2, 1) == 2 && Pow(current, 0) == 1 && Pow(2 * max - 1, 1) == 2 * max - 1;
  }

  /** The boundary after `current`: the rounded root, or one more when that is no progress. */
  function Next(current: nat, max: nat, k: nat): (next: nat)
    requires k > 0 && 1 <= current && max - current >= k
    ensures current < next && max - next >= k - 1
    ensures k == 1 ==> next == max
  {
    var m := Rounded(current, max, k, max);
    LeavesRoom(m, current, max, k);
    assert k == 1 ==> m == max by { if k == 1 { LastStep(current, max); } }
    if m > current then m else current + 1
  }

  /** The `k` boundaries after `current`. */
  function Boundaries(current: nat, max: nat, k: nat): (r: seq<int>)
    requires 1 <= current && max - current >= k
    ensures |r| == k
    decreases k
  {
    if k == 0 then [] else
      var next := Next(current, max, k);
      [next] + Boundaries(next, max, k - 1)
  }

  lemma BoundariesStep(current: nat, max: nat, k: nat, before: seq<int>, guard: seq<int>)
    requires k > 0 && 1 <= current && max - current >= k
    ensures var m := Rounded(current, max, k, max); var next := if m > current then m else current + 1;
            && max - next >= k - 1
            && before + Boundaries(current, max, k) + guard == before + [next] + Boundaries(next, max, k - 1) + guard
  {
    var next := Next(current, max, k);
    assert Boundaries(current, max, k) == [next] + Boundaries(next, max, k - 1);
    assert before + ([next] + Boundaries(next, max, k - 1)) == before + [next] + Boundaries(next, max, k - 1);
  }

  lemma NoBoundaries(current: nat, max: nat, before: seq<int>)
    requires 1 <= current <= max
    ensures before + Boundaries(current, max, 0) == before
  {
  }

  lemma {:induction false} BoundariesIncrease(current: nat, max: nat, k: nat)
    requires 1 <= current && max - current >= k
    ensures Increasing([current as int] + Boundaries(current, max, k))
    ensures k > 0 ==> Boundaries(current, max, k)[k - 1] == max
    decreases k
  {
    if k > 0 {
      var next := Next(current, max, k);
      BoundariesIncrease(next, max, k - 1);
      var rest := [next as int] + Boundaries(next, max, k - 1);
      assert Boundaries(current, max, k) == rest;
      var all := [current as int] + rest;
      forall i, j | 0 <= i < j < |all| ensures all[i] < all[j] {
        assert all[j] == rest[j - 1];
        if i == 0 {
          assert rest[0] <= rest[j - 1];
        } else {
          assert all[i] == rest[i - 1];
        }
      }
    }
  }

  function Exponential(min: nat, max: nat, buckets: nat): seq<int>
    requires Declared(min, max, buckets)
  {
    [0, min] + Boundaries(min, max, buckets - 2) + [SAMPLE_MAX]
  }

  /** Whatever minimum, maximum and bucket count are accepted, the boundaries increase strictly
      from 0 and the minimum to the maximum and the guard. */
  lemma ExponentialIsLayout(min: nat, max: nat, buckets: nat)
    requires Declared(min, max, buckets)
    ensures IsLayout(Exponential(min, max, buckets), min, max, buckets)
  {
    var b := [min as int] + Boundaries(min, max, buckets - 2);
    BoundariesIncrease(min, max, buckets - 2);
    var r := Exponential(min, max, buckets);
    assert r == [0] + b + [SAMPLE_MAX];
    assert b[buckets - 2] == max;
    forall i, j | 0 <= i < j < |r| ensures r[i] < r[j] {
      if i > 0 && j < buckets {
        assert r[i] == b[i - 1] && r[j] == b[j - 1];
      } else if i > 0 {
        assert r[i] == b[i - 1] && b[i - 1] <= b[buckets - 2];
      } else if j < buckets {
        assert r[j] == b[j - 1] && b[0] <= b[j - 1];
      }
    }
  }

  function RealPow(x: real, k: nat): real {
    if k == 0 then 1.0 else x * RealPow(x, k - 1)
  }

  lemma {:induction false} RealPowMonotone(x: real, y: real, k: nat)
    requires 0.0 <= x <= y
    ensures 0.0 <= RealPow(x, k) <= RealPow(y, k)
  {
    if k > 0 {
      RealPowMonotone(x, y, k - 1);
      RealMulMonotone(x, y, RealPow(x, k - 1), RealPow(y, k - 1));
    }
  }

  lemma RealMulMonotone(a: real, b: real, x: real, y: real)
    requires 0.0 <= a <= b && 0.0 <= x <= y
    ensures 0.0 <= a * x <= b * y
  {
    assert b * y - a * x == b * (y - x) + (b - a) * x;
  }

  lemma {:induction false} RealPowStrict(x: real, y: real, k: nat)
    requires 0.0 <= x < y && k > 0
    ensures RealPow(x, k) < RealPow(y, k)
  {
    if k == 1 {
      assert RealPow(x, 0) == 1.0 && RealPow(y, 0) == 1.0;
    } else {
      RealPowStrict(x, y, k - 1);
      var p, q := RealPow(x, k - 1), RealPow(y, k - 1);
      RealPowMonotone(0.0, x, k - 1);
      assert y * q - x * p == y * (q - p) + (y - x) * p;
      assert y * (q - p) > 0.0 && (y - x) * p >= 0.0;
    }
  }

  lemma {:induction false} RealPowOfInt(b: nat, k: nat)
    ensures RealPow(b as real, k) == Pow(b, k) as real
  {
    if k > 0 {
      RealPowOfInt(b, k - 1);
      assert (b * Pow(b, k - 1)) as real == b as real * Pow(b, k - 1) as real;
    }
  }

  lemma {:induction false} RealPowOfDouble(x: real, k: nat)
    ensures RealPow(2.0 * x, k) == Pow(2, k) as real * RealPow(x, k)
  {
    if k > 0 {
      RealPowOfDouble(x, k - 1);
      var p, q := Pow(2, k - 1) as real, RealPow(x, k - 1);
      assert 2.0 * x * (p * q) == (2.0 * p) * (x * q);
      assert Pow(2, k) as real == 2.0 * p;
    }
  }

  /** `x` is `exp(log_next)`: the k-th root of the last ratio. */
  ghost predicate IsRoot(x: real, current: nat, max: nat, k: nat)
    requires k > 0
  {
    x >= 0.0 && RealPow(x, k) == (max * Pow(current, k - 1)) as real
  }

  lemma ScaledIsPower(x: real, current: nat, max: nat, k: nat)
    requires k > 0 && IsRoot(x, current, max, k)
    ensures RealPow(2.0 * x, k) == Scaled(current, max, k) as real
  {
    hide RealPow, Pow;
    RealPowOfDouble(x, k);
    var a, b := Pow(2, k), max * Pow(current, k - 1);
    assert (a * b) as real == a as real * b as real;
  }

  lemma ReachesRoot(x: real, m: nat, current: nat, max: nat, k: nat)
    requires k > 0 && IsRoot(x, current, max, k) && m > 0
    ensures Reaches(m, current, max, k) <==> m as real <= x + 0.5
  {
    hide RealPow, Pow, Scaled;
    var y := (2 * m - 1) as real;
    RealPowOfInt(2 * m - 1, k);
    ScaledIsPower(x, current, max, k);
    if y <= 2.0 * x {
      RealPowMonotone(y, 2.0 * x, k);
    } else {
      RealPowStrict(2.0 * x, y, k);
    }
  }

  /** The integer rule is the rounding of the real root. */
  lemma RoundedRoot(x: real, current: nat, max: nat, k: nat)
    requires k > 0 && 1 <= current && max - current >= k && IsRoot(x, current, max, k)
    ensures Rounded(current, max, k, max) == (x + 0.5).Floor
  {
    var m := Rounded(current, max, k, max);
    if m > 0 { ReachesRoot(x, m, current, max, k); }
    ReachesRoot(x, m + 1, current, max, k);
    if Reaches(m + 1, current, max, k) { LeavesRoom(m + 1, current, max, k); }
  }

  /** The boundary `n` places before the maximum, and the one behind it. */
  lemma {:induction false} BoundaryStep(current: nat, max: nat, k: nat, i: nat)
    requires 1 <= current && max - current >= k && i < k
    ensures var all := [current as int] + Boundaries(current, max, k);
            && 1 <= all[i] && max - all[i] >= k - i && all[i + 1] == Next(all[i], max, k - i)
    decreases k
  {
    hide Next;
    var next := Next(current, max, k);
    var all, rest := [current as int] + Boundaries(current, max, k), [next as int] + Boundaries(next, max, k - 1);
    assert Boundaries(current, max, k) == rest;
    NextRises(current, max, k);
    if i > 0 {
      BoundaryStep(next, max, k - 1, i - 1);
      assert all[i] == rest[i - 1] && all[i + 1] == rest[i];
    }
  }

  lemma NextRises(current: nat, max: nat, k: nat)
    requires k > 0 && 1 <= current && max - current >= k
    ensures current < Next(current, max, k) && max - Next(current, max, k) >= k - 1
  {
  }

  /** Half the odd number is no more than the root: in integers, its power is no more than that of
      twice the root. */
  predicate Under(odd: nat, current: nat, max: nat, k: nat)
    requires k > 0
  {
    Pow(odd, k) <= Pow(2, k) * (max * Pow(current, k - 1))
  }

  /** From one boundary to the next: with `k` boundaries to go, the step is the `k`-th root of the
      ratio that is left, rounded to the nearest integer, halves up, or one where that is no step. */
  lemma ExponentialStep(min: nat, max: nat, buckets: nat, i: nat)
    requires Declared(min, max, buckets) && 1 <= i < buckets - 1
    ensures var r := Exponential(min, max, buckets); var k := buckets - 1 - i;
            && 1 <= r[i] < r[i + 1]
            && (r[i + 1] == r[i] + 1 || Under(2 * r[i + 1] - 1, r[i], max, k))
            && !Under(2 * r[i + 1] + 1, r[i], max, k)
  {
    var r := Exponential(min, max, buckets);
    var b := [min as int] + Boundaries(min, max, buckets - 2);
    BoundaryStep(min, max, buckets - 2, i - 1);
    assert r == [0] + b + [SAMPLE_MAX];
    assert r[i] == b[i - 1] && r[i + 1] == b[i];
    NextIs(b[i - 1], max, buckets - 1 - i);
  }

  lemma NextIs(current: nat, max: nat, k: nat)
    requires k > 0 && 1 <= current && max - current >= k
    ensures var next := Next(current, max, k);
            && current < next && (next == current + 1 || Under(2 * next - 1, current, max, k))
            && !Under(2 * next + 1, current, max, k)
  {
    hide Pow;
    var m, next := Rounded(current, max, k, max), Next(current, max, k);
    if m < max {
      assert !Reaches(m + 1, current, max, k);
      PowMonotone(2 * m + 1, 2 * next + 1, k);
    } else {
      LeavesRoom(m, current, max, k);
      if Reaches(max + 1, current, max, k) { LeavesRoom(max + 1, current, max, k); }
    }
  }

  /** The same in terms of the root itself. */
  lemma ExponentialStepRoot(min: nat, max: nat, buckets: nat, i: nat, x: real)
    requires Declared(min, max, buckets) && 1 <= i < buckets - 1 && Exponential(min, max, buckets)[i] >= 1
    requires IsRoot(x, Exponential(min, max, buckets)[i], max, buckets - 1 - i)
    ensures var r := Exponential(min, max, buckets); var m := (x + 0.5).Floor;
            r[i + 1] == if m > r[i] then m else r[i] + 1
  {
    var r := Exponential(min, max, buckets);
    var b := [min as int] + Boundaries(min, max, buckets - 2);
    BoundaryStep(min, max, buckets - 2, i - 1);
    assert r == [0] + b + [SAMPLE_MAX];
    assert r[i] == b[i - 1] && r[i + 1] == b[i];
    RoundedRoot(x, r[i], max, buckets - 1 - i);
  }

  // ---- Linear layout ---------------------------------------------------------------------

  function LinearBoundary(min: int, max: int, buckets: int, i: int): int
    requires buckets > 2
  {
    ((min * (buckets - 1 - i) + max * (i - 1)) as real / (buckets - 2) as real + 0.5).Floor
  }

  function Linear(min: int, max: int, buckets: nat): (r: seq<int>)
    requires buckets > 2
    ensures |r| == buckets + 1
  {
    [0] + seq(buckets - 1, i => LinearBoundary(min, max, buckets, i + 1)) + [SAMPLE_MAX]
  }

  /** Next to each other, two boundaries are at least one apart before rounding. */
  lemma LinearStep(min: int, max: int, buckets: int, i: int)
    requires Declared(min, max, buckets)
    ensures LinearBoundary(min, max, buckets, i) < LinearBoundary(min, max, buckets, i + 1)
  {
    var a := min * (buckets - 1 - i) + max * (i - 1);
    var b := min * (buckets - 1 - (i + 1)) + max * (i + 1 - 1);
    assert b - a == max - min;
    var d := (buckets - 2) as real;
    assert b as real / d == a as real / d + (max - min) as real / d by {
      assert b as real == a as real + (max - min) as real;
      DivAdds(a as real, (max - min) as real, d);
    }
    assert (max - min) as real / d >= 1.0 by { DivAtLeastOne((max - min) as real, d); }
  }

  lemma DivAdds(a: real, b: real, d: real)
    requires d > 0.0
    ensures (a + b) / d == a / d + b / d
  {
  }

  lemma DivAtLeastOne(a: real, d: real)
    requires a >= d > 0.0
    ensures a / d >= 1.0
  {
  }

  lemma LinearEnds(min: int, max: int, buckets: int)
    requires buckets > 2
    ensures LinearBoundary(min, max, buckets, 1) == min && LinearBoundary(min, max, buckets, buckets - 1) == max
  {
    var d := buckets - 2;
    assert min * (buckets - 1 - 1) + max * (1 - 1) == min * d;
    assert min * (buckets - 1 - (buckets - 1)) + max * (buckets - 1 - 1) == max * d;
    DivBack(min, d);
    DivBack(max, d);
  }

  lemma DivBack(a: int, d: int)
    requires d > 0
    ensures (a * d) as real / d as real == a as real
  {
    assert (a * d) as real == a as real * d as real;
  }

  lemma {:induction false} LinearIncreases(min: int, max: int, buckets: int, i: int, j: int)
    requires Declared(min, max, buckets) && i < j
    ensures LinearBoundary(min, max, buckets, i) < LinearBoundary(min, max, buckets, j)
    decreases j - i
  {
    LinearStep(min, max, buckets, i);
    if i + 1 < j { LinearIncreases(min, max, buckets, i + 1, j); }
  }

  lemma LinearIsLayout(min: int, max: int, buckets: int)
    requires Declared(min, max, buckets)
    ensures IsLayout(Linear(min, max, buckets), min, max, buckets)
  {
    hide LinearBoundary;
    LinearEnds(min, max, buckets);
    var r := Linear(min, max, buckets);
    forall i, j | 0 <= i < j < |r| ensures r[i] < r[j] {
      if 1 <= i && j < buckets {
        LinearIncreases(min, max, buckets, i, j);
      } else if 1 < j < buckets {
        LinearIncreases(min, max, buckets, 1, j);
      } else if 1 <= i < buckets - 1 {
        LinearIncreases(min, max, buckets, i, buckets - 1);
      }
    }
  }

  /** Where a boundary would be on the line from the minimum to the maximum. */
  function OnLine(min: int, max: int, buckets: int, i: int): real
    requires buckets > 2
  {
    min as real + ((max - min) * (i - 1)) as real / (buckets - 2) as real
  }

  lemma LinearExact(min: int, max: int, buckets: int, i: int)
    requires buckets > 2
    ensures LinearBoundary(min, max, buckets, i) == (OnLine(min, max, buckets, i) + 0.5).Floor
  {
    var d := buckets - 2;
    Interpolates(min, max, buckets, i);
    var x, y := min * d, (max - min) * (i - 1);
    assert (x + y) as real == x as real + y as real;
    DivAdds(x as real, y as real, d as real);
    DivBack(min, d);
  }

  lemma Interpolates(min: int, max: int, buckets: int, i: int)
    ensures min * (buckets - 1 - i) + max * (i - 1) == min * (buckets - 2) + (max - min) * (i - 1)
  {
    var n, j := buckets - 2, i - 1;
    assert min * (n - j) + max * j == min * n + (max - min) * j;
  }

  /** Every boundary is the nearest integer to its place on that line, halves going up. */
  lemma LinearNearest(min: int, max: int, buckets: int, i: int)
    requires Declared(min, max, buckets) && 1 <= i < buckets
    ensures var r := Linear(min, max, buckets)[i] as real;
            r - 0.5 <= min as real + ((max - min) * (i - 1)) as real / (buckets - 2) as real < r + 0.5
  {
    hide LinearBoundary;
    LinearExact(min, max, buckets, i);
  }

  /** An enumeration has a bucket for each value below its boundary, and one for the rest. */
  lemma EnumerationBuckets(boundary: int, v: int)
    requires 2 <= boundary < SAMPLE_MAX && 0 <= v <= boundary
    ensures Declared(1, boundary, boundary + 1) && Linear(1, boundary, boundary + 1)[v] == v
  {
    if v > 0 {
      var d := boundary - 1;
      assert 1 * (boundary + 1 - 1 - v) + boundary * (v - 1) == v * d;
      DivBack(v, d);
    }
  }
}
