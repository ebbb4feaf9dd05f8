/** Histograms and their samples (src/chromium/metrics/histogram.cc). */
module Histogram {
  import opened HistogramLayout
  import Crc

  // ---- Specification ---------------------------------------------------------------------

  function Clamp(value: int): int {
    if value > SAMPLE_MAX - 1 then SAMPLE_MAX - 1 else if value < 0 then 0 else value
  }

  /** A value that is no sample counts as the nearest one that is; all others as themselves. */
  lemma ClampNearest(value: int, other: int)
    requires 0 <= other <= 0x7fff_fffe
    ensures 0 <= Clamp(value) <= 0x7fff_fffe
    ensures value <= other ==> value <= Clamp(value) <= other || Clamp(value) == value
    ensures other <= value ==> other <= Clamp(value) <= value || Clamp(value) == value
    ensures 0 <= value <= 0x7fff_fffe ==> Clamp(value) == value
  {
  }

  function Clamped(values: seq<int>): seq<int> {
    seq(|values|, i requires 0 <= i < |values| => Clamp(values[i]))
  }

  /** How many of the values lie in a half-open interval. */
  function CountIn(values: seq<int>, low: int, high: int): nat {
    if values == [] then 0
    else CountIn(values[..|values| - 1], low, high) + if low <= values[|values| - 1] < high then 1 else 0
  }

  function Sum(values: seq<int>): int {
    if values == [] then 0 else Sum(values[..|values| - 1]) + values[|values| - 1]
  }

  /** The contents of a sample set. */
  datatype Samples = Samples(counts: seq<int>, sum: int, redundantCount: int)

  function Plus(a: Samples, b: Samples): Samples
    requires |a.counts| == |b.counts|
  {
    Samples(seq(|a.counts|, i requires 0 <= i < |a.counts| => a.counts[i] + b.counts[i]), a.sum + b.sum,
            a.redundantCount + b.redundantCount)
  }

  function Minus(a: Samples, b: Samples): Samples
    requires |a.counts| == |b.counts|
  {
    Samples(seq(|a.counts|, i requires 0 <= i < |a.counts| => a.counts[i] - b.counts[i]), a.sum - b.sum,
            a.redundantCount - b.redundantCount)
  }

  /** What a histogram with boundaries `r` holds after the values of the log. */
  function Tally(r: seq<int>, log: seq<int>): Samples
    requires |r| > 0
  {
    Samples(seq(|r| - 1, b requires 0 <= b < |r| - 1 => CountIn(log, r[b], r[b + 1])), Sum(log), |log|)
  }

  predicate AllSamples(r: seq<int>) {
    forall i :: 0 <= i < |r| ==> Crc.IsSample(r[i])
  }

  function Words(r: seq<int>): seq<bv32>
    requires AllSamples(r)
  {
    seq(|r|, i requires 0 <= i < |r| => Crc.Word(r[i]))
  }

  /** The checksum covers all entries but the guard, and the size. */
  function Checksum(r: seq<int>): bv32
    requires AllSamples(r) && 0 < |r| < 0x1_0000_0000
  {
    Crc.ChecksumFrom(Crc.Bits(|r|, 32), Words(r[..|r| - 1]))
  }

  datatype Inconsistencies = Inconsistencies(rangeChecksum: bool, bucketOrder: bool, countHigh: bool, countLow: bool)

  const NO_INCONSISTENCIES := Inconsistencies(false, false, false, false)

  /** Exactly when `FindCorruption` complains. A difference too low for an `int` is flagged as
      the highest one. The lowest `int` itself is not flagged, if its negation, which the language
      leaves undefined, wraps around. */
  ghost function Corruption(r: seq<int>, checksum: bv32, snapshot: Samples): Inconsistencies
    requires AllSamples(r) && 0 < |r| < 0x1_0000_0000 && |snapshot.counts| == |r| - 1
  {
    var delta := snapshot.redundantCount - Sum(snapshot.counts);
    Inconsistencies(
      Checksum(r) != checksum,
      !Increasing([-1] + r[..|r| - 1]),
      delta > 1 || delta < -0x8000_0000,
      -0x8000_0000 < delta < -1)
  }

  /** The 32-bit difference goes unnoticed exactly when it is within the tolerance or the lowest
      `int`. */
  lemma CountsUnflaggedExactlyWhen(r: seq<int>, checksum: bv32, snapshot: Samples)
    requires AllSamples(r) && 0 < |r| < 0x1_0000_0000 && |snapshot.counts| == |r| - 1
    ensures var delta := snapshot.redundantCount - Sum(snapshot.counts); var found := Corruption(r, checksum, snapshot);
            !found.countHigh && !found.countLow <==> -1 <= delta <= 1 || delta == -0x8000_0000
  {
  }

  /** Counts that fit 32 bits and yet differ by that much from the redundant count. */
  lemma LowestDifferenceMissed(r: seq<int>, checksum: bv32) returns (snapshot: Samples)
    requires AllSamples(r) && 3 <= |r| < 0x1_0000_0000
    ensures |snapshot.counts| == |r| - 1 && AllSamples(snapshot.counts) && Crc.IsSample(snapshot.redundantCount)
    ensures Sum(snapshot.counts) - snapshot.redundantCount == 0x8000_0000
    ensures var found := Corruption(r, checksum, snapshot); !found.countHigh && !found.countLow
  {
    var zeros := seq(|r| - 3, _ => 0);
    var one := zeros + [1];
    snapshot := Samples(one + [SAMPLE_MAX], 0, 0);
    SumZero(zeros);
    assert one[..|one| - 1] == zeros && snapshot.counts[..|one|] == one;
    hide Checksum, Increasing;
  }

  // ---- Buckets ---------------------------------------------------------------------------

  ghost predicate InBucket(r: seq<int>, b: int, v: int) {
    0 <= b < |r| - 1 && r[b] <= v < r[b + 1]
  }

  /** The buckets of a layout do not overlap. */
  lemma BucketUnique(r: seq<int>, a: int, b: int, v: int)
    requires Increasing(r) && InBucket(r, a, v) && InBucket(r, b, v)
    ensures a == b
  {
  }

  /** In an enumeration histogram each value below the boundary has the bucket of its own number,
      and all others share the one of the boundary. */
  lemma EnumerationInBucket(boundary: int, v: int, b: int)
    requires 2 <= boundary < SAMPLE_MAX && 0 <= v < SAMPLE_MAX
    ensures InBucket(Linear(1, boundary, boundary + 1), b, v) <==> b == if v < boundary then v else boundary
  {
    var r := Linear(1, boundary, boundary + 1);
    var own := if v < boundary then v else boundary;
    EnumerationBuckets(boundary, own);
    if v < boundary { EnumerationBuckets(boundary, v + 1); }
    LinearIsLayout(1, boundary, boundary + 1);
    hide Linear;
    assert InBucket(r, own, v);
    if InBucket(r, b, v) { BucketUnique(r, b, own, v); }
  }

  /** One more value counts in its bucket and nowhere else. */
  lemma TallyOne(r: seq<int>, log: seq<int>, v: int, b: int)
    requires Increasing(r) && InBucket(r, b, v)
    ensures var t := Tally(r, log);
            Tally(r, log + [v]) == Samples(t.counts[b := t.counts[b] + 1], t.sum + v, t.redundantCount + 1)
  {
    hide CountIn, Sum, Increasing;
    var t, t1 := Tally(r, log), Tally(r, log + [v]);
    forall i | 0 <= i < |r| - 1 ensures t1.counts[i] == t.counts[i] + if i == b then 1 else 0 {
      OneMore(log, v, r[i], r[i + 1]);
      if InBucket(r, i, v) {
        BucketUnique(r, i, b, v);
      }
    }
    assert t1.counts == t.counts[b := t.counts[b] + 1];
    OneMore(log, v, 0, 0);
  }

  lemma OneMore(log: seq<int>, v: int, low: int, high: int)
    ensures CountIn(log + [v], low, high) == CountIn(log, low, high) + if low <= v < high then 1 else 0
    ensures Sum(log + [v]) == Sum(log) + v
  {
    assert (log + [v])[..|log|] == log;
  }

  lemma EmptyTally(r: seq<int>)
    requires |r| > 0
    ensures Tally(r, []) == Samples(seq(|r| - 1, _ => 0), 0, 0)
  {
    assert Tally(r, []).counts == seq(|r| - 1, _ => 0);
  }

  lemma {:induction false} SumUpdate(s: seq<int>, i: nat, v: int)
    requires i < |s|
    ensures Sum(s[i := v]) == Sum(s) - s[i] + v
  {
    var n := |s| - 1;
    if i < n {
      assert s[i := v][..n] == s[..n][i := v];
      SumUpdate(s[..n], i, v);
    } else {
      assert s[i := v][..n] == s[..n];
    }
  }

  lemma {:induction false} SumZero(s: seq<int>)
    requires forall i :: 0 <= i < |s| ==> s[i] == 0
    ensures Sum(s) == 0
  {
    if s != [] {
      SumZero(s[..|s| - 1]);
    }
  }

  lemma {:induction false} FindBucket(r: seq<int>, v: int) returns (b: nat)
    requires |r| > 1 && r[0] <= v < r[|r| - 1]
    ensures InBucket(r, b, v)
  {
    if v < r[1] {
      b := 0;
    } else {
      var rest := FindBucket(r[1..], v);
      b := rest + 1;
    }
  }

  /** The counts of all buckets add up to the number of values. */
  lemma {:induction false} CountsTotal(r: seq<int>, log: seq<int>)
    requires |r| > 1 && Increasing(r) && forall i :: 0 <= i < |log| ==> r[0] <= log[i] < r[|r| - 1]
    ensures Sum(Tally(r, log).counts) == |log|
    decreases |log|
  {
    if log == [] {
      SumZero(Tally(r, log).counts);
    } else {
      var init, v := log[..|log| - 1], log[|log| - 1];
      CountsTotal(r, init);
      var b := FindBucket(r, v);
      assert log == init + [v];
      TallyOne(r, init, v, b);
      var t := Tally(r, init);
      SumUpdate(t.counts, b, t.counts[b] + 1);
    }
  }

  ghost predicate AllClamped(log: seq<int>) {
    forall i :: 0 <= i < |log| ==> 0 <= log[i] < SAMPLE_MAX
  }

  /** A histogram that has only been added to shows no corruption. */
  lemma SoundShowsNothing(r: seq<int>, min: int, max: int, buckets: nat, log: seq<int>)
    requires IsLayout(r, min, max, buckets) && buckets < 16384 && AllClamped(log)
    ensures AllSamples(r) && Corruption(r, Checksum(r), Tally(r, log)) == NO_INCONSISTENCIES
  {
    LayoutSamples(r, min, max, buckets);
    CountsTotal(r, log);
    var extended := [-1] + r[..|r| - 1];
    forall i, j | 0 <= i < j < |extended| ensures extended[i] < extended[j] {
      assert extended[j] == r[j - 1] && r[0] <= r[j - 1];
      if i > 0 { assert extended[i] == r[i - 1]; }
    }
  }

  lemma LayoutSamples(r: seq<int>, min: int, max: int, buckets: nat)
    requires IsLayout(r, min, max, buckets)
    ensures AllSamples(r)
  {
    forall i | 0 <= i < |r| ensures Crc.IsSample(r[i]) {
      assert r[0] <= r[i] <= r[buckets];
    }
  }

  /** Overwriting one boundary, whichever and with whatever, is reported. */
  lemma OverwriteShows(r: seq<int>, i: nat, v: int, snapshot: Samples)
    requires AllSamples(r) && 0 < |r| < 0x1_0000_0000 && |snapshot.counts| == |r| - 1
    requires i < |r| - 1 && v != r[i] && Crc.IsSample(v)
    ensures Corruption(r[i := v], Checksum(r), snapshot).rangeChecksum
  {
    hide Crc.Word, Crc.ChecksumFrom, Crc.Bits, Increasing, Sum;
    var n := |r| - 1;
    if Crc.Word(v) == Crc.Word(r[i]) { Crc.WordInjective(v, r[i]); }
    Crc.OneChangeShows(Crc.Bits(|r|, 32), Words(r[..n]), i, Crc.Word(v));
    assert r[i := v][..n] == r[..n][i := v];
    assert Words(r[..n][i := v]) == Words(r[..n])[i := Crc.Word(v)];
  }

  /** Subtracting what was added gives back what was there. */
  lemma SubtractUndoesAdd(a: Samples, b: Samples)
    requires |a.counts| == |b.counts|
    ensures Minus(Plus(a, b), b) == a
  {
    assert Minus(Plus(a, b), b).counts == a.counts;
  }

  /** Combining the samples of two logs is the samples of the joint log. */
  lemma {:induction false} PlusJoinsLogs(r: seq<int>, a: seq<int>, b: seq<int>)
    requires |r| > 0
    ensures Plus(Tally(r, a), Tally(r, b)) == Tally(r, a + b)
  {
    forall i | 0 <= i < |r| - 1 ensures CountIn(a + b, r[i], r[i + 1]) == CountIn(a, r[i], r[i + 1]) + CountIn(b, r[i], r[i + 1]) {
      CountJoins(a, b, r[i], r[i + 1]);
    }
    SumJoins(a, b);
    assert Plus(Tally(r, a), Tally(r, b)).counts == Tally(r, a + b).counts;
  }

  lemma {:induction false} CountJoins(a: seq<int>, b: seq<int>, low: int, high: int)
    ensures CountIn(a + b, low, high) == CountIn(a, low, high) + CountIn(b, low, high)
    decreases |b|
  {
    if b == [] {
      assert a + b == a;
    } else {
      assert (a + b)[..|a + b| - 1] == a + b[..|b| - 1];
      CountJoins(a, b[..|b| - 1], low, high);
    }
  }

  lemma {:induction false} SumJoins(a: seq<int>, b: seq<int>)
    ensures Sum(a + b) == Sum(a) + Sum(b)
    decreases |b|
  {
    if b == [] {
      assert a + b == a;
    } else {
      assert (a + b)[..|a + b| - 1] == a + b[..|b| - 1];
      SumJoins(a, b[..|b| - 1]);
    }
  }

  // ---- The objects -----------------------------------------------------------------------

  class SampleSet {
    const counts: array<int>
    var sum: int
    var redundantCount: int

    ghost function Contents(): Samples
      reads this, counts
    {
      Samples(counts[..], sum, redundantCount)
    }

    constructor (bucketCount: nat)
      ensures fresh(counts) && counts.Length == bucketCount && Contents() == Samples(seq(bucketCount, _ => 0), 0, 0)
    {
      counts := new int[bucketCount](_ => 0);
      sum, redundantCount := 0, 0;
    }

    method Accumulate(value: int, count: int, index: nat)
      requires index < counts.Length
      modifies this, counts
      ensures var s := old(Contents());
              Contents() == Samples(s.counts[index := s.counts[index] + count], s.sum + count * value, s.redundantCount + count)
    {
      counts[index] := counts[index] + count;
      sum := sum + count * value;
      redundantCount := redundantCount + count;
    }

    method TotalCount() returns (total: int)
      ensures total == Sum(counts[..])
    {
      total := 0;
      for i := 0 to counts.Length
        invariant total == Sum(counts[..i])
      {
        assert counts[..i + 1][..i] == counts[..i];
        total := total + counts[i];
      }
      assert counts[..counts.Length] == counts[..];
    }

    /** The other set may be this one, which is then doubled. */
    method Add(other: SampleSet)
      requires other.counts.Length == counts.Length
      modifies this, counts
      ensures Contents() == Plus(old(Contents()), old(other.Contents()))
    {
      sum := sum + other.sum;
      redundantCount := redundantCount + other.redundantCount;
      for i := 0 to counts.Length
        invariant sum == old(sum) + old(other.sum) && redundantCount == old(redundantCount) + old(other.redundantCount)
        invariant forall k :: 0 <= k < i ==> counts[k] == old(counts[k]) + old(other.counts[k])
        invariant forall k :: i <= k < counts.Length ==> counts[k] == old(counts[k]) && other.counts[k] == old(other.counts[k])
      {
        counts[i] := counts[i] + other.counts[i];
      }
      assert Contents().counts == Plus(old(Contents()), old(other.Contents())).counts;
    }

    /** Likewise; a set subtracted from itself is emptied. */
    method Subtract(other: SampleSet)
      requires other.counts.Length == counts.Length
      modifies this, counts
      ensures Contents() == Minus(old(Contents()), old(other.Contents()))
    {
      sum := sum - other.sum;
      redundantCount := redundantCount - other.redundantCount;
      for i := 0 to counts.Length
        invariant sum == old(sum) - old(other.sum) && redundantCount == old(redundantCount) - old(other.redundantCount)
        invariant forall k :: 0 <= k < i ==> counts[k] == old(counts[k]) - old(other.counts[k])
        invariant forall k :: i <= k < counts.Length ==> counts[k] == old(counts[k]) && other.counts[k] == old(other.counts[k])
      {
        counts[i] := counts[i] - other.counts[i];
      }
      assert Contents().counts == Minus(old(Contents()), old(other.Contents())).counts;
    }
  }

  class Histogram {
    const declaredMin: int
    const declaredMax: int
    const bucketCount: nat
    const ranges: array<int>
    const sample: SampleSet
    var rangeChecksum: bv32
    ghost var log: seq<int>

    ghost predicate Shape()
    {
      && Declared(declaredMin, declaredMax, bucketCount) && bucketCount < 16384
      && ranges.Length == bucketCount + 1 && sample.counts.Length == bucketCount && sample.counts != ranges
    }

    /** The boundaries form a layout, and the samples are those of the values added so far. */
    ghost predicate Valid()
      reads this, ranges, sample, sample.counts
    {
      && Shape()
      && IsLayout(ranges[..], declaredMin, declaredMax, bucketCount)
      && AllSamples(ranges[..]) && rangeChecksum == Checksum(ranges[..])
      && AllClamped(log)
      && sample.Contents() == Tally(ranges[..], log)
    }

    constructor (minimum: int, maximum: int, buckets: nat, linear: bool)
      requires Declared(minimum, maximum, buckets) && buckets < 16384
      ensures Valid() && log == [] && fresh(ranges) && fresh(sample) && fresh(sample.counts)
      ensures ranges[..] == if linear then Linear(minimum, maximum, buckets) else Exponential(minimum, maximum, buckets)
    {
      hide IsLayout, AllSamples, Tally, Checksum, Linear, Exponential, Sum;
      declaredMin, declaredMax, bucketCount := minimum, maximum, buckets;
      ranges := new int[buckets + 1](_ => 0);
      sample := new SampleSet(buckets);
      rangeChecksum := 0;
      log := [];
      new;
      ranges[buckets] := SAMPLE_MAX;
      if linear {
        LinearIsLayout(minimum, maximum, buckets);
        InitializeLinearRange();
      } else {
        ExponentialIsLayout(minimum, maximum, buckets);
        InitializeBucketRange();
      }
      LayoutSamples(ranges[..], minimum, maximum, buckets);
      EmptyTally(ranges[..]);
      rangeChecksum := CalculateRangeChecksum();
    }

    method InitializeBucketRange()
      requires Shape() && ranges[0] == 0 && ranges[bucketCount] == SAMPLE_MAX
      modifies ranges
      ensures ranges[..] == Exponential(declaredMin, declaredMax, bucketCount)
    {
      hide Boundaries, Rounded, Next;
      var bucketIndex := 1;
      var current: nat := declaredMin;
      ranges[bucketIndex] := current;
      bucketIndex := bucketIndex + 1;
      ghost var all := Exponential(declaredMin, declaredMax, bucketCount);
      while bucketCount > bucketIndex
        invariant 2 <= bucketIndex <= bucketCount
        invariant 1 <= current && declaredMax - current >= bucketCount - bucketIndex
        invariant ranges[bucketCount] == SAMPLE_MAX
        invariant all == ranges[..bucketIndex] + Boundaries(current, declaredMax, bucketCount - bucketIndex) + [SAMPLE_MAX]
      {
        var k := bucketCount - bucketIndex;
        var next := Rounded(current, declaredMax, k, declaredMax);
        BoundariesStep(current, declaredMax, k, ranges[..bucketIndex], [SAMPLE_MAX]);
        if next > current {
          current := next;
        } else {
          current := current + 1;
        }
        ranges[bucketIndex] := current;
        assert ranges[..bucketIndex + 1] == ranges[..bucketIndex] + [current];
        bucketIndex := bucketIndex + 1;
      }
      NoBoundaries(current, declaredMax, ranges[..bucketCount]);
      assert ranges[..] == ranges[..bucketCount] + [SAMPLE_MAX];
    }

    method InitializeLinearRange()
      requires Shape() && ranges[0] == 0 && ranges[bucketCount] == SAMPLE_MAX
      modifies ranges
      ensures ranges[..] == Linear(declaredMin, declaredMax, bucketCount)
    {
      for i := 1 to bucketCount
        invariant ranges[0] == 0 && ranges[bucketCount] == SAMPLE_MAX
        invariant forall k :: 1 <= k < i ==> ranges[k] == LinearBoundary(declaredMin, declaredMax, bucketCount, k)
      {
        ranges[i] := LinearBoundary(declaredMin, declaredMax, bucketCount, i);
      }
      assert ranges[..] == Linear(declaredMin, declaredMax, bucketCount);
    }

    method CalculateRangeChecksum() returns (checksum: bv32)
      requires Shape() && AllSamples(ranges[..])
      ensures checksum == Checksum(ranges[..])
      ensures checksum == Crc.ChecksumFrom(Crc.Bits(bucketCount + 1, 32), Words(ranges[..bucketCount]))
    {
      hide Crc.Word, Crc.Bits, Crc.Crc32Of;
      checksum := Crc.Bits(ranges.Length, 32);
      for index := 0 to bucketCount
        invariant checksum == Crc.ChecksumFrom(Crc.Bits(ranges.Length, 32), Words(ranges[..index]))
      {
        assert ranges[..][index] == ranges[index];
        assert Words(ranges[..index + 1]) == Words(ranges[..index]) + [Crc.Word(ranges[index])];
        checksum := Crc.Crc32(checksum, Crc.Word(ranges[index]));
      }
      assert ranges[..][..bucketCount] == ranges[..bucketCount];
    }

    /** The binary search stops in the one bucket that holds the value. */
    method BucketIndex(value: int) returns (mid: nat)
      requires Shape() && IsLayout(ranges[..], declaredMin, declaredMax, bucketCount)
      requires 0 <= value < SAMPLE_MAX
      ensures InBucket(ranges[..], mid, value)
    {
      var under, over := 0, bucketCount;
      mid := under + (over - under) / 2;
      while mid != under
        invariant 0 <= under < over <= bucketCount && mid == under + (over - under) / 2
        invariant ranges[under] <= value < ranges[over]
        decreases over - under
      {
        if ranges[mid] <= value {
          under := mid;
        } else {
          over := mid;
        }
        mid := under + (over - under) / 2;
      }
    }

    method Add(value: int)
      requires Valid()
      modifies this, sample, sample.counts
      ensures Valid() && log == old(log) + [if value < 0 then 0 else if value > 0x7fff_fffe then 0x7fff_fffe else value]
      ensures rangeChecksum == old(rangeChecksum)
    {
      hide Tally, AllSamples, Checksum;
      var v := if value > SAMPLE_MAX - 1 then SAMPLE_MAX - 1 else if value < 0 then 0 else value;
      var index := BucketIndex(v);
      TallyOne(ranges[..], log, v, index);
      sample.Accumulate(v, 1, index);
      log := log + [v];
    }

    /** Any sequence of values: each counts in its bucket. */
    method AddAll(values: seq<int>)
      requires Valid()
      modifies this, sample, sample.counts
      ensures Valid() && log == old(log) + Clamped(values)
    {
      for i := 0 to |values|
        invariant Valid() && log == old(log) + Clamped(values[..i])
      {
        Add(values[i]);
        assert Clamped(values[..i + 1]) == Clamped(values[..i]) + [Clamp(values[i])];
      }
      assert values[..|values|] == values;
    }

    /** The check of a snapshot, whatever has become of the histogram or the snapshot. */
    method FindCorruption(snapshot: SampleSet) returns (found: Inconsistencies)
      requires Shape() && AllSamples(ranges[..]) && snapshot.counts.Length == bucketCount
      ensures found == Corruption(ranges[..], rangeChecksum, snapshot.Contents())
      ensures found.rangeChecksum <==> Checksum(ranges[..]) != rangeChecksum
      ensures found.bucketOrder <==> ranges[0] < 0 || exists i :: 0 < i < bucketCount && ranges[i] <= ranges[i - 1]
      ensures var delta := snapshot.redundantCount - Sum(snapshot.counts[..]);
              && (found.countHigh <==> delta > 1 || delta < -0x8000_0000)
              && (found.countLow <==> -0x8000_0000 < delta < -1)
    {
      var previous, count, disordered := -1, 0, false;
      for index := 0 to bucketCount
        invariant count == Sum(snapshot.counts[..index])
        invariant previous == ([-1] + ranges[..])[index]
        invariant disordered <==> !Increasing([-1] + ranges[..index])
      {
        assert snapshot.counts[..index + 1][..index] == snapshot.counts[..index];
        count := count + snapshot.counts[index];
        OrderStep([-1] + ranges[..index], ranges[index]);
        assert [-1] + ranges[..index + 1] == [-1] + ranges[..index] + [ranges[index]];
        if previous >= ranges[index] {
          disordered := true;
        }
        previous := ranges[index];
      }
      assert snapshot.counts[..bucketCount] == snapshot.counts[..];
      assert ranges[..][..bucketCount] == ranges[..bucketCount];
      var checksum := CalculateRangeChecksum();
      OrderIs(ranges[..bucketCount]);
      var delta64 := snapshot.redundantCount - count;
      var high, low := false, false;
      if delta64 != 0 {
        var delta := if -0x8000_0000 <= delta64 < 0x8000_0000 then delta64 else SAMPLE_MAX;
        if delta > 0 {
          high := delta > 1;
        } else {
          low := (if delta == -0x8000_0000 then delta else -delta) > 1;
        }
      }
      return Inconsistencies(checksum != rangeChecksum, disordered, high, low);
    }

    /** A snapshot of a sound histogram shows nothing. */
    method CheckSelf() returns (found: Inconsistencies)
      requires Valid()
      ensures found == NO_INCONSISTENCIES
    {
      SoundShowsNothing(ranges[..], declaredMin, declaredMax, bucketCount, log);
      found := FindCorruption(sample);
    }
  }

  /** Not to increase is to fail to from one entry to the next. */
  lemma {:induction false} OrderIs(s: seq<int>)
    requires s != []
    ensures !Increasing([-1] + s) <==> s[0] < 0 || exists i :: 0 < i < |s| && s[i] <= s[i - 1]
  {
    var n := |s| - 1;
    var t := [-1] + s;
    if n == 0 {
      assert t == [-1, s[0]] && (s[0] < 0 ==> !(t[0] < t[1]));
    } else {
      var init := s[..n];
      OrderIs(init);
      assert [-1] + s == [-1] + init + [s[n]];
      OrderStep([-1] + init, s[n]);
      assert ([-1] + init)[n] == s[n - 1] && init[0] == s[0];
      if i :| 0 < i < n && init[i] <= init[i - 1] { assert s[i] <= s[i - 1]; }
      if i :| 0 < i < |s| && s[i] <= s[i - 1] {
        if i < n { assert init[i] <= init[i - 1]; }
      }
    }
  }

  lemma OrderStep(s: seq<int>, v: int)
    requires s != []
    ensures Increasing(s + [v]) <==> Increasing(s) && s[|s| - 1] < v
  {
    var t := s + [v];
    if Increasing(t) {
      forall i, j | 0 <= i < j < |s| ensures s[i] < s[j] {
        assert t[i] < t[j];
      }
      assert t[|s| - 1] < t[|s|];
    }
  }
}
