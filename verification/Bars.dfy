/** Price bars (src/vta_bar.cc, src/vta_rollup_bar.cc, src/vta_close.cc) over the accumulators
    of src/accumulators, and the rounding of their prices (src/rounding.hh). Prices are reals. */
module Bars {
  import opened Wrappers

  const TWO_TO_64 := 0x1_0000_0000_0000_0000
  const TWO_TO_32 := 0x1_0000_0000

  datatype Tick = Tick(price: real, volume: nat)

  /** The fields a bar publishes, also the record of a bar that Vhayu has prepared. */
  datatype Summary = Summary(open: real, high: real, low: real, close: real, volume: nat, trades: nat)

  // ---- What a bar is ---------------------------------------------------------------------

  function TotalVolume(ticks: seq<Tick>): nat {
    if ticks == [] then 0 else TotalVolume(ticks[..|ticks| - 1]) + ticks[|ticks| - 1].volume
  }

  ghost predicate IsHigh(high: real, ticks: seq<Tick>) {
    (exists i :: 0 <= i < |ticks| && ticks[i].price == high) && forall i :: 0 <= i < |ticks| ==> ticks[i].price <= high
  }

  ghost predicate IsLow(low: real, ticks: seq<Tick>) {
    (exists i :: 0 <= i < |ticks| && ticks[i].price == low) && forall i :: 0 <= i < |ticks| ==> low <= ticks[i].price
  }

  /** The bar of all the ticks, its 64-bit volume and count wrapping around. */
  ghost predicate IsBar(b: Summary, ticks: seq<Tick>) {
    && ticks != []
    && b.open == ticks[0].price && b.close == ticks[|ticks| - 1].price
    && IsHigh(b.high, ticks) && IsLow(b.low, ticks)
    && b.volume == TotalVolume(ticks) % 0x1_0000_0000_0000_0000 && b.trades == |ticks| % 0x1_0000_0000_0000_0000
  }

  /** There is only one bar of a tick sequence. */
  lemma BarUnique(a: Summary, b: Summary, ticks: seq<Tick>)
    requires IsBar(a, ticks) && IsBar(b, ticks)
    ensures a == b
  {
    var i :| 0 <= i < |ticks| && ticks[i].price == a.high;
    var j :| 0 <= j < |ticks| && ticks[j].price == b.high;
    var k :| 0 <= k < |ticks| && ticks[k].price == a.low;
    var l :| 0 <= l < |ticks| && ticks[l].price == b.low;
  }

  // ---- Rolling up ------------------------------------------------------------------------

  function Flatten(segments: seq<seq<Tick>>): seq<Tick> {
    if segments == [] then [] else Flatten(segments[..|segments| - 1]) + segments[|segments| - 1]
  }

  function Higher(a: real, b: real): real {
    if a > b then a else b
  }

  function Lower(a: real, b: real): real {
    if a < b then a else b
  }

  /** The bar of everything before, joined with the next one. */
  function Join(a: Summary, b: Summary): Summary {
    Summary(a.open, Higher(a.high, b.high), Lower(a.low, b.low), b.close, (a.volume + b.volume) % TWO_TO_64,
            (a.trades + b.trades) % TWO_TO_64)
  }

  function RollUp(bars: seq<Summary>): Summary
    requires bars != []
  {
    if |bars| == 1 then bars[0].(volume := bars[0].volume % TWO_TO_64, trades := bars[0].trades % TWO_TO_64)
    else Join(RollUp(bars[..|bars| - 1]), bars[|bars| - 1])
  }

  /** A prepared record per segment. Its count of trades has 32 bits. */
  ghost predicate AreBarsOf(bars: seq<Summary>, segments: seq<seq<Tick>>) {
    |bars| == |segments| && forall i :: 0 <= i < |bars| ==> IsBar(bars[i], segments[i]) && |segments[i]| < TWO_TO_32
  }

  lemma {:induction false} VolumeJoins(a: seq<Tick>, b: seq<Tick>)
    ensures TotalVolume(a + b) == TotalVolume(a) + TotalVolume(b)
    decreases |b|
  {
    if b == [] {
      assert a + b == a;
    } else {
      assert (a + b)[..|a + b| - 1] == a + b[..|b| - 1];
      VolumeJoins(a, b[..|b| - 1]);
    }
  }

  lemma ModAdds(x: nat, y: nat)
    ensures (x % TWO_TO_64 + y % TWO_TO_64) % TWO_TO_64 == (x + y) % TWO_TO_64
  {
  }

  lemma HighJoins(h: real, a: seq<Tick>, k: real, b: seq<Tick>)
    requires IsHigh(h, a) && IsHigh(k, b)
    ensures IsHigh(Higher(h, k), a + b)
  {
    var i :| 0 <= i < |a| && a[i].price == h;
    var j :| 0 <= j < |b| && b[j].price == k;
    assert (a + b)[i] == a[i] && (a + b)[|a| + j] == b[j];
  }

  lemma LowJoins(h: real, a: seq<Tick>, k: real, b: seq<Tick>)
    requires IsLow(h, a) && IsLow(k, b)
    ensures IsLow(Lower(h, k), a + b)
  {
    var i :| 0 <= i < |a| && a[i].price == h;
    var j :| 0 <= j < |b| && b[j].price == k;
    assert (a + b)[i] == a[i] && (a + b)[|a| + j] == b[j];
  }

  lemma BarsJoin(a: Summary, s: seq<Tick>, b: Summary, t: seq<Tick>)
    requires IsBar(a, s) && IsBar(b, t)
    ensures IsBar(Join(a, b), s + t)
  {
    hide IsHigh, IsLow, Higher, Lower, TotalVolume;
    VolumeJoins(s, t);
    ModAdds(TotalVolume(s), TotalVolume(t));
    ModAdds(|s|, |t|);
    HighJoins(a.high, s, b.high, t);
    LowJoins(a.low, s, b.low, t);
  }

  /** However the ticks are cut into segments, rolling up the segment bars gives the bar of all
      the ticks. */
  lemma {:induction false} RollUpIsBar(bars: seq<Summary>, segments: seq<seq<Tick>>)
    requires bars != [] && AreBarsOf(bars, segments)
    ensures IsBar(RollUp(bars), Flatten(segments))
    decreases |bars|
  {
    hide IsBar;
    var n := |bars| - 1;
    if n == 0 {
      assert segments[..0] == [];
      assert Flatten(segments) == [] + segments[0] == segments[0];
      assert IsBar(bars[0], segments[0]);
      AlreadyReduced(bars[0], segments[0]);
    } else {
      RollUpIsBar(bars[..n], segments[..n]);
      assert IsBar(bars[n], segments[n]);
      BarsJoin(RollUp(bars[..n]), Flatten(segments[..n]), bars[n], segments[n]);
    }
  }

  lemma AlreadyReduced(b: Summary, ticks: seq<Tick>)
    requires IsBar(b, ticks)
    ensures b.volume % TWO_TO_64 == b.volume && b.trades % TWO_TO_64 == b.trades
  {
  }

  // ---- Accumulators and analytics --------------------------------------------------------

  class First {
    var first: real
    var isFirst: bool

    constructor ()
      ensures isFirst && first == 0.0
    {
      first, isFirst := 0.0, true;
    }

    method Add(sample: real)
      modifies this
      ensures !isFirst && first == if old(isFirst) then sample else old(first)
    {
      if isFirst {
        first := sample;
        isFirst := false;
      }
    }
  }

  /** The tick bar: first, last, highest and lowest price, count and volume, and the period asked
      for. `None` stands for the limits of `double`, with which the extremes start, and for a time
      that is not set. */
  class Bar {
    const open: First
    var last: real
    var max: Option<real>
    var min: Option<real>
    var count: nat
    var volume: nat
    var openTime: Option<int>
    var closeTime: Option<int>

    constructor ()
      ensures fresh(open) && Empty() && openTime.None? && closeTime.None?
    {
      open := new First();
      last, max, min, count, volume := 0.0, None, None, 0, 0;
      openTime, closeTime := None, None;
    }

    ghost predicate Empty()
      reads this, open
    {
      open.isFirst && max.None? && min.None? && count == 0 && volume == 0
    }

    ghost predicate Holds(ticks: seq<Tick>)
      reads this, open
    {
      if ticks == [] then Empty()
      else
        && !open.isFirst && max.Some? && min.Some?
        && IsBar(Summary(open.first, max.value, min.value, last, volume, count), ticks)
    }

    method Reset()
      modifies this, open
      ensures Empty() && openTime.None? && closeTime.None?
    {
      openTime, closeTime := None, None;
      open.first, open.isFirst := 0.0, true;
      last, max, min, count, volume := 0.0, None, None, 0, 0;
    }

    method OnFlexRecord(tick: Tick, ghost before: seq<Tick>)
      requires Holds(before)
      modifies this, open
      ensures Holds(before + [tick])
      ensures openTime == old(openTime) && closeTime == old(closeTime)
    {
      OneTick(tick);
      if before != [] {
        BarsJoin(Summary(open.first, max.value, min.value, last, volume, count), before, TickBar(tick), [tick]);
      } else {
        assert before + [tick] == [tick];
      }
      hide IsBar;
      open.Add(tick.price);
      last := tick.price;
      max := Some(if max.Some? then Higher(max.value, tick.price) else tick.price);
      min := Some(if min.Some? then Lower(min.value, tick.price) else tick.price);
      count := (count + 1) % TWO_TO_64;
      volume := (volume + tick.volume % TWO_TO_64) % TWO_TO_64;
    }

    method Calculate(ticks: seq<Tick>)
      requires Empty()
      modifies this, open
      ensures Holds(ticks)
      ensures openTime == old(openTime) && closeTime == old(closeTime)
    {
      for i := 0 to |ticks|
        invariant Holds(ticks[..i]) && openTime == old(openTime) && closeTime == old(closeTime)
      {
        OnFlexRecord(ticks[i], ticks[..i]);
        assert ticks[..i + 1] == ticks[..i] + [ticks[i]];
      }
      assert ticks[..|ticks|] == ticks;
    }
  }

  function TickBar(tick: Tick): Summary {
    Summary(tick.price, tick.price, tick.price, tick.price, tick.volume % TWO_TO_64, 1)
  }

  lemma OneTick(tick: Tick)
    ensures IsBar(TickBar(tick), [tick])
  {
    assert [tick][0].price == tick.price;
    assert TotalVolume([tick]) == tick.volume by { assert [tick][..0] == []; }
  }

  /** The rollup bar keeps one accumulator for each field of the records it is given. */
  class RollupBar {
    const open: First
    var close: real
    var high: Option<real>
    var low: Option<real>
    var volume: nat
    var moves: nat
    var openTime: Option<int>
    var closeTime: Option<int>

    constructor ()
      ensures fresh(open) && Empty() && openTime.None? && closeTime.None?
    {
      open := new First();
      close, high, low, volume, moves := 0.0, None, None, 0, 0;
      openTime, closeTime := None, None;
    }

    ghost predicate Empty()
      reads this, open
    {
      open.isFirst && high.None? && low.None? && volume == 0 && moves == 0
    }

    ghost predicate Holds(bars: seq<Summary>)
      reads this, open
    {
      if bars == [] then Empty()
      else
        && !open.isFirst && high.Some? && low.Some?
        && Summary(open.first, high.value, low.value, close, volume, moves) == RollUp(bars)
    }

    method Reset()
      modifies this, open
      ensures Empty() && openTime.None? && closeTime.None?
    {
      openTime, closeTime := None, None;
      open.first, open.isFirst := 0.0, true;
      close, high, low, volume, moves := 0.0, None, None, 0, 0;
    }

    method OnFlexRecord(bar: Summary, ghost before: seq<Summary>)
      requires Holds(before)
      modifies this, open
      ensures Holds(before + [bar])
      ensures openTime == old(openTime) && closeTime == old(closeTime)
    {
      assert (before + [bar])[..|before|] == before;
      open.Add(bar.open);
      close := bar.close;
      high := Some(if high.Some? then Higher(high.value, bar.high) else bar.high);
      low := Some(if low.Some? then Lower(low.value, bar.low) else bar.low);
      volume := (volume + bar.volume) % TWO_TO_64;
      moves := (moves + bar.trades) % TWO_TO_64;
    }

    method Calculate(bars: seq<Summary>)
      requires Empty()
      modifies this, open
      ensures Holds(bars)
      ensures openTime == old(openTime) && closeTime == old(closeTime)
    {
      for i := 0 to |bars|
        invariant Holds(bars[..i]) && openTime == old(openTime) && closeTime == old(closeTime)
      {
        OnFlexRecord(bars[i], bars[..i]);
        assert bars[..i + 1] == bars[..i] + [bars[i]];
      }
      assert bars[..|bars|] == bars;
    }
  }

  /** The close reads one tick from the newest end. */
  class Close {
    const price: First
    var count: nat

    constructor ()
      ensures fresh(price) && price.isFirst && count == 0
    {
      price := new First();
      count := 0;
    }

    method Calculate(ticks: seq<Tick>)
      requires price.isFirst && count == 0
      modifies this, price
      ensures count == if ticks == [] then 0 else 1
      ensures ticks != [] ==> price.first == ticks[|ticks| - 1].price
    {
      var limit := 1;
      var i := |ticks|;
      while i > 0 && limit > 0
        invariant 0 <= i <= |ticks| && 0 <= limit <= 1 && count == 1 - limit && |ticks| - i == 1 - limit
        invariant if limit == 1 then price.isFirst else price.first == ticks[|ticks| - 1].price
        decreases i
      {
        i := i - 1;
        price.Add(ticks[i].price);
        count := count + 1;
        limit := limit - 1;
      }
    }
  }

  /** Three ways to the same numbers: one bar over all ticks, a rollup of segment bars, and for
      the close alone a single tick from the end. */
  method ThreeWays(segments: seq<seq<Tick>>, bars: seq<Summary>) returns (direct: Summary, rolled: Summary, closing: real)
    requires segments != [] && AreBarsOf(bars, segments)
    ensures direct == rolled && closing == direct.close && IsBar(direct, Flatten(segments))
  {
    var ticks := Flatten(segments);
    RollUpIsBar(bars, segments);
    var bar := new Bar();
    bar.Calculate(ticks);
    direct := Summary(bar.open.first, bar.max.value, bar.min.value, bar.last, bar.volume, bar.count);
    var rollup := new RollupBar();
    rollup.Calculate(bars);
    rolled := Summary(rollup.open.first, rollup.high.value, rollup.low.value, rollup.close, rollup.volume, rollup.moves);
    BarUnique(direct, rolled, ticks);
    var end := new Close();
    end.Calculate(ticks);
    closing := end.price.first;
  }

  // ---- Rounding --------------------------------------------------------------------------

  function RoundHalfUp(x: real): int {
    (x + 0.5).Floor
  }

  function Mantissa(x: real): int {
    RoundHalfUp(x * 10000.0)
  }

  function Round(x: real): real {
    Mantissa(x) as real / 10000.0
  }

  /** The mantissa is the one integer from which the price is less than half a unit away, or
      half a unit below it. */
  lemma MantissaNearest(x: real, m: int)
    ensures m == Mantissa(x) <==> m as real - 0.5 <= x * 10000.0 < m as real + 0.5
  {
  }

  /** A rounded price is the multiple of one ten-thousandth that is nearest to the price, the upper
      one of two. */
  lemma RoundNearest(x: real, y: real)
    ensures y == Round(x) <==> y * 10000.0 == (y * 10000.0).Floor as real && x - 0.00005 < y <= x + 0.00005
  {
    if y * 10000.0 == (y * 10000.0).Floor as real { MantissaNearest(x, (y * 10000.0).Floor); }
  }

  lemma RoundMonotone(x: real, y: real)
    requires x <= y
    ensures Mantissa(x) <= Mantissa(y) && Round(x) <= Round(y)
  {
  }

  lemma RoundIdempotent(x: real)
    ensures Mantissa(Round(x)) == Mantissa(x) && Round(Round(x)) == Round(x)
  {
    assert Round(x) * 10000.0 == Mantissa(x) as real;
  }

  function Rounded(ticks: seq<Tick>): seq<Tick> {
    seq(|ticks|, i requires 0 <= i < |ticks| => ticks[i].(price := Round(ticks[i].price)))
  }

  /** Rounding the extremes is taking the extremes of rounded prices. */
  lemma ExtremesOfRounded(high: real, low: real, ticks: seq<Tick>)
    requires IsHigh(high, ticks) && IsLow(low, ticks)
    ensures IsHigh(Round(high), Rounded(ticks)) && IsLow(Round(low), Rounded(ticks))
  {
    var r := Rounded(ticks);
    var i :| 0 <= i < |ticks| && ticks[i].price == high;
    var j :| 0 <= j < |ticks| && ticks[j].price == low;
    assert r[i].price == Round(high) && r[j].price == Round(low);
    forall k | 0 <= k < |r| ensures Round(low) <= r[k].price <= Round(high) {
      RoundMonotone(low, ticks[k].price);
      RoundMonotone(ticks[k].price, high);
    }
  }
}
