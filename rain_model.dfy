/**
 * `RainModelService`: design rain series at a fixed time step, a block rain
 * of constant intensity and the Euler type II model rain built from a KOSTRA
 * row (intensity per duration, l/(s*ha)) by differencing depths, sorting the
 * blocks and arranging them around a peak at 30 % of the series.
 *
 * A KOSTRA row is a map from duration (min) to intensity; its property keys
 * are taken to be the durations' canonical number strings. Reals stand in for
 * numbers; `Math.floor(steps * 0.3)` is taken as the exact (3 * steps) / 10.
 */
module RainModel {
  import opened Wrappers
  import Sorting

  datatype RainStep = RainStep(time: real, intensity: real)

  function Ceil(x: real): int {
    -((-x).Floor)
  }

  /** The time step both series use when the caller leaves `interval` out. */
  const DefaultInterval: real := 5.0

  /**
   * `Math.ceil(duration / interval)`, the number of steps of `interval`
   * minutes in a rain of `duration` minutes. A zero interval gives NaN or an
   * infinity instead, which each operation handles on its own.
   */
  function StepCount(duration: real, interval: real): int
    requires interval != 0.0
  {
    Ceil(duration / interval)
  }

  /** The steps cover the duration, and one step fewer would not. */
  lemma StepCountCoversDuration(duration: real, interval: real)
    requires interval > 0.0 && duration > 0.0
    ensures StepCount(duration, interval) >= 1
    ensures (StepCount(duration, interval) as real) * interval >= duration
    ensures ((StepCount(duration, interval) - 1) as real) * interval < duration
  {
    var q := duration / interval;
    var n := StepCount(duration, interval);
    assert q * interval == duration;
    assert n as real >= q && (n - 1) as real < q;
    MulMonotone(q, n as real, interval);
    MulStrict((n - 1) as real, q, interval);
    assert ((n - 1) as real) * interval < duration;
  }

  /** A positive duration at a negative interval has no steps. */
  lemma NegativeIntervalHasNoSteps(duration: real, interval: real)
    requires interval < 0.0 && duration >= 0.0
    ensures StepCount(duration, interval) <= 0
  {
    var q := duration / interval;
    assert q * interval == duration;
    if q > 0.0 {
      MulStrict(0.0, q, -interval);
    }
  }

  /**
   * A rain lasting a whole number `n` of intervals takes exactly `n` steps;
   * at the default interval an hour is twelve of them.
   */
  lemma WholeIntervalsAreExactSteps(n: nat, interval: real)
    requires interval > 0.0
    ensures StepCount(n as real * interval, interval) == n
    ensures StepCount(60.0, DefaultInterval) == 12
  {
    assert (n as real * interval) / interval == n as real;
    assert 60.0 / DefaultInterval == 12.0;
  }

  lemma MulMonotone(a: real, b: real, c: real)
    requires a <= b && c >= 0.0
    ensures a * c <= b * c
  {
    assert (b - a) * c >= 0.0;
  }

  lemma MulStrict(a: real, b: real, c: real)
    requires a < b && c > 0.0
    ensures a * c < b * c
  {
    assert (b - a) * c > 0.0;
  }

  // ------------------------------------------------------------ block rain

  /**
   * A block rain: `ceil(duration / interval)` steps of the same intensity,
   * starting at time 0, and none when that count is not positive. A zero
   * interval makes the count NaN (zero duration) or -Infinity (negative
   * duration), so the loop does not run; with a positive duration it is
   * +Infinity and the source never returns, which the precondition excludes.
   */
  method CalculateBlockRain(intensity: real, duration: real, interval: real) returns (series: seq<RainStep>)
    requires interval != 0.0 || duration <= 0.0
    ensures |series| == if interval == 0.0 || StepCount(duration, interval) <= 0 then 0 else StepCount(duration, interval)
    ensures forall i :: 0 <= i < |series| ==> series[i] == RainStep(i as real * interval, intensity)
  {
    if interval == 0.0 {
      return [];
    }
    var steps := StepCount(duration, interval);
    series := [];
    var i := 0;
    while i < steps
      invariant 0 <= i && (steps > 0 ==> i <= steps) && (steps <= 0 ==> i == 0)
      invariant |series| == i
      invariant forall m :: 0 <= m < i ==> series[m] == RainStep(m as real * interval, intensity)
    {
      series := series + [RainStep(i as real * interval, intensity)];
      i := i + 1;
    }
  }

  // ----------------------------------------------- intensity by duration

  ghost predicate StrictlyAscending(s: seq<real>) {
    forall i, j :: 0 <= i < j < |s| ==> s[i] < s[j]
  }

  lemma EmptyOrMember(s: set<real>)
    ensures s == {} || exists x :: x in s
  {
    if forall x :: x !in s {
      assert s == {};
    }
  }

  /** Every non-empty finite set of reals has a least element. */
  lemma SetMinimum(s: set<real>) returns (m: real)
    requires s != {}
    ensures m in s && forall y :: y in s ==> m <= y
    decreases |s|
  {
    EmptyOrMember(s);
    var x :| x in s;
    var rest := s - {x};
    if rest == {} {
      assert s == {x};
      m := x;
    } else {
      var r := SetMinimum(rest);
      m := if x < r then x else r;
      forall y | y in s
        ensures m <= y
      {
        if y != x {
          assert y in rest;
        }
      }
    }
  }

  /** The durations of a row in ascending order. */
  method AvailableDurations(row: map<real, real>) returns (ds: seq<real>)
    ensures StrictlyAscending(ds)
    ensures forall d :: d in ds <==> d in row
  {
    var remaining := row.Keys;
    ds := [];
    while remaining != {}
      invariant forall d :: d in row <==> d in ds || d in remaining
      invariant forall i, y :: 0 <= i < |ds| && y in remaining ==> ds[i] < y
      invariant StrictlyAscending(ds)
      decreases |remaining|
    {
      ghost var least := SetMinimum(remaining);
      var m :| m in remaining && forall y :: y in remaining ==> m <= y;
      ds := ds + [m];
      remaining := remaining - {m};
    }
  }

  /** The neighbours of a duration found by the scan: the last duration at or below it and the first above it. */
  datatype Bounds = Bounds(lower: Option<real>, upper: Option<real>)

  /** The scan state after the first `n` durations of `ds`. */
  function ScanBounds(ds: seq<real>, d: real, n: nat): (b: Bounds)
    requires n <= |ds|
    ensures b.lower.Some? ==> b.lower.value <= d && b.lower.value in ds
    ensures b.upper.Some? ==> b.upper.value > d && b.upper.value in ds
  {
    if n == 0 then Bounds(None, None)
    else
      var b := ScanBounds(ds, d, n - 1);
      var ad := ds[n - 1];
      Bounds(if ad <= d then Some(ad) else b.lower,
             if ad > d && b.upper.None? then Some(ad) else b.upper)
  }

  /** The intensity for duration `d`: the row's own entry, or the scan's interpolation or clamping, or 0. */
  function Intensity(row: map<real, real>, ds: seq<real>, d: real): real
    requires forall x :: x in ds ==> x in row
  {
    if d in row then row[d]
    else
      var b := ScanBounds(ds, d, |ds|);
      if b.lower.Some? && b.upper.Some? then
        var lo := b.lower.value;
        var up := b.upper.value;
        Lerp(row[lo], row[up], lo, up, d)
      else if b.lower.Some? then row[b.lower.value]
      else if b.upper.Some? then row[b.upper.value]
      else 0.0
  }

  /** `getI`: the intensity of duration `d`, looked up, interpolated or clamped. */
  method GetI(row: map<real, real>, ds: seq<real>, d: real) returns (intensity: real)
    requires forall x :: x in ds ==> x in row
    ensures intensity == Intensity(row, ds, d)
  {
    if d in row {
      return row[d];
    }
    var lower: Option<real> := None;
    var upper: Option<real> := None;
    var k := 0;
    while k < |ds|
      invariant 0 <= k <= |ds|
      invariant Bounds(lower, upper) == ScanBounds(ds, d, k)
    {
      var ad := ds[k];
      if ad <= d {
        lower := Some(ad);
      }
      if ad > d && upper.None? {
        upper := Some(ad);
      }
      k := k + 1;
    }
    if lower.Some? && upper.Some? {
      var lo := lower.value;
      var up := upper.value;
      intensity := Lerp(row[lo], row[up], lo, up, d);
    } else if lower.Some? {
      intensity := row[lower.value];
    } else if upper.Some? {
      intensity := row[upper.value];
    } else {
      intensity := 0.0;
    }
  }

  /**
   * On ascending durations the scan finds the true neighbours: `lower` is the
   * greatest duration at or below `d` and exists exactly when one does, and
   * `upper` is the least duration above `d` and exists exactly when one does.
   */
  lemma ScanFindsNeighbours(ds: seq<real>, d: real, n: nat)
    requires n <= |ds| && StrictlyAscending(ds)
    ensures var b := ScanBounds(ds, d, n);
      && (b.lower.Some? <==> exists i :: 0 <= i < n && ds[i] <= d)
      && (b.upper.Some? <==> exists i :: 0 <= i < n && ds[i] > d)
      && (b.lower.Some? ==> forall i :: 0 <= i < n && ds[i] <= d ==> ds[i] <= b.lower.value)
      && (b.upper.Some? ==> forall i :: 0 <= i < n && ds[i] > d ==> b.upper.value <= ds[i])
      && (b.lower.Some? ==> exists i :: 0 <= i < n && ds[i] == b.lower.value)
      && (b.upper.Some? ==> exists i :: 0 <= i < n && ds[i] == b.upper.value)
  {
    ScanFindsLower(ds, d, n);
    ScanFindsUpper(ds, d, n);
  }

  lemma {:induction false} ScanFindsLower(ds: seq<real>, d: real, n: nat)
    requires n <= |ds| && StrictlyAscending(ds)
    ensures var b := ScanBounds(ds, d, n);
      && (b.lower.Some? <==> exists i :: 0 <= i < n && ds[i] <= d)
      && (b.lower.Some? ==> forall i :: 0 <= i < n && ds[i] <= d ==> ds[i] <= b.lower.value)
      && (b.lower.Some? ==> exists i :: 0 <= i < n && ds[i] == b.lower.value)
  {
    if n > 0 {
      ScanFindsLower(ds, d, n - 1);
      var b := ScanBounds(ds, d, n - 1);
      if ds[n - 1] <= d {
        assert forall i :: 0 <= i < n - 1 ==> ds[i] < ds[n - 1];
      }
    }
  }

  lemma {:induction false} ScanFindsUpper(ds: seq<real>, d: real, n: nat)
    requires n <= |ds| && StrictlyAscending(ds)
    ensures var b := ScanBounds(ds, d, n);
      && (b.upper.Some? <==> exists i :: 0 <= i < n && ds[i] > d)
      && (b.upper.Some? ==> forall i :: 0 <= i < n && ds[i] > d ==> b.upper.value <= ds[i])
      && (b.upper.Some? ==> exists i :: 0 <= i < n && ds[i] == b.upper.value)
  {
    if n > 0 {
      ScanFindsUpper(ds, d, n - 1);
      var b := ScanBounds(ds, d, n - 1);
      if b.upper.Some? {
        var i :| 0 <= i < n - 1 && ds[i] == b.upper.value;
        assert ds[i] < ds[n - 1];
      }
    }
  }

  /** A duration of the table gives the table's intensity. */
  lemma ExactDurationGivesTableValue(row: map<real, real>, ds: seq<real>, d: real)
    requires forall x :: x in ds ==> x in row
    requires d in row
    ensures Intensity(row, ds, d) == row[d]
  {
  }

  /** An empty row gives 0 everywhere. */
  lemma EmptyRowGivesZero(ds: seq<real>, d: real)
    requires ds == []
    ensures Intensity(map[], ds, d) == 0.0
  {
  }

  /** Between two durations of the table the intensity lies between theirs. */
  lemma InterpolationBetweenNeighbours(row: map<real, real>, ds: seq<real>, d: real)
    requires forall x :: x in ds ==> x in row
    requires d !in row
    requires ScanBounds(ds, d, |ds|).lower.Some? && ScanBounds(ds, d, |ds|).upper.Some?
    ensures var b := ScanBounds(ds, d, |ds|);
      var a := row[b.lower.value];
      var c := row[b.upper.value];
      (if a <= c then a else c) <= Intensity(row, ds, d) <= (if a <= c then c else a)
  {
    var b := ScanBounds(ds, d, |ds|);
    var lo, up := b.lower.value, b.upper.value;
    assert lo in row && lo != d;
    LerpBetween(row[lo], row[up], lo, up, d);
  }

  /** The value at `d` on the line through (lo, a) and (up, c). */
  function Lerp(a: real, c: real, lo: real, up: real, d: real): real
    requires lo < up
  {
    a + (c - a) * (d - lo) / (up - lo)
  }

  /** Linear interpolation at `d` in [lo, up) between `a` and `c` stays between them. */
  lemma LerpBetween(a: real, c: real, lo: real, up: real, d: real)
    requires lo <= d < up
    ensures var v := Lerp(a, c, lo, up, d);
      (if a <= c then a else c) <= v <= (if a <= c then c else a)
  {
    var t := (d - lo) / (up - lo);
    FractionInUnit(d - lo, up - lo);
    DivAssociates(c - a, d - lo, up - lo);
    StepBetween(a, c, t);
  }

  lemma DivAssociates(x: real, w: real, s: real)
    requires s != 0.0
    ensures x * w / s == x * (w / s)
  {
  }

  /** A fraction `t` in [0, 1] of the way from `a` to `c` stays between them. */
  lemma StepBetween(a: real, c: real, t: real)
    requires 0.0 <= t <= 1.0
    ensures var v := a + (c - a) * t;
      (if a <= c then a else c) <= v <= (if a <= c then c else a)
  {
    var p := (c - a) * t;
    if a <= c {
      var w := c - a;
      ProductInRange(w, t);
      assert p == w * t;
    } else {
      var w := a - c;
      ProductInRange(w, t);
      Negated(w, t);
      var q := w * t;
      assert 0.0 <= q <= w && p == -q;
      assert c <= a + p <= a;
    }
  }

  lemma ProductInRange(w: real, t: real)
    requires w >= 0.0 && 0.0 <= t <= 1.0
    ensures 0.0 <= w * t <= w
  {
    MulMonotone(0.0, t, w);
    MulMonotone(t, 1.0, w);
  }

  lemma Negated(w: real, t: real)
    ensures (-w) * t == -(w * t)
  {
  }

  /** Outside the table's range the intensity is that of the nearest duration. */
  lemma ClampedOutsideRange(row: map<real, real>, ds: seq<real>, d: real)
    requires forall x :: x in ds ==> x in row
    requires ds != [] && StrictlyAscending(ds) && d !in row
    ensures d < ds[0] ==> Intensity(row, ds, d) == row[ds[0]]
    ensures d > ds[|ds| - 1] ==> Intensity(row, ds, d) == row[ds[|ds| - 1]]
  {
    ScanFindsNeighbours(ds, d, |ds|);
    var b := ScanBounds(ds, d, |ds|);
    if d < ds[0] {
      assert b.lower.None? && b.upper.Some?;
      var i :| 0 <= i < |ds| && ds[i] == b.upper.value;
      AscendingEnds(ds, i);
    }
    if d > ds[|ds| - 1] {
      assert b.upper.None? && b.lower.Some?;
      var i :| 0 <= i < |ds| && ds[i] == b.lower.value;
      AscendingEnds(ds, i);
    }
  }

  /** x / w lies in [0, 1) for 0 <= x < w. */
  lemma FractionInUnit(x: real, w: real)
    requires 0.0 <= x < w
    ensures 0.0 <= x / w < 1.0
  {
    var q := x / w;
    assert q * w == x;
  }

  lemma AscendingEnds(ds: seq<real>, i: nat)
    requires StrictlyAscending(ds) && i < |ds|
    ensures ds[0] <= ds[i] <= ds[|ds| - 1]
  {
  }

  // --------------------------------------------------------- Euler type II

  /** A rain block: depth (mm) and intensity (l/(s*ha)). */
  datatype Block = Block(height: real, intensity: real)

  /** One step of the Euler series, with zeros where no block was placed. */
  datatype EulerStep = EulerStep(time: real, intensity: real, heightMm: real)

  /** The rain depth (mm) of intensity `i` over `d` minutes. */
  function Depth(i: real, d: real): real {
    i * d * 0.006
  }

  /** The `i`-th block (from 1): the depth increment between durations i and i-1 steps, never negative. */
  function BlockAt(row: map<real, real>, ds: seq<real>, interval: real, i: nat): (b: Block)
    requires forall x :: x in ds ==> x in row
    requires interval != 0.0 && i >= 1
    ensures b.height >= 0.0
    ensures b.intensity == b.height / (interval * 0.006)
  {
    var dCurrent := i as real * interval;
    var dPrev := (i - 1) as real * interval;
    var hCurr := Depth(Intensity(row, ds, dCurrent), dCurrent);
    var hPrev := if dPrev > 0.0 then Depth(Intensity(row, ds, dPrev), dPrev) else 0.0;
    var h := if hCurr - hPrev < 0.0 then 0.0 else hCurr - hPrev;
    Block(h, h / (interval * 0.006))
  }

  /** The blocks for steps 1 to `steps`, in duration order. */
  method Blocks(row: map<real, real>, ds: seq<real>, steps: nat, interval: real) returns (blocks: seq<Block>)
    requires forall x :: x in ds ==> x in row
    requires interval != 0.0
    ensures |blocks| == steps
    ensures forall k :: 0 <= k < steps ==> blocks[k] == BlockAt(row, ds, interval, k + 1)
  {
    blocks := [];
    var i := 1;
    while i <= steps
      invariant 1 <= i <= steps + 1
      invariant |blocks| == i - 1
      invariant forall k :: 0 <= k < i - 1 ==> blocks[k] == BlockAt(row, ds, interval, k + 1)
    {
      var dCurrent := i as real * interval;
      var dPrev := (i - 1) as real * interval;
      var iCurr := GetI(row, ds, dCurrent);
      var iPrev := 0.0;
      if dPrev > 0.0 {
        iPrev := GetI(row, ds, dPrev);
      }
      var hCurr := Depth(iCurr, dCurrent);
      var hPrev := if dPrev > 0.0 then Depth(iPrev, dPrev) else 0.0;
      var blockH := hCurr - hPrev;
      if blockH < 0.0 {
        blockH := 0.0;
      }
      assert Block(blockH, blockH / (interval * 0.006)) == BlockAt(row, ds, interval, i);
      blocks := blocks + [Block(blockH, blockH / (interval * 0.006))];
      i := i + 1;
    }
  }

  /** Heights, largest first: the comparator `(a, b) => b.height - a.height`. */
  function NegHeight(b: Block): real {
    -b.height
  }

  /** The slot of the largest block: inside the series whenever it has a slot. */
  function PeakIndex(steps: nat): (peak: nat)
    ensures steps >= 1 ==> peak < steps
  {
    (3 * steps) / 10
  }

  /** The arrangement state after `n` blocks: the next free slots on each side, and each block's slot. */
  datatype Placement = Placement(left: int, right: int, slotOf: seq<int>)

  /** Block i (i >= 1) goes left on odd i or when the right is full, else right, else left. */
  function PlacementAfter(steps: nat, n: nat): (p: Placement)
    requires 1 <= n
    ensures |p.slotOf| == n
    decreases n
  {
    if n == 1 then Placement(PeakIndex(steps) - 1, PeakIndex(steps) + 1, [PeakIndex(steps)])
    else
      var prev := PlacementAfter(steps, n - 1);
      var i := n - 1;
      if prev.left >= 0 && (i % 2 != 0 || prev.right >= steps) then
        Placement(prev.left - 1, prev.right, prev.slotOf + [prev.left])
      else if prev.right < steps then
        Placement(prev.left, prev.right + 1, prev.slotOf + [prev.right])
      else if prev.left >= 0 then
        Placement(prev.left - 1, prev.right, prev.slotOf + [prev.left])
      else Placement(prev.left, prev.right, prev.slotOf + [-1])
  }

  /** The slots filled so far are exactly the range between the two free slots, each used once. */
  ghost predicate PlacementFrame(steps: nat, n: nat, p: Placement) {
    var peak := PeakIndex(steps);
    && |p.slotOf| == n >= 1
    && -1 <= p.left < peak < p.right <= steps
    && p.right - p.left - 1 == n
    && p.slotOf[0] == peak
    && (forall i :: 0 <= i < n ==> p.left < p.slotOf[i] < p.right)
    && (forall s :: p.left < s < p.right ==> s in p.slotOf)
    && (forall i, j :: 0 <= i < j < n ==> p.slotOf[i] != p.slotOf[j])
  }

  /** Every later block lands further from the peak than the earlier ones on its side. */
  ghost predicate PlacementOutward(steps: nat, p: Placement) {
    var peak := PeakIndex(steps);
    && (forall i, j :: 0 <= i < j < |p.slotOf| && p.slotOf[j] < peak ==> p.slotOf[j] < p.slotOf[i])
    && (forall i, j :: 0 <= i < j < |p.slotOf| && p.slotOf[j] > peak ==> p.slotOf[j] > p.slotOf[i])
  }

  ghost predicate PlacementInvariant(steps: nat, n: nat, p: Placement) {
    PlacementFrame(steps, n, p) && PlacementOutward(steps, p)
  }

  /** Placing the next block in the free slot on the left keeps the invariant. */
  lemma ExtendLeft(steps: nat, n: nat, prev: Placement)
    requires PlacementInvariant(steps, n, prev) && prev.left >= 0
    ensures PlacementInvariant(steps, n + 1, Placement(prev.left - 1, prev.right, prev.slotOf + [prev.left]))
  {
    ExtendLeftFrame(steps, n, prev);
    ExtendLeftOutward(steps, n, prev);
  }

  lemma ExtendLeftFrame(steps: nat, n: nat, prev: Placement)
    requires PlacementFrame(steps, n, prev) && prev.left >= 0
    ensures PlacementFrame(steps, n + 1, Placement(prev.left - 1, prev.right, prev.slotOf + [prev.left]))
  {
    var p := Placement(prev.left - 1, prev.right, prev.slotOf + [prev.left]);
    forall s | p.left < s < p.right
      ensures s in p.slotOf
    {
      if s != prev.left {
        assert s in prev.slotOf;
      } else {
        assert p.slotOf[n] == s;
      }
    }
    assert forall i :: 0 <= i < n ==> p.slotOf[i] == prev.slotOf[i];
  }

  lemma ExtendLeftOutward(steps: nat, n: nat, prev: Placement)
    requires PlacementFrame(steps, n, prev) && PlacementOutward(steps, prev) && prev.left >= 0
    ensures PlacementOutward(steps, Placement(prev.left - 1, prev.right, prev.slotOf + [prev.left]))
  {
    var p := Placement(prev.left - 1, prev.right, prev.slotOf + [prev.left]);
    assert forall i :: 0 <= i < n ==> p.slotOf[i] == prev.slotOf[i];
    assert p.slotOf[n] == prev.left;
  }

  /** Placing the next block in the free slot on the right keeps the invariant. */
  lemma ExtendRight(steps: nat, n: nat, prev: Placement)
    requires PlacementInvariant(steps, n, prev) && prev.right < steps
    ensures PlacementInvariant(steps, n + 1, Placement(prev.left, prev.right + 1, prev.slotOf + [prev.right]))
  {
    ExtendRightFrame(steps, n, prev);
    ExtendRightOutward(steps, n, prev);
  }

  lemma ExtendRightFrame(steps: nat, n: nat, prev: Placement)
    requires PlacementFrame(steps, n, prev) && prev.right < steps
    ensures PlacementFrame(steps, n + 1, Placement(prev.left, prev.right + 1, prev.slotOf + [prev.right]))
  {
    var p := Placement(prev.left, prev.right + 1, prev.slotOf + [prev.right]);
    forall s | p.left < s < p.right
      ensures s in p.slotOf
    {
      if s != prev.right {
        assert s in prev.slotOf;
      } else {
        assert p.slotOf[n] == s;
      }
    }
    assert forall i :: 0 <= i < n ==> p.slotOf[i] == prev.slotOf[i];
  }

  lemma ExtendRightOutward(steps: nat, n: nat, prev: Placement)
    requires PlacementFrame(steps, n, prev) && PlacementOutward(steps, prev) && prev.right < steps
    ensures PlacementOutward(steps, Placement(prev.left, prev.right + 1, prev.slotOf + [prev.right]))
  {
    var p := Placement(prev.left, prev.right + 1, prev.slotOf + [prev.right]);
    assert forall i :: 0 <= i < n ==> p.slotOf[i] == prev.slotOf[i];
    assert p.slotOf[n] == prev.right;
  }

  /** The first block alone at the peak satisfies the invariant. */
  lemma PlacementStart(steps: nat)
    requires 1 <= steps
    ensures PlacementInvariant(steps, 1, PlacementAfter(steps, 1))
  {
    var p := PlacementAfter(steps, 1);
    forall s | p.left < s < p.right
      ensures s in p.slotOf
    {
      assert p.slotOf[0] == s;
    }
  }

  /** Placing block `n - 1` keeps the invariant while there are free slots. */
  lemma PlacementNext(steps: nat, n: nat)
    requires 2 <= n <= steps
    requires PlacementInvariant(steps, n - 1, PlacementAfter(steps, n - 1))
    ensures PlacementInvariant(steps, n, PlacementAfter(steps, n))
  {
    var prev := PlacementAfter(steps, n - 1);
    var i := n - 1;
    if prev.left >= 0 && (i % 2 != 0 || prev.right >= steps) {
      assert PlacementAfter(steps, n) == Placement(prev.left - 1, prev.right, prev.slotOf + [prev.left]);
      ExtendLeft(steps, n - 1, prev);
    } else if prev.right < steps {
      assert PlacementAfter(steps, n) == Placement(prev.left, prev.right + 1, prev.slotOf + [prev.right]);
      ExtendRight(steps, n - 1, prev);
    } else {
      // both free slots are off the series, yet fewer than `steps` blocks are placed
      assert false;
    }
  }

  lemma {:induction false} PlacementKeepsInvariant(steps: nat, n: nat)
    requires 1 <= n <= steps
    ensures PlacementInvariant(steps, n, PlacementAfter(steps, n))
    decreases n
  {
    if n == 1 {
      PlacementStart(steps);
    } else {
      PlacementKeepsInvariant(steps, n - 1);
      PlacementNext(steps, n);
    }
  }

  /**
   * With as many blocks as slots, every slot receives exactly one block, the
   * first (largest) block sits at the peak slot, and blocks placed later sit
   * further from the peak on their side.
   */
  lemma PlacementIsBijection(steps: nat)
    requires steps >= 1
    ensures var slotOf := PlacementAfter(steps, steps).slotOf;
      && slotOf[0] == PeakIndex(steps)
      && (forall i :: 0 <= i < steps ==> 0 <= slotOf[i] < steps)
      && (forall i, j :: 0 <= i < j < steps ==> slotOf[i] != slotOf[j])
      && (forall s :: 0 <= s < steps ==> s in slotOf)
  {
    PlacementKeepsInvariant(steps, steps);
  }

  /** The arranged slots after `n` blocks: each placed block written into its slot. */
  function ArrangedAfter(blocks: seq<Block>, steps: nat, n: nat): (slots: seq<Option<Block>>)
    requires 1 <= n <= |blocks|
    ensures |slots| == steps
    decreases n
  {
    var slot := PlacementAfter(steps, n).slotOf[n - 1];
    var prev := if n == 1 then seq(steps, _ => None) else ArrangedAfter(blocks, steps, n - 1);
    if 0 <= slot < steps then prev[slot := Some(blocks[n - 1])] else prev
  }

  lemma {:induction false} ArrangedHoldsPlacedBlocks(blocks: seq<Block>, steps: nat, n: nat)
    requires 1 <= n <= steps && |blocks| == steps
    ensures var slotOf := PlacementAfter(steps, n).slotOf;
      forall i :: 0 <= i < n ==> 0 <= slotOf[i] < steps && ArrangedAfter(blocks, steps, n)[slotOf[i]] == Some(blocks[i])
    decreases n
  {
    SlotsInRange(steps, n);
    var slotOf := PlacementAfter(steps, n).slotOf;
    var slot := slotOf[n - 1];
    if n > 1 {
      ArrangedHoldsPlacedBlocks(blocks, steps, n - 1);
      var prev := ArrangedAfter(blocks, steps, n - 1);
      var prevSlots := PlacementAfter(steps, n - 1).slotOf;
      var now := ArrangedAfter(blocks, steps, n);
      assert now == prev[slot := Some(blocks[n - 1])];
      forall i | 0 <= i < n
        ensures now[slotOf[i]] == Some(blocks[i])
      {
        if i < n - 1 {
          assert slotOf[i] == prevSlots[i];
          assert prev[prevSlots[i]] == Some(blocks[i]);
        }
      }
    }
  }

  /** The slots of the first `n` blocks lie in the series, and the last of them is not one of the earlier ones. */
  lemma SlotsInRange(steps: nat, n: nat)
    requires 1 <= n <= steps
    ensures forall i :: 0 <= i < n ==> 0 <= PlacementAfter(steps, n).slotOf[i] < steps
    ensures forall i :: 0 <= i < n - 1 ==> PlacementAfter(steps, n).slotOf[i] != PlacementAfter(steps, n).slotOf[n - 1]
  {
    PlacementKeepsInvariant(steps, n);
  }

  /** Places the sorted blocks into `steps` slots around the peak, in place. */
  method Arrange(blocks: seq<Block>, steps: nat) returns (resultSeries: array<Option<Block>>)
    requires |blocks| == steps >= 1
    ensures fresh(resultSeries)
    ensures resultSeries[..] == ArrangedAfter(blocks, steps, steps)
  {
    resultSeries := new Option<Block>[steps](_ => None);
    var peakIndex: int := PeakIndex(steps);
    resultSeries[peakIndex] := Some(blocks[0]);
    var left: int := peakIndex - 1;
    var right := peakIndex + 1;
    var i := 1;
    while i < |blocks|
      invariant 1 <= i <= |blocks|
      invariant Placement(left, right, PlacementAfter(steps, i).slotOf) == PlacementAfter(steps, i)
      invariant resultSeries[..] == ArrangedAfter(blocks, steps, i)
    {
      left, right := PlaceNext(resultSeries, blocks, steps, i, left, right);
      i := i + 1;
    }
  }

  /** The body of the loop in `calculateEulerType2`: block `i` into the free slot on the left or on the right. */
  method PlaceNext(resultSeries: array<Option<Block>>, blocks: seq<Block>, steps: nat, i: nat, left: int, right: int)
    returns (left': int, right': int)
    requires 1 <= i < |blocks| == steps == resultSeries.Length
    requires Placement(left, right, PlacementAfter(steps, i).slotOf) == PlacementAfter(steps, i)
    requires resultSeries[..] == ArrangedAfter(blocks, steps, i)
    modifies resultSeries
    ensures Placement(left', right', PlacementAfter(steps, i + 1).slotOf) == PlacementAfter(steps, i + 1)
    ensures resultSeries[..] == ArrangedAfter(blocks, steps, i + 1)
  {
    PlacementKeepsInvariant(steps, i);
    ghost var before := resultSeries[..];
    ghost var slotOf := PlacementAfter(steps, i).slotOf;
    if left >= 0 && (i % 2 != 0 || right >= steps) {
      assert PlacementAfter(steps, i + 1) == Placement(left - 1, right, slotOf + [left]);
      resultSeries[left] := Some(blocks[i]);
      left', right' := left - 1, right;
    } else if right < steps {
      assert PlacementAfter(steps, i + 1) == Placement(left, right + 1, slotOf + [right]);
      resultSeries[right] := Some(blocks[i]);
      left', right' := left, right + 1;
    } else {
      // the source's last branch, `left >= 0` once more: both free slots are
      // off the series, which cannot happen while fewer than `steps` blocks are placed
      assert false;
    }
  }

  /** The output series: time `idx * interval`, zeros for an empty slot. */
  function ToSeries(slots: seq<Option<Block>>, interval: real): (out: seq<EulerStep>)
    ensures |out| == |slots|
    ensures forall idx :: 0 <= idx < |slots| ==> out[idx].time == idx as real * interval
    ensures forall idx :: 0 <= idx < |slots| && slots[idx].Some? ==>
      out[idx].intensity == slots[idx].value.intensity && out[idx].heightMm == slots[idx].value.height
    ensures forall idx :: 0 <= idx < |slots| && slots[idx].None? ==> out[idx].intensity == 0.0 && out[idx].heightMm == 0.0
  {
    seq(|slots|, idx requires 0 <= idx < |slots| =>
      EulerStep(idx as real * interval,
                if slots[idx].Some? then slots[idx].value.intensity else 0.0,
                if slots[idx].Some? then slots[idx].value.height else 0.0))
  }

  /** The Euler type II series of `steps >= 1` blocks: sort, arrange, convert. */
  method EulerSeries(row: map<real, real>, ds: seq<real>, steps: nat, interval: real) returns (series: seq<EulerStep>)
    requires forall x :: x in ds ==> x in row
    requires interval != 0.0 && steps >= 1
    ensures |series| == steps
    ensures forall idx :: 0 <= idx < steps ==> series[idx].time == idx as real * interval
    ensures exists blocks :: |blocks| == steps
                             && (forall k :: 0 <= k < steps ==> blocks[k] == BlockAt(row, ds, interval, k + 1))
                             && series == ToSeries(ArrangedAfter(Sorting.SortBy(blocks, NegHeight), steps, steps), interval)
  {
    var blocks := Blocks(row, ds, steps, interval);
    var sorted := Sorting.SortBy(blocks, NegHeight);
    var resultSeries := Arrange(sorted, steps);
    series := ToSeries(resultSeries[..], interval);
  }

  /**
   * `calculateEulerType2` as written: a negative step count is a RangeError
   * from `new Array`, and for zero steps the write of the (missing) largest
   * block to slot 0 grows the empty array to one entry.
   */
  method CalculateEulerType2AsWritten(row: map<real, real>, duration: real, interval: real)
    returns (r: Result<seq<EulerStep>>)
    requires interval != 0.0 || duration <= 0.0
    ensures interval == 0.0 ==> r.Err?
    ensures interval != 0.0 ==> (StepCount(duration, interval) < 0 <==> r.Err?)
    ensures interval != 0.0 && StepCount(duration, interval) == 0 ==> r == Ok([EulerStep(0.0, 0.0, 0.0)])
    ensures interval != 0.0 && StepCount(duration, interval) > 0 ==> r.Ok? && |r.value| == StepCount(duration, interval)
  {
    if interval == 0.0 {
      return Err("RangeError: Invalid array length");
    }
    var steps := StepCount(duration, interval);
    if steps < 0 {
      return Err("RangeError: Invalid array length");
    }
    if steps == 0 {
      var out := ToSeries([None], interval);
      assert out[0] == EulerStep(0.0, 0.0, 0.0);
      assert out == [EulerStep(0.0, 0.0, 0.0)];
      return Ok(out);
    }
    var ds := AvailableDurations(row);
    var series := EulerSeries(row, ds, steps, interval);
    return Ok(series);
  }

  /** The model rain with the zero-step case giving the empty series. */
  method CalculateEulerType2(row: map<real, real>, duration: real, interval: real)
    returns (r: Result<seq<EulerStep>>)
    requires interval != 0.0 || duration <= 0.0
    ensures interval == 0.0 ==> r.Err?
    ensures interval != 0.0 ==> (StepCount(duration, interval) < 0 <==> r.Err?)
    ensures r.Ok? ==> interval != 0.0 && |r.value| == StepCount(duration, interval)
    ensures r.Ok? ==> forall idx :: 0 <= idx < |r.value| ==> r.value[idx].time == idx as real * interval
    ensures interval != 0.0 && StepCount(duration, interval) == 0 ==> r == Ok([])
    ensures interval != 0.0 && StepCount(duration, interval) >= 1 ==> r.Ok? && exists ds, blocks ::
      && StrictlyAscending(ds) && (forall d :: d in ds <==> d in row)
      && |blocks| == StepCount(duration, interval)
      && (forall k :: 0 <= k < |blocks| ==> blocks[k] == BlockAt(row, ds, interval, k + 1))
      && r.value == ToSeries(ArrangedAfter(Sorting.SortBy(blocks, NegHeight), |blocks|, |blocks|), interval)
  {
    if interval == 0.0 {
      return Err("RangeError: Invalid array length");
    }
    var steps := StepCount(duration, interval);
    if steps < 0 {
      return Err("RangeError: Invalid array length");
    }
    if steps == 0 {
      return Ok([]);
    }
    var ds := AvailableDurations(row);
    var series := EulerSeries(row, ds, steps, interval);
    return Ok(series);
  }

  /** For zero steps the series as written has one entry where the step count promises none. */
  lemma ZeroDurationCounterexample()
    ensures StepCount(0.0, 5.0) == 0
    ensures |ToSeries([None], 5.0)| == 1
  {
  }

  /**
   * Of two slots, the one at the peak, or the one nearer the peak on the same
   * side, holds a block at least as high.
   */
  lemma NearerPeakIsHigher(sorted: seq<Block>, steps: nat, s: nat, t: nat)
    requires |sorted| == steps >= 1
    requires Sorting.SortedBy(sorted, NegHeight)
    requires s < steps && t < steps
    requires t == PeakIndex(steps) || s < t <= PeakIndex(steps) || PeakIndex(steps) <= t < s
    ensures var slots := ArrangedAfter(sorted, steps, steps);
      slots[s].Some? && slots[t].Some? && slots[s].value.height <= slots[t].value.height
  {
    var slots := ArrangedAfter(sorted, steps, steps);
    var slotOf := PlacementAfter(steps, steps).slotOf;
    var peak := PeakIndex(steps);
    PlacementKeepsInvariant(steps, steps);
    ArrangedHoldsPlacedBlocks(sorted, steps, steps);
    assert s in slotOf && t in slotOf;
    var i :| 0 <= i < |slotOf| && slotOf[i] == s;
    var j :| 0 <= j < |slotOf| && slotOf[j] == t;
    assert slots[s] == Some(sorted[i]) && slots[t] == Some(sorted[j]);
    if s != t {
      if i < j {
        // a block placed later lands further out than one placed earlier
        assert false;
      }
      assert NegHeight(sorted[j]) <= NegHeight(sorted[i]);
    }
  }

  /**
   * The arranged series is unimodal: the block at the peak slot is the
   * largest, and heights never increase moving away from the peak.
   */
  lemma ArrangedIsUnimodal(sorted: seq<Block>, steps: nat, interval: real)
    requires |sorted| == steps >= 1
    requires Sorting.SortedBy(sorted, NegHeight)
    ensures var out := ToSeries(ArrangedAfter(sorted, steps, steps), interval);
      var peak := PeakIndex(steps);
      && (forall s :: 0 <= s < steps ==> out[s].heightMm <= out[peak].heightMm)
      && (forall s :: 0 < s <= peak ==> out[s - 1].heightMm <= out[s].heightMm)
      && (forall s :: peak <= s < steps - 1 ==> out[s + 1].heightMm <= out[s].heightMm)
  {
    PeakIsHighest(sorted, steps, interval);
    RisesToPeak(sorted, steps, interval);
    FallsAfterPeak(sorted, steps, interval);
  }

  lemma PeakIsHighest(sorted: seq<Block>, steps: nat, interval: real)
    requires |sorted| == steps >= 1
    requires Sorting.SortedBy(sorted, NegHeight)
    ensures var out := ToSeries(ArrangedAfter(sorted, steps, steps), interval);
      forall s :: 0 <= s < steps ==> out[s].heightMm <= out[PeakIndex(steps)].heightMm
  {
    var peak := PeakIndex(steps);
    var slots := ArrangedAfter(sorted, steps, steps);
    var out := ToSeries(slots, interval);
    forall s | 0 <= s < steps
      ensures out[s].heightMm <= out[peak].heightMm
    {
      NearerPeakIsHigher(sorted, steps, s, peak);
    }
  }

  lemma RisesToPeak(sorted: seq<Block>, steps: nat, interval: real)
    requires |sorted| == steps >= 1
    requires Sorting.SortedBy(sorted, NegHeight)
    ensures var out := ToSeries(ArrangedAfter(sorted, steps, steps), interval);
      forall s :: 0 < s <= PeakIndex(steps) ==> out[s - 1].heightMm <= out[s].heightMm
  {
    var peak := PeakIndex(steps);
    var slots := ArrangedAfter(sorted, steps, steps);
    var out := ToSeries(slots, interval);
    forall s | 0 < s <= peak
      ensures out[s - 1].heightMm <= out[s].heightMm
    {
      NearerPeakIsHigher(sorted, steps, s - 1, s);
    }
  }

  lemma FallsAfterPeak(sorted: seq<Block>, steps: nat, interval: real)
    requires |sorted| == steps >= 1
    requires Sorting.SortedBy(sorted, NegHeight)
    ensures var out := ToSeries(ArrangedAfter(sorted, steps, steps), interval);
      forall s :: PeakIndex(steps) <= s < steps - 1 ==> out[s + 1].heightMm <= out[s].heightMm
  {
    var peak := PeakIndex(steps);
    var slots := ArrangedAfter(sorted, steps, steps);
    var out := ToSeries(slots, interval);
    forall s | peak <= s < steps - 1
      ensures out[s + 1].heightMm <= out[s].heightMm
    {
      NearerPeakIsHigher(sorted, steps, s + 1, s);
    }
  }
}
