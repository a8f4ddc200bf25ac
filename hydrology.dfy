/**
 * `HydrologyCalculator`: concentration time, SCS curve-number runoff, the
 * flood wave of a Nash cascade of linear reservoirs, the retention volume a
 * hydrograph needs for a given allowed discharge, and the factorial.
 *
 * Reals stand in for numbers. `Math.pow` with a fractional exponent and
 * `Math.exp` are foreign: the first is a parameter, and of the second only
 * its one value, the reservoirs' decay factor over a time step, is passed in.
 */
module Hydrology {

  /** A hydrograph sample: time (h) and discharge (m^3/s). */
  datatype FlowPoint = FlowPoint(t: real, q: real)

  // ------------------------------------------------------------ Tc and SCS

  /**
   * Concentration time (h) by Kirpich for flow length `lf` (km) and height
   * difference `deltaH` (m): 0 when either is missing or the height is not positive.
   */
  function CalculateTc(lf: real, deltaH: real, pow: (real, real) -> real): (tc: real)
    ensures lf == 0.0 || deltaH <= 0.0 ==> tc == 0.0
    ensures lf != 0.0 && deltaH > 0.0 ==> tc == pow(0.868 * (lf * lf * lf) / deltaH, 0.385)
  {
    if lf == 0.0 || deltaH <= 0.0 then 0.0
    else pow(0.868 * (lf * lf * lf) / deltaH, 0.385)
  }

  /** Potential maximum retention S (mm) of curve number `cn`. */
  function Retention(cn: real): real
    requires cn > 0.0
  {
    25400.0 / cn - 254.0
  }

  /** Effective rainfall (mm) of rainfall `p` (mm) on curve number `cn`, with initial abstraction 0.2 S. */
  function CalculateScsRunoff(p: real, cn: real): (pe: real)
    ensures cn >= 100.0 ==> pe == p
    ensures cn <= 0.0 ==> pe == 0.0
    ensures 0.0 < cn < 100.0 && p <= 0.2 * Retention(cn) ==> pe == 0.0
  {
    if cn >= 100.0 then p
    else if cn <= 0.0 then 0.0
    else
      var s := Retention(cn);
      var ia := 0.2 * s;
      if p <= ia then 0.0
      else Excess(p - ia, s)
  }

  /** The SCS runoff of rainfall `x` in excess of the initial abstraction, for retention `s`. */
  function Excess(x: real, s: real): real
    requires x + s != 0.0
  {
    x * x / (x + s)
  }

  lemma RetentionPositive(cn: real)
    requires 0.0 < cn < 100.0
    ensures Retention(cn) > 0.0
  {
    assert 25400.0 / cn > 254.0 by {
      assert 25400.0 == (25400.0 / cn) * cn;
    }
  }

  /**
   * For a proper curve number the effective rainfall lies between 0 and the
   * rainfall less the initial abstraction, so never exceeds the rainfall.
   */
  lemma ScsRunoffBounded(p: real, cn: real)
    requires 0.0 < cn < 100.0
    ensures 0.0 <= CalculateScsRunoff(p, cn)
    ensures CalculateScsRunoff(p, cn) == 0.0 || CalculateScsRunoff(p, cn) < p - 0.2 * Retention(cn)
    ensures p >= 0.0 ==> CalculateScsRunoff(p, cn) <= p
  {
    RetentionPositive(cn);
    var s := Retention(cn);
    var x := p - 0.2 * s;
    if x > 0.0 {
      ExcessBelowRainfall(x, s);
    }
  }

  /** a / c < b whenever a < b * c for a positive c. */
  lemma QuotientBelow(a: real, c: real, b: real)
    requires c > 0.0 && a < b * c
    ensures a / c < b
  {
    var q := a / c;
    assert q * c == a;
  }

  /** a / c <= b / d whenever a * d <= b * c for positive c and d. */
  lemma QuotientsOrdered(a: real, c: real, b: real, d: real)
    requires c > 0.0 && d > 0.0 && a * d <= b * c
    ensures a / c <= b / d
  {
    var p := a / c;
    var q := b / d;
    assert p * c == a;
    assert q * d == b;
    assert p * c * d <= q * d * c;
  }

  /** The excess runoff is non-negative and less than the excess rainfall. */
  lemma ExcessBelowRainfall(x: real, s: real)
    requires x > 0.0 && s > 0.0
    ensures 0.0 <= Excess(x, s) < x
  {
    assert x * (x + s) == x * x + x * s;
    assert x * s > 0.0;
    QuotientBelow(x * x, x + s, x);
    assert x * x >= 0.0;
  }

  /** Shape of the SCS runoff curve: x^2 / (x + s) grows with x. */
  lemma QuotientMonotone(x1: real, x2: real, s: real)
    requires 0.0 < x1 <= x2 && s > 0.0
    ensures Excess(x1, s) <= Excess(x2, s)
  {
    var e := x2 - x1;
    assert e >= 0.0;
    assert x1 * x1 * (x2 + s) <= x2 * x2 * (x1 + s) by {
      assert x2 * x2 * (x1 + s) - x1 * x1 * (x2 + s) == x1 * x2 * e + s * e * (x1 + x2);
      assert x1 * x2 * e >= 0.0;
      assert s * e * (x1 + x2) >= 0.0;
    }
    QuotientsOrdered(x1 * x1, x1 + s, x2 * x2, x2 + s);
    assert Excess(x1, s) <= Excess(x2, s);
  }

  /** More rainfall never gives less effective rainfall. */
  lemma ScsRunoffMonotone(p1: real, p2: real, cn: real)
    requires p1 <= p2
    ensures cn > 0.0 ==> CalculateScsRunoff(p1, cn) <= CalculateScsRunoff(p2, cn)
  {
    if 0.0 < cn < 100.0 {
      RetentionPositive(cn);
      ScsRunoffBounded(p2, cn);
      var s := Retention(cn);
      if p1 > 0.2 * s {
        QuotientMonotone(p1 - 0.2 * s, p2 - 0.2 * s, s);
      }
    }
  }

  // --------------------------------------------------------- Nash cascade

  /** The inflow (m^3/s) of rain depth `pe` (mm) on `areaKm2` (km^2) spread over a step of `dt` hours. */
  function Inflow(pe: real, areaKm2: real, dt: real): real
    requires dt != 0.0
  {
    pe * areaKm2 * 1000.0 / (dt * 3600.0)
  }

  /**
   * One time step through reservoirs 0 to j-1: their new storages and the
   * outflow of reservoir j-1, which is the inflow of reservoir j. Each
   * reservoir keeps `decay` of its storage and fills towards its inflow.
   */
  function Route(storage: seq<real>, inflow: real, decay: real, kSec: real, j: nat): (r: (seq<real>, real))
    requires j <= |storage| && kSec != 0.0
    ensures |r.0| == j
  {
    if j == 0 then ([], inflow)
    else
      var r := Route(storage, inflow, decay, kSec, j - 1);
      var s := Fill(storage[j - 1], r.1, decay, kSec);
      (r.0 + [s], s / kSec)
  }

  /** A reservoir's storage at the end of a step, from storage `s` and constant inflow `q`. */
  function Fill(s: real, q: real, decay: real, kSec: real): real {
    s * decay + q * kSec * (1.0 - decay)
  }

  /** The storages of the `n` reservoirs after the first `i` rain steps. */
  function StorageAfter(rain: seq<real>, areaKm2: real, k: real, n: nat, dt: real, decay: real, i: nat): (s: seq<real>)
    requires i <= |rain| && k != 0.0 && dt != 0.0
    ensures |s| == n
  {
    if i == 0 then seq(n, _ => 0.0)
    else
      var prev := StorageAfter(rain, areaKm2, k, n, dt, decay, i - 1);
      Route(prev, Inflow(rain[i - 1], areaKm2, dt), decay, k * 3600.0, n).0
  }

  /** The cascade's outflow at the end of rain step `i`. */
  function OutflowAt(rain: seq<real>, areaKm2: real, k: real, n: nat, dt: real, decay: real, i: nat): real
    requires i < |rain| && k != 0.0 && dt != 0.0
  {
    Route(StorageAfter(rain, areaKm2, k, n, dt, decay, i), Inflow(rain[i], areaKm2, dt), decay, k * 3600.0, n).1
  }

  /**
   * The flood wave of effective rain depths `rainSeries` on a catchment of
   * `areaKm2` through `n` reservoirs of storage constant `k` (h), at step `dt` (h).
   * `decay` is the value of exp(-dt / k).
   */
  method CalculateFloodWave(rainSeries: seq<real>, areaKm2: real, k: real, n: nat, dt: real, decay: real)
    returns (results: seq<FlowPoint>)
    requires k != 0.0 && dt != 0.0
    ensures |results| == |rainSeries|
    ensures forall i :: 0 <= i < |results| ==>
      results[i] == FlowPoint(i as real * dt, OutflowAt(rainSeries, areaKm2, k, n, dt, decay, i))
  {
    var storage := new real[n](_ => 0.0);
    results := [];
    var kSec := k * 3600.0;
    var i := 0;
    while i < |rainSeries|
      invariant 0 <= i <= |rainSeries|
      invariant storage[..] == StorageAfter(rainSeries, areaKm2, k, n, dt, decay, i)
      invariant |results| == i
      invariant forall m :: 0 <= m < i ==>
        results[m] == FlowPoint(m as real * dt, OutflowAt(rainSeries, areaKm2, k, n, dt, decay, m))
    {
      var current := RouteInPlace(storage, Inflow(rainSeries[i], areaKm2, dt), decay, kSec);
      FloodStep(rainSeries, areaKm2, k, n, dt, decay, i);
      var point := FlowPoint(i as real * dt, current);
      assert point == FlowPoint(i as real * dt, OutflowAt(rainSeries, areaKm2, k, n, dt, decay, i));
      results := results + [point];
      i := i + 1;
    }
  }

  /** Rain step `i` routes the storages after step `i` into those after step `i + 1` and the outflow at `i`. */
  lemma FloodStep(rain: seq<real>, areaKm2: real, k: real, n: nat, dt: real, decay: real, i: nat)
    requires i < |rain| && k != 0.0 && dt != 0.0
    ensures StorageAfter(rain, areaKm2, k, n, dt, decay, i + 1)
      == Route(StorageAfter(rain, areaKm2, k, n, dt, decay, i), Inflow(rain[i], areaKm2, dt), decay, k * 3600.0, n).0
    ensures OutflowAt(rain, areaKm2, k, n, dt, decay, i)
      == Route(StorageAfter(rain, areaKm2, k, n, dt, decay, i), Inflow(rain[i], areaKm2, dt), decay, k * 3600.0, n).1
  {
  }

  /** One time step through all reservoirs of `storage`, which it updates; returns the last reservoir's outflow. */
  method RouteInPlace(storage: array<real>, inflow: real, decay: real, kSec: real) returns (current: real)
    requires kSec != 0.0
    modifies storage
    ensures storage[..] == Route(old(storage[..]), inflow, decay, kSec, storage.Length).0
    ensures current == Route(old(storage[..]), inflow, decay, kSec, storage.Length).1
  {
    ghost var before := storage[..];
    current := inflow;
    var j := 0;
    while j < storage.Length
      invariant 0 <= j <= storage.Length
      invariant storage[..j] == Route(before, inflow, decay, kSec, j).0
      invariant storage[j..] == before[j..]
      invariant current == Route(before, inflow, decay, kSec, j).1
    {
      var sNew := storage[j] * decay + current * kSec * (1.0 - decay);
      assert sNew == Fill(before[j], current, decay, kSec);
      storage[j] := sNew;
      current := sNew / kSec;
      assert storage[..j + 1] == storage[..j] + [sNew];
      j := j + 1;
    }
    assert storage[..] == storage[..j];
  }

  /** Routing non-negative storages with a non-negative inflow and a decay in [0, 1] stays non-negative. */
  lemma {:induction false} RouteNonNegative(storage: seq<real>, inflow: real, decay: real, kSec: real, j: nat)
    requires j <= |storage| && kSec > 0.0 && 0.0 <= decay <= 1.0 && inflow >= 0.0
    requires forall m :: 0 <= m < |storage| ==> storage[m] >= 0.0
    ensures var r := Route(storage, inflow, decay, kSec, j);
      r.1 >= 0.0 && forall m :: 0 <= m < j ==> r.0[m] >= 0.0
  {
    if j > 0 {
      RouteNonNegative(storage, inflow, decay, kSec, j - 1);
      var q := Route(storage, inflow, decay, kSec, j - 1).1;
      assert storage[j - 1] * decay >= 0.0;
      assert q * kSec * (1.0 - decay) >= 0.0;
    }
  }

  lemma {:induction false} StorageNonNegative(rain: seq<real>, areaKm2: real, k: real, n: nat, dt: real, decay: real, i: nat)
    requires i <= |rain| && k > 0.0 && dt > 0.0 && areaKm2 >= 0.0 && 0.0 <= decay <= 1.0
    requires forall m :: 0 <= m < |rain| ==> rain[m] >= 0.0
    ensures forall m :: 0 <= m < n ==> StorageAfter(rain, areaKm2, k, n, dt, decay, i)[m] >= 0.0
  {
    if i > 0 {
      StorageNonNegative(rain, areaKm2, k, n, dt, decay, i - 1);
      assert Inflow(rain[i - 1], areaKm2, dt) >= 0.0 by {
        assert rain[i - 1] * areaKm2 * 1000.0 >= 0.0;
      }
      RouteNonNegative(StorageAfter(rain, areaKm2, k, n, dt, decay, i - 1),
                       Inflow(rain[i - 1], areaKm2, dt), decay, k * 3600.0, n);
    }
  }

  /** Non-negative rain on a real catchment, with a decay factor in [0, 1], never gives a negative discharge. */
  lemma FloodWaveNonNegative(rain: seq<real>, areaKm2: real, k: real, n: nat, dt: real, decay: real, i: nat)
    requires i < |rain| && k > 0.0 && dt > 0.0 && areaKm2 >= 0.0 && 0.0 <= decay <= 1.0
    requires forall m :: 0 <= m < |rain| ==> rain[m] >= 0.0
    ensures OutflowAt(rain, areaKm2, k, n, dt, decay, i) >= 0.0
  {
    StorageNonNegative(rain, areaKm2, k, n, dt, decay, i);
    assert Inflow(rain[i], areaKm2, dt) >= 0.0 by {
      assert rain[i] * areaKm2 * 1000.0 >= 0.0;
    }
    RouteNonNegative(StorageAfter(rain, areaKm2, k, n, dt, decay, i), Inflow(rain[i], areaKm2, dt), decay, k * 3600.0, n);
  }

  /** With no reservoir the outflow is the inflow itself. */
  lemma NoReservoirPassesInflow(rain: seq<real>, areaKm2: real, k: real, dt: real, decay: real, i: nat)
    requires i < |rain| && k != 0.0 && dt != 0.0
    ensures OutflowAt(rain, areaKm2, k, 0, dt, decay, i) == Inflow(rain[i], areaKm2, dt)
  {
  }

  // ------------------------------------------------------------ retention

  /** The running state of the retention integration: current and largest volume so far (m^3). */
  datatype Storage = Storage(current: real, largest: real)

  /** The volume after one more sample whose inflow exceeds the allowed outflow by `diff`: an empty basin stays at 0. */
  function Accumulate(current: real, diff: real, dtSec: real): (v: real)
    ensures v >= 0.0
  {
    var v := current + diff * dtSec;
    if v < 0.0 then 0.0 else v
  }

  /** The state after the samples of `hydrograph`, discharging `qAllowed` over steps of `dtSec` seconds. */
  function RetentionAfter(hydrograph: seq<FlowPoint>, qAllowed: real, dtSec: real): (st: Storage)
    ensures 0.0 <= st.current <= st.largest
  {
    if hydrograph == [] then Storage(0.0, 0.0)
    else
      var prev := RetentionAfter(hydrograph[..|hydrograph| - 1], qAllowed, dtSec);
      var current := Accumulate(prev.current, hydrograph[|hydrograph| - 1].q - qAllowed, dtSec);
      Storage(current, if current > prev.largest then current else prev.largest)
  }

  /** The retention volume (m^3) a hydrograph sampled every `dt` hours needs when at most `qAllowed` may leave. */
  method CalculateRetentionVolume(hydrograph: seq<FlowPoint>, qAllowed: real, dt: real) returns (maxVol: real)
    ensures maxVol == RetentionAfter(hydrograph, qAllowed, dt * 3600.0).largest
    ensures maxVol >= 0.0
  {
    maxVol := 0.0;
    var currentVol := 0.0;
    var dtSec := dt * 3600.0;
    var i := 0;
    while i < |hydrograph|
      invariant 0 <= i <= |hydrograph|
      invariant Storage(currentVol, maxVol) == RetentionAfter(hydrograph[..i], qAllowed, dtSec)
    {
      RetentionStep(hydrograph, i, qAllowed, dtSec);
      var diff := hydrograph[i].q - qAllowed;
      ghost var accumulated := Accumulate(currentVol, diff, dtSec);
      currentVol := currentVol + diff * dtSec;
      if currentVol < 0.0 {
        currentVol := 0.0;
      }
      assert currentVol == accumulated;
      if currentVol > maxVol {
        maxVol := currentVol;
      }
      i := i + 1;
    }
    assert hydrograph[..i] == hydrograph;
  }

  /** One more sample: the volume accumulates its excess, and the largest volume follows. */
  lemma RetentionStep(hydrograph: seq<FlowPoint>, i: nat, qAllowed: real, dtSec: real)
    requires i < |hydrograph|
    ensures var prev := RetentionAfter(hydrograph[..i], qAllowed, dtSec);
      var current := Accumulate(prev.current, hydrograph[i].q - qAllowed, dtSec);
      RetentionAfter(hydrograph[..i + 1], qAllowed, dtSec) == Storage(current, if current > prev.largest then current else prev.largest)
  {
    assert hydrograph[..i + 1][..i] == hydrograph[..i];
  }

  /** The result is the largest running volume: no prefix holds more, and some prefix (or none) holds exactly that. */
  lemma {:induction false} RetentionIsLargestRunningVolume(hydrograph: seq<FlowPoint>, qAllowed: real, dtSec: real)
    ensures forall i :: 0 <= i <= |hydrograph| ==>
      RetentionAfter(hydrograph[..i], qAllowed, dtSec).current <= RetentionAfter(hydrograph, qAllowed, dtSec).largest
    ensures RetentionAfter(hydrograph, qAllowed, dtSec).largest == 0.0
         || exists i :: 0 < i <= |hydrograph| && RetentionAfter(hydrograph[..i], qAllowed, dtSec).current
                                                == RetentionAfter(hydrograph, qAllowed, dtSec).largest
  {
    if hydrograph != [] {
      var init := hydrograph[..|hydrograph| - 1];
      RetentionIsLargestRunningVolume(init, qAllowed, dtSec);
      forall i | 0 <= i <= |hydrograph|
        ensures RetentionAfter(hydrograph[..i], qAllowed, dtSec).current <= RetentionAfter(hydrograph, qAllowed, dtSec).largest
      {
        if i < |hydrograph| {
          assert hydrograph[..i] == init[..i];
        } else {
          assert hydrograph[..i] == hydrograph;
        }
      }
      var whole := RetentionAfter(hydrograph, qAllowed, dtSec);
      if whole.largest != RetentionAfter(init, qAllowed, dtSec).largest {
        assert hydrograph[..|hydrograph|] == hydrograph;
      } else if RetentionAfter(init, qAllowed, dtSec).largest != 0.0 {
        var i :| 0 < i <= |init| && RetentionAfter(init[..i], qAllowed, dtSec).current == RetentionAfter(init, qAllowed, dtSec).largest;
        assert hydrograph[..i] == init[..i];
      }
    }
  }

  /** When the allowed discharge is never exceeded, no retention volume is needed. */
  lemma {:induction false} NoExcessNoRetention(hydrograph: seq<FlowPoint>, qAllowed: real, dtSec: real)
    requires dtSec >= 0.0
    requires forall i :: 0 <= i < |hydrograph| ==> hydrograph[i].q <= qAllowed
    ensures RetentionAfter(hydrograph, qAllowed, dtSec) == Storage(0.0, 0.0)
  {
    if hydrograph != [] {
      NoExcessNoRetention(hydrograph[..|hydrograph| - 1], qAllowed, dtSec);
      assert (hydrograph[|hydrograph| - 1].q - qAllowed) * dtSec <= 0.0 by {
        assert hydrograph[|hydrograph| - 1].q - qAllowed <= 0.0;
      }
    }
  }

  // ------------------------------------------------------------ factorial

  /** The factorial of `num`, with -1 for a negative argument. */
  function Factorial(num: int): (f: int)
    ensures num < 0 ==> f == -1
    ensures num == 0 ==> f == 1
    ensures num >= 0 ==> f >= 1
    ensures num >= 1 ==> f >= num
    decreases if num < 0 then 0 else num
  {
    if num < 0 then -1
    else if num == 0 then 1
    else num * Factorial(num - 1)
  }

  /** The cofactor of `d` in n!: the product of 1 to n with the factor d left out. */
  function Cofactor(n: int, d: int): int
    requires 1 <= d <= n
    decreases n
  {
    if d == n then Factorial(n - 1) else n * Cofactor(n - 1, d)
  }

  lemma MulSwap(x: int, y: int, z: int)
    ensures x * (y * z) == y * (x * z)
  {
  }

  /** n! is a multiple of every d from 1 to n. */
  lemma {:induction false} FactorialIsMultiple(n: int, d: int)
    requires 1 <= d <= n
    ensures Factorial(n) == d * Cofactor(n, d)
    decreases n
  {
    if d < n {
      FactorialIsMultiple(n - 1, d);
      var c := Cofactor(n - 1, d);
      assert Factorial(n) == n * (d * c);
      assert Cofactor(n, d) == n * c;
      MulSwap(n, d, c);
    }
  }
}
