/** Gain ramps and in-memory peak normalisation (the effects module). */
module Effects {
  import opened Common
  import opened Audio

  /** Default step of the eased ramp (ms). */
  const GainRampStepMs: int := 15
  /** Default step of the linear ramp (ms). */
  const LinearGainRampStepMs: int := 20
  /** Peak that normalisation aims for (dBFS). */
  const NormalizeTargetDb: real := -0.1
  /** Deviations up to this size are left alone by normalisation (dB). */
  const NormalizeToleranceDb: real := 0.1

  /** Easing curves. The S-curve `0.5 * (1 - cos(pi * t))` is floating-point
      trigonometry; it is carried as an opaque function. */
  datatype Curve = Linear | EaseIn | EaseOut | EaseInOut(sCurve: real -> real)

  /** The curve a name selects; every unrecognised name behaves as ease-in. */
  function CurveNamed(name: string, sCurve: real -> real): (c: Curve)
    ensures c.Linear? <==> name == "linear"
    ensures c.EaseOut? <==> name == "ease_out"
    ensures c.EaseInOut? <==> name == "ease_in_out"
    ensures c.EaseIn? <==> name != "linear" && name != "ease_out" && name != "ease_in_out"
  {
    if name == "linear" then Linear
    else if name == "ease_out" then EaseOut
    else if name == "ease_in_out" then EaseInOut(sCurve)
    else EaseIn
  }

  /** `map_t`: the eased position for a normalised time t. */
  function MapT(c: Curve, t: real): real {
    match c
    case Linear => t
    case EaseOut => 1.0 - (1.0 - t) * (1.0 - t)
    case EaseInOut(s) => s(t)
    case EaseIn => t * t
  }

  /** The polynomial curves start at 0, end at 1 and never go down in
      between. */
  lemma CurveShape(c: Curve, t: real, u: real)
    requires !c.EaseInOut?
    requires 0.0 <= t <= u <= 1.0
    ensures MapT(c, 0.0) == 0.0 && MapT(c, 1.0) == 1.0
    ensures MapT(c, t) <= MapT(c, u)
    ensures 0.0 <= MapT(c, t) <= 1.0
  {
    match c
    case Linear =>
    case EaseIn =>
      assert u * u - t * t == (u - t) * (u + t);
      ProductNonneg(u - t, u + t);
      assert t * 1.0 - t * t == t * (1.0 - t);
      ProductNonneg(t, 1.0 - t);
    case EaseOut =>
      var a, b := 1.0 - u, 1.0 - t;
      assert b * b - a * a == (b - a) * (b + a);
      ProductNonneg(b - a, b + a);
      assert b * 1.0 - b * b == b * (1.0 - b);
      ProductNonneg(b, 1.0 - b);
  }

  /** `np.clip(x, 0.0, 1.0)`. */
  function Clamp01(x: real): (r: real)
    ensures 0.0 <= r <= 1.0
    ensures 0.0 <= x <= 1.0 ==> r == x
    ensures x < 0.0 ==> r == 0.0
    ensures x > 1.0 ==> r == 1.0
  {
    if x < 0.0 then 0.0 else if x > 1.0 then 1.0 else x
  }

  /** `steps = max(1, total_ms // step_ms)` for a non-zero step. */
  function StepCount(total: nat, step: int): (n: nat)
    requires step != 0
    ensures n >= 1
    ensures step > 0 && total >= step ==> n == total / step
    ensures step < 0 || total < step ==> n == 1
  {
    if step > 0 then Max(1, total / step) else 1
  }

  /** Start of slice i: `i * step_ms`. */
  function StepLo(i: int, step: int): int { i * step }

  /** End of slice i: the next slice's start, except that the last slice
      runs to the end of the segment. */
  function StepHi(i: int, n: int, step: int, total: int): int {
    if i == n - 1 then total else (i + 1) * step
  }

  /** `t = (seg_start + seg_end) / 2.0 / max(1, total_ms)`. */
  function Midpoint(i: int, n: int, step: int, total: int): real {
    ((StepLo(i, step) + StepHi(i, n, step, total)) as real / 2.0) / (Max(1, total) as real)
  }

  /** The constant gain of slice i of an eased ramp. */
  function EasedStepGain(i: int, n: int, step: int, total: int, g0: real, g1: real, curve: Curve): real {
    CurveGain(g0, g1, curve, Midpoint(i, n, step, total))
  }

  /** `start_gain + (end_gain - start_gain) * clip(map_t(t))`. */
  function CurveGain(g0: real, g1: real, curve: Curve, t: real): real {
    g0 + (g1 - g0) * Clamp01(MapT(curve, t))
  }

  /** The constant gain of slice i of a linear ramp (no curve, no clip). */
  function LinearStepGain(i: int, n: int, step: int, total: int, g0: real, g1: real): real {
    g0 + (g1 - g0) * Midpoint(i, n, step, total)
  }

  /** One slice of a ramp: the half-open range [lo, hi) gets gain `gain`. */
  datatype Step = Step(lo: int, hi: int, gain: real)

  /** Slices that tile [0, total) from left to right. */
  predicate Tiles(plan: seq<Step>, total: nat) {
    && |plan| >= 1
    && plan[0].lo == 0
    && plan[|plan| - 1].hi == total
    && (forall i :: 0 <= i < |plan| ==> 0 <= plan[i].lo < plan[i].hi <= total)
    && (forall i :: 0 <= i < |plan| - 1 ==> plan[i].hi == plan[i + 1].lo)
  }

  /** The ramp loop: each slice `segment[lo:hi]` gets its gain and is appended
      to the output in order. */
  function ApplyPlan(c: Clip, plan: seq<Step>): Clip
    decreases |plan|
  {
    if |plan| == 0 then []
    else
      var last := plan[|plan| - 1];
      ApplyPlan(c, plan[..|plan| - 1]) + ApplyGain(Slice(c, last.lo, last.hi), last.gain)
  }

  /** A chain of contiguous slices from 0: the output is as long as the
      chain reaches and every millisecond carries its own slice's gain. */
  lemma ApplyPlanContents(c: Clip, plan: seq<Step>)
    requires |plan| >= 1 && plan[0].lo == 0
    requires forall i :: 0 <= i < |plan| ==> 0 <= plan[i].lo < plan[i].hi <= |c|
    requires forall i :: 0 <= i < |plan| - 1 ==> plan[i].hi == plan[i + 1].lo
    ensures |ApplyPlan(c, plan)| == plan[|plan| - 1].hi
    ensures forall i, k :: 0 <= i < |plan| && plan[i].lo <= k < plan[i].hi ==>
              k < |ApplyPlan(c, plan)| && ApplyPlan(c, plan)[k] == AddGain(c[k], plan[i].gain)
  {
    var m := |plan| - 1;
    ApplyPlanLength(c, plan);
    forall i | 0 <= i < m
      ensures plan[i].hi <= plan[m].hi
    {
      ChainOrdered(plan, i, m - 1);
    }
    forall i, k | 0 <= i < |plan| && plan[i].lo <= k < plan[i].hi
      ensures k < |ApplyPlan(c, plan)| && ApplyPlan(c, plan)[k] == AddGain(c[k], plan[i].gain)
    {
      ApplyPlanAt(c, plan, i, k);
    }
  }

  lemma {:induction false} ApplyPlanLength(c: Clip, plan: seq<Step>)
    requires |plan| >= 1 && plan[0].lo == 0
    requires forall i :: 0 <= i < |plan| ==> 0 <= plan[i].lo < plan[i].hi <= |c|
    requires forall i :: 0 <= i < |plan| - 1 ==> plan[i].hi == plan[i + 1].lo
    ensures |ApplyPlan(c, plan)| == plan[|plan| - 1].hi
    decreases |plan|
  {
    var m := |plan| - 1;
    if m == 0 {
      assert plan[..m] == [];
    } else {
      var pre := plan[..m];
      ApplyPlanLength(c, pre);
      assert pre[m - 1] == plan[m - 1];
    }
  }

  /** Millisecond k of slice i carries that slice's gain. */
  lemma {:induction false} ApplyPlanAt(c: Clip, plan: seq<Step>, i: int, k: int)
    requires |plan| >= 1 && plan[0].lo == 0
    requires forall i :: 0 <= i < |plan| ==> 0 <= plan[i].lo < plan[i].hi <= |c|
    requires forall i :: 0 <= i < |plan| - 1 ==> plan[i].hi == plan[i + 1].lo
    requires 0 <= i < |plan| && plan[i].lo <= k < plan[i].hi
    ensures k < |ApplyPlan(c, plan)| && ApplyPlan(c, plan)[k] == AddGain(c[k], plan[i].gain)
    decreases |plan|
  {
    var m := |plan| - 1;
    var last := plan[m];
    var piece := ApplyGain(Slice(c, last.lo, last.hi), last.gain);
    var pre := plan[..m];
    var head := ApplyPlan(c, pre);
    ApplyPlanLength(c, plan);
    assert ApplyPlan(c, plan) == head + piece;
    if m == 0 {
      assert pre == [];
    } else {
      ApplyPlanLength(c, pre);
      assert pre[m - 1] == plan[m - 1];
    }
    assert |head| == last.lo;
    if i == m {
      assert ApplyPlan(c, plan)[k] == piece[k - last.lo];
    } else {
      assert pre[i] == plan[i];
      assert plan[i].hi <= last.lo by { ChainOrdered(plan, i, m - 1); }
      ApplyPlanAt(c, pre, i, k);
    }
  }

  lemma {:induction false} ChainOrdered(plan: seq<Step>, i: int, j: int)
    requires forall i :: 0 <= i < |plan| ==> plan[i].lo < plan[i].hi
    requires forall i :: 0 <= i < |plan| - 1 ==> plan[i].hi == plan[i + 1].lo
    requires 0 <= i <= j < |plan| - 1
    ensures plan[i].hi <= plan[j].hi
    decreases j - i
  {
    if i < j {
      ChainOrdered(plan, i, j - 1);
    }
  }

  /** The slices the ramp loop visits, with the given per-slice gain. */
  function RampPlan(total: nat, step: int, gains: int -> real): (plan: seq<Step>)
    requires step != 0
    ensures |plan| == StepCount(total, step)
    ensures forall i :: 0 <= i < |plan| ==>
              plan[i] == Step(StepLo(i, step), StepHi(i, |plan|, step, total), gains(i))
  {
    var n := StepCount(total, step);
    seq(n, i requires 0 <= i < n => Step(StepLo(i, step), StepHi(i, n, step, total), gains(i)))
  }

  /** The index of the slice holding millisecond k. */
  function SliceIndex(k: nat, n: nat, step: int): (i: nat)
    requires n >= 1
    ensures i < n
  {
    if step > 0 then Min(k / step, n - 1) else 0
  }

  /** The loop's slices tile the segment; slice i starts at i * step, and the
      last one absorbs the remainder, so it is shorter than two steps. */
  lemma RampPlanTiles(total: nat, step: int, gains: int -> real)
    requires step != 0 && total >= 1
    ensures Tiles(RampPlan(total, step, gains), total)
    ensures step > 0 ==> var n := StepCount(total, step);
              total - StepLo(n - 1, step) < 2 * step
    ensures forall k :: 0 <= k < total ==>
              var i := SliceIndex(k, StepCount(total, step), step);
              var n := StepCount(total, step);
              StepLo(i, step) <= k < StepHi(i, n, step, total)
  {
    var n := StepCount(total, step);
    var plan := RampPlan(total, step, gains);
    if step > 0 {
      StepArith(total, step);
      forall i | 0 <= i < n ensures 0 <= plan[i].lo < plan[i].hi <= total {
        StepBounds(i, n, step, total);
      }
      forall k | 0 <= k < total
        ensures StepLo(SliceIndex(k, n, step), step) <= k < StepHi(SliceIndex(k, n, step), n, step, total)
      {
        SliceIndexArith(k, n, step, total);
      }
    }
  }

  /** The arithmetic of `steps = max(1, total // step)` for a positive step. */
  lemma StepArith(total: nat, step: int)
    requires step > 0 && total >= 1
    ensures var n := StepCount(total, step);
      (n - 1) * step < total && n * step <= Max(total, step) && total - (n - 1) * step < 2 * step
  {
    var n := StepCount(total, step);
    if total >= step {
      var q, r := total / step, total % step;
      assert total == q * step + r;
      assert n == q;
      assert (n - 1) * step == n * step - step;
    }
  }

  lemma StepBounds(i: int, n: nat, step: int, total: nat)
    requires step > 0 && total >= 1 && n == StepCount(total, step)
    requires 0 <= i < n
    ensures 0 <= StepLo(i, step) < StepHi(i, n, step, total) <= total
    ensures i < n - 1 ==> StepHi(i, n, step, total) == StepLo(i + 1, step)
  {
    StepArith(total, step);
    assert (i + 1) * step == i * step + step;
    if i < n - 1 {
      assert (i + 1) * step <= (n - 1) * step by { MulMono(i + 1, n - 1, step); }
    } else {
      assert i * step == (n - 1) * step;
    }
    assert 0 <= i * step by { MulMono(0, i, step); }
  }

  lemma SliceIndexArith(k: nat, n: nat, step: int, total: nat)
    requires step > 0 && total >= 1 && n == StepCount(total, step) && k < total
    ensures var i := SliceIndex(k, n, step);
      StepLo(i, step) <= k < StepHi(i, n, step, total)
  {
    var i := SliceIndex(k, n, step);
    var q, r := k / step, k % step;
    assert k == q * step + r;
    if q <= n - 1 {
      assert i == q;
      if i < n - 1 {
        assert (i + 1) * step == q * step + step;
      }
    } else {
      assert i == n - 1;
      MulMono(n - 1, q, step);
    }
  }

  /** Later slices have later midpoints, all strictly inside (0, 1). */
  lemma MidpointOrder(i: int, j: int, n: nat, step: int, total: nat)
    requires step != 0 && total >= 1 && n == StepCount(total, step)
    requires 0 <= i <= j < n
    ensures 0.0 < Midpoint(i, n, step, total) < 1.0
    ensures Midpoint(i, n, step, total) <= Midpoint(j, n, step, total)
  {
    var lo_i, hi_i := StepLo(i, step), StepHi(i, n, step, total);
    var lo_j, hi_j := StepLo(j, step), StepHi(j, n, step, total);
    if step > 0 {
      StepBounds(i, n, step, total);
      StepBounds(j, n, step, total);
      if i < j {
        assert hi_i <= lo_j by {
          assert hi_i == StepLo(i + 1, step);
          MulMono(i + 1, j, step);
        }
      }
    } else {
      assert n == 1 && i == 0 && j == 0;
    }
    assert 0 < lo_i + hi_i < 2 * total;
    assert lo_i + hi_i <= lo_j + hi_j;
    var d := total as real;
    assert Midpoint(i, n, step, total) == ((lo_i + hi_i) as real / 2.0) / d;
    assert Midpoint(j, n, step, total) == ((lo_j + hi_j) as real / 2.0) / d;
    DivMono((lo_i + hi_i) as real / 2.0, (lo_j + hi_j) as real / 2.0, d);
    DivMono(0.0, (lo_i + hi_i) as real / 2.0, d);
  }

  lemma DivMono(a: real, b: real, d: real)
    requires a <= b && d > 0.0
    ensures a / d <= b / d
    ensures a > 0.0 ==> a / d > 0.0
    ensures b < d ==> b / d < 1.0
  {
    var p, q := a / d, b / d;
    assert p * d == a && q * d == b;
    assert (q - p) * d == b - a;
    SignOfProduct(q - p, d);
    SignOfProduct(p, d);
    assert (1.0 - q) * d == d - b;
    SignOfProduct(1.0 - q, d);
  }

  /** With a positive factor, the sign of a product is that of the other
      factor. */
  lemma SignOfProduct(x: real, d: real)
    requires d > 0.0
    ensures x * d > 0.0 ==> x > 0.0
    ensures x * d >= 0.0 ==> x >= 0.0
  {
  }

  /** `apply_eased_gain_ramp`: `segment` with a piecewise-constant gain going
      from `g0` to `g1` along `curve`. An empty segment, a flat ramp, and the
      zero step (whose division error the source catches) all yield the
      constant gain `g0`. */
  function EasedGainRamp(c: Clip, g0: real, g1: real, stepMs: Option<int>, curve: Curve): (r: Clip)
    ensures |r| == |c|
    ensures |c| == 0 || g0 == g1 || stepMs == Some(0) ==> r == ApplyGain(c, g0)
    ensures |c| > 0 && g0 != g1 && stepMs != Some(0) ==>
              var step := if stepMs.None? then GainRampStepMs else stepMs.value;
              var n := StepCount(|c|, step);
              forall k :: 0 <= k < |c| ==>
                r[k] == AddGain(c[k], EasedStepGain(SliceIndex(k, n, step), n, step, |c|, g0, g1, curve))
  {
    var step := if stepMs.None? then GainRampStepMs else stepMs.value;
    if |c| == 0 || g0 == g1 then ApplyGain(c, g0)
    else if step == 0 then ApplyGain(c, g0)
    else
      var n := StepCount(|c|, step);
      var gains := i => EasedStepGain(i, n, step, |c|, g0, g1, curve);
      var plan := RampPlan(|c|, step, gains);
      RampPlanTiles(|c|, step, gains);
      ApplyPlanContents(c, plan);
      ApplyPlan(c, plan)
  }

  /** `apply_linear_gain_ramp`: the same slicing with a straight-line gain. */
  function LinearGainRamp(c: Clip, g0: real, g1: real, stepMs: Option<int>): (r: Clip)
    ensures |r| == |c|
    ensures |c| == 0 || g0 == g1 || stepMs == Some(0) ==> r == ApplyGain(c, g0)
    ensures |c| > 0 && g0 != g1 && stepMs != Some(0) ==>
              var step := if stepMs.None? then LinearGainRampStepMs else stepMs.value;
              var n := StepCount(|c|, step);
              forall k :: 0 <= k < |c| ==>
                r[k] == AddGain(c[k], LinearStepGain(SliceIndex(k, n, step), n, step, |c|, g0, g1))
  {
    var step := if stepMs.None? then LinearGainRampStepMs else stepMs.value;
    if |c| == 0 || g0 == g1 then ApplyGain(c, g0)
    else if step == 0 then ApplyGain(c, g0)
    else
      var n := StepCount(|c|, step);
      var gains := i => LinearStepGain(i, n, step, |c|, g0, g1);
      var plan := RampPlan(|c|, step, gains);
      RampPlanTiles(|c|, step, gains);
      ApplyPlanContents(c, plan);
      ApplyPlan(c, plan)
  }

  /** The linear ramp is the eased ramp with the linear curve and the linear
      ramp's default step: clipping never bites because every midpoint lies
      inside (0, 1). */
  lemma LinearIsEasedLinear(c: Clip, g0: real, g1: real, stepMs: Option<int>)
    ensures LinearGainRamp(c, g0, g1, stepMs) ==
            EasedGainRamp(c, g0, g1, Some(if stepMs.None? then LinearGainRampStepMs else stepMs.value), Linear)
  {
    var step := if stepMs.None? then LinearGainRampStepMs else stepMs.value;
    var lin := LinearGainRamp(c, g0, g1, stepMs);
    var eased := EasedGainRamp(c, g0, g1, Some(step), Linear);
    if |c| > 0 && g0 != g1 && step != 0 {
      var n := StepCount(|c|, step);
      forall k | 0 <= k < |c| ensures lin[k] == eased[k] {
        LinearStepIsEased(SliceIndex(k, n, step), n, step, |c|, g0, g1);
      }
    }
  }

  lemma LinearStepIsEased(i: int, n: nat, step: int, total: nat, g0: real, g1: real)
    requires step != 0 && total >= 1 && n == StepCount(total, step) && 0 <= i < n
    ensures LinearStepGain(i, n, step, total, g0, g1) == EasedStepGain(i, n, step, total, g0, g1, Linear)
  {
    MidpointOrder(i, i, n, step, total);
  }

  /** Every slice gain of an eased ramp lies between the start and end gains;
      with a polynomial curve the gains move monotonically from `g0` toward
      `g1` as the slice index grows. */
  lemma EasedGainsBetweenAndMonotone(i: int, j: int, total: nat, step: int, g0: real, g1: real, curve: Curve)
    requires step != 0 && total >= 1
    requires 0 <= i <= j < StepCount(total, step)
    ensures var n := StepCount(total, step);
            var gi := EasedStepGain(i, n, step, total, g0, g1, curve);
            MinR(g0, g1) <= gi <= MaxR(g0, g1)
    ensures !curve.EaseInOut? ==>
            var n := StepCount(total, step);
            var gi := EasedStepGain(i, n, step, total, g0, g1, curve);
            var gj := EasedStepGain(j, n, step, total, g0, g1, curve);
            (g0 <= g1 ==> gi <= gj) && (g1 <= g0 ==> gj <= gi)
  {
    var n := StepCount(total, step);
    MidpointOrder(i, j, n, step, total);
    MidpointOrder(j, j, n, step, total);
    GainAlongCurve(g0, g1, curve, Midpoint(i, n, step, total), Midpoint(j, n, step, total));
  }

  /** The gain at eased position t lies between g0 and g1 and, for the
      polynomial curves, moves toward g1 as t grows. */
  lemma GainAlongCurve(g0: real, g1: real, curve: Curve, t: real, u: real)
    requires 0.0 <= t <= u <= 1.0
    ensures MinR(g0, g1) <= CurveGain(g0, g1, curve, t) <= MaxR(g0, g1)
    ensures !curve.EaseInOut? ==>
              var gt := CurveGain(g0, g1, curve, t);
              var gu := CurveGain(g0, g1, curve, u);
              (g0 <= g1 ==> gt <= gu) && (g1 <= g0 ==> gu <= gt)
  {
    var ct := Clamp01(MapT(curve, t));
    Between(g0, g1, ct);
    if !curve.EaseInOut? {
      CurveShape(curve, t, u);
      ScaleMono(g0, g1, ct, Clamp01(MapT(curve, u)));
    }
  }

  lemma Between(g0: real, g1: real, c: real)
    requires 0.0 <= c <= 1.0
    ensures MinR(g0, g1) <= g0 + (g1 - g0) * c <= MaxR(g0, g1)
  {
    var d := g1 - g0;
    assert d - d * c == d * (1.0 - c);
    if g0 <= g1 {
      ProductNonneg(d, c);
      ProductNonneg(d, 1.0 - c);
    } else {
      ProductNonneg(-d, c);
      ProductNonneg(-d, 1.0 - c);
    }
  }

  lemma ProductNonneg(x: real, y: real)
    requires x >= 0.0 && y >= 0.0
    ensures x * y >= 0.0
  {
  }

  lemma ScaleMono(g0: real, g1: real, a: real, b: real)
    requires a <= b
    ensures g0 <= g1 ==> g0 + (g1 - g0) * a <= g0 + (g1 - g0) * b
    ensures g1 <= g0 ==> g0 + (g1 - g0) * b <= g0 + (g1 - g0) * a
  {
    assert (g1 - g0) * b - (g1 - g0) * a == (g1 - g0) * (b - a);
  }

  /** Millisecond by millisecond, an eased ramp with a polynomial curve never
      moves back: later milliseconds get a gain at least as far along. */
  lemma EasedRampMonotoneInTime(k: nat, k': nat, total: nat, step: int, g0: real, g1: real, curve: Curve)
    requires step != 0 && !curve.EaseInOut?
    requires k <= k' < total
    ensures var n := StepCount(total, step);
            var gk := EasedStepGain(SliceIndex(k, n, step), n, step, total, g0, g1, curve);
            var gk' := EasedStepGain(SliceIndex(k', n, step), n, step, total, g0, g1, curve);
            (g0 <= g1 ==> gk <= gk') && (g1 <= g0 ==> gk' <= gk)
  {
    var n := StepCount(total, step);
    if step > 0 {
      assert k / step <= k' / step by { DivIsMonotone(k, k', step); }
    }
    EasedGainsBetweenAndMonotone(SliceIndex(k, n, step), SliceIndex(k', n, step), total, step, g0, g1, curve);
  }

  /** The gain the eased ramp gives millisecond k of a segment `total` ms
      long: the start gain when the ramp is a constant, otherwise the gain of
      the slice holding k. */
  function RampGainAt(total: nat, g0: real, g1: real, stepMs: Option<int>, curve: Curve, k: nat): real {
    var step := if stepMs.None? then GainRampStepMs else stepMs.value;
    if total == 0 || g0 == g1 || step == 0 then g0
    else
      var n := StepCount(total, step);
      EasedStepGain(SliceIndex(k, n, step), n, step, total, g0, g1, curve)
  }

  /** Every millisecond of an eased ramp is its input moved by a gain between
      the start and end gains; with a polynomial curve that gain only ever
      moves towards the end gain as time goes on. */
  lemma EasedRampGains(c: Clip, g0: real, g1: real, stepMs: Option<int>, curve: Curve, k: nat, k': nat)
    requires k <= k' < |c|
    ensures var r := EasedGainRamp(c, g0, g1, stepMs, curve);
            var gk := RampGainAt(|c|, g0, g1, stepMs, curve, k);
            var gk' := RampGainAt(|c|, g0, g1, stepMs, curve, k');
            && r[k] == AddGain(c[k], gk)
            && r[k'] == AddGain(c[k'], gk')
            && MinR(g0, g1) <= gk <= MaxR(g0, g1)
            && (!curve.EaseInOut? && g0 <= g1 ==> gk <= gk')
            && (!curve.EaseInOut? && g1 <= g0 ==> gk' <= gk)
  {
    var step := if stepMs.None? then GainRampStepMs else stepMs.value;
    if g0 != g1 && step != 0 {
      var n := StepCount(|c|, step);
      var i := SliceIndex(k, n, step);
      EasedGainsBetweenAndMonotone(i, i, |c|, step, g0, g1, curve);
      if !curve.EaseInOut? {
        EasedRampMonotoneInTime(k, k', |c|, step, g0, g1, curve);
      }
    }
  }

  lemma DivIsMonotone(a: nat, b: nat, d: int)
    requires a <= b && d > 0
    ensures a / d <= b / d
  {
    var qa, qb := a / d, b / d;
    assert a == qa * d + a % d;
    assert b == qb * d + b % d;
    assert (qb + 1) * d == qb * d + d;
    if qa > qb {
      MulMono(qb + 1, qa, d);
    }
  }

  /** `normalize_audio_in_memory`: moves the peak to -0.1 dBFS unless it is
      already within 0.1 dB of it. An empty or silent segment is returned as
      it is (a gain on digital silence leaves it silent). */
  function NormalizeInMemory(c: Clip): (r: Clip)
    ensures |r| == |c|
    ensures Peak(c).Silence? ==> r == c
    ensures Peak(c).Db? && -NormalizeToleranceDb <= NormalizeTargetDb - Peak(c).db <= NormalizeToleranceDb ==> r == c
    ensures Peak(c).Db? && !(-NormalizeToleranceDb <= NormalizeTargetDb - Peak(c).db <= NormalizeToleranceDb) ==>
              Peak(r) == Db(NormalizeTargetDb)
    ensures Peak(r).Db? ==> NormalizeTargetDb - NormalizeToleranceDb <= Peak(r).db <= NormalizeTargetDb + NormalizeToleranceDb
    ensures exists g :: r == ApplyGain(c, g)
  {
    if |c| == 0 then
      assert c == ApplyGain(c, 0.0);
      c
    else
      match Peak(c)
      case Silence =>
        assert c == ApplyGain(c, 0.0);
        c
      case Db(p) =>
        var change := NormalizeTargetDb - p;
        if change > NormalizeToleranceDb || change < -NormalizeToleranceDb then
          PeakGain(c, change);
          ApplyGain(c, change)
        else
          assert c == ApplyGain(c, 0.0);
          c
  }

  /** Normalising twice is normalising once. */
  lemma NormalizeIdempotent(c: Clip)
    ensures NormalizeInMemory(NormalizeInMemory(c)) == NormalizeInMemory(c)
  {
  }
}
