/** Arcs drawn with precomputed points of the circle: _PathArcToFastEx in src/imgui/imgui_draw.cpp. */
module ArcSampler {

  const SAMPLE_MAX := 48   // points in the table, which is also IM_DRAWLIST_ARCFAST_TABLE_SIZE

  datatype Point = Point(x: real, y: real)

  function Clamp(v: int, lo: int, hi: int): int { if v < lo then lo else if v > hi then hi else v }

  function Abs(v: int): nat { if v < 0 then -v else v }

  // ---------------------------------------------------------------- the number of segments

  /** (int)(radius + 0.999999f) */
  function RadiusIndex(radius: real): nat
    requires radius > 0.0
  {
    (radius + 0.999999).Floor
  }

  /** _CalcCircleAutoSegmentCount: from the table CircleSegmentCounts for small radii, computed for others. */
  function SegmentCount(counts: seq<nat>, auto: real -> nat, radius: real): nat
    requires radius > 0.0
  {
    if RadiusIndex(radius) < |counts| then counts[RadiusIndex(radius)] else auto(radius)
  }

  /** The table as SetCircleTessellationMaxError fills it: nothing for radius 0, and bytes for the others. */
  ghost predicate IsCountTable(counts: seq<nat>, auto: real -> nat) {
    && |counts| > 0 && counts[0] == 0
    && forall i: nat :: 0 < i < |counts| ==> counts[i] == auto(i as real) % 256
  }

  /** No division by zero: the segments are not asked for, or there are some. */
  predicate Divides(counts: seq<nat>, auto: real -> nat, radius: real, step: int) {
    radius <= 0.0 || step > 0 || SegmentCount(counts, auto, radius) != 0
  }

  /** Without a step of its own, an arc can be drawn exactly when its radius rounds up to at least 1 and the count
      for it does not vanish in a byte: a positive radius below 0.000001 finds the entry for 0. */
  lemma DividesIff(counts: seq<nat>, auto: real -> nat, radius: real, step: int)
    requires IsCountTable(counts, auto) && forall r :: r > 0.0 ==> auto(r) > 0
    ensures Divides(counts, auto, radius, step) <==>
            || radius <= 0.0 || step > 0
            || (radius >= 0.000001 &&
                (RadiusIndex(radius) < |counts| ==> auto(RadiusIndex(radius) as real) % 256 != 0))
  {
    if radius > 0.0 {
      assert RadiusIndex(radius) == 0 <==> radius < 0.000001;
    }
  }

  lemma TinyRadiusFails(counts: seq<nat>, auto: real -> nat)
    requires IsCountTable(counts, auto)
    ensures !Divides(counts, auto, 0.0000005, 0)
  {
    assert RadiusIndex(0.0000005) == 0;
  }

  /** The remainder of C, which has the sign of its first operand. */
  function Remainder(a: int, n: int): int
    requires n > 0
  {
    if a >= 0 then a % n else -(-a % n)
  }

  lemma RemainderIs(a: int)
    ensures var r := Remainder(a, SAMPLE_MAX);
            -SAMPLE_MAX < r < SAMPLE_MAX && (if r < 0 then r + SAMPLE_MAX else r) == Turned(a)
  {
    if a < 0 {
      var q, m := -a / SAMPLE_MAX, -a % SAMPLE_MAX;
      assert -a == q * SAMPLE_MAX + m;
      if m == 0 { Modulo(a, -q, 0); } else { Modulo(a, -q - 1, SAMPLE_MAX - m); }
    }
  }

  lemma Modulo(a: int, q: int, r: int)
    requires a == q * SAMPLE_MAX + r && 0 <= r < SAMPLE_MAX
    ensures Turned(a) == r
  {
  }

  /** The step between samples, between 1 and a quarter of the circle. */
  function StepSize(step: int, segments: nat): (s: nat)
    requires step <= 0 ==> segments > 0
    ensures 1 <= s <= SAMPLE_MAX / 4
    ensures 1 <= step <= SAMPLE_MAX / 4 ==> s == step
  {
    Clamp(if step <= 0 then SAMPLE_MAX / segments else step, 1, SAMPLE_MAX / 4)
  }

  // ---------------------------------------------------------------- where the points are

  /** How many points an arc over `range` samples has: a last point is added when the steps do not end on it. */
  function Count(range: nat, step: nat): (n: nat)
    requires step > 0
  {
    range / step + 1 + if range % step > 0 then 1 else 0
  }

  /** The first step, shortened when the steps do not end on the last point. */
  function FirstStep(range: nat, step: nat): (f: nat)
    requires step > 0
    ensures 0 < f <= step
  {
    var overstep := range % step;
    if overstep > 0 then step - (step - overstep) / 2 else step
  }

  /** How far point number t is from the first. */
  function Offset(range: nat, step: nat, t: nat): int
    requires step > 0
  {
    if t == 0 then 0
    else if t >= Count(range, step) - 1 then range
    else Stepped(range, step, t)
  }

  /** t steps from the first point. */
  function Stepped(range: nat, step: nat, t: nat): (a: nat)
    requires step > 0
  {
    if t == 0 then 0 else FirstStep(range, step) + (t - 1) * step
  }

  lemma NextStepped(range: nat, step: nat, t: nat)
    requires step > 0
    ensures Stepped(range, step, 0) == 0
    ensures Stepped(range, step, t + 1) == Stepped(range, step, t) + if t == 0 then FirstStep(range, step) else step
  {
    if t > 0 { assert t * step == (t - 1) * step + step; }
  }

  /** The points begin at one end, finish at the other, and advance by at most one step at a time. */
  lemma PointsAdvance(range: nat, step: nat, t: nat)
    requires step > 0
    ensures Offset(range, step, 0) == 0
    ensures Offset(range, step, Count(range, step) - 1) == range
    ensures t + 1 < Count(range, step) ==> 0 < Offset(range, step, t + 1) - Offset(range, step, t) <= step
  {
    var q, o := range / step, range % step;
    assert range == q * step + o;
    if t + 1 < Count(range, step) {
      LastStep(range, step);
      if 0 < t && t + 1 < Count(range, step) - 1 {
        assert t * step == (t - 1) * step + step;
      }
    }
  }

  /** The shortening splits what the steps fall short of: the first and the last gap differ by at most 1. */
  lemma LastStep(range: nat, step: nat)
    requires step > 0
    ensures Count(range, step) >= 2 ==> 0 < range - Offset(range, step, Count(range, step) - 2) <= step
    ensures Count(range, step) > 2 ==>
              0 <= FirstStep(range, step) - (range - Offset(range, step, Count(range, step) - 2)) <= 1
  {
    var q, o := range / step, range % step;
    assert range == q * step + o;
    if Count(range, step) > 2 {
      if o > 0 {
        assert (q - 1) * step == q * step - step;
      } else {
        assert (q - 2) * step == q * step - step - step;
      }
    }
  }

  /** How many points the loop draws: all but the added one. */
  function LoopCount(range: nat, step: nat): (n: nat)
    requires step > 0
  {
    range / step + 1
  }

  lemma Products(t: nat, q: nat, step: nat)
    requires t > 0
    ensures t * step == (t - 1) * step + step
    ensures t <= q ==> t * step <= q * step
    ensures t > q ==> t * step >= q * step + step
  {
    if t <= q {
      assert q * step == t * step + (q - t) * step && (q - t) * step >= 0;
    } else {
      assert t * step == (q + 1) * step + (t - q - 1) * step && (t - q - 1) * step >= 0;
      assert (q + 1) * step == q * step + step;
    }
  }

  /** The loop stops after the points that it was meant to draw, although its first step may be shorter. */
  lemma LoopEnds(range: nat, step: nat, t: nat)
    requires step > 0
    ensures Stepped(range, step, t) <= range <==> t < LoopCount(range, step)
    ensures t < LoopCount(range, step) ==> Stepped(range, step, t) == Offset(range, step, t)
  {
    var q, o := range / step, range % step;
    assert range == q * step + o;
    if t > 0 {
      Products(t, q, step);
    }
  }

  // ---------------------------------------------------------------- the sampler

  /** The table's point for a sample number, which may be any number of turns away. */
  function Turned(sample: int): (index: nat)
    ensures index < SAMPLE_MAX
  {
    sample % SAMPLE_MAX
  }

  function Placed(center: Point, s: Point, radius: real): Point {
    Point(center.x + s.x * radius, center.y + s.y * radius)
  }

  /** Sample number of point t, counting towards maxSample. */
  function SampleAt(minSample: int, maxSample: int, step: nat, t: nat): int
    requires step > 0
  {
    var offset := Offset(Abs(maxSample - minSample), step, t);
    if maxSample >= minSample then minSample + offset else minSample - offset
  }

  // ---------------------------------------------------------------- what an arc is

  /** How far sample t + 1 is from sample t, in the direction of the arc. */
  ghost function Gap(at: seq<int>, upwards: bool, t: nat): int
    requires t + 1 < |at|
  {
    if upwards then at[t + 1] - at[t] else at[t] - at[t + 1]
  }

  /** Samples from one end to the other, `size` apart; the first gap and the last share what is left over. */
  ghost predicate IsSampling(at: seq<int>, minSample: int, maxSample: int, size: nat) {
    && |at| > 0 && at[0] == minSample && at[|at| - 1] == maxSample
    && var upwards := maxSample >= minSample;
       && (forall t: nat :: t + 1 < |at| ==> 0 < Gap(at, upwards, t) <= size)
       && (forall t: nat :: 0 < t && t + 2 < |at| ==> Gap(at, upwards, t) == size)
       && (|at| > 2 ==> 0 <= Gap(at, upwards, 0) - Gap(at, upwards, |at| - 2) <= 1)
  }

  /** Points on the circle: sample a is entry a of the table, after any number of turns. */
  ghost predicate OnCircle(points: seq<Point>, table: seq<Point>, center: Point, radius: real, at: seq<int>)
    requires |table| == 48
  {
    && |points| == |at|
    && forall t: nat :: t < |at| ==>
         && points[t].x == center.x + table[at[t] % 48].x * radius
         && points[t].y == center.y + table[at[t] % 48].y * radius
  }

  /** The step between samples: the given one or, without one, what gives n segments to a circle, at most a quarter. */
  ghost predicate IsStepSize(size: nat, givenStep: int, n: nat) {
    && 1 <= size <= 12
    && (1 <= givenStep <= 12 ==> size == givenStep) && (givenStep > 12 ==> size == 12)
    && (givenStep <= 0 && 4 <= n <= 48 ==> size == 48 / n)
    && (givenStep <= 0 && n < 4 ==> size == 12) && (givenStep <= 0 && n > 48 ==> size == 1)
  }

  /** How many segments a circle of this radius has: from the table for radii within it, rounded up. */
  ghost predicate IsSegmentCount(n: nat, counts: seq<nat>, auto: real -> nat, radius: real) {
    && (radius + 0.999999 < |counts| as real ==>
          exists i: nat :: i < |counts| && i as real <= radius + 0.999999 < i as real + 1.0 && n == counts[i])
    && (radius + 0.999999 >= |counts| as real ==> n == auto(radius))
  }

  lemma SegmentCountIs(counts: seq<nat>, auto: real -> nat, radius: real)
    requires radius > 0.0
    ensures IsSegmentCount(SegmentCount(counts, auto, radius), counts, auto, radius)
  {
    var i := RadiusIndex(radius);
    assert i as real <= radius + 0.999999 < i as real + 1.0;
  }

  lemma StepSizeFits(givenStep: int, n: nat)
    requires givenStep <= 0 ==> n > 0
    ensures IsStepSize(StepSize(givenStep, n), givenStep, n)
  {
    if givenStep <= 0 {
      assert 48 == (48 / n) * n + 48 % n;
      if n < 4 {
        assert 48 / n > 12;
      }
    }
  }

  /** All gaps between the first and the last are whole steps. */
  lemma InteriorGaps(range: nat, step: nat, t: nat)
    requires step > 0 && 0 < t && t + 2 < Count(range, step)
    ensures Offset(range, step, t + 1) - Offset(range, step, t) == step
  {
    assert t * step == (t - 1) * step + step;
  }

  /** The sample numbers of an arc. */
  ghost function Samples(minSample: int, maxSample: int, step: nat): (at: seq<int>)
    requires step > 0
  {
    seq(Count(Abs(maxSample - minSample), step), (t: nat) => SampleAt(minSample, maxSample, step, t))
  }

  lemma SamplesAreSampling(minSample: int, maxSample: int, step: nat)
    requires step > 0
    ensures IsSampling(Samples(minSample, maxSample, step), minSample, maxSample, step)
  {
    var range, at, upwards := Abs(maxSample - minSample), Samples(minSample, maxSample, step), maxSample >= minSample;
    PointsAdvance(range, step, 0);
    LastStep(range, step);
    FirstOffset(range, step);
    hide Offset, Count, FirstStep;
    forall t: nat | t + 1 < |at|
      ensures 0 < Gap(at, upwards, t) <= step
    {
      PointsAdvance(range, step, t);
    }
    forall t: nat | 0 < t && t + 2 < |at|
      ensures Gap(at, upwards, t) == step
    {
      InteriorGaps(range, step, t);
    }
  }

  lemma ArcOnCircle(table: seq<Point>, center: Point, radius: real, minSample: int, maxSample: int, step: nat)
    requires |table| == SAMPLE_MAX && step > 0
    ensures OnCircle(Arc(table, center, radius, minSample, maxSample, step), table, center, radius,
                     Samples(minSample, maxSample, step))
  {
    hide Count, SampleAt;
  }

  lemma FirstOffset(range: nat, step: nat)
    requires step > 0
    ensures Count(range, step) > 2 ==> Offset(range, step, 1) == FirstStep(range, step)
  {
  }

  /** The points that the arc adds to a path. */
  function Arc(table: seq<Point>, center: Point, radius: real, minSample: int, maxSample: int,
               step: nat): (arc: seq<Point>)
    requires |table| == SAMPLE_MAX && step > 0
    ensures |arc| == Count(Abs(maxSample - minSample), step)
  {
    seq(Count(Abs(maxSample - minSample), step),
        (t: nat) => Placed(center, table[Turned(SampleAt(minSample, maxSample, step, t))], radius))
  }

  /** The first t points, and the next. */
  lemma ArcNext(table: seq<Point>, center: Point, radius: real, minSample: int, maxSample: int, step: nat, t: nat)
    requires |table| == SAMPLE_MAX && step > 0 && t < Count(Abs(maxSample - minSample), step)
    ensures Arc(table, center, radius, minSample, maxSample, step)[..t + 1] ==
            Arc(table, center, radius, minSample, maxSample, step)[..t] +
            [Placed(center, table[Turned(SampleAt(minSample, maxSample, step, t))], radius)]
  {
  }

  /** One step along the table, in either direction, wraps at most once. */
  lemma Wraps(index: int, sample: int, step: int)
    requires 0 <= index < SAMPLE_MAX && index == Turned(sample) && 0 <= step < SAMPLE_MAX
    ensures var up := index + step;
            (if up >= SAMPLE_MAX then up - SAMPLE_MAX else up) == Turned(sample + step)
    ensures var down := index - step;
            (if down < 0 then down + SAMPLE_MAX else down) == Turned(sample - step)
  {
    var q := sample / SAMPLE_MAX;
    assert sample == q * SAMPLE_MAX + index;
    var up, down := index + step, index - step;
    if up >= SAMPLE_MAX { Modulo(sample + step, q + 1, up - SAMPLE_MAX); } else { Modulo(sample + step, q, up); }
    if down < 0 { Modulo(sample - step, q - 1, down + SAMPLE_MAX); } else { Modulo(sample - step, q, down); }
  }

  datatype Outcome = Drawn | DividedByZero

  class Path {
    var points: seq<Point>

    constructor ()
      ensures points == []
    {
      points := [];
    }

    /** *out_ptr++ = point */
    method Write(out: nat, center: Point, s: Point, radius: real) returns (next: nat)
      requires out < |points|
      modifies this
      ensures next == out + 1 && |points| == old(|points|)
      ensures points[..next] == old(points[..out]) + [Placed(center, s, radius)]
    {
      ghost var was := points;
      points := points[out := Placed(center, s, radius)];
      next := out + 1;
      assert points[..next] == was[..out] + [points[out]];
    }

    /** The loop for an arc towards higher samples: it writes all points but the added one. */
    method Upwards(table: seq<Point>, center: Point, radius: real, minSample: int, maxSample: int,
                  firstIndex: int, firstStep: nat, size: nat, start: nat)
      returns (out: nat)
      requires |table| == SAMPLE_MAX && 0 < size < SAMPLE_MAX && firstIndex == Turned(minSample)
      requires maxSample >= minSample && firstStep == FirstStep(Abs(maxSample - minSample), size)
      requires start + LoopCount(Abs(maxSample - minSample), size) <= |points|
      modifies this
      ensures out == start + LoopCount(Abs(maxSample - minSample), size) && |points| == old(|points|)
      ensures points[..out] == old(points[..start]) +
                Arc(table, center, radius, minSample, maxSample, size)[..LoopCount(Abs(maxSample - minSample), size)]
    {
      hide Offset, Stepped, Count, LoopCount, FirstStep, Turned, Placed, Arc;
      LoopInCount(Abs(maxSample - minSample), size);
      var a, sampleIndex, step, nextStep, t: nat := minSample, firstIndex, firstStep, size, 0;
      out := start;
      ghost var arc := Arc(table, center, radius, minSample, maxSample, size);
      ghost var range := Abs(maxSample - minSample);
      NextStepped(range, size, 0);
      LoopEnds(range, size, 0);
      while a <= maxSample
        invariant a == minSample + Stepped(range, size, t)
        invariant (if sampleIndex >= SAMPLE_MAX then sampleIndex - SAMPLE_MAX else sampleIndex) == Turned(a)
        invariant t <= LoopCount(range, size) && out == start + t && |points| == old(|points|)
        invariant points[..out] == old(points[..start]) + arc[..t]
        invariant step == if t == 0 then FirstStep(range, size) else size
        decreases maxSample - a
      {
        if sampleIndex >= SAMPLE_MAX {
          sampleIndex := sampleIndex - SAMPLE_MAX;
        }
        LoopEnds(range, size, t);
        ArcNext(table, center, radius, minSample, maxSample, size, t);
        out := Write(out, center, table[sampleIndex], radius);
        NextStepped(range, size, t);
        Wraps(sampleIndex, a, step);
        t := t + 1;
        a, sampleIndex, step := a + step, sampleIndex + step, nextStep;
      }
      LoopEnds(range, size, t);
    }

    /** The same towards lower samples. */
    method Downwards(table: seq<Point>, center: Point, radius: real, minSample: int, maxSample: int,
                  firstIndex: int, firstStep: nat, size: nat, start: nat)
      returns (out: nat)
      requires |table| == SAMPLE_MAX && 0 < size < SAMPLE_MAX && firstIndex == Turned(minSample)
      requires maxSample < minSample && firstStep == FirstStep(Abs(maxSample - minSample), size)
      requires start + LoopCount(Abs(maxSample - minSample), size) <= |points|
      modifies this
      ensures out == start + LoopCount(Abs(maxSample - minSample), size) && |points| == old(|points|)
      ensures points[..out] == old(points[..start]) +
                Arc(table, center, radius, minSample, maxSample, size)[..LoopCount(Abs(maxSample - minSample), size)]
    {
      hide Offset, Stepped, Count, LoopCount, FirstStep, Turned, Placed, Arc;
      LoopInCount(Abs(maxSample - minSample), size);
      var a, sampleIndex, step, nextStep, t: nat := minSample, firstIndex, firstStep, size, 0;
      out := start;
      ghost var arc := Arc(table, center, radius, minSample, maxSample, size);
      ghost var range := Abs(maxSample - minSample);
      NextStepped(range, size, 0);
      LoopEnds(range, size, 0);
      while a >= maxSample
        invariant a == minSample - Stepped(range, size, t)
        invariant (if sampleIndex < 0 then sampleIndex + SAMPLE_MAX else sampleIndex) == Turned(a)
        invariant t <= LoopCount(range, size) && out == start + t && |points| == old(|points|)
        invariant points[..out] == old(points[..start]) + arc[..t]
        invariant step == if t == 0 then FirstStep(range, size) else size
        decreases a - maxSample
      {
        if sampleIndex < 0 {
          sampleIndex := sampleIndex + SAMPLE_MAX;
        }
        LoopEnds(range, size, t);
        ArcNext(table, center, radius, minSample, maxSample, size, t);
        out := Write(out, center, table[sampleIndex], radius);
        NextStepped(range, size, t);
        Wraps(sampleIndex, a, step);
        t := t + 1;
        a, sampleIndex, step := a - step, sampleIndex - step, nextStep;
      }
      LoopEnds(range, size, t);
    }

    /** How many points there are, whether one is added after the loop, and the first step. */
    static method Plan(sampleRange: nat, givenStep: nat) returns (samples: nat, extraMaxSample: bool, step: nat)
      requires givenStep > 0
      ensures samples == Count(sampleRange, givenStep) && step == FirstStep(sampleRange, givenStep)
      ensures samples == LoopCount(sampleRange, givenStep) + if extraMaxSample then 1 else 0
    {
      hide Count, FirstStep, LoopCount;
      CountFacts(sampleRange, givenStep);
      step := givenStep;
      samples := sampleRange + 1;
      extraMaxSample := false;
      if step > 1 {
        samples := sampleRange / step + 1;
        var overstep := sampleRange % step;
        if overstep > 0 {
          extraMaxSample := true;
          samples := samples + 1;
          if sampleRange > 0 {
            step := step - (step - overstep) / 2;
          }
        }
      }
    }

    /** An arc: points on the circle from one sample to the other, a step apart; or the centre alone.  The division
        fails exactly for circles without segments, when no step is given. */
    method ArcToFast(table: seq<Point>, counts: seq<nat>, auto: real -> nat, center: Point, radius: real,
                     minSample: int, maxSample: int, givenStep: int)
      returns (outcome: Outcome, ghost at: seq<int>, ghost size: nat, ghost segments: nat)
      requires |table| == SAMPLE_MAX
      modifies this
      ensures radius > 0.0 ==> IsSegmentCount(segments, counts, auto, radius)
      ensures outcome == if radius > 0.0 && givenStep <= 0 && segments == 0 then DividedByZero else Drawn
      ensures outcome.DividedByZero? ==> points == old(points)
      ensures radius <= 0.0 ==> points == old(points) + [center]
      ensures radius > 0.0 && outcome.Drawn? ==>
                && old(points) <= points && IsStepSize(size, givenStep, segments)
                && IsSampling(at, minSample, maxSample, size)
                && OnCircle(points[|old(points)|..], table, center, radius, at)
    {
      outcome := DrawArc(table, counts, auto, center, radius, minSample, maxSample, givenStep);
      at, size, segments := [], 0, 0;
      if radius > 0.0 {
        segments := SegmentCount(counts, auto, radius);
        SegmentCountIs(counts, auto, radius);
        if outcome.Drawn? {
          size := StepSize(givenStep, segments);
          StepSizeFits(givenStep, segments);
          at := Samples(minSample, maxSample, size);
          SamplesAreSampling(minSample, maxSample, size);
          ArcOnCircle(table, center, radius, minSample, maxSample, size);
        }
      }
    }

    /** Its body: reserves the points first and then writes them one after the other, exactly as many as reserved. */
    method DrawArc(table: seq<Point>, counts: seq<nat>, auto: real -> nat, center: Point, radius: real,
                   minSample: int, maxSample: int, givenStep: int)
      returns (outcome: Outcome)
      requires |table| == SAMPLE_MAX
      modifies this
      ensures outcome.Drawn? <==> Divides(counts, auto, radius, givenStep)
      ensures points == old(points) +
                if !outcome.Drawn? then []
                else if radius <= 0.0 then [center]
                else Arc(table, center, radius, minSample, maxSample,
                         StepSize(givenStep, if givenStep > 0 then 0 else SegmentCount(counts, auto, radius)))
    {
      if radius <= 0.0 {
        points := points + [center];
        return Drawn;
      }
      var segments := if givenStep > 0 then 0 else SegmentCount(counts, auto, radius);
      if givenStep <= 0 && segments == 0 { return DividedByZero; }
      hide Offset, Stepped, Count, LoopCount, FirstStep, Arc, Turned, Placed, StepSize, Remainder, SampleAt;
      StepSizeIs(givenStep, segments);
      var nextStep := if givenStep <= 0 then SAMPLE_MAX / segments else givenStep;
      nextStep := Clamp(nextStep, 1, SAMPLE_MAX / 4);
      var sampleRange := Abs(maxSample - minSample);
      var samples, extraMaxSample, step := Plan(sampleRange, nextStep);
      ghost var arc := Arc(table, center, radius, minSample, maxSample, nextStep);
      assert samples == |arc|;
      ghost var was := points;
      points := points + seq(samples, _ => Point(0.0, 0.0));
      var out: nat := |points| - samples;
      assert points[..out] == was;

      var sampleIndex := minSample;
      RemainderIs(minSample);
      if sampleIndex < 0 || sampleIndex >= SAMPLE_MAX {
        sampleIndex := Remainder(sampleIndex, SAMPLE_MAX);
        if sampleIndex < 0 {
          sampleIndex := sampleIndex + SAMPLE_MAX;
        }
      }
      if maxSample >= minSample {
        out := Upwards(table, center, radius, minSample, maxSample, sampleIndex, step, nextStep, out);
      } else {
        out := Downwards(table, center, radius, minSample, maxSample, sampleIndex, step, nextStep, out);
      }
      if extraMaxSample {
        var normalizedMaxSample := Remainder(maxSample, SAMPLE_MAX);
        RemainderIs(maxSample);
        if normalizedMaxSample < 0 {
          normalizedMaxSample := normalizedMaxSample + SAMPLE_MAX;
        }
        LastSample(minSample, maxSample, nextStep);
        ArcNext(table, center, radius, minSample, maxSample, nextStep, samples - 1);
        out := Write(out, center, table[normalizedMaxSample], radius);
      }
      assert out == |points| && points[..out] == points && arc[..samples] == arc;
      return Drawn;
    }
  }

  lemma LastSample(minSample: int, maxSample: int, step: nat)
    requires step > 0
    ensures SampleAt(minSample, maxSample, step, Count(Abs(maxSample - minSample), step) - 1) == maxSample
  {
    PointsAdvance(Abs(maxSample - minSample), step, 0);
  }

  lemma StepSizeIs(step: int, segments: nat)
    requires step <= 0 ==> segments > 0
    ensures StepSize(step, segments) == Clamp(if step <= 0 then SAMPLE_MAX / segments else step, 1, SAMPLE_MAX / 4)
  {
  }

  lemma LoopInCount(range: nat, step: nat)
    requires step > 0
    ensures LoopCount(range, step) <= Count(range, step)
  {
  }

  lemma CountFacts(range: nat, step: nat)
    requires step > 0
    ensures Count(range, step) == LoopCount(range, step) + if range % step > 0 then 1 else 0
    ensures LoopCount(range, step) == range / step + 1
    ensures FirstStep(range, step) == if range % step > 0 then step - (step - range % step) / 2 else step
    ensures step == 1 ==> range / step == range && range % step == 0
  {
  }
}
