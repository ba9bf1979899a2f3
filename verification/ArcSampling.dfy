/** Arcs drawn from a table of precomputed samples of the unit circle. */
module ArcSampling {

  const TABLE_SIZE: nat := 48
  const SAMPLE_MAX: nat := 48

  datatype Point = Point(x: real, y: real)

  /** The remainder of a division that truncates toward zero. */
  function Remainder(a: int, b: int): (r: int)
    requires b > 0
    ensures -b < r < b && (a >= 0 ==> r >= 0) && (a <= 0 ==> r <= 0)
  {
    if a >= 0 then a % b else -(-a % b)
  }

  /** The table entry for sample number `a`, any number of turns away. */
  function TableIndex(a: int): (i: nat)
    ensures i < SAMPLE_MAX
  {
    a % SAMPLE_MAX
  }

  function OnCircle(table: seq<Point>, center: Point, radius: real, i: nat): Point
    requires i < |table|
  {
    Point(center.x + table[i].x * radius, center.y + table[i].y * radius)
  }

  /** How far `b` is ahead of `a` when going up, or down. */
  function Ahead(a: int, b: int, up: bool): int { if up then b - a else a - b }

  /** How far sample `k + 1` is ahead of sample `k`. */
  function Gap(hit: seq<int>, k: nat, up: bool): int
    requires k + 1 < |hit|
  {
    Ahead(hit[k], hit[k + 1], up)
  }

  /** A walk from `first` to `last` whose steps are positive and at most `step`. */
  ghost predicate Walk(hit: seq<int>, first: int, last: int, step: nat) {
    var up := first <= last;
    && hit != [] && hit[0] == first && hit[|hit| - 1] == last
    && forall k :: 0 <= k < |hit| - 1 ==> 0 < Gap(hit, k, up) <= step
  }

  /** All steps are whole, apart from the first and the last when the range calls for it, and
      these two share what is left over. */
  ghost predicate Even(hit: seq<int>, first: int, last: int, step: nat) {
    var up := first <= last;
    && (forall k :: 0 < k < |hit| - 2 ==> Gap(hit, k, up) == step)
    && (step > 0 && Ahead(first, last, up) % step == 0 ==> forall k :: 0 <= k < |hit| - 1 ==> Gap(hit, k, up) == step)
    && (Ahead(first, last, up) >= step && |hit| >= 2 ==>
          Gap(hit, |hit| - 2, up) <= Gap(hit, 0, up) <= Gap(hit, |hit| - 2, up) + 1)
  }

  /** How many steps of at most `step` it takes to cover a range. */
  function Steps(range: nat, step: nat): nat
    requires step > 0
  {
    if range % step > 0 then range / step + 1 else range / step
  }

  /** No walk gets there in fewer steps. */
  lemma {:induction false} StepsMinimal(hit: seq<int>, first: int, last: int, step: nat)
    requires step > 0 && Walk(hit, first, last, step)
    ensures Ahead(first, last, first <= last) <= (|hit| - 1) * step
    ensures Steps(Ahead(first, last, first <= last), step) <= |hit| - 1
  {
    Covered(hit, first <= last, step);
    StepsBound(Ahead(first, last, first <= last), step, |hit| - 1);
  }

  lemma {:induction false} Covered(hit: seq<int>, up: bool, step: nat)
    requires hit != [] && forall k :: 0 <= k < |hit| - 1 ==> Gap(hit, k, up) <= step
    ensures Ahead(hit[0], hit[|hit| - 1], up) <= (|hit| - 1) * step
  {
    if |hit| > 1 {
      var front := hit[..|hit| - 1];
      assert forall k :: 0 <= k < |front| - 1 ==> Gap(front, k, up) == Gap(hit, k, up);
      Covered(front, up, step);
      assert Gap(hit, |hit| - 2, up) <= step;
      assert (|hit| - 1) * step == (|hit| - 2) * step + step;
    }
  }

  lemma StepsBound(range: nat, step: nat, n: nat)
    requires step > 0 && range <= n * step
    ensures Steps(range, step) <= n
  {
    assert range == range / step * step + range % step;
    if range / step >= n {
      assert range / step * step >= n * step;
    }
  }

  /** One whole step nearer. */
  lemma StepNearer(left: nat, step: nat)
    requires left >= step && 0 < step <= TABLE_SIZE / 4
    ensures (left - step) / step == left / step - 1 && (left - step) % step == left % step
  {
    RangeSplit(left, step);
    Quotient(left - step, step, left / step - 1, left % step);
  }

  /** The first step when `step` does not divide the range: what is left over at the end is
      shared between the first step and the last. */
  lemma FirstStep(range: nat, step: nat)
    requires 0 < step <= TABLE_SIZE / 4 && range % step > 0
    ensures var over := range % step;
            var first := step - (step - over) / 2;
            && 0 < first <= step
            && (range < step ==> range < first && over == range)
            && (range >= step ==>
                  && first <= range && (range - first) / step == range / step - 1
                  && (range - first) % step == over + (step - over) / 2)
  {
    var over := range % step;
    RangeSplit(range, step);
    if range >= step {
      Quotient(range - step + (step - over) / 2, step, range / step - 1, over + (step - over) / 2);
    }
  }

  lemma RangeSplit(range: nat, step: nat)
    requires 0 < step <= TABLE_SIZE / 4
    ensures range == range / step * step + range % step
    ensures range < step ==> range / step == 0
    ensures range >= step ==> range - step == (range / step - 1) * step + range % step
  {
    // With a constant divisor this is linear arithmetic.
    match step
    case 1 => case 2 => case 3 => case 4 => case 5 => case 6 =>
    case 7 => case 8 => case 9 => case 10 => case 11 => case 12 =>
  }

  lemma Quotient(n: nat, d: nat, q: int, r: nat)
    requires 0 < d <= TABLE_SIZE / 4 && r < d && n == q * d + r
    ensures n / d == q && n % d == r
  {
    RangeSplit(n, d);
    var x := q - n / d;
    assert x * d == n % d - r;
    OneStepMore(x, d);
  }

  lemma OneStepMore(x: int, d: int)
    requires d >= 0
    ensures x >= 1 ==> x * d >= d
    ensures x <= -1 ==> x * d <= -d
  {
    if x >= 1 {
      assert x * d == d + (x - 1) * d;
    } else if x <= -1 {
      assert x * d == -d - (-x - 1) * d;
    }
  }

  // ------------------------------------------------------------------ the loops

  /** From `start` on, one step of `first` and then steps of `step`. */
  ghost predicate Trail(hit: seq<int>, start: int, first: nat, step: nat, up: bool) {
    && hit != [] && hit[0] == start
    && forall k :: 0 <= k < |hit| - 1 ==> Gap(hit, k, up) == if k == 0 then first else step
  }

  /** How many samples are met within `left`, and how much of it is left beyond the last. */
  function Count(left: int, first: nat, step: nat): nat
    requires step > 0
  {
    if left < 0 then 0 else if left < first then 1 else (left - first) / step + 2
  }

  function Rest(left: int, first: nat, step: nat): int
    requires step > 0
  {
    if left < first then left else (left - first) % step
  }

  lemma CountNext(left: int, first: nat, step: nat)
    requires 0 < step <= TABLE_SIZE / 4 && left >= 0
    ensures Count(left, first, step) == 1 + Count(left - first, step, step)
    ensures left >= first ==> Rest(left, first, step) == Rest(left - first, step, step)
  {
    if left - first >= step {
      StepNearer(left - first, step);
    }
  }

  method Forward(out: array<Point>, table: seq<Point>, center: Point, radius: real, aMin: int, aMax: int, index: nat,
      first: nat, step: nat)
    returns (n: nat, ghost hit: seq<int>)
    requires |table| == TABLE_SIZE && aMin <= aMax && index == TableIndex(aMin) && 0 < first <= step <= TABLE_SIZE / 4
    requires Count(aMax - aMin, first, step) <= out.Length
    modifies out
    ensures n == |hit| == Count(aMax - aMin, first, step) && Trail(hit, aMin, first, step, true)
    ensures aMax - hit[n - 1] == Rest(aMax - aMin, first, step)
    ensures forall k :: 0 <= k < n ==> out[k] == OnCircle(table, center, radius, TableIndex(hit[k]))
  {
    hide Count, Rest, OnCircle, TableIndex;
    var a, i, stride := aMin, index, first;
    n, hit := 0, [];
    CountRest(aMax - aMin, first, step);
    while a <= aMax
      invariant n == |hit| && n + Count(aMax - a, stride, step) == Count(aMax - aMin, first, step) <= out.Length
      invariant Wrapped(i) == TableIndex(a) && 0 <= i < SAMPLE_MAX + TABLE_SIZE / 4
      invariant n == 0 ==> a == aMin && stride == first
      invariant n > 0 ==>
                  && stride == step && Trail(hit, aMin, first, step, true)
                  && a - hit[n - 1] == (if n == 1 then first else step)
      invariant if a <= aMax then Rest(aMax - a, stride, step) == Rest(aMax - aMin, first, step)
                else n > 0 && aMax - hit[n - 1] == Rest(aMax - aMin, first, step)
      invariant forall k :: 0 <= k < n ==> out[k] == OnCircle(table, center, radius, TableIndex(hit[k]))
      decreases aMax - a
    {
      if i >= SAMPLE_MAX {
        i := i - SAMPLE_MAX;
      }
      CountRest(aMax - a, stride, step);
      CountNext(aMax - a, stride, step);
      out[n] := OnCircle(table, center, radius, i);
      if n > 0 {
        TrailNext(hit, aMin, first, step, true, a);
      }
      hit := hit + [a];
      n := n + 1;
      IndexNext(i, a, stride);
      a := a + stride;
      i := i + stride;
      stride := step;
    }
    CountRest(aMax - a, stride, step);
  }

  method Backward(out: array<Point>, table: seq<Point>, center: Point, radius: real, aMin: int, aMax: int, index: nat,
      first: nat, step: nat)
    returns (n: nat, ghost hit: seq<int>)
    requires |table| == TABLE_SIZE && aMin > aMax && index == TableIndex(aMin) && 0 < first <= step <= TABLE_SIZE / 4
    requires Count(aMin - aMax, first, step) <= out.Length
    modifies out
    ensures n == |hit| == Count(aMin - aMax, first, step) && Trail(hit, aMin, first, step, false)
    ensures hit[n - 1] - aMax == Rest(aMin - aMax, first, step)
    ensures forall k :: 0 <= k < n ==> out[k] == OnCircle(table, center, radius, TableIndex(hit[k]))
  {
    hide Count, Rest, OnCircle, TableIndex;
    var a, i: int, stride: int := aMin, index, first;
    n, hit := 0, [];
    CountRest(aMin - aMax, first, step);
    while a >= aMax
      invariant n == |hit| && n + Count(a - aMax, stride, step) == Count(aMin - aMax, first, step) <= out.Length
      invariant Wrapped(i) == TableIndex(a) && 0 <= i + TABLE_SIZE / 4 && i < SAMPLE_MAX
      invariant n == 0 ==> a == aMin && stride == first
      invariant n > 0 ==>
                  && stride == step && Trail(hit, aMin, first, step, false)
                  && hit[n - 1] - a == (if n == 1 then first else step)
      invariant if a >= aMax then Rest(a - aMax, stride, step) == Rest(aMin - aMax, first, step)
                else n > 0 && hit[n - 1] - aMax == Rest(aMin - aMax, first, step)
      invariant forall k :: 0 <= k < n ==> out[k] == OnCircle(table, center, radius, TableIndex(hit[k]))
      decreases a - aMax
    {
      if i < 0 {
        i := i + SAMPLE_MAX;
      }
      CountRest(a - aMax, stride, step);
      CountNext(a - aMax, stride, step);
      out[n] := OnCircle(table, center, radius, i);
      if n > 0 {
        TrailNext(hit, aMin, first, step, false, a);
      }
      hit := hit + [a];
      n := n + 1;
      IndexNext(i, a, 0 - stride);
      a := a - stride;
      i := i - stride;
      stride := step;
    }
    CountRest(a - aMax, stride, step);
  }

  /** A sample index that may have left the table by less than a turn. */
  function Wrapped(i: int): int {
    if i < 0 then i + SAMPLE_MAX else if i >= SAMPLE_MAX then i - SAMPLE_MAX else i
  }

  lemma IndexNext(i: nat, a: int, stride: int)
    requires i == TableIndex(a) && 0 <= stride + SAMPLE_MAX <= 2 * SAMPLE_MAX
    ensures Wrapped(i + stride) == TableIndex(a + stride)
  {
  }

  lemma CountRest(left: int, first: nat, step: nat)
    requires step > 0
    ensures left < 0 <==> Count(left, first, step) == 0
    ensures 0 <= left < first ==> Rest(left, first, step) == left
  {
  }

  lemma TrailNext(hit: seq<int>, start: int, first: nat, step: nat, up: bool, next: int)
    requires Trail(hit, start, first, step, up)
    requires Ahead(hit[|hit| - 1], next, up) == if |hit| == 1 then first else step
    ensures Trail(hit + [next], start, first, step, up)
  {
    var more := hit + [next];
    forall k | 0 <= k < |more| - 1 ensures Gap(more, k, up) == if k == 0 then first else step {
      if k < |hit| - 1 { assert Gap(more, k, up) == Gap(hit, k, up); }
    }
  }

  // --------------------------------------------------------------------- arcs

  /** The step that is used: given, or from the number of segments a whole circle of this radius
      gets; at most a quarter of the circle. */
  function StepUsed(aStep: int, segments: nat): (step: nat)
    requires segments > 0
    ensures 0 < step <= TABLE_SIZE / 4
  {
    var step := if aStep <= 0 then SAMPLE_MAX / segments else aStep;
    if step < 1 then 1 else if step > TABLE_SIZE / 4 then TABLE_SIZE / 4 else step
  }

  /** A step that is given is used as it is up to a quarter of the circle. One that is not given is the
      largest with which a circle has all its segments, within the same limits. */
  lemma StepUsedIs(aStep: int, segments: nat)
    requires segments > 0
    ensures 1 <= aStep <= 12 ==> StepUsed(aStep, segments) == aStep
    ensures aStep > 12 ==> StepUsed(aStep, segments) == 12
    ensures aStep <= 0 && segments > 48 ==> StepUsed(aStep, segments) == 1
    ensures aStep <= 0 && segments < 4 ==> StepUsed(aStep, segments) == 12
    ensures aStep <= 0 && 4 <= segments <= 48 ==>
              StepUsed(aStep, segments) * segments <= 48 < (StepUsed(aStep, segments) + 1) * segments
  {
    if aStep <= 0 && segments <= 48 {
      Quotient48(segments);
    }
  }

  lemma Quotient48(segments: nat)
    requires 0 < segments <= 48
    ensures var q := SAMPLE_MAX / segments; q * segments <= 48 < (q + 1) * segments
    ensures SAMPLE_MAX / segments >= 1 && (segments >= 4 ==> SAMPLE_MAX / segments <= 12)
    ensures segments < 4 ==> SAMPLE_MAX / segments > 12
  {
  }

  /** A point of an arc is as far from the centre, in the direction of its sample, as the radius says. */
  lemma OnCircleIs(table: seq<Point>, center: Point, radius: real, i: nat)
    requires i < |table|
    ensures var p, s := OnCircle(table, center, radius, i), table[i];
        p.x - center.x == radius * s.x && p.y - center.y == radius * s.y
  {
  }

  /** The number of points, whether the last one comes after the loop, and the first step. */
  method Reserve(range: nat, step: nat) returns (samples: nat, extra: bool, first: nat)
    requires 0 < step <= TABLE_SIZE / 4
    ensures 0 < first <= step && samples == Steps(range, step) + 1
    ensures samples == Count(range, first, step) + if extra then 1 else 0
    ensures extra <==> Rest(range, first, step) > 0
    ensures extra <==> range % step > 0
    ensures var rest := Rest(range, first, step);
            if !extra then rest == 0 && first == step
            else if range < step then 0 < rest <= step && Count(range, first, step) == 1
            else 0 < rest <= first <= rest + 1
  {
    hide Count, Rest, Steps;
    samples, extra, first := range + 1, false, step;
    RangeSplit(range, step);
    if step > 1 {
      samples := range / step + 1;
      var overstep := range % step;
      if overstep > 0 {
        extra := true;
        samples := samples + 1;
        first := step - (step - overstep) / 2;
      }
    }
    Reserved(range, step, first, samples, extra);
  }

  /** Adds an arc to the path, between two sample numbers in either direction. The number of
      points is settled before any is computed, and it is the smallest for the step. */
  method PathArcToFastEx(path: seq<Point>, table: seq<Point>, center: Point, radius: real, aMin: int, aMax: int,
      aStep: int, segments: nat)
    returns (path': seq<Point>, ghost hit: seq<int>)
    requires |table| == TABLE_SIZE && segments > 0
    ensures radius < 0.5 ==> path' == path + [center]
    ensures radius >= 0.5 ==>
              var step := StepUsed(aStep, segments);
              && Walk(hit, aMin, aMax, step) && Even(hit, aMin, aMax, step)
              && |hit| == Steps(Ahead(aMin, aMax, aMin <= aMax), step) + 1
              && |path'| == |path| + |hit| && path'[..|path|] == path
              && forall k :: 0 <= k < |hit| ==> path'[|path| + k] == OnCircle(table, center, radius, TableIndex(hit[k]))
  {
    hide OnCircle, TableIndex, Count, Rest, Walk, Even, Trail, Steps, StepUsed, Remainder;
    hit := [];
    if radius < 0.5 {
      return path + [center], hit;
    }
    var step := StepUsed(aStep, segments);
    var range := if aMax >= aMin then aMax - aMin else aMin - aMax;
    var samples, extra, first := Reserve(range, step);
    var out := new Point[samples](_ => center);
    var index := Remainder(aMin, SAMPLE_MAX);
    index := if index < 0 then index + SAMPLE_MAX else index;
    IndexOfRemainder(aMin);
    var n;
    if aMax >= aMin {
      n, hit := Forward(out, table, center, radius, aMin, aMax, index, first, step);
    } else {
      n, hit := Backward(out, table, center, radius, aMin, aMax, index, first, step);
    }
    TrailWalk(hit, aMin, aMax, first, step, Rest(range, first, step));
    if extra {
      var last := Remainder(aMax, SAMPLE_MAX);
      last := if last < 0 then last + SAMPLE_MAX else last;
      IndexOfRemainder(aMax);
      out[n] := OnCircle(table, center, radius, last);
      hit := hit + [aMax];
      n := n + 1;
    }
    assert n == out.Length;
    path' := path + out[..];
  }

  /** The normalisation of a sample number that both ends go through. */
  lemma IndexOfRemainder(a: int)
    ensures var r := Remainder(a, SAMPLE_MAX); TableIndex(a) == if r < 0 then r + SAMPLE_MAX else r
  {
  }

  /** The points reserved are those of the loop, and one more when the step leaves a rest. */
  lemma Reserved(range: nat, step: nat, first: nat, samples: nat, extra: bool)
    requires 0 < step <= TABLE_SIZE / 4 && (extra <==> range % step > 0)
    requires first == if extra then step - (step - range % step) / 2 else step
    requires samples == range / step + 1 + if extra then 1 else 0
    ensures 0 < first <= step && samples == Steps(range, step) + 1
    ensures samples == Count(range, first, step) + if extra then 1 else 0
    ensures var rest := Rest(range, first, step);
            if !extra then rest == 0 && first == step
            else if range < step then 0 < rest <= step && Count(range, first, step) == 1
            else 0 < rest <= first <= rest + 1
  {
    RangeSplit(range, step);
    if extra {
      FirstStep(range, step);
    } else if range >= step {
      StepNearer(range, step);
    }
  }

  /** What the loop leaves behind, with the last sample, is a walk over the whole range. */
  lemma TrailWalk(hit: seq<int>, aMin: int, aMax: int, first: nat, step: nat, rest: int)
    requires var up := aMin <= aMax; Trail(hit, aMin, first, step, up) && Ahead(hit[|hit| - 1], aMax, up) == rest
    requires 0 < first <= step && 0 <= rest <= step
    requires rest == 0 ==> first == step
    requires rest > 0 ==> Ahead(aMin, aMax, aMin <= aMax) % step > 0 && (|hit| > 1 ==> rest <= first <= rest + 1)
    ensures var walk := if rest > 0 then hit + [aMax] else hit;
        Walk(walk, aMin, aMax, step) && Even(walk, aMin, aMax, step)
  {
    var up := aMin <= aMax;
    var walk := if rest > 0 then hit + [aMax] else hit;
    forall k | 0 <= k < |walk| - 1
      ensures Gap(walk, k, up) == if k == |hit| - 1 then rest else if k == 0 then first else step
    {
      if k < |hit| - 1 { assert Gap(walk, k, up) == Gap(hit, k, up); }
    }
  }
}
