/** Properties of the renderer: where the stamps go, what the outline reads
    as, when rendering finishes, and that rings are drawn independently. */
module RendererLaws {
  import opened Wrappers
  import opened Text
  import opened Numbers
  import opened Cartesian
  import opened SvgPath
  import opened SvgPathLaws
  import opened PathTransform
  import opened NormaliseLaws
  import opened Pattern
  import opened Renderer

  // ---------------------------------------------------------------------
  // Stamp positions
  // ---------------------------------------------------------------------

  /** The stamps are all the whole steps from the start that fit in the
      segment: one more would pass its end. */
  lemma StampsFit(k: real, length: real, step: real)
    requires step > 0.0
    ensures k + (|Positions(k, length, step)| as real) * step > length
  {
    var r := Positions(k, length, step);
    PositionsClosedForm(k, length, step);
    if r != [] {
      OneMoreStep(k, step, |r|);
      assert r[|r| - 1] == k + ((|r| - 1) as real) * step;
    }
  }

  /** The `i`-th stamp lies `i` steps past the start. */
  lemma {:induction false} PositionsClosedForm(k: real, length: real, step: real)
    requires step > 0.0
    ensures forall i :: 0 <= i < |Positions(k, length, step)| ==> Positions(k, length, step)[i] == k + (i as real) * step
    decreases |Positions(k, length, step)|
  {
    if k <= length {
      PositionsClosedForm(k + step, length, step);
      var r := Positions(k, length, step);
      var rest := Positions(k + step, length, step);
      assert r == [k] + rest;
      PrependStep(r, rest, k, step);
    }
  }

  /** Putting `k` before stamps that start one step later keeps them whole steps from `k`. */
  lemma PrependStep(r: seq<real>, rest: seq<real>, k: real, step: real)
    requires r == [k] + rest
    requires forall i :: 0 <= i < |rest| ==> rest[i] == (k + step) + (i as real) * step
    ensures forall i :: 0 <= i < |r| ==> r[i] == k + (i as real) * step
  {
    forall i | 0 <= i < |r|
      ensures r[i] == k + (i as real) * step
    {
      if i > 0 {
        assert r[i] == rest[i - 1];
        OneMoreStep(k, step, i);
      }
    }
  }

  lemma OneMoreStep(k: real, step: real, i: nat)
    requires i >= 1
    ensures (k + step) + ((i - 1) as real) * step == k + (i as real) * step
  {
    var x := (i - 1) as real;
    assert i as real == x + 1.0;
  }

  /** With a step of half the segment, stamps go at its start, its middle
      and its very end. */
  lemma HalfStepSchedule()
    ensures Positions(0.0, 100.0, 50.0) == [0.0, 50.0, 100.0]
  {
    assert Positions(150.0, 100.0, 50.0) == [];
    assert Positions(100.0, 100.0, 50.0) == [100.0];
    assert Positions(50.0, 100.0, 50.0) == [50.0, 100.0];
  }

  // ---------------------------------------------------------------------
  // Steps
  // ---------------------------------------------------------------------

  /** The default interval of 100 %, and an interval of zero, both stamp
      once per ring. */
  lemma OncePerRing(rule: StepRule, u: Unit, ringDistance: real)
    requires IsIntegral(ringDistance) && ringDistance > 0.0
    ensures Step(rule, FullInterval, ringDistance) == ringDistance
    ensures Step(rule, PixelOrPercent(0.0, u), ringDistance) == ringDistance
  {
    assert FullInterval.value / 100.0 * ringDistance == ringDistance;
    assert (0.0 / 100.0) * ringDistance == 0.0;
  }

  /** A non-negative interval on a ring of non-negative length gives a
      step that is never negative, and zero only as written, on a ring
      shorter than one pixel, when the interval comes to no pixels. */
  lemma StepSign(rule: StepRule, interval: PixelOrPercent, ringDistance: real)
    requires interval.value >= 0.0 && ringDistance >= 0.0
    ensures Step(rule, interval, ringDistance) >= 0.0
    ensures Step(rule, interval, ringDistance) == 0.0 <==>
      rule == AsWritten && ringDistance == 0.0 && PixelsFrom(interval, ringDistance) == 0.0
  {
    var pixels := PixelsFrom(interval, ringDistance);
    if interval.unit == Percent {
      assert interval.value / 100.0 * ringDistance >= 0.0;
      IntegralAboveMinusOne(pixels);
    }
    assert pixels >= 0.0;
  }

  /** A whole number above -1 is not negative. */
  lemma IntegralAboveMinusOne(x: real)
    requires IsIntegral(x) && x > -1.0
    ensures x >= 0.0
  {
  }

  // ---------------------------------------------------------------------
  // Outline
  // ---------------------------------------------------------------------

  /** The move to a ring's first point and the lines to the others. */
  function OutlineMoves(points: Ring): (r: Path)
    ensures |r| == |points|
  {
    seq(|points|, j requires 0 <= j < |points| => Command(true, if j == 0 then Move else Line, [points[j].x, points[j].y]))
  }

  /** The commands the outline of a ring stands for: its moves and lines,
      and a close for a polygon. */
  function OutlinePath(points: Ring, closed: bool): (r: Path)
    ensures |r| == |points| + (if closed then 1 else 0)
  {
    OutlineMoves(points) + CloseTail(closed)
  }

  /** A path's text is its commands' texts, one after another. */
  lemma {:induction false} PathTextIsConcat(p: Path)
    ensures PathText(p) == Concat(CommandTexts(p))
  {
    if p != [] {
      PathTextIsConcat(p[1..]);
      assert CommandTexts(p)[1..] == CommandTexts(p[1..]);
    }
  }

  /** A point's text is the parameter text of its two coordinates. */
  lemma PointTextIsParams(p: Point)
    ensures PointText(p) == ParamsText([p.x, p.y])
  {
    assert NumberTexts([p.x, p.y]) == [NumToString(p.x), NumToString(p.y)];
    JoinTwo(NumToString(p.x), NumToString(p.y), " ");
  }

  lemma JoinTwo(a: string, b: string, sep: string)
    ensures Join([a, b], sep) == a + sep + b
  {
    assert [a, b][1..] == [b];
  }

  /** The moves and lines of an outline are the text of its commands. */
  lemma MovesText(points: Ring)
    ensures Concat(seq(|points|, j requires 0 <= j < |points| => (if j == 0 then "M" else "L") + PointText(points[j])))
         == PathText(OutlineMoves(points))
  {
    var moves := OutlineMoves(points);
    var texts := seq(|points|, j requires 0 <= j < |points| => (if j == 0 then "M" else "L") + PointText(points[j]));
    forall j | 0 <= j < |points|
      ensures texts[j] == CommandTexts(moves)[j]
    {
      PointTextIsParams(points[j]);
    }
    assert texts == CommandTexts(moves);
    PathTextIsConcat(moves);
  }

  /** The text of one path followed by another is the text of both. */
  lemma {:induction false} PathTextAppend(p: Path, q: Path)
    ensures PathText(p + q) == PathText(p) + PathText(q)
  {
    if p == [] {
      assert p + q == q;
    } else {
      assert (p + q)[0] == p[0];
      assert (p + q)[1..] == p[1..] + q;
      PathTextAppend(p[1..], q);
    }
  }

  /** The outline of a ring is the text of its outline commands. */
  lemma RingOutlineIsPath(points: Ring, closed: bool)
    ensures RingOutline(points, closed) == PathText(OutlinePath(points, closed))
  {
    var moves := OutlineMoves(points);
    var tail: Path := CloseTail(closed);
    MovesText(points);
    CloseTailText(closed);
    PathTextAppend(moves, tail);
    assert OutlinePath(points, closed) == moves + tail;
  }

  /** The close that ends a polygon's outline, and nothing for a line. */
  function CloseTail(closed: bool): (r: Path)
    ensures |r| == if closed then 1 else 0
  {
    if closed then [Command(false, Close, [])] else []
  }

  lemma CloseTailText(closed: bool)
    ensures PathText(CloseTail(closed)) == if closed then "z" else ""
  {
    if closed {
      assert ParamsText([]) == "";
    }
  }

  /** The outline of a ring with printable coordinates reads back as its
      outline commands. */
  lemma RingOutlineReadsBack(points: Ring, closed: bool)
    requires |points| >= 1
    requires forall j :: 0 <= j < |points| ==> IsPrintableNumber(points[j].x) && IsPrintableNumber(points[j].y)
    ensures Parse(RingOutline(points, closed)) == Success(OutlinePath(points, closed))
  {
    var p := OutlinePath(points, closed);
    forall i | 0 <= i < |p|
      ensures WellFormed(p[i]) && Printable(p[i])
    {
      if i < |points| {
        assert p[i].params == [points[i].x, points[i].y];
      }
    }
    RoundTrip(p);
    SerializeIsPathText(p);
    RingOutlineIsPath(points, closed);
  }

  /** A stamp is a move to its point followed by the moved part path. */
  lemma StampIsPath(m: MathLib, from: Point, bearing: real, shape: Path, k: real)
    ensures var pk := MoveAlongBearing(m, from, k, bearing);
      StampText(m, from, bearing, shape, k) == PathText([Command(true, Move, [pk.x, pk.y])] + Translate(shape, pk.x, pk.y))
  {
    var pk := MoveAlongBearing(m, from, k, bearing);
    var moved := Translate(shape, pk.x, pk.y);
    SerializeIsPathText(moved);
    MoveThenPath(pk, moved);
  }

  /** A move to a point written before a path's text is a path's text. */
  lemma MoveThenPath(pt: Point, q: Path)
    ensures "M" + PointText(pt) + PathText(q) == PathText([Command(true, Move, [pt.x, pt.y])] + q)
  {
    PointTextIsParams(pt);
    assert ([Command(true, Move, [pt.x, pt.y])] + q)[1..] == q;
  }

  // ---------------------------------------------------------------------
  // The whole path
  // ---------------------------------------------------------------------

  /** A solid line is its outline alone, and is always drawn. */
  lemma SolidIsOutline(m: MathLib, rule: StepRule, rings: seq<Ring>, closed: bool)
    ensures Render(m, rule, rings, closed, Solid)
         == Done(if Outline(rings, closed) == "" then EmptyPath else Outline(rings, closed))
  {
    assert Outline(rings, closed) + "" == Outline(rings, closed);
  }

  /** Nothing to draw gives the placeholder path. */
  lemma NoRingsDrawPlaceholder(m: MathLib, rule: StepRule, closed: bool, pattern: Pattern)
    ensures Render(m, rule, [], closed, pattern) == Done(EmptyPath)
  {
    assert Outline([], closed) == "";
  }

  /** When the outline is drawn it comes first, before any stamp. */
  lemma OutlineComesFirst(m: MathLib, rule: StepRule, rings: seq<Ring>, closed: bool, pattern: Pattern)
    requires DrawsOutline(pattern, closed) && Outline(rings, closed) != ""
    ensures Render(m, rule, rings, closed, pattern).Done? ==>
      var text := Render(m, rule, rings, closed, pattern).value;
      |Outline(rings, closed)| <= |text| && text[..|Outline(rings, closed)|] == Outline(rings, closed)
  {
    if Render(m, rule, rings, closed, pattern).Done? {
      var outline := Outline(rings, closed);
      var stamps := if pattern.Solid? then Done("") else StampRings(m, rule, rings, pattern.parts);
      assert Render(m, rule, rings, closed, pattern).value == outline + stamps.value;
      assert (outline + stamps.value)[..|outline|] == outline;
    }
  }

  /** An open line whose parts all only stamp is drawn without its outline. */
  lemma FillOnlyLineHasNoOutline(m: MathLib, rule: StepRule, rings: seq<Ring>, parts: seq<PatternPart>)
    requires forall i :: 0 <= i < |parts| ==> parts[i].kind == Fill
    ensures Render(m, rule, rings, false, Parts(parts)).Done? <==> StampRings(m, rule, rings, parts).Done?
    ensures Render(m, rule, rings, false, Parts(parts)).Done? ==>
      var stamps := StampRings(m, rule, rings, parts).value;
      Render(m, rule, rings, false, Parts(parts)).value == if stamps == "" then EmptyPath else stamps
  {
    assert !DrawsOutline(Parts(parts), false);
  }

  /** A part that cannot be stamped stops the whole path, outline included. */
  lemma StampsFailAll(m: MathLib, rule: StepRule, rings: seq<Ring>, closed: bool, parts: seq<PatternPart>)
    ensures !StampRings(m, rule, rings, parts).Done? ==> Render(m, rule, rings, closed, Parts(parts)) == StampRings(m, rule, rings, parts)
  {
  }

  // ---------------------------------------------------------------------
  // Rings are independent
  // ---------------------------------------------------------------------

  /** Running over two lists of rings one after the other is running over
      their concatenation. */
  lemma {:induction false} EachRingAppend(f: Ring -> Run<string>, a: seq<Ring>, b: seq<Ring>)
    ensures !EachRing(f, a).Done? ==> EachRing(f, a + b) == EachRing(f, a)
    ensures EachRing(f, a).Done? && !EachRing(f, b).Done? ==> EachRing(f, a + b) == EachRing(f, b)
    ensures EachRing(f, a).Done? && EachRing(f, b).Done? ==>
      EachRing(f, a + b) == Done(EachRing(f, a).value + EachRing(f, b).value)
    decreases |a|
  {
    if a == [] {
      assert a + b == b;
      if EachRing(f, b).Done? {
        assert "" + EachRing(f, b).value == EachRing(f, b).value;
      }
    } else {
      assert (a + b)[0] == a[0];
      assert (a + b)[1..] == a[1..] + b;
      EachRingAppend(f, a[1..], b);
      var first := f(a[0]);
      var rest := EachRing(f, a[1..]);
      var later := EachRing(f, b);
      if first.Done? && rest.Done? && later.Done? {
        assert first.value + rest.value + later.value == first.value + (rest.value + later.value);
      }
    }
  }

  /** Every ring that finishes makes the whole run finish. */
  lemma {:induction false} EachRingDone(f: Ring -> Run<string>, rings: seq<Ring>)
    requires forall i :: 0 <= i < |rings| ==> f(rings[i]).Done?
    ensures EachRing(f, rings).Done?
    decreases |rings|
  {
    if rings != [] {
      EachRingDone(f, rings[1..]);
    }
  }

  /** Stamping two lists of rings one after the other is stamping their
      concatenation: nothing carries over from one ring to the next. */
  lemma StampRingsAppend(m: MathLib, rule: StepRule, a: seq<Ring>, b: seq<Ring>, parts: seq<PatternPart>)
    ensures !StampRings(m, rule, a, parts).Done? ==> StampRings(m, rule, a + b, parts) == StampRings(m, rule, a, parts)
    ensures StampRings(m, rule, a, parts).Done? && !StampRings(m, rule, b, parts).Done? ==>
      StampRings(m, rule, a + b, parts) == StampRings(m, rule, b, parts)
    ensures StampRings(m, rule, a, parts).Done? && StampRings(m, rule, b, parts).Done? ==>
      StampRings(m, rule, a + b, parts) == Done(StampRings(m, rule, a, parts).value + StampRings(m, rule, b, parts).value)
  {
    EachRingAppend(ring => StampRing(m, rule, ring, parts), a, b);
  }

  // ---------------------------------------------------------------------
  // Finishing
  // ---------------------------------------------------------------------

  /** A square root that is never negative on non-negative numbers. */
  ghost predicate NonNegativeRoots(m: MathLib) {
    forall x :: x >= 0.0 ==> m.sqrt(x) >= 0.0
  }

  lemma {:induction false} RingLengthNonNegative(m: MathLib, points: Ring)
    requires NonNegativeRoots(m)
    ensures RingLength(m, points) >= 0.0
    decreases |points|
  {
    if |points| >= 2 {
      RingLengthNonNegative(m, points[1..]);
      assert Square(points[0].x - points[1].x) + Square(points[0].y - points[1].y) >= 0.0;
    }
  }

  /** No part's path holds an absolute vertical line, which cannot be turned. */
  predicate Turnable(parts: seq<PatternPart>) {
    forall i :: 0 <= i < |parts| ==> !HasAbsoluteVertical(parts[i].path)
  }

  /** Along one segment, turnable parts never fail, and positive steps
      always finish. */
  lemma {:induction false} PartsRunSettles(m: MathLib, from: Point, to: Point, parts: seq<PatternPart>, steps: seq<real>, lefts: seq<real>)
    requires |steps| == |parts| == |lefts|
    ensures Turnable(parts) ==> !PartsRun(m, from, to, parts, steps, lefts).Failed?
    ensures (forall i :: 0 <= i < |steps| ==> steps[i] > 0.0) ==> !PartsRun(m, from, to, parts, steps, lefts).Diverges?
    decreases |parts|
  {
    if parts != [] {
      RotateFailsOnVertical(m, parts[0].path, Bearing(m, from, to) + m.pi / 2.0);
      TurnableTail(parts);
      PositiveTail(steps);
      PartsRunSettles(m, from, to, parts[1..], steps[1..], lefts[1..]);
      PartsRunCons(m, from, to, parts, steps, lefts);
    }
  }

  lemma TurnableTail(parts: seq<PatternPart>)
    requires parts != []
    ensures Turnable(parts) ==> !HasAbsoluteVertical(parts[0].path) && Turnable(parts[1..])
  {
    if Turnable(parts) {
      forall i | 0 <= i < |parts| - 1
        ensures !HasAbsoluteVertical(parts[1..][i].path)
      {
        assert parts[1..][i] == parts[i + 1];
      }
    }
  }

  lemma PositiveTail(steps: seq<real>)
    requires steps != []
    ensures (forall i :: 0 <= i < |steps| ==> steps[i] > 0.0) ==>
      steps[0] > 0.0 && forall i :: 0 <= i < |steps| - 1 ==> steps[1..][i] > 0.0
  {
  }

  /** One segment's run over the parts ends as the first part's run does
      when that fails or never finishes, and otherwise as the other parts' run. */
  lemma PartsRunCons(m: MathLib, from: Point, to: Point, parts: seq<PatternPart>, steps: seq<real>, lefts: seq<real>)
    requires |steps| == |parts| == |lefts| && parts != []
    ensures var first := SegmentRun(m, from, to, parts[0], steps[0], lefts[0]);
      var rest := PartsRun(m, from, to, parts[1..], steps[1..], lefts[1..]);
      var r := PartsRun(m, from, to, parts, steps, lefts);
      && (r.Failed? <==> first.Failed? || (first.Done? && rest.Failed?))
      && (r.Diverges? <==> first.Diverges? || (first.Done? && rest.Diverges?))
  {
  }

  /** Along a ring, turnable parts never fail, and positive steps always finish. */
  lemma {:induction false} SegmentsRunSettles(m: MathLib, points: Ring, parts: seq<PatternPart>, steps: seq<real>, lefts: seq<real>)
    requires |steps| == |parts| == |lefts|
    ensures Turnable(parts) ==> !SegmentsRun(m, points, parts, steps, lefts).Failed?
    ensures (forall i :: 0 <= i < |steps| ==> steps[i] > 0.0) ==> !SegmentsRun(m, points, parts, steps, lefts).Diverges?
    decreases |points|
  {
    if |points| >= 2 {
      PartsRunSettles(m, points[0], points[1], parts, steps, lefts);
      var segment := PartsRun(m, points[0], points[1], parts, steps, lefts);
      if segment.Done? {
        SegmentsRunSettles(m, points[1..], parts, steps, segment.value.1);
      }
    }
  }

  /** A ring is stamped to the end when its parts are turnable and their
      steps positive. */
  lemma RingSettles(m: MathLib, rule: StepRule, points: Ring, parts: seq<PatternPart>)
    requires Turnable(parts)
    requires forall i :: 0 <= i < |parts| ==> Step(rule, parts[i].interval, Floor(RingLength(m, points))) > 0.0
    ensures StampRing(m, rule, points, parts).Done?
  {
    var ringDistance := Floor(RingLength(m, points));
    SegmentsRunSettles(m, points, parts, Steps(rule, parts, ringDistance), Offsets(parts, ringDistance));
  }

  /** Intervals that are not negative, on rings whose length is not negative. */
  predicate ForwardIntervals(parts: seq<PatternPart>) {
    forall i :: 0 <= i < |parts| ==> parts[i].interval.value >= 0.0
  }

  /** With the corrected step every ring is stamped to the end. */
  lemma CorrectedRingsSettle(m: MathLib, rings: seq<Ring>, parts: seq<PatternPart>)
    requires NonNegativeRoots(m) && Turnable(parts) && ForwardIntervals(parts)
    ensures StampRings(m, AtLeastOnePixel, rings, parts).Done?
  {
    forall i | 0 <= i < |rings|
      ensures StampRing(m, AtLeastOnePixel, rings[i], parts).Done?
    {
      var ringDistance := Floor(RingLength(m, rings[i]));
      RingLengthNonNegative(m, rings[i]);
      forall j | 0 <= j < |parts|
        ensures Step(AtLeastOnePixel, parts[j].interval, ringDistance) > 0.0
      {
        StepSign(AtLeastOnePixel, parts[j].interval, ringDistance);
      }
      RingSettles(m, AtLeastOnePixel, rings[i], parts);
    }
    EachRingDone(ring => StampRing(m, AtLeastOnePixel, ring, parts), rings);
  }

  /** As written, every ring is stamped to the end when each is at least
      one pixel long. */
  lemma LongRingsSettle(m: MathLib, rings: seq<Ring>, parts: seq<PatternPart>)
    requires Turnable(parts) && ForwardIntervals(parts)
    requires forall i :: 0 <= i < |rings| ==> RingLength(m, rings[i]) >= 1.0
    ensures StampRings(m, AsWritten, rings, parts).Done?
  {
    forall i | 0 <= i < |rings|
      ensures StampRing(m, AsWritten, rings[i], parts).Done?
    {
      var ringDistance := Floor(RingLength(m, rings[i]));
      forall j | 0 <= j < |parts|
        ensures Step(AsWritten, parts[j].interval, ringDistance) > 0.0
      {
        StepSign(AsWritten, parts[j].interval, ringDistance);
      }
      RingSettles(m, AsWritten, rings[i], parts);
    }
    EachRingDone(ring => StampRing(m, AsWritten, ring, parts), rings);
  }

  /** The pattern a string is drawn with has turnable parts and intervals
      that are not negative. */
  predicate Drawable(s: string) {
    PatternOrSolid(s).Parts? ==> Turnable(PatternOrSolid(s).parts) && ForwardIntervals(PatternOrSolid(s).parts)
  }

  /** With the corrected step, a drawable pattern is always drawn. */
  lemma CorrectedAlwaysDraws(m: MathLib, rings: seq<Ring>, closed: bool, s: string)
    requires NonNegativeRoots(m) && Drawable(s)
    ensures CorrectedPointsToPatternPath(m, rings, closed, s).Done?
  {
    if PatternOrSolid(s).Parts? {
      CorrectedRingsSettle(m, rings, PatternOrSolid(s).parts);
    }
  }

  /** As written, a drawable pattern is drawn on rings at least one pixel long. */
  lemma LongRingsDraw(m: MathLib, rings: seq<Ring>, closed: bool, s: string)
    requires Drawable(s)
    requires forall i :: 0 <= i < |rings| ==> RingLength(m, rings[i]) >= 1.0
    ensures PointsToPatternPath(m, rings, closed, s).Done?
  {
    if PatternOrSolid(s).Parts? {
      LongRingsSettle(m, rings, PatternOrSolid(s).parts);
    }
  }

  /** A ring of two coincident points has no length. */
  lemma PointRingLength(m: MathLib, p: Point)
    requires m.sqrt(0.0) == 0.0
    ensures RingLength(m, [p, p]) == 0.0
  {
    var ring := [p, p];
    assert Square(p.x - p.x) + Square(p.y - p.y) == 0.0;
    assert ring[1..] == [p];
  }

  /** As written, stamping a ring of two coincident points never finishes
      when the first part starts at the ring's start and its interval
      comes to zero pixels there. */
  lemma PointRingStampsHang(m: MathLib, p: Point, parts: seq<PatternPart>)
    requires m.sqrt(0.0) == 0.0
    requires |parts| >= 1
    requires parts[0].offset.unit == Percent || parts[0].offset.value <= 0.0
    requires parts[0].interval.unit == Percent || parts[0].interval.value == 0.0
    requires !HasAbsoluteVertical(parts[0].path)
    ensures StampRings(m, AsWritten, [[p, p]], parts) == Diverges
  {
    var ring := [p, p];
    PointRingLength(m, p);
    assert Floor(RingLength(m, ring)) == 0.0;
    var steps := Steps(AsWritten, parts, 0.0);
    var lefts := Offsets(parts, 0.0);
    assert parts[0].offset.value / 100.0 * 0.0 == 0.0;
    assert parts[0].interval.value / 100.0 * 0.0 == 0.0;
    assert lefts[0] <= 0.0 && steps[0] == 0.0;
    assert Dist(m, p, p) == 0.0;
    RotateFailsOnVertical(m, parts[0].path, Bearing(m, p, p) + m.pi / 2.0);
    assert SegmentRun(m, p, p, parts[0], steps[0], lefts[0]) == Diverges;
    assert PartsRun(m, p, p, parts, steps, lefts) == Diverges;
    assert SegmentsRun(m, ring, parts, steps, lefts) == Diverges;
    assert StampRing(m, AsWritten, ring, parts) == Diverges;
    assert [ring][0] == ring;
  }

  /** As written, a ring of two coincident points never finishes when the
      first part starts at the ring's start and its interval comes to
      zero pixels there, as the default interval of 100 % does. */
  lemma PointRingHangs(m: MathLib, p: Point, s: string)
    requires m.sqrt(0.0) == 0.0
    requires PatternOrSolid(s).Parts? && |PatternOrSolid(s).parts| >= 1
    requires var part := PatternOrSolid(s).parts[0];
      && (part.offset.unit == Percent || part.offset.value <= 0.0)
      && (part.interval.unit == Percent || part.interval.value == 0.0)
      && !HasAbsoluteVertical(part.path)
    ensures PointsToPatternPath(m, [[p, p]], false, s) == Diverges
  {
    var parts := PatternOrSolid(s).parts;
    PointRingStampsHang(m, p, parts);
    StampsFailAll(m, AsWritten, [[p, p]], false, parts);
  }
}
