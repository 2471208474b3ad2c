/** The line-pattern renderer: `pointsToPatternPath` turns rings of screen
    points and a pattern string into one SVG path text. The outline comes
    first, then a copy of each part's path stamped at regular distances
    along every ring, turned to the direction of travel. */
module Renderer {
  import opened Wrappers
  import opened Text
  import opened Numbers
  import opened Cartesian
  import opened SvgPath
  import opened PathTransform
  import opened Pattern

  /** The outcome of a computation that may throw or never return. */
  datatype Run<+T> = Done(value: T) | Failed(error: TransformError) | Diverges
  {
    predicate IsFailure() {
      !Done?
    }

    function PropagateFailure<U>(): Run<U>
      requires IsFailure()
    {
      if Failed? then Failed(error) else Diverges
    }

    function Extract(): T
      requires Done?
    {
      value
    }
  }

  /** One polyline or polygon ring, in screen pixels. */
  type Ring = seq<Point>

  /** What is returned instead of an empty path, which SVG rejects. */
  const EmptyPath := "M0 0"

  /** `Math.floor`. */
  function Floor(x: real): (r: real)
    ensures IsIntegral(r)
    ensures r <= x < r + 1.0
  {
    x.Floor as real
  }

  /** `pixelsFrom`: pixels as given, or the whole number of pixels below the
      percentage of `total`. */
  function PixelsFrom(v: PixelOrPercent, total: real): (r: real)
    ensures v.unit == Px ==> r == v.value
    ensures v.unit == Percent ==> IsIntegral(r) && r <= v.value / 100.0 * total < r + 1.0
  {
    if v.unit == Px then v.value else Floor(v.value / 100.0 * total)
  }

  /** How a part's interval becomes the distance between its stamps. */
  datatype StepRule =
      /** `pixelInterval ? pixelInterval : ringDistance`. */
    | AsWritten
      /** As written, except that a ring shorter than one pixel falls back
          to one pixel instead of zero. */
    | AtLeastOnePixel

  /** The distance between two stamps of a part on a ring whose length,
      rounded down, is `ringDistance`; a zero interval means once per ring. */
  function Step(rule: StepRule, interval: PixelOrPercent, ringDistance: real): real {
    var pixels := PixelsFrom(interval, ringDistance);
    if pixels != 0.0 then pixels
    else if ringDistance != 0.0 || rule == AsWritten then ringDistance
    else 1.0
  }

  // ---------------------------------------------------------------------
  // Outline
  // ---------------------------------------------------------------------

  /** `${p.x} ${p.y}`. */
  function PointText(p: Point): string {
    NumToString(p.x) + " " + NumToString(p.y)
  }

  /** The ring drawn as a move to its first point and lines to the others,
      closed with `z` for a polygon. */
  function RingOutline(points: Ring, closed: bool): (r: string)
    ensures points != [] ==> r != [] && r[0] == 'M'
    ensures closed <==> r != [] && r[|r| - 1] == 'z'
  {
    var texts := seq(|points|, j requires 0 <= j < |points| => (if j == 0 then "M" else "L") + PointText(points[j]));
    if points == [] then
      Concat(texts) + (if closed then "z" else "")
    else
      PointTextEnds(points[|points| - 1]);
      OutlineTextEnds(texts);
      Concat(texts) + (if closed then "z" else "")
  }

  /** A point's text ends with a digit. */
  lemma PointTextEnds(p: Point)
    ensures var t := PointText(p); t != [] && IsDigit(t[|t| - 1])
  {
    var y := NumToString(p.y);
    assert PointText(p) == NumToString(p.x) + " " + y;
  }

  /** Texts that start with `M` and whose last one ends with a digit join
      into text that does too. */
  lemma OutlineTextEnds(texts: seq<string>)
    requires texts != [] && texts[0] != [] && texts[0][0] == 'M'
    requires var t := texts[|texts| - 1]; |t| >= 1 && IsDigit(t[|t| - 1])
    ensures var c := Concat(texts); c != [] && c[0] == 'M' && IsDigit(c[|c| - 1])
  {
    ConcatLast(texts);
  }

  /** Every ring's outline, in order. */
  function Outline(rings: seq<Ring>, closed: bool): string {
    Concat(seq(|rings|, i requires 0 <= i < |rings| => RingOutline(rings[i], closed)))
  }

  /** The outline is drawn for a polygon, for a solid line and when any part
      traces the line. */
  predicate DrawsOutline(pattern: Pattern, closed: bool) {
    closed || pattern.Solid? || exists i :: 0 <= i < |pattern.parts| && pattern.parts[i].kind == Trace
  }

  // ---------------------------------------------------------------------
  // Stamps
  // ---------------------------------------------------------------------

  lemma ZeroFactor(x: real, y: real)
    requires y > 0.0 && x * y == 0.0
    ensures x == 0.0
  {
  }

  /** Taking one step off a distance takes one off its number of steps. */
  lemma StepQuotient(d: real, step: real)
    requires step > 0.0
    ensures (d - step) / step == d / step - 1.0
  {
    var q := d / step;
    var p := (d - step) / step;
    assert q * step == d;
    assert p * step == d - step;
    ZeroFactor(p - (q - 1.0), step);
  }

  /** The distances along a segment of `length` at which stamps go: from `k`
      on, `step` apart, as long as they do not pass the segment's end. */
  function Positions(k: real, length: real, step: real): (r: seq<real>)
    requires step > 0.0
    ensures r == [] <==> k > length
    ensures forall i :: 0 <= i < |r| ==> r[i] <= length
    ensures forall i :: 0 <= i < |r| - 1 ==> r[i + 1] == r[i] + step
    ensures |r| > 0 ==> r[0] == k && r[|r| - 1] + step > length
    decreases if k <= length then ((length - k) / step).Floor + 1 else 0
  {
    if k > length then []
    else
      StepQuotient(length - k, step);
      [k] + Positions(k + step, length, step)
  }

  /** One stamp: a move to the point `k` along the segment from `from`,
      then the turned part path moved onto that point. */
  function StampText(m: MathLib, from: Point, bearing: real, shape: Path, k: real): string {
    var pk := MoveAlongBearing(m, from, k, bearing);
    "M" + PointText(pk) + Serialize(Translate(shape, pk.x, pk.y))
  }

  /** The stamps at all of `ks`, in order. */
  function StampsText(m: MathLib, from: Point, bearing: real, shape: Path, ks: seq<real>): string {
    Concat(seq(|ks|, i requires 0 <= i < |ks| => StampText(m, from, bearing, shape, ks[i])))
  }

  /** One part along one segment, starting `k` into it: the stamps and the
      distance left over into the next segment. Turning the part's path
      happens only once a stamp is due, and a step that is not positive
      never leaves the loop. */
  function SegmentRun(m: MathLib, from: Point, to: Point, part: PatternPart, step: real, k: real): (r: Run<(string, real)>)
    ensures k > Dist(m, from, to) ==> r == Done(("", k - Dist(m, from, to)))
    ensures r.Failed? <==> k <= Dist(m, from, to) && Rotate(m, part.path, Bearing(m, from, to) + m.pi / 2.0).Failure?
    ensures r.Diverges? <==>
      k <= Dist(m, from, to) && Rotate(m, part.path, Bearing(m, from, to) + m.pi / 2.0).Success? && step <= 0.0
    ensures r.Done? ==> r.value.1 > 0.0
    ensures r.Done? && k <= Dist(m, from, to) ==> r.value.1 <= step
  {
    var length := Dist(m, from, to);
    var bearing := Bearing(m, from, to);
    if k > length then Done(("", k - length))
    else
      var shape := Rotate(m, part.path, bearing + m.pi / 2.0);
      if shape.Failure? then Failed(shape.error)
      else if step <= 0.0 then Diverges
      else
        var ks := Positions(k, length, step);
        Done((StampsText(m, from, bearing, shape.value, ks), ks[|ks| - 1] + step - length))
  }

  /** Every part along one segment, in order, each starting at its own
      leftover distance; gives the new leftovers. */
  function PartsRun(m: MathLib, from: Point, to: Point, parts: seq<PatternPart>, steps: seq<real>, lefts: seq<real>)
    : (r: Run<(string, seq<real>)>)
    requires |steps| == |parts| == |lefts|
    ensures r.Done? ==> |r.value.1| == |parts|
    ensures r.Done? ==> forall i :: 0 <= i < |parts| ==> r.value.1[i] > 0.0
    decreases |parts|
  {
    if parts == [] then Done(("", []))
    else
      var first :- SegmentRun(m, from, to, parts[0], steps[0], lefts[0]);
      var rest :- PartsRun(m, from, to, parts[1..], steps[1..], lefts[1..]);
      Done((first.0 + rest.0, [first.1] + rest.1))
  }

  /** Every segment of a ring, in order, carrying the leftovers along. */
  function SegmentsRun(m: MathLib, points: Ring, parts: seq<PatternPart>, steps: seq<real>, lefts: seq<real>): (r: Run<string>)
    requires |steps| == |parts| == |lefts|
    ensures |points| < 2 ==> r == Done("")
    ensures parts == [] ==> r == Done("")
    decreases |points|
  {
    if |points| < 2 then Done("")
    else
      var segment :- PartsRun(m, points[0], points[1], parts, steps, lefts);
      var rest :- SegmentsRun(m, points[1..], parts, steps, segment.1);
      assert parts == [] ==> segment.0 == "" && segment.0 + rest == rest;
      Done(segment.0 + rest)
  }

  /** The length of a ring: the sum of its segments' lengths. */
  function RingLength(m: MathLib, points: Ring): real
    decreases |points|
  {
    if |points| < 2 then 0.0 else Dist(m, points[0], points[1]) + RingLength(m, points[1..])
  }

  /** Each part's starting leftover: its offset, in pixels of the ring. */
  function Offsets(parts: seq<PatternPart>, ringDistance: real): (r: seq<real>)
    ensures |r| == |parts|
  {
    seq(|parts|, i requires 0 <= i < |parts| => PixelsFrom(parts[i].offset, ringDistance))
  }

  /** Each part's step on the ring. */
  function Steps(rule: StepRule, parts: seq<PatternPart>, ringDistance: real): (r: seq<real>)
    ensures |r| == |parts|
    ensures forall i :: 0 <= i < |parts| ==> r[i] == Step(rule, parts[i].interval, ringDistance)
  {
    seq(|parts|, i requires 0 <= i < |parts| => Step(rule, parts[i].interval, ringDistance))
  }

  /** The stamps of one ring; percentages are of its length rounded down,
      and every part starts again at its offset. */
  function StampRing(m: MathLib, rule: StepRule, points: Ring, parts: seq<PatternPart>): (r: Run<string>)
    ensures |points| < 2 ==> r == Done("")
    ensures parts == [] ==> r == Done("")
  {
    var ringDistance := Floor(RingLength(m, points));
    SegmentsRun(m, points, parts, Steps(rule, parts, ringDistance), Offsets(parts, ringDistance))
  }

  /** `f` applied to every ring in order, the texts joined; the first ring
      that fails or never finishes ends the whole run. */
  function EachRing(f: Ring -> Run<string>, rings: seq<Ring>): (r: Run<string>)
    ensures rings == [] ==> r == Done("")
    decreases |rings|
  {
    if rings == [] then Done("")
    else
      var first :- f(rings[0]);
      var rest :- EachRing(f, rings[1..]);
      Done(first + rest)
  }

  /** The stamps of every ring, in order. */
  function StampRings(m: MathLib, rule: StepRule, rings: seq<Ring>, parts: seq<PatternPart>): (r: Run<string>) {
    EachRing(ring => StampRing(m, rule, ring, parts), rings)
  }

  // ---------------------------------------------------------------------
  // The whole path
  // ---------------------------------------------------------------------

  /** The pattern a string stands for; one that does not parse is drawn solid. */
  function PatternOrSolid(s: string): Pattern {
    match ParsePattern(s)
    case Success(p) => p
    case Failure(_) => Solid
  }

  /** Outline and stamps for a parsed pattern, under a step rule. */
  function Render(m: MathLib, rule: StepRule, rings: seq<Ring>, closed: bool, pattern: Pattern): (r: Run<string>)
    ensures r.Done? ==> r.value != ""
  {
    var outline := if DrawsOutline(pattern, closed) then Outline(rings, closed) else "";
    var stamps :- if pattern.Solid? then Done("") else StampRings(m, rule, rings, pattern.parts);
    var text := outline + stamps;
    Done(if text == "" then EmptyPath else text)
  }

  /** `pointsToPatternPath`, as written. */
  function PointsToPatternPath(m: MathLib, rings: seq<Ring>, closed: bool, patternString: string): (r: Run<string>)
    ensures r.Done? ==> r.value != ""
    ensures ParsePattern(patternString).Failure? ==> r == Render(m, AsWritten, rings, closed, Solid)
  {
    Render(m, AsWritten, rings, closed, PatternOrSolid(patternString))
  }

  /** `pointsToPatternPath` with the step of a ring shorter than one pixel
      raised to one pixel. */
  function CorrectedPointsToPatternPath(m: MathLib, rings: seq<Ring>, closed: bool, patternString: string): (r: Run<string>)
    ensures r.Done? ==> r.value != ""
    ensures ParsePattern(patternString).Failure? ==> r == Render(m, AtLeastOnePixel, rings, closed, Solid)
  {
    Render(m, AtLeastOnePixel, rings, closed, PatternOrSolid(patternString))
  }
}
