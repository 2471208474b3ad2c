/** Transformations of parsed paths: rounding, translation, scaling,
    rotation about the origin, and the normalisation to absolute commands
    without `H`/`V` that rotation relies on. */
module PathTransform {
  import opened Wrappers
  import opened Numbers
  import opened Cartesian
  import opened SvgPath

  datatype TransformError =
    | RangeError(places: int)
    | RotationOfHorizontal
    | RotationOfVertical
    | RotationOfRelative

  // ---------------------------------------------------------------------
  // What each parameter slot means
  // ---------------------------------------------------------------------

  /** The role of one parameter of an absolute command, as the SVG path
      grammar assigns it: a coordinate on either axis, a radius, the
      rotation of an ellipse's axes, or a flag. */
  datatype Slot = XCoord | YCoord | Radius | AxisRotation | Flag

  function SlotOf(op: Op, k: nat): Slot {
    match op
    case Horizontal => XCoord
    case Vertical => YCoord
    case Arc =>
      var j := k % 7;
      if j < 2 then Radius
      else if j == 2 then AxisRotation
      else if j < 5 then Flag
      else if j == 5 then XCoord
      else YCoord
    case _ => if k % 2 == 0 then XCoord else YCoord
  }

  /** Same length, and every command keeps its operator, its absoluteness
      and its number of parameters. */
  predicate SameShape(p: Path, q: Path) {
    && |p| == |q|
    && forall i :: 0 <= i < |p| ==>
      && q[i].isAbsolute == p[i].isAbsolute
      && q[i].op == p[i].op
      && |q[i].params| == |p[i].params|
  }

  predicate IsRelative(c: Command) {
    !c.isAbsolute
  }

  predicate IsAbsoluteVertical(c: Command) {
    c.isAbsolute && c.op == Vertical
  }

  predicate HasAbsoluteVertical(p: Path) {
    exists i :: 0 <= i < |p| && IsAbsoluteVertical(p[i])
  }

  /** The commands rotation cannot handle without normalising first. */
  predicate NeedsNormalising(c: Command) {
    !c.isAbsolute || c.op == Horizontal || c.op == Vertical
  }

  // ---------------------------------------------------------------------
  // round
  // ---------------------------------------------------------------------

  function RoundCommand(c: Command, places: nat): (r: Command)
    requires places <= 100
  {
    c.(params := seq(|c.params|, k requires 0 <= k < |c.params| => ToFixed(c.params[k], places)))
  }

  predicate HasParameters(p: Path) {
    exists i :: 0 <= i < |p| && p[i].params != []
  }

  /** Every parameter rounded to `places` decimal places with `toFixed`;
      `toFixed` refuses a count outside 0..100, but only once it is
      called, so a path without parameters never fails. */
  function Round(p: Path, places: int): (r: Result<Path, TransformError>)
    ensures r.Failure? <==> (places < 0 || places > 100) && HasParameters(p)
    ensures r.Failure? ==> r.error == RangeError(places)
    ensures r.Success? ==> SameShape(p, r.value)
  {
    if 0 <= places <= 100 then
      Success(seq(|p|, i requires 0 <= i < |p| => RoundCommand(p[i], places)))
    else if HasParameters(p) then Failure(RangeError(places))
    else Success(p)
  }

  // ---------------------------------------------------------------------
  // translate
  // ---------------------------------------------------------------------

  /** Value `v`, parameter `k` of an absolute command, moved by (`dx`, `dy`). */
  function MovedParameter(op: Op, v: real, k: nat, dx: real, dy: real): real {
    match op
    case Horizontal => v + dx
    case Vertical => v + dy
    case Arc => v + (if k % 7 == 5 then dx else if k % 7 == 6 then dy else 0.0)
    case _ => v + (if k % 2 == 1 then dy else dx)
  }

  function TranslateCommand(c: Command, index: nat, dx: real, dy: real): (r: Command)
    ensures r.isAbsolute == c.isAbsolute && r.op == c.op && |r.params| == |c.params|
  {
    if c.isAbsolute then
      if c.op == Close then c
      else c.(params := seq(|c.params|, k requires 0 <= k < |c.params| => MovedParameter(c.op, c.params[k], k, dx, dy)))
    else if index == 0 && c.op == Move && |c.params| >= 2 then
      c.(params := [c.params[0] + dx, c.params[1] + dy] + c.params[2..])
    else c
  }

  /** The path moved by (`dx`, `dy`): absolute coordinates move; relative
      commands keep their offsets, except a leading relative move, whose
      first point is where the pen starts. */
  function Translate(p: Path, dx: real, dy: real): (r: Path)
    ensures SameShape(p, r)
    ensures dx == 0.0 && dy == 0.0 ==> r == p
  {
    if dx == 0.0 && dy == 0.0 then p
    else seq(|p|, i requires 0 <= i < |p| => TranslateCommand(p[i], i, dx, dy))
  }

  // ---------------------------------------------------------------------
  // scale
  // ---------------------------------------------------------------------

  function ScaleCommand(c: Command, factor: real): (r: Command)
    ensures r.isAbsolute == c.isAbsolute && r.op == c.op && |r.params| == |c.params|
  {
    c.(params := seq(|c.params|, k requires 0 <= k < |c.params| =>
                       if c.op == Arc && 2 <= k % 7 <= 4 then c.params[k] else c.params[k] * factor))
  }

  /** The path scaled about the origin by `factor`, absolute and relative
      commands alike. */
  function Scale(p: Path, factor: real): (r: Path)
    ensures SameShape(p, r)
    ensures factor == 1.0 ==> r == p
  {
    if factor == 1.0 then p
    else seq(|p|, i requires 0 <= i < |p| => ScaleCommand(p[i], factor))
  }

  // ---------------------------------------------------------------------
  // toAbsoluteAndRemoveHV
  // ---------------------------------------------------------------------

  /** The normaliser's state: the current point and where the current subpath started. */
  datatype Pen = Pen(marker: Point, start: Point)

  const Home := Pen(Origin, Origin)

  /** The last coordinate pair of a parameter list. */
  function LastPair(ps: seq<real>): Point
    requires |ps| >= 2
  {
    Point(ps[|ps| - 2], ps[|ps| - 1])
  }

  /** `ps` cut into consecutive groups of `n`; an incomplete tail is dropped. */
  function Groups(ps: seq<real>, n: nat): (r: seq<seq<real>>)
    requires n >= 1
    ensures forall g :: 0 <= g < |r| ==> |r[g]| == n
    decreases |ps|
  {
    if |ps| < n then [] else [ps[..n]] + Groups(ps[n..], n)
  }

  /** Copies of a point, flattened to `[x, y, x, y, ...]`. */
  function Repeat(pt: Point, n: nat): (r: seq<real>)
    ensures |r| == 2 * n
    ensures forall j :: 0 <= j < |r| ==> r[j] == if j % 2 == 0 then pt.x else pt.y
  {
    if n == 0 then [] else [pt.x, pt.y] + Repeat(pt, n - 1)
  }

  /** Each coordinate paired with a fixed other coordinate, flattened:
      `[x0, y, x1, y, ...]` when `xs` holds x coordinates, and
      `[x, y0, x, y1, ...]` otherwise. */
  function Pairs(vs: seq<real>, other: real, vsAreX: bool): (r: seq<real>)
    ensures |r| == 2 * |vs|
    ensures forall k :: 0 <= k < |vs| ==>
      if vsAreX then r[2 * k] == vs[k] && r[2 * k + 1] == other
      else r[2 * k] == other && r[2 * k + 1] == vs[k]
  {
    if vs == [] then []
    else
      var head := if vsAreX then [vs[0], other] else [other, vs[0]];
      var rest := Pairs(vs[1..], other, vsAreX);
      PairsCons(vs, other, vsAreX, head, rest);
      head + rest
  }

  /** The first pair in front of the pairs of the other values pairs every value. */
  lemma PairsCons(vs: seq<real>, other: real, vsAreX: bool, head: seq<real>, rest: seq<real>)
    requires vs != [] && head == if vsAreX then [vs[0], other] else [other, vs[0]]
    requires |rest| == 2 * (|vs| - 1)
    requires forall k :: 0 <= k < |vs| - 1 ==>
      if vsAreX then rest[2 * k] == vs[1..][k] && rest[2 * k + 1] == other
      else rest[2 * k] == other && rest[2 * k + 1] == vs[1..][k]
    ensures forall k :: 0 <= k < |vs| ==>
      if vsAreX then (head + rest)[2 * k] == vs[k] && (head + rest)[2 * k + 1] == other
      else (head + rest)[2 * k] == other && (head + rest)[2 * k + 1] == vs[k]
  {
    var r := head + rest;
    forall k | 0 <= k < |vs|
      ensures if vsAreX then r[2 * k] == vs[k] && r[2 * k + 1] == other
        else r[2 * k] == other && r[2 * k + 1] == vs[k]
    {
      if k > 0 {
        var j := k - 1;
        assert r[2 * k] == rest[2 * j] && r[2 * k + 1] == rest[2 * j + 1];
        assert vs[1..][j] == vs[k];
      }
    }
  }

  function Plus(p: Point, dx: real, dy: real): Point {
    Point(p.x + dx, p.y + dy)
  }

  /** One group of a relative command made absolute against the current
      point; `width` is the command's whole parameter count, which the
      `h`/`v` expansion repeats. */
  function RelativeGroup(pen: Pen, op: Op, g: seq<real>, isFirst: bool, width: nat): (r: (Pen, Command))
    requires |g| == Arity(op) && Arity(op) >= 1
    ensures r.1.isAbsolute && r.1.op != Horizontal && r.1.op != Vertical
  {
    var m := pen.marker;
    match op
    case Move =>
      var next := Plus(m, g[0], g[1]);
      (Pen(next, next), Command(true, if isFirst then Move else Line, [next.x, next.y]))
    case Line | SmoothQuadratic =>
      var next := Plus(m, g[0], g[1]);
      (pen.(marker := next), Command(true, op, [next.x, next.y]))
    case Horizontal =>
      var next := Plus(m, g[0], 0.0);
      (pen.(marker := next), Command(true, Line, Repeat(next, width)))
    case Vertical =>
      var next := Plus(m, 0.0, g[0]);
      (pen.(marker := next), Command(true, Line, Repeat(next, width)))
    case Cubic =>
      var next := Plus(m, g[4], g[5]);
      (pen.(marker := next),
       Command(true, op, [m.x + g[0], m.y + g[1], m.x + g[2], m.y + g[3], next.x, next.y]))
    case SmoothCubic | Quadratic =>
      var next := Plus(m, g[2], g[3]);
      (pen.(marker := next), Command(true, op, [m.x + g[0], m.y + g[1], next.x, next.y]))
    case Arc =>
      var next := Plus(m, g[5], g[6]);
      (pen.(marker := next), Command(true, op, g[..5] + [next.x, next.y]))
  }

  /** The groups of one relative command, in order, each against the
      point the previous one reached. */
  function RelativeGroups(pen: Pen, op: Op, gs: seq<seq<real>>, isFirst: bool, width: nat): (r: (Pen, seq<Command>))
    requires Arity(op) >= 1
    requires forall g :: 0 <= g < |gs| ==> |gs[g]| == Arity(op)
    ensures |r.1| == |gs|
    ensures forall j :: 0 <= j < |r.1| ==> r.1[j].isAbsolute && r.1[j].op != Horizontal && r.1[j].op != Vertical
    decreases |gs|
  {
    if gs == [] then (pen, [])
    else
      var (pen1, c) := RelativeGroup(pen, op, gs[0], isFirst, width);
      var (pen2, cs) := RelativeGroups(pen1, op, gs[1..], false, width);
      (pen2, [c] + cs)
  }

  /** One command made absolute, with `H`/`V` spelled as `L`: the commands
      it becomes and the pen afterwards. */
  function NormaliseCommand(pen: Pen, c: Command): (Pen, seq<Command>) {
    var ps := c.params;
    if c.isAbsolute then
      match c.op
      case Move =>
        if |ps| >= 2 then (Pen(LastPair(ps), LastPair(ps)), [c]) else (pen, [c])
      case Horizontal =>
        var m := if |ps| >= 1 then pen.marker.(x := ps[|ps| - 1]) else pen.marker;
        (pen.(marker := m), [Command(true, Line, Pairs(ps, m.y, true))])
      case Vertical =>
        var m := if |ps| >= 1 then pen.marker.(y := ps[|ps| - 1]) else pen.marker;
        (pen.(marker := m), [Command(true, Line, Pairs(ps, m.x, false)), c])
      case Close =>
        (pen.(marker := pen.start), [c])
      case _ =>
        if |ps| >= 2 then (pen.(marker := LastPair(ps)), [c]) else (pen, [c])
    else if c.op == Close then
      (pen.(marker := pen.start), [Command(true, Close, [])])
    else
      RelativeGroups(pen, c.op, Groups(ps, Arity(c.op)), true, |ps|)
  }

  /** `toAbsoluteAndRemoveHV` from a given pen: the left-to-right fold of `NormaliseCommand`. */
  function NormaliseFrom(pen: Pen, p: Path): Path
    decreases |p|
  {
    if p == [] then []
    else
      var (pen1, cs) := NormaliseCommand(pen, p[0]);
      cs + NormaliseFrom(pen1, p[1..])
  }

  /** The pen after normalising `p`. */
  function PenAfter(pen: Pen, p: Path): Pen
    decreases |p|
  {
    if p == [] then pen else PenAfter(NormaliseCommand(pen, p[0]).0, p[1..])
  }

  /** `toAbsoluteAndRemoveHV`: the path with relative commands made
      absolute and `H`/`V` spelled as `L`, starting at the origin. Only
      absolute commands without `H` come out, and a `V` exactly when the
      input has an absolute `V`, which is kept after its `L`. */
  function Normalise(p: Path): (r: Path)
    ensures AbsoluteWithoutH(r)
    ensures HasAbsoluteVertical(r) <==> HasAbsoluteVertical(p)
  {
    NormaliseShape(Home, p);
    NormaliseFrom(Home, p)
  }

  /** Only absolute commands and no `H`. */
  predicate AbsoluteWithoutH(p: Path) {
    forall i :: 0 <= i < |p| ==> p[i].isAbsolute && p[i].op != Horizontal
  }

  // ---------------------------------------------------------------------
  // Shape of the output
  // ---------------------------------------------------------------------

  /** One command normalised: only absolute commands and no `H`, and a `V`
      exactly when the command is an absolute `V`. */
  lemma NormaliseCommandShape(pen: Pen, c: Command)
    ensures var out := NormaliseCommand(pen, c).1;
      && AbsoluteWithoutH(out)
      && ((exists j :: 0 <= j < |out| && out[j].op == Vertical) <==> IsAbsoluteVertical(c))
  {
    var out := NormaliseCommand(pen, c).1;
    if IsAbsoluteVertical(c) {
      assert out[1].op == Vertical;
    }
  }

  /** Normalising leaves only absolute commands and no `H`; a `V` survives
      exactly when the input has an absolute `V`. */
  lemma {:induction false} NormaliseShape(pen: Pen, p: Path)
    ensures var out := NormaliseFrom(pen, p);
      && AbsoluteWithoutH(out)
      && (HasAbsoluteVertical(out) <==> HasAbsoluteVertical(p))
    decreases |p|
  {
    if p != [] {
      var (pen1, cs) := NormaliseCommand(pen, p[0]);
      var rest := NormaliseFrom(pen1, p[1..]);
      var out := NormaliseFrom(pen, p);
      assert out == cs + rest;
      NormaliseCommandShape(pen, p[0]);
      NormaliseShape(pen1, p[1..]);
      if HasAbsoluteVertical(p) {
        var i :| 0 <= i < |p| && IsAbsoluteVertical(p[i]);
        if i == 0 {
          var j :| 0 <= j < |cs| && cs[j].op == Vertical;
          assert out[j] == cs[j];
        } else {
          assert IsAbsoluteVertical(p[1..][i - 1]);
          var j :| 0 <= j < |rest| && IsAbsoluteVertical(rest[j]);
          assert out[|cs| + j] == rest[j];
        }
      }
      if HasAbsoluteVertical(out) {
        var j :| 0 <= j < |out| && IsAbsoluteVertical(out[j]);
        if j < |cs| {
          assert cs[j] == out[j];
        } else {
          assert rest[j - |cs|] == out[j];
          var i :| 0 <= i < |p[1..]| && IsAbsoluteVertical(p[1..][i]);
          assert p[i + 1] == p[1..][i];
        }
      }
    }
  }

  // ---------------------------------------------------------------------
  // rotate
  // ---------------------------------------------------------------------

  /** Each complete coordinate pair turned about the origin; an odd
      trailing parameter is dropped. */
  function RotatePairs(m: MathLib, ps: seq<real>, theta: real): (r: seq<real>)
    ensures |r| == |ps| - |ps| % 2
    decreases |ps|
  {
    if |ps| < 2 then []
    else
      var q := RotateAroundPoint(m, Point(ps[0], ps[1]), theta, Origin);
      [q.x, q.y] + RotatePairs(m, ps[2..], theta)
  }

  /** An arc's parameters with each end point turned about the origin;
      radii, axis rotation and flags are kept. */
  function RotateArc(m: MathLib, ps: seq<real>, theta: real): (r: seq<real>)
    decreases |ps|
  {
    if |ps| >= 7 then
      var q := RotateAroundPoint(m, Point(ps[5], ps[6]), theta, Origin);
      ps[..5] + [q.x, q.y] + RotateArc(m, ps[7..], theta)
    else if |ps| <= 5 then ps
    else ps[..5]
  }

  function RotateCommand(m: MathLib, c: Command, theta: real): (r: Result<Command, TransformError>)
    ensures r.Success? ==> r.value.isAbsolute && r.value.op == c.op
    ensures r.Failure? <==> NeedsNormalising(c)
  {
    if !c.isAbsolute then Failure(RotationOfRelative)
    else
      match c.op
      case Horizontal => Failure(RotationOfHorizontal)
      case Vertical => Failure(RotationOfVertical)
      case Close => Success(c)
      case Arc => Success(c.(params := RotateArc(m, c.params, theta)))
      case _ => Success(c.(params := RotatePairs(m, c.params, theta)))
  }

  /** The path turned by `theta` radians about the origin, normalised
      first when it has relative, `H` or `V` commands. */
  function Rotate(m: MathLib, p: Path, theta: real): (r: Result<Path, TransformError>)
    ensures theta == 0.0 ==> r == Success(p)
  {
    if theta == 0.0 then Success(p)
    else
      var q := if exists i :: 0 <= i < |p| && NeedsNormalising(p[i]) then Normalise(p) else p;
      Collect(seq(|q|, i requires 0 <= i < |q| => RotateCommand(m, q[i], theta)))
  }
}
