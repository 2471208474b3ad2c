/** Laws of the normalisation to absolute commands (`toAbsoluteAndRemoveHV`)
    and of rotation, which depends on it. */
module NormaliseLaws {
  import opened Wrappers
  import opened Cartesian
  import opened SvgPath
  import opened PathTransform

  predicate NothingToNormalise(p: Path) {
    forall i :: 0 <= i < |p| ==> !NeedsNormalising(p[i])
  }

  // ---------------------------------------------------------------------
  // Absolute commands pass through; the fold splits over concatenation
  // ---------------------------------------------------------------------

  /** Absolute commands other than `H` and `V` pass through unchanged. */
  lemma {:induction false} NormaliseIdentity(pen: Pen, p: Path)
    requires NothingToNormalise(p)
    ensures NormaliseFrom(pen, p) == p
    decreases |p|
  {
    if p != [] {
      var (pen1, cs) := NormaliseCommand(pen, p[0]);
      assert cs == [p[0]];
      NormaliseIdentity(pen1, p[1..]);
      assert p == [p[0]] + p[1..];
    }
  }

  /** Normalising a path with no absolute `V` a second time changes nothing. */
  lemma NormaliseIdempotent(p: Path)
    requires !HasAbsoluteVertical(p)
    ensures Normalise(Normalise(p)) == Normalise(p)
  {
    var q := Normalise(p);
    NormaliseShape(Home, p);
    forall i | 0 <= i < |q|
      ensures !NeedsNormalising(q[i])
    {
      assert !IsAbsoluteVertical(q[i]);
    }
    NormaliseIdentity(Home, q);
  }

  /** The fold over a concatenation is the fold over the first part
      followed by the fold over the second from where the first left the pen. */
  lemma {:induction false} NormaliseAppend(pen: Pen, p: Path, q: Path)
    ensures NormaliseFrom(pen, p + q) == NormaliseFrom(pen, p) + NormaliseFrom(PenAfter(pen, p), q)
    ensures PenAfter(pen, p + q) == PenAfter(PenAfter(pen, p), q)
    decreases |p|
  {
    if p == [] {
      assert p + q == q;
    } else {
      var (pen1, cs) := NormaliseCommand(pen, p[0]);
      assert (p + q)[0] == p[0];
      assert (p + q)[1..] == p[1..] + q;
      NormaliseAppend(pen1, p[1..], q);
    }
  }

  /** A close returns the pen to where the subpath started, and a relative
      close becomes an absolute one without parameters. */
  lemma CloseReturnsToStart(pen: Pen, p: Path, c: Command)
    requires c.op == Close
    ensures PenAfter(pen, p + [c]).marker == PenAfter(pen, p).start
    ensures PenAfter(pen, p + [c]).start == PenAfter(pen, p).start
    ensures NormaliseFrom(pen, p + [c]) == NormaliseFrom(pen, p) + [if c.isAbsolute then c else Command(true, Close, [])]
  {
    NormaliseAppend(pen, p, [c]);
  }

  // ---------------------------------------------------------------------
  // Relative pairs: running sums
  // ---------------------------------------------------------------------

  /** Sum of the x offsets of the first `n` pairs. */
  function SumX(ps: seq<real>, n: nat): real
    requires 2 * n <= |ps|
  {
    if n == 0 then 0.0 else SumX(ps, n - 1) + ps[2 * n - 2]
  }

  /** Sum of the y offsets of the first `n` pairs. */
  function SumY(ps: seq<real>, n: nat): real
    requires 2 * n <= |ps|
  {
    if n == 0 then 0.0 else SumY(ps, n - 1) + ps[2 * n - 1]
  }

  lemma {:induction false} SumsFromFront(ps: seq<real>, n: nat)
    requires 2 * n + 2 <= |ps|
    ensures SumX(ps, n + 1) == ps[0] + SumX(ps[2..], n)
    ensures SumY(ps, n + 1) == ps[1] + SumY(ps[2..], n)
  {
    if n > 0 {
      SumsFromFront(ps, n - 1);
      assert ps[2..][2 * n - 2] == ps[2 * n];
      assert ps[2..][2 * n - 1] == ps[2 * n + 1];
    }
  }

  /** The operator of the `k`-th command a relative pair command becomes. */
  function PairOp(op: Op, isFirst: bool, k: nat): Op {
    if op == Move then (if isFirst && k == 0 then Move else Line) else op
  }

  /** The `k`-th command a relative pair command becomes: the pen position
      plus the running sum of the first `k + 1` pairs. */
  function PairCommand(pen: Pen, op: Op, ps: seq<real>, isFirst: bool, k: nat): Command
    requires 2 * k + 2 <= |ps|
  {
    Command(true, PairOp(op, isFirst, k), [pen.marker.x + SumX(ps, k + 1), pen.marker.y + SumY(ps, k + 1)])
  }

  predicate IsPairOp(op: Op) {
    op == Move || op == Line || op == SmoothQuadratic
  }

  /** One pair of a relative `m`, `l` or `t` made absolute. */
  lemma PairStep(pen: Pen, op: Op, g: seq<real>, isFirst: bool, width: nat)
    requires IsPairOp(op) && |g| == 2
    ensures var next := Point(pen.marker.x + g[0], pen.marker.y + g[1]);
      RelativeGroup(pen, op, g, isFirst, width)
        == (Pen(next, if op == Move then next else pen.start), Command(true, PairOp(op, isFirst, 0), [next.x, next.y]))
  {
  }

  /** Cutting into pairs drops at most one trailing value. */
  lemma {:induction false} PairGroupsLength(ps: seq<real>)
    ensures 2 * |Groups(ps, 2)| <= |ps| < 2 * |Groups(ps, 2)| + 2
    decreases |ps|
  {
    if |ps| >= 2 {
      PairGroupsLength(ps[2..]);
    }
  }

  lemma {:induction false} PairGroupsCommands(pen: Pen, op: Op, ps: seq<real>, isFirst: bool, width: nat)
    requires IsPairOp(op)
    ensures var out := RelativeGroups(pen, op, Groups(ps, 2), isFirst, width).1;
      && 2 * |out| <= |ps| < 2 * |out| + 2
      && (forall k :: 0 <= k < |out| ==> out[k] == PairCommand(pen, op, ps, isFirst, k))
    decreases |ps|
  {
    PairGroupsLength(ps);
    if |ps| >= 2 {
      var gs := Groups(ps, 2);
      GroupsCons(ps, 2);
      var first := RelativeGroup(pen, op, ps[..2], isFirst, width);
      PairStep(pen, op, ps[..2], isFirst, width);
      var pen1 := first.0;
      var rest := RelativeGroups(pen1, op, Groups(ps[2..], 2), false, width).1;
      RelativeGroupsCons(pen, op, gs, isFirst, width);
      PairGroupsCommands(pen1, op, ps[2..], false, width);
      SumsFromFront(ps, 0);
      PairCommandsCons(pen, pen1, op, ps, isFirst, first.1, rest);
    }
  }

  /** The first pair's command followed by the remaining pairs' commands,
      from the pen the first pair leaves, are all the pairs' commands. */
  lemma PairCommandsCons(pen: Pen, pen1: Pen, op: Op, ps: seq<real>, isFirst: bool, c: Command, rest: seq<Command>)
    requires |ps| >= 2 && 2 * |rest| <= |ps| - 2
    requires pen1.marker == Point(pen.marker.x + ps[0], pen.marker.y + ps[1])
    requires c == PairCommand(pen, op, ps, isFirst, 0)
    requires forall i :: 0 <= i < |rest| ==> rest[i] == PairCommand(pen1, op, ps[2..], false, i)
    ensures forall k :: 0 <= k < |[c] + rest| ==> ([c] + rest)[k] == PairCommand(pen, op, ps, isFirst, k)
  {
    var out := [c] + rest;
    forall k | 1 <= k < |out|
      ensures out[k] == PairCommand(pen, op, ps, isFirst, k)
    {
      assert out[k] == rest[k - 1];
      ShiftedPairCommand(pen, pen1, op, ps, isFirst, k);
    }
  }

  /** Cutting a list with at least one whole group: that group, then the rest cut. */
  lemma GroupsCons(ps: seq<real>, n: nat)
    requires n >= 1 && |ps| >= n
    ensures Groups(ps, n) == [ps[..n]] + Groups(ps[n..], n)
    ensures Groups(ps, n)[0] == ps[..n] && Groups(ps, n)[1..] == Groups(ps[n..], n)
  {
  }

  /** The groups made absolute one after another: the first from the pen,
      the others from where the first leaves it. */
  lemma RelativeGroupsCons(pen: Pen, op: Op, gs: seq<seq<real>>, isFirst: bool, width: nat)
    requires Arity(op) >= 1 && gs != []
    requires forall g :: 0 <= g < |gs| ==> |gs[g]| == Arity(op)
    ensures var first := RelativeGroup(pen, op, gs[0], isFirst, width);
      var rest := RelativeGroups(first.0, op, gs[1..], false, width);
      RelativeGroups(pen, op, gs, isFirst, width) == (rest.0, [first.1] + rest.1)
  {
  }

  /** The commands after the first pair are those of the remaining pairs
      from the pen the first pair leaves. */
  lemma ShiftedPairCommand(pen: Pen, pen1: Pen, op: Op, ps: seq<real>, isFirst: bool, k: nat)
    requires 1 <= k && 2 * k + 2 <= |ps|
    requires pen1.marker == Point(pen.marker.x + ps[0], pen.marker.y + ps[1])
    ensures PairCommand(pen1, op, ps[2..], false, k - 1) == PairCommand(pen, op, ps, isFirst, k)
  {
    SumsFromFront(ps, k);
  }

  lemma {:induction false} PairGroupsPen(pen: Pen, op: Op, ps: seq<real>, isFirst: bool, width: nat)
    requires IsPairOp(op)
    ensures var res := RelativeGroups(pen, op, Groups(ps, 2), isFirst, width);
      && 2 * |res.1| <= |ps|
      && res.0.marker == Point(pen.marker.x + SumX(ps, |res.1|), pen.marker.y + SumY(ps, |res.1|))
      && res.0.start == (if op == Move && |res.1| > 0 then res.0.marker else pen.start)
    decreases |ps|
  {
    PairGroupsLength(ps);
    if |ps| >= 2 {
      var gs := Groups(ps, 2);
      GroupsCons(ps, 2);
      PairStep(pen, op, ps[..2], isFirst, width);
      var pen1 := RelativeGroup(pen, op, ps[..2], isFirst, width).0;
      var tail := RelativeGroups(pen1, op, Groups(ps[2..], 2), false, width);
      RelativeGroupsCons(pen, op, gs, isFirst, width);
      PairGroupsPen(pen1, op, ps[2..], false, width);
      SumsFromFront(ps, |tail.1|);
      if op == Move && |tail.1| == 0 {
        assert tail.0 == pen1;
      }
    }
  }

  /** A relative `m`, `l` or `t` becomes one absolute command per complete
      pair, holding the pen position plus the running sum of the offsets;
      a relative `m` keeps `M` for its first pair only, uses `L` after it,
      and starts a new subpath. */
  lemma RelativePairsTrack(pen: Pen, c: Command)
    requires !c.isAbsolute && IsPairOp(c.op)
    ensures var res := NormaliseCommand(pen, c);
      && 2 * |res.1| <= |c.params| < 2 * |res.1| + 2
      && (forall k :: 0 <= k < |res.1| ==> res.1[k] == PairCommand(pen, c.op, c.params, true, k))
      && res.0.marker == Point(pen.marker.x + SumX(c.params, |res.1|), pen.marker.y + SumY(c.params, |res.1|))
      && res.0.start == (if c.op == Move && |res.1| > 0 then res.0.marker else pen.start)
  {
    PairGroupsCommands(pen, c.op, c.params, true, |c.params|);
    PairGroupsPen(pen, c.op, c.params, true, |c.params|);
  }

  // ---------------------------------------------------------------------
  // The H/V quirks
  // ---------------------------------------------------------------------

  /** An absolute `V` becomes an `L` through the points (current x, y) for
      each of its y values, and then the `V` itself is kept as well. */
  lemma AbsoluteVerticalKept(pen: Pen, c: Command)
    requires IsAbsoluteVertical(c)
    ensures var out := NormaliseCommand(pen, c).1;
      && |out| == 2 && out[1] == c
      && out[0].isAbsolute && out[0].op == Line && |out[0].params| == 2 * |c.params|
      && forall k :: 0 <= k < |c.params| ==> out[0].params[2 * k] == pen.marker.x && out[0].params[2 * k + 1] == c.params[k]
  {
  }

  /** Sum of the first `n` values. */
  function Sum(vs: seq<real>, n: nat): real
    requires n <= |vs|
  {
    if n == 0 then 0.0 else Sum(vs, n - 1) + vs[n - 1]
  }

  lemma {:induction false} SumFromFront(vs: seq<real>, n: nat)
    requires n + 1 <= |vs|
    ensures Sum(vs, n + 1) == vs[0] + Sum(vs[1..], n)
  {
    if n > 0 {
      SumFromFront(vs, n - 1);
      assert vs[1..][n - 1] == vs[n];
    }
  }

  /** The point a relative `h` (when `horizontal`) or `v` has reached after `n` steps. */
  function Reached(pen: Pen, vs: seq<real>, n: nat, horizontal: bool): Point
    requires n <= |vs|
  {
    if horizontal then Point(pen.marker.x + Sum(vs, n), pen.marker.y)
    else Point(pen.marker.x, pen.marker.y + Sum(vs, n))
  }

  lemma {:induction false} SingleGroupsTrack(pen: Pen, op: Op, vs: seq<real>, isFirst: bool, width: nat)
    requires op == Horizontal || op == Vertical
    ensures var (after, out) := RelativeGroups(pen, op, Groups(vs, 1), isFirst, width);
      && |out| == |vs|
      && (forall j :: 0 <= j < |out| ==>
            out[j] == Command(true, Line, Repeat(Reached(pen, vs, j + 1, op == Horizontal), width)))
      && after == pen.(marker := Reached(pen, vs, |vs|, op == Horizontal))
    decreases |vs|
  {
    if vs != [] {
      var gs := Groups(vs, 1);
      GroupsCons(vs, 1);
      var (pen1, c) := RelativeGroup(pen, op, vs[..1], isFirst, width);
      RelativeGroupsCons(pen, op, gs, isFirst, width);
      SingleGroupsTrack(pen1, op, vs[1..], false, width);
      var rest := RelativeGroups(pen1, op, Groups(vs[1..], 1), false, width).1;
      SingleStep(pen, pen1, op, vs, isFirst, width);
      var out := [c] + rest;
      forall j | 0 <= j < |out|
        ensures out[j] == Command(true, Line, Repeat(Reached(pen, vs, j + 1, op == Horizontal), width))
      {
        if j > 0 {
          assert out[j] == rest[j - 1];
          ShiftedReached(pen, pen1, vs, j, op == Horizontal);
        }
      }
      ShiftedReached(pen, pen1, vs, |vs| - 1, op == Horizontal);
    }
  }

  /** The first value of a relative `h` or `v` moves the pen by it. */
  lemma SingleStep(pen: Pen, pen1: Pen, op: Op, vs: seq<real>, isFirst: bool, width: nat)
    requires (op == Horizontal || op == Vertical) && |vs| >= 1
    requires pen1 == RelativeGroup(pen, op, vs[..1], isFirst, width).0
    ensures pen1 == pen.(marker := Reached(pen, vs, 1, op == Horizontal))
    ensures RelativeGroup(pen, op, vs[..1], isFirst, width).1
         == Command(true, Line, Repeat(Reached(pen, vs, 1, op == Horizontal), width))
  {
    assert Sum(vs, 1) == vs[0];
  }

  /** After the first step, the points reached by the remaining values are
      the points reached by all of them, one step further. */
  lemma ShiftedReached(pen: Pen, pen1: Pen, vs: seq<real>, j: nat, horizontal: bool)
    requires 1 <= |vs| && j < |vs|
    requires pen1.marker == Reached(pen, vs, 1, horizontal)
    ensures Reached(pen1, vs[1..], j, horizontal) == Reached(pen, vs, j + 1, horizontal)
  {
    SumFromFront(vs, j);
    assert Sum(vs, 1) == vs[0];
  }

  /** A relative `h` or `v` with `n` values becomes `n` absolute `L`
      commands, the `j`-th holding the point reached after `j + 1` steps
      repeated `n` times. */
  lemma RelativeHorizontalVerticalRepeat(pen: Pen, c: Command)
    requires !c.isAbsolute && (c.op == Horizontal || c.op == Vertical)
    ensures var (after, out) := NormaliseCommand(pen, c);
      && |out| == |c.params|
      && (forall j :: 0 <= j < |out| ==>
            out[j] == Command(true, Line, Repeat(Reached(pen, c.params, j + 1, c.op == Horizontal), |c.params|)))
      && after == pen.(marker := Reached(pen, c.params, |c.params|, c.op == Horizontal))
  {
    SingleGroupsTrack(pen, c.op, c.params, true, |c.params|);
  }

  // ---------------------------------------------------------------------
  // rotate
  // ---------------------------------------------------------------------

  /** Rotation by a non-zero angle fails exactly when the path has an
      absolute `V`, which normalisation keeps, and the error is the one
      for `V`. */
  lemma RotateFailsOnVertical(m: MathLib, p: Path, theta: real)
    ensures Rotate(m, p, theta).Failure? <==> theta != 0.0 && HasAbsoluteVertical(p)
    ensures Rotate(m, p, theta).Failure? ==> Rotate(m, p, theta).error == RotationOfVertical
  {
    if theta != 0.0 {
      var needs := exists i :: 0 <= i < |p| && NeedsNormalising(p[i]);
      var q := if needs then Normalise(p) else p;
      var rs := seq(|q|, i requires 0 <= i < |q| => RotateCommand(m, q[i], theta));
      assert Rotate(m, p, theta) == Collect(rs);
      if needs {
        NormaliseShape(Home, p);
      }
      assert AbsoluteWithoutH(q) && (HasAbsoluteVertical(q) <==> HasAbsoluteVertical(p));
      if HasAbsoluteVertical(p) {
        var i :| 0 <= i < |q| && IsAbsoluteVertical(q[i]);
        assert rs[i].Failure?;
      }
      if Collect(rs).Failure? {
        var i :| 0 <= i < |rs| && rs[i] == Failure(Collect(rs).error);
        assert NeedsNormalising(q[i]);
        assert IsAbsoluteVertical(q[i]);
      }
    }
  }

  lemma {:induction false} RotatePairsTurnsPoints(m: MathLib, ps: seq<real>, theta: real)
    ensures var r := RotatePairs(m, ps, theta);
      forall k :: 0 <= k < |ps| / 2 ==>
        Point(r[2 * k], r[2 * k + 1]) == RotateAroundPoint(m, Point(ps[2 * k], ps[2 * k + 1]), theta, Origin)
    decreases |ps|
  {
    if |ps| >= 2 {
      var r := RotatePairs(m, ps, theta);
      var rest := RotatePairs(m, ps[2..], theta);
      RotatePairsTurnsPoints(m, ps[2..], theta);
      assert r[2..] == rest;
      assert |ps[2..]| / 2 == |ps| / 2 - 1;
      forall k | 1 <= k < |ps| / 2
        ensures Point(r[2 * k], r[2 * k + 1]) == RotateAroundPoint(m, Point(ps[2 * k], ps[2 * k + 1]), theta, Origin)
      {
        var h := k - 1;
        assert r[2 * k] == rest[2 * h] && r[2 * k + 1] == rest[2 * h + 1];
        assert ps[2 * k] == ps[2..][2 * h] && ps[2 * k + 1] == ps[2..][2 * h + 1];
      }
    }
  }

  lemma {:induction false} RotateArcLength(m: MathLib, ps: seq<real>, theta: real)
    ensures |ps| % 7 == 0 ==> |RotateArc(m, ps, theta)| == |ps|
    ensures |RotateArc(m, ps, theta)| >= 7 * (|ps| / 7)
    decreases |ps|
  {
    if |ps| >= 7 {
      RotateArcLength(m, ps[7..], theta);
      assert |ps[7..]| / 7 == |ps| / 7 - 1;
    }
  }

  lemma {:induction false} RotateArcKeepsShapeSlots(m: MathLib, ps: seq<real>, theta: real)
    ensures var r := RotateArc(m, ps, theta);
      forall k :: 0 <= k < |ps| && k % 7 < 5 ==> k < |r| && r[k] == ps[k]
    decreases |ps|
  {
    if |ps| >= 7 {
      var r := RotateArc(m, ps, theta);
      var rest := RotateArc(m, ps[7..], theta);
      RotateArcKeepsShapeSlots(m, ps[7..], theta);
      assert r[7..] == rest;
      forall k | 7 <= k < |ps| && k % 7 < 5
        ensures k < |r| && r[k] == ps[k]
      {
        assert (k - 7) % 7 == k % 7;
        assert rest[k - 7] == ps[7..][k - 7];
      }
    }
  }

  lemma {:induction false} RotateArcTurnsEndPoints(m: MathLib, ps: seq<real>, theta: real)
    ensures var r := RotateArc(m, ps, theta);
      forall g :: 0 <= g < |ps| / 7 ==>
        && 7 * g + 6 < |r|
        && Point(r[7 * g + 5], r[7 * g + 6]) == RotateAroundPoint(m, Point(ps[7 * g + 5], ps[7 * g + 6]), theta, Origin)
    decreases |ps|
  {
    if |ps| >= 7 {
      var r := RotateArc(m, ps, theta);
      var rest := RotateArc(m, ps[7..], theta);
      RotateArcTurnsEndPoints(m, ps[7..], theta);
      RotateArcLength(m, ps[7..], theta);
      assert r[7..] == rest;
      assert |ps[7..]| / 7 == |ps| / 7 - 1;
      forall g | 1 <= g < |ps| / 7
        ensures 7 * g + 6 < |r|
        ensures Point(r[7 * g + 5], r[7 * g + 6]) == RotateAroundPoint(m, Point(ps[7 * g + 5], ps[7 * g + 6]), theta, Origin)
      {
        EndPointShift(r, g);
        EndPointShift(ps, g);
      }
    }
  }

  /** The end point of the `g`-th arc is the end point of the one before it
      once the first arc is dropped. */
  lemma EndPointShift(s: seq<real>, g: nat)
    requires 1 <= g && 7 * g + 6 < |s|
    ensures s[7 * g + 5] == s[7..][7 * (g - 1) + 5] && s[7 * g + 6] == s[7..][7 * (g - 1) + 6]
  {
  }

  /** An absolute command other than `H` or `V` with a well-formed
      parameter count rotates successfully and keeps its count. */
  lemma RotateCommandKeepsCount(m: MathLib, c: Command, theta: real)
    requires !NeedsNormalising(c) && WellFormed(c)
    ensures RotateCommand(m, c, theta).Success?
    ensures |RotateCommand(m, c, theta).value.params| == |c.params|
  {
    if c.op == Arc {
      RotateArcLength(m, c.params, theta);
    } else if c.op != Close {
      PairedCountIsEven(c);
      assert RotateCommand(m, c, theta) == Success(c.(params := RotatePairs(m, c.params, theta)));
    }
  }

  /** A well-formed command whose operator takes coordinate pairs has an
      even parameter count. */
  lemma PairedCountIsEven(c: Command)
    requires WellFormed(c) && c.op !in {Arc, Close, Horizontal, Vertical}
    ensures |c.params| % 2 == 0
  {
    var n := |c.params|;
    match c.op
    case Move | Line | SmoothQuadratic =>
    case Cubic =>
      MultipleOfEvenIsEven(n, 3);
    case SmoothCubic | Quadratic =>
      MultipleOfEvenIsEven(n, 2);
  }

  lemma MultipleOfEvenIsEven(n: nat, h: nat)
    requires h > 0 && n % (2 * h) == 0
    ensures n % 2 == 0
  {
    var q := n / (2 * h);
    assert n == 2 * (h * q);
  }

  /** On a path with only absolute commands and no `H` or `V`, a
      successful rotation keeps every command's operator, and its
      parameter count when that count is well formed. */
  lemma RotateKeepsShape(m: MathLib, p: Path, theta: real)
    requires NothingToNormalise(p) && forall i :: 0 <= i < |p| ==> WellFormed(p[i])
    ensures Rotate(m, p, theta).Success?
    ensures SameShape(p, Rotate(m, p, theta).value)
  {
    if theta != 0.0 {
      var rs := seq(|p|, i requires 0 <= i < |p| => RotateCommand(m, p[i], theta));
      assert !exists i :: 0 <= i < |p| && NeedsNormalising(p[i]);
      assert Rotate(m, p, theta) == Collect(rs);
      forall i | 0 <= i < |p|
        ensures rs[i].Success? && |rs[i].value.params| == |p[i].params|
      {
        RotateCommandKeepsCount(m, p[i], theta);
      }
      var r := Collect(rs).value;
      forall i | 0 <= i < |p|
        ensures r[i].isAbsolute == p[i].isAbsolute && r[i].op == p[i].op && |r[i].params| == |p[i].params|
      {
        assert rs[i] == Success(r[i]);
      }
    }
  }
}
