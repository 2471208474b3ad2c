/** Laws of rounding, translation and scaling: what each does to every
    parameter according to the parameter's role in the SVG path grammar,
    and how the operations compose. */
module TransformLaws {
  import opened Wrappers
  import opened Numbers
  import opened SvgPath
  import opened SvgPathLaws
  import opened PathTransform

  /** Every parameter of `p` is below the magnitude where `toFixed` stops rounding. */
  predicate Roundable(p: Path) {
    forall i, k :: 0 <= i < |p| && 0 <= k < |p[i].params| ==> -FixedLimit < p[i].params[k] < FixedLimit
  }

  // ---------------------------------------------------------------------
  // round
  // ---------------------------------------------------------------------

  /** Rounding moves each parameter by at most half a unit of the last
      kept place and leaves at most `places` fraction digits. */
  lemma RoundIsClose(p: Path, places: int)
    requires 0 <= places <= 100 && Roundable(p)
    ensures Round(p, places).Success?
    ensures var q := Round(p, places).value;
      forall i, k :: 0 <= i < |p| && 0 <= k < |p[i].params| ==>
        && -Unshift(0.5, places) <= q[i].params[k] - p[i].params[k] <= Unshift(0.5, places)
        && HasFractionDigits(q[i].params[k], places)
  {
  }

  /** Rounding a rounded path again changes nothing. */
  lemma RoundIdempotent(p: Path, places: int)
    requires 0 <= places <= 100
    ensures Round(p, places).Success?
    ensures Round(Round(p, places).value, places) == Round(p, places)
  {
    var q := Round(p, places).value;
    var q2 := Round(q, places).value;
    forall i, k | 0 <= i < |p| && 0 <= k < |p[i].params|
      ensures q2[i].params[k] == q[i].params[k]
    {
      ToFixedIdempotent(p[i].params[k], places);
    }
    assert forall i :: 0 <= i < |p| ==> q2[i].params == q[i].params;
    assert q2 == q;
  }

  /** The most places after which every non-zero rounded value still
      prints in plain notation: 10^-6 is the smallest such magnitude. */
  const PlainPlaces: nat := 6

  /** Every parameter of `p` is more than one unit inside the magnitude
      from which `String` writes exponent notation, so rounding cannot
      reach it. */
  predicate InsidePlainRange(p: Path) {
    forall i, k :: 0 <= i < |p| && 0 <= k < |p[i].params| ==> -FixedLimit + 1.0 < p[i].params[k] < FixedLimit - 1.0
  }

  /** A path rounded to at most six places prints exactly and in plain
      notation, so it survives serialising and parsing. */
  lemma RoundedPathsRoundTrip(p: Path, places: int)
    requires 0 <= places <= PlainPlaces && InsidePlainRange(p)
    requires |p| >= 1 && forall i :: 0 <= i < |p| ==> WellFormed(p[i])
    ensures Round(p, places).Success?
    ensures Parse(Serialize(Round(p, places).value)) == Success(Round(p, places).value)
  {
    var q := Round(p, places).value;
    RoundIsClose(p, places);
    UnshiftShrinks(0.5, places);
    forall i, k | 0 <= i < |q| && 0 <= k < |q[i].params|
      ensures IsPrintableNumber(q[i].params[k])
    {
      RoundedPrintable(p[i].params[k], q[i].params[k], places);
    }
    assert Canonical(q);
    RoundTrip(q);
  }

  /** One rounded parameter prints exactly and in plain notation. */
  lemma RoundedPrintable(x: real, y: real, places: nat)
    requires places <= PlainPlaces && -FixedLimit + 1.0 < x < FixedLimit - 1.0
    requires -0.5 <= y - x <= 0.5 && HasFractionDigits(y, places)
    ensures IsPrintableNumber(y)
  {
    MoreFractionDigits(y, places, FractionDigits);
    MoreFractionDigits(y, places, PlainPlaces);
    SixPlacesPrintPlain(y);
  }

  // ---------------------------------------------------------------------
  // translate
  // ---------------------------------------------------------------------

  /** What moving by (`dx`, `dy`) adds to a parameter in the given role. */
  function Offset(s: Slot, dx: real, dy: real): real {
    match s
    case XCoord => dx
    case YCoord => dy
    case _ => 0.0
  }

  /** Translation adds `dx` to every x coordinate and `dy` to every y
      coordinate of an absolute command, and leaves radii, axis rotations
      and flags alone. */
  lemma TranslateAbsolute(p: Path, dx: real, dy: real)
    ensures var q := Translate(p, dx, dy);
      forall i, k :: 0 <= i < |p| && p[i].isAbsolute && p[i].op != Close && 0 <= k < |p[i].params| ==>
        q[i].params[k] == p[i].params[k] + Offset(SlotOf(p[i].op, k), dx, dy)
  {
  }

  /** Absolute closes, and relative commands other than a leading relative
      move, are left as they are. */
  lemma TranslateKeepsRelative(p: Path, dx: real, dy: real)
    ensures var q := Translate(p, dx, dy);
      forall i :: 0 <= i < |p| && (p[i].op == Close || (!p[i].isAbsolute && (i > 0 || p[i].op != Move))) ==>
        q[i] == p[i]
  {
  }

  /** A leading relative move is where the pen starts, so its first pair
      moves and its later pairs, being offsets, do not. */
  lemma TranslateLeadingRelativeMove(p: Path, dx: real, dy: real)
    requires |p| >= 1 && !p[0].isAbsolute && p[0].op == Move && |p[0].params| >= 2
    ensures var q := Translate(p, dx, dy)[0].params;
      && q[0] == p[0].params[0] + dx && q[1] == p[0].params[1] + dy
      && q[2..] == p[0].params[2..]
  {
  }

  /** Translation is a per-command map even by (0, 0), where the source
      returns its input untouched. */
  lemma TranslateMaps(p: Path, dx: real, dy: real)
    ensures Translate(p, dx, dy) == seq(|p|, i requires 0 <= i < |p| => TranslateCommand(p[i], i, dx, dy))
  {
    if dx == 0.0 && dy == 0.0 {
      forall i | 0 <= i < |p|
        ensures TranslateCommand(p[i], i, dx, dy) == p[i]
      {
        var c := p[i];
        if c.isAbsolute && c.op != Close {
          assert TranslateCommand(c, i, dx, dy).params == c.params;
        } else if !c.isAbsolute && i == 0 && c.op == Move && |c.params| >= 2 {
          assert TranslateCommand(c, i, dx, dy).params == c.params;
        }
      }
    }
  }

  lemma TranslateCommandCompose(c: Command, i: nat, a: real, b: real, e: real, f: real)
    ensures TranslateCommand(TranslateCommand(c, i, a, b), i, e, f) == TranslateCommand(c, i, a + e, b + f)
  {
    var q := TranslateCommand(TranslateCommand(c, i, a, b), i, e, f);
    var r := TranslateCommand(c, i, a + e, b + f);
    if c.isAbsolute && c.op != Close {
      assert q.params == r.params;
    } else if !c.isAbsolute && i == 0 && c.op == Move && |c.params| >= 2 {
      assert q.params == r.params;
    }
  }

  /** Two translations are one translation by the sum. */
  lemma TranslateCompose(p: Path, a: real, b: real, e: real, f: real)
    ensures Translate(Translate(p, a, b), e, f) == Translate(p, a + e, b + f)
  {
    var t := Translate(p, a, b);
    TranslateMaps(p, a, b);
    TranslateMaps(t, e, f);
    TranslateMaps(p, a + e, b + f);
    forall i | 0 <= i < |p|
      ensures TranslateCommand(t[i], i, e, f) == TranslateCommand(p[i], i, a + e, b + f)
    {
      TranslateCommandCompose(p[i], i, a, b, e, f);
    }
  }

  /** Translating back undoes a translation. */
  lemma TranslateInverse(p: Path, dx: real, dy: real)
    ensures Translate(Translate(p, dx, dy), -dx, -dy) == p
  {
    TranslateCompose(p, dx, dy, -dx, -dy);
  }

  // ---------------------------------------------------------------------
  // scale
  // ---------------------------------------------------------------------

  /** The parameter roles a change of scale affects: lengths, not angles or flags. */
  predicate IsLength(s: Slot) {
    s == XCoord || s == YCoord || s == Radius
  }

  /** Scaling multiplies every coordinate and radius by `factor`, in
      absolute and relative commands alike, and keeps each arc's axis
      rotation and flags. */
  lemma ScaleSlots(p: Path, factor: real)
    ensures var q := Scale(p, factor);
      forall i, k :: 0 <= i < |p| && 0 <= k < |p[i].params| ==>
        q[i].params[k] == if IsLength(SlotOf(p[i].op, k)) then p[i].params[k] * factor else p[i].params[k]
  {
  }

  /** Scaling is a per-command map even by 1, where the source returns
      its input untouched. */
  lemma ScaleMaps(p: Path, factor: real)
    ensures Scale(p, factor) == seq(|p|, i requires 0 <= i < |p| => ScaleCommand(p[i], factor))
  {
    if factor == 1.0 {
      forall i | 0 <= i < |p|
        ensures ScaleCommand(p[i], factor) == p[i]
      {
        assert ScaleCommand(p[i], factor).params == p[i].params;
      }
    }
  }

  lemma ScaleCommandCompose(c: Command, a: real, b: real)
    ensures ScaleCommand(ScaleCommand(c, a), b) == ScaleCommand(c, a * b)
  {
    var q := ScaleCommand(ScaleCommand(c, a), b);
    var r := ScaleCommand(c, a * b);
    forall k | 0 <= k < |c.params|
      ensures q.params[k] == r.params[k]
    {
      if !(c.op == Arc && 2 <= k % 7 <= 4) {
        assert c.params[k] * a * b == c.params[k] * (a * b);
      }
    }
  }

  /** Two scalings are one scaling by the product. */
  lemma ScaleCompose(p: Path, a: real, b: real)
    ensures Scale(Scale(p, a), b) == Scale(p, a * b)
  {
    var t := Scale(p, a);
    ScaleMaps(p, a);
    ScaleMaps(t, b);
    ScaleMaps(p, a * b);
    forall i | 0 <= i < |p|
      ensures ScaleCommand(t[i], b) == ScaleCommand(p[i], a * b)
    {
      ScaleCommandCompose(p[i], a, b);
    }
  }

  /** Scaling by the reciprocal undoes a scaling. */
  lemma ScaleInverse(p: Path, factor: real)
    requires factor != 0.0
    ensures Scale(Scale(p, factor), 1.0 / factor) == p
  {
    ScaleCompose(p, factor, 1.0 / factor);
  }

  lemma ScaleMovedParameter(op: Op, v: real, k: nat, dx: real, dy: real, factor: real)
    requires !(op == Arc && 2 <= k % 7 <= 4)
    ensures MovedParameter(op, v, k, dx, dy) * factor == MovedParameter(op, v * factor, k, dx * factor, dy * factor)
  {
    assert (v + dx) * factor == v * factor + dx * factor;
    assert (v + dy) * factor == v * factor + dy * factor;
  }

  lemma ScaleTranslateLeadingMove(c: Command, dx: real, dy: real, factor: real)
    requires !c.isAbsolute && c.op == Move && |c.params| >= 2
    ensures ScaleCommand(TranslateCommand(c, 0, dx, dy), factor)
         == TranslateCommand(ScaleCommand(c, factor), 0, dx * factor, dy * factor)
  {
    var q := ScaleCommand(TranslateCommand(c, 0, dx, dy), factor);
    var r := TranslateCommand(ScaleCommand(c, factor), 0, dx * factor, dy * factor);
    assert (c.params[0] + dx) * factor == c.params[0] * factor + dx * factor;
    assert (c.params[1] + dy) * factor == c.params[1] * factor + dy * factor;
    forall k | 0 <= k < |c.params|
      ensures q.params[k] == r.params[k]
    {
      if k >= 2 {
        assert q.params[k] == c.params[k] * factor;
      }
    }
  }

  lemma ScaleTranslateAbsolute(c: Command, i: nat, dx: real, dy: real, factor: real)
    requires c.isAbsolute && c.op != Close
    ensures ScaleCommand(TranslateCommand(c, i, dx, dy), factor)
         == TranslateCommand(ScaleCommand(c, factor), i, dx * factor, dy * factor)
  {
    var t := TranslateCommand(c, i, dx, dy);
    var q := ScaleCommand(t, factor);
    var s := ScaleCommand(c, factor);
    var r := TranslateCommand(s, i, dx * factor, dy * factor);
    forall k | 0 <= k < |c.params|
      ensures q.params[k] == r.params[k]
    {
      ScaleTranslateParameter(c, i, dx, dy, factor, k);
    }
  }

  lemma ScaleTranslateParameter(c: Command, i: nat, dx: real, dy: real, factor: real, k: nat)
    requires c.isAbsolute && c.op != Close && k < |c.params|
    ensures ScaleCommand(TranslateCommand(c, i, dx, dy), factor).params[k]
         == TranslateCommand(ScaleCommand(c, factor), i, dx * factor, dy * factor).params[k]
  {
    ScaleMovedAny(c.op, c.params[k], k, dx, dy, factor);
  }

  /** One parameter: scaling after moving is moving the scaled value by
      the scaled offset, arc radii and flags included. */
  lemma ScaleMovedAny(op: Op, v: real, k: nat, dx: real, dy: real, factor: real)
    ensures (if op == Arc && 2 <= k % 7 <= 4 then MovedParameter(op, v, k, dx, dy) else MovedParameter(op, v, k, dx, dy) * factor)
         == MovedParameter(op, if op == Arc && 2 <= k % 7 <= 4 then v else v * factor, k, dx * factor, dy * factor)
  {
    if !(op == Arc && 2 <= k % 7 <= 4) {
      ScaleMovedParameter(op, v, k, dx, dy, factor);
    }
  }

  lemma ScaleTranslateCommand(c: Command, i: nat, dx: real, dy: real, factor: real)
    ensures ScaleCommand(TranslateCommand(c, i, dx, dy), factor)
         == TranslateCommand(ScaleCommand(c, factor), i, dx * factor, dy * factor)
  {
    if c.isAbsolute && c.op != Close {
      ScaleTranslateAbsolute(c, i, dx, dy, factor);
    } else if !c.isAbsolute && i == 0 && c.op == Move && |c.params| >= 2 {
      ScaleTranslateLeadingMove(c, dx, dy, factor);
    }
  }

  /** Scaling a translated path is translating the scaled path by the scaled offset. */
  lemma ScaleTranslate(p: Path, dx: real, dy: real, factor: real)
    ensures Scale(Translate(p, dx, dy), factor) == Translate(Scale(p, factor), dx * factor, dy * factor)
  {
    var t := Translate(p, dx, dy);
    var s := Scale(p, factor);
    TranslateMaps(p, dx, dy);
    ScaleMaps(t, factor);
    ScaleMaps(p, factor);
    TranslateMaps(s, dx * factor, dy * factor);
    forall i | 0 <= i < |p|
      ensures ScaleCommand(t[i], factor) == TranslateCommand(s[i], i, dx * factor, dy * factor)
    {
      ScaleTranslateCommand(p[i], i, dx, dy, factor);
    }
  }
}
