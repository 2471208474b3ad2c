/** Laws of the pattern parser and serialiser: serialised patterns parse
    back to themselves, blank and surplus fields do not matter, and
    defaults are filled in. */
module PatternLaws {
  import opened Wrappers
  import opened Text
  import opened Numbers
  import opened SvgPath
  import opened SvgPathLaws
  import opened Pattern

  /** An amount the serialiser prints exactly. */
  predicate CanonicalAmount(v: PixelOrPercent) {
    IsDecimal(v.value)
  }

  predicate CanonicalPart(part: PatternPart) {
    Canonical(part.path) && CanonicalAmount(part.offset) && CanonicalAmount(part.interval)
  }

  /** A pattern that serialising and parsing carry unchanged: `solid`, or
      at least one part, every part canonical. */
  predicate CanonicalPattern(p: Pattern) {
    p.Parts? ==> |p.parts| >= 1 && forall i :: 0 <= i < |p.parts| ==> CanonicalPart(p.parts[i])
  }

  /** A serialised part contains `,` and no `;`. */
  lemma PartTextShape(part: PatternPart)
    ensures ';' !in PartToString(part) && ',' in PartToString(part)
  {
    var fs := PartFields(part);
    PartFieldsClean(part);
    FourFieldsText(fs[0], fs[1], fs[2], fs[3]);
  }

  // ---------------------------------------------------------------------
  // Round trips
  // ---------------------------------------------------------------------

  /** A printed amount reads back as itself, whatever the default. */
  lemma AmountRoundTrip(v: PixelOrPercent, default: Option<PixelOrPercent>)
    requires CanonicalAmount(v)
    ensures ParsePixelOrPercent(Some(PixelOrPercentToString(v)), default) == Success(v)
  {
    var n := NumToString(v.value);
    var s := PixelOrPercentToString(v);
    NumberRoundTrip(v.value);
    if v.unit == Percent {
      assert s == n + "%";
      PercentRead(n, v.value, default);
    } else {
      PixelsRead(n, v.value, default);
    }
  }

  /** A number followed by `%` reads as that percentage. */
  lemma PercentRead(n: string, x: real, default: Option<PixelOrPercent>)
    requires |n| >= 1 && ToNumber(n) == Some(x)
    ensures ParsePixelOrPercent(Some(n + "%"), default) == Success(PixelOrPercent(x, Percent))
  {
    var t := n + "%";
    assert t[|t| - 1] == '%';
    assert t[..|t| - 1] == n;
  }

  /** A number that does not end in `%` reads as that many pixels. */
  lemma PixelsRead(n: string, x: real, default: Option<PixelOrPercent>)
    requires |n| >= 1 && n[|n| - 1] != '%' && ToNumber(n) == Some(x)
    ensures ParsePixelOrPercent(Some(n), default) == Success(PixelOrPercent(x, Px))
  {
  }

  /** A part's path is read from the text before its first `,`. */
  lemma PartPathField(part: string)
    ensures ParsePart(part).Success? ==> Parse(part[..IndexOf(part, ',')]) == Success(ParsePart(part).value.path)
  {
    SplitFirst(part, ',');
  }

  /** A canonical part reads back from its text. */
  lemma PartRoundTrip(part: PatternPart)
    requires CanonicalPart(part)
    ensures ParsePart(PartToString(part)) == Success(part)
  {
    var fs := PartFields(part);
    PartTextIsJoin(part);
    PartFieldsClean(part);
    SplitJoin(fs, ',');
    RoundTrip(part.path);
    AmountRoundTrip(part.offset, None);
    AmountRoundTrip(part.interval, Some(FullInterval));
    TypeTextRead(part.kind);
    FieldsRead(fs, part);
  }

  /** The type letter is `T` exactly for a part that traces the line. */
  lemma TypeTextRead(kind: PartType)
    ensures PartTypeText(kind) == "T" <==> kind == Trace
  {
  }

  /** Fields that read as a part's path, offset, interval and type give
      that part. */
  lemma FieldsRead(fields: seq<string>, part: PatternPart)
    requires |fields| >= 1 && Parse(fields[0]) == Success(part.path)
    requires ParsePixelOrPercent(Field(fields, 1), None) == Success(part.offset)
    requires ParsePixelOrPercent(Field(fields, 2), Some(FullInterval)) == Success(part.interval)
    requires Field(fields, 3) == Some("T") <==> part.kind == Trace
    ensures ParseFields(fields) == Success(part)
  {
  }

  /** The texts of the parts, in order. */
  function PartTexts(ps: seq<PatternPart>): (r: seq<string>)
    ensures |r| == |ps| && forall i :: 0 <= i < |ps| ==> r[i] == PartToString(ps[i])
  {
    seq(|ps|, i requires 0 <= i < |ps| => PartToString(ps[i]))
  }

  /** Texts whose first piece has a `,` never join to the word `solid`. */
  lemma CommaJoinIsNotSolid(texts: seq<string>, sep: string)
    requires |texts| >= 1 && ',' in texts[0]
    ensures ',' in Join(texts, sep) && Join(texts, sep) != SolidText
  {
    JoinPrefix(texts, sep);
    MemberOfPrefix(Join(texts, sep), texts[0], ',');
    assert ',' !in SolidText;
  }

  lemma MemberOfPrefix(s: string, t: string, c: char)
    requires |t| <= |s| && s[..|t|] == t && c in t
    ensures c in s
  {
    var k :| 0 <= k < |t| && t[k] == c;
    assert s[k] == c;
  }

  /** A pattern with parts is its part texts joined with `;`. */
  lemma PatternTextIsJoin(ps: seq<PatternPart>)
    ensures PatternToString(Parts(ps)) == Join(PartTexts(ps), ";")
  {
  }

  /** A serialised pattern with parts is not the word `solid`. */
  lemma PartsAreNotSolid(ps: seq<PatternPart>)
    requires |ps| >= 1
    ensures PatternToString(Parts(ps)) != SolidText
  {
    PatternTextIsJoin(ps);
    PartTextShape(ps[0]);
    CommaJoinIsNotSolid(PartTexts(ps), ";");
  }

  /** A canonical pattern survives serialising and parsing. */
  lemma PatternRoundTrip(p: Pattern)
    requires CanonicalPattern(p)
    ensures ParsePattern(PatternToString(p)) == Success(p)
  {
    if p.Parts? {
      var ps := p.parts;
      var texts := PartTexts(ps);
      PatternTextIsJoin(ps);
      PartTextsClean(ps);
      SplitJoin(texts, ';');
      PartsAreNotSolid(ps);
      PartsRoundTrip(ps);
      PatternOfSegments(PatternToString(p), ps);
    }
  }

  /** No part text contains `;`. */
  lemma PartTextsClean(ps: seq<PatternPart>)
    ensures forall i :: 0 <= i < |ps| ==> ';' !in PartTexts(ps)[i]
  {
    forall i | 0 <= i < |ps|
      ensures ';' !in PartTexts(ps)[i]
    {
      PartTextShape(ps[i]);
    }
  }

  /** The part texts of canonical parts read back as the parts. */
  lemma PartsRoundTrip(ps: seq<PatternPart>)
    requires forall i :: 0 <= i < |ps| ==> CanonicalPart(ps[i])
    ensures var texts := PartTexts(ps);
      Collect(seq(|texts|, i requires 0 <= i < |texts| => ParsePart(texts[i]))) == Success(ps)
  {
    var texts := PartTexts(ps);
    var rs := seq(|texts|, i requires 0 <= i < |texts| => ParsePart(texts[i]));
    forall i | 0 <= i < |ps|
      ensures rs[i] == Success(ps[i])
    {
      PartRoundTrip(ps[i]);
    }
    CollectSuccesses(rs, ps);
  }

  /** Text other than `solid` whose segments read as parts is the pattern of those parts. */
  lemma PatternOfSegments(s: string, ps: seq<PatternPart>)
    requires s != SolidText
    requires var segments := Split(s, ';');
      Collect(seq(|segments|, i requires 0 <= i < |segments| => ParsePart(segments[i]))) == Success(ps)
    ensures ParsePattern(s) == Success(Parts(ps))
  {
  }

  /** The first piece of a join is a prefix of it. */
  lemma JoinPrefix(xs: seq<string>, sep: string)
    requires |xs| >= 1
    ensures |xs[0]| <= |Join(xs, sep)| && Join(xs, sep)[..|xs[0]|] == xs[0]
  {
    if |xs| > 1 {
      assert Join(xs, sep) == xs[0] + (sep + Join(xs[1..], sep));
    }
  }

  /** Serialising is a normal form: text produced by the serialiser is
      reproduced exactly by parsing and serialising again. */
  lemma PatternNormalForm(p: Pattern)
    requires CanonicalPattern(p)
    ensures ParsePattern(PatternToString(p)).Success?
    ensures PatternToString(ParsePattern(PatternToString(p)).value) == PatternToString(p)
  {
    PatternRoundTrip(p);
  }

  // ---------------------------------------------------------------------
  // Blank, missing and surplus fields
  // ---------------------------------------------------------------------

  /** Fields after the fourth are ignored. */
  lemma SurplusFieldsIgnored(fields: seq<string>)
    requires |fields| >= 4
    ensures ParseFields(fields) == ParseFields(fields[..4])
  {
    forall i: nat | i < 4
      ensures Field(fields, i) == Field(fields[..4], i)
    {
    }
  }

  /** An empty trailing field reads as a missing one. */
  lemma EmptyFieldIsMissing(fields: seq<string>)
    requires 1 <= |fields| <= 3
    ensures ParseFields(fields + [""]) == ParseFields(fields)
  {
    var longer := fields + [""];
    assert longer[0] == fields[0];
    forall i: nat | i < 3
      ensures IsBlank(Field(longer, i)) == IsBlank(Field(fields, i))
      ensures !IsBlank(Field(fields, i)) ==> Field(longer, i) == Field(fields, i)
    {
    }
    assert Field(longer, 3) != Some("T");
  }

  /** A part with only its path gets the defaults: no offset, an interval
      of 100 % and type `F`. */
  lemma DefaultsFilled(text: string)
    requires Parse(text).Success?
    ensures ParseFields([text]) == Success(PatternPart(Parse(text).value, NoOffset, FullInterval, Fill))
  {
  }

  /** The type is `T` exactly when the fourth field is `T`; any other
      fourth field, or none, gives `F`. */
  lemma TypeField(fields: seq<string>)
    requires |fields| >= 1 && ParseFields(fields).Success?
    ensures ParseFields(fields).value.kind == Trace <==> |fields| >= 4 && fields[3] == "T"
  {
  }

  // ---------------------------------------------------------------------
  // Defaults written out
  // ---------------------------------------------------------------------

  lemma ZeroText()
    ensures NumToString(0.0) == "0"
  {
    assert (0.0).Floor == 0;
    assert NatToString(0) == "0";
    assert UnsignedText(0.0, FractionDigits) == "0";
  }

  lemma HundredText()
    ensures NumToString(100.0) == "100"
  {
    assert (100.0).Floor == 100;
    assert NatToString(1) == "1";
    assert NatToString(10) == "10";
    assert NatToString(100) == "100";
    assert UnsignedText(100.0, FractionDigits) == "100";
  }

  /** Four fields without `,` joined by `,` split back into those fields. */
  lemma FourFieldsSplit(a: string, b: string, c: string, d: string)
    requires ',' !in a && ',' !in b && ',' !in c && ',' !in d
    ensures Split(a + "," + b + "," + c + "," + d, ',') == [a, b, c, d]
  {
    JoinFour(a, b, c, d, ",");
    SplitJoin([a, b, c, d], ',');
  }

  /** Text without `;` that is not `solid` is a pattern of one part. */
  lemma SinglePartPattern(s: string)
    requires ';' !in s && s != SolidText
    ensures ParsePart(s).Success? ==> ParsePattern(s) == Success(Parts([ParsePart(s).value]))
    ensures ParsePart(s).Failure? ==> ParsePattern(s) == Failure(ParsePart(s).error)
  {
    assert IndexOf(s, ';') == |s|;
    var segments := Split(s, ';');
    assert segments == [s];
    var rs := seq(|segments|, i requires 0 <= i < |segments| => ParsePart(segments[i]));
    assert rs == [ParsePart(s)];
    if ParsePart(s).Success? {
      CollectSuccesses(rs, [ParsePart(s).value]);
    }
  }

  lemma BlankSecond(a: string, c: string, d: string)
    ensures a + ",," + c + "," + d == a + "," + "" + "," + c + "," + d
  {
  }

  lemma BlankThird(a: string, b: string, d: string)
    ensures a + "," + b + ",," + d == a + "," + b + "," + "" + "," + d
  {
  }

  /** Four fields without separators form a pattern of one part, read from those fields. */
  lemma OnePartPattern(a: string, b: string, c: string, d: string)
    requires ',' !in a && ',' !in b && ',' !in c && ',' !in d
    requires ';' !in a && ';' !in b && ';' !in c && ';' !in d
    ensures var s := a + "," + b + "," + c + "," + d;
      && (ParseFields([a, b, c, d]).Success? ==> ParsePattern(s) == Success(Parts([ParseFields([a, b, c, d]).value])))
      && (ParseFields([a, b, c, d]).Failure? ==> ParsePattern(s) == Failure(ParseFields([a, b, c, d]).error))
  {
    var s := a + "," + b + "," + c + "," + d;
    FourFieldsSplit(a, b, c, d);
    FourFieldsText(a, b, c, d);
    CommaJoinIsNotSolid([s], ";");
    SinglePartPattern(s);
  }

  /** The part an otherwise canonical part text with a blank offset reads as. */
  lemma BlankOffsetRead(p: Path, interval: PixelOrPercent, kind: PartType)
    requires Canonical(p) && CanonicalAmount(interval)
    ensures ParsePattern(Serialize(p) + ",," + PixelOrPercentToString(interval) + "," + PartTypeText(kind))
         == Success(Parts([PatternPart(p, NoOffset, interval, kind)]))
  {
    var a := Serialize(p);
    var c := PixelOrPercentToString(interval);
    var d := PartTypeText(kind);
    BlankSecond(a, c, d);
    SerializedPathHasNoSeparators(p);
    TypeTextClean(kind);
    BlankOffsetFields(p, interval, kind);
    OnePartPattern(a, "", c, d);
  }

  lemma BlankOffsetFields(p: Path, interval: PixelOrPercent, kind: PartType)
    requires Canonical(p) && CanonicalAmount(interval)
    ensures ParseFields([Serialize(p), "", PixelOrPercentToString(interval), PartTypeText(kind)])
         == Success(PatternPart(p, NoOffset, interval, kind))
  {
    var fs := [Serialize(p), "", PixelOrPercentToString(interval), PartTypeText(kind)];
    FieldsOfFour(fs[0], fs[1], fs[2], fs[3]);
    RoundTrip(p);
    AmountRoundTrip(interval, Some(FullInterval));
    TypeTextRead(kind);
    FieldsRead(fs, PatternPart(p, NoOffset, interval, kind));
  }

  /** The fields of a part with four of them. */
  lemma FieldsOfFour(a: string, b: string, c: string, d: string)
    ensures Field([a, b, c, d], 1) == Some(b) && Field([a, b, c, d], 2) == Some(c) && Field([a, b, c, d], 3) == Some(d)
  {
  }

  /** A single part is written as its part text. */
  lemma SinglePartText(part: PatternPart)
    ensures PatternToString(Parts([part])) == PartToString(part)
  {
    PatternTextIsJoin([part]);
    assert PartTexts([part]) == [PartToString(part)];
  }

  /** A blank offset is read as 0 px and written back as `0`. */
  lemma BlankOffsetFilled(p: Path, interval: PixelOrPercent, kind: PartType)
    requires Canonical(p) && CanonicalAmount(interval)
    ensures var s := Serialize(p) + ",," + PixelOrPercentToString(interval) + "," + PartTypeText(kind);
      && ParsePattern(s) == Success(Parts([PatternPart(p, NoOffset, interval, kind)]))
      && PatternToString(ParsePattern(s).value)
         == Serialize(p) + "," + "0" + "," + PixelOrPercentToString(interval) + "," + PartTypeText(kind)
  {
    var part := PatternPart(p, NoOffset, interval, kind);
    BlankOffsetRead(p, interval, kind);
    SinglePartText(part);
    NoOffsetText();
    PartTextOf(part);
  }

  /** The part an otherwise canonical part text with a blank interval reads as. */
  lemma BlankIntervalRead(p: Path, offset: PixelOrPercent, kind: PartType)
    requires Canonical(p) && CanonicalAmount(offset)
    ensures ParsePattern(Serialize(p) + "," + PixelOrPercentToString(offset) + ",," + PartTypeText(kind))
         == Success(Parts([PatternPart(p, offset, FullInterval, kind)]))
  {
    var a := Serialize(p);
    var b := PixelOrPercentToString(offset);
    var d := PartTypeText(kind);
    BlankThird(a, b, d);
    SerializedPathHasNoSeparators(p);
    TypeTextClean(kind);
    BlankIntervalFields(p, offset, kind);
    OnePartPattern(a, b, "", d);
  }

  lemma BlankIntervalFields(p: Path, offset: PixelOrPercent, kind: PartType)
    requires Canonical(p) && CanonicalAmount(offset)
    ensures ParseFields([Serialize(p), PixelOrPercentToString(offset), "", PartTypeText(kind)])
         == Success(PatternPart(p, offset, FullInterval, kind))
  {
    var fs := [Serialize(p), PixelOrPercentToString(offset), "", PartTypeText(kind)];
    FieldsOfFour(fs[0], fs[1], fs[2], fs[3]);
    RoundTrip(p);
    AmountRoundTrip(offset, None);
    TypeTextRead(kind);
    FieldsRead(fs, PatternPart(p, offset, FullInterval, kind));
  }

  /** A blank interval is read as 100 % and written back as `100%`. */
  lemma BlankIntervalFilled(p: Path, offset: PixelOrPercent, kind: PartType)
    requires Canonical(p) && CanonicalAmount(offset)
    ensures var s := Serialize(p) + "," + PixelOrPercentToString(offset) + ",," + PartTypeText(kind);
      && ParsePattern(s) == Success(Parts([PatternPart(p, offset, FullInterval, kind)]))
      && PatternToString(ParsePattern(s).value)
         == Serialize(p) + "," + PixelOrPercentToString(offset) + "," + "100%" + "," + PartTypeText(kind)
  {
    var part := PatternPart(p, offset, FullInterval, kind);
    BlankIntervalRead(p, offset, kind);
    SinglePartText(part);
    FullIntervalText();
    PartTextOf(part);
  }

  /** The default interval prints as `100%`. */
  lemma FullIntervalText()
    ensures PixelOrPercentToString(FullInterval) == "100%"
  {
    HundredText();
  }

  /** The default offset prints as `0`. */
  lemma NoOffsetText()
    ensures PixelOrPercentToString(NoOffset) == "0"
  {
    ZeroText();
  }

  /** A part's text, field by field. */
  lemma PartTextOf(part: PatternPart)
    ensures PartToString(part) == Serialize(part.path) + "," + PixelOrPercentToString(part.offset) + ","
      + PixelOrPercentToString(part.interval) + "," + PartTypeText(part.kind)
  {
  }
}
