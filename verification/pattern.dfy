/** Line patterns: the text form `solid`, or parts separated by `;`, each
    part holding the fields `path,offset,interval,type` separated by `,`. */
module Pattern {
  import opened Wrappers
  import opened Text
  import opened Numbers
  import opened SvgPath
  import opened SvgPathLaws

  datatype Unit = Px | Percent

  /** A length in pixels, or a percentage of the ring's length. */
  datatype PixelOrPercent = PixelOrPercent(value: real, unit: Unit)

  /** `F` stamps the path alone; `T` also draws the line itself. */
  datatype PartType = Fill | Trace

  datatype PatternPart = PatternPart(path: Path, offset: PixelOrPercent, interval: PixelOrPercent, kind: PartType)

  /** The sentinel `solid`, or the parts in order. */
  datatype Pattern = Solid | Parts(parts: seq<PatternPart>)

  datatype PatternError =
    | InvalidPath(cause: ParseError)
      /** An offset or interval field that is not a number or percentage. */
    | InvalidAmount(text: string)

  const SolidText := "solid"

  /** The amount used when none is given and the caller names no default. */
  const NoOffset := PixelOrPercent(0.0, Px)

  /** The default interval: once per ring. */
  const FullInterval := PixelOrPercent(100.0, Percent)

  /** `parameters[i]`: the `i`-th field when there is one. */
  function Field(fields: seq<string>, i: nat): (r: Option<string>)
    ensures r.Some? <==> i < |fields|
    ensures r.Some? ==> r.value == fields[i]
  {
    if i < |fields| then Some(fields[i]) else None
  }

  /** The field is absent or empty, which JavaScript treats alike. */
  predicate IsBlank(s: Option<string>) {
    s.None? || s.value == ""
  }

  /** `parsePixelOrPercent`: a blank field gives the default (or 0 px when
      there is none), a trailing `%` makes a percentage of the number
      before it, and anything else is a number of pixels. */
  function ParsePixelOrPercent(s: Option<string>, default: Option<PixelOrPercent>): (r: Result<PixelOrPercent, PatternError>)
    ensures IsBlank(s) ==> r == Success(default.GetOr(NoOffset))
    ensures !IsBlank(s) && s.value[|s.value| - 1] == '%' ==>
      (r.Success? <==> ToNumber(s.value[..|s.value| - 1]).Some?)
      && (r.Success? ==> r.value == PixelOrPercent(ToNumber(s.value[..|s.value| - 1]).value, Percent))
    ensures !IsBlank(s) && s.value[|s.value| - 1] != '%' ==>
      (r.Success? <==> ToNumber(s.value).Some?)
      && (r.Success? ==> r.value == PixelOrPercent(ToNumber(s.value).value, Px))
    ensures r.Failure? ==> !IsBlank(s) && r.error == InvalidAmount(s.value)
  {
    if IsBlank(s) then Success(default.GetOr(NoOffset))
    else
      var t := s.value;
      if t[|t| - 1] == '%' then
        match ToNumber(t[..|t| - 1])
        case Some(v) => Success(PixelOrPercent(v, Percent))
        case None => Failure(InvalidAmount(t))
      else
        match ToNumber(t)
        case Some(v) => Success(PixelOrPercent(v, Px))
        case None => Failure(InvalidAmount(t))
  }

  /** One part from its fields: the path, then the offset (default 0 px),
      then the interval (default 100 %), then the type; a fifth field and
      beyond are ignored. */
  function ParseFields(fields: seq<string>): (r: Result<PatternPart, PatternError>)
    requires |fields| >= 1
    ensures r.Success? ==> Parse(fields[0]) == Success(r.value.path)
    ensures r.Success? ==> (r.value.kind == Trace <==> Field(fields, 3) == Some("T"))
    ensures r.Success? ==> ParsePixelOrPercent(Field(fields, 1), None) == Success(r.value.offset)
    ensures r.Success? ==> ParsePixelOrPercent(Field(fields, 2), Some(FullInterval)) == Success(r.value.interval)
    ensures r.Failure? ==>
      || (Parse(fields[0]).Failure? && r.error == InvalidPath(Parse(fields[0]).error))
      || ParsePixelOrPercent(Field(fields, 1), None) == Failure(r.error)
      || ParsePixelOrPercent(Field(fields, 2), Some(FullInterval)) == Failure(r.error)
  {
    var path := Parse(fields[0]);
    if path.Failure? then Failure(InvalidPath(path.error))
    else
      var offset :- ParsePixelOrPercent(Field(fields, 1), None);
      var interval :- ParsePixelOrPercent(Field(fields, 2), Some(FullInterval));
      var kind := if Field(fields, 3) == Some("T") then Trace else Fill;
      Success(PatternPart(path.value, offset, interval, kind))
  }

  /** One `;`-separated part of a pattern. */
  function ParsePart(part: string): (r: Result<PatternPart, PatternError>) {
    ParseFields(Split(part, ','))
  }

  /** `parsePattern`: `solid`, or one part per `;`-separated segment, in
      order; the first part that fails to parse fails the whole pattern. */
  function ParsePattern(s: string): (r: Result<Pattern, PatternError>)
    ensures s == SolidText ==> r == Success(Solid)
    ensures s != SolidText && r.Success? ==>
      && r.value.Parts?
      && |r.value.parts| == |Split(s, ';')| >= 1
      && forall i :: 0 <= i < |r.value.parts| ==> ParsePart(Split(s, ';')[i]) == Success(r.value.parts[i])
    ensures s != SolidText && r.Failure? ==>
      exists i :: 0 <= i < |Split(s, ';')| && ParsePart(Split(s, ';')[i]) == Failure(r.error)
  {
    if s == SolidText then Success(Solid)
    else
      var segments := Split(s, ';');
      var parts :- Collect(seq(|segments|, i requires 0 <= i < |segments| => ParsePart(segments[i])));
      Success(Parts(parts))
  }

  // ---------------------------------------------------------------------
  // Serialising
  // ---------------------------------------------------------------------

  /** `pixelOrPercentToString`: the number, followed by `%` exactly for a
      percentage; neither separator of the pattern text occurs in it. */
  function PixelOrPercentToString(v: PixelOrPercent): (s: string)
    ensures |s| >= 1 && ',' !in s && ';' !in s
    ensures s[|s| - 1] == '%' <==> v.unit == Percent
    ensures v.unit == Percent ==> s[..|s| - 1] == NumToString(v.value)
    ensures v.unit == Px ==> s == NumToString(v.value)
  {
    var n := NumToString(v.value);
    var s := n + (if v.unit == Percent then "%" else "");
    AmountShape(n, v.unit == Percent, s);
    s
  }

  /** A number's text with an optional `%` after it. */
  lemma AmountShape(n: string, percent: bool, s: string)
    requires |n| >= 1 && IsDigit(n[|n| - 1]) && forall k :: 0 <= k < |n| ==> IsNumberChar(n[k])
    requires s == n + (if percent then "%" else "")
    ensures |s| >= 1 && ',' !in s && ';' !in s
    ensures s[|s| - 1] == '%' <==> percent
    ensures percent ==> s[..|s| - 1] == n
    ensures !percent ==> s == n
  {
    forall c | c in s
      ensures c != ',' && c != ';'
    {
      var k :| 0 <= k < |s| && s[k] == c;
      if k < |n| {
        assert s[k] == n[k];
      }
    }
  }

  function PartTypeText(t: PartType): string {
    if t == Trace then "T" else "F"
  }

  /** The four fields `partToString` writes, in order. */
  function PartFields(part: PatternPart): (r: seq<string>)
    ensures |r| == 4
  {
    [Serialize(part.path), PixelOrPercentToString(part.offset), PixelOrPercentToString(part.interval), PartTypeText(part.kind)]
  }

  /** `partToString`: path, offset, interval and type, separated by `,`.
      No field contains a `,`, so splitting at `,` gives the fields back,
      and no `;` occurs, so the part stays one segment of a pattern. */
  function PartToString(part: PatternPart): (r: string)
    ensures Split(r, ',') == PartFields(part)
    ensures ';' !in r
  {
    var fs := PartFields(part);
    PartFieldsClean(part);
    JoinFour(fs[0], fs[1], fs[2], fs[3], ",");
    assert fs == [fs[0], fs[1], fs[2], fs[3]];
    SplitJoin(fs, ',');
    FourFieldsText(fs[0], fs[1], fs[2], fs[3]);
    fs[0] + "," + fs[1] + "," + fs[2] + "," + fs[3]
  }

  /** `patternToString`: `solid`, or the parts joined with `;`. */
  function PatternToString(p: Pattern): (r: string)
    ensures p.Solid? ==> r == SolidText
  {
    match p
    case Solid => SolidText
    case Parts(parts) => Join(seq(|parts|, i requires 0 <= i < |parts| => PartToString(parts[i])), ";")
  }

  // ---------------------------------------------------------------------
  // Characters of the serialised fields
  // ---------------------------------------------------------------------

  /** A character that separates parts or fields, or marks a percentage. */
  predicate IsPatternMark(c: char) {
    c == ',' || c == ';' || c == '%'
  }

  /** Operator letters and parameter characters are no pattern marks. */
  lemma PathCharClass(c: char)
    requires IsOperatorLetter(c) || IsParamChar(c)
    ensures !IsPatternMark(c)
  {
  }

  /** A serialised path holds no pattern marks. */
  lemma {:induction false} PathTextChars(p: Path)
    ensures forall k :: 0 <= k < |PathText(p)| ==> !IsPatternMark(PathText(p)[k])
  {
    if p != [] {
      var t := CommandText(p[0]);
      var rest := PathText(p[1..]);
      var s := PathText(p);
      CommandTextShape(p[0]);
      PathTextChars(p[1..]);
      assert s == t + rest;
      forall k | 0 <= k < |s|
        ensures !IsPatternMark(s[k])
      {
        if k < |t| {
          assert s[k] == t[k];
          PathCharClass(t[k]);
        } else {
          assert s[k] == rest[k - |t|];
        }
      }
    }
  }

  /** None of the pattern's own separators, nor `%`, occurs in a serialised path. */
  lemma SerializedPathHasNoSeparators(p: Path)
    ensures ',' !in Serialize(p) && ';' !in Serialize(p) && '%' !in Serialize(p)
  {
    SerializeIsPathText(p);
    PathTextChars(p);
    var s := PathText(p);
    forall c | c in s
      ensures !IsPatternMark(c)
    {
      var k :| 0 <= k < |s| && s[k] == c;
    }
  }

  /** Four strings joined by a separator. */
  lemma JoinFour(a: string, b: string, c: string, d: string, sep: string)
    ensures Join([a, b, c, d], sep) == a + sep + b + sep + c + sep + d
  {
    assert [a, b, c, d][1..] == [b, c, d];
    assert [b, c, d][1..] == [c, d];
    assert [c, d][1..] == [d];
    assert Join([c, d], sep) == c + sep + d;
    assert Join([b, c, d], sep) == b + sep + (c + sep + d);
    assert Join([a, b, c, d], sep) == a + sep + (b + sep + (c + sep + d));
  }

  /** The part text is its four fields joined with `,`. */
  lemma PartTextIsJoin(part: PatternPart)
    ensures PartToString(part) == Join(PartFields(part), ",")
  {
    var fs := PartFields(part);
    JoinFour(fs[0], fs[1], fs[2], fs[3], ",");
    assert fs == [fs[0], fs[1], fs[2], fs[3]];
  }

  /** No field of a serialised part contains `,` or `;`. */
  lemma PartFieldsClean(part: PatternPart)
    ensures forall i :: 0 <= i < 4 ==> ',' !in PartFields(part)[i] && ';' !in PartFields(part)[i]
  {
    var a := Serialize(part.path);
    var b := PixelOrPercentToString(part.offset);
    var c := PixelOrPercentToString(part.interval);
    var d := PartTypeText(part.kind);
    SerializedPathHasNoSeparators(part.path);
    TypeTextClean(part.kind);
    FourFieldsClean(PartFields(part), a, b, c, d);
  }

  /** Four fields, none holding `,` or `;`. */
  lemma FourFieldsClean(fs: seq<string>, a: string, b: string, c: string, d: string)
    requires fs == [a, b, c, d]
    requires ',' !in a && ',' !in b && ',' !in c && ',' !in d
    requires ';' !in a && ';' !in b && ';' !in c && ';' !in d
    ensures forall i :: 0 <= i < 4 ==> ',' !in fs[i] && ';' !in fs[i]
  {
    FourClean(a, b, c, d, ',');
    FourClean(a, b, c, d, ';');
  }

  lemma TypeTextClean(kind: PartType)
    ensures ',' !in PartTypeText(kind) && ';' !in PartTypeText(kind)
  {
    var t := PartTypeText(kind);
    assert |t| == 1 && (t[0] == 'T' || t[0] == 'F');
  }

  /** Four pieces without a character hold none of it. */
  lemma FourClean(a: string, b: string, c: string, d: string, ch: char)
    requires ch !in a && ch !in b && ch !in c && ch !in d
    ensures forall i :: 0 <= i < 4 ==> ch !in [a, b, c, d][i]
  {
  }

  /** Joining four pieces without `;` by `,` gives a text with a `,` and no `;`. */
  lemma FourFieldsText(a: string, b: string, c: string, d: string)
    requires ';' !in a && ';' !in b && ';' !in c && ';' !in d
    ensures var s := a + "," + b + "," + c + "," + d;
      ';' !in s && ',' in s
  {
    var s := a + "," + b + "," + c + "," + d;
    assert s[|a|] == ',';
  }
}
