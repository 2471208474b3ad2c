/** The path mini-language: the subset of the SVG 1.1 path data grammar
    (section 8.3 of the SVG 1.1 Recommendation) made of the ten commands
    M L H V C S Q T A Z, upper case for absolute and lower case for
    relative coordinates, each followed by its numeric parameters. */
module SvgPath {
  import opened Wrappers
  import opened Text
  import opened Numbers

  datatype Op =
    | Move | Line | Horizontal | Vertical | Cubic
    | SmoothCubic | Quadratic | SmoothQuadratic | Arc | Close

  /** One drawing instruction; `isAbsolute` is false for a lower-case letter. */
  datatype Command = Command(isAbsolute: bool, op: Op, params: seq<real>)

  type Path = seq<Command>

  /** What the empty text parses to: a move to the origin. */
  const DefaultCommand := Command(true, Move, [0.0, 0.0])

  datatype ParseError =
    | InvalidCharacter(c: char)
    | InvalidOperator(text: string)
    | InvalidNumber(token: string)
    | InvalidParameterCount(op: Op, count: nat)

  // ---------------------------------------------------------------------
  // Operators
  // ---------------------------------------------------------------------

  function Letter(op: Op): char {
    match op
    case Move => 'M'
    case Line => 'L'
    case Horizontal => 'H'
    case Vertical => 'V'
    case Cubic => 'C'
    case SmoothCubic => 'S'
    case Quadratic => 'Q'
    case SmoothQuadratic => 'T'
    case Arc => 'A'
    case Close => 'Z'
  }

  function LowerLetter(op: Op): char {
    match op
    case Move => 'm'
    case Line => 'l'
    case Horizontal => 'h'
    case Vertical => 'v'
    case Cubic => 'c'
    case SmoothCubic => 's'
    case Quadratic => 'q'
    case SmoothQuadratic => 't'
    case Arc => 'a'
    case Close => 'z'
  }

  /** The operator a letter names, in either case. */
  function OpOfLetter(c: char): Option<Op> {
    if c == 'M' || c == 'm' then Some(Move)
    else if c == 'L' || c == 'l' then Some(Line)
    else if c == 'H' || c == 'h' then Some(Horizontal)
    else if c == 'V' || c == 'v' then Some(Vertical)
    else if c == 'C' || c == 'c' then Some(Cubic)
    else if c == 'S' || c == 's' then Some(SmoothCubic)
    else if c == 'Q' || c == 'q' then Some(Quadratic)
    else if c == 'T' || c == 't' then Some(SmoothQuadratic)
    else if c == 'A' || c == 'a' then Some(Arc)
    else if c == 'Z' || c == 'z' then Some(Close)
    else None
  }

  predicate IsOperatorLetter(c: char) {
    OpOfLetter(c).Some?
  }

  /** The letters that mark an absolute command: one of `MLHVCSQTAZ`. */
  predicate IsUpperOperator(c: char) {
    || c == 'M' || c == 'L' || c == 'H' || c == 'V' || c == 'C'
    || c == 'S' || c == 'Q' || c == 'T' || c == 'A' || c == 'Z'
  }

  /** The characters path text may contain. */
  predicate IsAllowed(c: char) {
    IsSpace(c) || IsOperatorLetter(c) || IsDigit(c) || c == ',' || c == '.' || c == '-'
  }

  /** The parameter group size of each operator. */
  function Arity(op: Op): nat {
    match op
    case Move | Line | SmoothQuadratic => 2
    case Horizontal | Vertical => 1
    case Cubic => 6
    case SmoothCubic | Quadratic => 4
    case Arc => 7
    case Close => 0
  }

  /** The parameter count rule: none for arity 0, anything for arity 1, a
      multiple of the arity otherwise (zero included). */
  predicate CountOk(count: nat, arity: nat) {
    if arity == 0 then count == 0
    else if arity == 1 then true
    else count % arity == 0
  }

  predicate WellFormed(c: Command) {
    CountOk(|c.params|, Arity(c.op))
  }

  // ---------------------------------------------------------------------
  // Scanning
  // ---------------------------------------------------------------------

  /** Index of the first character that path text may not contain, or `|s|`. */
  function FirstDisallowed(s: string): (i: nat)
    ensures i <= |s|
    ensures forall k :: 0 <= k < i ==> IsAllowed(s[k])
    ensures i < |s| ==> !IsAllowed(s[i])
  {
    if s == [] || !IsAllowed(s[0]) then 0 else 1 + FirstDisallowed(s[1..])
  }

  /** Index of the first operator letter at or after `i`, or `|t|`. */
  function NextOperator(t: string, i: nat): (j: nat)
    requires i <= |t|
    ensures i <= j <= |t|
    ensures forall k :: i <= k < j ==> !IsOperatorLetter(t[k])
    ensures j < |t| ==> IsOperatorLetter(t[j])
    decreases |t| - i
  {
    if i == |t| || IsOperatorLetter(t[i]) then i else NextOperator(t, i + 1)
  }

  /** `t.split(/(?=[MmLlHhVvCcSsQqTtAaZz])/)`: `t` cut before every operator
      letter that is not its first character. */
  function Chunks(t: string): (r: seq<string>)
    ensures |r| >= 1
    decreases |t|
  {
    if t == [] then [""]
    else
      var i := NextOperator(t, 1);
      if i == |t| then [t] else [t[..i]] + Chunks(t[i..])
  }

  predicate IsSeparator(c: char) {
    c == ',' || c == ' '
  }

  function NextSeparator(s: string, i: nat): (j: nat)
    requires i <= |s|
    ensures i <= j <= |s|
    ensures forall k :: i <= k < j ==> !IsSeparator(s[k])
    ensures j < |s| ==> IsSeparator(s[j])
    decreases |s| - i
  {
    if i == |s| || IsSeparator(s[i]) then i else NextSeparator(s, i + 1)
  }

  function SeparatorRunEnd(s: string, i: nat): (j: nat)
    requires i <= |s|
    ensures i <= j <= |s|
    ensures forall k :: i <= k < j ==> IsSeparator(s[k])
    ensures j < |s| ==> !IsSeparator(s[j])
    decreases |s| - i
  {
    if i < |s| && IsSeparator(s[i]) then SeparatorRunEnd(s, i + 1) else i
  }

  /** `s.split(/[, ]+/)`: the pieces between maximal runs of commas and
      spaces; a leading or trailing run leaves an empty piece. */
  function Tokens(s: string): (r: seq<string>)
    ensures |r| >= 1
    decreases |s|
  {
    var i := NextSeparator(s, 0);
    if i == |s| then [s]
    else
      var j := SeparatorRunEnd(s, i);
      [s[..i]] + Tokens(s[j..])
  }

  // ---------------------------------------------------------------------
  // Parsing
  // ---------------------------------------------------------------------

  /** The operator named by the first character of a command's text. */
  function ParseOperator(chunk: string): (r: Result<Op, ParseError>)
    ensures r.Success? <==> chunk != [] && IsOperatorLetter(chunk[0])
    ensures r.Success? ==> OpOfLetter(chunk[0]) == Some(r.value)
    ensures r.Failure? ==> r.error.InvalidOperator?
  {
    if chunk == [] then Failure(InvalidOperator(""))
    else
      match OpOfLetter(chunk[0])
      case None => Failure(InvalidOperator([chunk[0]]))
      case Some(op) => Success(op)
  }

  /** Every token read as a number; the first one that is not a number is
      the error. */
  function ParseNumbers(tokens: seq<string>): (r: Result<seq<real>, ParseError>)
    ensures r.Success? <==> forall i :: 0 <= i < |tokens| ==> ToNumber(tokens[i]).Some?
    ensures r.Success? ==> |r.value| == |tokens|
    ensures r.Success? ==> forall i :: 0 <= i < |tokens| ==> ToNumber(tokens[i]) == Some(r.value[i])
    ensures r.Failure? ==> r.error.InvalidNumber? && r.error.token in tokens && ToNumber(r.error.token).None?
  {
    if tokens == [] then Success([])
    else
      match ToNumber(tokens[0])
      case None => Failure(InvalidNumber(tokens[0]))
      case Some(x) =>
        var rest := ParseNumbers(tokens[1..]);
        NumbersCons(ToNumber, tokens, x, rest);
        if rest.Failure? then Failure(rest.error) else Success([x] + rest.value)
  }

  /** A token that reads as `x` in front of tokens that read as `rest`,
      for any way `read` of reading a token. */
  lemma NumbersCons(read: string -> Option<real>, tokens: seq<string>, x: real, rest: Result<seq<real>, ParseError>)
    requires tokens != [] && read(tokens[0]) == Some(x)
    requires rest.Success? <==> forall i :: 0 <= i < |tokens| - 1 ==> read(tokens[1..][i]).Some?
    requires rest.Success? ==> |rest.value| == |tokens| - 1
    requires rest.Success? ==> forall i :: 0 <= i < |tokens| - 1 ==> read(tokens[1..][i]) == Some(rest.value[i])
    requires rest.Failure? ==> rest.error.InvalidNumber? && rest.error.token in tokens[1..]
    ensures rest.Success? <==> forall i :: 0 <= i < |tokens| ==> read(tokens[i]).Some?
    ensures rest.Success? ==> forall i :: 0 <= i < |tokens| ==> read(tokens[i]) == Some(([x] + rest.value)[i])
    ensures rest.Failure? ==> rest.error.token in tokens
  {
    if rest.Success? {
      var r := [x] + rest.value;
      forall i | 1 <= i < |tokens|
        ensures read(tokens[i]) == Some(r[i])
      {
        assert tokens[1..][i - 1] == tokens[i] && r[i] == rest.value[i - 1];
      }
    } else {
      var j :| 0 <= j < |tokens| - 1 && !read(tokens[1..][j]).Some?;
      assert tokens[j + 1] == tokens[1..][j];
    }
  }

  /** The parameters of a command: nothing when the text is blank, else
      one number per token. */
  function ParseParameters(text: string): Result<seq<real>, ParseError> {
    var t := Trim(text);
    if t == [] then Success([]) else ParseNumbers(Tokens(t))
  }

  /** One command: its letter, then its parameter text. */
  function ParseCommand(chunk: string): (r: Result<Command, ParseError>)
    ensures r.Success? ==> chunk != [] && OpOfLetter(chunk[0]) == Some(r.value.op)
    ensures r.Success? ==> (r.value.isAbsolute <==> IsUpperOperator(chunk[0]))
    ensures r.Success? ==> WellFormed(r.value)
    ensures !r.Failure? || !r.error.InvalidCharacter?
    ensures r.Failure? && r.error.InvalidOperator? ==> chunk == [] || !IsOperatorLetter(chunk[0])
    ensures r.Failure? && r.error.InvalidNumber? ==> ToNumber(r.error.token).None?
    ensures r.Failure? && r.error.InvalidParameterCount? ==>
      chunk != [] && OpOfLetter(chunk[0]) == Some(r.error.op) && !CountOk(r.error.count, Arity(r.error.op))
  {
    var op :- ParseOperator(chunk);
    var params :- ParseParameters(chunk[1..]);
    if CountOk(|params|, Arity(op)) then Success(Command(IsUpperOperator(chunk[0]), op, params))
    else Failure(InvalidParameterCount(op, |params|))
  }

  /** The commands of all chunks, in order; the first failing chunk's
      error otherwise. */
  function ParseCommands(chunks: seq<string>): (r: Result<Path, ParseError>)
    ensures r.Success? ==> |r.value| == |chunks|
    ensures r.Success? ==> forall i :: 0 <= i < |chunks| ==> ParseCommand(chunks[i]) == Success(r.value[i])
    ensures r.Failure? ==> exists i :: 0 <= i < |chunks| && ParseCommand(chunks[i]) == Failure(r.error)
  {
    Collect(seq(|chunks|, i requires 0 <= i < |chunks| => ParseCommand(chunks[i])))
  }

  /** Path text to commands. Empty text is a move to the origin; any
      character outside the allowed set is refused; otherwise the trimmed
      text is cut before each operator letter and each piece is parsed. */
  function Parse(s: string): (r: Result<Path, ParseError>)
    ensures s == [] ==> r == Success([DefaultCommand])
    ensures r.Success? ==> |r.value| >= 1 && forall i :: 0 <= i < |r.value| ==> WellFormed(r.value[i])
    ensures (r.Failure? && r.error.InvalidCharacter?) <==> exists i :: 0 <= i < |s| && !IsAllowed(s[i])
  {
    if s == [] then Success([DefaultCommand])
    else
      var i := FirstDisallowed(s);
      if i < |s| then Failure(InvalidCharacter(s[i]))
      else ParseCommands(Chunks(Trim(s)))
  }

  // ---------------------------------------------------------------------
  // Serialising
  // ---------------------------------------------------------------------

  function NumberTexts(ps: seq<real>): (r: seq<string>)
    ensures |r| == |ps|
    ensures forall i :: 0 <= i < |ps| ==> r[i] == NumToString(ps[i])
  {
    seq(|ps|, i requires 0 <= i < |ps| => NumToString(ps[i]))
  }

  /** The parameters joined with single spaces. */
  function ParamsText(ps: seq<real>): string {
    Join(NumberTexts(ps), " ")
  }

  /** The letter of a command: upper case when absolute, lower case when relative. */
  function CommandLetter(c: Command): char {
    if c.isAbsolute then Letter(c.op) else LowerLetter(c.op)
  }

  /** The letter directly followed by the parameters. */
  function CommandText(c: Command): string {
    [CommandLetter(c)] + ParamsText(c.params)
  }

  /** The command texts with nothing between them. */
  function PathText(p: Path): string {
    if p == [] then "" else CommandText(p[0]) + PathText(p[1..])
  }

  /** Commands to path text in normal form: the empty path prints as
      nothing, and any other starts with its first command's letter. */
  function Serialize(p: Path): (r: string)
    ensures p == [] ==> r == []
    ensures p != [] ==> r != [] && r[0] == CommandLetter(p[0])
  {
    var s := PathText(p);
    LeadingLetter(p);
    TrimKeepsFirst(s);
    Trim(s)
  }

  /** A non-empty path's text starts with its first command's letter,
      which is not white space. */
  lemma LeadingLetter(p: Path)
    ensures p != [] ==> PathText(p) != [] && PathText(p)[0] == CommandLetter(p[0]) && !IsSpace(PathText(p)[0])
  {
    if p != [] {
      assert PathText(p) == CommandText(p[0]) + PathText(p[1..]);
      assert CommandText(p[0])[0] == CommandLetter(p[0]);
    }
  }
}
