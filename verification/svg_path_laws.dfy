/** Laws of the path parser and serialiser: the letter tables are mutual
    inverses, a serialised path parses back to itself, and serialising a
    parsed path is a normal form. */
module SvgPathLaws {
  import opened Wrappers
  import opened Text
  import opened Numbers
  import opened SvgPath

  /** A number that `String` writes in plain notation and that the
      serialiser prints exactly. Outside the plain range the program writes
      exponent text such as `1e+21` or `1e-7`, which the parser refuses. */
  predicate IsPrintableNumber(x: real) {
    IsDecimal(x) && PrintsPlain(x)
  }

  /** Parameters the serialiser prints exactly. */
  predicate Printable(c: Command) {
    forall k :: 0 <= k < |c.params| ==> IsPrintableNumber(c.params[k])
  }

  /** A path that serialising and parsing carry unchanged. */
  predicate Canonical(p: Path) {
    |p| >= 1 && forall i :: 0 <= i < |p| ==> WellFormed(p[i]) && Printable(p[i])
  }

  /** What the serialiser prints for one number. */
  predicate IsNumberText(s: string) {
    && |s| >= 1
    && (IsDigit(s[0]) || s[0] == '-')
    && IsDigit(s[|s| - 1])
    && forall k :: 0 <= k < |s| ==> IsNumberChar(s[k])
  }

  /** A character of a serialised parameter list. */
  predicate IsParamChar(c: char) {
    IsNumberChar(c) || c == ' '
  }

  function CommandTexts(p: Path): (r: seq<string>)
    ensures |r| == |p|
    ensures forall i :: 0 <= i < |p| ==> r[i] == CommandText(p[i])
  {
    seq(|p|, i requires 0 <= i < |p| => CommandText(p[i]))
  }

  // ---------------------------------------------------------------------
  // Letters
  // ---------------------------------------------------------------------

  /** Each operator's two letters name it, and only the upper-case one is absolute. */
  lemma LetterLaws(op: Op)
    ensures OpOfLetter(Letter(op)) == Some(op) && OpOfLetter(LowerLetter(op)) == Some(op)
    ensures IsUpperOperator(Letter(op)) && !IsUpperOperator(LowerLetter(op))
  {
    match op
    case Move =>
    case Line =>
    case Horizontal =>
    case Vertical =>
    case Cubic =>
    case SmoothCubic =>
    case Quadratic =>
    case SmoothQuadratic =>
    case Arc =>
    case Close =>
  }

  /** A letter that names an operator is one of that operator's two letters. */
  lemma OpOfLetterInverse(c: char)
    requires OpOfLetter(c).Some?
    ensures c == Letter(OpOfLetter(c).value) || c == LowerLetter(OpOfLetter(c).value)
    ensures IsUpperOperator(c) <==> c == Letter(OpOfLetter(c).value)
  {
  }

  /** The letter printed for a command reads back as its operator and absoluteness. */
  lemma CommandLetterRoundTrip(c: Command)
    ensures OpOfLetter(CommandLetter(c)) == Some(c.op)
    ensures IsUpperOperator(CommandLetter(c)) <==> c.isAbsolute
  {
    LetterLaws(c.op);
  }

  /** Operator letters are allowed, are not white space and are not part of numbers. */
  lemma OperatorLetterClass(c: char)
    requires IsOperatorLetter(c)
    ensures IsAllowed(c) && !IsSpace(c) && !IsParamChar(c)
  {
  }

  /** Parameter characters are allowed and are not operator letters; only
      the space among them is white space or a separator. */
  lemma ParamCharClass(c: char)
    requires IsParamChar(c)
    ensures IsAllowed(c) && !IsOperatorLetter(c)
    ensures IsNumberChar(c) ==> !IsSpace(c) && !IsSeparator(c)
  {
  }

  // ---------------------------------------------------------------------
  // Parameter lists
  // ---------------------------------------------------------------------

  lemma NumberTextOf(r: real)
    ensures IsNumberText(NumToString(r))
  {
  }

  /** Number texts joined by spaces: nothing but number characters and
      spaces, starting like a number and ending in a digit. */
  lemma {:induction false} JoinShape(xs: seq<string>)
    requires forall i :: 0 <= i < |xs| ==> IsNumberText(xs[i])
    ensures var s := Join(xs, " ");
      && (s == [] <==> xs == [])
      && (forall k :: 0 <= k < |s| ==> IsParamChar(s[k]))
      && (xs != [] ==> (IsDigit(s[0]) || s[0] == '-') && IsDigit(s[|s| - 1]))
  {
    if |xs| > 1 {
      JoinShape(xs[1..]);
      var rest := Join(xs[1..], " ");
      var s := Join(xs, " ");
      assert s == xs[0] + " " + rest;
      forall k | 0 <= k < |s|
        ensures IsParamChar(s[k])
      {
        if k < |xs[0]| {
          assert s[k] == xs[0][k];
        } else if k > |xs[0]| {
          assert s[k] == rest[k - |xs[0]| - 1];
        }
      }
    }
  }

  /** Splitting number texts joined by spaces at runs of separators gives them back. */
  lemma {:induction false} TokensJoin(xs: seq<string>)
    requires |xs| >= 1
    requires forall i :: 0 <= i < |xs| ==> IsNumberText(xs[i])
    ensures Tokens(Join(xs, " ")) == xs
  {
    var s := Join(xs, " ");
    var n := |xs[0]|;
    if |xs| == 1 {
      var i := NextSeparator(s, 0);
      if i < |s| {
        ParamCharClass(s[i]);
      }
    } else {
      var rest := Join(xs[1..], " ");
      JoinShape(xs[1..]);
      assert s == xs[0] + " " + rest;
      var i := NextSeparator(s, 0);
      assert s[n] == ' ';
      if i < n {
        assert s[i] == xs[0][i];
        ParamCharClass(s[i]);
      }
      assert i == n;
      var j := SeparatorRunEnd(s, i);
      assert s[n + 1] == rest[0];
      ParamCharClass(rest[0]);
      assert j == n + 1;
      assert s[..i] == xs[0];
      assert s[j..] == rest;
      TokensJoin(xs[1..]);
      assert xs == [xs[0]] + xs[1..];
    }
  }

  /** The shape of a serialised parameter list. */
  lemma ParamsTextShape(ps: seq<real>)
    ensures var s := ParamsText(ps);
      && (s == [] <==> ps == [])
      && (forall k :: 0 <= k < |s| ==> IsParamChar(s[k]))
      && (ps != [] ==> (IsDigit(s[0]) || s[0] == '-') && IsDigit(s[|s| - 1]))
  {
    JoinShape(NumberTexts(ps));
  }

  /** Printable parameters read back from their text. */
  lemma ParametersRoundTrip(ps: seq<real>)
    requires forall k :: 0 <= k < |ps| ==> IsPrintableNumber(ps[k])
    ensures ParseParameters(ParamsText(ps)) == Success(ps)
  {
    var s := ParamsText(ps);
    ParamsTextShape(ps);
    if ps != [] {
      ParamCharClass(s[0]);
      ParamCharClass(s[|s| - 1]);
      TrimUnspaced(s);
      var xs := NumberTexts(ps);
      TokensJoin(xs);
      NumbersRoundTrip(ps);
    }
  }

  /** The printed parameters read back one by one. */
  lemma NumbersRoundTrip(ps: seq<real>)
    requires forall k :: 0 <= k < |ps| ==> IsPrintableNumber(ps[k])
    ensures ParseNumbers(NumberTexts(ps)) == Success(ps)
  {
    var xs := NumberTexts(ps);
    forall i | 0 <= i < |xs|
      ensures ToNumber(xs[i]) == Some(ps[i])
    {
      NumberRoundTrip(ps[i]);
    }
    var r := ParseNumbers(xs);
    assert r.Success?;
    assert r.value == ps;
  }

  // ---------------------------------------------------------------------
  // Commands and paths
  // ---------------------------------------------------------------------

  /** The shape of a serialised command: its letter, then parameter characters. */
  lemma CommandTextShape(c: Command)
    ensures var t := CommandText(c);
      && |t| >= 1 && t[0] == CommandLetter(c) && IsOperatorLetter(t[0])
      && t[1..] == ParamsText(c.params)
      && (forall k :: 1 <= k < |t| ==> IsParamChar(t[k]))
      && !IsSpace(t[|t| - 1])
  {
    CommandLetterRoundTrip(c);
    ParamsTextShape(c.params);
    var t := CommandText(c);
    assert t[1..] == ParamsText(c.params);
    forall k | 1 <= k < |t|
      ensures IsParamChar(t[k])
    {
      assert t[k] == t[1..][k - 1];
    }
    if |t| == 1 {
      OperatorLetterClass(t[0]);
    } else {
      ParamCharClass(t[|t| - 1]);
    }
  }

  /** A well-formed printable command reads back from its text. */
  lemma CommandRoundTrip(c: Command)
    requires WellFormed(c) && Printable(c)
    ensures ParseCommand(CommandText(c)) == Success(c)
  {
    var t := CommandText(c);
    assert t[0] == CommandLetter(c) && t[1..] == ParamsText(c.params);
    CommandLetterRoundTrip(c);
    ParametersRoundTrip(c.params);
    ParseCommandOf(t, c.op, c.params);
  }

  /** A chunk whose letter names an operator and whose parameters read back
      in a count the operator accepts is that command. */
  lemma ParseCommandOf(chunk: string, op: Op, params: seq<real>)
    requires chunk != [] && OpOfLetter(chunk[0]) == Some(op)
    requires ParseParameters(chunk[1..]) == Success(params) && CountOk(|params|, Arity(op))
    ensures ParseCommand(chunk) == Success(Command(IsUpperOperator(chunk[0]), op, params))
  {
    assert ParseOperator(chunk) == Success(op);
  }

  /** The shape of a serialised path: every character allowed, starting
      with an operator letter and ending with something other than white
      space. */
  lemma {:induction false} PathTextShape(p: Path)
    ensures var s := PathText(p);
      && (s == [] <==> p == [])
      && (forall k :: 0 <= k < |s| ==> IsAllowed(s[k]))
      && (p != [] ==> IsOperatorLetter(s[0]) && !IsSpace(s[|s| - 1]))
  {
    if p != [] {
      var t := CommandText(p[0]);
      var rest := PathText(p[1..]);
      CommandTextAllowed(p[0]);
      PathTextShape(p[1..]);
      AllowedAppend(t, rest);
    }
  }

  /** Every character of a command's text is allowed. */
  lemma CommandTextAllowed(c: Command)
    ensures var t := CommandText(c);
      && |t| >= 1 && IsOperatorLetter(t[0]) && !IsSpace(t[|t| - 1])
      && forall k :: 0 <= k < |t| ==> IsAllowed(t[k])
  {
    var t := CommandText(c);
    CommandTextShape(c);
    forall k | 0 <= k < |t|
      ensures IsAllowed(t[k])
    {
      if k == 0 {
        OperatorLetterClass(t[0]);
      } else {
        ParamCharClass(t[k]);
      }
    }
  }

  /** Two texts of allowed characters make one. */
  lemma AllowedAppend(a: string, b: string)
    requires forall k :: 0 <= k < |a| ==> IsAllowed(a[k])
    requires forall k :: 0 <= k < |b| ==> IsAllowed(b[k])
    ensures forall k :: 0 <= k < |a + b| ==> IsAllowed((a + b)[k])
  {
    forall k | 0 <= k < |a + b|
      ensures IsAllowed((a + b)[k])
    {
      if k >= |a| {
        assert (a + b)[k] == b[k - |a|];
      }
    }
  }

  /** Serialising never needs its final trim. */
  lemma SerializeIsPathText(p: Path)
    ensures Serialize(p) == PathText(p)
  {
    PathTextShape(p);
    if p != [] {
      OperatorLetterClass(PathText(p)[0]);
    }
    TrimUnspaced(PathText(p));
  }

  /** Cutting a serialised path before its operator letters gives the command texts back. */
  lemma {:induction false} ChunksOfPathText(p: Path)
    requires p != []
    ensures Chunks(PathText(p)) == CommandTexts(p)
  {
    var t := CommandText(p[0]);
    var rest := PathText(p[1..]);
    var s := PathText(p);
    CommandTextShape(p[0]);
    PathTextShape(p[1..]);
    assert s == t + rest;
    var i := NextOperator(s, 1);
    if i < |t| {
      assert s[i] == t[i];
      ParamCharClass(t[i]);
    }
    if p[1..] == [] {
      assert s == t;
      assert i == |s|;
    } else {
      assert s[|t|] == rest[0];
      assert i == |t|;
      assert s[..i] == t;
      assert s[i..] == rest;
      ChunksOfPathText(p[1..]);
      assert CommandTexts(p) == [t] + CommandTexts(p[1..]);
    }
  }

  /** A canonical path survives serialising and parsing. */
  lemma RoundTrip(p: Path)
    requires Canonical(p)
    ensures Parse(Serialize(p)) == Success(p)
  {
    var s := Serialize(p);
    SerializeIsPathText(p);
    PathTextShape(p);
    OperatorLetterClass(s[0]);
    ParseOfClean(s);
    ChunksOfPathText(p);
    CommandsRoundTrip(p);
  }

  /** Text of allowed characters with no white space at either end is cut
      into chunks directly. */
  lemma ParseOfClean(s: string)
    requires s != [] && !IsSpace(s[0]) && !IsSpace(s[|s| - 1])
    requires forall k :: 0 <= k < |s| ==> IsAllowed(s[k])
    ensures Parse(s) == ParseCommands(Chunks(s))
  {
    TrimUnspaced(s);
    assert FirstDisallowed(s) == |s|;
  }

  /** The texts of well-formed printable commands read back as the commands. */
  lemma CommandsRoundTrip(p: Path)
    requires Canonical(p)
    ensures ParseCommands(CommandTexts(p)) == Success(p)
  {
    var chunks := CommandTexts(p);
    forall i | 0 <= i < |p|
      ensures ParseCommand(chunks[i]) == Success(p[i])
    {
      CommandRoundTrip(p[i]);
    }
    var r := ParseCommands(chunks);
    assert r.Success?;
    assert r.value == p;
  }

  /** Serialising is a normal form: text produced by the serialiser is
      reproduced exactly by parsing and serialising again. */
  lemma NormalForm(p: Path)
    requires Canonical(p)
    ensures Parse(Serialize(p)).Success?
    ensures Serialize(Parse(Serialize(p)).value) == Serialize(p)
  {
    RoundTrip(p);
  }

  // ---------------------------------------------------------------------
  // Failures
  // ---------------------------------------------------------------------

  /** Non-empty text of allowed characters is trimmed, cut before each
      operator letter, and the pieces are parsed in order. */
  lemma AllowedTextByChunks(s: string)
    requires s != [] && FirstDisallowed(s) == |s|
    ensures Parse(s) == ParseCommands(Chunks(Trim(s)))
  {
  }

  /** When the commands fail, the error is that of the first chunk that
      does not parse; every chunk before it parses. */
  lemma ParseCommandsFirstFailure(chunks: seq<string>)
    requires ParseCommands(chunks).Failure?
    ensures exists i ::
      && 0 <= i < |chunks| && ParseCommand(chunks[i]) == Failure(ParseCommands(chunks).error)
      && (forall j :: 0 <= j < i ==> ParseCommand(chunks[j]).Success?)
  {
    var rs := seq(|chunks|, i requires 0 <= i < |chunks| => ParseCommand(chunks[i]));
    FirstFailure(rs, chunks);
  }

  /** The first failure of a collection, read back through the outcomes' source. */
  lemma FirstFailure(rs: seq<Result<Command, ParseError>>, chunks: seq<string>)
    requires |rs| == |chunks| && forall i :: 0 <= i < |rs| ==> rs[i] == ParseCommand(chunks[i])
    requires Collect(rs).Failure?
    ensures exists i ::
      && 0 <= i < |chunks| && ParseCommand(chunks[i]) == Failure(Collect(rs).error)
      && (forall j :: 0 <= j < i ==> ParseCommand(chunks[j]).Success?)
  {
    var i :| 0 <= i < |rs| && rs[i] == Failure(Collect(rs).error) && forall j :: 0 <= j < i ==> rs[j].Success?;
    assert ParseCommand(chunks[i]) == Failure(Collect(rs).error);
  }

  /** Text whose first character after trimming is not an operator letter
      is refused, with that character as the error, whatever follows. */
  lemma TextBeforeOperatorFails(s: string)
    requires FirstDisallowed(s) == |s| && Trim(s) != [] && !IsOperatorLetter(Trim(s)[0])
    ensures Parse(s) == Failure(InvalidOperator([Trim(s)[0]]))
  {
    var t := Trim(s);
    AllowedTextByChunks(s);
    FirstChunkFails(t);
  }

  /** Text that does not start with an operator letter fails on its first chunk. */
  lemma FirstChunkFails(t: string)
    requires t != [] && !IsOperatorLetter(t[0])
    ensures ParseCommands(Chunks(t)) == Failure(InvalidOperator([t[0]]))
  {
    var chunks := Chunks(t);
    FirstChunkStart(t);
    var c := chunks[0];
    assert ParseOperator(c) == Failure(InvalidOperator([t[0]]));
    assert ParseCommand(c) == Failure(InvalidOperator([t[0]]));
    ParseCommandsFirstFailure(chunks);
  }

  /** The first chunk of non-empty text starts with the text's first character. */
  lemma FirstChunkStart(t: string)
    requires t != []
    ensures Chunks(t)[0] != [] && Chunks(t)[0][0] == t[0]
  {
  }

  /** Non-empty text made only of white space trims to nothing, and the
      single empty chunk has no operator to read. */
  lemma BlankTextFails(s: string)
    requires s != [] && forall i :: 0 <= i < |s| ==> IsSpace(s[i])
    ensures Parse(s) == Failure(InvalidOperator(""))
  {
    assert FirstDisallowed(s) == |s|;
    assert Trim(s) == [];
    ParseCommandsFirstFailure([""]);
  }
}
