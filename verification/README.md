# Line patterns along polylines, in Dafny

This project models the core of a Leaflet renderer that decorates polylines
and polygons with repeating marks: ticks, arrows, small icons. A *pattern*
such as `M-5 5L0 -5M5 5L0 -5,40,80,T` names one or more *parts*. Each part is
a small SVG path, an offset, an interval and a type. The renderer stamps a
copy of each part's path along every ring of the geometry. Each copy is
turned to the direction of travel and moved onto the line. The result is one
SVG path text.

The model has four layers, following the program's source files:

- `svg_path.dfy` (`SvgPath`) covers the restricted SVG path language.
  - Its parts are the ten operators, `parse` and `toString`.
  - Every failure `parse` can throw is a `ParseError` value: a disallowed
    character, an unknown operator letter, a non-numeric parameter, or a
    parameter count that is not a multiple of the operator's arity.
  - `numbers.dfy` (`Numbers`) holds the JavaScript conversions that `parse`
    and `toString` rely on: `Number(text)`, `String(number)` and
    `number.toFixed(places)`. They are written out over exact reals.
  - `text.dfy` (`Text`) holds `trim`, `split` and `join`.
- `path_transform.dfy` (`PathTransform`) covers `round`, `translate`,
  `scale` and `rotate`, and also `toAbsoluteAndRemoveHV`, the normalisation
  that rotation relies on.
  - The operations that throw return a `Result`.
- `pattern.dfy` (`Pattern`) covers `parsePattern`, `parsePixelOrPercent`,
  `patternToString`, `partToString` and `pixelOrPercentToString`.
- `renderer.dfy` (`Renderer`) covers `pointsToPatternPath` and
  `pixelsFrom`.
  - Its result is a `Run`: the path text, a rotation error that escapes the
    function, or `Diverges` for a stamping loop whose condition never fails.
  - `cartesian.dfy` (`Cartesian`) has the plane geometry it uses.
- The `*_laws.dfy` modules hold the properties.
  - They cover round trips of every parser against its printer, the
    algebra of the transforms, and what normalisation keeps and computes.
  - They also cover the stamping schedule, when rendering is guaranteed to
    finish, and the case where the source's loop does not finish (see
    Findings).

`Math.sqrt`, `Math.sin`, `Math.cos`, `Math.atan2` and `Math.PI` are not
modelled. Every operation that needs them takes a `MathLib` value holding
them. Every property proved here holds whatever functions that value
carries, unless the property names an assumption on them.
`NonNegativeRoots` is one such assumption: it says `sqrt` of a non-negative
number is non-negative.

## Model

A number is *printable* when it has at most 20 fraction digits and `String`
writes it in plain notation: it is zero, or its magnitude is at least 10^-6
and below 10^21. The path grammar has no `e` or `+`, so the exponent form
`String` uses outside that range would not parse back.

| member | source | states |
|---|---|---|
| Numbers.ToNumber | src/svg-path.ts:63-68 | `Number` of text that is empty or all white space is 0, never NaN |
| Numbers.NumToString | src/svg-path.ts:33 | a printed number is one or more characters from digits, `-` and `.`; it starts with a digit or `-` and ends with a digit |
| Numbers.NumberRoundTrip | src/svg-path.ts:63-68 | `Number` reads back exactly the value `String` printed, for every value with at most 20 fraction digits |
| Numbers.SignedRoundTrip | src/svg-path.ts:63-68 | the same round trip for negative and non-negative values printed with any positive digit budget they fit in |
| Numbers.NatRoundTrip | src/svg-path.ts:33 | the digits printed for a whole number read back as that number |
| Numbers.ToFixed | src/path-transform.ts:12 | below 10^21 in magnitude, `+x.toFixed(places)` lies within half a unit of the last kept place of `x` and has at most `places` fraction digits; larger magnitudes come back unchanged |
| Numbers.ToFixedKeepsExact | src/path-transform.ts:12 | a value that already has at most `places` fraction digits is returned unchanged |
| Numbers.ToFixedIdempotent | src/path-transform.ts:12 | rounding a rounded value again changes nothing |
| Text.Trim | src/svg-path.ts:36 | the trimmed text neither starts nor ends with white space |
| Text.TrimInfix | src/svg-path.ts:36 | the trimmed text is a slice of the input, and everything cut off before and after it is white space |
| Text.TrimUnspaced | src/svg-path.ts:62 | text without white space at either end is left as it is |
| Text.Split | src/pattern.ts:20-22 | `split` gives at least one piece and no piece contains the separator |
| Text.SplitJoin | src/pattern.ts:20-22 | splitting pieces joined with a separator none of them contains gives the pieces back |
| Text.JoinSplit | src/pattern.ts:71 | joining the pieces of a split with the separator gives the text back |
| Wrappers.Collect | src/pattern.ts:21-36 | a map whose callback may throw succeeds exactly when every element succeeds, keeps their values in order, and otherwise fails with the first failure |
| SvgPath.FirstDisallowed | src/svg-path.ts:47-50 | finds the first character outside white space, operator letters, digits, `,`, `.` and `-`, and every character before it is allowed |
| SvgPath.ParseOperator | src/svg-path.ts:83-109 | succeeds exactly when the chunk starts with one of the twenty operator letters, with the operator that letter names; otherwise fails with an invalid-operator error |
| SvgPath.ParseNumbers | src/svg-path.ts:63-68 | succeeds exactly when every token is numeric, with one value per token in order; a failure names a token that is not numeric |
| SvgPath.ParseCommand | src/svg-path.ts:57-81 | a parsed command has the operator of the chunk's first letter, is absolute exactly when that letter is upper case, and has a parameter count its operator's arity allows; an operator error means the chunk does not start with an operator letter, a number error names a token that is not numeric, and a count error names the chunk's operator and a count its arity rejects |
| SvgPath.ParseCommands | src/svg-path.ts:53 | one command per chunk, each the parse of its chunk; a failure is the failure of some chunk |
| SvgPath.Serialize | src/svg-path.ts:28-37 | the empty path prints as empty text; any other path's text starts with its first command's letter |
| SvgPath.Parse | src/svg-path.ts:39-55 | empty text is the single command `M0 0`; a parsed path is non-empty and every command has an allowed parameter count; the error is a disallowed character exactly when the text contains one |
| SvgPathLaws.LetterLaws | src/svg-path.ts:83-109 | both letters of each operator name it, and only the upper-case one counts as absolute |
| SvgPathLaws.OpOfLetterInverse | src/svg-path.ts:59 | every operator letter is its operator's upper- or lower-case letter, and it is absolute exactly when it is the upper-case one |
| SvgPathLaws.CommandLetterRoundTrip | src/svg-path.ts:32 | the letter `toString` writes for a command reads back as the command's operator and absoluteness |
| SvgPathLaws.TokensJoin | src/svg-path.ts:63 | splitting space-joined number texts on runs of spaces and commas gives the number texts back |
| SvgPathLaws.ParametersRoundTrip | src/svg-path.ts:62-69 | the parameter text `toString` writes for printable parameters parses back to the same parameters |
| SvgPathLaws.CommandRoundTrip | src/svg-path.ts:57-81 | a command with an allowed parameter count and printable parameters parses back from its text |
| SvgPathLaws.PathTextShape | src/svg-path.ts:28-37 | a printed path uses only allowed characters, starts with an operator letter and does not end in white space; it is empty only for the empty path |
| SvgPathLaws.ChunksOfPathText | src/svg-path.ts:52 | splitting a printed path before each operator letter gives each command's text |
| SvgPathLaws.SerializeIsPathText | src/svg-path.ts:36 | the final `trim` of `toString` never removes anything |
| SvgPathLaws.RoundTrip | test/svg-path.test.ts:4-16 | `parse(toString(p)) == p` for every non-empty path with allowed parameter counts and printable parameters |
| SvgPathLaws.NormalForm | test/svg-path.test.ts:19-34 | printing a path that has been parsed from the text of a path with allowed counts and printable parameters gives the same text: `toString` output is a normal form |
| SvgPathLaws.AllowedTextByChunks | src/svg-path.ts:39-55 | non-empty text of allowed characters parses as its trimmed text cut before each operator letter, the pieces parsed in order |
| SvgPathLaws.ParseCommandsFirstFailure | src/svg-path.ts:53 | when the pieces fail, the error is that of the first piece that fails, and every piece before it parses |
| SvgPathLaws.TextBeforeOperatorFails | src/svg-path.ts:52-60 | allowed text whose first character after trimming is not an operator letter fails with that character as an invalid operator, whatever follows |
| SvgPathLaws.BlankTextFails | src/svg-path.ts:39-60 | non-empty text of only white space is not the empty-text case: it fails with an invalid operator and an empty name |
| PathTransform.Round | src/path-transform.ts:11-17 | fails with a range error exactly when `places` is outside 0..100 and some command has a parameter; otherwise keeps every command's operator, absoluteness and parameter count |
| PathTransform.Translate | src/path-transform.ts:26-83 | keeps every command's operator, absoluteness and parameter count; a zero offset returns the path unchanged |
| PathTransform.Scale | src/path-transform.ts:85-104 | keeps every command's shape; a factor of 1 returns the path unchanged |
| PathTransform.RotateCommand | src/path-transform.ts:115-170 | fails exactly for a relative command or an `H` or `V`; otherwise gives an absolute command with the same operator |
| PathTransform.Rotate | src/path-transform.ts:106-109 | a zero angle returns the path unchanged |
| TransformLaws.RoundIsClose | src/path-transform.ts:11-17 | with `places` in range, each rounded parameter is within half a unit of the last kept place and has at most `places` fraction digits |
| TransformLaws.RoundIdempotent | src/path-transform.ts:11-17 | rounding a rounded path to the same places changes nothing |
| TransformLaws.RoundedPathsRoundTrip | src/path-transform.ts:11-17 | a well-formed path whose parameters are less than 10^21 - 1 in magnitude, rounded to at most 6 places, prints and parses back to itself |
| TransformLaws.TranslateAbsolute | src/path-transform.ts:31-64 | in absolute commands, each x coordinate moves by dx and each y coordinate by dy; radii, axis rotation and flags stay |
| TransformLaws.TranslateKeepsRelative | src/path-transform.ts:65-80 | `Z` and every relative command other than a leading `m` stay as they are |
| TransformLaws.TranslateLeadingRelativeMove | src/path-transform.ts:66-77 | a leading `m` has its first pair moved by (dx, dy) and its other parameters kept |
| TransformLaws.TranslateCompose | src/path-transform.ts:26-83 | translating by (a, b) and then by (e, f) is translating by (a + e, b + f) |
| TransformLaws.TranslateInverse | src/path-transform.ts:26-83 | translating by (dx, dy) and then by (-dx, -dy) gives the path back |
| TransformLaws.ScaleSlots | src/path-transform.ts:85-104 | every coordinate and radius is multiplied by the factor, in absolute and relative commands alike; arc axis rotations and flags stay |
| TransformLaws.ScaleCompose | src/path-transform.ts:85-104 | scaling by a and then by b is scaling by a * b |
| TransformLaws.ScaleInverse | src/path-transform.ts:85-104 | scaling by a non-zero factor and then by its reciprocal gives the path back |
| TransformLaws.ScaleTranslate | src/path-transform.ts:26-104 | scaling a translated path equals translating the scaled path by the scaled offset |
| PathTransform.NormaliseCommandShape | src/path-transform.ts:190-362 | one command normalises to absolute commands without `H` or relative letters, with a `V` among them exactly when the input was an absolute `V` |
| PathTransform.Normalise | src/path-transform.ts:186-367 | the normalised path has only absolute commands and no `H`; it has an absolute `V` exactly when the input had one |
| NormaliseLaws.NormaliseIdentity | src/path-transform.ts:192-213 | a path of absolute commands without `H` or `V` normalises to itself |
| NormaliseLaws.NormaliseIdempotent | src/path-transform.ts:186-367 | normalising a path without an absolute `V` twice is the same as normalising it once |
| NormaliseLaws.NormaliseAppend | src/path-transform.ts:190-363 | normalising `p + q` is normalising `p` and then `q` from the pen `p` leaves behind |
| NormaliseLaws.CloseReturnsToStart | src/path-transform.ts:231-234 | after `Z` or `z` the current point is the start of the subpath, and a `z` becomes an absolute `Z` |
| NormaliseLaws.RelativePairsTrack | src/path-transform.ts:241-268 | a relative `m`, `l` or `t` becomes one absolute command per complete pair, each at the pen plus the running sum of the pairs; only the first pair of an `m` stays a move, and every pair of an `m` starts a new subpath |
| NormaliseLaws.AbsoluteVerticalKept | src/path-transform.ts:222-230 | an absolute `V` becomes an `L` through the current x and each given y, followed by the `V` itself |
| NormaliseLaws.RelativeHorizontalVerticalRepeat | src/path-transform.ts:269-288 | each value of a relative `h` or `v` moves the pen along its axis and adds an `L` that repeats the reached point once per parameter of the command |
| NormaliseLaws.RotateFailsOnVertical | src/path-transform.ts:106-172 | rotating by a non-zero angle fails exactly when the path has an absolute `V`, and then with the `V` error |
| NormaliseLaws.RotatePairsTurnsPoints | src/path-transform.ts:125-136 | every coordinate pair is turned about the origin by the angle |
| NormaliseLaws.RotateArcKeepsShapeSlots | src/path-transform.ts:147-163 | rotation keeps each arc's radii, axis rotation and flags in place |
| NormaliseLaws.RotateArcTurnsEndPoints | src/path-transform.ts:147-163 | each arc's end point is turned about the origin by the angle |
| NormaliseLaws.RotateArcLength | src/path-transform.ts:147-163 | an arc with complete groups of seven keeps its parameter count |
| NormaliseLaws.RotateCommandKeepsCount | src/path-transform.ts:115-170 | an absolute command other than `H` or `V` with an allowed parameter count rotates without error and keeps its parameter count |
| NormaliseLaws.RotateKeepsShape | src/path-transform.ts:106-172 | a well-formed path of absolute commands without `H` or `V` rotates without error and keeps every command's shape |
| Pattern.ParsePixelOrPercent | src/pattern.ts:39-64 | a missing or empty field gives the default, or 0 px; text ending in `%` gives the percentage of the number before it; other text gives pixels; it fails, naming the field, exactly when that number is not numeric |
| Pattern.ParseFields | src/pattern.ts:22-35 | a part has the parsed first field as its path, the second field as its offset (default 0 px), the third as its interval (default 100 %), and type `T` exactly when the fourth field is `T`; a failure comes from one of the first three fields |
| Pattern.ParsePattern | src/pattern.ts:15-37 | `solid` is the solid pattern; otherwise there is one part per `;`-separated segment, each the parse of its segment, and a failure is the failure of some segment |
| Pattern.PatternToString | src/pattern.ts:66-72 | the solid pattern prints as `solid` |
| Pattern.PixelOrPercentToString | src/pattern.ts:78-83 | a printed amount is non-empty and has no `,` or `;`; it ends in `%` exactly when it is a percentage, and is the printed value followed by `%` for a percentage and the printed value alone otherwise |
| Pattern.PartToString | src/pattern.ts:74-76 | splitting a printed part at `,` gives exactly four fields: the printed path, the printed offset, the printed interval and the type letter; the text has no `;` |
| PatternLaws.AmountRoundTrip | src/pattern.ts:39-64 | a printed amount whose value has at most 20 fraction digits parses back to itself, whatever the default; `Number` also reads the exponent text `String` writes, so plain notation is not needed here |
| Pattern.SerializedPathHasNoSeparators | src/pattern.ts:74-76 | a printed path never contains `,`, `;` or `%`, so it cannot break a part into fields |
| PatternLaws.PartTextShape | src/pattern.ts:74-76 | a printed part contains a `,` and no `;` |
| PatternLaws.PartRoundTrip | src/pattern.ts:74-76 | a printed part parses back to itself when its path is non-empty with allowed counts and printable parameters, and its amounts have at most 20 fraction digits |
| PatternLaws.PatternRoundTrip | test/pattern.test.ts:5-15 | `parsePattern(patternToString(p)) == p` for `solid` and for every non-empty list of parts like those of `PartRoundTrip` |
| PatternLaws.PatternNormalForm | test/pattern.test.ts:5-15 | printing a parsed printed pattern gives the same text |
| PatternLaws.SurplusFieldsIgnored | src/pattern.ts:22-29 | fields after the fourth do not change the part |
| PatternLaws.EmptyFieldIsMissing | src/pattern.ts:43-45 | an empty trailing field reads the same as an absent one |
| PatternLaws.DefaultsFilled | src/pattern.ts:22-29 | a part with only a path gets offset 0 px, interval 100 % and type `F` |
| PatternLaws.TypeField | src/pattern.ts:29 | a part traces the line exactly when its fourth field is exactly `T` |
| PatternLaws.BlankOffsetFilled | test/pattern.test.ts:19 | a blank offset reads as 0 px and prints back as `0` |
| PatternLaws.BlankIntervalFilled | test/pattern.test.ts:27 | a blank interval reads as 100 % and prints back as `100%` |
| PatternLaws.SinglePartPattern | src/pattern.ts:20-36 | text without `;` that is not `solid` is a pattern of exactly one part, or fails as that part does |
| Renderer.PixelsFrom | src/SvgPatternRenderer.ts:96-102 | pixels are taken as given; a percentage of the total becomes the whole number of pixels just below it |
| Renderer.Positions | src/SvgPatternRenderer.ts:75 | stamps start at the leftover distance, are a step apart, do not pass the segment's end, and the next one would; there are none exactly when the leftover passes the end |
| Renderer.SegmentRun | src/SvgPatternRenderer.ts:69-86 | on one segment a part stamps nothing and carries `k - length` on when `k` passes the end; otherwise it fails exactly when turning its path fails, never finishes exactly when its step is not positive, and leaves a positive leftover of at most one step |
| Renderer.PartsRun | src/SvgPatternRenderer.ts:72-87 | after a segment every part has a positive leftover distance |
| Renderer.SegmentsRun | src/SvgPatternRenderer.ts:66-88 | a ring of fewer than two points, or a pattern without parts, has no stamps |
| Renderer.StampRing | src/SvgPatternRenderer.ts:62-88 | the same for one ring, whatever its offsets and steps |
| Renderer.RingOutline | src/SvgPatternRenderer.ts:40-54 | the outline of a non-empty ring starts with `M`, and an outline ends in `z` exactly when the geometry is closed |
| Renderer.EachRing | src/SvgPatternRenderer.ts:61-89 | no rings give no stamps |
| Renderer.Render | src/SvgPatternRenderer.ts:34-93 | a finished rendering is never the empty text |
| Renderer.PointsToPatternPath | src/SvgPatternRenderer.ts:24-94 | never empty when it finishes; a pattern string that does not parse renders as `solid` |
| Renderer.CorrectedPointsToPatternPath | src/SvgPatternRenderer.ts:24-94 | the same two guarantees for the corrected step rule |
| RendererLaws.StampsFit | src/SvgPatternRenderer.ts:75 | the loop stops at the first whole step from `k` that passes the segment's end: `k + n * step` exceeds the length for the number n of stamps |
| RendererLaws.PositionsClosedForm | src/SvgPatternRenderer.ts:75 | the i-th stamp is at `k + i * step` |
| RendererLaws.HalfStepSchedule | src/SvgPatternRenderer.ts:75 | with offset 0 and a 50 px step on a 100 px segment, stamps fall at 0, 50 and 100 |
| RendererLaws.OncePerRing | src/SvgPatternRenderer.ts:73-75 | the default interval of 100 % and a zero interval both step by the whole rounded ring length |
| RendererLaws.StepSign | src/SvgPatternRenderer.ts:73-75 | for non-negative intervals the step is non-negative, and it is zero exactly under the as-written rule on a ring shorter than one pixel with a zero pixel interval |
| RendererLaws.RingOutlineIsPath | src/SvgPatternRenderer.ts:40-54 | a ring's outline is the printed path of a move to its first point, lines to the others and `z` when closed |
| RendererLaws.RingOutlineReadsBack | src/SvgPatternRenderer.ts:40-54 | the outline of a non-empty ring with printable coordinates parses back to that path |
| RendererLaws.StampIsPath | src/SvgPatternRenderer.ts:76-83 | a stamp is the printed path of a move to the stamp point followed by the turned part path translated onto that point |
| RendererLaws.SolidIsOutline | src/SvgPatternRenderer.ts:39-60 | a solid pattern draws just the outline, or `M0 0` when there is none |
| RendererLaws.NoRingsDrawPlaceholder | src/SvgPatternRenderer.ts:93 | with no rings the result is `M0 0` |
| RendererLaws.OutlineComesFirst | src/SvgPatternRenderer.ts:39-60 | when the outline is drawn, the result starts with it |
| RendererLaws.FillOnlyLineHasNoOutline | src/SvgPatternRenderer.ts:39 | an open line whose parts are all `F` draws only the stamps, or `M0 0` when there are none |
| RendererLaws.StampsFailAll | src/SvgPatternRenderer.ts:60-90 | when stamping throws or never finishes, so does the whole rendering |
| RendererLaws.StampRingsAppend | src/SvgPatternRenderer.ts:61-89 | stamping rings `a + b` is stamping `a` and then `b`, and the first ring that fails or hangs decides the outcome |
| RendererLaws.PartsRunSettles | src/SvgPatternRenderer.ts:72-87 | along one segment, parts without an absolute `V` never throw, and positive steps always finish |
| RendererLaws.SegmentsRunSettles | src/SvgPatternRenderer.ts:66-88 | the same along every segment of a ring |
| RendererLaws.RingSettles | src/SvgPatternRenderer.ts:62-88 | a ring whose parts all have positive steps and no absolute `V` is stamped to the end |
| RendererLaws.LongRingsSettle | src/SvgPatternRenderer.ts:61-89 | as written, rings at least one pixel long with non-negative intervals are always stamped to the end |
| RendererLaws.LongRingsDraw | src/SvgPatternRenderer.ts:24-94 | as written, rendering finishes on rings at least one pixel long for a pattern whose parts have no absolute `V` and non-negative intervals |
| RendererLaws.CorrectedRingsSettle | src/SvgPatternRenderer.ts:61-89 | with the corrected step, every ring is stamped to the end |
| RendererLaws.CorrectedAlwaysDraws | src/SvgPatternRenderer.ts:24-94 | with the corrected step, rendering always finishes for such a pattern, on any rings |
| RendererLaws.PointRingStampsHang | src/SvgPatternRenderer.ts:63-75 | as written, stamping a ring whose two points coincide never finishes when the first part's offset is a percentage or not positive and its interval is a percentage or zero |
| RendererLaws.PointRingHangs | src/SvgPatternRenderer.ts:24-94 | as written, `pointsToPatternPath` on such a ring and pattern never returns |

## Left out

- The Leaflet subclass `SvgPatternRenderer` (`_updatePoly`, `_updateStyle`) is left out. It only hands Leaflet's rings and options to `pointsToPatternPath`.
- `console.error` in `pointsToPatternPath` and `console.log` in `toAbsoluteAndRemoveHV` are left out. They are output only.
- Floating point is left out. Numbers are exact reals, so rounding error, `Infinity` and `-0` are not modelled. NaN appears only as the failure of `Number`, which `parse` and `parsePixelOrPercent` turn into errors.
- Cartesian: `Math.sqrt`, `Math.sin`, `Math.cos`, `Math.atan2` and `Math.PI` are parameters (a `MathLib`). No property of the real functions is assumed except where a lemma names one.
- Numbers.ToNumber: reads decimal literals with an optional sign, point and exponent, and unsigned `0x`, `0o` and `0b` literals. It does not read `Infinity`. Its contract only states the blank case; what it reads back is stated by `NumberRoundTrip` for the texts the printer writes.
- Numbers.NumToString: prints every value in plain decimal with at most 20 fraction digits. It does not switch to exponent notation for magnitudes of 10^21 and more or below 10^-6, and it does not give JavaScript's shortest round-trip digits. `NumberRoundTrip` is stated for this printer. The path and pattern round trips are stated only for printable numbers, where this printer and `String` agree: text such as `1e+21` or `1e-7` contains characters `parse` refuses.
- SvgPath.Serialize: its own contract states only the empty case and the leading letter. What the text is, and that `trim` removes nothing, is stated by `PathTextShape`, `SerializeIsPathText` and `RoundTrip`.
- PathTransform.Translate: a leading `m` with fewer than two parameters keeps its parameters as they are, where the source writes NaN for each missing one.
- PathTransform.Normalise: two cases that give NaN coordinates in the source are handled differently.
  - After an absolute command with too few parameters, the pen stays where it was. Parsed text can give this: `parse("M")` is an `M` without parameters, and in `Ml1 2` the `l` then starts from the old pen, where the source writes `L NaN NaN`.
  - An absolute `H` or `V` without parameters also leaves the pen in place. Parsed text can give this too, since a count of 0 is a multiple of 1.
- The `Invalid SVG command` branches of `translate`, `rotate`, `toAbsoluteAndRemoveHV` and `getParamCountForOperator` are left out. `Op` is a closed datatype, so they cannot be reached.
- A stamp falls on the segment's end too, because the loop runs while `k <= segmentDist`: `M-3 0 3 0,,50%,T` on a 100 px segment stamps at 0, 50 and 100 (`HalfStepSchedule`).
- Memory and string-length limits are not modelled. In the stamping loop that never stops, the source appends to `str` on every pass, so a JavaScript engine would eventually end the call with a `RangeError` or by running out of memory. The model reports `Diverges`, meaning the loop condition never fails.
- Percentages are taken of each ring's whole length, as the code does. A comment in the source speaks of the visible portion.

## Findings

| source | as written | input that shows it | evidently intended | confidence | as-written member | corrected member |
|---|---|---|---|---|---|---|
| src/SvgPatternRenderer.ts:63-75 | A ring shorter than one pixel has `ringDistance` 0 after `Math.floor`. With a percentage or zero interval, `pixelInterval` is then 0, so the fallback step `ringDistance` is 0 as well. The condition of the loop `k <= segmentDist; k += 0` never fails, so the loop runs until string length or memory runs out. | the ring `[[p, p]]` (two equal points, or any ring under 1 px) with the pattern `M0 0`: offset 0 px, interval 100 % | a zero interval stamps once per ring, so the step is always positive; here it is raised to 1 px | not executed | RendererLaws.PointRingHangs | RendererLaws.CorrectedAlwaysDraws |
