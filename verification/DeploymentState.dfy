/** The deployment state file: two images by key (scripts/deploy/deployment.ts:26-102). */
module DeploymentState {
  import opened Wrappers
  import opened Text

  datatype State = State(currentWebImage: Option<string>, previousWebImage: Option<string>)

  datatype StateError = MissingSeparator | UnknownKey | DuplicateKey | MissingKey | InvalidImage

  const CURRENT := "CURRENT_WEB_IMAGE"
  const PREVIOUS := "PREVIOUS_WEB_IMAGE"
  const STATE_KEYS := {CURRENT, PREVIOUS}

  /* Strings. */

  function TrimStart(s: string): string {
    if s != "" && IsSpace(s[0]) then TrimStart(s[1..]) else s
  }

  function TrimEnd(s: string): string {
    if s != "" && IsSpace(s[|s| - 1]) then TrimEnd(s[..|s| - 1]) else s
  }

  function Trim(s: string): string {
    TrimEnd(TrimStart(s))
  }

  /** The first position of a character, or the length. */
  function IndexOf(s: string, c: char): (i: nat)
    ensures i <= |s| && (forall k :: 0 <= k < i ==> s[k] != c) && (i < |s| ==> s[i] == c)
  {
    if s == "" || s[0] == c then 0 else IndexOf(s[1..], c) + 1
  }

  /** One past the last position of a character, or 0. */
  function AfterLast(s: string, c: char): (i: nat)
    ensures i <= |s| && c !in s[i..] && (i > 0 ==> s[i - 1] == c)
  {
    if s == "" then 0
    else if s[|s| - 1] == c then |s|
    else AfterLast(s[..|s| - 1], c)
  }

  /* Images. */

  predicate IsLowerHex(c: char) {
    '0' <= c <= '9' || 'a' <= c <= 'f'
  }

  predicate IsDigest(s: string) {
    && |s| == 71
    && s[..7] == "sha256:"
    && forall i :: 7 <= i < 71 ==> IsLowerHex(s[i])
  }

  datatype Image = Image(reference: string, digest: string)

  /** A repository, an `@`, and a digest; tags are refused. */
  function ParseImmutableImage(reference: string): Option<Image> {
    var trimmed := Trim(reference);
    var digestStart := AfterLast(trimmed, '@');
    if digestStart <= 1 || digestStart == |trimmed| || !IsDigest(trimmed[digestStart..]) then None
    else Some(Image(trimmed, trimmed[digestStart..]))
  }

  /* Parsing. */

  type Values = map<string, string>

  /** One line: nothing, a comment, or a key and a value. */
  function ParseLine(known: set<string>, rawLine: string, values: Values): Result<Values, StateError> {
    var line := Trim(rawLine);
    if line == "" || line[0] == '#' then Ok(values)
    else
      var separator := IndexOf(line, '=');
      if separator == 0 || separator == |line| then Err(MissingSeparator)
      else if line[..separator] !in known then Err(UnknownKey)
      else if line[..separator] in values then Err(DuplicateKey)
      else Ok(values[line[..separator] := line[separator + 1..]])
  }

  function ParseLines(known: set<string>, lines: seq<string>, values: Values): Result<Values, StateError> {
    if lines == [] then Ok(values)
    else
      var next := ParseLine(known, lines[0], values);
      if next.Err? then next else ParseLines(known, lines[1..], next.value)
  }

  /** An empty value is no image; anything else must be an image, and is kept as written. */
  function ParseOptionalImage(value: string): Result<Option<string>, StateError> {
    if value == "" then Ok(None)
    else if ParseImmutableImage(value).None? then Err(InvalidImage)
    else Ok(Some(value))
  }

  function StateOf(values: Values): Result<State, StateError> {
    if CURRENT !in values || PREVIOUS !in values then Err(MissingKey)
    else
      var current, previous := ParseOptionalImage(values[CURRENT]), ParseOptionalImage(values[PREVIOUS]);
      if current.Err? then Err(current.error)
      else if previous.Err? then Err(previous.error)
      else Ok(State(current.value, previous.value))
  }

  function Parsed(content: string): Result<State, StateError> {
    var values := ParseLines(STATE_KEYS, Split(content, '\n'), map[]);
    if values.Err? then Err(values.error) else StateOf(values.value)
  }

  method ParseState(content: string) returns (result: Result<State, StateError>)
    ensures result == Parsed(content)
  {
    var values: Values := map[];
    var lines := Split(content, '\n');
    for i := 0 to |lines|
      invariant ParseLines(STATE_KEYS, lines, map[]) == ParseLines(STATE_KEYS, lines[i..], values)
    {
      assert lines[i..][1..] == lines[i + 1..];
      var line := Trim(lines[i]);
      if line == "" || line[0] == '#' {
        continue;
      }
      var separator := IndexOf(line, '=');
      if separator == 0 || separator == |line| {
        return Err(MissingSeparator);
      }
      var key := line[..separator];
      if key !in STATE_KEYS {
        return Err(UnknownKey);
      }
      if key in values {
        return Err(DuplicateKey);
      }
      values := values[key := line[separator + 1..]];
    }
    assert lines[|lines|..] == [];
    result := StateOf(values);
  }

  /* Rendering. */

  function ValueText(image: Option<string>): string {
    if image.Some? then image.value else ""
  }

  /** A line that is a key and a value. */
  function LineOf(key: string, value: string): string {
    key + "=" + value
  }

  function CurrentLine(state: State): string {
    LineOf(CURRENT, ValueText(state.currentWebImage))
  }

  function PreviousLine(state: State): string {
    LineOf(PREVIOUS, ValueText(state.previousWebImage))
  }

  function RenderState(state: State): string {
    Join([CurrentLine(state), PreviousLine(state)], '\n') + "\n"
  }

  /* Which texts are accepted. */

  predicate IsSignificant(rawLine: string) {
    Trim(rawLine) != "" && Trim(rawLine)[0] != '#'
  }

  /** The trimmed lines that are not empty and not comments. */
  function Significant(lines: seq<string>): seq<string> {
    if lines == [] then []
    else (if IsSignificant(lines[0]) then [Trim(lines[0])] else []) + Significant(lines[1..])
  }

  lemma LineParts(key: string, value: string)
    requires '=' !in key
    ensures
      var line := LineOf(key, value);
      IndexOf(line, '=') == |key| && line[..|key|] == key && line[|key| + 1..] == value
  {
    var line := LineOf(key, value);
    assert line[|key|] == '=';
    assert forall k :: 0 <= k < |key| ==> line[k] == key[k];
  }

  /** What parsing does with a line that is already trimmed and significant. */
  function ParseKeyLine(known: set<string>, line: string, values: Values): Result<Values, StateError> {
    var separator := IndexOf(line, '=');
    if separator == 0 || separator == |line| then Err(MissingSeparator)
    else if line[..separator] !in known then Err(UnknownKey)
    else if line[..separator] in values then Err(DuplicateKey)
    else Ok(values[line[..separator] := line[separator + 1..]])
  }

  function ParseKeyLines(known: set<string>, lines: seq<string>, values: Values): Result<Values, StateError> {
    if lines == [] then Ok(values)
    else
      var next := ParseKeyLine(known, lines[0], values);
      if next.Err? then next else ParseKeyLines(known, lines[1..], next.value)
  }

  /** Only the significant lines count. */
  lemma {:induction false} OnlySignificantLinesCount(known: set<string>, lines: seq<string>, values: Values)
    ensures ParseLines(known, lines, values) == ParseKeyLines(known, Significant(lines), values)
  {
    if lines != [] {
      var rest := Significant(lines[1..]);
      if IsSignificant(lines[0]) {
        assert Significant(lines)[1..] == rest;
        var next := ParseKeyLine(known, Trim(lines[0]), values);
        if next.Ok? {
          OnlySignificantLinesCount(known, lines[1..], next.value);
        }
      } else {
        assert Significant(lines) == rest;
        OnlySignificantLinesCount(known, lines[1..], values);
      }
    }
  }

  lemma KeysAreKeys()
    ensures CURRENT != PREVIOUS && '=' !in CURRENT && '=' !in PREVIOUS
  {
    assert CURRENT[0] != PREVIOUS[0];
  }

  /** An accepted key line is its key, an `=` and the value stored for it. */
  lemma KeyLineIs(known: set<string>, line: string, values: Values)
    requires ParseKeyLine(known, line, values).Ok?
    ensures
      var after := ParseKeyLine(known, line, values).value;
      exists key :: key in known && key !in values && key in after && after == values[key := after[key]] && line == LineOf(key, after[key])
  {
    var i := IndexOf(line, '=');
    var key := line[..i];
    assert line == key + "=" + line[i + 1..];
  }

  /** Two key lines, one for each key, are read as their values. */
  lemma TwoKeyLines(k: string, l: string, a: string, b: string, known: set<string>)
    requires k != l && k != "" && l != "" && '=' !in k && '=' !in l && known == {k, l}
    ensures ParseKeyLines(known, [LineOf(k, a), LineOf(l, b)], map[]) == Ok(map[k := a][l := b])
  {
    LineParts(k, a);
    LineParts(l, b);
    var lines := [LineOf(k, a), LineOf(l, b)];
    assert lines[1..] == [LineOf(l, b)] && lines[1..][1..] == [];
    assert ParseKeyLine(known, lines[0], map[]) == Ok(map[k := a]);
    assert ParseKeyLine(known, lines[1], map[k := a]) == Ok(map[k := a][l := b]);
    assert ParseKeyLines(known, lines[1..], map[k := a]) == Ok(map[k := a][l := b]);
  }

  /** With both keys stored, there were exactly two key lines, in either order. */
  lemma BothKeysMeanTwoLines(k: string, l: string, lines: seq<string>, known: set<string>)
    requires k != l && known == {k, l}
    requires ParseKeyLines(known, lines, map[]).Ok?
    requires k in ParseKeyLines(known, lines, map[]).value && l in ParseKeyLines(known, lines, map[]).value
    ensures
      var values := ParseKeyLines(known, lines, map[]).value;
      || lines == [LineOf(k, values[k]), LineOf(l, values[l])]
      || lines == [LineOf(l, values[l]), LineOf(k, values[k])]
  {
    assert lines != [];
    KeyLineIs(known, lines[0], map[]);
    var one := ParseKeyLine(known, lines[0], map[]).value;
    var tail := lines[1..];
    assert tail != [];
    KeyLineIs(known, tail[0], one);
    var two := ParseKeyLine(known, tail[0], one).value;
    var rest := tail[1..];
    assert ParseKeyLines(known, lines, map[]) == ParseKeyLines(known, tail, one) == ParseKeyLines(known, rest, two);
    assert two.Keys == known;
    if rest != [] {
      KeyLineIs(known, rest[0], two);
    }
    assert lines == [lines[0]] + ([tail[0]] + rest);
  }

  /** These are the only lines that store both keys, and what they store. */
  lemma AcceptedKeyLines(k: string, l: string, lines: seq<string>, a: string, b: string)
    requires k != l && k != "" && l != "" && '=' !in k && '=' !in l
    ensures
      var parsed := ParseKeyLines({k, l}, lines, map[]);
      (parsed.Ok? && k in parsed.value && l in parsed.value && parsed.value[k] == a && parsed.value[l] == b) <==>
      (lines == [LineOf(k, a), LineOf(l, b)] || lines == [LineOf(l, b), LineOf(k, a)])
  {
    var parsed := ParseKeyLines({k, l}, lines, map[]);
    if parsed.Ok? && k in parsed.value && l in parsed.value {
      BothKeysMeanTwoLines(k, l, lines, {k, l});
    }
    TwoKeyLines(k, l, a, b, {k, l});
    TwoKeyLines(l, k, b, a, {k, l});
  }

  /* The state and its text. */

  ghost predicate IsImageText(image: Option<string>) {
    image.Some? ==> image.value != "" && ParseImmutableImage(image.value).Some?
  }

  /** A state of images. */
  ghost predicate IsState(state: State) {
    IsImageText(state.currentWebImage) && IsImageText(state.previousWebImage)
  }

  lemma ValueIsText(value: string)
    requires ParseOptionalImage(value).Ok?
    ensures ValueText(ParseOptionalImage(value).value) == value && IsImageText(ParseOptionalImage(value).value)
  {
  }

  lemma TextIsValue(image: Option<string>)
    requires IsImageText(image)
    ensures ParseOptionalImage(ValueText(image)) == Ok(image)
  {
  }

  /**
   * Exactly these texts are accepted: apart from blank lines, comments and surrounding white space,
   * they are the two lines that rendering the state gives, in either order.
   */
  lemma AcceptedTexts(content: string, state: State)
    ensures Parsed(content) == Ok(state) <==>
              && IsState(state)
              && var lines := Significant(Split(content, '\n'));
                 lines == [CurrentLine(state), PreviousLine(state)] || lines == [PreviousLine(state), CurrentLine(state)]
  {
    KeysAreKeys();
    var lines := Significant(Split(content, '\n'));
    OnlySignificantLinesCount(STATE_KEYS, Split(content, '\n'), map[]);
    AcceptedKeyLines(CURRENT, PREVIOUS, lines, ValueText(state.currentWebImage), ValueText(state.previousWebImage));
    if Parsed(content) == Ok(state) {
      ValueIsText(ParseKeyLines(STATE_KEYS, lines, map[]).value[CURRENT]);
      ValueIsText(ParseKeyLines(STATE_KEYS, lines, map[]).value[PREVIOUS]);
    }
    if IsState(state) {
      TextIsValue(state.currentWebImage);
      TextIsValue(state.previousWebImage);
    }
  }

  /* Round trips. */

  /** A value a line can hold: one line, and no white space at its end. */
  predicate IsLineEnd(value: string) {
    '\n' !in value && (value != "" ==> !IsSpace(value[|value| - 1]))
  }

  ghost predicate FitsInLines(state: State) {
    IsLineEnd(ValueText(state.currentWebImage)) && IsLineEnd(ValueText(state.previousWebImage))
  }

  lemma {:induction false} TrimStartKeeps(s: string)
    ensures forall c :: c in TrimStart(s) ==> c in s
    ensures s != "" && !IsSpace(s[0]) ==> TrimStart(s) == s
  {
    if s != "" && IsSpace(s[0]) {
      TrimStartKeeps(s[1..]);
    }
  }

  lemma {:induction false} TrimEndKeeps(s: string)
    ensures forall c :: c in TrimEnd(s) ==> c in s
    ensures TrimEnd(s) != "" ==> !IsSpace(TrimEnd(s)[|TrimEnd(s)| - 1])
  {
    if s != "" && IsSpace(s[|s| - 1]) {
      TrimEndKeeps(s[..|s| - 1]);
    }
  }

  lemma TrimmedIsLineEnd(rawLine: string)
    requires '\n' !in rawLine
    ensures IsLineEnd(Trim(rawLine))
  {
    TrimStartKeeps(rawLine);
    TrimEndKeeps(TrimStart(rawLine));
  }

  lemma {:induction false} SignificantLinesAreLineEnds(lines: seq<string>)
    requires forall l :: l in lines ==> '\n' !in l
    ensures forall l :: l in Significant(lines) ==> IsLineEnd(l)
  {
    if lines != [] {
      TrimmedIsLineEnd(lines[0]);
      SignificantLinesAreLineEnds(lines[1..]);
    }
  }

  lemma LineEndOfLine(key: string, value: string)
    ensures IsLineEnd(LineOf(key, value)) ==> IsLineEnd(value)
  {
    var line := LineOf(key, value);
    assert forall c :: c in value ==> c in line;
    if value != "" {
      assert line[|line| - 1] == value[|value| - 1];
    }
  }

  lemma LineIsTrimmed(key: string, value: string)
    requires IsLineEnd(value) && '\n' !in key && key != "" && !IsSpace(key[0]) && key[0] != '#'
    ensures '\n' !in LineOf(key, value) && Trim(LineOf(key, value)) == LineOf(key, value)
    ensures IsSignificant(LineOf(key, value))
  {
    var line := LineOf(key, value);
    assert line[0] == key[0];
    TrimStartKeeps(line);
    assert line[|line| - 1] == if value == "" then '=' else value[|value| - 1];
  }

  lemma TwoLinesSplit(a: string, b: string)
    requires '\n' !in a && '\n' !in b
    ensures Split(Join([a, b], '\n') + "\n", '\n') == [a, b, ""]
  {
    var lines := [a, b, ""];
    assert lines[1..] == [b, ""] && lines[1..][1..] == [""];
    assert [a, b][1..] == [b];
    assert Join(lines, '\n') == a + "\n" + Join(lines[1..], '\n');
    assert Join(lines[1..], '\n') == b + "\n" + "";
    assert Join(lines, '\n') == Join([a, b], '\n') + "\n";
    SplitJoin(lines, '\n');
  }

  lemma ThreeLinesSignificant(a: string, b: string)
    requires Trim(a) == a && IsSignificant(a) && Trim(b) == b && IsSignificant(b)
    ensures Significant([a, b, ""]) == [a, b]
  {
    var lines := [a, b, ""];
    assert lines[1..] == [b, ""] && lines[1..][1..] == [""] && lines[1..][1..][1..] == [];
    assert Significant([""]) == [];
    assert Significant(lines[1..]) == [b];
  }

  /** A state fits in its lines whenever some text parses to it. */
  lemma ParsedFitsInLines(content: string, state: State)
    requires Parsed(content) == Ok(state)
    ensures IsState(state) && FitsInLines(state)
  {
    AcceptedTexts(content, state);
    JoinSplit(content, '\n');
    SignificantLinesAreLineEnds(Split(content, '\n'));
    var lines := Significant(Split(content, '\n'));
    assert CurrentLine(state) in lines && PreviousLine(state) in lines;
    LineEndOfLine(CURRENT, ValueText(state.currentWebImage));
    LineEndOfLine(PREVIOUS, ValueText(state.previousWebImage));
  }

  lemma RenderedLines(state: State)
    requires FitsInLines(state)
    ensures Significant(Split(RenderState(state), '\n')) == [CurrentLine(state), PreviousLine(state)]
  {
    var c, p := CurrentLine(state), PreviousLine(state);
    LineIsTrimmed(CURRENT, ValueText(state.currentWebImage));
    LineIsTrimmed(PREVIOUS, ValueText(state.previousWebImage));
    TwoLinesSplit(c, p);
    ThreeLinesSignificant(c, p);
  }

  /** A state reads back from its rendering exactly when it is one that some text parses to. */
  lemma RenderedStateReadsBack(state: State)
    ensures Parsed(RenderState(state)) == Ok(state) <==> IsState(state) && FitsInLines(state)
  {
    if Parsed(RenderState(state)) == Ok(state) {
      ParsedFitsInLines(RenderState(state), state);
    }
    if IsState(state) && FitsInLines(state) {
      RenderedLines(state);
      AcceptedTexts(RenderState(state), state);
    }
  }

  /**
   * For every accepted text, whatever its comments, blank lines, order and white space, rendering
   * what it says reads back as the same state, and rendering that again changes nothing.
   */
  lemma RenderingIsIdempotent(content: string)
    requires Parsed(content).Ok?
    ensures
      var rendered := RenderState(Parsed(content).value);
      && Parsed(rendered) == Parsed(content)
      && RenderState(Parsed(rendered).value) == rendered
  {
    ParsedFitsInLines(content, Parsed(content).value);
    RenderedStateReadsBack(Parsed(content).value);
  }
}
