/** Env files: what a line means, parsing, writing, and building the runtime file. */
module EnvFiles {
  import opened Wrappers
  import opened Text
  import opened EnvLayers

  datatype EnvError = Malformed(line: nat) | EmptyKey(line: nat)

  // ---------------------------------------------------------------- lines

  predicate IsLineBreak(c: char) {
    '\n' <= c <= '\r' || '\U{1C}' <= c <= '\U{1E}' || c == '\U{85}' || c == '\U{2028}' || c == '\U{2029}'
  }

  /** Index of the first line break, or the length. */
  function FirstBreak(text: string): (k: nat)
    ensures k <= |text| && (k < |text| ==> IsLineBreak(text[k]))
    ensures forall i :: 0 <= i < k ==> !IsLineBreak(text[i])
  {
    if text == "" || IsLineBreak(text[0]) then 0 else 1 + FirstBreak(text[1..])
  }

  /** The lines of a text; a final line break ends the last line and starts no new one. */
  function Lines(text: string): (lines: seq<string>)
    ensures forall line :: line in lines ==> OneLine(line)
    decreases |text|
  {
    if text == "" then []
    else
      var k := FirstBreak(text);
      [text[..k]] + if k == |text| then [] else Lines(text[k + 1..])
  }

  predicate OneLine(s: string) { forall i :: 0 <= i < |s| ==> !IsLineBreak(s[i]) }

  datatype Meaning = Skip | Assign(entry: Entry) | NoEquals | NoKey

  const EXPORT := "export "

  /** A line without the leading `export `. */
  function Assignment(line: string): string {
    if EXPORT <= line then TrimStart(Python, line[|EXPORT|..]) else line
  }

  function LineMeaning(raw: string): Meaning {
    var line := Trim(Python, raw);
    if line == "" || line[0] == '#' then Skip
    else
      match SplitOnce(Assignment(line), '=')
      case None => NoEquals
      case Some((key, value)) =>
        if Trim(Python, key) == "" then NoKey else Assign(Entry(Trim(Python, key), value))
  }

  /** The lines from number n on, read into a dictionary. */
  function Read(m: Env, lines: seq<string>, n: nat): Result<Env, EnvError>
    decreases |lines|
  {
    if lines == [] then Ok(m)
    else
      match LineMeaning(lines[0])
      case Skip => Read(m, lines[1..], n + 1)
      case Assign(e) => Read(Put(m, e), lines[1..], n + 1)
      case NoEquals => Err(Malformed(n))
      case NoKey => Err(EmptyKey(n))
  }

  /** A file that does not exist is an empty one. */
  function Parsed(file: Option<string>): Result<Env, EnvError> {
    match file
    case None => Ok([])
    case Some(text) => Read([], Lines(text), 1)
  }

  function ReadFrom(m: Env, lines: seq<string>, i: nat): Result<Env, EnvError>
    requires i <= |lines|
  {
    Read(m, lines[i..], i + 1)
  }

  lemma ReadStep(m: Env, lines: seq<string>, i: nat)
    requires i < |lines|
    ensures ReadFrom(m, lines, i) ==
      match LineMeaning(lines[i])
      case Skip => ReadFrom(m, lines, i + 1)
      case Assign(e) => ReadFrom(Put(m, e), lines, i + 1)
      case NoEquals => Err(Malformed(i + 1))
      case NoKey => Err(EmptyKey(i + 1))
  {
    hide LineMeaning, Put;
    assert lines[i..][1..] == lines[i + 1..];
  }

  lemma ReadEnds(m: Env, lines: seq<string>)
    ensures ReadFrom(m, lines, 0) == Read(m, lines, 1) && ReadFrom(m, lines, |lines|) == Ok(m)
  {
    assert lines[0..] == lines;
  }

  method ParseEnvFile(file: Option<string>) returns (values: Result<Env, EnvError>)
    ensures values == Parsed(file)
  {
    if file.None? {
      return Ok([]);
    }
    values := ReadLines(Lines(file.value));
  }

  method ReadLines(lines: seq<string>) returns (values: Result<Env, EnvError>)
    ensures values == Read([], lines, 1)
  {
    hide Put, LineMeaning, Read, ReadFrom;
    ReadEnds([], lines);
    var m: Env := [];
    var i := 0;
    while i < |lines|
      invariant 0 <= i <= |lines|
      invariant ReadFrom(m, lines, i) == Read([], lines, 1)
    {
      ReadStep(m, lines, i);
      var meaning := ReadLine(lines[i]);
      match meaning {
        case Skip =>
        case NoEquals =>
          return Err(Malformed(i + 1));
        case NoKey =>
          return Err(EmptyKey(i + 1));
        case Assign(e) =>
          m := Put(m, e);
      }
      i := i + 1;
    }
    ReadEnds(m, lines);
    values := Ok(m);
  }

  method ReadLine(raw: string) returns (meaning: Meaning)
    ensures meaning == LineMeaning(raw)
  {
    hide Trim, TrimStart, SplitOnce;
    var line := Trim(Python, raw);
    if line == "" || line[0] == '#' {
      return Skip;
    }
    if EXPORT <= line {
      line := TrimStart(Python, line[|EXPORT|..]);
    }
    var parts := SplitOnce(line, '=');
    if parts.None? {
      return NoEquals;
    }
    var key := Trim(Python, parts.value.0);
    if key == "" {
      return NoKey;
    }
    meaning := Assign(Entry(key, parts.value.1));
  }

  // ---------------------------------------------------------------- writing

  function LineOf(e: Entry): string { e.key + "=" + e.value }

  function LinesOf(m: Env): (lines: seq<string>)
    ensures |lines| == |m| && forall i :: 0 <= i < |m| ==> lines[i] == LineOf(m[i])
  {
    seq(|m|, i requires 0 <= i < |m| => LineOf(m[i]))
  }

  function Written(m: Env): string { Join(LinesOf(m), "\n") + "\n" }

  /** The runtime file: the override layered over the template; an absent override changes nothing. */
  function Built(template: Option<string>, override: Option<string>): Result<string, EnvError> {
    match Parsed(template)
    case Err(e) => Err(e)
    case Ok(m) =>
      match Parsed(override)
      case Err(e) => Err(e)
      case Ok(over) => Ok(Written(Overlay(m, over)))
  }

  method BuildRuntimeEnv(template: Option<string>, override: Option<string>) returns (output: Result<string, EnvError>)
    ensures output == Built(template, override)
  {
    hide Read, Lines, Written, Put;
    var merged := ParseEnvFile(template);
    if merged.Err? {
      return Err(merged.error);
    }
    var m := merged.value;
    if override.Some? {
      var over := ParseEnvFile(override);
      if over.Err? {
        return Err(over.error);
      }
      var k := 0;
      while k < |over.value|
        invariant 0 <= k <= |over.value|
        invariant m == Overlay(merged.value, over.value[..k])
      {
        OverlaySnoc(merged.value, over.value[..k], over.value[k]);
        assert over.value[..k + 1] == over.value[..k] + [over.value[k]];
        m := Put(m, over.value[k]);
        k := k + 1;
      }
      assert over.value[..k] == over.value;
    }
    output := Ok(Written(m));
  }

  // ---------------------------------------------------------------- what parsing produces

  ghost predicate IsParsedEntry(e: Entry) {
    && e.key != "" && Trimmed(Python, e.key) && '=' !in e.key && OneLine(e.key)
    && OneLine(e.value) && (e.value != "" ==> !IsSpace(Python, e.value[|e.value| - 1]))
  }

  /** The dictionaries a file can be parsed to. */
  ghost predicate IsParsedEnv(m: Env) { UniqueKeys(m) && forall e :: e in m ==> IsParsedEntry(e) }

  /** Keys that mean something else once they are written at the start of a line. */
  predicate IsReserved(key: string) { key != "" && (key[0] == '#' || EXPORT <= key) }

  lemma SliceIsOneLine(s: string, i: nat, j: nat)
    requires OneLine(s) && i <= j <= |s|
    ensures OneLine(s[i..j])
  {
  }

  lemma TrimsAreSlices(s: string)
    ensures exists i: nat, j: nat :: i <= j <= |s| && Trim(Python, s) == s[i..j]
  {
    var t := TrimStart(Python, s);
    var i := |s| - |t|;
    assert t == s[i..];
    var u := TrimEnd(Python, t);
    assert u == t[..|u|];
    assert t[..|u|] == s[i..i + |u|];
  }

  lemma TrimKeepsOneLine(s: string)
    requires OneLine(s)
    ensures OneLine(Trim(Python, s))
  {
    TrimsAreSlices(s);
    hide Trim, OneLine;
    var i: nat, j: nat :| i <= j <= |s| && Trim(Python, s) == s[i..j];
    SliceIsOneLine(s, i, j);
  }

  lemma HalvesAreSlices(s: string, a: string, b: string)
    requires s == a + ['='] + b
    ensures a == s[0..|a|] && b == s[|a| + 1..|s|] && (b != "" ==> b[|b| - 1] == s[|s| - 1])
  {
  }

  /** An assignment is the end of its line. */
  lemma AssignmentIsATail(line: string)
    requires OneLine(line)
    ensures OneLine(Assignment(line)) && |Assignment(line)| <= |line|
    ensures Assignment(line) != "" ==> line != "" && Assignment(line)[|Assignment(line)| - 1] == line[|line| - 1]
  {
    hide OneLine;
    var a := Assignment(line);
    assert a == line[|line| - |a|..|line|];
    SliceIsOneLine(line, |line| - |a|, |line|);
  }

  lemma HalvesAreParsed(assignment: string)
    requires OneLine(assignment) && SplitOnce(assignment, '=').Some?
    ensures var (key, value) := SplitOnce(assignment, '=').value;
            && OneLine(key) && OneLine(value) && '=' !in key
            && assignment != "" && (value != "" ==> value[|value| - 1] == assignment[|assignment| - 1])
  {
    hide OneLine;
    var (key, value) := SplitOnce(assignment, '=').value;
    HalvesAreSlices(assignment, key, value);
    SliceIsOneLine(assignment, 0, |key|);
    SliceIsOneLine(assignment, |key| + 1, |assignment|);
  }

  lemma MeaningIsParsed(raw: string)
    requires OneLine(raw) && LineMeaning(raw).Assign?
    ensures IsParsedEntry(LineMeaning(raw).entry)
  {
    var line := Trim(Python, raw);
    TrimKeepsOneLine(raw);
    hide IsSpace, OneLine, SplitOnce, Trim, Assignment;
    AssignmentIsATail(line);
    HalvesAreParsed(Assignment(line));
    var (key, value) := SplitOnce(Assignment(line), '=').value;
    TrimKeepsOneLine(key);
    TrimLeavesOut(Python, key, '=');
  }

  lemma {:induction false} ReadIsParsed(m: Env, lines: seq<string>, n: nat)
    requires IsParsedEnv(m) && (forall line :: line in lines ==> OneLine(line)) && Read(m, lines, n).Ok?
    ensures IsParsedEnv(Read(m, lines, n).value)
    decreases |lines|
  {
    hide IsParsedEnv, LineMeaning, Put, OneLine;
    if lines == [] {
    } else if LineMeaning(lines[0]).Assign? {
      MeaningIsParsed(lines[0]);
      PutKeepsParsed(m, LineMeaning(lines[0]).entry);
      ReadIsParsed(Put(m, LineMeaning(lines[0]).entry), lines[1..], n + 1);
    } else {
      ReadIsParsed(m, lines[1..], n + 1);
    }
  }

  lemma PutKeepsParsed(m: Env, e: Entry)
    requires IsParsedEnv(m) && IsParsedEntry(e)
    ensures IsParsedEnv(Put(m, e))
  {
    PutKeepsUnique(m, e);
    hide IsParsedEntry;
    assert Entry(e.key, e.value) == e;
  }

  /** Whatever a file parses to is a dictionary with clean keys and values. */
  lemma ParsedFilesAreClean(file: Option<string>)
    requires Parsed(file).Ok?
    ensures IsParsedEnv(Parsed(file).value)
  {
    if file.Some? {
      ReadIsParsed([], Lines(file.value), 1);
    }
  }

  lemma {:induction false} OverlayKeepsParsed(m: Env, over: Env)
    requires IsParsedEnv(m) && IsParsedEnv(over)
    ensures IsParsedEnv(Overlay(m, over))
  {
    hide IsParsedEntry, Put;
    if over != [] {
      var init, last := over[..|over| - 1], over[|over| - 1];
      assert last in over && forall e :: e in init ==> e in over;
      OverlayKeepsParsed(m, init);
      PutKeepsParsed(Overlay(m, init), last);
    }
  }

  // ---------------------------------------------------------------- errors

  predicate IsBad(line: string) { LineMeaning(line).NoEquals? || LineMeaning(line).NoKey? }

  /** Reading fails exactly when a line is bad, and the error names the first such line. */
  lemma {:induction false} ErrorsNameTheFirstBadLine(m: Env, lines: seq<string>, n: nat)
    ensures Read(m, lines, n).Ok? <==> forall line :: line in lines ==> !IsBad(line)
    ensures Read(m, lines, n).Err? ==>
      var at := Read(m, lines, n).error.line - n;
      && 0 <= at < |lines| && IsBad(lines[at]) && (forall j :: 0 <= j < at ==> !IsBad(lines[j]))
      && (Read(m, lines, n).error.Malformed? <==> LineMeaning(lines[at]).NoEquals?)
    decreases |lines|
  {
    hide LineMeaning, Put;
    if lines == [] {
    } else if IsBad(lines[0]) {
    } else {
      var meaning := LineMeaning(lines[0]);
      ErrorsNameTheFirstBadLine(if meaning.Assign? then Put(m, meaning.entry) else m, lines[1..], n + 1);
      assert forall line :: line in lines <==> line == lines[0] || line in lines[1..];
    }
  }
}
