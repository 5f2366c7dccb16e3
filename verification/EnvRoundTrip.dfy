/** Env files written by the builder: when they read back, and why layering may be done in stages. */
module EnvRoundTrip {
  import opened Wrappers
  import opened Text
  import opened EnvLayers
  import opened EnvFiles

  // ---------------------------------------------------------------- one line

  lemma LineOfIsOneLine(e: Entry)
    requires IsParsedEntry(e)
    ensures OneLine(LineOf(e)) && Trimmed(Python, LineOf(e)) && LineOf(e) != "" && LineOf(e)[0] == e.key[0]
  {
    assert !IsSpace(Python, '=') && !IsLineBreak('=');
    hide IsSpace, IsLineBreak;
    var line := LineOf(e);
    assert line[|line| - 1] == if e.value == "" then '=' else e.value[|e.value| - 1];
    forall i | 0 <= i < |line|
      ensures !IsLineBreak(line[i])
    {
      assert line[i] == if i < |e.key| then e.key[i] else if i == |e.key| then '=' else e.value[i - |e.key| - 1];
    }
  }

  lemma PrefixOfKey(e: Entry)
    ensures '=' !in EXPORT && (EXPORT <= LineOf(e) <==> EXPORT <= e.key)
  {
    var line := LineOf(e);
    assert forall i :: 0 <= i < |e.key| ==> line[i] == e.key[i];
    assert line[|e.key|] == '=';
  }

  /** What a trimmed line with this assignment means. */
  lemma MeaningOf(line: string, key: string, value: string)
    requires line != "" && Trimmed(Python, line) && line[0] != '#'
    requires '=' !in key && Assignment(line) == key + ['='] + value && key != "" && Trimmed(Python, key)
    ensures LineMeaning(line) == Assign(Entry(key, value))
  {
    hide Trim, Trimmed, SplitOnce, Assignment;
    SplitOnceAt(key, '=', value);
    assert Trim(Python, line) == line && Trim(Python, key) == key;
  }

  /** A written entry means itself unless its key is reserved. */
  lemma WrittenLineMeansItself(e: Entry)
    requires IsParsedEntry(e) && !IsReserved(e.key)
    ensures LineMeaning(LineOf(e)) == Assign(e)
  {
    LineOfIsOneLine(e);
    PrefixOfKey(e);
    assert Assignment(LineOf(e)) == LineOf(e) == e.key + ['='] + e.value;
    hide Trimmed, OneLine, LineMeaning, LineOf, Assignment;
    MeaningOf(LineOf(e), e.key, e.value);
  }

  /** A reserved key is lost or shortened. */
  lemma ReservedLineMeansLess(e: Entry)
    requires IsParsedEntry(e) && IsReserved(e.key)
    ensures LineMeaning(LineOf(e)).Skip?
      || (LineMeaning(LineOf(e)).Assign? && |LineMeaning(LineOf(e)).entry.key| < |e.key|)
  {
    LineOfIsOneLine(e);
    PrefixOfKey(e);
    if e.key[0] == '#' {
      CommentIsSkipped(LineOf(e));
    } else {
      ExportedLine(e);
      hide Trimmed, OneLine, LineMeaning, LineOf, Assignment, TrimStart;
      MeaningOf(LineOf(e), TrimStart(Python, e.key[|EXPORT|..]), e.value);
    }
  }

  lemma CommentIsSkipped(line: string)
    requires line != "" && Trimmed(Python, line) && line[0] == '#'
    ensures LineMeaning(line).Skip?
  {
    hide Trim, Trimmed, SplitOnce, Assignment;
    assert Trim(Python, line) == line;
  }

  /** The assignment that is left of a key after its `export `. */
  lemma ExportedLine(e: Entry)
    requires IsParsedEntry(e) && EXPORT <= e.key
    ensures var rest := TrimStart(Python, e.key[|EXPORT|..]);
            && Assignment(LineOf(e)) == rest + ['='] + e.value
            && rest != "" && |rest| < |e.key| && Trimmed(Python, rest) && '=' !in rest
  {
    PrefixOfKey(e);
    var line, rest := LineOf(e), e.key[|EXPORT|..];
    assert e.key[|EXPORT| - 1] == ' ' && IsSpace(Python, ' ') && !IsSpace(Python, '=');
    assert rest != "" && !IsSpace(Python, rest[|rest| - 1]) && '=' !in rest;
    hide IsSpace, OneLine, TrimEnd, TrimStart, IsParsedEntry, Trimmed;
    assert line[|EXPORT|..] == rest + ['='] + e.value;
    TrimStartBefore(Python, rest, '=', e.value);
    NotBlank(rest);
    TrimStartKeepsOut(Python, rest, '=');
  }

  lemma NotBlank(s: string)
    requires s != "" && !IsSpace(Python, s[|s| - 1])
    ensures TrimStart(Python, s) != "" && Trimmed(Python, TrimStart(Python, s))
  {
    hide IsSpace;
    if IsSpace(Python, s[0]) {
      NotBlank(s[1..]);
    }
  }

  // ---------------------------------------------------------------- the lines of a written file

  lemma LinesFirst(a: string, rest: string)
    requires OneLine(a)
    ensures Lines(a + "\n" + rest) == [a] + Lines(rest)
  {
    var text := a + "\n" + rest;
    assert IsLineBreak('\n');
    hide IsLineBreak;
    assert forall i :: 0 <= i < |a| ==> text[i] == a[i];
    assert text[|a|] == '\n';
    assert FirstBreak(text) == |a|;
    assert text[..|a|] == a && text[|a| + 1..] == rest;
  }

  lemma {:induction false} LinesOfWritten(m: Env)
    requires forall e :: e in m ==> IsParsedEntry(e)
    ensures Lines(Written(m)) == if m == [] then [""] else LinesOf(m)
  {
    if m == [] {
      LinesFirst("", "");
      assert Written(m) == "" + "\n" + "";
    } else {
      LineOfIsOneLine(m[0]);
      hide IsParsedEntry, Lines;
      if |m| == 1 {
        LinesFirst(LineOf(m[0]), "");
        WrittenOne(m);
        NoLines();
        assert LinesOf(m) == [LineOf(m[0])] + [];
      } else {
        LinesOfWritten(m[1..]);
        WrittenCons(m);
        LinesFirst(LineOf(m[0]), Written(m[1..]));
        assert LinesOf(m) == [LineOf(m[0])] + LinesOf(m[1..]);
      }
    }
  }

  lemma NoLines()
    ensures Lines("") == []
  {
  }

  lemma WrittenOne(m: Env)
    requires |m| == 1
    ensures Written(m) == LineOf(m[0]) + "\n" + ""
  {
  }

  lemma WrittenCons(m: Env)
    requires |m| > 1
    ensures Written(m) == LineOf(m[0]) + "\n" + Written(m[1..])
  {
    hide LineOf;
    assert LinesOf(m)[1..] == LinesOf(m[1..]);
  }

  // ---------------------------------------------------------------- reading back

  lemma ReadOne(known: Env, m: Env, n: nat)
    requires m != [] && IsParsedEntry(m[0]) && !IsReserved(m[0].key) && !HasKey(known, m[0].key)
    ensures Read(known, LinesOf(m), n) == Read(known + [m[0]], LinesOf(m[1..]), n + 1)
  {
    WrittenLineMeansItself(m[0]);
    hide IsParsedEntry, LineMeaning, LineOf, IsReserved, HasKey;
    assert LinesOf(m)[1..] == LinesOf(m[1..]);
  }

  lemma {:induction false} ReadWritten(m: Env, k: nat)
    requires k <= |m| && UniqueKeys(m) && forall e :: e in m ==> IsParsedEntry(e) && !IsReserved(e.key)
    ensures Read(m[..k], LinesOf(m[k..]), k + 1) == Ok(m)
    decreases |m| - k
  {
    hide IsParsedEntry, IsReserved, LineMeaning, LineOf;
    if k == |m| {
      assert m[..k] == m;
    } else {
      hide Read, LinesOf;
      ReadWritten(m, k + 1);
      FirstIsNew(m, k);
      hide UniqueKeys;
      assert m[k] in m && m[k..][1..] == m[k + 1..] && m[..k] + [m[k]] == m[..k + 1];
      ReadOne(m[..k], m[k..], k + 1);
    }
  }

  lemma FirstIsNew(m: Env, k: nat)
    requires UniqueKeys(m) && k < |m|
    ensures !HasKey(m[..k], m[k].key)
  {
  }

  function TotalKeys(m: Env): nat { if m == [] then 0 else |m[0].key| + TotalKeys(m[1..]) }

  lemma {:induction false} TotalAfterPut(m: Env, e: Entry)
    ensures TotalKeys(Put(m, e)) <= TotalKeys(m) + |e.key|
  {
    if HasKey(m, e.key) {
      TotalAfterReplace(m, e);
    } else {
      TotalAfterSnoc(m, e);
    }
  }

  lemma {:induction false} TotalAfterReplace(m: Env, e: Entry)
    ensures TotalKeys(Replaced(m, e.key, e.value)) == TotalKeys(m)
  {
    if m != [] {
      TotalAfterReplace(m[1..], e);
      assert Replaced(m, e.key, e.value)[1..] == Replaced(m[1..], e.key, e.value);
    }
  }

  lemma {:induction false} TotalAfterSnoc(m: Env, e: Entry)
    ensures TotalKeys(m + [e]) == TotalKeys(m) + |e.key|
  {
    if m != [] {
      TotalAfterSnoc(m[1..], e);
      assert (m + [e])[1..] == m[1..] + [e];
    }
  }

  /** Reading written entries never gains key text, and a reserved key loses some. */
  lemma {:induction false} ReadingLosesReservedKeys(known: Env, m: Env, n: nat)
    requires forall e :: e in m ==> IsParsedEntry(e)
    ensures var read := Read(known, LinesOf(m), n);
            && read.Ok? && TotalKeys(read.value) <= TotalKeys(known) + TotalKeys(m)
            && ((exists e :: e in m && IsReserved(e.key)) ==> TotalKeys(read.value) < TotalKeys(known) + TotalKeys(m))
    decreases |m|
  {
    if m != [] {
      var lines := LinesOf(m);
      assert lines[1..] == LinesOf(m[1..]) && m[0] in m && forall e :: e in m <==> e == m[0] || e in m[1..];
      var meaning := LineMeaning(lines[0]);
      if IsReserved(m[0].key) {
        ReservedLineMeansLess(m[0]);
      } else {
        WrittenLineMeansItself(m[0]);
      }
      hide IsParsedEntry, LineMeaning, LineOf, IsReserved, LinesOf, Put;
      if meaning.Assign? {
        TotalAfterPut(known, meaning.entry);
        ReadingLosesReservedKeys(Put(known, meaning.entry), m[1..], n + 1);
      } else {
        ReadingLosesReservedKeys(known, m[1..], n + 1);
      }
    }
  }

  /** A written file parses to the dictionary it was written from, order included, exactly when
      no key begins with '#' or "export ". */
  lemma RoundTripExactly(m: Env)
    requires IsParsedEnv(m)
    ensures Parsed(Some(Written(m))) == Ok(m) <==> forall e :: e in m ==> !IsReserved(e.key)
  {
    ParsedWritten(m);
    assert TotalKeys([]) == 0 && m[..0] == [] && m[0..] == m;
    hide TotalKeys, Read, LinesOf, Parsed, Written, IsParsedEntry, IsReserved;
    ReadingLosesReservedKeys([], m, 1);
    if forall e :: e in m ==> !IsReserved(e.key) {
      ReadWritten(m, 0);
    }
  }

  /** A key of letters, digits and underscores with a value of visible ASCII, no blank at its end. */
  predicate IsPlainEntry(e: Entry) {
    && e.key != ""
    && (forall i :: 0 <= i < |e.key| ==> 'a' <= e.key[i] <= 'z' || 'A' <= e.key[i] <= 'Z' || '0' <= e.key[i] <= '9' || e.key[i] == '_')
    && (forall i :: 0 <= i < |e.value| ==> ' ' <= e.value[i] <= '~')
    && (e.value != "" ==> e.value[|e.value| - 1] != ' ')
  }

  lemma PlainEntriesAreParsed(e: Entry)
    requires IsPlainEntry(e)
    ensures IsParsedEntry(e) && !IsReserved(e.key)
  {
    assert EXPORT[6] == ' ' && (|e.key| > 6 ==> e.key[6] != EXPORT[6]);
  }

  /** Files of plain entries read back as they were written. */
  lemma PlainFilesReadBack(m: Env)
    requires forall i, j :: 0 <= i < j < |m| ==> m[i].key != m[j].key
    requires forall i :: 0 <= i < |m| ==> IsPlainEntry(m[i])
    ensures Parsed(Some(Written(m))) == Ok(m)
  {
    forall e | e in m
      ensures IsParsedEntry(e) && !IsReserved(e.key)
    {
      PlainEntriesAreParsed(e);
    }
    assert UniqueKeys(m);
    hide Parsed, Written, IsParsedEntry, IsReserved, IsPlainEntry, UniqueKeys;
    RoundTripExactly(m);
  }

  lemma ParsedWritten(m: Env)
    requires IsParsedEnv(m)
    ensures Parsed(Some(Written(m))) == Read([], LinesOf(m), 1)
  {
    LinesOfWritten(m);
    hide Lines, LineMeaning, Written, IsParsedEntry;
    if m == [] {
      ReadBlank([], 1);
    }
  }

  lemma ReadBlank(m: Env, n: nat)
    ensures Read(m, [""], n) == Ok(m)
  {
    assert Trim(Python, "") == "";
  }

  // ---------------------------------------------------------------- layering in stages

  lemma {:induction false} ReadAppend(m: Env, xs: seq<string>, ys: seq<string>, n: nat)
    requires Read(m, xs, n).Ok?
    ensures Read(m, xs + ys, n) == Read(Read(m, xs, n).value, ys, n + |xs|)
    decreases |xs|
  {
    hide LineMeaning, Put;
    if xs == [] {
      assert xs + ys == ys;
    } else {
      assert (xs + ys)[1..] == xs[1..] + ys;
      var meaning := LineMeaning(xs[0]);
      ReadAppend(if meaning.Assign? then Put(m, meaning.entry) else m, xs[1..], ys, n + 1);
    }
  }

  /** Reading lines onto a dictionary is overlaying what they parse to. */
  lemma {:induction false} ReadOnto(m: Env, lines: seq<string>, n: nat, from: nat)
    requires Read([], lines, n).Ok?
    ensures Read(m, lines, from) == Ok(Overlay(m, Read([], lines, n).value))
    decreases |lines|
  {
    hide LineMeaning, Overlay, Put;
    if lines == [] {
      OverlayNothing(m);
    } else if LineMeaning(lines[0]).Assign? {
      var e := LineMeaning(lines[0]).entry;
      PutFirst(e);
      assert Read([], lines, n) == Read([e], lines[1..], n + 1);
      ReadErrorsAlike([e], [], lines[1..], n + 1);
      var rest := Read([], lines[1..], n + 1).value;
      ReadOnto([e], lines[1..], n + 1, n + 1);
      ReadOnto(Put(m, e), lines[1..], n + 1, from + 1);
      LayeringIsAssociative(m, [e], rest);
      OverlayOne(m, e);
    } else {
      ReadOnto(m, lines[1..], n + 1, from + 1);
    }
  }

  /** Whether lines can be read does not depend on what was read before. */
  lemma {:induction false} ReadErrorsAlike(a: Env, b: Env, lines: seq<string>, n: nat)
    ensures Read(a, lines, n).Ok? <==> Read(b, lines, n).Ok?
    decreases |lines|
  {
    hide LineMeaning, Put;
    if lines == [] {
    } else if LineMeaning(lines[0]).Assign? {
      var e := LineMeaning(lines[0]).entry;
      ReadErrorsAlike(Put(a, e), Put(b, e), lines[1..], n + 1);
    } else {
      ReadErrorsAlike(a, b, lines[1..], n + 1);
    }
  }

  lemma OverlayNothing(m: Env)
    ensures Overlay(m, []) == m
  {
  }

  lemma PutFirst(e: Entry)
    ensures Put([], e) == [e]
  {
  }

  lemma OverlayOne(m: Env, e: Entry)
    ensures Overlay(m, [e]) == Put(m, e)
  {
    assert [e][..0] == [];
  }

  /** A text that is empty or ends with a line break gets an empty line when one more follows. */
  function Pad(s: string): seq<string> { if s == "" || IsLineBreak(s[|s| - 1]) then [""] else [] }

  lemma {:induction false} LinesConcat(s: string, e: string)
    ensures Lines(s + "\n" + e) == Lines(s) + Pad(s) + Lines(e)
    decreases |s|
  {
    var k := FirstBreak(s);
    if k == |s| {
      LinesOfUnbroken(s, e);
    } else {
      BrokenLines(s, e, k);
      PadOfTail(s, k);
      hide Lines, Pad, IsLineBreak;
      LinesConcat(s[k + 1..], e);
      Regrouped([s[..k]], Lines(s[k + 1..]), Pad(s), Lines(e));
    }
  }

  lemma Regrouped(a: seq<string>, b: seq<string>, c: seq<string>, d: seq<string>)
    ensures a + (b + c + d) == (a + b) + c + d
  {
  }

  lemma LinesOfUnbroken(s: string, e: string)
    requires FirstBreak(s) == |s|
    ensures Lines(s + "\n" + e) == Lines(s) + Pad(s) + Lines(e)
  {
    LinesFirst(s, e);
    assert s[..|s|] == s;
    assert Lines(s) + Pad(s) == [s];
    hide Lines, Pad, IsLineBreak, OneLine;
  }

  lemma PadOfTail(s: string, k: nat)
    requires k < |s| && IsLineBreak(s[k])
    ensures Pad(s) == Pad(s[k + 1..])
  {
    hide IsLineBreak;
  }

  lemma BrokenLines(s: string, e: string, k: nat)
    requires k == FirstBreak(s) < |s|
    ensures Lines(s) == [s[..k]] + Lines(s[k + 1..])
    ensures Lines(s + "\n" + e) == [s[..k]] + Lines(s[k + 1..] + "\n" + e)
  {
    hide IsLineBreak;
    var text := s + "\n" + e;
    assert forall i :: 0 <= i < |s| ==> text[i] == s[i];
    assert FirstBreak(text) == k;
    assert text[..k] == s[..k] && text[k + 1..] == s[k + 1..] + "\n" + e;
  }

  /** One file after the other is one layered over the other. */
  lemma ConcatenationIsLayering(s: string, e: string)
    requires Parsed(Some(s)).Ok? && Parsed(Some(e)).Ok?
    ensures Parsed(Some(s + "\n" + e)) == Ok(Overlay(Parsed(Some(s)).value, Parsed(Some(e)).value))
  {
    var b := Parsed(Some(s)).value;
    LinesConcat(s, e);
    hide Lines, LineMeaning, Overlay, IsLineBreak, Read;
    var head := Lines(s) + Pad(s);
    ReadPadded(s);
    ReadAppend([], head, Lines(e), 1);
    ReadOnto(b, Lines(e), 1, 1 + |head|);
  }

  lemma ReadPadded(s: string)
    requires Parsed(Some(s)).Ok?
    ensures Read([], Lines(s) + Pad(s), 1) == Parsed(Some(s))
  {
    hide Lines, IsLineBreak, LineMeaning;
    var b := Parsed(Some(s)).value;
    ReadAppend([], Lines(s), Pad(s), 1);
    if Pad(s) == [""] {
      ReadBlank(b, 1 + |Lines(s)|);
    }
  }

  /** Building with the shared values first and with the environment values on top of the result
      writes the same file as building once with both, as long as no key is reserved. */
  lemma TwoStagesEqualOne(template: string, shared: string, environment: string)
    requires Parsed(Some(template)).Ok? && Parsed(Some(shared)).Ok? && Parsed(Some(environment)).Ok?
    requires forall e :: e in Overlay(Parsed(Some(template)).value, Parsed(Some(shared)).value) ==> !IsReserved(e.key)
    ensures var first := Built(Some(template), Some(shared));
            && first.Ok?
            && Built(Some(first.value), Some(environment)) == Built(Some(template), Some(shared + "\n" + environment))
            && Built(Some(first.value), Some(environment)).Ok?
  {
    var a, b := Parsed(Some(template)).value, Parsed(Some(shared)).value;
    ParsedFilesAreClean(Some(template));
    ParsedFilesAreClean(Some(shared));
    OverlayKeepsParsed(a, b);
    hide Parsed, Written, IsReserved, Overlay, IsParsedEntry;
    RoundTripExactly(Overlay(a, b));
    ConcatenationIsLayering(shared, environment);
    LayeringIsAssociative(a, b, Parsed(Some(environment)).value);
  }

  // ---------------------------------------------------------------- and when it may not

  lemma LineFixesTheEntry(a: Entry, b: Entry)
    requires IsParsedEntry(a) && IsParsedEntry(b) && LineOf(a) == LineOf(b)
    ensures a == b
  {
    SplitOnceAt(a.key, '=', a.value);
    SplitOnceAt(b.key, '=', b.value);
    hide SplitOnce;
    assert LineOf(a) == a.key + ['='] + a.value && LineOf(b) == b.key + ['='] + b.value;
  }

  lemma {:induction false} LinesFixTheEntries(a: Env, b: Env)
    requires (forall e :: e in a ==> IsParsedEntry(e)) && (forall e :: e in b ==> IsParsedEntry(e))
    requires LinesOf(a) == LinesOf(b)
    ensures a == b
  {
    hide IsParsedEntry, LineOf;
    assert |LinesOf(a)| == |a| && |LinesOf(b)| == |b|;
    if a != [] {
      assert LinesOf(a)[0] == LineOf(a[0]) && LinesOf(b)[0] == LineOf(b[0]);
      LineFixesTheEntry(a[0], b[0]);
      assert LinesOf(a)[1..] == LinesOf(a[1..]) && LinesOf(b)[1..] == LinesOf(b[1..]);
      LinesFixTheEntries(a[1..], b[1..]);
      assert a == [a[0]] + a[1..] && b == [b[0]] + b[1..];
    }
  }

  /** Different dictionaries are written as different files. */
  lemma WrittenIsInjective(a: Env, b: Env)
    requires IsParsedEnv(a) && IsParsedEnv(b) && Written(a) == Written(b)
    ensures a == b
  {
    LinesOfWritten(a);
    LinesOfWritten(b);
    if a != [] {
      LineOfIsOneLine(a[0]);
    }
    if b != [] {
      LineOfIsOneLine(b[0]);
    }
    hide Written, Lines, IsParsedEntry, OneLine, Trimmed, LineOf;
    LinesFixTheEntries(a, b);
  }

  ghost predicate StagesAgree(template: string, shared: string, environment: string) {
    var first := Built(Some(template), Some(shared));
    first.Ok? && Built(Some(first.value), Some(environment)) == Built(Some(template), Some(shared + "\n" + environment))
  }

  /** Two stages agree with one, whatever the environment file, exactly when no key of the
      template and the shared file is reserved. */
  lemma StagesAgreeExactly(template: string, shared: string)
    requires Parsed(Some(template)).Ok? && Parsed(Some(shared)).Ok?
    ensures (forall environment: string :: Parsed(Some(environment)).Ok? ==> StagesAgree(template, shared, environment)) <==>
      forall e :: e in Overlay(Parsed(Some(template)).value, Parsed(Some(shared)).value) ==> !IsReserved(e.key)
  {
    var m := Overlay(Parsed(Some(template)).value, Parsed(Some(shared)).value);
    hide Parsed, Overlay, IsReserved, Built;
    if forall e :: e in m ==> !IsReserved(e.key) {
      forall environment: string | Parsed(Some(environment)).Ok?
        ensures StagesAgree(template, shared, environment)
      {
        TwoStagesEqualOne(template, shared, environment);
      }
    } else {
      NothingOnTopDiffers(template, shared);
    }
  }

  /** With a reserved key even an empty environment file makes a difference. */
  lemma NothingOnTopDiffers(template: string, shared: string)
    requires Parsed(Some(template)).Ok? && Parsed(Some(shared)).Ok?
    requires !forall e :: e in Overlay(Parsed(Some(template)).value, Parsed(Some(shared)).value) ==> !IsReserved(e.key)
    ensures Parsed(Some("")) == Ok([]) && !StagesAgree(template, shared, "")
  {
    var a, b := Parsed(Some(template)).value, Parsed(Some(shared)).value;
    var m := Overlay(a, b);
    NoLines();
    assert Parsed(Some("")) == Ok([]);
    ParsedFilesAreClean(Some(template));
    ParsedFilesAreClean(Some(shared));
    OverlayKeepsParsed(a, b);
    hide Parsed, Written, IsReserved, Overlay, IsParsedEntry;
    RoundTripExactly(m);
    OverlayNothing(b);
    ConcatenationIsLayering(shared, "");
    assert Built(Some(template), Some(shared + "\n" + "")) == Ok(Written(m));
    var again := Parsed(Some(Written(m)));
    if again.Ok? {
      ParsedFilesAreClean(Some(Written(m)));
      OverlayNothing(again.value);
      if Written(again.value) == Written(m) {
        WrittenIsInjective(again.value, m);
      }
    }
  }
}
