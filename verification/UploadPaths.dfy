/** Where an upload is written and which URL it returns. */
module UploadPaths {
  import opened Wrappers
  import opened Text

  const PART_LIMIT := 80
  const FOLDER_LIMIT := 160

  // ---------------------------------------------------------------- safe names

  predicate IsSafeChar(c: char) { IsDigit(c) || IsLetter(c) || c == '_' || c == '-' }

  predicate BecomesUnderscore(c: char) { !IsSafeChar(c) && (IsSpace(Rust, c) || c == '.' || c == '/' || c == '\\') }

  function SafeText(c: char): string {
    if IsSafeChar(c) then [c] else if BecomesUnderscore(c) then "_" else ""
  }

  /** Safe characters stay, separators become underscores, everything else goes. */
  function SafeChars(s: string): (t: string)
    ensures AllSafe(t)
  {
    if s == "" then "" else SafeChars(s[..|s| - 1]) + SafeText(s[|s| - 1])
  }

  function TrimStartChar(s: string, c: char): (t: string)
    ensures |t| <= |s| && t == s[|s| - |t|..] && (t != "" ==> t[0] != c)
  {
    if s != "" && s[0] == c then TrimStartChar(s[1..], c) else s
  }

  function TrimEndChar(s: string, c: char): (t: string)
    ensures t <= s && (t != "" ==> t[|t| - 1] != c)
  {
    if s != "" && s[|s| - 1] == c then TrimEndChar(s[..|s| - 1], c) else s
  }

  function TrimChar(s: string, c: char): string { TrimEndChar(TrimStartChar(s, c), c) }

  function Take(s: string, n: nat): string { if |s| <= n then s else s[..n] }

  /** A non-empty name of safe characters, or nothing. */
  function NormalizedPart(value: string): (part: Option<string>)
    ensures part.Some? ==> IsSafeName(part.value) && |part.value| <= PART_LIMIT
  {
    var cleaned := TrimChar(SafeChars(Trim(Rust, value)), '_');
    TrimmedIsSafe(SafeChars(Trim(Rust, value)), '_');
    if cleaned == "" then None else Some(Take(cleaned, PART_LIMIT))
  }

  predicate AllSafe(s: string) { forall i :: 0 <= i < |s| ==> IsSafeChar(s[i]) }

  lemma SliceIsSafe(s: string, i: nat, j: nat)
    requires AllSafe(s) && i <= j <= |s|
    ensures AllSafe(s[i..j])
  {
    hide IsSafeChar;
  }

  lemma TrimmedIsSafe(s: string, c: char)
    requires AllSafe(s)
    ensures AllSafe(Take(TrimChar(s, c), PART_LIMIT))
  {
    var start := TrimStartChar(s, c);
    var end := TrimEndChar(start, c);
    hide AllSafe, TrimStartChar, TrimEndChar;
    SliceIsSafe(s, |s| - |start|, |s|);
    assert start == s[|s| - |start|..|s|];
    SliceIsSafe(start, 0, |end|);
    assert end == start[0..|end|];
    SliceIsSafe(end, 0, |Take(end, PART_LIMIT)|);
  }

  predicate IsSafeName(s: string) { s != "" && AllSafe(s) }

  method KeepSafeChars(raw: string) returns (out: string)
    ensures out == SafeChars(raw)
  {
    hide IsSafeChar, AllSafe, IsSpace;
    out := "";
    var i := 0;
    while i < |raw|
      invariant 0 <= i <= |raw|
      invariant out == SafeChars(raw[..i])
    {
      assert raw[..i + 1][..i] == raw[..i];
      if IsSafeChar(raw[i]) {
        out := out + [raw[i]];
      } else if IsSpace(Rust, raw[i]) || raw[i] == '.' || raw[i] == '/' || raw[i] == '\\' {
        out := out + "_";
      }
      i := i + 1;
    }
    assert raw[..i] == raw;
  }

  method NormalizeFilenamePart(value: Option<string>) returns (part: Option<string>)
    ensures part == if value.None? then None else NormalizedPart(value.value)
  {
    if value.None? {
      return None;
    }
    var raw := Trim(Rust, value.value);
    hide Trim, AllSafe, IsSafeName, SafeChars, TrimChar, Take;
    var out := KeepSafeChars(raw);
    var cleaned := TrimChar(out, '_');
    part := if cleaned == "" then None else Some(Take(cleaned, PART_LIMIT));
  }

  function NormalizedParts(parts: seq<string>): (names: seq<string>)
    ensures forall n :: n in names ==> IsSafeName(n)
  {
    if parts == [] then []
    else
      var before := NormalizedParts(parts[..|parts| - 1]);
      match NormalizedPart(parts[|parts| - 1])
      case None => before
      case Some(name) => before + [name]
  }

  /** Safe names joined by slashes, cut at the limit. */
  function NormalizedFolder(value: string): Option<string> {
    var names := NormalizedParts(Split(Trim(Rust, value), '/'));
    if names == [] then None else Some(Take(Join(names, "/"), FOLDER_LIMIT))
  }

  method NormalizeAll(parts: seq<string>) returns (names: seq<string>)
    ensures names == NormalizedParts(parts)
  {
    hide IsSafeName, NormalizedPart;
    names := [];
    var i := 0;
    while i < |parts|
      invariant 0 <= i <= |parts|
      invariant names == NormalizedParts(parts[..i])
    {
      assert parts[..i + 1][..i] == parts[..i];
      var name := NormalizeFilenamePart(Some(parts[i]));
      if name.Some? {
        names := names + [name.value];
      }
      i := i + 1;
    }
    assert parts[..i] == parts;
  }

  method NormalizeFolderPath(value: Option<string>) returns (folder: Option<string>)
    ensures folder == if value.None? then None else NormalizedFolder(value.value)
  {
    if value.None? {
      return None;
    }
    var raw := Trim(Rust, value.value);
    hide Trim, Split, Join, NormalizedParts;
    if raw == "" {
      BlankHasNoNames();
      return None;
    }
    var names := NormalizeAll(Split(raw, '/'));
    folder := if names == [] then None else Some(Take(Join(names, "/"), FOLDER_LIMIT));
  }

  lemma BlankIsNoName()
    ensures NormalizedPart("").None?
  {
    assert Trim(Rust, "") == "";
    assert SafeChars("") == "" && TrimStartChar("", '_') == "";
    hide Trim, SafeChars, TrimStartChar;
  }

  lemma BlankHasNoNames()
    ensures NormalizedParts(Split("", '/')) == []
  {
    BlankIsNoName();
    hide NormalizedPart;
    assert [""][..0] == [];
  }
}
