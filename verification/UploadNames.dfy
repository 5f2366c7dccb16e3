/** What becomes of the characters of a wished name. */
module UploadNames {
  import opened Wrappers
  import opened Text
  import opened UploadPaths
  import opened UploadUrls

  /** Letters, digits and hyphens: what a name can begin and end with. */
  predicate IsPlain(c: char) { 'a' <= c <= 'z' || 'A' <= c <= 'Z' || '0' <= c <= '9' || c == '-' }

  predicate IsSeparator(c: char) { IsSpace(Rust, c) || c in ".\\/" }

  /** A name that needs no change but for its length. */
  predicate IsProper(s: string) {
    && s != "" && IsPlain(s[0]) && IsPlain(s[|s| - 1])
    && forall i :: 0 <= i < |s| ==> IsPlain(s[i]) || s[i] == '_'
  }

  lemma PlainIsSafe(c: char)
    ensures IsSafeChar(c) <==> IsPlain(c) || c == '_'
  {
  }

  lemma ProperIsTrimmed(s: string)
    requires IsProper(s)
    ensures Trim(Rust, s) == s && TrimChar(s, '_') == s
  {
    assert !IsSpace(Rust, s[0]) && !IsSpace(Rust, s[|s| - 1]);
    assert Trimmed(Rust, s);
    hide Trim, IsSpace;
  }

  lemma {:induction false} SafeTextStays(s: string)
    requires forall i :: 0 <= i < |s| ==> IsPlain(s[i]) || s[i] == '_'
    ensures SafeChars(s) == s
  {
    if s != "" {
      SafeTextStays(s[..|s| - 1]);
      PlainIsSafe(s[|s| - 1]);
      hide IsPlain, IsSafeChar;
      assert s == s[..|s| - 1] + [s[|s| - 1]];
    }
  }

  /** A proper name stays as it is, cut after eighty characters. */
  lemma ProperNamesStay(s: string)
    requires IsProper(s)
    ensures NormalizedPart(s) == Some(if |s| <= 80 then s else s[..80])
  {
    ProperIsTrimmed(s);
    hide IsPlain, Trim, TrimChar, AllSafe;
    SafeTextStays(s);
  }

  lemma {:induction false} SafeCharsConcat(a: string, b: string)
    ensures SafeChars(a + b) == SafeChars(a) + SafeChars(b)
  {
    hide SafeText;
    if b == "" {
      assert a + b == a;
    } else {
      SafeCharsConcat(a, b[..|b| - 1]);
      assert (a + b)[..|a + b| - 1] == a + b[..|b| - 1];
    }
  }

  /** Between two proper names a separator becomes an underscore, an underscore or a plain
      character stays, and any other character goes. */
  lemma OneCharacterBetween(a: string, c: char, b: string)
    requires IsProper(a) && IsProper(b) && |a| + |b| < 80
    ensures NormalizedPart(a + [c] + b) == Some(a + Between(c) + b)
  {
    SafeTextIs(c);
    CleanedBetween(a, c, b);
    ProperBetween(a, Between(c), b);
    hide *;
    CleanedIsThePart(a + [c] + b, a + Between(c) + b);
  }

  lemma SafeTextIs(c: char)
    ensures SafeText(c) == Between(c)
    ensures forall i :: 0 <= i < |Between(c)| ==> IsPlain(Between(c)[i]) || Between(c)[i] == '_'
  {
    PlainIsSafe(c);
    hide IsSpace;
  }

  lemma CleanedIsThePart(value: string, cleaned: string)
    requires SafeChars(Trim(Rust, value)) == cleaned && IsProper(cleaned) && |cleaned| <= 80
    ensures NormalizedPart(value) == Some(cleaned)
  {
    ProperIsTrimmed(cleaned);
    hide IsPlain, SafeChars, Trim, TrimChar, AllSafe;
  }

  /** What a single character becomes. */
  function Between(c: char): (t: string)
    ensures |t| <= 1
  {
    if IsPlain(c) || c == '_' then [c] else if IsSeparator(c) then "_" else ""
  }

  lemma ProperBetween(a: string, t: string, b: string)
    requires IsProper(a) && IsProper(b) && forall i :: 0 <= i < |t| ==> IsPlain(t[i]) || t[i] == '_'
    ensures IsProper(a + t + b)
  {
    hide IsPlain;
    var s := a + t + b;
    assert s[0] == a[0] && s[|s| - 1] == b[|b| - 1];
    forall i | 0 <= i < |s|
      ensures IsPlain(s[i]) || s[i] == '_'
    {
      assert s[i] == if i < |a| then a[i] else if i < |a| + |t| then t[i - |a|] else b[i - |a| - |t|];
    }
  }

  lemma CleanedBetween(a: string, c: char, b: string)
    requires IsProper(a) && IsProper(b)
    ensures SafeChars(Trim(Rust, a + [c] + b)) == a + SafeText(c) + b
  {
    var s := a + [c] + b;
    assert s[0] == a[0] && s[|s| - 1] == b[|b| - 1];
    assert !IsSpace(Rust, s[0]) && !IsSpace(Rust, s[|s| - 1]);
    assert Trimmed(Rust, s);
    hide Trim, IsSpace, SafeText;
    SafeTextStays(a);
    SafeTextStays(b);
    SafeCharsConcat(a + [c], b);
    SafeCharsConcat(a, [c]);
    assert [c][..0] == "";
    hide SafeChars;
    assert SafeChars([c]) == SafeText(c) by {
      OneChar(c);
    }
  }

  lemma OneChar(c: char)
    ensures SafeChars([c]) == SafeText(c)
  {
    assert [c][..0] == "";
    assert SafeChars("") == "";
  }

  // ---------------------------------------------------------------- names and folders

  /** Avatars are named after their user. */
  lemma AvatarsAreNamedAfterTheirUser(login: string, wished: Option<string>, generated: string, extension: string)
    requires IsSafeName(generated) && IsSafeName(extension) && (wished.Some? ==> IsSafeName(wished.value))
    requires IsProper(login)
    ensures UploadFilename(Avatar, login, wished, generated, extension) == (if |login| <= 80 then login else login[..80]) + "." + extension
  {
    ProperNamesStay(login);
    hide IsProper, IsSafeName, NormalizedPart;
  }

  lemma {:induction false} ProperPartsStay(parts: seq<string>)
    requires forall p :: p in parts ==> IsProper(p) && |p| <= 80
    ensures NormalizedParts(parts) == parts
  {
    hide IsProper, NormalizedPart, IsSafeName;
    if parts != [] {
      ProperPartsStay(parts[..|parts| - 1]);
      ProperNamesStay(parts[|parts| - 1]);
    }
  }

  lemma ProperLeavesOut(s: string)
    requires IsProper(s)
    ensures '/' !in s
  {
  }

  lemma JoinedIsTrimmed(parts: seq<string>)
    requires parts != [] && forall p :: p in parts ==> IsProper(p)
    ensures Trim(Rust, Join(parts, "/")) == Join(parts, "/")
  {
    EndsOfJoined(parts);
    var s := Join(parts, "/");
    assert !IsSpace(Rust, s[0]) && !IsSpace(Rust, s[|s| - 1]);
    assert Trimmed(Rust, s);
    hide Trim, IsSpace, Join;
  }

  lemma {:induction false} EndsOfJoined(parts: seq<string>)
    requires parts != [] && forall p :: p in parts ==> IsProper(p)
    ensures var s := Join(parts, "/"); s != "" && IsPlain(s[0]) && IsPlain(s[|s| - 1])
  {
    hide IsPlain;
    assert IsProper(parts[0]);
    if |parts| > 1 {
      EndsOfJoined(parts[1..]);
    }
  }

  /** A folder path of proper names stays as it is, cut after 160 characters. */
  lemma ProperFoldersStay(parts: seq<string>)
    requires parts != [] && forall p :: p in parts ==> IsProper(p) && |p| <= 80
    ensures var path := Join(parts, "/");
            NormalizedFolder(path) == Some(if |path| <= 160 then path else path[..160])
  {
    JoinedIsTrimmed(parts);
    forall p | p in parts
      ensures '/' !in p
    {
      ProperLeavesOut(p);
    }
    hide IsProper, Trim, Split, Join;
    SplitJoin(parts, '/');
    assert ['/'] == "/";
    ProperPartsStay(parts);
  }

  // ---------------------------------------------------------------- nothing left

  lemma {:induction false} OnlyUnderscores(s: string)
    ensures TrimChar(s, '_') == "" <==> forall i :: 0 <= i < |s| ==> s[i] == '_'
  {
    StartsOfUnderscores(s);
    var start := TrimStartChar(s, '_');
    if start != "" {
      EndsOfUnderscores(start);
      assert start[0] == s[|s| - |start|];
    }
  }

  lemma {:induction false} StartsOfUnderscores(s: string)
    ensures TrimStartChar(s, '_') == "" <==> forall i :: 0 <= i < |s| ==> s[i] == '_'
  {
    if s != "" {
      StartsOfUnderscores(s[1..]);
      assert s == [s[0]] + s[1..];
    }
  }

  lemma {:induction false} EndsOfUnderscores(s: string)
    requires s != "" && s[0] != '_'
    ensures TrimEndChar(s, '_') != ""
    decreases |s|
  {
    if s[|s| - 1] == '_' {
      EndsOfUnderscores(s[..|s| - 1]);
    }
  }

  predicate NoPlain(s: string) { forall i :: 0 <= i < |s| ==> !IsPlain(s[i]) }

  predicate AllUnderscores(s: string) { forall i :: 0 <= i < |s| ==> s[i] == '_' }

  lemma BothParts(a: string, b: string)
    ensures NoPlain(a + b) <==> NoPlain(a) && NoPlain(b)
    ensures AllUnderscores(a + b) <==> AllUnderscores(a) && AllUnderscores(b)
  {
    hide IsPlain;
    var s := a + b;
    assert forall i :: 0 <= i < |a| ==> a[i] == s[i];
    assert forall i :: 0 <= i < |b| ==> b[i] == s[|a| + i];
  }

  lemma {:induction false} UnderscoresOnlyExactly(s: string)
    ensures AllUnderscores(SafeChars(s)) <==> NoPlain(s)
  {
    if s != "" {
      var init, last := s[..|s| - 1], s[|s| - 1];
      UnderscoresOnlyExactly(init);
      PlainIsSafe(last);
      assert AllUnderscores(SafeText(last)) <==> NoPlain([last]);
      BothParts(init, [last]);
      BothParts(SafeChars(init), SafeText(last));
      hide NoPlain, AllUnderscores, SafeText;
      assert s == init + [last];
    }
  }

  lemma {:induction false} TrimStartKeepsPlain(s: string)
    ensures NoPlain(TrimStart(Rust, s)) <==> NoPlain(s)
  {
    if s != "" && IsSpace(Rust, s[0]) {
      TrimStartKeepsPlain(s[1..]);
      assert NoPlain([s[0]]);
      BothParts([s[0]], s[1..]);
      hide NoPlain, IsSpace;
      assert s == [s[0]] + s[1..];
    }
  }

  lemma {:induction false} TrimEndKeepsPlain(s: string)
    ensures NoPlain(TrimEnd(Rust, s)) <==> NoPlain(s)
  {
    if s != "" && IsSpace(Rust, s[|s| - 1]) {
      var init := s[..|s| - 1];
      TrimEndKeepsPlain(init);
      assert NoPlain([s[|s| - 1]]);
      BothParts(init, [s[|s| - 1]]);
      hide NoPlain, IsSpace;
      assert s == init + [s[|s| - 1]];
    }
  }

  /** Nothing is left of a wished name exactly when it has no letter, digit or hyphen. */
  lemma NothingIsLeftExactly(value: string)
    ensures NormalizedPart(value).None? <==> NoPlain(value)
  {
    TrimStartKeepsPlain(value);
    TrimEndKeepsPlain(TrimStart(Rust, value));
    UnderscoresOnlyExactly(Trim(Rust, value));
    OnlyUnderscores(SafeChars(Trim(Rust, value)));
    hide NoPlain, SafeChars, TrimStart, TrimEnd, TrimChar, AllSafe;
  }
}
