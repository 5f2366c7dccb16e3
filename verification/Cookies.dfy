/** Cookie headers: parsing, overlaying Set-Cookie values, printing, and the search for the
    federation URL in the result. */
module Cookies {
  import opened Wrappers
  import opened Text

  datatype Cookie = Cookie(name: string, value: string)

  /** The entries of an ordered map, by ascending name. */
  type Jar = seq<Cookie>

  // ---------------------------------------------------------------- the ordered map

  /** Ascending code points, a proper prefix first. */
  predicate Before(a: string, b: string) {
    b != "" && (a == "" || a[0] < b[0] || (a[0] == b[0] && Before(a[1..], b[1..])))
  }

  lemma {:induction false} BeforeIsTransitive(a: string, b: string, c: string)
    requires Before(a, b) && Before(b, c)
    ensures Before(a, c)
  {
    if a != "" && a[0] == b[0] && b[0] == c[0] {
      BeforeIsTransitive(a[1..], b[1..], c[1..]);
    }
  }

  lemma {:induction false} BeforeIsTotal(a: string, b: string)
    ensures a == b || Before(a, b) || Before(b, a)
    ensures !(Before(a, b) && Before(b, a)) && (a == b ==> !Before(a, b))
  {
    if a != "" && b != "" && a[0] == b[0] {
      BeforeIsTotal(a[1..], b[1..]);
      assert a == [a[0]] + a[1..] && b == [b[0]] + b[1..];
    }
  }

  function Insert(jar: Jar, name: string, value: string): Jar {
    if jar == [] then [Cookie(name, value)]
    else if jar[0].name == name then [Cookie(name, value)] + jar[1..]
    else if Before(name, jar[0].name) then [Cookie(name, value)] + jar
    else [jar[0]] + Insert(jar[1..], name, value)
  }

  function Lookup(jar: Jar, name: string): Option<string> {
    if jar == [] then None
    else if jar[0].name == name then Some(jar[0].value)
    else Lookup(jar[1..], name)
  }

  /** Ascending names: sorted and without repetition. */
  ghost predicate Ascending(jar: Jar) {
    forall i, j :: 0 <= i < j < |jar| ==> Before(jar[i].name, jar[j].name)
  }

  lemma {:induction false} InsertKeepsAscending(jar: Jar, name: string, value: string)
    requires Ascending(jar)
    ensures Ascending(Insert(jar, name, value))
    ensures forall c :: c in Insert(jar, name, value) ==> c == Cookie(name, value) || c in jar
  {
    if jar != [] && jar[0].name != name && !Before(name, jar[0].name) {
      BeforeIsTotal(name, jar[0].name);
      hide Before;
      InsertKeepsAscending(jar[1..], name, value);
      AscendingCons(jar[0], Insert(jar[1..], name, value));
    } else if jar != [] && jar[0].name != name {
      hide Before;
      forall i | 0 < i < |jar| ensures Before(name, jar[i].name) {
        BeforeIsTransitive(name, jar[0].name, jar[i].name);
      }
    }
  }

  lemma AscendingCons(head: Cookie, rest: Jar)
    requires Ascending(rest) && forall c :: c in rest ==> Before(head.name, c.name)
    ensures Ascending([head] + rest)
  {
    hide Before;
  }

  /** An insertion changes the value of one name and no other. */
  lemma {:induction false} LookupAfterInsert(jar: Jar, name: string, value: string, other: string)
    requires Ascending(jar)
    ensures Lookup(Insert(jar, name, value), other) == if other == name then Some(value) else Lookup(jar, other)
  {
    if jar != [] && jar[0].name != name && !Before(name, jar[0].name) {
      hide Before;
      LookupAfterInsert(jar[1..], name, value, other);
    } else {
      hide Before;
    }
  }

  lemma {:induction false} InsertLast(jar: Jar, name: string, value: string)
    requires Ascending(jar) && forall c :: c in jar ==> Before(c.name, name)
    ensures Insert(jar, name, value) == jar + [Cookie(name, value)]
  {
    if jar != [] {
      BeforeIsTotal(jar[0].name, name);
      hide Before;
      InsertLast(jar[1..], name, value);
    }
  }

  // ---------------------------------------------------------------- parsing

  /** Name and value of a `name=value` text, white space around both dropped. */
  function PairOf(text: string): Option<Cookie> {
    match SplitOnce(Trim(Rust, text), '=')
    case None => None
    case Some((name, value)) => Some(Cookie(Trim(Rust, name), Trim(Rust, value)))
  }

  /** What a name and a value can look like once parsed. */
  predicate IsClean(c: Cookie) {
    && Trimmed(Rust, c.name) && Trimmed(Rust, c.value)
    && '=' !in c.name && ';' !in c.name && ';' !in c.value
  }

  lemma PairIsClean(text: string)
    requires ';' !in text && PairOf(text).Some?
    ensures IsClean(PairOf(text).value)
  {
    hide IsSpace, Trimmed, SplitOnce, Trim;
    var (name, value) := SplitOnce(Trim(Rust, text), '=').value;
    TrimLeavesOut(Rust, text, ';');
    PartsLeaveOut(name, ['='], value, ';');
    TrimLeavesOut(Rust, name, ';');
    TrimLeavesOut(Rust, name, '=');
    TrimLeavesOut(Rust, value, ';');
  }

  lemma PartsLeaveOut(a: string, b: string, d: string, c: char)
    requires c !in a + b + d
    ensures c !in a && c !in d
  {
    var s := a + b + d;
    assert forall i :: 0 <= i < |a| ==> s[i] == a[i];
    assert forall i :: 0 <= i < |d| ==> s[|a| + |b| + i] == d[i];
  }

  /** One piece of a Cookie header; pieces without '=' are skipped, empty names are not. */
  function WithPiece(jar: Jar, piece: string): Jar {
    match PairOf(piece)
    case None => jar
    case Some(c) => Insert(jar, c.name, c.value)
  }

  function WithPieces(jar: Jar, pieces: seq<string>): Jar {
    if pieces == [] then jar else WithPiece(WithPieces(jar, pieces[..|pieces| - 1]), pieces[|pieces| - 1])
  }

  function Parsed(header: string): Jar { WithPieces([], Split(header, ';')) }

  /** The cookie a Set-Cookie value sets; None where the value is not visible ASCII. */
  function SetBy(value: Option<string>): Option<Cookie> {
    match value
    case None => None
    case Some(raw) =>
      var pair := PairOf(Split(raw, ';')[0]);
      if pair.Some? && pair.value.name != "" then pair else None
  }

  function WithSetCookie(jar: Jar, value: Option<string>): Jar {
    match SetBy(value)
    case None => jar
    case Some(c) => Insert(jar, c.name, c.value)
  }

  function WithSetCookies(jar: Jar, values: seq<Option<string>>): Jar {
    if values == [] then jar
    else WithSetCookie(WithSetCookies(jar, values[..|values| - 1]), values[|values| - 1])
  }

  function Entry(c: Cookie): string { c.name + "=" + c.value }

  function Entries(jar: Jar): (entries: seq<string>)
    ensures |entries| == |jar| && forall i :: 0 <= i < |jar| ==> entries[i] == Entry(jar[i])
  {
    seq(|jar|, i requires 0 <= i < |jar| => Entry(jar[i]))
  }

  function Printed(jar: Jar): string { Join(Entries(jar), "; ") }

  function Merged(header: string, values: seq<Option<string>>): string {
    Printed(WithSetCookies(Parsed(header), values))
  }

  method MergeCookieHeaders(header: string, values: seq<Option<string>>) returns (merged: string)
    ensures merged == Merged(header, values)
  {
    var jar: Jar := [];
    var pieces := Split(header, ';');
    hide Split, Trim, SplitOnce;
    var i := 0;
    while i < |pieces|
      invariant 0 <= i <= |pieces|
      invariant jar == WithPieces([], pieces[..i])
    {
      assert pieces[..i + 1][..i] == pieces[..i];
      var piece := Trim(Rust, pieces[i]);
      var pair := SplitOnce(piece, '=');
      if pair.Some? {
        jar := Insert(jar, Trim(Rust, pair.value.0), Trim(Rust, pair.value.1));
      }
      i := i + 1;
    }
    assert pieces[..i] == pieces;

    ghost var existing := jar;
    i := 0;
    while i < |values|
      invariant 0 <= i <= |values|
      invariant jar == WithSetCookies(existing, values[..i])
    {
      assert values[..i + 1][..i] == values[..i];
      if values[i].Some? {
        var first := Trim(Rust, Split(values[i].value, ';')[0]);
        var pair := SplitOnce(first, '=');
        if pair.Some? && Trim(Rust, pair.value.0) != "" {
          jar := Insert(jar, Trim(Rust, pair.value.0), Trim(Rust, pair.value.1));
        }
      }
      i := i + 1;
    }
    assert values[..i] == values;
    merged := Join(Entries(jar), "; ");
  }

  // ---------------------------------------------------------------- merging is a fold

  /** The maps that parsing and merging can produce. */
  ghost predicate Canonical(jar: Jar) { Ascending(jar) && forall c :: c in jar ==> IsClean(c) }

  lemma InsertKeepsCanonical(jar: Jar, c: Cookie)
    requires Canonical(jar) && IsClean(c)
    ensures Canonical(Insert(jar, c.name, c.value))
  {
    hide IsClean, Insert, Ascending;
    InsertKeepsAscending(jar, c.name, c.value);
  }

  lemma {:induction false} PiecesKeepCanonical(jar: Jar, pieces: seq<string>)
    requires Canonical(jar) && forall p :: p in pieces ==> ';' !in p
    ensures Canonical(WithPieces(jar, pieces))
  {
    hide Canonical, Insert, PairOf;
    if pieces != [] {
      var init, last := pieces[..|pieces| - 1], pieces[|pieces| - 1];
      PiecesKeepCanonical(jar, init);
      if PairOf(last).Some? {
        PairIsClean(last);
        InsertKeepsCanonical(WithPieces(jar, init), PairOf(last).value);
      }
    }
  }

  lemma {:induction false} SetCookiesKeepCanonical(jar: Jar, values: seq<Option<string>>)
    requires Canonical(jar)
    ensures Canonical(WithSetCookies(jar, values))
  {
    hide Canonical, Insert, PairOf, Split;
    if values != [] {
      var init, last := values[..|values| - 1], values[|values| - 1];
      SetCookiesKeepCanonical(jar, init);
      if SetBy(last).Some? {
        PairIsClean(Split(last.value, ';')[0]);
        InsertKeepsCanonical(WithSetCookies(jar, init), SetBy(last).value);
      }
    }
  }

  lemma ParsedIsCanonical(header: string)
    ensures Canonical(Parsed(header))
  {
    PiecesKeepCanonical([], Split(header, ';'));
  }

  lemma EntryIsTrimmed(c: Cookie)
    requires IsClean(c)
    ensures Trimmed(Rust, Entry(c)) && Entry(c) != "" && ';' !in Entry(c)
  {
    assert !IsSpace(Rust, '=');
    var t := Entry(c);
    hide IsSpace;
    assert t[|c.name|] == '=';
    assert t[0] == if c.name == "" then '=' else c.name[0];
    assert t[|t| - 1] == if c.value == "" then '=' else c.value[|c.value| - 1];
  }

  /** A printed cookie, with or without the space that separates it, parses to itself. */
  lemma EntryParses(c: Cookie)
    requires IsClean(c)
    ensures PairOf(Entry(c)) == Some(c) && PairOf(" " + Entry(c)) == Some(c)
  {
    EntryIsTrimmed(c);
    TrimLeadingSpace(Rust, Entry(c));
    SplitOnceAt(c.name, '=', c.value);
    assert c.name + ['='] + c.value == Entry(c);
    hide IsSpace, Trimmed, SplitOnce;
  }

  /** The pieces of a printed header: each cookie's text, a space before all but the first. */
  function PiecesOf(jar: Jar): (pieces: seq<string>)
    requires jar != []
    ensures |pieces| == |jar|
    ensures forall i :: 0 <= i < |jar| ==> pieces[i] == if i == 0 then Entry(jar[0]) else " " + Entry(jar[i])
  {
    seq(|jar|, i requires 0 <= i < |jar| => if i == 0 then Entry(jar[0]) else " " + Entry(jar[i]))
  }

  lemma PrintedCons(jar: Jar)
    requires |jar| > 1
    ensures Printed(jar) == Entry(jar[0]) + [';'] + (" " + Printed(jar[1..]))
  {
    hide Entry;
    assert Entries(jar)[1..] == Entries(jar[1..]);
    assert "; " == [';'] + " ";
  }

  lemma {:induction false} PrintedSplits(jar: Jar)
    requires jar != [] && forall c :: c in jar ==> IsClean(c)
    ensures Split(Printed(jar), ';') == PiecesOf(jar)
  {
    EntryIsTrimmed(jar[0]);
    hide IsClean, Trimmed, Entry, Split, Join;
    var head := Entry(jar[0]);
    if |jar| == 1 {
      SplitWhole(head, ';');
      assert Printed(jar) == head by {
        PrintedOne(jar);
      }
    } else {
      var rest := jar[1..];
      PrintedSplits(rest);
      PrintedCons(jar);
      PiecesCons(jar);
      hide Printed, PiecesOf;
      SplitFirst(head, ';', " " + Printed(rest));
      SplitAfterSpace(Printed(rest));
    }
  }

  lemma PiecesCons(jar: Jar)
    requires |jar| > 1
    ensures var rest := PiecesOf(jar[1..]); PiecesOf(jar) == [Entry(jar[0])] + ([" " + rest[0]] + rest[1..])
  {
    hide Entry;
  }

  lemma PrintedOne(jar: Jar)
    requires |jar| == 1
    ensures Printed(jar) == Entry(jar[0])
  {
  }

  lemma SplitAfterSpace(s: string)
    ensures Split(" " + s, ';') == [" " + Split(s, ';')[0]] + Split(s, ';')[1..]
  {
    assert (" " + s)[1..] == s;
  }

  ghost predicate Spells(pieces: seq<string>, jar: Jar) {
    && |pieces| == |jar|
    && forall i :: 0 <= i < |jar| ==> pieces[i] == Entry(jar[i]) || pieces[i] == " " + Entry(jar[i])
  }

  lemma {:induction false} PiecesRebuild(pieces: seq<string>, jar: Jar)
    requires Canonical(jar) && Spells(pieces, jar)
    ensures WithPieces([], pieces) == jar
  {
    hide IsClean, Entry, Before, WithPiece;
    if jar != [] {
      var k := |jar| - 1;
      PiecesRebuild(pieces[..k], jar[..k]);
      assert jar[k] in jar;
      RebuildStep(jar[..k], pieces, jar[k]);
    }
  }

  lemma RebuildStep(jar: Jar, pieces: seq<string>, c: Cookie)
    requires pieces != [] && WithPieces([], pieces[..|pieces| - 1]) == jar && IsClean(c)
    requires Ascending(jar) && forall d :: d in jar ==> Before(d.name, c.name)
    requires pieces[|pieces| - 1] == Entry(c) || pieces[|pieces| - 1] == " " + Entry(c)
    ensures WithPieces([], pieces) == jar + [c]
  {
    hide Ascending, IsClean, PairOf, Entry, Insert, Before;
    EntryParses(c);
    InsertLast(jar, c.name, c.value);
  }

  /** Parsing what was printed gives the same map. */
  lemma PrintedParsesBack(jar: Jar)
    requires Canonical(jar)
    ensures Parsed(Printed(jar)) == jar
  {
    if jar == [] {
      assert Printed(jar) == "" && Split("", ';') == [""];
      NothingToParse();
    } else {
      PrintedSplits(jar);
      PiecesRebuild(PiecesOf(jar), jar);
    }
  }

  lemma NothingToParse()
    ensures WithPieces([], [""]) == []
  {
    assert [""][..0] == [];
    assert Trim(Rust, "") == "";
  }

  lemma {:induction false} SetCookiesConcatenate(jar: Jar, xs: seq<Option<string>>, ys: seq<Option<string>>)
    ensures WithSetCookies(WithSetCookies(jar, xs), ys) == WithSetCookies(jar, xs + ys)
  {
    hide WithSetCookie;
    if ys == [] {
      assert xs + ys == xs;
    } else {
      SetCookiesConcatenate(jar, xs, ys[..|ys| - 1]);
      assert (xs + ys)[..|xs + ys| - 1] == xs + ys[..|ys| - 1];
    }
  }

  /** Merging two responses one after the other is merging all their values at once. */
  lemma MergeIsAFold(header: string, xs: seq<Option<string>>, ys: seq<Option<string>>)
    ensures Merged(Merged(header, xs), ys) == Merged(header, xs + ys)
  {
    hide Canonical, Printed, Parsed, WithSetCookies;
    ParsedIsCanonical(header);
    SetCookiesKeepCanonical(Parsed(header), xs);
    PrintedParsesBack(WithSetCookies(Parsed(header), xs));
    SetCookiesConcatenate(Parsed(header), xs, ys);
  }

  // ---------------------------------------------------------------- the last value wins

  lemma {:induction false} UnmentionedNamesStay(jar: Jar, values: seq<Option<string>>, name: string)
    requires Canonical(jar)
    requires forall i | 0 <= i < |values| && SetBy(values[i]).Some? :: SetBy(values[i]).value.name != name
    ensures Lookup(WithSetCookies(jar, values), name) == Lookup(jar, name)
  {
    hide SetBy, Insert;
    if values != [] {
      var init, last := values[..|values| - 1], values[|values| - 1];
      UnmentionedNamesStay(jar, init, name);
      SetCookiesKeepCanonical(jar, init);
      if SetBy(last).Some? {
        LookupAfterInsert(WithSetCookies(jar, init), SetBy(last).value.name, SetBy(last).value.value, name);
      }
    }
  }

  /** The last Set-Cookie value that names a cookie decides its value. */
  lemma LastSetCookieWins(jar: Jar, values: seq<Option<string>>, k: nat)
    requires Canonical(jar) && k < |values| && SetBy(values[k]).Some?
    requires forall i | k < i < |values| && SetBy(values[i]).Some? :: SetBy(values[i]).value.name != SetBy(values[k]).value.name
    ensures Lookup(WithSetCookies(jar, values), SetBy(values[k]).value.name) == Some(SetBy(values[k]).value.value)
  {
    hide SetBy, Insert, Canonical, Lookup;
    var before := WithSetCookies(jar, values[..k]);
    var c := SetBy(values[k]).value;
    assert values == values[..k + 1] + values[k + 1..] && values[..k + 1][..k] == values[..k];
    SetCookiesConcatenate(jar, values[..k + 1], values[k + 1..]);
    SetCookiesKeepCanonical(jar, values[..k]);
    SetCookiesKeepCanonical(jar, values[..k + 1]);
    CanonicalAscends(before);
    LookupAfterInsert(before, c.name, c.value, c.name);
    UnmentionedNamesStay(WithSetCookies(jar, values[..k + 1]), values[k + 1..], c.name);
  }

  lemma CanonicalAscends(jar: Jar)
    requires Canonical(jar)
    ensures Ascending(jar)
  {
  }

  // ---------------------------------------------------------------- section 5.2 of RFC 6265

  predicate IsWsp(c: char) { c == ' ' || c == '\t' }

  function StripStart(s: string): string { if s != "" && IsWsp(s[0]) then StripStart(s[1..]) else s }

  function StripEnd(s: string): string { if s != "" && IsWsp(s[|s| - 1]) then StripEnd(s[..|s| - 1]) else s }

  /** What the RFC makes of a Set-Cookie value: the text before the first semicolon, split at its
      first equals sign, blanks around both halves removed; no sign or no name means no cookie. */
  function NamedByRfc(raw: string): Option<Cookie> {
    match SplitOnce(Split(raw, ';')[0], '=')
    case None => None
    case Some((name, value)) =>
      var c := Cookie(StripEnd(StripStart(name)), StripEnd(StripStart(value)));
      if c.name == "" then None else Some(c)
  }

  /** The characters a header value may have to be read as text: tab and visible ASCII. */
  ghost predicate IsHeaderText(s: string) { forall i :: 0 <= i < |s| ==> s[i] == '\t' || ' ' <= s[i] <= '~' }

  lemma CharsOfHeaderText(s: string, t: string)
    requires IsHeaderText(s) && forall c :: c in t ==> c in s
    ensures IsHeaderText(t)
  {
    assert forall i :: 0 <= i < |t| ==> t[i] in s;
  }

  lemma HalvesOfHeaderText(a: string, sep: char, b: string)
    requires IsHeaderText(a + [sep] + b)
    ensures IsHeaderText(a) && IsHeaderText(b)
  {
    var s := a + [sep] + b;
    assert forall i :: 0 <= i < |a| ==> s[i] == a[i];
    assert forall i :: 0 <= i < |b| ==> s[|a| + 1 + i] == b[i];
  }

  lemma {:induction false} StripStartIsTrimStart(s: string)
    requires IsHeaderText(s)
    ensures StripStart(s) == TrimStart(Rust, s)
  {
    if s != "" {
      StripStartIsTrimStart(s[1..]);
    }
  }

  lemma {:induction false} StripEndIsTrimEnd(s: string)
    requires IsHeaderText(s)
    ensures StripEnd(s) == TrimEnd(Rust, s)
  {
    if s != "" {
      StripEndIsTrimEnd(s[..|s| - 1]);
    }
  }

  lemma StripIsTrim(s: string)
    requires IsHeaderText(s)
    ensures StripEnd(StripStart(s)) == Trim(Rust, s)
  {
    StripStartIsTrimStart(s);
    StripEndIsTrimEnd(TrimStart(Rust, s));
  }

  /** Trimming the whole pair first changes neither half once both are trimmed. */
  lemma TrimmedPairSplitsAlike(pair: string)
    ensures PairOf(pair) ==
      match SplitOnce(pair, '=')
      case None => None
      case Some((name, value)) => Some(Cookie(Trim(Rust, name), Trim(Rust, value)))
  {
    assert !IsSpace(Rust, '=');
    hide IsSpace;
    match SplitOnce(pair, '=')
    case None =>
      TrimLeavesOut(Rust, pair, '=');
    case Some((name, value)) =>
      TrimStartBefore(Rust, name, '=', value);
      TrimEndAfter(Rust, TrimStart(Rust, name), '=', value);
      TrimStartKeepsOut(Rust, name, '=');
      SplitOnceAt(TrimStart(Rust, name), '=', TrimEnd(Rust, value));
      TrimIgnoresTheEnd(Rust, value);
  }

  /** A readable Set-Cookie value sets what the RFC says it sets. */
  lemma SetCookieFollowsTheRfc(raw: string)
    requires IsHeaderText(raw)
    ensures SetBy(Some(raw)) == NamedByRfc(raw)
  {
    var pair := Split(raw, ';')[0];
    TrimmedPairSplitsAlike(pair);
    CharsOfHeaderText(raw, pair);
    hide Trim, Split, PairOf, StripStart, StripEnd, IsHeaderText;
    match SplitOnce(pair, '=')
    case None =>
    case Some((name, value)) =>
      HalvesOfHeaderText(name, '=', value);
      StripIsTrim(name);
      StripIsTrim(value);
  }

  // ---------------------------------------------------------------- the federation URL

  predicate IsFederationUrl(value: string) {
    || "http://logout.afterbuy.de/Federation/Index" <= value
    || "https://logout.afterbuy.de/Federation/Index" <= value
  }

  ghost predicate BeginsWith(value: string, prefix: string) { exists rest: string :: value == prefix + rest }

  lemma PrefixExactly(prefix: string, value: string)
    ensures prefix <= value <==> BeginsWith(value, prefix)
  {
    if prefix <= value {
      assert value == prefix + value[|prefix|..];
    }
  }

  /** Both schemes lead there, whatever follows, and nothing else does. */
  lemma FederationUrlsExactly(value: string)
    ensures IsFederationUrl(value) <==>
      || BeginsWith(value, "http://logout.afterbuy.de/Federation/Index")
      || BeginsWith(value, "https://logout.afterbuy.de/Federation/Index")
  {
    hide BeginsWith;
    PrefixExactly("http://logout.afterbuy.de/Federation/Index", value);
    PrefixExactly("https://logout.afterbuy.de/Federation/Index", value);
  }

  /** A non-empty piece without '=' ends the search empty-handed. */
  function FoundIn(pieces: seq<string>): Option<string> {
    if pieces == [] then None
    else
      var piece := Trim(Rust, pieces[0]);
      if piece == "" then FoundIn(pieces[1..])
      else
        match SplitOnce(piece, '=')
        case None => None
        case Some((_, value)) =>
          if IsFederationUrl(Trim(Rust, value)) then Some(Trim(Rust, value)) else FoundIn(pieces[1..])
  }

  method ExtractPendingFederationUrl(header: string) returns (url: Option<string>)
    ensures url == FoundIn(Split(header, ';'))
  {
    var pieces := Split(header, ';');
    hide Split, Trim, SplitOnce, IsFederationUrl;
    var i := 0;
    while i < |pieces|
      invariant 0 <= i <= |pieces|
      invariant FoundIn(pieces[i..]) == FoundIn(pieces)
    {
      assert pieces[i..][1..] == pieces[i + 1..];
      var piece := Trim(Rust, pieces[i]);
      if piece != "" {
        var pair := SplitOnce(piece, '=');
        if pair.None? {
          return None;
        }
        var value := Trim(Rust, pair.value.1);
        if IsFederationUrl(value) {
          return Some(value);
        }
      }
      i := i + 1;
    }
    url := None;
  }

  predicate StopsSearch(piece: string) { Trim(Rust, piece) != "" && PairOf(piece).None? }

  predicate HasFederationUrl(piece: string) { PairOf(piece).Some? && IsFederationUrl(PairOf(piece).value.value) }

  ghost predicate Reaches(pieces: seq<string>, k: nat) {
    k < |pieces| && HasFederationUrl(pieces[k]) && forall j :: 0 <= j < k ==> !StopsSearch(pieces[j])
  }

  lemma ReachesCons(pieces: seq<string>, k: nat)
    requires 0 < |pieces|
    ensures Reaches(pieces, k) <==>
      if k == 0 then HasFederationUrl(pieces[0]) else !StopsSearch(pieces[0]) && Reaches(pieces[1..], k - 1)
  {
    hide HasFederationUrl, StopsSearch;
    if k > 0 && !StopsSearch(pieces[0]) && Reaches(pieces[1..], k - 1) {
      forall j | 0 <= j < k ensures !StopsSearch(pieces[j]) {
        assert j > 0 ==> pieces[j] == pieces[1..][j - 1];
      }
    }
    if k > 0 && Reaches(pieces, k) {
      assert forall j :: 0 <= j < k - 1 ==> pieces[1..][j] == pieces[j + 1];
    }
  }

  /** On any header the search succeeds exactly when a matching value comes before every piece
      that is neither blank nor a pair. */
  lemma {:induction false} SearchSucceedsExactly(pieces: seq<string>)
    ensures FoundIn(pieces).Some? <==> exists k: nat :: Reaches(pieces, k)
  {
    if pieces != [] {
      SearchSucceedsExactly(pieces[1..]);
      SearchStep(pieces);
      hide *;
      if HasFederationUrl(pieces[0]) {
        ReachesCons(pieces, 0);
      } else if FoundIn(pieces[1..]).Some? {
        var k: nat :| Reaches(pieces[1..], k);
        ReachesCons(pieces, k + 1);
      }
      forall k: nat | Reaches(pieces, k)
        ensures FoundIn(pieces).Some?
      {
        ReachesCons(pieces, k);
      }
    }
  }

  lemma SearchStep(pieces: seq<string>)
    requires pieces != []
    ensures FoundIn(pieces).Some?
      <==> HasFederationUrl(pieces[0]) || (!StopsSearch(pieces[0]) && FoundIn(pieces[1..]).Some?)
  {
    hide IsFederationUrl, Trim;
  }

  /** In a printed header every piece is a pair, so a matching value is always found. */
  lemma MergedHeaderNeverStopsTheSearch(jar: Jar)
    requires Canonical(jar)
    ensures FoundIn(Split(Printed(jar), ';')).Some? <==> exists c :: c in jar && IsFederationUrl(c.value)
  {
    if jar == [] {
      NothingToFind();
    } else {
      PrintedSplits(jar);
      PrintedPieces(jar);
      hide *;
      SearchSucceedsExactly(PiecesOf(jar));
      PairsNeverStop(PiecesOf(jar), jar);
    }
  }

  lemma PairsNeverStop(pieces: seq<string>, jar: Jar)
    requires |pieces| == |jar| && forall i :: 0 <= i < |jar| ==> PairOf(pieces[i]) == Some(jar[i])
    ensures (exists k: nat :: Reaches(pieces, k)) <==> exists c :: c in jar && IsFederationUrl(c.value)
  {
    hide PairOf, IsFederationUrl;
    forall k: nat | Reaches(pieces, k)
      ensures jar[k] in jar && IsFederationUrl(jar[k].value)
    {
    }
    forall c | c in jar && IsFederationUrl(c.value)
      ensures exists k: nat :: Reaches(pieces, k)
    {
      var k: nat :| k < |jar| && jar[k] == c;
      assert Reaches(pieces, k);
    }
  }

  lemma NothingToFind()
    ensures FoundIn(Split(Printed([]), ';')).None?
  {
    assert Trim(Rust, "") == "";
    assert FoundIn([""]) == FoundIn([""][1..]);
  }

  lemma PrintedPieces(jar: Jar)
    requires Canonical(jar) && jar != []
    ensures forall i :: 0 <= i < |jar| ==> PairOf(PiecesOf(jar)[i]) == Some(jar[i])
  {
    hide PairOf, IsClean, Entry, Ascending;
    forall i | 0 <= i < |jar|
      ensures PairOf(PiecesOf(jar)[i]) == Some(jar[i])
    {
      assert jar[i] in jar;
      EntryParses(jar[i]);
    }
  }

  /** The header that merging returns is one of those. */
  lemma MergedUrlIsFound(header: string, values: seq<Option<string>>)
    ensures FoundIn(Split(Merged(header, values), ';')).Some?
      <==> exists c :: c in WithSetCookies(Parsed(header), values) && IsFederationUrl(c.value)
  {
    hide Canonical, FoundIn, Printed, IsFederationUrl, Parsed, WithSetCookies, Split;
    ParsedIsCanonical(header);
    SetCookiesKeepCanonical(Parsed(header), values);
    MergedHeaderNeverStopsTheSearch(WithSetCookies(Parsed(header), values));
  }

  // ---------------------------------------------------------------- which one is found

  function ValueOf(piece: string): Option<string> {
    match PairOf(piece)
    case None => None
    case Some(c) => Some(c.value)
  }

  /** The search returns the value of the first piece that has a matching one. */
  lemma {:induction false} FoundIsTheFirst(pieces: seq<string>, k: nat)
    requires Reaches(pieces, k) && forall j :: 0 <= j < k ==> !HasFederationUrl(pieces[j])
    ensures FoundIn(pieces) == ValueOf(pieces[k])
  {
    hide FoundIn, ValueOf, HasFederationUrl, StopsSearch;
    ReachesCons(pieces, k);
    FoundStep(pieces);
    if k > 0 {
      assert forall j :: 0 <= j < k - 1 ==> pieces[1..][j] == pieces[j + 1];
      hide Reaches;
      FoundIsTheFirst(pieces[1..], k - 1);
    }
  }

  lemma FoundStep(pieces: seq<string>)
    requires pieces != []
    ensures HasFederationUrl(pieces[0]) ==> FoundIn(pieces) == ValueOf(pieces[0])
    ensures !HasFederationUrl(pieces[0]) && !StopsSearch(pieces[0]) ==> FoundIn(pieces) == FoundIn(pieces[1..])
  {
    hide IsFederationUrl, Trim;
  }

  /** The value of the first cookie by name that leads to the federation. */
  ghost predicate FirstFederationValue(jar: Jar, url: string) {
    exists k :: 0 <= k < |jar| && jar[k].value == url && IsFederationUrl(url)
      && forall j :: 0 <= j < k ==> !IsFederationUrl(jar[j].value)
  }

  lemma FirstPiece(pieces: seq<string>, jar: Jar, k: nat)
    requires |pieces| == |jar| && (forall i :: 0 <= i < |jar| ==> PairOf(pieces[i]) == Some(jar[i]))
    requires k < |jar| && IsFederationUrl(jar[k].value) && forall j :: 0 <= j < k ==> !IsFederationUrl(jar[j].value)
    ensures FoundIn(pieces) == Some(jar[k].value)
  {
    hide PairOf, IsFederationUrl, FoundIn;
    assert Reaches(pieces, k);
    assert ValueOf(pieces[k]) == Some(jar[k].value);
    FoundIsTheFirst(pieces, k);
  }

  lemma FirstOfJar(jar: Jar, k: nat)
    requires Canonical(jar) && k < |jar| && IsFederationUrl(jar[k].value)
    requires forall j :: 0 <= j < k ==> !IsFederationUrl(jar[j].value)
    ensures FoundIn(Split(Printed(jar), ';')) == Some(jar[k].value)
  {
    assert forall c :: c in jar ==> IsClean(c);
    hide *;
    PrintedSplits(jar);
    PrintedPieces(jar);
    FirstPiece(PiecesOf(jar), jar, k);
  }

  lemma {:induction false} FirstMatch(jar: Jar, from: nat) returns (k: nat)
    requires exists i :: from <= i < |jar| && IsFederationUrl(jar[i].value)
    requires forall j :: 0 <= j < from ==> !IsFederationUrl(jar[j].value)
    ensures k < |jar| && IsFederationUrl(jar[k].value) && forall j :: 0 <= j < k ==> !IsFederationUrl(jar[j].value)
    decreases |jar| - from
  {
    hide IsFederationUrl;
    k := from;
    if !IsFederationUrl(jar[from].value) {
      k := FirstMatch(jar, from + 1);
    }
  }

  /** On a merged header the search returns the first such value, if there is one. */
  lemma MergedUrlIsTheFirst(header: string, values: seq<Option<string>>)
    requires FoundIn(Split(Merged(header, values), ';')).Some?
    ensures FirstFederationValue(WithSetCookies(Parsed(header), values), FoundIn(Split(Merged(header, values), ';')).value)
  {
    var jar := WithSetCookies(Parsed(header), values);
    assert Merged(header, values) == Printed(jar);
    hide *;
    MergedUrlIsFound(header, values);
    var k := FirstInJar(jar);
    ParsedIsCanonical(header);
    SetCookiesKeepCanonical(Parsed(header), values);
    FirstOfJar(jar, k);
    IsTheFirst(jar, k);
  }

  lemma FirstInJar(jar: Jar) returns (k: nat)
    requires exists c :: c in jar && IsFederationUrl(c.value)
    ensures k < |jar| && IsFederationUrl(jar[k].value) && forall j :: 0 <= j < k ==> !IsFederationUrl(jar[j].value)
  {
    hide IsFederationUrl;
    var c :| c in jar && IsFederationUrl(c.value);
    var i :| 0 <= i < |jar| && jar[i] == c;
    k := FirstMatch(jar, 0);
  }

  lemma IsTheFirst(jar: Jar, k: nat)
    requires k < |jar| && IsFederationUrl(jar[k].value) && forall j :: 0 <= j < k ==> !IsFederationUrl(jar[j].value)
    ensures FirstFederationValue(jar, jar[k].value)
  {
    hide IsFederationUrl;
  }
}
