/** Which images are wanted, and the extension a file gets. */
module ImageNames {
  import opened Wrappers
  import opened Text
  import opened ImageFiles

  // ---------------------------------------------------------------- what is wanted

  /** A pair is wanted exactly when some entry gives its trimmed kid, which is not blank, and its
      image, which is named and in the archive. */
  lemma WantedPairsExactly(entries: seq<Entry>, archive: map<string, string>, p: Pair)
    ensures p in WantedPairs(entries, archive) <==>
      && p.kid != "" && p.image != "" && p.image in archive
      && exists i :: 0 <= i < |entries| && Trim(Python, entries[i].kid) == p.kid && entries[i].photo == p.image
  {
    hide Trim;
    if exists i :: 0 <= i < |entries| && Trim(Python, entries[i].kid) == p.kid && entries[i].photo == p.image {
      var i :| 0 <= i < |entries| && Trim(Python, entries[i].kid) == p.kid && entries[i].photo == p.image;
      assert PairOf(entries[i]) == p;
    }
  }

  /** An entry without a wanted image ends without a photo; every other one with its pair's file. */
  lemma PlacedExactly(e: Entry, archive: map<string, string>, pairs: map<Pair, string>, name: string)
    requires Trim(Python, e.kid) != "" && e.photo != "" && e.photo in archive ==> Pair(Trim(Python, e.kid), e.photo) in pairs
    ensures Placed(e, archive, pairs, name) ==
      if Trim(Python, e.kid) == "" || e.photo == "" || e.photo !in archive then e.(photo := "")
      else e.(photo := name + "/" + pairs[Pair(Trim(Python, e.kid), e.photo)])
  {
    hide Trim;
  }

  // ---------------------------------------------------------------- extensions

  lemma LastDotSnoc(s: string, c: char)
    ensures LastDot(s + [c]) == if c == '.' then |s| else LastDot(s)
  {
    assert (s + [c])[..|s|] == s;
  }

  lemma {:induction false} LastDotAt(stem: string, rest: string)
    requires '.' !in rest
    ensures LastDot(stem + "." + rest) == |stem|
    decreases |rest|
  {
    hide LastDot;
    if rest == "" {
      LastDotSnoc(stem, '.');
      assert stem + "." + rest == stem + ['.'];
    } else {
      var init, last := rest[..|rest| - 1], rest[|rest| - 1];
      LastDotAt(stem, init);
      LastDotSnoc(stem + "." + init, last);
      assert rest == init + [last];
      assert stem + "." + rest == (stem + "." + init) + [last];
    }
  }

  lemma {:induction false} NoDot(s: string)
    requires '.' !in s
    ensures LastDot(s) == -1
  {
    if s != "" {
      NoDot(s[..|s| - 1]);
    }
  }

  lemma LastPart(dir: string, name: string)
    requires '/' !in name
    ensures var parts := Split(dir + "/" + name, '/'); parts[|parts| - 1] == name
    ensures Split(name, '/') == [name]
  {
    SplitConcat(dir, '/', name);
    SplitWhole(name, '/');
    assert dir + ['/'] + name == dir + "/" + name;
  }

  /** A path that ends in this name, below a directory or not. */
  predicate EndsInName(path: string, name: string) {
    '/' !in name && (path == name || exists k :: 0 <= k <= |path| && path == path[..k] + "/" + name)
  }

  lemma SuffixOfName(path: string, name: string)
    requires EndsInName(path, name)
    ensures Suffix(path) == if 0 < LastDot(name) < |name| - 1 then name[LastDot(name)..] else ""
  {
    hide Split, LastDot;
    if path == name {
      LastPart("", name);
    } else {
      var k :| 0 <= k <= |path| && path == path[..k] + "/" + name;
      LastPart(path[..k], name);
    }
  }

  /** A file keeps the letters behind the last dot of its name, in lower case. */
  lemma ExtensionIsWhatFollowsTheLastDot(path: string, stem: string, ext: string)
    requires EndsInName(path, stem + "." + ext) && stem != "" && ext != "" && '.' !in ext
    ensures Extension(path) == "." + ToLower(ext)
  {
    var name := stem + "." + ext;
    LastDotAt(stem, ext);
    hide LastDot, Suffix, EndsInName;
    SuffixOfName(path, name);
    assert name[|stem|..] == "." + ext;
    LowerOfSuffix(ext);
  }

  lemma LowerOfSuffix(ext: string)
    ensures ToLower("." + ext) == "." + ToLower(ext)
  {
  }

  /** Without such a dot it is a png: no dot at all, one at the start only, or one at the end. */
  lemma OtherwisePng(path: string, name: string)
    requires EndsInName(path, name)
    requires '.' !in name || (name[0] == '.' && '.' !in name[1..]) || name[|name| - 1] == '.'
    ensures Extension(path) == ".png"
  {
    SuffixOfName(path, name);
    if '.' !in name {
      NoDot(name);
    } else if name[|name| - 1] == '.' {
      assert name == name[..|name| - 1] + "." + "";
      LastDotAt(name[..|name| - 1], "");
    } else {
      assert name == "" + "." + name[1..];
      LastDotAt("", name[1..]);
    }
  }
}
