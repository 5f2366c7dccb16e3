/** Extracting the images of spreadsheet entries into files of their own. */
module ImageFiles {
  import opened Wrappers
  import opened Text

  datatype Entry = Entry(kid: string, photo: string)

  /** An image of one kid: the trimmed kid and the path inside the archive. */
  datatype Pair = Pair(kid: string, image: string)

  // ---------------------------------------------------------------- names

  /** Index of the last dot, or -1. */
  function LastDot(name: string): (i: int)
    ensures -1 <= i < |name| && (i >= 0 ==> name[i] == '.')
  {
    if name == "" then -1 else if name[|name| - 1] == '.' then |name| - 1 else LastDot(name[..|name| - 1])
  }

  /** The suffix of the last path component, dot included; none for a leading or trailing dot. */
  function Suffix(path: string): string {
    var parts := Split(path, '/');
    var name := parts[|parts| - 1];
    var dot := LastDot(name);
    if 0 < dot < |name| - 1 then name[dot..] else ""
  }

  function Extension(path: string): string { if Suffix(path) == "" then ".png" else ToLower(Suffix(path)) }

  function FileName(kid: string, index: nat, extension: string): string {
    kid + (if index == 1 then "" else "_" + Decimal(index)) + extension
  }

  lemma FileNamesDiffer(kid: string, i: nat, j: nat, extension: string)
    requires i != j
    ensures FileName(kid, i, extension) != FileName(kid, j, extension)
  {
    var a, b := FileName(kid, i, extension), FileName(kid, j, extension);
    if a == b {
      assert a[|kid|..|a| - |extension|] == if i == 1 then "" else "_" + Decimal(i);
      assert b[|kid|..|b| - |extension|] == if j == 1 then "" else "_" + Decimal(j);
      assert i != 1 && j != 1;
      assert ("_" + Decimal(i))[1..] == Decimal(i) && ("_" + Decimal(j))[1..] == Decimal(j);
      DecimalInjective(i, j);
    }
  }

  lemma Larger(small: set<string>, big: set<string>, extra: string)
    requires small <= big && extra in big && extra !in small
    ensures |small| < |big|
  {
    assert small + (big - small) == big && extra in big - small;
  }

  /** Counts up to the first free name; only finitely many are taken, so it ends. */
  method FreshIndex(kid: string, start: nat, extension: string, taken: set<string>) returns (index: nat)
    ensures index >= start && FileName(kid, index, extension) !in taken
    ensures forall i | start <= i < index :: FileName(kid, i, extension) in taken
  {
    index := start;
    ghost var tried: set<string> := {};
    while FileName(kid, index, extension) in taken
      invariant index >= start && tried <= taken
      invariant forall i | start <= i < index :: FileName(kid, i, extension) in tried
      invariant forall n | n in tried :: exists i | start <= i < index :: n == FileName(kid, i, extension)
      decreases |taken| - |tried|
    {
      hide FileName;
      ghost var name := FileName(kid, index, extension);
      forall i | start <= i < index ensures FileName(kid, i, extension) != name {
        FileNamesDiffer(kid, i, index, extension);
      }
      Larger(tried, taken, name);
      tried := tried + {name};
      index := index + 1;
    }
  }

  // ---------------------------------------------------------------- extraction

  /** Entries whose kid and image are given and whose image is in the archive. */
  predicate IsWanted(e: Entry, archive: map<string, string>) {
    Trim(Python, e.kid) != "" && e.photo != "" && e.photo in archive
  }

  function PairOf(e: Entry): Pair { Pair(Trim(Python, e.kid), e.photo) }

  /** The pairs that a list of entries asks for. */
  function WantedPairs(entries: seq<Entry>, archive: map<string, string>): set<Pair> {
    set i | 0 <= i < |entries| && IsWanted(entries[i], archive) :: PairOf(entries[i])
  }

  function FilesOf(pairs: map<Pair, string>): set<string> { set p | p in pairs :: pairs[p] }

  ghost predicate OwnImages(files: map<string, string>, pairs: map<Pair, string>, archive: map<string, string>) {
    forall p | p in pairs :: p.image in archive && pairs[p] in files && files[pairs[p]] == archive[p.image]
  }

  ghost predicate NoSharedFile(pairs: map<Pair, string>) {
    forall p, q | p in pairs && q in pairs && p != q :: pairs[p] != pairs[q]
  }

  /** Every pair has one file with its own image, no two pairs share one, no file is left over,
      and none stands where a directory is. */
  ghost predicate OneFileEach(files: map<string, string>, pairs: map<Pair, string>, directories: set<string>,
                              archive: map<string, string>) {
    && OwnImages(files, pairs, archive) && NoSharedFile(pairs)
    && files.Keys == FilesOf(pairs) && files.Keys !! directories
  }

  lemma OwnImagesOneMore(files: map<string, string>, pairs: map<Pair, string>, archive: map<string, string>,
                         pair: Pair, file: string)
    requires OwnImages(files, pairs, archive) && pair !in pairs && pair.image in archive && file !in files
    ensures OwnImages(files[file := archive[pair.image]], pairs[pair := file], archive)
  {
  }

  lemma NoSharedFileOneMore(pairs: map<Pair, string>, pair: Pair, file: string)
    requires NoSharedFile(pairs) && pair !in pairs && file !in FilesOf(pairs)
    ensures NoSharedFile(pairs[pair := file])
  {
  }

  lemma OneMoreFile(files: map<string, string>, pairs: map<Pair, string>, directories: set<string>,
                    archive: map<string, string>, pair: Pair, file: string)
    requires OneFileEach(files, pairs, directories, archive)
    requires pair !in pairs && pair.image in archive && file !in files && file !in directories
    ensures OneFileEach(files[file := archive[pair.image]], pairs[pair := file], directories, archive)
  {
    OwnImagesOneMore(files, pairs, archive, pair, file);
    NoSharedFileOneMore(pairs, pair, file);
    FilesOfOneMore(pairs, pair, file);
    hide FilesOf, OwnImages, NoSharedFile;
    assert files[file := archive[pair.image]].Keys == files.Keys + {file};
  }

  lemma OneMorePair(pairs: map<Pair, string>, pair: Pair, file: string)
    requires pair !in pairs
    ensures |pairs[pair := file]| == |pairs| + 1 && pairs[pair := file].Keys == pairs.Keys + {pair}
  {
    assert pairs[pair := file].Keys == pairs.Keys + {pair};
  }

  lemma FilesOfOneMore(pairs: map<Pair, string>, pair: Pair, file: string)
    requires pair !in pairs
    ensures FilesOf(pairs[pair := file]) == FilesOf(pairs) + {file}
  {
    var more := pairs[pair := file];
    assert more[pair] == file;
    assert forall p | p in pairs :: more[p] == pairs[p];
  }

  /** The output directory during one extraction: its files, the subdirectories that clearing it
      leaves, and which file belongs to which pair. */
  class ImageDirectory {
    const name: string
    const directories: set<string>
    var files: map<string, string>
    var pairs: map<Pair, string>
    var counters: map<string, nat>
    var created: nat

    constructor (name: string, directories: set<string>)
      ensures this.name == name && this.directories == directories
      ensures files == map[] && pairs == map[] && created == 0
    {
      this.name, this.directories := name, directories;
      files, pairs, counters, created := map[], map[], map[], 0;
    }

    ghost predicate Sound(archive: map<string, string>)
      reads this
    {
      OneFileEach(files, pairs, directories, archive) && created == |pairs|
    }

    function RelativePath(file: string): string { name + "/" + file }

    /** Writes a file that was not there. */
    method WriteNew(file: string, content: string)
      requires file !in files && file !in directories
      modifies this`files
      ensures files == old(files)[file := content]
    {
      files := files[file := content];
    }

    method ExtractOne(e: Entry, archive: map<string, string>) returns (after: Entry)
      requires Sound(archive)
      modifies this
      ensures Sound(archive)
      ensures forall n | n in old(files) :: n in files && files[n] == old(files)[n]
      ensures forall p | p in old(pairs) :: p in pairs && pairs[p] == old(pairs)[p]
      ensures pairs.Keys == old(pairs.Keys) + if IsWanted(e, archive) then {PairOf(e)} else {}
      ensures after == Placed(e, archive, pairs, name)
      ensures IsWanted(e, archive) && PairOf(e) !in old(pairs) ==>
        var kid := PairOf(e).kid;
        && kid in counters && counters[kid] > (if kid in old(counters) then old(counters)[kid] else 0)
        && pairs[PairOf(e)] == FileName(kid, counters[kid], Extension(e.photo))
    {
      hide FileName, Extension, Trim, OneFileEach;
      var kid := Trim(Python, e.kid);
      if kid == "" || e.photo == "" || e.photo !in archive {
        return e.(photo := "");
      }
      var pair := Pair(kid, e.photo);
      if pair in pairs {
        return e.(photo := RelativePath(pairs[pair]));
      }
      var extension := Extension(e.photo);
      var start := (if kid in counters then counters[kid] else 0) + 1;
      var index := FreshIndex(kid, start, extension, files.Keys + directories);
      counters := counters[kid := index];
      var file := FileName(kid, index, extension);
      OneMoreFile(files, pairs, directories, archive, pair, file);
      OneMorePair(pairs, pair, file);
      WriteNew(file, archive[e.photo]);
      pairs := pairs[pair := file];
      created := created + 1;
      after := e.(photo := RelativePath(file));
    }

    /** All entries in order; each afterwards names its own pair's file, or nothing. */
    method ExtractUsedImages(entries: array<Entry>, archive: map<string, string>)
      requires files == map[] && pairs == map[] && created == 0
      modifies this, entries
      ensures Sound(archive) && pairs.Keys == WantedPairs(old(entries[..]), archive)
      ensures PlacedUpTo(entries[..], old(entries[..]), entries.Length, archive, pairs, name)
    {
      assert Sound(archive);
      hide OneFileEach, IsWanted, PairOf, PlacedUpTo;
      ghost var all := entries[..];
      NothingPlaced(all, archive, pairs, name);
      var k := 0;
      while k < entries.Length
        invariant 0 <= k <= entries.Length
        invariant Sound(archive)
        invariant pairs.Keys == WantedPairs(all[..k], archive)
        invariant PlacedUpTo(entries[..], all, k, archive, pairs, name)
      {
        ghost var known, now := pairs, entries[..];
        NextIsUnplaced(now, all, k, archive, pairs, name);
        var after := ExtractOne(entries[k], archive);
        OneMoreWanted(all, archive, k);
        OneMorePlaced(now, all, k, archive, known, pairs, name, after);
        entries[k] := after;
        assert entries[..] == now[k := after];
        k := k + 1;
      }
      assert all[..k] == all;
    }
  }

  /** An entry with the photo replaced by the path of its pair's file. */
  function Placed(e: Entry, archive: map<string, string>, pairs: map<Pair, string>, name: string): Entry {
    e.(photo := if IsWanted(e, archive) && PairOf(e) in pairs then name + "/" + pairs[PairOf(e)] else "")
  }

  /** The first k entries have been placed, the others are as they were. */
  ghost predicate PlacedUpTo(now: seq<Entry>, all: seq<Entry>, k: nat, archive: map<string, string>,
                             pairs: map<Pair, string>, name: string) {
    && |now| == |all| && k <= |all|
    && (forall i | 0 <= i < k :: now[i] == Placed(all[i], archive, pairs, name))
    && forall i | k <= i < |all| :: now[i] == all[i]
  }

  lemma NothingPlaced(all: seq<Entry>, archive: map<string, string>, pairs: map<Pair, string>, name: string)
    ensures PlacedUpTo(all, all, 0, archive, pairs, name) && WantedPairs(all[..0], archive) == {}
  {
  }

  lemma NextIsUnplaced(now: seq<Entry>, all: seq<Entry>, k: nat, archive: map<string, string>,
                       pairs: map<Pair, string>, name: string)
    requires PlacedUpTo(now, all, k, archive, pairs, name) && k < |all|
    ensures now[k] == all[k]
  {
  }

  lemma OneMorePlaced(now: seq<Entry>, all: seq<Entry>, k: nat, archive: map<string, string>,
                      known: map<Pair, string>, pairs: map<Pair, string>, name: string, after: Entry)
    requires PlacedUpTo(now, all, k, archive, known, name) && k < |all|
    requires known.Keys == WantedPairs(all[..k], archive)
    requires forall p | p in known :: p in pairs && pairs[p] == known[p]
    requires after == Placed(all[k], archive, pairs, name)
    ensures PlacedUpTo(now[k := after], all, k + 1, archive, pairs, name)
  {
    hide IsWanted, PairOf, WantedPairs;
    forall i | 0 <= i < k
      ensures now[i] == Placed(all[i], archive, pairs, name)
    {
      WantedPairIsKnown(all[..k], archive, i);
    }
  }

  lemma WantedPairIsKnown(entries: seq<Entry>, archive: map<string, string>, i: nat)
    requires i < |entries|
    ensures IsWanted(entries[i], archive) ==> PairOf(entries[i]) in WantedPairs(entries, archive)
  {
    hide IsWanted, PairOf;
  }

  lemma OneMoreWanted(entries: seq<Entry>, archive: map<string, string>, k: nat)
    requires k < |entries|
    ensures WantedPairs(entries[..k + 1], archive)
      == WantedPairs(entries[..k], archive) + if IsWanted(entries[k], archive) then {PairOf(entries[k])} else {}
  {
    hide IsWanted, PairOf;
    var less, more := entries[..k], entries[..k + 1];
    assert forall i | 0 <= i < k :: less[i] == more[i];
  }

  /** After an extraction two entries name the same file exactly when they ask for the same image
      of the same kid. */
  lemma FilesIdentifyPairs(e: Entry, f: Entry, archive: map<string, string>, pairs: map<Pair, string>, name: string)
    requires NoSharedFile(pairs) && IsWanted(e, archive) && IsWanted(f, archive)
    requires PairOf(e) in pairs && PairOf(f) in pairs
    ensures Placed(e, archive, pairs, name).photo == Placed(f, archive, pairs, name).photo <==> PairOf(e) == PairOf(f)
  {
    hide IsWanted, PairOf;
    var a, b := pairs[PairOf(e)], pairs[PairOf(f)];
    assert (name + "/" + a)[|name| + 1..] == a && (name + "/" + b)[|name| + 1..] == b;
  }
}
