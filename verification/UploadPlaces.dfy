/** Where uploads of the different environments go, component by component. */
module UploadPlaces {
  import opened Wrappers
  import opened Text
  import opened UploadPaths
  import opened UploadUrls
  import opened UploadCleanup
  import opened UploadRoundTrip

  // ---------------------------------------------------------------- the environment

  /** The directory of an environment: its own for the two named ones, one for all the others. */
  predicate IsEnvName(dir: string, appEnv: string) {
    && dir in ["prod", "dev", "stage"]
    && (dir == "prod" <==> ToLower(appEnv) == "prod")
    && (dir == "dev" <==> ToLower(appEnv) == "dev")
  }

  lemma EnvDirByName(appEnv: string, dir: string)
    requires IsEnvName(dir, appEnv)
    ensures EnvDir(appEnv) == dir
  {
  }

  /** The path names a directory last that is this one, in any letter case. */
  predicate EndsWithDir(path: string, dir: string) {
    var parts := Components(path);
    parts != [] && ToLower(parts[|parts| - 1]) == dir
  }

  lemma LastSegmentIsThere(path: string)
    requires path != "" && path[|path| - 1] != '/'
    ensures LastSegment(path) != ""
  {
    if LastSegment(path) == "" {
      JoinSplit(path, '/');
      assert ['/'] == "/";
      EndsWithLast(Split(path, '/'));
    }
  }

  lemma {:induction false} EndsWithLast(parts: seq<string>)
    requires parts != [] && parts[|parts| - 1] == "" && Join(parts, "/") != ""
    ensures Join(parts, "/")[|Join(parts, "/")| - 1] == '/'
  {
    if |parts| > 1 && Join(parts[1..], "/") != "" {
      EndsWithLast(parts[1..]);
    }
  }

  lemma LastSegmentIsLastComponent(path: string)
    requires LastSegment(path) != ""
    ensures Components(path) != [] && Components(path)[|Components(path)| - 1] == LastSegment(path)
  {
    var parts := Split(path, '/');
    hide Split;
    KeptOneMore(NonEmptyPart, parts, |parts| - 1);
    assert parts[..|parts|] == parts;
  }

  /** A root has the environment exactly when its last directory is that of the environment. */
  lemma RootHasEnvExactly(root: string, appEnv: string, dir: string)
    requires IsEnvName(dir, appEnv)
    ensures RootIncludesEnv(root, appEnv) <==> EndsWithDir(root, dir)
  {
    EnvDirByName(appEnv, dir);
    var trimmed := TrimChar(root, '/');
    TrimmingKeepsClean(root);
    hide Components, EnvDir, TrimStartChar, TrimEndChar;
    if trimmed == "" {
      NothingHasNoParts();
      assert Split("", '/') == [""];
    } else {
      assert trimmed[|trimmed| - 1] != '/';
      LastSegmentIsThere(trimmed);
      LastSegmentIsLastComponent(trimmed);
    }
  }

  /** The same for the public base, whose scheme and host count as components too. */
  lemma PublicBaseHasEnvExactly(base: string, appEnv: string, dir: string)
    requires IsEnvName(dir, appEnv)
    ensures PublicBaseIncludesEnv(Some(base), appEnv) <==> EndsWithDir(Trim(Rust, base), dir)
  {
    EnvDirByName(appEnv, dir);
    var trimmed := TrimEndChar(Trim(Rust, base), '/');
    EmptyPartsAreDropped();
    PartsIgnoreTrailingSlashes(NonEmptyPart, Trim(Rust, base));
    hide EnvDir, Trim, TrimEndChar;
    if trimmed == "" {
      NothingHasNoParts();
      assert Split("", '/') == [""];
    } else {
      LastSegmentIsThere(trimmed);
      LastSegmentIsLastComponent(trimmed);
    }
    hide Split;
  }

  // ---------------------------------------------------------------- the whole path

  /** What the kind of an upload adds: avatars have a directory, "avatar" unless another is set. */
  function KindParts(kind: Kind, avatarDir: string): seq<string> {
    if kind.Product? then []
    else if Components(avatarDir) == [] then ["avatar"]
    else Components(avatarDir)
  }

  lemma SomethingIsNamed(path: string)
    requires path != "" && path[0] != '/'
    ensures Components(path) != []
  {
    assert Split(path, '/')[0] != "";
  }

  lemma LeafParts(kind: Kind, avatarDir: string)
    ensures Components(Leaf(kind, avatarDir)) == KindParts(kind, avatarDir)
  {
    var trimmed := TrimChar(avatarDir, '/');
    assert Leaf(kind, avatarDir) == if kind.Product? then "" else if trimmed == "" then "avatar" else trimmed;
    AvatarIsAFileName();
    hide Components, TrimChar, Leaf;
    TrimmingKeepsClean(avatarDir);
    NothingHasNoParts();
    if trimmed != "" {
      TrimmedStart(avatarDir);
      SomethingIsNamed(trimmed);
    }
  }

  lemma AvatarIsAFileName()
    ensures Components("avatar") == ["avatar"]
  {
    hide Components, SanitizedParts;
    FileNameIsOnePart("avatar");
  }

  lemma TrimmedStart(path: string)
    requires TrimChar(path, '/') != ""
    ensures TrimChar(path, '/')[0] != '/'
  {
  }

  /** Below a root an upload lies in the directory of its environment, unless the root ends with
      that one, then in that of its kind and in its folder, under its name. */
  lemma UploadLiesInItsEnvironment(c: Config, appEnv: string, dir: string, kind: Kind, folder: Option<string>, filename: string)
    requires IsEnvName(dir, appEnv) && IsClean(c.avatarDir) && IsFileName(filename)
    requires folder.Some? ==> IsFolder(folder.value)
    ensures WrittenRemotely(c, TargetOf(c, appEnv, kind, folder), filename) ==
      Components(c.storageRootDir)
      + ((if EndsWithDir(c.storageRootDir, dir) then [] else [dir]) + KindParts(kind, c.avatarDir) + FolderParts(folder))
      + [filename]
  {
    EnvDirByName(appEnv, dir);
    var includes := RootIncludesEnv(c.storageRootDir, appEnv);
    assert EnvParts(includes, appEnv) == if includes then [] else [dir];
    hide *;
    RootHasEnvExactly(c.storageRootDir, appEnv, dir);
    LeafParts(kind, c.avatarDir);
    TargetIs(c, appEnv, kind, folder);
    TargetParts(appEnv, includes, kind, c.avatarDir, folder);
    WrittenParts(c, TargetOf(c, appEnv, kind, folder), filename);
  }

  /** With a root of no environment, uploads of different environments never share a path. */
  lemma EnvironmentsStayApart(c: Config, a: string, dirA: string, b: string, dirB: string, kind: Kind, folder: Option<string>, filename: string)
    requires IsEnvName(dirA, a) && IsEnvName(dirB, b) && IsClean(c.avatarDir) && IsFileName(filename)
    requires folder.Some? ==> IsFolder(folder.value)
    requires !EndsWithDir(c.storageRootDir, dirA) && !EndsWithDir(c.storageRootDir, dirB)
    ensures WrittenRemotely(c, TargetOf(c, a, kind, folder), filename) == WrittenRemotely(c, TargetOf(c, b, kind, folder), filename)
      <==> dirA == dirB
  {
    hide *;
    UploadLiesInItsEnvironment(c, a, dirA, kind, folder, filename);
    UploadLiesInItsEnvironment(c, b, dirB, kind, folder, filename);
    NextAfter(Components(c.storageRootDir), dirA, KindParts(kind, c.avatarDir), FolderParts(folder), [filename]);
    NextAfter(Components(c.storageRootDir), dirB, KindParts(kind, c.avatarDir), FolderParts(folder), [filename]);
  }

  lemma NextAfter(root: seq<string>, dir: string, a: seq<string>, b: seq<string>, last: seq<string>)
    ensures var path := root + ([dir] + a + b) + last;
            |path| > |root| && path[|root|] == dir
  {
  }

  // ---------------------------------------------------------------- the URL

  /** Scheme, server and root of the URLs, up to a slash. */
  function UrlStart(c: Config): string {
    match c.publicBase
    case Some(base) => TrimEndChar(base, '/') + "/"
    case None => "ftp://" + c.host + ":" + Decimal(c.port) + "/" + TrimChar(c.rootDir, '/') + "/"
  }

  predicate BaseEndsWith(c: Config, dir: string) { c.publicBase.Some? && EndsWithDir(Trim(Rust, c.publicBase.value), dir) }

  /** The returned URL names the directories of the upload and its name behind the public base or
      the FTP root, with the environment unless the base ends with it. */
  lemma UrlNamesTheUpload(c: Config, appEnv: string, dir: string, kind: Kind, folder: Option<string>, filename: string)
    returns (path: string)
    requires IsEnvName(dir, appEnv) && IsClean(c.avatarDir) && IsFileName(filename)
    requires folder.Some? ==> IsFolder(folder.value)
    ensures RemoteUrl(c, TargetOf(c, appEnv, kind, folder), filename) == UrlStart(c) + path && StartsNamed(path)
    ensures Components(path)
      == (if BaseEndsWith(c, dir) then [] else [dir]) + KindParts(kind, c.avatarDir) + FolderParts(folder) + [filename]
  {
    var includes := PublicBaseIncludesEnv(c.publicBase, appEnv);
    EnvDirByName(appEnv, dir);
    assert EnvParts(includes, appEnv) == if includes then [] else [dir];
    hide *;
    var target := TargetOf(c, appEnv, kind, folder);
    path := UnderDir(target.publicDir, filename);
    BaseHasEnv(c, appEnv, dir);
    PathStart(target.publicDir, filename);
    UrlIs(c, target, filename);
    LeafParts(kind, c.avatarDir);
    TargetIs(c, appEnv, kind, folder);
    TargetParts(appEnv, includes, kind, c.avatarDir, folder);
    UnderDirComponents(target.publicDir, filename);
  }

  predicate StartsNamed(path: string) { path != "" && path[0] != '/' }

  lemma UnderDirComponents(dir: string, filename: string)
    requires IsFileName(filename)
    ensures Components(UnderDir(dir, filename)) == Components(dir) + [filename]
  {
    TrimmingKeepsClean(dir);
    NothingHasNoParts();
    FileNameIsOnePart(filename);
    PartsConcat(NonEmptyPart, TrimChar(dir, '/'), filename);
    hide Split, TrimChar, KeptBy, SanitizedParts, IsFileName;
  }

  lemma UrlIs(c: Config, target: Target, filename: string)
    ensures RemoteUrl(c, target, filename) == UrlStart(c) + UnderDir(target.publicDir, filename)
  {
    hide UnderDir, TrimChar, TrimEndChar, Decimal;
    var path := UnderDir(target.publicDir, filename);
    match c.publicBase
    case Some(base) =>
      assert TrimEndChar(base, '/') + "/" + path == (TrimEndChar(base, '/') + "/") + path;
    case None =>
      var start := "ftp://" + c.host + ":" + Decimal(c.port) + "/" + TrimChar(c.rootDir, '/');
      assert start + "/" + path == (start + "/") + path;
  }

  lemma PathStart(dir: string, filename: string)
    requires IsFileName(filename)
    ensures StartsNamed(UnderDir(dir, filename))
  {
    if TrimChar(dir, '/') != "" {
      TrimmedStart(dir);
    }
    hide TrimChar;
  }

  lemma BaseHasEnv(c: Config, appEnv: string, dir: string)
    requires IsEnvName(dir, appEnv)
    ensures PublicBaseIncludesEnv(c.publicBase, appEnv) <==> BaseEndsWith(c, dir)
  {
    if c.publicBase.Some? {
      PublicBaseHasEnvExactly(c.publicBase.value, appEnv, dir);
    }
    hide EndsWithDir, LastSegment, Trim;
  }
}
