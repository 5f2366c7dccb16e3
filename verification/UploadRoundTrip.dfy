/** Deleting by the URL an upload returned addresses the path the upload wrote. */
module UploadRoundTrip {
  import opened Wrappers
  import opened Text
  import opened UploadPaths
  import opened UploadUrls
  import opened UploadCleanup

  // ---------------------------------------------------------------- components of composed paths

  function PartsBy(keep: string -> Option<string>, path: string): seq<string> { KeptBy(keep, Split(path, '/')) }

  /** A rule that drops empty parts reads a composed path piece by piece. */
  lemma PartsConcat(keep: string -> Option<string>, a: string, b: string)
    ensures PartsBy(keep, a + "/" + b) == PartsBy(keep, a) + PartsBy(keep, b)
  {
    SplitConcat(a, '/', b);
    KeptConcat(keep, Split(a, '/'), Split(b, '/'));
  }

  lemma PartsOfNothing(keep: string -> Option<string>)
    requires keep("").None?
    ensures PartsBy(keep, "") == []
  {
    assert KeptBy(keep, [""]) == KeptBy(keep, [""][1..]);
  }

  lemma OneSlashMore(keep: string -> Option<string>, rest: string)
    requires keep("").None?
    ensures PartsBy(keep, "/" + rest) == PartsBy(keep, rest) && PartsBy(keep, rest + "/") == PartsBy(keep, rest)
  {
    PartsConcat(keep, "", rest);
    PartsConcat(keep, rest, "");
    PartsOfNothing(keep);
    assert "" + "/" + rest == "/" + rest && rest + "/" + "" == rest + "/";
    hide PartsBy;
  }

  lemma {:induction false} PartsIgnoreLeadingSlashes(keep: string -> Option<string>, path: string)
    requires keep("").None?
    ensures PartsBy(keep, TrimStartChar(path, '/')) == PartsBy(keep, path)
  {
    hide PartsBy;
    if path != "" && path[0] == '/' {
      PartsIgnoreLeadingSlashes(keep, path[1..]);
      OneSlashMore(keep, path[1..]);
      assert path == "/" + path[1..];
    }
  }

  lemma {:induction false} PartsIgnoreTrailingSlashes(keep: string -> Option<string>, path: string)
    requires keep("").None?
    ensures PartsBy(keep, TrimEndChar(path, '/')) == PartsBy(keep, path)
  {
    hide PartsBy;
    if path != "" && path[|path| - 1] == '/' {
      var init := path[..|path| - 1];
      PartsIgnoreTrailingSlashes(keep, init);
      OneSlashMore(keep, init);
      assert path == init + "/";
    }
  }

  lemma PartsIgnoreOuterSlashes(keep: string -> Option<string>, path: string)
    requires keep("").None?
    ensures PartsBy(keep, TrimChar(path, '/')) == PartsBy(keep, path)
  {
    hide PartsBy, TrimStartChar, TrimEndChar;
    PartsIgnoreLeadingSlashes(keep, path);
    PartsIgnoreTrailingSlashes(keep, TrimStartChar(path, '/'));
  }

  // ---------------------------------------------------------------- clean paths

  /** Nothing in the path is white space around a part or a dot name. */
  predicate IsClean(path: string) { SanitizedParts(path) == Components(path) }

  lemma EmptyPartsAreDropped()
    ensures NonEmptyPart("").None? && SanitizedPart("").None?
  {
    assert Trim(Rust, "") == "";
  }

  lemma SafePartStays(part: string)
    requires IsSafeName(part)
    ensures SanitizedPart(part) == Some(part) && NonEmptyPart(part) == Some(part)
  {
    assert IsSafeChar(part[0]) && IsSafeChar(part[|part| - 1]);
    assert !IsSafeChar('.') && Trimmed(Rust, part);
    hide Trim;
  }

  lemma {:induction false} SafePartsStay(parts: seq<string>)
    requires forall p :: p in parts ==> p == "" || IsSafeName(p)
    ensures KeptBy(SanitizedPart, parts) == KeptBy(NonEmptyPart, parts)
  {
    if parts != [] {
      SafePartsStay(parts[1..]);
      EmptyPartsAreDropped();
      if parts[0] != "" {
        SafePartStays(parts[0]);
      }
      hide SanitizedPart, NonEmptyPart, IsSafeName;
    }
  }

  /** Environment names and normalized folders are clean. */
  lemma SafePathsAreClean(path: string)
    requires forall i :: 0 <= i < |path| ==> IsSafeChar(path[i]) || path[i] == '/'
    ensures IsClean(path)
  {
    hide IsSafeChar;
    forall p | p in Split(path, '/')
      ensures p == "" || IsSafeName(p)
    {
      forall i | 0 <= i < |p| ensures IsSafeChar(p[i]) {
        assert p[i] in p && p[i] in path && p[i] != '/';
      }
    }
    SafePartsStay(Split(path, '/'));
  }

  lemma FileNameIsOnePart(name: string)
    requires IsFileName(name)
    ensures Components(name) == [name] && SanitizedParts(name) == [name]
  {
    assert !IsSafeChar('.') && !IsSafeChar('/') && Trimmed(Rust, name) && '/' !in name;
    hide IsSafeChar, Trim;
    SplitWhole(name, '/');
    KeptOne(NonEmptyPart, name);
    KeptOne(SanitizedPart, name);
  }

  lemma KeptOne(keep: string -> Option<string>, part: string)
    requires keep(part) == Some(part)
    ensures KeptBy(keep, [part]) == [part]
  {
    assert [part][1..] == [];
  }

  lemma CleanConcat(a: string, b: string)
    requires IsClean(a) && IsClean(b)
    ensures IsClean(a + "/" + b) && Components(a + "/" + b) == Components(a) + Components(b)
  {
    PartsConcat(SanitizedPart, a, b);
    PartsConcat(NonEmptyPart, a, b);
    hide Split;
  }

  lemma TrimmingKeepsClean(path: string)
    ensures Components(TrimChar(path, '/')) == Components(path)
    ensures SanitizedParts(TrimChar(path, '/')) == SanitizedParts(path)
  {
    EmptyPartsAreDropped();
    PartsIgnoreOuterSlashes(NonEmptyPart, path);
    PartsIgnoreOuterSlashes(SanitizedPart, path);
    hide Split, TrimChar;
  }

  lemma NothingHasNoParts()
    ensures Components("") == [] && SanitizedParts("") == []
  {
    EmptyPartsAreDropped();
    PartsOfNothing(NonEmptyPart);
    PartsOfNothing(SanitizedPart);
    hide Split;
  }

  // ---------------------------------------------------------------- sanitizing

  lemma {:induction false} KeptAgain(parts: seq<string>)
    requires forall p :: p in parts ==> SanitizedPart(p) == Some(p) && NonEmptyPart(p) == Some(p)
    ensures KeptBy(SanitizedPart, parts) == parts && KeptBy(NonEmptyPart, parts) == parts
  {
    hide SanitizedPart, NonEmptyPart;
    if parts != [] {
      KeptAgain(parts[1..]);
    }
  }

  lemma {:induction false} SanitizedPartsAreSafe(parts: seq<string>)
    requires forall p :: p in parts ==> '/' !in p
    ensures forall q | q in KeptBy(SanitizedPart, parts) ::
              && q != "" && q != "." && q != ".." && '/' !in q
              && SanitizedPart(q) == Some(q) && NonEmptyPart(q) == Some(q)
  {
    if parts != [] {
      SanitizedPartsAreSafe(parts[1..]);
      TrimLeavesOut(Rust, parts[0], '/');
      hide Trim;
    }
  }

  /** The parts of a sanitized path are what was kept, and sanitizing it again changes nothing. */
  lemma SanitizingIsAFixpoint(path: string)
    requires Sanitized(path).Some?
    ensures Components(Sanitized(path).value) == SanitizedParts(path)
    ensures Sanitized(Sanitized(path).value) == Sanitized(path)
    ensures forall part :: part in Components(Sanitized(path).value) ==> part != "" && part != "." && part != ".."
  {
    var parts := SanitizedParts(path);
    SanitizedPartsAreSafe(Split(path, '/'));
    KeptAgain(parts);
    SplitJoin(parts, '/');
    hide Split, KeptBy;
  }

  // ---------------------------------------------------------------- the target's components

  /** A normalized folder: safe names and slashes, never empty. */
  predicate IsFolder(folder: string) {
    folder != "" && forall i :: 0 <= i < |folder| ==> IsSafeChar(folder[i]) || folder[i] == '/'
  }

  lemma {:induction false} JoinedNamesAreSafe(names: seq<string>)
    requires forall n :: n in names ==> IsSafeName(n)
    ensures var joined := Join(names, "/");
            && (names != [] ==> joined != "")
            && forall i :: 0 <= i < |joined| ==> IsSafeChar(joined[i]) || joined[i] == '/'
  {
    hide IsSafeChar;
    if names != [] {
      assert names[0] in names && IsSafeName(names[0]);
      JoinedNamesAreSafe(names[1..]);
    }
  }

  lemma NormalizedFoldersAreFolders(value: string)
    requires NormalizedFolder(value).Some?
    ensures IsFolder(NormalizedFolder(value).value) && |NormalizedFolder(value).value| <= FOLDER_LIMIT
  {
    hide IsSafeChar, NormalizedParts, Split, Trim, Join;
    var joined := Join(NormalizedParts(Split(Trim(Rust, value), '/')), "/");
    JoinedNamesAreSafe(NormalizedParts(Split(Trim(Rust, value), '/')));
    assert Take(joined, FOLDER_LIMIT) <= joined;
  }

  function FolderParts(folder: Option<string>): seq<string> {
    match folder
    case None => []
    case Some(f) => Components(f)
  }

  lemma AddingAFolder(dir: string, folder: Option<string>)
    requires IsClean(dir) && (folder.Some? ==> IsFolder(folder.value))
    ensures IsClean(WithFolder(dir, folder))
    ensures Components(WithFolder(dir, folder)) == Components(dir) + FolderParts(folder)
  {
    if folder.Some? {
      FolderIsTrimmed(folder.value);
      SafePathsAreClean(folder.value);
      hide IsClean, Components, IsFolder, Trim;
      CleanConcat(dir, folder.value);
    }
  }

  lemma FolderIsTrimmed(folder: string)
    requires IsFolder(folder)
    ensures Trim(Rust, folder) == folder
  {
    assert IsSafeChar(folder[0]) || folder[0] == '/';
    assert Trimmed(Rust, folder);
    hide Trim;
  }

  function EnvParts(includesEnv: bool, appEnv: string): seq<string> { if includesEnv then [] else [EnvDir(appEnv)] }

  lemma EnvDirIsOnePart(appEnv: string)
    ensures IsClean(EnvDir(appEnv)) && Components(EnvDir(appEnv)) == [EnvDir(appEnv)]
  {
    hide EnvDir;
    var dir := EnvDir(appEnv);
    assert IsFileName(dir);
    FileNameIsOnePart(dir);
  }

  lemma PrefixingParts(includesEnv: bool, appEnv: string, leaf: string)
    requires IsClean(leaf)
    ensures var dir := PrefixedDir(includesEnv, EnvDir(appEnv), leaf);
            IsClean(dir) && Components(dir) == EnvParts(includesEnv, appEnv) + Components(leaf)
  {
    TrimmingKeepsClean(leaf);
    EnvDirIsOnePart(appEnv);
    NothingHasNoParts();
    hide TrimChar, Components, SanitizedParts, EnvDir;
    if !includesEnv && TrimChar(leaf, '/') != "" {
      CleanConcat(EnvDir(appEnv), TrimChar(leaf, '/'));
    }
  }

  function Leaf(kind: Kind, avatarDir: string): string { if kind.Avatar? then AvatarLeaf(avatarDir) else "" }

  lemma LeafIsClean(kind: Kind, avatarDir: string)
    requires IsClean(avatarDir)
    ensures IsClean(Leaf(kind, avatarDir))
  {
    TrimmingKeepsClean(avatarDir);
    NothingHasNoParts();
    AvatarIsClean();
    hide Components, SanitizedParts;
  }

  lemma AvatarIsClean()
    ensures IsClean("avatar") && IsClean("uploads") && Components("uploads") == ["uploads"]
  {
    hide Components, SanitizedParts;
    FileNameIsOnePart("avatar");
    FileNameIsOnePart("uploads");
  }

  lemma TargetParts(appEnv: string, includesEnv: bool, kind: Kind, avatarDir: string, folder: Option<string>)
    requires IsClean(avatarDir) && (folder.Some? ==> IsFolder(folder.value))
    ensures var dir := WithFolder(PrefixedDir(includesEnv, EnvDir(appEnv), Leaf(kind, avatarDir)), folder);
            && IsClean(dir)
            && Components(dir) == EnvParts(includesEnv, appEnv) + Components(Leaf(kind, avatarDir)) + FolderParts(folder)
  {
    hide *;
    LeafIsClean(kind, avatarDir);
    PrefixingParts(includesEnv, appEnv, Leaf(kind, avatarDir));
    AddingAFolder(PrefixedDir(includesEnv, EnvDir(appEnv), Leaf(kind, avatarDir)), folder);
  }

  // ---------------------------------------------------------------- paths on the server

  lemma ComponentsConcat(a: string, b: string)
    ensures Components(a + "/" + b) == Components(a) + Components(b)
  {
    PartsConcat(NonEmptyPart, a, b);
    hide Split, KeptBy;
  }

  /** The components of a path below the storage root. */
  lemma UnderStorageRoot(root: string, path: string)
    ensures Components(if root == "" then path else root + "/" + path) == Components(root) + Components(path)
  {
    NothingHasNoParts();
    ComponentsConcat(root, path);
    hide Components;
  }

  lemma WrittenParts(c: Config, target: Target, filename: string)
    requires IsFileName(filename)
    ensures WrittenRemotely(c, target, filename) == Components(c.storageRootDir) + Components(target.ftpDir) + [filename]
  {
    hide IsFileName, Components, SanitizedParts;
    FileNameIsOnePart(filename);
    UnderStorageRoot(c.storageRootDir, target.ftpDir);
  }

  lemma SplitLastKeepsParts(path: string)
    ensures var (dir, file) := SplitLast(path); Components(dir) + Components(file) == Components(path)
  {
    var parts := Split(path, '/');
    var init, last := parts[..|parts| - 1], parts[|parts| - 1];
    assert parts == init + [last];
    SplitWhole(last, '/');
    KeptConcat(NonEmptyPart, init, [last]);
    NothingHasNoParts();
    if init != [] {
      SplitJoin(init, '/');
    }
    hide Split, SanitizedParts, NonEmptyPart;
  }

  lemma DeletedParts(c: Config, relative: string)
    ensures DeletedRemotely(c, relative) == Components(c.storageRootDir) + Components(relative)
  {
    hide Components, SplitLast;
    SplitLastKeepsParts(if c.storageRootDir == "" then relative else c.storageRootDir + "/" + relative);
    UnderStorageRoot(c.storageRootDir, relative);
  }

  // ---------------------------------------------------------------- from the URL back

  lemma UnderDirParts(dir: string, filename: string)
    requires IsFileName(filename)
    ensures SanitizedParts(UnderDir(dir, filename)) == SanitizedParts(dir) + [filename]
    ensures UnderDir(dir, filename) != ""
      && UnderDir(dir, filename)[|UnderDir(dir, filename)| - 1] == filename[|filename| - 1]
  {
    TrimmingKeepsClean(dir);
    NothingHasNoParts();
    FileNameIsOnePart(filename);
    PartsConcat(SanitizedPart, TrimChar(dir, '/'), filename);
    hide Split, TrimChar, KeptBy, Components, IsFileName;
  }

  /** Configurations as they are loaded, with a public base outside the local URL space. */
  predicate IsRemoteConfig(c: Config) {
    && '/' !in c.host && TrimChar(c.rootDir, '/') == c.rootDir
    && (c.publicBase.Some? ==>
          var base := c.publicBase.value;
          && base != "" && !IsSpace(Rust, base[0]) && base[|base| - 1] != '/'
          && !("/uploads/" <= base + "/"))
  }

  lemma UrlIsTrimmed(url: string, filename: string)
    requires url != "" && !IsSpace(Rust, url[0]) && IsFileName(filename) && url[|url| - 1] == filename[|filename| - 1]
    ensures Trim(Rust, url) == url
  {
    assert IsSafeChar(filename[|filename| - 1]);
    assert Trimmed(Rust, url);
    hide Trim;
  }

  lemma NotALocalUrl(base: string, rest: string)
    requires base != "" && !("/uploads/" <= base + "/")
    ensures !("/uploads/" <= base + "/" + rest)
  {
    var url, local := base + "/" + rest, "/uploads/";
    assert url[|base|] == '/' && forall i :: 0 < i < 8 ==> local[i] != '/';
    assert forall i :: 0 <= i < |base| + 1 ==> url[i] == (base + "/")[i];
  }

  /** A remote URL is sanitized behind the part that both sides know. */
  lemma RemotePathOf(url: string, c: Config, path: string)
    requires Trim(Rust, url) == url && url != "" && !("/uploads/" <= url) && ManagedPath(url, c) == Some(path)
    ensures RelativePath(url, c) == Sanitized(path)
  {
    hide Trim, Sanitized, ManagedPath;
  }

  lemma PublicUrlLeadsBack(c: Config, base: string, rest: string, filename: string)
    requires IsRemoteConfig(c) && c.publicBase == Some(base) && IsFileName(filename)
    requires rest != "" && rest[|rest| - 1] == filename[|filename| - 1]
    ensures RelativePath(TrimEndChar(base, '/') + "/" + rest, c) == Sanitized(rest)
  {
    var url := base + "/" + rest;
    hide Trim, IsSpace, IsFileName, Sanitized, ManagedFtpPath, RelativePath;
    NotALocalUrl(base, rest);
    UrlIsTrimmed(url, filename);
    assert base + "/" <= url && url[|base| + 1..] == rest;
    RemotePathOf(url, c, rest);
  }

  lemma ManagedFtpPathOf(place: string, path: string, rootDir: string)
    requires '/' !in place
    ensures ManagedFtpPath("ftp://" + (place + "/" + path), rootDir) ==
      if rootDir == "" then Some(path)
      else if TrimChar(rootDir, '/') + "/" <= path then Some(path[|TrimChar(rootDir, '/')| + 1..])
      else None
  {
    var value := "ftp://" + (place + "/" + path);
    assert value[6..] == place + ['/'] + path;
    hide SplitOnce, TrimChar;
    SplitOnceAt(place, '/', path);
  }

  lemma FtpPathBehindRoot(c: Config, place: string, rest: string)
    requires '/' !in place && TrimChar(c.rootDir, '/') == c.rootDir && c.publicBase.None?
    ensures ManagedPath("ftp://" + (place + "/" + (c.rootDir + "/" + rest)), c)
      == Some(if c.rootDir == "" then "/" + rest else rest)
  {
    hide ManagedFtpPath, TrimChar;
    var path := c.rootDir + "/" + rest;
    ManagedFtpPathOf(place, path, c.rootDir);
    assert c.rootDir + "/" <= path && path[|c.rootDir| + 1..] == rest;
    assert "" + "/" + rest == "/" + rest;
  }

  function FtpUrl(place: string, rootDir: string, rest: string): string {
    "ftp://" + (place + "/" + (rootDir + "/" + rest))
  }

  lemma FtpUrlShape(place: string, rootDir: string, rest: string)
    requires rest != ""
    ensures var url := FtpUrl(place, rootDir, rest);
            url != "" && url[0] == 'f' && url[|url| - 1] == rest[|rest| - 1] && !("/uploads/" <= url)
  {
    var url := FtpUrl(place, rootDir, rest);
    assert url[0] != "/uploads/"[0];
  }

  /** The path of an ftp:// URL behind the host and port. */
  lemma FtpUrlLeadsBack(c: Config, rest: string, filename: string)
    requires IsRemoteConfig(c) && c.publicBase.None? && IsFileName(filename)
    requires rest != "" && rest[|rest| - 1] == filename[|filename| - 1]
    ensures RelativePath(FtpUrl(c.host + ":" + Decimal(c.port), TrimChar(c.rootDir, '/'), rest), c)
      == Sanitized(if c.rootDir == "" then "/" + rest else rest)
  {
    var place := c.host + ":" + Decimal(c.port);
    var path := if c.rootDir == "" then "/" + rest else rest;
    assert !IsSpace(Rust, 'f');
    hide IsSpace, Trim, IsFileName, Sanitized, RelativePath, ManagedPath, Decimal, TrimChar;
    PlaceHasNoSlash(c);
    FtpUrlShape(place, c.rootDir, rest);
    FtpPathBehindRoot(c, place, rest);
    hide IsRemoteConfig;
    UrlIsTrimmed(FtpUrl(place, c.rootDir, rest), filename);
    assert ManagedPath(FtpUrl(place, c.rootDir, rest), c) == Some(path);
    hide FtpUrl;
    RemotePathOf(FtpUrl(place, c.rootDir, rest), c, path);
  }

  lemma PlaceHasNoSlash(c: Config)
    requires '/' !in c.host
    ensures '/' !in c.host + ":" + Decimal(c.port)
  {
    assert forall i :: 0 <= i < |Decimal(c.port)| ==> IsDigit(Decimal(c.port)[i]);
    hide Decimal;
  }

  lemma LeadingSlashIsSanitizedAway(rest: string)
    ensures Sanitized("/" + rest) == Sanitized(rest)
  {
    EmptyPartsAreDropped();
    OneSlashMore(SanitizedPart, rest);
    hide Split, KeptBy;
  }

  /** The returned URL leads back to the public directory and the file name. */
  lemma RemoteUrlLeadsBack(c: Config, target: Target, filename: string)
    requires IsRemoteConfig(c) && IsFileName(filename)
    ensures RelativePath(RemoteUrl(c, target, filename), c) == Sanitized(UnderDir(target.publicDir, filename))
  {
    hide *;
    var rest := UnderDir(target.publicDir, filename);
    UnderDirParts(target.publicDir, filename);
    UrlForms(c, target, filename);
    if c.publicBase.Some? {
      PublicUrlLeadsBack(c, c.publicBase.value, rest, filename);
    } else {
      FtpUrlLeadsBack(c, rest, filename);
      LeadingSlashIsSanitizedAway(rest);
    }
  }

  lemma UrlForms(c: Config, target: Target, filename: string)
    ensures var rest := UnderDir(target.publicDir, filename);
            RemoteUrl(c, target, filename) ==
            match c.publicBase
            case Some(base) => TrimEndChar(base, '/') + "/" + rest
            case None => FtpUrl(c.host + ":" + Decimal(c.port), TrimChar(c.rootDir, '/'), rest)
  {
    hide UnderDir, TrimEndChar, TrimChar, Decimal;
    var rest := UnderDir(target.publicDir, filename);
    RegroupUrl(c.host, Decimal(c.port), TrimChar(c.rootDir, '/'), rest);
  }

  lemma RegroupUrl(host: string, port: string, rootDir: string, rest: string)
    ensures "ftp://" + host + ":" + port + "/" + rootDir + "/" + rest == FtpUrl(host + ":" + port, rootDir, rest)
  {
  }

  /** Deleting by the URL an upload returned addresses exactly the path the upload wrote, for the
      public-base and the ftp:// form, if and only if the two "includes the environment" flags agree. */
  lemma RemoteDeleteAddressesTheUploadExactly(c: Config, appEnv: string, kind: Kind, folder: Option<string>, filename: string)
    requires IsRemoteConfig(c) && IsClean(c.avatarDir) && IsFileName(filename)
    requires folder.Some? ==> IsFolder(folder.value)
    ensures var target := TargetOf(c, appEnv, kind, folder);
            var relative := RelativePath(RemoteUrl(c, target, filename), c);
            && relative.Some?
            && (DeletedRemotely(c, relative.value) == WrittenRemotely(c, target, filename)
                <==> RootIncludesEnv(c.storageRootDir, appEnv) == PublicBaseIncludesEnv(c.publicBase, appEnv))
  {
    var target := TargetOf(c, appEnv, kind, folder);
    var ftpFlag, publicFlag := RootIncludesEnv(c.storageRootDir, appEnv), PublicBaseIncludesEnv(c.publicBase, appEnv);
    TargetIs(c, appEnv, kind, folder);
    hide *;
    TargetParts(appEnv, ftpFlag, kind, c.avatarDir, folder);
    TargetParts(appEnv, publicFlag, kind, c.avatarDir, folder);
    RemoteUrlLeadsBack(c, target, filename);
    DeletedAndWritten(c, target, filename);
    EnvPartsDecide(ftpFlag, publicFlag, appEnv, Components(Leaf(kind, c.avatarDir)) + FolderParts(folder));
    RegroupParts(ftpFlag, appEnv, kind, c.avatarDir, folder);
    RegroupParts(publicFlag, appEnv, kind, c.avatarDir, folder);
  }

  lemma TargetIs(c: Config, appEnv: string, kind: Kind, folder: Option<string>)
    ensures var target := TargetOf(c, appEnv, kind, folder);
            && target.ftpDir
              == WithFolder(PrefixedDir(RootIncludesEnv(c.storageRootDir, appEnv), EnvDir(appEnv), Leaf(kind, c.avatarDir)), folder)
            && target.publicDir
              == WithFolder(PrefixedDir(PublicBaseIncludesEnv(c.publicBase, appEnv), EnvDir(appEnv), Leaf(kind, c.avatarDir)), folder)
  {
    hide RootIncludesEnv, PublicBaseIncludesEnv, EnvDir, WithFolder, PrefixedDir, AvatarLeaf;
  }

  lemma RegroupParts(flag: bool, appEnv: string, kind: Kind, avatarDir: string, folder: Option<string>)
    ensures EnvParts(flag, appEnv) + Components(Leaf(kind, avatarDir)) + FolderParts(folder)
      == EnvParts(flag, appEnv) + (Components(Leaf(kind, avatarDir)) + FolderParts(folder))
  {
    hide *;
  }

  lemma EnvPartsDecide(a: bool, b: bool, appEnv: string, tail: seq<string>)
    ensures EnvParts(a, appEnv) + tail == EnvParts(b, appEnv) + tail <==> a == b
  {
    hide EnvDir;
    assert |EnvParts(a, appEnv) + tail| == |EnvParts(b, appEnv) + tail| <==> a == b;
  }

  /** What is deleted and what was written differ at most in the two directories. */
  lemma DeletedAndWritten(c: Config, target: Target, filename: string)
    requires IsFileName(filename) && IsClean(target.publicDir)
    ensures var relative := Sanitized(UnderDir(target.publicDir, filename));
            && relative.Some?
            && (DeletedRemotely(c, relative.value) == WrittenRemotely(c, target, filename)
                <==> Components(target.publicDir) == Components(target.ftpDir))
  {
    UnderDirParts(target.publicDir, filename);
    var relative := Sanitized(UnderDir(target.publicDir, filename));
    assert relative.Some?;
    SanitizingIsAFixpoint(UnderDir(target.publicDir, filename));
    DeletedParts(c, relative.value);
    WrittenParts(c, target, filename);
    hide *;
    Cancel(Components(c.storageRootDir), SanitizedParts(target.publicDir), Components(target.ftpDir), filename);
  }

  lemma Cancel(a: seq<string>, x: seq<string>, y: seq<string>, last: string)
    ensures a + (x + [last]) == a + y + [last] <==> x == y
  {
    var left, right := a + (x + [last]), a + y + [last];
    if left == right {
      assert x == left[|a|..|left| - 1] && y == right[|a|..|right| - 1];
    }
  }

  // ---------------------------------------------------------------- local uploads

  lemma {:induction false} JoinLeavesOut(parts: seq<string>, sep: string, c: char)
    requires c !in sep && forall p :: p in parts ==> c !in p
    ensures c !in Join(parts, sep)
  {
    if |parts| > 1 {
      JoinLeavesOut(parts[1..], sep, c);
    }
  }

  lemma {:induction false} KeptLeavesOut(parts: seq<string>, c: char)
    requires forall p :: p in parts ==> c !in p
    ensures forall q :: q in KeptBy(SanitizedPart, parts) ==> c !in q
  {
    if parts != [] {
      KeptLeavesOut(parts[1..], c);
      TrimLeavesOut(Rust, parts[0], c);
      hide Trim;
    }
  }

  lemma SanitizedLeavesOut(path: string, c: char)
    requires Sanitized(path).Some? && c !in path && c != '/'
    ensures c !in Sanitized(path).value
  {
    KeptLeavesOut(Split(path, '/'), c);
    JoinLeavesOut(SanitizedParts(path), "/", c);
    hide Split, KeptBy, SanitizedPart;
  }

  lemma NoBackslashesToReplace(s: string)
    requires '\\' !in s
    ensures ReplaceBackslashes(s) == s
  {
  }

  lemma UnderUploads(rest: string)
    ensures Components("uploads/" + rest) == ["uploads"] + Components(rest)
  {
    hide *;
    AvatarIsClean();
    ComponentsConcat("uploads", rest);
    assert "uploads/" == "uploads" + "/";
  }

  lemma LocalUrlLeadsBack(rest: string, filename: string, c: Config)
    requires IsFileName(filename) && rest != "" && rest[|rest| - 1] == filename[|filename| - 1]
    ensures RelativePath("/uploads/" + rest, c) == Sanitized(rest)
  {
    var url := "/uploads/" + rest;
    assert url[0] == '/' && !IsSpace(Rust, '/') && url[9..] == rest;
    UrlIsTrimmed(url, filename);
    hide Trim, IsSpace, IsFileName, Sanitized;
  }

  /** A clean, non-empty path that ends like the file name. */
  predicate LeadsTo(rest: string, filename: string) {
    && IsClean(rest) && Components(rest) != [] && rest != "" && filename != ""
    && rest[|rest| - 1] == filename[|filename| - 1]
  }

  /** A clean path below the uploads directory is deleted where it was written. */
  lemma LocalPathLeadsBack(target: Target, rest: string, filename: string, c: Config)
    requires LocalPath(target, filename) == "uploads/" + rest && IsFileName(filename) && '\\' !in rest
    requires LeadsTo(rest, filename)
    ensures var relative := RelativePath(LocalUrl(target, filename), c);
            relative.Some? && DeletedLocally(relative.value) == Components(LocalPath(target, filename))
  {
    assert Sanitized(rest).Some?;
    assert LocalPath(target, filename)[8..] == rest && "uploads/" <= LocalPath(target, filename);
    hide LocalPath, Components, Sanitized, RelativePath, IsFileName;
    NoBackslashesToReplace(rest);
    LocalUrlLeadsBack(rest, filename, c);
    SanitizingIsAFixpoint(rest);
    SanitizedLeavesOut(rest, '\\');
    NoBackslashesToReplace(Sanitized(rest).value);
    UnderUploads(rest);
    UnderUploads(Sanitized(rest).value);
  }

  function InFolder(folder: Option<string>, filename: string): string {
    match folder
    case None => filename
    case Some(f) => f + "/" + filename
  }

  /** What follows "uploads/" in the path of a local upload. */
  function LocalRest(kind: Kind, avatarDir: string, folder: Option<string>, filename: string): string {
    var inner := InFolder(folder, filename);
    if kind.Avatar? then AvatarLeaf(avatarDir) + "/" + inner else inner
  }

  lemma FolderPath(dir: string, folder: Option<string>, filename: string)
    requires folder.Some? ==> IsFolder(folder.value)
    ensures WithFolder(dir, folder) + "/" + filename == dir + "/" + InFolder(folder, filename)
  {
    if folder.Some? {
      FolderIsTrimmed(folder.value);
      hide IsFolder, Trim;
      Regrouped(dir + "/", folder.value, filename);
      assert (dir + "/") + (folder.value + "/" + filename) == dir + "/" + (folder.value + "/" + filename);
    }
  }

  lemma LocalPathIs(appEnv: string, kind: Kind, avatarDir: string, folder: Option<string>, filename: string,
                    ftpFlag: bool, publicFlag: bool)
    requires folder.Some? ==> IsFolder(folder.value)
    ensures LocalPath(TargetFor(appEnv, kind, avatarDir, folder, ftpFlag, publicFlag), filename)
      == "uploads/" + LocalRest(kind, avatarDir, folder, filename)
  {
    hide IsFolder, WithFolder, InFolder, AvatarLeaf, PrefixedDir, EnvDir;
    var inner := InFolder(folder, filename);
    if kind.Avatar? {
      FolderPath("uploads/" + AvatarLeaf(avatarDir), folder, filename);
      Regrouped("uploads/", AvatarLeaf(avatarDir), inner);
    } else {
      FolderPath("uploads", folder, filename);
      assert "uploads/" == "uploads" + "/";
    }
  }

  lemma Regrouped(a: string, b: string, c: string)
    ensures (a + b) + "/" + c == a + (b + "/" + c)
  {
  }

  lemma CleanEnd(dir: string, rest: string, filename: string)
    requires IsClean(dir) && LeadsTo(rest, filename)
    ensures LeadsTo(dir + "/" + rest, filename)
  {
    hide IsClean, Components;
    CleanConcat(dir, rest);
  }

  lemma InFolderLeadsToIt(folder: Option<string>, filename: string)
    requires IsFileName(filename) && (folder.Some? ==> IsFolder(folder.value))
    ensures LeadsTo(InFolder(folder, filename), filename)
  {
    FileNameIsOnePart(filename);
    assert LeadsTo(filename, filename);
    if folder.Some? {
      SafePathsAreClean(folder.value);
      hide *;
      CleanEnd(folder.value, filename, filename);
      InSomeFolder(folder.value, filename);
    }
  }

  lemma InSomeFolder(folder: string, filename: string)
    ensures InFolder(Some(folder), filename) == folder + "/" + filename
  {
  }

  lemma LocalRestIsClean(kind: Kind, avatarDir: string, folder: Option<string>, filename: string)
    requires IsClean(avatarDir) && IsFileName(filename) && (folder.Some? ==> IsFolder(folder.value))
    ensures LeadsTo(LocalRest(kind, avatarDir, folder, filename), filename)
  {
    LeafIsClean(kind, avatarDir);
    InFolderLeadsToIt(folder, filename);
    hide InFolder, AvatarLeaf, IsClean, LeadsTo, IsFolder, IsFileName;
    if kind.Avatar? {
      CleanEnd(AvatarLeaf(avatarDir), InFolder(folder, filename), filename);
    }
  }

  lemma LocalRestHasNoBackslash(kind: Kind, avatarDir: string, folder: Option<string>, filename: string)
    requires '\\' !in avatarDir && IsFileName(filename) && (folder.Some? ==> IsFolder(folder.value))
    ensures '\\' !in LocalRest(kind, avatarDir, folder, filename)
  {
    assert !IsSafeChar('\\');
    AvatarLeafLeavesOut(avatarDir, '\\');
    assert '\\' !in filename && (folder.Some? ==> '\\' !in folder.value);
    hide AvatarLeaf, IsSafeChar, IsFolder, IsFileName;
    assert '\\' !in InFolder(folder, filename);
    hide InFolder;
  }

  lemma AvatarLeafLeavesOut(avatarDir: string, c: char)
    requires c !in avatarDir && c !in "avatar"
    ensures c !in AvatarLeaf(avatarDir)
  {
    var start := TrimStartChar(avatarDir, '/');
    var trimmed := TrimEndChar(start, '/');
    hide TrimStartChar, TrimEndChar;
    assert start == avatarDir[|avatarDir| - |start|..];
    assert c !in start;
    assert trimmed == start[..|trimmed|];
  }

  /** Deleting by the URL of a local upload addresses exactly the path the upload wrote. */
  lemma LocalDeleteAddressesTheUpload(c: Config, appEnv: string, kind: Kind, folder: Option<string>, filename: string)
    requires IsClean(c.avatarDir) && '\\' !in c.avatarDir && IsFileName(filename)
    requires folder.Some? ==> IsFolder(folder.value)
    ensures var target := TargetOf(c, appEnv, kind, folder);
            var relative := RelativePath(LocalUrl(target, filename), c);
            relative.Some? && DeletedLocally(relative.value) == Components(LocalPath(target, filename))
  {
    var ftpFlag, publicFlag := RootIncludesEnv(c.storageRootDir, appEnv), PublicBaseIncludesEnv(c.publicBase, appEnv);
    assert TargetOf(c, appEnv, kind, folder) == TargetFor(appEnv, kind, c.avatarDir, folder, ftpFlag, publicFlag);
    hide *;
    LocalPathIs(appEnv, kind, c.avatarDir, folder, filename, ftpFlag, publicFlag);
    LocalRestIsClean(kind, c.avatarDir, folder, filename);
    LocalRestHasNoBackslash(kind, c.avatarDir, folder, filename);
    LocalPathLeadsBack(TargetOf(c, appEnv, kind, folder), LocalRest(kind, c.avatarDir, folder, filename), filename, c);
  }
}
