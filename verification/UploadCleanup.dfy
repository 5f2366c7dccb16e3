/** From the URL of an upload back to the path that is deleted. */
module UploadCleanup {
  import opened Wrappers
  import opened Text
  import opened UploadPaths
  import opened UploadUrls

  /** A part survives trimmed, unless that leaves nothing or a dot name. */
  function SanitizedPart(part: string): Option<string> {
    var trimmed := Trim(Rust, part);
    if trimmed == "" || trimmed == "." || trimmed == ".." then None else Some(trimmed)
  }

  function SanitizedParts(path: string): seq<string> { KeptBy(SanitizedPart, Split(path, '/')) }

  function Sanitized(path: string): Option<string> {
    var parts := SanitizedParts(path);
    if parts == [] then None else Some(Join(parts, "/"))
  }

  method SanitizeRelativePath(path: string) returns (relative: Option<string>)
    ensures relative == Sanitized(path)
  {
    var parts := Split(path, '/');
    hide Split, Trim;
    var kept: seq<string> := [];
    KeptNothing(SanitizedPart, parts);
    var i := 0;
    while i < |parts|
      invariant 0 <= i <= |parts|
      invariant kept == KeptBy(SanitizedPart, parts[..i])
    {
      KeptOneMore(SanitizedPart, parts, i);
      var trimmed := Trim(Rust, parts[i]);
      if trimmed != "" && trimmed != "." && trimmed != ".." {
        kept := kept + [trimmed];
      }
      i := i + 1;
    }
    assert parts[..i] == parts;
    relative := if kept == [] then None else Some(Join(kept, "/"));
  }

  lemma KeptNothing(keep: string -> Option<string>, parts: seq<string>)
    ensures KeptBy(keep, parts[..0]) == []
  {
  }

  lemma {:induction false} KeptConcat(keep: string -> Option<string>, a: seq<string>, b: seq<string>)
    ensures KeptBy(keep, a + b) == KeptBy(keep, a) + KeptBy(keep, b)
  {
    if a == [] {
      assert a + b == b;
    } else {
      assert (a + b)[1..] == a[1..] + b;
      KeptConcat(keep, a[1..], b);
    }
  }

  lemma KeptOneMore(keep: string -> Option<string>, parts: seq<string>, i: nat)
    requires i < |parts|
    ensures KeptBy(keep, parts[..i + 1]) == KeptBy(keep, parts[..i])
      + match keep(parts[i])
        case None => []
        case Some(part) => [part]
  {
    assert parts[..i + 1] == parts[..i] + [parts[i]];
    KeptConcat(keep, parts[..i], [parts[i]]);
  }

  /** The part of an ftp:// URL behind host, port and root directory. */
  function ManagedFtpPath(value: string, rootDir: string): Option<string> {
    if !("ftp://" <= value) then None
    else
      match SplitOnce(value[6..], '/')
      case None => None
      case Some((_, path)) =>
        var prefix := TrimChar(rootDir, '/') + "/";
        if rootDir == "" then Some(path)
        else if prefix <= path then Some(path[|prefix|..])
        else None
  }

  /** The part of a remote URL behind the public base, or behind the FTP root. */
  function ManagedPath(value: string, c: Config): Option<string> {
    if c.publicBase.Some? && c.publicBase.value + "/" <= value then Some(value[|c.publicBase.value| + 1..])
    else ManagedFtpPath(value, c.rootDir)
  }

  function RelativePath(url: string, c: Config): Option<string> {
    var value := Trim(Rust, url);
    if value == "" then None
    else if "/uploads/" <= value then Sanitized(value[9..])
    else
      match ManagedPath(value, c)
      case None => None
      case Some(path) => Sanitized(path)
  }

  function SplitLast(path: string): (string, string) {
    var parts := Split(path, '/');
    (Join(parts[..|parts| - 1], "/"), parts[|parts| - 1])
  }

  /** What the FTP server is told: change into the directory, remove the file there. */
  function DeletedRemotely(c: Config, relative: string): seq<string> {
    var (dir, file) := SplitLast(if c.storageRootDir == "" then relative else c.storageRootDir + "/" + relative);
    Components(dir) + Components(file)
  }

  function DeletedLocally(relative: string): seq<string> { Components("uploads/" + ReplaceBackslashes(relative)) }
}
