/** The directory an upload goes to, the path it is written to, and the URL that is returned. */
module UploadUrls {
  import opened Wrappers
  import opened Text
  import opened UploadPaths

  datatype Kind = Product | Avatar

  datatype Config = Config(
    host: string,
    port: nat,
    rootDir: string,
    storageRootDir: string,
    avatarDir: string,
    publicBase: Option<string>)

  datatype Target = Target(localDir: string, ftpDir: string, publicDir: string)

  // ---------------------------------------------------------------- path components

  /** The parts a rule keeps, rewritten by it, in order. */
  function KeptBy(keep: string -> Option<string>, parts: seq<string>): seq<string> {
    if parts == [] then []
    else (match keep(parts[0])
          case None => []
          case Some(part) => [part]) + KeptBy(keep, parts[1..])
  }

  function NonEmptyPart(part: string): Option<string> { if part == "" then None else Some(part) }

  /** The directories and the file a slash-separated path names. */
  function Components(path: string): seq<string> { KeptBy(NonEmptyPart, Split(path, '/')) }

  // ---------------------------------------------------------------- directories

  function EnvDir(appEnv: string): (dir: string)
    ensures IsSafeName(dir)
  {
    var lower := ToLower(appEnv);
    if lower == "prod" then "prod" else if lower == "dev" then "dev" else "stage"
  }

  function LastSegment(path: string): string {
    var parts := Split(path, '/');
    parts[|parts| - 1]
  }

  predicate RootIncludesEnv(root: string, appEnv: string) {
    ToLower(LastSegment(TrimChar(root, '/'))) == EnvDir(appEnv)
  }

  predicate PublicBaseIncludesEnv(base: Option<string>, appEnv: string) {
    base.Some? && ToLower(LastSegment(TrimEndChar(Trim(Rust, base.value), '/'))) == EnvDir(appEnv)
  }

  function PrefixedDir(rootIncludesEnv: bool, envDir: string, leaf: string): string {
    var trimmed := TrimChar(leaf, '/');
    if rootIncludesEnv then trimmed else if trimmed == "" then envDir else envDir + "/" + trimmed
  }

  function WithFolder(dir: string, folder: Option<string>): string {
    if folder.Some? && Trim(Rust, folder.value) != "" then dir + "/" + Trim(Rust, folder.value) else dir
  }

  function AvatarLeaf(avatarDir: string): string {
    var trimmed := TrimChar(avatarDir, '/');
    if trimmed == "" then "avatar" else trimmed
  }

  function TargetFor(appEnv: string, kind: Kind, avatarDir: string, folder: Option<string>,
                     ftpIncludesEnv: bool, publicIncludesEnv: bool): Target {
    var leaf := if kind.Avatar? then AvatarLeaf(avatarDir) else "";
    Target(WithFolder(if kind.Avatar? then "uploads/" + leaf else "uploads", folder),
           WithFolder(PrefixedDir(ftpIncludesEnv, EnvDir(appEnv), leaf), folder),
           WithFolder(PrefixedDir(publicIncludesEnv, EnvDir(appEnv), leaf), folder))
  }

  function TargetOf(c: Config, appEnv: string, kind: Kind, folder: Option<string>): Target {
    TargetFor(appEnv, kind, c.avatarDir, folder,
              RootIncludesEnv(c.storageRootDir, appEnv), PublicBaseIncludesEnv(c.publicBase, appEnv))
  }

  /** File names: safe characters and dots, safe at both ends. */
  predicate IsFileName(name: string) {
    && name != "" && IsSafeChar(name[0]) && IsSafeChar(name[|name| - 1])
    && forall i :: 0 <= i < |name| ==> IsSafeChar(name[i]) || name[i] == '.'
  }

  /** The file name: the user's login for an avatar, else the wished name or a fresh one. */
  function UploadFilename(kind: Kind, login: string, wished: Option<string>, generated: string, extension: string): (name: string)
    requires IsSafeName(generated) && IsSafeName(extension)
    requires wished.Some? ==> IsSafeName(wished.value)
    ensures IsFileName(name)
    ensures kind.Product? ==> name == (match wished case Some(w) => w case None => generated) + "." + extension
  {
    var stem :=
      if kind.Avatar? then
        match NormalizedPart(login)
        case None => "avatar"
        case Some(part) => part
      else if wished.Some? then wished.value else generated;
    NameWithExtension(stem, extension);
    stem + "." + extension
  }

  /** A user's avatars of one image type all have one name, so a new one replaces the old. */
  lemma AvatarsReplaceEachOther(login: string, a: Option<string>, b: Option<string>, generatedA: string, generatedB: string,
                                extension: string)
    requires IsSafeName(generatedA) && IsSafeName(generatedB) && IsSafeName(extension)
    requires (a.Some? ==> IsSafeName(a.value)) && (b.Some? ==> IsSafeName(b.value))
    ensures UploadFilename(Avatar, login, a, generatedA, extension) == UploadFilename(Avatar, login, b, generatedB, extension)
  {
    hide NormalizedPart, IsSafeName;
  }

  lemma NameWithExtension(stem: string, extension: string)
    requires IsSafeName(stem) && IsSafeName(extension)
    ensures IsFileName(stem + "." + extension)
  {
    hide IsSafeChar;
    var name := stem + "." + extension;
    assert forall i :: 0 <= i < |stem| ==> name[i] == stem[i];
    assert forall i :: 0 <= i < |extension| ==> name[|stem| + 1 + i] == extension[i];
  }

  // ---------------------------------------------------------------- written paths and URLs

  function ReplaceBackslashes(s: string): (t: string)
    ensures |t| == |s| && forall i :: 0 <= i < |s| ==> t[i] == if s[i] == '\\' then '/' else s[i]
  {
    seq(|s|, i requires 0 <= i < |s| => if s[i] == '\\' then '/' else s[i])
  }

  function LocalPath(target: Target, filename: string): string { target.localDir + "/" + filename }

  function LocalUrl(target: Target, filename: string): string {
    var path := LocalPath(target, filename);
    "/uploads/" + ReplaceBackslashes(if "uploads/" <= path then path[8..] else filename)
  }

  function RemoteBase(c: Config, target: Target): string {
    if c.storageRootDir == "" then target.ftpDir else c.storageRootDir + "/" + target.ftpDir
  }

  /** What the FTP server is told: change into the base directory, store the file there. */
  function WrittenRemotely(c: Config, target: Target, filename: string): seq<string> {
    Components(RemoteBase(c, target)) + Components(filename)
  }

  function UnderDir(dir: string, filename: string): string {
    if TrimChar(dir, '/') == "" then filename else TrimChar(dir, '/') + "/" + filename
  }

  function RemoteUrl(c: Config, target: Target, filename: string): string {
    match c.publicBase
    case Some(base) => TrimEndChar(base, '/') + "/" + UnderDir(target.publicDir, filename)
    case None =>
      "ftp://" + c.host + ":" + Decimal(c.port) + "/" + TrimChar(c.rootDir, '/') + "/" + UnderDir(target.publicDir, filename)
  }

  // ---------------------------------------------------------------- the upload attempts

  /** How one attempt ends: stored, or an error message that may be an authentication refusal. */
  datatype Attempt = Stored | Refused(message: string, authentication: bool)

  predicate Ends(a: Attempt) { a.Stored? || a.authentication }

  /** Repeats a failed attempt unless the login was refused; the last error message decides. */
  method AttemptUpload(attempts: nat, outcome: nat -> Attempt) returns (succeeded: bool, made: nat)
    requires 1 <= attempts
    ensures 1 <= made <= attempts && (made == attempts || outcome(made).Stored? || outcome(made).authentication)
    ensures forall i | 1 <= i < made :: outcome(i).Refused? && !outcome(i).authentication
    ensures succeeded <==> outcome(made).Stored? || outcome(made).message == ""
  {
    var lastError := "";
    made := 1;
    while true
      invariant 1 <= made <= attempts
      invariant forall i | 1 <= i < made :: !Ends(outcome(i))
      decreases attempts - made
    {
      var a := outcome(made);
      lastError := if a.Stored? then "" else a.message;
      if Ends(a) || made == attempts {
        break;
      }
      made := made + 1;
    }
    succeeded := lastError == "";
  }
}
