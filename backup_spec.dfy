/**
 * What `collect` and `export` of backup_opencode.py do to a filesystem, as
 * functions of the filesystem and of the environment they run in. Every
 * step either continues with a new state or raises; `try ... finally`
 * becomes `Cleanup` after the body.
 */
module BackupSpec {
  import opened Wrappers
  import opened FsModel

  /** An external command: not on PATH, installed but exiting non-zero, or working. */
  datatype Tool = Missing | Failing | Working

  /**
   * What the scripts read from their environment: the home directory, the
   * working directory, the `%Y%m%d_%H%M%S` timestamp, and the `zip` and
   * `unzip` commands.
   */
  datatype Env = Env(home: Path, cwd: Path, timestamp: string, zip: Tool, unzip: Tool)

  /** The state a computation ends in and what it returns or raises. */
  datatype Run<T> = Run(fs: FsState, result: Result<T, Error>)

  /** Which reader extracted the archive. */
  datatype Reader = UnzipCommand | ZipfileModule

  datatype Extracted = Extracted(fs: FsState, reader: Reader)

  /** The archive-internal folder of each slot, in slot order. */
  const SlotNames: seq<string> := ["config", "cache", "bun_cache"]

  /**
   * `get_opencode_dirs`: the config, cache and bun cache directories under
   * `home`. They lie under home, have a parent below home, and none lies
   * under another.
   */
  function OpencodeDirs(home: Path): (dirs: seq<Path>)
    ensures |dirs| == |SlotNames| == 3
    ensures forall i | 0 <= i < 3 :: IsUnder(dirs[i], home) && |dirs[i]| >= |home| + 2
    ensures forall i, j | 0 <= i < 3 && 0 <= j < 3 && i != j :: Disjoint(dirs[i], dirs[j])
  {
    var d := [home + [".config", "opencode"], home + [".cache", "opencode"], home + [".bun", "install", "cache"]];
    forall i | 0 <= i < 3 ensures IsUnder(d[i], home) {
      assert d[i][..|home|] == home;
    }
    forall i, j | 0 <= i < 3 && 0 <= j < 3 && i != j ensures Disjoint(d[i], d[j]) {
      assert d[i][|home|] != d[j][|home|];
    }
    d
  }

  /** Python truthiness of the optional password: `None` and `""` are false. */
  predicate Truthy(password: Option<string>) {
    password.Some? && password.value != ""
  }

  /** The staging tree of `collect`: `opencode_backup_<timestamp>` in the working directory. */
  function Staging(env: Env): Path {
    env.cwd + ["opencode_backup_" + env.timestamp]
  }

  /** The extraction tree of `export`: `opencode_restore_<timestamp>` in the working directory. */
  function RestoreDir(env: Env): Path {
    env.cwd + ["opencode_restore_" + env.timestamp]
  }

  /** The archive name: the one given, or `opencode_backup_<timestamp>.zip`. */
  function ArchiveName(env: Env, output: Option<Path>): Path {
    output.GetOr(["opencode_backup_" + env.timestamp + ".zip"])
  }

  /** Runs the finally-block `if p.exists(): shutil.rmtree(p)` after `run`. */
  function Cleanup<T>(run: Run<T>, p: Path): Run<T>
    requires |p| > 0
  {
    if !Exists(run.fs, p) then run
    else match RmTree(run.fs, p)
      case Ok(t) => Run(t, run.result)
      case Err(e) => Run(run.fs, Err(e))
  }

  // ---------------------------------------------------------------------
  // collect
  // ---------------------------------------------------------------------

  /** Copying one slot into the staging tree, or skipping it when its source is absent. */
  function StageSlot(s: FsState, src: Path, dst: Path): Result<FsState, Error> {
    if Exists(s, src) then CopyTree(s, src, dst) else Ok(s)
  }

  /** Staging slots `i` .. 2 in order; the first exception stops the rest. */
  function StageFrom(s: FsState, home: Path, staging: Path, i: nat): Run<()>
    decreases 3 - i
  {
    if i >= 3 then Run(s, Ok(()))
    else match StageSlot(s, OpencodeDirs(home)[i], staging + [SlotNames[i]])
      case Err(e) => Run(s, Err(e))
      case Ok(t) => StageFrom(t, home, staging, i + 1)
  }

  /** What the `os.walk` loop writes: every file under `root`, by relative path, unprotected. */
  function PlainArchive(s: FsState, root: Path): Archive {
    Archive(SubFiles(s.files, root), {}, Unprotected)
  }

  /** What `zip -r -P pwd` writes: files and directory entries under `root`, encrypted. */
  function ZipArchive(s: FsState, root: Path, pwd: string): Archive {
    Archive(SubFiles(s.files, root), Rel(s.dirs, root) - {[]}, ZipCrypto(pwd))
  }

  /**
   * `zip -r ... .` in `root` has nothing to add (exit status 12) when the
   * tree holds no file and no directory besides `root` itself.
   */
  predicate NothingToZip(s: FsState, root: Path) {
    SubFiles(s.files, root) == map[] && Rel(s.dirs, root) - {[]} == {}
  }

  /**
   * `subprocess.run(["zip", "-r", "-P", pwd, ...], check=True)`. A missing
   * executable raises FileNotFoundError; a non-zero exit (an empty tree, or
   * an archive that cannot be written) raises CalledProcessError.
   */
  function ZipCommand(s: FsState, staging: Path, target: Path, pwd: string, zip: Tool): Result<FsState, Error> {
    match zip
    case Missing => Err(FileNotFound)
    case Failing => Err(CommandFailed)
    case Working =>
      if NothingToZip(s, staging) then Err(CommandFailed)
      else match WriteFile(s, target, Zip(ZipArchive(s, staging, pwd)))
        case Ok(t) => Ok(t)
        case Err(_) => Err(CommandFailed)
  }

  /** `zipfile.ZipFile(target, 'w')` filled from the staging tree. */
  function WritePlain(s: FsState, staging: Path, target: Path): Result<FsState, Error> {
    WriteFile(s, target, Zip(PlainArchive(s, staging)))
  }

  /**
   * Lines 119-144: with a truthy password try the `zip` command; on
   * CalledProcessError drop the password and write a plain archive; any other
   * exception propagates.
   */
  function WriteArchive(s: FsState, staging: Path, target: Path, password: Option<string>, zip: Tool): Result<FsState, Error> {
    if Truthy(password) then
      match ZipCommand(s, staging, target, password.value, zip)
      case Ok(t) => Ok(t)
      case Err(e) => if e == CommandFailed then WritePlain(s, staging, target) else Err(e)
    else WritePlain(s, staging, target)
  }

  /** The `try` block of `collect`. */
  function CollectBody(s: FsState, env: Env, output: Option<Path>, password: Option<string>): Run<Path> {
    var staging := Staging(env);
    match MkDir(s, staging)
    case Err(e) => Run(s, Err(e))
    case Ok(s1) =>
      var st := StageFrom(s1, env.home, staging, 0);
      if st.result.Err? then Run(st.fs, Err(st.result.error))
      else
        var name := ArchiveName(env, output);
        match WriteArchive(st.fs, staging, env.cwd + name, password, env.zip)
        case Err(e) => Run(st.fs, Err(e))
        case Ok(t) => Run(t, Ok(name))
  }

  /** `collect(output_file, password)`: the body, then the staging tree removed. */
  function CollectRun(s: FsState, env: Env, output: Option<Path>, password: Option<string>): Run<Path> {
    Cleanup(CollectBody(s, env, output, password), Staging(env))
  }

  // ---------------------------------------------------------------------
  // export
  // ---------------------------------------------------------------------

  /**
   * ZipCrypto encrypts file entries only: a directory entry is created
   * without being opened, so an archive without file entries needs no password.
   */
  predicate Locked(a: Archive) {
    a.protection.ZipCrypto? && a.entries != map[]
  }

  /** An archive with no entry at all, which `unzip` refuses ("zipfile is empty", exit status 1). */
  predicate EmptyArchive(a: Archive) {
    a.entries == map[] && a.folders == {}
  }

  /**
   * `unzip -P pwd -d temp zip`: exits zero iff the archive has some entry, its
   * file entries open with `pwd`, and it can be written.
   */
  function UnzipRead(s: FsState, zipPath: Path, temp: Path, pwd: string): Result<FsState, Error> {
    if zipPath in s.files && s.files[zipPath].Zip?
       && !EmptyArchive(s.files[zipPath].archive)
       && (!Locked(s.files[zipPath].archive) || s.files[zipPath].archive.protection.password == pwd)
    then
      match Place(s, temp, s.files[zipPath].archive)
      case Ok(t) => Ok(t)
      case Err(_) => Err(CommandFailed)
    else Err(CommandFailed)
  }

  /** `zipfile.ZipFile(zip, 'r').extractall(temp, pwd=...)`. */
  function ZipfileRead(s: FsState, zipPath: Path, temp: Path, pwd: Option<string>): Result<FsState, Error> {
    if zipPath in s.dirs then Err(IsADirectory)
    else if zipPath !in s.files then Err(FileNotFound)
    else match s.files[zipPath]
      case Data(_) => Err(BadZipFile)
      case Zip(a) =>
        if Locked(a) && pwd.None? then Err(PasswordRequired)
        else if Locked(a) && pwd.value != a.protection.password then Err(BadPassword)
        else Place(s, temp, a)
  }

  function ByZipfile(r: Result<FsState, Error>): Result<Extracted, Error> {
    match r
    case Ok(t) => Ok(Extracted(t, ZipfileModule))
    case Err(e) => Err(e)
  }

  /**
   * Lines 172-191: with a truthy password try the `unzip` command and, on
   * CalledProcessError, `zipfile` with the password; otherwise `zipfile`
   * without one. A missing `unzip` raises FileNotFoundError, uncaught.
   */
  function Extract(s: FsState, zipPath: Path, temp: Path, password: Option<string>, unzip: Tool): Result<Extracted, Error> {
    if Truthy(password) then
      match unzip
      case Missing => Err(FileNotFound)
      case Failing => ByZipfile(ZipfileRead(s, zipPath, temp, password))
      case Working =>
        match UnzipRead(s, zipPath, temp, password.value)
        case Ok(t) => Ok(Extracted(t, UnzipCommand))
        case Err(_) => ByZipfile(ZipfileRead(s, zipPath, temp, password))
    else ByZipfile(ZipfileRead(s, zipPath, temp, None))
  }

  /**
   * Restoring one slot from `src`: skip it when `src` is absent; otherwise
   * remove an existing `dest`, create `dest`'s parent, copy `src` to `dest`.
   * An exception stops at the step that raised, after the earlier steps took effect.
   */
  function RestoreSlot(s: FsState, src: Path, dest: Path): Run<()>
    requires |dest| > 0
  {
    if !Exists(s, src) then Run(s, Ok(()))
    else
      var removed := if Exists(s, dest) then RmTree(s, dest) else Ok(s);
      match removed
      case Err(e) => Run(s, Err(e))
      case Ok(s1) =>
        match MakeDirs(s1, Parent(dest))
        case Err(e) => Run(s1, Err(e))
        case Ok(s2) =>
          match CopyTree(s2, src, dest)
          case Err(e) => Run(s2, Err(e))
          case Ok(s3) => Run(s3, Ok(()))
  }

  /** Restoring slots `i` .. 2 in order; an exception aborts the remaining slots. */
  function RestoreFrom(s: FsState, home: Path, temp: Path, i: nat): Run<()>
    decreases 3 - i
  {
    if i >= 3 then Run(s, Ok(()))
    else
      var r := RestoreSlot(s, temp + [SlotNames[i]], OpencodeDirs(home)[i]);
      if r.result.Err? then r else RestoreFrom(r.fs, home, temp, i + 1)
  }

  /** The `try` block of `export`. */
  function ExportBody(s: FsState, env: Env, zipPath: Path, password: Option<string>): Run<()> {
    var temp := RestoreDir(env);
    match MkDir(s, temp)
    case Err(e) => Run(s, Err(e))
    case Ok(s1) =>
      match Extract(s1, zipPath, temp, password, env.unzip)
      case Err(e) => Run(s1, Err(e))
      case Ok(x) => RestoreFrom(x.fs, env.home, temp, 0)
  }

  /**
   * `export(zip_file, password)`. A missing archive exits with status 1
   * before anything is created; otherwise the body runs and the extraction
   * tree is removed.
   */
  function ExportRun(s: FsState, env: Env, zipPath: Path, password: Option<string>): (r: Run<()>)
    ensures !Exists(s, zipPath) ==> r == Run(s, Err(SystemExit(1)))
  {
    if !Exists(s, zipPath) then Run(s, Err(SystemExit(1)))
    else Cleanup(ExportBody(s, env, zipPath, password), RestoreDir(env))
  }
}
