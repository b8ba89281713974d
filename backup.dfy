/**
 * `collect` and `export` of backup_opencode.py as methods that change a
 * `FileSystem` step by step. Each method ends in the state, and returns or
 * raises what, the function of the same name in `BackupSpec` says.
 */
module Backup {
  import opened Wrappers
  import opened FsModel
  import opened FileSystems
  import opened BackupSpec

  /**
   * The `os.walk` loop of lines 140-144: every file under `root`, keyed by
   * its path relative to `root` (`file_path.relative_to(backup_dir)`).
   */
  method WalkFiles(fs: FileSystem, root: Path) returns (entries: map<Path, Blob>)
    ensures entries == SubFiles(fs.files, root)
  {
    entries := map[];
    var todo := fs.files.Keys;
    while todo != {}
      invariant todo <= fs.files.Keys
      invariant forall q | q in fs.files && q !in todo && IsUnder(q, root) ::
        q[|root|..] in entries && entries[q[|root|..]] == fs.files[q]
      invariant forall r | r in entries :: root + r in fs.files && root + r !in todo && entries[r] == fs.files[root + r]
      decreases todo
    {
      var p :| p in todo;
      if IsUnder(p, root) {
        assert root + p[|root|..] == p by {
          assert p == p[..|root|] + p[|root|..];
        }
        entries := entries[p[|root|..] := fs.files[p]];
      }
      todo := todo - {p};
    }
    forall r ensures r in entries <==> r in SubFiles(fs.files, root) {
      SubFilesAt(fs.files, root, r);
      assert IsUnder(root + r, root) && (root + r)[|root|..] == r;
    }
    forall r | r in entries ensures entries[r] == SubFiles(fs.files, root)[r] {
      SubFilesAt(fs.files, root, r);
    }
  }

  /** Lines 92-110, one slot: copy the source into the staging tree if it exists. */
  method StageSlot(fs: FileSystem, src: Path, dst: Path) returns (r: Status)
    requires fs.Valid()
    modifies fs
    ensures fs.Valid()
    ensures Applied(BackupSpec.StageSlot(old(fs.State()), src, dst), old(fs.State()), fs.State(), r)
  {
    var present := fs.Exists(src);
    if present {
      r := fs.CopyTree(src, dst);
    } else {
      r := Ok(());
    }
  }

  /** `zip -r -P pwd ../<archive> .` run in the staging tree. */
  method RunZip(fs: FileSystem, staging: Path, target: Path, pwd: string, zip: Tool) returns (r: Status)
    requires fs.Valid()
    modifies fs
    ensures fs.Valid()
    ensures Applied(ZipCommand(old(fs.State()), staging, target, pwd, zip), old(fs.State()), fs.State(), r)
  {
    match zip
    case Missing =>
      r := Err(FileNotFound);
    case Failing =>
      r := Err(CommandFailed);
    case Working =>
      if NothingToZip(fs.State(), staging) {
        r := Err(CommandFailed);
      } else {
        var w := fs.WriteFile(target, Zip(ZipArchive(fs.State(), staging, pwd)));
        r := if w.Ok? then Ok(()) else Err(CommandFailed);
      }
  }

  /** Lines 119-144: the encrypted attempt, the fallback, and the plain archive. */
  method WriteArchive(fs: FileSystem, staging: Path, target: Path, password: Option<string>, zip: Tool)
    returns (r: Status)
    requires fs.Valid()
    modifies fs
    ensures fs.Valid()
    ensures Applied(BackupSpec.WriteArchive(old(fs.State()), staging, target, password, zip),
                    old(fs.State()), fs.State(), r)
  {
    var pwd := password;
    if Truthy(pwd) {
      var z := RunZip(fs, staging, target, pwd.value, zip);
      if z.Err? {
        if z.error == CommandFailed {
          pwd := None;
        } else {
          return z;
        }
      }
    }
    if !Truthy(pwd) {
      var entries := WalkFiles(fs, staging);
      r := fs.WriteFile(target, Zip(Archive(entries, {}, Unprotected)));
    } else {
      r := Ok(());
    }
  }

  /** The `try` block of `collect` (lines 87-149). */
  method CollectBody(fs: FileSystem, env: Env, output: Option<Path>, password: Option<string>)
    returns (r: Result<Path, Error>)
    requires fs.Valid()
    modifies fs
    ensures fs.Valid()
    ensures Run(fs.State(), r) == BackupSpec.CollectBody(old(fs.State()), env, output, password)
  {
    var staging := Staging(env);
    var st := fs.MkDir(staging);
    if st.Err? {
      return Err(st.error);
    }
    var srcs := OpencodeDirs(env.home);
    ghost var s1 := fs.State();
    st := StageSlot(fs, srcs[0], staging + [SlotNames[0]]);
    if st.Err? {
      return Err(st.error);
    }
    ghost var s2 := fs.State();
    st := StageSlot(fs, srcs[1], staging + [SlotNames[1]]);
    if st.Err? {
      assert StageFrom(s2, env.home, staging, 1) == Run(s2, st);
      return Err(st.error);
    }
    ghost var s3 := fs.State();
    st := StageSlot(fs, srcs[2], staging + [SlotNames[2]]);
    if st.Err? {
      assert StageFrom(s3, env.home, staging, 2) == Run(s3, st);
      assert StageFrom(s2, env.home, staging, 1) == Run(s3, st);
      return Err(st.error);
    }
    assert StageFrom(fs.State(), env.home, staging, 3) == Run(fs.State(), Ok(()));
    assert StageFrom(s3, env.home, staging, 2) == Run(fs.State(), Ok(()));
    assert StageFrom(s2, env.home, staging, 1) == Run(fs.State(), Ok(()));
    assert StageFrom(s1, env.home, staging, 0) == Run(fs.State(), Ok(()));
    var name := ArchiveName(env, output);
    st := WriteArchive(fs, staging, env.cwd + name, password, env.zip);
    if st.Err? {
      return Err(st.error);
    }
    r := Ok(name);
  }

  /** `collect(output_file, password)` (lines 73-155), with its finally-block cleanup. */
  method Collect(fs: FileSystem, env: Env, output: Option<Path>, password: Option<string>)
    returns (r: Result<Path, Error>)
    requires fs.Valid()
    modifies fs
    ensures fs.Valid()
    ensures Run(fs.State(), r) == CollectRun(old(fs.State()), env, output, password)
  {
    r := CollectBody(fs, env, output, password);
    var staging := Staging(env);
    var present := fs.Exists(staging);
    if present {
      var c := fs.RmTree(staging);
      if c.Err? {
        r := Err(c.error);
      }
    }
  }

  /** `unzip -P pwd -d temp zip`. */
  method RunUnzip(fs: FileSystem, zipPath: Path, temp: Path, pwd: string) returns (r: Status)
    requires fs.Valid()
    modifies fs
    ensures fs.Valid()
    ensures Applied(UnzipRead(old(fs.State()), zipPath, temp, pwd), old(fs.State()), fs.State(), r)
  {
    if zipPath in fs.files && fs.files[zipPath].Zip?
       && !EmptyArchive(fs.files[zipPath].archive)
       && (!Locked(fs.files[zipPath].archive) || fs.files[zipPath].archive.protection.password == pwd)
    {
      var placed := fs.Place(temp, fs.files[zipPath].archive);
      r := if placed.Ok? then Ok(()) else Err(CommandFailed);
    } else {
      r := Err(CommandFailed);
    }
  }

  /** `zipfile.ZipFile(zip, 'r')` and `extractall(temp, pwd=...)`. */
  method ZipfileExtract(fs: FileSystem, zipPath: Path, temp: Path, pwd: Option<string>) returns (r: Status)
    requires fs.Valid()
    modifies fs
    ensures fs.Valid()
    ensures Applied(ZipfileRead(old(fs.State()), zipPath, temp, pwd), old(fs.State()), fs.State(), r)
  {
    if zipPath in fs.dirs {
      return Err(IsADirectory);
    }
    if zipPath !in fs.files {
      return Err(FileNotFound);
    }
    match fs.files[zipPath]
    case Data(_) =>
      r := Err(BadZipFile);
    case Zip(a) =>
      if Locked(a) && pwd.None? {
        r := Err(PasswordRequired);
      } else if Locked(a) && pwd.value != a.protection.password {
        r := Err(BadPassword);
      } else {
        r := fs.Place(temp, a);
      }
  }

  /** Lines 172-191: the two-tier read path. */
  method ExtractArchive(fs: FileSystem, zipPath: Path, temp: Path, password: Option<string>, unzip: Tool)
    returns (r: Result<Reader, Error>)
    requires fs.Valid()
    modifies fs
    ensures fs.Valid()
    ensures match Extract(old(fs.State()), zipPath, temp, password, unzip)
            case Ok(x) => fs.State() == x.fs && r == Ok(x.reader)
            case Err(e) => fs.State() == old(fs.State()) && r == Err(e)
  {
    var st: Status;
    if Truthy(password) {
      match unzip
      case Missing =>
        return Err(FileNotFound);
      case Failing =>
        st := ZipfileExtract(fs, zipPath, temp, password);
      case Working =>
        st := RunUnzip(fs, zipPath, temp, password.value);
        if st.Ok? {
          return Ok(UnzipCommand);
        }
        st := ZipfileExtract(fs, zipPath, temp, password);
    } else {
      st := ZipfileExtract(fs, zipPath, temp, None);
    }
    r := if st.Ok? then Ok(ZipfileModule) else Err(st.error);
  }

  /** Lines 193-227, one slot: remove the destination, create its parent, copy the extracted folder. */
  method RestoreSlot(fs: FileSystem, src: Path, dest: Path) returns (r: Status)
    requires fs.Valid() && |dest| > 0
    modifies fs
    ensures fs.Valid()
    ensures Run(fs.State(), r) == BackupSpec.RestoreSlot(old(fs.State()), src, dest)
  {
    var present := fs.Exists(src);
    if !present {
      return Ok(());
    }
    var existing := fs.Exists(dest);
    if existing {
      r := fs.RmTree(dest);
      if r.Err? {
        return;
      }
    }
    r := fs.MakeDirs(Parent(dest));
    if r.Err? {
      return;
    }
    r := fs.CopyTree(src, dest);
  }

  /** Lines 193-227: the three slots in order; an exception aborts the rest. */
  method RestoreAll(fs: FileSystem, home: Path, temp: Path) returns (r: Status)
    requires fs.Valid()
    modifies fs
    ensures fs.Valid()
    ensures Run(fs.State(), r) == RestoreFrom(old(fs.State()), home, temp, 0)
  {
    var dests := OpencodeDirs(home);
    ghost var s0 := fs.State();
    r := RestoreSlot(fs, temp + [SlotNames[0]], dests[0]);
    ghost var t0 := Run(fs.State(), r);
    if r.Err? {
      RestoreChain(s0, home, temp, t0, t0, t0);
      return;
    }
    r := RestoreSlot(fs, temp + [SlotNames[1]], dests[1]);
    ghost var t1 := Run(fs.State(), r);
    if r.Err? {
      RestoreChain(s0, home, temp, t0, t1, t1);
      return;
    }
    r := RestoreSlot(fs, temp + [SlotNames[2]], dests[2]);
    RestoreChain(s0, home, temp, t0, t1, Run(fs.State(), r));
  }

  /** `RestoreFrom` from slot 0, given the outcome of each slot that ran. */
  lemma RestoreChain(s0: FsState, home: Path, temp: Path, t0: Run<()>, t1: Run<()>, t2: Run<()>)
    requires t0 == BackupSpec.RestoreSlot(s0, temp + [SlotNames[0]], OpencodeDirs(home)[0])
    requires t0.result.Ok? ==> t1 == BackupSpec.RestoreSlot(t0.fs, temp + [SlotNames[1]], OpencodeDirs(home)[1])
    requires t0.result.Ok? && t1.result.Ok? ==> t2 == BackupSpec.RestoreSlot(t1.fs, temp + [SlotNames[2]], OpencodeDirs(home)[2])
    ensures RestoreFrom(s0, home, temp, 0)
         == if t0.result.Err? then t0 else if t1.result.Err? then t1 else Run(t2.fs, t2.result)
  {
    RestoreFromStep(s0, home, temp, 0, t0);
    if t0.result.Ok? {
      RestoreFromStep(t0.fs, home, temp, 1, t1);
      if t1.result.Ok? {
        RestoreFromStep(t1.fs, home, temp, 2, t2);
      }
    }
  }

  /** One restore step of `RestoreFrom`, given its outcome. */
  lemma RestoreFromStep(s: FsState, home: Path, temp: Path, i: nat, step: Run<()>)
    requires i < 3 && step == BackupSpec.RestoreSlot(s, temp + [SlotNames[i]], OpencodeDirs(home)[i])
    ensures RestoreFrom(s, home, temp, i) == if step.result.Err? then step else RestoreFrom(step.fs, home, temp, i + 1)
  {
  }

  /** The `try` block of `export` (lines 169-229). */
  method ExportBody(fs: FileSystem, env: Env, zipPath: Path, password: Option<string>) returns (r: Status)
    requires fs.Valid()
    modifies fs
    ensures fs.Valid()
    ensures Run(fs.State(), r) == BackupSpec.ExportBody(old(fs.State()), env, zipPath, password)
  {
    var temp := RestoreDir(env);
    r := fs.MkDir(temp);
    if r.Err? {
      return;
    }
    var x := ExtractArchive(fs, zipPath, temp, password, env.unzip);
    if x.Err? {
      return Err(x.error);
    }
    r := RestoreAll(fs, env.home, temp);
  }

  /** `export(zip_file, password)` (lines 158-235), with its finally-block cleanup. */
  method Export(fs: FileSystem, env: Env, zipPath: Path, password: Option<string>) returns (r: Status)
    requires fs.Valid()
    modifies fs
    ensures fs.Valid()
    ensures Run(fs.State(), r) == ExportRun(old(fs.State()), env, zipPath, password)
  {
    var found := fs.Exists(zipPath);
    if !found {
      return Err(SystemExit(1));
    }
    r := ExportBody(fs, env, zipPath, password);
    var temp := RestoreDir(env);
    var present := fs.Exists(temp);
    if present {
      var c := fs.RmTree(temp);
      if c.Err? {
        r := Err(c.error);
      }
    }
  }
}
