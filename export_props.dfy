/**
 * Properties of `export` (backup_opencode.py:158-235): when the archive can be
 * read, what each destination holds afterwards, what a wrong password does,
 * and that no extraction tree is left behind.
 */
module ExportProperties {
  import opened Wrappers
  import opened FsModel
  import opened FsFrames
  import opened BackupSpec
  import opened CleanupProperties

  /**
   * The situation the properties below speak about: a valid filesystem with
   * no extraction tree yet, apart from the three destinations.
   */
  predicate ExportSetting(s: FsState, env: Env) {
    && Valid(s)
    && !Exists(s, RestoreDir(env))
    && (forall j | 0 <= j < 3 :: Disjoint(RestoreDir(env), OpencodeDirs(env.home)[j]))
  }

  /** The archive's file entries can be read with `password` as `export` passes it on. */
  predicate Opens(a: Archive, password: Option<string>) {
    !Locked(a) || (Truthy(password) && password.value == a.protection.password)
  }

  // ---------------------------------------------------------------------
  // Reading the archive
  // ---------------------------------------------------------------------

  /**
   * Lines 172-191: extraction succeeds exactly when the path holds a zip
   * archive, the password opens its file entries, its entries can be placed
   * under the extraction tree, and a truthy password does not meet a missing
   * `unzip`. It then places the entries, and the `unzip` command is the
   * reader exactly when a truthy password met a working one and the archive
   * is not empty.
   */
  lemma ExtractOk(s: FsState, zipPath: Path, temp: Path, password: Option<string>, unzip: Tool)
    requires Valid(s)
    ensures Extract(s, zipPath, temp, password, unzip).Ok? <==>
      && zipPath in s.files && s.files[zipPath].Zip?
      && Opens(s.files[zipPath].archive, password)
      && Place(s, temp, s.files[zipPath].archive).Ok?
      && !(Truthy(password) && unzip == Missing)
    ensures Extract(s, zipPath, temp, password, unzip).Ok? ==>
      && Extract(s, zipPath, temp, password, unzip).value.fs == Place(s, temp, s.files[zipPath].archive).value
      && Extract(s, zipPath, temp, password, unzip).value.reader
         == (if Truthy(password) && unzip == Working && !EmptyArchive(s.files[zipPath].archive)
             then UnzipCommand else ZipfileModule)
  {
  }

  /** The error a locked archive gives for a password that does not open it. */
  function LockedError(password: Option<string>, unzip: Tool): Error {
    if !Truthy(password) then PasswordRequired
    else if unzip == Missing then FileNotFound
    else BadPassword
  }

  lemma ExtractLocked(s: FsState, zipPath: Path, temp: Path, password: Option<string>, unzip: Tool)
    requires Valid(s) && zipPath in s.files && s.files[zipPath].Zip?
    requires !Opens(s.files[zipPath].archive, password)
    ensures Extract(s, zipPath, temp, password, unzip) == Err(LockedError(password, unzip))
  {
  }

  /** Removing a directory just created in an empty spot restores the filesystem. */
  lemma WithoutFresh(s: FsState, p: Path)
    requires Valid(s) && !Exists(s, p)
    ensures Without(FsState(s.files, s.dirs + {p}), p) == s
  {
    AbsentIsEmpty(s, p);
    assert IsUnder(p, p);
  }

  /**
   * A password that does not open an encrypted archive makes `export` fail
   * with PasswordRequired (no truthy password), FileNotFoundError (no `unzip`)
   * or the bad-password error, and leaves the filesystem exactly as it was.
   */
  lemma ExportWrongPassword(s: FsState, env: Env, zipPath: Path, password: Option<string>)
    requires ExportSetting(s, env) && env.cwd in s.dirs
    requires zipPath in s.files && s.files[zipPath].Zip?
    requires !Opens(s.files[zipPath].archive, password)
    ensures ExportRun(s, env, zipPath, password) == Run(s, Err(LockedError(password, env.unzip)))
  {
    var temp := RestoreDir(env);
    NotBlockedDir(s, env.cwd);
    assert Parent(temp) == env.cwd;
    var s1 := MkDir(s, temp).value;
    assert s1 == FsState(s.files, s.dirs + {temp});
    MkDirValid(s, temp);
    ExtractLocked(s1, zipPath, temp, password, env.unzip);
    assert ExportBody(s, env, zipPath, password) == Run(s1, Err(LockedError(password, env.unzip)));
    WithoutFresh(s, temp);
  }

  // ---------------------------------------------------------------------
  // Restoring the slots
  // ---------------------------------------------------------------------

  /** Restoring into `dest` touches nothing apart from `dest`, whatever the outcome. */
  lemma RestoreSlotFrame(s: FsState, src: Path, dest: Path, x: Path)
    requires |dest| > 0 && Disjoint(x, dest)
    ensures SameAt(s, RestoreSlot(s, src, dest).fs, x)
  {
    if Exists(s, src) {
      if Exists(s, dest) && RmTree(s, dest).Ok? {
        RmTreeFrame(s, dest, x);
      }
      var s1 := if Exists(s, dest) && RmTree(s, dest).Ok? then RmTree(s, dest).value else s;
      if MakeDirs(s1, Parent(dest)).Ok? {
        if IsUnder(Parent(dest), x) {
          UnderParent(dest, x);
        }
        MakeDirsFrame(s1, Parent(dest), x);
        var s2 := MakeDirs(s1, Parent(dest)).value;
        if CopyTree(s2, src, dest).Ok? {
          CopyTreeFrame(s2, src, dest, x);
        }
      }
    }
  }

  /** Restoring a slot keeps the filesystem valid, whatever the outcome. */
  lemma RestoreSlotValid(s: FsState, src: Path, dest: Path)
    requires Valid(s) && |dest| > 0
    ensures Valid(RestoreSlot(s, src, dest).fs)
  {
    if Exists(s, src) {
      if Exists(s, dest) {
        RmTreeValid(s, dest);
      }
      var s1 := if Exists(s, dest) && RmTree(s, dest).Ok? then RmTree(s, dest).value else s;
      MakeDirsValid(s1, Parent(dest));
      if MakeDirs(s1, Parent(dest)).Ok? {
        CopyTreeValid(MakeDirs(s1, Parent(dest)).value, src, dest);
      }
    }
  }

  /** Creating the parent of `dest` puts nothing under `dest`. */
  lemma MakeParentKeepsEmpty(s: FsState, dest: Path)
    requires |dest| > 0 && NothingUnder(s, dest) && MakeDirs(s, Parent(dest)).Ok?
    ensures NothingUnder(MakeDirs(s, Parent(dest)).value, dest)
  {
    forall q | q in Ancestors(Parent(dest)) ensures !IsUnder(q, dest) {
      AncestorsAt(Parent(dest), q);
    }
  }

  /**
   * A restore step from a slot folder of `temp` never turns `temp` itself
   * into a file, wherever its destination lies.
   */
  lemma RestoreSlotNoFileAt(s: FsState, temp: Path, n: string, dest: Path)
    requires Valid(s) && |dest| > 0 && temp !in s.files
    ensures temp !in RestoreSlot(s, temp + [n], dest).fs.files
  {
    var src := temp + [n];
    if Exists(s, src) {
      if Exists(s, dest) {
        RmTreeValid(s, dest);
      }
      var s1 := if Exists(s, dest) && RmTree(s, dest).Ok? then RmTree(s, dest).value else s;
      assert temp !in s1.files;
      if MakeDirs(s1, Parent(dest)).Ok? {
        MakeDirsValid(s1, Parent(dest));
        var s2 := MakeDirs(s1, Parent(dest)).value;
        if CopyTree(s2, src, dest).Ok? {
          var tf := SubFiles(s2.files, src);
          ShiftMapKeys(dest, tf);
          ShiftAt(dest, tf.Keys, temp);
          if IsUnder(temp, dest) && temp[|dest|..] in tf {
            var r := temp[|dest|..];
            if |temp| == |dest| {
              assert src + r == src;
              SubFilesAt(s2.files, src, r);
              assert false;
            } else {
              assert IsUnder(src, dest) by { assert src[..|dest|] == temp[..|dest|]; }
              RootOfExisting(s2, src, dest);
              assert false;
            }
          }
        }
      }
    }
  }

  /**
   * A successful slot restore leaves under `dest` exactly the files and
   * directories under `src` when `src` exists (which is then a directory),
   * and what was there before otherwise.
   */
  lemma RestoreSlotEffect(s: FsState, src: Path, dest: Path)
    requires Valid(s) && |dest| > 0 && Disjoint(src, dest)
    requires RestoreSlot(s, src, dest).result.Ok?
    ensures SubFiles(RestoreSlot(s, src, dest).fs.files, dest)
         == if Exists(s, src) then SubFiles(s.files, src) else SubFiles(s.files, dest)
    ensures Rel(RestoreSlot(s, src, dest).fs.dirs, dest)
         == if Exists(s, src) then Rel(s.dirs, src) else Rel(s.dirs, dest)
    ensures Exists(s, src) ==> src in s.dirs
  {
    if Exists(s, src) {
      if Exists(s, dest) {
        RmTreeFrame(s, dest, src);
        RmTreeValid(s, dest);
        WithoutEmpties(s, dest);
      } else {
        AbsentIsEmpty(s, dest);
      }
      var s1 := if Exists(s, dest) then RmTree(s, dest).value else s;
      if IsUnder(Parent(dest), src) {
        UnderParent(dest, src);
      }
      MakeDirsFrame(s1, Parent(dest), src);
      MakeParentKeepsEmpty(s1, dest);
      var s2 := MakeDirs(s1, Parent(dest)).value;
      CopyTreeContents(s2, src, dest);
      CopyTreeDirs(s2, src, dest);
      SameAtExists(s, s1, src);
      SameAtExists(s1, s2, src);
    }
  }

  lemma {:induction false} RestoreFromFrame(s: FsState, home: Path, temp: Path, k: nat, x: Path)
    requires forall j | k <= j < 3 :: Disjoint(x, OpencodeDirs(home)[j])
    ensures SameAt(s, RestoreFrom(s, home, temp, k).fs, x)
    decreases 3 - k
  {
    if k < 3 {
      var dest := OpencodeDirs(home)[k];
      RestoreSlotFrame(s, temp + [SlotNames[k]], dest, x);
      var r := RestoreSlot(s, temp + [SlotNames[k]], dest);
      if r.result.Ok? {
        RestoreFromFrame(r.fs, home, temp, k + 1, x);
      }
    }
  }

  lemma {:induction false} RestoreFromValid(s: FsState, home: Path, temp: Path, k: nat)
    requires Valid(s)
    ensures Valid(RestoreFrom(s, home, temp, k).fs)
    decreases 3 - k
  {
    if k < 3 {
      RestoreSlotValid(s, temp + [SlotNames[k]], OpencodeDirs(home)[k]);
      var r := RestoreSlot(s, temp + [SlotNames[k]], OpencodeDirs(home)[k]);
      if r.result.Ok? {
        RestoreFromValid(r.fs, home, temp, k + 1);
      }
    }
  }

  /**
   * Restoring slots `k` .. 2 from an extraction tree apart from every
   * destination: each destination ends with the files and directories of
   * its extracted folder when that folder exists (and is a directory), and
   * keeps its own otherwise.
   */
  lemma {:induction false} RestoreFromEffect(s: FsState, home: Path, temp: Path, k: nat)
    requires Valid(s)
    requires forall j | k <= j < 3 :: Disjoint(temp, OpencodeDirs(home)[j])
    requires RestoreFrom(s, home, temp, k).result.Ok?
    ensures forall i | k <= i < 3 ::
      SubFiles(RestoreFrom(s, home, temp, k).fs.files, OpencodeDirs(home)[i])
      == if Exists(s, temp + [SlotNames[i]]) then SubFiles(s.files, temp + [SlotNames[i]])
         else SubFiles(s.files, OpencodeDirs(home)[i])
    ensures forall i | k <= i < 3 ::
      Rel(RestoreFrom(s, home, temp, k).fs.dirs, OpencodeDirs(home)[i])
      == if Exists(s, temp + [SlotNames[i]]) then Rel(s.dirs, temp + [SlotNames[i]])
         else Rel(s.dirs, OpencodeDirs(home)[i])
    ensures forall i | k <= i < 3 :: Exists(s, temp + [SlotNames[i]]) ==> temp + [SlotNames[i]] in s.dirs
    decreases 3 - k
  {
    if k < 3 {
      var dirs := OpencodeDirs(home);
      var src := temp + [SlotNames[k]];
      DisjointBelow(dirs[k], temp, [SlotNames[k]]);
      RestoreSlotEffect(s, src, dirs[k]);
      RestoreSlotValid(s, src, dirs[k]);
      var t := RestoreSlot(s, src, dirs[k]).fs;
      forall i | k + 1 <= i < 3
        ensures SameAt(s, t, temp + [SlotNames[i]]) && SameAt(s, t, dirs[i])
      {
        DisjointBelow(dirs[k], temp, [SlotNames[i]]);
        RestoreSlotFrame(s, src, dirs[k], temp + [SlotNames[i]]);
        RestoreSlotFrame(s, src, dirs[k], dirs[i]);
        SameAtExists(s, t, temp + [SlotNames[i]]);
      }
      RestoreFromEffect(t, home, temp, k + 1);
      RestoreFromFrame(t, home, temp, k + 1, dirs[k]);
      var r := RestoreFrom(s, home, temp, k).fs;
      assert r == RestoreFrom(t, home, temp, k + 1).fs;
      forall i | k <= i < 3
        ensures SubFiles(r.files, dirs[i])
             == if Exists(s, temp + [SlotNames[i]]) then SubFiles(s.files, temp + [SlotNames[i]])
                else SubFiles(s.files, dirs[i])
        ensures Rel(r.dirs, dirs[i])
             == if Exists(s, temp + [SlotNames[i]]) then Rel(s.dirs, temp + [SlotNames[i]])
                else Rel(s.dirs, dirs[i])
        ensures Exists(s, temp + [SlotNames[i]]) ==> temp + [SlotNames[i]] in s.dirs
      {
        if i > k {
          SameAtExists(s, t, temp + [SlotNames[i]]);
        }
      }
    }
  }

  /** Restoring into `dest` creates files only beneath `dest`. */
  lemma RestoreSlotFilesUnder(s: FsState, src: Path, dest: Path)
    requires |dest| > 0
    ensures forall p | p in RestoreSlot(s, src, dest).fs.files && !IsUnder(p, dest) :: p in s.files
  {
    var t := RestoreSlot(s, src, dest).fs;
    if Exists(s, src) && !(Exists(s, dest) && RmTree(s, dest).Err?) {
      var s1 := if Exists(s, dest) then RmTree(s, dest).value else s;
      assert s1.files.Keys <= s.files.Keys;
      if MakeDirs(s1, Parent(dest)).Ok? {
        var s2 := MakeDirs(s1, Parent(dest)).value;
        assert s2.files == s1.files;
        if CopyTree(s2, src, dest).Ok? {
          assert t == Graft(s2, dest, SubFiles(s2.files, src), Rel(s2.dirs, src));
          GraftFilesUnder(s2, dest, SubFiles(s2.files, src), Rel(s2.dirs, src));
        } else {
          assert t == s2;
        }
      } else {
        assert t == s1;
      }
    }
  }

  /**
   * One slot restores without an exception when its extracted folder is not
   * a file, `dest` is not a file, and no file blocks the parent of `dest`.
   */
  lemma RestoreSlotSucceeds(s: FsState, src: Path, dest: Path)
    requires |dest| > 0 && Disjoint(src, dest)
    requires src !in s.files && dest !in s.files && !Blocked(s, Parent(dest))
    ensures RestoreSlot(s, src, dest).result.Ok?
  {
    if Exists(s, src) {
      var s1 := if Exists(s, dest) then Without(s, dest) else s;
      assert IsUnder(dest, dest);
      assert src in s1.dirs && dest !in s1.dirs && dest !in s1.files;
      forall k | 0 < k <= |Parent(dest)| ensures Parent(dest)[..k] !in s1.files {
        assert Parent(dest)[..k] !in s.files;
      }
      var s2 := MakeDirs(s1, Parent(dest)).value;
      AncestorsAt(Parent(dest), dest);
      forall k | 0 < k <= |dest| ensures dest[..k] !in s2.files {
        if k < |dest| {
          assert dest[..k] == Parent(dest)[..k];
        }
      }
      assert CopyTree(s2, src, dest).Ok?;
    }
  }

  /** The restore steps never turn the extraction tree into a file. */
  lemma {:induction false} RestoreFromNoFileAt(s: FsState, home: Path, temp: Path, k: nat)
    requires Valid(s) && temp !in s.files
    ensures temp !in RestoreFrom(s, home, temp, k).fs.files
    decreases 3 - k
  {
    if k < 3 {
      RestoreSlotNoFileAt(s, temp, SlotNames[k], OpencodeDirs(home)[k]);
      RestoreSlotValid(s, temp + [SlotNames[k]], OpencodeDirs(home)[k]);
      var r := RestoreSlot(s, temp + [SlotNames[k]], OpencodeDirs(home)[k]);
      if r.result.Ok? {
        RestoreFromNoFileAt(r.fs, home, temp, k + 1);
      }
    }
  }

  /**
   * Restoring slots `k` .. 2 raises nothing when the extraction tree is apart
   * from every destination, no slot folder is a file, and each slot with a
   * folder has a destination that is not a file under a parent no file blocks.
   */
  lemma {:induction false} RestoreFromSucceeds(s: FsState, home: Path, temp: Path, k: nat)
    requires forall j | k <= j < 3 :: Disjoint(temp, OpencodeDirs(home)[j])
    requires forall j | k <= j < 3 :: temp + [SlotNames[j]] !in s.files
    requires forall j | k <= j < 3 :: Exists(s, temp + [SlotNames[j]]) ==>
      OpencodeDirs(home)[j] !in s.files && !Blocked(s, Parent(OpencodeDirs(home)[j]))
    ensures RestoreFrom(s, home, temp, k).result.Ok?
    decreases 3 - k
  {
    if k < 3 {
      var dirs := OpencodeDirs(home);
      var src := temp + [SlotNames[k]];
      DisjointBelow(dirs[k], temp, [SlotNames[k]]);
      if Exists(s, src) {
        RestoreSlotSucceeds(s, src, dirs[k]);
      }
      var t := RestoreSlot(s, src, dirs[k]).fs;
      RestoreSlotFilesUnder(s, src, dirs[k]);
      forall j | k + 1 <= j < 3
        ensures temp + [SlotNames[j]] !in t.files
        ensures Exists(t, temp + [SlotNames[j]]) ==> dirs[j] !in t.files && !Blocked(t, Parent(dirs[j]))
      {
        DisjointBelow(dirs[k], temp, [SlotNames[j]]);
        RestoreSlotFrame(s, src, dirs[k], temp + [SlotNames[j]]);
        SameAtExists(s, t, temp + [SlotNames[j]]);
        if IsUnder(Parent(dirs[j]), dirs[k]) {
          UnderParent(dirs[j], dirs[k]);
        }
        if Exists(s, temp + [SlotNames[j]]) {
          NotBlockedOutside(s, t, dirs[k], Parent(dirs[j]));
        }
      }
      RestoreFromSucceeds(t, home, temp, k + 1);
    }
  }

  // ---------------------------------------------------------------------
  // export
  // ---------------------------------------------------------------------

  /** A successful body went through each of its steps. */
  lemma ExportBodySteps(s: FsState, env: Env, zipPath: Path, password: Option<string>)
    requires ExportBody(s, env, zipPath, password).result.Ok?
    ensures MkDir(s, RestoreDir(env)).Ok?
    ensures var s1 := MkDir(s, RestoreDir(env)).value;
      && Extract(s1, zipPath, RestoreDir(env), password, env.unzip).Ok?
      && ExportBody(s, env, zipPath, password)
         == RestoreFrom(Extract(s1, zipPath, RestoreDir(env), password, env.unzip).value.fs, env.home, RestoreDir(env), 0)
  {
  }

  /** Placing an archive in a fresh extraction tree: what each slot folder holds. */
  lemma PlacedSlot(s1: FsState, temp: Path, a: Archive, n: string)
    requires Valid(s1) && NothingUnder(s1, temp + [n]) && Place(s1, temp, a).Ok?
    ensures var x := Place(s1, temp, a).value;
      && SubFiles(x.files, temp + [n]) == SubFiles(a.entries, [n])
      && (temp + [n] in x.dirs <==> [n] in ArchiveDirs(a))
      && (temp + [n] in x.files <==> [n] in a.entries)
      && Rel(x.dirs, temp + [n]) == Rel(ArchiveDirs(a), [n])
  {
    var td := ArchiveDirs(a);
    var x := Place(s1, temp, a).value;
    assert x == Graft(s1, temp, a.entries, td);
    EmptyView(s1, temp + [n]);
    SubFilesUnion(s1.files, ShiftMap(temp, a.entries), temp + [n]);
    SubFilesShifted(temp, [n], a.entries);
    EmptyMerge(SubFiles(a.entries, [n]));
    UnderSelf(temp + [n], []);
    assert temp + [n] + [] == temp + [n];
    ShiftOf(temp, td, [n]);
    ShiftMapAt(temp, a.entries, [n]);
    AncestorsAt(temp, temp + [n]);
    GraftDirsBelow(s1, temp, a.entries, td, [n]);
  }

  /**
   * Lines 193-227 after a successful `export`: each destination holds the
   * archive's files and folders under its slot folder when the archive has
   * that folder, and keeps the files and directories it had otherwise.
   */
  lemma ExportRestores(s: FsState, env: Env, zipPath: Path, password: Option<string>, i: nat)
    requires ExportSetting(s, env) && i < 3
    requires ExportRun(s, env, zipPath, password).result.Ok?
    ensures zipPath in s.files && s.files[zipPath].Zip?
    ensures SubFiles(ExportRun(s, env, zipPath, password).fs.files, OpencodeDirs(env.home)[i])
         == if [SlotNames[i]] in ArchiveDirs(s.files[zipPath].archive)
            then SubFiles(s.files[zipPath].archive.entries, [SlotNames[i]])
            else SubFiles(s.files, OpencodeDirs(env.home)[i])
    ensures Rel(ExportRun(s, env, zipPath, password).fs.dirs, OpencodeDirs(env.home)[i])
         == if [SlotNames[i]] in ArchiveDirs(s.files[zipPath].archive)
            then Rel(ArchiveDirs(s.files[zipPath].archive), [SlotNames[i]])
            else Rel(s.dirs, OpencodeDirs(env.home)[i])
  {
    var temp := RestoreDir(env);
    var d := OpencodeDirs(env.home)[i];
    var n := SlotNames[i];
    var body := ExportBody(s, env, zipPath, password);
    assert Exists(s, zipPath);
    ExportBodySteps(s, env, zipPath, password);
    FreshDir(s, temp);
    var s1 := MkDir(s, temp).value;
    ExtractOk(s1, zipPath, temp, password, env.unzip);
    var a := s.files[zipPath].archive;
    var x := Place(s1, temp, a).value;
    PlaceValid(s1, temp, a);
    AbsentIsEmpty(s1, temp + [n]);
    PlacedSlot(s1, temp, a, n);
    RestoreFromEffect(x, env.home, temp, 0);
    MkDirFrame(s, temp, d);
    PlaceFrame(s1, temp, a, d);
    CleanupFrame(body, temp, d);
  }

  /** The body keeps the filesystem valid and never makes the extraction tree a file. */
  lemma ExportBodyKeepsTemp(s: FsState, env: Env, zipPath: Path, password: Option<string>)
    requires Valid(s) && RestoreDir(env) !in s.files
    ensures var b := ExportBody(s, env, zipPath, password);
      Valid(b.fs) && RestoreDir(env) !in b.fs.files
  {
    var temp := RestoreDir(env);
    MkDirValid(s, temp);
    if MkDir(s, temp).Ok? {
      var s1 := MkDir(s, temp).value;
      assert temp !in s1.files;
      ExtractOk(s1, zipPath, temp, password, env.unzip);
      if Extract(s1, zipPath, temp, password, env.unzip).Ok? {
        var a := s1.files[zipPath].archive;
        var x := Place(s1, temp, a).value;
        PlaceValid(s1, temp, a);
        assert x == Graft(s1, temp, a.entries, ArchiveDirs(a));
        assert [] in ArchiveDirs(a);
        ShiftMapAt(temp, a.entries, []);
        assert temp + [] == temp;
        RestoreFromValid(x, env.home, temp, 0);
        RestoreFromNoFileAt(x, env.home, temp, 0);
      }
    }
  }

  /**
   * `export` leaves no extraction tree behind, one that existed before
   * included, and keeps the filesystem valid. Only the early exit for a
   * missing archive, which runs before the `try`, leaves the tree as it was.
   */
  lemma ExportCleansUp(s: FsState, env: Env, zipPath: Path, password: Option<string>)
    requires Valid(s) && RestoreDir(env) !in s.files
    ensures Exists(s, zipPath) || NothingUnder(s, RestoreDir(env)) ==>
      NothingUnder(ExportRun(s, env, zipPath, password).fs, RestoreDir(env))
    ensures Valid(ExportRun(s, env, zipPath, password).fs)
    ensures Exists(s, zipPath) ==>
      ExportRun(s, env, zipPath, password).result == ExportBody(s, env, zipPath, password).result
  {
    if Exists(s, zipPath) {
      ExportBodyKeepsTemp(s, env, zipPath, password);
      CleanupClears(ExportBody(s, env, zipPath, password), RestoreDir(env));
    }
  }

  /** The extraction tree can be created and the archive placed in it; the body then restores. */
  lemma ExportExtracts(s: FsState, env: Env, zipPath: Path, password: Option<string>)
    requires ExportSetting(s, env) && env.cwd in s.dirs
    requires zipPath in s.files && s.files[zipPath].Zip?
    requires WellFormed(s.files[zipPath].archive) && Opens(s.files[zipPath].archive, password)
    requires !(Truthy(password) && env.unzip == Missing)
    ensures MkDir(s, RestoreDir(env)).Ok?
    ensures var s1 := MkDir(s, RestoreDir(env)).value;
      && Place(s1, RestoreDir(env), s.files[zipPath].archive).Ok?
      && ExportBody(s, env, zipPath, password)
         == RestoreFrom(Place(s1, RestoreDir(env), s.files[zipPath].archive).value, env.home, RestoreDir(env), 0)
  {
    var temp := RestoreDir(env);
    var a := s.files[zipPath].archive;
    NotBlockedDir(s, env.cwd);
    assert Parent(temp) == env.cwd;
    assert MkDir(s, temp).Ok?;
    FreshDir(s, temp);
    var s1 := MkDir(s, temp).value;
    AbsentIsEmpty(s, temp);
    assert [] in ArchiveDirs(a);
    forall r | r in a.entries ensures temp + r !in s1.dirs {
      UnderSelf(temp, r);
    }
    forall r | r in ArchiveDirs(a) ensures temp + r !in s1.files {
      UnderSelf(temp, r);
    }
    NotBlockedChild(s1, env.cwd, "opencode_restore_" + env.timestamp);
    assert Place(s1, temp, a).Ok?;
    ExtractOk(s1, zipPath, temp, password, env.unzip);
  }

  /**
   * `export` succeeds when the archive path holds a well-formed zip archive
   * that the password opens, whose slot names are not file entries, a truthy
   * password does not meet a missing `unzip`, the working directory is a
   * directory, and the destination of every slot folder in the archive is a
   * directory or is absent under a parent no file blocks.
   */
  lemma ExportSucceeds(s: FsState, env: Env, zipPath: Path, password: Option<string>)
    requires ExportSetting(s, env) && env.cwd in s.dirs
    requires zipPath in s.files && s.files[zipPath].Zip?
    requires WellFormed(s.files[zipPath].archive) && Opens(s.files[zipPath].archive, password)
    requires forall j | 0 <= j < 3 :: [SlotNames[j]] !in s.files[zipPath].archive.entries
    requires !(Truthy(password) && env.unzip == Missing)
    requires forall j | 0 <= j < 3 :: [SlotNames[j]] in ArchiveDirs(s.files[zipPath].archive) ==>
      || OpencodeDirs(env.home)[j] in s.dirs
      || (!Exists(s, OpencodeDirs(env.home)[j]) && !Blocked(s, Parent(OpencodeDirs(env.home)[j])))
    ensures ExportRun(s, env, zipPath, password).result.Ok?
  {
    var temp := RestoreDir(env);
    var a := s.files[zipPath].archive;
    var dirs := OpencodeDirs(env.home);
    ExportExtracts(s, env, zipPath, password);
    FreshDir(s, temp);
    var s1 := MkDir(s, temp).value;
    var x := Place(s1, temp, a).value;
    PlaceValid(s1, temp, a);
    assert x == Graft(s1, temp, a.entries, ArchiveDirs(a));
    GraftFilesUnder(s1, temp, a.entries, ArchiveDirs(a));
    forall j | 0 <= j < 3
      ensures temp + [SlotNames[j]] !in x.files
      ensures Exists(x, temp + [SlotNames[j]]) ==> dirs[j] !in x.files && !Blocked(x, Parent(dirs[j]))
    {
      var d := dirs[j];
      AbsentIsEmpty(s1, temp + [SlotNames[j]]);
      PlacedSlot(s1, temp, a, SlotNames[j]);
      MkDirFrame(s, temp, d);
      PlaceFrame(s1, temp, a, d);
      SameAtExists(s, s1, d);
      SameAtExists(s1, x, d);
      if Exists(x, temp + [SlotNames[j]]) {
        if d in s.dirs {
          NotBlockedDir(x, Parent(d));
        } else {
          if IsUnder(Parent(d), temp) {
            UnderParent(d, temp);
          }
          NotBlockedOutside(s, x, temp, Parent(d));
        }
      }
    }
    RestoreFromSucceeds(x, env.home, temp, 0);
    ExportCleansUp(s, env, zipPath, password);
  }
}
