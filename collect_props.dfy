/**
 * Properties of `collect` (backup_opencode.py:73-155): what the archive it
 * writes holds, how it is protected, when it succeeds, and that it leaves no
 * staging tree behind.
 */
module CollectProperties {
  import opened Wrappers
  import opened FsModel
  import opened FsFrames
  import opened BackupSpec
  import opened CleanupProperties

  /** What slot `i` contributes to a backup of `s`: its source's files, beneath the slot folder. */
  function SlotTree(s: FsState, home: Path, i: nat): map<Path, Blob>
    requires i < 3
  {
    var src := OpencodeDirs(home)[i];
    if Exists(s, src) then ShiftMap([SlotNames[i]], SubFiles(s.files, src)) else map[]
  }

  /** The contributions of slots `k` .. 2. */
  function Slots(s: FsState, home: Path, k: nat): map<Path, Blob>
    decreases 3 - k
  {
    if k >= 3 then map[] else SlotTree(s, home, k) + Slots(s, home, k + 1)
  }

  /** Some source directory exists. */
  predicate SomeSource(s: FsState, home: Path) {
    exists j | 0 <= j < 3 :: Exists(s, OpencodeDirs(home)[j])
  }

  /** The entries a backup of `s` should hold. */
  function Staged(s: FsState, home: Path): map<Path, Blob> {
    Slots(s, home, 0)
  }

  /**
   * The situation the properties below speak about: a valid filesystem with
   * no staging tree yet, sources apart from the staging tree, and an archive
   * path outside it.
   */
  predicate CollectSetting(s: FsState, env: Env, output: Option<Path>) {
    && Valid(s)
    && !Exists(s, Staging(env))
    && (forall j | 0 <= j < 3 :: Disjoint(Staging(env), OpencodeDirs(env.home)[j]))
    && (output.None? || !IsUnder(env.cwd + output.value, Staging(env)))
  }

  /** The three slot folder names differ; a stated fact the proofs below call instead of unfolding `SlotNames`. */
  lemma SlotNamesDistinct()
    ensures forall i, j | 0 <= i < 3 && 0 <= j < 3 && i != j :: SlotNames[i] != SlotNames[j]
  {
  }

  /** The default archive `opencode_backup_<ts>.zip` lies beside the staging tree, not in it. */
  lemma DefaultNameOutside(env: Env)
    ensures Disjoint(env.cwd + ArchiveName(env, None), Staging(env))
  {
    var a := "opencode_backup_" + env.timestamp + ".zip";
    var b := "opencode_backup_" + env.timestamp;
    assert |a| == |b| + 4;
    SiblingsDisjoint(env.cwd, a, b);
  }

  lemma SlotsFrame(s: FsState, t: FsState, home: Path, k: nat)
    requires forall j | k <= j < 3 :: SameAt(s, t, OpencodeDirs(home)[j])
    ensures Slots(s, home, k) == Slots(t, home, k)
    decreases 3 - k
  {
    if k < 3 {
      SameAtExists(s, t, OpencodeDirs(home)[k]);
      SlotsFrame(s, t, home, k + 1);
    }
  }

  // ---------------------------------------------------------------------
  // Staging
  // ---------------------------------------------------------------------

  lemma StageSlotFrame(s: FsState, src: Path, dst: Path, x: Path)
    requires StageSlot(s, src, dst).Ok? && Disjoint(x, dst)
    ensures SameAt(s, StageSlot(s, src, dst).value, x)
  {
    if Exists(s, src) {
      CopyTreeFrame(s, src, dst, x);
    }
  }

  /** One slot adds its source's files beneath its folder of the staging tree. */
  lemma StageSlotEffect(s: FsState, src: Path, staging: Path, n: string)
    requires Valid(s) && !Exists(s, staging + [n])
    requires StageSlot(s, src, staging + [n]).Ok?
    ensures var t := StageSlot(s, src, staging + [n]).value;
      && Valid(t) && s.dirs <= t.dirs
      && SubFiles(t.files, staging)
         == SubFiles(s.files, staging) + (if Exists(s, src) then ShiftMap([n], SubFiles(s.files, src)) else map[])
    ensures Exists(s, src) ==> src in s.dirs
  {
    if Exists(s, src) {
      CopyTreeValid(s, src, staging + [n]);
      CopyTreeIntoChild(s, src, staging, n);
    } else {
      EmptyMerge(SubFiles(s.files, staging));
    }
  }

  lemma StageFromFrame(s: FsState, home: Path, staging: Path, k: nat, x: Path)
    requires Disjoint(x, staging)
    requires StageFrom(s, home, staging, k).result.Ok?
    ensures SameAt(s, StageFrom(s, home, staging, k).fs, x)
    decreases 3 - k
  {
    if k < 3 {
      var dst := staging + [SlotNames[k]];
      DisjointBelow(x, staging, [SlotNames[k]]);
      StageSlotFrame(s, OpencodeDirs(home)[k], dst, x);
      StageFromFrame(StageSlot(s, OpencodeDirs(home)[k], dst).value, home, staging, k + 1, x);
    }
  }

  /** Map union regroups; called where the solver would otherwise search for this step itself. */
  lemma MergeAssoc(a: map<Path, Blob>, b: map<Path, Blob>, c: map<Path, Blob>)
    ensures (a + b) + c == a + (b + c)
  {
  }

  /**
   * Staging slots `k` .. 2 into fresh folders adds exactly their
   * contributions to the staging tree; every source that exists is a directory.
   */
  lemma {:induction false} StageFromEffect(s: FsState, home: Path, staging: Path, k: nat)
    requires Valid(s)
    requires forall j | k <= j < 3 ::
      !Exists(s, staging + [SlotNames[j]]) && Disjoint(staging, OpencodeDirs(home)[j])
    requires StageFrom(s, home, staging, k).result.Ok?
    ensures var r := StageFrom(s, home, staging, k).fs;
      && Valid(r) && s.dirs <= r.dirs
      && SubFiles(r.files, staging) == SubFiles(s.files, staging) + Slots(s, home, k)
    ensures forall j | k <= j < 3 :: Exists(s, OpencodeDirs(home)[j]) ==> OpencodeDirs(home)[j] in s.dirs
    decreases 3 - k
  {
    if k >= 3 {
      EmptyMerge(SubFiles(s.files, staging));
    } else {
      var dirs := OpencodeDirs(home);
      var n := SlotNames[k];
      var t := StageSlot(s, dirs[k], staging + [n]).value;
      StageSlotEffect(s, dirs[k], staging, n);
      SlotNamesDistinct();
      forall j | k + 1 <= j < 3
        ensures !Exists(t, staging + [SlotNames[j]]) && Disjoint(staging, dirs[j])
        ensures SameAt(s, t, dirs[j])
      {
        SiblingsDisjoint(staging, SlotNames[j], n);
        StageSlotFrame(s, dirs[k], staging + [n], staging + [SlotNames[j]]);
        SameAtExists(s, t, staging + [SlotNames[j]]);
        DisjointBelow(dirs[j], staging, [n]);
        StageSlotFrame(s, dirs[k], staging + [n], dirs[j]);
      }
      StageFromEffect(t, home, staging, k + 1);
      SlotsFrame(s, t, home, k + 1);
      forall j | k + 1 <= j < 3 ensures Exists(s, dirs[j]) ==> dirs[j] in s.dirs {
        SameAtExists(s, t, dirs[j]);
      }
      MergeAssoc(SubFiles(s.files, staging), SlotTree(s, home, k), Slots(s, home, k + 1));
    }
  }

  /** Each slot folder is fresh, the sources are directories: staging succeeds. */
  lemma {:induction false} StageFromSucceeds(s: FsState, home: Path, staging: Path, k: nat)
    requires Valid(s) && staging in s.dirs
    requires forall j | k <= j < 3 ::
      && !Exists(s, staging + [SlotNames[j]]) && Disjoint(staging, OpencodeDirs(home)[j])
      && (Exists(s, OpencodeDirs(home)[j]) ==> OpencodeDirs(home)[j] in s.dirs)
    ensures StageFrom(s, home, staging, k).result.Ok?
    decreases 3 - k
  {
    if k < 3 {
      var dirs := OpencodeDirs(home);
      var n := SlotNames[k];
      var dst := staging + [n];
      if Exists(s, dirs[k]) {
        NotBlockedChild(s, staging, n);
        assert CopyTree(s, dirs[k], dst).Ok?;
      }
      var t := StageSlot(s, dirs[k], dst).value;
      StageSlotEffect(s, dirs[k], staging, n);
      SlotNamesDistinct();
      forall j | k + 1 <= j < 3
        ensures !Exists(t, staging + [SlotNames[j]]) && Disjoint(staging, dirs[j])
        ensures Exists(t, dirs[j]) ==> dirs[j] in t.dirs
      {
        SiblingsDisjoint(staging, SlotNames[j], n);
        StageSlotFrame(s, dirs[k], dst, staging + [SlotNames[j]]);
        SameAtExists(s, t, staging + [SlotNames[j]]);
        DisjointBelow(dirs[j], staging, [n]);
        StageSlotFrame(s, dirs[k], dst, dirs[j]);
        SameAtExists(s, t, dirs[j]);
      }
      StageFromSucceeds(t, home, staging, k + 1);
    }
  }

  // ---------------------------------------------------------------------
  // Writing the archive
  // ---------------------------------------------------------------------

  /** The archive `collect` writes for a password and a `zip` command. */
  function Written(s: FsState, staging: Path, password: Option<string>, zip: Tool): Archive {
    if Truthy(password) && zip == Working && !NothingToZip(s, staging) then ZipArchive(s, staging, password.value)
    else PlainArchive(s, staging)
  }

  /**
   * Lines 119-144: a successful write stores, at the target, the encrypted
   * archive exactly when a truthy password met a working `zip` that had
   * something to add, and the plain one otherwise; nothing else changes.
   */
  lemma WriteArchiveEffect(s: FsState, staging: Path, target: Path, password: Option<string>, zip: Tool)
    requires WriteArchive(s, staging, target, password, zip).Ok?
    ensures WriteArchive(s, staging, target, password, zip).value
         == FsState(s.files[target := Zip(Written(s, staging, password, zip))], s.dirs)
    ensures Truthy(password) ==> zip != Missing
  {
  }

  /** With a truthy password and no `zip` on PATH, FileNotFoundError escapes: `collect` fails. */
  lemma CollectNeedsZip(s: FsState, env: Env, output: Option<Path>, password: Option<string>)
    requires Truthy(password) && env.zip == Missing
    ensures CollectRun(s, env, output, password).result.Err?
  {
    var staging := Staging(env);
    if MkDir(s, staging).Ok? {
      var st := StageFrom(MkDir(s, staging).value, env.home, staging, 0);
      if st.result.Ok? {
        assert WriteArchive(st.fs, staging, env.cwd + ArchiveName(env, output), password, env.zip).Err?;
      }
    }
  }

  /** A `zip` that fails (CalledProcessError) makes `collect` behave as if no password was given. */
  lemma CollectFallback(s: FsState, env: Env, output: Option<Path>, password: Option<string>)
    requires env.zip == Failing
    ensures CollectRun(s, env, output, password) == CollectRun(s, env, output, None)
  {
    var staging := Staging(env);
    if MkDir(s, staging).Ok? {
      var st := StageFrom(MkDir(s, staging).value, env.home, staging, 0);
      var target := env.cwd + ArchiveName(env, output);
      assert WriteArchive(st.fs, staging, target, password, Failing)
          == WriteArchive(st.fs, staging, target, None, Failing);
    }
  }

  // ---------------------------------------------------------------------
  // collect
  // ---------------------------------------------------------------------

  /** The body keeps the staging tree a directory, or never creates it. */
  lemma CollectBodyKeepsStaging(s: FsState, env: Env, output: Option<Path>, password: Option<string>)
    requires Valid(s) && Staging(env) !in s.files
    ensures var b := CollectBody(s, env, output, password);
      Valid(b.fs) && Staging(env) !in b.fs.files
  {
    var staging := Staging(env);
    if MkDir(s, staging).Ok? {
      var s1 := MkDir(s, staging).value;
      MkDirValid(s, staging);
      assert staging in s1.dirs;
      StageFromKeeps(s1, env.home, staging, 0);
      var st := StageFrom(s1, env.home, staging, 0);
      if st.result.Ok? {
        WriteArchiveKeeps(st.fs, staging, env.cwd + ArchiveName(env, output), password, env.zip);
      }
    }
  }

  /** Writing the archive keeps the filesystem valid and the staging tree a directory. */
  lemma WriteArchiveKeeps(s: FsState, staging: Path, target: Path, password: Option<string>, zip: Tool)
    requires Valid(s) && staging in s.dirs
    ensures var w := WriteArchive(s, staging, target, password, zip);
      w.Ok? ==> Valid(w.value) && staging !in w.value.files
  {
    if WriteArchive(s, staging, target, password, zip).Ok? {
      WriteArchiveEffect(s, staging, target, password, zip);
      WriteFileValid(s, target, Zip(Written(s, staging, password, zip)));
    }
  }

  /** One slot keeps the filesystem valid and only adds directories. */
  lemma StageSlotKeeps(s: FsState, src: Path, dst: Path)
    requires Valid(s) && StageSlot(s, src, dst).Ok?
    ensures Valid(StageSlot(s, src, dst).value) && s.dirs <= StageSlot(s, src, dst).value.dirs
  {
    if Exists(s, src) {
      CopyTreeValid(s, src, dst);
      assert CopyTree(s, src, dst).value == Graft(s, dst, SubFiles(s.files, src), Rel(s.dirs, src));
    }
  }

  /** Staging keeps the filesystem valid and only adds directories. */
  lemma {:induction false} StageFromKeeps(s: FsState, home: Path, staging: Path, k: nat)
    requires Valid(s)
    ensures Valid(StageFrom(s, home, staging, k).fs)
    ensures s.dirs <= StageFrom(s, home, staging, k).fs.dirs
    decreases 3 - k
  {
    if k < 3 {
      var src, dst := OpencodeDirs(home)[k], staging + [SlotNames[k]];
      if StageSlot(s, src, dst).Ok? {
        StageSlotKeeps(s, src, dst);
        StageFromKeeps(StageSlot(s, src, dst).value, home, staging, k + 1);
      }
    }
  }

  /** `collect` leaves no staging tree behind and keeps the filesystem valid. */
  lemma CollectCleansUp(s: FsState, env: Env, output: Option<Path>, password: Option<string>)
    requires Valid(s) && Staging(env) !in s.files
    ensures NothingUnder(CollectRun(s, env, output, password).fs, Staging(env))
    ensures Valid(CollectRun(s, env, output, password).fs)
    ensures CollectRun(s, env, output, password).result == CollectBody(s, env, output, password).result
  {
    CollectBodyKeepsStaging(s, env, output, password);
    CleanupClears(CollectBody(s, env, output, password), Staging(env));
  }

  /** Creating the staging tree in a filesystem that lacks it. */
  lemma FreshStaging(s: FsState, env: Env)
    requires Valid(s) && !Exists(s, Staging(env)) && MkDir(s, Staging(env)).Ok?
    requires forall j | 0 <= j < 3 :: Disjoint(Staging(env), OpencodeDirs(env.home)[j])
    ensures Valid(MkDir(s, Staging(env)).value)
    ensures SubFiles(MkDir(s, Staging(env)).value.files, Staging(env)) == map[]
    ensures Staging(env) in MkDir(s, Staging(env)).value.dirs
    ensures forall j | 0 <= j < 3 :: !Exists(MkDir(s, Staging(env)).value, Staging(env) + [SlotNames[j]])
    ensures forall j | 0 <= j < 3 :: SameAt(s, MkDir(s, Staging(env)).value, OpencodeDirs(env.home)[j])
  {
    var p := Staging(env);
    FreshDir(s, p);
    forall j | 0 <= j < 3 ensures SameAt(s, MkDir(s, p).value, OpencodeDirs(env.home)[j]) {
      MkDirFrame(s, p, OpencodeDirs(env.home)[j]);
    }
  }

  /** A successful body went through each of its steps. */
  lemma CollectBodySteps(s: FsState, env: Env, output: Option<Path>, password: Option<string>)
    requires CollectBody(s, env, output, password).result.Ok?
    ensures MkDir(s, Staging(env)).Ok?
    ensures var st := StageFrom(MkDir(s, Staging(env)).value, env.home, Staging(env), 0);
      && st.result.Ok?
      && var w := WriteArchive(st.fs, Staging(env), env.cwd + ArchiveName(env, output), password, env.zip);
      && w.Ok?
      && CollectBody(s, env, output, password) == Run(w.value, Ok(ArchiveName(env, output)))
  {
  }

  /** Staging into a fresh tree puts exactly the staged entries there. */
  lemma StagedTree(s: FsState, env: Env, output: Option<Path>)
    requires CollectSetting(s, env, output) && MkDir(s, Staging(env)).Ok?
    requires StageFrom(MkDir(s, Staging(env)).value, env.home, Staging(env), 0).result.Ok?
    ensures var st := StageFrom(MkDir(s, Staging(env)).value, env.home, Staging(env), 0);
      SubFiles(st.fs.files, Staging(env)) == Staged(s, env.home) && Staging(env) in st.fs.dirs && Valid(st.fs)
    ensures forall j | 0 <= j < 3 :: Exists(s, OpencodeDirs(env.home)[j]) ==> OpencodeDirs(env.home)[j] in s.dirs
  {
    var staging := Staging(env);
    FreshStaging(s, env);
    var s1 := MkDir(s, staging).value;
    StageFromEffect(s1, env.home, staging, 0);
    SlotsFrame(s, s1, env.home, 0);
    EmptyMerge(Slots(s, env.home, 0));
    forall j | 0 <= j < 3 ensures Exists(s, OpencodeDirs(env.home)[j]) ==> OpencodeDirs(env.home)[j] in s.dirs {
      SameAtExists(s, s1, OpencodeDirs(env.home)[j]);
    }
  }

  /** With no source, staging changes nothing. */
  lemma {:induction false} StageFromNone(s: FsState, home: Path, staging: Path, k: nat)
    requires forall j | k <= j < 3 :: !Exists(s, OpencodeDirs(home)[j])
    ensures StageFrom(s, home, staging, k) == Run(s, Ok(()))
    decreases 3 - k
  {
    if k < 3 {
      StageFromNone(s, home, staging, k + 1);
    }
  }

  /** Copying an existing source creates its destination folder. */
  lemma StageSlotDir(s: FsState, src: Path, dst: Path)
    requires Exists(s, src) && StageSlot(s, src, dst).Ok?
    ensures dst in StageSlot(s, src, dst).value.dirs
  {
    assert StageSlot(s, src, dst).value == Graft(s, dst, SubFiles(s.files, src), Rel(s.dirs, src));
    AncestorsAt(dst, dst);
  }

  /** Every source that exists has its folder in the staging tree afterwards. */
  lemma {:induction false} StageFromDirs(s: FsState, home: Path, staging: Path, k: nat)
    requires Valid(s)
    requires forall j | k <= j < 3 :: Disjoint(staging, OpencodeDirs(home)[j])
    requires StageFrom(s, home, staging, k).result.Ok?
    ensures forall j | k <= j < 3 ::
      Exists(s, OpencodeDirs(home)[j]) ==> staging + [SlotNames[j]] in StageFrom(s, home, staging, k).fs.dirs
    decreases 3 - k
  {
    if k < 3 {
      var dirs := OpencodeDirs(home);
      var dst := staging + [SlotNames[k]];
      var t := StageSlot(s, dirs[k], dst).value;
      var r := StageFrom(t, home, staging, k + 1).fs;
      assert StageFrom(s, home, staging, k).fs == r;
      StageSlotKeeps(s, dirs[k], dst);
      StageFromKeeps(t, home, staging, k + 1);
      if Exists(s, dirs[k]) {
        StageSlotDir(s, dirs[k], dst);
      }
      forall j | k + 1 <= j < 3 ensures Exists(s, dirs[j]) <==> Exists(t, dirs[j]) {
        DisjointBelow(dirs[j], staging, [SlotNames[k]]);
        StageSlotFrame(s, dirs[k], dst, dirs[j]);
        SameAtExists(s, t, dirs[j]);
      }
      StageFromDirs(t, home, staging, k + 1);
    }
  }

  /** A directory just created in an empty spot gives `zip` nothing to add. */
  lemma FreshNothingToZip(s: FsState, p: Path)
    requires Valid(s) && !Exists(s, p) && MkDir(s, p).Ok?
    ensures NothingToZip(MkDir(s, p).value, p)
  {
    FreshDir(s, p);
    var s1 := MkDir(s, p).value;
    AbsentIsEmpty(s, p);
    forall r | r in Rel(s1.dirs, p) ensures r == [] {
      RelAt(s1.dirs, p, r);
      UnderSelf(p, r);
    }
  }

  /** A folder in the tree gives `zip` something to add. */
  lemma FolderToZip(s: FsState, root: Path, n: string)
    requires root + [n] in s.dirs
    ensures !NothingToZip(s, root)
  {
    RelAt(s.dirs, root, [n]);
    assert [n] in Rel(s.dirs, root) - {[]};
  }

  /** The staging tree gives `zip` nothing to add exactly when no source exists. */
  lemma StagedNothingToZip(s: FsState, env: Env, output: Option<Path>)
    requires CollectSetting(s, env, output) && MkDir(s, Staging(env)).Ok?
    requires StageFrom(MkDir(s, Staging(env)).value, env.home, Staging(env), 0).result.Ok?
    ensures var st := StageFrom(MkDir(s, Staging(env)).value, env.home, Staging(env), 0);
      NothingToZip(st.fs, Staging(env)) <==> !SomeSource(s, env.home)
  {
    var staging := Staging(env);
    var dirs := OpencodeDirs(env.home);
    FreshStaging(s, env);
    var s1 := MkDir(s, staging).value;
    if SomeSource(s, env.home) {
      var j :| 0 <= j < 3 && Exists(s, dirs[j]);
      SameAtExists(s, s1, dirs[j]);
      StageFromDirs(s1, env.home, staging, 0);
      FolderToZip(StageFrom(s1, env.home, staging, 0).fs, staging, SlotNames[j]);
    } else {
      forall j | 0 <= j < 3 ensures !Exists(s1, dirs[j]) {
        SameAtExists(s, s1, dirs[j]);
      }
      StageFromNone(s1, env.home, staging, 0);
      FreshNothingToZip(s, staging);
    }
  }

  /**
   * The archive written from a fresh staging tree: the staged entries,
   * encrypted exactly when a truthy password met a working `zip` and some
   * source exists, without directory entries when plain, and well formed.
   */
  lemma StagedArchive(s: FsState, env: Env, output: Option<Path>, password: Option<string>)
    requires CollectSetting(s, env, output) && MkDir(s, Staging(env)).Ok?
    requires StageFrom(MkDir(s, Staging(env)).value, env.home, Staging(env), 0).result.Ok?
    ensures var st := StageFrom(MkDir(s, Staging(env)).value, env.home, Staging(env), 0);
      var a := Written(st.fs, Staging(env), password, env.zip);
      && a.entries == Staged(s, env.home)
      && a.protection
         == (if Truthy(password) && env.zip == Working && SomeSource(s, env.home) then ZipCrypto(password.value) else Unprotected)
      && (!(Truthy(password) && env.zip == Working && SomeSource(s, env.home)) ==> a.folders == {})
      && WellFormed(a)
  {
    var staging := Staging(env);
    var st := StageFrom(MkDir(s, staging).value, env.home, staging, 0);
    StagedTree(s, env, output);
    StagedNothingToZip(s, env, output);
    WrittenWellFormed(st.fs, staging, password, env.zip);
  }

  /** Either archive of a directory of a valid filesystem is well formed. */
  lemma WrittenWellFormed(s: FsState, staging: Path, password: Option<string>, zip: Tool)
    requires Valid(s) && staging in s.dirs
    ensures WellFormed(Written(s, staging, password, zip))
  {
    SubtreeValid(s, staging);
    var a := Written(s, staging, password, zip);
    TreeArchiveWellFormed(SubFiles(s.files, staging), Rel(s.dirs, staging), a.folders, a.protection);
  }

  /** The body of a successful `collect` writes the staged entries with the expected protection. */
  lemma CollectBodyArchive(s: FsState, env: Env, output: Option<Path>, password: Option<string>)
    requires CollectSetting(s, env, output)
    requires CollectBody(s, env, output, password).result.Ok?
    ensures var b := CollectBody(s, env, output, password);
      var z := env.cwd + ArchiveName(env, output);
      && b.result == Ok(ArchiveName(env, output))
      && z in b.fs.files && b.fs.files[z].Zip?
      && b.fs.files[z].archive.entries == Staged(s, env.home)
      && b.fs.files[z].archive.protection
         == (if Truthy(password) && env.zip == Working && SomeSource(s, env.home) then ZipCrypto(password.value) else Unprotected)
      && (!(Truthy(password) && env.zip == Working && SomeSource(s, env.home)) ==> b.fs.files[z].archive.folders == {})
      && WellFormed(b.fs.files[z].archive)
    ensures forall j | 0 <= j < 3 :: Exists(s, OpencodeDirs(env.home)[j]) ==> OpencodeDirs(env.home)[j] in s.dirs
  {
    CollectBodySteps(s, env, output, password);
    StagedTree(s, env, output);
    StagedArchive(s, env, output, password);
    var st := StageFrom(MkDir(s, Staging(env)).value, env.home, Staging(env), 0);
    WriteArchiveEffect(st.fs, Staging(env), env.cwd + ArchiveName(env, output), password, env.zip);
  }

  /**
   * A successful `collect` returns the archive name and leaves, at that path,
   * an archive whose entries are the files of the three sources beneath
   * `config`, `cache` and `bun_cache`, encrypted exactly when a truthy password
   * met a working `zip` and some source existed (an empty tree gives `zip`
   * nothing to do), and well formed; every source it found was a directory.
   */
  lemma CollectArchive(s: FsState, env: Env, output: Option<Path>, password: Option<string>)
    requires CollectSetting(s, env, output)
    requires CollectRun(s, env, output, password).result.Ok?
    ensures var c := CollectRun(s, env, output, password);
      var z := env.cwd + ArchiveName(env, output);
      && c.result.value == ArchiveName(env, output)
      && z in c.fs.files && c.fs.files[z].Zip?
      && c.fs.files[z].archive.entries == Staged(s, env.home)
      && c.fs.files[z].archive.protection
         == (if Truthy(password) && env.zip == Working && SomeSource(s, env.home) then ZipCrypto(password.value) else Unprotected)
      && (!(Truthy(password) && env.zip == Working && SomeSource(s, env.home)) ==> c.fs.files[z].archive.folders == {})
      && WellFormed(c.fs.files[z].archive)
    ensures forall j | 0 <= j < 3 :: Exists(s, OpencodeDirs(env.home)[j]) ==> OpencodeDirs(env.home)[j] in s.dirs
  {
    var staging := Staging(env);
    var body := CollectBody(s, env, output, password);
    CollectCleansUp(s, env, output, password);
    CollectBodyArchive(s, env, output, password);
    CollectBodyKeepsStaging(s, env, output, password);
    if output.None? {
      DefaultNameOutside(env);
    }
    if Exists(body.fs, staging) {
      assert CollectRun(s, env, output, password).fs == Without(body.fs, staging);
    }
  }

  /** Writing the archive succeeds wherever a file can be written, unless `zip` is needed and missing. */
  lemma WriteArchiveSucceeds(s: FsState, staging: Path, target: Path, password: Option<string>, zip: Tool)
    requires |target| > 0 && target !in s.dirs && Parent(target) in s.dirs && !Blocked(s, Parent(target))
    requires !(Truthy(password) && zip == Missing)
    ensures WriteArchive(s, staging, target, password, zip).Ok?
  {
  }

  /** The preconditions of `CollectSucceeds` carry the run up to the archive write. */
  lemma StagingSucceeds(s: FsState, env: Env)
    requires CollectSetting(s, env, None) && env.cwd in s.dirs
    requires env.cwd + ArchiveName(env, None) !in s.dirs
    requires forall j | 0 <= j < 3 ::
      Exists(s, OpencodeDirs(env.home)[j]) ==> OpencodeDirs(env.home)[j] in s.dirs
    ensures MkDir(s, Staging(env)).Ok?
    ensures var st := StageFrom(MkDir(s, Staging(env)).value, env.home, Staging(env), 0);
      && st.result.Ok? && Valid(st.fs) && env.cwd in st.fs.dirs
      && env.cwd + ArchiveName(env, None) !in st.fs.dirs
  {
    var staging := Staging(env);
    var dirs := OpencodeDirs(env.home);
    NotBlockedDir(s, env.cwd);
    assert Parent(staging) == env.cwd;
    assert MkDir(s, staging).Ok?;
    FreshStaging(s, env);
    var s1 := MkDir(s, staging).value;
    forall j | 0 <= j < 3 ensures Exists(s1, dirs[j]) ==> dirs[j] in s1.dirs {
      SameAtExists(s, s1, dirs[j]);
    }
    StageFromSucceeds(s1, env.home, staging, 0);
    StageFromKeeps(s1, env.home, staging, 0);
    var st := StageFrom(s1, env.home, staging, 0);
    var target := env.cwd + ArchiveName(env, None);
    DefaultNameOutside(env);
    StageFromFrame(s1, env.home, staging, 0, target);
    SameAtExists(s1, st.fs, target);
  }

  /**
   * With the default archive name, `collect` succeeds whenever the parent of
   * the staging tree is a directory, the archive path is not a directory, the
   * sources are directories or absent, and a truthy password does not meet a
   * missing `zip`. In particular it succeeds when no source exists.
   */
  lemma CollectSucceeds(s: FsState, env: Env, password: Option<string>)
    requires CollectSetting(s, env, None) && env.cwd in s.dirs
    requires env.cwd + ArchiveName(env, None) !in s.dirs
    requires forall j | 0 <= j < 3 ::
      Exists(s, OpencodeDirs(env.home)[j]) ==> OpencodeDirs(env.home)[j] in s.dirs
    requires !(Truthy(password) && env.zip == Missing)
    ensures CollectRun(s, env, None, password).result == Ok(ArchiveName(env, None))
  {
    StagingSucceeds(s, env);
    var st := StageFrom(MkDir(s, Staging(env)).value, env.home, Staging(env), 0);
    var target := env.cwd + ArchiveName(env, None);
    assert Parent(target) == env.cwd;
    NotBlockedDir(st.fs, env.cwd);
    WriteArchiveSucceeds(st.fs, Staging(env), target, password, env.zip);
    CollectCleansUp(s, env, None, password);
  }

  /**
   * Run from inside the config directory, `collect` stages `config` into a
   * tree beneath that very directory: `copytree` copies into its own
   * subtree and raises, and the staging tree is removed.
   */
  lemma CollectInsideSourceFails(s: FsState, env: Env, output: Option<Path>, password: Option<string>)
    requires Valid(s) && env.cwd == OpencodeDirs(env.home)[0] && env.cwd in s.dirs
    requires !Exists(s, Staging(env))
    ensures CollectRun(s, env, output, password).result == Err(CopyFailed)
    ensures NothingUnder(CollectRun(s, env, output, password).fs, Staging(env))
  {
    var staging, src := Staging(env), env.cwd;
    var dst := staging + [SlotNames[0]];
    NotBlockedDir(s, src);
    assert Parent(staging) == src;
    var s1 := MkDir(s, staging).value;
    assert s1 == FsState(s.files, s.dirs + {staging});
    MkDirValid(s, staging);
    AbsentIsEmpty(s, staging);
    assert IsUnder(dst, staging) by { assert dst[..|staging|] == staging; }
    assert !Exists(s1, dst);
    NotBlockedChild(s1, staging, SlotNames[0]);
    assert IsUnder(dst, src) by { assert dst[..|src|] == src; }
    assert src + [dst[|src|]] == staging;
    assert CopyTree(s1, src, dst) == Err(CopyFailed);
    assert CollectBody(s, env, output, password) == Run(s1, Err(CopyFailed));
    CollectCleansUp(s, env, output, password);
  }
}
