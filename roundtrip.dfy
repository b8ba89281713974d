/**
 * `export` of the archive `collect` wrote (backup_opencode.py:73-235): every
 * slot whose source held files comes back with exactly those files.
 */
module RoundTrip {
  import opened Wrappers
  import opened FsModel
  import opened FsFrames
  import opened BackupSpec
  import opened CollectProperties
  import opened ExportProperties

  lemma SubFilesOfNone(x: Path)
    ensures SubFiles(map[], x) == map[]
  {
    EmptyView(FsState(map[], {}), x);
  }

  /** What slot `k` stages beneath the folder of slot `i`. */
  lemma SlotTreeView(s: FsState, home: Path, k: nat, i: nat)
    requires k < 3 && i < 3
    ensures SubFiles(SlotTree(s, home, k), [SlotNames[i]])
         == if k == i && Exists(s, OpencodeDirs(home)[i]) then SubFiles(s.files, OpencodeDirs(home)[i]) else map[]
  {
    var n := SlotNames[i];
    var m := SubFiles(s.files, OpencodeDirs(home)[k]);
    if !Exists(s, OpencodeDirs(home)[k]) {
      SubFilesOfNone([n]);
    } else if k == i {
      ShiftedOwnView([n], m);
    } else {
      SlotNamesDistinct();
      SiblingsDisjoint([], n, SlotNames[k]);
      assert [] + [n] == [n] && [] + [SlotNames[k]] == [SlotNames[k]];
      SubFilesApart([SlotNames[k]], m, [n]);
    }
  }

  /** The staged entries under slot folder `i` are the files of source `i`. */
  lemma {:induction false} SlotsView(s: FsState, home: Path, k: nat, i: nat)
    requires i < 3
    ensures SubFiles(Slots(s, home, k), [SlotNames[i]])
         == if k <= i && Exists(s, OpencodeDirs(home)[i]) then SubFiles(s.files, OpencodeDirs(home)[i]) else map[]
    decreases 3 - k
  {
    var n := SlotNames[i];
    if k >= 3 {
      SubFilesOfNone([n]);
    } else {
      SlotsView(s, home, k + 1, i);
      SlotTreeView(s, home, k, i);
      assert Slots(s, home, k) == SlotTree(s, home, k) + Slots(s, home, k + 1);
      SubFilesUnion(SlotTree(s, home, k), Slots(s, home, k + 1), [n]);
      EmptyMerge(SubFiles(SlotTree(s, home, k), [n]));
      EmptyMerge(SubFiles(Slots(s, home, k + 1), [n]));
    }
  }

  /** A non-empty path below `[n]` in `m` makes `[n]` a proper prefix of a key. */
  lemma FolderOfEntry(m: map<Path, Blob>, n: string, r: Path)
    requires r in SubFiles(m, [n]) && r != []
    ensures [n] in ProperPrefixes(m.Keys)
  {
    SubFilesAt(m, [n], r);
    var p := [n] + r;
    assert p[..1] == [n];
  }

  /** With nothing below `[n]` in `m`, `[n]` is no proper prefix of a key. */
  lemma NoFolderWithoutEntries(m: map<Path, Blob>, n: string)
    requires SubFiles(m, [n]) == map[]
    ensures [n] !in ProperPrefixes(m.Keys)
  {
    forall p, k | p in m && 0 <= k < |p| ensures p[..k] != [n] {
      if p[..k] == [n] {
        assert p == [n] + p[1..];
        SubFilesAt(m, [n], p[1..]);
      }
    }
  }

  /** A source directory that holds files gives the archive its slot folder. */
  lemma SlotFolderPresent(s: FsState, home: Path, i: nat)
    requires Valid(s) && i < 3 && OpencodeDirs(home)[i] in s.dirs
    requires SubFiles(s.files, OpencodeDirs(home)[i]) != map[]
    ensures [SlotNames[i]] in ProperPrefixes(Staged(s, home).Keys)
  {
    var d := OpencodeDirs(home)[i];
    var r :| r in SubFiles(s.files, d);
    SubFilesAt(s.files, d, r);
    assert d + [] == d;
    SlotsView(s, home, 0, i);
    FolderOfEntry(Staged(s, home), SlotNames[i], r);
  }

  /** A source without files gives a plain archive no slot folder. */
  lemma SlotFolderAbsent(s: FsState, home: Path, i: nat, prot: Protection)
    requires i < 3 && SubFiles(s.files, OpencodeDirs(home)[i]) == map[]
    ensures [SlotNames[i]] !in ArchiveDirs(Archive(Staged(s, home), {}, prot))
  {
    SlotsView(s, home, 0, i);
    NoFolderWithoutEntries(Staged(s, home), SlotNames[i]);
    assert Prefixes({}) == {};
  }

  /** Files under a path make the path exist. */
  lemma HoldsFiles(s: FsState, d: Path)
    requires Valid(s) && SubFiles(s.files, d) != map[]
    ensures Exists(s, d)
  {
    var r :| r in SubFiles(s.files, d);
    SubFilesAt(s.files, d, r);
    UnderSelf(d, r);
    if d + r != d {
      RootOfExisting(s, d + r, d);
    }
  }

  /** With no entry at `[]` below `[n]`, `[n]` itself is no entry of `m`. */
  lemma NoEntryAt(m: map<Path, Blob>, n: string)
    requires [] !in SubFiles(m, [n])
    ensures [n] !in m
  {
    SubFilesAt(m, [n], []);
    assert [n] + [] == [n];
  }

  /** A directory has no entry at `[]` below it. */
  lemma DirNoSelfEntry(s: FsState, d: Path)
    requires Valid(s) && d in s.dirs
    ensures [] !in SubFiles(s.files, d)
  {
    SubFilesAt(s.files, d, []);
    assert d + [] == d;
  }

  /** No slot folder of a backup is itself a file entry. */
  lemma NoSlotEntry(s: FsState, home: Path, i: nat)
    requires Valid(s) && i < 3
    requires forall j | 0 <= j < 3 :: Exists(s, OpencodeDirs(home)[j]) ==> OpencodeDirs(home)[j] in s.dirs
    ensures [SlotNames[i]] !in Staged(s, home)
  {
    var d := OpencodeDirs(home)[i];
    SlotsView(s, home, 0, i);
    if Exists(s, d) {
      DirNoSelfEntry(s, d);
    }
    NoEntryAt(Staged(s, home), SlotNames[i]);
  }

  /**
   * What `export` of the archive `collect` wrote needs in order to succeed:
   * the working directory, the password when the archive is encrypted, an
   * `unzip` when a truthy password is given, and destinations that are
   * directories or absent under a parent no file blocks.
   */
  predicate ExportReady(s0: FsState, env: Env, password: Option<string>, c: FsState, env2: Env, password2: Option<string>) {
    && ExportSetting(c, env2) && env2.cwd in c.dirs
    && (Truthy(password) && env.zip == Working && SomeSource(s0, env.home) ==> password2 == password)
    && !(Truthy(password2) && env2.unzip == Missing)
    && (forall j | 0 <= j < 3 ::
          || OpencodeDirs(env2.home)[j] in c.dirs
          || (!Exists(c, OpencodeDirs(env2.home)[j]) && !Blocked(c, Parent(OpencodeDirs(env2.home)[j]))))
  }

  /** `export` of the archive a successful `collect` wrote succeeds when it is ready. */
  lemma CollectedExportSucceeds(s0: FsState, env: Env, output: Option<Path>, password: Option<string>,
                                env2: Env, password2: Option<string>)
    requires CollectSetting(s0, env, output)
    requires CollectRun(s0, env, output, password).result.Ok?
    requires ExportReady(s0, env, password, CollectRun(s0, env, output, password).fs, env2, password2)
    ensures ExportRun(CollectRun(s0, env, output, password).fs, env2,
                      env.cwd + ArchiveName(env, output), password2).result.Ok?
  {
    var c := CollectRun(s0, env, output, password);
    var z := env.cwd + ArchiveName(env, output);
    CollectArchive(s0, env, output, password);
    forall j | 0 <= j < 3 ensures [SlotNames[j]] !in c.fs.files[z].archive.entries {
      NoSlotEntry(s0, env.home, j);
    }
    ExportSucceeds(c.fs, env2, z, password2);
  }

  /**
   * Collect, then export the archive it wrote with the same home directory:
   * when collect succeeds and export is ready, export succeeds and every
   * slot whose source held files ends with exactly those files.
   */
  lemma CollectThenExport(s0: FsState, env: Env, output: Option<Path>, password: Option<string>,
                          env2: Env, password2: Option<string>, i: nat)
    requires CollectSetting(s0, env, output) && i < 3
    requires CollectRun(s0, env, output, password).result.Ok?
    requires env2.home == env.home
    requires ExportReady(s0, env, password, CollectRun(s0, env, output, password).fs, env2, password2)
    requires SubFiles(s0.files, OpencodeDirs(env.home)[i]) != map[]
    ensures var c := CollectRun(s0, env, output, password);
      var e := ExportRun(c.fs, env2, env.cwd + ArchiveName(env, output), password2);
      && e.result.Ok?
      && SubFiles(e.fs.files, OpencodeDirs(env.home)[i]) == SubFiles(s0.files, OpencodeDirs(env.home)[i])
  {
    var c := CollectRun(s0, env, output, password);
    var z := env.cwd + ArchiveName(env, output);
    CollectedExportSucceeds(s0, env, output, password, env2, password2);
    CollectArchive(s0, env, output, password);
    ExportRestores(c.fs, env2, z, password2, i);
    HoldsFiles(s0, OpencodeDirs(env.home)[i]);
    SlotFolderPresent(s0, env.home, i);
    SlotsView(s0, env.home, 0, i);
  }

  /**
   * As written, a plain archive carries no directory entries, so a slot whose
   * source held no files (an empty directory, or none) is skipped on
   * restore: its destination keeps whatever it held.
   */
  lemma EmptySlotNotRestored(s0: FsState, env: Env, output: Option<Path>, password: Option<string>,
                             env2: Env, password2: Option<string>, i: nat)
    requires CollectSetting(s0, env, output) && i < 3
    requires CollectRun(s0, env, output, password).result.Ok?
    requires !(Truthy(password) && env.zip == Working && SomeSource(s0, env.home))
    requires env2.home == env.home
    requires ExportReady(s0, env, password, CollectRun(s0, env, output, password).fs, env2, password2)
    requires SubFiles(s0.files, OpencodeDirs(env.home)[i]) == map[]
    ensures var c := CollectRun(s0, env, output, password);
      var e := ExportRun(c.fs, env2, env.cwd + ArchiveName(env, output), password2);
      && e.result.Ok?
      && SubFiles(e.fs.files, OpencodeDirs(env.home)[i]) == SubFiles(c.fs.files, OpencodeDirs(env.home)[i])
  {
    var c := CollectRun(s0, env, output, password);
    var z := env.cwd + ArchiveName(env, output);
    CollectedExportSucceeds(s0, env, output, password, env2, password2);
    CollectArchive(s0, env, output, password);
    var a := c.fs.files[z].archive;
    assert a == Archive(Staged(s0, env.home), {}, Unprotected);
    SlotFolderAbsent(s0, env.home, i, Unprotected);
    ExportRestores(c.fs, env2, z, password2, i);
  }
}
