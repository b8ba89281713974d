/**
 * An abstract filesystem: regular files (by path) and directories, and the
 * library operations the backup script uses on it (`Path.mkdir`,
 * `shutil.copytree`, `shutil.rmtree`, opening a file for writing), each as a
 * total function that either returns the new state or names the exception the
 * operation raises. A failing operation leaves the state as it was.
 */
module FsModel {
  import opened Wrappers

  /** A path is the list of its components; the empty path is the root. */
  type Path = seq<string>

  newtype byte = x: int | 0 <= x < 256

  /** How the entries of a zip archive are protected. */
  datatype Protection = Unprotected | ZipCrypto(password: string)

  /** File contents: raw bytes, or a zip archive (whose format is not modelled). */
  datatype Blob = Data(bytes: seq<byte>) | Zip(archive: Archive)

  /**
   * A zip archive: its file entries by relative path, the relative paths of
   * its explicit directory entries, and its protection.
   */
  datatype Archive = Archive(entries: map<Path, Blob>, folders: set<Path>, protection: Protection)

  datatype FsState = FsState(files: map<Path, Blob>, dirs: set<Path>)

  /**
   * The exceptions of the modelled operations, by Python class. `Conflict`
   * stands for the OSError an extraction raises when an entry collides with
   * what is already on disk; `CopyFailed` for the `shutil.Error` of a
   * `copytree` into its own subtree; `CommandFailed` for `CalledProcessError`;
   * `SystemExit(c)` for `sys.exit(c)`.
   */
  datatype Error =
    | FileExists | FileNotFound | NotADirectory | IsADirectory
    | Conflict | BadZipFile | BadPassword | PasswordRequired
    | CopyFailed | CommandFailed | SystemExit(code: int)

  function Parent(p: Path): Path
    requires |p| > 0
  {
    p[..|p| - 1]
  }

  /** `p` is `root` or lies beneath it. */
  predicate IsUnder(p: Path, root: Path) {
    |root| <= |p| && p[..|root|] == root
  }

  /** Neither path lies under the other. */
  predicate Disjoint(a: Path, b: Path) {
    !IsUnder(a, b) && !IsUnder(b, a)
  }

  /**
   * The shape every real filesystem has: the root is a directory, nothing is
   * both a file and a directory, and the parent of every entry is a directory.
   */
  predicate Valid(s: FsState) {
    && [] in s.dirs
    && s.files.Keys !! s.dirs
    && (forall p | p in s.files :: |p| > 0 && Parent(p) in s.dirs)
    && (forall p | p in s.dirs && |p| > 0 :: Parent(p) in s.dirs)
  }

  /** `Path.exists()`. */
  predicate Exists(s: FsState, p: Path) {
    p in s.files || p in s.dirs
  }

  /** No file and no directory lies under `p` (nor is `p` itself). */
  predicate NothingUnder(s: FsState, p: Path) {
    && (forall q | q in s.files :: !IsUnder(q, p))
    && (forall q | q in s.dirs :: !IsUnder(q, p))
  }

  /** Some non-empty prefix of `p` is a regular file. */
  predicate Blocked(s: FsState, p: Path) {
    exists k :: 0 < k <= |p| && p[..k] in s.files
  }

  /** `p` and every prefix of it. */
  function Ancestors(p: Path): set<Path> {
    set k | 0 <= k <= |p| :: p[..k]
  }

  /** The paths of `keys` that lie under `root`, relative to `root`. */
  function Rel(keys: set<Path>, root: Path): set<Path> {
    set p | p in keys && IsUnder(p, root) :: p[|root|..]
  }

  /** The paths of `keys`, each prefixed with `root`. */
  function ShiftKeys(root: Path, keys: set<Path>): set<Path> {
    set r | r in keys :: root + r
  }

  /** The files under `root`, keyed by their path relative to `root`. */
  function SubFiles(files: map<Path, Blob>, root: Path): map<Path, Blob> {
    RelIn(files.Keys, root);
    map r | r in Rel(files.Keys, root) :: files[root + r]
  }

  /** The files of `m`, each moved beneath `root`. */
  function ShiftMap(root: Path, m: map<Path, Blob>): map<Path, Blob> {
    ShiftIn(root, m.Keys);
    map p | p in ShiftKeys(root, m.Keys) :: m[p[|root|..]]
  }

  /** The state with everything under `root` gone. */
  function Without(s: FsState, root: Path): FsState {
    FsState(map p | p in s.files && !IsUnder(p, root) :: s.files[p],
            set p | p in s.dirs && !IsUnder(p, root))
  }

  /**
   * The state with the tree (`tf`, `td`) placed beneath `root`, `root` and its
   * ancestors made directories; files of the tree replace files already there.
   */
  function Graft(s: FsState, root: Path, tf: map<Path, Blob>, td: set<Path>): FsState {
    FsState(s.files + ShiftMap(root, tf), s.dirs + ShiftKeys(root, td) + Ancestors(root))
  }

  /** Placing (`tf`, `td`) beneath `root` collides with nothing on disk. */
  predicate Fits(s: FsState, root: Path, tf: map<Path, Blob>, td: set<Path>) {
    && (forall r | r in tf :: root + r !in s.dirs)
    && (forall r | r in td :: root + r !in s.files)
    && !Blocked(s, root)
  }

  // ---------------------------------------------------------------------
  // The library operations
  // ---------------------------------------------------------------------

  /** `Path(p).mkdir(exist_ok=True)`. */
  function MkDir(s: FsState, p: Path): Result<FsState, Error> {
    if p == [] || p in s.dirs then Ok(s)
    else if p in s.files then Err(FileExists)
    else if Blocked(s, Parent(p)) then Err(NotADirectory)
    else if Parent(p) !in s.dirs then Err(FileNotFound)
    else Ok(FsState(s.files, s.dirs + {p}))
  }

  /** `Path(p).mkdir(parents=True, exist_ok=True)`. */
  function MakeDirs(s: FsState, p: Path): Result<FsState, Error> {
    if Blocked(s, p) then Err(if p in s.files then FileExists else NotADirectory)
    else Ok(FsState(s.files, s.dirs + Ancestors(p)))
  }

  /**
   * `copytree` lists the entries of `src` before it creates `dst`, and lists
   * each sub-directory afresh when it copies it. When `dst` lies two or more
   * levels below `src`, inside a directory of `src` that already exists, the
   * copy of that directory meets the copy being made and copies it again,
   * deeper each time, until a path grows too long and `copytree` raises.
   */
  predicate CopiesIntoItself(s: FsState, src: Path, dst: Path) {
    IsUnder(dst, src) && |dst| >= |src| + 2 && src + [dst[|src|]] in s.dirs
  }

  /**
   * `shutil.copytree(src, dst)`: `src` must be a directory, `dst` must not
   * exist; `dst` and its missing ancestors are created and every file and
   * directory under `src` is copied to the same relative place under `dst`.
   * A `dst` just below `src`, or below it through new directories only,
   * receives what `src` held before the call.
   */
  function CopyTree(s: FsState, src: Path, dst: Path): Result<FsState, Error> {
    if src !in s.dirs then Err(if src in s.files then NotADirectory else FileNotFound)
    else if Exists(s, dst) then Err(FileExists)
    else if Blocked(s, dst) then Err(NotADirectory)
    else if CopiesIntoItself(s, src, dst) then Err(CopyFailed)
    else Ok(Graft(s, dst, SubFiles(s.files, src), Rel(s.dirs, src)))
  }

  /** `shutil.rmtree(p)`: `p` must be a directory; it and everything under it go. */
  function RmTree(s: FsState, p: Path): Result<FsState, Error>
    requires |p| > 0
  {
    if p in s.files then Err(NotADirectory)
    else if p !in s.dirs then Err(FileNotFound)
    else Ok(Without(s, p))
  }

  /** Opening `p` for writing and writing `b`: the parent must be a directory. */
  function WriteFile(s: FsState, p: Path, b: Blob): Result<FsState, Error> {
    if p == [] || p in s.dirs then Err(IsADirectory)
    else if Blocked(s, Parent(p)) then Err(NotADirectory)
    else if Parent(p) !in s.dirs then Err(FileNotFound)
    else Ok(FsState(s.files[p := b], s.dirs))
  }

  /** Every prefix of a path in `keys`, the paths themselves included. */
  function Prefixes(keys: set<Path>): set<Path> {
    set p, k | p in keys && 0 <= k <= |p| :: p[..k]
  }

  /** Every proper prefix of a path in `keys`. */
  function ProperPrefixes(keys: set<Path>): set<Path> {
    set p, k | p in keys && 0 <= k < |p| :: p[..k]
  }

  /** The directories an extraction of `a` creates, relative to the target (which is `[]`). */
  function ArchiveDirs(a: Archive): set<Path> {
    {[]} + Prefixes(a.folders) + ProperPrefixes(a.entries.Keys)
  }

  /** No entry of `a` is also one of the directories its extraction creates. */
  predicate WellFormed(a: Archive) {
    a.entries.Keys !! ArchiveDirs(a)
  }

  /**
   * Writing every entry of `a` beneath `root`, with the directories it needs
   * (what `extractall` and `unzip -d` do once the entries can be read).
   */
  function Place(s: FsState, root: Path, a: Archive): Result<FsState, Error> {
    var td := ArchiveDirs(a);
    if !WellFormed(a) || !Fits(s, root, a.entries, td) then Err(Conflict)
    else Ok(Graft(s, root, a.entries, td))
  }

  // ---------------------------------------------------------------------
  // Path algebra
  // ---------------------------------------------------------------------

  lemma RelAt(keys: set<Path>, root: Path, r: Path)
    ensures r in Rel(keys, root) <==> root + r in keys
  {
    assert IsUnder(root + r, root) && (root + r)[|root|..] == r;
    if r in Rel(keys, root) {
      var p :| p in keys && IsUnder(p, root) && p[|root|..] == r;
      assert p == p[..|root|] + p[|root|..];
    }
  }

  lemma RelIn(keys: set<Path>, root: Path)
    ensures forall r :: r in Rel(keys, root) ==> root + r in keys
  {
    forall r | r in Rel(keys, root) ensures root + r in keys {
      RelAt(keys, root, r);
    }
  }

  lemma ShiftAt(root: Path, keys: set<Path>, p: Path)
    ensures p in ShiftKeys(root, keys) <==> IsUnder(p, root) && p[|root|..] in keys
  {
    if IsUnder(p, root) {
      assert p == root + p[|root|..];
    }
    if p in ShiftKeys(root, keys) {
      var r :| r in keys && p == root + r;
      assert p[..|root|] == root && p[|root|..] == r;
    }
  }

  lemma ShiftIn(root: Path, keys: set<Path>)
    ensures forall p :: p in ShiftKeys(root, keys) ==> p[|root|..] in keys
  {
    forall p | p in ShiftKeys(root, keys) ensures p[|root|..] in keys {
      ShiftAt(root, keys, p);
    }
  }

  lemma ShiftOf(root: Path, keys: set<Path>, r: Path)
    ensures root + r in ShiftKeys(root, keys) <==> r in keys
  {
    ShiftAt(root, keys, root + r);
    assert IsUnder(root + r, root) && (root + r)[|root|..] == r;
  }

  /** Lookup in `SubFiles`. */
  lemma SubFilesAt(files: map<Path, Blob>, root: Path, r: Path)
    ensures r in SubFiles(files, root) <==> root + r in files
    ensures r in SubFiles(files, root) ==> SubFiles(files, root)[r] == files[root + r]
  {
    RelAt(files.Keys, root, r);
  }

  /** Lookup in `ShiftMap`. */
  lemma ShiftMapAt(root: Path, m: map<Path, Blob>, r: Path)
    ensures root + r in ShiftMap(root, m) <==> r in m
    ensures r in m ==> ShiftMap(root, m)[root + r] == m[r]
  {
    ShiftOf(root, m.Keys, r);
    assert (root + r)[|root|..] == r;
  }

  lemma ShiftMapKeys(root: Path, m: map<Path, Blob>)
    ensures ShiftMap(root, m).Keys == ShiftKeys(root, m.Keys)
  {
  }

  lemma UnderTrans(p: Path, q: Path, root: Path)
    requires IsUnder(p, q) && IsUnder(q, root)
    ensures IsUnder(p, root)
  {
    assert p[..|root|] == p[..|q|][..|root|];
  }

  lemma UnderConcat(a: Path, b: Path, root: Path)
    requires IsUnder(a, root)
    ensures IsUnder(a + b, root)
  {
    assert (a + b)[..|root|] == a[..|root|];
  }

  lemma UnderParent(q: Path, root: Path)
    requires |q| > 0 && IsUnder(Parent(q), root)
    ensures IsUnder(q, root)
  {
    assert q[..|root|] == Parent(q)[..|root|];
  }

  /** Two paths a common path lies under are one under the other. */
  lemma CommonUnder(x: Path, a: Path, b: Path)
    requires IsUnder(x, a) && IsUnder(x, b)
    ensures IsUnder(a, b) || IsUnder(b, a)
  {
    if |a| <= |b| {
      assert b[..|a|] == x[..|b|][..|a|];
    } else {
      assert a[..|b|] == x[..|a|][..|b|];
    }
  }

  lemma DisjointNotUnder(x: Path, a: Path, b: Path)
    requires Disjoint(a, b) && IsUnder(x, a)
    ensures !IsUnder(x, b)
  {
    if IsUnder(x, b) {
      CommonUnder(x, a, b);
    }
  }

  lemma AncestorsAt(p: Path, q: Path)
    ensures q in Ancestors(p) <==> IsUnder(p, q)
  {
    if IsUnder(p, q) {
      assert q == p[..|q|];
    }
  }

  /** Concatenating below a root commutes with taking what lies under it. */
  lemma ShiftUnder(root: Path, r: Path, x: Path)
    requires IsUnder(r, x)
    ensures IsUnder(root + r, root + x)
  {
    assert (root + r)[..|root + x|] == root + r[..|x|];
  }

  lemma ShiftUnderInv(root: Path, r: Path, x: Path)
    requires IsUnder(root + r, root + x)
    ensures IsUnder(r, x)
  {
    assert r[..|x|] == (root + r)[..|root + x|][|root|..];
  }

  // ---------------------------------------------------------------------
  // Consequences of Valid
  // ---------------------------------------------------------------------

  /** Every prefix of an existing entry is a directory, save a file itself. */
  lemma AncestorIsDir(s: FsState, p: Path, k: nat)
    requires Valid(s) && Exists(s, p) && k <= |p|
    requires k < |p| || p in s.dirs
    ensures p[..k] in s.dirs
    decreases |p| - k
  {
    if k == |p| {
      assert p[..k] == p;
    } else {
      var q := Parent(p);
      assert q in s.dirs;
      AncestorIsDir(s, q, k);
      assert q[..k] == p[..k];
    }
  }

  /** Whatever lies strictly under `root` makes `root` a directory. */
  lemma RootOfExisting(s: FsState, q: Path, root: Path)
    requires Valid(s) && IsUnder(q, root)
    requires q in s.dirs || (q in s.files && q != root)
    ensures root in s.dirs
  {
    AncestorIsDir(s, q, |root|);
  }

  /** A path that does not exist has nothing under it. */
  lemma AbsentIsEmpty(s: FsState, p: Path)
    requires Valid(s) && !Exists(s, p)
    ensures NothingUnder(s, p)
  {
    forall q | q in s.files ensures !IsUnder(q, p) {
      if IsUnder(q, p) { RootOfExisting(s, q, p); }
    }
    forall q | q in s.dirs ensures !IsUnder(q, p) {
      if IsUnder(q, p) { RootOfExisting(s, q, p); }
    }
  }

  /** The tree under a directory is itself a valid tree. */
  lemma SubtreeValid(s: FsState, src: Path)
    requires Valid(s) && src in s.dirs
    ensures Valid(FsState(SubFiles(s.files, src), Rel(s.dirs, src)))
  {
    var tf, td := SubFiles(s.files, src), Rel(s.dirs, src);
    RelAt(s.dirs, src, []);
    assert src + [] == src;
    forall r | r in tf ensures r !in td {
      SubFilesAt(s.files, src, r);
      RelAt(s.dirs, src, r);
    }
    forall r | r in tf ensures |r| > 0 && Parent(r) in td {
      SubFilesAt(s.files, src, r);
      assert Parent(src + r) == src + Parent(r);
      RelAt(s.dirs, src, Parent(r));
    }
    forall r | r in td && |r| > 0 ensures Parent(r) in td {
      RelAt(s.dirs, src, r);
      assert Parent(src + r) == src + Parent(r);
      RelAt(s.dirs, src, Parent(r));
    }
  }

  /**
   * An archive of a valid tree, whose directory entries are directories of
   * that tree, is well formed: its extraction creates only directories of
   * the tree.
   */
  lemma TreeArchiveWellFormed(tf: map<Path, Blob>, td: set<Path>, folders: set<Path>, prot: Protection)
    requires Valid(FsState(tf, td)) && folders <= td
    ensures ArchiveDirs(Archive(tf, folders, prot)) <= td
    ensures WellFormed(Archive(tf, folders, prot))
  {
    var t := FsState(tf, td);
    forall q | q in Prefixes(folders) ensures q in td {
      var p, k :| p in folders && 0 <= k <= |p| && q == p[..k];
      AncestorIsDir(t, p, k);
    }
    forall q | q in ProperPrefixes(tf.Keys) ensures q in td {
      var p, k :| p in tf.Keys && 0 <= k < |p| && q == p[..k];
      AncestorIsDir(t, p, k);
    }
  }

  /** The tree an archive extracts to is valid when no entry is also a directory. */
  lemma ArchiveTreeValid(a: Archive)
    requires WellFormed(a)
    ensures Valid(FsState(a.entries, ArchiveDirs(a)))
  {
    var td := ArchiveDirs(a);
    forall r | r in a.entries ensures |r| > 0 && Parent(r) in td {
      assert |r| > 0;
      assert Parent(r) in ProperPrefixes(a.entries.Keys) by {
        assert Parent(r) == r[..|r| - 1];
      }
    }
    forall r | r in td && |r| > 0 ensures Parent(r) in td {
      if r in Prefixes(a.folders) {
        var p, k :| p in a.folders && 0 <= k <= |p| && r == p[..k];
        assert Parent(r) == p[..k - 1];
      } else if r in ProperPrefixes(a.entries.Keys) {
        var p, k :| p in a.entries.Keys && 0 <= k < |p| && r == p[..k];
        assert Parent(r) == p[..k - 1];
      }
    }
  }

  // ---------------------------------------------------------------------
  // Every operation keeps the filesystem valid
  // ---------------------------------------------------------------------

  lemma GraftValid(s: FsState, root: Path, tf: map<Path, Blob>, td: set<Path>)
    requires Valid(s) && Valid(FsState(tf, td)) && Fits(s, root, tf, td)
    ensures Valid(Graft(s, root, tf, td))
  {
    var g := Graft(s, root, tf, td);
    ShiftMapKeys(root, tf);
    assert [] in Ancestors(root) by { assert root[..0] == []; }
    forall p | p in g.files ensures p !in g.dirs {
      if p in ShiftKeys(root, tf.Keys) {
        var r :| r in tf.Keys && p == root + r;
        if p in ShiftKeys(root, td) { ShiftOf(root, td, r); }
        if p in Ancestors(root) {
          AncestorsAt(root, p);
        }
      }
    }
    forall p | p in g.files ensures |p| > 0 && Parent(p) in g.dirs {
      if p in ShiftKeys(root, tf.Keys) {
        var r :| r in tf.Keys && p == root + r;
        assert Parent(p) == root + Parent(r);
      }
    }
    forall p | p in g.dirs && |p| > 0 ensures Parent(p) in g.dirs {
      if p in ShiftKeys(root, td) {
        var r :| r in td && p == root + r;
        if |r| == 0 {
          assert p == root;
          assert Parent(p) == root[..|root| - 1];
        } else {
          assert Parent(p) == root + Parent(r);
        }
      } else if p in Ancestors(root) {
        var k :| 0 <= k <= |root| && p == root[..k];
        assert Parent(p) == root[..k - 1];
      }
    }
  }

  lemma MkDirValid(s: FsState, p: Path)
    requires Valid(s)
    ensures MkDir(s, p).Ok? ==> Valid(MkDir(s, p).value)
  {
    if p != [] && p !in s.dirs && p !in s.files && !Blocked(s, Parent(p)) && Parent(p) in s.dirs {
      var t := MkDir(s, p).value;
      assert t.dirs == s.dirs + {p};
    }
  }

  lemma MakeDirsValid(s: FsState, p: Path)
    requires Valid(s)
    ensures MakeDirs(s, p).Ok? ==> Valid(MakeDirs(s, p).value)
  {
    if !Blocked(s, p) {
      var t := MakeDirs(s, p).value;
      forall q | q in Ancestors(p) ensures q !in s.files {
        var k :| 0 <= k <= |p| && q == p[..k];
        if k == 0 { assert q == []; }
      }
      forall q | q in t.dirs && |q| > 0 ensures Parent(q) in t.dirs {
        if q in Ancestors(p) {
          var k :| 0 <= k <= |p| && q == p[..k];
          assert Parent(q) == p[..k - 1];
        }
      }
    }
  }

  lemma CopyTreeValid(s: FsState, src: Path, dst: Path)
    requires Valid(s)
    ensures CopyTree(s, src, dst).Ok? ==> Valid(CopyTree(s, src, dst).value)
  {
    if CopyTree(s, src, dst).Ok? {
      var tf, td := SubFiles(s.files, src), Rel(s.dirs, src);
      SubtreeValid(s, src);
      AbsentIsEmpty(s, dst);
      forall r | r in tf ensures dst + r !in s.dirs {
        assert IsUnder(dst + r, dst) by { UnderConcat(dst, r, dst); assert IsUnder(dst, dst); }
      }
      forall r | r in td ensures dst + r !in s.files {
        assert IsUnder(dst + r, dst) by { UnderConcat(dst, r, dst); assert IsUnder(dst, dst); }
      }
      GraftValid(s, dst, tf, td);
    }
  }

  lemma RmTreeValid(s: FsState, p: Path)
    requires Valid(s) && |p| > 0
    ensures RmTree(s, p).Ok? ==> Valid(RmTree(s, p).value)
  {
    var w := Without(s, p);
    assert !IsUnder([], p);
    forall q | q in w.files ensures |q| > 0 && Parent(q) in w.dirs {
      if IsUnder(Parent(q), p) { UnderParent(q, p); }
    }
    forall q | q in w.dirs && |q| > 0 ensures Parent(q) in w.dirs {
      if IsUnder(Parent(q), p) { UnderParent(q, p); }
    }
  }

  lemma WriteFileValid(s: FsState, p: Path, b: Blob)
    requires Valid(s)
    ensures WriteFile(s, p, b).Ok? ==> Valid(WriteFile(s, p, b).value)
  {
  }

  lemma PlaceValid(s: FsState, root: Path, a: Archive)
    requires Valid(s)
    ensures Place(s, root, a).Ok? ==> Valid(Place(s, root, a).value)
  {
    if Place(s, root, a).Ok? {
      ArchiveTreeValid(a);
      GraftValid(s, root, a.entries, ArchiveDirs(a));
    }
  }
}
