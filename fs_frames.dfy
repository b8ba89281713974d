/**
 * What each filesystem operation leaves alone, and how the relative view
 * `SubFiles` of a tree behaves under the operations that build trees.
 */
module FsFrames {
  import opened Wrappers
  import opened FsModel

  /** `s` and `t` hold the same files and directories at and under `x`. */
  predicate SameAt(s: FsState, t: FsState, x: Path) {
    SubFiles(s.files, x) == SubFiles(t.files, x) && Rel(s.dirs, x) == Rel(t.dirs, x)
  }

  /** The same, stated path by path. */
  ghost predicate AgreeUnder(s: FsState, t: FsState, x: Path) {
    forall q | IsUnder(q, x) ::
      && (q in s.files <==> q in t.files)
      && (q in s.dirs <==> q in t.dirs)
      && (q in s.files ==> s.files[q] == t.files[q])
  }

  lemma UnderSelf(x: Path, r: Path)
    ensures IsUnder(x + r, x) && (x + r)[|x|..] == r
  {
    assert (x + r)[..|x|] == x;
  }

  lemma SameAtIntro(s: FsState, t: FsState, x: Path)
    requires AgreeUnder(s, t, x)
    ensures SameAt(s, t, x)
  {
    forall r ensures r in SubFiles(s.files, x) <==> r in SubFiles(t.files, x) {
      SubFilesAt(s.files, x, r);
      SubFilesAt(t.files, x, r);
      UnderSelf(x, r);
    }
    forall r | r in SubFiles(s.files, x) ensures SubFiles(s.files, x)[r] == SubFiles(t.files, x)[r] {
      SubFilesAt(s.files, x, r);
      SubFilesAt(t.files, x, r);
      UnderSelf(x, r);
    }
    forall r ensures r in Rel(s.dirs, x) <==> r in Rel(t.dirs, x) {
      RelAt(s.dirs, x, r);
      RelAt(t.dirs, x, r);
      UnderSelf(x, r);
    }
  }

  /** Agreeing at `x` is agreeing about `x` itself. */
  lemma SameAtExists(s: FsState, t: FsState, x: Path)
    requires SameAt(s, t, x)
    ensures x in s.files <==> x in t.files
    ensures x in s.dirs <==> x in t.dirs
    ensures Exists(s, x) <==> Exists(t, x)
  {
    assert x + [] == x;
    SubFilesAt(s.files, x, []);
    SubFilesAt(t.files, x, []);
    RelAt(s.dirs, x, []);
    RelAt(t.dirs, x, []);
  }

  lemma SubFilesCompose(f: map<Path, Blob>, x: Path, y: Path)
    ensures SubFiles(SubFiles(f, x), y) == SubFiles(f, x + y)
  {
    forall r ensures r in SubFiles(SubFiles(f, x), y) <==> r in SubFiles(f, x + y) {
      SubFilesAt(SubFiles(f, x), y, r);
      SubFilesAt(f, x, y + r);
      SubFilesAt(f, x + y, r);
      assert x + (y + r) == (x + y) + r;
    }
    forall r | r in SubFiles(SubFiles(f, x), y)
      ensures SubFiles(SubFiles(f, x), y)[r] == SubFiles(f, x + y)[r]
    {
      SubFilesAt(SubFiles(f, x), y, r);
      SubFilesAt(f, x, y + r);
      SubFilesAt(f, x + y, r);
      assert x + (y + r) == (x + y) + r;
    }
  }

  lemma RelCompose(d: set<Path>, x: Path, y: Path)
    ensures Rel(Rel(d, x), y) == Rel(d, x + y)
  {
    forall r ensures r in Rel(Rel(d, x), y) <==> r in Rel(d, x + y) {
      RelAt(Rel(d, x), y, r);
      RelAt(d, x, y + r);
      RelAt(d, x + y, r);
      assert x + (y + r) == (x + y) + r;
    }
  }

  /** Agreeing at `x` is agreeing at everything below `x`. */
  lemma SameAtBelow(s: FsState, t: FsState, x: Path, y: Path)
    requires SameAt(s, t, x)
    ensures SameAt(s, t, x + y)
  {
    SubFilesCompose(s.files, x, y);
    SubFilesCompose(t.files, x, y);
    RelCompose(s.dirs, x, y);
    RelCompose(t.dirs, x, y);
  }

  /** A path apart from `root` is apart from everything under `root`. */
  lemma DisjointBelow(x: Path, root: Path, y: Path)
    requires Disjoint(x, root)
    ensures Disjoint(x, root + y)
  {
    UnderSelf(root, y);
    if IsUnder(x, root + y) {
      UnderTrans(x, root + y, root);
    }
    if IsUnder(root + y, x) {
      CommonUnder(root + y, root, x);
    }
  }

  /** Two different entries of one directory are apart. */
  lemma SiblingsDisjoint(root: Path, a: string, b: string)
    requires a != b
    ensures Disjoint(root + [a], root + [b])
  {
    assert (root + [a])[|root|] == a && (root + [b])[|root|] == b;
  }

  /** Nothing stored under `x` means an empty view from `x`. */
  lemma EmptyView(s: FsState, x: Path)
    requires NothingUnder(s, x)
    ensures SubFiles(s.files, x) == map[] && Rel(s.dirs, x) == {}
  {
    forall r ensures r !in SubFiles(s.files, x) && r !in Rel(s.dirs, x) {
      SubFilesAt(s.files, x, r);
      RelAt(s.dirs, x, r);
      UnderSelf(x, r);
    }
  }

  /** No prefix of a directory is a file, so nothing blocks creating inside it. */
  lemma NotBlockedDir(s: FsState, p: Path)
    requires Valid(s) && p in s.dirs
    ensures !Blocked(s, p)
  {
    forall k | 0 < k <= |p| ensures p[..k] !in s.files {
      AncestorIsDir(s, p, k);
    }
  }

  lemma NotBlockedChild(s: FsState, p: Path, n: string)
    requires Valid(s) && p in s.dirs && p + [n] !in s.files
    ensures !Blocked(s, p + [n])
  {
    forall k | 0 < k <= |p| + 1 ensures (p + [n])[..k] !in s.files {
      if k <= |p| {
        assert (p + [n])[..k] == p[..k];
        AncestorIsDir(s, p, k);
      } else {
        assert (p + [n])[..k] == p + [n];
      }
    }
  }

  /** Creating a directory that did not exist: nothing is under it yet, and what is apart from it stays. */
  lemma FreshDir(s: FsState, p: Path)
    requires Valid(s) && !Exists(s, p) && MkDir(s, p).Ok?
    ensures MkDir(s, p).value == FsState(s.files, s.dirs + {p})
    ensures Valid(MkDir(s, p).value)
    ensures SubFiles(MkDir(s, p).value.files, p) == map[]
    ensures forall n :: !Exists(MkDir(s, p).value, p + [n])
  {
    MkDirValid(s, p);
    AbsentIsEmpty(s, p);
    EmptyView(s, p);
    forall n ensures !Exists(MkDir(s, p).value, p + [n]) {
      UnderSelf(p, [n]);
    }
  }

  // ---------------------------------------------------------------------
  // Relative views of built trees
  // ---------------------------------------------------------------------

  lemma SubFilesUnion(f: map<Path, Blob>, g: map<Path, Blob>, x: Path)
    ensures SubFiles(f + g, x) == SubFiles(f, x) + SubFiles(g, x)
  {
    forall r ensures r in SubFiles(f + g, x) <==> r in SubFiles(f, x) + SubFiles(g, x) {
      SubFilesAt(f + g, x, r);
      SubFilesAt(f, x, r);
      SubFilesAt(g, x, r);
    }
    forall r | r in SubFiles(f + g, x)
      ensures SubFiles(f + g, x)[r] == (SubFiles(f, x) + SubFiles(g, x))[r]
    {
      SubFilesAt(f + g, x, r);
      SubFilesAt(f, x, r);
      SubFilesAt(g, x, r);
    }
  }

  lemma EmptyMerge(m: map<Path, Blob>)
    ensures map[] + m == m && m + map[] == m
  {
  }

  /** Looking below `a + b` into a tree moved beneath `a`. */
  lemma SubFilesShifted(a: Path, b: Path, m: map<Path, Blob>)
    ensures SubFiles(ShiftMap(a, m), a + b) == SubFiles(m, b)
  {
    forall r ensures r in SubFiles(ShiftMap(a, m), a + b) <==> r in SubFiles(m, b) {
      SubFilesAt(ShiftMap(a, m), a + b, r);
      SubFilesAt(m, b, r);
      ShiftMapAt(a, m, b + r);
      assert a + b + r == a + (b + r);
    }
    forall r | r in SubFiles(ShiftMap(a, m), a + b)
      ensures SubFiles(ShiftMap(a, m), a + b)[r] == SubFiles(m, b)[r]
    {
      SubFilesAt(ShiftMap(a, m), a + b, r);
      SubFilesAt(m, b, r);
      ShiftMapAt(a, m, b + r);
      assert a + b + r == a + (b + r);
    }
  }

  /** Looking from `a` into a tree moved beneath `a + b`. */
  lemma SubFilesOfDeeper(a: Path, b: Path, m: map<Path, Blob>)
    ensures SubFiles(ShiftMap(a + b, m), a) == ShiftMap(b, m)
  {
    forall r ensures r in SubFiles(ShiftMap(a + b, m), a) <==> r in ShiftMap(b, m) {
      SubFilesAt(ShiftMap(a + b, m), a, r);
      ShiftMapKeys(a + b, m);
      ShiftMapKeys(b, m);
      ShiftAt(a + b, m.Keys, a + r);
      ShiftAt(b, m.Keys, r);
      UnderSelf(a, r);
      if IsUnder(a + r, a + b) {
        ShiftUnderInv(a, r, b);
      }
      if IsUnder(r, b) {
        ShiftUnder(a, r, b);
        assert (a + r)[|a + b|..] == r[|b|..];
      }
    }
    forall r | r in SubFiles(ShiftMap(a + b, m), a)
      ensures SubFiles(ShiftMap(a + b, m), a)[r] == ShiftMap(b, m)[r]
    {
      SubFilesAt(ShiftMap(a + b, m), a, r);
      ShiftMapKeys(a + b, m);
      ShiftAt(a + b, m.Keys, a + r);
      ShiftUnderInv(a, r, b);
      var r' := r[|b|..];
      assert r == b + r' by { assert r == r[..|b|] + r'; }
      ShiftMapAt(b, m, r');
      ShiftMapAt(a + b, m, r');
      assert a + r == (a + b) + r';
    }
  }

  /** A tree moved beneath `a` has nothing under a path apart from `a`. */
  lemma SubFilesApart(a: Path, m: map<Path, Blob>, x: Path)
    requires Disjoint(x, a)
    ensures SubFiles(ShiftMap(a, m), x) == map[]
  {
    forall r ensures r !in SubFiles(ShiftMap(a, m), x) {
      SubFilesAt(ShiftMap(a, m), x, r);
      ShiftMapKeys(a, m);
      ShiftAt(a, m.Keys, x + r);
      UnderSelf(x, r);
      DisjointNotUnder(x + r, x, a);
    }
  }

  /** Looking from `a` into a tree moved beneath `a` gives the tree back. */
  lemma ShiftedOwnView(a: Path, m: map<Path, Blob>)
    ensures SubFiles(ShiftMap(a, m), a) == m
  {
    forall r ensures r in SubFiles(ShiftMap(a, m), a) <==> r in m {
      SubFilesAt(ShiftMap(a, m), a, r);
      ShiftMapAt(a, m, r);
    }
    forall r | r in m ensures SubFiles(ShiftMap(a, m), a)[r] == m[r] {
      SubFilesAt(ShiftMap(a, m), a, r);
      ShiftMapAt(a, m, r);
    }
  }

  lemma SubFilesOfRoot(m: map<Path, Blob>)
    ensures SubFiles(m, []) == m
  {
    forall r ensures r in SubFiles(m, []) <==> r in m {
      SubFilesAt(m, [], r);
      assert [] + r == r;
    }
    forall r | r in m ensures SubFiles(m, [])[r] == m[r] {
      SubFilesAt(m, [], r);
      assert [] + r == r;
    }
  }

  // ---------------------------------------------------------------------
  // Frames of the operations
  // ---------------------------------------------------------------------

  lemma GraftFrame(s: FsState, root: Path, tf: map<Path, Blob>, td: set<Path>, x: Path)
    requires Disjoint(x, root)
    ensures SameAt(s, Graft(s, root, tf, td), x)
  {
    var g := Graft(s, root, tf, td);
    ShiftMapKeys(root, tf);
    forall q | IsUnder(q, x)
      ensures (q in s.files <==> q in g.files) && (q in s.dirs <==> q in g.dirs)
      ensures q in s.files ==> s.files[q] == g.files[q]
    {
      DisjointNotUnder(q, x, root);
      ShiftAt(root, tf.Keys, q);
      ShiftAt(root, td, q);
      AncestorsAt(root, q);
      if IsUnder(root, q) {
        UnderTrans(root, q, x);
      }
    }
    SameAtIntro(s, g, x);
  }

  lemma WithoutFrame(s: FsState, root: Path, x: Path)
    requires Disjoint(x, root)
    ensures SameAt(s, Without(s, root), x)
  {
    var w := Without(s, root);
    forall q | IsUnder(q, x)
      ensures (q in s.files <==> q in w.files) && (q in s.dirs <==> q in w.dirs)
      ensures q in s.files ==> s.files[q] == w.files[q]
    {
      DisjointNotUnder(q, x, root);
    }
    SameAtIntro(s, w, x);
  }

  /** After removing `root`, nothing is left under it. */
  lemma WithoutEmpties(s: FsState, root: Path)
    ensures NothingUnder(Without(s, root), root)
  {
  }

  lemma MkDirFrame(s: FsState, p: Path, x: Path)
    requires MkDir(s, p).Ok? && !IsUnder(p, x)
    ensures SameAt(s, MkDir(s, p).value, x)
  {
    var t := MkDir(s, p).value;
    assert AgreeUnder(s, t, x);
    SameAtIntro(s, t, x);
  }

  lemma MakeDirsFrame(s: FsState, p: Path, x: Path)
    requires MakeDirs(s, p).Ok? && !IsUnder(p, x)
    ensures SameAt(s, MakeDirs(s, p).value, x)
  {
    var t := MakeDirs(s, p).value;
    forall q | IsUnder(q, x)
      ensures (q in s.files <==> q in t.files) && (q in s.dirs <==> q in t.dirs)
      ensures q in s.files ==> s.files[q] == t.files[q]
    {
      AncestorsAt(p, q);
      if IsUnder(p, q) {
        UnderTrans(p, q, x);
      }
    }
    SameAtIntro(s, t, x);
  }

  lemma CopyTreeFrame(s: FsState, src: Path, dst: Path, x: Path)
    requires CopyTree(s, src, dst).Ok? && Disjoint(x, dst)
    ensures SameAt(s, CopyTree(s, src, dst).value, x)
  {
    var tf, td := SubFiles(s.files, src), Rel(s.dirs, src);
    assert CopyTree(s, src, dst).value == Graft(s, dst, tf, td);
    GraftFrame(s, dst, tf, td, x);
  }

  lemma RmTreeFrame(s: FsState, p: Path, x: Path)
    requires |p| > 0 && RmTree(s, p).Ok? && Disjoint(x, p)
    ensures SameAt(s, RmTree(s, p).value, x)
  {
    WithoutFrame(s, p, x);
  }

  lemma WriteFileFrame(s: FsState, p: Path, b: Blob, x: Path)
    requires WriteFile(s, p, b).Ok? && !IsUnder(p, x)
    ensures SameAt(s, WriteFile(s, p, b).value, x)
  {
    var t := WriteFile(s, p, b).value;
    assert AgreeUnder(s, t, x);
    SameAtIntro(s, t, x);
  }

  lemma PlaceFrame(s: FsState, root: Path, a: Archive, x: Path)
    requires Place(s, root, a).Ok? && Disjoint(x, root)
    ensures SameAt(s, Place(s, root, a).value, x)
  {
    GraftFrame(s, root, a.entries, ArchiveDirs(a), x);
  }

  /** Copying into an empty `dst` makes the view from `dst` the view from `src`. */
  lemma CopyTreeContents(s: FsState, src: Path, dst: Path)
    requires CopyTree(s, src, dst).Ok? && NothingUnder(s, dst)
    ensures SubFiles(CopyTree(s, src, dst).value.files, dst) == SubFiles(s.files, src)
  {
    var tf, td := SubFiles(s.files, src), Rel(s.dirs, src);
    assert CopyTree(s, src, dst).value == Graft(s, dst, tf, td);
    GraftContents(s, dst, tf, td);
  }

  /** Grafting onto an empty `root` makes the view from `root` the grafted files. */
  lemma GraftContents(s: FsState, root: Path, tf: map<Path, Blob>, td: set<Path>)
    requires NothingUnder(s, root)
    ensures SubFiles(Graft(s, root, tf, td).files, root) == tf
  {
    EmptyView(s, root);
    SubFilesUnion(s.files, ShiftMap(root, tf), root);
    ShiftedOwnView(root, tf);
    EmptyMerge(tf);
  }

  /**
   * Grafting onto a `root` with nothing below `root + y` makes the directories
   * seen from `root + y` those of `td` below `y`; at `root` itself this needs
   * `td` to hold the root.
   */
  lemma GraftDirsBelow(s: FsState, root: Path, tf: map<Path, Blob>, td: set<Path>, y: Path)
    requires NothingUnder(s, root + y) && (y == [] ==> [] in td)
    ensures Rel(Graft(s, root, tf, td).dirs, root + y) == Rel(td, y)
  {
    var g := Graft(s, root, tf, td);
    forall r ensures r in Rel(g.dirs, root + y) <==> r in Rel(td, y) {
      RelAt(g.dirs, root + y, r);
      RelAt(td, y, r);
      UnderSelf(root + y, r);
      assert root + y + r == root + (y + r);
      ShiftOf(root, td, y + r);
      AncestorsAt(root, root + (y + r));
      if IsUnder(root, root + (y + r)) {
        assert y + r == [];
      }
    }
  }

  /** Copying into an empty `dst` makes the directories seen from `dst` those seen from `src`. */
  lemma CopyTreeDirs(s: FsState, src: Path, dst: Path)
    requires CopyTree(s, src, dst).Ok? && NothingUnder(s, dst)
    ensures Rel(CopyTree(s, src, dst).value.dirs, dst) == Rel(s.dirs, src)
  {
    var tf, td := SubFiles(s.files, src), Rel(s.dirs, src);
    assert CopyTree(s, src, dst).value == Graft(s, dst, tf, td);
    RelAt(s.dirs, src, []);
    assert src + [] == src && dst + [] == dst;
    GraftDirsBelow(s, dst, tf, td, []);
  }

  /** Copying into a new child `root + [n]` adds the copied tree under `[n]` to the view from `root`. */
  lemma CopyTreeIntoChild(s: FsState, src: Path, root: Path, n: string)
    requires CopyTree(s, src, root + [n]).Ok?
    ensures SubFiles(CopyTree(s, src, root + [n]).value.files, root)
         == SubFiles(s.files, root) + ShiftMap([n], SubFiles(s.files, src))
  {
    var tf := SubFiles(s.files, src);
    assert CopyTree(s, src, root + [n]).value.files == s.files + ShiftMap(root + [n], tf);
    SubFilesUnion(s.files, ShiftMap(root + [n], tf), root);
    SubFilesOfDeeper(root, [n], tf);
  }

  /** Grafting adds files only beneath its root. */
  lemma GraftFilesUnder(s: FsState, root: Path, tf: map<Path, Blob>, td: set<Path>)
    ensures forall p | p in Graft(s, root, tf, td).files && !IsUnder(p, root) :: p in s.files
  {
    ShiftMapKeys(root, tf);
    forall p | p in ShiftMap(root, tf) ensures IsUnder(p, root) {
      ShiftAt(root, tf.Keys, p);
    }
  }

  /** A path stays unblocked when the only new files lie beneath `x`, apart from it. */
  lemma NotBlockedOutside(s: FsState, t: FsState, x: Path, q: Path)
    requires forall p | p in t.files && !IsUnder(p, x) :: p in s.files
    requires !Blocked(s, q) && !IsUnder(q, x)
    ensures !Blocked(t, q)
  {
    forall k | 0 < k <= |q| ensures q[..k] !in t.files {
      if IsUnder(q[..k], x) {
        assert IsUnder(q, q[..k]);
        UnderTrans(q, q[..k], x);
      }
    }
  }
}
