/**
 * The live filesystem as an object whose state the library calls change in
 * place. Each method does what the function of the same name in `FsModel`
 * says, and keeps the filesystem valid.
 */
module FileSystems {
  import opened Wrappers
  import opened FsModel

  /** What a call that returns nothing yields: normal return, or an exception. */
  type Status = Result<(), Error>

  /**
   * The call whose effect `spec` describes, started in `before`, ended in
   * `after` with `r`: on success the new state is the one `spec` gives, on an
   * exception the state is untouched and the exception is the one `spec` names.
   */
  ghost predicate Applied(spec: Result<FsState, Error>, before: FsState, after: FsState, r: Status) {
    match spec
    case Ok(s) => after == s && r == Ok(())
    case Err(e) => after == before && r == Err(e)
  }

  class FileSystem {
    var files: map<Path, Blob>
    var dirs: set<Path>

    function State(): FsState
      reads this
    {
      FsState(files, dirs)
    }

    ghost predicate Valid()
      reads this
    {
      FsModel.Valid(State())
    }

    constructor (s: FsState)
      requires FsModel.Valid(s)
      ensures Valid() && State() == s
    {
      files := s.files;
      dirs := s.dirs;
    }

    /** `Path(p).exists()`. */
    method Exists(p: Path) returns (b: bool)
      ensures b == FsModel.Exists(State(), p)
    {
      b := p in files || p in dirs;
    }

    /** `Path(p).mkdir(exist_ok=True)`. */
    method MkDir(p: Path) returns (r: Status)
      requires Valid()
      modifies this
      ensures Valid()
      ensures Applied(FsModel.MkDir(old(State()), p), old(State()), State(), r)
    {
      MkDirValid(State(), p);
      if p == [] || p in dirs {
        return Ok(());
      }
      if p in files {
        return Err(FileExists);
      }
      if Blocked(State(), Parent(p)) {
        return Err(NotADirectory);
      }
      if Parent(p) !in dirs {
        return Err(FileNotFound);
      }
      dirs := dirs + {p};
      r := Ok(());
    }

    /** `Path(p).mkdir(parents=True, exist_ok=True)`. */
    method MakeDirs(p: Path) returns (r: Status)
      requires Valid()
      modifies this
      ensures Valid()
      ensures Applied(FsModel.MakeDirs(old(State()), p), old(State()), State(), r)
    {
      MakeDirsValid(State(), p);
      if Blocked(State(), p) {
        return Err(if p in files then FileExists else NotADirectory);
      }
      dirs := dirs + Ancestors(p);
      r := Ok(());
    }

    /** `shutil.copytree(src, dst)`. */
    method CopyTree(src: Path, dst: Path) returns (r: Status)
      requires Valid()
      modifies this
      ensures Valid()
      ensures Applied(FsModel.CopyTree(old(State()), src, dst), old(State()), State(), r)
    {
      CopyTreeValid(State(), src, dst);
      if src !in dirs {
        return Err(if src in files then NotADirectory else FileNotFound);
      }
      if dst in files || dst in dirs {
        return Err(FileExists);
      }
      if Blocked(State(), dst) {
        return Err(NotADirectory);
      }
      if CopiesIntoItself(State(), src, dst) {
        return Err(CopyFailed);
      }
      var tf, td := SubFiles(files, src), Rel(dirs, src);
      files := files + ShiftMap(dst, tf);
      dirs := dirs + ShiftKeys(dst, td) + Ancestors(dst);
      r := Ok(());
    }

    /** `shutil.rmtree(p)`. */
    method RmTree(p: Path) returns (r: Status)
      requires Valid() && |p| > 0
      modifies this
      ensures Valid()
      ensures Applied(FsModel.RmTree(old(State()), p), old(State()), State(), r)
    {
      RmTreeValid(State(), p);
      if p in files {
        return Err(NotADirectory);
      }
      if p !in dirs {
        return Err(FileNotFound);
      }
      files := map q | q in files && !IsUnder(q, p) :: files[q];
      dirs := set q | q in dirs && !IsUnder(q, p);
      r := Ok(());
    }

    /** Opening `p` for writing and writing `b` to it. */
    method WriteFile(p: Path, b: Blob) returns (r: Status)
      requires Valid()
      modifies this
      ensures Valid()
      ensures Applied(FsModel.WriteFile(old(State()), p, b), old(State()), State(), r)
    {
      WriteFileValid(State(), p, b);
      if p == [] || p in dirs {
        return Err(IsADirectory);
      }
      if Blocked(State(), Parent(p)) {
        return Err(NotADirectory);
      }
      if Parent(p) !in dirs {
        return Err(FileNotFound);
      }
      files := files[p := b];
      r := Ok(());
    }

    /** Writing the entries of `a` beneath `root`, as an extractor does. */
    method Place(root: Path, a: Archive) returns (r: Status)
      requires Valid()
      modifies this
      ensures Valid()
      ensures Applied(FsModel.Place(old(State()), root, a), old(State()), State(), r)
    {
      PlaceValid(State(), root, a);
      var td := ArchiveDirs(a);
      if !WellFormed(a) || !Fits(State(), root, a.entries, td) {
        return Err(Conflict);
      }
      files := files + ShiftMap(root, a.entries);
      dirs := dirs + ShiftKeys(root, td) + Ancestors(root);
      r := Ok(());
    }
  }
}
