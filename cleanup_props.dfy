/**
 * The `finally` blocks of `collect` and `export` (backup_opencode.py:151-155
 * and 231-235): removing the temporary tree.
 */
module CleanupProperties {
  import opened Wrappers
  import opened FsModel
  import opened FsFrames
  import opened BackupSpec


  /** Removing a tree that is not a regular file succeeds, keeps the result, and empties `p`. */
  lemma CleanupClears<T>(run: Run<T>, p: Path)
    requires Valid(run.fs) && |p| > 0 && p !in run.fs.files
    ensures Cleanup(run, p).result == run.result
    ensures NothingUnder(Cleanup(run, p).fs, p)
    ensures Valid(Cleanup(run, p).fs)
  {
    if Exists(run.fs, p) {
      WithoutEmpties(run.fs, p);
      RmTreeValid(run.fs, p);
    } else {
      AbsentIsEmpty(run.fs, p);
    }
  }

  /** What lies apart from the cleaned tree is untouched by the cleanup. */
  lemma CleanupFrame<T>(run: Run<T>, p: Path, x: Path)
    requires |p| > 0 && Disjoint(x, p)
    ensures SameAt(run.fs, Cleanup(run, p).fs, x)
  {
    if Exists(run.fs, p) && RmTree(run.fs, p).Ok? {
      RmTreeFrame(run.fs, p, x);
    }
  }
}
