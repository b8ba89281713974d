/**
 * Choosing a release asset by name: the Windows archive `collect` looks for
 * (backup_opencode.py:40-48), the OpenCode preference order with its `.zip`
 * fallback (download_binaries.py:138-157) and the Codex candidate list
 * (download_binaries.py:198-214, 225).
 */
module Assets {
  import opened Wrappers
  import opened Text

  /** A release asset: its `name` and its `browser_download_url`. */
  datatype Asset = Asset(name: string, url: string)

  predicate IsWindows(a: Asset) {
    Contains(Lower(a.name), "windows")
  }

  /** A Windows `.exe`, judged on the lower-cased name. */
  predicate IsWinExe(a: Asset) {
    IsWindows(a) && EndsWith(Lower(a.name), ".exe")
  }

  /** A Windows `.exe` built for 64-bit x86. */
  predicate IsX64Exe(a: Asset) {
    var n := Lower(a.name);
    IsWinExe(a) && (Contains(n, "x64") || Contains(n, "x86_64") || Contains(n, "amd64"))
  }

  /** A Windows `.zip`, judged on the lower-cased name. */
  predicate IsWinZip(a: Asset) {
    IsWindows(a) && EndsWith(Lower(a.name), ".zip")
  }

  /** What `collect` downloads: `windows` in the lower-cased name, `.zip` at the end of the name as given. */
  predicate IsBackupZip(a: Asset) {
    IsWindows(a) && EndsWith(a.name, ".zip")
  }

  /** A Codex candidate: a Windows `.exe` naming `x86_64`. */
  predicate IsCodexX86(a: Asset) {
    IsWinExe(a) && Contains(Lower(a.name), "x86_64")
  }

  /** A candidate that is the main Codex binary: its name as given starts with `codex-x86_64`. */
  predicate IsCodexMain(a: Asset) {
    IsCodexX86(a) && StartsWith(a.name, "codex-x86_64")
  }

  predicate IsCodexAuxiliary(a: Asset) {
    IsCodexX86(a) && !StartsWith(a.name, "codex-x86_64")
  }

  // ---------------------------------------------------------------------
  // Reference definitions
  // ---------------------------------------------------------------------

  /** `r` is the first index below `n` whose asset satisfies `p`, or None when there is none. */
  predicate FirstBelow(s: seq<Asset>, n: nat, r: Option<nat>, p: Asset -> bool)
    requires n <= |s|
  {
    match r
    case Some(k) => k < n && p(s[k]) && forall j | 0 <= j < k :: !p(s[j])
    case None => forall j | 0 <= j < n :: !p(s[j])
  }

  /** One more asset examined. */
  lemma FirstBelowStep(s: seq<Asset>, n: nat, r: Option<nat>, p: Asset -> bool)
    requires n < |s| && FirstBelow(s, n, r, p)
    ensures FirstBelow(s, n + 1, if r.None? && p(s[n]) then Some(n) else r, p)
  {
  }

  /** The position of the first asset satisfying `p`. */
  function FirstIndex(s: seq<Asset>, p: Asset -> bool): (r: Option<nat>)
    ensures FirstBelow(s, |s|, r, p)
  {
    if s == [] then None
    else match FirstIndex(s[..|s| - 1], p)
      case Some(k) => Some(k)
      case None => if p(s[|s| - 1]) then Some(|s| - 1) else None
  }

  /** FirstBelow pins the index down. */
  lemma FirstIndexUnique(s: seq<Asset>, r: Option<nat>, p: Asset -> bool)
    requires FirstBelow(s, |s|, r, p)
    ensures r == FirstIndex(s, p)
  {
  }

  /** The assets satisfying `p`, in release order. */
  function Filter(s: seq<Asset>, p: Asset -> bool): seq<Asset> {
    if s == [] then []
    else Filter(s[..|s| - 1], p) + (if p(s[|s| - 1]) then [s[|s| - 1]] else [])
  }

  function Reverse(t: seq<Asset>): seq<Asset> {
    if t == [] then [] else [t[|t| - 1]] + Reverse(t[..|t| - 1])
  }

  lemma FilterSnoc(s: seq<Asset>, a: Asset, p: Asset -> bool)
    ensures Filter(s + [a], p) == Filter(s, p) + (if p(a) then [a] else [])
  {
    assert (s + [a])[..|s|] == s;
  }

  lemma ReverseSnoc(t: seq<Asset>, a: Asset)
    ensures Reverse(t + [a]) == [a] + Reverse(t)
  {
    assert (t + [a])[..|t|] == t;
  }

  lemma {:induction false} FilterMembers(s: seq<Asset>, p: Asset -> bool, x: Asset)
    ensures x in Filter(s, p) <==> x in s && p(x)
  {
    if s != [] {
      FilterMembers(s[..|s| - 1], p, x);
      assert s == s[..|s| - 1] + [s[|s| - 1]];
    }
  }

  /** The filtered list starts with the first asset satisfying `p`. */
  lemma {:induction false} FilterHead(s: seq<Asset>, p: Asset -> bool)
    ensures Filter(s, p) == [] <==> FirstIndex(s, p).None?
    ensures Filter(s, p) != [] ==> Filter(s, p)[0] == s[FirstIndex(s, p).value]
  {
    if s != [] {
      var t := s[..|s| - 1];
      FilterHead(t, p);
      if FirstIndex(t, p).Some? {
        assert s[FirstIndex(t, p).value] == t[FirstIndex(t, p).value];
      }
    }
  }

  lemma {:induction false} ReverseMembers(t: seq<Asset>, x: Asset)
    ensures |Reverse(t)| == |t|
    ensures x in Reverse(t) <==> x in t
  {
    if t != [] {
      ReverseMembers(t[..|t| - 1], x);
      assert t == t[..|t| - 1] + [t[|t| - 1]];
    }
  }

  // ---------------------------------------------------------------------
  // backup_opencode.py:40-48
  // ---------------------------------------------------------------------

  /**
   * The loop of `download_opencode_windows_release`: the first asset with
   * `windows` in its lower-cased name whose name as given ends in `.zip`.
   */
  method FindReleaseZip(assets: seq<Asset>) returns (r: Option<nat>)
    ensures r.Some? ==> r.value < |assets| && IsBackupZip(assets[r.value])
    ensures r.Some? ==> forall j | 0 <= j < r.value :: !IsBackupZip(assets[j])
    ensures r.None? <==> forall j | 0 <= j < |assets| :: !IsBackupZip(assets[j])
  {
    r := None;
    var i := 0;
    while i < |assets|
      invariant i <= |assets|
      invariant forall j | 0 <= j < i :: !IsBackupZip(assets[j])
    {
      if Contains(Lower(assets[i].name), "windows") && EndsWith(assets[i].name, ".zip") {
        r := Some(i);
        break;
      }
      i := i + 1;
    }
  }

  // ---------------------------------------------------------------------
  // download_binaries.py:138-157
  // ---------------------------------------------------------------------

  /** The asset `download_opencode` settles on: a 64-bit `.exe`, else any Windows `.exe`, else a Windows `.zip`. */
  function OpenCodePick(s: seq<Asset>): (r: Option<nat>)
    ensures r.Some? ==> r.value < |s|
    ensures (exists j | 0 <= j < |s| :: IsX64Exe(s[j])) ==>
      r.Some? && IsX64Exe(s[r.value]) && forall j | 0 <= j < r.value :: !IsX64Exe(s[j])
    ensures (forall j | 0 <= j < |s| :: !IsX64Exe(s[j])) && (exists j | 0 <= j < |s| :: IsWinExe(s[j])) ==>
      r.Some? && IsWinExe(s[r.value]) && forall j | 0 <= j < r.value :: !IsWinExe(s[j])
    ensures (forall j | 0 <= j < |s| :: !IsWinExe(s[j])) ==>
      r == FirstIndex(s, IsWinZip)
    ensures r.None? <==> forall j | 0 <= j < |s| :: !IsWinExe(s[j]) && !IsWinZip(s[j])
  {
    match FirstIndex(s, IsX64Exe)
    case Some(k) => Some(k)
    case None =>
      match FirstIndex(s, IsWinExe)
      case Some(k) => Some(k)
      case None => FirstIndex(s, IsWinZip)
  }

  /** A Windows `.zip` is chosen only when the release has no Windows `.exe` at all. */
  lemma OpenCodeZipOnlyWithoutExe(s: seq<Asset>)
    requires OpenCodePick(s).Some? && !IsWinExe(s[OpenCodePick(s).value])
    ensures IsWinZip(s[OpenCodePick(s).value])
    ensures forall j | 0 <= j < |s| :: !IsWinExe(s[j])
  {
  }

  /**
   * The loop of `download_opencode` and the fallback after it: stop at the
   * first 64-bit `.exe`, otherwise remember the first `.exe` and the first
   * `.zip`, preferring the `.exe`.
   */
  method ChooseOpenCodeAsset(assets: seq<Asset>) returns (r: Option<nat>)
    ensures r == OpenCodePick(assets)
  {
    var windows: Option<nat> := None;
    var fallback: Option<nat> := None;
    var i := 0;
    while i < |assets|
      invariant i <= |assets|
      invariant FirstBelow(assets, i, None, IsX64Exe)
      invariant FirstBelow(assets, i, windows, IsWinExe)
      invariant FirstBelow(assets, i, fallback, IsWinZip)
    {
      var a := assets[i];
      ghost var w, f := windows, fallback;
      FirstBelowStep(assets, i, w, IsWinExe);
      FirstBelowStep(assets, i, f, IsWinZip);
      FirstBelowStep(assets, i, None, IsX64Exe);
      if IsWinExe(a) {
        if IsX64Exe(a) {
          FirstIndexUnique(assets, Some(i), IsX64Exe);
          return Some(i);
        } else if windows.None? {
          windows := Some(i);
        }
        EndsWithBoth(Lower(a.name), ".exe", ".zip");
      } else if IsWinZip(a) && fallback.None? {
        fallback := Some(i);
      }
      i := i + 1;
    }
    FirstIndexUnique(assets, None, IsX64Exe);
    FirstIndexUnique(assets, windows, IsWinExe);
    FirstIndexUnique(assets, fallback, IsWinZip);
    if windows.None? && fallback.Some? {
      windows := fallback;
    }
    r := windows;
  }

  // ---------------------------------------------------------------------
  // download_binaries.py:198-214, 225
  // ---------------------------------------------------------------------

  /** The `x86_64` pass: main binaries in reverse release order (each went to the front), then the rest in order. */
  function X86Order(s: seq<Asset>): seq<Asset> {
    Reverse(Filter(s, IsCodexMain)) + Filter(s, IsCodexAuxiliary)
  }

  /** The candidate list, with the any-architecture fallback when the `x86_64` pass finds nothing. */
  function CodexList(s: seq<Asset>): seq<Asset> {
    if X86Order(s) != [] then X86Order(s) else Filter(s, IsWinExe)
  }

  /** `windows_assets[0]`, when there is one. */
  function CodexPick(s: seq<Asset>): Option<Asset> {
    if CodexList(s) == [] then None else Some(CodexList(s)[0])
  }

  /** One more asset through the `x86_64` pass. */
  lemma X86Step(s: seq<Asset>, a: Asset)
    ensures X86Order(s + [a]) == if !IsCodexX86(a) then X86Order(s)
      else if StartsWith(a.name, "codex-x86_64") then [a] + X86Order(s)
      else X86Order(s) + [a]
  {
    var main, aux := Filter(s, IsCodexMain), Filter(s, IsCodexAuxiliary);
    FilterSnoc(s, a, IsCodexMain);
    FilterSnoc(s, a, IsCodexAuxiliary);
    assert main + [] == main && aux + [] == aux;
    if IsCodexMain(a) {
      ReverseSnoc(main, a);
    }
  }

  /** The two passes of `download_codex`, `insert(0, …)` and `append` on a list. */
  method CodexCandidates(assets: seq<Asset>) returns (cands: seq<Asset>)
    ensures cands == CodexList(assets)
  {
    cands := [];
    var i := 0;
    while i < |assets|
      invariant i <= |assets|
      invariant cands == X86Order(assets[..i])
    {
      var a := assets[i];
      assert assets[..i + 1] == assets[..i] + [a];
      X86Step(assets[..i], a);
      if IsCodexX86(a) {
        if StartsWith(a.name, "codex-x86_64") {
          cands := [a] + cands;
        } else {
          cands := cands + [a];
        }
      }
      i := i + 1;
    }
    assert assets[..|assets|] == assets;
    if cands == [] {
      i := 0;
      while i < |assets|
        invariant i <= |assets|
        invariant cands == Filter(assets[..i], IsWinExe)
      {
        assert assets[..i + 1] == assets[..i] + [assets[i]];
        FilterSnoc(assets[..i], assets[i], IsWinExe);
        if IsWinExe(assets[i]) {
          cands := cands + [assets[i]];
        }
        i := i + 1;
      }
      assert assets[..|assets|] == assets;
    }
  }

  /** The candidates of the `x86_64` pass are exactly the Windows `.exe` assets naming `x86_64`. */
  lemma X86Members(s: seq<Asset>, x: Asset)
    ensures x in X86Order(s) <==> x in s && IsCodexX86(x)
  {
    FilterMembers(s, IsCodexMain, x);
    FilterMembers(s, IsCodexAuxiliary, x);
    ReverseMembers(Filter(s, IsCodexMain), x);
  }

  /**
   * When some candidate's name starts with `codex-x86_64`, Codex downloads
   * such a binary: the last of them in release order.
   */
  lemma CodexPrefersMain(s: seq<Asset>, k: nat)
    requires k < |s| && IsCodexMain(s[k])
    ensures CodexPick(s).Some? && IsCodexMain(CodexPick(s).value)
    ensures |Filter(s, IsCodexMain)| > 0
    ensures var m := Filter(s, IsCodexMain); CodexPick(s).value == m[|m| - 1]
  {
    FilterMembers(s, IsCodexMain, s[k]);
    var m := Filter(s, IsCodexMain);
    FilterMembers(s, IsCodexMain, m[|m| - 1]);
    ReverseMembers(m, s[k]);
  }

  /** Without an `x86_64` candidate, Codex takes the first Windows `.exe` in release order. */
  lemma CodexFallback(s: seq<Asset>)
    requires forall j | 0 <= j < |s| :: !IsCodexX86(s[j])
    ensures CodexPick(s) == match FirstIndex(s, IsWinExe)
      case Some(k) => Some(s[k])
      case None => None
  {
    if X86Order(s) != [] {
      X86Members(s, X86Order(s)[0]);
    }
    FilterHead(s, IsWinExe);
  }

  /** Codex finds nothing exactly when the release has no Windows `.exe`; what it finds is one. */
  lemma CodexPickIsWindowsExe(s: seq<Asset>)
    ensures CodexPick(s).None? <==> forall j | 0 <= j < |s| :: !IsWinExe(s[j])
    ensures CodexPick(s).Some? ==> CodexPick(s).value in s && IsWinExe(CodexPick(s).value)
  {
    if X86Order(s) != [] {
      X86Members(s, X86Order(s)[0]);
    } else {
      forall j | 0 <= j < |s| ensures !IsCodexX86(s[j]) {
        X86Members(s, s[j]);
      }
      FilterHead(s, IsWinExe);
      if Filter(s, IsWinExe) != [] {
        FilterMembers(s, IsWinExe, Filter(s, IsWinExe)[0]);
      }
    }
  }

  /**
   * The two `.zip` tests differ on case: a Windows asset whose name ends in
   * `.ZIP` is a `.zip` for download_binaries.py and not for backup_opencode.py.
   */
  lemma ZipRulesDifferOnCase(a: Asset)
    requires IsWindows(a) && EndsWith(a.name, ".ZIP")
    ensures IsWinZip(a) && !IsBackupZip(a)
  {
    var n := |a.name|;
    assert a.name[n - 4] == '.' && a.name[n - 3] == 'Z' && a.name[n - 2] == 'I' && a.name[n - 1] == 'P';
    assert Lower(a.name)[n - 4..] == ".zip";
    EndsWithBoth(a.name, ".zip", ".ZIP");
  }
}
