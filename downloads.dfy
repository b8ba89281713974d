/**
 * The decisions of download_binaries.py: when each download is attempted,
 * when its result is accepted, what the downloaded file ends up called, and
 * the exit status of the whole run. Network fetches are given as their
 * outcomes; SHA-256 is a parameter.
 */
module Downloads {
  import opened Wrappers
  import opened FsModel
  import opened Text
  import opened Assets

  /** How a `download_file` call went. */
  datatype Transfer =
    | Complete(data: seq<byte>)  // every chunk written
    | Truncated                  // failed after the output file was opened
    | Refused                    // failed before the output file was opened

  /** A JSON value, as `response.json()` returns it (arrays are not modelled). */
  datatype Json = JNull | JBool(b: bool) | JNum(n: int) | JStr(s: string) | JObj(fields: map<string, Json>)

  /**
   * What a download function did: whether it returned True, whether it
   * started a download, and the name of the file it left in the working
   * directory (a partial one included).
   */
  datatype Outcome = Outcome(success: bool, attempted: bool, left: Option<string>)

  const Platform := "win32-x64"

  /** `d.get(key, {})` on a decoded object; anything else raises AttributeError. */
  function GetOrEmpty(j: Json, key: string): Option<Json> {
    match j
    case JObj(f) => Some(if key in f then f[key] else JObj(map[]))
    case _ => None
  }

  /**
   * `j.get(k1, {}).get(k2, {})...` along `keys`: None once a step meets a
   * value that is not an object.
   */
  function Lookup(j: Json, keys: seq<string>): Option<Json>
    decreases |keys|
  {
    if keys == [] then Some(j)
    else match GetOrEmpty(j, keys[0])
      case None => None
      case Some(v) => Lookup(v, keys[1..])
  }

  /** One step of a lookup. */
  lemma LookupCons(j: Json, k: string, ks: seq<string>)
    ensures Lookup(j, [k] + ks) == match GetOrEmpty(j, k)
      case None => None
      case Some(v) => Lookup(v, ks)
  {
    assert ([k] + ks)[1..] == ks;
  }

  /**
   * `manifest.get("platforms", {}).get(PLATFORM, {}).get("checksum")`
   * followed by `if not checksum` and `checksum[:16]`: the checksum when it
   * is a non-empty string; every other outcome makes `download_claude`
   * return False. (The last `.get` has no default; the `{}` that `Lookup`
   * gives for a missing checksum is refused in the same way.)
   */
  function ManifestChecksum(manifest: Json): (r: Option<string>)
    ensures r.Some? ==> r.value != []
    ensures r.Some? ==> Lookup(manifest, ["platforms", Platform, "checksum"]) == Some(JStr(r.value))
    ensures (var c := Lookup(manifest, ["platforms", Platform, "checksum"]);
             c.Some? && c.value.JStr? && c.value.s != []) ==> r.Some?
  {
    LookupCons(manifest, "platforms", [Platform, "checksum"]);
    match GetOrEmpty(manifest, "platforms")
    case None => None
    case Some(platforms) =>
      LookupCons(platforms, Platform, ["checksum"]);
      match GetOrEmpty(platforms, Platform)
      case None => None
      case Some(entry) =>
        LookupCons(entry, "checksum", []);
        match entry
        case JObj(f) => if "checksum" in f && f["checksum"].JStr? && f["checksum"].s != [] then Some(f["checksum"].s) else None
        case _ => None
  }

  /** The acceptance test of line 112, on lower-cased hex strings. */
  predicate ChecksumMatches(actual: string, expected: string) {
    Lower(actual) == Lower(expected)
  }

  lemma ChecksumIgnoresCase(actual: string, expected: string)
    ensures ChecksumMatches(actual, expected) <==> ChecksumMatches(Lower(actual), Lower(expected))
    ensures ChecksumMatches(actual, expected) <==> ChecksumMatches(expected, actual)
  {
    LowerIdempotent(actual);
    LowerIdempotent(expected);
  }

  /**
   * `download_claude`: `latest` is the fetched version (None when that fetch
   * fails), `manifest` the decoded manifest (None when that fetch or its
   * decoding fails), `transfer` the download of `claude.exe`.
   */
  function DownloadClaude(latest: Option<string>, manifest: Option<Json>, transfer: Transfer,
                          sha256: seq<byte> -> string): Outcome
  {
    if latest.None? || manifest.None? then Outcome(false, false, None)
    else match ManifestChecksum(manifest.value)
      case None => Outcome(false, false, None)
      case Some(checksum) =>
        match transfer
        case Refused => Outcome(false, true, None)
        case Truncated => Outcome(false, true, Some("claude.exe"))
        case Complete(data) =>
          if ChecksumMatches(sha256(data), checksum) then Outcome(true, true, Some("claude.exe"))
          else Outcome(false, true, None)
  }

  /** Without a usable checksum for `win32-x64`, nothing is downloaded. */
  lemma ClaudeNeedsChecksum(latest: Option<string>, m: Json, transfer: Transfer, sha256: seq<byte> -> string)
    requires ManifestChecksum(m).None?
    ensures var r := DownloadClaude(latest, Some(m), transfer, sha256);
      !r.success && !r.attempted && r.left.None?
  {
  }

  /**
   * The binary is accepted exactly when it arrived whole and its digest
   * matches the manifest's checksum ignoring case; a binary that arrived
   * whole but does not match is deleted.
   */
  lemma ClaudeAccepts(latest: Option<string>, manifest: Option<Json>, transfer: Transfer, sha256: seq<byte> -> string)
    ensures var r := DownloadClaude(latest, manifest, transfer, sha256);
      r.success <==>
        && latest.Some? && manifest.Some? && ManifestChecksum(manifest.value).Some?
        && transfer.Complete? && ChecksumMatches(sha256(transfer.data), ManifestChecksum(manifest.value).value)
    ensures var r := DownloadClaude(latest, manifest, transfer, sha256);
      transfer.Complete? && !r.success ==> r.left.None?
    ensures var r := DownloadClaude(latest, manifest, transfer, sha256);
      r.success ==> r.left == Some("claude.exe")
  {
  }

  /**
   * `hexdigest()` is lower-case: a complete binary whose digest is the
   * manifest's checksum lower-cased is accepted, whatever the case of the
   * checksum.
   */
  lemma ClaudeUpperCaseChecksum(latest: Option<string>, m: Json, c: string, data: seq<byte>, sha256: seq<byte> -> string)
    requires latest.Some? && ManifestChecksum(m) == Some(c)
    requires sha256(data) == Lower(c)
    ensures DownloadClaude(latest, Some(m), Complete(data), sha256).success
  {
    LowerIdempotent(c);
  }

  /** Lines 172-178: a downloaded `.exe` is renamed `opencode.exe`; any other file keeps its name. */
  function OpenCodeFileName(name: string): string {
    if Suffix(name) == ".exe" && name != "opencode.exe" then "opencode.exe" else name
  }

  lemma OpenCodeRename(name: string)
    ensures OpenCodeFileName(name) == if EndsWith(name, ".exe") && |name| > 4 then "opencode.exe" else name
  {
    SuffixExe(name);
  }

  /**
   * The `.exe` test of the rename is case-sensitive, unlike the one that
   * chose the asset: a name ending in `.EXE` passes the asset test and keeps
   * its name.
   */
  lemma UpperCaseExeNotRenamed(name: string)
    requires EndsWith(name, ".EXE")
    ensures EndsWith(Lower(name), ".exe")
    ensures OpenCodeFileName(name) == name
  {
    var n := |name|;
    assert name[n - 4] == '.' && name[n - 3] == 'E' && name[n - 2] == 'X' && name[n - 1] == 'E';
    assert Lower(name)[n - 4..] == ".exe";
    EndsWithBoth(name, ".exe", ".EXE");
    OpenCodeRename(name);
  }

  /** `download_opencode`: `release` is the asset list of the latest release, None when it cannot be fetched. */
  function DownloadOpenCode(release: Option<seq<Asset>>, transfer: Transfer): Outcome {
    match release
    case None => Outcome(false, false, None)
    case Some(assets) =>
      match OpenCodePick(assets)
      case None => Outcome(false, false, None)
      case Some(k) =>
        match transfer
        case Refused => Outcome(false, true, None)
        case Truncated => Outcome(false, true, Some(assets[k].name))
        case Complete(_) => Outcome(true, true, Some(OpenCodeFileName(assets[k].name)))
  }

  /**
   * OpenCode downloads only when the release has a Windows `.exe` or `.zip`;
   * a successful download of an `.exe` ends as `opencode.exe`, of anything
   * else under the asset's own name.
   */
  lemma OpenCodeOutcome(assets: seq<Asset>, transfer: Transfer)
    ensures var r := DownloadOpenCode(Some(assets), transfer);
      r.attempted <==> exists j | 0 <= j < |assets| :: IsWinExe(assets[j]) || IsWinZip(assets[j])
    ensures var r := DownloadOpenCode(Some(assets), transfer);
      r.success <==> r.attempted && transfer.Complete?
    ensures var r := DownloadOpenCode(Some(assets), transfer);
      r.success ==> var name := assets[OpenCodePick(assets).value].name;
        r.left == Some(if EndsWith(name, ".exe") && |name| > 4 then "opencode.exe" else name)
  {
    if OpenCodePick(assets).Some? {
      OpenCodeRename(assets[OpenCodePick(assets).value].name);
    }
  }

  /** `download_codex`: the first candidate is downloaded and, on success, always renamed `codex.exe`. */
  function DownloadCodex(release: Option<seq<Asset>>, transfer: Transfer): Outcome {
    match release
    case None => Outcome(false, false, None)
    case Some(assets) =>
      match CodexPick(assets)
      case None => Outcome(false, false, None)
      case Some(a) =>
        match transfer
        case Refused => Outcome(false, true, None)
        case Truncated => Outcome(false, true, Some(a.name))
        case Complete(_) => Outcome(true, true, Some("codex.exe"))
  }

  /** Codex downloads only when the release has a Windows `.exe`, and a success always ends as `codex.exe`. */
  lemma CodexOutcome(assets: seq<Asset>, transfer: Transfer)
    ensures var r := DownloadCodex(Some(assets), transfer);
      r.attempted <==> exists j | 0 <= j < |assets| :: IsWinExe(assets[j])
    ensures var r := DownloadCodex(Some(assets), transfer);
      r.success <==> r.attempted && transfer.Complete?
    ensures var r := DownloadCodex(Some(assets), transfer);
      r.success ==> r.left == Some("codex.exe")
  {
    CodexPickIsWindowsExe(assets);
  }

  // ---------------------------------------------------------------------
  // main (lines 256-284)
  // ---------------------------------------------------------------------

  datatype Tool = Claude | OpenCode | Codex

  lemma EveryToolListed(t: Tool)
    ensures t in [Claude, OpenCode, Codex]
  {
    match t
    case Claude =>
    case OpenCode =>
    case Codex =>
  }

  /** The positional `tools`, or all three when none is given. */
  function Requested(args: seq<Tool>): (r: seq<Tool>)
    ensures |r| > 0
    ensures forall t :: t in r <==> args == [] || t in args
  {
    if args == [] then
      (forall t ensures t in [Claude, OpenCode, Codex] { EveryToolListed(t); }
       [Claude, OpenCode, Codex])
    else args
  }

  function Rank(t: Tool): nat {
    match t
    case Claude => 0
    case OpenCode => 1
    case Codex => 2
  }

  /**
   * The three `if … in tools_to_download` steps filling `results`, then the
   * exit status: 1 when some attempted tool returned False, else 0.
   * `succeeded` gives each download function's return value.
   */
  method RunTools(args: seq<Tool>, succeeded: Tool -> bool) returns (attempted: seq<Tool>, results: map<Tool, bool>, exitCode: int)
    ensures forall t :: t in results <==> t in Requested(args)
    ensures forall t | t in results :: results[t] == succeeded(t)
    ensures forall t :: t in attempted <==> t in results
    ensures forall i, j | 0 <= i < j < |attempted| :: Rank(attempted[i]) < Rank(attempted[j])
    ensures args == [] ==> attempted == [Claude, OpenCode, Codex]
    ensures exitCode == 1 <==> exists t | t in Requested(args) :: !succeeded(t)
    ensures exitCode == 0 <==> forall t | t in Requested(args) :: succeeded(t)
  {
    var tools := Requested(args);
    attempted, results := [], map[];
    if Claude in tools {
      results := results[Claude := succeeded(Claude)];
      attempted := attempted + [Claude];
    }
    if OpenCode in tools {
      results := results[OpenCode := succeeded(OpenCode)];
      attempted := attempted + [OpenCode];
    }
    if Codex in tools {
      results := results[Codex := succeeded(Codex)];
      attempted := attempted + [Codex];
    }
    exitCode := if false in results.Values then 1 else 0;
    forall t ensures t in results <==> t in tools {
      EveryToolListed(t);
    }
  }
}
