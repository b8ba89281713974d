# OpenCode backup and binary download: a Dafny model

This project models two Windows helper scripts.

**backup_opencode.py** backs up OpenCode's three directories and restores them:

- The directories are config (`~/.config/opencode`), cache (`~/.cache/opencode`) and the Bun install cache (`~/.bun/install/cache`).
- `collect` copies the existing ones into a staging tree `opencode_backup_<timestamp>`, under the folders `config`, `cache` and `bun_cache`.
  - It then writes a zip archive: an encrypted one through the `zip` command when a password is given, otherwise a plain one through Python's `zipfile`.
  - It always removes the staging tree.
- `export` extracts such an archive into `opencode_restore_<timestamp>`, with the `unzip` command or `zipfile`.
  - It then replaces each destination directory whose folder the archive holds.
  - It always removes the extraction tree.

**download_binaries.py** fetches the latest Windows builds of Claude Code, OpenCode and Codex:

- It picks a release asset by name.
- It checks the Claude binary against the checksum in its manifest.
- It renames the downloaded file.
- It exits with status 1 when any requested tool failed.

## Modules

- **The filesystem.**
  - `FsModel` is the filesystem as a value: a map from path (a sequence of names) to file contents, and a set of directories.
  - Its library calls are functions that return the new state or the exception Python raises: `mkdir`, `mkdir(parents=True)`, `shutil.copytree`, `shutil.rmtree`, writing a file, and extracting an archive.
  - `FsFrames` holds the frame and content lemmas about those calls.
  - `FileSystems.FileSystem` is the same filesystem as an object whose methods change it in place. Each method is proved to do what the function of the same name says.
- **backup_opencode.py.**
  - `BackupSpec` states `collect` and `export` as functions of the filesystem and an environment. The environment holds the home and working directories, the timestamp, and whether the `zip` and `unzip` commands are missing, failing or working.
  - `Backup` runs the same steps as methods on a `FileSystem`: the `os.walk` loop, the `zip` fallback and the three restore steps.
  - `CleanupProperties`, `CollectProperties`, `ExportProperties` and `RoundTrip` prove what the two operations promise.
- **download_binaries.py.**
  - `Text` holds the string tests.
  - `Assets` holds the asset-selection loops of both scripts, each proved against a reference definition.
  - `Downloads` holds the download decisions and the exit rule of `main`.

## Model

| member | source | states |
|---|---|---|
| BackupSpec.OpencodeDirs | backup_opencode.py:19-25 | The three slot directories lie under home, each at least two levels below it, and none lies under another. |
| BackupSpec.ExportRun | backup_opencode.py:162-164 | A missing archive ends `export` with `SystemExit(1)` and leaves the filesystem as it was. |
| BackupSpec.Cleanup | backup_opencode.py:151-155 | The `finally` block: when the tree exists it is removed, and an exception from `rmtree` replaces the body's result. `CleanupProperties.CleanupClears` and `CleanupFrame` state its effect. |
| BackupSpec.StageFrom | backup_opencode.py:91-110 | The three copy steps in order, each skipped when its source is absent. The first exception stops the rest. `CollectProperties.StageFromEffect` states its effect. |
| BackupSpec.ZipCommand | backup_opencode.py:122-128 | `zip -r -P`. A missing command gives FileNotFoundError. A failing one, an empty staging tree (zip's exit status 12, nothing to do) or an unwritable target gives CalledProcessError. Otherwise it writes the encrypted archive of files and directories. |
| BackupSpec.WriteArchive | backup_opencode.py:118-144 | `zip` with a truthy password; on CalledProcessError, and without a password, the plain `zipfile` archive of the files. `CollectProperties.WriteArchiveEffect` states the result. |
| BackupSpec.CollectBody | backup_opencode.py:87-149 | The `try` block of `collect`: make the staging tree, stage the three slots, write the archive, return its name. |
| BackupSpec.CollectRun | backup_opencode.py:73-155 | `collect`: the body, then the staging tree removed. `CollectProperties.CollectArchive`, `CollectSucceeds` and `CollectCleansUp` state its outcome. |
| BackupSpec.UnzipRead | backup_opencode.py:175-180 | `unzip -P -d`: exits zero iff the path holds a zip with at least one entry, the password opens its file entries, and the entries can be written. Any other case is CalledProcessError; an archive with no entry at all is one ("zipfile is empty"). |
| BackupSpec.ZipfileRead | backup_opencode.py:185-191 | `zipfile.extractall`: IsADirectory, FileNotFound, BadZipFile, then a missing or wrong password for an encrypted archive with file entries, else the entries placed. Directory entries are never decrypted, so an encrypted archive without files extracts with any password. |
| BackupSpec.Extract | backup_opencode.py:172-191 | The reader order: `unzip` then `zipfile` with a truthy password, `zipfile` alone without. `ExportProperties.ExtractOk` states when it succeeds. |
| BackupSpec.RestoreSlot | backup_opencode.py:194-203 | One restore step: skipped when the slot folder is absent; otherwise `rmtree` of an existing destination, `mkdir(parents=True)` of its parent, `copytree`. `ExportProperties.RestoreSlotEffect` states its effect. |
| BackupSpec.RestoreFrom | backup_opencode.py:193-227 | The three restore steps in order; an exception aborts the rest. `ExportProperties.RestoreFromEffect` states its effect. |
| BackupSpec.ExportBody | backup_opencode.py:169-229 | The `try` block of `export`: make the extraction tree, extract, restore. |
| FsModel.MkDir | backup_opencode.py:89 | `mkdir(exist_ok=True)`: the cases of `FileSystems.FileSystem.MkDir`. `FsModel.MkDirValid` shows it keeps the filesystem well formed. |
| FsModel.MakeDirs | backup_opencode.py:200 | `mkdir(parents=True, exist_ok=True)`: every ancestor added, or an error when a file is in the way. |
| FsModel.CopyTree | backup_opencode.py:94 | `shutil.copytree`: the source must be a directory and the destination absent. A destination two or more levels below the source, inside a directory that already exists there, makes the copy recurse into itself and raise `shutil.Error`. Otherwise the source's subtree, as it was before the call, is grafted beneath the destination. `FsFrames.CopyTreeContents` states its contents. |
| FsModel.RmTree | backup_opencode.py:155 | `shutil.rmtree`: the path must be a directory, and everything under it goes. |
| FsModel.WriteFile | backup_opencode.py:138 | Writing one file: the parent must be a directory, and the path must not be a directory. |
| FsModel.Place | backup_opencode.py:186-191 | Extraction: every entry and the directories it needs, or Conflict when an entry is also a directory or collides with what exists. |
| FsModel.TreeArchiveWellFormed | backup_opencode.py:122-144 | An archive built from a well-formed tree has no entry that is also one of its directories, so its extraction can succeed. |
| FsModel.CopyTreeValid | backup_opencode.py:94 | A successful `copytree` keeps the filesystem well formed. |
| FsFrames.CopyTreeContents | backup_opencode.py:94 | After `copytree` into a fresh destination, the files under the destination are exactly the files under the source, at the same relative paths. |
| FsFrames.CopyTreeDirs | backup_opencode.py:94 | After `copytree` into a fresh destination, the directories under the destination, the destination itself included, are exactly those under the source. |
| FileSystems.FileSystem.MkDir | backup_opencode.py:89 | `mkdir(exist_ok=True)` on the object. It succeeds on an existing directory or root. It raises FileExists on a file, NotADirectory under a file, and FileNotFound without a parent. Otherwise it adds the one directory. |
| FileSystems.FileSystem.MakeDirs | backup_opencode.py:200 | `mkdir(parents=True, exist_ok=True)` on the object. It adds all ancestors, or raises when a file is in the way. |
| FileSystems.FileSystem.CopyTree | backup_opencode.py:94 | `shutil.copytree` on the object. The source must be a directory and the destination must not exist. A copy into the source's own subtree through an existing directory raises. Otherwise the source's subtree is copied beneath the destination. |
| FileSystems.FileSystem.RmTree | backup_opencode.py:155 | `shutil.rmtree` on the object. The path must be a directory, and it goes together with everything under it. |
| FileSystems.FileSystem.WriteFile | backup_opencode.py:138 | Writing one file on the object. It needs a parent directory, and fails on a directory. |
| FileSystems.FileSystem.Place | backup_opencode.py:186-191 | Extraction on the object. It writes every entry and the directories they need, or raises Conflict. |
| Backup.WalkFiles | backup_opencode.py:140-144 | The `os.walk` loop collects exactly the files under the staging root, keyed by their relative path. Empty directories are not collected. |
| Backup.StageSlot | backup_opencode.py:92-110 | Copies one slot when its source exists and skips it otherwise. The object ends as `BackupSpec.StageSlot` says, with the same exception. |
| Backup.RunZip | backup_opencode.py:122-128 | `zip -r -P`. A missing command raises FileNotFoundError. A failing one raises CalledProcessError, as does any error while writing. A working one writes the encrypted archive of the staging tree. |
| Backup.WriteArchive | backup_opencode.py:118-144 | Tries `zip` with a truthy password. On CalledProcessError it drops the password and writes the plain archive. Other exceptions propagate. |
| Backup.CollectBody | backup_opencode.py:87-149 | The `try` block of `collect`: the three slots, then the archive, then the archive's name. |
| Backup.Collect | backup_opencode.py:73-155 | `collect` with its `finally` cleanup. The object ends in the state `CollectRun` gives and returns its result. |
| Backup.RunUnzip | backup_opencode.py:175-180 | `unzip -P -d`. It exits zero iff the archive has some entry, its file entries open with the password, and its entries can be written. |
| Backup.ZipfileExtract | backup_opencode.py:185-191 | `zipfile.extractall`. It raises for a directory, a missing file, a non-zip file, and a missing or wrong password when the archive has encrypted file entries. |
| Backup.ExtractArchive | backup_opencode.py:172-191 | The reader order: `unzip` first with a truthy password, `zipfile` after a CalledProcessError, and `zipfile` alone without a password. |
| Backup.RestoreSlot | backup_opencode.py:194-203 | Restores one slot: remove the destination if present, create its parent, copy. Each exception stops at its step. |
| Backup.RestoreAll | backup_opencode.py:193-227 | Restores the slots in order config, cache, bun_cache. An exception aborts the remaining slots. |
| Backup.RestoreChain | backup_opencode.py:193-227 | The outcome of the three restores is the first failing slot's outcome, or the last slot's state when none fails. |
| Backup.ExportBody | backup_opencode.py:169-229 | The `try` block of `export`: create the extraction tree, extract, restore. |
| Backup.Export | backup_opencode.py:158-235 | `export` with its early exit and `finally` cleanup. The object ends in the state `ExportRun` gives. |
| CleanupProperties.CleanupClears | backup_opencode.py:151-155 | After the `finally` block nothing remains under the temporary tree. The result is the body's result, and the filesystem stays well formed. |
| CleanupProperties.CleanupFrame | backup_opencode.py:231-235 | The cleanup touches nothing outside the temporary tree. |
| CollectProperties.StageFromEffect | backup_opencode.py:91-110 | Staging adds, under the staging root, exactly each existing source's files beneath its slot folder. |
| CollectProperties.StageFromSucceeds | backup_opencode.py:91-110 | Staging succeeds when every existing source is a directory. Missing sources are skipped. |
| CollectProperties.WriteArchiveEffect | backup_opencode.py:118-144 | A successful write stores the encrypted archive exactly when a truthy password met a working `zip`, and the plain one otherwise. Nothing else changes. |
| CollectProperties.CollectNeedsZip | backup_opencode.py:122-130 | With a truthy password and no `zip` command, `collect` fails. Only CalledProcessError is caught. |
| CollectProperties.CollectFallback | backup_opencode.py:130-138 | With a failing `zip`, `collect` with a password behaves exactly like `collect` without one. |
| CollectProperties.CollectCleansUp | backup_opencode.py:151-155 | Every run of `collect`, successful or not, leaves no staging tree behind, and returns what its body returned. |
| CollectProperties.StageFromDirs | backup_opencode.py:91-110 | After staging, every source that existed has its slot folder as a directory of the staging tree. |
| CollectProperties.StagedNothingToZip | backup_opencode.py:122-128 | The staged tree gives `zip` nothing to do iff none of the three sources exists. |
| CollectProperties.StagedArchive | backup_opencode.py:118-144 | The archive written from the staged tree holds the staged files. It is encrypted iff a truthy password met a working `zip` and some source exists. A plain one has no directory entries. No entry is also a directory. |
| CollectProperties.CollectArchive | backup_opencode.py:87-149 | A successful `collect`: <br>• returns the archive name; <br>• the archive's entries are the files of the three sources beneath `config`, `cache` and `bun_cache`; <br>• it is encrypted with the password exactly when a truthy password met a working `zip` and at least one source exists; <br>• a plain archive has no directory entries; <br>• no entry is also a directory. |
| CollectProperties.CollectSucceeds | backup_opencode.py:146-149 | `collect` with the default name returns that name when: the filesystem is valid; no staging tree exists yet; the staging tree lies apart from the three sources; the working directory exists; the archive path is not a directory; every source that exists is a directory; and `zip` is installed whenever the password is truthy. This holds even when no source exists. |
| CollectProperties.CollectInsideSourceFails | backup_opencode.py:82-94 | Run from inside the config directory, `collect` fails: the staging tree lies in the source, `copytree` copies into its own subtree and raises, and the staging tree is removed. |
| ExportProperties.ExtractOk | backup_opencode.py:172-191 | Extraction succeeds iff all of these hold: <br>• there is a zip file; <br>• the password opens its file entries (an archive without file entries needs none); <br>• its entries fit; <br>• a truthy password does not meet a missing `unzip`. <br>When it succeeds, the reader is `unzip` exactly when a truthy password met a working command and the archive has some entry. |
| ExportProperties.ExtractLocked | backup_opencode.py:182-191 | An archive with encrypted file entries that the password does not open fails with the error of the last reader tried. |
| ExportProperties.ExportWrongPassword | backup_opencode.py:169-191 | With a password that does not open the archive's encrypted file entries, `export` raises and leaves every path as it was, the extraction tree included. |
| ExportProperties.RestoreSlotEffect | backup_opencode.py:194-203 | After one successful restore step, the destination holds exactly the extracted slot's files and directories, at the same relative paths, and stale entries are gone. A slot absent from the extraction leaves the files and directories under its destination unchanged. |
| ExportProperties.RestoreSlotFrame | backup_opencode.py:194-203 | A restore step, successful or not, changes nothing outside its destination. |
| ExportProperties.RestoreFromEffect | backup_opencode.py:193-227 | After the three restore steps, each destination holds the files and directories of its extracted slot when present, and its old files and directories otherwise. |
| ExportProperties.RestoreSlotSucceeds | backup_opencode.py:194-203 | A restore step succeeds when neither the slot folder nor the destination is a file and the destination's parent is not blocked by a file. |
| ExportProperties.RestoreFromSucceeds | backup_opencode.py:193-227 | The three restore steps succeed when each slot present in the extraction has a destination that is not a file, with an unblocked parent. |
| ExportProperties.ExportExtracts | backup_opencode.py:169-191 | With a fresh extraction tree and an archive the password opens (and an `unzip` command when the password is truthy), the tree is made, the archive is extracted, and export goes on to the restore steps. |
| ExportProperties.ExportSucceeds | backup_opencode.py:158-235 | `export` succeeds when all of these hold: <br>• no extraction tree exists yet, and it lies apart from the destinations; <br>• the archive is a zip the password opens, with an `unzip` command when the password is truthy; <br>• no slot name is a file entry; <br>• each archived slot's destination is a directory, or absent with an unblocked parent. |
| ExportProperties.ExportRestores | backup_opencode.py:193-227 | After a successful `export`, each destination holds the archive's files and folders under that slot's folder when the archive has the folder. Otherwise it keeps the files and directories it held. |
| ExportProperties.ExportCleansUp | backup_opencode.py:231-235 | Every run of `export` that gets past the missing-archive exit leaves no extraction tree behind, even one that existed before, and returns what its body returned. The filesystem stays well formed. |
| RoundTrip.SlotsView | backup_opencode.py:91-110 | Beneath slot folder `i`, the staged entries are exactly source `i`'s files, or nothing when it is absent. |
| RoundTrip.SlotFolderPresent | backup_opencode.py:140-144 | A source holding files gives the archive its slot folder. |
| RoundTrip.SlotFolderAbsent | backup_opencode.py:140-144 | A source holding no files gives a plain archive no slot folder. |
| RoundTrip.NoSlotEntry | backup_opencode.py:91-110 | The staged entries never hold a file named just `config`, `cache` or `bun_cache`. |
| RoundTrip.CollectedExportSucceeds | backup_opencode.py:73-235 | Exporting an archive that `collect` wrote succeeds, given the password it was encrypted with, a fresh extraction tree and destinations that are directories or free. |
| RoundTrip.CollectThenExport | backup_opencode.py:91-227 | Collect, then export of that archive with the same home: the export succeeds, and every slot whose source held files ends with exactly those files. |
| RoundTrip.EmptySlotNotRestored | backup_opencode.py:135-144 | From a plain archive the export succeeds, yet a slot whose source held no files is not restored, and its destination keeps what it held. |
| Text.LastDot | download_binaries.py:174 | The position of the last `.`, with no dot after it, or none at all. |
| Text.SuffixExe | download_binaries.py:174 | `Path(name).suffix == ".exe"` iff the name ends in `.exe` (case-sensitive) and is longer than four characters. |
| Assets.FirstIndex | download_binaries.py:141-152 | The index of the first asset satisfying the test, with none before it, or None when no asset passes. |
| Assets.FilterHead | download_binaries.py:211-225 | The filtered list is empty iff no asset passes. Otherwise it starts with the first asset that passes. |
| Assets.FindReleaseZip | backup_opencode.py:40-48 | The first asset with `windows` in its lower-cased name whose name as given ends in `.zip`. None iff there is no such asset. |
| Assets.OpenCodePick | download_binaries.py:141-157 | The first 64-bit Windows `.exe`. Failing that, the first Windows `.exe`. Failing that, the first Windows `.zip`. None iff there is none of these. |
| Assets.OpenCodeZipOnlyWithoutExe | download_binaries.py:150-157 | A `.zip` is chosen only when the release has no Windows `.exe`. |
| Assets.ChooseOpenCodeAsset | download_binaries.py:138-157 | The loop with `break` and the `.zip` fallback picks exactly `OpenCodePick`. |
| Assets.CodexCandidates | download_binaries.py:198-214 | The list built by `insert(0, …)`/`append`, with the any-architecture fallback, is exactly `CodexList`. In `CodexList`, main binaries come in reverse release order, then the other `x86_64` builds. |
| Assets.X86Members | download_binaries.py:199-207 | The `x86_64` candidates are exactly the Windows `.exe` assets naming `x86_64`. |
| Assets.CodexList | download_binaries.py:198-214 | The candidate list: main binaries in reverse release order, then the other `x86_64` builds; without any, every Windows `.exe`. `Assets.CodexCandidates` is proved to build it. |
| Assets.CodexPick | download_binaries.py:216-225 | `windows_assets[0]`, or none when the list is empty. `Assets.CodexPickIsWindowsExe` states what it finds. |
| Assets.CodexPrefersMain | download_binaries.py:204-205 | When a candidate starts with `codex-x86_64`, the chosen asset does too. It is the last such candidate in release order. |
| Assets.CodexFallback | download_binaries.py:209-214 | Without an `x86_64` candidate, Codex takes the first Windows `.exe` in release order. |
| Assets.CodexPickIsWindowsExe | download_binaries.py:209-225 | Codex finds no asset iff the release has no Windows `.exe`. What it finds is one. |
| Assets.ZipRulesDifferOnCase | backup_opencode.py:42 | Every Windows asset whose name ends in `.ZIP` passes the `.zip` test of download_binaries.py (line 151) but not the one of backup_opencode.py. |
| Downloads.ManifestChecksum | download_binaries.py:86-90 | A checksum is produced iff the lookup `platforms` → `win32-x64` → `checksum`, a missing key giving `{}`, ends in a non-empty string; it is that string. |
| Downloads.ChecksumIgnoresCase | download_binaries.py:110-112 | The acceptance test ignores case in both digests, and is symmetric. |
| Downloads.DownloadClaude | download_binaries.py:99-121 | `download_claude` from the fetched version, manifest and transfer: no checksum means no download; a transfer that is refused or truncated fails; a whole one passes iff its digest matches, and is deleted otherwise. `Downloads.ClaudeAccepts` states this. |
| Downloads.ClaudeNeedsChecksum | download_binaries.py:86-89 | Without a usable `win32-x64` checksum, `download_claude` returns False and downloads nothing. |
| Downloads.ClaudeAccepts | download_binaries.py:99-121 | `download_claude` returns True iff all of these hold: <br>• the version and manifest were fetched; <br>• a checksum exists; <br>• the binary arrived whole; <br>• its lower-cased digest equals the lower-cased checksum. <br>A whole binary that is rejected is deleted. |
| Downloads.ClaudeUpperCaseChecksum | download_binaries.py:110-112 | For any checksum in the manifest, whatever its case, a whole binary whose digest is that checksum lower-cased is accepted. |
| Downloads.OpenCodeFileName | download_binaries.py:172-178 | The rename rule: a name whose suffix is `.exe` becomes `opencode.exe`, any other keeps its name. `Downloads.OpenCodeRename` states it without `Path.suffix`. |
| Downloads.OpenCodeRename | download_binaries.py:172-178 | The downloaded file ends as `opencode.exe` iff its name ends in `.exe` after at least one character. Otherwise it keeps its name. |
| Downloads.UpperCaseExeNotRenamed | download_binaries.py:142-178 | Any name ending in `.EXE` passes the lower-cased `.exe` test of the asset choice, yet keeps its own name instead of becoming `opencode.exe`. |
| Downloads.DownloadOpenCode | download_binaries.py:141-181 | `download_opencode`: the asset `OpenCodePick` chooses, its transfer, and the rename on success. |
| Downloads.DownloadCodex | download_binaries.py:198-239 | `download_codex`: the first candidate, its transfer, and the rename to `codex.exe` on success. |
| Downloads.OpenCodeOutcome | download_binaries.py:155-181 | OpenCode downloads iff the release has a Windows `.exe` or `.zip`. It succeeds iff the transfer completes, and the file's final name follows the rename rule. |
| Downloads.CodexOutcome | download_binaries.py:209-239 | Codex downloads iff the release has a Windows `.exe`. A success always ends as `codex.exe`. |
| Downloads.Requested | download_binaries.py:256 | No tool names means all three. Otherwise, exactly the names given. |
| Downloads.RunTools | download_binaries.py:256-284 | `main`: <br>• each requested tool is attempted once, in the order Claude, OpenCode, Codex, and all three when none is named; <br>• `results` holds exactly the requested tools and their outcomes; <br>• the exit status is 1 iff some attempted tool failed, and 0 otherwise. |

## Where the model follows the code rather than the documentation

- `collect` succeeds, returning the archive name, even when none of the three sources exists.
- Restoring is not best-effort per slot. An exception while restoring one slot aborts the ones after it.
- The only encryption ever written is the legacy ZipCrypto of `zip -P`. A plain archive carries no directory entries, so an empty source directory is not restored from it.
- A working `zip` over a staging tree that holds nothing exits with status 12, so `collect` with a password and no source writes a plain, empty archive.
- ZipCrypto encrypts file entries only. An encrypted archive holding only empty directories extracts with any password, or none, and its folders then replace the destinations.
- A missing `zip` or `unzip` command raises FileNotFoundError, which the code does not catch. `collect` or `export` then fails rather than falling back.

## Left out

- The network: GitHub and bucket requests, JSON fetching and streamed writes. Each fetch is a parameter giving its outcome: the version text, the decoded manifest, the asset list, and a `Transfer` that is complete, truncated after the file was opened, or refused before.
- Download progress and every `print`: output only.
- SHA-256, the zip file format, deflate, and ZipCrypto itself. The digest is a function parameter. An archive is its entries, its directory entries and its protection. The `zip`/`unzip` commands are reduced to missing, failing or working.
- The OpenCode download at the start of `collect` (backup_opencode.py:76, 147-148). Only its asset-selection loop is modelled, as `Assets.FindReleaseZip`.
- `datetime.now()`, `Path.home()` and the working directory: they are fields of `Env`.
- `argparse` (option parsing, `choices`, usage errors): `RunTools` takes the parsed tool list.
- Python's Unicode `str.lower()`: `Text.Lower` folds ASCII letters only.
- `Path.relative_to`, and names containing a separator: asset names are taken as single path components.
- OS-level failures are not modelled: permissions, a full disk, a partially written archive, and races with other processes.
- A `zip` run over an archive that already exists: the model writes a fresh archive and does not update the old one.
- Windows rename semantics: a rename onto an existing `opencode.exe` or `codex.exe` raises there. The model assumes the target is free.
- Downloads.Json: JSON arrays are not modelled. A non-empty array where the checksum belongs would pass the truthiness test and fail later, outside any `try`.
- Downloads.DownloadClaude: a file of the same name that existed before the run is not tracked. `left` names only what this run wrote.
- CollectProperties.CollectArchive: proved under `CollectSetting`, not in general. The setting requires that no staging tree exists yet, that the sources lie outside it, and that the output path is not inside it.
- CollectProperties.CollectSucceeds: proved under `CollectSetting` with the default name only, for an existing working directory, an archive path that is not a directory, and `zip` installed when the password is truthy; other failures of `zip` or the filesystem are not covered.
- ExportProperties.ExportRestores: proved under `ExportSetting`, not in general. The setting requires that no extraction tree exists yet and that it lies apart from the three destinations. The lemma also assumes a successful `export`; `ExportProperties.ExportSucceeds` states when that happens.
- RoundTrip.CollectThenExport: proved under `ExportReady`: the export uses the password the archive was encrypted with, its extraction tree is fresh, and each destination is a directory or free.
- RoundTrip.EmptySlotNotRestored: proved under `ExportReady`, as `RoundTrip.CollectThenExport` is, and only for a plain archive.
- FsModel.CopyTree: a copy that raises leaves the state as it was. In the source, a copy into its own subtree has already written a deep chain of directories beneath the destination when it raises. The model does not track them.
- BackupSpec.ZipfileRead: a reader that raises part-way leaves the state as it was. In the source, the entries written before the error stay in the extraction tree until the `finally` removes it. ZipCrypto's one-byte password check, which can let a wrong password through to a CRC error, is taken as exact.
- BackupSpec.ArchiveName: the output name is taken as a plain path relative to the working directory. `zip` is given `../name` from inside the staging tree, while `zipfile` opens `name` itself. For an absolute name, or one with `..`, the two targets differ: `zip` can fail where `zipfile` then writes, so the password is dropped. This case is not modelled.
- Symbolic links. The filesystem has none. In the source, `copytree` copies through a link to its target. `rmtree` raises OSError on a linked destination, which aborts `export`.
