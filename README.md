# SkyrimVR folder cleaner — verified model

A Dafny model of `skyrim_cleanup.py`. The script finds a SkyrimVR install
folder, checks its top-level entries against the fixed whitelist
`BASE_GAME_FILES`, and offers to delete everything that is not whitelisted.
There are three ways to find the folder: scan every drive, scan one drive,
or type the path. If the folder lies inside a protected Windows location,
the script warns first and asks whether to go on. After the first deletion
offer, it re-lists the folder and offers the deletion once more.

Modules, one per concern:

- `Text` (text.dfy): Python's `strip()`, `lower()`, `upper()` and `startswith()`.
- `Reconcile` (reconcile.dfy): `BASE_GAME_FILES`, the sentinel `SkyrimVR.exe` and `verify_files`.
- `Zones` (zones.dfy): the protected-folder test used by `warn_if_in_protected_folders`.
- `Files` (files.dfy): the machine, as a class `FileSystem`:
  - the drive letters that exist;
  - what `os.walk` yields on each drive;
  - a map from absolute path to entry (a file, or a folder with its subtree), which `remove_extra_files` changes in place.
- `Console` (console.dfy): `get_user_confirmation`. The user's responses are a sequence of lines plus a cursor. If no line is left, `input()` raises EOFError.
- `Locator` (locator.dfy): `scan_entire_pc`, `scan_drive` and `find_skyrim_vr`.
- `Cleanup` (cleanup.dfy): `warn_if_in_protected_folders`, `enforce_clean_directory` and `main` (named `Run`). `main` is split in two: the call to `find_skyrim_vr`, then the rest of its body (`AfterLocating`). Each method is proved against a function that describes its result: `Locate`, `Guard`, `OfferRemoval`, `AfterLocate` and `RunSpec`.
- `Outcomes` (outcome.dfy): how a run ends.

The model's inputs stand in for the outside world:

- console input: a sequence of response lines. Every `input()` call reads one line, including the "Press any key to exit..." prompts, which accept any line. When no line is left, `input()` raises EOFError;
- protected zones: a sequence of optional strings, standing for environment lookups that may be unset;
- deletion failures: a set of names whose deletion raises (locked entries).

Every `sys.exit(1)` and every uncaught exception becomes `Aborted(reason)`. This includes an EOFError at the closing key press after "Script completed.". The normal end becomes `Completed(folder)`. `ExitCode` maps these to 1 and 0.

Details of the script that the model keeps as written:

- Declining to proceed in a protected folder exits with status 1, not 0.
- `remove_extra_files` returns nothing. Its per-name report exists only as the "Deleted" / "Failed to delete" log lines; the model returns that report as a map.
- Each entry is matched by name only. `Data` is never checked to be a folder.
- The closing "Press any key to exit..." after "Script completed." is an `input()` call too. With no response left it raises EOFError, so the exit status is 1 although the cleanup ran.

## Model

| member | source | states |
|---|---|---|
| `Reconcile.VerifyFiles` | skyrim_cleanup.py:124-145 | `extra` holds exactly the listed names outside the whitelist, `missing` exactly the whitelisted names not listed; the two are disjoint; both are empty iff the listing equals the whitelist |
| `Reconcile.VerifyFilesUnique` | skyrim_cleanup.py:127-129 | any pair of sets meeting VerifyFiles' four inclusions is VerifyFiles' result, so its contract fully determines it |
| `Reconcile.RelistAfterFullRemoval` | skyrim_cleanup.py:164-165 | re-listing a folder after all its extras are gone finds no extra entry and the same missing ones |
| `Reconcile.ModdedInstallExample` | skyrim_cleanup.py:127-129 | the whitelist plus `mod1.dll` and `readme.txt` gives extra = those two, missing = {} |
| `Reconcile.SentinelIsWhitelisted` | skyrim_cleanup.py:6-18 | `SkyrimVR.exe` is in `BASE_GAME_FILES` |
| `Text.StripRemovesPadding` | skyrim_cleanup.py:103 | `strip()` removes exactly the surrounding whitespace: stripping a trimmed string padded with whitespace gives it back |
| `Text.StripIdempotent` | skyrim_cleanup.py:103 | stripping twice equals stripping once |
| `Text.LowerForgetsCase` | skyrim_cleanup.py:89 | `lower()` of an upper-cased string equals `lower()` of the string; `lower()` is idempotent |
| `Zones.IsProtected` | skyrim_cleanup.py:88-89 | a folder is flagged iff some zone that is set and non-empty, lowered, is a character prefix of the lowered folder |
| `Zones.FolderCaseIgnored` | skyrim_cleanup.py:89 | upper- or lower-casing the folder path does not change the verdict |
| `Zones.ZoneCaseIgnored` | skyrim_cleanup.py:89 | upper-casing every zone does not change the verdict |
| `Zones.UnsetZoneIgnored` | skyrim_cleanup.py:88-89 | inserting an unset (`None`) or empty zone anywhere in the list does not change the verdict |
| `Zones.PrefixSurvivesLowering` | skyrim_cleanup.py:89 | a case-sensitive prefix is still a prefix after lowering both sides |
| `Zones.PrefixIsNotComponentwise` | skyrim_cleanup.py:89 | `C:\Users2\SkyrimVR` is flagged by zone `C:\Users`, and `C:\Program Files (x86)\Steam` by zone `C:\Program Files` |
| `Zones.OtherDriveNotProtected` | skyrim_cleanup.py:88-89 | a folder on D: is not flagged by `[None, "", "C:\Users"]` |
| `Console.Confirmation` | skyrim_cleanup.py:100-109 | the first response that is y/yes or n/no after `strip().lower()` decides (True for yes); every earlier response is neither; with no such response the input runs out (None) |
| `Console.GetUserConfirmation` | skyrim_cleanup.py:100-109 | the prompt loop returns the answer and the position Confirmation gives |
| `Console.NormalizePadded` | skyrim_cleanup.py:103 | a response padded with whitespace normalizes to its lowered core |
| `Console.YesExamples` | skyrim_cleanup.py:103-105 | `" Yes\n"` and `"Y"` are yes |
| `Console.NoExamples` | skyrim_cleanup.py:103-107 | `"NO "` and `"\tn"` are no |
| `Console.EmptyRejected` | skyrim_cleanup.py:108-109 | an empty response is neither yes nor no: there is no default |
| `Console.LookalikesRejected` | skyrim_cleanup.py:108-109 | `"yeah"` and `"nope"` are neither yes nor no |
| `Files.Listing` | skyrim_cleanup.py:127 | `os.listdir` succeeds exactly on a path that exists and is a folder, and then gives the names of its entries; on anything else it raises (None) |
| `Files.PartialFailureExample` | skyrim_cleanup.py:150-159 | with `b` locked, `a` and `c` of `{a, b, c}` are still deleted |
| `Files.FileSystem.RemoveExtraFiles` | skyrim_cleanup.py:147-159 | the path map becomes the old one with the folder replaced by its entries minus the named ones that exist and do not fail, each removed with its whole subtree; every other path is unchanged; each name is reported Deleted iff it was present and did not fail |
| `Locator.FirstInstallSound` | skyrim_cleanup.py:52-56 | a drive scan only reports the root of a walk step whose files hold `SkyrimVR.exe` |
| `Locator.FirstInstallIsFirstMatch` | skyrim_cleanup.py:52-55 | the scan result is the root of step k when step k is the first whose files hold `SkyrimVR.exe` |
| `Locator.FirstInstallNone` | skyrim_cleanup.py:52-56 | the scan finds nothing iff no step's files hold `SkyrimVR.exe` |
| `Locator.FirstInstallShortCircuit` | skyrim_cleanup.py:52-55 | after a prefix of the walk that matches, later steps cannot change the result; after a prefix that does not, only the later steps decide |
| `Locator.ScanDrive` | skyrim_cleanup.py:49-56 | returns FirstInstall of the drive's walk; on a match it has visited exactly the steps up to the first matching one (no earlier step matches, the last visited does), otherwise every step |
| `Locator.FirstInstallOnDrivesSound` | skyrim_cleanup.py:40-47 | the full scan only reports what the walk of one existing drive reports |
| `Locator.MissingDrivesIgnored` | skyrim_cleanup.py:40-41 | the full scan depends only on the walks of drives that exist |
| `Locator.ScanEntirePc` | skyrim_cleanup.py:37-47 | tries A..Z in order, skipping missing drives, and stops at the first existing drive whose walk matches; returns that drive's first match, or None |
| `Locator.DriveOption` | skyrim_cleanup.py:69-73 | a letter that is not one existing drive gives not-found without a scan; on an existing drive the result is found exactly when that drive's walk has a match, and is then its first match; the option never fails for another reason |
| `Locator.CheckDirectPath` | skyrim_cleanup.py:74-80 | a typed path is accepted iff it is a folder whose listing (files or folders) holds `SkyrimVR.exe`; a path that is a file makes the listing raise; anything else is not found |
| `Locator.LocateSound` | skyrim_cleanup.py:58-84 | whatever the responses, the locator only reports a folder that a walk step of an existing drive or a listing shows to hold `SkyrimVR.exe`, and never fails with DeclinedRisk |
| `Locator.FindSkyrimVr` | skyrim_cleanup.py:58-84 | returns the result and position Locate gives: choice `1` is the full scan; `2` the stripped, upper-cased drive; `3` the stripped path; anything else reads one key press and exits; a missing response raises |
| `Cleanup.PrunedTransitive` | skyrim_cleanup.py:195-200 | two pruning steps in a row are one pruning step |
| `Cleanup.Guard` | skyrim_cleanup.py:86-98 | outside the zones nothing is read; inside, the run stops with DeclinedRisk iff the first answer is no and a key press follows; it goes on iff the first answer is yes and the second question gets any answer; otherwise input ran out |
| `Cleanup.WarnIfInProtectedFolders` | skyrim_cleanup.py:86-98 | returns the verdict and position Guard gives |
| `Cleanup.OfferRemoval` | skyrim_cleanup.py:161-175 | nothing is asked when every entry is whitelisted; only a yes changes anything; after a yes exactly the whitelisted entries and those whose deletion failed remain, unaltered; input running out is the only failure |
| `Cleanup.EnforceCleanDirectory` | skyrim_cleanup.py:161-175 | the new path map is the old one with the folder replaced by OfferRemoval's result on its fresh listing; the verdict and position are OfferRemoval's |
| `Cleanup.Exit` | skyrim_cleanup.py:202-204 | the closing key press: with a response left, the intended outcome stands and exactly one response is consumed; at the end of input EOFError ends the run and nothing is consumed |
| `Cleanup.AfterLocateOnlyRemovesExtras` | skyrim_cleanup.py:181-204 | after any locator result, the run only removes non-whitelisted entries, changes only the located folder, and changes nothing when it stops for a reason other than exhausted input |
| `Cleanup.AfterLocateCompleted` | skyrim_cleanup.py:181-204 | after a locator result, exit status 0 means a completed run on that non-empty, listable folder, agreed to when protected, and the closing key press is the response right after the two deletion prompts |
| `Cleanup.AfterLocateAbortReasons` | skyrim_cleanup.py:181-198 | after a locator result, each early-stop reason holds iff its cause does: invalid choice, nothing found and a key press read, a declined protected folder, or an unlistable folder |
| `Cleanup.CleaningFinalListing` | skyrim_cleanup.py:188-200 | when both offers are answered, the folder keeps the whitelisted entries and those whose deletion failed if either offer got a yes, and every entry otherwise |
| `Cleanup.AfterLocating` | skyrim_cleanup.py:181-204 | the rest of `main` returns the outcome, path map and position AfterLocate gives |
| `Cleanup.RunOnlyRemovesExtras` | skyrim_cleanup.py:177-204 | a run removes no whitelisted entry and creates or alters nothing; only the located folder can change; a run that stops for any reason but exhausted input changes nothing |
| `Cleanup.RunCompleted` | skyrim_cleanup.py:177-204 | exit status 0 only for a completed run on exactly the folder the locator returned, non-empty and listable, agreed to when protected, and the closing key press is the response right after the two deletion prompts |
| `Cleanup.RunAbortReasons` | skyrim_cleanup.py:177-198 | a run stops with InvalidChoice, NoInstallFound, DeclinedRisk or Unlistable exactly when the locator, the guard or the listing gives that cause |
| `Cleanup.RunFinalListing` | skyrim_cleanup.py:188-204 | a completed run leaves the whitelisted entries and those whose deletion failed when either offer (asked after the guard's answers) got a yes, and every entry otherwise |
| `Cleanup.Run` | skyrim_cleanup.py:177-204 | `main` returns the outcome, path map and position RunSpec gives: the locator's result followed by AfterLocate |
| `Outcomes.ExitCode` | skyrim_cleanup.py:177-204 | status 0 exactly for a completed run, 1 for every other end |

## Left out

- Console output is not modelled: `log`, `show_protected_folders_list`, and the "Extra files detected" lines printed by both `verify_files` and `main`.
- Building `PROTECTED_FOLDERS` from environment variables (skyrim_cleanup.py:21-31) is not modelled. The zone list is an input. The crash when `SYSTEMDRIVE` or `USERPROFILE` is unset is therefore not modelled either.
- Case mapping is ASCII only. Python's full Unicode `lower()`/`upper()` is not modelled. `strip()` removes the whole set of characters Python treats as whitespace.
- `os.walk` output is given per drive, in a fixed order. It is not derived from the path map. The platform's traversal order and the errors `os.walk` skips are not modelled.
- Drives are assumed to be named by single characters. A typed drive string names an existing drive only if it is one character long and in the drive set.
- The direct path's "exists" means "is a key of the path map".
- Each path in the map is independent. Deleting under one folder does not update a nested path stored as its own key. Only the located folder is ever changed.
- `shutil.rmtree` is all-or-nothing on an entry. Partial deletion of a subtree is not modelled.
- Which deletions raise comes from a fixed set of names, the same for both removal passes. Permission errors on listing are not modelled.
- Symbolic links are not modelled.
- `Files.FileSystem.RemoveExtraFiles` visits the names in an arbitrary order, like iteration over a Python set. Each name is handled independently, so the order does not affect the result.
