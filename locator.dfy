/**
 * Finding the SkyrimVR folder (`scan_entire_pc`, `scan_drive`,
 * `find_skyrim_vr`): a walk of every drive, a walk of one drive, or a path the
 * user types, checked to contain the executable.
 */
module Locator {
  import opened Wrappers
  import opened Text
  import opened Files
  import opened Reconcile
  import opened Outcomes

  /** The drives the full scan tries, in this order. */
  const DRIVE_LETTERS: string := "ABCDEFGHIJKLMNOPQRSTUVWXYZ"

  /** A walk step is the install when the executable is among its files (not its sub-folders). */
  predicate HasSentinel(step: WalkStep) {
    SENTINEL in step.files
  }

  /** The folder a scan of one walk reports: the root of the first step holding the executable. */
  function FirstInstall(walk: seq<WalkStep>): Option<string> {
    if walk == [] then None
    else if HasSentinel(walk[0]) then Some(walk[0].root)
    else FirstInstall(walk[1..])
  }

  /** A scan only reports the root of a step that holds the executable among its files. */
  lemma {:induction false} FirstInstallSound(walk: seq<WalkStep>)
    ensures FirstInstall(walk).Some? ==>
              exists k :: 0 <= k < |walk| && HasSentinel(walk[k]) && walk[k].root == FirstInstall(walk).value
  {
    if walk != [] && !HasSentinel(walk[0]) && FirstInstall(walk).Some? {
      FirstInstallSound(walk[1..]);
      var k :| 0 <= k < |walk[1..]| && HasSentinel(walk[1..][k]) && walk[1..][k].root == FirstInstall(walk).value;
      assert walk[k + 1] == walk[1..][k];
    }
  }

  /** FirstInstall is the first match: it reports step k exactly when no earlier step matches. */
  lemma {:induction false} FirstInstallIsFirstMatch(walk: seq<WalkStep>, k: nat)
    requires k < |walk| && HasSentinel(walk[k])
    requires forall j :: 0 <= j < k ==> !HasSentinel(walk[j])
    ensures FirstInstall(walk) == Some(walk[k].root)
  {
    if k > 0 {
      FirstInstallIsFirstMatch(walk[1..], k - 1);
    }
  }

  /** FirstInstall finds nothing exactly when no step holds the executable among its files. */
  lemma {:induction false} FirstInstallNone(walk: seq<WalkStep>)
    ensures FirstInstall(walk).None? <==> forall j :: 0 <= j < |walk| ==> !HasSentinel(walk[j])
  {
    if walk != [] {
      FirstInstallNone(walk[1..]);
      assert forall j :: 1 <= j < |walk| ==> walk[j] == walk[1..][j - 1];
    }
  }

  /**
   * The scan short-circuits: once a prefix of the walk holds a match, nothing
   * the walk yields afterwards can change the result; a prefix without one
   * leaves the decision to the rest.
   */
  lemma {:induction false} FirstInstallShortCircuit(walk: seq<WalkStep>, later: seq<WalkStep>)
    ensures FirstInstall(walk).Some? ==> FirstInstall(walk + later) == FirstInstall(walk)
    ensures FirstInstall(walk).None? ==> FirstInstall(walk + later) == FirstInstall(later)
  {
    if walk == [] {
      assert walk + later == later;
    } else {
      assert (walk + later)[0] == walk[0];
      assert (walk + later)[1..] == walk[1..] + later;
      FirstInstallShortCircuit(walk[1..], later);
    }
  }

  /** `scan_drive`: walks drive `d` and returns at the first folder holding the executable. */
  method ScanDrive(fs: FileSystem, d: char) returns (found: Option<string>, visited: nat)
    ensures found == FirstInstall(fs.WalkOf(d))
    ensures visited <= |fs.WalkOf(d)|
    ensures found == FirstInstall(fs.WalkOf(d)[..visited])
    ensures found.Some? ==> 0 < visited && HasSentinel(fs.WalkOf(d)[visited - 1])
                            && found.value == fs.WalkOf(d)[visited - 1].root
    ensures forall j :: 0 <= j < visited - 1 ==> !HasSentinel(fs.WalkOf(d)[j])
    ensures found.None? ==> visited == |fs.WalkOf(d)|
  {
    var walk := fs.WalkOf(d);
    visited := 0;
    while visited < |walk|
      invariant visited <= |walk|
      invariant forall j :: 0 <= j < visited ==> !HasSentinel(walk[j])
    {
      var step := walk[visited];
      visited := visited + 1;
      if SENTINEL in step.files {
        FirstInstallIsFirstMatch(walk, visited - 1);
        FirstInstallIsFirstMatch(walk[..visited], visited - 1);
        return Some(step.root), visited;
      }
    }
    FirstInstallNone(walk);
    assert walk[..visited] == walk;
    return None, visited;
  }

  /** What the full scan reports over the given drive letters, in order. */
  function FirstInstallOnDrives(fs: FileSystem, letters: string): Option<string> {
    if letters == [] then None
    else if letters[0] in fs.drives && FirstInstall(fs.WalkOf(letters[0])).Some?
    then FirstInstall(fs.WalkOf(letters[0]))
    else FirstInstallOnDrives(fs, letters[1..])
  }

  /** The full scan only reports what the walk of one existing drive reports. */
  lemma {:induction false} FirstInstallOnDrivesSound(fs: FileSystem, letters: string)
    ensures FirstInstallOnDrives(fs, letters).Some? ==>
              exists i :: 0 <= i < |letters| && letters[i] in fs.drives
                          && FirstInstallOnDrives(fs, letters) == FirstInstall(fs.WalkOf(letters[i]))
  {
    if letters != [] && !(letters[0] in fs.drives && FirstInstall(fs.WalkOf(letters[0])).Some?)
       && FirstInstallOnDrives(fs, letters).Some? {
      FirstInstallOnDrivesSound(fs, letters[1..]);
      var i :| 0 <= i < |letters[1..]| && letters[1..][i] in fs.drives
               && FirstInstallOnDrives(fs, letters) == FirstInstall(fs.WalkOf(letters[1..][i]));
      assert letters[i + 1] == letters[1..][i];
    }
  }

  /** One step of the full scan, from the letter at index `i` on. */
  lemma DrivesStep(fs: FileSystem, letters: string, i: nat)
    requires i < |letters|
    ensures FirstInstallOnDrives(fs, letters[i..])
            == if letters[i] in fs.drives && FirstInstall(fs.WalkOf(letters[i])).Some?
               then FirstInstall(fs.WalkOf(letters[i]))
               else FirstInstallOnDrives(fs, letters[i + 1..])
  {
    assert letters[i..][0] == letters[i];
    assert letters[i..][1..] == letters[i + 1..];
  }

  /**
   * Only existing drives matter to the full scan: two machines with the same
   * drives and the same walks on them give the same result, whatever a walk
   * of a missing drive would yield.
   */
  lemma {:induction false} MissingDrivesIgnored(fs: FileSystem, other: FileSystem, letters: string)
    requires fs.drives == other.drives
    requires forall d :: d in fs.drives ==> fs.WalkOf(d) == other.WalkOf(d)
    ensures FirstInstallOnDrives(fs, letters) == FirstInstallOnDrives(other, letters)
  {
    if letters != [] {
      MissingDrivesIgnored(fs, other, letters[1..]);
    }
  }

  /**
   * `scan_entire_pc`: tries drives A to Z in order, skips those that do not
   * exist, and stops at the first drive whose walk finds the executable.
   * `stop` is the index of that drive letter, or 26 when none does.
   */
  method ScanEntirePc(fs: FileSystem) returns (found: Option<string>, stop: nat)
    ensures found == FirstInstallOnDrives(fs, DRIVE_LETTERS)
    ensures stop <= |DRIVE_LETTERS|
    ensures found.Some? <==> stop < |DRIVE_LETTERS|
    ensures stop < |DRIVE_LETTERS| ==>
              DRIVE_LETTERS[stop] in fs.drives && found == FirstInstall(fs.WalkOf(DRIVE_LETTERS[stop]))
    ensures forall j :: 0 <= j < stop ==>
              DRIVE_LETTERS[j] !in fs.drives || FirstInstall(fs.WalkOf(DRIVE_LETTERS[j])).None?
  {
    stop := 0;
    while stop < |DRIVE_LETTERS|
      invariant stop <= |DRIVE_LETTERS|
      invariant FirstInstallOnDrives(fs, DRIVE_LETTERS[stop..]) == FirstInstallOnDrives(fs, DRIVE_LETTERS)
      invariant forall j :: 0 <= j < stop ==>
                  DRIVE_LETTERS[j] !in fs.drives || FirstInstall(fs.WalkOf(DRIVE_LETTERS[j])).None?
    {
      var drive := DRIVE_LETTERS[stop];
      DrivesStep(fs, DRIVE_LETTERS, stop);
      if drive in fs.drives {
        var hit, _ := ScanDrive(fs, drive);
        if hit.Some? {
          return hit, stop;
        }
      }
      stop := stop + 1;
    }
    return None, stop;
  }

  /** The drive option: the typed letter, upper-cased, must name an existing drive before it is scanned. */
  function DriveOption(fs: FileSystem, letter: string): (r: Search)
    ensures !(|letter| == 1 && letter[0] in fs.drives) ==> r == Failed(NoInstallFound)
    ensures r.Failed? ==> r.reason == NoInstallFound
    ensures r.Found? ==> |letter| == 1 && letter[0] in fs.drives
                         && FirstInstall(fs.WalkOf(letter[0])) == Some(r.path)
    ensures |letter| == 1 && letter[0] in fs.drives && FirstInstall(fs.WalkOf(letter[0])).Some? ==>
              r == Found(FirstInstall(fs.WalkOf(letter[0])).value)
  {
    if |letter| == 1 && letter[0] in fs.drives then
      match FirstInstall(fs.WalkOf(letter[0]))
      case Some(root) => Found(root)
      case None => Failed(NoInstallFound)
    else Failed(NoInstallFound)
  }

  /**
   * The direct-path option: the path is accepted when it exists and its
   * listing (files or folders) holds the executable; listing a path that is a
   * file raises.
   */
  function CheckDirectPath(nodes: map<string, Entry>, path: string): (r: Search)
    ensures r.Found? <==> Listing(nodes, path).Some? && SENTINEL in Listing(nodes, path).value
    ensures r.Found? ==> r.path == path
    ensures r == Failed(Unlistable) <==> path in nodes && nodes[path].File?
    ensures r.Failed? ==> r.reason == Unlistable || r.reason == NoInstallFound
  {
    if path !in nodes then Failed(NoInstallFound)
    else if nodes[path].File? then Failed(Unlistable)
    else if SENTINEL in nodes[path].children then Found(path)
    else Failed(NoInstallFound)
  }

  /**
   * A folder the locator may report: some walk step on an existing drive has
   * it as root and holds the executable among its files, or listing it shows
   * the executable.
   */
  ghost predicate HoldsInstall(fs: FileSystem, nodes: map<string, Entry>, path: string) {
    (exists d, k :: d in fs.drives && 0 <= k < |fs.WalkOf(d)|
                    && HasSentinel(fs.WalkOf(d)[k]) && fs.WalkOf(d)[k].root == path)
    || (Listing(nodes, path).Some? && SENTINEL in Listing(nodes, path).value)
  }

  /**
   * What `find_skyrim_vr` returns when it reads its responses from `pos` on,
   * and the position after them. An invalid menu choice waits for one more
   * response ("Press any key to exit...") before exiting.
   */
  function Locate(fs: FileSystem, nodes: map<string, Entry>, input: seq<string>, pos: nat): (r: (Search, nat))
    requires pos <= |input|
    ensures pos <= r.1 <= |input|
  {
    if pos == |input| then (Failed(EndOfInput), pos)
    else
      var choice := Strip(input[pos]);
      if choice == "1" then
        (match FirstInstallOnDrives(fs, DRIVE_LETTERS)
         case Some(root) => Found(root)
         case None => Failed(NoInstallFound), pos + 1)
      else if pos + 1 == |input| then (Failed(EndOfInput), pos + 1)
      else if choice == "2" then (DriveOption(fs, Upper(Strip(input[pos + 1]))), pos + 2)
      else if choice == "3" then (CheckDirectPath(nodes, Strip(input[pos + 1])), pos + 2)
      else (Failed(InvalidChoice), pos + 2)
  }

  /** The locator only reports a folder that holds the executable. */
  lemma LocateSound(fs: FileSystem, nodes: map<string, Entry>, input: seq<string>, pos: nat)
    requires pos <= |input|
    ensures Locate(fs, nodes, input, pos).0.Found? ==> HoldsInstall(fs, nodes, Locate(fs, nodes, input, pos).0.path)
    ensures Locate(fs, nodes, input, pos).0 != Failed(DeclinedRisk)
  {
    var r := Locate(fs, nodes, input, pos).0;
    if r.Found? && pos < |input| {
      var choice := Strip(input[pos]);
      if choice == "1" {
        FirstInstallOnDrivesSound(fs, DRIVE_LETTERS);
        var i :| 0 <= i < |DRIVE_LETTERS| && DRIVE_LETTERS[i] in fs.drives
                 && Some(r.path) == FirstInstall(fs.WalkOf(DRIVE_LETTERS[i]));
        FirstInstallSound(fs.WalkOf(DRIVE_LETTERS[i]));
        var k :| 0 <= k < |fs.WalkOf(DRIVE_LETTERS[i])| && HasSentinel(fs.WalkOf(DRIVE_LETTERS[i])[k])
                 && fs.WalkOf(DRIVE_LETTERS[i])[k].root == r.path;
      } else if choice == "2" {
        var letter := Upper(Strip(input[pos + 1]));
        FirstInstallSound(fs.WalkOf(letter[0]));
        var k :| 0 <= k < |fs.WalkOf(letter[0])| && HasSentinel(fs.WalkOf(letter[0])[k])
                 && fs.WalkOf(letter[0])[k].root == r.path;
      }
    }
  }

  /**
   * `find_skyrim_vr`: reads the menu choice, then the drive letter or the
   * path the chosen option needs. Option 1 and 2 report the first folder their
   * walk finds; option 3 validates the typed path; anything else exits.
   */
  method FindSkyrimVr(fs: FileSystem, input: seq<string>, pos: nat) returns (r: Search, next: nat)
    requires pos <= |input|
    ensures pos <= next <= |input|
    ensures r == Locate(fs, fs.nodes, input, pos).0 && next == Locate(fs, fs.nodes, input, pos).1
  {
    if pos == |input| {
      return Failed(EndOfInput), pos;
    }
    var choice := Strip(input[pos]);
    next := pos + 1;
    if choice == "1" {
      var found, _ := ScanEntirePc(fs);
      r := if found.Some? then Found(found.value) else Failed(NoInstallFound);
    } else if choice == "2" {
      if next == |input| {
        return Failed(EndOfInput), next;
      }
      var letter := Upper(Strip(input[next]));
      next := next + 1;
      if !(|letter| == 1 && letter[0] in fs.drives) {
        // "Drive X: does not exist.": no scan at all.
        return Failed(NoInstallFound), next;
      }
      var found, _ := ScanDrive(fs, letter[0]);
      r := if found.Some? then Found(found.value) else Failed(NoInstallFound);
    } else if choice == "3" {
      if next == |input| {
        return Failed(EndOfInput), next;
      }
      var path := Strip(input[next]);
      next := next + 1;
      r := CheckDirectPath(fs.nodes, path);
    } else {
      // "Press any key to exit..." reads one more response before sys.exit(1).
      if next == |input| {
        return Failed(EndOfInput), next;
      }
      return Failed(InvalidChoice), next + 1;
    }
  }
}
