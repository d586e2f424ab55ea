/**
 * The script's control flow (`warn_if_in_protected_folders`,
 * `enforce_clean_directory`, `main`): locate, warn about a protected folder,
 * reconcile, offer to delete the extra entries, then re-list and offer again.
 */
module Cleanup {
  import opened Wrappers
  import opened Zones
  import opened Reconcile
  import opened Files
  import opened Console
  import opened Locator
  import opened Outcomes
  import opened Text

  /**
   * `after` is `before` with at most some non-whitelisted children of a folder
   * removed: nothing is added, changed or turned into something else, and
   * every whitelisted child is still there.
   */
  ghost predicate Pruned(before: Entry, after: Entry) {
    before == after
    || (before.Dir? && after.Dir?
        && (forall n :: n in after.children ==> n in before.children && after.children[n] == before.children[n])
        && (forall n :: n in before.children && n in BASE_GAME_FILES ==> n in after.children))
  }

  /** Every path keeps its place and at most loses non-whitelisted children. */
  ghost predicate OnlyExtrasRemoved(before: map<string, Entry>, after: map<string, Entry>) {
    after.Keys == before.Keys && forall p :: p in before ==> Pruned(before[p], after[p])
  }

  /** Two pruning steps in a row are one pruning step. */
  lemma PrunedTransitive(a: Entry, b: Entry, c: Entry)
    requires Pruned(a, b) && Pruned(b, c)
    ensures Pruned(a, c)
  {
  }

  /**
   * The protected-folder check of `warn_if_in_protected_folders`, with the
   * responses it reads from `pos` on: whether it stops the run, and the
   * position after. Declining reads one more response ("Press any key to
   * exit...") before `sys.exit(1)`.
   */
  function Guard(folder: string, zones: seq<Option<string>>, input: seq<string>, pos: nat): (r: (Option<Failure>, nat))
    requires pos <= |input|
    ensures pos <= r.1 <= |input|
    ensures !IsProtected(folder, zones) ==> r == (None, pos)
    ensures r.0.Some? ==> r.0.value == DeclinedRisk || r.0.value == EndOfInput
    ensures r.0 == Some(DeclinedRisk) <==>
              IsProtected(folder, zones) && Confirmation(input, pos).0 == Some(false) && Confirmation(input, pos).1 < |input|
    ensures r.0.None? <==>
              !IsProtected(folder, zones)
              || (Confirmation(input, pos).0 == Some(true) && Confirmation(input, Confirmation(input, pos).1).0.Some?)
  {
    if !IsProtected(folder, zones) then (None, pos)
    else
      var proceed := Confirmation(input, pos);
      if proceed.0.None? then (Some(EndOfInput), proceed.1)
      else if proceed.0.value then
        var show := Confirmation(input, proceed.1);
        (if show.0.None? then Some(EndOfInput) else None, show.1)
      else if proceed.1 == |input| then (Some(EndOfInput), proceed.1)
      else (Some(DeclinedRisk), proceed.1 + 1)
  }

  /**
   * `warn_if_in_protected_folders`: outside every protected zone nothing is
   * asked. Inside one, the user must agree to proceed (declining stops the
   * run), and is then asked whether to see the list of locations, an answer
   * that only decides what is printed.
   */
  method WarnIfInProtectedFolders(folder: string, zones: seq<Option<string>>, input: seq<string>, pos: nat)
    returns (stopped: Option<Failure>, next: nat)
    requires pos <= |input|
    ensures stopped == Guard(folder, zones, input, pos).0 && next == Guard(folder, zones, input, pos).1
  {
    if !IsProtected(folder, zones) {
      return None, pos;
    }
    var proceed;
    proceed, next := GetUserConfirmation(input, pos);
    if proceed.None? {
      return Some(EndOfInput), next;
    }
    if !proceed.value {
      // "Press any key to exit..." reads one more response before sys.exit(1).
      if next == |input| {
        return Some(EndOfInput), next;
      }
      return Some(DeclinedRisk), next + 1;
    }
    var show;
    show, next := GetUserConfirmation(input, next);
    stopped := if show.None? then Some(EndOfInput) else None;
  }

  /**
   * One offer to delete the entries of a folder that are not whitelisted, as
   * both `main` and `enforce_clean_directory` make it: nothing is asked when
   * every entry is whitelisted; otherwise a yes runs a removal pass over them.
   * The result: whether input ran out, the folder's entries afterwards, and
   * the position after the responses read.
   */
  function OfferRemoval(children: map<string, Entry>, failing: set<string>, input: seq<string>, pos: nat)
    : (r: (Option<Failure>, map<string, Entry>, nat))
    requires pos <= |input|
    ensures pos <= r.2 <= |input|
    ensures Pruned(Dir(children), Dir(r.1))
    ensures children.Keys <= BASE_GAME_FILES ==> r == (None, children, pos)
    ensures !(children.Keys <= BASE_GAME_FILES) ==>
              r.2 == Confirmation(input, pos).1 && (r.0 == Some(EndOfInput) <==> Confirmation(input, pos).0.None?)
    ensures r.0.Some? ==> r.0.value == EndOfInput
    ensures Confirmation(input, pos).0 != Some(true) ==> r.1 == children
    ensures Confirmation(input, pos).0 == Some(true) ==>
              r.1.Keys == children.Keys * (BASE_GAME_FILES + failing)
  {
    var nonWhitelisted := children.Keys - BASE_GAME_FILES;
    if nonWhitelisted == {} then (None, children, pos)
    else
      var answer := Confirmation(input, pos);
      if answer.0.None? then (Some(EndOfInput), children, answer.1)
      else if answer.0.value then (None, children - Deletable(children, nonWhitelisted, failing), answer.1)
      else (None, children, answer.1)
  }

  /**
   * `enforce_clean_directory`: re-lists the folder and, when something in it
   * is not whitelisted, asks once and deletes those entries on a yes.
   */
  method EnforceCleanDirectory(fs: FileSystem, folder: string, input: seq<string>, pos: nat, failing: set<string>)
    returns (stopped: Option<Failure>, next: nat)
    requires pos <= |input|
    requires Listing(fs.nodes, folder).Some?
    modifies fs
    ensures var offer := OfferRemoval(old(fs.nodes)[folder].children, failing, input, pos);
            stopped == offer.0 && next == offer.2 && fs.nodes == old(fs.nodes)[folder := Dir(offer.1)]
  {
    var found := Listing(fs.nodes, folder).value;
    var nonWhitelisted := found - BASE_GAME_FILES;
    next := pos;
    stopped := None;
    if nonWhitelisted != {} {
      var answer;
      answer, next := GetUserConfirmation(input, pos);
      if answer.None? {
        return Some(EndOfInput), next;
      }
      if answer.value {
        var _ := fs.RemoveExtraFiles(folder, nonWhitelisted, failing);
      }
    }
  }

  /** Updating a path twice keeps only the second update. */
  lemma UpdateTwice(m: map<string, Entry>, k: string, a: Entry, b: Entry)
    ensures m[k := a][k := b] == m[k := b]
  {
    assert m[k := a][k := b].Keys == m[k := b].Keys;
  }

  /** A path map left as it is only removes extras. */
  lemma OnlyExtrasRemovedReflexive(nodes: map<string, Entry>)
    ensures OnlyExtrasRemoved(nodes, nodes)
  {
  }

  /** Replacing one path's entry by a pruning of it only removes extras. */
  lemma UpdatePruned(nodes: map<string, Entry>, path: string, e: Entry)
    requires path in nodes && Pruned(nodes[path], e)
    ensures OnlyExtrasRemoved(nodes, nodes[path := e])
  {
  }

  /** The position after both offers to delete, made on `children` from `pos` on. */
  function OffersEnd(children: map<string, Entry>, failing: set<string>, input: seq<string>, pos: nat): nat
    requires pos <= |input|
  {
    var first := OfferRemoval(children, failing, input, pos);
    OfferRemoval(first.1, failing, input, first.2).2
  }

  /** How a run ends: its outcome, the path map afterwards, and the position after the last response read. */
  datatype RunResult = RunResult(outcome: Outcome, nodes: map<string, Entry>, next: nat)

  /** "Press any key to exit...", then exit with `o`; with no response left, input() raises instead. */
  function Exit(o: Outcome, nodes: map<string, Entry>, input: seq<string>, pos: nat): (r: RunResult)
    requires pos <= |input|
    ensures r.nodes == nodes && r.next <= |input|
    ensures pos == |input| ==> r.outcome == Aborted(EndOfInput) && r.next == pos
    ensures pos < |input| ==> r.outcome == o && r.next == pos + 1
  {
    if pos == |input| then RunResult(Aborted(EndOfInput), nodes, pos) else RunResult(o, nodes, pos + 1)
  }

  /**
   * The run of `main` once a folder is located and the guard let it through
   * and it can be listed: the first offer, the second one on a fresh listing,
   * then the closing key press.
   */
  function Cleaning(folder: string, nodes: map<string, Entry>, input: seq<string>, failing: set<string>, pos: nat)
    : (r: RunResult)
    requires pos <= |input| && Listing(nodes, folder).Some?
    ensures r.next <= |input|
  {
    var first := OfferRemoval(nodes[folder].children, failing, input, pos);
    if first.0.Some? then RunResult(Aborted(EndOfInput), nodes, first.2)
    else
      var second := OfferRemoval(first.1, failing, input, first.2);
      var cleaned := nodes[folder := Dir(second.1)];
      if second.0.Some? then RunResult(Aborted(EndOfInput), cleaned, second.2)
      else Exit(Completed(folder), cleaned, input, second.2)
  }

  /** The rest of a run of `main`, once the locator has returned `search` and read the responses before `pos`. */
  function AfterLocate(search: Search, pos: nat, nodes: map<string, Entry>, zones: seq<Option<string>>,
                       input: seq<string>, failing: set<string>): (r: RunResult)
    requires pos <= |input|
    ensures r.next <= |input|
  {
    if search.Failed? && search.reason != NoInstallFound then RunResult(Aborted(search.reason), nodes, pos)
    else if search.Failed? || search.path == "" then Exit(Aborted(NoInstallFound), nodes, input, pos)
    else
      var guard := Guard(search.path, zones, input, pos);
      if guard.0.Some? then RunResult(Aborted(guard.0.value), nodes, guard.1)
      else if Listing(nodes, search.path).None? then RunResult(Aborted(Unlistable), nodes, guard.1)
      else Cleaning(search.path, nodes, input, failing, guard.1)
  }

  /** A whole run of `main` on the path map `nodes`, reading the responses in `input`. */
  function RunSpec(fs: FileSystem, nodes: map<string, Entry>, zones: seq<Option<string>>, input: seq<string>,
                   failing: set<string>): (r: RunResult)
    ensures r.next <= |input|
  {
    var located := Locate(fs, nodes, input, 0);
    AfterLocate(located.0, located.1, nodes, zones, input, failing)
  }

  /**
   * After any locator result, the rest of the run removes no whitelisted
   * entry, creates and alters nothing, and changes no path but the located
   * folder; when it stops for any reason but exhausted input it changes
   * nothing at all.
   */
  lemma AfterLocateOnlyRemovesExtras(search: Search, pos: nat, nodes: map<string, Entry>,
                                     zones: seq<Option<string>>, input: seq<string>, failing: set<string>)
    requires pos <= |input|
    ensures var r := AfterLocate(search, pos, nodes, zones, input, failing);
            && OnlyExtrasRemoved(nodes, r.nodes)
            && (r.nodes != nodes ==> search.Found? && forall p :: p in nodes && p != search.path ==> r.nodes[p] == nodes[p])
            && (r.outcome.Aborted? && r.outcome.reason != EndOfInput ==> r.nodes == nodes)
  {
    var r := AfterLocate(search, pos, nodes, zones, input, failing);
    if search.Found? && search.path != "" && Guard(search.path, zones, input, pos).0.None?
       && Listing(nodes, search.path).Some? {
      var folder := search.path;
      var start := Guard(search.path, zones, input, pos).1;
      assert r == Cleaning(folder, nodes, input, failing, start);
      var first := OfferRemoval(nodes[folder].children, failing, input, start);
      if first.0.None? {
        var second := OfferRemoval(first.1, failing, input, first.2);
        PrunedTransitive(nodes[folder], Dir(first.1), Dir(second.1));
        assert r.nodes == nodes[folder := Dir(second.1)];
        UpdatePruned(nodes, folder, Dir(second.1));
      } else {
        assert r.nodes == nodes;
        OnlyExtrasRemovedReflexive(nodes);
      }
    } else {
      assert r.nodes == nodes;
      OnlyExtrasRemovedReflexive(nodes);
    }
  }

  /**
   * Whatever the user answers and whichever deletions fail, a run removes no
   * whitelisted entry, creates and alters nothing, and changes no path but
   * the located folder; a run that stops for any reason but exhausted input
   * changes nothing at all.
   */
  lemma RunOnlyRemovesExtras(fs: FileSystem, nodes: map<string, Entry>, zones: seq<Option<string>>,
                             input: seq<string>, failing: set<string>)
    ensures var r := RunSpec(fs, nodes, zones, input, failing);
            var search := Locate(fs, nodes, input, 0).0;
            && OnlyExtrasRemoved(nodes, r.nodes)
            && (r.nodes != nodes ==> search.Found? && forall p :: p in nodes && p != search.path ==> r.nodes[p] == nodes[p])
            && (r.outcome.Aborted? && r.outcome.reason != EndOfInput ==> r.nodes == nodes)
  {
    var located := Locate(fs, nodes, input, 0);
    AfterLocateOnlyRemovesExtras(located.0, located.1, nodes, zones, input, failing);
  }

  /** After a locator result, the run ends with exit status 0 only on the cases RunCompleted names. */
  lemma AfterLocateCompleted(search: Search, pos: nat, nodes: map<string, Entry>,
                             zones: seq<Option<string>>, input: seq<string>, failing: set<string>)
    requires pos <= |input|
    ensures var r := AfterLocate(search, pos, nodes, zones, input, failing);
            ExitCode(r.outcome) == 0 ==>
              && r.outcome.Completed?
              && search == Found(r.outcome.folder)
              && r.outcome.folder != ""
              && (IsProtected(r.outcome.folder, zones) ==> Confirmation(input, pos).0 == Some(true))
              && Listing(nodes, r.outcome.folder).Some?
              && r.next <= |input|
              && r.next == OffersEnd(nodes[r.outcome.folder].children, failing, input,
                                     Guard(r.outcome.folder, zones, input, pos).1) + 1
  {
    if search.Found? && search.path != "" {
      var guard := Guard(search.path, zones, input, pos);
      if guard.0.None? && Listing(nodes, search.path).Some? {
        var folder := search.path;
        var first := OfferRemoval(nodes[folder].children, failing, input, guard.1);
        if first.0.None? {
          var second := OfferRemoval(first.1, failing, input, first.2);
        }
      }
    }
  }

  /**
   * The script exits with status 0 only after cleaning the folder the locator
   * reported: a non-empty, listable path, which, when it lies in a protected
   * location, the user agreed to clean; the closing key press was read.
   */
  lemma RunCompleted(fs: FileSystem, nodes: map<string, Entry>, zones: seq<Option<string>>,
                     input: seq<string>, failing: set<string>)
    ensures var r := RunSpec(fs, nodes, zones, input, failing);
            var located := Locate(fs, nodes, input, 0);
            ExitCode(r.outcome) == 0 ==>
              && r.outcome.Completed?
              && located.0 == Found(r.outcome.folder)
              && r.outcome.folder != ""
              && (IsProtected(r.outcome.folder, zones) ==> Confirmation(input, located.1).0 == Some(true))
              && Listing(nodes, r.outcome.folder).Some?
              && r.next <= |input|
              && r.next == OffersEnd(nodes[r.outcome.folder].children, failing, input,
                                     Guard(r.outcome.folder, zones, input, located.1).1) + 1
  {
    var located := Locate(fs, nodes, input, 0);
    AfterLocateCompleted(located.0, located.1, nodes, zones, input, failing);
  }

  /** Why the rest of a run stops early, for a locator result that is not DeclinedRisk. */
  lemma AfterLocateAbortReasons(search: Search, pos: nat, nodes: map<string, Entry>,
                                zones: seq<Option<string>>, input: seq<string>, failing: set<string>)
    requires pos <= |input|
    requires search != Failed(DeclinedRisk)
    ensures var r := AfterLocate(search, pos, nodes, zones, input, failing);
            && (r.outcome == Aborted(InvalidChoice) <==> search == Failed(InvalidChoice))
            && (r.outcome == Aborted(NoInstallFound) <==>
                  (search == Failed(NoInstallFound) || search == Found("")) && pos < |input|)
            && (r.outcome == Aborted(DeclinedRisk) <==>
                  && search.Found? && search.path != ""
                  && IsProtected(search.path, zones)
                  && Confirmation(input, pos).0 == Some(false)
                  && Confirmation(input, pos).1 < |input|)
            && (r.outcome == Aborted(Unlistable) <==>
                  || search == Failed(Unlistable)
                  || (&& search.Found? && search.path != ""
                      && Guard(search.path, zones, input, pos).0.None?
                      && Listing(nodes, search.path).None?))
  {
    var r := AfterLocate(search, pos, nodes, zones, input, failing);
    if search.Failed? && search.reason != NoInstallFound {
      assert r.outcome == Aborted(search.reason);
    } else if search.Failed? || search.path == "" {
      assert r == Exit(Aborted(NoInstallFound), nodes, input, pos);
    } else {
      var guard := Guard(search.path, zones, input, pos);
      if guard.0.Some? {
        assert r.outcome == Aborted(guard.0.value);
      } else if Listing(nodes, search.path).None? {
        assert r.outcome == Aborted(Unlistable);
      } else {
        var folder := search.path;
        assert r == Cleaning(folder, nodes, input, failing, guard.1);
        var first := OfferRemoval(nodes[folder].children, failing, input, guard.1);
        if first.0.None? {
          var second := OfferRemoval(first.1, failing, input, first.2);
        }
        assert r.outcome == Aborted(EndOfInput) || r.outcome.Completed?;
      }
    }
  }

  /** Why a run stops early, in terms of the locator, the guard and the listing. */
  lemma RunAbortReasons(fs: FileSystem, nodes: map<string, Entry>, zones: seq<Option<string>>,
                        input: seq<string>, failing: set<string>)
    ensures var r := RunSpec(fs, nodes, zones, input, failing);
            var located := Locate(fs, nodes, input, 0);
            && (r.outcome == Aborted(InvalidChoice) <==> located.0 == Failed(InvalidChoice))
            && (r.outcome == Aborted(NoInstallFound) <==>
                  (located.0 == Failed(NoInstallFound) || located.0 == Found("")) && located.1 < |input|)
            && (r.outcome == Aborted(DeclinedRisk) <==>
                  && located.0.Found? && located.0.path != ""
                  && IsProtected(located.0.path, zones)
                  && Confirmation(input, located.1).0 == Some(false)
                  && Confirmation(input, located.1).1 < |input|)
            && (r.outcome == Aborted(Unlistable) <==>
                  || located.0 == Failed(Unlistable)
                  || (&& located.0.Found? && located.0.path != ""
                      && Guard(located.0.path, zones, input, located.1).0.None?
                      && Listing(nodes, located.0.path).None?))
  {
    var located := Locate(fs, nodes, input, 0);
    LocateSound(fs, nodes, input, 0);
    AfterLocateAbortReasons(located.0, located.1, nodes, zones, input, failing);
  }

  /**
   * The entries the two offers leave in the folder, when the run gets through
   * both: the whitelisted ones and those whose deletion failed after a yes to
   * either offer, every entry otherwise.
   */
  lemma CleaningFinalListing(folder: string, nodes: map<string, Entry>, input: seq<string>,
                             failing: set<string>, pos: nat)
    requires pos <= |input| && Listing(nodes, folder).Some?
    ensures var r := Cleaning(folder, nodes, input, failing, pos);
            r.outcome.Completed? ==>
              && Listing(r.nodes, folder).Some?
              && var before := Listing(nodes, folder).value;
                 var firstAnswer := Confirmation(input, pos);
                 var confirmed := before - BASE_GAME_FILES != {}
                                  && (firstAnswer.0 == Some(true) || Confirmation(input, firstAnswer.1).0 == Some(true));
                 Listing(r.nodes, folder).value
                 == (if confirmed then before * (BASE_GAME_FILES + failing) else before)
  {
    var r := Cleaning(folder, nodes, input, failing, pos);
    var children := nodes[folder].children;
    var first := OfferRemoval(children, failing, input, pos);
    if r.outcome.Completed? {
      var second := OfferRemoval(first.1, failing, input, first.2);
      assert r.nodes == nodes[folder := Dir(second.1)];
      var kept := children.Keys * (BASE_GAME_FILES + failing);
      if children.Keys <= BASE_GAME_FILES {
        assert second.1 == children;
      } else if Confirmation(input, pos).0 == Some(true) {
        assert first.1.Keys == kept;
        assert second.1.Keys == kept * (BASE_GAME_FILES + failing);
      } else {
        assert first.1 == children && first.2 == Confirmation(input, pos).1;
      }
    }
  }

  /**
   * What a completed run leaves in the folder: when the user said yes to
   * either offer, the whitelisted entries and those whose deletion failed;
   * otherwise, or when nothing was to be deleted, every entry it had.
   */
  lemma RunFinalListing(fs: FileSystem, nodes: map<string, Entry>, zones: seq<Option<string>>,
                        input: seq<string>, failing: set<string>)
    ensures var r := RunSpec(fs, nodes, zones, input, failing);
            var located := Locate(fs, nodes, input, 0);
            r.outcome.Completed? ==>
              && Listing(nodes, r.outcome.folder).Some?
              && Listing(r.nodes, r.outcome.folder).Some?
              && var before := Listing(nodes, r.outcome.folder).value;
                 var firstAnswer := Confirmation(input, Guard(r.outcome.folder, zones, input, located.1).1);
                 var confirmed := before - BASE_GAME_FILES != {}
                                  && (firstAnswer.0 == Some(true) || Confirmation(input, firstAnswer.1).0 == Some(true));
                 Listing(r.nodes, r.outcome.folder).value
                 == (if confirmed then before * (BASE_GAME_FILES + failing) else before)
  {
    var located := Locate(fs, nodes, input, 0);
    var search := located.0;
    var r := RunSpec(fs, nodes, zones, input, failing);
    AfterLocateCompleted(search, located.1, nodes, zones, input, failing);
    if r.outcome.Completed? {
      var folder := search.path;
      var start := Guard(folder, zones, input, located.1).1;
      assert r == Cleaning(folder, nodes, input, failing, start);
      CleaningFinalListing(folder, nodes, input, failing, start);
    }
  }

  /**
   * `main` after `find_skyrim_vr` returned `search`, with the responses from
   * `pos` on: warn when the folder lies in a protected location, reconcile
   * it against the whitelist, offer to delete the extra entries, enforce the
   * whitelist on a fresh listing, and wait for a key press.
   */
  method AfterLocating(fs: FileSystem, search: Search, pos: nat, zones: seq<Option<string>>,
                       input: seq<string>, failing: set<string>)
    returns (outcome: Outcome, next: nat)
    requires pos <= |input|
    modifies fs
    ensures RunResult(outcome, fs.nodes, next) == AfterLocate(search, pos, old(fs.nodes), zones, input, failing)
  {
    next := pos;
    ghost var spec := AfterLocate(search, pos, fs.nodes, zones, input, failing);
    if search.Failed? && search.reason != NoInstallFound {
      return Aborted(search.reason), next;
    }
    if search.Failed? || search.path == "" {
      // "No SkyrimVR installation found.", then "Press any key to exit...".
      if next == |input| {
        return Aborted(EndOfInput), next;
      }
      return Aborted(NoInstallFound), next + 1;
    }
    var folder := search.path;
    var stopped;
    stopped, next := WarnIfInProtectedFolders(folder, zones, input, next);
    if stopped.Some? {
      return Aborted(stopped.value), next;
    }
    var listing := Listing(fs.nodes, folder);
    if listing.None? {
      // os.listdir raises on a path that is gone or not a folder.
      return Aborted(Unlistable), next;
    }
    assert spec == Cleaning(folder, fs.nodes, input, failing, next);
    ghost var children := fs.nodes[folder].children;
    ghost var first := OfferRemoval(children, failing, input, next);
    assert fs.nodes[folder := Dir(children)] == fs.nodes;
    var reconciliation := VerifyFiles(listing.value);
    assert reconciliation.extra == children.Keys - BASE_GAME_FILES;
    if reconciliation.extra != {} {
      var answer;
      answer, next := GetUserConfirmation(input, next);
      if answer.None? {
        return Aborted(EndOfInput), next;
      }
      if answer.value {
        assert first.1 == children - Deletable(children, reconciliation.extra, failing);
        var _ := fs.RemoveExtraFiles(folder, reconciliation.extra, failing);
      } else {
        assert first.1 == children;
      }
    }
    assert fs.nodes == old(fs.nodes)[folder := Dir(first.1)] && next == first.2;
    ghost var middle := fs.nodes;
    stopped, next := EnforceCleanDirectory(fs, folder, input, next, failing);
    ghost var second := OfferRemoval(first.1, failing, input, first.2);
    assert fs.nodes == middle[folder := Dir(second.1)];
    UpdateTwice(old(fs.nodes), folder, Dir(first.1), Dir(second.1));
    if stopped.Some? {
      return Aborted(stopped.value), next;
    }
    // "Script completed.", then "Press any key to exit...".
    if next == |input| {
      return Aborted(EndOfInput), next;
    }
    return Completed(folder), next + 1;
  }

  /** `main`: locate the install, then clean it as AfterLocating describes. */
  method Run(fs: FileSystem, zones: seq<Option<string>>, input: seq<string>, failing: set<string>)
    returns (outcome: Outcome, next: nat)
    modifies fs
    ensures RunResult(outcome, fs.nodes, next) == RunSpec(fs, old(fs.nodes), zones, input, failing)
  {
    var search;
    search, next := FindSkyrimVr(fs, input, 0);
    outcome, next := AfterLocating(fs, search, next, zones, input, failing);
  }
}
