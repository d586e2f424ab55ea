/**
 * The machine the script runs on, reduced to what it looks at and changes:
 * which drive letters exist, what `os.walk` yields on each drive, and the
 * directory entries reachable by absolute path, which `remove_extra_files`
 * deletes from.
 */
module Files {
  import opened Wrappers

  /** A directory entry: a file, or a folder with its whole subtree. */
  datatype Entry = File | Dir(children: map<string, Entry>)

  /** One step of `os.walk`: a folder, its sub-folder names and its file names. */
  datatype WalkStep = WalkStep(root: string, dirs: seq<string>, files: seq<string>)

  /** What `remove_extra_files` reports for one name: "Deleted" or "Failed to delete". */
  datatype Removal = Deleted | FailedToDelete

  /** The names a listing of `path` returns, or None when listing raises (no such folder). */
  function Listing(nodes: map<string, Entry>, path: string): (r: Option<set<string>>)
    ensures r.Some? <==> path in nodes && nodes[path].Dir?
    ensures r.Some? ==> r.value == nodes[path].children.Keys
  {
    if path in nodes && nodes[path].Dir? then Some(nodes[path].children.Keys) else None
  }

  /**
   * The entries among `names` that a removal pass deletes from `children`:
   * those present whose deletion does not raise.
   */
  function Deletable(children: map<string, Entry>, names: set<string>, failing: set<string>): (d: set<string>)
    ensures d <= names && d <= children.Keys && d !! failing
    ensures forall n :: n in names && n in children && n !in failing ==> n in d
  {
    (names * children.Keys) - failing
  }

  /** Partial failure: when deleting "b" raises, "a" and "c" are still deleted. */
  lemma PartialFailureExample()
    ensures Deletable(map["a" := File, "b" := File, "c" := Dir(map[])], {"a", "b", "c"}, {"b"}) == {"a", "c"}
  {
  }

  class FileSystem {
    /** Drive letters X for which `X:\` exists. */
    const drives: set<char>
    /** The folders `os.walk("X:\")` yields for each drive X, in traversal order. */
    const walks: map<char, seq<WalkStep>>
    /** Every path the script may test or list, keyed by absolute path. */
    var nodes: map<string, Entry>

    constructor (drives: set<char>, walks: map<char, seq<WalkStep>>, nodes: map<string, Entry>)
      ensures this.drives == drives && this.walks == walks && this.nodes == nodes
    {
      this.drives := drives;
      this.walks := walks;
      this.nodes := nodes;
    }

    /** What `os.walk` yields on drive `d`; nothing for an unknown drive. */
    function WalkOf(d: char): seq<WalkStep> {
      if d in walks then walks[d] else []
    }

    /**
     * `remove_extra_files`: deletes each name of `extra` from the folder at
     * `path`, a folder with its whole subtree. A name whose deletion raises
     * (it is in `failing`, or it has vanished, or `path` is not a folder) is
     * reported FailedToDelete and left as it was, and the loop goes on.
     */
    method RemoveExtraFiles(path: string, extra: set<string>, failing: set<string>)
      returns (report: map<string, Removal>)
      modifies this
      ensures nodes.Keys == old(nodes).Keys
      ensures forall p :: p in nodes && p != path ==> nodes[p] == old(nodes)[p]
      ensures Listing(old(nodes), path).None? ==> nodes == old(nodes)
      ensures Listing(old(nodes), path).Some? ==>
                var before := old(nodes)[path].children;
                nodes == old(nodes)[path := Dir(before - Deletable(before, extra, failing))]
      ensures report.Keys == extra
      ensures forall n :: n in extra ==>
                (report[n] == Deleted <==> Listing(old(nodes), path).Some?
                                           && n in old(nodes)[path].children && n !in failing)
    {
      var remaining := extra;
      report := map[];
      while remaining != {}
        invariant remaining <= extra
        invariant report.Keys == extra - remaining
        invariant nodes.Keys == old(nodes).Keys
        invariant forall p :: p in nodes && p != path ==> nodes[p] == old(nodes)[p]
        invariant Listing(old(nodes), path).None? ==> nodes == old(nodes)
        invariant Listing(old(nodes), path).Some? ==>
                    var before := old(nodes)[path].children;
                    nodes[path] == Dir(before - Deletable(before, extra - remaining, failing))
        invariant forall n :: n in report ==>
                    (report[n] == Deleted <==> Listing(old(nodes), path).Some?
                                               && n in old(nodes)[path].children && n !in failing)
        decreases remaining
      {
        var name :| name in remaining;
        var entry := if path in nodes && nodes[path].Dir? && name in nodes[path].children
                     then Some(nodes[path].children[name]) else None;
        if entry.None? || name in failing {
          // os.remove raises on a vanished name; a locked entry raises too.
          report := report[name := FailedToDelete];
        } else {
          // shutil.rmtree on a folder takes its whole subtree; os.remove takes a file.
          nodes := nodes[path := Dir(nodes[path].children - {name})];
          report := report[name := Deleted];
        }
        remaining := remaining - {name};
      }
      if Listing(old(nodes), path).Some? {
        var updated := old(nodes)[path := nodes[path]];
        assert forall p :: p in nodes ==> nodes[p] == updated[p];
        assert nodes.Keys == updated.Keys;
        assert nodes == updated;
        assert extra - remaining == extra;
      }
    }
  }
}
