// The whole of upload_source (app/routers/apps.py): extract, flatten, count,
// and swap the new tree in.
module Upload {
  import opened Results
  import opened Trees
  import opened SourceSwap
  import opened Archives

  lemma ParentOf(p: Path, q: Path)
    requires |q| > 1 && q <= p
    ensures q[..|q| - 1] != [] && q[..|q| - 1] < p
  {
    assert q[..|q| - 1] == p[..|q| - 1];
  }

  lemma PutWellFormed(t: Tree, e: Entry)
    requires WellFormed(t) && Put(t, e).Some?
    ensures WellFormed(Put(t, e).value)
  {
    hide Added;
    if e.path != [] {
      var after := Added(t, e);
      AddedEntry(t, e, []);
      forall p | p in after && |p| > 1 ensures p[..|p| - 1] in after && after[p[..|p| - 1]].Dir? {
        var parent := p[..|p| - 1];
        AddedEntry(t, e, p);
        AddedEntry(t, e, parent);
        if p <= e.path {
          ParentOf(e.path, p);
        } else {
          assert p in t && parent in t && t[parent].Dir?;
          if parent == e.path { assert e.path in t && t[e.path].Dir?; }
        }
      }
    }
  }

  /** Extracting into a well-formed tree gives a well-formed tree, whatever the members were. */
  lemma {:induction false} PutOverWellFormed(start: Tree, es: seq<Entry>)
    requires WellFormed(start) && PutOver(start, es).Some?
    ensures WellFormed(PutOver(start, es).value)
  {
    hide Put, WellFormed;
    if es != [] {
      PutOverWellFormed(start, es[..|es| - 1]);
      PutWellFormed(PutOver(start, es[..|es| - 1]).value, es[|es| - 1]);
    }
  }

  lemma ExtractedWellFormed(es: seq<Entry>)
    requires PutAll(es).Some?
    ensures WellFormed(PutAll(es).value)
  {
    hide WellFormed;
    assert WellFormed(map[]) by { EmptyWellFormed(); }
    PutOverWellFormed(map[], es);
  }

  lemma EmptyWellFormed()
    ensures WellFormed(map[])
  {}

  // The tree an accepted archive becomes: without its single top-level directory, if it has one.
  ghost function Flattened(t: Tree): Tree {
    if n :| SingleTop(t, n) then Nested(t, n) else t
  }

  lemma FlattenedIs(t: Tree, n: string)
    requires SingleTop(t, n)
    ensures Flattened(t) == Nested(t, n)
  {
    assert forall m :: SingleTop(t, m) ==> [m] == [n] && m == [m][0] == [n][0];
  }

  // All that upload_source asks of an archive.
  ghost predicate Acceptable(members: seq<Member>, destination: Path, free: nat) {
    && WithinLimits(members, free) && AllInside(destination, members)
    && PutAll(EntriesOf(members)).Some?
    && (var t := PutAll(EntriesOf(members)).value;
        TreeStats(t).files > 0 && forall n :: SingleTop(t, n) ==> n !in Children(t, n))
  }

  ghost function NewTree(members: seq<Member>): Tree {
    match PutAll(EntriesOf(members))
    case Some(t) => Flattened(t)
    case None => map[]
  }

  /** Flattening neither loses nor gains a file or a byte. */
  lemma FlattenedConserves(t: Tree)
    requires WellFormed(t)
    ensures TreeStats(Flattened(t)) == TreeStats(t)
  {
    hide TreeStats;
    if n :| SingleTop(t, n) {
      FlattenedIs(t, n);
      SingleTopConserves(t, n);
    }
  }

  // The system lets the renames through that flattening needs, and the removal of the emptied directory.
  ghost predicate Movable(t: Tree, failing: set<string>, emptied: bool) {
    forall n :: SingleTop(t, n) ==> Children(t, n) !! failing && emptied
  }

  ghost predicate Unpacks(members: seq<Member>, destination: Path, free: nat, failing: set<string>, emptied: bool) {
    Acceptable(members, destination, free) && Movable(PutAll(EntriesOf(members)).value, failing, emptied)
  }

  // Unpack and flatten.
  method Prepare(members: seq<Member>, destination: Path, free: nat, failing: set<string>, emptied: bool)
    returns (tree: Option<Tree>, stats: Stats)
    ensures tree.Some? <==> Unpacks(members, destination, free, failing, emptied)
    ensures tree.Some? ==> tree.value == NewTree(members) && stats == TreeStats(NewTree(members))
  {
    hide WithinLimits, AllInside, EntriesOf, PutOver, TreeStats, Nested, SingleTop, Children;
    stats := Stats(0, 0);
    var extraction := new Extraction();
    var error := extraction.ExtractZip(members, destination, free);
    if error.Some? {
      return None, stats;
    }
    ghost var extracted := extraction.tree;
    ExtractedWellFormed(EntriesOf(members));
    FlattenedConserves(extracted);
    var staging := new Staging(extraction.tree);
    var ok := staging.Flatten(failing, emptied);
    if !ok {
      return None, stats;
    }
    assert staging.tree == Flattened(extracted) by {
      if n :| SingleTop(extracted, n) { FlattenedIs(extracted, n); }
    }
    stats := DirectoryStats(staging.tree);
    if stats.files == 0 {
      return None, stats;
    }
    tree := Some(staging.tree);
  }

  /** upload_source.  It returns normally exactly when the archive is acceptable and the calls it needs work, and then
      leaves exactly the flattened archive, with its file count and size; otherwise an archive that is not acceptable
      leaves the present source; every state in between is safe. */
  method UploadSource(members: seq<Member>, destination: Path, free: nat, failing: set<string>, emptied: bool,
                      f: Faults, dirs: Directories<Tree>)
    returns (ok: bool, stats: Stats)
    requires dirs.staging == Absent && dirs.previous == Absent && !dirs.source.Partial? && dirs.history == []
    modifies dirs
    ensures ok ==> dirs.State() == Slots(Whole(NewTree(members)), Absent, Absent)
    ensures ok <==>
      && Unpacks(members, destination, free, failing, emptied)
      && (old(dirs.source).Absent? || (f.saved && f.deleted.Gone?)) && f.switched
    ensures ok ==> stats == TreeStats(NewTree(members)) && stats.files > 0
    ensures !Unpacks(members, destination, free, failing, emptied) ==>
      !ok && dirs.source == old(dirs.source) && dirs.previous == Absent
    ensures !ok && f.recovered ==> dirs.source == old(dirs.source) || dirs.source == Whole(NewTree(members))
    ensures forall s :: s in dirs.history ==> Safe(s, old(dirs.source), NewTree(members))
  {
    hide Acceptable, Movable, NewTree, TreeStats, UploadSwap;
    ghost var before := dirs.source;
    var tree;
    tree, stats := Prepare(members, destination, free, failing, emptied);
    if tree.Some? {
      AcceptedFiles(members, destination, free);
      dirs.staging := Whole(tree.value);
    } else {
      dirs.staging := Partial;
    }
    ghost var staging := dirs.staging;
    ok := dirs.ReplaceSource(tree.Some?, f);
    UploadSafe(before, staging, NewTree(members), tree.Some?, f);
    NotReady(before, staging, f);
    SwapSucceeds(before, staging, NewTree(members), tree.Some?, true, false, f);
  }

  lemma AcceptedFiles(members: seq<Member>, destination: Path, free: nat)
    requires Acceptable(members, destination, free)
    ensures TreeStats(NewTree(members)).files > 0
  {
    hide TreeStats;
    var t := PutAll(EntriesOf(members)).value;
    ExtractedWellFormed(EntriesOf(members));
    FlattenedConserves(t);
  }

  lemma NotReady<T>(before: Slot<T>, staging: Slot<T>, f: Faults)
    ensures var t := UploadSwap(Slots(before, staging, Absent), false, f);
      !t.ok && Last(t).source == before && Last(t).previous == Absent
  {}
}
