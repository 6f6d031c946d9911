// Replacing an application's source directory by renames: the upload_source
// route (app/routers/apps.py) and restore_backup
// (app/services/backup_service.py).  Every rename and delete may fail.
module SourceSwap {

  // A directory that a failed copy or delete left incomplete is Partial.
  datatype Slot<T> = Absent | Whole(tree: T) | Partial

  datatype Slots<T> = Slots(source: Slot<T>, staging: Slot<T>, previous: Slot<T>)

  datatype Removal = Gone | Half | Untouched

  function AfterRemoval<T>(slot: Slot<T>, r: Removal): Slot<T> {
    match r
    case Gone => Absent
    case Half => if slot.Absent? then Absent else Partial
    case Untouched => slot
  }

  // Which of the file-system calls succeed: the two renames, the delete of the
  // old tree, then the three clean-up calls.
  datatype Faults = Faults(saved: bool, switched: bool, deleted: Removal, staging: Removal,
                           recovered: bool, leftover: Removal)

  // All states passed through, and whether the call returned normally.
  datatype Trace<T> = Trace(states: seq<Slots<T>>, ok: bool)

  function Last<T>(t: Trace<T>): Slots<T>
    requires t.states != []
  {
    t.states[|t.states| - 1]
  }

  // The two renames and the delete; stops at the first failure.
  function Swap<T>(s: Slots<T>, f: Faults): (t: Trace<T>)
    ensures t.states != []
  {
    if s.source.Absent? then Switch([s], s, f)
    else if !f.saved then Trace([s], false)
    else
      var moved := Slots(Absent, s.staging, s.source);
      Switch([s, moved], moved, f)
  }

  function Switch<T>(before: seq<Slots<T>>, s: Slots<T>, f: Faults): (t: Trace<T>)
    requires before != []
    ensures t.states != []
  {
    if !f.switched then Trace(before, false)
    else
      var switched := Slots(s.staging, Absent, s.previous);
      if s.previous.Absent? then Trace(before + [switched], true)
      else Trace(before + [switched, switched.(previous := AfterRemoval(s.previous, f.deleted))], f.deleted.Gone?)
  }

  // The finally block of upload_source.
  function CleanUp<T>(s: Slots<T>, f: Faults): seq<Slots<T>> {
    var first := s.(staging := AfterRemoval(s.staging, f.staging));
    if s.previous.Absent? then [first]
    else if s.source.Absent? then
      [first, if f.recovered then Slots(s.previous, first.staging, Absent) else first]
    else [first, first.(previous := AfterRemoval(s.previous, f.leftover))]
  }

  // upload_source from the moment `staging` is as given; `ready` tells that all of
  // the new tree is there and no earlier step failed.
  function UploadSwap<T>(s: Slots<T>, ready: bool, f: Faults): (t: Trace<T>)
    ensures t.states != []
  {
    var body := if ready then Swap(s, f) else Trace([s], false);
    Trace(body.states + CleanUp(Last(body), f), body.ok)
  }

  // The except block of restore_backup.
  function Undone<T>(s: Slots<T>, f: Faults): seq<Slots<T>> {
    var first := s.(staging := AfterRemoval(s.staging, f.staging));
    [first,
     if !s.previous.Absent? && s.source.Absent? && f.recovered then Slots(s.previous, first.staging, Absent) else first]
  }

  // restore_backup: the copy into staging is part of it, and clean-up runs only after a failure.
  function RestoreSwap<T>(source: Slot<T>, tree: T, copied: bool, partial: bool, f: Faults): (t: Trace<T>)
    ensures t.states != []
  {
    var start := Slots(source, Absent, Absent);
    var ready := start.(staging := if copied then Whole(tree) else if partial then Partial else Absent);
    var body := if copied then Swap(ready, f) else Trace([ready], false);
    if body.ok then Trace([start] + body.states, true)
    else
      Trace([start] + body.states + Undone(Last(body), f), false)
  }

  // ----- the directories as the services change them -----

  class Directories<T(==)> {
    var source: Slot<T>
    var staging: Slot<T>
    var previous: Slot<T>
    ghost var history: seq<Slots<T>>

    constructor (source: Slot<T>, staging: Slot<T>)
      ensures State() == Slots(source, staging, Absent) && history == []
    {
      this.source, this.staging, this.previous, history := source, staging, Absent, [];
    }

    function State(): Slots<T>
      reads this
    {
      Slots(source, staging, previous)
    }

    ghost method Record()
      modifies this`history
      ensures history == old(history) + [State()]
    {
      history := history + [State()];
    }

    // The two renames and the delete; `f` tells what the system does with each call.
    method SwapIn(f: Faults) returns (ok: bool)
      modifies this
      ensures history == old(history) + Swap(old(State()), f).states && ok == Swap(old(State()), f).ok
      ensures State() == Last(Swap(old(State()), f))
    {
      Record();
      if !source.Absent? {
        if !f.saved {
          return false;
        }
        source, previous := Absent, source;
        Record();
      }
      if !f.switched {
        return false;
      }
      source, staging := staging, Absent;
      Record();
      ok := true;
      if !previous.Absent? {
        previous := AfterRemoval(previous, f.deleted);
        Record();
        ok := f.deleted.Gone?;
      }
    }

    // The clean-up calls.
    method Finish(f: Faults)
      modifies this
      ensures history == old(history) + CleanUp(old(State()), f)
      ensures State() == history[|history| - 1]
    {
      staging := AfterRemoval(staging, f.staging);
      Record();
      if !previous.Absent? && source.Absent? {
        if f.recovered {
          source, previous := previous, Absent;
        }
        Record();
      } else if !previous.Absent? {
        previous := AfterRemoval(previous, f.leftover);
        Record();
      }
    }

    /** The swap of upload_source with its finally block. */
    method ReplaceSource(ready: bool, f: Faults) returns (ok: bool)
      modifies this
      ensures history == old(history) + UploadSwap(old(State()), ready, f).states
      ensures ok == UploadSwap(old(State()), ready, f).ok
      ensures State() == Last(UploadSwap(old(State()), ready, f))
    {
      hide CleanUp, Swap;
      ok := false;
      if ready {
        ok := SwapIn(f);
      } else {
        Record();
      }
      Finish(f);
    }

    // The except block of restore_backup: unlike Finish it never deletes the old tree.
    method Undo(f: Faults)
      modifies this
      ensures history == old(history) + Undone(old(State()), f)
      ensures State() == history[|history| - 1]
    {
      staging := AfterRemoval(staging, f.staging);
      Record();
      if !previous.Absent? && source.Absent? && f.recovered {
        source, previous := previous, Absent;
      }
      Record();
    }

    /** The copy and swap of restore_backup with its except block. */
    method RestoreSource(tree: T, copied: bool, partial: bool, f: Faults) returns (ok: bool)
      requires staging == Absent && previous == Absent
      modifies this
      ensures history == old(history) + RestoreSwap(old(source), tree, copied, partial, f).states
      ensures ok == RestoreSwap(old(source), tree, copied, partial, f).ok
      ensures State() == Last(RestoreSwap(old(source), tree, copied, partial, f))
    {
      hide Undone, Swap;
      Record();
      staging := if copied then Whole(tree) else if partial then Partial else Absent;
      ok := false;
      if copied {
        ok := SwapIn(f);
      } else {
        Record();
      }
      if !ok {
        Undo(f);
      }
    }
  }

  // ----- what the swap guarantees -----

  // The source directory is never incomplete, and while it is missing the old tree is whole in `old`.
  ghost predicate Safe<T>(s: Slots<T>, before: Slot<T>, tree: T) {
    && (s.source == before || s.source == Whole(tree) || s.source.Absent?)
    && (s.source.Absent? && before.Whole? ==> s.previous == before)
  }

  // How a swap that started from `before` may end.
  ghost predicate Outcome<T>(t: Trace<T>, before: Slot<T>, tree: T, switched: bool, f: Faults)
    requires t.states != []
  {
    && (t.ok ==> Last(t) == Slots(Whole(tree), Absent, Absent))
    && (t.ok <==> switched && (before.Absent? || f.deleted.Gone?))
    && (switched ==> Last(t).source == Whole(tree))
    && (!switched && f.recovered ==> Last(t).source == before && Last(t).previous.Absent?)
    && (!switched && !f.recovered ==>
      Last(t).source == before || (Last(t).source.Absent? && Last(t).previous == before))
  }

  /** Every state an upload passes through holds a complete old or a complete new tree.  A normal return
      leaves exactly the new tree; before the second rename the old tree is left, given that the recovery
      rename works; after the second rename the new tree is live. */
  lemma UploadSafe<T>(before: Slot<T>, staging: Slot<T>, tree: T, ready: bool, f: Faults)
    requires !before.Partial? && (ready ==> staging == Whole(tree))
    ensures forall s :: s in UploadSwap(Slots(before, staging, Absent), ready, f).states ==> Safe(s, before, tree)
    ensures Outcome(UploadSwap(Slots(before, staging, Absent), ready, f), before, tree,
                    ready && (before.Absent? || f.saved) && f.switched, f)
  {
    var start := Slots(before, staging, Absent);
    var body := if ready then Swap(start, f) else Trace([start], false);
    assert forall s :: s in body.states ==> Safe(s, before, tree);
    assert forall s :: s in CleanUp(Last(body), f) ==> Safe(s, before, tree);
  }

  /** The same for a restore, whose copy into the staging directory may fail half-way. */
  lemma RestoreSafe<T>(before: Slot<T>, tree: T, copied: bool, partial: bool, f: Faults)
    requires !before.Partial?
    ensures forall s :: s in RestoreSwap(before, tree, copied, partial, f).states ==> Safe(s, before, tree)
    ensures Outcome(RestoreSwap(before, tree, copied, partial, f), before, tree,
                    copied && (before.Absent? || f.saved) && f.switched, f)
  {
    var ready := Slots(before, if copied then Whole(tree) else if partial then Partial else Absent, Absent);
    var body := if copied then Swap(ready, f) else Trace([ready], false);
    assert forall s :: s in body.states ==> Safe(s, before, tree);
    assert forall s :: s in Undone(Last(body), f) ==> Safe(s, before, tree);
  }

  // ----- whether a failing call keeps the former version -----

  /** A failing upload keeps the former version exactly when the new tree was not ready, the first rename failed, or
      the second failed and the old tree, if there was one, could be moved back (or both versions are the same). */
  lemma UploadKeepsFormer<T>(before: Slot<T>, staging: Slot<T>, tree: T, ready: bool, f: Faults)
    requires !before.Partial? && (ready ==> staging == Whole(tree))
    ensures var t := UploadSwap(Slots(before, staging, Absent), ready, f);
      !t.ok ==> (Last(t).source == before <==>
        !ready || (!before.Absent? && !f.saved) || (!f.switched && (before.Absent? || f.recovered))
        || (f.switched && before == Whole(tree)))
  {}

  /** The same for a restore. */
  lemma RestoreKeepsFormer<T>(before: Slot<T>, tree: T, copied: bool, partial: bool, f: Faults)
    requires !before.Partial?
    ensures var t := RestoreSwap(before, tree, copied, partial, f);
      !t.ok ==> (Last(t).source == before <==>
        !copied || (!before.Absent? && !f.saved) || (!f.switched && (before.Absent? || f.recovered))
        || (f.switched && before == Whole(tree)))
  {}

  /** When the delete of the old tree stops half-way, both calls fail with the new tree live and the old one lost. */
  lemma FailureKeepsNew<T>(former: T, tree: T)
    ensures var f := Faults(true, true, Half, Gone, true, Gone);
      var upload := UploadSwap(Slots(Whole(former), Whole(tree), Absent), true, f);
      var restore := RestoreSwap(Whole(former), tree, true, false, f);
      && !upload.ok && Last(upload) == Slots(Whole(tree), Absent, Absent)
      && !restore.ok && Last(restore) == Slots(Whole(tree), Absent, Partial)
  {}

  /** When both the second rename and the move back fail, no version is live; the old one is whole beside. */
  lemma FailureKeepsNone<T>(former: T, tree: T)
    ensures var f := Faults(true, false, Gone, Gone, false, Gone);
      var upload := UploadSwap(Slots(Whole(former), Whole(tree), Absent), true, f);
      !upload.ok && Last(upload) == Slots(Absent, Absent, Whole(former))
  {}

  /** When the clean-up calls work, an upload leaves no staging directory, and the old tree beside only while no version
      is live; a restore leaves no staging directory. */
  lemma CleanedUp<T>(before: Slot<T>, staging: Slot<T>, tree: T, ready: bool, copied: bool, partial: bool, f: Faults)
    requires !before.Partial? && f.staging.Gone? && f.leftover.Gone?
    ensures var upload := UploadSwap(Slots(before, staging, Absent), ready, f);
      Last(upload).staging.Absent? && (Last(upload).previous.Absent? || Last(upload).source.Absent?)
    ensures Last(RestoreSwap(before, tree, copied, partial, f)).staging.Absent?
  {}

  /** When each call returns normally. */
  lemma SwapSucceeds<T>(before: Slot<T>, staging: Slot<T>, tree: T, ready: bool, copied: bool, partial: bool, f: Faults)
    ensures var done := (before.Absent? || (f.saved && f.deleted.Gone?)) && f.switched;
      && (UploadSwap(Slots(before, staging, Absent), ready, f).ok <==> ready && done)
      && (RestoreSwap(before, tree, copied, partial, f).ok <==> copied && done)
  {}
}
