// Backup rows and backup files: creation, deletion and retention
// (app/services/backup_service.py, app/routers/backups.py).
module Backups {

  datatype BackupStatus = Creating | Completed | Failed

  // backup_dir/name/name-stamp.tar.gz; the stamp has a resolution of one second.
  datatype FileName = FileName(name: string, stamp: nat)

  datatype Backup = Backup(app: nat, path: FileName, status: BackupStatus, created: nat)

  type Rows = map<nat, Backup>

  // ----- retention -----

  function Kept(rows: Rows, app: nat): set<nat> {
    set id | id in rows && rows[id].app == app && rows[id].status.Completed?
  }

  function Newer(rows: Rows, app: nat, id: nat): set<nat>
    requires id in rows
  {
    set j | j in Kept(rows, app) && rows[j].created > rows[id].created
  }

  // No two completed backups of the application share a creation time.
  ghost predicate DistinctTimes(rows: Rows, app: nat) {
    forall i, j :: i in Kept(rows, app) && j in Kept(rows, app) && i != j ==> rows[i].created != rows[j].created
  }

  // The rows that fewer than `retention` newer completed backups of the same application outrank.
  function Retained(rows: Rows, app: nat, retention: nat): Rows {
    map id | id in rows && !(id in Kept(rows, app) && |Newer(rows, app, id)| >= retention) :: rows[id]
  }

  function Paths(rows: Rows, ids: set<nat>): set<FileName>
    requires ids <= rows.Keys
  {
    set id | id in ids :: rows[id].path
  }

  // Newest first, each id once.
  ghost predicate NewestFirst(s: seq<nat>, ids: set<nat>, rows: Rows)
    requires ids <= rows.Keys
  {
    && (forall i :: 0 <= i < |s| ==> s[i] in ids)
    && (forall id :: id in ids ==> id in s)
    && (forall i, j :: 0 <= i < j < |s| ==> s[i] in rows && s[j] in rows && rows[s[i]].created > rows[s[j]].created)
  }

  lemma {:induction false} PrefixSize(s: seq<nat>, k: nat)
    requires k <= |s| && forall i, j :: 0 <= i < j < |s| ==> s[i] != s[j]
    ensures |set i | 0 <= i < k :: s[i]| == k
  {
    var now := set i | 0 <= i < k :: s[i];
    if k > 0 {
      var before := set i | 0 <= i < k - 1 :: s[i];
      PrefixSize(s, k - 1);
      assert now == before + {s[k - 1]};
    }
  }

  /** In the sorted query result, position k has exactly k newer backups. */
  lemma RankIsPosition(s: seq<nat>, rows: Rows, app: nat, k: nat)
    requires NewestFirst(s, Kept(rows, app), rows) && k < |s|
    ensures s[k] in rows && |Newer(rows, app, s[k])| == k
  {
    var newer := Newer(rows, app, s[k]);
    var front := set i | 0 <= i < k :: s[i];
    forall i, j | 0 <= i < j < |s| ensures s[i] != s[j] {
      assert rows[s[i]].created > rows[s[j]].created;
    }
    PrefixSize(s, k);
    assert forall m :: k < m < |s| ==> rows[s[k]].created > rows[s[m]].created;
    forall id ensures id in newer <==> id in front {
      if id in newer {
        var i :| 0 <= i < |s| && s[i] == id;
      }
    }
    assert newer == front;
  }

  class BackupStore {
    var rows: Rows
    var files: set<FileName>
    ghost var pending: map<nat, FileName>

    ghost function State(): World
      reads this
    {
      World(rows, files, pending)
    }

    /** The first half of create_backup: the row, committed before the archive is written. */
    method BeginBackup(id: nat, app: nat, name: string, stamp: nat, created: nat)
      requires id !in rows && id !in pending
      modifies this
      ensures State() == Next(old(State()), Begin(id, app, name, stamp, created))
    {
      var file := FileName(name, stamp);
      rows := rows[id := Backup(app, file, Creating, created)];
      pending := pending[id := file];
    }

    /** The second half: the archive is kept and the row completed, or the archive is removed and the row failed. */
    method FinishBackup(id: nat, file: FileName, ok: bool)
      requires id in pending && pending[id] == file
      modifies this
      ensures State() == Next(old(State()), Finish(id, ok))
    {
      files := files + {file};
      if !ok {
        files := files - {file};
      }
      if id in rows {
        rows := rows[id := rows[id].(status := if ok then Completed else Failed)];
      }
      pending := pending - {id};
    }

    /** The delete_backup route. */
    method DeleteOne(id: nat)
      modifies this
      ensures State() == Next(old(State()), DeleteBackup(id))
    {
      if id in rows {
        files := files - {rows[id].path};
        rows := rows - {id};
      }
    }

    // The query of enforce_retention: completed backups of one application, newest first.
    method CompletedNewestFirst(app: nat) returns (s: seq<nat>)
      requires DistinctTimes(rows, app)
      ensures NewestFirst(s, Kept(rows, app), rows)
    {
      s := [];
      var ids := Kept(rows, app);
      var rest := ids;
      while rest != {}
        invariant rest <= ids == Kept(rows, app) <= rows.Keys
        invariant NewestFirst(s, ids - rest, rows)
        invariant forall i, id :: 0 <= i < |s| && id in rest ==> rows[s[i]].created > rows[id].created
      {
        var newest :| newest in rest;
        var todo := rest - {newest};
        while todo != {}
          invariant newest in rest && todo <= rest
          invariant forall id :: id in rest && id !in todo ==> rows[id].created <= rows[newest].created
        {
          var id :| id in todo;
          if rows[id].created > rows[newest].created {
            newest := id;
          }
          todo := todo - {id};
        }
        s := s + [newest];
        rest := rest - {newest};
      }
      assert ids - rest == ids;
    }

    // Remove records[start..], file and row, one after the other.
    method DeleteFrom(records: seq<nat>, start: nat) returns (ghost gone: set<nat>)
      requires start <= |records| && forall i :: 0 <= i < |records| ==> records[i] in rows
      requires forall i, j :: 0 <= i < j < |records| ==> records[i] != records[j]
      modifies this`rows, this`files
      ensures gone == (set k | start <= k < |records| :: records[k]) && gone <= old(rows).Keys
      ensures rows == old(rows) - gone && files == old(files) - Paths(old(rows), gone)
    {
      ghost var before := rows;
      gone := {};
      var i := start;
      while i < |records|
        invariant start <= i <= |records|
        invariant gone == (set k | start <= k < i :: records[k]) && gone <= before.Keys
        invariant rows == before - gone && files == old(files) - Paths(before, gone)
      {
        var id := records[i];
        assert Paths(before, gone + {id}) == Paths(before, gone) + {before[id].path};
        files := files - {rows[id].path};
        rows := rows - {id};
        gone := gone + {id};
        i := i + 1;
      }
    }

    /** enforce_retention: everything past the first `retention` query results goes, file and row. */
    method EnforceRetention(app: nat, retention: nat)
      requires DistinctTimes(rows, app)
      modifies this`rows, this`files
      ensures State() == Next(old(State()), Retain(app, retention))
      ensures rows == Retained(old(rows), app, retention)
      ensures files == old(files) - Paths(old(rows), old(rows).Keys - rows.Keys)
    {
      var records := CompletedNewestFirst(app);
      ghost var before := rows;
      SortedDistinct(records, Kept(rows, app), rows);
      var start := if retention < |records| then retention else |records|;
      ghost var gone := DeleteFrom(records, start);
      OutrankedAreLast(records, before, app, retention, gone);
      assert before.Keys - rows.Keys == gone;
    }
  }

  lemma SortedDistinct(s: seq<nat>, ids: set<nat>, rows: Rows)
    requires ids <= rows.Keys && NewestFirst(s, ids, rows)
    ensures forall i, j :: 0 <= i < j < |s| ==> s[i] != s[j]
    ensures forall i :: 0 <= i < |s| ==> s[i] in rows
  {
    forall i, j | 0 <= i < j < |s| ensures s[i] != s[j] {
      assert rows[s[i]].created > rows[s[j]].created;
    }
  }

  // The query results from `retention` on are those that a retention pass drops.
  lemma OutrankedAreLast(s: seq<nat>, rows: Rows, app: nat, retention: nat, gone: set<nat>)
    requires NewestFirst(s, Kept(rows, app), rows)
    requires gone == set k | (if retention < |s| then retention else |s|) <= k < |s| :: s[k]
    ensures Retained(rows, app, retention) == rows - gone
  {
    hide Newer;
    forall id ensures id in gone <==> id in Kept(rows, app) && |Newer(rows, app, id)| >= retention {
      if id in Kept(rows, app) {
        var k :| 0 <= k < |s| && s[k] == id;
        RankIsPosition(s, rows, app, k);
      }
      if id in gone {
        var k :| retention <= k < |s| && s[k] == id;
        RankIsPosition(s, rows, app, k);
      }
    }
  }

  lemma {:induction false} SortedExists(rows: Rows, ids: set<nat>) returns (s: seq<nat>)
    requires ids <= rows.Keys && forall i, j :: i in ids && j in ids && i != j ==> rows[i].created != rows[j].created
    ensures NewestFirst(s, ids, rows) && |s| == |ids|
    decreases |ids|
  {
    if ids == {} {
      s := [];
    } else {
      var newest := Latest(rows, ids);
      var rest := SortedExists(rows, ids - {newest});
      s := [newest] + rest;
      forall id | id in ids ensures id in s {
        if id != newest { assert id in rest; }
      }
    }
  }

  lemma {:induction false} Latest(rows: Rows, ids: set<nat>) returns (id: nat)
    requires ids != {} && ids <= rows.Keys
    ensures id in ids && forall j :: j in ids ==> rows[j].created <= rows[id].created
    decreases |ids|
  {
    id :| id in ids;
    if ids != {id} {
      var other := Latest(rows, ids - {id});
      if rows[other].created > rows[id].created { id := other; }
    }
  }

  // A pass keeps the first n query results.
  lemma KeptAreFirst(s: seq<nat>, rows: Rows, app: nat, retention: nat, n: nat)
    requires NewestFirst(s, Kept(rows, app), rows) && n == if retention < |s| then retention else |s|
    ensures Kept(Retained(rows, app, retention), app) == (set k | 0 <= k < n :: s[k])
  {
    hide Newer;
    var after := Retained(rows, app, retention);
    SortedDistinct(s, Kept(rows, app), rows);
    forall id ensures id in Kept(after, app) <==> exists k :: 0 <= k < n && s[k] == id {
      if id in Kept(rows, app) {
        var k :| 0 <= k < |s| && s[k] == id;
        RankIsPosition(s, rows, app, k);
      }
    }
  }

  /** After a pass the application keeps its newest `retention` completed backups, or all when there are fewer;
      every kept one is newer than every removed one, and no other row is touched. */
  lemma RetentionKeepsNewest(rows: Rows, app: nat, retention: nat)
    requires DistinctTimes(rows, app)
    ensures var after := Retained(rows, app, retention);
      && |Kept(after, app)| == (if retention < |Kept(rows, app)| then retention else |Kept(rows, app)|)
      && (forall i, j :: i in Kept(after, app) && j in Kept(rows, app) && j !in after ==>
          rows[i].created > rows[j].created)
      && (forall id :: id in rows && id !in Kept(rows, app) ==> id in after && after[id] == rows[id])
      && (forall id :: id in after ==> id in rows && after[id] == rows[id])
  {
    hide Newer;
    var ids := Kept(rows, app);
    var after := Retained(rows, app, retention);
    var s := SortedExists(rows, ids);
    var n := if retention < |s| then retention else |s|;
    SortedDistinct(s, ids, rows);
    PrefixSize(s, n);
    KeptAreFirst(s, rows, app, retention, n);
    assert forall k :: 0 <= k < n ==> s[k] in Kept(after, app);
    forall i, j | i in Kept(after, app) && j in ids && j !in after ensures rows[i].created > rows[j].created {
      var k :| 0 <= k < n && s[k] == i;
      var m :| 0 <= m < |s| && s[m] == j;
    }
  }

  // ----- rows and files over whole runs -----

  // `pending` are the running create_backup calls with their files.
  datatype World = World(rows: Rows, files: set<FileName>, pending: map<nat, FileName>)

  datatype Step =
    | Begin(id: nat, app: nat, name: string, stamp: nat, created: nat)
    | Finish(id: nat, ok: bool)
    | DeleteBackup(id: nat)
    | Retain(app: nat, retention: nat)
    | DeleteApp(app: nat)
    | PanelRestart

  // The id of a row, or of a row whose call still runs, is not given out again.
  function Next(world: World, step: Step): World {
    match step
    case Begin(id, app, name, stamp, created) =>
      if id in world.rows || id in world.pending then world
      else
        var file := FileName(name, stamp);
        world.(rows := world.rows[id := Backup(app, file, Creating, created)], pending := world.pending[id := file])
    case Finish(id, ok) =>
      if id !in world.pending then world
      else
        var file := world.pending[id];
        World(
          if id !in world.rows then world.rows
          else world.rows[id := world.rows[id].(status := if ok then Completed else Failed)],
          if ok then world.files + {file} else world.files - {file},
          world.pending - {id})
    case DeleteBackup(id) =>
      if id !in world.rows then world
      else world.(rows := world.rows - {id}, files := world.files - {world.rows[id].path})
    case Retain(app, retention) =>
      var after := Retained(world.rows, app, retention);
      world.(rows := after, files := world.files - Paths(world.rows, world.rows.Keys - after.Keys))
    case DeleteApp(app) => world.(rows := map id | id in world.rows && world.rows[id].app != app :: world.rows[id])
    case PanelRestart => world.(pending := map[])
  }

  // A new backup's name is new: distinct seconds for one application, distinct names for two.
  ghost predicate Admissible(world: World, step: Step) {
    step.Begin? ==>
      && (forall id :: id in world.rows ==> world.rows[id].path != FileName(step.name, step.stamp))
      && (forall id :: id in world.pending ==> world.pending[id] != FileName(step.name, step.stamp))
  }

  // A running call and its row name the same file, and the row is in creation.
  ghost predicate Tracked(world: World) {
    forall id :: id in world.rows && id in world.pending ==>
      world.rows[id].path == world.pending[id] && world.rows[id].status.Creating?
  }

  ghost predicate DistinctNames(world: World) {
    && (forall i, j :: i in world.rows && j in world.rows && i != j ==> world.rows[i].path != world.rows[j].path)
    && (forall i, j :: i in world.rows && j in world.pending && i != j ==> world.rows[i].path != world.pending[j])
    && (forall i, j :: i in world.pending && j in world.pending && i != j ==> world.pending[i] != world.pending[j])
  }

  ghost predicate Good(world: World) { Tracked(world) && DistinctNames(world) && Agree(world) }

  ghost predicate Agree(world: World) {
    && (forall id :: id in world.rows && world.rows[id].status.Completed? ==> world.rows[id].path in world.files)
    && (forall id :: id in world.rows && world.rows[id].status.Failed? ==> world.rows[id].path !in world.files)
  }

  // ----- which steps keep rows and files in agreement -----

  // The step takes no file from a completed row and gives none to a failed one.
  ghost predicate Harmless(world: World, step: Step) {
    match step
    case Finish(id, ok) => id in world.pending ==> FinishHarmless(world, id, ok)
    case DeleteBackup(id) => id in world.rows ==>
      forall other :: other in world.rows && other != id && world.rows[other].status.Completed? ==>
        world.rows[other].path != world.rows[id].path
    case Retain(app, retention) =>
      var after := Retained(world.rows, app, retention);
      forall kept, gone :: kept in after && after[kept].status.Completed? && gone in world.rows && gone !in after ==>
        after[kept].path != world.rows[gone].path
    case _ => true
  }

  ghost predicate FinishHarmless(world: World, id: nat, ok: bool)
    requires id in world.pending
  {
    forall other :: other in world.rows && other != id && world.rows[other].path == world.pending[id] ==>
      if ok then !world.rows[other].status.Failed? else !world.rows[other].status.Completed?
  }

  lemma FinishAgrees(world: World, id: nat, ok: bool)
    requires Tracked(world) && Agree(world) && id in world.pending
    ensures Tracked(Next(world, Finish(id, ok)))
    ensures Agree(Next(world, Finish(id, ok))) <==> FinishHarmless(world, id, ok)
  {
    var after := Next(world, Finish(id, ok));
    assert after.rows.Keys == world.rows.Keys;
    forall other | other in world.rows && other != id ensures after.rows[other] == world.rows[other] {}
  }

  lemma DeleteAgrees(world: World, id: nat)
    requires Tracked(world) && Agree(world)
    ensures Tracked(Next(world, DeleteBackup(id)))
    ensures Agree(Next(world, DeleteBackup(id))) <==> Harmless(world, DeleteBackup(id))
  {
    if id in world.rows {
      var after := Next(world, DeleteBackup(id));
      forall other | other in world.rows && other != id
        ensures other in after.rows && after.rows[other] == world.rows[other]
      {}
    }
  }

  lemma RetainAgrees(world: World, app: nat, retention: nat)
    requires Tracked(world) && Agree(world)
    ensures Tracked(Next(world, Retain(app, retention)))
    ensures Agree(Next(world, Retain(app, retention))) <==> Harmless(world, Retain(app, retention))
  {
    hide Kept, Newer;
  }

  /** From any state in agreement, with whatever file names: a step keeps the agreement iff it is harmless. */
  lemma StepAgrees(world: World, step: Step)
    requires Tracked(world) && Agree(world)
    ensures Tracked(Next(world, step))
    ensures Agree(Next(world, step)) <==> Harmless(world, step)
  {
    match step {
      case Finish(id, ok) => if id in world.pending { FinishAgrees(world, id, ok); }
      case DeleteBackup(id) => DeleteAgrees(world, id);
      case Retain(app, retention) => RetainAgrees(world, app, retention);
      case _ =>
    }
  }

  // ----- runs with distinct file names -----

  lemma NamesStayDistinct(world: World, step: Step)
    requires Good(world) && Admissible(world, step)
    ensures DistinctNames(Next(world, step))
  {
    hide Kept, Newer, Agree;
  }

  lemma DistinctIsHarmless(world: World, step: Step)
    requires DistinctNames(world)
    ensures Harmless(world, step)
  {
    hide Kept, Newer;
  }

  /** Every step keeps rows and files in agreement when new names are new. */
  lemma StepGood(world: World, step: Step)
    requires Good(world) && Admissible(world, step)
    ensures Good(Next(world, step))
  {
    hide Admissible, Next, Tracked, DistinctNames, Agree, Harmless;
    StepAgrees(world, step);
    DistinctIsHarmless(world, step);
    NamesStayDistinct(world, step);
  }

  function Run(world: World, steps: seq<Step>): World
    decreases |steps|
  {
    if steps == [] then world else Run(Next(world, steps[0]), steps[1..])
  }

  ghost predicate AdmissibleRun(world: World, steps: seq<Step>)
    decreases |steps|
  {
    steps != [] ==> Admissible(world, steps[0]) && AdmissibleRun(Next(world, steps[0]), steps[1..])
  }

  const EMPTY: World := World(map[], {}, map[])

  lemma {:induction false} RunGood(world: World, steps: seq<Step>)
    requires Good(world) && AdmissibleRun(world, steps)
    ensures Good(Run(world, steps))
    decreases |steps|
  {
    hide Good, Next, Admissible;
    if steps != [] {
      StepGood(world, steps[0]);
      RunGood(Next(world, steps[0]), steps[1..]);
    }
  }

  /** Over every run: a completed row has its file, a failed one has none, and no two rows share a path. */
  lemma RowsMatchFiles(steps: seq<Step>)
    requires AdmissibleRun(EMPTY, steps)
    ensures var world := Run(EMPTY, steps);
      && (forall id :: id in world.rows && world.rows[id].status.Completed? ==> world.rows[id].path in world.files)
      && (forall id :: id in world.rows && world.rows[id].status.Failed? ==> world.rows[id].path !in world.files)
      && (forall i, j :: i in world.rows && j in world.rows && i != j ==> world.rows[i].path != world.rows[j].path)
  {
    hide Run;
    RunGood(EMPTY, steps);
  }

  // ----- runs with any file names -----

  ghost predicate HarmlessRun(world: World, steps: seq<Step>)
    decreases |steps|
  {
    steps != [] ==> Harmless(world, steps[0]) && HarmlessRun(Next(world, steps[0]), steps[1..])
  }

  /** Over every run, with whatever file names: rows and files agree in every state on the way iff every step is
      harmless where it is taken. */
  lemma {:induction false} RunAgrees(world: World, steps: seq<Step>)
    requires Tracked(world) && Agree(world)
    ensures HarmlessRun(world, steps) <==> forall n :: 0 <= n <= |steps| ==> Agree(Run(world, steps[..n]))
    decreases |steps|
  {
    hide Tracked, Agree, Next, Harmless;
    if steps != [] {
      var next := Next(world, steps[0]);
      StepAgrees(world, steps[0]);
      assert forall n | 0 < n <= |steps| :: steps[..n][1..] == steps[1..][..n - 1];
      assert forall n | 0 < n <= |steps| :: Run(world, steps[..n]) == Run(next, steps[1..][..n - 1]);
      if Agree(next) {
        RunAgrees(next, steps[1..]);
        assert forall n | 0 <= n < |steps| :: Run(next, steps[1..][..n]) == Run(world, steps[..n + 1]);
      } else {
        assert Run(world, steps[..1]) == next;
      }
    }
  }

  lemma FourSteps(world: World, a: Step, b: Step, c: Step, d: Step)
    ensures Run(world, [a, b, c, d]) == Next(Next(Next(Next(world, a), b), c), d)
  {
    hide Next;
    assert [a, b, c, d][1..] == [b, c, d] && [b, c, d][1..] == [c, d] && [c, d][1..] == [d] && [d][1..] == [];
    var w2 := Next(Next(world, a), b);
    assert Run(world, [a, b, c, d]) == Run(Next(world, a), [b, c, d]) == Run(w2, [c, d]) == Run(Next(w2, c), [d]);
  }

  // Two finished backups of one application that began in the same second.
  lemma SameSecond(name: string, stamp: nat, ok: bool)
    ensures var file := FileName(name, stamp);
      Run(EMPTY, [Begin(1, 1, name, stamp, 0), Finish(1, true), Begin(2, 1, name, stamp, 1), Finish(2, ok)]) ==
      World(map[1 := Backup(1, file, Completed, 0), 2 := Backup(1, file, if ok then Completed else Failed, 1)],
            if ok then {file} else {}, map[])
  {
    FourSteps(EMPTY, Begin(1, 1, name, stamp, 0), Finish(1, true), Begin(2, 1, name, stamp, 1), Finish(2, ok));
  }

  /** When the second of the two fails, the first is a completed row without its file. */
  lemma SameSecondLosesFile(name: string, stamp: nat)
    ensures var world :=
        Run(EMPTY, [Begin(1, 1, name, stamp, 0), Finish(1, true), Begin(2, 1, name, stamp, 1), Finish(2, false)]);
      1 in world.rows && world.rows[1].status.Completed? && world.rows[1].path !in world.files
  {
    SameSecond(name, stamp, false);
  }

  /** When both succeed, deleting one of them, or a retention pass for one, takes the other's file. */
  lemma DeletionLosesFile(name: string, stamp: nat)
    ensures var world :=
        Run(EMPTY, [Begin(1, 1, name, stamp, 0), Finish(1, true), Begin(2, 1, name, stamp, 1), Finish(2, true)]);
      var deleted, retained := Next(world, DeleteBackup(1)), Next(world, Retain(1, 1));
      && Agree(world)
      && 2 in deleted.rows && deleted.rows[2].status.Completed? && deleted.rows[2].path !in deleted.files
      && 2 in retained.rows && retained.rows[2].status.Completed? && retained.rows[2].path !in retained.files
  {
    SameSecond(name, stamp, true);
    var world :=
      Run(EMPTY, [Begin(1, 1, name, stamp, 0), Finish(1, true), Begin(2, 1, name, stamp, 1), Finish(2, true)]);
    assert Newer(world.rows, 1, 1) == {2} && Newer(world.rows, 1, 2) == {};
  }

  // ----- what each step does to the rows -----

  /** A new backup adds a row in creation and no file; when its call ends the row, if it is still there, is completed or
      failed, and the file is there or not; no other row changes. */
  lemma BackupLife(world: World, id: nat, app: nat, name: string, stamp: nat, created: nat, ok: bool)
    requires id !in world.rows && id !in world.pending
    ensures var file := FileName(name, stamp);
      var begun := Next(world, Begin(id, app, name, stamp, created));
      var ended := Next(begun, Finish(id, ok));
      && begun.rows == world.rows[id := Backup(app, file, Creating, created)] && begun.files == world.files
      && ended.rows == world.rows[id := Backup(app, file, if ok then Completed else Failed, created)]
      && ended.files == (if ok then world.files + {file} else world.files - {file})
      && ended.pending == world.pending
  {
    var begun := Next(world, Begin(id, app, name, stamp, created));
    assert begun.pending - {id} == world.pending;
  }

  /** Deleting takes one row; deleting an application takes all of its rows and no file; a restart changes no row. */
  lemma RowsAfter(world: World, id: nat, app: nat)
    ensures Next(world, DeleteBackup(id)).rows == world.rows - {id}
    ensures var after := Next(world, DeleteApp(app));
      && (forall k :: k in after.rows <==> k in world.rows && world.rows[k].app != app)
      && (forall k :: k in after.rows ==> after.rows[k] == world.rows[k])
      && after.files == world.files
    ensures Next(world, PanelRestart).rows == world.rows && Next(world, PanelRestart).files == world.files
  {}
}
