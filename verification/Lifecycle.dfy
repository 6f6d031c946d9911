// Applications, deployments and uploads as the routes, the background worker
// and the restart step change them (app/routers/apps.py,
// app/services/deployment_state_service.py, app/services/docker_service.py).
// Each section up to a commit is one atomic step.
module Lifecycle {
  import opened Results
  import opened Trees
  import opened Builds

  // What `docker inspect` reports; it never reports "deploying" or "failed".
  datatype Inspected = IsRunning | IsOther(text: string) | IsAbsent

  datatype Status = Created | Deploying | Running | Failed | Restoring | Stopped | Reported(text: string)

  function StatusOf(current: Inspected): Status {
    match current
    case IsRunning => Running
    case IsOther(text) => Reported(text)
    case IsAbsent => Stopped
  }

  // ----- the progress reports of docker_service.deploy -----

  datatype Report = Report(stage: string, percent: nat)

  function Reports(kind: Kind): seq<Report> {
    match kind
    case Database => [Report("preparing", 8), Report("starting_database", 45), Report("verifying", 90)]
    case Site => [Report("preparing", 8), Report("starting_container", 50), Report("verifying", 90)]
    case Image => [Report("preparing", 8), Report("pulling_and_starting", 42), Report("verifying", 90)]
    case Built => [Report("preparing", 8), Report("generating_build", 18), Report("building_image", 30),
                   Report("starting_container", 78), Report("verifying", 92)]
  }

  datatype DeployStatus = Queued | InProgress | Completed | Aborted

  datatype Deployment = Deployment(app: nat, status: DeployStatus, stage: string, progress: nat, finished: bool)

  predicate Active(d: Deployment) { d.status.Queued? || d.status.InProgress? }

  lemma ReportTails()
    ensures Reports(Database)[1..3] == [Report("starting_database", 45), Report("verifying", 90)]
    ensures Reports(Site)[1..3] == [Report("starting_container", 50), Report("verifying", 90)]
    ensures Reports(Image)[1..3] == [Report("pulling_and_starting", 42), Report("verifying", 90)]
    ensures |Reports(Built)| == 5
    ensures Reports(Built)[1..5] ==
      Reports(Built)[1..3] + [Report("starting_container", 78), Report("verifying", 92)]
  {
    var d, s, i := Reports(Database), Reports(Site), Reports(Image);
    assert d[1..3] == [d[1], d[2]] && s[1..3] == [s[1], s[2]] && i[1..3] == [i[1], i[2]];
    var b := Reports(Built);
    assert b[1..5] == b[1..3] + [b[3], b[4]];
  }

  lemma PreparedKind(app: AppSpec, source: Tree, files: Templates)
    ensures Prepared(app, source, files) ==
      if KindOf(app).Built? then Generated(app.runtime, source, files) else Some(source)
  {}

  // What the system answers to the calls of one deploy: making the source directory, the packet filter's commands, the
  // network, the build, and the start of the container.  An exception counts as a refusal.
  datatype Answers = Answers(directory: bool, filter: bool, network: bool, built: bool, started: bool)

  // The deploy gets to its branch.
  predicate Reaches(app: AppSpec, source: Tree, w: Answers) {
    w.directory && Validate(app, source).None? && (IsDatabase(app.runtime) && app.public ==> w.filter) && w.network
  }

  predicate DeployWorks(app: AppSpec, source: Tree, files: Templates, w: Answers) {
    Reaches(app, source, w) && w.started && (KindOf(app).Built? ==> Prepared(app, source, files).Some? && w.built)
  }

  // How many of its branch's reports a deploy makes.
  function ReportsMade(app: AppSpec, source: Tree, files: Templates, w: Answers): nat {
    if !Reaches(app, source, w) then 1
    else if !KindOf(app).Built? then 3
    else if Prepared(app, source, files).None? then 2
    else if !w.built then 3
    else 5
  }

  class DeploymentRecord {
    var status: DeployStatus
    var stage: string
    var progress: nat
    var finished: bool
    var source: Tree
    ghost var history: seq<Report>

    constructor (source: Tree)
      ensures status == Queued && stage == "queued" && progress == 0 && !finished && history == []
      ensures this.source == source
    {
      status, stage, progress, finished, history := Queued, "queued", 0, false, [];
      this.source := source;
    }

    method Update(newStage: string, percent: nat)
      modifies this`stage, this`progress, this`history
      ensures stage == newStage && progress == percent && history == old(history) + [Report(newStage, percent)]
    {
      stage, progress := newStage, percent;
      history := history + [Report(newStage, percent)];
    }

    // The container is started between two reports.
    method StartContainer(newStage: string, percent: nat, last: nat)
      modifies this`stage, this`progress, this`history
      ensures history == old(history) + [Report(newStage, percent), Report("verifying", last)]
    {
      Update(newStage, percent);
      Update("verifying", last);
    }

    method Build(runtime: Runtime, files: Templates, built: bool) returns (ok: bool)
      modifies this`stage, this`progress, this`history, this`source
      ensures ok <==> Generated(runtime, old(source), files).Some? && built
      ensures history == old(history) + Reports(Built)[1..if Generated(runtime, old(source), files).Some? then 3 else 2]
      ensures Generated(runtime, old(source), files).Some? ==> Generated(runtime, old(source), files) == Some(source)
      ensures Generated(runtime, old(source), files).None? ==> source == old(source)
    {
      Update("generating_build", 18);
      var generated := Generated(runtime, source, files);
      if generated.None? {
        return false;
      }
      source := generated.value;
      Update("building_image", 30);
      ok := built;
    }

    // What comes before any branch: the source is checked, or the packet filter is configured,
    // then the old container goes and the network is made.
    method BeforeBranch(app: AppSpec, w: Answers) returns (ok: bool)
      modifies this`stage, this`progress, this`history
      ensures history == old(history) + Reports(KindOf(app))[..1]
      ensures ok <==> Reaches(app, source, w)
    {
      Update("preparing", 8);
      if !w.directory || Validate(app, source).Some? {
        return false;
      }
      if IsDatabase(app.runtime) && app.public && !w.filter {
        return false;
      }
      ok := w.network;
    }

    method Branch(app: AppSpec, files: Templates, w: Answers) returns (ok: bool)
      modifies this`stage, this`progress, this`history, this`source
      ensures ok <==> w.started && (KindOf(app).Built? ==> Prepared(app, old(source), files).Some? && w.built)
      ensures history == old(history) + Reports(KindOf(app))[1..
        if !KindOf(app).Built? then 3
        else if Prepared(app, old(source), files).None? then 2
        else if !w.built then 3
        else 5]
      ensures Prepared(app, old(source), files).Some? ==> Prepared(app, old(source), files) == Some(source)
      ensures Prepared(app, old(source), files).None? ==> source == old(source)
    {
      hide Reports, Prepared;
      ReportTails();
      PreparedKind(app, source, files);
      match KindOf(app) {
        case Database =>
          StartContainer("starting_database", 45, 90);
        case Site =>
          StartContainer("starting_container", 50, 90);
        case Image =>
          StartContainer("pulling_and_starting", 42, 90);
        case Built =>
          var built := Build(app.runtime, files, w.built);
          if !built {
            return false;
          }
          StartContainer("starting_container", 78, 92);
      }
      ok := w.started;
    }

    /** docker_service.deploy: it succeeds exactly when the source passes and the calls it needs work; the reports made
        are an initial part of the branch's list, all of it for a success.  A source that fails the check ends the
        deploy after its first report; once a built source is prepared it holds the generated files. */
    method Deploy(app: AppSpec, files: Templates, w: Answers) returns (ok: bool)
      modifies this`stage, this`progress, this`history, this`source
      ensures ok <==> DeployWorks(app, old(source), files, w)
      ensures ReportsMade(app, old(source), files, w) <= |Reports(KindOf(app))|
      ensures history == old(history) + Reports(KindOf(app))[..ReportsMade(app, old(source), files, w)]
      ensures ok ==> history == old(history) + Reports(KindOf(app))
      ensures if Reaches(app, old(source), w) && Prepared(app, old(source), files).Some? then
          Prepared(app, old(source), files) == Some(source)
        else source == old(source)
    {
      hide Validate, Prepared, KindOf, Reaches;
      ok := BeforeBranch(app, w);
      if ok {
        ok := Branch(app, files, w);
      }
    }

    /** _deploy_background on one record: running, then the reports in order, then closed at 100 percent. */
    method RunToEnd(app: AppSpec, files: Templates, w: Answers) returns (ok: bool)
      requires status.Queued? && history == []
      modifies this
      ensures ok <==> DeployWorks(app, old(source), files, w)
      ensures status == (if ok then Completed else Aborted) && finished && progress == 100
      ensures FullHistory(KindOf(app), ok, history)
      ensures Validate(app, source) == Validate(app, old(source))
    {
      hide Reports, Validate, Prepared, KindOf, Reaches, DeployWorks, ReportsMade;
      status := InProgress;
      Update("preparing", 5);
      ghost var start := history;
      PreparedNeutral(app, source, files);
      ok := Deploy(app, files, w);
      ghost var made := history[1..];
      assert history == start + made;
      status := if ok then Completed else Aborted;
      Update(if ok then "completed" else "failed", 100);
      finished := true;
      assert history == [Report("preparing", 5)] + made + [Report(stage, 100)];
    }
  }

  // The reports of one whole deployment: the first at 5 percent, an initial part of the branch's list
  // (all of it when successful), the last at 100 percent.
  ghost predicate FullHistory(kind: Kind, ok: bool, history: seq<Report>) {
    exists made: seq<Report> ::
      && made <= Reports(kind) && (ok ==> made == Reports(kind))
      && history == [Report("preparing", 5)] + made + [Report(if ok then "completed" else "failed", 100)]
  }

  /** Progress strictly increases along every deployment, through early returns and exceptions alike. */
  lemma HistoryIncreases(kind: Kind, ok: bool, history: seq<Report>)
    requires FullHistory(kind, ok, history)
    ensures forall i, j :: 0 <= i < j < |history| ==> history[i].percent < history[j].percent
  {
    hide Reports;
    var last := Report(if ok then "completed" else "failed", 100);
    var made :| made <= Reports(kind) && history == [Report("preparing", 5)] + made + [last];
    ReportsIncrease(kind);
    assert forall i :: 0 < i < |history| - 1 ==> history[i] == made[i - 1] == Reports(kind)[i - 1];
  }

  lemma ReportsIncrease(kind: Kind)
    ensures |Reports(kind)| >= 3
    ensures forall i :: 0 <= i < |Reports(kind)| ==> 5 < Reports(kind)[i].percent < 100
    ensures forall i, j :: 0 <= i < j < |Reports(kind)| ==> Reports(kind)[i].percent < Reports(kind)[j].percent
  {}

  // ----- the state of the panel -----

  datatype AppRow = AppRow(kind: Kind, status: Status)

  datatype UploadStatus = Processing | Stored | Rejected

  datatype Upload = Upload(app: nat, status: UploadStatus)

  // A background task for one application and the id of its record: not yet started, or past `next` reports.
  datatype Worker = Waiting(app: nat, id: nat) | Working(app: nat, id: nat, kind: Kind, next: nat)

  // The tasks are numbered apart from the records: the id of a deleted record may be given out again.
  datatype World = World(
    apps: map<nat, AppRow>, deployments: map<nat, Deployment>, uploads: map<nat, Upload>,
    workers: map<nat, Worker>, uploading: set<nat>)

  datatype Operation = Start | Stop | Restart

  datatype Step =
    | CreateApp(app: nat, kind: Kind)
    | DeleteApp(app: nat)
    | RequestDeploy(app: nat, dockerUp: bool, id: nat, task: nat)
    | WorkerStart(task: nat)
    | WorkerReport(task: nat)
    | WorkerFinish(task: nat, ok: bool)
    | ListApps(seen: map<nat, Inspected>)
    | GetApp(app: nat, current: Inspected)
    | Act(app: nat, operation: Operation, present: bool, ok: bool)
    | RequestRestore(app: nat)
    | FinishRestore(app: nat, ok: bool)
    | StartUpload(app: nat, id: nat)
    | FinishUpload(id: nat, ok: bool)
    | PanelRestart

  predicate HasActive(deployments: map<nat, Deployment>, app: nat) {
    exists id :: id in deployments && deployments[id].app == app && Active(deployments[id])
  }

  predicate HasUpload(uploads: map<nat, Upload>, app: nat) {
    exists id :: id in uploads && uploads[id].app == app && uploads[id].status.Processing?
  }

  function SetStatus(world: World, app: nat, status: Status): World {
    if app in world.apps then world.(apps := world.apps[app := world.apps[app].(status := status)]) else world
  }

  // list_apps for one row.
  function Listed(status: Status, current: Inspected): Status {
    var mapped := if current.IsRunning? then Running else if status.Deploying? then Deploying else StatusOf(current);
    if mapped != status && !status.Failed? then mapped else status
  }

  // get_app for one row.
  function Shown(status: Status, current: Inspected): Status {
    if current.IsRunning? then Running
    else if !status.Failed? && !status.Deploying? then StatusOf(current)
    else status
  }

  function Closed(d: Deployment): Deployment {
    if Active(d) then d.(status := Aborted, stage := "interrupted", finished := true) else d
  }

  function CloseApp(app: AppRow, affected: bool): AppRow {
    if affected && app.status.Deploying? then app.(status := Failed) else app
  }

  function CloseUpload(u: Upload): Upload {
    if u.status.Processing? then u.(status := Rejected) else u
  }

  // reconcile_interrupted_deployments.
  function Reconciled(world: World): World {
    World(
      map app | app in world.apps :: CloseApp(world.apps[app], HasActive(world.deployments, app)),
      map id | id in world.deployments :: Closed(world.deployments[id]),
      map id | id in world.uploads :: CloseUpload(world.uploads[id]),
      map[], {})
  }

  // deploy_app goes on; the database gives the new record an id that no record has, and the task is new.
  predicate Accepts(world: World, app: nat, dockerUp: bool, id: nat, task: nat) {
    && app in world.apps && dockerUp && !HasActive(world.deployments, app)
    && id !in world.deployments && task !in world.workers
  }

  // A task still holds the id of its record.
  predicate Held(workers: map<nat, Worker>, id: nat) { exists t :: t in workers && workers[t].id == id }

  // A step whose guard fails changes nothing: the route answers with an error.
  function Next(world: World, step: Step): World {
    match step
    case CreateApp(app, kind) =>
      if app in world.apps then world else world.(apps := world.apps[app := AppRow(kind, Created)])
    case DeleteApp(app) =>
      if app !in world.apps then world
      else world.(
        apps := world.apps - {app},
        deployments := map id | id in world.deployments && world.deployments[id].app != app :: world.deployments[id],
        uploads := map id | id in world.uploads && world.uploads[id].app != app :: world.uploads[id])
    case RequestDeploy(app, dockerUp, id, task) =>
      if !Accepts(world, app, dockerUp, id, task) then world
      else SetStatus(world, app, Deploying).(
        deployments := world.deployments[id := Deployment(app, Queued, "queued", 0, false)],
        workers := world.workers[task := Waiting(app, id)])
    case WorkerStart(task) =>
      if task !in world.workers || !world.workers[task].Waiting? then world
      else
        var w := world.workers[task];
        if w.id !in world.deployments || w.app !in world.apps then world.(workers := world.workers - {task})
        else SetStatus(world, w.app, Deploying).(
          deployments := world.deployments[w.id :=
            world.deployments[w.id].(status := InProgress, stage := "preparing", progress := 5)],
          workers := world.workers[task := Working(w.app, w.id, world.apps[w.app].kind, 0)])
    case WorkerReport(task) =>
      if task !in world.workers || !world.workers[task].Working? then world
      else
        var w := world.workers[task];
        if w.id !in world.deployments then world.(workers := world.workers - {task})
        else if w.next >= |Reports(w.kind)| then world
        else
          var r := Reports(w.kind)[w.next];
          world.(
            deployments := world.deployments[w.id := world.deployments[w.id].(stage := r.stage, progress := r.percent)],
            workers :=
              if w.app in world.apps then world.workers[task := w.(next := w.next + 1)] else world.workers - {task})
    case WorkerFinish(task, ok) =>
      if task !in world.workers || !world.workers[task].Working? then world
      else
        var w := world.workers[task];
        if ok && w.next < |Reports(w.kind)| then world
        else if w.id !in world.deployments || w.app !in world.apps then world.(workers := world.workers - {task})
        else SetStatus(world, w.app, if ok then Running else Failed).(
          deployments := world.deployments[w.id :=
            world.deployments[w.id].(
              status := if ok then Completed else Aborted, stage := if ok then "completed" else "failed",
              progress := 100, finished := true)],
          workers := world.workers - {task})
    case ListApps(current) =>
      world.(apps := map app | app in world.apps ::
        if app !in current then world.apps[app]
        else world.apps[app].(status := Listed(world.apps[app].status, current[app])))
    case GetApp(app, current) =>
      if app in world.apps then SetStatus(world, app, Shown(world.apps[app].status, current)) else world
    case Act(app, operation, present, ok) =>
      if operation.Stop? && !present then SetStatus(world, app, Stopped)
      else if !present || !ok then world
      else SetStatus(world, app, if operation.Stop? then Stopped else Running)
    case RequestRestore(app) => SetStatus(world, app, Restoring)
    case FinishRestore(app, ok) => SetStatus(world, app, if ok then Running else Failed)
    case StartUpload(app, id) =>
      if app !in world.apps || HasUpload(world.uploads, app) || id in world.uploads || id in world.uploading then world
      else world.(uploads := world.uploads[id := Upload(app, Processing)], uploading := world.uploading + {id})
    case FinishUpload(id, ok) =>
      if id !in world.uploading then world
      else world.(
        uploads :=
          if id !in world.uploads then world.uploads
          else world.uploads[id := world.uploads[id].(status := if ok then Stored else Rejected)],
        uploading := world.uploading - {id})
    case PanelRestart => Reconciled(world)
  }

  // ----- the invariant -----

  predicate Terminal(d: Deployment) { d.status.Completed? || d.status.Aborted? }

  ghost predicate GoodRecord(d: Deployment) {
    && (d.finished <==> Terminal(d))
    && (d.status.Queued? ==> d.progress == 0)
    && (d.status.InProgress? ==> 5 <= d.progress < 100)
    && (d.status.Completed? ==> d.progress == 100)
    && d.progress <= 100
  }

  // A record and the background task that works on it.
  ghost predicate InStep(d: Deployment, w: Worker) {
    && d.app == w.app
    && match w
       case Waiting(_, _) => d.status.Queued?
       case Working(_, _, kind, next) =>
         && d.status.InProgress? && next <= |Reports(kind)|
         && d.progress == (if next == 0 then 5 else Reports(kind)[next - 1].percent)
  }

  type Deployments = map<nat, Deployment>

  ghost predicate OneActive(deployments: Deployments) {
    forall i, j :: i in deployments && j in deployments && i != j && deployments[i].app == deployments[j].app ==>
      !Active(deployments[i]) || !Active(deployments[j])
  }

  ghost predicate DeployingIsActive(apps: map<nat, AppRow>, deployments: Deployments) {
    forall app :: app in apps && apps[app].status.Deploying? ==> HasActive(deployments, app)
  }

  ghost predicate WorkersInStep(deployments: Deployments, workers: map<nat, Worker>) {
    && (forall t :: t in workers && workers[t].id in deployments ==> InStep(deployments[workers[t].id], workers[t]))
    && (forall t, u :: t in workers && u in workers && t != u ==> workers[t].id != workers[u].id)
    && (forall id :: id in deployments && Active(deployments[id]) ==> Held(workers, id))
  }

  // Deployment rows go with their application's row.
  ghost predicate RowsOwned(apps: map<nat, AppRow>, deployments: Deployments) {
    forall id :: id in deployments ==> deployments[id].app in apps
  }

  ghost predicate Records(deployments: Deployments) {
    forall id :: id in deployments ==> GoodRecord(deployments[id])
  }

  ghost predicate UploadsInStep(uploads: map<nat, Upload>, uploading: set<nat>) {
    && (forall i, j :: i in uploads && j in uploads && i != j && uploads[i].app == uploads[j].app ==>
        !uploads[i].status.Processing? || !uploads[j].status.Processing?)
    && (forall id :: id in uploads ==> (uploads[id].status.Processing? <==> id in uploading))
  }

  ghost predicate Good(world: World) {
    && OneActive(world.deployments)
    && DeployingIsActive(world.apps, world.deployments)
    && WorkersInStep(world.deployments, world.workers)
    && RowsOwned(world.apps, world.deployments)
    && Records(world.deployments)
    && UploadsInStep(world.uploads, world.uploading)
  }

  const EMPTY: World := World(map[], map[], map[], map[], {})

  // The id of a new record is not one that a task still holds for a deleted record.
  predicate Admissible(world: World, step: Step) {
    match step
    case RequestDeploy(app, dockerUp, id, task) =>
      Accepts(world, app, dockerUp, id, task) ==> !Held(world.workers, id)
    case _ => true
  }

  lemma EmptyGood()
    ensures Good(EMPTY)
  {}

  // Steps that only change the status of applications, never to "deploying" out of nothing.
  lemma StatusStep(world: World, after: World)
    requires Good(world) && after == world.(apps := after.apps) && world.apps.Keys <= after.apps.Keys
    requires forall app :: app in after.apps && after.apps[app].status.Deploying? ==>
      app in world.apps && world.apps[app].status.Deploying?
    ensures Good(after)
  {
    hide OneActive, WorkersInStep, Records, UploadsInStep, HasActive;
  }

  // An application with another deployment in flight keeps it when one record changes.
  lemma OtherActive(deployments: Deployments, id: nat, d: Deployment, app: nat)
    requires HasActive(deployments, app) && (id in deployments ==> deployments[id].app != app)
    ensures HasActive(deployments[id := d], app)
  {
    var k :| k in deployments && deployments[k].app == app && Active(deployments[k]);
    assert deployments[id := d][k] == deployments[k];
  }

  lemma DeployStep(world: World, app: nat, id: nat, task: nat)
    requires Good(world) && Accepts(world, app, true, id, task) && !Held(world.workers, id)
    ensures Good(Next(world, RequestDeploy(app, true, id, task)))
  {
    hide UploadsInStep, Reports, Held, InStep;
    var after := Next(world, RequestDeploy(app, true, id, task));
    var d := Deployment(app, Queued, "queued", 0, false);
    forall other | other in after.apps && after.apps[other].status.Deploying?
      ensures HasActive(after.deployments, other)
    {
      if other == app {
        assert after.deployments[id].app == app;
      } else {
        OtherActive(world.deployments, id, d, other);
      }
    }
    TaskAdded(world.deployments, world.workers, id, task, app);
  }

  lemma TaskAdded(deployments: Deployments, workers: map<nat, Worker>, id: nat, task: nat, app: nat)
    requires WorkersInStep(deployments, workers) && id !in deployments && task !in workers && !Held(workers, id)
    ensures WorkersInStep(deployments[id := Deployment(app, Queued, "queued", 0, false)],
                          workers[task := Waiting(app, id)])
  {
    hide Reports;
    var after := workers[task := Waiting(app, id)];
    forall other | other in deployments && Active(deployments[other]) ensures Held(after, other) {
      var t :| t in workers && workers[t].id == other;
      assert after[t].id == other;
    }
    assert after[task].id == id;
  }

  // One task goes on with its own record.
  lemma TaskMoved(deployments: Deployments, workers: map<nat, Worker>, task: nat, d: Deployment, w: Worker)
    requires WorkersInStep(deployments, workers) && task in workers && w.id == workers[task].id && InStep(d, w)
    ensures WorkersInStep(deployments[w.id := d], workers[task := w])
  {
    hide InStep;
    var after := workers[task := w];
    assert after[task].id == w.id;
    forall other | other != w.id && other in deployments && Active(deployments[other]) ensures Held(after, other) {
      var t :| t in workers && workers[t].id == other;
      assert after[t].id == other;
    }
  }

  // A task whose record is closed or gone leaves.
  lemma TaskGone(deployments: Deployments, workers: map<nat, Worker>, after: Deployments, task: nat)
    requires WorkersInStep(deployments, workers) && task in workers
    requires var id := workers[task].id;
      && (forall k :: k != id && k in after ==> k in deployments && after[k] == deployments[k])
      && (id in after ==> !Active(after[id]))
    ensures WorkersInStep(after, workers - {task})
  {
    hide InStep;
    var rest := workers - {task};
    forall other | other in after && Active(after[other]) ensures Held(rest, other) {
      var t :| t in workers && workers[t].id == other;
      assert t in rest && rest[t].id == other;
    }
  }

  // A task moves its own record on, and the record stays active.
  lemma ProgressStep(world: World, after: World, task: nat)
    requires Good(world) && task in world.workers && task in after.workers
    requires var id := world.workers[task].id;
      && id in world.deployments && Active(world.deployments[id])
      && id in after.deployments && after.workers[task].id == id
      && after.deployments == world.deployments[id := after.deployments[id]]
      && after.workers == world.workers[task := after.workers[task]]
      && after.deployments[id].app == world.deployments[id].app && Active(after.deployments[id])
      && GoodRecord(after.deployments[id]) && InStep(after.deployments[id], after.workers[task])
      && forall app :: app in after.apps && after.apps[app].status.Deploying? ==>
        app in world.apps && (world.apps[app].status.Deploying? || app == world.deployments[id].app)
    requires after.uploads == world.uploads && after.uploading == world.uploading
    requires after.apps.Keys == world.apps.Keys
    ensures Good(after)
  {
    hide UploadsInStep, InStep, GoodRecord, WorkersInStep;
    var id := world.workers[task].id;
    TaskMoved(world.deployments, world.workers, task, after.deployments[id], after.workers[task]);
    forall app | app in after.apps && after.apps[app].status.Deploying? ensures HasActive(after.deployments, app) {
      if app == world.deployments[id].app {
        assert after.deployments[id].app == app;
      } else {
        OtherActive(world.deployments, id, after.deployments[id], app);
      }
    }
  }

  lemma FinishStep(world: World, task: nat, ok: bool)
    requires Good(world) && task in world.workers && world.workers[task].Working?
    requires var w := world.workers[task];
      && w.id in world.deployments && w.app in world.apps && w.app == world.deployments[w.id].app
      && (ok ==> w.next >= |Reports(w.kind)|)
    ensures Good(Next(world, WorkerFinish(task, ok)))
  {
    hide UploadsInStep, Reports, InStep, WorkersInStep;
    var after := Next(world, WorkerFinish(task, ok));
    var id := world.workers[task].id;
    assert after.deployments == world.deployments[id := after.deployments[id]];
    TaskGone(world.deployments, world.workers, after.deployments, task);
    forall app | app in after.apps && after.apps[app].status.Deploying? ensures HasActive(after.deployments, app) {
      OtherActive(world.deployments, id, after.deployments[id], app);
    }
  }

  lemma DropWorker(world: World, task: nat)
    requires Good(world) && task in world.workers && world.workers[task].id !in world.deployments
    ensures Good(world.(workers := world.workers - {task}))
  {
    hide UploadsInStep, OneActive, DeployingIsActive, Records, RowsOwned, WorkersInStep;
    TaskGone(world.deployments, world.workers, world.deployments, task);
  }

  // Rows go, and with them the applications they belong to.
  lemma FewerRows(world: World, after: World)
    requires Good(world) && after.workers == world.workers && after.uploading == world.uploading
    requires forall id :: id in after.deployments ==>
      id in world.deployments && after.deployments[id] == world.deployments[id]
    requires forall id :: id in after.uploads ==> id in world.uploads && after.uploads[id] == world.uploads[id]
    requires RowsOwned(after.apps, after.deployments) && DeployingIsActive(after.apps, after.deployments)
    ensures Good(after)
  {
    hide DeployingIsActive, RowsOwned, InStep, GoodRecord, HasActive;
  }

  lemma DeleteStep(world: World, app: nat)
    requires Good(world)
    ensures Good(Next(world, DeleteApp(app)))
  {
    hide OneActive, WorkersInStep, Records, UploadsInStep;
    var after := Next(world, DeleteApp(app));
    forall other | other in after.apps && after.apps[other].status.Deploying?
      ensures HasActive(after.deployments, other)
    {
      var k :| k in world.deployments && world.deployments[k].app == other && Active(world.deployments[k]);
      assert k in after.deployments && after.deployments[k] == world.deployments[k];
    }
    FewerRows(world, after);
  }

  lemma UploadStep(world: World, step: Step)
    requires Good(world) && (step.StartUpload? || step.FinishUpload?)
    ensures Good(Next(world, step))
  {
    hide OneActive, DeployingIsActive, Records, RowsOwned, WorkersInStep;
  }

  lemma RestartRecords(world: World)
    requires Good(world)
    ensures var after := Reconciled(world);
      && (forall id :: id in after.deployments ==> Terminal(after.deployments[id]) && GoodRecord(after.deployments[id]))
      && (forall app :: app in after.apps ==> !after.apps[app].status.Deploying?)
  {
    hide UploadsInStep, WorkersInStep, OneActive;
    forall app | app in world.apps && world.apps[app].status.Deploying? ensures HasActive(world.deployments, app) {}
  }

  lemma RestartUploads(world: World)
    requires UploadsInStep(world.uploads, world.uploading)
    ensures var after := Reconciled(world);
      UploadsInStep(after.uploads, after.uploading) && forall id :: id in after.uploads ==>
          !after.uploads[id].status.Processing?
  {
    hide HasActive;
  }

  lemma RestartDeployments(world: World)
    requires Good(world)
    ensures var after := Reconciled(world);
      && OneActive(after.deployments) && DeployingIsActive(after.apps, after.deployments) && Records(after.deployments)
      && RowsOwned(after.apps, after.deployments) && WorkersInStep(after.deployments, after.workers)
  {
    hide HasActive, GoodRecord, InStep, UploadsInStep, CloseApp, CloseUpload, Closed;
    RestartRecords(world);
    ClosedKeepsApp();
  }

  lemma ClosedKeepsApp()
    ensures forall d :: Closed(d).app == d.app
  {}

  /** After a restart nothing is active, no upload is processing and no application is deploying. */
  lemma RestartSettles(world: World)
    requires Good(world)
    ensures var after := Next(world, PanelRestart);
      && Good(after)
      && (forall id :: id in after.deployments ==> !Active(after.deployments[id]))
      && (forall id :: id in after.uploads ==> !after.uploads[id].status.Processing?)
      && (forall app :: app in after.apps ==> !after.apps[app].status.Deploying?)
  {
    hide Reconciled, OneActive, DeployingIsActive, WorkersInStep, RowsOwned, Records, GoodRecord, UploadsInStep;
    RestartRecords(world);
    RestartDeployments(world);
    RestartUploads(world);
  }

  lemma WorkerStep(world: World, step: Step)
    requires Good(world) && (step.WorkerStart? || step.WorkerReport? || step.WorkerFinish?)
    ensures Good(Next(world, step))
  {
    hide Reports;
    var task := step.task;
    if task in world.workers {
      var w := world.workers[task];
      if w.id !in world.deployments {
        DropWorker(world, task);
      } else {
        assert InStep(world.deployments[w.id], w);
        if step.WorkerStart? && w.Waiting? {
          ProgressStep(world, Next(world, step), task);
        } else if step.WorkerReport? && w.Working? && w.next < |Reports(w.kind)| {
          ReportsIncrease(w.kind);
          ProgressStep(world, Next(world, step), task);
        } else if step.WorkerFinish? && w.Working? && !(step.ok && w.next < |Reports(w.kind)|) {
          FinishStep(world, task, step.ok);
        }
      }
    }
  }

  /** Every admissible step keeps the invariant. */
  lemma StepGood(world: World, step: Step)
    requires Good(world) && Admissible(world, step)
    ensures Good(Next(world, step))
  {
    hide Good, Reports, HasActive, HasUpload, Held;
    match step {
      case DeleteApp(app) => DeleteStep(world, app);
      case RequestDeploy(app, dockerUp, id, task) =>
        if Accepts(world, app, dockerUp, id, task) { DeployStep(world, app, id, task); }
      case WorkerStart(_) => WorkerStep(world, step);
      case WorkerReport(_) => WorkerStep(world, step);
      case WorkerFinish(_, _) => WorkerStep(world, step);
      case StartUpload(_, _) => UploadStep(world, step);
      case FinishUpload(_, _) => UploadStep(world, step);
      case PanelRestart => RestartSettles(world);
      case _ => StatusStep(world, Next(world, step));
    }
  }

  /** The invariant is lost exactly when a request is accepted whose record gets an id that a task still holds. */
  lemma StepExact(world: World, step: Step)
    requires Good(world)
    ensures Good(Next(world, step)) <==> Admissible(world, step)
  {
    hide Good, Next;
    if Admissible(world, step) {
      StepGood(world, step);
    } else {
      HeldTwice(world, step);
    }
  }

  lemma HeldTwice(world: World, step: Step)
    requires !Admissible(world, step)
    ensures !Good(Next(world, step))
  {
    hide OneActive, DeployingIsActive, Records, RowsOwned, UploadsInStep, InStep, HasActive;
    var after := Next(world, step);
    var t :| t in world.workers && world.workers[t].id == step.id;
    assert after.workers[t].id == after.workers[step.task].id;
  }

  function Run(world: World, steps: seq<Step>): World
    decreases |steps|
  {
    if steps == [] then world else Run(Next(world, steps[0]), steps[1..])
  }

  predicate AdmissibleRun(world: World, steps: seq<Step>)
    decreases |steps|
  {
    steps != [] ==> Admissible(world, steps[0]) && AdmissibleRun(Next(world, steps[0]), steps[1..])
  }

  /** The invariant holds after every admissible run. */
  lemma {:induction false} RunGood(world: World, steps: seq<Step>)
    requires Good(world) && AdmissibleRun(world, steps)
    ensures Good(Run(world, steps))
    decreases |steps|
  {
    hide Good, Next, Admissible;
    if steps != [] {
      StepGood(world, steps[0]);
      RunGood(Next(world, steps[0]), steps[1..]);
    }
  }

  /** A run is admissible exactly when every state on the way satisfies the invariant. */
  lemma {:induction false} RunExact(world: World, steps: seq<Step>)
    requires Good(world)
    ensures AdmissibleRun(world, steps) <==> forall n :: 0 <= n <= |steps| ==> Good(Run(world, steps[..n]))
    decreases |steps|
  {
    hide Good, Next, Admissible;
    if steps != [] {
      var next := Next(world, steps[0]);
      StepExact(world, steps[0]);
      assert forall n | 0 < n <= |steps| :: steps[..n][1..] == steps[1..][..n - 1];
      assert forall n | 0 < n <= |steps| :: Run(world, steps[..n]) == Run(next, steps[1..][..n - 1]);
      if Good(next) {
        RunExact(next, steps[1..]);
        assert forall n | 0 <= n < |steps| :: Run(next, steps[1..][..n]) == Run(world, steps[..n + 1]);
      } else {
        assert Run(world, steps[..1]) == next;
      }
    }
  }

  lemma RunFront(world: World, steps: seq<Step>)
    requires Good(world) && AdmissibleRun(world, steps) && steps != []
    ensures AdmissibleRun(world, steps[..|steps| - 1])
  {
    hide Good, AdmissibleRun, Run;
    var front := steps[..|steps| - 1];
    RunExact(world, steps);
    RunExact(world, front);
    assert forall n | 0 <= n <= |front| :: front[..n] == steps[..n];
  }

  /** What the invariant says: at most one deployment in flight for each application, each with a task,
      and "deploying" only while there is one. */
  lemma ReachableMeaning(steps: seq<Step>)
    requires AdmissibleRun(EMPTY, steps)
    ensures var world := Run(EMPTY, steps);
      && (forall i, j | i in world.deployments && j in world.deployments && Active(world.deployments[i])
            && Active(world.deployments[j]) ::
            world.deployments[i].app == world.deployments[j].app ==> i == j)
      && (forall app :: app in world.apps && world.apps[app].status.Deploying? ==> HasActive(world.deployments, app))
      && (forall id :: id in world.deployments && Active(world.deployments[id]) ==> Held(world.workers, id))
      && (forall id :: id in world.deployments ==> world.deployments[id].finished == Terminal(world.deployments[id]))
      && (forall id :: id in world.deployments && world.deployments[id].status.Completed? ==>
          world.deployments[id].progress == 100)
  {
    hide Run, HasActive;
    EmptyGood();
    RunGood(EMPTY, steps);
  }

  lemma {:induction false} RunAppend(world: World, first: seq<Step>, second: seq<Step>)
    ensures Run(world, first + second) == Run(Run(world, first), second)
    decreases |first|
  {
    hide Next;
    if first == [] {
      assert first + second == second;
    } else {
      assert (first + second)[1..] == first[1..] + second;
      RunAppend(Next(world, first[0]), first[1..], second);
    }
  }

  lemma RunOne(world: World, step: Step)
    ensures Run(world, [step]) == Next(world, step)
  {
    hide Next;
    assert Run(Next(world, step), []) == Next(world, step);
  }

  lemma RunThree(world: World, a: Step, b: Step, c: Step)
    ensures Run(world, [a, b, c]) == Next(Next(Next(world, a), b), c)
  {
    hide Next;
    assert [a, b, c][1..] == [b, c] && [b, c][1..] == [c];
    RunOne(Next(Next(world, a), b), c);
    assert Run(world, [a, b, c]) == Run(Next(world, a), [b, c]) == Run(Next(Next(world, a), b), [c]);
  }

  // A site with a first deployment that went well.
  const SITE_UP: World :=
    World(map[1 := AppRow(Site, Running)], map[1 := Deployment(1, Completed, "completed", 100, true)], map[], map[], {})

  const FIRST_DEPLOY: seq<Step> :=
    [CreateApp(1, Site), RequestDeploy(1, true, 1, 1), WorkerStart(1)] + [WorkerReport(1), WorkerReport(1),
     WorkerReport(1)] + [WorkerFinish(1, true)]

  const SITE_STARTED: World :=
    World(map[1 := AppRow(Site, Deploying)], map[1 := Deployment(1, InProgress, "preparing", 5, false)], map[],
          map[1 := Working(1, 1, Site, 0)], {})

  const SITE_REPORTED: World :=
    World(map[1 := AppRow(Site, Deploying)], map[1 := Deployment(1, InProgress, "verifying", 90, false)], map[],
          map[1 := Working(1, 1, Site, 3)], {})

  lemma SiteStarts()
    ensures Run(EMPTY, [CreateApp(1, Site), RequestDeploy(1, true, 1, 1), WorkerStart(1)]) == SITE_STARTED
  {
    RunThree(EMPTY, CreateApp(1, Site), RequestDeploy(1, true, 1, 1), WorkerStart(1));
    assert Next(EMPTY, CreateApp(1, Site)) == World(map[1 := AppRow(Site, Created)], map[], map[], map[], {});
  }

  lemma SiteReports()
    ensures Run(SITE_STARTED, [WorkerReport(1), WorkerReport(1), WorkerReport(1)]) == SITE_REPORTED
  {
    RunThree(SITE_STARTED, WorkerReport(1), WorkerReport(1), WorkerReport(1));
  }

  lemma FirstDeploy()
    ensures Run(EMPTY, FIRST_DEPLOY) == SITE_UP
  {
    hide Run;
    var a := [CreateApp(1, Site), RequestDeploy(1, true, 1, 1), WorkerStart(1)];
    var b := [WorkerReport(1), WorkerReport(1), WorkerReport(1)];
    RunAppend(EMPTY, a + b, [WorkerFinish(1, true)]);
    RunAppend(EMPTY, a, b);
    SiteStarts();
    SiteReports();
    RunOne(SITE_REPORTED, WorkerFinish(1, true));
  }

  /** The converse does not hold: while a second deployment is queued the old container still runs, and listing the
      applications shows "running". */
  lemma ActiveMayShowRunning()
    ensures var world := Run(EMPTY, FIRST_DEPLOY + [RequestDeploy(1, true, 2, 2)] + [ListApps(map[1 := IsRunning])]);
      1 in world.apps && world.apps[1].status == Running && HasActive(world.deployments, 1)
  {
    var request, list := RequestDeploy(1, true, 2, 2), ListApps(map[1 := IsRunning]);
    FirstDeploy();
    RunAppend(EMPTY, FIRST_DEPLOY + [request], [list]);
    RunAppend(EMPTY, FIRST_DEPLOY, [request]);
    RunOne(SITE_UP, request);
    var queued := Next(SITE_UP, request);
    RunOne(queued, list);
    assert queued.deployments[2] == Deployment(1, Queued, "queued", 0, false);
    assert Next(queued, list).deployments[2].app == 1;
  }

  const TWO_QUEUED: World :=
    World(map[1 := AppRow(Site, Deploying), 2 := AppRow(Image, Created)],
          map[1 := Deployment(1, Queued, "queued", 0, false)], map[], map[1 := Waiting(1, 1)], {})

  const TWICE_HELD: World :=
    World(map[2 := AppRow(Image, Deploying)], map[1 := Deployment(2, Queued, "queued", 0, false)], map[],
          map[1 := Working(1, 1, Site, 0), 2 := Waiting(2, 1)], {})

  lemma Queue()
    ensures Run(EMPTY, [CreateApp(1, Site), CreateApp(2, Image), RequestDeploy(1, true, 1, 1)]) == TWO_QUEUED
  {
    RunThree(EMPTY, CreateApp(1, Site), CreateApp(2, Image), RequestDeploy(1, true, 1, 1));
    var created := Next(Next(EMPTY, CreateApp(1, Site)), CreateApp(2, Image));
    assert created == World(map[1 := AppRow(Site, Created), 2 := AppRow(Image, Created)], map[], map[], map[], {});
  }

  lemma Reissue()
    ensures Run(TWO_QUEUED, [WorkerStart(1), DeleteApp(1), RequestDeploy(2, true, 1, 2)]) == TWICE_HELD
  {
    RunThree(TWO_QUEUED, WorkerStart(1), DeleteApp(1), RequestDeploy(2, true, 1, 2));
    var deleted := Next(Next(TWO_QUEUED, WorkerStart(1)), DeleteApp(1));
    assert deleted == World(map[2 := AppRow(Image, Created)], map[], map[], map[1 := Working(1, 1, Site, 0)], {});
  }

  /** Without the condition on ids a task writes into another application's record: the first application is deleted
      while it is deployed, its record's id is given to the second one's, and the first task reports on that. */
  lemma ReissuedId()
    ensures var world := Run(EMPTY,
        [CreateApp(1, Site), CreateApp(2, Image), RequestDeploy(1, true, 1, 1)] +
        [WorkerStart(1), DeleteApp(1), RequestDeploy(2, true, 1, 2)] + [WorkerReport(1)]);
      && 1 in world.deployments && world.deployments[1] == Deployment(2, Queued, "preparing", 8, false)
      && world.workers == map[2 := Waiting(2, 1)]
  {
    hide Run;
    var a := [CreateApp(1, Site), CreateApp(2, Image), RequestDeploy(1, true, 1, 1)];
    var b := [WorkerStart(1), DeleteApp(1), RequestDeploy(2, true, 1, 2)];
    RunAppend(EMPTY, a + b, [WorkerReport(1)]);
    RunAppend(EMPTY, a, b);
    Queue();
    Reissue();
    RunOne(TWICE_HELD, WorkerReport(1));
  }

  // ----- when an application in deployment shows "deploying" -----

  // The step sets the status to "deploying": an accepted request, or the start of its waiting task.
  predicate Marks(world: World, step: Step, app: nat) {
    match step
    case RequestDeploy(a, dockerUp, id, task) => a == app && Accepts(world, app, dockerUp, id, task)
    case WorkerStart(task) =>
      && task in world.workers && world.workers[task].Waiting? && world.workers[task].app == app
      && world.workers[task].id in world.deployments && app in world.apps
    case _ => false
  }

  // The step replaces a status "deploying": Docker reports the container running, or an operator acts on it.
  predicate Hides(step: Step, app: nat) {
    match step
    case ListApps(seen) => app in seen && seen[app].IsRunning?
    case GetApp(a, current) => a == app && current.IsRunning?
    case Act(a, operation, present, ok) => a == app && if present then ok else operation.Stop?
    case RequestRestore(a) => a == app
    case FinishRestore(a, _) => a == app
    case _ => false
  }

  predicate ShowsDeploying(world: World, app: nat) { app in world.apps && world.apps[app].status.Deploying? }

  predicate InFlight(world: World, app: nat) { app in world.apps && HasActive(world.deployments, app) }

  lemma WorkerShows(world: World, step: Step, app: nat)
    requires Good(world) && InFlight(Next(world, step), app)
    requires step.WorkerStart? || step.WorkerReport? || step.WorkerFinish?
    ensures InFlight(world, app)
    ensures ShowsDeploying(Next(world, step), app) <==> Marks(world, step, app) || ShowsDeploying(world, app)
  {
    hide Reports, UploadsInStep, Records, DeployingIsActive, RowsOwned;
    var after := Next(world, step);
    var k :| k in after.deployments && after.deployments[k].app == app && Active(after.deployments[k]);
    assert k in world.deployments && world.deployments[k].app == app;
    if step.task in world.workers && world.workers[step.task].id in world.deployments {
      assert InStep(world.deployments[world.workers[step.task].id], world.workers[step.task]);
    }
    assert Active(world.deployments[k]);
  }

  lemma RestartIdle(world: World, app: nat)
    ensures !HasActive(Reconciled(world).deployments, app)
  {}

  lemma StepShows(world: World, step: Step, app: nat)
    requires Good(world) && InFlight(Next(world, step), app)
    ensures Marks(world, step, app) || InFlight(world, app)
    ensures ShowsDeploying(Next(world, step), app) <==>
      Marks(world, step, app) || (ShowsDeploying(world, app) && !Hides(step, app))
  {
    hide Reports, HasUpload, OneActive, DeployingIsActive, WorkersInStep, Records, UploadsInStep;
    if step.WorkerStart? || step.WorkerReport? || step.WorkerFinish? {
      WorkerShows(world, step, app);
    } else if step.PanelRestart? {
      RestartIdle(world, app);
    }
  }

  lemma {:induction false} RunSnoc(world: World, steps: seq<Step>)
    requires steps != []
    ensures Run(world, steps) == Next(Run(world, steps[..|steps| - 1]), steps[|steps| - 1])
    decreases |steps|
  {
    hide Next;
    if |steps| > 1 {
      RunSnoc(Next(world, steps[0]), steps[1..]);
      assert steps[1..][..|steps| - 2] == steps[..|steps| - 1][1..];
    }
  }

  // Step i marks the application, and no later step hides it.
  predicate MarkStands(world: World, steps: seq<Step>, app: nat, i: nat)
    requires i < |steps|
  {
    Marks(Run(world, steps[..i]), steps[i], app) && forall j :: i < j < |steps| ==> !Hides(steps[j], app)
  }

  /** Over every run: an application in deployment shows "deploying" exactly when some step marked it and no later
      step hid it. */
  lemma {:induction false} RunShows(world: World, steps: seq<Step>, app: nat)
    requires Good(world) && AdmissibleRun(world, steps)
    requires !InFlight(world, app) && InFlight(Run(world, steps), app)
    ensures ShowsDeploying(Run(world, steps), app) <==> exists i :: 0 <= i < |steps| && MarkStands(world, steps, app, i)
    decreases |steps|
  {
    hide Good, Next, Run, Marks, Hides, InFlight, ShowsDeploying, AdmissibleRun;
    if steps == [] {
      RunNothing(world);
      return;
    }
    var last := |steps| - 1;
    var start := steps[..last];
    var before := Run(world, start);
    RunSnoc(world, steps);
    RunFront(world, steps);
    RunGood(world, start);
    StepShows(before, steps[last], app);
    if Marks(before, steps[last], app) {
      assert MarkStands(world, steps, app, last);
    } else {
      RunShows(world, start, app);
      StandsOn(world, steps, app);
      if i :| 0 <= i < last && MarkStands(world, start, app, i) && !Hides(steps[last], app) {
        assert MarkStands(world, steps, app, i);
      }
    }
  }

  lemma RunNothing(world: World)
    ensures Run(world, []) == world
  {}

  // A mark before the last step stands after it exactly when it stood and the last step does not hide it.
  lemma StandsOn(world: World, steps: seq<Step>, app: nat)
    requires steps != []
    ensures forall i :: 0 <= i < |steps| - 1 ==>
      (MarkStands(world, steps, app, i) <==>
        MarkStands(world, steps[..|steps| - 1], app, i) && !Hides(steps[|steps| - 1], app))
  {
    hide Next, Run, Marks, Hides;
    var start := steps[..|steps| - 1];
    forall i | 0 <= i < |start|
      ensures MarkStands(world, steps, app, i) <==> MarkStands(world, start, app, i) && !Hides(steps[|start|], app)
    {
      assert start[..i] == steps[..i];
      if MarkStands(world, start, app, i) && !Hides(steps[|start|], app) {
        forall j | i < j < |steps| ensures !Hides(steps[j], app) {
          if j < |start| { assert start[j] == steps[j]; }
        }
      }
      if MarkStands(world, steps, app, i) {
        forall j | i < j < |start| ensures !Hides(start[j], app) { assert start[j] == steps[j]; }
      }
    }
  }

  // ----- one deployment record over time -----

  function Rank(s: DeployStatus): nat {
    match s
    case Queued => 0
    case InProgress => 1
    case _ => 2
  }

  // Queued, running, then closed; progress never decreases; a closed record never changes.
  ghost predicate Evolves(d: Deployment, e: Deployment) {
    && d.app == e.app
    && Rank(d.status) <= Rank(e.status)
    && d.progress <= e.progress
    && (Terminal(d) ==> e == d)
  }

  // What one step may do to a record that it keeps: evolve, and be closed without having run only by a restart.
  ghost predicate Moves(world: World, step: Step, id: nat) {
    var after := Next(world, step);
    id in world.deployments && id in after.deployments ==>
      && Evolves(world.deployments[id], after.deployments[id])
      && (world.deployments[id].status.Queued? && Terminal(after.deployments[id]) ==>
          step.PanelRestart? && after.deployments[id].status.Aborted?)
  }

  lemma WorkerMoves(world: World, step: Step, id: nat)
    requires Good(world) && (step.WorkerStart? || step.WorkerReport? || step.WorkerFinish?)
    ensures Moves(world, step, id)
  {
    hide Reports, OneActive, DeployingIsActive, RowsOwned, UploadsInStep, Held;
    var task := step.task;
    if id in world.deployments && task in world.workers && world.workers[task].id == id {
      assert InStep(world.deployments[id], world.workers[task]) && GoodRecord(world.deployments[id]);
      if world.workers[task].Working? { ReportsIncrease(world.workers[task].kind); }
    }
  }

  lemma RestartMoves(world: World, id: nat)
    ensures Moves(world, PanelRestart, id)
  {
    hide HasActive, CloseApp, CloseUpload;
  }

  lemma OtherMoves(world: World, step: Step, id: nat)
    requires !step.WorkerStart? && !step.WorkerReport? && !step.WorkerFinish? && !step.PanelRestart?
    ensures Moves(world, step, id)
  {
    hide Reports, HasActive, HasUpload, Listed, Shown;
  }

  /** One step: an existing record evolves, and only a restart closes a record that never ran. */
  lemma StepEvolves(world: World, step: Step, id: nat)
    requires Good(world)
    ensures Moves(world, step, id)
  {
    hide Good, Moves;
    match step {
      case WorkerStart(_) => WorkerMoves(world, step, id);
      case WorkerReport(_) => WorkerMoves(world, step, id);
      case WorkerFinish(_, _) => WorkerMoves(world, step, id);
      case PanelRestart => RestartMoves(world, id);
      case _ => OtherMoves(world, step, id);
    }
  }

  /** As long as a record exists it moves from queued through running to closed, with progress never going back. */
  lemma {:induction false} RunEvolves(world: World, steps: seq<Step>, id: nat)
    requires Good(world) && AdmissibleRun(world, steps)
    requires forall n :: 0 <= n <= |steps| ==> id in Run(world, steps[..n]).deployments
    ensures id in world.deployments && id in Run(world, steps).deployments
    ensures Evolves(world.deployments[id], Run(world, steps).deployments[id])
    decreases |steps|
  {
    hide Good, Next, Admissible;
    assert Run(world, steps[..0]) == world;
    assert steps[..|steps|] == steps;
    if steps != [] {
      var next := Next(world, steps[0]);
      forall n | 0 <= n < |steps| ensures id in Run(next, steps[1..][..n]).deployments {
        assert steps[..n + 1][1..] == steps[1..][..n];
        assert id in Run(world, steps[..n + 1]).deployments;
      }
      assert Run(next, steps[1..][..0]) == next;
      StepGood(world, steps[0]);
      StepEvolves(world, steps[0], id);
      RunEvolves(next, steps[1..], id);
    }
  }

  // ----- the status of an application -----

  function StatusNow(world: World, app: nat): Option<Status> {
    if app in world.apps then Some(world.apps[app].status) else None
  }

  // A working task of the application closes its deployment.
  predicate Closes(world: World, step: Step, app: nat) {
    && step.WorkerFinish? && step.task in world.workers && world.workers[step.task].Working?
    && var w := world.workers[step.task];
       w.app == app && w.id in world.deployments && (step.ok ==> w.next >= |Reports(w.kind)|)
  }

  // The step writes the application's status, or makes or deletes the application.
  predicate Writes(world: World, step: Step, app: nat) {
    match step
    case CreateApp(a, _) => a == app
    case DeleteApp(a) => a == app
    case ListApps(seen) => app in seen
    case GetApp(a, _) => a == app
    case Act(a, operation, present, ok) => a == app && if present then ok else operation.Stop?
    case RequestRestore(a) => a == app
    case FinishRestore(a, _) => a == app
    case PanelRestart => HasActive(world.deployments, app)
    case _ => Marks(world, step, app) || Closes(world, step, app)
  }

  // What Docker reports for a container that does not run.
  function Idle(current: Inspected): Status {
    if current.IsOther? then Reported(current.text) else Stopped
  }

  // The status after a step: a failure is kept by the listing but not by a look at one running application, and both
  // keep a deployment that Docker does not show as running.
  function StatusAfter(world: World, step: Step, app: nat): Option<Status> {
    if app !in world.apps then if step.CreateApp? && step.app == app then Some(Created) else None
    else if step == DeleteApp(app) then None
    else
      var status := world.apps[app].status;
      if step.CreateApp? || !Writes(world, step, app) then Some(status)
      else if Marks(world, step, app) then Some(Deploying)
      else
        match step
        case WorkerFinish(_, ok) => Some(if ok then Running else Failed)
        case ListApps(seen) => Some(
          if status.Failed? then Failed
          else if seen[app].IsRunning? then Running
          else if status.Deploying? then Deploying
          else Idle(seen[app]))
        case GetApp(_, current) => Some(
          if current.IsRunning? then Running
          else if status.Failed? || status.Deploying? then status
          else Idle(current))
        case Act(_, operation, _, _) => Some(if operation.Stop? then Stopped else Running)
        case RequestRestore(_) => Some(Restoring)
        case FinishRestore(_, ok) => Some(if ok then Running else Failed)
        case PanelRestart => Some(if status.Deploying? then Failed else status)
        case _ => Some(status)
  }

  lemma StepStatus(world: World, step: Step, app: nat)
    ensures StatusNow(Next(world, step), app) == StatusAfter(world, step, app)
  {
    hide HasActive, HasUpload, Reports, Closed, CloseUpload;
  }

  // The last step that writes the status is step k.
  predicate LastWrite(world: World, steps: seq<Step>, app: nat, k: nat)
    requires k < |steps|
  {
    forall j :: k < j < |steps| ==> !Writes(Run(world, steps[..j]), steps[j], app)
  }

  /** Over every run the status is what the last step that writes it gives: between deployments that of the last
      closing, until a listing, an operation or a restore. */
  lemma {:induction false} RunStatus(world: World, steps: seq<Step>, app: nat, k: nat)
    requires k < |steps| && LastWrite(world, steps, app, k)
    ensures StatusNow(Run(world, steps), app) == StatusAfter(Run(world, steps[..k]), steps[k], app)
    decreases |steps|
  {
    hide Next, Run, Writes, StatusAfter, StatusNow;
    var last := |steps| - 1;
    var front := steps[..last];
    RunSnoc(world, steps);
    StepStatus(Run(world, front), steps[last], app);
    if k < last {
      assert forall j | 0 <= j <= last :: front[..j] == steps[..j];
      assert forall j | 0 <= j < last :: front[j] == steps[j];
      RunStatus(world, front, app, k);
      Unwritten(Run(world, front), steps[last], app);
    }
  }

  lemma Unwritten(world: World, step: Step, app: nat)
    requires !Writes(world, step, app)
    ensures StatusAfter(world, step, app) == StatusNow(world, app)
  {
    hide HasActive, Reports;
  }

  /** When a working task closes its deployment, the record and its application agree: both are well, or both have
      failed; no other record or application changes. */
  lemma CloseAgrees(world: World, task: nat, ok: bool, app: nat)
    requires Good(world) && Closes(world, WorkerFinish(task, ok), app)
    ensures var after := Next(world, WorkerFinish(task, ok));
      var id := world.workers[task].id;
      && id in after.deployments && after.deployments[id].app == app && app in after.apps
      && after.deployments[id].finished && after.deployments[id].progress == 100
      && after.deployments[id].status == (if ok then Completed else Aborted)
      && (after.apps[app].status.Running? <==> after.deployments[id].status.Completed?)
      && (after.apps[app].status.Failed? <==> after.deployments[id].status.Aborted?)
      && task !in after.workers
      && after.deployments == world.deployments[id := after.deployments[id]]
      && after.apps == world.apps[app := after.apps[app]]
  {
    hide Reports, OneActive, DeployingIsActive, Records, UploadsInStep;
    var w := world.workers[task];
    assert InStep(world.deployments[w.id], w);
  }

  // ----- restarts, uploads, deletions -----

  function Interrupted(d: Deployment): Deployment {
    if Terminal(d) then d else Deployment(d.app, Aborted, "interrupted", d.progress, true)
  }

  /** A restart closes exactly what was open: active records as interrupted with their progress kept, applications that
      were deploying as failed, uploads in progress as rejected. */
  lemma RestartExact(world: World)
    requires Good(world)
    ensures var after := Next(world, PanelRestart);
      && after.deployments.Keys == world.deployments.Keys && after.apps.Keys == world.apps.Keys
      && after.uploads.Keys == world.uploads.Keys && after.workers == map[] && after.uploading == {}
      && (forall id | id in world.deployments :: after.deployments[id] == Interrupted(world.deployments[id]))
      && (forall app | app in world.apps :: after.apps[app].kind == world.apps[app].kind &&
            after.apps[app].status == if world.apps[app].status.Deploying? then Failed else world.apps[app].status)
      && (forall id | id in world.uploads :: after.uploads[id].app == world.uploads[id].app &&
            after.uploads[id].status ==
              if world.uploads[id].status.Processing? then Rejected else world.uploads[id].status)
  {
    hide OneActive, WorkersInStep, Records, RowsOwned, UploadsInStep, HasActive;
  }

  /** An upload begins exactly when the application is there and has none in progress, and ends stored or rejected. */
  lemma UploadExact(world: World, app: nat, id: nat, ok: bool)
    requires id !in world.uploads && id !in world.uploading
    ensures var begun := Next(world, StartUpload(app, id));
      var ended := Next(begun, FinishUpload(id, ok));
      && (begun != world <==> app in world.apps && !HasUpload(world.uploads, app))
      && (begun != world ==>
          && begun.uploads == world.uploads[id := Upload(app, Processing)]
          && ended.uploads == world.uploads[id := Upload(app, if ok then Stored else Rejected)]
          && ended.uploading == world.uploading)
      && begun.apps == ended.apps == world.apps && begun.deployments == ended.deployments == world.deployments
  {
    hide HasUpload;
    assert world.uploads[id := Upload(app, Processing)][id] == Upload(app, Processing);
    assert world.uploading + {id} - {id} == world.uploading;
  }

  /** Deleting an application takes its row, its deployments and its uploads, and nothing of any other application. */
  lemma DeletionExact(world: World, app: nat)
    ensures var after := Next(world, DeleteApp(app));
      && after.apps == world.apps - {app}
      && (app in world.apps ==>
          && (forall id :: id in after.deployments <==> id in world.deployments && world.deployments[id].app != app)
          && (forall id :: id in after.uploads <==> id in world.uploads && world.uploads[id].app != app))
      && (forall id :: id in after.deployments ==> after.deployments[id] == world.deployments[id])
      && (forall id :: id in after.uploads ==> after.uploads[id] == world.uploads[id])
  {}

  // ----- the start-up loop -----

  class Panel {
    var apps: map<nat, AppRow>
    var deployments: map<nat, Deployment>
    var uploads: map<nat, Upload>

    var workers: map<nat, Worker>
    ghost var uploading: set<nat>

    ghost function State(): World
      reads this
    {
      World(apps, deployments, uploads, workers, uploading)
    }

    /** deploy_app: refused while a deployment of the application is queued or running. */
    method RequestNewDeploy(app: nat, dockerUp: bool, id: nat, task: nat) returns (accepted: bool)
      requires id !in deployments && task !in workers
      modifies this
      ensures State() == Next(old(State()), RequestDeploy(app, dockerUp, id, task))
      ensures accepted <==> app in old(apps) && dockerUp && !HasActive(old(deployments), app)
    {
      if app !in apps || !dockerUp {
        return false;
      }
      var active := set k | k in deployments && deployments[k].app == app && Active(deployments[k]);
      if active != {} {
        var k :| k in active;
        assert HasActive(deployments, app);
        return false;
      }
      assert forall k :: k in deployments && deployments[k].app == app && Active(deployments[k]) ==> k in active;
      apps := apps[app := apps[app].(status := Deploying)];
      deployments := deployments[id := Deployment(app, Queued, "queued", 0, false)];
      workers := workers[task := Waiting(app, id)];
      accepted := true;
    }

    /** The final section of _deploy_background on the panel's rows: nothing is written when a row is gone. */
    method CloseDeployment(task: nat, ok: bool)
      requires task in workers && workers[task].Working?
      requires ok ==> workers[task].next >= |Reports(workers[task].kind)|
      modifies this
      ensures State() == Next(old(State()), WorkerFinish(task, ok))
    {
      hide Reports;
      var w := workers[task];
      if w.app in apps && w.id in deployments {
        apps := apps[w.app := apps[w.app].(status := if ok then Running else Failed)];
        deployments := deployments[w.id :=
          deployments[w.id].(status := if ok then Completed else Aborted,
              stage := if ok then "completed" else "failed", progress := 100, finished := true)];
      }
      workers := workers - {task};
    }

    method CloseDeployments(ghost before: Deployments) returns (affected: set<nat>)
      requires deployments == before
      modifies this`deployments
      ensures deployments == map id | id in before :: Closed(before[id])
      ensures forall app :: app in affected <==> HasActive(before, app)
    {
      affected := {};
      var todo := set id | id in deployments && Active(deployments[id]);
      ghost var open := todo;
      while todo != {}
        invariant todo <= open && deployments.Keys == before.Keys
        invariant forall id :: id in deployments ==>
          deployments[id] == if id in todo then before[id] else Closed(before[id])
        invariant affected == set id | id in open - todo :: before[id].app
      {
        var id :| id in todo;
        affected := affected + {deployments[id].app};
        deployments := deployments[id := Closed(deployments[id])];
        todo := todo - {id};
      }
      forall app ensures app in affected <==> HasActive(before, app) {
        if HasActive(before, app) {
          var id :| id in before && before[id].app == app && Active(before[id]);
          assert id in open;
        }
      }
    }

    method CloseApps(affected: set<nat>, ghost before: map<nat, AppRow>)
      requires apps == before
      modifies this`apps
      ensures apps == map app | app in before :: CloseApp(before[app], app in affected)
    {
      var names := affected;
      while names != {}
        invariant names <= affected && apps.Keys == before.Keys
        invariant forall app :: app in apps ==> apps[app] == CloseApp(before[app], app in affected && app !in names)
      {
        var app :| app in names;
        if app in apps && apps[app].status.Deploying? {
          apps := apps[app := apps[app].(status := Failed)];
        }
        names := names - {app};
      }
    }

    method CloseUploads(ghost before: map<nat, Upload>)
      requires uploads == before
      modifies this`uploads
      ensures uploads == map id | id in before :: CloseUpload(before[id])
    {
      var pending := set id | id in uploads && uploads[id].status.Processing?;
      while pending != {}
        invariant pending <= uploads.Keys && uploads.Keys == before.Keys
        invariant forall id :: id in uploads ==>
          uploads[id] == if id in pending then before[id] else CloseUpload(before[id])
      {
        var id :| id in pending;
        uploads := uploads[id := CloseUpload(uploads[id])];
        pending := pending - {id};
      }
    }

    /** reconcile_interrupted_deployments: its three loops over the rows. */
    method Reconcile(ghost world: World)
      requires apps == world.apps && deployments == world.deployments && uploads == world.uploads
      modifies this`apps, this`deployments, this`uploads
      ensures apps == Reconciled(world).apps && deployments == Reconciled(world).deployments &&
          uploads == Reconciled(world).uploads
    {
      hide HasActive;
      var affected := CloseDeployments(world.deployments);
      CloseApps(affected, world.apps);
      CloseUploads(world.uploads);
    }

    /** list_apps: refresh every row from Docker. */
    method Refresh(current: map<nat, Inspected>, ghost world: World)
      requires apps == world.apps
      modifies this`apps
      ensures apps == Next(world, ListApps(current)).apps
    {
      var todo := apps.Keys;
      while todo != {}
        invariant todo <= apps.Keys && apps.Keys == world.apps.Keys
        invariant forall app | app in apps ::
          apps[app] == if app in todo || app !in current then world.apps[app]
                       else world.apps[app].(status := Listed(world.apps[app].status, current[app]))
      {
        var app :| app in todo;
        if app in current {
          var row := apps[app];
          var mapped :=
            if current[app].IsRunning? then Running
            else if row.status.Deploying? then Deploying
            else StatusOf(current[app]);
          if mapped != row.status && !row.status.Failed? {
            apps := apps[app := row.(status := mapped)];
          }
        }
        todo := todo - {app};
      }
    }
  }
}
