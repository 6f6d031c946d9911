// Runs over all databases: deploys, access changes, start-up passes and
// deletions, with every command allowed to fail.
module DatabaseRuns {
  import opened Results
  import opened Cidr
  import opened Firewall
  import opened FirewallRuns
  import opened DatabaseDeploy

  // A start-up pass visits the listed ids, each with its own failing command.
  datatype Visit = Visit(id: nat, fault: nat)

  datatype Call =
    | DeployCall(id: nat, w: CommandOutcomes)
    | AccessCall(id: nat, enabled: bool, cidrs: seq<string>, running: bool,
                 first: CommandOutcomes, second: CommandOutcomes)
    | SyncCall(visits: seq<Visit>)
    | DeleteCall(id: nat, removed: bool)

  datatype World = World(host: HostState, rows: map<nat, DbApp>)

  ghost predicate ValidWorld(world: World, ports: Ports) {
    forall id :: id in world.rows ==> world.rows[id].id == id && Known(world.rows[id], ports)
  }

  // The rows a pass visits, with the failing commands.
  function Visited(rows: map<nat, DbApp>, visits: seq<Visit>): (r: (seq<DbApp>, seq<nat>))
    ensures |r.0| == |r.1|
  {
    if visits == [] then ([], [])
    else
      var (apps, faults) := Visited(rows, visits[1..]);
      if visits[0].id in rows then ([rows[visits[0].id]] + apps, [visits[0].fault] + faults) else (apps, faults)
  }

  // delete_app, as far as the packet filter and the container go.
  function Deleted(h: HostState, app: DbApp, removed: bool): HostState {
    HostState(Cleared(h.table, app), if removed then h.binds - {app.id} else h.binds, h.published)
  }

  // A call about a database that has no row is answered with an error.
  function Apply(world: World, call: Call): World {
    match call
    case DeployCall(id, w) =>
      if id !in world.rows then world else world.(host := Deployed(world.host, world.rows[id], w).0)
    case AccessCall(id, enabled, cidrs, running, first, second) =>
      if id !in world.rows then world
      else
        var (host, row, _) := Accessed(world.host, world.rows[id], enabled, cidrs, running, first, second);
        World(host, world.rows[id := row])
    case SyncCall(visits) =>
      var (apps, faults) := Visited(world.rows, visits);
      world.(host := world.host.(table := Synced(world.host.table, apps, faults).0))
    case DeleteCall(id, removed) =>
      if id !in world.rows then world else World(Deleted(world.host, world.rows[id], removed), world.rows - {id})
  }

  function FiltersAfterCall(filters: Filters, world: World, call: Call): Filters {
    match call
    case DeployCall(id, w) =>
      if id !in world.rows then filters else FiltersAfterDeploy(filters, world.rows[id], w, world.host)
    case AccessCall(id, enabled, cidrs, running, first, second) =>
      if id !in world.rows then filters
      else FiltersAfterAccess(filters, world.host, world.rows[id], enabled, cidrs, running, first, second)
    case SyncCall(visits) =>
      var (apps, faults) := Visited(world.rows, visits);
      FiltersAfterSync(filters, apps, faults).0
    case DeleteCall(id, _) => if id !in world.rows then filters else filters - {id}
  }

  function RunCalls(world: World, calls: seq<Call>): World
    decreases |calls|
  {
    if calls == [] then world else RunCalls(Apply(world, calls[0]), calls[1..])
  }

  function RunFiltersOf(filters: Filters, world: World, calls: seq<Call>): Filters
    decreases |calls|
  {
    if calls == [] then filters
    else RunFiltersOf(FiltersAfterCall(filters, world, calls[0]), Apply(world, calls[0]), calls[1..])
  }

  lemma ApplyKeepsRows(world: World, call: Call, ports: Ports)
    requires ValidWorld(world, ports)
    ensures ValidWorld(Apply(world, call), ports)
  {
    hide Deployed, Configured, Cleared, Normalized, Synced;
  }

  lemma {:induction false} VisitedMembers(rows: map<nat, DbApp>, visits: seq<Visit>, app: DbApp)
    requires app in Visited(rows, visits).0
    ensures exists k :: 0 <= k < |visits| && visits[k].id in rows && rows[visits[k].id] == app
  {
    if visits[0].id in rows && rows[visits[0].id] == app {
    } else {
      VisitedMembers(rows, visits[1..], app);
      var k :| 0 <= k < |visits[1..]| && visits[1..][k].id in rows && rows[visits[1..][k].id] == app;
      assert visits[k + 1] == visits[1..][k];
    }
  }

  /** The table implements the filters in force after every call, and every `docker run` was guarded. */
  lemma CallStep(world: World, call: Call, ports: Ports, filters: Filters)
    requires ValidWorld(world, ports) && Represents(world.host.table, ports, filters)
    requires AllGuarded(world.host.published)
    ensures var after := Apply(world, call).host;
      Represents(after.table, ports, FiltersAfterCall(filters, world, call)) && AllGuarded(after.published)
  {
    hide Represents, AllGuarded, Deployed, Accessed, FiltersAfterDeploy, FiltersAfterAccess, Cleared;
    hide Synced, FiltersAfterSync;
    match call {
      case DeployCall(id, w) =>
        if id in world.rows {
          DeployStep(world.host, ports, filters, world.rows[id], w);
          DeployGuards(world.host, world.rows[id], w);
        }
      case AccessCall(id, enabled, cidrs, running, first, second) =>
        if id in world.rows {
          AccessStep(world.host, ports, filters, world.rows[id], enabled, cidrs, running, first, second);
        }
      case SyncCall(visits) =>
        var (apps, faults) := Visited(world.rows, visits);
        forall i | 0 <= i < |apps| ensures Known(apps[i], ports) {
          VisitedMembers(world.rows, visits, apps[i]);
        }
        SyncStep(world.host.table, ports, filters, apps, faults);
      case DeleteCall(id, _) =>
        if id in world.rows { ClearStep(world.host.table, ports, filters, world.rows[id]); }
    }
  }

  /** Over every run, whatever fails, each `docker run` on all interfaces was issued with its filter in force, and the
      rule table implements the filters of the run. */
  lemma {:induction false} RunGuards(world: World, calls: seq<Call>, ports: Ports, filters: Filters)
    requires ValidWorld(world, ports) && Represents(world.host.table, ports, filters)
    requires AllGuarded(world.host.published)
    ensures AllGuarded(RunCalls(world, calls).host.published) && ValidWorld(RunCalls(world, calls), ports)
    ensures Represents(RunCalls(world, calls).host.table, ports, RunFiltersOf(filters, world, calls))
    decreases |calls|
  {
    hide Represents, AllGuarded, Apply, FiltersAfterCall;
    if calls != [] {
      ApplyKeepsRows(world, calls[0], ports);
      CallStep(world, calls[0], ports, filters);
      RunGuards(Apply(world, calls[0]), calls[1..], ports, FiltersAfterCall(filters, world, calls[0]));
    }
  }

  // ----- calls about other databases -----

  predicate About(call: Call, id: nat) {
    match call
    case SyncCall(visits) => exists k :: 0 <= k < |visits| && visits[k].id == id
    case _ => call.id == id
  }

  predicate SameAt<T(==)>(m: map<nat, T>, m': map<nat, T>, id: nat) {
    if id in m then id in m' && m'[id] == m[id] else id !in m'
  }

  // Row, address and filter of one database are the same.
  ghost predicate SameFor(id: nat, world: World, filters: Filters, after: World, filters': Filters) {
    && SameAt(world.rows, after.rows, id) && SameAt(world.host.binds, after.host.binds, id)
    && SameAt(filters, filters', id)
  }

  lemma DeployKeepsOthers(h: HostState, filters: Filters, app: DbApp, w: CommandOutcomes, id: nat)
    requires app.id != id
    ensures SameAt(h.binds, Deployed(h, app, w).0.binds, id)
    ensures SameAt(filters, FiltersAfterDeploy(filters, app, w, h), id)
  {
    hide Configured, Cleared, Normalized, Succeeds;
  }

  lemma AccessKeepsOthers(h: HostState, filters: Filters, stored: DbApp, enabled: bool, cidrs: seq<string>,
                          running: bool, first: CommandOutcomes, second: CommandOutcomes, id: nat)
    requires stored.id != id
    ensures SameAt(h.binds, Accessed(h, stored, enabled, cidrs, running, first, second).0.binds, id)
    ensures SameAt(filters, FiltersAfterAccess(filters, h, stored, enabled, cidrs, running, first, second), id)
  {
    hide Configured, Cleared, Normalized, Succeeds, Deployed, FiltersAfterDeploy;
    if Normalized(cidrs).Ok? {
      var wanted := stored.(public := enabled, cidrs := Normalized(cidrs).value);
      DeployKeepsOthers(h, filters, wanted, first, id);
      var h1, f1 := Deployed(h, wanted, first).0, FiltersAfterDeploy(filters, wanted, first, h);
      DeployKeepsOthers(h1, f1, stored, second, id);
    }
  }

  /** A call about other databases, or about one that has no row, changes nothing for this one, whether it succeeds or
      fails. */
  lemma CallKeepsOthers(world: World, call: Call, ports: Ports, filters: Filters, id: nat)
    requires ValidWorld(world, ports) && (!About(call, id) || id !in world.rows)
    ensures SameFor(id, world, filters, Apply(world, call), FiltersAfterCall(filters, world, call))
  {
    hide Deployed, Accessed, FiltersAfterDeploy, FiltersAfterAccess, Cleared, Synced, Visited, FiltersAfterSync;
    match call {
      case DeployCall(k, w) =>
        if k in world.rows { DeployKeepsOthers(world.host, filters, world.rows[k], w, id); }
      case AccessCall(k, enabled, cidrs, running, first, second) =>
        if k in world.rows {
          AccessKeepsOthers(world.host, filters, world.rows[k], enabled, cidrs, running, first, second, id);
        }
      case SyncCall(visits) =>
        var (apps, faults) := Visited(world.rows, visits);
        forall i | 0 <= i < |apps| ensures apps[i].id != id {
          VisitedMembers(world.rows, visits, apps[i]);
        }
        SyncLeavesOthers(filters, apps, faults, id);
      case DeleteCall(_, _) =>
    }
  }

  lemma {:induction false} RunKeepsOthers(world: World, calls: seq<Call>, ports: Ports, filters: Filters, id: nat)
    requires ValidWorld(world, ports) && forall i :: 0 <= i < |calls| ==> !About(calls[i], id)
    ensures SameFor(id, world, filters, RunCalls(world, calls), RunFiltersOf(filters, world, calls))
    decreases |calls|
  {
    hide Apply, FiltersAfterCall, About;
    if calls != [] {
      ApplyKeepsRows(world, calls[0], ports);
      CallKeepsOthers(world, calls[0], ports, filters, id);
      RunKeepsOthers(Apply(world, calls[0]), calls[1..], ports, FiltersAfterCall(filters, world, calls[0]), id);
    }
  }

  lemma {:induction false} RunSplits(world: World, calls: seq<Call>, filters: Filters, k: nat)
    requires k < |calls|
    ensures var before := RunCalls(world, calls[..k]);
      var f := RunFiltersOf(filters, world, calls[..k]);
      && RunCalls(world, calls) == RunCalls(Apply(before, calls[k]), calls[k + 1..])
      && RunFiltersOf(filters, world, calls) ==
           RunFiltersOf(FiltersAfterCall(f, before, calls[k]), Apply(before, calls[k]), calls[k + 1..])
    decreases k
  {
    hide Apply, FiltersAfterCall;
    if k > 0 {
      RunSplits(Apply(world, calls[0]), calls[1..], FiltersAfterCall(filters, world, calls[0]), k - 1);
      assert calls[..k][1..] == calls[1..][..k - 1];
      assert calls[1..][k..] == calls[k + 1..];
    }
  }

  // ----- flag, address and filter after the last effective call -----

  // The call ends with a container made from the stored row.  An access change on a stopped container keeps the
  // old address, so it does not.
  ghost predicate Effective(world: World, call: Call, id: nat) {
    match call
    case DeployCall(k, w) => k == id && id in world.rows && Deployed(world.host, world.rows[id], w).1 == Done(true)
    case AccessCall(k, enabled, cidrs, running, first, second) =>
      && k == id && id in world.rows && running
      && (var outcome := Accessed(world.host, world.rows[id], enabled, cidrs, running, first, second).2;
          outcome == Changed || outcome == Failed(Done(true)))
    case _ => false
  }

  lemma EffectiveAgrees(world: World, call: Call, ports: Ports, filters: Filters, id: nat)
    requires ValidWorld(world, ports) && Represents(world.host.table, ports, filters) && Effective(world, call, id)
    ensures var after := Apply(world, call);
      && id in after.rows && after.rows[id].id == id
      && Agrees(after.host, FiltersAfterCall(filters, world, call), after.rows[id])
  {
    hide Represents, Deployed, Agrees, FiltersAfterDeploy, Accessed, FiltersAfterAccess;
    ApplyKeepsRows(world, call, ports);
    match call {
      case DeployCall(_, w) => DeployAgrees(world.host, ports, filters, world.rows[id], w);
      case AccessCall(_, enabled, cidrs, running, first, second) =>
        AccessAgrees(world.host, ports, filters, world.rows[id], enabled, cidrs, first, second);
    }
  }

  /** Over every run, and whatever becomes of calls about other databases: after the last call about a database, if it
      was effective, its flag, the address it is published on and its filter agree. */
  lemma RunAgrees(world: World, calls: seq<Call>, ports: Ports, filters: Filters, id: nat, k: nat)
    requires ValidWorld(world, ports) && Represents(world.host.table, ports, filters)
    requires AllGuarded(world.host.published)
    requires k < |calls| && Effective(RunCalls(world, calls[..k]), calls[k], id)
    requires forall i :: k < i < |calls| ==> !About(calls[i], id)
    ensures var after := RunCalls(world, calls);
      id in after.rows && Agrees(after.host, RunFiltersOf(filters, world, calls), after.rows[id])
  {
    hide Represents, AllGuarded, Apply, FiltersAfterCall, Effective, About, RunCalls, RunFiltersOf;
    var before := RunCalls(world, calls[..k]);
    var f := RunFiltersOf(filters, world, calls[..k]);
    RunGuards(world, calls[..k], ports, filters);
    EffectiveAgrees(before, calls[k], ports, f, id);
    ApplyKeepsRows(before, calls[k], ports);
    RunSplits(world, calls, filters, k);
    RunKeepsOthers(Apply(before, calls[k]), calls[k + 1..], ports, FiltersAfterCall(f, before, calls[k]), id);
  }

  /** What that means for packets: a public database is reached through its port from exactly the ranges of its row,
      and the rules of this program do not concern a private one. */
  lemma RunDecides(world: World, calls: seq<Call>, ports: Ports, filters: Filters, id: nat, k: nat,
                   foreign: (nat, Packet) -> Verdict, p: Packet)
    requires ValidWorld(world, ports) && Represents(world.host.table, ports, filters)
    requires AllGuarded(world.host.published)
    requires k < |calls| && Effective(RunCalls(world, calls[..k]), calls[k], id)
    requires forall i :: k < i < |calls| ==> !About(calls[i], id)
    requires p.tcp && id in ports && p.origPort == ports[id]
    ensures var after := RunCalls(world, calls);
      && id in after.rows && after.rows[id].port == p.origPort
      && TableVerdict(after.host.table, foreign, p) ==
         if after.rows[id].public then (if AdmitsAny(after.rows[id].cidrs, p.source) then Accepted else Dropped)
         else ForeignOnly(after.host.table, foreign, p)
  {
    hide Represents, AllGuarded, Effective, About, RunCalls, RunFiltersOf, AdmitsAny, TableVerdict, Normalized;
    RunAgrees(world, calls, ports, filters, id, k);
    RunGuards(world, calls, ports, filters);
    var after, f := RunCalls(world, calls), RunFiltersOf(filters, world, calls);
    VerdictIsMembership(after.host.table, ports, f, foreign, p);
    InjectiveOf(after.host.table, ports, f);
    if after.rows[id].public { NormalizedAdmits(after.rows[id].cidrs, p.source); }
  }

  // The verdict of the rules that this program did not write.
  function ForeignOnly(t: Table, foreign: (nat, Packet) -> Verdict, p: Packet): Verdict {
    UserVerdict(Table(ForeignPart(t.user), map[]), ForeignPart(t.user), foreign, p)
  }

  // Visits name each application once, as the rows of a query do.
  ghost predicate DistinctVisits(visits: seq<Visit>) {
    forall j, k :: 0 <= j < k < |visits| ==> visits[j].id != visits[k].id
  }

  // No earlier application of the pass has an unusable list.
  predicate ReachedBy(rows: map<nat, DbApp>, visits: seq<Visit>, k: nat)
    requires k < |visits|
  {
    !exists j :: 0 <= j < k && visits[j].id in rows && Stops(rows[visits[j].id])
  }

  // How many of the first k visits find a row: the position of visit k among the rows visited.
  function Position(rows: map<nat, DbApp>, visits: seq<Visit>, k: nat): (i: nat)
    requires k < |visits|
    decreases |visits|
  {
    if k == 0 then 0 else Position(rows, visits[1..], k - 1) + if visits[0].id in rows then 1 else 0
  }

  lemma {:induction false} PositionVisited(rows: map<nat, DbApp>, visits: seq<Visit>, k: nat)
    requires k < |visits| && visits[k].id in rows
    ensures var (apps, faults) := Visited(rows, visits);
      var i := Position(rows, visits, k);
      i < |apps| && apps[i] == rows[visits[k].id] && faults[i] == visits[k].fault
    decreases |visits|
  {
    if k > 0 { PositionVisited(rows, visits[1..], k - 1); }
  }

  // Some application visited before visit k has an unusable list.
  lemma {:induction false} PositionStops(rows: map<nat, DbApp>, visits: seq<Visit>, k: nat)
    requires k < |visits| && visits[k].id in rows
    ensures Position(rows, visits, k) < |Visited(rows, visits).0|
    ensures StopsBefore(Visited(rows, visits).0, Position(rows, visits, k)) <==> !ReachedBy(rows, visits, k)
    decreases |visits|
  {
    hide Stops;
    PositionVisited(rows, visits, k);
    if k > 0 {
      var rest := visits[1..];
      PositionVisited(rows, rest, k - 1);
      PositionStops(rows, rest, k - 1);
      ReachedTail(rows, visits, k);
      var tail := Visited(rows, rest).0;
      if visits[0].id in rows { StopsTail(rows[visits[0].id], tail, Position(rows, rest, k - 1)); }
    }
  }

  lemma StopsTail(app: DbApp, tail: seq<DbApp>, i: nat)
    requires i <= |tail|
    ensures StopsBefore([app] + tail, i + 1) <==> Stops(app) || StopsBefore(tail, i)
  {
    hide Stops;
    var apps := [app] + tail;
    if j :| 0 <= j < i && Stops(tail[j]) { assert Stops(apps[j + 1]); }
    if Stops(app) { assert Stops(apps[0]); }
  }

  lemma ReachedTail(rows: map<nat, DbApp>, visits: seq<Visit>, k: nat)
    requires 0 < k < |visits|
    ensures ReachedBy(rows, visits, k) <==>
      !(visits[0].id in rows && Stops(rows[visits[0].id])) && ReachedBy(rows, visits[1..], k - 1)
  {
    hide Stops;
    var rest := visits[1..];
    if j :| 0 <= j < k - 1 && rest[j].id in rows && Stops(rows[rest[j].id]) {
      assert visits[j + 1].id in rows && Stops(rows[visits[j + 1].id]);
    }
    if j :| 0 < j < k && visits[j].id in rows && Stops(rows[visits[j].id]) {
      assert rest[j - 1].id in rows && Stops(rows[rest[j - 1].id]);
    }
  }

  lemma {:induction false} DistinctVisited(rows: map<nat, DbApp>, visits: seq<Visit>)
    requires DistinctVisits(visits) && forall id :: id in rows ==> rows[id].id == id
    ensures var apps := Visited(rows, visits).0; forall a, b :: 0 <= a < b < |apps| ==> apps[a].id != apps[b].id
    decreases |visits|
  {
    if visits != [] {
      var rest := visits[1..];
      assert forall j | 0 <= j < |rest| :: rest[j] == visits[j + 1];
      DistinctVisited(rows, rest);
      var tail := Visited(rows, rest).0;
      forall b | 0 <= b < |tail| ensures tail[b].id != visits[0].id {
        VisitedMembers(rows, rest, tail[b]);
      }
      var apps := Visited(rows, visits).0;
      var first := |apps| - |tail|;
      assert apps[first..] == tail && (first == 1 ==> apps[0].id == visits[0].id);
      forall a, b | 0 <= a < b < |apps| ensures apps[a].id != apps[b].id {
        assert apps[b] == tail[b - first];
        if a >= first { assert apps[a] == tail[a - first]; }
      }
    }
  }

  // ----- a public address and its filter, over runs -----

  ghost predicate VisitCovers(world: World, visits: seq<Visit>, k: nat, covered: bool)
    requires k < |visits| && visits[k].id in world.rows
  {
    if ReachedBy(world.rows, visits, k) then
      Succeeds(world.rows[visits[k].id], visits[k].fault) || !Bound(world.host, visits[k].id)
    else covered
  }

  // Whether a call about a database leaves it covered, from what it was before.
  ghost predicate CallCovers(world: World, call: Call, id: nat, covered: bool)
    requires About(call, id)
  {
    if id !in world.rows then covered
    else
      match call
      case DeployCall(_, w) => DeployCovers(world.host, world.rows[id], w, covered)
      case AccessCall(_, enabled, cidrs, running, first, second) =>
        AccessCovers(world.host, world.rows[id], enabled, cidrs, running, first, second, covered)
      case SyncCall(visits) =>
        var k :| 0 <= k < |visits| && visits[k].id == id;
        VisitCovers(world, visits, k, covered)
      case DeleteCall(_, removed) => removed || !Bound(world.host, id)
  }

  lemma SyncCovered(world: World, visits: seq<Visit>, ports: Ports, filters: Filters, k: nat)
    requires ValidWorld(world, ports) && DistinctVisits(visits) && k < |visits| && visits[k].id in world.rows
    ensures var id := visits[k].id;
      Covered(Apply(world, SyncCall(visits)).host, FiltersAfterCall(filters, world, SyncCall(visits)), id) <==>
      VisitCovers(world, visits, k, Covered(world.host, filters, id))
  {
    hide ReachedBy, Stops, Synced, FiltersAfterSync, Visited, Succeeds, Position, StopsBefore;
    var i := Position(world.rows, visits, k);
    PositionVisited(world.rows, visits, k);
    PositionStops(world.rows, visits, k);
    DistinctVisited(world.rows, visits);
    var (apps, faults) := Visited(world.rows, visits);
    SyncInstalls(filters, apps, faults, i);
  }

  /** Exactly when a call about a database leaves a public container with its filter in force. */
  lemma CallCovered(world: World, call: Call, ports: Ports, filters: Filters, id: nat)
    requires ValidWorld(world, ports) && Represents(world.host.table, ports, filters) && About(call, id)
    requires call.SyncCall? ==> DistinctVisits(call.visits)
    ensures Covered(Apply(world, call).host, FiltersAfterCall(filters, world, call), id) <==>
      CallCovers(world, call, id, Covered(world.host, filters, id))
  {
    hide Deployed, Accessed, FiltersAfterDeploy, FiltersAfterAccess, DeployCovers, AccessCovers, Cleared, Represents;
    if id !in world.rows {
      hide Apply, FiltersAfterCall;
      CallKeepsOthers(world, call, ports, filters, id);
      return;
    }
    match call {
      case DeployCall(_, w) => DeployCovered(world.host, filters, world.rows[id], w);
      case AccessCall(_, enabled, cidrs, running, first, second) =>
        AccessCovered(world.host, ports, filters, world.rows[id], enabled, cidrs, running, first, second);
      case SyncCall(visits) =>
        hide Apply, FiltersAfterCall, VisitCovers, Covered;
        forall k | 0 <= k < |visits| && visits[k].id == id
          ensures Covered(Apply(world, call).host, FiltersAfterCall(filters, world, call), id) <==>
            VisitCovers(world, visits, k, Covered(world.host, filters, id))
        {
          SyncCovered(world, visits, ports, filters, k);
        }
      case DeleteCall(_, _) =>
    }
  }

  /** Over every run: whether a public container has its filter in force is settled by the last call about it. */
  lemma RunCovered(world: World, calls: seq<Call>, ports: Ports, filters: Filters, id: nat, k: nat)
    requires ValidWorld(world, ports) && Represents(world.host.table, ports, filters)
    requires AllGuarded(world.host.published)
    requires k < |calls| && About(calls[k], id)
    requires calls[k].SyncCall? ==> DistinctVisits(calls[k].visits)
    requires forall i :: k < i < |calls| ==> !About(calls[i], id)
    ensures var before := RunCalls(world, calls[..k]);
      Covered(RunCalls(world, calls).host, RunFiltersOf(filters, world, calls), id) <==>
      CallCovers(before, calls[k], id, Covered(before.host, RunFiltersOf(filters, world, calls[..k]), id))
  {
    hide Represents, AllGuarded, Apply, FiltersAfterCall, About, RunCalls, RunFiltersOf, CallCovers;
    var before := RunCalls(world, calls[..k]);
    var f := RunFiltersOf(filters, world, calls[..k]);
    RunGuards(world, calls[..k], ports, filters);
    CallCovered(before, calls[k], ports, f, id);
    ApplyKeepsRows(before, calls[k], ports);
    RunSplits(world, calls, filters, k);
    RunKeepsOthers(Apply(before, calls[k]), calls[k + 1..], ports, FiltersAfterCall(f, before, calls[k]), id);
  }

  // ----- rows, over runs -----

  // The row of a database after a call about it.
  function RowAfter(world: World, call: Call, id: nat): Option<DbApp> {
    if id !in world.rows then None
    else
      match call
      case AccessCall(k, enabled, cidrs, running, first, _) =>
        if k == id && AccessChanges(world.host, world.rows[id], enabled, cidrs, running, first) then
          Some(Asked(world.rows[id], enabled, cidrs))
        else Some(world.rows[id])
      case DeleteCall(k, _) => if k == id then None else Some(world.rows[id])
      case _ => Some(world.rows[id])
  }

  function RowNow(world: World, id: nat): Option<DbApp> { if id in world.rows then Some(world.rows[id]) else None }

  lemma CallRow(world: World, call: Call, ports: Ports, filters: Filters, id: nat)
    requires ValidWorld(world, ports) && Represents(world.host.table, ports, filters)
    ensures RowNow(Apply(world, call), id) == RowAfter(world, call, id)
  {
    hide Represents, Deployed, Accessed, AccessChanges, Asked, Cleared, Synced;
    match call {
      case AccessCall(k, enabled, cidrs, running, first, second) =>
        if k in world.rows {
          AccessResult(world.host, ports, filters, world.rows[k], enabled, cidrs, running, first, second);
        }
      case _ =>
    }
  }

  /** Over every run: the last call about a database decides its row.  A successful access change leaves the flag and
      the list that were asked for, on a stopped container too; a deletion takes the row away; no other call changes
      it. */
  lemma RunRow(world: World, calls: seq<Call>, ports: Ports, filters: Filters, id: nat, k: nat)
    requires ValidWorld(world, ports) && Represents(world.host.table, ports, filters)
    requires AllGuarded(world.host.published)
    requires k < |calls| && forall i :: k < i < |calls| ==> !About(calls[i], id)
    ensures RowNow(RunCalls(world, calls), id) == RowAfter(RunCalls(world, calls[..k]), calls[k], id)
  {
    hide Represents, AllGuarded, Apply, FiltersAfterCall, About, RunCalls, RunFiltersOf, RowAfter;
    var before := RunCalls(world, calls[..k]);
    var f := RunFiltersOf(filters, world, calls[..k]);
    RunGuards(world, calls[..k], ports, filters);
    CallRow(before, calls[k], ports, f, id);
    ApplyKeepsRows(before, calls[k], ports);
    RunSplits(world, calls, filters, k);
    RunKeepsOthers(Apply(before, calls[k]), calls[k + 1..], ports, FiltersAfterCall(f, before, calls[k]), id);
  }

  /** Deleting a database takes its filter out of force and its chain out of the table; its container goes if `docker
      rm` works. */
  lemma DeletionEffect(world: World, ports: Ports, filters: Filters, id: nat, removed: bool)
    requires ValidWorld(world, ports) && Represents(world.host.table, ports, filters) && id in world.rows
    ensures var after := Apply(world, DeleteCall(id, removed));
      && id !in after.rows && id !in FiltersAfterCall(filters, world, DeleteCall(id, removed))
      && Chain(id) !in after.host.table.chains
      && (id in after.host.binds <==> id in world.host.binds && !removed)
  {
    hide Represents, Cleared, Chain;
    ClearStep(world.host.table, ports, filters, world.rows[id]);
    assert id in ports;
    ChainGone(Cleared(world.host.table, world.rows[id]), ports, filters - {id}, id);
  }

  lemma ChainGone(t: Table, ports: Ports, filters: Filters, id: nat)
    requires Represents(t, ports, filters) && id in ports && id !in filters
    ensures Chain(id) !in t.chains
  {}
}
