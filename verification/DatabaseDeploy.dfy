// Deploying a database container behind the packet filter: the database
// branch of docker_service.deploy and the database_access route.
module DatabaseDeploy {
  import opened Results
  import opened Cidr
  import opened Firewall
  import opened FirewallRuns

  // The address `docker run -p` publishes on, fixed when the container is made.
  datatype Bind = Loopback | Everywhere

  // One `docker run`: the application as it was deployed and the packet filter at that moment.
  datatype Publish = Publish(app: DbApp, table: Table)

  datatype HostState = HostState(table: Table, binds: map<nat, Bind>, published: seq<Publish>)

  datatype RunResult = Refused | CreatedOnly | Started

  // How the fallible commands of one deploy turn out.
  datatype CommandOutcomes = CommandOutcomes(fault: nat, removed: bool, network: bool, run: RunResult, healthy: bool)

  function BindOf(app: DbApp): Bind { if app.public then Everywhere else Loopback }

  // `docker run` refuses a name that is taken.
  function AfterRun(binds: map<nat, Bind>, app: DbApp, run: RunResult): map<nat, Bind> {
    if app.id in binds || run.Refused? then binds else binds[app.id := BindOf(app)]
  }

  function Launched(h: HostState, app: DbApp, w: CommandOutcomes): (HostState, Outcome) {
    var binds := if w.removed then h.binds - {app.id} else h.binds;
    if !w.network then (h.(binds := binds), Done(false))
    else
      var ok := app.id !in binds && w.run.Started? && w.healthy;
      var table := if ok && !app.public then Cleared(h.table, app) else h.table;
      (HostState(table, AfterRun(binds, app, w.run), h.published + [Publish(app, h.table)]), Done(ok))
  }

  function Deployed(h: HostState, app: DbApp, w: CommandOutcomes): (HostState, Outcome) {
    if app.public then
      var (table, outcome) := Configured(h.table, app, w.fault);
      if outcome != Done(true) then (h.(table := table), outcome) else Launched(h.(table := table), app, w)
    else Launched(h, app, w)
  }

  // ----- the access route -----

  datatype AccessOutcome = Rejected | Failed(redeploy: Outcome) | Crashed | Changed

  // `stored` is the row in the database: it changes only when the route commits.
  function Accessed(h: HostState, stored: DbApp, enabled: bool, cidrs: seq<string>, running: bool,
                    first: CommandOutcomes, second: CommandOutcomes): (HostState, DbApp, AccessOutcome) {
    match Normalized(cidrs)
    case Err(_) => (h, stored, Rejected)
    case Ok(list) =>
      if enabled && list == [] then (h, stored, Rejected)
      else
        var wanted := stored.(public := enabled, cidrs := list);
        if running then
          var (h1, outcome) := Deployed(h, wanted, first);
          match outcome
          case Raised => (h1, stored, Crashed)
          case Done(true) => (h1, wanted, Changed)
          case Done(false) =>
            var (h2, again) := Deployed(h1, stored, second);
            (h2, stored, if again.Raised? then Crashed else Failed(again))
        else if enabled then
          var (table, outcome) := Configured(h.table, wanted, first.fault);
          match outcome
          case Raised => (h.(table := table), stored, Crashed)
          case Done(true) => (h.(table := table), wanted, Changed)
          case Done(false) => (h.(table := table), stored, Failed(Done(false)))
        else (h.(table := Cleared(h.table, wanted)), wanted, Changed)
  }

  class DatabaseHost {
    const iptables: Iptables
    var binds: map<nat, Bind>
    var published: seq<Publish>
    var rows: map<nat, DbApp>

    constructor (iptables: Iptables)
      ensures this.iptables == iptables && binds == map[] && published == [] && rows == map[]
    {
      this.iptables := iptables;
      binds, published, rows := map[], [], map[];
    }

    ghost function State(): HostState
      reads this, iptables
    {
      HostState(iptables.State(), binds, published)
    }

    method Remove(app: DbApp, works: bool)
      modifies this`binds
      ensures binds == if works then old(binds) - {app.id} else old(binds)
    {
      if works {
        binds := binds - {app.id};
      }
    }

    // `answer` is what Docker says unless the name is taken.
    method Run(app: DbApp, answer: RunResult) returns (run: RunResult)
      modifies this`binds, this`published
      ensures run == if app.id in old(binds) then Refused else answer
      ensures binds == AfterRun(old(binds), app, answer)
      ensures published == old(published) + [Publish(app, iptables.State())]
    {
      published := published + [Publish(app, Table(iptables.user, iptables.chains))];
      run := if app.id in binds then Refused else answer;
      if !run.Refused? {
        binds := binds[app.id := BindOf(app)];
      }
    }

    /** docker_service.deploy for a postgres or mongodb application; `w` are the system's answers. */
    method Deploy(app: DbApp, w: CommandOutcomes) returns (outcome: Outcome)
      modifies this`binds, this`published, iptables
      ensures (State(), outcome) == Deployed(old(State()), app, w)
    {
      hide Configured, Cleared;
      if app.public {
        outcome := iptables.Configure(app, w.fault);
        if outcome != Done(true) {
          return;
        }
      }
      Remove(app, w.removed);
      if !w.network {
        return Done(false);
      }
      var run := Run(app, w.run);
      var ok := run.Started? && w.healthy;
      if ok && !app.public {
        iptables.Clear(app);
      }
      return Done(ok);
    }

    /** The database_access route for a database application. */
    method ChangeAccess(id: nat, enabled: bool, cidrs: seq<string>, running: bool,
                        first: CommandOutcomes, second: CommandOutcomes)
      returns (outcome: AccessOutcome)
      requires id in rows && rows[id].id == id
      modifies this`binds, this`published, this`rows, iptables
      ensures id in rows
      ensures (State(), rows[id], outcome) == Accessed(old(State()), old(rows[id]), enabled, cidrs, running,
                                                               first, second)
      ensures rows == old(rows)[id := rows[id]]
    {
      hide Configured, Cleared, Deployed, Normalized;
      var normalized := NormalizeCidrs(cidrs);
      if normalized.Err? || (enabled && normalized.value == []) {
        return Rejected;
      }
      var stored := rows[id];
      var wanted := stored.(public := enabled, cidrs := normalized.value);
      if running {
        var done := Deploy(wanted, first);
        if done.Raised? {
          return Crashed;
        }
        if !done.ok {
          done := Deploy(stored, second);
          return if done.Raised? then Crashed else Failed(done);
        }
      } else if enabled {
        var done := iptables.Configure(wanted, first.fault);
        if done.Raised? {
          return Crashed;
        }
        if !done.ok {
          return Failed(done);
        }
      } else {
        iptables.Clear(wanted);
      }
      rows := rows[id := wanted];
      outcome := Changed;
    }
  }

  // ----- what every `docker run` sees -----

  // The filter for the application's present list is in force, above all other rules.
  ghost predicate Installed(t: Table, app: DbApp) {
    && Normalized(app.cidrs).Ok?
    && t.user != [] && t.user[0] == JumpOf(app)
    && Chain(app.id) in t.chains && t.chains[Chain(app.id)] == FilterOf(Normalized(app.cidrs).value)
  }

  /** An installed filter admits exactly the addresses of the list to the port. */
  lemma InstalledDecides(t: Table, app: DbApp, foreign: (nat, Packet) -> Verdict, p: Packet)
    requires Installed(t, app) && p.tcp && p.origPort == app.port
    ensures TableVerdict(t, foreign, p) == if AdmitsAny(app.cidrs, p.source) then Accepted else Dropped
  {
    hide AdmitsAny, Normalized, FilterOf, FilterVerdict, Chain;
    NormalizedAdmits(app.cidrs, p.source);
    FilterDecides(Normalized(app.cidrs).value, p.source);
  }

  ghost predicate AllGuarded(published: seq<Publish>) {
    forall i :: 0 <= i < |published| && published[i].app.public ==> Installed(published[i].table, published[i].app)
  }

  /** No deploy publishes a database on all interfaces before its filter is in force. */
  lemma DeployGuards(h: HostState, app: DbApp, w: CommandOutcomes)
    requires AllGuarded(h.published)
    ensures AllGuarded(Deployed(h, app, w).0.published)
  {
    hide Cleared, Normalized, FilterOf, Chain;
  }

  // ----- what one deploy or access change does to the filters in force -----

  function FiltersAfterDeploy(filters: Filters, app: DbApp, w: CommandOutcomes, h: HostState): Filters {
    if app.public then FiltersAfter(filters, app, w.fault)
    else if Deployed(h, app, w).1 == Done(true) then filters - {app.id}
    else filters
  }

  lemma DeployStep(h: HostState, ports: Ports, filters: Filters, app: DbApp, w: CommandOutcomes)
    requires Represents(h.table, ports, filters) && Known(app, ports)
    ensures Represents(Deployed(h, app, w).0.table, ports, FiltersAfterDeploy(filters, app, w, h))
    ensures forall id :: id != app.id ==>
      (id in Deployed(h, app, w).0.binds <==> id in h.binds) &&
      (id in h.binds ==> Deployed(h, app, w).0.binds[id] == h.binds[id])
  {
    hide Represents, Configured, Cleared, Normalized, Chain;
    ConfigureStep(h.table, ports, filters, app, w.fault);
    ClearStep(h.table, ports, filters, app);
  }

  // Flags, address and filter of one database agree.
  ghost predicate Agrees(host: HostState, filters: Filters, app: DbApp) {
    && app.id in host.binds && host.binds[app.id] == BindOf(app)
    && (app.public ==> app.id in filters && Normalized(app.cidrs) == Ok(filters[app.id]))
    && (!app.public ==> app.id !in filters)
  }

  /** After a successful deploy the address published on and the filter in force are those of the row. */
  lemma DeployAgrees(h: HostState, ports: Ports, filters: Filters, app: DbApp, w: CommandOutcomes)
    requires Represents(h.table, ports, filters) && Known(app, ports)
    requires Deployed(h, app, w).1 == Done(true)
    ensures var after := Deployed(h, app, w).0;
      && Represents(after.table, ports, FiltersAfterDeploy(filters, app, w, h))
      && Agrees(after, FiltersAfterDeploy(filters, app, w, h), app)
      && (!app.public ==> Chain(app.id) !in after.table.chains)
  {
    hide Represents, Configured, Cleared, Normalized, Chain;
    DeployStep(h, ports, filters, app, w);
    ConfigureStep(h.table, ports, filters, app, w.fault);
    ClearStep(h.table, ports, filters, app);
  }

  // The filters in force after an access change.
  function FiltersAfterAccess(filters: Filters, h: HostState, stored: DbApp, enabled: bool, cidrs: seq<string>,
                              running: bool, first: CommandOutcomes, second: CommandOutcomes): Filters {
    if Normalized(cidrs).Err? || (enabled && Normalized(cidrs).value == []) then filters
    else
      var wanted := stored.(public := enabled, cidrs := Normalized(cidrs).value);
      if running then
        var (h1, outcome) := Deployed(h, wanted, first);
        var f1 := FiltersAfterDeploy(filters, wanted, first, h);
        if outcome == Done(false) then FiltersAfterDeploy(f1, stored, second, h1) else f1
      else if enabled then FiltersAfter(filters, wanted, first.fault)
      else filters - {stored.id}
  }

  /** The rule table implements the filters in force after every access change, whatever fails. */
  lemma AccessStep(h: HostState, ports: Ports, filters: Filters, stored: DbApp, enabled: bool, cidrs: seq<string>,
                   running: bool, first: CommandOutcomes, second: CommandOutcomes)
    requires Represents(h.table, ports, filters) && Known(stored, ports) && AllGuarded(h.published)
    ensures var (after, row, _) := Accessed(h, stored, enabled, cidrs, running, first, second);
      && Represents(after.table, ports, FiltersAfterAccess(filters, h, stored, enabled, cidrs, running, first, second))
      && AllGuarded(after.published)
      && row.id == stored.id && row.port == stored.port
  {
    hide Represents, Configured, Cleared, Normalized, Deployed, AllGuarded, FiltersAfterDeploy, FiltersAfter;
    if Normalized(cidrs).Ok? {
      var wanted := stored.(public := enabled, cidrs := Normalized(cidrs).value);
      DeployStep(h, ports, filters, wanted, first);
      DeployGuards(h, wanted, first);
      var h1 := Deployed(h, wanted, first).0;
      DeployStep(h1, ports, FiltersAfterDeploy(filters, wanted, first, h), stored, second);
      DeployGuards(h1, stored, second);
      ConfigureStep(h.table, ports, filters, wanted, first.fault);
      ClearStep(h.table, ports, filters, wanted);
    }
  }

  /** A failed change whose redeploy succeeds puts flags, address and filter back as they were. */
  lemma FailedChangeRestores(h: HostState, ports: Ports, filters: Filters, stored: DbApp, enabled: bool,
                             cidrs: seq<string>, first: CommandOutcomes, second: CommandOutcomes)
    requires Represents(h.table, ports, filters) && Known(stored, ports) && Agrees(h, filters, stored)
    requires Accessed(h, stored, enabled, cidrs, true, first, second).2 == Failed(Done(true))
    ensures var (after, row, _) := Accessed(h, stored, enabled, cidrs, true, first, second);
      row == stored && after.binds == h.binds && Represents(after.table, ports, filters)
  {
    hide Represents, Configured, Cleared, Normalized, Chain, FiltersAfterDeploy;
    var wanted := stored.(public := enabled, cidrs := Normalized(cidrs).value);
    var h1 := Deployed(h, wanted, first).0;
    var f1 := FiltersAfterDeploy(filters, wanted, first, h);
    DeployStep(h, ports, filters, wanted, first);
    DeployStep(h1, ports, f1, stored, second);
    DeployAgrees(h1, ports, f1, stored, second);
    var f2 := FiltersAfterDeploy(f1, stored, second, h1);
    var h2 := Deployed(h1, stored, second).0;
    SameElsewhere(filters, wanted, first, h);
    SameElsewhere(f1, stored, second, h1);
    assert f2 - {stored.id} == filters - {stored.id};
    SameMap(f2, filters, stored.id);
    assert h2.binds == h.binds;
  }

  lemma SameMap(f: Filters, g: Filters, id: nat)
    requires f - {id} == g - {id}
    requires (id in f <==> id in g) && (id in f ==> f[id] == g[id])
    ensures f == g
  {
    forall k | k in f ensures k in g && f[k] == g[k] {
      if k != id { assert k in f - {id} && f[k] == (f - {id})[k] == (g - {id})[k] == g[k]; }
    }
    forall k | k in g ensures k in f {
      if k != id { assert k in g - {id}; }
    }
  }

  lemma SameElsewhere(filters: Filters, app: DbApp, w: CommandOutcomes, h: HostState)
    ensures var after := FiltersAfterDeploy(filters, app, w, h);
      after - {app.id} == filters - {app.id}
  {
    hide Deployed, Normalized;
  }

  /** After a change on a running container that succeeds, or fails with a redeploy that succeeds, the stored row,
      the address and the filter agree. */
  lemma AccessAgrees(h: HostState, ports: Ports, filters: Filters, stored: DbApp, enabled: bool, cidrs: seq<string>,
                     first: CommandOutcomes, second: CommandOutcomes)
    requires Represents(h.table, ports, filters) && Known(stored, ports)
    requires var outcome := Accessed(h, stored, enabled, cidrs, true, first, second).2;
      outcome == Changed || outcome == Failed(Done(true))
    ensures var (after, row, _) := Accessed(h, stored, enabled, cidrs, true, first, second);
      Agrees(after, FiltersAfterAccess(filters, h, stored, enabled, cidrs, true, first, second), row)
  {
    hide Represents, Configured, Cleared, Normalized, Deployed, FiltersAfterDeploy, Agrees;
    var wanted := stored.(public := enabled, cidrs := Normalized(cidrs).value);
    var (h1, outcome) := Deployed(h, wanted, first);
    DeployStep(h, ports, filters, wanted, first);
    if outcome == Done(true) {
      DeployAgrees(h, ports, filters, wanted, first);
    } else {
      DeployAgrees(h1, ports, FiltersAfterDeploy(filters, wanted, first, h), stored, second);
    }
  }

  // ----- a public address and its filter -----

  predicate Bound(h: HostState, id: nat) { id in h.binds && h.binds[id] == Everywhere }

  // A container bound to all interfaces has its filter in force.
  predicate Covered(h: HostState, filters: Filters, id: nat) { Bound(h, id) ==> id in filters }

  // Whether a deploy leaves the database covered, from what it was before.
  predicate DeployCovers(h: HostState, app: DbApp, w: CommandOutcomes, covered: bool) {
    if app.public then Succeeds(app, w.fault) || !Bound(h, app.id) else covered || w.removed
  }

  /** A deploy leaves a database covered exactly when a public one's filter succeeds or no public container was there,
      and a private one was covered or its old container could be removed. */
  lemma DeployCovered(h: HostState, filters: Filters, app: DbApp, w: CommandOutcomes)
    ensures Covered(Deployed(h, app, w).0, FiltersAfterDeploy(filters, app, w, h), app.id) <==>
      DeployCovers(h, app, w, Covered(h, filters, app.id))
  {
    hide Cleared, Chain, FilterOf;
    ConfiguredResult(h.table, app, w.fault);
  }

  // A configure call that succeeds for a public application met no failing command.
  lemma ConfiguredResult(t: Table, app: DbApp, fault: nat)
    ensures Configured(t, app, fault).1 == Done(true) && app.public ==> Succeeds(app, fault)
  {
    hide Cleared, Normalized, Chain, FilterOf;
  }

  // When a deploy is successful.
  predicate DeploySucceeds(h: HostState, app: DbApp, w: CommandOutcomes) {
    && (app.public ==> Succeeds(app, w.fault))
    && w.network && (w.removed || app.id !in h.binds) && w.run.Started? && w.healthy
  }

  // The address a container is published on, if there is one.
  function BindNow(h: HostState, id: nat): Option<Bind> { if id in h.binds then Some(h.binds[id]) else None }

  // The same after a deploy: nothing changes before the filter is in force or when the name stays taken.
  function BindAfter(h: HostState, app: DbApp, w: CommandOutcomes): Option<Bind> {
    if (app.public && !Succeeds(app, w.fault)) || (!w.removed && app.id in h.binds) then BindNow(h, app.id)
    else if !w.network || w.run.Refused? then None
    else if app.public then Some(Everywhere)
    else Some(Loopback)
  }

  predicate BoundAfter(h: HostState, app: DbApp, w: CommandOutcomes) { BindAfter(h, app, w) == Some(Everywhere) }

  /** When a deploy succeeds, what is published afterwards, and which `docker run` it issued. */
  lemma DeployResult(h: HostState, ports: Ports, filters: Filters, app: DbApp, w: CommandOutcomes)
    requires Represents(h.table, ports, filters) && Known(app, ports)
    ensures Deployed(h, app, w).1 == Done(true) <==> DeploySucceeds(h, app, w)
    ensures BindNow(Deployed(h, app, w).0, app.id) == BindAfter(h, app, w)
    ensures Bound(Deployed(h, app, w).0, app.id) <==> BoundAfter(h, app, w)
    ensures Deployed(h, app, w).1.Raised? <==> app.public && Normalized(app.cidrs).Err?
    ensures var issued := Deployed(h, app, w).0.published;
      if (app.public && !Succeeds(app, w.fault)) || !w.network then issued == h.published
      else |issued| == |h.published| + 1 && issued[..|h.published|] == h.published && issued[|h.published|].app == app
  {
    hide Represents, Configured, Cleared, Normalized, Chain;
    ConfigureStep(h.table, ports, filters, app, w.fault);
  }

  // ----- what the access route answers and stores -----

  predicate Acceptable(enabled: bool, cidrs: seq<string>) {
    Normalized(cidrs).Ok? && (enabled ==> Normalized(cidrs).value != [])
  }

  // The row the caller asks for.
  function Asked(stored: DbApp, enabled: bool, cidrs: seq<string>): DbApp
    requires Normalized(cidrs).Ok?
  {
    DbApp(stored.id, stored.port, enabled, Normalized(cidrs).value)
  }

  // When the route answers with success.
  predicate AccessChanges(h: HostState, stored: DbApp, enabled: bool, cidrs: seq<string>, running: bool,
                          first: CommandOutcomes) {
    && Acceptable(enabled, cidrs)
    && var wanted := Asked(stored, enabled, cidrs);
       if running then DeploySucceeds(h, wanted, first) else enabled ==> Succeeds(wanted, first.fault)
  }

  /** The route is successful exactly when the list is acceptable and the commands work; then the row is what was asked
      for, whether the container runs or not.  Otherwise the row stays, and a refused request touches nothing. */
  lemma AccessResult(h: HostState, ports: Ports, filters: Filters, stored: DbApp, enabled: bool, cidrs: seq<string>,
                     running: bool, first: CommandOutcomes, second: CommandOutcomes)
    requires Represents(h.table, ports, filters) && Known(stored, ports)
    ensures var (after, row, outcome) := Accessed(h, stored, enabled, cidrs, running, first, second);
      && (outcome.Rejected? <==> !Acceptable(enabled, cidrs))
      && (outcome.Rejected? ==> after == h)
      && (outcome.Changed? <==> AccessChanges(h, stored, enabled, cidrs, running, first))
      && (outcome.Changed? ==> row == Asked(stored, enabled, cidrs))
      && (!outcome.Changed? ==> row == stored)
  {
    hide Represents, Deployed, Cleared, Normalized, Configured, DeploySucceeds, Succeeds;
    if Normalized(cidrs).Ok? {
      var wanted := Asked(stored, enabled, cidrs);
      NormalizedIdempotent(cidrs);
      DeployResult(h, ports, filters, wanted, first);
      ConfigureStep(h.table, ports, filters, wanted, first.fault);
    }
  }

  /** After a successful change a filter is in force exactly when access is enabled, and then for the asked list; a
      change that fails on a stopped container leaves none. */
  lemma AccessFilter(h: HostState, ports: Ports, filters: Filters, stored: DbApp, enabled: bool, cidrs: seq<string>,
                     running: bool, first: CommandOutcomes, second: CommandOutcomes)
    requires Represents(h.table, ports, filters) && Known(stored, ports) && Acceptable(enabled, cidrs)
    ensures var f := FiltersAfterAccess(filters, h, stored, enabled, cidrs, running, first, second);
      && (AccessChanges(h, stored, enabled, cidrs, running, first) ==>
          if enabled then stored.id in f && f[stored.id] == Normalized(cidrs).value else stored.id !in f)
      && (!running && !AccessChanges(h, stored, enabled, cidrs, running, first) ==> stored.id !in f)
  {
    hide Represents, Deployed, Cleared, Normalized, Configured;
    var wanted := Asked(stored, enabled, cidrs);
    NormalizedIdempotent(cidrs);
    DeployResult(h, ports, filters, wanted, first);
  }

  /** A change that fails on a running container is followed by a deploy of the stored row, whose result is told. */
  lemma AccessUndone(h: HostState, ports: Ports, filters: Filters, stored: DbApp, enabled: bool, cidrs: seq<string>,
                     first: CommandOutcomes, second: CommandOutcomes)
    requires Represents(h.table, ports, filters) && Known(stored, ports) && Acceptable(enabled, cidrs)
    requires !AccessChanges(h, stored, enabled, cidrs, true, first)
    ensures var h1 := Deployed(h, Asked(stored, enabled, cidrs), first).0;
      var (after, _, outcome) := Accessed(h, stored, enabled, cidrs, true, first, second);
      && after == Deployed(h1, stored, second).0
      && (outcome == Failed(Done(true)) <==> DeploySucceeds(h1, stored, second))
      && (outcome == Crashed <==> stored.public && Normalized(stored.cidrs).Err?)
  {
    hide Represents, Deployed, Cleared, Normalized, Configured, DeploySucceeds, Succeeds;
    var wanted := Asked(stored, enabled, cidrs);
    NormalizedIdempotent(cidrs);
    DeployResult(h, ports, filters, wanted, first);
    DeployStep(h, ports, filters, wanted, first);
    DeployResult(Deployed(h, wanted, first).0, ports, FiltersAfterDeploy(filters, wanted, first, h), stored, second);
  }

  predicate AccessCovers(h: HostState, stored: DbApp, enabled: bool, cidrs: seq<string>, running: bool,
                         first: CommandOutcomes, second: CommandOutcomes, covered: bool) {
    if Normalized(cidrs).Err? || (enabled && Normalized(cidrs).value == []) then covered
    else
      var wanted := stored.(public := enabled, cidrs := Normalized(cidrs).value);
      if !running then (enabled && Succeeds(wanted, first.fault)) || !Bound(h, stored.id)
      else if DeploySucceeds(h, wanted, first) then true
      else if stored.public then Succeeds(stored, second.fault) || !BoundAfter(h, wanted, first)
      else DeployCovers(h, wanted, first, covered) || second.removed
  }

  /** The same for an access change, with its redeploy; on a stopped container the address stays as it was. */
  lemma AccessCovered(h: HostState, ports: Ports, filters: Filters, stored: DbApp, enabled: bool, cidrs: seq<string>,
                      running: bool, first: CommandOutcomes, second: CommandOutcomes)
    requires Represents(h.table, ports, filters) && Known(stored, ports)
    ensures Covered(Accessed(h, stored, enabled, cidrs, running, first, second).0,
                    FiltersAfterAccess(filters, h, stored, enabled, cidrs, running, first, second), stored.id) <==>
      AccessCovers(h, stored, enabled, cidrs, running, first, second, Covered(h, filters, stored.id))
  {
    hide Represents, Deployed, Cleared, Normalized, Configured, FiltersAfterDeploy;
    hide BoundAfter, DeploySucceeds, Succeeds;
    if Normalized(cidrs).Ok? {
      var wanted := stored.(public := enabled, cidrs := Normalized(cidrs).value);
      NormalizedIdempotent(cidrs);
      DeployResult(h, ports, filters, wanted, first);
      DeployCovered(h, filters, wanted, first);
      DeployCovered(Deployed(h, wanted, first).0, FiltersAfterDeploy(filters, wanted, first, h), stored, second);
      if DeploySucceeds(h, wanted, first) { SuccessCovers(h, wanted, first, Covered(h, filters, stored.id)); }
    }
  }

  lemma SuccessCovers(h: HostState, app: DbApp, w: CommandOutcomes, covered: bool)
    requires DeploySucceeds(h, app, w) && (covered || Bound(h, app.id))
    ensures DeployCovers(h, app, w, covered)
  {}

  /** The standing property is false of the code: a public database that is deployed again while `iptables -N` fails
      keeps its old container on all interfaces with no filter. */
  lemma FailedRedeployUncovers(port: nat, published: seq<Publish>, removed: bool, network: bool, run: RunResult,
                               healthy: bool)
    ensures var cidrs := ["203.0.113.25/32"];
      var app := DbApp(42, port, true, cidrs);
      var h := HostState(Table([JumpOf(app)], map[Chain(42) := FilterOf(cidrs)]), map[42 := Everywhere], published);
      var filters: Filters := map[42 := cidrs];
      var w := CommandOutcomes(0, removed, network, run, healthy);
      var after := Deployed(h, app, w).0;
      && Represents(h.table, map[42 := port], filters) && Covered(h, filters, 42)
      && Bound(after, 42) && 42 !in FiltersAfterDeploy(filters, app, w, h)
  {
    hide Deployed, Normalized, FilterOf, Chain;
    var cidrs := ["203.0.113.25/32"];
    var app := DbApp(42, port, true, cidrs);
    var table := Table([JumpOf(app)], map[Chain(42) := FilterOf(cidrs)]);
    assert Represents(table, map[42 := port], map[42 := cidrs]);
    DeployResult(HostState(table, map[42 := Everywhere], published), map[42 := port], map[42 := cidrs], app,
      CommandOutcomes(0, removed, network, run, healthy));
  }
}
