// What the packet filter decides after any sequence of configure, clear and
// start-up passes, for applications with distinct ids and host ports.
module FirewallRuns {
  import opened Results
  import opened Cidr
  import opened Text
  import opened Firewall

  // Host port of each application; no two applications share one.
  type Ports = map<nat, nat>

  ghost predicate Injective(ports: Ports) {
    forall i, j :: i in ports && j in ports && ports[i] == ports[j] ==> i == j
  }

  // The address lists of the applications whose filter is in force.
  type Filters = map<nat, seq<string>>

  // The foreign rules, in order.
  function ForeignPart(user: seq<UserRule>): seq<UserRule> {
    if user == [] then []
    else if user[0].Foreign? then [user[0]] + ForeignPart(user[1..])
    else ForeignPart(user[1..])
  }

  ghost predicate Expected(rule: UserRule, ports: Ports, filters: Filters) {
    exists id :: id in filters && id in ports && rule == Jump(ports[id], Chain(id))
  }

  predicate JumpsFirst(user: seq<UserRule>) {
    forall i, j :: 0 <= i < j < |user| && user[j].Jump? ==> user[i].Jump?
  }

  // All jumps stand above the foreign rules and belong to filters in force.
  ghost predicate UserMatches(user: seq<UserRule>, ports: Ports, filters: Filters) {
    && JumpsFirst(user)
    && (forall i :: 0 <= i < |user| && user[i].Jump? ==> Expected(user[i], ports, filters))
    && (forall id :: id in filters ==> id in ports && Jump(ports[id], Chain(id)) in user)
  }

  ghost predicate ChainsMatch(chains: map<string, seq<FilterRule>>, ports: Ports, filters: Filters) {
    forall id :: id in ports ==>
      if id in filters then Chain(id) in chains && chains[Chain(id)] == FilterOf(filters[id]) else Chain(id) !in chains
  }

  ghost predicate Represents(t: Table, ports: Ports, filters: Filters) {
    && Injective(ports)
    && filters.Keys <= ports.Keys
    && UserMatches(t.user, ports, filters)
    && ChainsMatch(t.chains, ports, filters)
  }

  /** A table without rules or chains of this program has no filter in force. */
  lemma FreshTable(t: Table, ports: Ports)
    requires Injective(ports) && ForeignPart(t.user) == t.user && forall id :: id in ports ==> Chain(id) !in t.chains
    ensures Represents(t, ports, map[])
  {
    OnlyForeign(t.user);
  }

  lemma {:induction false} OnlyForeign(user: seq<UserRule>)
    ensures forall i :: 0 <= i < |ForeignPart(user)| ==> ForeignPart(user)[i].Foreign?
  {
    if user != [] { OnlyForeign(user[1..]); }
  }

  // ----- the intended meaning of each operation -----

  datatype Operation =
    | Configure(app: DbApp, fault: nat)
    | Clear(app: DbApp)
    | Sync(apps: seq<DbApp>, faults: seq<nat>)

  ghost predicate Known(app: DbApp, ports: Ports) { app.id in ports && ports[app.id] == app.port }

  ghost predicate ValidOperation(op: Operation, ports: Ports) {
    match op
    case Configure(app, _) => Known(app, ports)
    case Clear(app) => Known(app, ports)
    case Sync(apps, faults) => |apps| == |faults| && forall i :: 0 <= i < |apps| ==> Known(apps[i], ports)
  }

  function ApplyOperation(t: Table, op: Operation): Table
    requires op.Sync? ==> |op.apps| == |op.faults|
  {
    match op
    case Configure(app, fault) => Configured(t, app, fault).0
    case Clear(app) => Cleared(t, app)
    case Sync(apps, faults) => Synced(t, apps, faults).0
  }

  // A filter is put in force only when the list is good and no command fails.
  predicate Succeeds(app: DbApp, fault: nat) {
    && app.public && Normalized(app.cidrs).Ok? && Normalized(app.cidrs).value != []
    && fault > |Normalized(app.cidrs).value| + 2
  }

  function FiltersAfter(filters: Filters, app: DbApp, fault: nat): Filters {
    if Succeeds(app, fault) then filters[app.id := Normalized(app.cidrs).value] else filters - {app.id}
  }

  function FiltersAfterSync(filters: Filters, apps: seq<DbApp>, faults: seq<nat>): (r: (Filters, bool))
    requires |apps| == |faults|
    decreases |apps|
  {
    if apps == [] then (filters, false)
    else
      var last := |apps| - 1;
      var (f, stopped) := FiltersAfterSync(filters, apps[..last], faults[..last]);
      if stopped then (f, true)
      else (FiltersAfter(f, apps[last], faults[last]), apps[last].public && Normalized(apps[last].cidrs).Err?)
  }

  function FiltersOf(filters: Filters, op: Operation): Filters
    requires op.Sync? ==> |op.apps| == |op.faults|
  {
    match op
    case Configure(app, fault) => FiltersAfter(filters, app, fault)
    case Clear(app) => filters - {app.id}
    case Sync(apps, faults) => FiltersAfterSync(filters, apps, faults).0
  }

  ghost predicate ValidRun(ops: seq<Operation>, ports: Ports) {
    forall i :: 0 <= i < |ops| ==> ValidOperation(ops[i], ports)
  }

  ghost function Run(t: Table, ops: seq<Operation>, ports: Ports): Table
    requires ValidRun(ops, ports)
    decreases |ops|
  {
    assert ops != [] ==> ValidOperation(ops[0], ports);
    if ops == [] then t else Run(ApplyOperation(t, ops[0]), ops[1..], ports)
  }

  ghost function RunFilters(filters: Filters, ops: seq<Operation>, ports: Ports): Filters
    requires ValidRun(ops, ports)
    decreases |ops|
  {
    assert ops != [] ==> ValidOperation(ops[0], ports);
    if ops == [] then filters else RunFilters(FiltersOf(filters, ops[0]), ops[1..], ports)
  }

  // ----- clearing -----

  lemma {:induction false} RemoveAllMembers(user: seq<UserRule>, rule: UserRule)
    ensures forall r :: r in RemoveAll(user, rule) <==> r in user && r != rule
  {
    if user != [] {
      RemoveAllMembers(user[1..], rule);
      assert user == [user[0]] + user[1..];
    }
  }

  lemma {:induction false} RemoveAllForeign(user: seq<UserRule>, rule: UserRule)
    requires rule.Jump?
    ensures ForeignPart(RemoveAll(user, rule)) == ForeignPart(user)
  {
    if user != [] {
      RemoveAllForeign(user[1..], rule);
      var rest := RemoveAll(user[1..], rule);
      assert ([user[0]] + rest)[1..] == rest;
    }
  }

  lemma {:induction false} RemoveAllJumpsFirst(user: seq<UserRule>, rule: UserRule)
    requires JumpsFirst(user)
    ensures JumpsFirst(RemoveAll(user, rule))
  {
    if user != [] {
      RemoveAllJumpsFirst(user[1..], rule);
      RemoveAllMembers(user[1..], rule);
      var rest := RemoveAll(user[1..], rule);
      if user[0].Foreign? {
        forall j | 0 <= j < |rest| ensures rest[j].Foreign? {
          assert rest[j] in user[1..];
          var k :| 0 <= k < |user[1..]| && user[1..][k] == rest[j];
          assert user[k + 1] == rest[j];
        }
      }
    }
  }

  lemma OwnChain(ports: Ports, app: DbApp)
    requires Injective(ports) && Known(app, ports)
    ensures forall id :: id != app.id ==> Chain(id) != Chain(app.id)
    ensures forall id :: id in ports && id != app.id ==> ports[id] != app.port
  {
    forall id | id != app.id ensures Chain(id) != Chain(app.id) {
      if Chain(id) == Chain(app.id) { ChainInjective(id, app.id); }
    }
  }

  lemma ClearUser(user: seq<UserRule>, ports: Ports, filters: Filters, app: DbApp)
    requires Injective(ports) && UserMatches(user, ports, filters) && Known(app, ports)
    ensures UserMatches(RemoveAll(user, JumpOf(app)), ports, filters - {app.id})
    ensures !Referenced(RemoveAll(user, JumpOf(app)), Chain(app.id))
  {
    hide Chain;
    var rest := RemoveAll(user, JumpOf(app));
    RemoveAllMembers(user, JumpOf(app));
    RemoveAllJumpsFirst(user, JumpOf(app));
    OwnChain(ports, app);
    forall i | 0 <= i < |rest| && rest[i].Jump?
      ensures Expected(rest[i], ports, filters - {app.id}) && rest[i].chain != Chain(app.id)
    {
      assert rest[i] in user;
      var id :| id in filters && id in ports && rest[i] == Jump(ports[id], Chain(id));
      assert id in filters - {app.id};
    }
  }

  /** Clearing one application removes its filter and nothing else. */
  lemma ClearStep(t: Table, ports: Ports, filters: Filters, app: DbApp)
    requires Represents(t, ports, filters) && Known(app, ports)
    ensures Represents(Cleared(t, app), ports, filters - {app.id})
    ensures ForeignPart(Cleared(t, app).user) == ForeignPart(t.user)
    ensures Chain(app.id) !in Cleared(t, app).chains
  {
    hide Chain, UserMatches, Referenced;
    RemoveAllForeign(t.user, JumpOf(app));
    ClearUser(t.user, ports, filters, app);
    OwnChain(ports, app);
  }

  /** Clearing twice is clearing once, whatever the table holds. */
  lemma ClearIdempotent(t: Table, app: DbApp)
    ensures Cleared(Cleared(t, app), app) == Cleared(t, app)
  {
    hide Chain;
    RemoveAllMembers(t.user, JumpOf(app));
    NothingToRemove(RemoveAll(t.user, JumpOf(app)), JumpOf(app));
  }

  // ----- configuring -----

  lemma ConfigureStep(t: Table, ports: Ports, filters: Filters, app: DbApp, fault: nat)
    requires Represents(t, ports, filters) && Known(app, ports)
    ensures Represents(Configured(t, app, fault).0, ports, FiltersAfter(filters, app, fault))
    ensures ForeignPart(Configured(t, app, fault).0.user) == ForeignPart(t.user)
    ensures Configured(t, app, fault).1 ==
      if !app.public then Done(true)
      else if Normalized(app.cidrs).Err? then Raised
      else Done(Succeeds(app, fault))
  {
    hide Chain, Cleared, Normalized, Represents;
    ClearStep(t, ports, filters, app);
    var clear := Cleared(t, app);
    if app.public && Normalized(app.cidrs).Ok? && Normalized(app.cidrs).value != [] && fault > 0 {
      var list := Normalized(app.cidrs).value;
      if fault <= |list| + 2 {
        PartialChainCleared(clear, ports, filters - {app.id}, app, FilterOf(list)[..fault - 1]);
      } else {
        InstallStep(clear, ports, filters - {app.id}, app, list);
        assert (filters - {app.id})[app.id := list] == filters[app.id := list];
      }
    }
  }

  lemma PartialChainCleared(t: Table, ports: Ports, filters: Filters, app: DbApp, rules: seq<FilterRule>)
    requires Represents(t, ports, filters) && Known(app, ports) && app.id !in filters
    ensures Cleared(t.(chains := t.chains[Chain(app.id) := rules]), app) == t
  {
    hide Chain;
    forall i | 0 <= i < |t.user| && t.user[i].Jump? ensures t.user[i].chain != Chain(app.id) {
      var id :| id in filters && id in ports && t.user[i] == Jump(ports[id], Chain(id));
      if Chain(id) == Chain(app.id) { ChainInjective(id, app.id); }
    }
    NothingToRemove(t.user, JumpOf(app));
    assert t.chains[Chain(app.id) := rules] - {Chain(app.id)} == t.chains;
  }

  lemma InstallUser(user: seq<UserRule>, ports: Ports, filters: Filters, app: DbApp, list: seq<string>)
    requires UserMatches(user, ports, filters) && Known(app, ports)
    ensures UserMatches([JumpOf(app)] + user, ports, filters[app.id := list])
  {
    hide Chain;
    var longer := [JumpOf(app)] + user;
    var after := filters[app.id := list];
    assert longer[1..] == user;
    forall i | 0 <= i < |longer| && longer[i].Jump? ensures Expected(longer[i], ports, after) {
      if i == 0 {
        assert app.id in after;
      } else {
        var id :| id in filters && id in ports && user[i - 1] == Jump(ports[id], Chain(id));
        assert id in after;
      }
    }
    assert longer[0] in longer;
  }

  lemma InstallStep(t: Table, ports: Ports, filters: Filters, app: DbApp, list: seq<string>)
    requires Represents(t, ports, filters) && Known(app, ports)
    ensures var installed := Table([JumpOf(app)] + t.user, t.chains[Chain(app.id) := FilterOf(list)]);
      Represents(installed, ports, filters[app.id := list]) && ForeignPart(installed.user) == ForeignPart(t.user)
  {
    hide Chain, UserMatches;
    InstallUser(t.user, ports, filters, app, list);
    assert ([JumpOf(app)] + t.user)[1..] == t.user;
    OwnChain(ports, app);
  }

  lemma {:induction false} SyncStep(t: Table, ports: Ports, filters: Filters, apps: seq<DbApp>, faults: seq<nat>)
    requires Represents(t, ports, filters) && |apps| == |faults|
    requires forall i :: 0 <= i < |apps| ==> Known(apps[i], ports)
    ensures Represents(Synced(t, apps, faults).0, ports, FiltersAfterSync(filters, apps, faults).0)
    ensures ForeignPart(Synced(t, apps, faults).0.user) == ForeignPart(t.user)
    ensures Synced(t, apps, faults).1.Raised? <==> FiltersAfterSync(filters, apps, faults).1
    decreases |apps|
  {
    hide Represents, Configured, Normalized, FiltersAfter;
    if apps != [] {
      var last := |apps| - 1;
      SyncStep(t, ports, filters, apps[..last], faults[..last]);
      var (t1, outcome) := Synced(t, apps[..last], faults[..last]);
      if !outcome.Raised? {
        ConfigureStep(t1, ports, FiltersAfterSync(filters, apps[..last], faults[..last]).0, apps[last], faults[last]);
      }
    }
  }

  /** Every reachable table implements the filters that the calls so far put in force. */
  lemma {:induction false} RunRefines(t: Table, ports: Ports, filters: Filters, ops: seq<Operation>)
    requires Represents(t, ports, filters) && ValidRun(ops, ports)
    ensures Represents(Run(t, ops, ports), ports, RunFilters(filters, ops, ports))
    ensures ForeignPart(Run(t, ops, ports).user) == ForeignPart(t.user)
    decreases |ops|
  {
    hide Represents, Configured, Cleared, Synced, FiltersAfter, FiltersAfterSync;
    if ops != [] {
      var next := ApplyOperation(t, ops[0]);
      assert ValidOperation(ops[0], ports);
      match ops[0] {
        case Configure(app, fault) => ConfigureStep(t, ports, filters, app, fault);
        case Clear(app) => ClearStep(t, ports, filters, app);
        case Sync(apps, faults) => SyncStep(t, ports, filters, apps, faults);
      }
      RunRefines(next, ports, FiltersOf(filters, ops[0]), ops[1..]);
    }
  }

  // A public application whose list does not parse ends the pass with an exception.
  predicate Stops(app: DbApp) { app.public && Normalized(app.cidrs).Err? }

  predicate StopsBefore(apps: seq<DbApp>, i: nat)
    requires i <= |apps|
  {
    exists j :: 0 <= j < i && Stops(apps[j])
  }

  /** The start-up pass is ended early exactly by a public application with an unusable list. */
  lemma {:induction false} SyncStops(filters: Filters, apps: seq<DbApp>, faults: seq<nat>)
    requires |apps| == |faults|
    ensures FiltersAfterSync(filters, apps, faults).1 <==> StopsBefore(apps, |apps|)
    decreases |apps|
  {
    hide Normalized, FiltersAfter, Stops;
    if apps != [] {
      var last := |apps| - 1;
      SyncStops(filters, apps[..last], faults[..last]);
      StopsMeans(apps[last]);
    }
  }

  lemma StopsMeans(app: DbApp)
    ensures Stops(app) <==> app.public && Normalized(app.cidrs).Err?
  {}

  /** Lists that the access route has stored never end the start-up pass. */
  lemma StoredListsNeverStop(filters: Filters, apps: seq<DbApp>, faults: seq<nat>)
    requires |apps| == |faults|
    requires forall i :: 0 <= i < |apps| ==> exists values :: Normalized(values) == Ok(apps[i].cidrs)
    ensures !FiltersAfterSync(filters, apps, faults).1
  {
    hide Normalized;
    SyncStops(filters, apps, faults);
    forall i | 0 <= i < |apps| ensures !Stops(apps[i]) {
      var values :| Normalized(values) == Ok(apps[i].cidrs);
      NormalizedIdempotent(values);
    }
  }

  lemma {:induction false} SyncLeavesOthers(filters: Filters, apps: seq<DbApp>, faults: seq<nat>, id: nat)
    requires |apps| == |faults| && forall i :: 0 <= i < |apps| ==> apps[i].id != id
    ensures var after := FiltersAfterSync(filters, apps, faults).0;
      (id in after <==> id in filters) && (id in filters ==> after[id] == filters[id])
    decreases |apps|
  {
    hide Normalized, Succeeds;
    if apps != [] {
      var last := |apps| - 1;
      SyncLeavesOthers(filters, apps[..last], faults[..last], id);
    }
  }

  /** After the start-up pass an application that was reached has a filter exactly when its own call succeeded, and
      then for its own list; one behind an unusable list keeps what it had. */
  lemma {:induction false} SyncInstalls(filters: Filters, apps: seq<DbApp>, faults: seq<nat>, i: nat)
    requires |apps| == |faults| && i < |apps|
    requires forall j, k :: 0 <= j < k < |apps| ==> apps[j].id != apps[k].id
    ensures var after := FiltersAfterSync(filters, apps, faults).0;
      if StopsBefore(apps, i) then
        && (apps[i].id in after <==> apps[i].id in filters)
        && (apps[i].id in filters ==> after[apps[i].id] == filters[apps[i].id])
      else
        && (apps[i].id in after <==> Succeeds(apps[i], faults[i]))
        && (apps[i].id in after ==> Normalized(apps[i].cidrs) == Ok(after[apps[i].id]))
    decreases |apps|
  {
    hide Normalized, Stops;
    var last := |apps| - 1;
    SyncStops(filters, apps[..last], faults[..last]);
    assert forall j | 0 <= j < last :: apps[..last][j] == apps[j];
    if i < last {
      SyncInstalls(filters, apps[..last], faults[..last], i);
    } else {
      SyncLeavesOthers(filters, apps[..last], faults[..last], apps[i].id);
    }
  }

  // ----- verdicts -----

  lemma {:induction false} FilterDecides(cidrs: seq<string>, source: nat)
    ensures FilterVerdict(FilterOf(cidrs), source) == if AdmitsAny(cidrs, source) then Accepted else Dropped
  {
    hide Admits;
    var rules := FilterOf(cidrs);
    if cidrs != [] {
      FilterDecides(cidrs[1..], source);
      assert rules[1..] == FilterOf(cidrs[1..]);
      if AdmitsAny(cidrs, source) && !Admits(cidrs[0], source) {
        var i :| 0 <= i < |cidrs| && Admits(cidrs[i], source);
        assert cidrs[1..][i - 1] == cidrs[i];
      }
      if AdmitsAny(cidrs[1..], source) {
        var i :| 0 <= i < |cidrs[1..]| && Admits(cidrs[1..][i], source);
        assert cidrs[i + 1] == cidrs[1..][i];
      }
    }
  }

  // UserMatches without the third clause, so that it passes to a suffix.
  ghost predicate Suffix(user: seq<UserRule>, ports: Ports, filters: Filters) {
    JumpsFirst(user) && forall i :: 0 <= i < |user| && user[i].Jump? ==> Expected(user[i], ports, filters)
  }

  lemma SuffixTail(user: seq<UserRule>, ports: Ports, filters: Filters)
    requires Suffix(user, ports, filters) && user != []
    ensures Suffix(user[1..], ports, filters)
    ensures user[0].Foreign? ==> ForeignPart(user) == user
  {
    hide Expected;
    forall i, j | 0 <= i < j < |user[1..]| && user[1..][j].Jump? ensures user[1..][i].Jump? {
      assert user[j + 1].Jump?;
    }
    assert forall i :: 0 < i < |user| && user[i].Jump? ==> user[0].Jump?;
    if user[0].Foreign? {
      AllForeign(user);
    }
  }

  lemma HeadIsJump(user: seq<UserRule>, rule: UserRule)
    requires JumpsFirst(user) && rule in user && rule.Jump?
    ensures user[0].Jump?
  {
    var k :| 0 <= k < |user| && user[k] == rule;
    assert k > 0 && user[k].Jump? ==> user[0].Jump?;
  }

  lemma {:induction false} AllForeign(user: seq<UserRule>)
    requires forall i :: 0 <= i < |user| ==> user[i].Foreign?
    ensures ForeignPart(user) == user
  {
    if user != [] { AllForeign(user[1..]); }
  }

  lemma {:induction false} FilteredScan(t: Table, user: seq<UserRule>, ports: Ports, filters: Filters,
                                        foreign: (nat, Packet) -> Verdict, id: nat, p: Packet)
    requires Injective(ports) && ChainsMatch(t.chains, ports, filters) && Suffix(user, ports, filters)
    requires id in filters && id in ports && p.tcp && p.origPort == ports[id]
    requires Jump(ports[id], Chain(id)) in user
    ensures UserVerdict(t, user, foreign, p) == if AdmitsAny(filters[id], p.source) then Accepted else Dropped
    decreases |user|
  {
    hide Chain, AdmitsAny, FilterOf, FilterVerdict;
    FilterDecides(filters[id], p.source);
    var rule := Jump(ports[id], Chain(id));
    HeadIsJump(user, rule);
    if user[0] != rule {
      var other :| other in filters && other in ports && user[0] == Jump(ports[other], Chain(other));
      assert other != id;
      SuffixTail(user, ports, filters);
      assert user == [user[0]] + user[1..];
      FilteredScan(t, user[1..], ports, filters, foreign, id, p);
    }
  }

  lemma {:induction false} UnfilteredScan(t: Table, user: seq<UserRule>, ports: Ports, filters: Filters,
                                          foreign: (nat, Packet) -> Verdict, p: Packet)
    requires Suffix(user, ports, filters)
    requires !p.tcp || forall id :: id in filters && id in ports ==> ports[id] != p.origPort
    ensures UserVerdict(t, user, foreign, p) == UserVerdict(t, ForeignPart(user), foreign, p)
    decreases |user|
  {
    hide Chain, FilterVerdict;
    if user != [] {
      SuffixTail(user, ports, filters);
      if user[0].Jump? {
        UnfilteredScan(t, user[1..], ports, filters, foreign, p);
      }
    }
  }

  lemma {:induction false} ForeignVerdict(t: Table, t': Table, user: seq<UserRule>,
                                          foreign: (nat, Packet) -> Verdict, p: Packet)
    ensures UserVerdict(t, ForeignPart(user), foreign, p) == UserVerdict(t', ForeignPart(user), foreign, p)
    decreases |user|
  {
    if user != [] {
      ForeignVerdict(t, t', user[1..], foreign, p);
      if user[0].Foreign? {
        assert ForeignPart(user)[1..] == ForeignPart(user[1..]);
      }
    }
  }

  // The verdict wanted: membership for a filtered port, else the foreign rules.
  ghost function IntendedVerdict(ports: Ports, filters: Filters, foreignRules: seq<UserRule>,
                                 foreign: (nat, Packet) -> Verdict, p: Packet): Verdict
  {
    if p.tcp && exists id :: id in filters && id in ports && ports[id] == p.origPort then
      var id :| id in filters && id in ports && ports[id] == p.origPort;
      if AdmitsAny(filters[id], p.source) then Accepted else Dropped
    else UserVerdict(Table(foreignRules, map[]), foreignRules, foreign, p)
  }

  /** First-match evaluation of the table is set membership. */
  lemma VerdictIsMembership(t: Table, ports: Ports, filters: Filters, foreign: (nat, Packet) -> Verdict, p: Packet)
    requires Represents(t, ports, filters)
    ensures TableVerdict(t, foreign, p) == IntendedVerdict(ports, filters, ForeignPart(t.user), foreign, p)
  {
    hide Chain, AdmitsAny;
    if p.tcp && exists id :: id in filters && id in ports && ports[id] == p.origPort {
      var id :| id in filters && id in ports && ports[id] == p.origPort;
      FilteredScan(t, t.user, ports, filters, foreign, id, p);
    } else {
      UnfilteredScan(t, t.user, ports, filters, foreign, p);
      ForeignVerdict(t, Table(ForeignPart(t.user), map[]), t.user, foreign, p);
    }
  }

  /** After any run the verdict on every original-direction packet is the intended one. */
  lemma RunVerdict(t: Table, ports: Ports, filters: Filters, ops: seq<Operation>,
                   foreign: (nat, Packet) -> Verdict, p: Packet)
    requires Represents(t, ports, filters) && ValidRun(ops, ports)
    ensures TableVerdict(Run(t, ops, ports), foreign, p) ==
      IntendedVerdict(ports, RunFilters(filters, ops, ports), ForeignPart(t.user), foreign, p)
  {
    RunRefines(t, ports, filters, ops);
    VerdictIsMembership(Run(t, ops, ports), ports, RunFilters(filters, ops, ports), foreign, p);
  }

  predicate Touches(op: Operation, id: nat) {
    match op
    case Configure(app, _) => app.id == id
    case Clear(app) => app.id == id
    case Sync(apps, _) => exists i :: 0 <= i < |apps| && apps[i].id == id
  }

  lemma {:induction false} RunLeavesOthers(filters: Filters, ports: Ports, ops: seq<Operation>, id: nat)
    requires ValidRun(ops, ports) && forall i :: 0 <= i < |ops| ==> !Touches(ops[i], id)
    ensures var after := RunFilters(filters, ops, ports);
      (id in after <==> id in filters) && (id in filters ==> after[id] == filters[id])
    decreases |ops|
  {
    hide Normalized, Succeeds, FiltersAfterSync;
    if ops != [] {
      assert !Touches(ops[0], id) && ValidOperation(ops[0], ports);
      if ops[0].Sync? { SyncLeavesOthers(filters, ops[0].apps, ops[0].faults, id); }
      RunLeavesOthers(FiltersOf(filters, ops[0]), ports, ops[1..], id);
    }
  }

  /** Calls about other applications never change the verdict on packets to this application's port. */
  lemma OtherAppsKeepVerdict(t: Table, ports: Ports, filters: Filters, ops: seq<Operation>,
                             id: nat, foreign: (nat, Packet) -> Verdict, p: Packet)
    requires Represents(t, ports, filters) && ValidRun(ops, ports)
    requires id in ports && p.tcp && p.origPort == ports[id]
    requires forall i :: 0 <= i < |ops| ==> !Touches(ops[i], id)
    ensures TableVerdict(Run(t, ops, ports), foreign, p) == TableVerdict(t, foreign, p)
  {
    hide Represents, AdmitsAny, TableVerdict;
    RunVerdict(t, ports, filters, ops, foreign, p);
    VerdictIsMembership(t, ports, filters, foreign, p);
    RunLeavesOthers(filters, ports, ops, id);
    RunFiltersKnown(filters, ports, ops, t);
    assert Injective(ports) by { assert Represents(t, ports, filters); InjectiveOf(t, ports, filters); }
  }

  lemma InjectiveOf(t: Table, ports: Ports, filters: Filters)
    requires Represents(t, ports, filters)
    ensures Injective(ports)
  {}

  lemma RunFiltersKnown(filters: Filters, ports: Ports, ops: seq<Operation>, t: Table)
    requires Represents(t, ports, filters) && ValidRun(ops, ports)
    ensures RunFilters(filters, ops, ports).Keys <= ports.Keys
  {
    RunRefines(t, ports, filters, ops);
  }

  /** A call that does not succeed leaves no rule and no chain of its application. */
  lemma FailureLeavesNothing(t: Table, ports: Ports, filters: Filters, app: DbApp, fault: nat)
    requires Represents(t, ports, filters) && Known(app, ports)
    requires Configured(t, app, fault).1 != Done(true)
    ensures var after := Configured(t, app, fault).0;
      && Chain(app.id) !in after.chains
      && (forall rule | rule in after.user && rule.Jump? :: rule.port != app.port && rule.chain != Chain(app.id))
  {
    hide Configured, Normalized, Chain;
    ConfigureStep(t, ports, filters, app, fault);
    var after := Configured(t, app, fault).0;
    forall rule | rule in after.user && rule.Jump? ensures rule.port != app.port && rule.chain != Chain(app.id) {
      var i :| 0 <= i < |after.user| && after.user[i] == rule;
      var id :| id in filters - {app.id} && id in ports && rule == Jump(ports[id], Chain(id));
      if Chain(id) == Chain(app.id) { ChainInjective(id, app.id); }
    }
  }

  // ----- one successful call, from any table the kernel allows -----

  // The kernel refuses a jump to a chain that does not exist.
  ghost predicate NoDanglingJump(t: Table) {
    forall i :: 0 <= i < |t.user| && t.user[i].Jump? ==> t.user[i].chain in t.chains
  }

  lemma {:induction false} OtherPortsScan(t: Table, t': Table, user: seq<UserRule>, app: DbApp,
                                          foreign: (nat, Packet) -> Verdict, p: Packet)
    requires !(p.tcp && p.origPort == app.port)
    requires forall i :: 0 <= i < |user| && user[i].Jump? && user[i] != JumpOf(app) ==>
      && user[i].chain in t.chains && user[i].chain in t'.chains && t.chains[user[i].chain] == t'.chains[user[i].chain]
    ensures UserVerdict(t', RemoveAll(user, JumpOf(app)), foreign, p) == UserVerdict(t, user, foreign, p)
    decreases |user|
  {
    hide Chain, FilterVerdict;
    if user != [] {
      OtherPortsScan(t, t', user[1..], app, foreign, p);
      assert RemoveAll(user, JumpOf(app)) != [] && user[0] != JumpOf(app) ==>
        RemoveAll(user, JumpOf(app))[1..] == RemoveAll(user[1..], JumpOf(app));
    }
  }

  /** A successful call filters its own port by the submitted ranges and keeps every other verdict. */
  lemma ConfigureExact(t: Table, app: DbApp, fault: nat, foreign: (nat, Packet) -> Verdict, p: Packet)
    requires NoDanglingJump(t) && app.public && Configured(t, app, fault).1 == Done(true)
    ensures TableVerdict(Configured(t, app, fault).0, foreign, p) ==
      if p.tcp && p.origPort == app.port then
        if AdmitsAny(app.cidrs, p.source) then Accepted else Dropped
      else TableVerdict(t, foreign, p)
  {
    hide Chain, AdmitsAny, Normalized, FilterOf, FilterVerdict, RemoveAll;
    var list := Normalized(app.cidrs).value;
    var after := Configured(t, app, fault).0;
    var rest := RemoveAll(t.user, JumpOf(app));
    assert after.user[1..] == rest;
    RemoveAllMembers(t.user, JumpOf(app));
    NormalizedAdmits(app.cidrs, p.source);
    FilterDecides(list, p.source);
    if !(p.tcp && p.origPort == app.port) {
      forall i | 0 <= i < |t.user| && t.user[i].Jump? && t.user[i] != JumpOf(app)
        ensures t.user[i].chain in after.chains && after.chains[t.user[i].chain] == t.chains[t.user[i].chain]
      {
        assert t.user[i] in t.user;
        var k :| 0 <= k < |rest| && rest[k] == t.user[i];
        assert t.user[i].chain == Chain(app.id) ==> Referenced(rest, Chain(app.id));
      }
      OtherPortsScan(t, after, t.user, app, foreign, p);
    }
  }

  /** A whole call on an empty table: the chain accepts the two ranges in order and drops the rest, and one jump for the
      port leads to it. */
  lemma RemoteDatabase(fault: nat)
    requires fault >= 5
    ensures Configured(Table([], map[]), DbApp(42, 15432, true, ["203.0.113.25", "198.51.100.0/24"]), fault) ==
      (Table([Jump(15432, "NOVA_DB_42")],
             map["NOVA_DB_42" := [AcceptFrom("203.0.113.25/32"), AcceptFrom("198.51.100.0/24"), DropAll]]),
       Done(true))
  {
    hide Normalized, Chain;
    var cidrs := ["203.0.113.25", "198.51.100.0/24"];
    TwoRanges();
    ChainText();
    assert FilterOf(["203.0.113.25/32", "198.51.100.0/24"]) ==
      [AcceptFrom("203.0.113.25/32"), AcceptFrom("198.51.100.0/24"), DropAll];
    var empty := Table([], map[]);
    var app := DbApp(42, 15432, true, cidrs);
    assert Cleared(empty, app) == empty;
    hide Cleared, FilterOf;
    var list := ["203.0.113.25/32", "198.51.100.0/24"];
    assert Normalized(app.cidrs) == Ok(list) && |list| == 2;
    assert JumpOf(app) == Jump(15432, "NOVA_DB_42");
    assert Configured(empty, app, fault) == (Table([JumpOf(app)] + [], map[][Chain(42) := FilterOf(list)]), Done(true));
    assert [JumpOf(app)] + [] == [JumpOf(app)];
    assert map[][Chain(42) := FilterOf(list)] == map[Chain(42) := FilterOf(list)];
  }

  lemma FirstNumerals()
    ensures Decimal(203) == "203" && Decimal(0) == "0" && Decimal(113) == "113" && Decimal(25) == "25"
  {}

  lemma SecondNumerals()
    ensures Decimal(198) == "198" && Decimal(51) == "51" && Decimal(100) == "100" && Decimal(0) == "0"
  {}

  lemma JoinFour(a: string, b: string, c: string, d: string)
    ensures Join([a, b, c, d], '.') == a + "." + b + "." + c + "." + d
  {
    assert [a, b, c, d][1..] == [b, c, d] && [b, c, d][1..] == [c, d] && [c, d][1..] == [d];
    assert Join([c, d], '.') == c + ['.'] + d;
    assert Join([b, c, d], '.') == b + ['.'] + Join([c, d], '.');
  }

  lemma DottedText()
    ensures Dotted(203, 0, 113, 25) == "203.0.113.25" && Dotted(198, 51, 100, 0) == "198.51.100.0"
  {
    hide Decimal, Join;
    FirstNumerals();
    SecondNumerals();
    JoinFour("203", "0", "113", "25");
    JoinFour("198", "51", "100", "0");
  }

  lemma TwoRanges()
    ensures Normalized(["203.0.113.25", "198.51.100.0/24"]) == Ok(["203.0.113.25/32", "198.51.100.0/24"])
  {
    hide Canonical, Dotted;
    DottedText();
    BareStored(203, 0, 113, 25);
    NetworkStored(198, 51, 100, 0);
    var values := ["203.0.113.25", "198.51.100.0/24"];
    assert values[..1] == ["203.0.113.25"];
    assert "203.0.113.25" + "/32" == "203.0.113.25/32" && "198.51.100.0" + "/24" == "198.51.100.0/24";
    assert Normalized(values[..1]) == Ok(["203.0.113.25/32"]);
    assert Canonical(values[1]) == Ok("198.51.100.0/24");
    assert "203.0.113.25/32" != "198.51.100.0/24";
    assert ["203.0.113.25/32"] + ["198.51.100.0/24"] == ["203.0.113.25/32", "198.51.100.0/24"];
  }
}
