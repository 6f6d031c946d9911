// The packet filter kept by app/services/database_access_service.py: the
// DOCKER-USER chain, one filter chain per public database, and the commands
// that edit them.  `-N`, `-A` and `-I` may fail at any time; `-C`, `-D`, `-L`,
// `-F` and `-X` report and change the table as it is.
module Firewall {
  import opened Results
  import opened Text
  import opened Cidr

  // ----- the rule table -----

  // A jump taken by TCP packets whose original destination port is `port`, or
  // a rule this program did not write.
  datatype UserRule = Jump(port: nat, chain: string) | Foreign(id: nat)

  datatype FilterRule = AcceptFrom(cidr: string) | DropAll

  datatype Table = Table(user: seq<UserRule>, chains: map<string, seq<FilterRule>>)

  datatype DbApp = DbApp(id: nat, port: nat, public: bool, cidrs: seq<string>)

  function Chain(id: nat): string { "NOVA_DB_" + Decimal(id) }

  function JumpOf(app: DbApp): UserRule { Jump(app.port, Chain(app.id)) }

  function FilterOf(cidrs: seq<string>): seq<FilterRule> {
    Accepts(cidrs) + [DropAll]
  }

  function Accepts(cidrs: seq<string>): seq<FilterRule> {
    seq(|cidrs|, i requires 0 <= i < |cidrs| => AcceptFrom(cidrs[i]))
  }

  lemma ChainInjective(i: nat, j: nat)
    requires Chain(i) == Chain(j)
    ensures i == j
  {
    assert Decimal(i) == Chain(i)[8..] && Decimal(j) == Chain(j)[8..];
    DecimalInjective(i, j);
  }

  lemma ChainText()
    ensures Chain(42) == "NOVA_DB_42"
  {
    assert Decimal(42) == "42";
  }

  // ----- packets and verdicts -----

  datatype Packet = Packet(tcp: bool, origPort: nat, source: nat)

  datatype Verdict = Accepted | Dropped | NoMatch

  function FilterVerdict(rules: seq<FilterRule>, source: nat): Verdict {
    if rules == [] then NoMatch
    else
      match rules[0]
      case DropAll => Dropped
      case AcceptFrom(cidr) => if Admits(cidr, source) then Accepted else FilterVerdict(rules[1..], source)
  }

  // First match over DOCKER-USER; `foreign` is what the other rules decide.
  function UserVerdict(t: Table, user: seq<UserRule>, foreign: (nat, Packet) -> Verdict, p: Packet): Verdict {
    if user == [] then NoMatch
    else
      var here := match user[0]
        case Foreign(id) => foreign(id, p)
        case Jump(port, chain) =>
          if !(p.tcp && p.origPort == port && chain in t.chains) then NoMatch
          else FilterVerdict(t.chains[chain], p.source);
      if here != NoMatch then here else UserVerdict(t, user[1..], foreign, p)
  }

  function TableVerdict(t: Table, foreign: (nat, Packet) -> Verdict, p: Packet): Verdict {
    UserVerdict(t, t.user, foreign, p)
  }

  // ----- what clearing and configuring leave behind -----

  function RemoveFirst(user: seq<UserRule>, rule: UserRule): seq<UserRule> {
    if user == [] then []
    else if user[0] == rule then user[1..]
    else [user[0]] + RemoveFirst(user[1..], rule)
  }

  function RemoveAll(user: seq<UserRule>, rule: UserRule): seq<UserRule> {
    if user == [] then []
    else if user[0] == rule then RemoveAll(user[1..], rule)
    else [user[0]] + RemoveAll(user[1..], rule)
  }

  predicate Referenced(user: seq<UserRule>, chain: string) {
    exists i :: 0 <= i < |user| && user[i].Jump? && user[i].chain == chain
  }

  // -X refuses a chain that some rule still jumps to; -F has emptied it by then.
  function DropChain(t: Table, chain: string): Table {
    if chain !in t.chains then t
    else if Referenced(t.user, chain) then t.(chains := t.chains[chain := []])
    else t.(chains := t.chains - {chain})
  }

  function Cleared(t: Table, app: DbApp): Table {
    DropChain(t.(user := RemoveAll(t.user, JumpOf(app))), Chain(app.id))
  }

  datatype Outcome = Done(ok: bool) | Raised

  // `fault` numbers the first fallible command that fails: 0 is -N, then one
  // -A for each range, then -A DROP, then -I.
  function Configured(t: Table, app: DbApp, fault: nat): (r: (Table, Outcome)) {
    var clear := Cleared(t, app);
    if !app.public then (clear, Done(true))
    else
      match Normalized(app.cidrs)
      case Err(_) => (clear, Raised)
      case Ok(list) =>
        if list == [] || Chain(app.id) in clear.chains || fault == 0 then (clear, Done(false))
        else if fault <= |list| + 2 then
          (Cleared(clear.(chains := clear.chains[Chain(app.id) := FilterOf(list)[..fault - 1]]), app), Done(false))
        else
          (Table([JumpOf(app)] + clear.user, clear.chains[Chain(app.id) := FilterOf(list)]), Done(true))
  }

  // The start-up pass; the first exception ends it.
  function Synced(t: Table, apps: seq<DbApp>, faults: seq<nat>): (r: (Table, Outcome))
    requires |faults| == |apps|
    decreases |apps|
  {
    if apps == [] then (t, Done(true))
    else
      var last := |apps| - 1;
      var (t1, outcome) := Synced(t, apps[..last], faults[..last]);
      if outcome.Raised? then (t1, Raised)
      else
        var (t2, next) := Configured(t1, apps[last], faults[last]);
        (t2, if next.Raised? then Raised else Done(true))
  }

  // ----- the commands -----

  class Iptables {
    var user: seq<UserRule>
    var chains: map<string, seq<FilterRule>>

    ghost function State(): Table
      reads this
    {
      Table(user, chains)
    }

    method CheckRule(rule: UserRule) returns (ok: bool)
      ensures ok <==> rule in user
    {
      ok := rule in user;
    }

    method DeleteRule(rule: UserRule)
      modifies this`user
      ensures user == RemoveFirst(old(user), rule)
    {
      user := RemoveFirst(user, rule);
    }

    method ListChain(chain: string) returns (ok: bool)
      ensures ok <==> chain in chains
    {
      ok := chain in chains;
    }

    method Flush(chain: string)
      modifies this`chains
      ensures chains == if chain in old(chains) then old(chains)[chain := []] else old(chains)
    {
      if chain in chains {
        chains := chains[chain := []];
      }
    }

    method DeleteChain(chain: string)
      modifies this`chains
      ensures chains ==
        if chain in old(chains) && old(chains)[chain] == [] && !Referenced(user, chain) then old(chains) - {chain}
        else old(chains)
    {
      if chain in chains && chains[chain] == [] && !Referenced(user, chain) {
        chains := chains - {chain};
      }
    }

    // `works` tells of a fallible command whether the system lets it through.
    method NewChain(chain: string, works: bool) returns (ok: bool)
      modifies this`chains
      ensures ok <==> works && chain !in old(chains)
      ensures chains == if ok then old(chains)[chain := []] else old(chains)
    {
      ok := works && chain !in chains;
      if ok {
        chains := chains[chain := []];
      }
    }

    method Append(chain: string, rule: FilterRule, works: bool) returns (ok: bool)
      modifies this`chains
      ensures ok <==> works && chain in old(chains)
      ensures ok ==> chains == old(chains)[chain := old(chains)[chain] + [rule]]
      ensures !ok ==> chains == old(chains)
    {
      ok := works && chain in chains;
      if ok {
        chains := chains[chain := chains[chain] + [rule]];
      }
    }

    method InsertFirst(rule: UserRule, works: bool) returns (ok: bool)
      modifies this`user
      ensures ok == works && user == if ok then [rule] + old(user) else old(user)
    {
      ok := works;
      if ok {
        user := [rule] + user;
      }
    }

    /** clear_database_firewall: delete the jump while it is present, then the chain. */
    method Clear(app: DbApp)
      modifies this
      ensures State() == Cleared(old(State()), app)
    {
      var jump := JumpOf(app);
      var present := CheckRule(jump);
      while present
        invariant present <==> jump in user
        invariant chains == old(chains)
        invariant RemoveAll(user, jump) == RemoveAll(old(user), jump)
        decreases multiset(user)[jump]
      {
        RemoveFirstEffect(user, jump);
        DeleteRule(jump);
        present := CheckRule(jump);
      }
      NothingToRemove(user, jump);
      var listed := ListChain(Chain(app.id));
      if listed {
        Flush(Chain(app.id));
        DeleteChain(Chain(app.id));
        if Referenced(user, Chain(app.id)) {
        } else {
          assert chains == old(chains) - {Chain(app.id)};
        }
      }
    }

    /** configure_database_firewall; `fault` is the number of the first command that the system fails. */
    method Configure(app: DbApp, fault: nat) returns (outcome: Outcome)
      modifies this
      ensures (State(), outcome) == Configured(old(State()), app, fault)
    {
      hide Cleared, Normalized, Chain;
      Clear(app);
      ghost var clear := State();
      if !app.public {
        return Done(true);
      }
      var normalized := NormalizeCidrs(app.cidrs);
      if normalized.Err? {
        return Raised;
      }
      var cidrs := normalized.value;
      if cidrs == [] {
        return Done(false);
      }
      var chain := Chain(app.id);
      var ok := NewChain(chain, fault != 0);
      if !ok {
        return Done(false);
      }
      for i := 0 to |cidrs|
        invariant user == clear.user && fault > i
        invariant chains == clear.chains[chain := FilterOf(cidrs)[..i]]
      {
        ok := Append(chain, AcceptFrom(cidrs[i]), fault != i + 1);
        if !ok {
          Clear(app);
          return Done(false);
        }
        assert FilterOf(cidrs)[..i + 1] == FilterOf(cidrs)[..i] + [AcceptFrom(cidrs[i])];
      }
      ok := Append(chain, DropAll, fault != |cidrs| + 1);
      if !ok {
        Clear(app);
        return Done(false);
      }
      assert FilterOf(cidrs)[..|cidrs|] + [DropAll] == FilterOf(cidrs);
      assert chains == clear.chains[chain := FilterOf(cidrs)];
      ok := InsertFirst(JumpOf(app), fault != |cidrs| + 2);
      if !ok {
        assert FilterOf(cidrs)[..|cidrs| + 1] == FilterOf(cidrs);
        Clear(app);
        return Done(false);
      }
      return Done(true);
    }

    /** sync_all_database_firewalls; nothing happens unless DOCKER-USER can be listed. */
    method SyncAll(apps: seq<DbApp>, listed: bool, faults: seq<nat>) returns (outcome: Outcome)
      requires |faults| == |apps|
      modifies this
      ensures (State(), outcome) == if listed then Synced(old(State()), apps, faults) else (old(State()), Done(true))
    {
      hide Configured;
      if !listed {
        return Done(true);
      }
      for i := 0 to |apps|
        invariant Synced(old(State()), apps[..i], faults[..i]) == (State(), Done(true))
      {
        outcome := Configure(apps[i], faults[i]);
        assert apps[..i + 1][..i] == apps[..i] && faults[..i + 1][..i] == faults[..i];
        if outcome.Raised? {
          SyncedStops(old(State()), apps, faults, i + 1);
          return;
        }
      }
      assert apps[..|apps|] == apps && faults[..|apps|] == faults;
      outcome := Done(true);
    }
  }

  lemma {:induction false} SyncedStops(t: Table, apps: seq<DbApp>, faults: seq<nat>, i: nat)
    requires |faults| == |apps| && i <= |apps| && Synced(t, apps[..i], faults[..i]).1.Raised?
    ensures Synced(t, apps, faults) == Synced(t, apps[..i], faults[..i])
    decreases |apps|
  {
    hide Configured;
    if i == |apps| {
      assert apps[..i] == apps && faults[..i] == faults;
    } else {
      var last := |apps| - 1;
      assert apps[..last][..i] == apps[..i] && faults[..last][..i] == faults[..i];
      SyncedStops(t, apps[..last], faults[..last], i);
    }
  }

  lemma {:induction false} RemoveFirstEffect(user: seq<UserRule>, rule: UserRule)
    requires rule in user
    ensures RemoveAll(RemoveFirst(user, rule), rule) == RemoveAll(user, rule)
    ensures multiset(RemoveFirst(user, rule))[rule] + 1 == multiset(user)[rule]
  {
    assert user == [user[0]] + user[1..];
    if user[0] != rule {
      RemoveFirstEffect(user[1..], rule);
      var rest := RemoveFirst(user[1..], rule);
      assert ([user[0]] + rest)[1..] == rest;
    }
  }

  lemma {:induction false} NothingToRemove(user: seq<UserRule>, rule: UserRule)
    requires rule !in user
    ensures RemoveAll(user, rule) == user
  {
    if user != [] {
      assert user == [user[0]] + user[1..];
      assert user[0] in user;
      NothingToRemove(user[1..], rule);
    }
  }
}
