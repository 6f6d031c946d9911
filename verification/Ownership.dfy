// Which application owns which domain: the create, set-domain, delete-domain
// and delete-application routes of app/routers/apps.py over the shared nginx
// directories.  Each route is one atomic step.
module Ownership {
  import opened Results
  import opened Text
  import opened Domains
  import opened Sites

  datatype SiteRow = SiteRow(name: string, port: nat, database: bool, domain: string, domains: seq<string>)

  datatype World = World(rows: map<nat, SiteRow>, files: Files)

  // _app_domains: the primary domain first when the list lacks it, lower case, no empty items, no repeats.
  function EffectiveDomains(row: SiteRow): seq<string> {
    var listed := if row.domain != "" && row.domain !in row.domains then [row.domain] + row.domains else row.domains;
    Dedup(LowerAll(listed))
  }

  function LowerAll(domains: seq<string>): seq<string> {
    if domains == [] then []
    else if domains[0] == "" then LowerAll(domains[1..])
    else [Lower(domains[0])] + LowerAll(domains[1..])
  }

  predicate OwnedByOther(rows: map<nat, SiteRow>, id: nat, domain: string) {
    exists other :: other in rows && other != id && domain in EffectiveDomains(rows[other])
  }

  predicate NameTaken(rows: map<nat, SiteRow>, name: string) {
    exists other :: other in rows && rows[other].name == name
  }

  // ----- the routes -----

  datatype Step =
    | Create(id: nat, name: string, port: nat, database: bool)
    | SetDomain(id: nat, domain: string, ssl: bool, installed: bool, live: set<string>, w: CommandOutcomes)
    | DeleteDomain(id: nat, domain: string, installed: bool, live: set<string>, w: CommandOutcomes)
    | DeleteApp(id: nat)

  function HeadOr(domains: seq<string>): string { if domains == [] then "" else domains[0] }

  function StoreDomains(row: SiteRow, domains: seq<string>): SiteRow {
    row.(domain := HeadOr(domains), domains := domains)
  }

  // configure_domains for one row; the row follows only when the call is ok.
  function Routed(world: World, id: nat, domains: seq<string>, ssl: bool, installed: bool, live: set<string>,
      w: CommandOutcomes): (World, bool)
    requires id in world.rows
  {
    var row := world.rows[id];
    var (files, outcome) := Reconfigured(world.files, row.name, row.port, domains, ssl, installed, live, w);
    if outcome.Active? then (World(world.rows[id := StoreDomains(row, domains)], files), true)
    else (world.(files := files), false)
  }

  function Without(domains: seq<string>, domain: string): seq<string> {
    if domains == [] then []
    else if domains[0] == domain then Without(domains[1..], domain)
    else [domains[0]] + Without(domains[1..], domain)
  }

  // The new state, and whether the route answered with success.
  function Apply(world: World, step: Step): (World, bool) {
    match step
    case Create(id, name, port, database) =>
      if !IsAppName(name) || id in world.rows || NameTaken(world.rows, name) then (world, false)
      else (world.(rows := world.rows[id := SiteRow(name, port, database, "", [])]), true)
    case SetDomain(id, text, ssl, installed, live, w) =>
      if id !in world.rows || world.rows[id].database then (world, false)
      else
        var domain := ValidateDomain(text);
        if domain.None? || OwnedByOther(world.rows, id, domain.value) then (world, false)
        else
          var domains := EffectiveDomains(world.rows[id]);
          var wanted := if domain.value in domains then domains else domains + [domain.value];
          Routed(world, id, wanted, ssl, installed, live, w)
    case DeleteDomain(id, text, installed, live, w) =>
      if id !in world.rows then (world, false)
      else
        var domain := ValidateDomain(text);
        if domain.None? then (world, false)
        else Routed(world, id, Without(EffectiveDomains(world.rows[id]), domain.value), false, installed, live, w)
    case DeleteApp(id) =>
      if id !in world.rows then (world, false)
      else (World(world.rows - {id}, Removed(world.files, world.rows[id].name)), true)
  }

  // The routes as they run: rows in the database, files under the nginx directories.
  class Panel {
    const sites: NginxSites
    var rows: map<nat, SiteRow>

    constructor (sites: NginxSites)
      ensures this.sites == sites && rows == map[]
    {
      this.sites := sites;
      rows := map[];
    }

    ghost function State(): World
      reads this, sites
    {
      World(rows, sites.State())
    }

    method CreateApp(id: nat, name: string, port: nat, database: bool) returns (ok: bool)
      modifies this`rows
      ensures (State(), ok) == Apply(old(State()), Create(id, name, port, database))
    {
      if !IsAppName(name) || id in rows || NameTaken(rows, name) {
        return false;
      }
      rows := rows[id := SiteRow(name, port, database, "", [])];
      ok := true;
    }

    method FindOwner(id: nat, domain: string) returns (taken: bool)
      ensures taken <==> OwnedByOther(rows, id, domain)
    {
      hide EffectiveDomains;
      var todo := rows.Keys - {id};
      while todo != {}
        invariant todo <= rows.Keys - {id}
        invariant forall other :: other in rows && other != id && other !in todo ==>
            domain !in EffectiveDomains(rows[other])
      {
        var candidate :| candidate in todo;
        if domain in EffectiveDomains(rows[candidate]) {
          return true;
        }
        todo := todo - {candidate};
      }
      taken := false;
    }

    method ConfigureRow(id: nat, domains: seq<string>, ssl: bool, installed: bool, live: set<string>,
                        w: CommandOutcomes)
      returns (ok: bool)
      requires id in rows
      modifies this`rows, sites
      ensures (State(), ok) == Routed(old(State()), id, domains, ssl, installed, live, w)
    {
      hide Reconfigured;
      var outcome := sites.ConfigureDomains(rows[id].name, rows[id].port, domains, ssl, installed, live, w);
      ok := outcome.Active?;
      if ok {
        rows := rows[id := StoreDomains(rows[id], domains)];
      }
    }

    /** The set_domain route. */
    method AddDomain(id: nat, text: string, ssl: bool, installed: bool, live: set<string>, w: CommandOutcomes)
      returns (ok: bool)
      modifies this`rows, sites
      ensures (State(), ok) == Apply(old(State()), SetDomain(id, text, ssl, installed, live, w))
    {
      hide ValidateDomain, EffectiveDomains, Routed;
      if id !in rows || rows[id].database {
        return false;
      }
      var domain := ValidateDomain(text);
      if domain.None? {
        return false;
      }
      var taken := FindOwner(id, domain.value);
      if taken {
        return false;
      }
      var domains := EffectiveDomains(rows[id]);
      if domain.value !in domains {
        domains := domains + [domain.value];
      }
      ok := ConfigureRow(id, domains, ssl, installed, live, w);
    }

    /** The delete_domain route. */
    method DropDomain(id: nat, text: string, installed: bool, live: set<string>, w: CommandOutcomes)
      returns (ok: bool)
      modifies this`rows, sites
      ensures (State(), ok) == Apply(old(State()), DeleteDomain(id, text, installed, live, w))
    {
      hide ValidateDomain, EffectiveDomains, Routed;
      if id !in rows {
        return false;
      }
      var domain := ValidateDomain(text);
      if domain.None? {
        return false;
      }
      ok := ConfigureRow(id, Without(EffectiveDomains(rows[id]), domain.value), false, installed, live, w);
    }

    /** The delete_app route, as far as rows and site files go. */
    method RemoveApp(id: nat) returns (ok: bool)
      modifies this`rows, sites
      ensures (State(), ok) == Apply(old(State()), DeleteApp(id))
    {
      if id !in rows {
        return false;
      }
      sites.RemoveDomains(rows[id].name);
      rows := rows - {id};
      ok := true;
    }
  }

  // ----- the invariant -----

  ghost predicate GoodRow(row: SiteRow) {
    && IsAppName(row.name)
    && Distinct(row.domains)
    && (forall d :: d in row.domains ==> IsStored(d))
    && row.domain == HeadOr(row.domains)
  }

  ghost predicate Apart(a: SiteRow, b: SiteRow) {
    && a.name != b.name
    && !Clash(a.name, b.name)
    && (forall d :: d in a.domains ==> d !in b.domains)
  }

  ghost predicate GoodRows(rows: map<nat, SiteRow>) {
    && (forall id :: id in rows ==> GoodRow(rows[id]))
    && (forall i, j :: i in rows && j in rows && i != j ==> Apart(rows[i], rows[j]))
  }

  // The files of one application are paired, belong to its domains, and serve them.
  ghost predicate GoodFiles(files: Files, row: SiteRow) {
    && Paired(files, row.name)
    && (forall f :: GlobMatches(row.name, f) && f in files.available ==> f in Names(row.name, row.domains))
    && (forall d :: d in row.domains && ConfigName(row.name, d) in files.available ==>
        files.available[ConfigName(row.name, d)].server == d)
  }

  predicate OwnedBy(row: SiteRow, f: string) {
    f == LegacyName(row.name) || f in Names(row.name, row.domains)
  }

  // Below any application name's prefix there are only files of existing applications.
  ghost predicate NoOrphans(rows: map<nat, SiteRow>, files: Files) {
    forall f, name :: (f in files.available || f in files.enabled) && IsAppName(name) && GlobMatches(name, f) ==>
      exists id :: id in rows && OwnedBy(rows[id], f)
  }

  ghost predicate Good(world: World) {
    && GoodRows(world.rows)
    && (forall id :: id in world.rows ==> GoodFiles(world.files, world.rows[id]))
    && NoOrphans(world.rows, world.files)
  }

  // A new name reaches no existing one's files and the other way round; and the server reloads when a new domain
  // has passed the check.
  ghost predicate Admissible(world: World, step: Step) {
    match step
    case Create(id, name, port, database) =>
      || !IsAppName(name) || id in world.rows || NameTaken(world.rows, name)
      || forall other :: other in world.rows ==>
           !Clash(name, world.rows[other].name) && !Clash(world.rows[other].name, name)
    case SetDomain(id, text, _, installed, _, w) =>
      || id !in world.rows || world.rows[id].database
      || ValidateDomain(text).None? || OwnedByOther(world.rows, id, ValidateDomain(text).value)
      || !installed || !w.check || w.reload
      || ValidateDomain(text).value in world.rows[id].domains
    case DeleteDomain(_, _, _, _, _) => true
    case DeleteApp(_) => true
  }

  // The managed files on disk are those of the row's domains.
  ghost predicate OnDisk(files: Files, row: SiteRow) {
    forall f :: GlobMatches(row.name, f) ==> (f in files.available <==> f in Names(row.name, row.domains))
  }

  // ----- lists of domains -----

  lemma {:induction false} LowerAllStored(domains: seq<string>)
    requires forall d :: d in domains ==> IsStored(d)
    ensures LowerAll(domains) == domains
  {
    hide ValidateDomain;
    if domains != [] {
      assert domains == [domains[0]] + domains[1..];
      LowerAllStored(domains[1..]);
      assert domains[0] in domains;
      StoredLower(domains[0]);
    }
  }

  lemma StoredLower(d: string)
    requires IsStored(d)
    ensures d != "" && Lower(d) == d && IsDomain(d)
  {
    StoredIsDomain(d);
    hide IsDomain, ValidateDomain;
    DomainCharacters(d);
    StaysLower(d);
  }

  lemma {:induction false} LowerAllMembers(domains: seq<string>, d: string)
    ensures d in LowerAll(domains) <==> exists i :: 0 <= i < |domains| && domains[i] != "" && Lower(domains[i]) == d
  {
    hide Lower;
    if domains != [] {
      LowerAllMembers(domains[1..], d);
      if i :| 0 <= i < |domains[1..]| && domains[1..][i] != "" && Lower(domains[1..][i]) == d {
        assert domains[i + 1] == domains[1..][i];
      }
      if i :| 0 <= i < |domains| && domains[i] != "" && Lower(domains[i]) == d {
        if i > 0 { assert domains[1..][i - 1] == domains[i]; }
      }
    }
  }

  /** For any row at all: the list has no repeats, holds the primary domain and the listed ones in lower case,
      and starts with a primary domain that the list lacked. */
  lemma EffectiveMeaning(row: SiteRow, d: string)
    ensures Distinct(EffectiveDomains(row))
    ensures d in EffectiveDomains(row) <==>
      || (row.domain != "" && Lower(row.domain) == d)
      || exists i :: 0 <= i < |row.domains| && row.domains[i] != "" && Lower(row.domains[i]) == d
    ensures row.domain != "" && row.domain !in row.domains ==>
      EffectiveDomains(row) != [] && EffectiveDomains(row)[0] == Lower(row.domain)
  {
    hide Lower;
    var listed := if row.domain != "" && row.domain !in row.domains then [row.domain] + row.domains else row.domains;
    LowerAllMembers(listed, d);
    LowerAllMembers(row.domains, d);
    if listed != row.domains {
      LowerAllMembers([row.domain] + row.domains, d);
      assert listed[0] == row.domain && listed[1..] == row.domains;
      assert LowerAll(listed) == [Lower(row.domain)] + LowerAll(row.domains);
      DedupHead(LowerAll(listed));
    }
  }

  /** In a good row the effective list is the stored list. */
  lemma EffectiveIsStored(row: SiteRow)
    requires GoodRow(row)
    ensures EffectiveDomains(row) == row.domains
  {
    hide ValidateDomain, Lower;
    LowerAllStored(row.domains);
    DedupDistinct(row.domains);
  }

  lemma {:induction false} ValidateAllStored(domains: seq<string>)
    requires forall d :: d in domains ==> IsStored(d)
    ensures ValidateAll(domains) == Some(domains)
  {
    hide ValidateDomain;
    if domains != [] {
      var front, last := domains[..|domains| - 1], domains[|domains| - 1];
      assert domains == front + [last];
      ValidateAllStored(front);
      assert last in domains;
    }
  }

  lemma {:induction false} WithoutMeaning(domains: seq<string>, domain: string)
    ensures forall d :: d in Without(domains, domain) <==> d in domains && d != domain
    ensures Distinct(domains) ==> Distinct(Without(domains, domain))
  {
    if domains != [] {
      assert domains == [domains[0]] + domains[1..];
      WithoutMeaning(domains[1..], domain);
      if Distinct(domains) {
        forall i, j | 0 <= i < j < |domains[1..]| ensures domains[1..][i] != domains[1..][j] {
          assert domains[i + 1] != domains[j + 1];
        }
        var rest := Without(domains[1..], domain);
        forall i | 0 <= i < |rest| ensures rest[i] != domains[0] {
          assert rest[i] in domains[1..];
          var k :| 0 <= k < |domains[1..]| && domains[1..][k] == rest[i];
          assert domains[k + 1] == rest[i];
        }
        assert Distinct([domains[0]] + rest);
      }
    }
  }

  // ----- one application's call leaves the others alone -----

  lemma SeparateNames(a: SiteRow, b: SiteRow, f: string)
    requires GoodRow(a) && GoodRow(b) && a.name != b.name && !Clash(a.name, b.name) && !Clash(b.name, a.name)
    ensures f in Names(b.name, b.domains) ==> !GlobMatches(a.name, f) && f != LegacyName(a.name)
    ensures f == LegacyName(b.name) ==> !GlobMatches(a.name, f) && f != LegacyName(a.name)
  {
    hide ConfigName, LegacyName, GlobMatches, Clash, IsAppName, ValidateDomain;
    if f in Names(b.name, b.domains) {
      var d :| d in b.domains && f == ConfigName(b.name, d);
      StoredLower(d);
      LegacyNotManaged(a.name, b.name, d);
      GlobClash(a.name, b.name);
    }
    if f == LegacyName(b.name) {
      if GlobMatches(a.name, f) { GlobReachesLegacy(a.name, b.name); }
      if f == LegacyName(a.name) { LegacyInjective(a.name, b.name); }
    }
  }

  lemma LegacyInjective(a: string, b: string)
    requires LegacyName(a) == LegacyName(b)
    ensures a == b
  {
    assert a == LegacyName(a)[5..|LegacyName(a)| - 5];
    assert b == LegacyName(b)[5..|LegacyName(b)| - 5];
  }

  // What every call for `name` keeps: files it neither globs nor owns as legacy.
  ghost predicate OnlyOwn(before: Files, after: Files, name: string) {
    forall f :: !GlobMatches(name, f) && f != LegacyName(name) ==>
      && (f in after.available <==> f in before.available) && (f in after.enabled <==> f in before.enabled)
      && (f in before.available ==> after.available[f] == before.available[f])
  }

  lemma OthersKept(world: World, after: Files, id: nat, other: nat)
    requires Good(world) && id in world.rows && other in world.rows && id != other
    requires OnlyOwn(world.files, after, world.rows[id].name)
    ensures GoodFiles(after, world.rows[other])
    ensures OnDisk(world.files, world.rows[other]) ==> OnDisk(after, world.rows[other])
  {
    hide ConfigName, LegacyName, GlobMatches, Clash, IsAppName, ValidateDomain;
    var a, b := world.rows[id], world.rows[other];
    assert Apart(a, b) && Apart(b, a);
    forall f | GlobMatches(b.name, f)
      ensures f in after.available ==> f in Names(b.name, b.domains)
      ensures f in after.available <==> f in world.files.available
      ensures f in after.enabled <==> f in world.files.enabled
      ensures f in after.available ==> after.available[f] == world.files.available[f]
    {
      GlobsDisjoint(world, after, id, other, f);
    }
    forall d | d in b.domains ensures GlobMatches(b.name, ConfigName(b.name, d)) {
      OwnGlob(b.name, d);
    }
  }

  // A file below b's prefix that exists before or after is b's own, so a's call leaves it.
  lemma GlobsDisjoint(world: World, after: Files, id: nat, other: nat, f: string)
    requires Good(world) && id in world.rows && other in world.rows && id != other
    requires OnlyOwn(world.files, after, world.rows[id].name)
    requires GlobMatches(world.rows[other].name, f)
    ensures f in after.available ==> f in Names(world.rows[other].name, world.rows[other].domains)
    ensures f in after.available <==> f in world.files.available
    ensures f in after.enabled <==> f in world.files.enabled
    ensures f in after.available ==> after.available[f] == world.files.available[f]
  {
    hide ConfigName, LegacyName, GlobMatches, Clash, IsAppName, ValidateDomain;
    var a, b := world.rows[id], world.rows[other];
    assert Apart(a, b) && Apart(b, a);
    GlobsApart(a.name, b.name, f);
    assert GoodFiles(world.files, b);
  }

  lemma GlobsApart(a: string, b: string, f: string)
    requires IsAppName(a) && IsAppName(b) && !Clash(a, b) && !Clash(b, a) && GlobMatches(b, f)
    ensures !GlobMatches(a, f) && f != LegacyName(a)
  {
    hide GlobMatches, LegacyName, Clash, IsAppName;
    if GlobMatches(a, f) {
      CommonFile(a, b, f);
    }
    if f == LegacyName(a) {
      GlobReachesLegacy(b, a);
    }
  }

  // ----- each route keeps the invariant -----

  // Own files after a call: legacy or named by the row.
  ghost predicate OwnNamed(after: Files, row: SiteRow) {
    forall f ::
      (f in after.available || f in after.enabled) && (GlobMatches(row.name, f) || f == LegacyName(row.name)) ==>
      f == LegacyName(row.name) || f in Names(row.name, row.domains)
  }

  lemma OrphansStay(world: World, after: Files, id: nat, row: SiteRow)
    requires Good(world) && id in world.rows && row.name == world.rows[id].name
    requires OnlyOwn(world.files, after, row.name) && OwnNamed(after, row)
    ensures NoOrphans(world.rows[id := row], after)
  {
    hide ConfigName, LegacyName, GlobMatches, IsAppName, Names, GoodRows, GoodFiles;
    var rows := world.rows[id := row];
    forall f, name | (f in after.available || f in after.enabled) && IsAppName(name) && GlobMatches(name, f)
      ensures exists k :: k in rows && OwnedBy(rows[k], f)
    {
      if GlobMatches(row.name, f) || f == LegacyName(row.name) {
        assert id in rows;
      } else {
        assert f in world.files.available || f in world.files.enabled;
        var k :| k in world.rows && OwnedBy(world.rows[k], f);
        if k == id && f in Names(world.rows[k].name, world.rows[k].domains) {
          NamesOf(world.rows[k].name, world.rows[k].domains, f);
        }
        assert k in rows && rows[k] == world.rows[k];
      }
    }
  }

  // The list a successful call installs for one row.
  ghost predicate GoodList(world: World, id: nat, domains: seq<string>)
    requires id in world.rows
  {
    && Distinct(domains)
    && (forall d :: d in domains ==> IsStored(d))
    && (forall other :: other in world.rows && other != id ==> forall d :: d in domains ==>
        d !in world.rows[other].domains)
  }

  lemma GoodRowsStay(world: World, id: nat, domains: seq<string>)
    requires Good(world) && id in world.rows && GoodList(world, id, domains)
    ensures GoodRows(world.rows[id := StoreDomains(world.rows[id], domains)])
  {
    hide Clash, IsAppName, ValidateDomain, GoodFiles, NoOrphans;
    var rows := world.rows[id := StoreDomains(world.rows[id], domains)];
    forall i, j | i in rows && j in rows && i != j ensures Apart(rows[i], rows[j]) {
      assert Apart(world.rows[i], world.rows[j]);
      assert j == id && i != id ==> forall d :: d in domains ==> d !in world.rows[i].domains;
      assert i == id && j != id ==> forall d :: d in domains ==> d !in world.rows[j].domains;
    }
  }

  // All that a call is to leave behind for one row.
  ghost predicate Settled(before: Files, after: Files, row: SiteRow) {
    GoodFiles(after, row) && OnDisk(after, row) && OnlyOwn(before, after, row.name) && OwnNamed(after, row)
  }

  lemma AppliedServers(files: Files, row: SiteRow, domains: seq<string>, d: string)
    requires GoodFiles(files, row) && d in domains
    ensures var after := Applied(files, row.name, row.port, domains);
      ConfigName(row.name, d) in after.available && after.available[ConfigName(row.name, d)].server == d
  {
    hide ConfigName, LegacyName, GlobMatches, Applied;
    var app := row.name;
    AppliedExact(files, app, row.port, domains);
    if ConfigName(app, d) in files.available {
      OwnGlob(app, d);
      NamesOf(app, row.domains, ConfigName(app, d));
      var i :| 0 <= i < |row.domains| && ConfigName(app, d) == ConfigName(app, row.domains[i]);
      ConfigNameInjective(app, d, row.domains[i]);
    }
  }

  lemma AppliedSettled(files: Files, row: SiteRow, domains: seq<string>)
    requires GoodFiles(files, row)
    ensures Settled(files, Applied(files, row.name, row.port, domains), StoreDomains(row, domains))
  {
    hide ConfigName, LegacyName, GlobMatches, Applied, Names;
    AppliedExact(files, row.name, row.port, domains);
    forall d | d in domains
      ensures var after := Applied(files, row.name, row.port, domains);
        ConfigName(row.name, d) in after.available && after.available[ConfigName(row.name, d)].server == d
    {
      AppliedServers(files, row, domains, d);
    }
  }

  lemma TlsSettled(before: Files, files: Files, row: SiteRow, todo: seq<string>)
    requires Settled(before, files, row)
    ensures Settled(before, files.(available := WithTls(files.available, row.name, todo)), row)
  {
    hide ConfigName, LegacyName, GlobMatches, WithTls, Names;
    WithTlsKeeps(files.available, row.name, todo);
    forall f | f in Names(row.name, todo) ensures GlobMatches(row.name, f) {
      NamesOf(row.name, todo, f);
    }
  }

  lemma ActiveFiles(files: Files, row: SiteRow, domains: seq<string>, ssl: bool, installed: bool, live: set<string>,
      w: CommandOutcomes)
    requires GoodFiles(files, row) && ValidateAll(domains) == Some(domains) && Dedup(domains) == domains
    requires Reconfigured(files, row.name, row.port, domains, ssl, installed, live, w).1.Active?
    ensures Settled(files, Reconfigured(files, row.name, row.port, domains, ssl, installed, live, w).0,
        StoreDomains(row, domains))
  {
    hide Settled, GoodFiles, Applied, ValidateAll, Dedup, WithTls;
    AppliedSettled(files, row, domains);
    var todo := CertificateDomains(domains, MadeFor(files, row.name, row.port, domains), live);
    TlsSettled(files, Applied(files, row.name, row.port, domains), StoreDomains(row, domains),
        todo[..Min(w.certificates, |todo|)]);
  }

  lemma FailedFiles(files: Files, row: SiteRow, domains: seq<string>)
    requires GoodFiles(files, row)
    ensures var after := RolledBack(files, row.name, row.port, domains);
      GoodFiles(after, row) && OnlyOwn(files, after, row.name) && OwnNamed(after, row)
  {
    hide ConfigName, LegacyName, GlobMatches, RolledBack, Names;
    RollbackSurvivors(files, row.name, row.port, domains);
    forall d | d in row.domains ensures GlobMatches(row.name, ConfigName(row.name, d)) {
      OwnGlob(row.name, d);
    }
  }

  // Good again once one application's row and files are known to be.
  lemma Reassemble(world: World, after: Files, id: nat, row: SiteRow)
    requires Good(world) && id in world.rows && row.name == world.rows[id].name
    requires GoodRows(world.rows[id := row]) && GoodFiles(after, row)
    requires OnlyOwn(world.files, after, row.name) && OwnNamed(after, row)
    ensures Good(World(world.rows[id := row], after))
    ensures forall other :: other in world.rows && other != id && OnDisk(world.files, world.rows[other]) ==>
        OnDisk(after, world.rows[other])
  {
    hide GoodRows, GoodFiles, NoOrphans, OwnNamed, OnlyOwn, OnDisk;
    OrphansStay(world, after, id, row);
    forall other | other in world.rows && other != id
      ensures GoodFiles(after, world.rows[other])
      ensures OnDisk(world.files, world.rows[other]) ==> OnDisk(after, world.rows[other])
    {
      OthersKept(world, after, id, other);
    }
  }

  // A call whose reload fails has replaced the files but not the row.
  predicate Unrecorded(domains: seq<string>, installed: bool, w: CommandOutcomes, row: SiteRow) {
    installed && w.check && !w.reload && exists d :: d in domains && d !in row.domains
  }

  lemma RoutedStep(world: World, id: nat, domains: seq<string>, ssl: bool, installed: bool, live: set<string>,
      w: CommandOutcomes)
    requires Good(world) && id in world.rows && GoodList(world, id, domains)
    requires !Unrecorded(domains, installed, w, world.rows[id])
    ensures var (after, ok) := Routed(world, id, domains, ssl, installed, live, w);
      && Good(after)
      && id in after.rows
      && after.rows == world.rows[id := if ok then StoreDomains(world.rows[id], domains) else world.rows[id]]
      && (ok ==> OnDisk(after.files, after.rows[id]))
      && (forall other :: other in world.rows && other != id && OnDisk(world.files, world.rows[other]) ==>
          OnDisk(after.files, world.rows[other]))
  {
    hide GoodRows, GoodFiles, NoOrphans, OwnNamed, OnlyOwn, OnDisk, ValidateAll, Dedup, RolledBack, Applied, IsStored;
    var row := world.rows[id];
    var (files, outcome) := Reconfigured(world.files, row.name, row.port, domains, ssl, installed, live, w);
    ValidateAllStored(domains);
    DedupDistinct(domains);
    if outcome.Active? {
      ActiveFiles(world.files, row, domains, ssl, installed, live, w);
      GoodRowsStay(world, id, domains);
      Reassemble(world, files, id, StoreDomains(row, domains));
    } else {
      assert world.rows[id := row] == world.rows;
      if outcome.CheckFailed? {
        FailedFiles(world.files, row, domains);
        Reassemble(world, files, id, row);
      } else if outcome.ReloadFailed? {
        FewerFiles(world.files, row, domains);
        Reassemble(world, files, id, row);
      }
    }
  }

  // Files applied for a part of the row's domains are good for the row as it stands.
  lemma FewerFiles(files: Files, row: SiteRow, domains: seq<string>)
    requires GoodFiles(files, row) && forall d :: d in domains ==> d in row.domains
    ensures var after := Applied(files, row.name, row.port, domains);
      GoodFiles(after, row) && OnlyOwn(files, after, row.name) && OwnNamed(after, row)
  {
    hide ConfigName, LegacyName, GlobMatches, Applied;
    var after := Applied(files, row.name, row.port, domains);
    AppliedExact(files, row.name, row.port, domains);
    forall d | d in row.domains && ConfigName(row.name, d) in after.available
      ensures after.available[ConfigName(row.name, d)].server == d
    {
      OwnGlob(row.name, d);
      var i :| 0 <= i < |domains| && ConfigName(row.name, d) == ConfigName(row.name, domains[i]);
      ConfigNameInjective(row.name, d, domains[i]);
      AppliedServers(files, row, domains, d);
    }
  }

  lemma UnrecordedFile(files: Files, row: SiteRow, domains: seq<string>, d: string)
    requires GoodFiles(files, row) && d in domains && d !in row.domains
    ensures !GoodFiles(Applied(files, row.name, row.port, domains), row)
  {
    hide ConfigName, LegacyName, GlobMatches, Applied;
    AppliedExact(files, row.name, row.port, domains);
    OwnGlob(row.name, d);
    if ConfigName(row.name, d) in Names(row.name, row.domains) {
      var i :| 0 <= i < |row.domains| && ConfigName(row.name, d) == ConfigName(row.name, row.domains[i]);
      ConfigNameInjective(row.name, d, row.domains[i]);
    }
  }

  // A file for a domain that the row does not record breaks the invariant.
  lemma UnrecordedBreaks(world: World, id: nat, domains: seq<string>, ssl: bool, installed: bool, live: set<string>,
      w: CommandOutcomes)
    requires Good(world) && id in world.rows && GoodList(world, id, domains)
    requires Unrecorded(domains, installed, w, world.rows[id])
    ensures !Good(Routed(world, id, domains, ssl, installed, live, w).0)
  {
    hide Applied, GoodRows, GoodFiles, NoOrphans, IsStored, ValidateAll, Dedup;
    ValidateAllStored(domains);
    DedupDistinct(domains);
    var d :| d in domains && d !in world.rows[id].domains;
    UnrecordedFile(world.files, world.rows[id], domains, d);
  }

  lemma SetList(world: World, id: nat, text: string)
    requires Good(world) && id in world.rows && ValidateDomain(text).Some?
    requires !OwnedByOther(world.rows, id, ValidateDomain(text).value)
    ensures var domain := ValidateDomain(text).value; var domains := EffectiveDomains(world.rows[id]);
      GoodList(world, id, if domain in domains then domains else domains + [domain])
  {
    hide ValidateDomain, EffectiveDomains, Clash, IsAppName, GoodFiles, NoOrphans;
    var domain := ValidateDomain(text).value;
    ValidateIdempotent(text);
    EffectiveIsStored(world.rows[id]);
    forall other | other in world.rows && other != id
      ensures domain !in world.rows[other].domains
      ensures forall d :: d in world.rows[id].domains ==> d !in world.rows[other].domains
    {
      EffectiveIsStored(world.rows[other]);
      assert Apart(world.rows[id], world.rows[other]);
    }
  }

  lemma DeleteList(world: World, id: nat, domain: string)
    requires Good(world) && id in world.rows
    ensures GoodList(world, id, Without(EffectiveDomains(world.rows[id]), domain))
  {
    hide ValidateDomain, EffectiveDomains, Clash, IsAppName, GoodFiles, NoOrphans;
    EffectiveIsStored(world.rows[id]);
    WithoutMeaning(world.rows[id].domains, domain);
    forall other | other in world.rows && other != id
      ensures forall d :: d in world.rows[id].domains ==> d !in world.rows[other].domains
    {
      assert Apart(world.rows[id], world.rows[other]);
    }
  }

  lemma DeleteRecorded(world: World, id: nat, domain: string, installed: bool, w: CommandOutcomes)
    requires Good(world) && id in world.rows
    ensures !Unrecorded(Without(EffectiveDomains(world.rows[id]), domain), installed, w, world.rows[id])
  {
    hide EffectiveDomains, Without, GoodFiles, NoOrphans;
    EffectiveIsStored(world.rows[id]);
    WithoutMeaning(world.rows[id].domains, domain);
  }

  lemma CreateStep(world: World, id: nat, name: string, port: nat, database: bool)
    requires Good(world) && Admissible(world, Create(id, name, port, database))
    requires IsAppName(name) && id !in world.rows && !NameTaken(world.rows, name)
    ensures Good(world.(rows := world.rows[id := SiteRow(name, port, database, "", [])]))
  {
    hide ConfigName, LegacyName, GlobMatches, Clash, IsAppName, ValidateDomain;
    var row := SiteRow(name, port, database, "", []);
    var rows := world.rows[id := row];
    forall i, j | i in rows && j in rows && i != j ensures Apart(rows[i], rows[j]) {
      if i != id && j != id { assert Apart(world.rows[i], world.rows[j]); }
    }
    forall f | GlobMatches(name, f) ensures f !in world.files.available && f !in world.files.enabled {
      if f in world.files.available || f in world.files.enabled {
        var k :| k in world.rows && OwnedBy(world.rows[k], f);
        SeparateNames(row, world.rows[k], f);
      }
    }
    assert GoodFiles(world.files, row);
    forall f, n | (f in world.files.available || f in world.files.enabled) && IsAppName(n) && GlobMatches(n, f)
      ensures exists k :: k in rows && OwnedBy(rows[k], f)
    {
      var k :| k in world.rows && OwnedBy(world.rows[k], f);
      assert k in rows;
    }
  }

  lemma DeleteOrphans(world: World, id: nat, after: Files)
    requires Good(world) && id in world.rows
    requires forall f :: (f in after.available || f in after.enabled) ==>
      (f in world.files.available || f in world.files.enabled) && !GlobMatches(world.rows[id].name, f) &&
          f != LegacyName(world.rows[id].name)
    ensures NoOrphans(world.rows - {id}, after)
  {
    hide ConfigName, LegacyName, GlobMatches, IsAppName, GoodRows, GoodFiles, Names;
    var rows := world.rows - {id};
    forall f, n | (f in after.available || f in after.enabled) && IsAppName(n) && GlobMatches(n, f)
      ensures exists k :: k in rows && OwnedBy(rows[k], f)
    {
      var k :| k in world.rows && OwnedBy(world.rows[k], f);
      NamesOf(world.rows[k].name, world.rows[k].domains, f);
      assert k in rows && rows[k] == world.rows[k];
    }
  }

  lemma DeleteStep(world: World, id: nat)
    requires Good(world) && id in world.rows
    ensures Good(World(world.rows - {id}, Removed(world.files, world.rows[id].name)))
    ensures forall other :: other in world.rows && other != id && OnDisk(world.files, world.rows[other]) ==>
      OnDisk(Removed(world.files, world.rows[id].name), world.rows[other])
  {
    hide ConfigName, LegacyName, GlobMatches, Clash, IsAppName, ValidateDomain, Removed, NoOrphans, OnDisk, Names;
    var row := world.rows[id];
    var rows := world.rows - {id};
    var after := Removed(world.files, row.name);
    assert GoodFiles(world.files, row);
    RemovedExact(world.files, row.name);
    assert OnlyOwn(world.files, after, row.name);
    hide GoodFiles, OnlyOwn;
    forall other | other in rows
      ensures GoodFiles(after, rows[other])
      ensures OnDisk(world.files, world.rows[other]) ==> OnDisk(after, world.rows[other])
    {
      OthersKept(world, after, id, other);
    }
    DeleteOrphans(world, id, after);
    forall i, j | i in rows && j in rows && i != j ensures Apart(rows[i], rows[j]) {
      assert Apart(world.rows[i], world.rows[j]);
    }
  }

  // ----- whole runs -----

  // The list a set_domain call hands on.
  function SetTo(row: SiteRow, domain: string): seq<string> {
    var domains := EffectiveDomains(row);
    if domain in domains then domains else domains + [domain]
  }

  lemma SetAdmissible(world: World, step: Step)
    requires Good(world) && step.SetDomain? && step.id in world.rows && !world.rows[step.id].database
    requires ValidateDomain(step.domain).Some? && !OwnedByOther(world.rows, step.id, ValidateDomain(step.domain).value)
    ensures var list := SetTo(world.rows[step.id], ValidateDomain(step.domain).value);
      Admissible(world, step) <==> !Unrecorded(list, step.installed, step.w, world.rows[step.id])
  {
    hide EffectiveDomains, ValidateDomain, OwnedByOther;
    EffectiveIsStored(world.rows[step.id]);
  }

  /** Every admissible route keeps the invariant; a successful set or delete leaves exactly the row's files on disk. */
  lemma StepGood(world: World, step: Step)
    requires Good(world) && Admissible(world, step)
    ensures Good(Apply(world, step).0)
    ensures var (after, ok) := Apply(world, step);
      ok && (step.SetDomain? || step.DeleteDomain?) ==>
        step.id in after.rows && OnDisk(after.files, after.rows[step.id])
    ensures var (after, ok) := Apply(world, step);
      forall other :: other in world.rows && other != step.id && OnDisk(world.files, world.rows[other]) ==>
        other in after.rows && after.rows[other] == world.rows[other] && OnDisk(after.files, after.rows[other])
  {
    hide Good, OnDisk, GoodList, ValidateDomain, EffectiveDomains, Without, Routed, Removed, Clash, IsAppName;
    hide Admissible, Unrecorded, OwnedByOther;
    match step {
      case Create(id, name, port, database) =>
        if Apply(world, step).1 { CreateStep(world, id, name, port, database); }
      case SetDomain(id, text, ssl, installed, live, w) =>
        if id in world.rows && !world.rows[id].database && ValidateDomain(text).Some? &&
            !OwnedByOther(world.rows, id, ValidateDomain(text).value) {
          SetList(world, id, text);
          SetAdmissible(world, step);
          RoutedStep(world, id, SetTo(world.rows[id], ValidateDomain(text).value), ssl, installed, live, w);
        }
      case DeleteDomain(id, text, installed, live, w) =>
        if id in world.rows && ValidateDomain(text).Some? {
          var rest := Without(EffectiveDomains(world.rows[id]), ValidateDomain(text).value);
          DeleteList(world, id, ValidateDomain(text).value);
          DeleteRecorded(world, id, ValidateDomain(text).value, installed, w);
          RoutedStep(world, id, rest, false, installed, live, w);
        }
      case DeleteApp(id) =>
        if id in world.rows { DeleteStep(world, id); }
    }
  }

  /** The invariant is kept by exactly the admissible routes: it is lost only by a new name that clashes with another,
      and by a new domain whose file passes the check and whose reload fails. */
  lemma StepExact(world: World, step: Step)
    requires Good(world)
    ensures Good(Apply(world, step).0) <==> Admissible(world, step)
  {
    hide Good, GoodList, ValidateDomain, EffectiveDomains, Routed, Clash, IsAppName, Unrecorded, OwnedByOther;
    if Admissible(world, step) {
      StepGood(world, step);
    } else {
      match step {
        case Create(id, name, port, database) => CreateBreaks(world, id, name, port, database);
        case SetDomain(id, text, ssl, installed, live, w) =>
          var domain := ValidateDomain(text).value;
          SetList(world, id, text);
          SetAdmissible(world, step);
          UnrecordedBreaks(world, id, SetTo(world.rows[id], domain), ssl, installed, live, w);
      }
    }
  }

  lemma CreateBreaks(world: World, id: nat, name: string, port: nat, database: bool)
    requires !Admissible(world, Create(id, name, port, database))
    ensures !Good(Apply(world, Create(id, name, port, database)).0)
  {
    hide Clash, IsAppName, IsStored, GoodFiles, NoOrphans;
    var after := Apply(world, Create(id, name, port, database)).0;
    if Good(after) {
      assert GoodRow(after.rows[id]);
      forall other | other in world.rows
        ensures !Clash(name, world.rows[other].name) && !Clash(world.rows[other].name, name)
      {
        assert after.rows[other] == world.rows[other];
        assert Apart(after.rows[id], after.rows[other]) && Apart(after.rows[other], after.rows[id]);
      }
    }
  }

  function Run(world: World, steps: seq<Step>): World
    decreases |steps|
  {
    if steps == [] then world else Run(Apply(world, steps[0]).0, steps[1..])
  }

  ghost predicate AdmissibleRun(world: World, steps: seq<Step>)
    decreases |steps|
  {
    steps != [] ==> Admissible(world, steps[0]) && AdmissibleRun(Apply(world, steps[0]).0, steps[1..])
  }

  /** A panel without applications is good when no nginx file lies below an application name's prefix. */
  lemma FreshPanel(files: Files)
    requires forall f, name | (f in files.available || f in files.enabled) && IsAppName(name) :: !GlobMatches(name, f)
    ensures Good(World(map[], files))
  {}

  /** Every run from a good state ends in a good state. */
  lemma {:induction false} RunGood(world: World, steps: seq<Step>)
    requires Good(world) && AdmissibleRun(world, steps)
    ensures Good(Run(world, steps))
    decreases |steps|
  {
    hide Good, Apply, Admissible;
    if steps != [] {
      StepGood(world, steps[0]);
      RunGood(Apply(world, steps[0]).0, steps[1..]);
    }
  }

  /** A run is admissible exactly when every state on the way is good. */
  lemma {:induction false} RunExact(world: World, steps: seq<Step>)
    requires Good(world)
    ensures AdmissibleRun(world, steps) <==> forall n :: 0 <= n <= |steps| ==> Good(Run(world, steps[..n]))
    decreases |steps|
  {
    hide Good, Apply, Admissible;
    if steps != [] {
      var next := Apply(world, steps[0]).0;
      StepExact(world, steps[0]);
      assert forall n | 0 < n <= |steps| :: steps[..n][1..] == steps[1..][..n - 1];
      assert forall n | 0 < n <= |steps| :: Run(world, steps[..n]) == Run(next, steps[1..][..n - 1]);
      if Good(next) {
        RunExact(next, steps[1..]);
        assert forall n | 0 <= n < |steps| :: Run(next, steps[1..][..n]) == Run(world, steps[..n + 1]);
      } else {
        assert Run(world, steps[..1]) == next;
      }
    }
  }

  /** In a good state lists have no repeats, start with the primary domain and do not overlap,
      and no two enabled managed files serve the same name. */
  lemma GoodMeaning(world: World)
    requires Good(world)
    ensures forall id :: id in world.rows ==>
      var domains := EffectiveDomains(world.rows[id]);
      Distinct(domains) && domains == world.rows[id].domains && world.rows[id].domain == HeadOr(domains)
    ensures forall i, j, d :: i in world.rows && j in world.rows && i != j && d in EffectiveDomains(world.rows[i]) ==>
      d !in EffectiveDomains(world.rows[j])
    ensures forall i, j, f, g |
        i in world.rows && j in world.rows && f != g && f in world.files.enabled && g in world.files.enabled &&
        GlobMatches(world.rows[i].name, f) && GlobMatches(world.rows[j].name, g) ::
      f in world.files.available && g in world.files.available &&
          world.files.available[f].server != world.files.available[g].server
  {
    hide EffectiveDomains, GlobMatches, ConfigName, Clash, IsAppName, ValidateDomain, NoOrphans;
    forall id | id in world.rows ensures EffectiveDomains(world.rows[id]) == world.rows[id].domains {
      EffectiveIsStored(world.rows[id]);
    }
    forall i, j, d | i in world.rows && j in world.rows && i != j && d in EffectiveDomains(world.rows[i])
      ensures d !in EffectiveDomains(world.rows[j])
    {
      assert Apart(world.rows[i], world.rows[j]);
    }
    forall i, j, f, g | i in world.rows && j in world.rows && f != g && f in world.files.enabled &&
        g in world.files.enabled &&
        GlobMatches(world.rows[i].name, f) && GlobMatches(world.rows[j].name, g)
      ensures f in world.files.available && g in world.files.available &&
          world.files.available[f].server != world.files.available[g].server
    {
      assert GoodFiles(world.files, world.rows[i]) && GoodFiles(world.files, world.rows[j]);
      NamesOf(world.rows[i].name, world.rows[i].domains, f);
      NamesOf(world.rows[j].name, world.rows[j].domains, g);
      if i != j { assert Apart(world.rows[i], world.rows[j]); }
    }
  }

  lemma FirstDomain(world: World, id: nat, d: string, w: CommandOutcomes)
    requires id in world.rows && !world.rows[id].database && world.rows[id].domain == "" && world.rows[id].domains == []
    requires IsStored(d) && !OwnedByOther(world.rows, id, d) && w.check
    ensures var row := world.rows[id];
      var files := Applied(world.files, row.name, row.port, [d]);
      Apply(world, SetDomain(id, d, false, true, {}, w)) ==
      if w.reload then (World(world.rows[id := StoreDomains(row, [d])], files), true)
      else (world.(files := files), false)
  {
    hide ValidateDomain, Applied, ValidateAll, Dedup, OwnedByOther;
    assert EffectiveDomains(world.rows[id]) == [] by { DedupDistinct([]); }
    assert [] + [d] == [d];
    ValidateAllStored([d]);
    DedupDistinct([d]);
  }

  lemma NobodyOwns(rows: map<nat, SiteRow>, id: nat, d: string)
    requires forall other :: other in rows && other != id ==> rows[other].domain == "" && rows[other].domains == []
    ensures !OwnedByOther(rows, id, d)
  {
    forall other | other in rows && other != id ensures EffectiveDomains(rows[other]) == [] {
      DedupDistinct([]);
    }
  }

  /** Why the reload must succeed: if it fails after a passing check, the file stays but the row does not
      record the domain, and another application can then be given the same name. */
  lemma ReloadFailureShares(a: string, b: string, d: string)
    requires IsAppName(a) && IsAppName(b) && a != b && !Clash(a, b) && !Clash(b, a) && IsStored(d)
    ensures
      var start := World(map[1 := SiteRow(a, 1, false, "", []), 2 := SiteRow(b, 2, false, "", [])], Files(map[], {}));
      var (middle, first) := Apply(start, SetDomain(1, d, false, true, {}, CommandOutcomes(true, false, 0)));
      var (end, second) := Apply(middle, SetDomain(2, d, false, true, {}, CommandOutcomes(true, true, 0)));
      var f, g := ConfigName(a, d), ConfigName(b, d);
      && !first && second && f != g && f in end.files.enabled && g in end.files.enabled
      && f in end.files.available && g in end.files.available &&
          end.files.available[f].server == end.files.available[g].server == d
  {
    hide ValidateDomain, ConfigName, LegacyName, GlobMatches, Clash, IsAppName, Applied, Apply, EffectiveDomains;
    var start := World(map[1 := SiteRow(a, 1, false, "", []), 2 := SiteRow(b, 2, false, "", [])], Files(map[], {}));
    var files := Applied(start.files, a, 1, [d]);
    NobodyOwns(start.rows, 1, d);
    NobodyOwns(start.rows, 2, d);
    FirstDomain(start, 1, d, CommandOutcomes(true, false, 0));
    FirstDomain(start.(files := files), 2, d, CommandOutcomes(true, true, 0));
    AppliedExact(start.files, a, 1, [d]);
    var f, g := ConfigName(a, d), ConfigName(b, d);
    OwnGlob(a, d);
    OwnGlob(b, d);
    GlobsApart(b, a, f);
    forall h | GlobMatches(b, h) ensures h !in files.available && h !in files.enabled {
      GlobsApart(a, b, h);
    }
    AppliedExact(files, b, 2, [d]);
  }

  // ----- what each route does to the rows -----

  // The three commands that a call needs.
  predicate Works(installed: bool, w: CommandOutcomes) { installed && w.check && w.reload }

  // Two rows that differ at most in their domains.
  predicate SameButDomains(a: SiteRow, b: SiteRow) {
    a.name == b.name && a.port == b.port && a.database == b.database
  }

  lemma RoutedResult(world: World, id: nat, domains: seq<string>, ssl: bool, installed: bool, live: set<string>,
      w: CommandOutcomes)
    requires id in world.rows && GoodList(world, id, domains)
    ensures var (after, ok) := Routed(world, id, domains, ssl, installed, live, w);
      && (ok <==> Works(installed, w))
      && after.rows.Keys == world.rows.Keys
      && (forall other :: other in world.rows && other != id ==> after.rows[other] == world.rows[other])
      && SameButDomains(after.rows[id], world.rows[id])
      && (if ok then after.rows[id].domains == domains && after.rows[id].domain == HeadOr(domains)
          else after.rows == world.rows)
  {
    hide ValidateDomain, RolledBack, Applied, WithTls, CertificateDomains, Dedup;
    ValidateAllStored(domains);
    DedupDistinct(domains);
  }

  /** set_domain succeeds exactly for an existing application that is no database, a valid domain that no other
      application has, and commands that work.  Then the domain is the last of the list unless it was there, the first
      one stays the primary one, and a file serves it; otherwise no row changes. */
  lemma SetEffect(world: World, id: nat, text: string, ssl: bool, installed: bool, live: set<string>,
      w: CommandOutcomes)
    requires Good(world)
    ensures var (after, ok) := Apply(world, SetDomain(id, text, ssl, installed, live, w));
      && (ok <==>
          && id in world.rows && !world.rows[id].database && ValidateDomain(text).Some?
          && !OwnedByOther(world.rows, id, ValidateDomain(text).value) && Works(installed, w))
      && (ok ==>
          var d, row, now := ValidateDomain(text).value, world.rows[id], after.rows[id];
          && after.rows == world.rows[id := now] && SameButDomains(now, row)
          && now.domains == (if d in row.domains then row.domains else row.domains + [d])
          && now.domain == (if row.domains == [] then d else row.domains[0])
          && ConfigName(row.name, d) in after.files.enabled && ConfigName(row.name, d) in after.files.available
          && after.files.available[ConfigName(row.name, d)].server == d)
      && (!ok ==> after.rows == world.rows)
  {
    hide Good, OnDisk, GoodList, ValidateDomain, EffectiveDomains, Routed, OwnedByOther, ConfigName;
    var step := SetDomain(id, text, ssl, installed, live, w);
    if id in world.rows && !world.rows[id].database && ValidateDomain(text).Some? &&
        !OwnedByOther(world.rows, id, ValidateDomain(text).value) {
      var d, row := ValidateDomain(text).value, world.rows[id];
      var list := SetTo(row, d);
      SetList(world, id, text);
      RoutedResult(world, id, list, ssl, installed, live, w);
      EffectiveIsStored(row) by { GoodRowOf(world, id); }
      var (after, ok) := Apply(world, step);
      if ok {
        assert after.rows == world.rows[id := after.rows[id]];
        RoutedGood(world, id, list, ssl, installed, live, w);
        ServedFile(after, id, d);
      }
    }
  }

  /** In a good state a domain is taken exactly when another application's row lists it. */
  lemma OwnedMeaning(world: World, id: nat, d: string)
    requires Good(world)
    ensures OwnedByOther(world.rows, id, d) <==>
      exists other :: other in world.rows && other != id && d in world.rows[other].domains
  {
    hide EffectiveDomains, Good;
    forall other | other in world.rows ensures EffectiveDomains(world.rows[other]) == world.rows[other].domains {
      GoodRowOf(world, other);
      EffectiveIsStored(world.rows[other]);
    }
  }

  lemma GoodRowOf(world: World, id: nat)
    requires Good(world) && id in world.rows
    ensures GoodRow(world.rows[id])
  {}

  lemma RoutedGood(world: World, id: nat, domains: seq<string>, ssl: bool, installed: bool, live: set<string>,
      w: CommandOutcomes)
    requires Good(world) && id in world.rows && GoodList(world, id, domains) && Works(installed, w)
    ensures var (after, _) := Routed(world, id, domains, ssl, installed, live, w);
      Good(after) && id in after.rows && OnDisk(after.files, after.rows[id])
  {
    hide Good, OnDisk, GoodList, Routed;
    RoutedResult(world, id, domains, ssl, installed, live, w);
    RoutedStep(world, id, domains, ssl, installed, live, w);
  }

  lemma ServedFile(world: World, id: nat, d: string)
    requires Good(world) && id in world.rows && OnDisk(world.files, world.rows[id]) && d in world.rows[id].domains
    ensures var f := ConfigName(world.rows[id].name, d);
      f in world.files.enabled && f in world.files.available && world.files.available[f].server == d
  {
    hide ConfigName, GlobMatches, Clash, IsAppName, ValidateDomain, NoOrphans;
    var row := world.rows[id];
    assert GoodFiles(world.files, row);
    OwnGlob(row.name, d);
    MemberNamed(row.name, row.domains, d);
  }

  // A list without some items, in the same order.
  ghost predicate InOrder(part: seq<string>, whole: seq<string>, at: seq<nat>) {
    && |at| == |part|
    && (forall k :: 0 <= k < |at| ==> at[k] < |whole| && whole[at[k]] == part[k])
    && (forall j, k :: 0 <= j < k < |at| ==> at[j] < at[k])
  }

  lemma {:induction false} WithoutOrder(domains: seq<string>, domain: string) returns (at: seq<nat>)
    ensures InOrder(Without(domains, domain), domains, at)
  {
    at := [];
    if domains != [] {
      var rest := WithoutOrder(domains[1..], domain);
      var part := Without(domains[1..], domain);
      at := Shifted(domains, part, rest);
      if domains[0] != domain {
        at := Prepended(domains, part, at);
      }
    }
  }

  lemma Shifted(domains: seq<string>, part: seq<string>, rest: seq<nat>) returns (at: seq<nat>)
    requires domains != [] && InOrder(part, domains[1..], rest)
    ensures InOrder(part, domains, at) && forall k :: 0 <= k < |at| ==> at[k] > 0
  {
    at := seq(|rest|, k requires 0 <= k < |rest| => rest[k] + 1);
    assert forall k | 0 <= k < |rest| :: domains[at[k]] == domains[1..][rest[k]];
  }

  lemma Prepended(domains: seq<string>, part: seq<string>, rest: seq<nat>) returns (at: seq<nat>)
    requires domains != [] && InOrder(part, domains, rest) && forall k :: 0 <= k < |rest| ==> rest[k] > 0
    ensures InOrder([domains[0]] + part, domains, at)
  {
    at := [0] + rest;
    forall k | 0 <= k < |at| ensures at[k] < |domains| && domains[at[k]] == ([domains[0]] + part)[k] {
      if k > 0 { assert at[k] == rest[k - 1] && ([domains[0]] + part)[k] == part[k - 1]; }
    }
    forall j, k | 0 <= j < k < |at| ensures at[j] < at[k] {
      if j > 0 { assert at[j] == rest[j - 1] && at[k] == rest[k - 1]; }
    }
  }

  /** delete_domain succeeds exactly for an existing application, a valid domain and commands that work.  Then the row
      has the same domains in the same order without that one, and no file of the application serves it; otherwise no
      row changes. */
  lemma DeleteEffect(world: World, id: nat, text: string, installed: bool, live: set<string>, w: CommandOutcomes)
    requires Good(world)
    ensures var (after, ok) := Apply(world, DeleteDomain(id, text, installed, live, w));
      && (ok <==> id in world.rows && ValidateDomain(text).Some? && Works(installed, w))
      && (ok ==>
          var d, row, now := ValidateDomain(text).value, world.rows[id], after.rows[id];
          && after.rows == world.rows[id := now] && SameButDomains(now, row)
          && (forall e :: e in now.domains <==> e in row.domains && e != d)
          && (exists at :: InOrder(now.domains, row.domains, at))
          && now.domain == HeadOr(now.domains)
          && ConfigName(row.name, d) !in after.files.available && ConfigName(row.name, d) !in after.files.enabled
          && (forall f :: f in after.files.available && GlobMatches(row.name, f) ==>
              after.files.available[f].server != d))
      && (!ok ==> after.rows == world.rows)
  {
    hide Good, OnDisk, GoodList, ValidateDomain, EffectiveDomains, Routed, ConfigName, Without, InOrder, GlobMatches;
    if id in world.rows && ValidateDomain(text).Some? {
      var d, row := ValidateDomain(text).value, world.rows[id];
      var list := Without(EffectiveDomains(row), d);
      DeleteList(world, id, d);
      RoutedResult(world, id, list, false, installed, live, w);
      EffectiveIsStored(row) by { GoodRowOf(world, id); }
      WithoutMeaning(row.domains, d);
      var at := WithoutOrder(row.domains, d);
      var (after, ok) := Apply(world, DeleteDomain(id, text, installed, live, w));
      if ok {
        assert after.rows == world.rows[id := after.rows[id]];
        RoutedGood(world, id, list, false, installed, live, w);
        NotServed(after, id, d);
        assert InOrder(after.rows[id].domains, row.domains, at);
      }
    }
  }

  lemma NotServed(world: World, id: nat, d: string)
    requires Good(world) && id in world.rows && OnDisk(world.files, world.rows[id]) && d !in world.rows[id].domains
    ensures var name := world.rows[id].name;
      && ConfigName(name, d) !in world.files.available && ConfigName(name, d) !in world.files.enabled
      && (forall f :: f in world.files.available && GlobMatches(name, f) ==> world.files.available[f].server != d)
  {
    hide ConfigName, GlobMatches, LegacyName, Clash, IsAppName, ValidateDomain, NoOrphans, Names;
    var row := world.rows[id];
    assert GoodFiles(world.files, row);
    OwnGlob(row.name, d);
    NamesOf(row.name, row.domains, ConfigName(row.name, d));
    if ConfigName(row.name, d) in Names(row.name, row.domains) {
      var i :| 0 <= i < |row.domains| && ConfigName(row.name, d) == ConfigName(row.name, row.domains[i]);
      ConfigNameInjective(row.name, d, row.domains[i]);
    }
    forall f | f in world.files.available && GlobMatches(row.name, f) ensures world.files.available[f].server != d {
      NamesOf(row.name, row.domains, f);
      var i :| 0 <= i < |row.domains| && f == ConfigName(row.name, row.domains[i]);
      assert row.domains[i] in row.domains;
    }
  }

  /** create_app adds exactly the row asked for, without domains, unless the name is malformed or taken or the id is. */
  lemma CreateEffect(world: World, id: nat, name: string, port: nat, database: bool)
    ensures var (after, ok) := Apply(world, Create(id, name, port, database));
      && (ok <==> IsAppName(name) && id !in world.rows && forall other :: other in world.rows ==>
            world.rows[other].name != name)
      && after.files == world.files
      && (ok ==>
          && id in after.rows && after.rows - {id} == world.rows && after.rows[id].domains == []
          && SameButDomains(after.rows[id], SiteRow(name, port, database, "", [])))
      && (!ok ==> after == world)
  {
    hide IsAppName;
  }

  /** delete_app takes away the row and all the application's site files, and touches nothing else. */
  lemma RemoveEffect(world: World, id: nat)
    requires Good(world) && id in world.rows
    ensures var (after, ok) := Apply(world, DeleteApp(id));
      var name := world.rows[id].name;
      && ok && after.rows == world.rows - {id}
      && (forall f :: f in after.files.available <==>
          f in world.files.available && !GlobMatches(name, f) && f != LegacyName(name))
      && (forall f :: f in after.files.enabled <==>
          f in world.files.enabled && !GlobMatches(name, f) && f != LegacyName(name))
      && (forall f :: f in after.files.available ==> after.files.available[f] == world.files.available[f])
  {
    hide LegacyName, GlobMatches, Removed, GoodRows, NoOrphans;
    assert GoodFiles(world.files, world.rows[id]);
    RemovedExact(world.files, world.rows[id].name);
  }
}
