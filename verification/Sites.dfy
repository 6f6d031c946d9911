// The nginx site files of one application: configure_domains and
// remove_domain of app/services/proxy_service.py.  An enabled file is a link
// to the available file of the same name.  `nginx -t`, the reload and certbot
// may fail; file operations do not.
module Sites {
  import opened Results
  import opened Domains

  // `tls` is set once certbot has rewritten the file.
  datatype Site = Site(server: string, upstream: nat, tls: bool)

  datatype Files = Files(available: map<string, Site>, enabled: set<string>)

  datatype SiteOutcome = BadDomain | NotInstalled | CheckFailed | ReloadFailed | Active(warning: bool)

  // Results of `nginx -t`, of the reload, and the number of certbot runs that succeed before one fails.
  datatype CommandOutcomes = CommandOutcomes(check: bool, reload: bool, certificates: nat)

  // ----- the list of domains -----

  function ValidateAll(domains: seq<string>): (r: Option<seq<string>>)
    ensures r.Some? ==> |r.value| == |domains| && forall i | 0 <= i < |domains| ::
        ValidateDomain(domains[i]) == Some(r.value[i])
    ensures r.None? ==> exists i :: 0 <= i < |domains| && ValidateDomain(domains[i]).None?
  {
    if domains == [] then Some([])
    else
      match ValidateAll(domains[..|domains| - 1])
      case None => None
      case Some(valid) =>
        match ValidateDomain(domains[|domains| - 1])
        case None => None
        case Some(d) => Some(valid + [d])
  }

  // dict.fromkeys: first occurrences, in order.
  function Dedup(s: seq<string>): (r: seq<string>)
    ensures forall i, j :: 0 <= i < j < |r| ==> r[i] != r[j]
    ensures forall x :: x in r <==> x in s
  {
    if s == [] then []
    else
      var front := Dedup(s[..|s| - 1]);
      var last := s[|s| - 1];
      assert s == s[..|s| - 1] + [last];
      if last in front then front else front + [last]
  }

  lemma {:induction false} DedupHead(s: seq<string>)
    requires s != []
    ensures Dedup(s) != [] && Dedup(s)[0] == s[0]
  {
    if |s| > 1 {
      DedupHead(s[..|s| - 1]);
    }
  }

  /** The items of the result stand in the order of their first occurrences. */
  lemma {:induction false} DedupOrder(s: seq<string>) returns (at: seq<nat>)
    ensures |at| == |Dedup(s)|
    ensures forall k :: 0 <= k < |at| ==> at[k] < |s| && s[at[k]] == Dedup(s)[k] && s[at[k]] !in s[..at[k]]
    ensures forall j, k :: 0 <= j < k < |at| ==> at[j] < at[k]
  {
    at := [];
    if s != [] {
      var front, last := s[..|s| - 1], s[|s| - 1];
      at := DedupOrder(front);
      assert forall k | 0 <= k < |at| :: s[at[k]] == front[at[k]] && s[..at[k]] == front[..at[k]];
      if last !in Dedup(front) {
        at := at + [|front|];
      }
    }
  }

  lemma {:induction false} DedupDistinct(s: seq<string>)
    requires forall i, j :: 0 <= i < j < |s| ==> s[i] != s[j]
    ensures Dedup(s) == s
  {
    if s != [] {
      DedupDistinct(s[..|s| - 1]);
      assert s == s[..|s| - 1] + [s[|s| - 1]];
    }
  }

  // ----- the steps of configure_domains on the two directories -----

  function Names(app: string, domains: seq<string>): set<string> {
    set d | d in domains :: ConfigName(app, d)
  }

  function WithoutLegacy(files: Files, app: string): Files {
    Files(files.available - {LegacyName(app)}, files.enabled - {LegacyName(app)})
  }

  // Missing files are written and enabled; `made` lists their domains.
  function CreateMissing(files: Files, app: string, port: nat, domains: seq<string>): (r: (Files, seq<string>)) {
    if domains == [] then (files, [])
    else
      var (now, made) := CreateMissing(files, app, port, domains[..|domains| - 1]);
      var domain := domains[|domains| - 1];
      var file := ConfigName(app, domain);
      if file in now.available then (now, made)
      else (Files(now.available[file := Site(domain, port, false)], now.enabled + {file}), made + [domain])
  }

  function Stale(files: Files, app: string, keep: set<string>): set<string> {
    set f | f in files.available && GlobMatches(app, f) && f !in keep
  }

  function Remove(files: Files, names: set<string>): Files {
    Files(files.available - names, files.enabled - names)
  }

  function Applied(files: Files, app: string, port: nat, domains: seq<string>): Files {
    var made := CreateMissing(WithoutLegacy(files, app), app, port, domains).0;
    Remove(made, Stale(made, app, Names(app, domains)))
  }

  function MadeFor(files: Files, app: string, port: nat, domains: seq<string>): seq<string> {
    CreateMissing(WithoutLegacy(files, app), app, port, domains).1
  }

  function RolledBack(files: Files, app: string, port: nat, domains: seq<string>): Files {
    var rest := Remove(Applied(files, app, port, domains), Names(app, MadeFor(files, app, port, domains)));
    var legacy := LegacyName(app);
    if legacy !in files.available then rest
    else Files(rest.available[legacy := files.available[legacy]], rest.enabled + {legacy})
  }

  // New domains, and those whose certificate is missing; `live` are the domains that have one.
  function CertificateDomains(domains: seq<string>, made: seq<string>, live: set<string>): seq<string> {
    if domains == [] then []
    else
      var front := CertificateDomains(domains[..|domains| - 1], made, live);
      var d := domains[|domains| - 1];
      if d in made || d !in live then front + [d] else front
  }

  function WithTls(available: map<string, Site>, app: string, domains: seq<string>): map<string, Site> {
    if domains == [] then available
    else
      var before := WithTls(available, app, domains[..|domains| - 1]);
      var file := ConfigName(app, domains[|domains| - 1]);
      if file in before then before[file := before[file].(tls := true)] else before
  }

  function Min(a: nat, b: nat): nat { if a < b then a else b }

  function Reconfigured(files: Files, app: string, port: nat, domains: seq<string>, ssl: bool,
                        installed: bool, live: set<string>, w: CommandOutcomes): (Files, SiteOutcome) {
    match ValidateAll(domains)
    case None => (files, BadDomain)
    case Some(valid) =>
      var list := Dedup(valid);
      if !installed then (files, NotInstalled)
      else if !w.check then (RolledBack(files, app, port, list), CheckFailed)
      else
        var after := Applied(files, app, port, list);
        if !w.reload then (after, ReloadFailed)
        else if !ssl then (after, Active(false))
        else
          var todo := CertificateDomains(list, MadeFor(files, app, port, list), live);
          var n := Min(w.certificates, |todo|);
          (after.(available := WithTls(after.available, app, todo[..n])), Active(n < |todo|))
  }

  function Removed(files: Files, app: string): Files {
    var rest := WithoutLegacy(files, app);
    Remove(rest, Stale(rest, app, {}))
  }

  // ----- the service -----

  class NginxSites {
    var available: map<string, Site>
    var enabled: set<string>

    function State(): Files
      reads this
    {
      Files(available, enabled)
    }

    method Unlink(name: string)
      modifies this
      ensures available == old(available) - {name} && enabled == old(enabled) - {name}
    {
      enabled := enabled - {name};
      available := available - {name};
    }

    method Certbot(app: string, domain: string, works: bool)
      modifies this`available
      ensures available == if works then WithTls(old(available), app, [domain]) else old(available)
    {
      var file := ConfigName(app, domain);
      if works && file in available {
        available := available[file := available[file].(tls := true)];
      }
    }

    method RemoveStale(app: string, keep: set<string>)
      modifies this
      ensures State() == Remove(old(State()), Stale(old(State()), app, keep))
    {
      var todo := Stale(State(), app, keep);
      ghost var stale := todo;
      while todo != {}
        invariant todo <= stale
        invariant available == old(available) - (stale - todo)
        invariant enabled == old(enabled) - (stale - todo)
      {
        var name :| name in todo;
        Unlink(name);
        todo := todo - {name};
      }
    }

    /** configure_domains; `w` are the answers of `nginx -t`, of the reload and of certbot. */
    method ConfigureDomains(app: string, port: nat, domains: seq<string>, ssl: bool, installed: bool, live: set<string>,
                            w: CommandOutcomes)
      returns (outcome: SiteOutcome)
      modifies this
      ensures (State(), outcome) == Reconfigured(old(State()), app, port, domains, ssl, installed, live, w)
    {
      hide ValidateDomain, GlobMatches, ConfigName, LegacyName;
      var valid := ValidateAll(domains);
      if valid.None? {
        return BadDomain;
      }
      var list := Dedup(valid.value);
      if !installed {
        return NotInstalled;
      }
      var legacy := LegacyName(app);
      var content := if legacy in available then Some(available[legacy]) else None;
      Unlink(legacy);
      var created: seq<string> := [];
      for i := 0 to |list|
        invariant (State(), created) == CreateMissing(WithoutLegacy(old(State()), app), app, port, list[..i])
      {
        assert list[..i + 1][..i] == list[..i];
        var file := ConfigName(app, list[i]);
        if file !in available {
          available := available[file := Site(list[i], port, false)];
          enabled := enabled + {file};
          created := created + [list[i]];
        }
      }
      assert list[..|list|] == list;
      RemoveStale(app, Names(app, list));
      ghost var applied := State();
      assert applied == Applied(old(State()), app, port, list);
      if !w.check {
        RollBack(app, created, content);
        return CheckFailed;
      }
      if !w.reload {
        return ReloadFailed;
      }
      if !ssl {
        return Active(false);
      }
      var todo := CertificateDomains(list, created, live);
      var n := Certify(app, todo, w.certificates);
      return Active(n < |todo|);
    }

    // One certbot run after the other; the first failure, after `certificates` that work, ends it.
    method Certify(app: string, domains: seq<string>, certificates: nat) returns (n: nat)
      modifies this`available
      ensures n == Min(certificates, |domains|) && available == WithTls(old(available), app, domains[..n])
    {
      hide ConfigName;
      n := 0;
      while n < |domains|
        invariant n <= |domains| && n <= certificates && available == WithTls(old(available), app, domains[..n])
      {
        assert domains[..n + 1][..n] == domains[..n];
        Certbot(app, domains[n], n < certificates);
        if n == certificates {
          return;
        }
        n := n + 1;
      }
    }

    method RollBack(app: string, created: seq<string>, content: Option<Site>)
      modifies this
      ensures var rest := Remove(old(State()), Names(app, created));
        State() ==
        if content.None? then rest
        else Files(rest.available[LegacyName(app) := content.value], rest.enabled + {LegacyName(app)})
    {
      hide ConfigName, LegacyName;
      for i := 0 to |created|
        invariant State() == Remove(old(State()), Names(app, created[..i]))
      {
        assert Names(app, created[..i + 1]) == Names(app, created[..i]) + {ConfigName(app, created[i])};
        Unlink(ConfigName(app, created[i]));
      }
      assert created[..|created|] == created;
      if content.Some? {
        available := available[LegacyName(app) := content.value];
        enabled := enabled + {LegacyName(app)};
      }
    }

    /** remove_domain. */
    method RemoveDomains(app: string)
      modifies this
      ensures State() == Removed(old(State()), app)
    {
      Unlink(LegacyName(app));
      RemoveStale(app, {});
    }
  }

  // ----- what the reconciler guarantees -----

  // Below the application's prefix a file is available exactly when it is enabled.
  ghost predicate Paired(files: Files, app: string) {
    forall f :: GlobMatches(app, f) ==> (f in files.available <==> f in files.enabled)
  }

  lemma NamesOf(app: string, domains: seq<string>, f: string)
    ensures f in Names(app, domains) <==> exists i :: 0 <= i < |domains| && f == ConfigName(app, domains[i])
    ensures f in Names(app, domains) ==> GlobMatches(app, f) && f != LegacyName(app)
  {
    hide ConfigName, LegacyName, GlobMatches;
    if f in Names(app, domains) {
      var d :| d in domains && f == ConfigName(app, d);
      OwnGlob(app, d);
    }
  }

  lemma NamesExtend(app: string, front: seq<string>, last: string)
    ensures Names(app, front + [last]) == Names(app, front) + {ConfigName(app, last)}
  {
    hide ConfigName;
  }

  lemma {:induction false} CreateMissingNames(files: Files, app: string, port: nat, domains: seq<string>)
    ensures var (now, made) := CreateMissing(files, app, port, domains);
      && now.available.Keys == files.available.Keys + Names(app, domains)
      && Names(app, made) == Names(app, domains) - files.available.Keys
      && now.enabled == files.enabled + Names(app, made)
      && (forall d :: d in made ==> d in domains)
      && (forall f :: f in files.available ==> now.available[f] == files.available[f])
  {
    hide ConfigName, Names;
    if domains == [] {
      assert Names(app, []) == {} by { NoNames(app); }
    } else {
      var front, last := domains[..|domains| - 1], domains[|domains| - 1];
      CreateMissingNames(files, app, port, front);
      assert domains == front + [last];
      var (now, made) := CreateMissing(files, app, port, front);
      NamesExtend(app, front, last);
      NamesExtend(app, made, last);
    }
  }

  lemma NoNames(app: string)
    ensures Names(app, []) == {}
  {}

  lemma {:induction false} CreateMissingContent(files: Files, app: string, port: nat, domains: seq<string>, d: string)
    requires d in domains && ConfigName(app, d) !in files.available
    ensures var now := CreateMissing(files, app, port, domains).0;
      ConfigName(app, d) in now.available && now.available[ConfigName(app, d)] == Site(d, port, false)
  {
    hide ConfigName, Names;
    var front, last := domains[..|domains| - 1], domains[|domains| - 1];
    assert domains == front + [last];
    if d in front {
      CreateMissingContent(files, app, port, front, d);
    } else {
      CreateMissingNames(files, app, port, front);
      var now := CreateMissing(files, app, port, front).0;
      if ConfigName(app, d) in now.available {
        NamesOf(app, front, ConfigName(app, d));
        var i :| 0 <= i < |front| && ConfigName(app, d) == ConfigName(app, front[i]);
        ConfigNameInjective(app, d, front[i]);
      }
    }
  }

  lemma CreateMissingMeaning(files: Files, app: string, port: nat, domains: seq<string>)
    ensures var (now, made) := CreateMissing(files, app, port, domains);
      && now.available.Keys == files.available.Keys + Names(app, domains)
      && (forall f :: f in files.available ==> now.available[f] == files.available[f])
      && (forall d :: d in domains && ConfigName(app, d) !in files.available ==>
        now.available[ConfigName(app, d)] == Site(d, port, false))
      && Names(app, made) == Names(app, domains) - files.available.Keys
      && now.enabled == files.enabled + Names(app, made)
      && (forall d :: d in made ==> d in domains)
  {
    hide ConfigName, CreateMissing;
    CreateMissingNames(files, app, port, domains);
    forall d | d in domains && ConfigName(app, d) !in files.available
      ensures var now := CreateMissing(files, app, port, domains).0;
        ConfigName(app, d) in now.available && now.available[ConfigName(app, d)] == Site(d, port, false)
    {
      CreateMissingContent(files, app, port, domains, d);
    }
  }

  /** After a passing check exactly the wanted files stand below the prefix, old content is kept,
      the legacy file is gone, and no other file is touched. */
  lemma AppliedExact(files: Files, app: string, port: nat, domains: seq<string>)
    requires Paired(files, app)
    ensures var after := Applied(files, app, port, domains);
      && Paired(after, app)
      && (forall f :: GlobMatches(app, f) ==> (f in after.available <==> f in Names(app, domains)))
      && (forall d :: d in domains ==> ConfigName(app, d) in after.available)
      && (forall d :: d in domains && ConfigName(app, d) in files.available ==>
            after.available[ConfigName(app, d)] == files.available[ConfigName(app, d)])
      && (forall d :: d in domains && ConfigName(app, d) !in files.available ==>
            after.available[ConfigName(app, d)] == Site(d, port, false))
      && LegacyName(app) !in after.available && LegacyName(app) !in after.enabled
      && (forall f :: !GlobMatches(app, f) && f != LegacyName(app) ==>
          && (f in after.available <==> f in files.available) && (f in after.enabled <==> f in files.enabled)
          && (f in files.available ==> after.available[f] == files.available[f]))
  {
    hide ConfigName, LegacyName, GlobMatches, CreateMissing;
    var base := WithoutLegacy(files, app);
    CreateMissingMeaning(base, app, port, domains);
    forall f ensures f in Names(app, domains) ==> GlobMatches(app, f) && f != LegacyName(app) {
      NamesOf(app, domains, f);
    }
    OwnGlob(app, "");
    var (made, created) := CreateMissing(base, app, port, domains);
    forall d | d in domains ensures ConfigName(app, d) in Names(app, domains) {}
  }

  /** A second call with the same domains creates nothing and removes nothing. */
  lemma AppliedTwice(files: Files, app: string, port: nat, domains: seq<string>)
    requires Paired(files, app)
    ensures var once := Applied(files, app, port, domains);
      Applied(once, app, port, domains) == once && Names(app, MadeFor(once, app, port, domains)) == {}
  {
    hide ConfigName, LegacyName, GlobMatches, CreateMissing;
    var once := Applied(files, app, port, domains);
    AppliedExact(files, app, port, domains);
    assert WithoutLegacy(once, app) == once;
    CreateMissingMeaning(once, app, port, domains);
    forall f ensures f in Names(app, domains) ==> f in once.available {
      NamesOf(app, domains, f);
    }
    var now := CreateMissing(once, app, port, domains).0;
    assert now.available == once.available;
  }

  // One file, before the legacy file is written back.
  lemma WithdrawnEntry(files: Files, app: string, port: nat, domains: seq<string>, f: string)
    requires Paired(files, app)
    ensures var rest := Remove(Applied(files, app, port, domains), Names(app, MadeFor(files, app, port, domains)));
      && (f in rest.available <==>
            f in files.available && f != LegacyName(app) && (GlobMatches(app, f) ==> f in Names(app, domains)))
      && (f in rest.available ==> rest.available[f] == files.available[f])
      && (f in rest.enabled <==>
            f in files.enabled && f != LegacyName(app) && (GlobMatches(app, f) ==> f in Names(app, domains)))
  {
    hide ConfigName, LegacyName, GlobMatches, CreateMissing, Names;
    CreateMissingMeaning(WithoutLegacy(files, app), app, port, domains);
    NamesOf(app, domains, f);
  }

  /** After a failing check the surviving managed files are the old ones that are also wanted. */
  lemma RollbackSurvivors(files: Files, app: string, port: nat, domains: seq<string>)
    requires Paired(files, app)
    ensures var back := RolledBack(files, app, port, domains);
      && (forall f :: GlobMatches(app, f) ==>
            (f in back.available <==> f in files.available && f in Names(app, domains)))
      && Paired(back, app)
      && (forall f :: f in back.available ==> f in files.available && back.available[f] == files.available[f])
      && (forall f :: !GlobMatches(app, f) ==> (f in back.available <==> f in files.available))
      && (forall f :: !GlobMatches(app, f) && f != LegacyName(app) ==> (f in back.enabled <==> f in files.enabled))
      && (LegacyName(app) in back.enabled <==> LegacyName(app) in files.available)
  {
    hide ConfigName, LegacyName, GlobMatches, Names, Applied, MadeFor, Remove;
    OwnGlob(app, "");
    var rest := Remove(Applied(files, app, port, domains), Names(app, MadeFor(files, app, port, domains)));
    forall f
      ensures f in rest.available <==>
        f in files.available && f != LegacyName(app) && (GlobMatches(app, f) ==> f in Names(app, domains))
      ensures f in rest.available ==> rest.available[f] == files.available[f]
      ensures f in rest.enabled <==>
        f in files.enabled && f != LegacyName(app) && (GlobMatches(app, f) ==> f in Names(app, domains))
    {
      WithdrawnEntry(files, app, port, domains, f);
    }
  }

  /** A failing check restores the files exactly when nothing was stale and the legacy file was enabled iff present. */
  lemma RollbackExact(files: Files, app: string, port: nat, domains: seq<string>)
    requires Paired(files, app)
    ensures RolledBack(files, app, port, domains) == files <==>
      && (forall f :: f in files.available && GlobMatches(app, f) ==> f in Names(app, domains))
      && (LegacyName(app) in files.enabled <==> LegacyName(app) in files.available)
  {
    hide ConfigName, LegacyName, GlobMatches, RolledBack, Applied;
    RollbackSurvivors(files, app, port, domains);
    var back := RolledBack(files, app, port, domains);
    if (forall f :: f in files.available && GlobMatches(app, f) ==> f in Names(app, domains))
      && (LegacyName(app) in files.enabled <==> LegacyName(app) in files.available) {
      assert back.available == files.available;
      assert back.enabled == files.enabled;
    }
  }

  /** A domain that is no longer wanted is lost when the check fails: its file is removed and not put back. */
  lemma RollbackLoses()
    ensures var name := ConfigName("web", "a.io");
      var files := Files(map[name := Site("a.io", 8000, false)], {name});
      Paired(files, "web") && RolledBack(files, "web", 8000, []) != files
  {
    hide ConfigName, GlobMatches, RolledBack;
    var name := ConfigName("web", "a.io");
    var files := Files(map[name := Site("a.io", 8000, false)], {name});
    OwnGlob("web", "a.io");
    NamesOf("web", [], name);
    RollbackExact(files, "web", 8000, []);
  }

  /** A certificate is requested exactly for the new domains and those without one. */
  lemma {:induction false} CertificateMeaning(domains: seq<string>, made: seq<string>, live: set<string>, d: string)
    ensures d in CertificateDomains(domains, made, live) <==> d in domains && (d in made || d !in live)
  {
    if domains != [] {
      var front, last := domains[..|domains| - 1], domains[|domains| - 1];
      assert domains == front + [last];
      CertificateMeaning(front, made, live, d);
    }
  }

  /** Certbot changes neither which files there are nor their server names. */
  lemma {:induction false} WithTlsKeeps(available: map<string, Site>, app: string, domains: seq<string>)
    ensures var after := WithTls(available, app, domains);
      && after.Keys == available.Keys
      && (forall f :: f in available ==>
        after[f].server == available[f].server && after[f].upstream == available[f].upstream)
      && (forall f :: f in available && f !in Names(app, domains) ==> after[f] == available[f])
  {
    hide ConfigName;
    if domains != [] {
      var front, last := domains[..|domains| - 1], domains[|domains| - 1];
      WithTlsKeeps(available, app, front);
      assert domains == front + [last];
      assert Names(app, domains) == Names(app, front) + {ConfigName(app, last)};
    }
  }

  /** remove_domain takes away all the application's files and no other. */
  lemma RemovedExact(files: Files, app: string)
    requires Paired(files, app)
    ensures var after := Removed(files, app);
      && (forall f :: f in after.available <==> f in files.available && !GlobMatches(app, f) && f != LegacyName(app))
      && (forall f :: f in after.enabled <==> f in files.enabled && !GlobMatches(app, f) && f != LegacyName(app))
      && (forall f :: f in after.available ==> after.available[f] == files.available[f])
  {
    hide LegacyName, GlobMatches;
    OwnGlob(app, "");
  }

  // ----- outcomes and certificates -----

  predicate AllValid(domains: seq<string>) { forall i | 0 <= i < |domains| :: ValidateDomain(domains[i]).Some? }

  /** The outcome tells which step failed; before the check nothing has been written, and without HTTPS the files are
      the applied ones whether the reload works or not. */
  lemma OutcomeExact(files: Files, app: string, port: nat, domains: seq<string>, ssl: bool, installed: bool,
                     live: set<string>, w: CommandOutcomes)
    ensures var (after, outcome) := Reconfigured(files, app, port, domains, ssl, installed, live, w);
      && (outcome.BadDomain? <==> !AllValid(domains))
      && (outcome.NotInstalled? <==> AllValid(domains) && !installed)
      && (outcome.CheckFailed? <==> AllValid(domains) && installed && !w.check)
      && (outcome.ReloadFailed? <==> AllValid(domains) && installed && w.check && !w.reload)
      && (outcome.BadDomain? || outcome.NotInstalled? ==> after == files)
      && (outcome == Active(true) ==> ssl)
  {
    hide ValidateDomain, RolledBack, Applied, WithTls, CertificateDomains, Dedup;
    if ValidateAll(domains).None? {
      var i :| 0 <= i < |domains| && ValidateDomain(domains[i]).None?;
    }
  }

  // A certificate is due for a domain that had no file or has no certificate.
  predicate Due(files: Files, app: string, live: set<string>, d: string) {
    ConfigName(app, d) !in files.available || d !in live
  }

  function DueDomains(files: Files, app: string, live: set<string>, domains: seq<string>): seq<string> {
    if domains == [] then []
    else
      var front, last := domains[..|domains| - 1], domains[|domains| - 1];
      DueDomains(files, app, live, front) + if Due(files, app, live, last) then [last] else []
  }

  lemma MadeMeaning(files: Files, app: string, port: nat, domains: seq<string>, d: string)
    ensures d in MadeFor(files, app, port, domains) <==> d in domains && ConfigName(app, d) !in files.available
  {
    hide ConfigName, LegacyName, GlobMatches, CreateMissing, Names;
    var base := WithoutLegacy(files, app);
    var made := MadeFor(files, app, port, domains);
    CreateMissingNames(base, app, port, domains);
    OwnGlob(app, d);
    NamesOf(app, [d], ConfigName(app, d));
    assert ConfigName(app, d) != LegacyName(app) by { OwnNotLegacy(app, d); }
    if d in domains {
      MemberNamed(app, domains, d);
      NamesOf(app, made, ConfigName(app, d));
      if ConfigName(app, d) in Names(app, made) {
        var i :| 0 <= i < |made| && ConfigName(app, d) == ConfigName(app, made[i]);
        ConfigNameInjective(app, d, made[i]);
      }
    }
    if d in made { MemberNamed(app, made, d); }
  }

  lemma OwnNotLegacy(app: string, d: string)
    ensures ConfigName(app, d) != LegacyName(app)
  {
    hide ConfigName, LegacyName, GlobMatches;
    MemberNamed(app, [d], d);
    NamesOf(app, [d], ConfigName(app, d));
  }

  lemma MemberNamed(app: string, domains: seq<string>, d: string)
    requires d in domains
    ensures ConfigName(app, d) in Names(app, domains)
  {
    hide ConfigName;
  }

  lemma {:induction false} DueIs(files: Files, app: string, domains: seq<string>, made: seq<string>, live: set<string>)
    requires forall d :: d in domains ==> (d in made <==> ConfigName(app, d) !in files.available)
    ensures CertificateDomains(domains, made, live) == DueDomains(files, app, live, domains)
  {
    hide ConfigName;
    if domains != [] {
      var front, last := domains[..|domains| - 1], domains[|domains| - 1];
      assert domains == front + [last];
      DueIs(files, app, front, made, live);
    }
  }

  lemma {:induction false} WithTlsSets(available: map<string, Site>, app: string, domains: seq<string>, f: string)
    requires f in available
    ensures f in WithTls(available, app, domains)
    ensures WithTls(available, app, domains)[f].tls <==> available[f].tls || f in Names(app, domains)
  {
    hide ConfigName, Names;
    WithTlsKeeps(available, app, domains);
    if domains == [] {
      NoNames(app);
    } else {
      var front, last := domains[..|domains| - 1], domains[|domains| - 1];
      assert domains == front + [last];
      NamesExtend(app, front, last);
      WithTlsSets(available, app, front, f);
      WithTlsKeeps(available, app, front);
    }
  }

  /** With HTTPS, after a passing check and reload, a wanted domain's file has TLS exactly when it had it before or its
      certificate was due and obtained; certificates are asked for in the order of the domains, and the outcome warns
      exactly when one of those due was not obtained. */
  lemma TlsExact(files: Files, app: string, port: nat, domains: seq<string>, live: set<string>, w: CommandOutcomes,
                 d: string)
    requires Paired(files, app) && AllValid(domains) && w.check && w.reload
    requires d in Dedup(ValidateAll(domains).value)
    ensures var (after, outcome) := Reconfigured(files, app, port, domains, true, true, live, w);
      var due := DueDomains(files, app, live, Dedup(ValidateAll(domains).value));
      var f := ConfigName(app, d);
      && outcome == Active(w.certificates < |due|)
      && f in after.available
      && (after.available[f].tls <==>
          (f in files.available && files.available[f].tls) || d in due[..Min(w.certificates, |due|)])
  {
    hide ConfigName, LegacyName, GlobMatches, Applied, MadeFor, WithTls, CertificateDomains, DueDomains, Names, Dedup;
    hide ValidateAll, ValidateDomain;
    var list := Dedup(ValidateAll(domains).value);
    var made := MadeFor(files, app, port, list);
    forall e | e in list ensures e in made <==> ConfigName(app, e) !in files.available {
      MadeMeaning(files, app, port, list, e);
    }
    DueIs(files, app, list, made, live);
    var due := DueDomains(files, app, live, list);
    var got := due[..Min(w.certificates, |due|)];
    AppliedExact(files, app, port, list);
    var now := Applied(files, app, port, list);
    var f := ConfigName(app, d);
    WithTlsSets(now.available, app, got, f);
    NamesOf(app, got, f);
    if f in Names(app, got) {
      var i :| 0 <= i < |got| && f == ConfigName(app, got[i]);
      ConfigNameInjective(app, d, got[i]);
    }
    if d in got { MemberNamed(app, got, d); }
  }
}
