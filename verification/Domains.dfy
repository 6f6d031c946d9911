// Domain names, and the nginx file names made from an application and a domain
// (app/services/proxy_service.py).
module Domains {
  import opened Results
  import opened Text

  // ----- validate_domain -----

  predicate IsLower(c: char) { 'a' <= c <= 'z' }

  predicate IsAlnum(c: char) { IsLower(c) || IsDigit(c) }

  predicate IsNameChar(c: char) { IsAlnum(c) || c == '-' }

  // str.lower() on the characters it can turn into ASCII; U+212A is the Kelvin sign.
  function LowerChar(c: char): char {
    if 'A' <= c <= 'Z' then (c as int + 32) as char
    else if c == '\U{212A}' then 'k'
    else c
  }

  function Lower(s: string): (r: string)
    ensures |r| == |s|
  {
    seq(|s|, i requires 0 <= i < |s| => LowerChar(s[i]))
  }

  function TrimDots(s: string): string {
    if s != "" && s[|s| - 1] == '.' then TrimDots(s[..|s| - 1]) else s
  }

  predicate IsLabel(s: string) {
    1 <= |s| <= 63 && IsAlnum(s[0]) && IsAlnum(s[|s| - 1]) && forall i | 0 <= i < |s| :: IsNameChar(s[i])
  }

  predicate IsTopLevel(s: string) {
    2 <= |s| <= 63 && forall i | 0 <= i < |s| :: IsLower(s[i])
  }

  // What the regular expression of validate_domain matches in full.
  predicate IsDomain(s: string) {
    var parts := Split(s, '.');
    |parts| >= 2 && IsTopLevel(parts[|parts| - 1]) && forall i | 0 <= i < |parts| - 1 :: IsLabel(parts[i])
  }

  function ValidateDomain(s: string): Option<string> {
    var domain := TrimDots(Strip(Lower(s)));
    if IsDomain(domain) then Some(domain) else None
  }

  lemma {:induction false} SplitCharacters(s: string, sep: char, c: char)
    requires c in s && c != sep
    ensures exists p :: p in Split(s, sep) && c in p
  {
    var rest := Split(s[1..], sep);
    var parts := Split(s, sep);
    if s[0] == c {
      assert c in parts[0];
    } else {
      assert s == [s[0]] + s[1..];
      SplitCharacters(s[1..], sep, c);
      var p :| p in rest && c in p;
      var k :| 0 <= k < |rest| && rest[k] == p;
      if s[0] == sep {
        assert parts[k + 1] == p;
      } else if k == 0 {
        assert c in parts[0];
      } else {
        assert parts[k] == p;
      }
    }
  }

  function LastPart(s: string, sep: char): string {
    var parts := Split(s, sep);
    parts[|parts| - 1]
  }

  lemma {:induction false} SplitSuffix(s: string, sep: char) returns (front: string)
    ensures s == front + LastPart(s, sep)
  {
    if s == "" {
      front := "";
    } else {
      var rest := Split(s[1..], sep);
      front := SplitSuffix(s[1..], sep);
      assert s == [s[0]] + s[1..];
      if |rest| == 1 && s[0] != sep {
        JoinSplit(s[1..], sep);
        front := "";
      } else {
        assert LastPart(s, sep) == LastPart(s[1..], sep);
        front := [s[0]] + front;
      }
    }
  }

  lemma DomainCharacters(s: string)
    requires IsDomain(s)
    ensures s != "" && IsLower(s[|s| - 1]) && s[0] != '.'
    ensures forall c | c in s :: IsNameChar(c) || c == '.'
    ensures '.' in s
  {
    var parts := Split(s, '.');
    var front := SplitSuffix(s, '.');
    assert IsTopLevel(parts[|parts| - 1]);
    forall c | c in s ensures IsNameChar(c) || c == '.' {
      if c != '.' {
        SplitCharacters(s, '.', c);
        var p :| p in parts && c in p;
        var k :| 0 <= k < |parts| && parts[k] == p;
        if k == |parts| - 1 { assert IsTopLevel(p); } else { assert IsLabel(p); }
      }
    }
    if '.' !in s { SplitOne(s, '.'); }
    assert IsLabel(parts[0]);
  }

  /** A validated domain validates to itself, so stored domains pass again. */
  lemma ValidateIdempotent(s: string)
    requires ValidateDomain(s).Some?
    ensures ValidateDomain(ValidateDomain(s).value) == ValidateDomain(s)
  {
    var d := ValidateDomain(s).value;
    DomainCharacters(d);
    StaysLower(d);
    assert d[0] in d && d[|d| - 1] in d;
    StripNothing(d);
  }

  lemma StaysLower(d: string)
    requires forall c | c in d :: IsNameChar(c) || c == '.'
    ensures Lower(d) == d
  {
    forall i | 0 <= i < |d| ensures Lower(d)[i] == d[i] {
      assert d[i] in d;
    }
  }

  // A domain as the database stores it.
  ghost predicate IsStored(d: string) { ValidateDomain(d) == Some(d) }

  lemma StoredIsDomain(d: string)
    requires IsStored(d)
    ensures IsDomain(d)
  {}

  // ----- what a submitted domain means -----

  predicate AllDots(s: string) { forall i | 0 <= i < |s| :: s[i] == '.' }

  // The text is the domain with white space around it and dots after it.
  predicate Padded(s: string, left: string, d: string, dots: string, right: string) {
    AllSpace(left) && AllDots(dots) && AllSpace(right) && s == left + d + dots + right
  }

  lemma {:induction false} TrimDotsForm(s: string) returns (dots: string)
    ensures s == TrimDots(s) + dots && AllDots(dots)
  {
    dots := "";
    if s != "" && s[|s| - 1] == '.' {
      dots := TrimDotsForm(s[..|s| - 1]);
      dots := dots + ['.'];
    }
  }

  lemma {:induction false} TrimDotsMeaning(d: string, dots: string)
    requires AllDots(dots) && d != "" && d[|d| - 1] != '.'
    ensures TrimDots(d + dots) == d
    decreases |dots|
  {
    if dots == "" {
      assert d + dots == d;
    } else {
      assert (d + dots)[..|d + dots| - 1] == d + dots[..|dots| - 1];
      TrimDotsMeaning(d, dots[..|dots| - 1]);
    }
  }

  /** A text is accepted exactly when in lower case it is a domain with white space around it and dots after it, and
      then that domain is the result. */
  lemma ValidateExact(s: string, d: string)
    ensures ValidateDomain(s) == Some(d) <==>
      IsDomain(d) && exists left, dots, right :: Padded(Lower(s), left, d, dots, right)
  {
    hide IsDomain, IsSpace, Lower;
    var text := Lower(s);
    if ValidateDomain(s) == Some(d) {
      var left, right := StripForm(text);
      var dots := TrimDotsForm(Strip(text));
      assert left + (d + dots) + right == left + d + dots + right;
      assert Padded(text, left, d, dots, right);
    }
    if IsDomain(d) && exists left, dots, right :: Padded(text, left, d, dots, right) {
      var left, dots, right :| Padded(text, left, d, dots, right);
      DomainEnds(d);
      var core := d + dots;
      assert left + core + right == text && core[0] == d[0];
      assert core[|core| - 1] == if dots == "" then d[|d| - 1] else dots[|dots| - 1];
      StripMeaning(left, core, right);
      TrimDotsMeaning(d, dots);
    }
  }

  lemma DomainEnds(d: string)
    requires IsDomain(d)
    ensures d != "" && !IsSpace(d[0]) && d[|d| - 1] != '.' && !IsSpace(d[|d| - 1]) && !IsSpace('.')
  {
    hide IsDomain;
    DomainCharacters(d);
    assert d[0] in d && d[|d| - 1] in d;
  }

  /** One label or more, joined by dots and followed by a top-level name, are a domain. */
  lemma LabelsAreDomain(labels: seq<string>, top: string)
    requires labels != [] && (forall i | 0 <= i < |labels| :: IsLabel(labels[i])) && IsTopLevel(top)
    ensures IsDomain(Join(labels + [top], '.'))
  {
    hide IsLabel, IsTopLevel, Split, Join;
    var parts := labels + [top];
    forall p | p in parts ensures '.' !in p {
      var i :| 0 <= i < |parts| && parts[i] == p;
      if i < |labels| { assert IsLabel(labels[i]); }
      NoDots(p);
    }
    SplitJoin(parts, '.');
    assert forall i | 0 <= i < |labels| :: parts[i] == labels[i];
  }

  lemma NoDots(s: string)
    requires IsLabel(s) || IsTopLevel(s)
    ensures '.' !in s
  {}

  /** A capital letter becomes the small one; digits, hyphens, dots and small letters stay. */
  lemma LowerMeaning(s: string, i: nat, k: nat)
    requires i < |s| && k < 26
    ensures s[i] as int == 'A' as int + k ==> Lower(s)[i] as int == 'a' as int + k
    ensures IsNameChar(s[i]) || s[i] == '.' ==> Lower(s)[i] == s[i]
  {}

  // ----- file names -----

  // The pattern application names are created with.
  predicate IsAppName(s: string) {
    2 <= |s| <= 40 && IsLower(s[0]) && forall i | 0 <= i < |s| :: IsNameChar(s[i])
  }

  function Prefix(app: string): string { "nova-" + app + "--" }

  function ConfigName(app: string, domain: string): string { Prefix(app) + domain + ".conf" }

  function LegacyName(app: string): string { "nova-" + app + ".conf" }

  // The glob nova-{app}--*.conf
  predicate GlobMatches(app: string, file: string) {
    Prefix(app) <= file && |file| >= |Prefix(app)| + 5 && file[|file| - 5..] == ".conf"
  }

  // Position of the first "--", or the length when there is none.
  function FirstDashes(s: string): nat {
    if |s| < 2 then |s|
    else if s[0] == '-' && s[1] == '-' then 0
    else 1 + FirstDashes(s[1..])
  }

  // Split a managed file name at its first "--".
  function Decode(file: string): Option<(string, string)> {
    if |file| < 10 || file[..5] != "nova-" || file[|file| - 5..] != ".conf" then None
    else
      var body := file[5..|file| - 5];
      var k := FirstDashes(body);
      if k + 2 > |body| then None else Some((body[..k], body[k + 2..]))
  }

  predicate SafeName(app: string) {
    && (app == "" || app[|app| - 1] != '-')
    && forall i | 0 <= i < |app| - 1 :: !(app[i] == '-' && app[i + 1] == '-')
  }

  lemma {:induction false} FirstDashesAfter(app: string, rest: string)
    requires SafeName(app)
    ensures FirstDashes(app + "--" + rest) == |app|
  {
    var s := app + "--" + rest;
    if app != "" {
      assert s[1..] == app[1..] + "--" + rest;
      assert SafeName(app[1..]) by {
        forall i | 0 <= i < |app[1..]| - 1 ensures !(app[1..][i] == '-' && app[1..][i + 1] == '-') {
          assert app[1..][i] == app[i + 1] && app[1..][i + 1] == app[i + 2];
        }
      }
      FirstDashesAfter(app[1..], rest);
      assert !(s[0] == '-' && s[1] == '-') by {
        if |app| > 1 { assert s[0] == app[0] && s[1] == app[1]; }
      }
    }
  }

  /** The application and the domain can be read back from a managed file name. */
  lemma DecodeConfigName(app: string, domain: string)
    requires SafeName(app)
    ensures Decode(ConfigName(app, domain)) == Some((app, domain))
  {
    var file := ConfigName(app, domain);
    var body := app + "--" + domain;
    assert file == "nova-" + body + ".conf";
    assert file[5..|file| - 5] == body;
    FirstDashesAfter(app, domain);
    assert body[..|app|] == app && body[|app| + 2..] == domain;
  }

  // Application a's glob can reach a file of application b.
  predicate Clash(a: string, b: string) {
    a + "--" <= b + "--" || (|a| >= |b| + 3 && b + "--" <= a && a[|b| + 2] != '-')
  }

  lemma GlobBody(a: string, b: string, domain: string)
    requires domain != ""
    ensures GlobMatches(a, ConfigName(b, domain)) ==> a + "--" <= b + "--" + domain + ".conf"
    ensures a + "--" <= b + "--" + domain ==> GlobMatches(a, ConfigName(b, domain))
  {
    var file := ConfigName(b, domain);
    assert file == "nova-" + (b + "--" + domain + ".conf");
    assert Prefix(a) == "nova-" + (a + "--");
    if Prefix(a) <= file {
      assert a + "--" == Prefix(a)[5..] == file[..|Prefix(a)|][5..] == (b + "--" + domain + ".conf")[..|a| + 2];
    }
    if a + "--" <= b + "--" + domain {
      var body := b + "--" + domain + ".conf";
      assert body[..|a| + 2] == (b + "--" + domain)[..|a| + 2] == a + "--";
      assert file[..|Prefix(a)|] == "nova-" + body[..|a| + 2] == Prefix(a);
    }
  }

  lemma ClashNeeded(a: string, b: string, domain: string)
    requires IsAppName(a) && IsAppName(b) && IsDomain(domain)
    requires a + "--" <= b + "--" + domain + ".conf"
    ensures Clash(a, b)
  {
    DomainCharacters(domain);
    var p := a + "--";
    var body := b + "--" + domain + ".conf";
    assert forall i | 0 <= i < |p| :: p[i] == body[i];
    if |a| <= |b| {
      assert body[..|p|] == (b + "--")[..|p|];
    } else {
      assert body[|b| + 2] == domain[0] && IsAlnum(domain[0]) by {
        DomainStartsAlnum(domain);
      }
      assert p[|b| + 2] == domain[0];
      assert |a| >= |b| + 3;
      assert a[..|b| + 2] == body[..|b| + 2] == b + "--";
    }
  }

  lemma DomainStartsAlnum(domain: string)
    requires IsDomain(domain)
    ensures domain != "" && IsAlnum(domain[0])
  {
    var parts := Split(domain, '.');
    assert IsLabel(parts[0]);
  }

  // A domain that completes b's file name up to a's prefix.
  function ClashDomain(a: string, b: string): string {
    if |a| >= |b| + 3 then a[|b| + 2..] + "--a.aa" else "a.aa"
  }

  lemma TwoPartDomain(head: string)
    requires IsLabel(head)
    ensures IsDomain(head + ".aa")
  {
    forall i | 0 <= i < |head| ensures head[i] != '.' {
      assert IsNameChar(head[i]);
    }
    assert head + ".aa" == head + ['.'] + "aa";
    SplitHead(head, "aa", '.');
    SplitOne("aa", '.');
    assert Split(head + ".aa", '.') == [head, "aa"];
  }

  lemma ClashDomainValid(a: string, b: string)
    requires IsAppName(a) && (|a| >= |b| + 3 ==> a[|b| + 2] != '-')
    ensures IsDomain(ClashDomain(a, b))
  {
    if |a| >= |b| + 3 {
      var tail := a[|b| + 2..];
      var head := tail + "--a";
      forall i | 0 <= i < |head| ensures IsNameChar(head[i]) {
        if i < |tail| { assert head[i] == a[|b| + 2 + i]; }
      }
      assert IsLabel(head);
      TwoPartDomain(head);
      assert head + ".aa" == tail + "--a.aa";
    } else {
      TwoPartDomain("a");
      assert "a" + ".aa" == "a.aa";
    }
  }

  lemma ClashReaches(a: string, b: string)
    requires IsAppName(a) && Clash(a, b)
    ensures IsDomain(ClashDomain(a, b)) && GlobMatches(a, ConfigName(b, ClashDomain(a, b)))
  {
    hide IsDomain, GlobMatches, ConfigName, IsAppName;
    var domain := ClashDomain(a, b);
    var body := b + "--" + domain;
    if a + "--" <= b + "--" {
      assert |a| <= |b|;
      assert body[..|a| + 2] == (b + "--")[..|a| + 2];
    } else {
      assert a == a[..|b| + 2] + a[|b| + 2..];
      assert body == a + "--a.aa";
    }
    ClashDomainValid(a, b);
    GlobBody(a, b, domain);
  }

  /** Exactly when one application's glob reaches a file another application can have. */
  lemma GlobClash(a: string, b: string)
    requires IsAppName(a) && IsAppName(b)
    ensures Clash(a, b) <==> exists domain :: IsDomain(domain) && GlobMatches(a, ConfigName(b, domain))
  {
    hide IsDomain, GlobMatches, ConfigName, IsAppName, Clash;
    if domain :| IsDomain(domain) && GlobMatches(a, ConfigName(b, domain)) {
      DomainStartsAlnum(domain);
      GlobBody(a, b, domain);
      ClashNeeded(a, b, domain);
    }
    if Clash(a, b) {
      ClashReaches(a, b);
    }
  }

  /** Two names that an application can be given, of which the first globs the second's files. */
  lemma ValidNamesClash()
    ensures IsAppName("ab--c") && IsAppName("ab") && Clash("ab--c", "ab")
  {
    assert "ab" + "--" == "ab--" == "ab--c"[..4];
  }

  lemma DashesInside(a: string, b: string)
    requires |a| >= |b| + 3 && b + "--" <= a
    ensures !SafeName(a)
  {
    var marked := b + "--";
    assert a[|b|] == marked[|b|] == '-' && a[|b| + 1] == marked[|b| + 1] == '-';
  }

  /** Names without "--" and without a final hyphen never reach each other's files. */
  lemma SafeNamesNeverClash(a: string, b: string)
    requires SafeName(a) && SafeName(b) && Clash(a, b)
    ensures a == b
  {
    FirstDashesAfter(a, "");
    FirstDashesAfter(b, "");
    assert a + "--" + "" == a + "--" && b + "--" + "" == b + "--";
    var marked := b + "--";
    if |a| >= |b| + 3 && marked <= a { DashesInside(a, b); }
    var rest := marked[|a| + 2..];
    assert marked == a + "--" + rest;
    FirstDashesAfter(a, rest);
    assert a == marked[..|a|] == b;
  }

  /** A legacy file name is never a managed file name. */
  lemma LegacyNotManaged(a: string, b: string, domain: string)
    requires IsAppName(a) && IsDomain(domain)
    ensures LegacyName(a) != ConfigName(b, domain)
  {
    DomainCharacters(domain);
    var legacy, managed := LegacyName(a), ConfigName(b, domain);
    var i :| 0 <= i < |domain| && domain[i] == '.';
    assert managed[|Prefix(b)| + i] == '.' && 5 <= |Prefix(b)| + i < |managed| - 5;
    assert forall k | 5 <= k < |legacy| - 5 :: legacy[k] == a[k - 5] && legacy[k] != '.';
  }

  /** A glob that reaches a legacy file clashes with the file's application. */
  lemma GlobReachesLegacy(a: string, b: string)
    requires IsAppName(a) && IsAppName(b) && GlobMatches(a, LegacyName(b))
    ensures Clash(a, b)
  {
    var p := a + "--";
    var body := b + ".conf";
    assert LegacyName(b) == "nova-" + body && Prefix(a) == "nova-" + p;
    assert p == Prefix(a)[5..] == LegacyName(b)[..|Prefix(a)|][5..] == body[..|p|];
    assert forall i | 0 <= i < |p| :: p[i] == body[i] && p[i] != '.';
    assert body[|b|] == '.';
    assert |p| <= |b|;
    assert (b + "--")[..|p|] == b[..|p|] == body[..|p|];
  }

  lemma ConfigNameInjective(app: string, d: string, e: string)
    requires ConfigName(app, d) == ConfigName(app, e)
    ensures d == e
  {
    var n := |Prefix(app)|;
    assert d == ConfigName(app, d)[n..|ConfigName(app, d)| - 5];
    assert e == ConfigName(app, e)[n..|ConfigName(app, e)| - 5];
  }

  lemma OwnGlob(app: string, domain: string)
    ensures GlobMatches(app, ConfigName(app, domain))
    ensures !GlobMatches(app, LegacyName(app))
  {
    assert ConfigName(app, domain)[..|Prefix(app)|] == Prefix(app);
    if Prefix(app) <= LegacyName(app) {
      assert Prefix(app)[5 + |app|] == LegacyName(app)[5 + |app|];
    }
  }

  /** Two globs that reach a common file clash. */
  lemma CommonFile(a: string, b: string, f: string)
    requires GlobMatches(a, f) && GlobMatches(b, f)
    ensures Clash(a, b) || Clash(b, a)
  {
    var p, q := Prefix(a), Prefix(b);
    assert p[5..] == a + "--" && q[5..] == b + "--";
    assert forall i | 0 <= i < |p| :: p[i] == f[i];
    assert forall i | 0 <= i < |q| :: q[i] == f[i];
    if |p| <= |q| {
      assert p == q[..|p|];
      assert a + "--" == (b + "--")[..|a| + 2];
    } else {
      assert q == p[..|q|];
      assert b + "--" == (a + "--")[..|b| + 2];
    }
  }

  lemma FileNames()
    ensures ConfigName("web", "a.io") == "nova-web--a.io.conf" && LegacyName("web") == "nova-web.conf"
  {}
}
