// Paths, ZIP files and backup archives of a source directory
// (app/services/file_service.py, app/services/backup_service.py).  Paths are
// lists of names; there are no links, so resolving a path is lexical.
module Archives {
  import opened Results
  import opened Text
  import opened Trees
  import opened SourceSwap

  // ----- resolving names -----

  predicate PlainName(c: string) { c != "" && c != "." && c != ".." && '/' !in c }

  predicate PlainPath(p: Path) { forall i | 0 <= i < |p| :: PlainName(p[i]) }

  function StepInto(at: Path, part: string): Path {
    if part == "" || part == "." then at
    else if part == ".." then (if at == [] then [] else at[..|at| - 1])
    else at + [part]
  }

  function Walk(at: Path, parts: seq<string>): Path
    decreases |parts|
  {
    if parts == [] then at else Walk(StepInto(at, parts[0]), parts[1..])
  }

  predicate IsAbsolute(name: string) { name != "" && name[0] == '/' }

  // (base / name).resolve()
  function Resolve(base: Path, name: string): Path {
    Walk(if IsAbsolute(name) then [] else base, Split(name, '/'))
  }

  function StripSlashes(s: string): string {
    if s != "" && (s[0] == '/' || s[0] == '\\') then StripSlashes(s[1..]) else s
  }

  // resolve_safe
  function ResolveSafe(root: Path, relative: string): Option<Path> {
    var target := Resolve(root, StripSlashes(relative));
    if root <= target then Some(target) else None
  }

  lemma {:induction false} WalkPlain(at: Path, parts: Path)
    requires PlainPath(parts)
    ensures Walk(at, parts) == at + parts
    decreases |parts|
  {
    if parts != [] {
      forall i | 0 <= i < |parts[1..]| ensures PlainName(parts[1..][i]) {
        assert PlainName(parts[i + 1]);
      }
      assert PlainName(parts[0]);
      WalkPlain(at + [parts[0]], parts[1..]);
      assert at + [parts[0]] + parts[1..] == at + parts;
    }
  }

  lemma JoinStart(parts: Path)
    requires parts != [] && PlainPath(parts)
    ensures Join(parts, '/') != "" && Join(parts, '/')[0] == parts[0][0] && parts[0][0] != '/'
  {
    assert PlainName(parts[0]);
    assert parts[0][0] in parts[0];
  }

  /** A path written with slashes resolves to itself below the base. */
  lemma ResolvePlain(base: Path, q: Path)
    requires q != [] && PlainPath(q)
    ensures Resolve(base, Join(q, '/')) == base + q && !IsAbsolute(Join(q, '/'))
  {
    JoinStart(q);
    forall p | p in q ensures '/' !in p {
      var i :| 0 <= i < |q| && q[i] == p;
      assert PlainName(q[i]);
    }
    SplitJoin(q, '/');
    WalkPlain(base, q);
  }

  lemma {:induction false} WalkAppend(at: Path, first: seq<string>, second: seq<string>)
    ensures Walk(at, first + second) == Walk(Walk(at, first), second)
    decreases |first|
  {
    if first == [] {
      assert first + second == second;
    } else {
      assert (first + second)[1..] == first[1..] + second;
      WalkAppend(StepInto(at, first[0]), first[1..], second);
    }
  }

  function Ups(k: nat): (r: seq<string>)
    ensures |r| == k && forall p :: p in r ==> p == ".."
  {
    if k == 0 then [] else [".."] + Ups(k - 1)
  }

  lemma {:induction false} WalkUps(at: Path, k: nat)
    requires k <= |at|
    ensures Walk(at, Ups(k)) == at[..|at| - k]
  {
    if k > 0 {
      WalkUps(at[..|at| - 1], k - 1);
      assert Ups(k)[1..] == Ups(k - 1);
    }
  }

  /** A path that goes up is accepted exactly when its names lead back into the root, and a path with a leading slash is
      read below the root. */
  lemma UpExact(root: Path, k: nat, names: Path)
    requires 0 < k <= |root| && PlainPath(names)
    ensures var text := Join(Ups(k) + names, '/');
      && ResolveSafe(root, text) ==
         (if root[|root| - k..] <= names then Some(root[..|root| - k] + names) else None)
      && ResolveSafe(root, "/" + text) == ResolveSafe(root, text)
  {
    hide Split, Join, Walk;
    var parts := Ups(k) + names;
    var text := Join(parts, '/');
    assert parts[0] == "..";
    forall p | p in parts ensures '/' !in p {
      if p in names {
        var i :| 0 <= i < |names| && names[i] == p;
        assert PlainName(names[i]);
      }
    }
    SplitJoin(parts, '/');
    JoinDots(parts);
    assert ("/" + text)[1..] == text;
    assert StripSlashes(text) == text && StripSlashes("/" + text) == text;
    WalkAppend(root, Ups(k), names);
    WalkUps(root, k);
    var base := root[..|root| - k];
    WalkPlain(base, names);
    assert root == base + root[|root| - k..];
    if root <= base + names {
      assert root[|root| - k..] == (base + names)[..|root|][|root| - k..];
      assert root[|root| - k..] == names[..k];
    }
    if root[|root| - k..] <= names {
      assert names == root[|root| - k..] + names[k..];
      assert base + names == root + names[k..];
    }
  }

  lemma JoinDots(parts: seq<string>)
    requires parts != [] && parts[0] == ".."
    ensures Join(parts, '/') != "" && Join(parts, '/')[0] == '.'
  {}

  /** Whatever the text, an accepted path lies in the root. */
  lemma SafeStaysInside(root: Path, text: string)
    ensures ResolveSafe(root, text).Some? ==> root <= ResolveSafe(root, text).value
    ensures ResolveSafe(root, "") == Some(root)
  {
    assert Split("", '/') == [""] && [""][1..] == [];
  }

  // ----- paths as list_directory shows them -----

  function Slashed(s: string): (r: string)
    ensures |r| == |s| && forall i | 0 <= i < |s| :: r[i] == if s[i] == '\\' then '/' else s[i]
  {
    seq(|s|, i requires 0 <= i < |s| => if s[i] == '\\' then '/' else s[i])
  }

  function ListedPath(q: Path): string { Slashed(Join(q, '/')) }

  predicate NoBackslash(q: Path) { forall i | 0 <= i < |q| :: '\\' !in q[i] }

  lemma {:induction false} WalkClean(base: nat, at: Path, parts: seq<string>)
    requires forall p | p in parts :: '\\' !in p
    requires forall i | base <= i < |at| :: '\\' !in at[i]
    ensures forall i | base <= i < |Walk(at, parts)| :: '\\' !in Walk(at, parts)[i]
    decreases |parts|
  {
    if parts != [] {
      assert parts[0] in parts;
      WalkClean(base, StepInto(at, parts[0]), parts[1..]);
    }
  }

  lemma {:induction false} SplitClean(s: string, sep: char, c: char)
    requires c !in s
    ensures forall p | p in Split(s, sep) :: c !in p
  {
    if s != "" {
      assert s[0] in s && forall x | x in s[1..] :: x in s;
      SplitClean(s[1..], sep, c);
      var rest := Split(s[1..], sep);
      assert rest[0] in rest;
    }
  }

  lemma {:induction false} StripClean(s: string, c: char)
    requires c !in s
    ensures c !in StripSlashes(s)
  {
    if s != "" && (s[0] == '/' || s[0] == '\\') {
      StripClean(s[1..], c);
    }
  }

  /** The path shown for an entry opens that entry exactly when no name on it holds a backslash. */
  lemma ListedPathOpens(root: Path, q: Path)
    requires q != [] && PlainPath(q)
    ensures ResolveSafe(root, ListedPath(q)) == Some(root + q) <==> NoBackslash(q)
  {
    var text := ListedPath(q);
    if NoBackslash(q) {
      forall p | p in q ensures '\\' !in p {
        var i :| 0 <= i < |q| && q[i] == p;
      }
      JoinClean(q);
      assert text == Join(q, '/');
      JoinStart(q);
      ResolvePlain(root, q);
      assert q[0][0] in q[0];
      assert StripSlashes(text) == text;
    }
    if ResolveSafe(root, text) == Some(root + q) {
      assert '\\' !in text;
      StripClean(text, '\\');
      SplitClean(StripSlashes(text), '/', '\\');
      var stripped := StripSlashes(text);
      WalkClean(|root|, if IsAbsolute(stripped) then [] else root, Split(stripped, '/'));
      forall i | 0 <= i < |q| ensures '\\' !in q[i] {
        assert (root + q)[|root| + i] == q[i];
      }
    }
  }

  /** Names with a backslash are possible: the listing shows such a file under a path that opens another one. */
  lemma BackslashOpensOther(root: Path)
    ensures PlainPath(["a\\b"]) && ResolveSafe(root, ListedPath(["a\\b"])) == Some(root + ["a", "b"])
  {
    var text := ListedPath(["a\\b"]);
    assert text == "a/b";
    var parts := ["a", "b"];
    assert PlainPath(parts) && parts[1..] == ["b"];
    assert Join(parts, '/') == "a/b";
    ResolvePlain(root, parts);
    assert (root + parts)[..|root|] == root;
  }

  lemma {:induction false} JoinClean(parts: seq<string>)
    requires forall p | p in parts :: '\\' !in p
    ensures '\\' !in Join(parts, '/')
  {
    if |parts| > 1 { JoinClean(parts[1..]); }
  }

  // ----- extracting entries into a directory -----

  datatype Entry = Entry(path: Path, node: Node)

  function Ancestors(p: Path): set<Path> {
    set k | 0 < k < |p| :: p[..k]
  }

  // The entry and its missing parents.
  function Added(t: Tree, e: Entry): Tree {
    (t + map d | d in Ancestors(e.path) :: Dir)[e.path := e.node]
  }

  // Missing parents are made; a file in the way, or an entry of the other kind, is an error.
  function Put(t: Tree, e: Entry): Option<Tree> {
    if e.path == [] then (if e.node.Dir? then Some(t) else None)
    else if exists k :: 0 < k < |e.path| && e.path[..k] in t && t[e.path[..k]].File? then None
    else if e.path in t && t[e.path].File? != e.node.File? then None
    else Some(Added(t, e))
  }

  function PutOver(start: Tree, es: seq<Entry>): Option<Tree> {
    if es == [] then Some(start)
    else
      match PutOver(start, es[..|es| - 1])
      case None => None
      case Some(t) => Put(t, es[|es| - 1])
  }

  function PutAll(es: seq<Entry>): Option<Tree> { PutOver(map[], es) }

  // Equal paths carry equal nodes, and only directories have entries below them.
  ghost predicate Consistent(es: seq<Entry>) {
    && (forall i :: 0 <= i < |es| ==> es[i].path != [])
    && (forall i, j :: 0 <= i < |es| && 0 <= j < |es| && es[i].path == es[j].path ==> es[i].node == es[j].node)
    && (forall i, j :: 0 <= i < |es| && 0 <= j < |es| && es[i].path < es[j].path ==> es[i].node.Dir?)
  }

  predicate Reaches(es: seq<Entry>, p: Path) {
    p != [] && exists i :: 0 <= i < |es| && p <= es[i].path
  }

  // The tree holds the entries and their ancestors, and nothing else.
  ghost predicate Describes(t: Tree, es: seq<Entry>) {
    && (forall p :: p in t <==> Reaches(es, p))
    && (forall i :: 0 <= i < |es| ==> es[i].path in t && t[es[i].path] == es[i].node)
    && (forall p :: p in t && t[p].File? ==> exists i :: 0 <= i < |es| && es[i].path == p)
  }

  lemma ReachesMore(es: seq<Entry>, e: Entry, p: Path)
    ensures Reaches(es + [e], p) <==> Reaches(es, p) || (p != [] && p <= e.path)
  {
    var more := es + [e];
    if Reaches(es, p) {
      var i :| 0 <= i < |es| && p <= es[i].path;
      assert more[i] == es[i];
    }
    if p != [] && p <= e.path { assert more[|es|] == e; }
  }

  lemma AncestorIs(q: Path, p: Path)
    ensures p in Ancestors(q) <==> p != [] && p < q
  {
    if p != [] && p < q { assert q[..|p|] == p; }
  }

  lemma AddedEntry(t: Tree, e: Entry, p: Path)
    requires e.path != [] && [] !in t
    ensures p in Added(t, e) <==> p in t || (p != [] && p <= e.path)
    ensures p in Added(t, e) ==>
      Added(t, e)[p] == if p == e.path then e.node else if p < e.path then Dir else t[p]
  {
    AncestorIs(e.path, p);
    if p <= e.path && |p| == |e.path| { assert p == e.path; }
  }

  lemma FirstPart(es: seq<Entry>, e: Entry)
    requires Consistent(es + [e])
    ensures e.path != []
    ensures forall i :: 0 <= i < |es| ==>
      && es[i].path != []
      && (es[i].path == e.path ==> es[i].node == e.node)
      && (es[i].path < e.path ==> es[i].node.Dir?)
      && (e.path < es[i].path ==> e.node.Dir?)
  {
    var more := es + [e];
    assert more[|es|] == e;
    assert forall i | 0 <= i < |es| :: more[i] == es[i];
  }

  lemma PutFits(t: Tree, es: seq<Entry>, e: Entry)
    requires Consistent(es + [e]) && Describes(t, es)
    ensures Put(t, e) == Some(Added(t, e)) && [] !in t
  {
    hide Added, Consistent;
    FirstPart(es, e);
    forall k | 0 < k < |e.path| && e.path[..k] in t ensures t[e.path[..k]].Dir? {
      if t[e.path[..k]].File? {
        var i :| 0 <= i < |es| && es[i].path == e.path[..k];
        assert es[i].path < e.path;
      }
    }
    if e.path in t {
      var i :| 0 <= i < |es| && e.path <= es[i].path;
      if |e.path| == |es[i].path| { assert e.path == es[i].path; }
      if t[e.path].File? {
        var j :| 0 <= j < |es| && es[j].path == e.path;
      }
    }
  }

  lemma PutDescribes(t: Tree, es: seq<Entry>, e: Entry)
    requires Consistent(es + [e]) && Describes(t, es) && [] !in t
    ensures Describes(Added(t, e), es + [e])
  {
    hide Added, Consistent, Reaches;
    FirstPart(es, e);
    var more := es + [e];
    var after := Added(t, e);
    forall p
      ensures p in after <==> Reaches(more, p)
      ensures p in after && after[p].File? ==> exists i :: 0 <= i < |more| && more[i].path == p
    {
      ReachesMore(es, e, p);
      AddedEntry(t, e, p);
      if p in after && after[p].File? {
        if p == e.path {
          assert more[|es|].path == p;
        } else {
          var i :| 0 <= i < |es| && es[i].path == p;
          assert more[i].path == p;
        }
      }
    }
    forall i | 0 <= i < |more| ensures more[i].path in after && after[more[i].path] == more[i].node {
      AddedEntry(t, e, more[i].path);
      assert i < |es| ==> more[i] == es[i];
    }
  }

  /** Extracting consistent entries, in whatever order, gives exactly the tree they describe. */
  lemma {:induction false} PutAllDescribes(es: seq<Entry>)
    requires Consistent(es)
    ensures PutAll(es).Some? && Describes(PutAll(es).value, es)
  {
    hide Put, Describes, Consistent;
    if es == [] {
      assert Describes(map[], []) by { NothingDescribed(); }
    } else {
      var front, last := es[..|es| - 1], es[|es| - 1];
      assert es == front + [last];
      ConsistentFront(front, last);
      PutAllDescribes(front);
      PutFits(PutAll(front).value, front, last);
      PutDescribes(PutAll(front).value, front, last);
    }
  }

  // No later entry has the path of entry i.
  predicate LastAt(es: seq<Entry>, i: nat)
    requires i < |es|
  {
    es[i].path != [] && forall j :: i < j < |es| ==> es[j].path != es[i].path
  }

  /** Extracting over what is there: exactly the entries and the directories that lead to them are added, the last entry
      for a path decides, and everything else stays as it is. */
  lemma {:induction false} ExtractOverlays(start: Tree, es: seq<Entry>)
    requires [] !in start && PutOver(start, es).Some?
    ensures var t := PutOver(start, es).value;
      && (forall p :: p in t <==> p in start || Reaches(es, p))
      && (forall p :: p in start && !Reaches(es, p) ==> t[p] == start[p])
      && (forall i :: 0 <= i < |es| && LastAt(es, i) ==> es[i].path in t && t[es[i].path] == es[i].node)
  {
    hide Put, Added, Reaches;
    if es == [] {
      NothingReached();
    } else {
      var front, last := es[..|es| - 1], es[|es| - 1];
      assert es == front + [last];
      ExtractOverlays(start, front);
      NothingReached();
      var before := PutOver(start, front).value;
      var t := PutOver(start, es).value;
      forall p
        ensures p in t <==> p in start || Reaches(es, p)
        ensures p in start && !Reaches(es, p) ==> t[p] == start[p]
      {
        ReachesMore(front, last, p);
        PutEntry(before, last, p);
      }
      forall i | 0 <= i < |es| && LastAt(es, i) ensures es[i].path in t && t[es[i].path] == es[i].node {
        PutEntry(before, last, es[i].path);
        if i < |front| {
          assert front[i] == es[i] && es[|front|].path != es[i].path;
          assert LastAt(front, i) by {
            forall j | i < j < |front| ensures front[j].path != front[i].path { assert es[j] == front[j]; }
          }
        }
      }
    }
  }

  // Nothing that is there stands in the entry's way: no file where a directory is needed, the same kind at its path.
  predicate Fits(start: Tree, e: Entry) {
    && (forall p :: p in start && p < e.path && p != [] ==> start[p].Dir?)
    && (e.path in start ==> start[e.path].File? == e.node.File?)
  }

  lemma PutExact(t: Tree, e: Entry)
    requires e.path != []
    ensures Put(t, e).Some? <==> Fits(t, e)
  {
    if Put(t, e).Some? {
      forall p | p in t && p < e.path && p != [] ensures t[p].Dir? { assert e.path[..|p|] == p; }
    }
    if Fits(t, e) {
      forall k | 0 < k < |e.path| && e.path[..k] in t ensures t[e.path[..k]].Dir? { assert e.path[..k] < e.path; }
    }
  }

  // A file in the result is one of the start or an entry.
  ghost predicate FilesFrom(start: Tree, es: seq<Entry>, t: Tree) {
    forall p :: p in t && t[p].File? ==>
      (p in start && start[p].File?) || exists i :: 0 <= i < |es| && es[i].path == p && es[i].node.File?
  }

  lemma FilesFromMore(start: Tree, es: seq<Entry>, t: Tree, e: Entry)
    requires FilesFrom(start, es, t) && [] !in t && Put(t, e).Some?
    ensures FilesFrom(start, es + [e], Put(t, e).value)
  {
    hide Put;
    var after := Put(t, e).value;
    forall p | p in after && after[p].File?
      ensures (p in start && start[p].File?) ||
        exists i :: 0 <= i < |es + [e]| && (es + [e])[i].path == p && (es + [e])[i].node.File?
    {
      PutEntry(t, e, p);
      if p < e.path && p != [] { PutAncestor(t, e, p); }
      if p == e.path && p != [] {
        assert (es + [e])[|es|] == e;
      } else if !(p in start && start[p].File?) {
        var i :| 0 <= i < |es| && es[i].path == p && es[i].node.File?;
        assert (es + [e])[i] == es[i];
      }
    }
  }

  lemma PutAncestor(t: Tree, e: Entry, p: Path)
    requires Put(t, e).Some? && p != [] && p < e.path
    ensures p in Put(t, e).value && Put(t, e).value[p].Dir?
  {
    assert e.path[..|p|] == p;
    AncestorIs(e.path, p);
  }

  /** Consistent entries can be extracted over what is there exactly when each of them fits. */
  lemma {:induction false} ExtractsExactly(start: Tree, es: seq<Entry>)
    requires [] !in start && Consistent(es)
    ensures PutOver(start, es).Some? <==> forall i :: 0 <= i < |es| ==> Fits(start, es[i])
    ensures PutOver(start, es).Some? ==> FilesFrom(start, es, PutOver(start, es).value)
  {
    hide Put, Fits, Consistent, FilesFrom, Reaches;
    if es == [] {
      assert FilesFrom(start, [], start) by { NoEntriesFiles(start); }
    } else {
      var front, last := es[..|es| - 1], es[|es| - 1];
      assert es == front + [last];
      ConsistentFront(front, last);
      ExtractsExactly(start, front);
      assert forall i | 0 <= i < |front| :: es[i] == front[i];
      if PutOver(start, front).Some? {
        var t := PutOver(start, front).value;
        ExtractOverlays(start, front);
        NothingReached();
        FirstPart(front, last);
        PutExact(t, last);
        FitsLater(start, front, t, last);
        if Put(t, last).Some? { FilesFromMore(start, front, t, last); }
      }
    }
  }

  lemma NoEntriesFiles(start: Tree)
    ensures FilesFrom(start, [], start)
  {}

  // Entries that agree with the last one do not change whether it fits.
  lemma FitsLater(start: Tree, front: seq<Entry>, t: Tree, last: Entry)
    requires Consistent(front + [last]) && [] !in start && PutOver(start, front) == Some(t)
    requires FilesFrom(start, front, t)
    ensures Fits(t, last) <==> Fits(start, last)
  {
    hide Put, PutOver, Consistent, Fits;
    FirstPart(front, last);
    ExtractOverlays(start, front);
    OverlayKinds(start, front, t);
    if Fits(start, last) { FitsForward(start, front, t, last); }
    if Fits(t, last) { FitsBack(start, t, last); }
  }

  lemma FitsBack(start: Tree, t: Tree, e: Entry)
    requires Fits(t, e) && forall p :: p in start ==> p in t && t[p].File? == start[p].File?
    ensures Fits(start, e)
  {}

  lemma FitsForward(start: Tree, front: seq<Entry>, t: Tree, last: Entry)
    requires Fits(start, last) && last.path != [] && FilesFrom(start, front, t)
    requires forall p :: p in start ==> p in t && t[p].File? == start[p].File?
    requires forall p :: p in t ==> p in start || Reaches(front, p)
    requires forall i :: 0 <= i < |front| ==>
      && front[i].path in t && t[front[i].path].File? == front[i].node.File?
      && (front[i].path == last.path ==> front[i].node == last.node)
      && (front[i].path < last.path ==> front[i].node.Dir?)
      && (last.path < front[i].path ==> last.node.Dir?)
    ensures Fits(t, last)
  {
    hide Reaches;
    if last.path in t && last.path !in start {
      var i := ReachedAt(front, last.path);
      assert front[i].path == last.path || last.path < front[i].path;
    }
  }

  lemma ReachedAt(es: seq<Entry>, p: Path) returns (i: nat)
    requires Reaches(es, p)
    ensures i < |es| && p <= es[i].path
  {
    i :| 0 <= i < |es| && p <= es[i].path;
  }

  // What is there keeps its kind, and an entry is of its own kind.
  lemma {:induction false} OverlayKinds(start: Tree, es: seq<Entry>, t: Tree)
    requires [] !in start && PutOver(start, es) == Some(t) && forall i :: 0 <= i < |es| ==> es[i].path != []
    ensures forall p :: p in start ==> p in t && t[p].File? == start[p].File?
    ensures forall i :: 0 <= i < |es| ==> es[i].path in t && t[es[i].path].File? == es[i].node.File?
  {
    hide Put, Reaches;
    if es != [] {
      var front, last := es[..|es| - 1], es[|es| - 1];
      var before := PutOver(start, front).value;
      OverlayKinds(start, front, before);
      ExtractOverlays(start, front);
      NothingReached();
      forall p | p in before ensures p in t && t[p].File? == before[p].File? {
        PutEntry(before, last, p);
        PutExact(before, last);
      }
      PutEntry(before, last, last.path);
      forall i | 0 <= i < |es| ensures es[i].path in t && t[es[i].path].File? == es[i].node.File? {
        if i < |front| { assert front[i] == es[i]; }
      }
    }
  }

  lemma NothingReached()
    ensures forall p :: !Reaches([], p)
    ensures forall es :: !Reaches(es, [])
  {}

  lemma PutEntry(t: Tree, e: Entry, p: Path)
    requires [] !in t && Put(t, e).Some?
    ensures var after := Put(t, e).value;
      && (p in after <==> p in t || (p != [] && p <= e.path))
      && (p in t && p != e.path ==> after[p] == t[p])
      && (p != [] && p == e.path ==> after[p] == e.node)
  {
    hide Added;
    if e.path != [] {
      AddedEntry(t, e, p);
      if p in t && p < e.path && p != [] { assert e.path[..|p|] == p; }
    }
  }

  lemma ConsistentFront(front: seq<Entry>, last: Entry)
    requires Consistent(front + [last])
    ensures Consistent(front)
  {
    var es := front + [last];
    assert forall i | 0 <= i < |front| :: es[i] == front[i];
  }

  lemma NothingDescribed()
    ensures Describes(map[], [])
  {}

  // ----- extract_zip_safely -----

  datatype Member = Member(name: string, encrypted: bool, size: nat, content: seq<bv8>)

  const MAX_MEMBERS: nat := 100_000
  const MAX_TOTAL: nat := 2 * 1024 * 1024 * 1024
  const RESERVE: nat := 512 * 1024 * 1024

  datatype ExtractError = TooMany | Encrypted | TooLarge | NoSpace | Unsafe | Conflict

  function TotalSize(members: seq<Member>): nat {
    if members == [] then 0 else TotalSize(members[..|members| - 1]) + members[|members| - 1].size
  }

  // The names the ZIP library keeps when it writes a member.
  function KeptNames(parts: seq<string>): Path {
    if parts == [] then []
    else if parts[0] == "" || parts[0] == "." || parts[0] == ".." then KeptNames(parts[1..])
    else [parts[0]] + KeptNames(parts[1..])
  }

  function EntryOf(m: Member): Entry {
    Entry(KeptNames(Split(m.name, '/')), if m.name != "" && m.name[|m.name| - 1] == '/' then Dir else File(m.content))
  }

  function EntriesOf(members: seq<Member>): (es: seq<Entry>)
    ensures |es| == |members| && forall i | 0 <= i < |members| :: es[i] == EntryOf(members[i])
  {
    seq(|members|, i requires 0 <= i < |members| => EntryOf(members[i]))
  }

  predicate Inside(destination: Path, m: Member) { destination <= Resolve(destination, m.name) }

  predicate WithinLimits(members: seq<Member>, free: nat) {
    && |members| <= MAX_MEMBERS
    && (forall i | 0 <= i < |members| :: !members[i].encrypted)
    && TotalSize(members) <= MAX_TOTAL
    && TotalSize(members) + RESERVE <= free
  }

  predicate AllInside(destination: Path, members: seq<Member>) {
    forall i | 0 <= i < |members| :: Inside(destination, members[i])
  }

  // Why an archive is refused before anything is written.
  function Refusal(members: seq<Member>, destination: Path, free: nat): Option<ExtractError> {
    if |members| > MAX_MEMBERS then Some(TooMany)
    else if exists i | 0 <= i < |members| :: members[i].encrypted then Some(Encrypted)
    else if TotalSize(members) > MAX_TOTAL then Some(TooLarge)
    else if TotalSize(members) + RESERVE > free then Some(NoSpace)
    else if !AllInside(destination, members) then Some(Unsafe)
    else None
  }

  /** The total counts every member once. */
  lemma TotalMeaning(members: seq<Member>, m: Member)
    ensures TotalSize([]) == 0 && TotalSize(members + [m]) == TotalSize(members) + m.size
  {
    assert (members + [m])[..|members|] == members;
  }

  class Extraction {
    var tree: Tree

    constructor ()
      ensures tree == map[]
    {
      tree := map[];
    }

    /** extract_zip_safely: every check comes before the first write; an entry that cannot be written leaves those
        before it. */
    method ExtractZip(members: seq<Member>, destination: Path, free: nat) returns (error: Option<ExtractError>)
      modifies this
      ensures error.None? <==>
        WithinLimits(members, free) && AllInside(destination, members) &&
          PutOver(old(tree), EntriesOf(members)).Some?
      ensures error.None? ==> PutOver(old(tree), EntriesOf(members)) == Some(tree)
      ensures Refusal(members, destination, free).Some? ==> error == Refusal(members, destination, free)
      ensures error.Some? && error != Some(Conflict) ==>
        tree == old(tree) && (!WithinLimits(members, free) || !AllInside(destination, members))
      ensures error == Some(Conflict) ==> exists i ::
        && 0 <= i < |members| && PutOver(old(tree), EntriesOf(members)[..i]) == Some(tree)
        && Put(tree, EntryOf(members[i])).None?
    {
      hide Resolve, EntryOf, Put;
      if |members| > MAX_MEMBERS {
        return Some(TooMany);
      }
      for i := 0 to |members|
        invariant forall j | 0 <= j < i :: !members[j].encrypted
      {
        if members[i].encrypted {
          return Some(Encrypted);
        }
      }
      var total := 0;
      for i := 0 to |members|
        invariant total == TotalSize(members[..i])
      {
        assert members[..i + 1][..i] == members[..i];
        total := total + members[i].size;
      }
      assert members[..|members|] == members;
      if total > MAX_TOTAL {
        return Some(TooLarge);
      }
      if total + RESERVE > free {
        return Some(NoSpace);
      }
      for i := 0 to |members|
        invariant forall j | 0 <= j < i :: Inside(destination, members[j])
      {
        if !Inside(destination, members[i]) {
          return Some(Unsafe);
        }
      }
      var entries := EntriesOf(members);
      for i := 0 to |entries|
        invariant PutOver(old(tree), entries[..i]) == Some(tree)
      {
        assert entries[..i + 1][..i] == entries[..i];
        var next := Put(tree, entries[i]);
        if next.None? {
          PutStops(old(tree), entries, i + 1);
          return Some(Conflict);
        }
        tree := next.value;
      }
      assert entries[..|entries|] == entries;
      return None;
    }
  }

  lemma {:induction false} PutStops(start: Tree, es: seq<Entry>, i: nat)
    requires i <= |es| && PutOver(start, es[..i]).None?
    ensures PutOver(start, es).None?
    decreases |es|
  {
    if i == |es| {
      assert es[..i] == es;
    } else {
      var front := es[..|es| - 1];
      assert front[..i] == es[..i];
      PutStops(start, front, i);
    }
  }

  lemma {:induction false} WalkLevel(at: Path, parts: seq<string>)
    requires ".." !in parts
    ensures Walk(at, parts) == at + KeptNames(parts)
    decreases |parts|
  {
    if parts != [] {
      assert parts[0] in parts && forall p | p in parts[1..] :: p in parts;
      WalkLevel(StepInto(at, parts[0]), parts[1..]);
    }
  }

  lemma {:induction false} WalkLength(at: Path, parts: seq<string>)
    ensures |Walk(at, parts)| <= |at| + |KeptNames(parts)|
    decreases |parts|
  {
    if parts != [] {
      WalkLength(StepInto(at, parts[0]), parts[1..]);
    }
  }

  lemma {:induction false} WalkUp(at: Path, parts: seq<string>)
    requires ".." in parts && at != []
    ensures |Walk(at, parts)| < |at| + |KeptNames(parts)|
    decreases |parts|
  {
    var next := StepInto(at, parts[0]);
    assert parts == [parts[0]] + parts[1..];
    if parts[0] == ".." {
      WalkLength(next, parts[1..]);
    } else {
      WalkUp(next, parts[1..]);
    }
  }

  /** A member is written at the place that was checked exactly when its name is relative and never goes up. */
  lemma WrittenWhereChecked(destination: Path, m: Member)
    requires destination != []
    ensures Resolve(destination, m.name) == destination + EntryOf(m).path <==>
      !IsAbsolute(m.name) && ".." !in Split(m.name, '/')
  {
    var parts := Split(m.name, '/');
    if IsAbsolute(m.name) {
      WalkLength([], parts);
    } else if ".." in parts {
      WalkUp(destination, parts);
    } else {
      WalkLevel(destination, parts);
    }
  }

  lemma UpwardParts()
    ensures Split("a/../b", '/') == ["a", "..", "b"]
  {
    var parts := ["a", "..", "b"];
    assert parts[1..] == ["..", "b"] && parts[1..][1..] == ["b"];
    assert Join(parts, '/') == "a/../b";
    SplitJoin(parts, '/');
  }

  /** A member that goes up inside the destination passes the check and is written elsewhere. */
  lemma UpwardMember(content: seq<bv8>)
    ensures var m := Member("a/../b", false, |content|, content);
      Inside(["dest"], m) && Resolve(["dest"], m.name) == ["dest", "b"] && EntryOf(m).path == ["a", "b"]
  {
    hide Split;
    UpwardParts();
    var parts := ["a", "..", "b"];
    assert parts[1..] == ["..", "b"] && parts[1..][1..] == ["b"];
    assert ["dest", "a"][..1] == ["dest"];
  }

  // ----- create_archive, then extract -----

  predicate Chosen(t: Tree, sources: seq<Path>, p: Path) {
    p in t && t[p].File? && exists i :: 0 <= i < |sources| && sources[i] <= p
  }

  /** A source that is a file stands for itself; one that is a directory for every file at any depth below it. */
  lemma ChosenMeaning(t: Tree, source: Path, p: Path)
    requires WellFormed(t) && (source == [] || source in t)
    ensures Chosen(t, [source], p) <==>
      p in t && t[p].File? &&
        if source != [] && t[source].File? then p == source else |p| > |source| && p[..|source|] == source
  {
    var sources := [source];
    assert sources[0] == source;
    if p in t && source != [] && source < p { FilesHaveNothingBelow(t, source, p); }
    if source <= p && |p| == |source| { assert p == source; }
  }

  function ContentOf(t: Tree, p: Path): seq<bv8> {
    if p in t && t[p].File? then t[p].content else []
  }

  function MemberFor(t: Tree, p: Path): Member {
    Member(Join(p, '/'), false, |ContentOf(t, p)|, ContentOf(t, p))
  }

  // One member or more for each chosen file, and no others.
  ghost predicate ArchiveOf(members: seq<Member>, t: Tree, sources: seq<Path>) {
    && (forall i :: 0 <= i < |members| ==> exists p :: Chosen(t, sources, p) && members[i] == MemberFor(t, p))
    && (forall p :: Chosen(t, sources, p) ==> MemberFor(t, p) in members)
  }

  lemma ChosenMore(t: Tree, sources: seq<Path>, i: nat, p: Path)
    requires i < |sources|
    ensures Chosen(t, sources[..i + 1], p) <==> Chosen(t, sources[..i], p) || (p in t && t[p].File? && sources[i] <= p)
  {
    var now, more := sources[..i], sources[..i + 1];
    assert more[i] == sources[i];
    if Chosen(t, now, p) {
      var k :| 0 <= k < |now| && now[k] <= p;
      assert more[k] == now[k];
    }
    if Chosen(t, more, p) && !(sources[i] <= p) {
      var k :| 0 <= k < |more| && more[k] <= p;
      assert now[k] == more[k];
    }
  }

  // The members of one more source follow those made so far.
  method AddSource(members: seq<Member>, t: Tree, ghost sources: seq<Path>, ghost i: nat, source: Path)
    returns (more: seq<Member>)
    requires i < |sources| && sources[i] == source && ArchiveOf(members, t, sources[..i])
    ensures ArchiveOf(more, t, sources[..i + 1])
  {
    hide Chosen, MemberFor;
    var candidates := set p | p in t && t[p].File? && source <= p;
    var todo := candidates;
    more := members;
    forall p ensures Chosen(t, sources[..i + 1], p) <==> Chosen(t, sources[..i], p) || p in candidates {
      ChosenMore(t, sources, i, p);
    }
    assert forall p :: Chosen(t, sources[..i], p) ==> Chosen(t, sources[..i + 1], p);
    while todo != {}
      invariant todo <= candidates
      invariant forall k :: 0 <= k < |more| ==> exists p :: Chosen(t, sources[..i + 1], p) && more[k] == MemberFor(t, p)
      invariant forall p :: Chosen(t, sources[..i + 1], p) && p !in todo ==> MemberFor(t, p) in more
    {
      var item :| item in todo;
      more := more + [MemberFor(t, item)];
      todo := todo - {item};
    }
  }

  datatype ArchiveError = NotZip | Exists | Blocked | Missing

  // The suffix ".zip" in any case, after a non-empty stem.
  predicate HasZipSuffix(name: string) {
    && |name| > 4 && name[|name| - 4] == '.'
    && name[|name| - 3] in "zZ" && name[|name| - 2] in "iI" && name[|name| - 1] in "pP"
  }

  predicate MayCreate(t: Tree, sources: seq<Path>, destination: Path) {
    && destination != [] && HasZipSuffix(destination[|destination| - 1]) && destination !in t
    && (forall k :: 0 < k < |destination| && destination[..k] in t ==> t[destination[..k]].Dir?)
    && (forall i :: 0 <= i < |sources| ==> sources[i] in t)
  }

  /** create_archive: a source that is a directory gives all files below it; overlapping sources repeat files.  The
      name of the destination, what is there already, and the sources are checked first.  No source contains the
      destination: its archive would take in itself while it is written. */
  method CreateArchive(t: Tree, sources: seq<Path>, destination: Path)
    returns (error: Option<ArchiveError>, members: seq<Member>)
    requires forall i :: 0 <= i < |sources| ==> !(sources[i] < destination)
    ensures error.None? <==> MayCreate(t, sources, destination)
    ensures error.None? ==> ArchiveOf(members, t, sources)
    ensures error.Some? ==> members == []
    ensures error == Some(Missing) ==> exists i :: 0 <= i < |sources| && sources[i] !in t
  {
    hide ArchiveOf, HasZipSuffix;
    members := [];
    if destination == [] || !HasZipSuffix(destination[|destination| - 1]) {
      return Some(NotZip), members;
    }
    if destination in t {
      return Some(Exists), members;
    }
    if exists k :: 0 < k < |destination| && destination[..k] in t && t[destination[..k]].File? {
      return Some(Blocked), members;
    }
    for i := 0 to |sources|
      invariant forall j :: 0 <= j < i ==> sources[j] in t
    {
      if sources[i] !in t {
        return Some(Missing), members;
      }
    }
    assert ArchiveOf([], t, sources[..0]) by { NothingChosen(t, sources[..0]); }
    for i := 0 to |sources|
      invariant ArchiveOf(members, t, sources[..i])
    {
      members := AddSource(members, t, sources, i, sources[i]);
    }
    assert sources[..|sources|] == sources;
    error := None;
  }

  lemma NothingChosen(t: Tree, sources: seq<Path>)
    requires sources == []
    ensures ArchiveOf([], t, sources)
  {}

  lemma {:induction false} KeepPlain(parts: Path)
    requires PlainPath(parts)
    ensures KeptNames(parts) == parts
  {
    if parts != [] {
      assert PlainName(parts[0]);
      forall i | 0 <= i < |parts[1..]| ensures PlainName(parts[1..][i]) {
        assert PlainName(parts[i + 1]);
      }
      KeepPlain(parts[1..]);
    }
  }

  lemma MemberEntry(t: Tree, p: Path)
    requires p in t && t[p].File? && p != [] && PlainPath(p)
    ensures EntryOf(MemberFor(t, p)) == Entry(p, t[p])
    ensures forall destination :: Inside(destination, MemberFor(t, p))
  {
    forall c | c in p ensures '/' !in c {
      var i :| 0 <= i < |p| && p[i] == c;
      assert PlainName(p[i]);
    }
    SplitJoin(p, '/');
    KeepPlain(p);
    JoinEnd(p);
    forall destination ensures Inside(destination, MemberFor(t, p)) {
      ResolvePlain(destination, p);
      assert (destination + p)[..|destination|] == destination;
    }
  }

  lemma {:induction false} JoinEnd(parts: Path)
    requires parts != [] && PlainPath(parts)
    ensures Join(parts, '/') != "" && Join(parts, '/')[|Join(parts, '/')| - 1] != '/'
  {
    assert PlainName(parts[0]);
    if |parts| == 1 {
      assert parts[0][|parts[0]| - 1] in parts[0];
    } else {
      forall i | 0 <= i < |parts[1..]| ensures PlainName(parts[1..][i]) {
        assert PlainName(parts[i + 1]);
      }
      JoinEnd(parts[1..]);
    }
  }

  // A directory member: its name ends with a slash.
  function DirMember(p: Path): Member { Member(Join(p, '/') + "/", false, 0, []) }

  lemma {:induction false} JoinTrailing(parts: seq<string>)
    requires parts != []
    ensures Join(parts + [""], '/') == Join(parts, '/') + "/"
  {
    if |parts| == 1 {
      assert (parts + [""])[1..] == [""];
    } else {
      assert (parts + [""])[1..] == parts[1..] + [""];
      JoinTrailing(parts[1..]);
    }
  }

  lemma {:induction false} KeepTrailing(parts: Path)
    requires PlainPath(parts)
    ensures KeptNames(parts + [""]) == parts
  {
    if parts != [] {
      assert PlainName(parts[0]);
      forall i | 0 <= i < |parts[1..]| ensures PlainName(parts[1..][i]) { assert PlainName(parts[i + 1]); }
      assert (parts + [""])[1..] == parts[1..] + [""];
      KeepTrailing(parts[1..]);
    } else {
      assert parts + [""] == [""] && [""][1..] == [];
    }
  }

  /** A member whose name ends with a slash is a directory. */
  lemma DirectoryMember(p: Path)
    requires p != [] && PlainPath(p)
    ensures EntryOf(DirMember(p)) == Entry(p, Dir)
  {
    hide Join, Split;
    forall c | c in p + [""] ensures '/' !in c {
      if c in p {
        var i :| 0 <= i < |p| && p[i] == c;
        assert PlainName(p[i]);
      }
    }
    SplitJoin(p + [""], '/');
    JoinTrailing(p);
    KeepTrailing(p);
  }

  ghost predicate PlainTree(t: Tree) {
    WellFormed(t) && forall p :: p in t ==> PlainPath(p)
  }

  lemma FilesHaveNothingBelow(t: Tree, p: Path, q: Path)
    requires WellFormed(t) && p in t && q in t && p < q
    ensures t[p].Dir?
  {
    AncestorsAreDirs(t, q, |p|);
    assert q[..|p|] == p;
  }

  lemma ArchiveEntries(members: seq<Member>, t: Tree, sources: seq<Path>)
    requires PlainTree(t) && ArchiveOf(members, t, sources)
    ensures ChosenEntries(EntriesOf(members), t, sources)
    ensures forall destination :: AllInside(destination, members)
  {
    hide PlainPath, EntryOf, Inside, Chosen, MemberFor;
    var es := EntriesOf(members);
    AllChosenInTree(t, sources);
    forall i | 0 <= i < |es|
      ensures Chosen(t, sources, es[i].path) && es[i].node == t[es[i].path]
      ensures forall destination :: Inside(destination, members[i])
    {
      var p :| Chosen(t, sources, p) && members[i] == MemberFor(t, p);
      ChosenInTree(t, sources, p);
      MemberEntry(t, p);
    }
    forall p | Chosen(t, sources, p) ensures exists i :: 0 <= i < |es| && es[i].path == p {
      var i :| 0 <= i < |members| && members[i] == MemberFor(t, p);
      ChosenInTree(t, sources, p);
      MemberEntry(t, p);
      assert es[i].path == p;
    }
  }

  // The entries are those of the chosen files.
  ghost predicate ChosenEntries(es: seq<Entry>, t: Tree, sources: seq<Path>) {
    && (forall i :: 0 <= i < |es| ==> Chosen(t, sources, es[i].path) && es[i].node == t[es[i].path])
    && (forall p :: Chosen(t, sources, p) ==> exists i :: 0 <= i < |es| && es[i].path == p)
  }

  lemma ChosenConsistent(es: seq<Entry>, t: Tree, sources: seq<Path>)
    requires WellFormed(t) && ChosenEntries(es, t, sources)
    ensures Consistent(es)
  {
    forall i, j | 0 <= i < |es| && 0 <= j < |es| && es[i].path < es[j].path ensures es[i].node.Dir? {
      FilesHaveNothingBelow(t, es[i].path, es[j].path);
    }
  }

  lemma ChosenReached(es: seq<Entry>, t: Tree, sources: seq<Path>, p: Path)
    requires ChosenEntries(es, t, sources)
    ensures Reaches(es, p) <==> p != [] && exists q :: Chosen(t, sources, q) && p <= q
  {
    hide Chosen;
    if Reaches(es, p) {
      var i :| 0 <= i < |es| && p <= es[i].path;
      assert Chosen(t, sources, es[i].path);
    }
    if p != [] && exists q :: Chosen(t, sources, q) && p <= q {
      var q :| Chosen(t, sources, q) && p <= q;
      var i :| 0 <= i < |es| && es[i].path == q;
      assert p <= es[i].path;
    }
  }

  // Exactly the chosen files and the directories that lead to them.
  ghost predicate HoldsChosen(r: Tree, t: Tree, sources: seq<Path>) {
    && (forall p :: p in r && r[p].File? <==> Chosen(t, sources, p))
    && (forall p :: Chosen(t, sources, p) ==> p in r && r[p] == t[p])
    && (forall p :: p in r <==> p != [] && exists q :: Chosen(t, sources, q) && p <= q)
  }

  lemma DescribedChosen(r: Tree, es: seq<Entry>, t: Tree, sources: seq<Path>)
    requires ChosenEntries(es, t, sources) && Describes(r, es)
    ensures HoldsChosen(r, t, sources)
  {
    hide Reaches, Chosen;
    AllChosenInTree(t, sources);
    forall p ensures p in r <==> p != [] && exists q :: Chosen(t, sources, q) && p <= q {
      ChosenReached(es, t, sources, p);
    }
    forall p | Chosen(t, sources, p) ensures p in r && r[p] == t[p] && r[p].File? {
      ChosenInTree(t, sources, p);
      var i :| 0 <= i < |es| && es[i].path == p;
    }
  }

  /** Compressing and extracting into an empty directory gives back exactly the chosen files, with their contents,
      at their paths, and only the directories that lead to them; the safety check lets all members pass. */
  lemma ZipRoundTrip(members: seq<Member>, t: Tree, sources: seq<Path>, destination: Path)
    requires PlainTree(t) && ArchiveOf(members, t, sources)
    ensures AllInside(destination, members)
    ensures PutAll(EntriesOf(members)).Some? && HoldsChosen(PutAll(EntriesOf(members)).value, t, sources)
  {
    hide ArchiveOf, PlainPath, PutAll, EntryOf, AllInside, ChosenEntries, Consistent, Describes, HoldsChosen;
    var es := EntriesOf(members);
    ArchiveEntries(members, t, sources);
    ChosenConsistent(es, t, sources);
    PutAllDescribes(es);
    DescribedChosen(PutAll(es).value, es, t, sources);
  }

  lemma AllChosenInTree(t: Tree, sources: seq<Path>)
    ensures forall p :: Chosen(t, sources, p) ==> p in t && t[p].File?
  {}

  lemma ChosenInTree(t: Tree, sources: seq<Path>, p: Path)
    requires Chosen(t, sources, p)
    ensures p in t && t[p].File?
    ensures WellFormed(t) ==> p != []
  {}

  function AnyMember(t: Tree, p: Path): Member
    requires p in t
  {
    if t[p].Dir? then DirMember(p) else MemberFor(t, p)
  }

  // The members list every file and every directory of the tree, in any order, and nothing else.
  ghost predicate ListingOf(members: seq<Member>, t: Tree) {
    && (forall i :: 0 <= i < |members| ==> exists p :: p in t && members[i] == AnyMember(t, p))
    && (forall p :: p in t ==> AnyMember(t, p) in members)
  }

  lemma AnyMemberEntry(t: Tree, p: Path)
    requires PlainTree(t) && p in t
    ensures EntryOf(AnyMember(t, p)) == Entry(p, t[p])
  {
    hide EntryOf, Join;
    if t[p].Dir? { DirectoryMember(p); } else { MemberEntry(t, p); }
  }

  lemma ListingEntries(members: seq<Member>, t: Tree)
    requires PlainTree(t) && ListingOf(members, t)
    ensures var es := EntriesOf(members);
      && (forall i :: 0 <= i < |es| ==> es[i].path in t && es[i].node == t[es[i].path])
      && (forall p :: p in t ==> exists i :: 0 <= i < |es| && es[i].path == p)
  {
    hide EntryOf, AnyMember, PlainPath, WellFormed;
    var es := EntriesOf(members);
    forall i | 0 <= i < |es| ensures es[i].path in t && es[i].node == t[es[i].path] {
      var m := members[i];
      var p :| p in t && m == AnyMember(t, p);
      AnyMemberEntry(t, p);
    }
    forall p | p in t ensures exists i :: 0 <= i < |es| && es[i].path == p {
      AnyMemberEntry(t, p);
      var i :| 0 <= i < |members| && members[i] == AnyMember(t, p);
      assert es[i].path == p;
    }
  }

  lemma WholeReached(es: seq<Entry>, t: Tree, p: Path)
    requires WellFormed(t)
    requires forall i :: 0 <= i < |es| ==> es[i].path in t
    requires forall q :: q in t ==> exists i :: 0 <= i < |es| && es[i].path == q
    ensures Reaches(es, p) <==> p in t
  {
    if Reaches(es, p) {
      var i :| 0 <= i < |es| && p <= es[i].path;
      var q := es[i].path;
      assert q[..|p|] == p && q in t;
      if |p| < |q| { AncestorsAreDirs(t, q, |p|); } else { assert p == q; }
    }
    if p in t {
      var i :| 0 <= i < |es| && es[i].path == p;
      assert p != [] && p <= es[i].path;
    }
  }

  /** An archive that lists all files and directories of a tree, in any order, extracts to exactly that tree, empty
      directories included. */
  lemma ListingExtracts(members: seq<Member>, t: Tree)
    requires PlainTree(t) && ListingOf(members, t)
    ensures PutAll(EntriesOf(members)) == Some(t)
  {
    hide PutAll, EntryOf, PlainPath, ListingOf, Reaches, WellFormed;
    var es := EntriesOf(members);
    ListingEntries(members, t);
    NoRoot(t);
    forall i, j | 0 <= i < |es| && 0 <= j < |es| && es[i].path < es[j].path ensures es[i].node.Dir? {
      FilesHaveNothingBelow(t, es[i].path, es[j].path);
    }
    PutAllDescribes(es);
    var r := PutAll(es).value;
    forall p ensures (p in r <==> p in t) && (p in t ==> r[p] == t[p]) {
      WholeReached(es, t, p);
    }
    assert r == t;
  }

  // ----- backups -----

  predicate SourceEntry(e: Entry, source: Tree) {
    || (source != map[] && e == Entry(["source"], Dir))
    || (|e.path| > 1 && e.path[0] == "source" && e.path[1..] in source && e.node == source[e.path[1..]])
  }

  predicate BackupEntry(e: Entry, source: Tree, extras: set<string>) {
    SourceEntry(e, source) || (|e.path| == 1 && e.path[0] in extras && e.path[0] != "source" && e.node.File?)
  }

  // The backup holds the source below "source" when it is not empty, and some other top-level files.
  ghost predicate BackupOf(es: seq<Entry>, source: Tree, extras: set<string>) {
    && (forall i :: 0 <= i < |es| ==> BackupEntry(es[i], source, extras))
    && (forall p :: p in source ==> Entry(["source"] + p, source[p]) in es)
    && (source != map[] ==> Entry(["source"], Dir) in es)
    && (forall i, j :: 0 <= i < |es| && 0 <= j < |es| && es[i].path == es[j].path ==> es[i].node == es[j].node)
  }

  const EXTRAS: set<string> := {"manifest.json", "database.sql", "database.archive.gz"}

  method AddSourceTree(source: Tree) returns (es: seq<Entry>)
    requires WellFormed(source)
    ensures forall i :: 0 <= i < |es| ==> SourceEntry(es[i], source)
    ensures forall p :: p in source ==> Entry(["source"] + p, source[p]) in es
    ensures source != map[] ==> Entry(["source"], Dir) in es
  {
    hide WellFormed;
    NoRoot(source);
    es := [];
    if source != map[] {
      es := [Entry(["source"], Dir)];
      var todo := source.Keys;
      while todo != {}
        invariant todo <= source.Keys && Entry(["source"], Dir) in es
        invariant forall i :: 0 <= i < |es| ==> SourceEntry(es[i], source)
        invariant forall p :: p in source && p !in todo ==> Entry(["source"] + p, source[p]) in es
      {
        var item :| item in todo;
        var e := Entry(["source"] + item, source[item]);
        assert e.path[1..] == item;
        es := es + [e];
        todo := todo - {item};
      }
    }
  }

  /** The archive written by create_backup: the source below "source", the manifest and, for a database, the dump. */
  method CreateBackup(source: Tree, manifest: seq<bv8>, dump: Option<Entry>) returns (es: seq<Entry>)
    requires WellFormed(source)
    requires dump.Some? ==>
      dump.value.node.File? && (dump.value.path == ["database.sql"] || dump.value.path == ["database.archive.gz"])
    ensures BackupOf(es, source, EXTRAS)
    ensures Entry(["manifest.json"], File(manifest)) in es && (dump.Some? ==> dump.value in es)
    ensures forall e :: e in es ==>
      SourceEntry(e, source) || e == Entry(["manifest.json"], File(manifest)) || dump == Some(e)
  {
    hide WellFormed;
    var body := AddSourceTree(source);
    var tail := [Entry(["manifest.json"], File(manifest))] + if dump.Some? then [dump.value] else [];
    es := body + tail;
    forall i, j | 0 <= i < |es| && 0 <= j < |es| && es[i].path == es[j].path ensures es[i].node == es[j].node {
      assert i < |body| ==> SourceEntry(es[i], source);
      assert j < |body| ==> SourceEntry(es[j], source);
      assert i >= |body| ==> es[i] == tail[i - |body|];
      assert j >= |body| ==> es[j] == tail[j - |body|];
    }
  }

  /** What is in a backup besides the source is there again, with its content, when it is extracted. */
  lemma ExtrasExtracted(es: seq<Entry>, source: Tree, extras: set<string>, e: Entry)
    requires BackupOf(es, source, extras) && WellFormed(source) && e in es
    ensures PutAll(es).Some? && e.path in PutAll(es).value && PutAll(es).value[e.path] == e.node
  {
    hide PutAll, WellFormed, BackupEntry, Consistent;
    BackupConsistent(es, source, extras);
    PutAllDescribes(es);
  }

  lemma EntryAbove(a: Entry, b: Entry, source: Tree, extras: set<string>)
    requires WellFormed(source) && BackupEntry(a, source, extras) && BackupEntry(b, source, extras) && a.path < b.path
    ensures a.node.Dir?
  {
    var p, q := a.path, b.path;
    assert p == q[..|p|] && p[0] == q[0];
    if |p| > 1 {
      assert p[1..] == q[1..][..|p| - 1];
      FilesHaveNothingBelow(source, p[1..], q[1..]);
    }
  }

  lemma BackupConsistent(es: seq<Entry>, source: Tree, extras: set<string>)
    requires BackupOf(es, source, extras) && WellFormed(source)
    ensures Consistent(es)
  {
    hide WellFormed;
    forall i, j | 0 <= i < |es| && 0 <= j < |es| && es[i].path < es[j].path ensures es[i].node.Dir? {
      EntryAbove(es[i], es[j], source, extras);
    }
  }

  lemma EntryBelow(e: Entry, source: Tree, extras: set<string>, p: Path)
    requires WellFormed(source) && BackupEntry(e, source, extras) && p != [] && ["source"] + p <= e.path
    ensures p in source
  {
    var full, q := ["source"] + p, e.path;
    assert full[0] == q[0] && |q| > 1;
    assert full == q[..|full|];
    assert p == full[1..] == q[1..][..|p|];
    if |p| < |q[1..]| { AncestorsAreDirs(source, q[1..], |p|); } else { assert p == q[1..]; }
  }

  lemma BelowSource(es: seq<Entry>, source: Tree, extras: set<string>, p: Path)
    requires BackupOf(es, source, extras) && WellFormed(source) && p != []
    ensures p in source <==> Reaches(es, ["source"] + p)
  {
    hide WellFormed, BackupEntry;
    var full := ["source"] + p;
    if p in source {
      var i :| 0 <= i < |es| && es[i] == Entry(full, source[p]);
      assert full <= es[i].path;
    }
    if Reaches(es, full) {
      var i :| 0 <= i < |es| && full <= es[i].path;
      EntryBelow(es[i], source, extras, p);
    }
  }

  lemma SourceReached(es: seq<Entry>, source: Tree, extras: set<string>)
    requires BackupOf(es, source, extras)
    ensures Reaches(es, ["source"]) <==> source != map[]
  {
    if source != map[] {
      var i :| 0 <= i < |es| && es[i] == Entry(["source"], Dir);
      assert ["source"] <= es[i].path;
    }
    if Reaches(es, ["source"]) {
      var i :| 0 <= i < |es| && ["source"] <= es[i].path;
      assert BackupEntry(es[i], source, extras) && es[i].path[0] == "source";
    }
  }

  lemma NestedSource(r: Tree, es: seq<Entry>, source: Tree, extras: set<string>)
    requires BackupOf(es, source, extras) && WellFormed(source) && Describes(r, es)
    ensures Nested(r, "source") == source
  {
    hide WellFormed, BackupEntry, Reaches;
    var nested := Nested(r, "source");
    assert [] !in source by { NoRoot(source); }
    forall p ensures (p in nested <==> p in source) && (p in source ==> nested[p] == source[p]) {
      TailIsPath(r, "source", p);
      if p != [] { BelowSource(es, source, extras, p); }
      if p in source {
        var i :| 0 <= i < |es| && es[i] == Entry(["source"] + p, source[p]);
        assert r[es[i].path] == es[i].node;
      }
    }
  }

  lemma NoRoot(t: Tree)
    requires WellFormed(t)
    ensures [] !in t
  {}

  /** Extracting a backup and taking what lies below "source" gives back the source tree, empty directories included;
      a backup of an empty source has no such directory. */
  lemma BackupRoundTrip(es: seq<Entry>, source: Tree, extras: set<string>)
    requires BackupOf(es, source, extras) && WellFormed(source)
    ensures PutAll(es).Some?
    ensures var r := PutAll(es).value;
      && (["source"] in r <==> source != map[])
      && (source != map[] ==> r[["source"]].Dir? && Nested(r, "source") == source)
  {
    hide PutAll, WellFormed, Nested, Reaches, BackupEntry, Consistent;
    BackupConsistent(es, source, extras);
    PutAllDescribes(es);
    var r := PutAll(es).value;
    SourceReached(es, source, extras);
    NestedSource(r, es, source, extras);
    if source != map[] {
      var top :| 0 <= top < |es| && es[top] == Entry(["source"], Dir);
      assert r[es[top].path] == es[top].node;
    }
  }

  /** Every path of a backup passes the check that restore makes before extracting. */
  lemma BackupPassesCheck(es: seq<Entry>, source: Tree, destination: Path, i: nat)
    requires BackupOf(es, source, EXTRAS) && PlainTree(source) && i < |es|
    ensures destination <= Resolve(destination, Join(es[i].path, '/'))
  {
    hide Resolve, WellFormed;
    var p := es[i].path;
    assert BackupEntry(es[i], source, EXTRAS);
    assert p != [] && PlainName(p[0]);
    assert forall k | 0 < k < |p| :: p[k] == p[1..][k - 1];
    assert |p| > 1 ==> PlainPath(p[1..]);
    assert PlainPath(p);
    ResolvePlain(destination, p);
    assert (destination + p)[..|destination|] == destination;
  }

  /** A backup of a non-empty source followed by a restore that returns normally leaves exactly that source, whatever
      was there in between; a restore that fails leaves the whole present tree or the whole backed-up one. */
  lemma BackupThenRestore(es: seq<Entry>, source: Tree, extras: set<string>, before: Slot<Tree>,
                          copied: bool, partial: bool, f: Faults)
    requires BackupOf(es, source, extras) && WellFormed(source) && source != map[] && !before.Partial?
    ensures PutAll(es).Some?
    ensures var t := RestoreSwap(before, Nested(PutAll(es).value, "source"), copied, partial, f);
      && (t.ok ==> Last(t) == Slots(Whole(source), Absent, Absent))
      && (!t.ok && f.recovered ==> Last(t).source == before || Last(t).source == Whole(source))
  {
    hide PutAll, RestoreSwap, BackupOf, WellFormed;
    BackupRoundTrip(es, source, extras);
    RestoreSafe(before, source, copied, partial, f);
  }
}
