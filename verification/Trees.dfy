// Directory trees without links, as a map from relative paths to nodes, and
// the loops of the services that walk or reshape them
// (app/services/file_service.py, app/routers/apps.py).
module Trees {

  type Path = seq<string>

  datatype Node = File(content: seq<bv8>) | Dir

  type Tree = map<Path, Node>

  // Every entry but a top-level one lies in a directory of the tree.
  ghost predicate WellFormed(t: Tree) {
    && [] !in t
    && forall p :: p in t && |p| > 1 ==> p[..|p| - 1] in t && t[p[..|p| - 1]].Dir?
  }

  lemma {:induction false} AncestorsAreDirs(t: Tree, p: Path, k: nat)
    requires WellFormed(t) && p in t && 0 < k < |p|
    ensures p[..k] in t && t[p[..k]].Dir?
    decreases |p|
  {
    var parent := p[..|p| - 1];
    if k < |parent| {
      AncestorsAreDirs(t, parent, k);
      assert parent[..k] == p[..k];
    }
  }

  // ----- directory_stats -----

  datatype Stats = Stats(files: nat, size: nat)

  function NodeStats(n: Node): Stats {
    match n
    case File(content) => Stats(1, |content|)
    case Dir => Stats(0, 0)
  }

  function Plus(a: Stats, b: Stats): Stats { Stats(a.files + b.files, a.size + b.size) }

  ghost function Pick(t: Tree): (p: Path)
    requires t != map[]
    ensures p in t
  {
    var p :| p in t;
    p
  }

  ghost function TreeStats(t: Tree): Stats {
    if t == map[] then Stats(0, 0) else Plus(NodeStats(t[Pick(t)]), TreeStats(t - {Pick(t)}))
  }

  /** Any entry can be counted first. */
  lemma {:induction false} CountEntry(t: Tree, p: Path)
    requires p in t
    ensures TreeStats(t) == Plus(NodeStats(t[p]), TreeStats(t - {p}))
    decreases |t|
  {
    hide NodeStats, Pick;
    var q := Pick(t);
    if q != p {
      var without := t - {p, q};
      assert t - {q} - {p} == without && t - {p} - {q} == without;
      assert (t - {q})[p] == t[p] && (t - {p})[q] == t[q];
      CountEntry(t - {q}, p);
      CountEntry(t - {p}, q);
    }
  }

  lemma NoEntries(t: Tree, s: Stats)
    requires t.Keys == {}
    ensures TreeStats(t) == Stats(0, 0) && Plus(s, TreeStats(t)) == s
  {
    assert t == map[];
  }

  /** The walk over all entries, in any order. */
  method DirectoryStats(t: Tree) returns (s: Stats)
    ensures s == TreeStats(t)
  {
    hide NodeStats, TreeStats, Pick;
    s := Stats(0, 0);
    var todo := t.Keys;
    ghost var rest := t;
    while todo != {}
      invariant rest.Keys == todo && forall p :: p in rest ==> p in t && rest[p] == t[p]
      invariant Plus(s, TreeStats(rest)) == TreeStats(t)
    {
      var item :| item in todo;
      CountEntry(rest, item);
      s := Plus(s, NodeStats(t[item]));
      rest := rest - {item};
      todo := todo - {item};
    }
    NoEntries(rest, s);
  }

  /** What the statistics count: an entry more is a file with its length, or a directory that does not count. */
  lemma StatsMeaning(t: Tree, p: Path, n: Node)
    requires p !in t
    ensures TreeStats(t[p := n]) ==
      if n.Dir? then TreeStats(t) else Stats(TreeStats(t).files + 1, TreeStats(t).size + |n.content|)
  {
    hide TreeStats, Pick;
    CountEntry(t[p := n], p);
    assert t[p := n] - {p} == t;
  }

  lemma EmptyStats()
    ensures TreeStats(map[]) == Stats(0, 0)
  {}

  // ----- flattening an archive with a single top-level directory -----

  // The paths below top-level directory n, relative to it.
  function Tails(t: Tree, n: string): set<Path> {
    set q | q in t && |q| >= 2 && q[0] == n :: q[1..]
  }

  lemma TailIsPath(t: Tree, n: string, p: Path)
    ensures p in Tails(t, n) <==> p != [] && [n] + p in t
  {
    if p in Tails(t, n) {
      var q :| q in t && |q| >= 2 && q[0] == n && p == q[1..];
      assert q == [n] + p;
    }
    if p != [] && [n] + p in t {
      assert ([n] + p)[1..] == p;
    }
  }

  // The tree nested in top-level directory n.
  function Nested(t: Tree, n: string): Tree {
    map p | p in Tails(t, n) :: (TailIsPath(t, n, p); t[[n] + p])
  }

  // Entry n is the only top-level one, and a directory.
  predicate SingleTop(t: Tree, n: string) {
    [n] in t && t[[n]].Dir? && forall p :: p in t && |p| == 1 ==> p == [n]
  }

  // Children in `done` have been moved up.
  function Moved(t: Tree, n: string, done: set<string>): Tree {
    (map p | p in t && !(|p| >= 2 && p[0] == n && p[1] in done) :: t[p]) +
    (map p | p in Tails(t, n) && p != [] && p[0] in done :: (TailIsPath(t, n, p); t[[n] + p]))
  }

  function Children(t: Tree, n: string): set<string> {
    set p | p in t && |p| == 2 && p[0] == n :: p[1]
  }

  lemma {:induction false} AllBelow(t: Tree, n: string, p: Path)
    requires WellFormed(t) && SingleTop(t, n) && p in t
    ensures p != [] && p[0] == n && (|p| >= 2 ==> p[1] in Children(t, n))
  {
    if |p| > 1 {
      AncestorsAreDirs(t, p, 1);
      assert p[..1] == [n];
      var q := p[..2];
      if |p| > 2 { AncestorsAreDirs(t, p, 2); } else { assert q == p; }
      assert q in t && |q| == 2 && q[0] == n && q[1] == p[1];
    }
  }

  class Staging {
    var tree: Tree

    constructor (t: Tree)
      ensures tree == t
    {
      tree := t;
    }

    /** Move n/c up one level; it is refused when an entry called c is in the way, or by the system. */
    method MoveUp(n: string, c: string, works: bool, ghost start: Tree, ghost done: set<string>) returns (ok: bool)
      requires WellFormed(start) && SingleTop(start, n) && c in Children(start, n) && c !in done && n !in done
      requires tree == Moved(start, n, done)
      modifies this
      ensures ok <==> works && c != n
      ensures tree == if ok then Moved(start, n, done + {c}) else Moved(start, n, done)
    {
      TopEntries(start, n, done, c);
      ok := works && [c] !in tree;
      if ok {
        MoveOne(start, n, done, c);
        tree := Shifted(tree, n, c);
      }
    }

    method FindTop() returns (found: bool, n: string)
      ensures found ==> SingleTop(tree, n)
      ensures !found ==> forall m :: !SingleTop(tree, m)
    {
      n := "";
      var top := set p | p in tree && |p| == 1;
      OneTop(tree, top);
      if |top| != 1 {
        return false, n;
      }
      var entry :| entry in top;
      OnlyOne(top, entry);
      n := entry[0];
      assert entry == [n];
      found := tree[entry].Dir?;
      forall p | p in tree && |p| == 1 ensures p == [n] {
        assert p in top;
      }
      assert forall m :: SingleTop(tree, m) ==> [m] in top;
    }

    method MoveChildren(n: string, failing: set<string>, emptied: bool) returns (ok: bool)
      requires WellFormed(tree) && SingleTop(tree, n)
      modifies this
      ensures ok <==> n !in Children(old(tree), n) && Children(old(tree), n) !! failing && emptied
      ensures ok ==> tree == Nested(old(tree), n)
    {
      hide SingleTop, WellFormed, Moved, Nested, Children;
      ghost var start := tree;
      var children := Children(tree, n);
      var todo := children;
      NothingMoved(start, n);
      assert children - todo == {};
      while todo != {}
        invariant todo <= children
        invariant tree == Moved(start, n, children - todo)
        invariant n !in children - todo && (children - todo) !! failing
      {
        var c :| c in todo;
        ok := MoveUp(n, c, c !in failing, start, children - todo);
        if !ok {
          return;
        }
        assert children - todo + {c} == children - (todo - {c});
        todo := todo - {c};
      }
      assert children - todo == children;
      if !emptied {
        return false;
      }
      EverythingMoved(start, n);
      tree := tree - {[n]};
      return true;
    }

    /** The flatten step of upload_source, where the system fails the renames in `failing`, and the removal of the
        directory unless `emptied`: it succeeds exactly when none of these is needed and no child of a single top-level
        directory carries the directory's own name. */
    method Flatten(failing: set<string>, emptied: bool) returns (ok: bool)
      requires WellFormed(tree)
      modifies this
      ensures forall n | SingleTop(old(tree), n) ::
        (ok <==> n !in Children(old(tree), n) && Children(old(tree), n) !! failing && emptied) &&
        (ok ==> tree == Nested(old(tree), n))
      ensures (forall n :: !SingleTop(old(tree), n)) ==> ok && tree == old(tree)
    {
      hide Nested, Children, WellFormed;
      var found, n := FindTop();
      if found {
        assert forall m :: SingleTop(tree, m) ==> [m] == [n] && m == [m][0];
        ok := MoveChildren(n, failing, emptied);
      } else {
        ok := true;
      }
    }
  }

  /** An archive can hold a directory with a file of the directory's own name, and then flattening fails. */
  lemma OwnNameInside(n: string)
    ensures var t: Tree := map[[n] := Dir, [n, n] := File([])];
      WellFormed(t) && SingleTop(t, n) && n in Children(t, n)
  {
    assert [n, n][..1] == [n];
  }

  // Renaming n/c to c when nothing is called c.
  function Shifted(t: Tree, n: string, c: string): Tree {
    (map p | p in t && !(|p| >= 2 && p[0] == n && p[1] == c) :: t[p]) +
    (map p | p in Tails(t, n) && p != [] && p[0] == c :: (TailIsPath(t, n, p); t[[n] + p]))
  }

  lemma NothingMoved(t: Tree, n: string)
    ensures Moved(t, n, {}) == t
  {}

  lemma MovedEntry(t: Tree, n: string, done: set<string>, p: Path)
    requires WellFormed(t) && SingleTop(t, n) && n !in done
    ensures p in Moved(t, n, done) <==>
      if p != [] && p[0] in done then [n] + p in t else p in t && !(|p| >= 2 && p[1] in done)
    ensures p in Moved(t, n, done) ==> Moved(t, n, done)[p] == if p[0] in done then t[[n] + p] else t[p]
    ensures p in Moved(t, n, done) ==> p != []
  {
    TailIsPath(t, n, p);
    if p in t { AllBelow(t, n, p); }
  }

  lemma TopEntries(t: Tree, n: string, done: set<string>, c: string)
    requires WellFormed(t) && SingleTop(t, n) && c !in done && n !in done
    ensures [c] in Moved(t, n, done) <==> c == n
  {
    MovedEntry(t, n, done, [c]);
  }

  // Membership and content of a shifted tree at one path.
  lemma ShiftedEntry(now: Tree, n: string, c: string, p: Path)
    ensures p in Shifted(now, n, c) <==>
      if p != [] && p[0] == c && [n] + p in now then true else p in now && !(|p| >= 2 && p[0] == n && p[1] == c)
    ensures p in Shifted(now, n, c) ==>
      Shifted(now, n, c)[p] == if p != [] && p[0] == c && [n] + p in now then now[[n] + p] else now[p]
  {
    TailIsPath(now, n, p);
  }

  lemma MoveOneEntry(t: Tree, n: string, done: set<string>, c: string, p: Path)
    requires WellFormed(t) && SingleTop(t, n) && c in Children(t, n) && c !in done && n !in done && c != n
    ensures var shifted, after := Shifted(Moved(t, n, done), n, c), Moved(t, n, done + {c});
      (p in shifted <==> p in after) && (p in after ==> shifted[p] == after[p])
  {
    hide Moved, Shifted, WellFormed, SingleTop, Children;
    MovedEntry(t, n, done, p);
    MovedEntry(t, n, done + {c}, p);
    MovedEntry(t, n, done, [n] + p);
    ShiftedEntry(Moved(t, n, done), n, c, p);
    if p in t { AllBelow(t, n, p); }
    if p != [] { assert ([n] + p)[1] == p[0]; }
  }

  lemma MoveOne(t: Tree, n: string, done: set<string>, c: string)
    requires WellFormed(t) && SingleTop(t, n) && c in Children(t, n) && c !in done && n !in done && c != n
    ensures Shifted(Moved(t, n, done), n, c) == Moved(t, n, done + {c})
  {
    hide Moved, Shifted, WellFormed, SingleTop, Children;
    forall p
      ensures p in Shifted(Moved(t, n, done), n, c) <==> p in Moved(t, n, done + {c})
      ensures p in Moved(t, n, done + {c}) ==>
        Shifted(Moved(t, n, done), n, c)[p] == Moved(t, n, done + {c})[p]
    {
      MoveOneEntry(t, n, done, c, p);
    }
  }

  lemma EverythingMoved(t: Tree, n: string)
    requires WellFormed(t) && SingleTop(t, n) && n !in Children(t, n)
    ensures Moved(t, n, Children(t, n)) - {[n]} == Nested(t, n)
  {
    var after := Moved(t, n, Children(t, n)) - {[n]};
    var nested := Nested(t, n);
    forall p ensures (p in after <==> p in nested) && (p in nested ==> after[p] == nested[p]) {
      MovedEntry(t, n, Children(t, n), p);
      TailIsPath(t, n, p);
      if p in t { AllBelow(t, n, p); }
      if [n] + p in t && p != [] {
        AllBelow(t, n, [n] + p);
        assert ([n] + p)[1] == p[0];
      }
    }
  }

  lemma OnlyOne(top: set<Path>, entry: Path)
    requires |top| == 1 && entry in top
    ensures forall p :: p in top ==> p == entry
  {
    assert |top - {entry}| == 0;
    forall p | p in top ensures p == entry {
      assert p in top - {entry} || p == entry;
    }
  }

  lemma OneTop(t: Tree, top: set<Path>)
    requires top == (set p | p in t && |p| == 1)
    ensures |top| != 1 ==> forall n :: !SingleTop(t, n)
  {
    forall n ensures SingleTop(t, n) ==> top == {[n]} {}
  }

  /** Flattening keeps the number of files and their total size. */
  lemma {:induction false} FlattenConserves(t: Tree, n: string)
    requires forall p :: p in t ==> p != [] && p[0] == n
    requires [n] in t ==> t[[n]].Dir?
    ensures TreeStats(Nested(t, n)) == TreeStats(t)
    decreases |t|
  {
    hide NodeStats, TreeStats, Nested;
    if t == map[] {
      assert Nested(t, n) == map[] by { NestedEmpty(n); }
    } else {
      var p := Pick(t);
      var rest := t - {p};
      CountEntry(t, p);
      FlattenConserves(rest, n);
      assert p == [n] + p[1..];
      NestedWithout(t, n, p[1..]);
      if p[1..] == [] {
        assert NodeStats(t[p]) == Stats(0, 0) by { assert p == [n]; DirStats(t[p]); }
      } else {
        CountEntry(Nested(t, n), p[1..]);
      }
    }
  }

  lemma DirStats(node: Node)
    requires node.Dir?
    ensures NodeStats(node) == Stats(0, 0)
  {}

  lemma NestedEmpty(n: string)
    ensures Nested(map[], n) == map[]
  {}

  // Dropping one entry on either side.
  lemma NestedWithout(t: Tree, n: string, q: Path)
    requires [n] + q in t
    ensures q == [] ==> Nested(t - {[n] + q}, n) == Nested(t, n)
    ensures q != [] ==>
      q in Nested(t, n) && Nested(t, n)[q] == t[[n] + q] && Nested(t - {[n] + q}, n) == Nested(t, n) - {q}
  {
    var rest := t - {[n] + q};
    forall r
      ensures r in Nested(rest, n) <==> r in Nested(t, n) && r != q
      ensures r in Nested(rest, n) ==> Nested(rest, n)[r] == Nested(t, n)[r]
      ensures r in Nested(t, n) ==> r != []
    {
      TailIsPath(t, n, r);
      TailIsPath(rest, n, r);
      if [n] + r == [n] + q { assert r == ([n] + r)[1..] == ([n] + q)[1..] == q; }
    }
    TailIsPath(t, n, q);
  }

  /** A single-rooted tree and the tree nested in it hold the same files and bytes. */
  lemma SingleTopConserves(t: Tree, n: string)
    requires WellFormed(t) && SingleTop(t, n)
    ensures TreeStats(Nested(t, n)) == TreeStats(t)
  {
    forall p | p in t ensures p != [] && p[0] == n {
      AllBelow(t, n, p);
    }
    FlattenConserves(t, n);
  }

  /** A tree has a single top-level directory exactly when it is not empty and everything is in that directory. */
  lemma SingleTopMeaning(t: Tree, n: string)
    requires WellFormed(t)
    ensures SingleTop(t, n) <==> t != map[] && (forall p :: p in t ==> p[..1] == [n]) && [n] in t && t[[n]].Dir?
    ensures n in Children(t, n) <==> [n, n] in t
  {
    if SingleTop(t, n) {
      forall p | p in t ensures p[..1] == [n] { AllBelow(t, n, p); }
    }
    forall p | p in t && |p| == 1 && p[..1] == [n] ensures p == [n] {}
    if n in Children(t, n) {
      var p :| p in t && |p| == 2 && p[0] == n && p[1] == n;
      assert p == [n, n];
    }
  }

  /** The nested tree has the entries below the directory, and them only, at their paths without its name. */
  lemma NestedMeaning(t: Tree, n: string, p: Path)
    ensures p in Nested(t, n) <==> p != [] && [n] + p in t
    ensures p in Nested(t, n) ==> Nested(t, n)[p] == t[[n] + p]
  {
    TailIsPath(t, n, p);
  }
}
