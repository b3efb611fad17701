/** The graph both import tools walk: every file maps to the list of files it imports.
    Reachability and closed sets are defined here once for the whole project. */
module ImportGraph {
  import opened Sets

  /** A repository-relative file path. A JavaScript string is falsy exactly when it is empty. */
  datatype File = File(path: string)

  type Graph = map<File, seq<File>>

  predicate Falsy(f: File) {
    f.path == ""
  }

  /** A file that the graph does not list has no imports. */
  function Successors(g: Graph, f: File): seq<File> {
    if f in g then g[f] else []
  }

  predicate Edge(g: Graph, a: File, b: File) {
    b in Successors(g, a)
  }

  function Nodes(g: Graph): set<File> {
    g.Keys + set k, w | k in g && w in g[k] :: w
  }

  function ToSet(s: seq<File>): set<File> {
    set x | x in s
  }

  predicate Distinct(s: seq<File>) {
    forall i, j | 0 <= i < j < |s| :: s[i] != s[j]
  }

  ghost predicate IsWalk(g: Graph, p: seq<File>) {
    && |p| > 0
    && forall i, j | 0 <= i < j < |p| && j == i + 1 :: Edge(g, p[i], p[j])
  }

  ghost predicate IsPath(g: Graph, p: seq<File>, a: File, b: File) {
    IsWalk(g, p) && p[0] == a && p[|p| - 1] == b
  }

  ghost predicate Reach(g: Graph, a: File, b: File) {
    exists p :: IsPath(g, p, a, b)
  }

  /** `v` lies on a cycle, self-loops included. */
  ghost predicate OnCycle(g: Graph, v: File) {
    exists w :: Edge(g, v, w) && Reach(g, w, v)
  }

  /** A strongly connected component: nonempty, and membership is mutual reachability. */
  ghost predicate IsScc(g: Graph, c: set<File>) {
    && c != {}
    && (forall a, b | a in c && b in c :: Reach(g, a, b))
    && (forall a, b | a in c && Reach(g, a, b) && Reach(g, b, a) :: b in c)
  }

  ghost predicate Closed(g: Graph, s: set<File>) {
    forall v, w | v in s && Edge(g, v, w) :: w in s
  }

  lemma ReachRefl(g: Graph, a: File)
    ensures Reach(g, a, a)
  {
    assert IsPath(g, [a], a, a);
  }

  lemma ReachEdge(g: Graph, a: File, b: File)
    requires Edge(g, a, b)
    ensures Reach(g, a, b)
  {
    assert IsPath(g, [a, b], a, b);
  }

  lemma ReachTrans(g: Graph, a: File, b: File, c: File)
    requires Reach(g, a, b) && Reach(g, b, c)
    ensures Reach(g, a, c)
  {
    var p :| IsPath(g, p, a, b);
    var q :| IsPath(g, q, b, c);
    var r := p + q[1..];
    forall i, j | 0 <= i < j < |r| && j == i + 1
      ensures Edge(g, r[i], r[j])
    {
      if j < |p| {
        assert r[i] == p[i] && r[j] == p[j];
      } else {
        assert r[i] == q[i - |p| + 1] && r[j] == q[j - |p| + 1];
      }
    }
    assert IsPath(g, r, a, c);
  }

  lemma {:induction false} PathStaysInClosedSet(g: Graph, s: set<File>, p: seq<File>, k: nat)
    requires Closed(g, s) && IsWalk(g, p) && p[0] in s && k < |p|
    ensures p[k] in s
  {
    if k > 0 {
      PathStaysInClosedSet(g, s, p, k - 1);
      assert Edge(g, p[k - 1], p[k]);
    }
  }

  lemma ReachStaysInClosedSet(g: Graph, s: set<File>, a: File, b: File)
    requires Closed(g, s) && a in s && Reach(g, a, b)
    ensures b in s
  {
    var p :| IsPath(g, p, a, b);
    PathStaysInClosedSet(g, s, p, |p| - 1);
  }

  /** Two components that share a node are the same component. */
  lemma SccsDisjointOrEqual(g: Graph, c: set<File>, d: set<File>, x: File)
    requires IsScc(g, c) && IsScc(g, d) && x in c && x in d
    ensures c == d
  {
    forall y
      ensures y in c <==> y in d
    {
      assert y in c ==> Reach(g, x, y) && Reach(g, y, x);
      assert y in d ==> Reach(g, x, y) && Reach(g, y, x);
    }
  }

  /** A component reports a cycle exactly when it has two nodes or a self-loop. */
  lemma SccOnCycle(g: Graph, c: set<File>, v: File)
    requires IsScc(g, c) && v in c
    ensures OnCycle(g, v) <==> (|c| > 1 || Edge(g, v, v))
    ensures OnCycle(g, v) ==> exists w | w in c :: Edge(g, v, w)
  {
    if OnCycle(g, v) {
      var w :| Edge(g, v, w) && Reach(g, w, v);
      ReachEdge(g, v, w);
      assert w in c;
      if w != v {
        assert {v, w} <= c;
        SubsetSize({v, w}, c);
      }
    }
    if Edge(g, v, v) {
      ReachRefl(g, v);
    } else if |c| > 1 {
      if c - {v} == {} {
        SubsetSize(c, {v});
        assert false;
      }
      var u :| u in c - {v};
      var p :| IsPath(g, p, v, u);
      assert Edge(g, p[0], p[1]);
      assert IsPath(g, p[1..], p[1], u);
      ReachTrans(g, p[1], u, v);
      assert Edge(g, v, p[1]) && Reach(g, p[1], v);
    }
  }
}
