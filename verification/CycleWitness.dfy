/** `findCycleWitness`, the depth-first search that prints one cycle of a reported component,
    and the verdict of `main`. */
module CycleWitness {
  import opened ImportGraph
  import ImportCycles

  function Keep(s: seq<File>, members: set<File>): (r: seq<File>)
    ensures forall x :: x in r <==> x in s && x in members
  {
    if s == [] then []
    else (if s[0] in members then [s[0]] else []) + Keep(s[1..], members)
  }

  /** The graph with only the edges into `members`, which are the edges the search follows. */
  ghost function Restrict(g: Graph, members: set<File>): Graph {
    map k | k in g :: Keep(g[k], members)
  }

  /** The first position of `x`, or -1. */
  function IndexOf(s: seq<File>, x: File): (i: int)
    ensures i == -1 <==> x !in s
    ensures i != -1 ==> 0 <= i < |s| && s[i] == x && x !in s[..i]
  {
    if s == [] then -1
    else if s[0] == x then 0
    else
      var rest := IndexOf(s[1..], x);
      if rest == -1 then -1
      else
        assert s[..rest + 1] == [s[0]] + s[1..][..rest];
        rest + 1
  }

  /** A closed walk along edges whose files are distinct apart from the repeated endpoint. */
  ghost predicate IsCycle(g: Graph, r: seq<File>) {
    && |r| >= 2
    && IsWalk(g, r)
    && r[0] == r[|r| - 1]
    && Distinct(r[..|r| - 1])
  }

  /** The files are listed so that each imports only files before it. */
  ghost predicate ImportsEarlier(g: Graph, finished: seq<File>) {
    forall i, w | 0 <= i < |finished| && Edge(g, finished[i], w) :: w in finished[..i]
  }

  ghost predicate CycleReachable(g: Graph, start: File) {
    exists v :: Reach(g, start, v) && OnCycle(g, v)
  }

  lemma {:induction false} WalkGoesEarlier(g: Graph, finished: seq<File>, p: seq<File>, k: nat, i: nat)
    requires ImportsEarlier(g, finished) && IsWalk(g, p) && k < |p|
    requires i < |finished| && p[0] == finished[i]
    ensures p[k] in finished[..i + 1]
  {
    if k > 0 {
      WalkGoesEarlier(g, finished, p, k - 1, i);
      var j :| 0 <= j < i + 1 && finished[j] == p[k - 1];
      assert Edge(g, finished[j], p[k]);
      assert p[k] in finished[..j];
    }
  }

  lemma ReachGoesEarlier(g: Graph, finished: seq<File>, i: nat, b: File)
    requires ImportsEarlier(g, finished) && i < |finished| && Reach(g, finished[i], b)
    ensures b in finished[..i + 1]
  {
    var p :| IsPath(g, p, finished[i], b);
    WalkGoesEarlier(g, finished, p, |p| - 1, i);
  }

  /** A listing in which every file imports only earlier files rules out cycles below it. */
  lemma NoCycleBelow(g: Graph, finished: seq<File>, start: File)
    requires ImportsEarlier(g, finished) && Distinct(finished) && start in finished
    ensures !CycleReachable(g, start)
  {
    if v :| Reach(g, start, v) && OnCycle(g, v) {
      var s :| 0 <= s < |finished| && finished[s] == start;
      ReachGoesEarlier(g, finished, s, v);
      var i :| 0 <= i < s + 1 && finished[i] == v;
      var w :| Edge(g, v, w) && Reach(g, w, v);
      var j :| 0 <= j < i && finished[j] == w;
      ReachGoesEarlier(g, finished, j, v);
      assert false;
    }
  }

  /** What a successful search returns: a cycle inside `members` that `start` leads to. */
  ghost predicate Found(g: Graph, members: set<File>, start: File, cycle: seq<File>) {
    IsCycle(g, cycle) && ToSet(cycle) <= members && CycleReachable(g, start)
  }

  lemma ClosedWalkOnCycle(g: Graph, r: seq<File>)
    requires IsWalk(g, r) && |r| >= 2 && r[0] == r[|r| - 1]
    ensures OnCycle(g, r[0])
  {
    var rest := r[1..];
    forall i, j | 0 <= i < j < |rest| && j == i + 1
      ensures Edge(g, rest[i], rest[j])
    {
      assert rest[i] == r[i + 1] && rest[j] == r[j + 1];
    }
    assert IsPath(g, rest, r[1], r[0]);
    assert Edge(g, r[0], r[1]);
  }

  lemma CloseCycle(g: Graph, path: seq<File>, k: nat, next: File)
    requires IsWalk(g, path) && Distinct(path) && k < |path| && path[k] == next
    requires Edge(g, path[|path| - 1], next)
    ensures IsCycle(g, path[k..] + [next])
  {
    var r := path[k..] + [next];
    assert r[..|r| - 1] == path[k..];
    forall i, j | 0 <= i < j < |r| && j == i + 1
      ensures Edge(g, r[i], r[j])
    {
      if j < |r| - 1 {
        assert r[i] == path[k + i] && r[j] == path[k + j];
      }
    }
  }

  lemma BackEdgeFound(g: Graph, members: set<File>, path: seq<File>, k: nat, next: File)
    requires IsWalk(g, path) && Distinct(path) && k < |path| && path[k] == next
    requires Edge(g, path[|path| - 1], next) && ToSet(path) <= members
    ensures Found(g, members, path[0], path[k..] + [next])
  {
    CloseCycle(g, path, k, next);
    ClosedWalkOnCycle(g, path[k..] + [next]);
    assert IsPath(g, path[..k + 1], path[0], next);
    var r := path[k..] + [next];
    forall x | x in r
      ensures x in members
    {
      assert x in path;
    }
  }

  /** The path under exploration and the files given up on never overlap or repeat. */
  ghost predicate Apart(path: seq<File>, finished: seq<File>) {
    && Distinct(path) && Distinct(finished)
    && forall x | x in path :: x !in finished
  }

  lemma PushKeepsWalk(g: Graph, path: seq<File>, node: File)
    requires path != [] ==> IsWalk(g, path) && Edge(g, path[|path| - 1], node)
    ensures IsWalk(g, path + [node])
  {}

  lemma PopKeepsWalk(g: Graph, path: seq<File>)
    requires IsWalk(g, path)
    ensures |path| > 1 ==> IsWalk(g, path[..|path| - 1])
  {}

  lemma PopKeepsApart(path: seq<File>, finished: seq<File>)
    requires Apart(path, finished) && path != []
    ensures Apart(path[..|path| - 1], finished + [path[|path| - 1]])
    ensures ToSet(path) + ToSet(finished) == ToSet(path[..|path| - 1]) + ToSet(finished + [path[|path| - 1]])
  {
    var last := path[|path| - 1];
    var shorter := path[..|path| - 1];
    assert path == shorter + [last];
    assert last !in shorter && last !in finished;
    forall x
      ensures x in finished + [last] <==> x in finished || x == last
    {}
  }

  lemma PopKeepsOrder(g: Graph, finished: seq<File>, node: File)
    requires ImportsEarlier(g, finished) && forall w | Edge(g, node, w) :: w in finished
    ensures ImportsEarlier(g, finished + [node])
  {
    var longer := finished + [node];
    forall i, w | 0 <= i < |longer| && Edge(g, longer[i], w)
      ensures w in longer[..i]
    {
      if i < |finished| {
        assert Edge(g, finished[i], w);
        assert longer[..i] == finished[..i];
      } else {
        assert longer[..i] == finished;
      }
    }
  }

  class WitnessSearch {
    const graph: Graph
    const members: set<File>
    ghost const inside: Graph
    var activePath: seq<File>
    var visited: set<File>
    ghost var finished: seq<File>

    ghost predicate Valid()
      reads this
    {
      && (forall a, b :: Edge(inside, a, b) <==> Edge(graph, a, b) && b in members)
      && (activePath != [] ==> IsWalk(inside, activePath))
      && Apart(activePath, finished)
      && visited == ToSet(activePath) + ToSet(finished)
      && visited <= members
      && ImportsEarlier(inside, finished)
    }

    constructor (graph: Graph, members: set<File>)
      ensures Valid() && activePath == [] && visited == {} && finished == []
      ensures this.graph == graph && this.members == members && inside == Restrict(graph, members)
    {
      this.graph, this.members, inside := graph, members, Restrict(graph, members);
      activePath, visited, finished := [], {}, [];
    }

    method Visit(node: File) returns (found: bool, cycle: seq<File>)
      requires Valid() && node in members && node !in visited
      requires activePath != [] ==> Edge(inside, activePath[|activePath| - 1], node)
      modifies this
      ensures found ==> Found(inside, members, (old(activePath) + [node])[0], cycle)
      ensures !found ==> Valid() && activePath == old(activePath) && node in finished
      ensures !found ==> old(finished) <= finished && old(visited) <= visited
      decreases members - visited, 0
    {
      Push(node);
      var i := 0;
      while i < |Successors(graph, node)|
        invariant i <= |Successors(graph, node)| && Valid() && activePath == old(activePath) + [node]
        invariant old(finished) <= finished && old(visited) + {node} <= visited
        invariant forall j | 0 <= j < i && Successors(graph, node)[j] in members ::
                    Successors(graph, node)[j] in finished
      {
        if Successors(graph, node)[i] in members {
          found, cycle := Follow(node, Successors(graph, node)[i]);
          if found {
            return;
          }
        }
        i := i + 1;
      }
      Pop(node);
      return false, [];
    }

    /** One round of the visit's loop, for an import inside the component. */
    method Follow(node: File, next: File) returns (found: bool, cycle: seq<File>)
      requires Valid() && activePath != [] && activePath[|activePath| - 1] == node
      requires next in Successors(graph, node) && next in members
      modifies this
      ensures found ==> Found(inside, members, old(activePath)[0], cycle)
      ensures !found ==> Valid() && activePath == old(activePath) && next in finished
      ensures !found ==> old(finished) <= finished && old(visited) <= visited
      decreases members - visited, 1
    {
      assert Edge(inside, node, next);
      var existingIndex := IndexOf(activePath, next);
      if existingIndex >= 0 {
        BackEdgeFound(inside, members, activePath, existingIndex, next);
        return true, activePath[existingIndex..] + [next];
      }
      found, cycle := false, [];
      if next !in visited {
        found, cycle := Visit(next);
      }
    }

    method Push(node: File)
      requires Valid() && node in members && node !in visited
      requires activePath != [] ==> Edge(inside, activePath[|activePath| - 1], node)
      modifies `activePath, `visited
      ensures Valid() && activePath == old(activePath) + [node] && visited == old(visited) + {node}
    {
      PushKeepsWalk(inside, activePath, node);
      activePath := activePath + [node];
      visited := visited + {node};
    }

    method Pop(node: File)
      requires Valid() && activePath != [] && activePath[|activePath| - 1] == node
      requires forall w | w in Successors(graph, node) && w in members :: w in finished
      modifies `activePath, `finished
      ensures Valid() && activePath == old(activePath)[..|old(activePath)| - 1]
      ensures finished == old(finished) + [node]
    {
      PopKeepsWalk(inside, activePath);
      PopKeepsApart(activePath, finished);
      PopKeepsOrder(inside, finished, node);
      activePath := activePath[..|activePath| - 1];
      finished := finished + [node];
    }
  }

  /** The printed cycle. The fallback to the component is taken exactly when no cycle inside the
      component can be reached from its first file. */
  method FindCycleWitness(component: seq<File>, graph: Graph) returns (printed: seq<File>)
    ensures component == [] || Falsy(component[0]) ==> printed == []
    ensures component != [] && !Falsy(component[0]) ==>
              if CycleReachable(Restrict(graph, ToSet(component)), component[0])
              then Found(Restrict(graph, ToSet(component)), ToSet(component), component[0], printed)
              else printed == component
  {
    if component == [] || Falsy(component[0]) {
      return [];
    }
    var search := new WitnessSearch(graph, ToSet(component));
    var found;
    found, printed := search.Visit(component[0]);
    if !found {
      NoCycleBelow(search.inside, search.finished, component[0]);
      printed := component;
    }
  }

  /** A path between two files of a strongly connected component never leaves it. */
  lemma PathInsideScc(g: Graph, c: set<File>, p: seq<File>, k: nat)
    requires IsScc(g, c) && IsWalk(g, p) && p[0] in c && p[|p| - 1] in c && k < |p|
    ensures p[k] in c
  {
    assert IsPath(g, p[..k + 1], p[0], p[k]);
    assert IsPath(g, p[k..], p[k], p[|p| - 1]);
    ReachTrans(g, p[k], p[|p| - 1], p[0]);
  }

  lemma SccReachInside(g: Graph, c: set<File>, a: File, b: File)
    requires IsScc(g, c) && a in c && b in c
    ensures Reach(Restrict(g, c), a, b)
  {
    var p :| IsPath(g, p, a, b);
    var inside := Restrict(g, c);
    forall i, j | 0 <= i < j < |p| && j == i + 1
      ensures Edge(inside, p[i], p[j])
    {
      PathInsideScc(g, c, p, j);
      assert Edge(g, p[i], p[j]);
    }
    assert IsPath(inside, p, a, b);
  }

  /** In a reported component the search always finds a cycle. */
  lemma ReportedCycleReachable(g: Graph, c: seq<File>)
    requires ImportCycles.ReportsCycle(g, c) && c != []
    ensures CycleReachable(Restrict(g, ToSet(c)), c[0])
  {
    var inside := Restrict(g, ToSet(c));
    SccOnCycle(g, ToSet(c), c[0]);
    var w :| w in ToSet(c) && Edge(g, c[0], w);
    assert Edge(inside, c[0], w);
    SccReachInside(g, ToSet(c), w, c[0]);
    assert OnCycle(inside, c[0]);
    ReachRefl(inside, c[0]);
  }

  lemma CycleOfWholeGraph(g: Graph, members: set<File>, r: seq<File>)
    requires IsCycle(Restrict(g, members), r)
    ensures IsCycle(g, r)
  {
    var inside := Restrict(g, members);
    forall i, j | 0 <= i < j < |r| && j == i + 1
      ensures Edge(g, r[i], r[j])
    {
      assert Edge(inside, r[i], r[j]);
    }
  }

  /** Each witness is a real import cycle inside its component. */
  ghost predicate WitnessesFor(g: Graph, components: seq<seq<File>>, witnesses: seq<seq<File>>) {
    && |witnesses| == |components|
    && forall i | 0 <= i < |witnesses| ::
         IsCycle(g, witnesses[i]) && ToSet(witnesses[i]) <= ToSet(components[i])
  }

  /** `main`: exit code 0 exactly when no file lies on an import cycle; otherwise every reported
      component is printed as a real cycle. Throws exactly when the graph names the empty path. */
  method CheckImportCycles(graph: Graph, keys: seq<File>)
    returns (thrown: bool, exitCode: int, components: seq<seq<File>>, witnesses: seq<seq<File>>)
    requires ToSet(keys) == graph.Keys
    ensures thrown <==> exists f | f in Nodes(graph) :: Falsy(f)
    ensures !thrown ==> (exitCode == 0 <==> forall v | v in Nodes(graph) :: !OnCycle(graph, v))
    ensures !thrown ==> exitCode == 0 || exitCode == 1
    ensures !thrown ==> ImportCycles.ReportFor(graph, Nodes(graph), components)
    ensures !thrown ==> WitnessesFor(graph, components, witnesses)
  {
    witnesses := [];
    thrown, components := ImportCycles.CollectStronglyConnectedComponents(graph, keys);
    if thrown {
      return true, 1, [], [];
    }
    ImportCycles.EmptyReportIffAcyclic(graph, components);
    exitCode := if components == [] then 0 else 1;
    ReportIsPrintable(graph, components);
    witnesses := PrintAll(graph, components);
  }

  ghost predicate Printable(g: Graph, c: seq<File>) {
    c != [] && !Falsy(c[0]) && ImportCycles.ReportsCycle(g, c)
  }

  lemma ReportIsPrintable(g: Graph, components: seq<seq<File>>)
    requires ImportCycles.AllReportCycles(g, Nodes(g), components)
    requires forall f | f in Nodes(g) :: !Falsy(f)
    ensures forall c | c in components :: Printable(g, c)
  {
    forall c | c in components
      ensures Printable(g, c)
    {
      var v :| v in ToSet(c);
      assert c[0] in ToSet(c) && ToSet(c) <= Nodes(g);
    }
  }

  method PrintAll(graph: Graph, components: seq<seq<File>>) returns (witnesses: seq<seq<File>>)
    requires forall c | c in components :: Printable(graph, c)
    ensures WitnessesFor(graph, components, witnesses)
  {
    witnesses := [];
    while |witnesses| < |components|
      invariant |witnesses| <= |components|
      invariant WitnessesFor(graph, components[..|witnesses|], witnesses)
    {
      var printed := PrintOne(graph, components[|witnesses|]);
      witnesses := witnesses + [printed];
    }
    assert components[..|witnesses|] == components;
  }

  /** For a reported component the fallback is never taken. */
  method PrintOne(graph: Graph, component: seq<File>) returns (printed: seq<File>)
    requires Printable(graph, component)
    ensures IsCycle(graph, printed) && ToSet(printed) <= ToSet(component)
  {
    ReportedCycleReachable(graph, component);
    printed := FindCycleWitness(component, graph);
    CycleOfWholeGraph(graph, ToSet(component), printed);
  }
}
