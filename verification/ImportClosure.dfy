/** The worklist that collects an entry's relative import graph, and the loop that finds a common
    ancestor directory. Reading and resolving imports is given as the import graph. */
module ImportClosure {
  import opened ImportGraph
  import opened Wrappers

  // ---- collectRelativeImportGraph ----

  /** Resolved imports are existing files, and no existing file has an empty path. */
  ghost predicate Resolved(g: Graph) {
    && (forall f, w | Edge(g, f, w) :: w in g)
    && (forall f | f in g :: !Falsy(f))
  }

  /** Everything discovered or queued is reachable, and nothing an import leads to is forgotten. */
  ghost predicate Explored(g: Graph, entry: File, discovered: set<File>, queue: seq<File>) {
    && (forall f | f in discovered :: Reach(g, entry, f))
    && (forall f | f in queue :: f in g && Reach(g, entry, f))
    && (forall f, w | f in discovered && Edge(g, f, w) :: w in discovered || w in queue)
    && (entry in discovered || entry in queue)
    && discovered <= g.Keys
  }

  lemma PushKeepsExplored(g: Graph, entry: File, discovered: set<File>, queue: seq<File>, f: File)
    requires Resolved(g) && f in g && Reach(g, entry, f)
    requires Explored(g, entry, discovered, queue + [f])
    ensures Explored(g, entry, discovered + {f}, queue + g[f])
  {
    forall w | w in queue + g[f]
      ensures w in g && Reach(g, entry, w)
    {
      if w in queue {
        assert w in queue + [f];
      } else {
        assert Edge(g, f, w);
        ReachEdge(g, f, w);
        ReachTrans(g, entry, f, w);
      }
    }
    forall v, w | v in discovered + {f} && Edge(g, v, w)
      ensures w in discovered + {f} || w in queue + g[f]
    {
      if v != f {
        assert w in discovered || w in queue + [f];
      }
    }
  }

  lemma PopKeepsExplored(g: Graph, entry: File, discovered: set<File>, queue: seq<File>, f: File)
    requires f in discovered && Explored(g, entry, discovered, queue + [f])
    ensures Explored(g, entry, discovered, queue)
  {
    forall w | w in queue
      ensures w in g && Reach(g, entry, w)
    {
      assert w in queue + [f];
    }
    forall v, w | v in discovered && Edge(g, v, w)
      ensures w in discovered || w in queue
    {
      assert w in discovered || w in queue + [f];
    }
    assert entry in discovered || entry in queue + [f];
  }

  /** Reading the entry throws exactly when it does not exist; otherwise the result is exactly the
      files reachable from the entry. */
  method CollectRelativeImportGraph(g: Graph, entry: File) returns (thrown: bool, discovered: set<File>)
    requires Resolved(g) && !Falsy(entry)
    ensures thrown <==> entry !in g
    ensures !thrown ==> forall f :: f in discovered <==> Reach(g, entry, f)
  {
    discovered := {};
    if entry !in g {
      return true, {};
    }
    var queue := [entry];
    ReachRefl(g, entry);
    while |queue| > 0
      invariant Explored(g, entry, discovered, queue)
      decreases g.Keys - discovered, |queue|
    {
      var currentPath := queue[|queue| - 1];
      var rest := queue[..|queue| - 1];
      assert queue == rest + [currentPath];
      assert currentPath in queue;
      queue := rest;
      if Falsy(currentPath) || currentPath in discovered {
        PopKeepsExplored(g, entry, discovered, rest, currentPath);
        continue;
      }
      PushKeepsExplored(g, entry, discovered, rest, currentPath);
      discovered := discovered + {currentPath};
      for i := 0 to |g[currentPath]|
        invariant queue == rest + g[currentPath][..i]
      {
        queue := queue + [g[currentPath][i]];
      }
      assert g[currentPath][..|g[currentPath]|] == g[currentPath];
    }
    forall f | Reach(g, entry, f)
      ensures f in discovered
    {
      ReachStaysInClosedSet(g, discovered, entry, f);
    }
    thrown := false;
  }

  // ---- resolveCommonAncestor ----

  /** An absolute, normalised path as the list of its segments. */
  type Path = seq<string>

  /** How many leading segments two paths share. */
  function SharedLength(a: Path, b: Path): (k: nat)
    ensures k <= |a| && k <= |b|
    ensures a[..k] == b[..k]
    ensures k < |a| && k < |b| ==> a[k] != b[k]
  {
    if a == [] || b == [] || a[0] != b[0] then 0
    else
      var k := SharedLength(a[1..], b[1..]);
      assert a[..k + 1] == [a[0]] + a[1..][..k] && b[..k + 1] == [b[0]] + b[1..][..k];
      k + 1
  }

  function Shared(a: Path, b: Path): (p: Path)
    ensures p <= a && p <= b
  {
    a[..SharedLength(a, b)]
  }

  /** The relative path from the ancestor to the candidate starts with a step up and goes on after it. */
  predicate ClimbsOut(ancestor: Path, candidate: Path) {
    var k := SharedLength(ancestor, candidate);
    |ancestor| - k >= 1 && (|ancestor| - k) + (|candidate| - k) >= 2
  }

  /** Where the inner loop stops. A relative path of just ".." does not count as climbing out. */
  function Narrowed(ancestor: Path, candidate: Path): Path {
    if candidate < ancestor then ancestor[..|candidate| + 1] else Shared(ancestor, candidate)
  }

  function Ancestor(first: Path, rest: seq<Path>): Path {
    if rest == [] then first else Narrowed(Ancestor(first, rest[..|rest| - 1]), rest[|rest| - 1])
  }

  function CommonPrefix(first: Path, rest: seq<Path>): Path {
    if rest == [] then first else Shared(CommonPrefix(first, rest[..|rest| - 1]), rest[|rest| - 1])
  }

  method NarrowTo(ancestor0: Path, candidate: Path) returns (ancestor: Path)
    ensures ancestor == Narrowed(ancestor0, candidate)
  {
    ancestor := ancestor0;
    ghost var k := SharedLength(ancestor0, candidate);
    while ClimbsOut(ancestor, candidate)
      invariant k <= |ancestor| && ancestor <= ancestor0
      invariant candidate < ancestor0 ==> candidate < ancestor
      decreases |ancestor|
    {
      SharedOfPrefix(ancestor0, ancestor, candidate);
      // The parent differs from the directory itself: the search never stops at the root.
      assert |ancestor| > 0;
      ancestor := ancestor[..|ancestor| - 1];
    }
    SharedOfPrefix(ancestor0, ancestor, candidate);
  }

  lemma SharedUnique(a: Path, b: Path, k: nat)
    requires k <= |a| && k <= |b| && a[..k] == b[..k]
    requires k < |a| && k < |b| ==> a[k] != b[k]
    ensures SharedLength(a, b) == k
  {
    var j := SharedLength(a, b);
    assert forall i | 0 <= i < k :: a[i] == a[..k][i] && b[i] == b[..k][i];
    assert forall i | 0 <= i < j :: a[i] == a[..j][i] && b[i] == b[..j][i];
  }

  /** Cutting a path above its shared part leaves the shared part alone. */
  lemma SharedOfPrefix(a: Path, cut: Path, b: Path)
    requires cut <= a && SharedLength(a, b) <= |cut|
    ensures SharedLength(cut, b) == SharedLength(a, b)
  {
    var k := SharedLength(a, b);
    assert cut[..k] == a[..k];
    SharedUnique(cut, b, k);
  }

  method ResolveCommonAncestor(paths: seq<Path>) returns (ancestor: Option<Path>)
    ensures ancestor.None? <==> paths == []
    ensures ancestor.Some? ==> ancestor.value == Ancestor(paths[0], paths[1..])
  {
    if paths == [] {
      return None;
    }
    var rest := paths[1..];
    var current := paths[0];
    for i := 0 to |rest|
      invariant current == Ancestor(paths[0], rest[..i])
    {
      current := NarrowTo(current, rest[i]);
      assert rest[..i + 1][..i] == rest[..i];
    }
    assert rest[..|rest|] == rest;
    return Some(current);
  }

  // ---- When the result is the longest common prefix ----

  ghost predicate IsCommonPrefix(p: Path, first: Path, rest: seq<Path>) {
    p <= first && forall c | c in rest :: p <= c
  }

  lemma SharedIsLongest(a: Path, b: Path, p: Path)
    requires p <= a && p <= b
    ensures p <= Shared(a, b)
  {
    assert forall i | 0 <= i < |p| :: a[i] == p[i] && b[i] == p[i];
  }

  lemma {:induction false} CommonPrefixIsLongest(first: Path, rest: seq<Path>)
    ensures IsCommonPrefix(CommonPrefix(first, rest), first, rest)
    ensures forall p | IsCommonPrefix(p, first, rest) :: p <= CommonPrefix(first, rest)
    decreases |rest|
  {
    if rest != [] {
      var before := rest[..|rest| - 1];
      var last := rest[|rest| - 1];
      CommonPrefixIsLongest(first, before);
      forall c | c in rest
        ensures CommonPrefix(first, rest) <= c
      {
        if c != last {
          assert c in before;
          assert CommonPrefix(first, before) <= c;
        }
      }
      forall p | IsCommonPrefix(p, first, rest)
        ensures p <= CommonPrefix(first, rest)
      {
        assert last in rest;
        forall c | c in before
          ensures p <= c
        {
          assert c in rest;
        }
        assert IsCommonPrefix(p, first, before);
        SharedIsLongest(CommonPrefix(first, before), last, p);
      }
    }
  }

  /** `c` is the prefix `p` itself or goes on into the same child of `p` as `first`. */
  predicate SameChild(first: Path, p: Path, c: Path) {
    |p| < |first| && (c == p || (|c| > |p| && c[..|p| + 1] == first[..|p| + 1]))
  }

  /** The prefix `p` is one of the later paths, and every other path lies in one child of it. */
  ghost predicate OvershootsAt(first: Path, rest: seq<Path>, p: Path) {
    && p < first && p in rest
    && forall c | c in rest :: SameChild(first, p, c)
  }

  /** Narrowing by a path that diverges: nothing overshoots any more. */
  lemma Diverging(first: Path, rest: seq<Path>, p: Path, c: Path)
    requires c in rest && p < first && p <= c && |c| > |p| && c[|p|] != first[|p|]
    ensures !OvershootsAt(first, rest, p)
  {
    assert c[..|p| + 1][|p|] != first[..|p| + 1][|p|];
    assert !SameChild(first, p, c);
  }

  /** Narrowing by a proper prefix of everything so far: the ancestor stops one level too deep. */
  lemma Overshooting(first: Path, before: seq<Path>, p: Path, c: Path)
    requires IsCommonPrefix(p, first, before) && c < p
    ensures OvershootsAt(first, before + [c], c)
  {
    forall d | d in before + [c]
      ensures SameChild(first, c, d)
    {
      if d != c {
        assert p <= d;
        assert d[..|c| + 1] == p[..|c| + 1] == first[..|c| + 1];
      }
    }
  }

  /** If `p` is the longest common prefix of all paths so far and none of them is `p`, some path
      leaves the child of `p` that `first` lies in; `c` at or below `p` decides for the longer list. */
  lemma StillFine(first: Path, before: seq<Path>, p: Path, c: Path)
    requires IsCommonPrefix(p, first, before) && p <= c
    requires forall q | IsCommonPrefix(q, first, before) :: q <= p
    requires !OvershootsAt(first, before, p)
    ensures !OvershootsAt(first, before + [c], p)
  {
    if OvershootsAt(first, before + [c], p) {
      forall d | d in before
        ensures SameChild(first, p, d)
      {
        assert d in before + [c];
      }
      assert p !in before;
      var q := first[..|p| + 1];
      forall d | d in before
        ensures q <= d
      {
        assert SameChild(first, p, d) && d != p;
      }
      assert IsCommonPrefix(q, first, before);
    }
  }

  lemma StillOvershoots(first: Path, before: seq<Path>, p: Path, c: Path)
    requires OvershootsAt(first, before, p)
    ensures OvershootsAt(first, before + [c], p) <==> SameChild(first, p, c)
  {
    assert c in before + [c];
  }

  /** The ancestor is the longest common prefix, or one segment more exactly when the longest
      common prefix is itself listed after the first path and all other paths share one child of it. */
  lemma {:induction false} AncestorExactly(first: Path, rest: seq<Path>)
    ensures var p := CommonPrefix(first, rest);
            Ancestor(first, rest) == if OvershootsAt(first, rest, p) then first[..|p| + 1] else p
    decreases |rest|
  {
    if rest != [] {
      var before := rest[..|rest| - 1];
      var c := rest[|rest| - 1];
      assert rest == before + [c];
      AncestorExactly(first, before);
      CommonPrefixIsLongest(first, before);
      AncestorStep(first, before, c);
    }
  }

  lemma AncestorStep(first: Path, before: seq<Path>, c: Path)
    requires var p := CommonPrefix(first, before);
             && IsCommonPrefix(p, first, before)
             && (forall q | IsCommonPrefix(q, first, before) :: q <= p)
             && Ancestor(first, before) == if OvershootsAt(first, before, p) then first[..|p| + 1] else p
    ensures var p := Shared(CommonPrefix(first, before), c);
            Narrowed(Ancestor(first, before), c)
            == if OvershootsAt(first, before + [c], p) then first[..|p| + 1] else p
  {
    var p := CommonPrefix(first, before);
    var a := Ancestor(first, before);
    if c < p {
      Overshooting(first, before, p, c);
      assert Shared(p, c) == c by {
        SharedUnique(p, c, |c|);
      }
    } else if p <= c {
      assert Shared(p, c) == p by {
        SharedUnique(p, c, |p|);
      }
      StepAtOrBelow(first, before, p, a, c);
    } else {
      StepDiverging(first, before, p, a, c);
    }
  }

  lemma StepAtOrBelow(first: Path, before: seq<Path>, p: Path, a: Path, c: Path)
    requires IsCommonPrefix(p, first, before) && (forall q | IsCommonPrefix(q, first, before) :: q <= p)
    requires a == if OvershootsAt(first, before, p) then first[..|p| + 1] else p
    requires p <= c
    ensures Narrowed(a, c) == if OvershootsAt(first, before + [c], p) then first[..|p| + 1] else p
  {
    if OvershootsAt(first, before, p) {
      StillOvershoots(first, before, p, c);
      if c != p {
        if c[|p|] == first[|p|] {
          assert c[..|p| + 1] == first[..|p| + 1];
          SharedUnique(a, c, |p| + 1);
        } else {
          SharedUnique(a, c, |p|);
          Diverging(first, before + [c], p, c);
        }
      }
    } else {
      StillFine(first, before, p, c);
      SharedUnique(a, c, |p|);
    }
  }

  lemma StepDiverging(first: Path, before: seq<Path>, p: Path, a: Path, c: Path)
    requires p <= first && !(p <= c) && !(c < p)
    requires a == p || (|p| < |first| && a == first[..|p| + 1])
    ensures Narrowed(a, c) == Shared(p, c) && !OvershootsAt(first, before + [c], Shared(p, c))
  {
    var k := SharedLength(p, c);
    assert k < |p| && k < |c|;
    SharedOfPrefix(a, p, c) by {
      SharedUnique(a, c, k);
    }
    assert Shared(p, c) == first[..k];
    Diverging(first, before + [c], Shared(p, c), c);
  }

  /** The loop returns the longest common prefix exactly when it does not overshoot. */
  lemma AncestorIsLongestIff(first: Path, rest: seq<Path>)
    ensures Ancestor(first, rest) == CommonPrefix(first, rest)
            <==> !OvershootsAt(first, rest, CommonPrefix(first, rest))
  {
    AncestorExactly(first, rest);
  }

  /** A concrete pair of paths for which the loop stops below the common prefix. */
  lemma ParentListedSecond()
    ensures Ancestor(["src", "ui"], [["src"]]) == ["src", "ui"]
    ensures CommonPrefix(["src", "ui"], [["src"]]) == ["src"]
  {
    var first := ["src", "ui"];
    assert [["src"]][..0] == [];
    assert ["src"] < first;
    SharedUnique(first, ["src"], 1);
  }
}
