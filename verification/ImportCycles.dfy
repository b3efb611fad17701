/** Tarjan's algorithm as `collectStronglyConnectedComponents` writes it: a recursive visit over
    mutable maps and a stack. The search state is abstracted to a value, the invariant is a
    predicate on that value, and each kind of step is proved to keep it. */
module ImportCycles {
  import opened Arrangements
  import opened ImportGraph

  /** What the invariant speaks about: visit indices, the stack, and the calls still running. */
  datatype Search = Search(index: map<File, nat>, stack: seq<File>, running: set<File>) {
    ghost function Done(): set<File> {
      index.Keys - ToSet(stack)
    }
  }

  ghost predicate StackOrdered(s: Search) {
    && (forall i | 0 <= i < |s.stack| :: s.stack[i] in s.index)
    && (forall i, j | 0 <= i < j < |s.stack| :: s.index[s.stack[i]] < s.index[s.stack[j]])
  }

  /** Every stacked node reaches the nodes stacked after it. */
  ghost predicate StackReachesUp(g: Graph, s: Search) {
    forall i, j | 0 <= i <= j < |s.stack| :: Reach(g, s.stack[i], s.stack[j])
  }

  /** A running call's node at or below `v` on the stack that `v` can reach. */
  ghost predicate HasAnchor(g: Graph, s: Search, v: File)
    requires v in s.index
  {
    exists u :: u in s.running && u in s.index && s.index[u] <= s.index[v] && Reach(g, v, u)
  }

  /** Every stacked node is anchored; a running one is its own anchor. */
  ghost predicate Anchored(g: Graph, s: Search)
    requires StackOrdered(s)
  {
    forall v | v in s.stack && v !in s.running :: HasAnchor(g, s, v)
  }

  lemma AnchorOf(g: Graph, s: Search, v: File) returns (u: File)
    requires StackOrdered(s) && Anchored(g, s) && v in s.stack
    ensures u in s.running && u in s.index && s.index[u] <= s.index[v] && Reach(g, v, u)
  {
    if v in s.running {
      u := v;
      ReachRefl(g, v);
    } else {
      assert HasAnchor(g, s, v);
      u :| u in s.running && u in s.index && s.index[u] <= s.index[v] && Reach(g, v, u);
    }
  }

  /** A node whose visit is over has only visited successors. */
  ghost predicate FinishedSeen(g: Graph, s: Search) {
    forall v, w | v in s.index && v !in s.running && Edge(g, v, w) :: w in s.index
  }

  ghost predicate RunningStacked(s: Search) {
    forall u | u in s.running :: u in s.stack
  }

  ghost predicate Invariant(g: Graph, s: Search) {
    && StackOrdered(s)
    && RunningStacked(s)
    && FinishedSeen(g, s)
    && Closed(g, s.Done())
    && StackReachesUp(g, s)
    && Anchored(g, s)
  }

  ghost predicate IndexKept(s: Search, t: Search) {
    forall v | v in s.index :: v in t.index && t.index[v] == s.index[v]
  }

  /** What a finished visit guarantees its caller about the search. */
  ghost predicate Extends(s: Search, t: Search) {
    && t.running == s.running
    && s.stack <= t.stack
    && s.Done() <= t.Done()
    && IndexKept(s, t)
  }

  ghost predicate AllReach(g: Graph, us: set<File>, x: File) {
    forall u | u in us :: Reach(g, u, x)
  }

  lemma AllReachNode(g: Graph, us: set<File>, node: File)
    requires AllReach(g, us, node)
    ensures AllReach(g, us + {node}, node)
  {
    ReachRefl(g, node);
  }

  lemma AllReachNext(g: Graph, us: set<File>, node: File, next: File)
    requires AllReach(g, us, node) && Edge(g, node, next)
    ensures AllReach(g, us, next)
  {
    ReachEdge(g, node, next);
    forall u | u in us
      ensures Reach(g, u, next)
    {
      ReachTrans(g, u, node, next);
    }
  }

  /** The step that starts a visit: `x` gets the next index and is pushed. */
  ghost function Started(s: Search, x: File, n: nat): Search {
    Search(s.index[x := n], s.stack + [x], s.running + {x})
  }

  /** An anchor stays an anchor when the search grows. */
  lemma AnchorCarries(g: Graph, s: Search, t: Search, v: File)
    requires v in s.index && HasAnchor(g, s, v)
    requires s.running <= t.running
    requires forall u | u in s.index :: u in t.index && t.index[u] == s.index[u]
    ensures HasAnchor(g, t, v)
  {
    var u :| u in s.running && u in s.index && s.index[u] <= s.index[v] && Reach(g, v, u);
    assert u in t.running && t.index[u] <= t.index[v];
  }

  lemma StartKeepsOrder(s: Search, x: File, n: nat)
    requires StackOrdered(s) && RunningStacked(s) && x !in s.index
    requires forall v | v in s.index :: s.index[v] < n
    ensures StackOrdered(Started(s, x, n)) && RunningStacked(Started(s, x, n))
  {}

  lemma StartKeepsDone(g: Graph, s: Search, x: File, n: nat)
    requires StackOrdered(s) && x !in s.index
    ensures Started(s, x, n).Done() == s.Done()
  {
    var t := Started(s, x, n);
    forall v
      ensures v in t.Done() <==> v in s.Done()
    {
      assert v in t.stack <==> v == x || v in s.stack;
    }
  }

  lemma StartKeepsReach(g: Graph, s: Search, x: File, n: nat)
    requires StackOrdered(s) && StackReachesUp(g, s) && Anchored(g, s)
    requires AllReach(g, s.running, x)
    ensures StackReachesUp(g, Started(s, x, n))
  {
    ReachRefl(g, x);
    forall i | 0 <= i < |s.stack|
      ensures Reach(g, s.stack[i], x)
    {
      var v := s.stack[i];
      var u := AnchorOf(g, s, v);
      ReachTrans(g, v, u, x);
    }
  }

  lemma StartKeepsAnchors(g: Graph, s: Search, x: File, n: nat)
    requires StackOrdered(s) && StackOrdered(Started(s, x, n)) && Anchored(g, s) && x !in s.index
    ensures Anchored(g, Started(s, x, n))
  {
    var t := Started(s, x, n);
    forall v | v in t.stack && v !in t.running
      ensures HasAnchor(g, t, v)
    {
      AnchorCarries(g, s, t, v);
    }
  }

  lemma StartKeepsSeen(g: Graph, s: Search, x: File, n: nat)
    requires FinishedSeen(g, s)
    ensures FinishedSeen(g, Started(s, x, n))
  {}

  lemma StartKeepsInvariant(g: Graph, s: Search, x: File, n: nat)
    requires Invariant(g, s) && x !in s.index
    requires forall v | v in s.index :: s.index[v] < n
    requires AllReach(g, s.running, x)
    ensures Invariant(g, Started(s, x, n))
    ensures Started(s, x, n).Done() == s.Done()
  {
    StartKeepsOrder(s, x, n);
    StartKeepsDone(g, s, x, n);
    StartKeepsReach(g, s, x, n);
    StartKeepsAnchors(g, s, x, n);
    StartKeepsSeen(g, s, x, n);
  }

  // ---- The low link of the node at stack position k ----

  /** `low` is the index of a node at or below position `k` that the node at `k` reaches. */
  ghost predicate LowReached(g: Graph, s: Search, k: nat, low: nat)
    requires k < |s.stack|
  {
    exists j | 0 <= j <= k ::
      s.stack[j] in s.index && s.index[s.stack[j]] == low && Reach(g, s.stack[k], s.stack[j])
  }

  /** `low` bounds the index of `w`, unless `w` has left the stack. */
  ghost predicate Bounded(s: Search, w: File, low: nat) {
    w in s.index && (w in s.stack ==> low <= s.index[w])
  }

  /** `low` bounds every import of every node stacked at `from` or above. */
  ghost predicate LowCovers(g: Graph, s: Search, from: nat, low: nat) {
    forall i, w | from <= i < |s.stack| && Edge(g, s.stack[i], w) :: Bounded(s, w, low)
  }

  /** `low` bounds the first `i` imports of `node`. */
  ghost predicate Scanned(g: Graph, s: Search, node: File, i: nat, low: nat)
    requires i <= |Successors(g, node)|
  {
    forall j | 0 <= j < i :: Bounded(s, Successors(g, node)[j], low)
  }

  /** `x` was visited after every node of `s`. */
  ghost predicate Newer(s: Search, t: Search, x: File) {
    x in t.index && forall v | v in s.index :: s.index[v] < t.index[x]
  }

  /** The search `s` is inside the visit of `node` that started from `s0`. */
  ghost predicate Inside(s0: Search, s: Search, node: File) {
    && s.running == s0.running + {node}
    && node !in s0.index
    && Newer(s0, s, node)
    && s0.Done() <= s.Done()
    && IndexKept(s0, s)
    && |s0.stack| < |s.stack| && s.stack[..|s0.stack|] == s0.stack && s.stack[|s0.stack|] == node
  }

  /** The loop invariant of a visit: `i` imports are scanned and `low` is the current low link. */
  ghost predicate Scanning(g: Graph, s0: Search, s: Search, node: File, i: nat, low: nat) {
    && StackOrdered(s)
    && Inside(s0, s, node)
    && low <= s.index[node]
    && i <= |Successors(g, node)|
    && LowReached(g, s, |s0.stack|, low)
    && LowCovers(g, s, |s0.stack| + 1, low)
    && Scanned(g, s, node, i, low)
  }

  /** What a visit of `node` leaves: it is off the stack, or it stays with a low link below its index. */
  ghost predicate Visited(g: Graph, s0: Search, t: Search, node: File, low: nat) {
    && StackOrdered(t)
    && Extends(s0, t)
    && Newer(s0, t, node) && low <= t.index[node]
    && (if node in t.stack
        then |s0.stack| < |t.stack| && t.stack[|s0.stack|] == node
             && low < t.index[node] && LowReached(g, t, |s0.stack|, low)
        else t.stack == s0.stack && low == t.index[node])
    && LowCovers(g, t, |s0.stack|, low)
  }

  function Min(a: nat, b: nat): nat {
    if a <= b then a else b
  }

  lemma StartScans(g: Graph, s: Search, x: File, n: nat)
    requires StackOrdered(s) && RunningStacked(s) && x !in s.index
    requires forall v | v in s.index :: s.index[v] < n
    ensures Scanning(g, s, Started(s, x, n), x, 0, n)
  {
    StartKeepsOrder(s, x, n);
    StartKeepsDone(g, s, x, n);
    StartInside(s, x, n);
    StartLowReached(g, s, x, n);
  }

  lemma StartInside(s: Search, x: File, n: nat)
    requires x !in s.index && Started(s, x, n).Done() == s.Done()
    requires forall v | v in s.index :: s.index[v] < n
    ensures Inside(s, Started(s, x, n), x)
  {}

  lemma StartLowReached(g: Graph, s: Search, x: File, n: nat)
    ensures LowReached(g, Started(s, x, n), |s.stack|, n)
    ensures LowCovers(g, Started(s, x, n), |s.stack| + 1, n)
    ensures Scanned(g, Started(s, x, n), x, 0, n)
  {
    ReachRefl(g, x);
    assert Started(s, x, n).stack[|s.stack|] == x;
  }

  /** A reached index below the current low link is a valid new low link. */
  lemma LowerLowReached(g: Graph, s: Search, k: nat, m: nat, low: nat, lower: nat)
    requires StackOrdered(s) && k < |s.stack| && m < |s.stack|
    requires low <= s.index[s.stack[k]] && lower < low
    requires LowReached(g, s, m, lower) && Reach(g, s.stack[k], s.stack[m])
    ensures LowReached(g, s, k, lower)
  {
    var j :| 0 <= j <= m && s.stack[j] in s.index && s.index[s.stack[j]] == lower
             && Reach(g, s.stack[m], s.stack[j]);
    assert j < k;
    ReachTrans(g, s.stack[k], s.stack[m], s.stack[j]);
  }

  lemma LowerLowCovers(g: Graph, s: Search, from: nat, low: nat, lower: nat)
    requires LowCovers(g, s, from, low) && lower <= low
    ensures LowCovers(g, s, from, lower)
  {
    forall i, w | from <= i < |s.stack| && Edge(g, s.stack[i], w)
      ensures Bounded(s, w, lower)
    {
      assert Bounded(s, w, low);
    }
  }

  lemma ScanOneMore(g: Graph, s: Search, node: File, i: nat, low: nat, lower: nat)
    requires i < |Successors(g, node)| && lower <= low
    requires Scanned(g, s, node, i, low) && Bounded(s, Successors(g, node)[i], lower)
    ensures Scanned(g, s, node, i + 1, lower)
  {
    forall j | 0 <= j < i + 1
      ensures Bounded(s, Successors(g, node)[j], lower)
    {
      if j < i {
        assert Bounded(s, Successors(g, node)[j], low);
      }
    }
  }

  /** An import that is already off the stack leaves the low link alone. */
  lemma ScanPastDone(g: Graph, s0: Search, s: Search, node: File, i: nat, low: nat)
    requires Scanning(g, s0, s, node, i, low) && i < |Successors(g, node)|
    requires Successors(g, node)[i] in s.index && Successors(g, node)[i] !in s.stack
    ensures Scanning(g, s0, s, node, i + 1, low)
  {
    ScanOneMore(g, s, node, i, low, low);
  }

  /** An import that is on the stack lowers the low link to its index. */
  lemma ScanStacked(g: Graph, s0: Search, s: Search, node: File, i: nat, low: nat)
    requires Scanning(g, s0, s, node, i, low) && i < |Successors(g, node)|
    requires Successors(g, node)[i] in s.stack
    ensures Successors(g, node)[i] in s.index
    ensures Scanning(g, s0, s, node, i + 1, Min(low, s.index[Successors(g, node)[i]]))
  {
    var w := Successors(g, node)[i];
    var m := StackPosition(s, w);
    var lower := Min(low, s.index[w]);
    LowerLowCovers(g, s, |s0.stack| + 1, low, lower);
    ScanOneMore(g, s, node, i, low, lower);
    if lower < low {
      StackedEdgeReached(g, s, m);
      ReachEdge(g, node, w);
      LowerLowReached(g, s, |s0.stack|, m, low, lower);
    }
  }

  lemma StackPosition(s: Search, w: File) returns (m: nat)
    requires StackOrdered(s) && w in s.stack
    ensures m < |s.stack| && s.stack[m] == w && w in s.index
  {
    m :| 0 <= m < |s.stack| && s.stack[m] == w;
  }

  lemma StackedEdgeReached(g: Graph, s: Search, m: nat)
    requires StackOrdered(s) && m < |s.stack|
    ensures LowReached(g, s, m, s.index[s.stack[m]])
  {
    ReachRefl(g, s.stack[m]);
  }

  lemma DoneGrowsStackShrinks(s: Search, t: Search, w: File)
    requires s.Done() <= t.Done() && w in s.index && w in t.stack
    ensures w in s.stack
  {
    assert w in s.Done() ==> w in t.Done();
  }

  lemma BoundedCarries(s: Search, t: Search, w: File, low: nat)
    requires s.Done() <= t.Done() && IndexKept(s, t) && Bounded(s, w, low)
    ensures Bounded(t, w, low)
  {
    if w in t.stack {
      DoneGrowsStackShrinks(s, t, w);
    }
  }

  /** The bound of the outer scan and the bound the nested visit reports combine to their minimum. */
  lemma NestedCovers(g: Graph, s1: Search, s2: Search, from: nat, low: nat, lowNext: nat)
    requires from <= |s1.stack| && s1.stack <= s2.stack
    requires s1.Done() <= s2.Done() && IndexKept(s1, s2)
    requires LowCovers(g, s1, from, low) && LowCovers(g, s2, |s1.stack|, lowNext)
    ensures LowCovers(g, s2, from, Min(low, lowNext))
  {
    forall i, w | from <= i < |s2.stack| && Edge(g, s2.stack[i], w)
      ensures Bounded(s2, w, Min(low, lowNext))
    {
      if i < |s1.stack| {
        assert Bounded(s1, w, low);
        BoundedCarries(s1, s2, w, low);
      } else {
        assert Bounded(s2, w, lowNext);
      }
    }
  }

  lemma NestedScanned(g: Graph, s1: Search, s2: Search, node: File, i: nat, low: nat, lower: nat)
    requires i < |Successors(g, node)| && lower <= low
    requires s1.Done() <= s2.Done() && IndexKept(s1, s2)
    requires Scanned(g, s1, node, i, low) && Bounded(s2, Successors(g, node)[i], lower)
    ensures Scanned(g, s2, node, i + 1, lower)
  {
    forall j | 0 <= j < i + 1
      ensures Bounded(s2, Successors(g, node)[j], lower)
    {
      if j < i {
        BoundedCarries(s1, s2, Successors(g, node)[j], low);
      }
    }
  }

  lemma NestedInside(s0: Search, s1: Search, s2: Search, node: File)
    requires Inside(s0, s1, node) && Extends(s1, s2)
    ensures Inside(s0, s2, node)
  {
    assert s2.stack[..|s0.stack|] == s1.stack[..|s0.stack|];
  }

  lemma NestedReached(g: Graph, s1: Search, s2: Search, k: nat, low: nat)
    requires s1.stack <= s2.stack && IndexKept(s1, s2) && k < |s1.stack| && LowReached(g, s1, k, low)
    ensures LowReached(g, s2, k, low)
  {
    var j :| 0 <= j <= k && s1.stack[j] in s1.index && s1.index[s1.stack[j]] == low
             && Reach(g, s1.stack[k], s1.stack[j]);
    assert s2.stack[j] == s1.stack[j] && s2.stack[k] == s1.stack[k];
  }

  /** After the nested visit of an unvisited import, the low link drops to the import's if that is lower. */
  lemma ScanNested(g: Graph, s0: Search, s1: Search, s2: Search, node: File, i: nat, low: nat, lowNext: nat)
    requires Scanning(g, s0, s1, node, i, low) && i < |Successors(g, node)|
    requires Successors(g, node)[i] !in s1.index
    requires Visited(g, s1, s2, Successors(g, node)[i], lowNext)
    ensures Scanning(g, s0, s2, node, i + 1, Min(low, lowNext))
  {
    var k := |s0.stack|;
    var w := Successors(g, node)[i];
    NestedInside(s0, s1, s2, node);
    NestedCovers(g, s1, s2, k + 1, low, lowNext);
    NestedScanned(g, s1, s2, node, i, low, Min(low, lowNext));
    NestedReached(g, s1, s2, k, low);
    if lowNext < low {
      ReachEdge(g, node, w);
      LowerLowReached(g, s2, k, |s1.stack|, low, lowNext);
    }
  }

  // ---- Leaving a visit ----

  /** The node's call is over; it may stay on the stack. */
  ghost function Finished(s: Search, node: File): Search {
    Search(s.index, s.stack, s.running - {node})
  }

  lemma FinishSeen(g: Graph, s: Search, node: File, low: nat)
    requires FinishedSeen(g, s) && Scanned(g, s, node, |Successors(g, node)|, low)
    ensures FinishedSeen(g, Finished(s, node))
  {
    forall w | Edge(g, node, w)
      ensures w in s.index
    {
      var j :| 0 <= j < |Successors(g, node)| && Successors(g, node)[j] == w;
      assert Bounded(s, Successors(g, node)[j], low);
    }
  }

  lemma FinishCovers(g: Graph, s: Search, k: nat, low: nat)
    requires k < |s.stack|
    requires LowCovers(g, s, k + 1, low) && Scanned(g, s, s.stack[k], |Successors(g, s.stack[k])|, low)
    ensures LowCovers(g, s, k, low)
  {
    forall i, w | k <= i < |s.stack| && Edge(g, s.stack[i], w)
      ensures Bounded(s, w, low)
    {
      if i == k {
        var j :| 0 <= j < |Successors(g, s.stack[k])| && Successors(g, s.stack[k])[j] == w;
        assert Bounded(s, Successors(g, s.stack[k])[j], low);
      }
    }
  }

  /** A low link below its node's index gives every node anchored there an older anchor. */
  lemma FinishAnchors(g: Graph, s: Search, k: nat, low: nat)
    requires StackOrdered(s) && Anchored(g, s) && k < |s.stack|
    requires LowReached(g, s, k, low) && low < s.index[s.stack[k]]
    ensures Anchored(g, Finished(s, s.stack[k]))
  {
    var node := s.stack[k];
    var t := Finished(s, node);
    var j :| 0 <= j <= k && s.stack[j] in s.index && s.index[s.stack[j]] == low && Reach(g, node, s.stack[j]);
    var y := s.stack[j];
    var older := AnchorOf(g, s, y);
    ReachTrans(g, node, y, older);
    forall v | v in t.stack && v !in t.running
      ensures HasAnchor(g, t, v)
    {
      var u := AnchorOf(g, s, v);
      if u == node {
        ReachTrans(g, v, node, older);
        assert older in t.running;
      } else {
        assert u in t.running;
      }
    }
  }

  lemma FinishOrder(s: Search, k: nat)
    requires StackOrdered(s) && RunningStacked(s) && k < |s.stack|
    ensures StackOrdered(Finished(s, s.stack[k])) && RunningStacked(Finished(s, s.stack[k]))
    ensures Finished(s, s.stack[k]).Done() == s.Done()
  {}

  lemma FinishExtends(s0: Search, s: Search, node: File)
    requires Inside(s0, s, node) && node !in s0.running
    ensures Extends(s0, Finished(s, node))
  {}

  /** A visit whose low link is below its index leaves its node on the stack. */
  lemma FinishKeepsInvariant(g: Graph, s: Search, k: nat, low: nat)
    requires Invariant(g, s) && k < |s.stack|
    requires LowReached(g, s, k, low) && low < s.index[s.stack[k]]
    requires Scanned(g, s, s.stack[k], |Successors(g, s.stack[k])|, low)
    ensures Invariant(g, Finished(s, s.stack[k]))
  {
    FinishOrder(s, k);
    FinishSeen(g, s, s.stack[k], low);
    FinishAnchors(g, s, k, low);
    FinishReaches(g, s, s.stack[k]);
  }

  lemma FinishReaches(g: Graph, s: Search, node: File)
    requires StackReachesUp(g, s)
    ensures StackReachesUp(g, Finished(s, node))
  {}

  lemma FinishVisited(g: Graph, s0: Search, s: Search, node: File, low: nat)
    requires Scanning(g, s0, s, node, |Successors(g, node)|, low)
    requires low < s.index[node] && node !in s0.running
    ensures Visited(g, s0, Finished(s, node), node, low)
  {
    var t := Finished(s, node);
    FinishExtends(s0, s, node);
    FinishCovers(g, s, |s0.stack|, low);
    LowFactsKept(g, s, t, |s0.stack|, low);
  }

  /** Low-link facts do not depend on which calls are running. */
  lemma LowFactsKept(g: Graph, s: Search, t: Search, k: nat, low: nat)
    requires s.index == t.index && s.stack == t.stack && k < |s.stack|
    requires LowReached(g, s, k, low) && LowCovers(g, s, k, low)
    ensures LowReached(g, t, k, low) && LowCovers(g, t, k, low)
  {
    forall i, w | k <= i < |t.stack| && Edge(g, t.stack[i], w)
      ensures Bounded(t, w, low)
    {
      assert Bounded(s, w, low);
    }
  }

  /** The component is popped: the stack is cut at `k` and the call at `k` is over. */
  ghost function Cut(s: Search, k: nat): Search
    requires k < |s.stack|
  {
    Search(s.index, s.stack[..k], s.running - {s.stack[k]})
  }

  lemma CutDone(s: Search, k: nat)
    requires StackOrdered(s) && k < |s.stack|
    ensures Cut(s, k).Done() == s.Done() + ToSet(s.stack[k..])
    ensures s.Done() !! ToSet(s.stack[k..])
    ensures Distinct(s.stack[k..])
  {
    var t := Cut(s, k);
    forall v
      ensures v in t.Done() <==> v in s.Done() || v in s.stack[k..]
    {
      assert s.stack == s.stack[..k] + s.stack[k..];
      if v in s.stack[k..] {
        var i :| k <= i < |s.stack| && s.stack[i] == v;
        assert forall j | 0 <= j < k :: s.index[s.stack[j]] < s.index[s.stack[i]];
      }
    }
  }

  /** With the low link at its own index, no edge leaves the popped part except to finished components. */
  lemma CutClosed(g: Graph, s: Search, k: nat)
    requires StackOrdered(s) && k < |s.stack| && Closed(g, s.Done())
    requires LowCovers(g, s, k, s.index[s.stack[k]])
    ensures Closed(g, s.Done() + ToSet(s.stack[k..]))
  {
    forall v, w | v in s.stack[k..] && Edge(g, v, w)
      ensures w in s.Done() + ToSet(s.stack[k..])
    {
      var i :| k <= i < |s.stack| && s.stack[i] == v;
      assert Bounded(s, w, s.index[s.stack[k]]);
      if w in s.stack {
        var j := StackPosition(s, w);
        assert k <= j;
        assert s.stack[k..][j - k] == w;
      }
    }
  }

  lemma CutReachesRoot(g: Graph, s: Search, k: nat, v: File)
    requires StackOrdered(s) && Anchored(g, s) && k < |s.stack| && v in s.stack[k..]
    requires AllReach(g, s.running, s.stack[k])
    ensures Reach(g, v, s.stack[k])
  {
    assert v in s.stack;
    var u := AnchorOf(g, s, v);
    ReachTrans(g, v, u, s.stack[k]);
  }

  lemma RootReachesCut(g: Graph, s: Search, k: nat, v: File)
    requires StackReachesUp(g, s) && k < |s.stack| && v in s.stack[k..]
    ensures Reach(g, s.stack[k], v)
  {
    var i :| k <= i < |s.stack| && s.stack[i] == v;
  }

  /** The popped nodes are one strongly connected component. */
  lemma CutIsScc(g: Graph, s: Search, k: nat)
    requires StackOrdered(s) && Anchored(g, s) && StackReachesUp(g, s) && k < |s.stack|
    requires AllReach(g, s.running, s.stack[k])
    requires Closed(g, s.Done()) && Closed(g, s.Done() + ToSet(s.stack[k..]))
    ensures IsScc(g, ToSet(s.stack[k..]))
  {
    var c := ToSet(s.stack[k..]);
    var root := s.stack[k];
    assert s.stack[k..][0] == root && root in c;
    forall a, b | a in c && b in c
      ensures Reach(g, a, b)
    {
      CutReachesRoot(g, s, k, a);
      RootReachesCut(g, s, k, b);
      ReachTrans(g, a, root, b);
    }
    forall a, b | a in c && Reach(g, a, b) && Reach(g, b, a)
      ensures b in c
    {
      ReachStaysInClosedSet(g, s.Done() + c, a, b);
      if b in s.Done() {
        ReachStaysInClosedSet(g, s.Done(), b, a);
        CutDone(s, k);
        assert false;
      }
    }
  }

  lemma CutAnchors(g: Graph, s: Search, k: nat)
    requires StackOrdered(s) && Anchored(g, s) && k < |s.stack| && StackOrdered(Cut(s, k))
    ensures Anchored(g, Cut(s, k))
  {
    var t := Cut(s, k);
    forall v | v in t.stack && v !in t.running
      ensures HasAnchor(g, t, v)
    {
      var i :| 0 <= i < k && s.stack[i] == v;
      var u := AnchorOf(g, s, v);
      assert s.index[u] < s.index[s.stack[k]];
      assert u in t.running;
    }
  }

  lemma CutOrder(s: Search, k: nat)
    requires StackOrdered(s) && RunningStacked(s) && k < |s.stack|
    requires forall u | u in s.running :: u == s.stack[k] || u in s.stack[..k]
    ensures StackOrdered(Cut(s, k)) && RunningStacked(Cut(s, k))
  {}

  lemma CutReaches(g: Graph, s: Search, k: nat)
    requires StackReachesUp(g, s) && k < |s.stack|
    ensures StackReachesUp(g, Cut(s, k))
  {}

  lemma CutSeen(g: Graph, s: Search, k: nat)
    requires k < |s.stack| && FinishedSeen(g, Finished(s, s.stack[k]))
    ensures FinishedSeen(g, Cut(s, k))
  {}

  lemma CutKeepsInvariant(g: Graph, s: Search, k: nat)
    requires Invariant(g, s) && k < |s.stack|
    requires AllReach(g, s.running, s.stack[k])
    requires forall u | u in s.running :: u == s.stack[k] || u in s.stack[..k]
    requires LowCovers(g, s, k, s.index[s.stack[k]])
    requires FinishedSeen(g, Finished(s, s.stack[k]))
    ensures Invariant(g, Cut(s, k)) && IsScc(g, ToSet(s.stack[k..]))
    ensures Cut(s, k).Done() == s.Done() + ToSet(s.stack[k..])
  {
    CutDone(s, k);
    CutClosed(g, s, k);
    CutIsScc(g, s, k);
    CutOrder(s, k);
    CutAnchors(g, s, k);
    CutReaches(g, s, k);
    CutSeen(g, s, k);
  }

  lemma CutVisited(g: Graph, s0: Search, s: Search, node: File)
    requires Inside(s0, s, node) && node !in s0.running && StackOrdered(s) && StackOrdered(Cut(s, |s0.stack|))
    ensures Visited(g, s0, Cut(s, |s0.stack|), node, s.index[node])
  {
    var k := |s0.stack|;
    CutDone(s, k);
    assert node !in s0.stack;
  }

  /** A visit that ends with a low link below its index: its node stays on the stack. */
  lemma LeaveNested(g: Graph, s0: Search, s: Search, node: File, low: nat)
    requires Invariant(g, s) && Scanning(g, s0, s, node, |Successors(g, node)|, low)
    requires low < s.index[node] && node !in s0.running
    ensures Invariant(g, Finished(s, node)) && Visited(g, s0, Finished(s, node), node, low)
    ensures Finished(s, node).Done() == s.Done()
  {
    FinishKeepsInvariant(g, s, |s0.stack|, low);
    FinishVisited(g, s0, s, node, low);
    FinishOrder(s, |s0.stack|);
  }

  /** A visit that ends at its own index: everything from its node up is popped as one component. */
  lemma LeaveRoot(g: Graph, s0: Search, s: Search, node: File)
    requires Invariant(g, s) && node in s.index
    requires Scanning(g, s0, s, node, |Successors(g, node)|, s.index[node])
    requires node !in s0.running && RunningStacked(s0)
    requires AllReach(g, s.running, node)
    ensures Invariant(g, Cut(s, |s0.stack|)) && Visited(g, s0, Cut(s, |s0.stack|), node, s.index[node])
    ensures Cut(s, |s0.stack|).Done() == s.Done() + ToSet(s.stack[|s0.stack|..])
    ensures IsScc(g, ToSet(s.stack[|s0.stack|..])) && s.Done() !! ToSet(s.stack[|s0.stack|..])
    ensures Distinct(s.stack[|s0.stack|..])
  {
    var k := |s0.stack|;
    FinishSeen(g, s, node, s.index[node]);
    FinishCovers(g, s, k, s.index[node]);
    CutDone(s, k);
    CutKeepsInvariant(g, s, k);
    CutVisited(g, s0, s, node);
  }

  // ---- What is reported ----

  /** A popped component is kept if it has several files, or if its root imports itself. */
  predicate Reported(g: Graph, component: seq<File>, node: File) {
    |component| > 1 || Edge(g, node, node)
  }

  ghost predicate ReportsCycle(g: Graph, c: seq<File>) {
    && Distinct(c)
    && IsScc(g, ToSet(c))
    && forall v | v in c :: OnCycle(g, v)
  }

  ghost predicate AllReportCycles(g: Graph, done: set<File>, components: seq<seq<File>>) {
    forall c | c in components :: ReportsCycle(g, c) && ToSet(c) <= done
  }

  ghost predicate PairwiseDisjoint(components: seq<seq<File>>) {
    forall i, j | 0 <= i < j < |components| :: ToSet(components[i]) !! ToSet(components[j])
  }

  ghost predicate Covers(g: Graph, done: set<File>, components: seq<seq<File>>) {
    forall v | v in done && OnCycle(g, v) :: exists c :: c in components && v in c
  }

  /** The list holds exactly the cyclic components among the nodes of `done`, each once. */
  ghost predicate ReportFor(g: Graph, done: set<File>, components: seq<seq<File>>) {
    AllReportCycles(g, done, components) && PairwiseDisjoint(components) && Covers(g, done, components)
  }

  lemma DistinctSize(s: seq<File>)
    requires Distinct(s)
    ensures |ToSet(s)| == |s|
  {
    if s != [] {
      var rest := s[..|s| - 1];
      DistinctSize(rest);
      assert ToSet(s) == ToSet(rest) + {s[|s| - 1]};
    }
  }

  /** The code's test on a popped component decides whether its nodes lie on a cycle. */
  lemma ReportedIffCyclic(g: Graph, c: seq<File>, node: File, v: File)
    requires Distinct(c) && IsScc(g, ToSet(c)) && node in c && v in c
    ensures OnCycle(g, v) <==> Reported(g, c, node)
  {
    DistinctSize(c);
    SccOnCycle(g, ToSet(c), v);
    SccOnCycle(g, ToSet(c), node);
    if |c| <= 1 {
      assert v == node;
    }
  }

  lemma CoversMore(g: Graph, done: set<File>, components: seq<seq<File>>, c: seq<File>)
    requires Covers(g, done, components)
    ensures Covers(g, done + ToSet(c), components + [c])
  {
    var next := components + [c];
    forall v | v in done + ToSet(c) && OnCycle(g, v)
      ensures exists d :: d in next && v in d
    {
      if v in c {
        assert next[|components|] == c;
      } else {
        var d :| d in components && v in d;
        assert d in next;
      }
    }
  }

  lemma DisjointMore(g: Graph, done: set<File>, components: seq<seq<File>>, c: seq<File>)
    requires AllReportCycles(g, done, components) && PairwiseDisjoint(components) && ToSet(c) !! done
    ensures PairwiseDisjoint(components + [c])
  {
    forall i | 0 <= i < |components|
      ensures ToSet(components[i]) !! ToSet(c)
    {
      assert components[i] in components;
    }
  }

  lemma ReportGrows(g: Graph, done: set<File>, components: seq<seq<File>>, c: seq<File>, node: File)
    requires ReportFor(g, done, components)
    requires Distinct(c) && IsScc(g, ToSet(c)) && node in c && ToSet(c) !! done
    ensures ReportFor(g, done + ToSet(c), if Reported(g, c, node) then components + [c] else components)
  {
    forall v | v in c
      ensures OnCycle(g, v) <==> Reported(g, c, node)
    {
      ReportedIffCyclic(g, c, node, v);
    }
    if Reported(g, c, node) {
      assert ReportsCycle(g, c);
      CoversMore(g, done, components, c);
      DisjointMore(g, done, components, c);
      ReportsMore(g, done, components, c);
    } else {
      ReportsWider(g, done, done + ToSet(c), components);
    }
  }

  lemma ReportsMore(g: Graph, done: set<File>, components: seq<seq<File>>, c: seq<File>)
    requires AllReportCycles(g, done, components) && ReportsCycle(g, c)
    ensures AllReportCycles(g, done + ToSet(c), components + [c])
  {
    forall d | d in components + [c]
      ensures ReportsCycle(g, d) && ToSet(d) <= done + ToSet(c)
    {
      assert d in components || d == c;
    }
  }

  lemma ReportsWider(g: Graph, done: set<File>, wider: set<File>, components: seq<seq<File>>)
    requires AllReportCycles(g, done, components) && done <= wider
    ensures AllReportCycles(g, wider, components)
  {
    forall c | c in components
      ensures ToSet(c) <= wider
    {
      assert ToSet(c) <= done;
    }
  }

  lemma ReportAfterCut(g: Graph, s: Search, k: nat, components: seq<seq<File>>, c: seq<File>)
    requires k < |s.stack| && ReportFor(g, s.Done(), components)
    requires |c| == |s.stack| - k && forall i | 0 <= i < |c| :: c[i] == s.stack[|s.stack| - 1 - i]
    requires IsScc(g, ToSet(s.stack[k..])) && s.Done() !! ToSet(s.stack[k..]) && Distinct(s.stack[k..])
    requires Cut(s, k).Done() == s.Done() + ToSet(s.stack[k..])
    ensures ReportFor(g, Cut(s, k).Done(),
                      if Reported(g, c, s.stack[k]) then components + [c] else components)
  {
    ReversedSame(c, s.stack[k..]);
    assert c[|c| - 1] == s.stack[k];
    ReportGrows(g, s.Done(), components, c, s.stack[k]);
  }

  lemma NonEmptyAfterCut(s: Search, k: nat)
    requires k < |s.stack| && (forall f | f in s.Done() :: !Falsy(f))
    requires Cut(s, k).Done() == s.Done() + ToSet(s.stack[k..])
    requires forall f | f in s.stack[k..] :: !Falsy(f)
    ensures forall f | f in Cut(s, k).Done() :: !Falsy(f)
  {}

  ghost predicate LowKept(low: map<File, nat>, low': map<File, nat>) {
    forall v | v in low :: v in low' && low'[v] == low[v]
  }

  lemma LowKeptThrough(a: map<File, nat>, b: map<File, nat>, c: map<File, nat>, node: File)
    requires LowKept(a, b) && node !in a && LowKept(b - {node}, c)
    ensures LowKept(a, c)
  {}

  // ---- The search object ----

  class SccSearch {
    const graph: Graph
    var nextIndex: nat
    var stack: seq<File>
    var onStack: set<File>
    var indexByNode: map<File, nat>
    var lowLinkByNode: map<File, nat>
    var components: seq<seq<File>>
    ghost var running: set<File>

    ghost function State(): Search
      reads this
    {
      Search(indexByNode, stack, running)
    }

    /** Bookkeeping that does not speak about reachability. */
    ghost predicate Books()
      reads this
    {
      && onStack == ToSet(stack)
      && indexByNode.Keys == lowLinkByNode.Keys
      && indexByNode.Keys <= Nodes(graph)
      && (forall v | v in indexByNode :: indexByNode[v] < nextIndex)
      && (forall f | f in State().Done() :: !Falsy(f))
    }

    ghost predicate Valid()
      reads this
    {
      Books() && Invariant(graph, State()) && ReportFor(graph, State().Done(), components)
    }

    constructor (graph: Graph)
      ensures this.graph == graph && Valid() && indexByNode == map[] && stack == [] && running == {}
    {
      this.graph := graph;
      nextIndex, stack, onStack := 0, [], {};
      indexByNode, lowLinkByNode, components := map[], map[], [];
      running := {};
    }

    /** Takes files off the stack until `node` comes off. Underflow cannot happen; only an empty file name throws. */
    method PopComponent(node: File, ghost k: nat) returns (thrown: bool, component: seq<File>)
      requires k < |stack| && stack[k] == node && Distinct(stack) && onStack == ToSet(stack)
      modifies `stack, `onStack
      ensures thrown <==> exists f :: f in old(stack)[k..] && Falsy(f)
      ensures !thrown ==> stack == old(stack)[..k] && onStack == ToSet(stack)
      ensures !thrown ==> |component| == |old(stack)| - k
      ensures !thrown ==> forall i | 0 <= i < |component| :: component[i] == old(stack)[|old(stack)| - 1 - i]
    {
      component := [];
      var done := false;
      while !done
        invariant |stack| <= |old(stack)| && stack == old(stack)[..|stack|]
        invariant if done then |stack| == k else k < |stack|
        invariant onStack == ToSet(stack)
        invariant |component| == |old(stack)| - |stack|
        invariant forall i | 0 <= i < |component| :: component[i] == old(stack)[|old(stack)| - 1 - i]
        invariant forall f | f in old(stack)[|stack|..] :: !Falsy(f)
        decreases |stack|
      {
        assert |stack| > 0; // the underflow throw is unreachable
        var n := |stack| - 1;
        var current := stack[n];
        assert old(stack)[n..] == [current] + old(stack)[n + 1..];
        stack := stack[..n];
        if Falsy(current) {
          assert current in old(stack)[k..];
          return true, component;
        }
        assert stack + [current] == old(stack)[..n + 1];
        onStack := onStack - {current};
        component := component + [current];
        done := current == node;
      }
      thrown := false;
    }

    method Enter(node: File)
      requires Valid() && node in Nodes(graph) && node !in indexByNode
      requires AllReach(graph, running, node)
      modifies this
      ensures Valid()
      ensures State() == Started(old(State()), node, old(nextIndex))
      ensures lowLinkByNode == old(lowLinkByNode)[node := old(nextIndex)] && nextIndex == old(nextIndex) + 1
      ensures Scanning(graph, old(State()), State(), node, 0, lowLinkByNode[node])
    {
      ghost var s0 := State();
      StartKeepsInvariant(graph, s0, node, nextIndex);
      StartScans(graph, s0, node, nextIndex);
      indexByNode := indexByNode[node := nextIndex];
      lowLinkByNode := lowLinkByNode[node := nextIndex];
      nextIndex := nextIndex + 1;
      stack := stack + [node];
      onStack := onStack + {node};
      running := running + {node};
      assert State() == Started(s0, node, old(nextIndex));
    }

    /** All imports of `node` are scanned; `s0` is the search before its visit. */
    ghost predicate Leaving(node: File, s0: Search)
      reads this
    {
      && Valid() && node in lowLinkByNode
      && Scanning(graph, s0, State(), node, |Successors(graph, node)|, lowLinkByNode[node])
      && Invariant(graph, s0) && AllReach(graph, running, node)
    }

    method Leave(node: File, ghost s0: Search) returns (thrown: bool)
      requires Leaving(node, s0)
      modifies `stack, `onStack, `components, `running
      ensures thrown ==> exists f | f in Nodes(graph) :: Falsy(f)
      ensures !thrown ==> Valid() && Visited(graph, s0, State(), node, lowLinkByNode[node])
    {
      ghost var s := State();
      if lowLinkByNode[node] != indexByNode[node] {
        LeaveNested(graph, s0, s, node, lowLinkByNode[node]);
        running := running - {node};
        assert State() == Finished(s, node);
        return false;
      }
      LeaveRoot(graph, s0, s, node);
      thrown := PopRoot(node, |s0.stack|);
    }

    /** Pops the component that ends at stack position `k` and records it if it is cyclic. */
    method PopRoot(node: File, ghost k: nat) returns (thrown: bool)
      requires Books() && ReportFor(graph, State().Done(), components)
      requires k < |stack| && stack[k] == node && Distinct(stack)
      requires IsScc(graph, ToSet(stack[k..])) && State().Done() !! ToSet(stack[k..]) && Distinct(stack[k..])
      requires Cut(State(), k).Done() == State().Done() + ToSet(stack[k..])
      requires forall v | v in stack :: v in indexByNode
      modifies `stack, `onStack, `components, `running
      ensures thrown ==> exists f | f in Nodes(graph) :: Falsy(f)
      ensures !thrown ==> State() == Cut(old(State()), k)
      ensures !thrown ==> Books() && ReportFor(graph, State().Done(), components)
    {
      ghost var s := State();
      var component;
      thrown, component := PopComponent(node, k);
      if thrown {
        ghost var f :| f in s.stack[k..] && Falsy(f);
        assert f in s.stack && f in Nodes(graph);
        return;
      }
      running := running - {node};
      assert State() == Cut(s, k);
      assert Books() by {
        NonEmptyAfterCut(s, k);
      }
      ReportAfterCut(graph, s, k, components, component);
      if |component| > 1 || node in Successors(graph, node) {
        components := components + [component];
      }
    }

    method Visit(node: File) returns (thrown: bool)
      requires Valid() && node in Nodes(graph) && node !in indexByNode
      requires AllReach(graph, running, node)
      modifies this
      ensures thrown ==> exists f | f in Nodes(graph) :: Falsy(f)
      ensures !thrown ==> Valid() && node in lowLinkByNode
      ensures !thrown ==> Visited(graph, old(State()), State(), node, lowLinkByNode[node])
      ensures !thrown ==> LowKept(old(lowLinkByNode), lowLinkByNode)
      decreases Nodes(graph) - indexByNode.Keys, 0
    {
      ghost var s0 := State();
      Enter(node);
      AllReachNode(graph, s0.running, node);
      thrown := ScanImports(node, s0);
      if !thrown {
        thrown := Leave(node, s0);
      }
    }

    /** The visit's loop over the imports of `node`. */
    method ScanImports(node: File, ghost s0: Search) returns (thrown: bool)
      requires Valid() && node in lowLinkByNode && node !in s0.index
      requires Scanning(graph, s0, State(), node, 0, lowLinkByNode[node])
      requires AllReach(graph, running, node)
      modifies this
      ensures thrown ==> exists f | f in Nodes(graph) :: Falsy(f)
      ensures !thrown ==> Valid() && running == old(running) && node in lowLinkByNode
      ensures !thrown ==> Scanning(graph, s0, State(), node, |Successors(graph, node)|, lowLinkByNode[node])
      ensures !thrown ==> LowKept(old(lowLinkByNode) - {node}, lowLinkByNode)
      decreases Nodes(graph) - indexByNode.Keys, 2
    {
      ghost var low0 := lowLinkByNode - {node};
      var i := 0;
      while i < |Successors(graph, node)|
        invariant i <= |Successors(graph, node)| && Valid() && node in lowLinkByNode
        invariant Scanning(graph, s0, State(), node, i, lowLinkByNode[node])
        invariant running == old(running) && old(indexByNode).Keys <= indexByNode.Keys
        invariant LowKept(low0, lowLinkByNode)
      {
        ghost var low1 := lowLinkByNode;
        thrown := ScanImport(node, i, s0);
        if thrown {
          return;
        }
        LowKeptThrough(low0, low1, lowLinkByNode, node);
        i := i + 1;
      }
      thrown := false;
    }

    /** One round of the visit's loop. */
    method ScanImport(node: File, i: nat, ghost s0: Search) returns (thrown: bool)
      requires Valid() && node in lowLinkByNode && i < |Successors(graph, node)|
      requires Scanning(graph, s0, State(), node, i, lowLinkByNode[node])
      requires AllReach(graph, running, node)
      modifies this
      ensures thrown ==> exists f | f in Nodes(graph) :: Falsy(f)
      ensures !thrown ==> Valid() && running == old(running) && node in lowLinkByNode
      ensures !thrown ==> old(indexByNode).Keys <= indexByNode.Keys
      ensures !thrown ==> Scanning(graph, s0, State(), node, i + 1, lowLinkByNode[node])
      ensures !thrown ==> LowKept(old(lowLinkByNode) - {node}, lowLinkByNode)
      decreases Nodes(graph) - indexByNode.Keys, 1
    {
      var next := Successors(graph, node)[i];
      ghost var s1 := State();
      if next !in indexByNode {
        AllReachNext(graph, running, node, next);
        thrown := Visit(next);
        if thrown {
          return;
        }
        ScanNested(graph, s0, s1, State(), node, i, lowLinkByNode[node], lowLinkByNode[next]);
        Lower(node, lowLinkByNode[next]);
      } else if next in onStack {
        ScanStacked(graph, s0, s1, node, i, lowLinkByNode[node]);
        Lower(node, indexByNode[next]);
      } else {
        ScanPastDone(graph, s0, s1, node, i, lowLinkByNode[node]);
      }
      thrown := false;
    }

    /** The low link of `node` becomes the bound if that is smaller. */
    method Lower(node: File, bound: nat)
      requires Valid() && node in lowLinkByNode
      modifies `lowLinkByNode
      ensures Valid() && State() == old(State())
      ensures lowLinkByNode == old(lowLinkByNode)[node := Min(old(lowLinkByNode[node]), bound)]
    {
      lowLinkByNode := lowLinkByNode[node := Min(lowLinkByNode[node], bound)];
      assert State() == old(State());
    }

    /** The loop over the listed files, in any iteration order. */
    method Run(keys: seq<File>) returns (thrown: bool)
      requires Valid() && indexByNode == map[] && stack == [] && running == {}
      requires ToSet(keys) == graph.Keys
      modifies this
      ensures thrown <==> exists f | f in Nodes(graph) :: Falsy(f)
      ensures !thrown ==> ReportFor(graph, Nodes(graph), components)
    {
      var i := 0;
      while i < |keys|
        invariant i <= |keys| && Valid() && stack == [] && running == {}
        invariant forall j | 0 <= j < i :: keys[j] in indexByNode
      {
        if keys[i] !in indexByNode {
          ghost var s0 := State();
          assert keys[i] in graph.Keys;
          thrown := Visit(keys[i]);
          if thrown {
            return;
          }
          TopVisitEmptiesStack(graph, s0, State(), keys[i], lowLinkByNode[keys[i]]);
        }
        i := i + 1;
      }
      AllNodesDone(graph, keys, State());
      thrown := false;
    }
  }

  /** A visit started with nothing on the stack pops everything it pushed. */
  lemma TopVisitEmptiesStack(g: Graph, s0: Search, t: Search, node: File, low: nat)
    requires Visited(g, s0, t, node, low) && s0.stack == []
    ensures t.stack == []
  {}

  lemma AllNodesDone(g: Graph, keys: seq<File>, s: Search)
    requires ToSet(keys) == g.Keys && s.stack == [] && s.running == {} && s.index.Keys <= Nodes(g)
    requires FinishedSeen(g, s) && forall j | 0 <= j < |keys| :: keys[j] in s.index
    ensures s.Done() == Nodes(g)
  {
    forall f | f in Nodes(g)
      ensures f in s.index
    {
      if f in g.Keys {
        assert f in ToSet(keys);
      } else {
        var k :| k in g && f in g[k];
        assert k in ToSet(keys);
        assert Edge(g, k, f);
      }
    }
  }

  /** Popping reverses the slice of the stack; the set of nodes and their distinctness stay. */
  lemma ReversedSame(c: seq<File>, slice: seq<File>)
    requires |c| == |slice| && forall i | 0 <= i < |c| :: c[i] == slice[|slice| - 1 - i]
    requires Distinct(slice)
    ensures Distinct(c) && ToSet(c) == ToSet(slice)
  {
    forall v
      ensures v in c <==> v in slice
    {
      if v in slice {
        var i :| 0 <= i < |slice| && slice[i] == v;
        assert c[|c| - 1 - i] == v;
      }
    }
  }

  ghost predicate SameFiles(a: seq<File>, b: seq<File>) {
    ToSet(a) == ToSet(b) && (Distinct(a) ==> Distinct(b))
  }

  lemma RearrangedSame(c: seq<File>, p: seq<nat>)
    requires IsPermutation(p, |c|)
    ensures SameFiles(c, Rearranged(c, p))
  {
    forall x
      ensures x in Rearranged(c, p) <==> x in c
    {
      SameElements(c, p, x);
    }
  }

  /** Sorting by a collation that is left open: each component's files in any order. */
  method SortEach(components: seq<seq<File>>) returns (sorted: seq<seq<File>>)
    ensures |sorted| == |components| && forall i | 0 <= i < |sorted| :: SameFiles(components[i], sorted[i])
  {
    sorted := [];
    for i := 0 to |components|
      invariant |sorted| == i && forall j | 0 <= j < i :: SameFiles(components[j], sorted[j])
    {
      var component, p := Arrange(components[i]);
      RearrangedSame(components[i], p);
      sorted := sorted + [component];
    }
  }

  lemma ReportSorted(g: Graph, done: set<File>, components: seq<seq<File>>, sorted: seq<seq<File>>)
    requires |sorted| == |components| && forall i | 0 <= i < |sorted| :: SameFiles(components[i], sorted[i])
    requires ReportFor(g, done, components)
    ensures ReportFor(g, done, sorted)
  {
    forall i | 0 <= i < |sorted|
      ensures ReportsCycle(g, sorted[i]) && ToSet(sorted[i]) <= done
    {
      assert components[i] in components && SameFiles(components[i], sorted[i]);
      assert forall v :: v in sorted[i] ==> v in ToSet(components[i]);
    }
    forall v | v in done && OnCycle(g, v)
      ensures exists c :: c in sorted && v in c
    {
      var i: nat :| i < |components| && v in components[i];
      assert SameFiles(components[i], sorted[i]);
      assert v in ToSet(sorted[i]) && sorted[i] in sorted;
    }
  }

  /** The order of the components does not matter to what the report says. */
  lemma ReportRearranged(g: Graph, done: set<File>, components: seq<seq<File>>, p: seq<nat>)
    requires IsPermutation(p, |components|) && ReportFor(g, done, components)
    ensures ReportFor(g, done, Rearranged(components, p))
  {
    var sorted := Rearranged(components, p);
    forall c
      ensures c in sorted <==> c in components
    {
      SameElements(components, p, c);
    }
    forall i, j | 0 <= i < j < |sorted|
      ensures ToSet(sorted[i]) !! ToSet(sorted[j])
    {
      var a, b := if p[i] < p[j] then p[i] else p[j], if p[i] < p[j] then p[j] else p[i];
      assert ToSet(components[a]) !! ToSet(components[b]);
    }
    forall v | v in done && OnCycle(g, v)
      ensures exists c :: c in sorted && v in c
    {
      var c :| c in components && v in c;
      assert c in sorted;
    }
  }

  /** Each component is sorted, and then the list of them. */
  method SortReport(graph: Graph, components: seq<seq<File>>) returns (sorted: seq<seq<File>>)
    requires ReportFor(graph, Nodes(graph), components)
    ensures ReportFor(graph, Nodes(graph), sorted)
  {
    var each := SortEach(components);
    ReportSorted(graph, Nodes(graph), components, each);
    var p;
    sorted, p := Arrange(each);
    ReportRearranged(graph, Nodes(graph), each, p);
  }

  /** The whole SCC pass. It throws exactly when the graph names the empty path; otherwise the
      result lists the cyclic strongly connected components, each exactly once, in any order. */
  method CollectStronglyConnectedComponents(graph: Graph, keys: seq<File>)
    returns (thrown: bool, components: seq<seq<File>>)
    requires ToSet(keys) == graph.Keys
    ensures thrown <==> exists f | f in Nodes(graph) :: Falsy(f)
    ensures !thrown ==> ReportFor(graph, Nodes(graph), components)
  {
    var search := new SccSearch(graph);
    thrown := search.Run(keys);
    if !thrown {
      components := SortReport(graph, search.components);
    } else {
      components := [];
    }
  }

  /** Two nodes share a reported component exactly when they reach each other and lie on a cycle. */
  lemma ReportCharacterized(g: Graph, components: seq<seq<File>>, a: File, b: File)
    requires ReportFor(g, Nodes(g), components)
    ensures (exists c :: c in components && a in c && b in c)
            <==> OnCycle(g, a) && Reach(g, a, b) && Reach(g, b, a)
  {
    if c :| c in components && a in c && b in c {
      assert ReportsCycle(g, c);
      assert a in ToSet(c) && b in ToSet(c);
    }
    if OnCycle(g, a) && Reach(g, a, b) && Reach(g, b, a) {
      assert a in Nodes(g);
      var c :| c in components && a in c;
      assert ReportsCycle(g, c);
      assert a in ToSet(c) && b in ToSet(c);
    }
  }

  /** The verdict: nothing is reported exactly when no file lies on an import cycle. */
  lemma EmptyReportIffAcyclic(g: Graph, components: seq<seq<File>>)
    requires ReportFor(g, Nodes(g), components)
    ensures components == [] <==> forall v | v in Nodes(g) :: !OnCycle(g, v)
  {
    if components != [] {
      var c := components[0];
      assert ReportsCycle(g, c);
      var v :| v in ToSet(c);
      assert ToSet(c) <= Nodes(g);
    }
  }

  /** A graph without a cycle for which the pass throws: some file imports the empty path. */
  lemma AcyclicGraphThrows()
    ensures var g := map[File("a") := [File("")]];
            && (exists f | f in Nodes(g) :: Falsy(f))
            && forall v | v in Nodes(g) :: !OnCycle(g, v)
  {
    var a, empty := File("a"), File("");
    var g := map[a := [empty]];
    assert |a.path| != |empty.path|;
    assert empty in Nodes(g) && Falsy(empty) by {
      assert a in g && empty in g[a];
    }
    forall v | v in Nodes(g)
      ensures !OnCycle(g, v)
    {
      if OnCycle(g, v) {
        var w :| Edge(g, v, w) && Reach(g, w, v);
        assert Closed(g, {empty}) && w == empty && v == a;
        ReachStaysInClosedSet(g, {empty}, w, v);
      }
    }
  }
}
