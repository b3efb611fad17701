/** `mapConcurrent`: workers that share one index. A step is the code a worker runs between two
    awaits; any interleaving of worker steps is a run. */
module WorkerPool {

  /** What the mapper's promise for one item settles to. */
  datatype Answer<R> = Value(value: R) | Rejection

  datatype Slot<R> = Hole | Filled(value: R)

  datatype Worker = Idle | Mapping(index: nat) | Exited | Crashed(index: nat)

  datatype MapperCall<T> = MapperCall(item: T, index: nat)

  /** `calls` is the log of the mapper's calls. */
  datatype Pool<T, R> = Pool(
    items: seq<T>,
    nextIndex: nat,
    results: seq<Slot<R>>,
    workers: seq<Worker>,
    calls: seq<MapperCall<T>>)

  datatype Event = Begin(worker: nat) | Resume(worker: nat)

  function WorkerCount(limit: int, n: nat): (count: nat)
    ensures 1 <= count
    ensures count <= n || count == 1
    ensures count <= limit || count == 1
    ensures 1 <= limit && 1 <= n ==> count == limit || count == n
  {
    var most := if limit <= n then limit else n;
    if most <= 1 then 1 else most
  }

  function Start<T, R>(items: seq<T>, limit: int): (p: Pool<T, R>)
    ensures InBounds(p)
  {
    Pool(items, 0, seq(|items|, i => Hole), seq(WorkerCount(limit, |items|), i => Idle), [])
  }

  predicate Enabled<T, R>(p: Pool<T, R>, e: Event) {
    && e.worker < |p.workers|
    && match e case Begin(w) => p.workers[w].Idle? case Resume(w) => p.workers[w].Mapping?
  }

  /** The head of the worker's loop: claim the next index and call the mapper, or leave. */
  function Claim<T, R>(p: Pool<T, R>, w: nat): Pool<T, R>
    requires w < |p.workers|
  {
    if p.nextIndex < |p.items|
    then
      p.(nextIndex := p.nextIndex + 1,
         workers := p.workers[w := Mapping(p.nextIndex)],
         calls := p.calls + [MapperCall(p.items[p.nextIndex], p.nextIndex)])
    else p.(workers := p.workers[w := Exited])
  }

  function Answered<T, R>(mapper: (T, nat) -> Answer<R>, p: Pool<T, R>, i: nat): Answer<R>
    requires i < |p.items|
  {
    mapper(p.items[i], i)
  }

  ghost predicate InBounds<T, R>(p: Pool<T, R>) {
    && |p.results| == |p.items|
    && p.nextIndex <= |p.items|
    && (forall w | 0 <= w < |p.workers| && p.workers[w].Mapping? :: p.workers[w].index < p.nextIndex)
    && (forall w | 0 <= w < |p.workers| && p.workers[w].Crashed? :: p.workers[w].index < p.nextIndex)
  }

  ghost function Next<T, R>(mapper: (T, nat) -> Answer<R>, p: Pool<T, R>, e: Event): Pool<T, R>
    requires InBounds(p) && Enabled(p, e)
  {
    match e
    case Begin(w) => Claim(p, w)
    case Resume(w) =>
      var i := p.workers[w].index;
      match Answered(mapper, p, i)
      case Value(v) => Claim(p.(results := p.results[i := Filled(v)]), w)
      case Rejection => p.(workers := p.workers[w := Crashed(i)])
  }

  // ---- What holds in every run ----

  /** No two workers ever hold the same index. */
  ghost predicate Disjoint<T, R>(p: Pool<T, R>) {
    forall v, w | 0 <= v < w < |p.workers| && !p.workers[v].Idle? && !p.workers[v].Exited?
                  && !p.workers[w].Idle? && !p.workers[w].Exited? ::
      p.workers[v].index != p.workers[w].index
  }

  predicate Holds<T, R>(p: Pool<T, R>, w: nat, i: nat) {
    w < |p.workers| && (p.workers[w] == Mapping(i) || p.workers[w] == Crashed(i))
  }

  /** A held index has no result yet. */
  ghost predicate HeldIsHole<T, R>(p: Pool<T, R>)
    requires InBounds(p)
  {
    forall w: nat, i: nat | Holds(p, w, i) :: p.results[i] == Hole
  }

  /** Index `i` is unclaimed, held by a worker, or answered. */
  ghost predicate Accounted<T, R>(mapper: (T, nat) -> Answer<R>, p: Pool<T, R>, i: nat)
    requires InBounds(p) && i < |p.items|
  {
    if i >= p.nextIndex then p.results[i] == Hole
    else
      || (exists w :: Holds(p, w, i))
      || (Answered(mapper, p, i).Value? && p.results[i] == Filled(Answered(mapper, p, i).value))
  }

  ghost predicate AllAccounted<T, R>(mapper: (T, nat) -> Answer<R>, p: Pool<T, R>)
    requires InBounds(p)
  {
    forall i | 0 <= i < |p.items| :: Accounted(mapper, p, i)
  }

  /** A worker leaves only when nothing is left to claim, and crashes only on a rejection. */
  ghost predicate Leavers<T, R>(mapper: (T, nat) -> Answer<R>, p: Pool<T, R>)
    requires InBounds(p)
  {
    && (forall w | 0 <= w < |p.workers| && p.workers[w].Exited? :: p.nextIndex == |p.items|)
    && (forall w | 0 <= w < |p.workers| && p.workers[w].Crashed? ::
          Answered(mapper, p, p.workers[w].index).Rejection?)
  }

  /** The mapper was called once for each claimed index, with that index's item, in index order. */
  ghost predicate CalledInOrder<T, R>(p: Pool<T, R>) {
    |p.calls| == p.nextIndex <= |p.items| && forall i | 0 <= i < |p.calls| :: p.calls[i] == MapperCall(p.items[i], i)
  }

  ghost predicate Invariant<T, R>(mapper: (T, nat) -> Answer<R>, p: Pool<T, R>) {
    && InBounds(p)
    && Disjoint(p)
    && HeldIsHole(p)
    && AllAccounted(mapper, p)
    && Leavers(mapper, p)
    && CalledInOrder(p)
  }

  lemma StepInBounds<T, R>(mapper: (T, nat) -> Answer<R>, p: Pool<T, R>, e: Event)
    requires InBounds(p) && Enabled(p, e)
    ensures InBounds(Next(mapper, p, e))
    ensures Next(mapper, p, e).items == p.items && |Next(mapper, p, e).workers| == |p.workers|
  {}

  lemma StepKeepsDisjoint<T, R>(mapper: (T, nat) -> Answer<R>, p: Pool<T, R>, e: Event)
    requires InBounds(p) && Disjoint(p) && Enabled(p, e)
    ensures Disjoint(Next(mapper, p, e))
  {}

  lemma StepKeepsHoles<T, R>(mapper: (T, nat) -> Answer<R>, p: Pool<T, R>, e: Event)
    requires Invariant(mapper, p) && Enabled(p, e)
    ensures InBounds(Next(mapper, p, e)) && HeldIsHole(Next(mapper, p, e))
  {
    StepInBounds(mapper, p, e);
    var q := Next(mapper, p, e);
    forall w: nat, i: nat | Holds(q, w, i)
      ensures q.results[i] == Hole
    {
      if i == p.nextIndex {
        assert Accounted(mapper, p, i);
      } else {
        assert Holds(p, w, i);
      }
    }
  }

  lemma StepKeepsAccounts<T, R>(mapper: (T, nat) -> Answer<R>, p: Pool<T, R>, e: Event)
    requires InBounds(p) && AllAccounted(mapper, p) && Enabled(p, e)
    ensures InBounds(Next(mapper, p, e)) && AllAccounted(mapper, Next(mapper, p, e))
  {
    StepInBounds(mapper, p, e);
    var q := Next(mapper, p, e);
    forall i | 0 <= i < |q.items|
      ensures Accounted(mapper, q, i)
    {
      assert Accounted(mapper, p, i);
      if i == p.nextIndex < q.nextIndex {
        assert Holds(q, e.worker, i);
      } else if w :| Holds(p, w, i) {
        assert w != e.worker ==> Holds(q, w, i);
        if w == e.worker && Answered(mapper, p, i).Rejection? {
          assert Holds(q, w, i);
        }
      }
    }
  }

  lemma StepKeepsLeavers<T, R>(mapper: (T, nat) -> Answer<R>, p: Pool<T, R>, e: Event)
    requires InBounds(p) && Leavers(mapper, p) && Enabled(p, e)
    ensures InBounds(Next(mapper, p, e)) && Leavers(mapper, Next(mapper, p, e))
  {
    StepInBounds(mapper, p, e);
  }

  lemma StepKeepsInvariant<T, R>(mapper: (T, nat) -> Answer<R>, p: Pool<T, R>, e: Event)
    requires Invariant(mapper, p) && Enabled(p, e)
    ensures Invariant(mapper, Next(mapper, p, e))
  {
    StepInBounds(mapper, p, e);
    StepKeepsDisjoint(mapper, p, e);
    StepKeepsHoles(mapper, p, e);
    StepKeepsAccounts(mapper, p, e);
    StepKeepsLeavers(mapper, p, e);
  }

  ghost predicate IsRun<T, R>(mapper: (T, nat) -> Answer<R>, p: Pool<T, R>, events: seq<Event>)
    requires InBounds(p)
    decreases |events|
  {
    events != [] ==>
      && Enabled(p, events[0])
      && (StepInBounds(mapper, p, events[0]); IsRun(mapper, Next(mapper, p, events[0]), events[1..]))
  }

  ghost function After<T, R>(mapper: (T, nat) -> Answer<R>, p: Pool<T, R>, events: seq<Event>): Pool<T, R>
    requires InBounds(p) && IsRun(mapper, p, events)
    decreases |events|
  {
    if events == [] then p
    else StepInBounds(mapper, p, events[0]); After(mapper, Next(mapper, p, events[0]), events[1..])
  }

  // ---- Steps left ----

  function WorkerSteps(w: Worker): nat {
    match w case Idle => 2 case Mapping(_) => 1 case Exited => 0 case Crashed(_) => 0
  }

  function TotalSteps(workers: seq<Worker>): nat {
    if workers == [] then 0 else TotalSteps(workers[..|workers| - 1]) + WorkerSteps(workers[|workers| - 1])
  }

  function StepsLeft<T, R>(p: Pool<T, R>): int {
    TotalSteps(p.workers) + |p.items| - p.nextIndex
  }

  lemma {:induction false} TotalAfterUpdate(workers: seq<Worker>, i: nat, w: Worker)
    requires i < |workers|
    ensures TotalSteps(workers[i := w]) == TotalSteps(workers) - WorkerSteps(workers[i]) + WorkerSteps(w)
    decreases |workers|
  {
    var n := |workers| - 1;
    if i < n {
      TotalAfterUpdate(workers[..n], i, w);
      assert workers[i := w][..n] == workers[..n][i := w];
    } else {
      assert workers[i := w][..n] == workers[..n];
    }
  }

  lemma StepUsesStep<T, R>(mapper: (T, nat) -> Answer<R>, p: Pool<T, R>, e: Event)
    requires InBounds(p) && Enabled(p, e)
    ensures StepsLeft(Next(mapper, p, e)) < StepsLeft(p)
  {
    TotalAfterUpdate(p.workers, e.worker, Next(mapper, p, e).workers[e.worker]);
  }

  // ---- The main results ----

  lemma {:induction false} RunKeepsInvariant<T, R>(mapper: (T, nat) -> Answer<R>, p: Pool<T, R>, events: seq<Event>)
    requires Invariant(mapper, p) && IsRun(mapper, p, events)
    ensures Invariant(mapper, After(mapper, p, events))
    ensures After(mapper, p, events).items == p.items
    ensures |After(mapper, p, events).workers| == |p.workers|
    ensures |events| <= StepsLeft(p) - StepsLeft(After(mapper, p, events))
    decreases |events|
  {
    if events != [] {
      StepInBounds(mapper, p, events[0]);
      StepKeepsInvariant(mapper, p, events[0]);
      StepUsesStep(mapper, p, events[0]);
      RunKeepsInvariant(mapper, Next(mapper, p, events[0]), events[1..]);
    }
  }

  lemma StartInvariant<T, R>(mapper: (T, nat) -> Answer<R>, items: seq<T>, limit: int)
    ensures Invariant(mapper, Start<T, R>(items, limit))
  {}

  function InFlight(workers: seq<Worker>): nat {
    if workers == [] then 0
    else InFlight(workers[..|workers| - 1]) + if workers[|workers| - 1].Mapping? then 1 else 0
  }

  lemma {:induction false} InFlightBounded(workers: seq<Worker>)
    ensures InFlight(workers) <= |workers|
    decreases |workers|
  {
    if workers != [] {
      InFlightBounded(workers[..|workers| - 1]);
    }
  }

  /** In every run no index is held twice, a held index has no result, the number of mapper calls in
      flight never exceeds max(1, min(limit, n)), and call `k` of the mapper is the one for item `k`:
      over the whole run no index is ever called twice. */
  lemma EveryRunClaimsOnce<T, R>(mapper: (T, nat) -> Answer<R>, items: seq<T>, limit: int, events: seq<Event>)
    requires IsRun(mapper, Start(items, limit), events)
    ensures var p := After(mapper, Start(items, limit), events);
            && (forall v: nat, w: nat, i: nat | v < w && Holds(p, v, i) :: !Holds(p, w, i))
            && (forall w: nat, i: nat | Holds(p, w, i) :: i < |p.results| && p.results[i] == Hole)
            && InFlight(p.workers) <= WorkerCount(limit, |items|)
            && (forall k | 0 <= k < |p.calls| :: k < |items| && p.calls[k] == MapperCall(items[k], k))
  {
    StartInvariant(mapper, items, limit);
    RunKeepsInvariant(mapper, Start(items, limit), events);
    InFlightBounded(After(mapper, Start(items, limit), events).workers);
  }

  lemma {:induction false} InFlightAll(workers: seq<Worker>)
    requires forall w | 0 <= w < |workers| :: workers[w].Mapping?
    ensures InFlight(workers) == |workers|
    decreases |workers|
  {
    if workers != [] {
      InFlightAll(workers[..|workers| - 1]);
    }
  }

  /** The limit is used: while an item is unclaimed, all workers have begun and none has failed, as many
      mapper calls are in flight as the limit and the number of items allow. */
  lemma UnclaimedKeepsAllBusy<T, R>(mapper: (T, nat) -> Answer<R>, items: seq<T>, limit: int, events: seq<Event>)
    requires IsRun(mapper, Start(items, limit), events)
    requires var p := After(mapper, Start(items, limit), events);
             p.nextIndex < |items| && forall w | 0 <= w < |p.workers| :: !p.workers[w].Idle? && !p.workers[w].Crashed?
    ensures InFlight(After(mapper, Start(items, limit), events).workers)
            == if limit < 1 then 1 else if limit < |items| then limit else |items|
  {
    StartInvariant(mapper, items, limit);
    RunKeepsInvariant(mapper, Start(items, limit), events);
    InFlightAll(After(mapper, Start(items, limit), events).workers);
  }

  ghost predicate Finished<T, R>(p: Pool<T, R>) {
    forall w | 0 <= w < |p.workers| :: p.workers[w].Exited? || p.workers[w].Crashed?
  }

  /** The pool's promise resolves when every worker has returned. */
  ghost predicate Resolved<T, R>(p: Pool<T, R>) {
    forall w | 0 <= w < |p.workers| :: p.workers[w].Exited?
  }

  /** A finished pool resolves exactly when the mapper answers every item, and then result `i` is
      the answer for item `i`, whatever order the answers came in, and every index was called: with
      `EveryRunClaimsOnce`, exactly once. */
  lemma FinishedRunIsMap<T, R>(mapper: (T, nat) -> Answer<R>, items: seq<T>, limit: int, events: seq<Event>)
    requires IsRun(mapper, Start(items, limit), events)
    requires Finished(After(mapper, Start(items, limit), events))
    ensures var p := After(mapper, Start(items, limit), events);
            && (Resolved(p) <==> forall i | 0 <= i < |items| :: mapper(items[i], i).Value?)
            && (Resolved(p) ==>
                  (|p.results| == |p.calls| == |items|
                   && forall i | 0 <= i < |items| :: p.results[i] == Filled(mapper(items[i], i).value)))
  {
    StartInvariant(mapper, items, limit);
    RunKeepsInvariant(mapper, Start(items, limit), events);
    var p := After(mapper, Start(items, limit), events);
    if Resolved(p) {
      assert p.workers[0].Exited?;
      forall i | 0 <= i < |items|
        ensures mapper(items[i], i).Value? && p.results[i] == Filled(mapper(items[i], i).value)
      {
        assert Accounted(mapper, p, i);
      }
    } else {
      var w :| 0 <= w < |p.workers| && !p.workers[w].Exited?;
      assert Answered(mapper, p, p.workers[w].index).Rejection?;
    }
  }

  lemma {:induction false} StepsOfIdle(workers: seq<Worker>)
    ensures TotalSteps(workers) <= 2 * |workers|
    decreases |workers|
  {
    if workers != [] {
      StepsOfIdle(workers[..|workers| - 1]);
    }
  }

  /** No run is longer than n plus two steps per worker, so every pool finishes. */
  lemma EveryRunEnds<T, R>(mapper: (T, nat) -> Answer<R>, items: seq<T>, limit: int, events: seq<Event>)
    requires IsRun(mapper, Start(items, limit), events)
    ensures |events| <= |items| + 2 * WorkerCount(limit, |items|)
  {
    StartInvariant(mapper, items, limit);
    RunKeepsInvariant(mapper, Start(items, limit), events);
    StepsOfIdle(Start<T, R>(items, limit).workers);
  }

  /** An unfinished pool always has a step to take. */
  lemma UnfinishedCanStep<T, R>(p: Pool<T, R>) returns (e: Event)
    requires !Finished(p)
    ensures Enabled(p, e)
  {
    var w :| 0 <= w < |p.workers| && !p.workers[w].Exited? && !p.workers[w].Crashed?;
    e := if p.workers[w].Idle? then Begin(w) else Resume(w);
  }

  // ---- The pool as the code keeps it ----

  class ConcurrentMap<T, R> {
    const items: seq<T>
    const mapper: (T, nat) -> Answer<R>
    var nextIndex: nat
    var results: seq<Slot<R>>
    var workers: seq<Worker>
    ghost var calls: seq<MapperCall<T>>

    ghost function Snapshot(): Pool<T, R>
      reads this
    {
      Pool(items, nextIndex, results, workers, calls)
    }

    constructor (items: seq<T>, limit: int, mapper: (T, nat) -> Answer<R>)
      ensures Snapshot() == Start(items, limit) && this.mapper == mapper
    {
      this.items, this.mapper, nextIndex := items, mapper, 0;
      results := seq(|items|, i => Hole);
      workers := seq(WorkerCount(limit, |items|), i => Idle);
      calls := [];
    }

    method ClaimNext(w: nat)
      requires w < |workers|
      modifies `nextIndex, `workers, `calls
      ensures Snapshot() == Claim(old(Snapshot()), w)
    {
      if nextIndex < |items| {
        var index := nextIndex;
        nextIndex := nextIndex + 1;
        workers := workers[w := Mapping(index)];
        calls := calls + [MapperCall(items[index], index)];
      } else {
        workers := workers[w := Exited];
      }
    }

    method BeginWorker(w: nat)
      requires InBounds(Snapshot()) && Enabled(Snapshot(), Begin(w))
      modifies `nextIndex, `workers, `calls
      ensures Snapshot() == Next(mapper, old(Snapshot()), Begin(w))
    {
      ClaimNext(w);
    }

    method ResumeWorker(w: nat)
      requires InBounds(Snapshot()) && Enabled(Snapshot(), Resume(w))
      modifies `nextIndex, `results, `workers, `calls
      ensures Snapshot() == Next(mapper, old(Snapshot()), Resume(w))
    {
      var index := workers[w].index;
      var answer := mapper(items[index], index);
      if answer.Rejection? {
        workers := workers[w := Crashed(index)];
      } else {
        results := results[index := Filled(answer.value)];
        ClaimNext(w);
      }
    }
  }
}
