/** The cache of `discoverBedrockModels`: one fetch in flight per key, shared by later callers.
    A step is the code between two awaits; what the fetch returns, and when, is arbitrary. */
module BedrockDiscovery {

  /** The cache key holds everything a request depends on, the refresh interval included. */
  datatype Key = Key(request: string, refreshIntervalSeconds: nat)

  type Models = seq<string>

  datatype Outcome = Unresolved | Fetched(models: Models) | FetchFailed

  /** One run of the discovery promise. */
  datatype Fetch = Fetch(key: Key, startedAt: int, outcome: Outcome)

  datatype Entry = Value(expiresAt: int, models: Models) | InFlight(expiresAt: int, fetch: nat)

  /** `Owning` and `Joined` callers wait for a fetch; a joined caller is rejected if it fails. */
  datatype Phase = Owning(fetch: nat) | Joined(fetch: nat) | Returned(models: Models) | Rejected

  datatype Call = Call(key: Key, now: int, phase: Phase)

  datatype System = System(cache: map<Key, Entry>, fetches: seq<Fetch>, calls: seq<Call>)

  datatype Event =
    | Discover(key: Key, now: int)
    | Settle(fetch: nat, outcome: Outcome)
    | Resume(call: nat)

  const EMPTY := System(map[], [], [])

  function ExpiresAt(key: Key, startedAt: int): int {
    startedAt + key.refreshIntervalSeconds * 1000
  }

  predicate Caches(key: Key) {
    key.refreshIntervalSeconds > 0
  }

  predicate Enabled(s: System, e: Event) {
    match e
    case Discover(_, _) => true
    case Settle(f, outcome) => f < |s.fetches| && s.fetches[f].outcome.Unresolved? && !outcome.Unresolved?
    case Resume(c) =>
      && c < |s.calls|
      && (s.calls[c].phase.Owning? || s.calls[c].phase.Joined?)
      && s.calls[c].phase.fetch < |s.fetches|
      && !s.fetches[s.calls[c].phase.fetch].outcome.Unresolved?
  }

  /** A fresh value is served, an unresolved fetch is joined, anything else starts a fetch. */
  function Began(s: System, key: Key, now: int): System {
    if Caches(key) && key in s.cache && s.cache[key].Value? && s.cache[key].expiresAt > now
    then s.(calls := s.calls + [Call(key, now, Returned(s.cache[key].models))])
    else if Caches(key) && key in s.cache && s.cache[key].InFlight?
    then s.(calls := s.calls + [Call(key, now, Joined(s.cache[key].fetch))])
    else
      System(
        if Caches(key) then s.cache[key := InFlight(ExpiresAt(key, now), |s.fetches|)] else s.cache,
        s.fetches + [Fetch(key, now, Unresolved)],
        s.calls + [Call(key, now, Owning(|s.fetches|))])
  }

  function Resumed(s: System, c: nat): System
    requires Enabled(s, Resume(c))
  {
    var call := s.calls[c];
    var outcome := s.fetches[call.phase.fetch].outcome;
    if call.phase.Joined? then
      s.(calls := s.calls[c := call.(phase := if outcome.Fetched? then Returned(outcome.models) else Rejected)])
    else if outcome.Fetched? then
      s.(cache := if Caches(call.key)
                  then s.cache[call.key := Value(ExpiresAt(call.key, call.now), outcome.models)] else s.cache,
         calls := s.calls[c := call.(phase := Returned(outcome.models))])
    else
      s.(cache := if Caches(call.key) then s.cache - {call.key} else s.cache,
         calls := s.calls[c := call.(phase := Returned([]))])
  }

  function Next(s: System, e: Event): System
    requires Enabled(s, e)
  {
    match e
    case Discover(key, now) => Began(s, key, now)
    case Settle(f, outcome) => s.(fetches := s.fetches[f := s.fetches[f].(outcome := outcome)])
    case Resume(c) => Resumed(s, c)
  }

  predicate IsRun(s: System, events: seq<Event>)
    decreases |events|
  {
    events == [] || (Enabled(s, events[0]) && IsRun(Next(s, events[0]), events[1..]))
  }

  function After(s: System, events: seq<Event>): System
    requires IsRun(s, events)
    decreases |events|
  {
    if events == [] then s else After(Next(s, events[0]), events[1..])
  }

  // ---- What holds in every run ----

  predicate Owns(s: System, c: nat, f: nat) {
    c < |s.calls| && s.calls[c].phase == Owning(f)
  }

  /** An owner waits for its own fetch: same key, same start. */
  predicate OwnerMatches(s: System, c: nat) {
    c < |s.calls| && s.calls[c].phase.Owning? ==>
      && s.calls[c].phase.fetch < |s.fetches|
      && s.fetches[s.calls[c].phase.fetch].key == s.calls[c].key
      && s.fetches[s.calls[c].phase.fetch].startedAt == s.calls[c].now
      && (Caches(s.calls[c].key) ==>
            s.calls[c].key in s.cache
            && s.cache[s.calls[c].key] == InFlight(ExpiresAt(s.calls[c].key, s.calls[c].now), s.calls[c].phase.fetch))
  }

  ghost predicate OwnersMatch(s: System) {
    forall c | 0 <= c < |s.calls| :: OwnerMatches(s, c)
  }

  /** A joined caller waits for a fetch of its own key. */
  ghost predicate JoinsMatch(s: System) {
    forall c | 0 <= c < |s.calls| && s.calls[c].phase.Joined? ::
      s.calls[c].phase.fetch < |s.fetches| && s.fetches[s.calls[c].phase.fetch].key == s.calls[c].key
  }

  ghost predicate SoleOwners(s: System) {
    forall c, d | 0 <= c < d < |s.calls| && s.calls[c].phase.Owning? && s.calls[d].phase.Owning? ::
      s.calls[c].phase.fetch != s.calls[d].phase.fetch
  }

  /** Every unresolved fetch is still owned by a waiting caller. */
  ghost predicate UnresolvedOwned(s: System) {
    forall f | 0 <= f < |s.fetches| && s.fetches[f].outcome.Unresolved? :: exists c :: Owns(s, c, f)
  }

  /** A cached value is what some fetch of that key returned, with the expiry of that fetch. */
  predicate CameFrom(s: System, key: Key, f: nat) {
    && key in s.cache && s.cache[key].Value?
    && f < |s.fetches| && s.fetches[f].key == key
    && s.fetches[f].outcome == Fetched(s.cache[key].models)
    && s.cache[key].expiresAt == ExpiresAt(key, s.fetches[f].startedAt)
  }

  /** Caller `c` waits for the fetch that is in flight under `key`. */
  predicate WaitsFor(s: System, key: Key, c: nat) {
    key in s.cache && s.cache[key].InFlight? && Owns(s, c, s.cache[key].fetch) && s.calls[c].key == key
  }

  ghost predicate EntryGrounded(s: System, key: Key)
    requires key in s.cache
  {
    && Caches(key)
    && (s.cache[key].Value? ==> exists f :: CameFrom(s, key, f))
    && (s.cache[key].InFlight? ==> exists c :: WaitsFor(s, key, c))
  }

  ghost predicate CacheGrounded(s: System) {
    forall key | key in s.cache :: EntryGrounded(s, key)
  }

  ghost predicate Invariant(s: System) {
    OwnersMatch(s) && JoinsMatch(s) && SoleOwners(s) && UnresolvedOwned(s) && CacheGrounded(s)
  }

  lemma StepKeepsOwners(s: System, e: Event)
    requires OwnersMatch(s) && SoleOwners(s) && CacheGrounded(s) && Enabled(s, e)
    ensures OwnersMatch(Next(s, e))
  {
    var t := Next(s, e);
    forall d | 0 <= d < |t.calls|
      ensures OwnerMatches(t, d)
    {
      if d < |s.calls| {
        assert OwnerMatches(s, d);
        if e.Resume? {
          assert OwnerMatches(s, e.call);
        }
      }
    }
  }

  lemma StepKeepsSoleOwners(s: System, e: Event)
    requires OwnersMatch(s) && SoleOwners(s) && Enabled(s, e)
    ensures SoleOwners(Next(s, e))
  {
    var t := Next(s, e);
    forall c | 0 <= c < |s.calls|
      ensures s.calls[c].phase.Owning? ==> s.calls[c].phase.fetch < |s.fetches|
    {
      assert OwnerMatches(s, c);
    }
  }

  lemma StepKeepsJoins(s: System, e: Event)
    requires OwnersMatch(s) && JoinsMatch(s) && CacheGrounded(s) && Enabled(s, e)
    ensures JoinsMatch(Next(s, e))
  {
    if e.Discover? && Caches(e.key) && e.key in s.cache && s.cache[e.key].InFlight? {
      assert EntryGrounded(s, e.key);
      var c :| WaitsFor(s, e.key, c);
      assert OwnerMatches(s, c);
    }
  }

  lemma StepKeepsUnresolvedOwned(s: System, e: Event)
    requires UnresolvedOwned(s) && Enabled(s, e)
    ensures UnresolvedOwned(Next(s, e))
  {
    var t := Next(s, e);
    forall f | 0 <= f < |t.fetches| && t.fetches[f].outcome.Unresolved?
      ensures exists c :: Owns(t, c, f)
    {
      if f < |s.fetches| {
        var c :| Owns(s, c, f);
        assert Owns(t, c, f);
      } else {
        assert Owns(t, |s.calls|, f);
      }
    }
  }

  lemma StepKeepsCache(s: System, e: Event)
    requires Invariant(s) && Enabled(s, e)
    ensures CacheGrounded(Next(s, e))
  {
    var t := Next(s, e);
    forall key | key in t.cache
      ensures EntryGrounded(t, key)
    {
      match e
      case Discover(k, now) => DiscoverKeepsEntry(s, k, now, key);
      case Settle(f, outcome) => SettleKeepsEntry(s, f, outcome, key);
      case Resume(c) => ResumeKeepsEntry(s, c, key);
    }
  }

  lemma DiscoverKeepsEntry(s: System, k: Key, now: int, key: Key)
    requires CacheGrounded(s) && key in Began(s, k, now).cache
    ensures EntryGrounded(Began(s, k, now), key)
  {
    var t := Began(s, k, now);
    if key in s.cache && t.cache[key] == s.cache[key] {
      assert EntryGrounded(s, key);
      if s.cache[key].Value? {
        var f :| CameFrom(s, key, f);
        assert CameFrom(t, key, f);
      } else {
        var c :| WaitsFor(s, key, c);
        assert WaitsFor(t, key, c);
      }
    } else {
      assert WaitsFor(t, key, |s.calls|);
    }
  }

  lemma SettleKeepsEntry(s: System, f: nat, outcome: Outcome, key: Key)
    requires CacheGrounded(s) && Enabled(s, Settle(f, outcome)) && key in s.cache
    ensures EntryGrounded(Next(s, Settle(f, outcome)), key)
  {
    var t := Next(s, Settle(f, outcome));
    assert EntryGrounded(s, key);
    if s.cache[key].Value? {
      var g :| CameFrom(s, key, g);
      assert CameFrom(t, key, g);
    } else {
      var c :| WaitsFor(s, key, c);
      assert WaitsFor(t, key, c);
    }
  }

  lemma ResumeKeepsEntry(s: System, c: nat, key: Key)
    requires Invariant(s) && Enabled(s, Resume(c)) && key in Resumed(s, c).cache
    ensures EntryGrounded(Resumed(s, c), key)
  {
    var t := Resumed(s, c);
    assert OwnerMatches(s, c);
    if key in s.cache && t.cache[key] == s.cache[key] {
      assert EntryGrounded(s, key);
      if s.cache[key].Value? {
        var g :| CameFrom(s, key, g);
        assert CameFrom(t, key, g);
      } else {
        var d :| WaitsFor(s, key, d);
        assert d != c;
        assert WaitsFor(t, key, d);
      }
    } else {
      assert CameFrom(t, key, s.calls[c].phase.fetch);
    }
  }

  lemma StepKeepsInvariant(s: System, e: Event)
    requires Invariant(s) && Enabled(s, e)
    ensures Invariant(Next(s, e))
  {
    StepKeepsOwners(s, e);
    StepKeepsSoleOwners(s, e);
    StepKeepsJoins(s, e);
    StepKeepsUnresolvedOwned(s, e);
    StepKeepsCache(s, e);
  }

  lemma {:induction false} RunKeepsInvariant(s: System, events: seq<Event>)
    requires Invariant(s) && IsRun(s, events)
    ensures Invariant(After(s, events))
    decreases |events|
  {
    if events != [] {
      StepKeepsInvariant(s, events[0]);
      RunKeepsInvariant(Next(s, events[0]), events[1..]);
    }
  }

  lemma NoTwoInFlight(s: System, f: nat, g: nat)
    requires OwnersMatch(s) && UnresolvedOwned(s) && f < g < |s.fetches|
    requires s.fetches[f].outcome.Unresolved? && s.fetches[g].outcome.Unresolved?
    requires s.fetches[f].key == s.fetches[g].key
    ensures !Caches(s.fetches[f].key)
  {
    var c :| Owns(s, c, f);
    var d :| Owns(s, d, g);
    assert OwnerMatches(s, c) && OwnerMatches(s, d);
  }

  /** Single flight: in every run, no two fetches of one cached key are unresolved together. */
  lemma EveryRunIsSingleFlight(events: seq<Event>, f: nat, g: nat)
    requires IsRun(EMPTY, events)
    requires f < g < |After(EMPTY, events).fetches|
    requires After(EMPTY, events).fetches[f].key == After(EMPTY, events).fetches[g].key
    requires After(EMPTY, events).fetches[f].outcome.Unresolved?
    requires After(EMPTY, events).fetches[g].outcome.Unresolved?
    ensures After(EMPTY, events).fetches[f].key.refreshIntervalSeconds == 0
  {
    RunKeepsInvariant(EMPTY, events);
    NoTwoInFlight(After(EMPTY, events), f, g);
  }

  /** A caller answered from the cache gets what a fetch of its own key returned, started less than
      one refresh interval ago. */
  lemma ServedValueIsFresh(events: seq<Event>, key: Key, now: int) returns (f: nat)
    requires IsRun(EMPTY, events)
    requires var s := After(EMPTY, events); Began(s, key, now).calls[|s.calls|].phase.Returned?
    ensures var s := After(EMPTY, events);
            && f < |s.fetches| && s.fetches[f].key == key
            && s.fetches[f].outcome == Fetched(Began(s, key, now).calls[|s.calls|].phase.models)
            && now < s.fetches[f].startedAt + key.refreshIntervalSeconds * 1000
            && Began(s, key, now).fetches == s.fetches
  {
    RunKeepsInvariant(EMPTY, events);
    var s := After(EMPTY, events);
    assert EntryGrounded(s, key);
    f :| CameFrom(s, key, f);
  }

  /** When the owner of a fetch resumes, the entry under its key is its own; its set or delete
      touches no other key, and a failed fetch leaves no entry. */
  lemma OwnerSettlesItsOwnEntry(s: System, c: nat)
    requires Invariant(s) && Enabled(s, Resume(c)) && s.calls[c].phase.Owning? && Caches(s.calls[c].key)
    ensures var key, fetch := s.calls[c].key, s.calls[c].phase.fetch;
            var t := Next(s, Resume(c));
            && key in s.cache && s.cache[key].InFlight? && s.cache[key].fetch == fetch
            && t.cache - {key} == s.cache - {key}
            && (key in t.cache <==> s.fetches[fetch].outcome.Fetched?)
            && (key in t.cache ==> CameFrom(t, key, fetch))
  {
    assert OwnerMatches(s, c);
  }

  /** The cache has an unexpired value of fetch `f` under the key, or `f` is in flight for it. */
  predicate Supplies(s: System, key: Key, now: int, f: nat) {
    && key in s.cache
    && match s.cache[key]
       case Value(expiresAt, _) => CameFrom(s, key, f) && now < s.fetches[f].startedAt + key.refreshIntervalSeconds * 1000
       case InFlight(_, fetch) => fetch == f
  }

  /** A call starts a fetch of its key exactly when caching is off, or there is neither a value that has
      not expired nor a fetch in flight for the key. */
  lemma StartsFetchIff(s: System, key: Key, now: int)
    requires Invariant(s)
    ensures var t := Began(s, key, now);
            if key.refreshIntervalSeconds > 0 && (exists f :: Supplies(s, key, now, f))
            then t.fetches == s.fetches && !t.calls[|s.calls|].phase.Owning?
            else t.fetches == s.fetches + [Fetch(key, now, Unresolved)]
                 && t.calls[|s.calls|] == Call(key, now, Owning(|s.fetches|))
  {
    if key in s.cache {
      assert EntryGrounded(s, key);
      if s.cache[key].Value? {
        var f :| CameFrom(s, key, f);
        assert s.cache[key].expiresAt > now ==> Supplies(s, key, now, f);
      } else {
        assert Supplies(s, key, now, s.cache[key].fetch);
      }
    }
  }

  predicate TooEarly(key: Key, before: int, e: Event) {
    e.Discover? && e.key == key ==> e.now < before
  }

  /** Nothing that was started or answered is ever undone. */
  ghost predicate Grows(s: System, t: System) {
    && |s.fetches| <= |t.fetches| && |s.calls| <= |t.calls|
    && (forall f | 0 <= f < |s.fetches| :: t.fetches[f].key == s.fetches[f].key)
    && (forall c | 0 <= c < |s.calls| :: t.calls[c].key == s.calls[c].key)
    && (forall c | 0 <= c < |s.calls| && s.calls[c].phase.Returned? :: t.calls[c].phase == s.calls[c].phase)
  }

  predicate Answered(t: System, c: nat, key: Key, models: Models) {
    c < |t.calls| && (t.calls[c].key == key ==> t.calls[c].phase == Returned(models))
  }

  /** From `s` to `t` the value under `key` stayed, no fetch of `key` was started, and every caller for
      `key` that came was answered with the value. */
  ghost predicate ServedBetween(s: System, t: System, key: Key) {
    && key in s.cache && s.cache[key].Value? && key in t.cache && t.cache[key] == s.cache[key]
    && Grows(s, t)
    && (forall f | |s.fetches| <= f < |t.fetches| :: t.fetches[f].key != key)
    && (forall c | |s.calls| <= c < |t.calls| :: Answered(t, c, key, s.cache[key].models))
  }

  lemma ServedInStep(s: System, key: Key, e: Event)
    requires Invariant(s) && key in s.cache && s.cache[key].Value? && Enabled(s, e)
    requires TooEarly(key, s.cache[key].expiresAt, e)
    ensures ServedBetween(s, Next(s, e), key)
  {
    assert EntryGrounded(s, key);
    if e.Resume? {
      assert OwnerMatches(s, e.call);
    }
  }

  lemma ServedThrough(s: System, t: System, u: System, key: Key)
    requires ServedBetween(s, t, key) && ServedBetween(t, u, key)
    ensures ServedBetween(s, u, key)
  {
    forall c | |s.calls| <= c < |u.calls|
      ensures Answered(u, c, key, s.cache[key].models)
    {
      if c < |t.calls| {
        assert Answered(t, c, key, s.cache[key].models);
      }
    }
  }

  /** Once a value is cached, no run fetches its key again before the value expires, and every
      caller in between is answered from it. */
  lemma {:induction false} OneFetchPerWindow(s: System, key: Key, events: seq<Event>)
    requires Invariant(s) && key in s.cache && s.cache[key].Value? && IsRun(s, events)
    requires forall e | e in events :: TooEarly(key, s.cache[key].expiresAt, e)
    ensures ServedBetween(s, After(s, events), key)
    decreases |events|
  {
    if events != [] {
      var t := Next(s, events[0]);
      StepKeepsInvariant(s, events[0]);
      ServedInStep(s, key, events[0]);
      OneFetchPerWindow(t, key, events[1..]);
      ServedThrough(s, t, After(t, events[1..]), key);
    }
  }

  // ---- What a caller is answered with ----

  predicate Waiting(phase: Phase) {
    phase.Owning? || phase.Joined?
  }

  /** The end of a waiting caller, by the outcome of the fetch it waits for. */
  predicate AnsweredBy(before: Phase, outcome: Outcome, after: Phase) {
    match outcome
    case Unresolved => false
    case Fetched(models) => after == Returned(models)
    case FetchFailed => if before.Owning? then after == Returned([]) else after == Rejected
  }

  /** What has happened from `s` to `t` to a caller `c` that waits for fetch `f` in `s`. */
  predicate StillOrAnswered(s: System, t: System, c: nat, f: nat)
    requires c < |s.calls| && c < |t.calls| && f < |t.fetches|
  {
    t.calls[c].phase == s.calls[c].phase || AnsweredBy(s.calls[c].phase, t.fetches[f].outcome, t.calls[c].phase)
  }

  /** No step renames a call or a fetch, or changes an outcome or an answer once it is there. */
  ghost predicate Settles(s: System, t: System) {
    && Grows(s, t)
    && (forall f | 0 <= f < |s.fetches| && !s.fetches[f].outcome.Unresolved? :: t.fetches[f] == s.fetches[f])
    && (forall c | 0 <= c < |s.calls| && !Waiting(s.calls[c].phase) :: t.calls[c] == s.calls[c])
  }

  lemma StepSettles(s: System, e: Event)
    requires Enabled(s, e)
    ensures Settles(s, Next(s, e))
  {}

  lemma WaiterStep(s: System, e: Event, c: nat)
    requires Invariant(s) && Enabled(s, e) && c < |s.calls| && Waiting(s.calls[c].phase)
    ensures s.calls[c].phase.fetch < |s.fetches| && c < |Next(s, e).calls| && |s.fetches| <= |Next(s, e).fetches|
    ensures StillOrAnswered(s, Next(s, e), c, s.calls[c].phase.fetch)
  {
    assert OwnerMatches(s, c);
  }

  lemma {:induction false} RunSettles(s: System, events: seq<Event>)
    requires IsRun(s, events)
    ensures Settles(s, After(s, events))
    decreases |events|
  {
    if events != [] {
      StepSettles(s, events[0]);
      RunSettles(Next(s, events[0]), events[1..]);
    }
  }

  /** However a run goes on, a waiting caller either still waits, or its fetch was successful and it got
      exactly those models, or its fetch failed and it got none if it owned the fetch and an error if
      it had joined. */
  lemma {:induction false} WaiterGetsOutcome(s: System, events: seq<Event>, c: nat)
    requires Invariant(s) && IsRun(s, events) && c < |s.calls| && Waiting(s.calls[c].phase)
    ensures s.calls[c].phase.fetch < |s.fetches| && s.fetches[s.calls[c].phase.fetch].key == s.calls[c].key
    ensures c < |After(s, events).calls| && |s.fetches| <= |After(s, events).fetches|
    ensures StillOrAnswered(s, After(s, events), c, s.calls[c].phase.fetch)
    decreases |events|
  {
    assert OwnerMatches(s, c);
    RunSettles(s, events);
    if events != [] {
      var t := Next(s, events[0]);
      WaiterStep(s, events[0], c);
      StepKeepsInvariant(s, events[0]);
      RunSettles(t, events[1..]);
      if Waiting(t.calls[c].phase) {
        WaiterGetsOutcome(t, events[1..], c);
      }
    }
  }

  /** When a waiting caller resumes, it is answered; other callers are not touched. */
  lemma ResumeAnswers(s: System, c: nat)
    requires Invariant(s) && Enabled(s, Resume(c))
    ensures AnsweredBy(s.calls[c].phase, s.fetches[s.calls[c].phase.fetch].outcome, Next(s, Resume(c)).calls[c].phase)
    ensures Next(s, Resume(c)).calls == s.calls[c := Next(s, Resume(c)).calls[c]]
    ensures Next(s, Resume(c)).fetches == s.fetches
  {
    assert OwnerMatches(s, c);
  }

  /** The call waits, or its answer has this ground: some fetch of its key returned it, or failed. */
  predicate Grounds(s: System, call: Call, f: nat) {
    && f < |s.fetches| && s.fetches[f].key == call.key
    && match call.phase
       case Returned(models) =>
         || s.fetches[f].outcome == Fetched(models)
         || (s.fetches[f].outcome == FetchFailed && s.fetches[f].startedAt == call.now && models == [])
       case Rejected => s.fetches[f].outcome == FetchFailed
       case _ => true
  }

  ghost predicate Grounded(s: System, c: nat) {
    c < |s.calls| && exists f: nat :: Grounds(s, s.calls[c], f)
  }

  ghost predicate AnswersGrounded(s: System) {
    forall c | 0 <= c < |s.calls| :: Grounded(s, c)
  }

  lemma OldCallGrounded(s: System, t: System, c: nat)
    requires Settles(s, t) && Grounded(s, c) && t.calls[c] == s.calls[c]
    ensures Grounded(t, c)
  {
    var f: nat :| Grounds(s, s.calls[c], f);
    assert t.fetches[f].key == s.fetches[f].key;
    assert Grounds(t, t.calls[c], f);
  }

  lemma ResumedGrounded(s: System, c: nat)
    requires Invariant(s) && Enabled(s, Resume(c))
    ensures Grounded(Next(s, Resume(c)), c)
  {
    assert OwnerMatches(s, c);
    var t := Next(s, Resume(c));
    assert Grounds(t, t.calls[c], s.calls[c].phase.fetch);
  }

  lemma StepKeepsAnswers(s: System, e: Event)
    requires Invariant(s) && AnswersGrounded(s) && Enabled(s, e)
    ensures AnswersGrounded(Next(s, e))
  {
    var t := Next(s, e);
    StepSettles(s, e);
    forall c | 0 <= c < |t.calls|
      ensures Grounded(t, c)
    {
      if e.Resume? && c == e.call {
        ResumedGrounded(s, c);
      } else if c < |s.calls| {
        assert Grounded(s, c);
        OldCallGrounded(s, t, c);
      } else {
        NewCallGrounded(s, e.key, e.now);
      }
    }
  }

  lemma NewCallGrounded(s: System, key: Key, now: int)
    requires Invariant(s)
    ensures Grounded(Began(s, key, now), |s.calls|)
  {
    var t := Began(s, key, now);
    if key in s.cache {
      assert EntryGrounded(s, key);
    }
    match t.calls[|s.calls|].phase
    case Returned(_) =>
      var f :| CameFrom(s, key, f);
      assert Grounds(t, t.calls[|s.calls|], f);
    case Joined(f) =>
      var c :| WaitsFor(s, key, c);
      assert OwnerMatches(s, c);
      assert Grounds(t, t.calls[|s.calls|], f);
    case Owning(f) =>
      assert Grounds(t, t.calls[|s.calls|], f);
    case Rejected =>
  }

  lemma {:induction false} RunKeepsAnswers(s: System, events: seq<Event>)
    requires Invariant(s) && AnswersGrounded(s) && IsRun(s, events)
    ensures AnswersGrounded(After(s, events))
    decreases |events|
  {
    if events != [] {
      StepKeepsAnswers(s, events[0]);
      StepKeepsInvariant(s, events[0]);
      RunKeepsAnswers(Next(s, events[0]), events[1..]);
    }
  }

  /** In every run each answer has a fetch of the caller's own key behind it: one that returned just
      these models, or a failed one, which gives its own caller no models and others an error. */
  lemma EveryAnswerIsGrounded(events: seq<Event>, c: nat) returns (f: nat)
    requires IsRun(EMPTY, events) && c < |After(EMPTY, events).calls|
    ensures Grounds(After(EMPTY, events), After(EMPTY, events).calls[c], f)
  {
    RunKeepsAnswers(EMPTY, events);
    assert Grounded(After(EMPTY, events), c);
    f :| Grounds(After(EMPTY, events), After(EMPTY, events).calls[c], f);
  }

  /** A fetch keeps the outcome it settles with. */
  lemma SettledStays(s: System, f: nat, outcome: Outcome, events: seq<Event>)
    requires Enabled(s, Settle(f, outcome)) && IsRun(Next(s, Settle(f, outcome)), events)
    ensures var t := After(Next(s, Settle(f, outcome)), events);
            f < |t.fetches| && t.fetches[f] == s.fetches[f].(outcome := outcome)
  {
    RunSettles(Next(s, Settle(f, outcome)), events);
  }

  // ---- The cache as the code keeps it ----

  class Discovery {
    var discoveryCache: map<Key, Entry>
    var fetches: seq<Fetch>
    var calls: seq<Call>

    ghost function Snapshot(): System
      reads this
    {
      System(discoveryCache, fetches, calls)
    }

    constructor ()
      ensures Snapshot() == EMPTY
    {
      discoveryCache, fetches, calls := map[], [], [];
    }

    method DiscoverModels(key: Key, now: int)
      modifies this
      ensures Snapshot() == Next(old(Snapshot()), Discover(key, now))
    {
      if key.refreshIntervalSeconds > 0 && key in discoveryCache {
        var cached := discoveryCache[key];
        if cached.Value? && cached.expiresAt > now {
          calls := calls + [Call(key, now, Returned(cached.models))];
          return;
        }
        if cached.InFlight? {
          calls := calls + [Call(key, now, Joined(cached.fetch))];
          return;
        }
      }
      var fetch := |fetches|;
      fetches := fetches + [Fetch(key, now, Unresolved)];
      if key.refreshIntervalSeconds > 0 {
        discoveryCache := discoveryCache[key := InFlight(ExpiresAt(key, now), fetch)];
      }
      calls := calls + [Call(key, now, Owning(fetch))];
    }

    method SettleFetch(f: nat, outcome: Outcome)
      requires Enabled(Snapshot(), Settle(f, outcome))
      modifies `fetches
      ensures Snapshot() == Next(old(Snapshot()), Settle(f, outcome))
    {
      fetches := fetches[f := fetches[f].(outcome := outcome)];
    }

    method ResumeCall(c: nat)
      requires Enabled(Snapshot(), Resume(c))
      modifies `discoveryCache, `calls
      ensures Snapshot() == Next(old(Snapshot()), Resume(c))
    {
      var call := calls[c];
      var outcome := fetches[call.phase.fetch].outcome;
      if call.phase.Joined? {
        calls := calls[c := call.(phase := if outcome.Fetched? then Returned(outcome.models) else Rejected)];
        return;
      }
      if outcome.Fetched? {
        if call.key.refreshIntervalSeconds > 0 {
          discoveryCache := discoveryCache[call.key := Value(ExpiresAt(call.key, call.now), outcome.models)];
        }
        calls := calls[c := call.(phase := Returned(outcome.models))];
      } else {
        if call.key.refreshIntervalSeconds > 0 {
          discoveryCache := discoveryCache - {call.key};
        }
        calls := calls[c := call.(phase := Returned([]))];
      }
    }
  }
}
