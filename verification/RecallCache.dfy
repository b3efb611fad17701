/** The bounded, insertion-ordered, timed cache of recall results. The cache is the list of its
    slots in insertion order; every clock reading is an arbitrary parameter. */
module RecallCache {
  import opened Sets
  import opened Wrappers

  const DEFAULT_MAX_CACHE_ENTRIES := 1000

  datatype Status = Ok | Empty | Timeout | Unavailable

  datatype Recall = Recall(status: Status, summary: Option<string>)

  datatype Slot = Slot(key: string, expiresAt: int, result: Recall)

  type Cache = seq<Slot>

  predicate ShouldCache(result: Recall) {
    result.status.Ok? || result.status.Empty?
  }

  /** What a recall is for; `hash` stands for the hash of its query. */
  datatype Scope = Scope(agentId: string, sessionKey: Option<string>, sessionId: Option<string>, hash: string)

  function SessionOf(scope: Scope): string {
    match scope.sessionKey
    case Some(k) => k
    case None => match scope.sessionId case Some(id) => id case None => "none"
  }

  /** Two separators stand in every key, so none is empty. */
  function BuildCacheKey(scope: Scope): (key: string)
    ensures key != ""
  {
    scope.agentId + ":" + SessionOf(scope) + ":" + scope.hash
  }

  /** The agent of `a` reads as the agent of `b`, a colon and the start of its session. */
  predicate Shifted(a: Scope, b: Scope) {
    var n := |b.agentId|;
    && n < |a.agentId| && a.agentId[..n] == b.agentId && a.agentId[n] == ':'
    && SessionOf(b) == a.agentId[n + 1..] + ":" + SessionOf(a)
  }

  lemma EqualTails(p: string, s: string, q: string, t: string)
    requires |s| == |t|
    ensures p + s == q + t <==> p == q && s == t
  {
    if p + s == q + t {
      assert p == (p + s)[..|p|] && s == (p + s)[|p|..];
      assert q == (q + t)[..|q|] && t == (q + t)[|q|..];
    }
  }

  lemma ColonBetween(p: string, s: string, q: string, t: string)
    requires |p| > |q|
    ensures p + ":" + s == q + ":" + t <==> p[..|q|] == q && p[|q|] == ':' && t == p[|q| + 1..] + ":" + s
  {
    var n := |q|;
    if p + ":" + s == q + ":" + t {
      var key := p + ":" + s;
      assert p[..n] == key[..n] && q == key[..n] && p[n] == key[n] == ':';
      assert t == (q + ":" + t)[n + 1..] == key[n + 1..] == p[n + 1..] + ":" + s;
    }
    if p[..n] == q && p[n] == ':' && t == p[n + 1..] + ":" + s {
      assert p == q + ":" + p[n + 1..];
      assert p + ":" + s == q + ":" + (p[n + 1..] + ":" + s);
    }
  }

  /** Two scopes, with hashes of the same length, share a key exactly when their hashes agree and so do
      agents and sessions, or one's agent runs over a colon into the other's session. Sessions agree
      as text: a session key, an id of the same text, and a missing session called "none" are one. */
  lemma SharedKeyIff(a: Scope, b: Scope)
    requires |a.hash| == |b.hash|
    ensures BuildCacheKey(a) == BuildCacheKey(b) <==>
            && a.hash == b.hash
            && ((a.agentId == b.agentId && SessionOf(a) == SessionOf(b)) || Shifted(a, b) || Shifted(b, a))
  {
    EqualTails(a.agentId + ":" + SessionOf(a) + ":", a.hash, b.agentId + ":" + SessionOf(b) + ":", b.hash);
    EqualEnds(a.agentId + ":" + SessionOf(a), b.agentId + ":" + SessionOf(b));
    if |a.agentId| > |b.agentId| {
      ColonBetween(a.agentId, SessionOf(a), b.agentId, SessionOf(b));
    } else if |a.agentId| < |b.agentId| {
      ColonBetween(b.agentId, SessionOf(b), a.agentId, SessionOf(a));
    } else {
      EqualHeads(a.agentId + ":", SessionOf(a), b.agentId + ":", SessionOf(b));
      EqualEnds(a.agentId, b.agentId);
    }
  }

  lemma EqualEnds(p: string, q: string)
    ensures p + ":" == q + ":" <==> p == q
  {
    EqualTails(p, ":", q, ":");
  }

  lemma EqualHeads(p: string, s: string, q: string, t: string)
    requires |p| == |q|
    ensures p + s == q + t <==> p == q && s == t
  {
    if p + s == q + t {
      assert |s| == |t|;
      EqualTails(p, s, q, t);
    }
  }

  /** One agent's sessions are told apart by their key, and without one by their id. */
  lemma SessionsApart(a: Scope, b: Scope)
    requires a.agentId == b.agentId && |a.hash| == |b.hash| && BuildCacheKey(a) == BuildCacheKey(b)
    ensures a.hash == b.hash
    ensures a.sessionKey.Some? && b.sessionKey.Some? ==> a.sessionKey == b.sessionKey
    ensures a.sessionKey.None? && b.sessionKey.None? && a.sessionId.Some? && b.sessionId.Some? ==>
              a.sessionId == b.sessionId
    ensures a.sessionKey.Some? && b.sessionKey.None? ==>
              a.sessionKey == if b.sessionId.Some? then b.sessionId else Some("none")
  {
    SharedKeyIff(a, b);
  }

  /** Two agents that share a key: one is named after the other and the start of its session. */
  lemma AgentsMayShareKey(hash: string)
    ensures BuildCacheKey(Scope("a", Some("b:c"), None, hash)) == BuildCacheKey(Scope("a:b", Some("c"), None, hash))
  {
    var a, b := Scope("a:b", Some("c"), None, hash), Scope("a", Some("b:c"), None, hash);
    assert "b:c" == "b" + ":" + "c";
    assert a.agentId[..1] == "a" && a.agentId[2..] == "b";
    assert Shifted(a, b);
    SharedKeyIff(a, b);
  }

  function Remove(c: Cache, key: string): Cache {
    if c == [] then [] else (if c[0].key == key then [] else [c[0]]) + Remove(c[1..], key)
  }

  function Swept(c: Cache, now: int): Cache {
    if c == [] then [] else (if c[0].expiresAt <= now then [] else [c[0]]) + Swept(c[1..], now)
  }

  /** The eviction loop; an empty oldest key would end it early. */
  function Evicted(c: Cache): Cache {
    if |c| <= DEFAULT_MAX_CACHE_ENTRIES || c[0].key == "" then c else Evicted(c[1..])
  }

  function Stored(c: Cache, slot: Slot, sweepNow: int): Cache {
    Evicted(Remove(Swept(c, sweepNow), slot.key) + [slot])
  }

  function Find(c: Cache, key: string): Option<Slot> {
    if c == [] then None else if c[0].key == key then Some(c[0]) else Find(c[1..], key)
  }

  function LookedUp(c: Cache, key: string, now: int): (Option<Recall>, Cache) {
    match Find(c, key)
    case None => (None, c)
    case Some(slot) => if slot.expiresAt <= now then (None, Remove(c, key)) else (Some(slot.result), c)
  }

  // ---- The cache as the code keeps it ----

  class ActiveRecallCache {
    var activeRecallCache: Cache

    constructor ()
      ensures activeRecallCache == []
    {
      activeRecallCache := [];
    }

    method GetCachedResult(cacheKey: string, now: int) returns (result: Option<Recall>)
      modifies this
      ensures (result, activeRecallCache) == LookedUp(old(activeRecallCache), cacheKey, now)
    {
      var cached := Find(activeRecallCache, cacheKey);
      if cached.None? {
        return None;
      }
      if cached.value.expiresAt <= now {
        activeRecallCache := Remove(activeRecallCache, cacheKey);
        return None;
      }
      return Some(cached.value.result);
    }

    method SweepExpiredCacheEntries(now: int)
      modifies this
      ensures activeRecallCache == Swept(old(activeRecallCache), now)
    {
      var entries := activeRecallCache;
      var kept: Cache := [];
      var i := 0;
      assert entries[0..] == entries;
      while i < |entries|
        invariant i <= |entries|
        invariant Swept(entries, now) == kept + Swept(entries[i..], now)
      {
        SweptStep(kept, entries, i, now);
        if entries[i].expiresAt > now {
          kept := kept + [entries[i]];
        }
        i := i + 1;
      }
      activeRecallCache := kept;
    }

    method SetCachedResult(cacheKey: string, result: Recall, ttlMs: int, sweepNow: int, storeNow: int)
      modifies this
      ensures activeRecallCache == Stored(old(activeRecallCache), Slot(cacheKey, storeNow + ttlMs, result), sweepNow)
    {
      SweepExpiredCacheEntries(sweepNow);
      activeRecallCache := Remove(activeRecallCache, cacheKey);
      activeRecallCache := activeRecallCache + [Slot(cacheKey, storeNow + ttlMs, result)];
      ghost var full := activeRecallCache;
      while |activeRecallCache| > DEFAULT_MAX_CACHE_ENTRIES
        invariant Evicted(activeRecallCache) == Evicted(full)
      {
        var oldestKey := activeRecallCache[0].key;
        if oldestKey == "" {
          break;
        }
        activeRecallCache := activeRecallCache[1..];
      }
    }

    /** The end of a recall: only "ok" and "empty" results enter, under a key that is never empty. */
    method FinishRecall(scope: Scope, result: Recall, ttlMs: int, sweepNow: int, storeNow: int)
      modifies this
      ensures var e := Finish(Slot(BuildCacheKey(scope), storeNow + ttlMs, result), sweepNow);
              Keyed(e) && activeRecallCache == Next(old(activeRecallCache), e)
    {
      var cacheKey := BuildCacheKey(scope);
      if ShouldCache(result) {
        SetCachedResult(cacheKey, result, ttlMs, sweepNow, storeNow);
      }
    }
  }

  lemma SweptStep(kept: Cache, entries: Cache, i: nat, now: int)
    requires i < |entries|
    ensures kept + Swept(entries[i..], now)
            == (if entries[i].expiresAt > now then kept + [entries[i]] else kept) + Swept(entries[i + 1..], now)
  {
    assert entries[i..][1..] == entries[i + 1..];
  }

  // ---- Runs ----

  datatype Event = Finish(slot: Slot, sweepNow: int) | Lookup(key: string, now: int)

  function Next(c: Cache, e: Event): Cache {
    match e
    case Finish(slot, sweepNow) => if ShouldCache(slot.result) then Stored(c, slot, sweepNow) else c
    case Lookup(key, now) => LookedUp(c, key, now).1
  }

  function After(c: Cache, events: seq<Event>): Cache {
    if events == [] then c else Next(After(c, events[..|events| - 1]), events[|events| - 1])
  }

  predicate Keyed(e: Event) {
    e.Finish? ==> e.slot.key != ""
  }

  predicate Stores(e: Event) {
    e.Finish? && ShouldCache(e.slot.result)
  }

  /** The plain timed map the cache stands for: per key, the slot stored last. */
  function LastStored(events: seq<Event>): map<string, Slot> {
    if events == [] then map[]
    else
      var last := events[|events| - 1];
      var before := LastStored(events[..|events| - 1]);
      if Stores(last) then before[last.slot.key := last.slot] else before
  }

  ghost predicate DistinctKeys(c: Cache) {
    forall i, j | 0 <= i < j < |c| :: c[i].key != c[j].key
  }

  ghost predicate Contained(c: Cache, d: Cache) {
    forall s | s in c :: s in d
  }

  lemma {:induction false} RemoveFacts(c: Cache, key: string)
    ensures Contained(Remove(c, key), c) && |Remove(c, key)| <= |c|
    ensures forall s | s in c && s.key != key :: s in Remove(c, key)
    ensures forall s | s in Remove(c, key) :: s.key != key
    ensures DistinctKeys(c) ==> DistinctKeys(Remove(c, key))
  {
    if c != [] {
      RemoveFacts(c[1..], key);
      KeepDistinct(c, Remove(c[1..], key));
    }
  }

  lemma {:induction false} SweptFacts(c: Cache, now: int)
    ensures Contained(Swept(c, now), c) && |Swept(c, now)| <= |c|
    ensures forall s | s in c && s.expiresAt > now :: s in Swept(c, now)
    ensures forall s | s in Swept(c, now) :: s.expiresAt > now
    ensures DistinctKeys(c) ==> DistinctKeys(Swept(c, now))
  {
    if c != [] {
      SweptFacts(c[1..], now);
      KeepDistinct(c, Swept(c[1..], now));
    }
  }

  lemma KeepDistinct(c: Cache, rest: Cache)
    requires c != [] && Contained(rest, c[1..])
    ensures DistinctKeys(c) && DistinctKeys(rest) ==> DistinctKeys([c[0]] + rest)
  {
    if DistinctKeys(c) {
      forall s | s in rest
        ensures s.key != c[0].key
      {
        var i :| 0 <= i < |c[1..]| && c[1..][i] == s;
        assert c[i + 1] == s;
      }
    }
  }

  /** With no empty key, eviction keeps exactly the newest entries, up to the limit. */
  lemma {:induction false} EvictionKeepsNewest(c: Cache)
    requires forall s | s in c :: s.key != ""
    ensures Evicted(c) == if |c| <= DEFAULT_MAX_CACHE_ENTRIES then c else c[|c| - DEFAULT_MAX_CACHE_ENTRIES..]
    decreases |c|
  {
    if |c| > DEFAULT_MAX_CACHE_ENTRIES {
      assert c[0] in c;
      EvictionKeepsNewest(c[1..]);
      assert c[1..][|c| - 1 - DEFAULT_MAX_CACHE_ENTRIES..] == c[|c| - DEFAULT_MAX_CACHE_ENTRIES..];
    }
  }

  ghost predicate Sound(c: Cache) {
    && DistinctKeys(c)
    && |c| <= DEFAULT_MAX_CACHE_ENTRIES
    && forall s | s in c :: ShouldCache(s.result) && s.key != ""
  }

  /** After a set the entry is last, the rest are the newest other live entries in their old order,
      and the limit holds. */
  lemma StoreKeepsNewest(c: Cache, slot: Slot, sweepNow: int)
    requires Sound(c) && slot.key != ""
    ensures var others := Remove(Swept(c, sweepNow), slot.key);
            && Stored(c, slot, sweepNow)
               == (if |others| < DEFAULT_MAX_CACHE_ENTRIES then others else others[1..]) + [slot]
            && |Stored(c, slot, sweepNow)| <= DEFAULT_MAX_CACHE_ENTRIES
  {
    OthersFacts(c, slot.key, sweepNow);
    EvictOne(Remove(Swept(c, sweepNow), slot.key), slot);
  }

  lemma OthersFacts(c: Cache, key: string, sweepNow: int)
    ensures var others := Remove(Swept(c, sweepNow), key);
            && |others| <= |c|
            && (forall s | s in others :: s in c && s.key != key && s.expiresAt > sweepNow)
            && (DistinctKeys(c) ==> DistinctKeys(others))
  {
    SweptFacts(c, sweepNow);
    RemoveFacts(Swept(c, sweepNow), key);
  }

  lemma EvictOne(others: Cache, slot: Slot)
    requires |others| <= DEFAULT_MAX_CACHE_ENTRIES
    requires slot.key != "" && forall s | s in others :: s.key != ""
    ensures Evicted(others + [slot]) == (if |others| < DEFAULT_MAX_CACHE_ENTRIES then others else others[1..]) + [slot]
  {
    var full := others + [slot];
    EvictionKeepsNewest(full);
    if |full| > DEFAULT_MAX_CACHE_ENTRIES {
      assert full[1..] == others[1..] + [slot];
    }
  }

  lemma StepIsSound(c: Cache, e: Event)
    requires Sound(c) && Keyed(e)
    ensures Sound(Next(c, e))
  {
    match e
    case Lookup(key, now) => RemoveFacts(c, key);
    case Finish(slot, sweepNow) =>
      if ShouldCache(slot.result) {
        StoreIsSound(c, slot, sweepNow);
      }
  }

  lemma StoreIsSound(c: Cache, slot: Slot, sweepNow: int)
    requires Sound(c) && slot.key != "" && ShouldCache(slot.result)
    ensures Sound(Stored(c, slot, sweepNow))
  {
    OthersFacts(c, slot.key, sweepNow);
    StoreKeepsNewest(c, slot, sweepNow);
    var others := Remove(Swept(c, sweepNow), slot.key);
    var kept := if |others| < DEFAULT_MAX_CACHE_ENTRIES then others else others[1..];
    forall s | s in kept
      ensures s in others
    {
    }
    AppendDistinct(kept, slot);
  }

  /** Every slot still cached is the one stored last for its key. */
  ghost predicate Agrees(c: Cache, last: map<string, Slot>) {
    forall s | s in c :: s.key in last && last[s.key] == s
  }

  lemma StepAgrees(c: Cache, e: Event, last: map<string, Slot>)
    requires Sound(c) && Keyed(e) && Agrees(c, last)
    ensures Agrees(Next(c, e), if Stores(e) then last[e.slot.key := e.slot] else last)
  {
    match e
    case Lookup(key, now) => RemoveFacts(c, key);
    case Finish(slot, sweepNow) =>
      if ShouldCache(slot.result) {
        OthersFacts(c, slot.key, sweepNow);
        StoreKeepsNewest(c, slot, sweepNow);
      }
  }

  lemma {:induction false} RunIsSound(events: seq<Event>)
    requires forall e | e in events :: Keyed(e)
    ensures Sound(After([], events)) && Agrees(After([], events), LastStored(events))
    decreases |events|
  {
    if events != [] {
      var last := events[|events| - 1];
      RunIsSound(events[..|events| - 1]);
      assert last in events;
      StepIsSound(After([], events[..|events| - 1]), last);
      StepAgrees(After([], events[..|events| - 1]), last, LastStored(events[..|events| - 1]));
    }
  }

  lemma {:induction false} FindIsMember(c: Cache, key: string)
    ensures Find(c, key).Some? ==> Find(c, key).value in c && Find(c, key).value.key == key
    ensures Find(c, key).None? ==> forall s | s in c :: s.key != key
  {
    if c != [] {
      FindIsMember(c[1..], key);
    }
  }

  /** In every run a hit is the result stored last under the key, cacheable, and not expired; and the
      cache never holds more than 1000 entries. */
  lemma HitIsLastStored(events: seq<Event>, key: string, now: int)
    requires forall e | e in events :: Keyed(e)
    ensures |After([], events)| <= DEFAULT_MAX_CACHE_ENTRIES
    ensures var r := LookedUp(After([], events), key, now).0;
            r.Some? ==>
              && key in LastStored(events)
              && r.value == LastStored(events)[key].result
              && now < LastStored(events)[key].expiresAt
              && ShouldCache(r.value)
  {
    RunIsSound(events);
    FindIsMember(After([], events), key);
  }

  // ---- A live entry is lost only to newer ones ----

  /** Entries stored under other keys after `slot` can push it out; `newer` holds their keys. */
  ghost predicate Guarded(c: Cache, slot: Slot, newer: set<string>) {
    exists i :: 0 <= i < |c| && c[i] == slot && forall j | i < j < |c| :: c[j].key in newer
  }

  predicate Spares(e: Event, slot: Slot) {
    match e
    case Finish(s, sweepNow) => s.key != slot.key && sweepNow < slot.expiresAt
    case Lookup(_, now) => now < slot.expiresAt
  }

  lemma {:induction false} RemoveKeepsGuard(c: Cache, key: string, slot: Slot, newer: set<string>)
    requires Guarded(c, slot, newer) && key != slot.key
    ensures Guarded(Remove(c, key), slot, newer)
  {
    var i :| 0 <= i < |c| && c[i] == slot && forall j | i < j < |c| :: c[j].key in newer;
    if i == 0 {
      var r := Remove(c, key);
      RemoveFacts(c[1..], key);
      forall j | 0 < j < |r|
        ensures r[j].key in newer
      {
        assert r[j] == Remove(c[1..], key)[j - 1];
        assert r[j] in c[1..];
      }
      assert r[0] == slot;
    } else {
      TailKeepsGuard(c, i, slot, newer);
      RemoveKeepsGuard(c[1..], key, slot, newer);
      PrependKeepsGuard(c[0], Remove(c[1..], key), slot, newer);
      assert [] + Remove(c[1..], key) == Remove(c[1..], key);
    }
  }

  lemma {:induction false} SweepKeepsGuard(c: Cache, now: int, slot: Slot, newer: set<string>)
    requires Guarded(c, slot, newer) && now < slot.expiresAt
    ensures Guarded(Swept(c, now), slot, newer)
  {
    var i :| 0 <= i < |c| && c[i] == slot && forall j | i < j < |c| :: c[j].key in newer;
    if i == 0 {
      var r := Swept(c, now);
      SweptFacts(c[1..], now);
      forall j | 0 < j < |r|
        ensures r[j].key in newer
      {
        assert r[j] == Swept(c[1..], now)[j - 1];
        assert r[j] in c[1..];
      }
      assert r[0] == slot;
    } else {
      TailKeepsGuard(c, i, slot, newer);
      SweepKeepsGuard(c[1..], now, slot, newer);
      PrependKeepsGuard(c[0], Swept(c[1..], now), slot, newer);
      assert [] + Swept(c[1..], now) == Swept(c[1..], now);
    }
  }

  lemma TailKeepsGuard(c: Cache, i: nat, slot: Slot, newer: set<string>)
    requires 0 < i < |c| && c[i] == slot && forall j | i < j < |c| :: c[j].key in newer
    ensures Guarded(c[1..], slot, newer)
  {
    assert c[1..][i - 1] == slot;
  }

  lemma PrependKeepsGuard(first: Slot, c: Cache, slot: Slot, newer: set<string>)
    requires Guarded(c, slot, newer)
    ensures Guarded([first] + c, slot, newer)
  {
    var i :| 0 <= i < |c| && c[i] == slot && forall j | i < j < |c| :: c[j].key in newer;
    var longer := [first] + c;
    assert longer[i + 1] == slot;
    forall j | i + 1 < j < |longer|
      ensures longer[j].key in newer
    {
      assert longer[j] == c[j - 1];
    }
  }

  lemma AppendKeepsGuard(c: Cache, last: Slot, slot: Slot, newer: set<string>)
    requires Guarded(c, slot, newer)
    ensures Guarded(c + [last], slot, newer + {last.key})
  {
    var i :| 0 <= i < |c| && c[i] == slot && forall j | i < j < |c| :: c[j].key in newer;
    assert (c + [last])[i] == slot;
  }

  lemma {:induction false} DistinctKeysFit(c: Cache, ks: set<string>)
    requires DistinctKeys(c) && forall s | s in c :: s.key in ks
    ensures |c| <= |ks|
    decreases |c|
  {
    if c != [] {
      var n := |c| - 1;
      forall s | s in c[..n]
        ensures s.key in ks - {c[n].key}
      {
        var i :| 0 <= i < n && c[..n][i] == s;
        assert c[i].key != c[n].key;
      }
      assert c[n] in c;
      DistinctKeysFit(c[..n], ks - {c[n].key});
    }
  }

  /** An entry with fewer than 1000 newer keys behind it survives eviction. */
  lemma EvictKeepsGuard(c: Cache, slot: Slot, newer: set<string>)
    requires Guarded(c, slot, newer) && DistinctKeys(c) && (forall s | s in c :: s.key != "")
    requires |newer| < DEFAULT_MAX_CACHE_ENTRIES
    ensures Guarded(Evicted(c), slot, newer)
  {
    EvictionKeepsNewest(c);
    var i :| 0 <= i < |c| && c[i] == slot && forall j | i < j < |c| :: c[j].key in newer;
    DistinctKeysFit(c[i + 1..], newer);
    if |c| > DEFAULT_MAX_CACHE_ENTRIES {
      var drop := |c| - DEFAULT_MAX_CACHE_ENTRIES;
      assert drop <= i;
      assert c[drop..][i - drop] == slot;
    }
  }

  lemma StepKeepsGuard(c: Cache, e: Event, slot: Slot, newer: set<string>)
    requires Sound(c) && Keyed(e) && Spares(e, slot) && Guarded(c, slot, newer)
    requires |if Stores(e) then newer + {e.slot.key} else newer| < DEFAULT_MAX_CACHE_ENTRIES
    ensures Guarded(Next(c, e), slot, if Stores(e) then newer + {e.slot.key} else newer)
  {
    match e
    case Lookup(key, now) =>
      FindIsMember(c, key);
      if LookedUp(c, key, now).1 != c {
        LookupSparesLive(c, key, now, slot, newer);
      }
    case Finish(s, sweepNow) =>
      if ShouldCache(s.result) {
        OthersFacts(c, s.key, sweepNow);
        var others := Remove(Swept(c, sweepNow), s.key);
        SweepKeepsGuard(c, sweepNow, slot, newer);
        RemoveKeepsGuard(Swept(c, sweepNow), s.key, slot, newer);
        AppendKeepsGuard(others, s, slot, newer);
        AppendDistinct(others, s);
        EvictKeepsGuard(others + [s], slot, newer + {s.key});
      }
  }

  lemma AppendDistinct(c: Cache, s: Slot)
    requires DistinctKeys(c) && forall t | t in c :: t.key != s.key
    ensures DistinctKeys(c + [s])
  {}

  lemma LookupSparesLive(c: Cache, key: string, now: int, slot: Slot, newer: set<string>)
    requires DistinctKeys(c) && Guarded(c, slot, newer) && now < slot.expiresAt
    requires Find(c, key).Some? && Find(c, key).value.expiresAt <= now
    ensures Guarded(Remove(c, key), slot, newer)
  {
    var i :| 0 <= i < |c| && c[i] == slot;
    FindUnique(c, i);
    RemoveKeepsGuard(c, key, slot, newer);
  }

  function StoredKeys(events: seq<Event>): set<string> {
    set i | 0 <= i < |events| && Stores(events[i]) :: events[i].slot.key
  }

  lemma StoredKeysStep(events: seq<Event>)
    requires events != []
    ensures var last := events[|events| - 1];
            StoredKeys(events) == StoredKeys(events[..|events| - 1]) + if Stores(last) then {last.slot.key} else {}
  {
    var n := |events| - 1;
    var before := events[..n];
    forall k
      ensures k in StoredKeys(events) <==> k in StoredKeys(before) || (Stores(events[n]) && k == events[n].slot.key)
    {
      if i :| 0 <= i < n && Stores(events[i]) && events[i].slot.key == k {
        assert before[i] == events[i];
      }
    }
  }

  lemma {:induction false} LiveEntrySurvives(c: Cache, slot: Slot, events: seq<Event>)
    requires Sound(c) && c != [] && c[|c| - 1] == slot
    requires forall e | e in events :: Keyed(e) && Spares(e, slot)
    requires |StoredKeys(events)| < DEFAULT_MAX_CACHE_ENTRIES
    ensures Sound(After(c, events)) && Guarded(After(c, events), slot, StoredKeys(events))
    decreases |events|
  {
    if events == [] {
      assert c[|c| - 1] == slot;
    } else {
      var before := events[..|events| - 1];
      var last := events[|events| - 1];
      StoredKeysStep(events);
      SubsetSize(StoredKeys(before), StoredKeys(events));
      assert last in events;
      LiveEntrySurvives(c, slot, before);
      StepIsSound(After(c, before), last);
      StepKeepsGuard(After(c, before), last, slot, StoredKeys(before));
    }
  }

  /** A stored result is still returned after any run that stores fewer than 1000 other keys and
      reads no clock past its expiry. */
  lemma StoredResultIsFound(c: Cache, slot: Slot, sweepNow: int, events: seq<Event>, now: int)
    requires Sound(c) && slot.key != "" && ShouldCache(slot.result)
    requires forall e | e in events :: Keyed(e) && Spares(e, slot)
    requires |StoredKeys(events)| < DEFAULT_MAX_CACHE_ENTRIES && now < slot.expiresAt
    ensures LookedUp(After(Stored(c, slot, sweepNow), events), slot.key, now).0 == Some(slot.result)
  {
    var start := Stored(c, slot, sweepNow);
    StoreIsSound(c, slot, sweepNow);
    StoreKeepsNewest(c, slot, sweepNow);
    LiveEntrySurvives(start, slot, events);
    var end := After(start, events);
    var i :| 0 <= i < |end| && end[i] == slot;
    FindUnique(end, i);
  }

  lemma FindUnique(c: Cache, i: nat)
    requires DistinctKeys(c) && i < |c|
    ensures Find(c, c[i].key) == Some(c[i])
  {
    FindIsMember(c, c[i].key);
    var found := Find(c, c[i].key);
    assert c[i] in c;
    var j :| 0 <= j < |c| && c[j] == found.value;
  }

  /** Which results enter: one that succeeded or found nothing is served until it expires; one that timed
      out or was unavailable leaves the cache as it was. */
  lemma FinishStoresIff(c: Cache, slot: Slot, sweepNow: int, now: int)
    requires Sound(c) && slot.key != ""
    ensures slot.result.status.Ok? || slot.result.status.Empty? ==>
              LookedUp(Next(c, Finish(slot, sweepNow)), slot.key, now).0
              == if now < slot.expiresAt then Some(slot.result) else None
    ensures slot.result.status.Timeout? || slot.result.status.Unavailable? ==> Next(c, Finish(slot, sweepNow)) == c
  {
    if ShouldCache(slot.result) {
      var d := Next(c, Finish(slot, sweepNow));
      StoreKeepsNewest(c, slot, sweepNow);
      StoreIsSound(c, slot, sweepNow);
      assert d[|d| - 1] == slot;
      FoundIsUnique(d, |d| - 1);
    }
  }

  lemma FoundIsUnique(c: Cache, i: nat)
    requires DistinctKeys(c) && i < |c|
    ensures Find(c, c[i].key) == Some(c[i])
  {
    FindIsMember(c, c[i].key);
    assert c[i] in c;
    var j :| 0 <= j < |c| && c[j] == Find(c, c[i].key).value;
    assert c[j].key == c[i].key;
  }

  /** A lookup removes the entry it finds expired and nothing else. */
  lemma LookupRemovesOnlyExpired(c: Cache, key: string, now: int)
    requires DistinctKeys(c)
    ensures var d := LookedUp(c, key, now).1;
            && (forall s | s in d :: s in c)
            && (forall s | s in c :: s in d <==> s.key != key || now < s.expiresAt)
    ensures LookedUp(c, key, now).0.Some? <==> exists s :: s in c && s.key == key && now < s.expiresAt
  {
    RemoveFacts(c, key);
    FindIsMember(c, key);
    forall s | s in c && s.key == key
      ensures Find(c, key) == Some(s)
    {
      var i :| 0 <= i < |c| && c[i] == s;
      FoundIsUnique(c, i);
    }
  }
}
