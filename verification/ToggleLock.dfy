/** The session toggle store behind its promise-chain lock. A step is the code between two awaits;
    any interleaving of the steps of any number of calls on one state path is a run. */
module ToggleLock {
  import opened JsText
  import opened Wrappers

  // ---- The store file ----

  /** One value under `sessions`; anything but a plain object is `Other`. */
  datatype Entry = Record(disabled: bool, updatedAt: Option<int>) | Other

  /** `NoSessions` stands for a missing file, malformed text, and a file without a sessions object. */
  datatype StoreFile = NoSessions | Sessions(entries: map<string, Entry>)

  /** The sessions `readToggleStore` returns: only disabled records under a non-blank key. */
  type Store = map<string, Option<int>>

  /** What a read that succeeds finds. */
  function Read(file: StoreFile): Store {
    match file
    case NoSessions => map[]
    case Sessions(m) =>
      map k | k in m && !Blank(k) && m[k].Record? && m[k].disabled :: m[k].updatedAt
  }

  function Written(store: Store): StoreFile {
    if store == map[] then NoSessions
    else Sessions(map k | k in store :: Record(true, store[k]))
  }

  /** What `readToggleStore` returns: a read that fails, for whatever reason, counts as an empty store. */
  function ReadOutcome(file: StoreFile, readOk: bool): Store {
    if readOk then Read(file) else map[]
  }

  datatype Toggle = Toggle(key: string, disabled: bool)

  function Toggled(store: Store, op: Toggle, now: int): Store {
    if op.disabled then store[op.key := Some(now)] else store - {op.key}
  }

  /** What one whole call does to the file when nothing runs beside it. */
  function Applied(file: StoreFile, op: Toggle, now: int, readOk: bool): StoreFile {
    Written(Toggled(ReadOutcome(file, readOk), op, now))
  }

  /** `isSessionActiveMemoryDisabled`, when its own read succeeds; a failed one makes it false. */
  predicate Disabled(file: StoreFile, sessionKey: string) {
    var key := Trim(sessionKey);
    key != "" && key in Read(file)
  }

  // ---- The lock ----

  datatype Phase =
    | Waiting
    | Entered
    | HasRead(store: Store, readOk: bool)
    | Settled(ok: bool, now: int, readOk: bool)
    | Released(ok: bool, now: int, readOk: bool)

  /** One call. Promises are numbered; `previous` is the promise the call awaits. */
  datatype Call = Call(op: Toggle, previous: nat, phase: Phase)

  /** Call `i` resolves promise `i + 1`; promise 0 is the initially resolved one. */
  datatype System = System(file: StoreFile, lock: nat, resolved: set<nat>, calls: seq<Call>)

  datatype Event =
    | Invoke(op: Toggle)
    | Enter(call: nat)
    | FinishRead(call: nat, readOk: bool)
    | FinishWrite(call: nat, ok: bool, now: int)
    | Release(call: nat)

  function Start(file: StoreFile): System {
    System(file, 0, {0}, [])
  }

  predicate Enabled(s: System, e: Event) {
    match e
    case Invoke(_) => true
    case Enter(i) => i < |s.calls| && s.calls[i].phase.Waiting? && s.calls[i].previous in s.resolved
    case FinishRead(i, _) => i < |s.calls| && s.calls[i].phase.Entered?
    case FinishWrite(i, _, _) => i < |s.calls| && s.calls[i].phase.HasRead?
    case Release(i) => i < |s.calls| && s.calls[i].phase.Settled?
  }

  function WithPhase(s: System, i: nat, phase: Phase): System
    requires i < |s.calls|
  {
    s.(calls := s.calls[i := s.calls[i].(phase := phase)])
  }

  function Closed(phase: Phase): Phase
    requires phase.Settled?
  {
    Released(phase.ok, phase.now, phase.readOk)
  }

  /** A write that fails leaves the file as it was, because the rename is the commit. */
  function Next(s: System, e: Event): System
    requires Enabled(s, e)
  {
    match e
    case Invoke(op) => s.(lock := |s.calls| + 1, calls := s.calls + [Call(op, s.lock, Waiting)])
    case Enter(i) => WithPhase(s, i, Entered)
    case FinishRead(i, readOk) => WithPhase(s, i, HasRead(ReadOutcome(s.file, readOk), readOk))
    case FinishWrite(i, ok, now) =>
      var after := if ok then Written(Toggled(s.calls[i].phase.store, s.calls[i].op, now)) else s.file;
      WithPhase(s, i, Settled(ok, now, s.calls[i].phase.readOk)).(file := after)
    case Release(i) =>
      WithPhase(s, i, Closed(s.calls[i].phase)).(resolved := s.resolved + {i + 1})
  }

  predicate IsRun(s: System, events: seq<Event>)
    decreases |events|
  {
    events == [] || (Enabled(s, events[0]) && IsRun(Next(s, events[0]), events[1..]))
  }

  function After(s: System, events: seq<Event>): System
    requires IsRun(s, events)
    decreases |events|
  {
    if events == [] then s else After(Next(s, events[0]), events[1..])
  }

  // ---- What holds in every run ----

  predicate Committed(c: Call) {
    (c.phase.Settled? || c.phase.Released?) && c.phase.ok
  }

  datatype Commit = Commit(op: Toggle, now: int, readOk: bool)

  function CommitOf(c: Call): Commit
    requires Committed(c)
  {
    Commit(c.op, c.phase.now, c.phase.readOk)
  }

  /** The calls whose write went through, in call order. */
  function Commits(calls: seq<Call>): seq<Commit> {
    if calls == [] then []
    else
      var c := calls[|calls| - 1];
      Commits(calls[..|calls| - 1]) + if Committed(c) then [CommitOf(c)] else []
  }

  function Replay(file: StoreFile, commits: seq<Commit>): StoreFile {
    if commits == [] then file
    else
      var c := commits[|commits| - 1];
      Applied(Replay(file, commits[..|commits| - 1]), c.op, c.now, c.readOk)
  }

  predicate Holding(c: Call) {
    !c.phase.Waiting? && !c.phase.Released?
  }

  /** Calls enter in call order, and one enters only when all earlier ones have released. */
  ghost predicate InOrder(calls: seq<Call>) {
    forall i, j | 0 <= i < j < |calls| && !calls[j].phase.Waiting? :: calls[i].phase.Released?
  }

  ghost predicate Chained(s: System) {
    && s.lock == |s.calls|
    && (forall i | 0 <= i < |s.calls| :: s.calls[i].previous == i)
    && 0 in s.resolved
    && (forall p | p in s.resolved :: p <= |s.calls|)
    && (forall i | 0 <= i < |s.calls| :: i + 1 in s.resolved <==> s.calls[i].phase.Released?)
  }

  ghost predicate ReadsCurrent(s: System) {
    forall i | 0 <= i < |s.calls| && s.calls[i].phase.HasRead? ::
      s.calls[i].phase.store == ReadOutcome(s.file, s.calls[i].phase.readOk)
  }

  ghost predicate Invariant(file0: StoreFile, s: System) {
    && InOrder(s.calls)
    && Chained(s)
    && ReadsCurrent(s)
    && s.file == Replay(file0, Commits(s.calls))
  }

  lemma {:induction false} NoCommitsWaiting(calls: seq<Call>, i: nat)
    requires i <= |calls| && forall j | i <= j < |calls| :: calls[j].phase.Waiting?
    ensures Commits(calls) == Commits(calls[..i])
    decreases |calls|
  {
    if i < |calls| {
      NoCommitsWaiting(calls[..|calls| - 1], i);
      assert calls[..|calls| - 1][..i] == calls[..i];
    } else {
      assert calls[..i] == calls;
    }
  }

  /** Changing the phase of the one call that holds the lock appends at most its own commit. */
  lemma CommitsAfterPhase(calls: seq<Call>, i: nat, phase: Phase)
    requires InOrder(calls) && i < |calls| && !calls[i].phase.Released? && !phase.Waiting?
    ensures var c := calls[i].(phase := phase);
            Commits(calls[i := c])
            == Commits(calls[..i]) + if Committed(c) then [CommitOf(c)] else []
    ensures Commits(calls)
            == Commits(calls[..i]) + if Committed(calls[i]) then [CommitOf(calls[i])] else []
  {
    var c := calls[i].(phase := phase);
    var after := calls[i := c];
    assert forall j | i < j < |calls| :: calls[j].phase.Waiting?;
    NoCommitsWaiting(calls, i + 1);
    NoCommitsWaiting(after, i + 1);
    assert calls[..i + 1][..i] == calls[..i] && after[..i + 1][..i] == calls[..i];
  }

  lemma StepKeepsOrder(s: System, e: Event)
    requires InOrder(s.calls) && Chained(s) && Enabled(s, e)
    ensures InOrder(Next(s, e).calls)
  {
    match e
    case Invoke(_) =>
    case Enter(i) =>
      assert i == 0 || s.calls[i - 1].phase.Released?;
    case FinishRead(_, _) =>
    case FinishWrite(_, _, _) =>
    case Release(_) =>
  }

  lemma StepKeepsChain(s: System, e: Event)
    requires Chained(s) && Enabled(s, e)
    ensures Chained(Next(s, e))
  {}

  lemma StepKeepsReads(s: System, e: Event)
    requires InOrder(s.calls) && ReadsCurrent(s) && Enabled(s, e)
    ensures ReadsCurrent(Next(s, e))
  {}

  lemma CommitsUnchanged(calls: seq<Call>, i: nat, phase: Phase)
    requires InOrder(calls) && i < |calls| && !calls[i].phase.Released? && !phase.Waiting?
    requires Committed(calls[i].(phase := phase)) == Committed(calls[i])
    requires Committed(calls[i]) ==> CommitOf(calls[i].(phase := phase)) == CommitOf(calls[i])
    ensures Commits(calls[i := calls[i].(phase := phase)]) == Commits(calls)
  {
    CommitsAfterPhase(calls, i, phase);
  }

  lemma CommitsAfterWrite(calls: seq<Call>, i: nat, ok: bool, now: int)
    requires InOrder(calls) && i < |calls| && calls[i].phase.HasRead?
    ensures Commits(calls[i := calls[i].(phase := Settled(ok, now, calls[i].phase.readOk))])
            == Commits(calls) + if ok then [Commit(calls[i].op, now, calls[i].phase.readOk)] else []
  {
    CommitsAfterPhase(calls, i, Settled(ok, now, calls[i].phase.readOk));
  }

  lemma WriteKeepsFile(file0: StoreFile, s: System, i: nat, ok: bool, now: int)
    requires InOrder(s.calls) && ReadsCurrent(s) && i < |s.calls| && s.calls[i].phase.HasRead?
    requires s.file == Replay(file0, Commits(s.calls))
    ensures var t := Next(s, FinishWrite(i, ok, now)); t.file == Replay(file0, Commits(t.calls))
  {
    CommitsAfterWrite(s.calls, i, ok, now);
    if ok {
      ReplayOneMore(file0, Commits(s.calls), Commit(s.calls[i].op, now, s.calls[i].phase.readOk));
    } else {
      assert Commits(s.calls) + [] == Commits(s.calls);
    }
  }

  lemma ReplayOneMore(file0: StoreFile, commits: seq<Commit>, c: Commit)
    ensures Replay(file0, commits + [c]) == Applied(Replay(file0, commits), c.op, c.now, c.readOk)
  {
    assert (commits + [c])[..|commits|] == commits;
  }

  lemma QuietStep(s: System, e: Event)
    requires InOrder(s.calls) && Enabled(s, e) && !e.FinishWrite?
    ensures Next(s, e).file == s.file && Commits(Next(s, e).calls) == Commits(s.calls)
  {
    match e
    case Invoke(op) =>
      assert Next(s, e).calls[..|s.calls|] == s.calls;
    case Enter(i) =>
      CommitsUnchanged(s.calls, i, Entered);
    case FinishRead(i, readOk) =>
      CommitsUnchanged(s.calls, i, HasRead(ReadOutcome(s.file, readOk), readOk));
    case Release(i) =>
      CommitsUnchanged(s.calls, i, Closed(s.calls[i].phase));
  }

  lemma StepKeepsFile(file0: StoreFile, s: System, e: Event)
    requires InOrder(s.calls) && ReadsCurrent(s) && Enabled(s, e)
    requires s.file == Replay(file0, Commits(s.calls))
    ensures Next(s, e).file == Replay(file0, Commits(Next(s, e).calls))
  {
    if e.FinishWrite? {
      WriteKeepsFile(file0, s, e.call, e.ok, e.now);
    } else {
      QuietStep(s, e);
    }
  }

  lemma StepKeepsInvariant(file0: StoreFile, s: System, e: Event)
    requires Invariant(file0, s) && Enabled(s, e)
    ensures Invariant(file0, Next(s, e))
  {
    StepKeepsOrder(s, e);
    StepKeepsChain(s, e);
    StepKeepsReads(s, e);
    StepKeepsFile(file0, s, e);
  }

  lemma {:induction false} RunKeepsInvariant(file0: StoreFile, s: System, events: seq<Event>)
    requires Invariant(file0, s) && IsRun(s, events)
    ensures Invariant(file0, After(s, events))
    decreases |events|
  {
    if events != [] {
      StepKeepsInvariant(file0, s, events[0]);
      RunKeepsInvariant(file0, Next(s, events[0]), events[1..]);
    }
  }

  /** At most one call is inside, calls enter in call order, and the file is the sequential
      application of the committed calls, each with the outcome of its own read. */
  lemma EveryRunIsSerial(file0: StoreFile, events: seq<Event>)
    requires IsRun(Start(file0), events)
    ensures var s := After(Start(file0), events);
            && (forall i, j | 0 <= i < j < |s.calls| :: !(Holding(s.calls[i]) && Holding(s.calls[j])))
            && InOrder(s.calls)
            && s.file == Replay(file0, Commits(s.calls))
  {
    RunKeepsInvariant(file0, Start(file0), events);
  }

  // ---- Nobody waits for ever ----

  function PhaseWork(p: Phase): nat {
    match p
    case Waiting => 4
    case Entered => 3
    case HasRead(_, _) => 2
    case Settled(_, _, _) => 1
    case Released(_, _, _) => 0
  }

  /** Steps still owed to the calls made so far. */
  function Work(calls: seq<Call>): nat {
    if calls == [] then 0 else Work(calls[..|calls| - 1]) + PhaseWork(calls[|calls| - 1].phase)
  }

  lemma {:induction false} WorkAfterPhase(calls: seq<Call>, i: nat, c: Call)
    requires i < |calls|
    ensures Work(calls[i := c]) == Work(calls) - PhaseWork(calls[i].phase) + PhaseWork(c.phase)
    decreases |calls|
  {
    var n := |calls| - 1;
    var after := calls[i := c];
    if i < n {
      WorkAfterPhase(calls[..n], i, c);
      assert after[..n] == calls[..n][i := c];
    } else {
      assert after[..n] == calls[..n];
    }
  }

  /** Every step of an existing call pays off one unit of work, whatever its read and write come to. */
  lemma StepReducesWork(s: System, e: Event)
    requires Enabled(s, e) && !e.Invoke?
    ensures Work(Next(s, e).calls) == Work(s.calls) - 1
  {
    match e
    case Enter(i) => WorkAfterPhase(s.calls, i, Next(s, e).calls[i]);
    case FinishRead(i, _) => WorkAfterPhase(s.calls, i, Next(s, e).calls[i]);
    case FinishWrite(i, _, _) => WorkAfterPhase(s.calls, i, Next(s, e).calls[i]);
    case Release(i) => WorkAfterPhase(s.calls, i, Next(s, e).calls[i]);
  }

  lemma {:induction false} FirstUnreleased(calls: seq<Call>) returns (i: nat)
    requires Work(calls) > 0
    ensures i < |calls| && !calls[i].phase.Released? && forall j | 0 <= j < i :: calls[j].phase.Released?
    decreases |calls|
  {
    if Work(calls[..|calls| - 1]) > 0 {
      i := FirstUnreleased(calls[..|calls| - 1]);
    } else {
      i := |calls| - 1;
      AllReleased(calls[..i]);
    }
  }

  lemma {:induction false} AllReleased(calls: seq<Call>)
    requires Work(calls) == 0
    ensures forall j | 0 <= j < |calls| :: calls[j].phase.Released?
    decreases |calls|
  {
    if calls != [] {
      AllReleased(calls[..|calls| - 1]);
    }
  }

  /** While a call is unfinished, some call's next step is enabled: no waiter is stranded. */
  lemma SomeStepEnabled(s: System) returns (e: Event)
    requires InOrder(s.calls) && Chained(s) && Work(s.calls) > 0
    ensures !e.Invoke? && Enabled(s, e)
  {
    var i := FirstUnreleased(s.calls);
    match s.calls[i].phase
    case Waiting =>
      assert i == 0 || s.calls[i - 1].phase.Released?;
      e := Enter(i);
    case Entered => e := FinishRead(i, true);
    case HasRead(_, _) => e := FinishWrite(i, true, 0);
    case Settled(_, _, _) => e := Release(i);
  }

  /** Any run that makes no new calls has at most as many steps as there is work, and after
      exactly that many every call has released, in whichever order the steps were taken. */
  lemma {:induction false} EveryCallFinishes(s: System, events: seq<Event>)
    requires IsRun(s, events) && forall e | e in events :: !e.Invoke?
    ensures |events| <= Work(s.calls)
    ensures |events| == Work(s.calls) ==>
              forall c | c in After(s, events).calls :: c.phase.Released?
    decreases |events|
  {
    if events == [] {
      if Work(s.calls) == 0 {
        AllReleased(s.calls);
      }
    } else {
      StepReducesWork(s, events[0]);
      EveryCallFinishes(Next(s, events[0]), events[1..]);
    }
  }

  lemma {:induction false} RunConcat(s: System, events: seq<Event>, more: seq<Event>)
    requires IsRun(s, events) && IsRun(After(s, events), more)
    ensures IsRun(s, events + more) && After(s, events + more) == After(After(s, events), more)
    decreases |events|
  {
    if events == [] {
      assert [] + more == more;
    } else {
      RunConcat(Next(s, events[0]), events[1..], more);
      assert (events + more)[1..] == events[1..] + more;
    }
  }

  predicate Finished(s: System) {
    forall i | 0 <= i < |s.calls| :: s.calls[i].phase.Released?
  }

  predicate NoInvoke(events: seq<Event>) {
    forall i | 0 <= i < |events| :: !events[i].Invoke?
  }

  lemma {:induction false} Completion(s: System) returns (more: seq<Event>)
    requires InOrder(s.calls) && Chained(s)
    ensures IsRun(s, more) && NoInvoke(more) && |more| == Work(s.calls) && Finished(After(s, more))
    decreases Work(s.calls)
  {
    if Work(s.calls) == 0 {
      AllReleased(s.calls);
      more := [];
    } else {
      var e := SomeStepEnabled(s);
      StepKeepsOrder(s, e);
      StepKeepsChain(s, e);
      StepReducesWork(s, e);
      var rest := Completion(Next(s, e));
      more := [e] + rest;
      assert more[1..] == rest;
    }
  }

  /** Every run can go on, without new calls and in as many steps as there is work left, until every
      call has released. */
  lemma EveryRunCanFinish(file0: StoreFile, events: seq<Event>) returns (more: seq<Event>)
    requires IsRun(Start(file0), events)
    ensures NoInvoke(more) && |more| == Work(After(Start(file0), events).calls)
    ensures IsRun(Start(file0), events + more) && Finished(After(Start(file0), events + more))
  {
    RunKeepsInvariant(file0, Start(file0), events);
    more := Completion(After(Start(file0), events));
    RunConcat(Start(file0), events, more);
  }

  // ---- What a failed read loses ----

  lemma WrittenReads(store: Store, key: string)
    requires !Blank(key)
    ensures key in Read(Written(store)) <==> key in store
  {}

  /** A file is written with a sessions object exactly if some session is disabled, and each one in it is. */
  lemma WrittenShape(store: Store)
    ensures Written(store).Sessions? <==> store != map[]
    ensures Written(store).Sessions? ==> Written(store).entries.Keys == store.Keys
    ensures Written(store).Sessions? ==> forall k | k in store :: Written(store).entries[k] == Record(true, store[k])
  {}

  /** A call does what it would have done after a proper read exactly when it had one, or no other
      session was disabled at the time. */
  lemma ReadMattersIff(file: StoreFile, op: Toggle, now: int, readOk: bool)
    ensures Applied(file, op, now, readOk) == Applied(file, op, now, true) <==> readOk || Read(file).Keys <= {op.key}
  {
    var store := Read(file);
    if store.Keys <= {op.key} {
      assert Toggled(map[], op, now) == Toggled(store, op, now);
    } else {
      var key :| key in store && key != op.key;
      assert key in Toggled(store, op, now) && key !in Toggled(map[], op, now);
      WrittenReads(Toggled(store, op, now), key);
      WrittenReads(Toggled(map[], op, now), key);
    }
  }

  /** The calls applied one after the other with no read failing. */
  function Sequential(file: StoreFile, commits: seq<Commit>): StoreFile {
    if commits == [] then file
    else
      var c := commits[|commits| - 1];
      Applied(Sequential(file, commits[..|commits| - 1]), c.op, c.now, true)
  }

  predicate LosesNothing(file0: StoreFile, commits: seq<Commit>) {
    commits != [] ==>
      var c := commits[|commits| - 1];
      var before := commits[..|commits| - 1];
      (c.readOk || Read(Replay(file0, before)).Keys <= {c.op.key}) && LosesNothing(file0, before)
  }

  lemma {:induction false} ReplayLosesNothing(file0: StoreFile, commits: seq<Commit>)
    requires LosesNothing(file0, commits)
    ensures Replay(file0, commits) == Sequential(file0, commits)
    decreases |commits|
  {
    if commits != [] {
      var c := commits[|commits| - 1];
      var before := commits[..|commits| - 1];
      ReplayLosesNothing(file0, before);
      ReadMattersIff(Replay(file0, before), c.op, c.now, c.readOk);
    }
  }

  /** No update is lost in a run of which every committed call had read the file, or found no other
      session disabled when it could not. */
  lemma RunLosesNothing(file0: StoreFile, events: seq<Event>)
    requires IsRun(Start(file0), events)
    requires LosesNothing(file0, Commits(After(Start(file0), events).calls))
    ensures var s := After(Start(file0), events); s.file == Sequential(file0, Commits(s.calls))
  {
    RunKeepsInvariant(file0, Start(file0), events);
    ReplayLosesNothing(file0, Commits(After(Start(file0), events).calls));
  }

  lemma {:induction false} AllReadLosesNothing(file0: StoreFile, commits: seq<Commit>)
    requires forall i | 0 <= i < |commits| :: commits[i].readOk
    ensures LosesNothing(file0, commits)
    decreases |commits|
  {
    if commits != [] {
      AllReadLosesNothing(file0, commits[..|commits| - 1]);
    }
  }

  // ---- What a reader of the store sees ----

  /** The value the last committed toggle of `key` asked for. */
  function LastToggle(commits: seq<Commit>, key: string): Option<bool> {
    if commits == [] then None
    else
      var c := commits[|commits| - 1];
      if c.op.key == key then Some(c.op.disabled) else LastToggle(commits[..|commits| - 1], key)
  }

  /** Every call committed after the last toggle of `key` had read the file. */
  predicate KeptSince(commits: seq<Commit>, key: string) {
    commits != [] ==>
      var c := commits[|commits| - 1];
      c.op.key == key || (c.readOk && KeptSince(commits[..|commits| - 1], key))
  }

  lemma AppliedReads(file: StoreFile, op: Toggle, now: int, readOk: bool, key: string)
    requires !Blank(key)
    ensures key in Read(Applied(file, op, now, readOk)) <==>
            if op.key == key then op.disabled else readOk && key in Read(file)
  {
    WrittenReads(Toggled(ReadOutcome(file, readOk), op, now), key);
  }

  /** The time recorded for a session: that of the call that disabled it, or as it was. */
  lemma AppliedTimes(file: StoreFile, op: Toggle, now: int, readOk: bool, key: string)
    requires key in Read(Applied(file, op, now, readOk))
    ensures if op.key == key then Read(Applied(file, op, now, readOk))[key] == Some(now)
            else key in Read(file) && Read(Applied(file, op, now, readOk))[key] == Read(file)[key]
  {}

  /** What counts as disabled: an object with `disabled` true under the trimmed key, which is not empty. */
  lemma DisabledIff(file: StoreFile, sessionKey: string)
    ensures Disabled(file, sessionKey) <==>
            && Trim(sessionKey) != "" && file.Sessions? && Trim(sessionKey) in file.entries
            && file.entries[Trim(sessionKey)].Record? && file.entries[Trim(sessionKey)].disabled
  {
    BlankIffTrimEmpty(sessionKey);
    BlankIffTrimEmpty(Trim(sessionKey));
    TrimIsTrimmed(sessionKey);
    TrimOfTrimmed(Trim(sessionKey));
  }

  lemma {:induction false} LastCommitWins(file0: StoreFile, commits: seq<Commit>, key: string)
    requires !Blank(key)
    ensures key in Read(Replay(file0, commits)) <==>
            && KeptSince(commits, key)
            && match LastToggle(commits, key)
               case Some(disabled) => disabled
               case None => key in Read(file0)
    decreases |commits|
  {
    if commits != [] {
      var c := commits[|commits| - 1];
      var before := commits[..|commits| - 1];
      AppliedReads(Replay(file0, before), c.op, c.now, c.readOk, key);
      LastCommitWins(file0, before, key);
    }
  }

  /** After any run, a session counts as disabled exactly when the last toggle of it that was written
      disabled it, or none was written and the file already said so, and every call written after that
      had read the file. */
  lemma LastToggleWins(file0: StoreFile, events: seq<Event>, sessionKey: string)
    requires IsRun(Start(file0), events)
    ensures var s := After(Start(file0), events);
            Disabled(s.file, sessionKey) <==>
            && KeptSince(Commits(s.calls), Trim(sessionKey))
            && match LastToggle(Commits(s.calls), Trim(sessionKey))
               case Some(disabled) => disabled && Trim(sessionKey) != ""
               case None => Disabled(file0, sessionKey)
  {
    RunKeepsInvariant(file0, Start(file0), events);
    LastCommitDecides(file0, Commits(After(Start(file0), events).calls), sessionKey);
  }

  lemma LastCommitDecides(file0: StoreFile, commits: seq<Commit>, sessionKey: string)
    ensures Disabled(Replay(file0, commits), sessionKey) <==>
            && KeptSince(commits, Trim(sessionKey))
            && match LastToggle(commits, Trim(sessionKey))
               case Some(disabled) => disabled && Trim(sessionKey) != ""
               case None => Disabled(file0, sessionKey)
  {
    var key := Trim(sessionKey);
    if key != "" {
      TrimIsTrimmed(sessionKey);
      assert !IsSpace(key[0]);
      LastCommitWins(file0, commits, key);
    } else if LastToggle(commits, key) == None {
      assert !Disabled(file0, sessionKey);
    }
  }

  lemma OneStep(s: System, e: Event, rest: seq<Event>)
    requires Enabled(s, e) && IsRun(Next(s, e), rest)
    ensures IsRun(s, [e] + rest) && After(s, [e] + rest) == After(Next(s, e), rest)
  {
    assert ([e] + rest)[1..] == rest;
  }

  /** A run that loses an update: one session is disabled, and the call that disables another one cannot
      read the file but can replace it. */
  lemma FailedReadLosesSession(now: int)
    ensures var file0 := Sessions(map["a" := Record(true, None)]);
            var events := [Invoke(Toggle("b", true)), Enter(0), FinishRead(0, false), FinishWrite(0, true, now),
                           Release(0)];
            && IsRun(Start(file0), events)
            && Disabled(file0, "a")
            && !Disabled(After(Start(file0), events).file, "a")
            && Disabled(After(Start(file0), events).file, "b")
  {
    var file0 := Sessions(map["a" := Record(true, None)]);
    var s0 := Start(file0);
    var s1 := Next(s0, Invoke(Toggle("b", true)));
    var s2 := Next(s1, Enter(0));
    var s3 := Next(s2, FinishRead(0, false));
    var s4 := Next(s3, FinishWrite(0, true, now));
    OneStep(s4, Release(0), []);
    OneStep(s3, FinishWrite(0, true, now), [Release(0)]);
    OneStep(s2, FinishRead(0, false), [FinishWrite(0, true, now), Release(0)]);
    OneStep(s1, Enter(0), [FinishRead(0, false), FinishWrite(0, true, now), Release(0)]);
    OneStep(s0, Invoke(Toggle("b", true)), [Enter(0), FinishRead(0, false), FinishWrite(0, true, now), Release(0)]);
    TrimOfTrimmed("a");
    TrimOfTrimmed("b");
    assert !IsSpace("a"[0]) && !IsSpace("b"[0]);
  }

  // ---- The lock and store as the code keeps them ----

  class ToggleStore {
    var file: StoreFile
    var lock: nat
    var resolved: set<nat>
    var calls: seq<Call>

    ghost function Snapshot(): System
      reads this
    {
      System(file, lock, resolved, calls)
    }

    constructor (file: StoreFile)
      ensures Snapshot() == Start(file)
    {
      this.file, lock, resolved, calls := file, 0, {0}, [];
    }

    /** The synchronous part of `withLock`: remember the current promise, install a fresh one. */
    method InvokeToggle(op: Toggle)
      modifies this
      ensures Snapshot() == Next(old(Snapshot()), Invoke(op))
    {
      var previous := lock;
      lock := |calls| + 1;
      calls := calls + [Call(op, previous, Waiting)];
    }

    method SetPhase(i: nat, phase: Phase)
      requires i < |calls|
      modifies `calls
      ensures Snapshot() == WithPhase(old(Snapshot()), i, phase)
    {
      calls := calls[i := calls[i].(phase := phase)];
    }

    /** The promise that the call waits for has resolved. */
    method EnterTask(i: nat)
      requires Enabled(Snapshot(), Enter(i))
      modifies `calls
      ensures Snapshot() == Next(old(Snapshot()), Enter(i))
    {
      SetPhase(i, Entered);
    }

    /** The read of the file returns or fails; either way the call goes on. */
    method ReadStore(i: nat, readOk: bool)
      requires Enabled(Snapshot(), FinishRead(i, readOk))
      modifies `calls
      ensures Snapshot() == Next(old(Snapshot()), FinishRead(i, readOk))
    {
      var sessions: Store := map[];
      if readOk {
        sessions := Read(file);
      }
      SetPhase(i, HasRead(sessions, readOk));
    }

    /** The edit of the sessions and the write of the file, which may fail. */
    method WriteStore(i: nat, ok: bool, now: int)
      requires Enabled(Snapshot(), FinishWrite(i, ok, now))
      modifies `calls, `file
      ensures Snapshot() == Next(old(Snapshot()), FinishWrite(i, ok, now))
    {
      var sessions := calls[i].phase.store;
      if calls[i].op.disabled {
        sessions := sessions[calls[i].op.key := Some(now)];
      } else {
        sessions := sessions - {calls[i].op.key};
      }
      if ok {
        file := Written(sessions);
      }
      SetPhase(i, Settled(ok, now, calls[i].phase.readOk));
    }

    /** The `finally` block: the call's promise resolves even if the work inside threw. */
    method ReleaseLock(i: nat)
      requires Enabled(Snapshot(), Release(i))
      modifies `calls, `resolved
      ensures Snapshot() == Next(old(Snapshot()), Release(i))
    {
      resolved := resolved + {i + 1};
      SetPhase(i, Closed(calls[i].phase));
    }
  }
}
