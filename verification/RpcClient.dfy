/** `PiRpcClient`: prompts chained on one promise, one pending slot, and a child process that may
    answer, fail, close or stay silent at any time. */
module RpcClient {

  /** A prompt's promise. `Active` means written and not settled. */
  datatype Status = Queued | Active | Succeeded(text: string) | Failed

  /** The pending slot: the request id and the prompt whose promise its callbacks settle. */
  datatype Pending = NoPending | Pending(id: nat, prompt: nat, responseReceived: bool)

  /** `written` lists the prompts whose request went to the child's input, in order. */
  datatype Client = Client(
    closed: bool,
    pending: Pending,
    requestCount: nat,
    prompts: seq<Status>,
    written: seq<nat>)

  /** A line of the child's output, after parsing. `AgentEnd` carries the extracted text or an error. */
  datatype Line = Response(id: nat, success: bool) | AgentEnd(ok: bool, text: string) | Noise

  datatype Event =
    | Call                       // prompt(...) is called
    | Settle(prompt: nat)        // the previous prompt's promise has settled
    | Output(line: Line)
    | ProcessError
    | ProcessClose
    | Timeout(prompt: nat)       // the prompt's timer fires
    | WriteError(prompt: nat)    // the callback of the prompt's write reports an error
    | Close                      // close() is called

  function Fresh(): Client {
    Client(false, NoPending, 0, [], [])
  }

  predicate Enabled(c: Client, e: Event) {
    match e
    case Settle(i) =>
      i < |c.prompts| && c.prompts[i].Queued?
      && (i == 0 || c.prompts[i - 1].Succeeded? || c.prompts[i - 1].Failed?)
    case Timeout(i) => i < |c.prompts| && c.prompts[i].Active?
    case WriteError(i) => i in c.written && i < |c.prompts|
    case _ => true
  }

  /** Settling a promise that is already settled does nothing. */
  function SetStatus(c: Client, i: nat, status: Status): Client {
    if i < |c.prompts| && c.prompts[i].Active? then c.(prompts := c.prompts[i := status]) else c
  }

  function RejectPending(c: Client): Client {
    match c.pending
    case NoPending => c
    case Pending(_, prompt, _) => SetStatus(c.(pending := NoPending), prompt, Failed)
  }

  function OnLine(c: Client, line: Line): Client {
    if c.pending.NoPending? then c
    else
      match line
      case Response(id, success) =>
        if id != c.pending.id then c
        else if !success then RejectPending(c)
        else c.(pending := c.pending.(responseReceived := true))
      case AgentEnd(ok, text) =>
        if ok then SetStatus(c.(pending := NoPending), c.pending.prompt, Succeeded(text))
        else RejectPending(c)
      case Noise => c
  }

  /** The body chained on the previous prompt: skipped if that one failed, else it writes. */
  function RunPrompt(c: Client, i: nat): Client
    requires i < |c.prompts|
  {
    if (i > 0 && !c.prompts[i - 1].Succeeded?) || c.closed then c.(prompts := c.prompts[i := Failed])
    else
      c.(requestCount := c.requestCount + 1,
         pending := Pending(c.requestCount + 1, i, false),
         prompts := c.prompts[i := Active],
         written := c.written + [i])
  }

  function OnTimeout(c: Client, i: nat): Client {
    if c.pending.Pending? && c.pending.prompt == i
    then SetStatus(c.(pending := NoPending, closed := true), i, Failed)
    else c
  }

  function OnWriteError(c: Client, i: nat): Client {
    var after := if c.pending.Pending? && c.pending.prompt == i then c.(pending := NoPending) else c;
    SetStatus(after, i, Failed)
  }

  function Next(c: Client, e: Event): Client
    requires Enabled(c, e)
  {
    match e
    case Call => c.(prompts := c.prompts + [Queued])
    case Settle(i) => RunPrompt(c, i)
    case Output(line) => OnLine(c, line)
    case ProcessError => RejectPending(c)
    case ProcessClose => RejectPending(c.(closed := true))
    case Timeout(i) => OnTimeout(c, i)
    case WriteError(i) => OnWriteError(c, i)
    case Close => c.(closed := true)
  }

  predicate IsRun(c: Client, events: seq<Event>)
    decreases |events|
  {
    events == [] || (Enabled(c, events[0]) && IsRun(Next(c, events[0]), events[1..]))
  }

  function After(c: Client, events: seq<Event>): Client
    requires IsRun(c, events)
    decreases |events|
  {
    if events == [] then c else After(Next(c, events[0]), events[1..])
  }

  // ---- What holds in every run ----

  /** A prompt is written or succeeds only after all earlier ones succeeded, and fails only after
      all earlier ones settled. */
  ghost predicate InOrder(c: Client) {
    && (forall i, j | 0 <= i < j < |c.prompts| && (c.prompts[j].Active? || c.prompts[j].Succeeded?) ::
          c.prompts[i].Succeeded?)
    && (forall i, j | 0 <= i < j < |c.prompts| && c.prompts[j].Failed? ::
          c.prompts[i].Succeeded? || c.prompts[i].Failed?)
  }

  /** The pending slot is occupied exactly while a prompt is active, and names that prompt. */
  ghost predicate SlotMatches(c: Client) {
    && (c.pending.Pending? ==>
          c.pending.prompt < |c.prompts| && c.prompts[c.pending.prompt].Active?
          && c.pending.id == c.pending.prompt + 1 == c.requestCount)
    && (forall i | 0 <= i < |c.prompts| && c.prompts[i].Active? :: c.pending.Pending? && c.pending.prompt == i)
  }

  /** Requests go out in call order without gaps: request `k + 1` is prompt `k`. */
  ghost predicate WrittenInOrder(c: Client) {
    && |c.written| == c.requestCount <= |c.prompts|
    && (forall k | 0 <= k < |c.written| :: c.written[k] == k)
    && (forall i | 0 <= i < |c.prompts| && (c.prompts[i].Active? || c.prompts[i].Succeeded?) :: i < c.requestCount)
    && (forall i | 0 <= i < |c.prompts| && c.prompts[i].Queued? :: c.requestCount <= i)
  }

  /** Every written prompt but the last has succeeded, whatever became of the last one. */
  ghost predicate WrittenAfterSuccess(c: Client) {
    forall k | 0 <= k < |c.written| - 1 && k < |c.prompts| :: c.prompts[k].Succeeded?
  }

  ghost predicate Invariant(c: Client) {
    InOrder(c) && SlotMatches(c) && WrittenInOrder(c) && WrittenAfterSuccess(c)
  }

  // Every event but a call and a settled predecessor either moves no prompt or settles the pending one.

  ghost predicate Unmoved(c: Client, d: Client) {
    && d.prompts == c.prompts
    && d.pending.Pending? == c.pending.Pending?
    && (d.pending.Pending? ==> d.pending.id == c.pending.id && d.pending.prompt == c.pending.prompt)
  }

  ghost predicate PendingSettled(c: Client, d: Client) {
    && c.pending.Pending? && c.pending.prompt < |c.prompts| && c.prompts[c.pending.prompt].Active?
    && d.pending.NoPending?
    && (d.prompts == c.prompts[c.pending.prompt := Failed]
        || exists text :: d.prompts == c.prompts[c.pending.prompt := Succeeded(text)])
  }

  lemma Classify(c: Client, e: Event)
    requires SlotMatches(c) && Enabled(c, e) && !e.Call? && !e.Settle?
    ensures Unmoved(c, Next(c, e)) || PendingSettled(c, Next(c, e))
    ensures Next(c, e).requestCount == c.requestCount && Next(c, e).written == c.written
  {}

  lemma PendingSettledKeeps(c: Client, d: Client)
    requires Invariant(c) && PendingSettled(c, d)
    requires d.requestCount == c.requestCount && d.written == c.written
    ensures Invariant(d)
  {}

  lemma UnmovedKeeps(c: Client, d: Client)
    requires Invariant(c) && Unmoved(c, d)
    requires d.requestCount == c.requestCount && d.written == c.written
    ensures Invariant(d)
  {}

  lemma CallKeeps(c: Client)
    requires Invariant(c)
    ensures Invariant(Next(c, Call))
  {}

  /** When a queued prompt's turn comes, every earlier prompt has settled; if all succeeded, exactly
      the earlier ones have been written. */
  lemma TurnComes(c: Client, i: nat)
    requires Invariant(c) && Enabled(c, Settle(i))
    ensures forall j | 0 <= j < i :: c.prompts[j].Succeeded? || c.prompts[j].Failed?
    ensures forall j | i < j < |c.prompts| :: c.prompts[j].Queued?
    ensures (i == 0 || c.prompts[i - 1].Succeeded?) ==>
              c.requestCount == i && forall j | 0 <= j < i :: c.prompts[j].Succeeded?
  {}

  lemma WritingKeeps(c: Client, i: nat)
    requires Invariant(c) && Enabled(c, Settle(i)) && !c.closed
    requires i == 0 || c.prompts[i - 1].Succeeded?
    ensures Invariant(Next(c, Settle(i)))
  {
    TurnComes(c, i);
  }

  lemma SkippingKeeps(c: Client, i: nat)
    requires Invariant(c) && Enabled(c, Settle(i))
    requires c.closed || (i > 0 && c.prompts[i - 1].Failed?)
    ensures Invariant(Next(c, Settle(i)))
  {
    TurnComes(c, i);
  }

  lemma StepKeepsInvariant(c: Client, e: Event)
    requires Invariant(c) && Enabled(c, e)
    ensures Invariant(Next(c, e))
  {
    if e.Call? {
      CallKeeps(c);
    } else if e.Settle? {
      if c.closed || (e.prompt > 0 && c.prompts[e.prompt - 1].Failed?) {
        SkippingKeeps(c, e.prompt);
      } else {
        WritingKeeps(c, e.prompt);
      }
    } else {
      Classify(c, e);
      if Unmoved(c, Next(c, e)) {
        UnmovedKeeps(c, Next(c, e));
      } else {
        PendingSettledKeeps(c, Next(c, e));
      }
    }
  }

  lemma {:induction false} RunKeepsInvariant(c: Client, events: seq<Event>)
    requires Invariant(c) && IsRun(c, events)
    ensures Invariant(After(c, events))
    decreases |events|
  {
    if events != [] {
      StepKeepsInvariant(c, events[0]);
      RunKeepsInvariant(Next(c, events[0]), events[1..]);
    }
  }

  /** In every run at most one prompt is unanswered, requests are written in call order, and each
      only after every earlier prompt succeeded: also when the prompt itself failed later. */
  lemma EveryRunIsSequential(events: seq<Event>)
    requires IsRun(Fresh(), events)
    ensures var c := After(Fresh(), events);
            && (forall i, j | 0 <= i < j < |c.prompts| :: !(c.prompts[i].Active? && c.prompts[j].Active?))
            && (forall k | 0 <= k < |c.written| :: c.written[k] == k)
            && |c.written| <= |c.prompts|
            && (forall k | 0 <= k < |c.written| - 1 :: c.prompts[k].Succeeded?)
  {
    RunKeepsInvariant(Fresh(), events);
  }

  /** An answer goes only to the latest written prompt, and settles it. */
  lemma AnswerGoesToLatest(c: Client, ok: bool, text: string)
    requires Invariant(c)
    ensures var d := Next(c, Output(AgentEnd(ok, text)));
            if c.pending.NoPending? then d == c
            else
              var last := c.written[|c.written| - 1];
              && last < |c.prompts| && c.prompts[last].Active?
              && d.prompts == c.prompts[last := if ok then Succeeded(text) else Failed]
              && d.pending.NoPending?
  {}

  // ---- After a failure or a close ----

  ghost predicate SomeFailed(c: Client) {
    exists i :: 0 <= i < |c.prompts| && c.prompts[i].Failed?
  }

  /** The client is spent: it is closed, or a prompt has failed. */
  ghost predicate Spent(c: Client) {
    c.closed || SomeFailed(c)
  }

  lemma SpentPromptIsNotWritten(c: Client, i: nat)
    requires Invariant(c) && Spent(c) && Enabled(c, Settle(i))
    ensures c.closed || (i > 0 && c.prompts[i - 1].Failed?)
  {
    TurnComes(c, i);
    if !c.closed {
      var f :| 0 <= f < |c.prompts| && c.prompts[f].Failed?;
      assert f < i;
      if i > 0 && c.prompts[i - 1].Succeeded? {
        assert c.prompts[f].Succeeded?;
      }
    }
  }

  lemma FailureIsFinal(c: Client, e: Event)
    requires Invariant(c) && SomeFailed(c) && Enabled(c, e)
    ensures SomeFailed(Next(c, e))
  {
    var f :| 0 <= f < |c.prompts| && c.prompts[f].Failed?;
    assert Next(c, e).prompts[f].Failed?;
  }

  lemma SpentStep(c: Client, e: Event)
    requires Invariant(c) && Spent(c) && Enabled(c, e)
    ensures Spent(Next(c, e)) && Next(c, e).written == c.written
    ensures forall i | 0 <= i < |Next(c, e).prompts| && Next(c, e).prompts[i].Succeeded? :: i < c.requestCount
  {
    if e.Settle? {
      SpentPromptIsNotWritten(c, e.prompt);
    }
    if !c.closed {
      FailureIsFinal(c, e);
    }
    StepKeepsInvariant(c, e);
  }

  /** Once closed, or once any prompt has failed, nothing more is ever written, and no prompt that
      was not already written can succeed, however the run goes on. */
  lemma {:induction false} SpentClientStaysSilent(c: Client, events: seq<Event>)
    requires Invariant(c) && Spent(c) && IsRun(c, events)
    ensures After(c, events).written == c.written
    ensures forall i | 0 <= i < |After(c, events).prompts| && After(c, events).prompts[i].Succeeded? ::
              i < |c.written|
    decreases |events|
  {
    if events != [] {
      SpentStep(c, events[0]);
      StepKeepsInvariant(c, events[0]);
      SpentClientStaysSilent(Next(c, events[0]), events[1..]);
    }
  }

  /** No prompt called after a failed one ever succeeds. */
  lemma NothingSucceedsPastFailure(events: seq<Event>, i: nat, j: nat)
    requires IsRun(Fresh(), events)
    requires i < j < |After(Fresh(), events).prompts| && After(Fresh(), events).prompts[i].Failed?
    ensures !After(Fresh(), events).prompts[j].Succeeded?
  {
    RunKeepsInvariant(Fresh(), events);
  }

  /** Closing is final: once `close()` is called or the process has closed, nothing more is written,
      however the run goes on, and no prompt that was not already written succeeds. */
  lemma CloseIsFinal(c: Client, e: Event, events: seq<Event>)
    requires Invariant(c) && (e.Close? || e.ProcessClose?) && IsRun(Next(c, e), events)
    ensures After(Next(c, e), events).written == c.written
    ensures forall i | |c.written| <= i < |After(Next(c, e), events).prompts| ::
              !After(Next(c, e), events).prompts[i].Succeeded?
  {
    StepKeepsInvariant(c, e);
    SpentClientStaysSilent(Next(c, e), events);
  }

  // ---- What each event does ----

  /** When its turn comes on a client that is not spent, a prompt is written; otherwise it fails. */
  lemma TurnWritesIff(c: Client, i: nat)
    requires Invariant(c) && Enabled(c, Settle(i))
    ensures var d := Next(c, Settle(i));
            if Spent(c) then d.written == c.written && d.prompts == c.prompts[i := Failed]
            else i == |c.written| && d.written == c.written + [i] && d.prompts == c.prompts[i := Active]
    ensures Next(c, Settle(i)).closed == c.closed
  {
    TurnComes(c, i);
    if Spent(c) {
      SpentPromptIsNotWritten(c, i);
    }
  }

  /** The prompt is written and not yet answered. */
  predicate Unanswered(c: Client, i: nat) {
    i < |c.prompts| && c.prompts[i].Active?
  }

  /** The event ends the unanswered prompt `i` without a text: an error of the process or of the write,
      the end of the process, the prompt's own timer, an error from the agent, or a refusal of the
      request, which is number `i + 1`. */
  predicate Breaks(e: Event, i: nat) {
    match e
    case ProcessError => true
    case ProcessClose => true
    case Timeout(j) => j == i
    case WriteError(j) => j == i
    case Output(AgentEnd(ok, _)) => !ok
    case Output(Response(id, success)) => id == i + 1 && !success
    case _ => false
  }

  /** What becomes of the unanswered prompt at an event: it is answered, it fails, or it goes on waiting. */
  function Verdict(e: Event, i: nat): Status {
    if e.Output? && e.line.AgentEnd? && e.line.ok then Succeeded(e.line.text)
    else if Breaks(e, i) then Failed
    else Active
  }

  /** Every event other than a call or a turn settles the unanswered prompt as `Verdict` says and no other. */
  lemma EventSettles(c: Client, e: Event, i: nat)
    requires Invariant(c) && Enabled(c, e) && !e.Call? && !e.Settle? && Unanswered(c, i)
    ensures Next(c, e).prompts == c.prompts[i := Verdict(e, i)]
  {
    assert c.pending.prompt == i && c.pending.id == i + 1;
    assert c.prompts[i := Active] == c.prompts;
  }

  /** With no prompt unanswered, such an event settles nothing. */
  lemma EventIsIdle(c: Client, e: Event)
    requires Invariant(c) && Enabled(c, e) && !e.Call? && !e.Settle?
    requires forall i | 0 <= i < |c.prompts| :: !Unanswered(c, i)
    ensures Next(c, e).prompts == c.prompts
  {
    assert c.pending.Pending? ==> Unanswered(c, c.pending.prompt);
  }

  /** A client closes at `close()`, when its process does, and when the unanswered prompt times out. */
  lemma ClosesIff(c: Client, e: Event)
    requires Invariant(c) && Enabled(c, e)
    ensures Next(c, e).closed <==> c.closed || e.Close? || e.ProcessClose? || e.Timeout?
  {}

  function Calls(events: seq<Event>): nat {
    if events == [] then 0 else (if events[0].Call? then 1 else 0) + Calls(events[1..])
  }

  /** Every call makes one prompt, and nothing else does. */
  lemma {:induction false} EveryCallIsAPrompt(c: Client, events: seq<Event>)
    requires IsRun(c, events)
    ensures |After(c, events).prompts| == |c.prompts| + Calls(events)
    decreases |events|
  {
    if events != [] {
      EveryCallIsAPrompt(Next(c, events[0]), events[1..]);
    }
  }

  // ---- Which answer a prompt gets ----

  /** The event is an answer that arrives while a prompt is unanswered. */
  ghost predicate IsAnswer(c: Client, e: Event) {
    e.Output? && e.line.AgentEnd? && e.line.ok && exists i :: 0 <= i < |c.prompts| && Unanswered(c, i)
  }

  /** The texts of the answers in a run, in order of arrival. */
  ghost function AnswerTexts(c: Client, events: seq<Event>): seq<string>
    requires IsRun(c, events)
    decreases |events|
  {
    if events == [] then []
    else (if IsAnswer(c, events[0]) then [events[0].line.text] else []) + AnswerTexts(Next(c, events[0]), events[1..])
  }

  /** The prompts that have succeeded are the first ones, with these texts. */
  ghost predicate SucceededWith(c: Client, texts: seq<string>) {
    && |texts| <= |c.prompts|
    && (forall i | 0 <= i < |texts| :: c.prompts[i] == Succeeded(texts[i]))
    && (forall i | |texts| <= i < |c.prompts| :: !c.prompts[i].Succeeded?)
  }

  lemma AnswerIsNext(c: Client, e: Event, texts: seq<string>)
    requires Invariant(c) && Enabled(c, e) && SucceededWith(c, texts)
    ensures SucceededWith(Next(c, e), texts + if IsAnswer(c, e) then [e.line.text] else [])
  {
    if IsAnswer(c, e) {
      var i: nat :| i < |c.prompts| && Unanswered(c, i);
      EventSettles(c, e, i);
      assert i > 0 ==> c.prompts[i - 1].Succeeded?;
    } else {
      assert texts + [] == texts;
      if e.Settle? {
        TurnWritesIff(c, e.prompt);
      } else if !e.Call? {
        if i :| 0 <= i < |c.prompts| && Unanswered(c, i) {
          EventSettles(c, e, i);
        } else {
          EventIsIdle(c, e);
        }
      }
    }
  }

  lemma {:induction false} AnswersSince(c: Client, events: seq<Event>, texts: seq<string>)
    requires Invariant(c) && IsRun(c, events) && SucceededWith(c, texts)
    ensures SucceededWith(After(c, events), texts + AnswerTexts(c, events))
    decreases |events|
  {
    if events == [] {
      assert texts + [] == texts;
    } else {
      var more := if IsAnswer(c, events[0]) then [events[0].line.text] else [];
      AnswerIsNext(c, events[0], texts);
      StepKeepsInvariant(c, events[0]);
      AnswersSince(Next(c, events[0]), events[1..], texts + more);
      var rest := AnswerTexts(Next(c, events[0]), events[1..]);
      assert texts + more + rest == texts + (more + rest);
    }
  }

  /** In every run the prompt called `i`-th succeeds exactly if the run has an `i`-th answer, and then
      with that answer's text. */
  lemma EachPromptGetsItsAnswer(events: seq<Event>, i: nat)
    requires IsRun(Fresh(), events) && i < |After(Fresh(), events).prompts|
    ensures var texts := AnswerTexts(Fresh(), events);
            && |texts| <= |After(Fresh(), events).prompts|
            && (After(Fresh(), events).prompts[i].Succeeded? <==> i < |texts|)
            && (i < |texts| ==> After(Fresh(), events).prompts[i] == Succeeded(texts[i]))
  {
    AnswersSince(Fresh(), events, []);
    assert [] + AnswerTexts(Fresh(), events) == AnswerTexts(Fresh(), events);
  }

  // ---- Nobody waits for ever ----

  function Owed(status: Status): nat {
    match status
    case Queued => 2
    case Active => 1
    case _ => 0
  }

  /** Steps still owed to the prompts: a turn for each queued one and an end for each written one. */
  function Work(prompts: seq<Status>): nat {
    if prompts == [] then 0 else Work(prompts[..|prompts| - 1]) + Owed(prompts[|prompts| - 1])
  }

  lemma {:induction false} WorkAfterStatus(prompts: seq<Status>, i: nat, status: Status)
    requires i < |prompts|
    ensures Work(prompts[i := status]) == Work(prompts) - Owed(prompts[i]) + Owed(status)
    decreases |prompts|
  {
    var n := |prompts| - 1;
    if i < n {
      assert prompts[i := status][..n] == prompts[..n][i := status];
      WorkAfterStatus(prompts[..n], i, status);
    } else {
      assert prompts[i := status][..n] == prompts[..n];
    }
  }

  lemma {:induction false} FirstUnsettled(prompts: seq<Status>) returns (i: nat)
    requires Work(prompts) > 0
    ensures i < |prompts| && (prompts[i].Queued? || prompts[i].Active?)
    ensures forall j | 0 <= j < i :: prompts[j].Succeeded? || prompts[j].Failed?
    decreases |prompts|
  {
    var n := |prompts| - 1;
    if Work(prompts[..n]) > 0 {
      i := FirstUnsettled(prompts[..n]);
    } else {
      i := n;
      AllSettled(prompts[..n]);
    }
  }

  lemma {:induction false} AllSettled(prompts: seq<Status>)
    requires Work(prompts) == 0
    ensures forall j | 0 <= j < |prompts| :: prompts[j].Succeeded? || prompts[j].Failed?
    decreases |prompts|
  {
    if prompts != [] {
      AllSettled(prompts[..|prompts| - 1]);
    }
  }

  /** While a prompt is unsettled, its turn or its timer can bring the end nearer: none is stranded. */
  lemma SomeStepHelps(c: Client) returns (e: Event)
    requires Invariant(c) && Work(c.prompts) > 0
    ensures Enabled(c, e) && (e.Settle? || e.Timeout?)
    ensures Work(Next(c, e).prompts) < Work(c.prompts)
  {
    var i := FirstUnsettled(c.prompts);
    if c.prompts[i].Queued? {
      e := Settle(i);
      TurnWritesIff(c, i);
      WorkAfterStatus(c.prompts, i, Next(c, e).prompts[i]);
    } else {
      e := Timeout(i);
      EventSettles(c, e, i);
      WorkAfterStatus(c.prompts, i, Failed);
    }
  }

  /** From every state of a run the timers alone can settle all prompts, whatever the child does not say. */
  lemma {:induction false} EveryPromptCanSettle(c: Client) returns (events: seq<Event>)
    requires Invariant(c)
    ensures IsRun(c, events) && |events| <= Work(c.prompts)
    ensures forall i | 0 <= i < |events| :: events[i].Settle? || events[i].Timeout?
    ensures forall i | 0 <= i < |After(c, events).prompts| ::
              After(c, events).prompts[i].Succeeded? || After(c, events).prompts[i].Failed?
    decreases Work(c.prompts)
  {
    if Work(c.prompts) == 0 {
      AllSettled(c.prompts);
      events := [];
    } else {
      var e := SomeStepHelps(c);
      StepKeepsInvariant(c, e);
      var rest := EveryPromptCanSettle(Next(c, e));
      events := [e] + rest;
      assert events[1..] == rest;
    }
  }

  // ---- The client as the code keeps it ----

  class PiRpcClient {
    var closed: bool
    var pending: Pending
    var requestCount: nat
    var prompts: seq<Status>
    var written: seq<nat>

    ghost function Snapshot(): Client
      reads this
    {
      Client(closed, pending, requestCount, prompts, written)
    }

    constructor ()
      ensures Snapshot() == Fresh()
    {
      closed, pending, requestCount, prompts, written := false, NoPending, 0, [], [];
    }

    method Prompt() returns (prompt: nat)
      modifies `prompts
      ensures Snapshot() == Next(old(Snapshot()), Call) && prompt == |old(prompts)|
    {
      prompt := |prompts|;
      prompts := prompts + [Queued];
    }

    method Run(i: nat)
      requires Enabled(Snapshot(), Settle(i))
      modifies this
      ensures Snapshot() == Next(old(Snapshot()), Settle(i))
    {
      if (i > 0 && !prompts[i - 1].Succeeded?) || closed {
        prompts := prompts[i := Failed];
        return;
      }
      requestCount := requestCount + 1;
      var id := requestCount;
      pending := Pending(id, i, false);
      prompts := prompts[i := Active];
      written := written + [i];
    }

    method SettlePromise(i: nat, status: Status)
      modifies `prompts
      ensures Snapshot() == SetStatus(old(Snapshot()), i, status)
    {
      if i < |prompts| && prompts[i].Active? {
        prompts := prompts[i := status];
      }
    }

    method RejectPendingPrompt()
      modifies `pending, `prompts
      ensures Snapshot() == RejectPending(old(Snapshot()))
    {
      var rejected := pending;
      pending := NoPending;
      if rejected.Pending? {
        SettlePromise(rejected.prompt, Failed);
      }
    }

    method HandleStdoutLine(line: Line)
      modifies `pending, `prompts
      ensures Snapshot() == Next(old(Snapshot()), Output(line))
    {
      if pending.NoPending? {
        return;
      }
      match line
      case Response(id, success) =>
        if id != pending.id {
          return;
        }
        if !success {
          RejectPendingPrompt();
          return;
        }
        pending := pending.(responseReceived := true);
      case AgentEnd(ok, text) =>
        if ok {
          var answered := pending.prompt;
          pending := NoPending;
          SettlePromise(answered, Succeeded(text));
        } else {
          RejectPendingPrompt();
        }
      case Noise =>
    }

    method OnProcessError()
      modifies `pending, `prompts
      ensures Snapshot() == Next(old(Snapshot()), ProcessError)
    {
      RejectPendingPrompt();
    }

    method OnProcessClose()
      modifies `closed, `pending, `prompts
      ensures Snapshot() == Next(old(Snapshot()), ProcessClose)
    {
      closed := true;
      RejectPendingPrompt();
    }

    method OnPromptTimeout(i: nat)
      requires Enabled(Snapshot(), Timeout(i))
      modifies `closed, `pending, `prompts
      ensures Snapshot() == Next(old(Snapshot()), Timeout(i))
    {
      if pending.Pending? && pending.prompt == i {
        pending := NoPending;
        CloseClient();
        SettlePromise(i, Failed);
      }
    }

    method OnPromptWriteError(i: nat)
      requires Enabled(Snapshot(), WriteError(i))
      modifies `pending, `prompts
      ensures Snapshot() == Next(old(Snapshot()), WriteError(i))
    {
      if pending.Pending? && pending.prompt == i {
        pending := NoPending;
      }
      SettlePromise(i, Failed);
    }

    method CloseClient()
      modifies `closed
      ensures Snapshot() == Next(old(Snapshot()), Close)
    {
      if closed {
        return;
      }
      closed := true;
    }
  }
}
