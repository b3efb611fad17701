/** Taking injected prefixes back out of conversation text. The patterns for status lines are an
    arbitrary predicate on trimmed lines. */
module PromptStrip {
  import opened JsText
  import opened Wrappers
  import opened PromptPrefix

  /** What a line is once trimmed; the code trims a line each time it looks at it. */
  datatype Kind = Empty | Header | OpenTag | CloseTag | Speech

  datatype Line = Line(kind: Kind, text: string)

  function KindOf(m: Markers, line: string): Kind {
    if line == "" then Empty
    else if line == m.header then Header
    else if line == m.open then OpenTag
    else if line == m.close then CloseTag
    else Speech
  }

  function Classify(m: Markers, raw: string): Line {
    Line(KindOf(m, Trim(raw)), Trim(raw))
  }

  function ClassifyAll(m: Markers, raws: seq<string>): seq<Line> {
    if raws == [] then [] else [Classify(m, raws[0])] + ClassifyAll(m, raws[1..])
  }

  /** The lines of a text, each one trimmed. */
  function LinesOf(m: Markers, text: string): seq<Line> {
    ClassifyAll(m, SplitOn(text, '\n'))
  }

  /** The first closing tag at `from` or later, or -1. */
  function FindClose(lines: seq<Line>, from: nat): (i: int)
    ensures i == -1 || from <= i < |lines|
    ensures i != -1 ==> lines[i].kind.CloseTag?
    decreases |lines| - from
  {
    if from >= |lines| then -1
    else if lines[from].kind.CloseTag? then from
    else FindClose(lines, from + 1)
  }

  /** What a loop does at a line: keep it, or drop everything before line `next`. */
  datatype Move = Skip(next: nat) | KeepLine

  function RecalledMove(recalled: string -> bool, lines: seq<Line>, index: nat): (m: Move)
    requires index < |lines|
    ensures m.Skip? ==> index < m.next <= |lines|
  {
    var line := lines[index];
    if line.kind.Empty? || line.kind.Header? then Skip(index + 1)
    else if line.kind.OpenTag? && FindClose(lines, index + 1) != -1 then Skip(FindClose(lines, index + 1) + 1)
    else if line.kind.CloseTag? || recalled(line.text) then Skip(index + 1)
    else KeepLine
  }

  function InjectedMove(lines: seq<Line>, index: nat): (m: Move)
    requires index < |lines|
    ensures m.Skip? ==> index < m.next <= |lines|
  {
    if lines[index].kind.Empty? then Skip(index + 1)
    else if && lines[index].kind.Header?
            && index + 1 < |lines| && lines[index + 1].kind.OpenTag?
            && FindClose(lines, index + 2) != -1
    then Skip(FindClose(lines, index + 2) + 1)
    else KeepLine
  }

  function KeptRecalled(recalled: string -> bool, lines: seq<Line>, index: nat): seq<string>
    decreases |lines| - index
  {
    if index >= |lines| then []
    else
      match RecalledMove(recalled, lines, index)
      case Skip(next) => KeptRecalled(recalled, lines, next)
      case KeepLine => [lines[index].text] + KeptRecalled(recalled, lines, index + 1)
  }

  function KeptInjected(lines: seq<Line>, index: nat): seq<string>
    decreases |lines| - index
  {
    if index >= |lines| then []
    else
      match InjectedMove(lines, index)
      case Skip(next) => KeptInjected(lines, next)
      case KeepLine => [lines[index].text] + KeptInjected(lines, index + 1)
  }

  /** The kept lines are joined by blanks, white space is collapsed, and the ends are trimmed. */
  function Cleaned(lines: seq<string>): string {
    Trim(Collapse(Spaced(lines)))
  }

  function StripRecalled(m: Markers, recalled: string -> bool, text: string): string {
    Cleaned(KeptRecalled(recalled, LinesOf(m, text), 0))
  }

  function StripInjected(m: Markers, text: string): string {
    Cleaned(KeptInjected(LinesOf(m, text), 0))
  }

  // ---- The two functions as the code runs them ----

  method ProbeClose(lines: seq<Line>, from: nat) returns (closeIndex: int)
    ensures closeIndex == FindClose(lines, from)
  {
    closeIndex := -1;
    var probe := from;
    while probe < |lines|
      invariant from <= probe
      invariant FindClose(lines, from) == FindClose(lines, probe)
    {
      if lines[probe].kind.CloseTag? {
        return probe;
      }
      probe := probe + 1;
    }
  }

  lemma KeepOne(kept: seq<string>, text: string, rest: seq<string>)
    ensures kept + [text] + rest == kept + ([text] + rest)
  {}

  method KeepRecalledLines(recalled: string -> bool, lines: seq<Line>) returns (cleanedLines: seq<string>)
    ensures cleanedLines == KeptRecalled(recalled, lines, 0)
  {
    cleanedLines := [];
    var index := 0;
    while index < |lines|
      invariant cleanedLines + KeptRecalled(recalled, lines, index) == KeptRecalled(recalled, lines, 0)
      decreases |lines| - index
    {
      var line := lines[index];
      if line.kind.Empty? || line.kind.Header? {
        index := index + 1;
        continue;
      }
      if line.kind.OpenTag? {
        var closeIndex := ProbeClose(lines, index + 1);
        if closeIndex != -1 {
          index := closeIndex + 1;
          continue;
        }
      }
      if line.kind.CloseTag? || recalled(line.text) {
        index := index + 1;
        continue;
      }
      KeepOne(cleanedLines, line.text, KeptRecalled(recalled, lines, index + 1));
      cleanedLines := cleanedLines + [line.text];
      index := index + 1;
    }
  }

  method KeepInjectedLines(lines: seq<Line>) returns (cleanedLines: seq<string>)
    ensures cleanedLines == KeptInjected(lines, 0)
  {
    cleanedLines := [];
    var index := 0;
    while index < |lines|
      invariant cleanedLines + KeptInjected(lines, index) == KeptInjected(lines, 0)
      decreases |lines| - index
    {
      var line := lines[index];
      if line.kind.Empty? {
        index := index + 1;
        continue;
      }
      if line.kind.Header? && index + 1 < |lines| && lines[index + 1].kind.OpenTag? {
        var closeIndex := ProbeClose(lines, index + 2);
        if closeIndex != -1 {
          index := closeIndex + 1;
          continue;
        }
      }
      KeepOne(cleanedLines, line.text, KeptInjected(lines, index + 1));
      cleanedLines := cleanedLines + [line.text];
      index := index + 1;
    }
  }

  method StripRecalledContextNoise(text: string, recalled: string -> bool) returns (result: string)
    ensures result == StripRecalled(MARKERS, recalled, text)
  {
    var cleanedLines := KeepRecalledLines(recalled, LinesOf(MARKERS, text));
    result := Cleaned(cleanedLines);
  }

  method StripInjectedActiveMemoryPrefixOnly(text: string) returns (result: string)
    ensures result == StripInjected(MARKERS, text)
  {
    var cleanedLines := KeepInjectedLines(LinesOf(MARKERS, text));
    result := Cleaned(cleanedLines);
  }

  // ---- Stripping undoes injecting ----

  lemma {:induction false} ClassifyAllConcat(m: Markers, a: seq<string>, b: seq<string>)
    ensures ClassifyAll(m, a + b) == ClassifyAll(m, a) + ClassifyAll(m, b)
    decreases |a|
  {
    if a == [] {
      assert a + b == b;
    } else {
      assert (a + b)[1..] == a[1..] + b;
      ClassifyAllConcat(m, a[1..], b);
    }
  }

  lemma LinesAtBreak(m: Markers, a: string, b: string)
    requires Without(a, '\n')
    ensures LinesOf(m, a + "\n" + b) == [Classify(m, a)] + LinesOf(m, b)
  {
    SplitOnJoined(a, b, '\n');
    SplitOnWithout(a, '\n');
    ClassifyAllConcat(m, [a], SplitOn(b, '\n'));
    assert ClassifyAll(m, [a]) == [Classify(m, a)];
  }

  lemma ClassifyMarkers(m: Markers)
    requires GoodMarkers(m)
    ensures Classify(m, m.header).kind == Header
    ensures Classify(m, m.open).kind == OpenTag
    ensures Classify(m, m.close).kind == CloseTag
  {
    TrimOfTrimmed(m.header);
    TrimOfTrimmed(m.open);
    TrimOfTrimmed(m.close);
  }

  /** A line without `<` is never taken for a closing tag. */
  lemma InertLineIsNoTag(m: Markers, s: string)
    requires GoodMarkers(m) && Without(s, '<')
    ensures Classify(m, s).kind != CloseTag
  {
    var t := TrimStart(s);
    TrimStartFacts(s);
    TrimEndFacts(t);
    if t != "" {
      assert t[0] == s[|s| - |t|];
    }
  }

  /** Whatever `header`, `open`, `line` and `close` are, they come out as the first four lines. */
  lemma FourLines(m: Markers, h: string, o: string, e: string, c: string, text: string)
    requires Without(h, '\n') && Without(o, '\n') && Without(e, '\n') && Without(c, '\n')
    ensures LinesOf(m, h + "\n" + (o + "\n" + (e + "\n" + (c + "\n" + text))))
            == [Classify(m, h), Classify(m, o), Classify(m, e), Classify(m, c)] + LinesOf(m, text)
  {
    var s3 := c + "\n" + text;
    var s2 := e + "\n" + s3;
    var s1 := o + "\n" + s2;
    LinesAtBreak(m, h, s1);
    LinesAtBreak(m, o, s2);
    LinesAtBreak(m, e, s3);
    LinesAtBreak(m, c, text);
  }

  lemma Regrouped(h: string, o: string, e: string, c: string, text: string)
    ensures h + "\n" + (o + "\n" + e + "\n" + c) + "\n" + text
            == h + "\n" + (o + "\n" + (e + "\n" + (c + "\n" + text)))
  {
    assert (o + "\n" + e + "\n" + c) + "\n" + text == o + "\n" + (e + "\n" + (c + "\n" + text));
  }

  /** An injected prefix reads as header, opening tag, one inert line, closing tag. */
  lemma PrefixLines(m: Markers, summary: string, text: string)
    requires GoodMarkers(m) && summary != "" && Without(summary, '\n')
    ensures BuildPromptPrefix(m, summary).Some?
    ensures var e := Classify(m, EscapeXml(summary));
            && e.kind != CloseTag
            && LinesOf(m, BuildPromptPrefix(m, summary).value + "\n" + text)
               == [Classify(m, m.header), Classify(m, m.open), e, Classify(m, m.close)] + LinesOf(m, text)
  {
    var e := EscapeXml(summary);
    EscapedIsInert(summary);
    InertLineIsNoTag(m, e);
    FourLines(m, m.header, m.open, e, m.close, text);
    Regrouped(m.header, m.open, e, m.close, text);
  }

  /** The lines of `whole` from `n` on are exactly `rest`. */
  ghost predicate EndsWith(whole: seq<Line>, n: nat, rest: seq<Line>) {
    |whole| == n + |rest| && forall i | n <= i < |whole| :: whole[i] == rest[i - n]
  }

  lemma {:induction false} FindCloseShift(whole: seq<Line>, n: nat, rest: seq<Line>, k: nat)
    requires EndsWith(whole, n, rest)
    ensures FindClose(whole, n + k) == if FindClose(rest, k) == -1 then -1 else FindClose(rest, k) + n
    decreases |rest| - k
  {
    if k < |rest| {
      FindCloseShift(whole, n, rest, k + 1);
    }
  }

  lemma MovesShift(recalled: string -> bool, whole: seq<Line>, n: nat, rest: seq<Line>, k: nat)
    requires EndsWith(whole, n, rest) && k < |rest|
    ensures InjectedMove(whole, n + k)
            == match InjectedMove(rest, k) case Skip(next) => Skip(next + n) case KeepLine => KeepLine
    ensures RecalledMove(recalled, whole, n + k)
            == match RecalledMove(recalled, rest, k) case Skip(next) => Skip(next + n) case KeepLine => KeepLine
  {
    FindCloseShift(whole, n, rest, k + 1);
    FindCloseShift(whole, n, rest, k + 2);
  }

  lemma {:induction false} KeptInjectedShift(whole: seq<Line>, n: nat, rest: seq<Line>, k: nat)
    requires EndsWith(whole, n, rest)
    ensures KeptInjected(whole, n + k) == KeptInjected(rest, k)
    decreases |rest| - k
  {
    if k < |rest| {
      MovesShift(_ => false, whole, n, rest, k);
      assert whole[n + k] == rest[k];
      var next := match InjectedMove(rest, k) case Skip(next) => next case KeepLine => k + 1;
      KeptInjectedShift(whole, n, rest, next);
    }
  }

  lemma {:induction false} KeptRecalledShift(recalled: string -> bool, whole: seq<Line>, n: nat, rest: seq<Line>, k: nat)
    requires EndsWith(whole, n, rest)
    ensures KeptRecalled(recalled, whole, n + k) == KeptRecalled(recalled, rest, k)
    decreases |rest| - k
  {
    if k < |rest| {
      MovesShift(recalled, whole, n, rest, k);
      assert whole[n + k] == rest[k];
      var next := match RecalledMove(recalled, rest, k) case Skip(next) => next case KeepLine => k + 1;
      KeptRecalledShift(recalled, whole, n, rest, next);
    }
  }

  lemma MovesPastPrefix(recalled: string -> bool, h: Line, o: Line, e: Line, c: Line, rest: seq<Line>)
    requires h.kind == Header && o.kind == OpenTag && e.kind != CloseTag && c.kind == CloseTag
    ensures KeptInjected([h, o, e, c] + rest, 0) == KeptInjected(rest, 0)
    ensures KeptRecalled(recalled, [h, o, e, c] + rest, 0) == KeptRecalled(recalled, rest, 0)
  {
    var lines := [h, o, e, c] + rest;
    assert FindClose(lines, 3) == 3;
    assert FindClose(lines, 2) == 3;
    KeptInjectedShift(lines, 4, rest, 0);
    KeptRecalledShift(recalled, lines, 4, rest, 0);
    assert KeptRecalled(recalled, lines, 1) == KeptRecalled(recalled, lines, 4);
  }

  lemma StripUndoesPrefix(m: Markers, recalled: string -> bool, summary: string, text: string)
    requires GoodMarkers(m) && summary != "" && Without(summary, '\n')
    ensures BuildPromptPrefix(m, summary).Some?
    ensures var injected := BuildPromptPrefix(m, summary).value + "\n" + text;
            StripInjected(m, injected) == StripInjected(m, text)
            && StripRecalled(m, recalled, injected) == StripRecalled(m, recalled, text)
  {
    PrefixLines(m, summary, text);
    ClassifyMarkers(m);
    MovesPastPrefix(recalled, Classify(m, m.header), Classify(m, m.open), Classify(m, EscapeXml(summary)),
                    Classify(m, m.close), LinesOf(m, text));
  }

  /** Both strip functions give the same result with the prefix of any reply in front as without. */
  lemma StripUndoesInjection(m: Markers, recalled: string -> bool, rawReply: string, maxSummaryChars: nat, text: string)
    requires GoodMarkers(m) && InjectedPrefix(m, rawReply, maxSummaryChars).Some?
    ensures var injected := InjectedPrefix(m, rawReply, maxSummaryChars).value + "\n" + text;
            StripInjected(m, injected) == StripInjected(m, text)
            && StripRecalled(m, recalled, injected) == StripRecalled(m, recalled, text)
  {
    SummaryIsOneLine(rawReply, maxSummaryChars);
    var summary := TruncateSummary(NormalizeActiveSummary(rawReply).value, maxSummaryChars);
    StripUndoesPrefix(m, recalled, summary, text);
  }

  datatype Injection = Injection(rawReply: string, maxSummaryChars: nat)

  function Inject(m: Markers, injection: Injection, text: string): string {
    match InjectedPrefix(m, injection.rawReply, injection.maxSummaryChars)
    case None => text
    case Some(prefix) => prefix + "\n" + text
  }

  /** The text after any number of turns each put a prefix in front. */
  function InjectAll(m: Markers, injections: seq<Injection>, text: string): string {
    if injections == [] then text else Inject(m, injections[0], InjectAll(m, injections[1..], text))
  }

  lemma StripUndoesInject(m: Markers, recalled: string -> bool, injection: Injection, text: string)
    requires GoodMarkers(m)
    ensures StripInjected(m, Inject(m, injection, text)) == StripInjected(m, text)
    ensures StripRecalled(m, recalled, Inject(m, injection, text)) == StripRecalled(m, recalled, text)
  {
    if InjectedPrefix(m, injection.rawReply, injection.maxSummaryChars).Some? {
      StripUndoesInjection(m, recalled, injection.rawReply, injection.maxSummaryChars, text);
    }
  }

  lemma {:induction false} StripUndoesAll(m: Markers, recalled: string -> bool, injections: seq<Injection>, text: string)
    requires GoodMarkers(m)
    ensures StripInjected(m, InjectAll(m, injections, text)) == StripInjected(m, text)
    ensures StripRecalled(m, recalled, InjectAll(m, injections, text)) == StripRecalled(m, recalled, text)
    decreases |injections|
  {
    if injections != [] {
      StripUndoesAll(m, recalled, injections[1..], text);
      StripUndoesInject(m, recalled, injections[0], InjectAll(m, injections[1..], text));
    }
  }

  /** With the plugin's own markers: any number of prefixes, from any replies, strip away. */
  lemma StripUndoesAllInjections(recalled: string -> bool, injections: seq<Injection>, text: string)
    ensures StripInjected(MARKERS, InjectAll(MARKERS, injections, text)) == StripInjected(MARKERS, text)
    ensures StripRecalled(MARKERS, recalled, InjectAll(MARKERS, injections, text))
            == StripRecalled(MARKERS, recalled, text)
  {
    MarkersAreGood();
    StripUndoesAll(MARKERS, recalled, injections, text);
  }

  // ---- Which lines are kept ----

  /** Line `i` lies in a block: from an opening at line `from` to the first closing tag behind it. `body`
      is the first line that may hold that tag. */
  predicate InBlock(lines: seq<Line>, from: nat, body: nat, i: nat) {
    && from <= i < |lines|
    && (forall k | body <= k < i && k < |lines| :: !lines[k].kind.CloseTag?)
    && exists k :: i <= k < |lines| && body <= k && lines[k].kind.CloseTag?
  }

  predicate OpensBlock(lines: seq<Line>, from: nat) {
    from < |lines| && lines[from].kind.OpenTag?
  }

  predicate OpensPrefix(lines: seq<Line>, from: nat) {
    from + 1 < |lines| && lines[from].kind.Header? && lines[from + 1].kind.OpenTag?
  }

  predicate InTagged(lines: seq<Line>, from: nat, i: nat) {
    OpensBlock(lines, from) && InBlock(lines, from, from + 1, i)
  }

  predicate InPrefix(lines: seq<Line>, from: nat, i: nat) {
    OpensPrefix(lines, from) && InBlock(lines, from, from + 2, i)
  }

  /** The lines that are conversation: words, or an opening tag that is never closed, outside every
      block and like no status line. */
  ghost predicate IsConversation(recalled: string -> bool, lines: seq<Line>, i: nat) {
    && i < |lines|
    && (lines[i].kind.Speech? || lines[i].kind.OpenTag?)
    && !recalled(lines[i].text)
    && !(exists from: nat :: InTagged(lines, from, i))
  }

  /** The lines outside every injected prefix. */
  ghost predicate IsOwn(lines: seq<Line>, i: nat) {
    && i < |lines|
    && !lines[i].kind.Empty?
    && !(exists from: nat :: InPrefix(lines, from, i))
  }

  /** The texts of the lines from `index` on that meet the condition, in order. */
  ghost function Selected(lines: seq<Line>, index: nat, keep: nat -> bool): seq<string>
    decreases |lines| - index
  {
    if index >= |lines| then []
    else (if keep(index) then [lines[index].text] else []) + Selected(lines, index + 1, keep)
  }

  lemma {:induction false} SelectsNone(lines: seq<Line>, index: nat, next: nat, keep: nat -> bool)
    requires index <= next <= |lines| && forall i | index <= i < next :: !keep(i)
    ensures Selected(lines, index, keep) == Selected(lines, next, keep)
    decreases next - index
  {
    if index < next {
      SelectsNone(lines, index + 1, next, keep);
    }
  }

  lemma {:induction false} FindCloseFirst(lines: seq<Line>, from: nat)
    ensures var c := FindClose(lines, from);
            forall k | from <= k < |lines| && (c == -1 || k < c) :: !lines[k].kind.CloseTag?
    decreases |lines| - from
  {
    if from < |lines| && !lines[from].kind.CloseTag? {
      FindCloseFirst(lines, from + 1);
    }
  }

  /** Up to the first closing tag lie all lines of the block, and none behind it. */
  lemma BlockEndsAtClose(lines: seq<Line>, from: nat, body: nat, i: nat)
    requires from < body && from <= i < |lines|
    ensures InBlock(lines, from, body, i) <==> FindClose(lines, body) != -1 && i <= FindClose(lines, body)
  {
    FindCloseFirst(lines, body);
    var c := FindClose(lines, body);
    if c != -1 && i <= c {
      assert lines[c].kind.CloseTag?;
    }
  }

  ghost predicate ClearOfBlocks(lines: seq<Line>, index: nat) {
    forall from: nat, i: nat | from < index <= i :: !InTagged(lines, from, i)
  }

  ghost predicate ClearOfPrefixes(lines: seq<Line>, index: nat) {
    forall from: nat, i: nat | from < index <= i :: !InPrefix(lines, from, i)
  }

  lemma ClearPastBlock(lines: seq<Line>, index: nat)
    requires ClearOfBlocks(lines, index) && OpensBlock(lines, index) && FindClose(lines, index + 1) != -1
    ensures ClearOfBlocks(lines, FindClose(lines, index + 1) + 1)
    ensures forall i: nat | index <= i <= FindClose(lines, index + 1) :: InTagged(lines, index, i)
  {
    var c := FindClose(lines, index + 1);
    forall i: nat | index <= i <= c
      ensures InTagged(lines, index, i)
    {
      BlockEndsAtClose(lines, index, index + 1, i);
    }
  }

  lemma ClearPastPrefix(lines: seq<Line>, index: nat)
    requires ClearOfPrefixes(lines, index) && OpensPrefix(lines, index) && FindClose(lines, index + 2) != -1
    ensures ClearOfPrefixes(lines, FindClose(lines, index + 2) + 1)
    ensures forall i: nat | index <= i <= FindClose(lines, index + 2) :: InPrefix(lines, index, i)
  {
    var c := FindClose(lines, index + 2);
    forall i: nat | index <= i <= c
      ensures InPrefix(lines, index, i)
    {
      BlockEndsAtClose(lines, index, index + 2, i);
    }
  }

  /** A line at which no block ends or begins is kept exactly if it is conversation. */
  lemma StepPastLine(recalled: string -> bool, lines: seq<Line>, index: nat)
    requires ClearOfBlocks(lines, index) && index < |lines|
    requires lines[index].kind.OpenTag? ==> FindClose(lines, index + 1) == -1
    ensures ClearOfBlocks(lines, index + 1)
    ensures IsConversation(recalled, lines, index) <==> RecalledMove(recalled, lines, index).KeepLine?
    ensures RecalledMove(recalled, lines, index).Skip? ==> RecalledMove(recalled, lines, index).next == index + 1
  {
    if OpensBlock(lines, index) {
      forall i: nat | index <= i < |lines|
        ensures !InTagged(lines, index, i)
      {
        BlockEndsAtClose(lines, index, index + 1, i);
      }
    }
  }

  lemma StepPastOwnLine(lines: seq<Line>, index: nat)
    requires ClearOfPrefixes(lines, index) && index < |lines|
    requires OpensPrefix(lines, index) ==> FindClose(lines, index + 2) == -1
    ensures ClearOfPrefixes(lines, index + 1)
    ensures IsOwn(lines, index) <==> InjectedMove(lines, index).KeepLine?
    ensures InjectedMove(lines, index).Skip? ==> InjectedMove(lines, index).next == index + 1
  {
    if OpensPrefix(lines, index) {
      forall i: nat | index <= i < |lines|
        ensures !InPrefix(lines, index, i)
      {
        BlockEndsAtClose(lines, index, index + 2, i);
      }
    }
  }

  lemma {:induction false} KeptFromIsConversation(recalled: string -> bool, lines: seq<Line>, index: nat)
    requires ClearOfBlocks(lines, index) && index <= |lines|
    ensures KeptRecalled(recalled, lines, index) == Selected(lines, index, (i: nat) => IsConversation(recalled, lines, i))
    decreases |lines| - index
  {
    if index < |lines| {
      var keep := (i: nat) => IsConversation(recalled, lines, i);
      if OpensBlock(lines, index) && FindClose(lines, index + 1) != -1 {
        var next := FindClose(lines, index + 1) + 1;
        ClearPastBlock(lines, index);
        forall i | index <= i < next
          ensures !keep(i)
        {
          assert InTagged(lines, index, i);
        }
        SelectsNone(lines, index, next, keep);
        KeptFromIsConversation(recalled, lines, next);
      } else {
        StepPastLine(recalled, lines, index);
        KeptFromIsConversation(recalled, lines, index + 1);
      }
    }
  }

  /** `stripRecalledContextNoise` keeps exactly the conversation, in order: no header, no closed block
      with what is in it, no closing tag, no status line, no blank line, and nothing else is dropped. */
  lemma RecalledKeepsConversation(recalled: string -> bool, lines: seq<Line>)
    ensures KeptRecalled(recalled, lines, 0) == Selected(lines, 0, (i: nat) => IsConversation(recalled, lines, i))
  {
    KeptFromIsConversation(recalled, lines, 0);
  }

  lemma {:induction false} KeptFromIsOwn(lines: seq<Line>, index: nat)
    requires ClearOfPrefixes(lines, index) && index <= |lines|
    ensures KeptInjected(lines, index) == Selected(lines, index, (i: nat) => IsOwn(lines, i))
    decreases |lines| - index
  {
    if index < |lines| {
      var keep := (i: nat) => IsOwn(lines, i);
      if OpensPrefix(lines, index) && FindClose(lines, index + 2) != -1 {
        var next := FindClose(lines, index + 2) + 1;
        ClearPastPrefix(lines, index);
        forall i | index <= i < next
          ensures !keep(i)
        {
          assert InPrefix(lines, index, i);
        }
        SelectsNone(lines, index, next, keep);
        KeptFromIsOwn(lines, next);
      } else {
        StepPastOwnLine(lines, index);
        KeptFromIsOwn(lines, index + 1);
      }
    }
  }

  /** `stripInjectedActiveMemoryPrefixOnly` keeps exactly the lines that are neither blank nor in an
      injected prefix, in order. */
  lemma InjectedKeepsOwn(lines: seq<Line>)
    ensures KeptInjected(lines, 0) == Selected(lines, 0, (i: nat) => IsOwn(lines, i))
  {
    KeptFromIsOwn(lines, 0);
  }

  /** Lines that are no markers: what is kept of them is what is like no status line. */
  lemma {:induction false} PlainLinesAreKept(recalled: string -> bool, lines: seq<Line>, index: nat)
    requires forall i | 0 <= i < |lines| :: lines[i].kind.Speech? || lines[i].kind.Empty?
    ensures KeptRecalled(recalled, lines, index) ==
            Selected(lines, index, (i: nat) => i < |lines| && lines[i].kind.Speech? && !recalled(lines[i].text))
    decreases |lines| - index
  {
    if index < |lines| {
      PlainLinesAreKept(recalled, lines, index + 1);
    }
  }

  // ---- The words that are kept ----

  lemma {:induction false} LineAt(m: Markers, raws: seq<string>, i: nat)
    requires i < |raws|
    ensures |ClassifyAll(m, raws)| == |raws| && ClassifyAll(m, raws)[i] == Classify(m, raws[i])
  {
    if i > 0 {
      LineAt(m, raws[1..], i - 1);
    } else {
      ClassifyAllSize(m, raws);
    }
  }

  lemma {:induction false} ClassifyAllSize(m: Markers, raws: seq<string>)
    ensures |ClassifyAll(m, raws)| == |raws|
  {
    if raws != [] {
      ClassifyAllSize(m, raws[1..]);
    }
  }

  /** What a line is taken for: a marker only if that is all it says, white space at the ends aside; and
      its text has the words of the line. */
  lemma LineIs(m: Markers, raw: string)
    requires GoodMarkers(m)
    ensures var line := Classify(m, raw);
            && (line.kind.Empty? <==> Blank(raw))
            && (line.kind.Header? <==> Trim(raw) == m.header)
            && (line.kind.OpenTag? <==> Trim(raw) == m.open)
            && (line.kind.CloseTag? <==> Trim(raw) == m.close)
            && Trimmed(line.text) && Words(line.text) == Words(raw)
  {
    BlankIffTrimEmpty(raw);
    TrimIsTrimmed(raw);
    WordsTrim(raw);
  }

  function AllWords(lines: seq<string>): seq<string> {
    if lines == [] then [] else Words(lines[0]) + AllWords(lines[1..])
  }

  lemma {:induction false} WordsOfSpaced(lines: seq<string>)
    ensures Words(Spaced(lines)) == AllWords(lines)
  {
    if |lines| == 1 {
      assert AllWords(lines[1..]) == [];
    } else if |lines| > 1 {
      WordsOfSpaced(lines[1..]);
      var rest := Spaced(lines[1..]);
      assert lines[0] + " " + rest == lines[0] + (" " + rest);
      WordsConcat(lines[0], " " + rest);
      assert (" " + rest)[1..] == rest;
    }
  }

  /** The result of either stripper is the words of the kept lines, in order, with single blanks between. */
  lemma CleanedIsWords(lines: seq<string>)
    ensures Cleaned(lines) == Spaced(AllWords(lines))
  {
    CollapseIsSpaced(Spaced(lines));
    WordsOfSpaced(lines);
  }

  /** From text to text: both strippers give the words of the lines they are to keep. */
  lemma StrippedIsWords(m: Markers, recalled: string -> bool, text: string)
    ensures var lines := LinesOf(m, text);
            && |lines| == |SplitOn(text, '\n')|
            && (forall i | 0 <= i < |lines| :: lines[i] == Classify(m, SplitOn(text, '\n')[i]))
            && StripRecalled(m, recalled, text)
               == Spaced(AllWords(Selected(lines, 0, (i: nat) => IsConversation(recalled, lines, i))))
            && StripInjected(m, text) == Spaced(AllWords(Selected(lines, 0, (i: nat) => IsOwn(lines, i))))
  {
    var lines := LinesOf(m, text);
    ClassifyAllSize(m, SplitOn(text, '\n'));
    forall i | 0 <= i < |lines|
      ensures lines[i] == Classify(m, SplitOn(text, '\n')[i])
    {
      LineAt(m, SplitOn(text, '\n'), i);
    }
    RecalledKeepsConversation(recalled, lines);
    InjectedKeepsOwn(lines);
    CleanedIsWords(KeptRecalled(recalled, lines, 0));
    CleanedIsWords(KeptInjected(lines, 0));
  }

  function NonEmptyText(lines: seq<Line>, index: nat): seq<string>
    decreases |lines| - index
  {
    if index >= |lines| then []
    else (if lines[index].kind.Empty? then [] else [lines[index].text]) + NonEmptyText(lines, index + 1)
  }

  /** A text that never repeats the header loses nothing but blank lines and surplus white space. */
  lemma {:induction false} OwnWordsAreKept(lines: seq<Line>, index: nat)
    requires forall i | 0 <= i < |lines| :: !lines[i].kind.Header?
    ensures KeptInjected(lines, index) == NonEmptyText(lines, index)
    decreases |lines| - index
  {
    if index < |lines| {
      OwnWordsAreKept(lines, index + 1);
    }
  }
}
