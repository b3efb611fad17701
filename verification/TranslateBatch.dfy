/** `translateBatch`: retry, then halve on a timeout. The translator is an arbitrary sequence of
    replies, one per prompt. */
module TranslateBatch {
  import opened JsText
  import opened TranslationBatches

  const TRANSLATE_MAX_ATTEMPTS := 2

  /** One property of the parsed reply: a string, or anything else. */
  datatype Value = Text(text: string) | NotText

  /** What one prompt yields. `Thrown` covers a client that cannot start, a rejected prompt, text
      that does not parse, and a reply that cannot be indexed. */
  datatype Reply = Thrown(timedOut: bool) | Parsed(values: map<string, Value>)

  datatype Result = Done(translated: map<string, string>) | Failed

  datatype Outcome = Outcome(result: Result, next: nat)

  datatype Attempt = Good(translated: map<string, string>) | Bad(timedOut: bool)

  function ItemKeys(items: seq<Item>): set<string> {
    set i | 0 <= i < |items| :: items[i].key
  }

  predicate Contains(s: string, part: string) {
    |s| >= |part| && (s[..|part|] == part || (s != "" && Contains(s[1..], part)))
  }

  predicate StandsAt(s: string, part: string, i: nat) {
    i + |part| <= |s| && s[i..i + |part|] == part
  }

  /** The part stands somewhere in the text. */
  lemma {:induction false} ContainsIff(s: string, part: string)
    ensures Contains(s, part) <==> exists i: nat :: StandsAt(s, part, i)
    decreases |s|
  {
    if |s| >= |part| {
      assert s[0..0 + |part|] == s[..|part|];
      assert StandsAt(s, part, 0) <==> s[..|part|] == part;
      if s != "" {
        ContainsIff(s[1..], part);
        forall i: nat
          ensures StandsAt(s[1..], part, i) <==> StandsAt(s, part, i + 1)
        {
          assert i + 1 + |part| <= |s| ==> s[1..][i..i + |part|] == s[i + 1..i + 1 + |part|];
        }
        assert forall i: nat | i > 0 && StandsAt(s, part, i) :: StandsAt(s[1..], part, i - 1);
      }
    }
  }

  /** `isPromptTimeoutError` looks for two words anywhere in the error's message. */
  predicate LooksTimedOut(message: string) {
    Contains(Lower(message), "timed out")
  }

  /** The message thrown for a key without a usable text. */
  function MissingMessage(key: string): string {
    "missing " + ("translation " + ("for " + key))
  }

  predicate MissingLooksTimedOut(key: string) {
    LooksTimedOut(MissingMessage(key))
  }

  /** The loop over the items of one reply: the first key without a non-blank text throws. */
  function Collect(values: map<string, Value>, items: seq<Item>): Attempt {
    if items == [] then Good(map[])
    else
      var n := |items| - 1;
      match Collect(values, items[..n])
      case Bad(timedOut) => Bad(timedOut)
      case Good(translated) =>
        var key := items[n].key;
        if key in values && values[key].Text? && Usable(values[key].text)
        then Good(translated[key := values[key].text])
        else Bad(MissingLooksTimedOut(key))
  }

  function Attempted(reply: Reply, items: seq<Item>): Attempt {
    match reply
    case Thrown(timedOut) => Bad(timedOut)
    case Parsed(values) => Collect(values, items)
  }

  /** `translateBatch` from the given attempt on, where `k` prompts have been issued so far. */
  function Translated(replies: nat -> Reply, k: nat, items: seq<Item>, attempt: nat): Outcome
    decreases |items|, 1, TRANSLATE_MAX_ATTEMPTS - attempt
  {
    if attempt >= TRANSLATE_MAX_ATTEMPTS then Outcome(Failed, k)
    else
      match Attempted(replies(k), items)
      case Good(translated) => Outcome(Done(translated), k + 1)
      case Bad(timedOut) =>
        if timedOut && |items| > 1 then Halved(replies, k + 1, items)
        else if timedOut then Outcome(Failed, k + 1)
        else Translated(replies, k + 1, items, attempt + 1)
  }

  function Midpoint(n: nat): nat {
    (n + 1) / 2
  }

  function Halved(replies: nat -> Reply, k: nat, items: seq<Item>): Outcome
    requires |items| > 1
    decreases |items|, 0
  {
    var left := Translated(replies, k, items[..Midpoint(|items|)], 0);
    if left.result.Failed? then left
    else
      var right := Translated(replies, left.next, items[Midpoint(|items|)..], 0);
      if right.result.Failed? then right
      else Outcome(Done(left.result.translated + right.result.translated), right.next)
  }

  // ---- What a successful batch contains ----

  /** A text counts when some character of it is not white space. */
  predicate Usable(text: string)
    ensures Usable(text) <==> Trim(text) != ""
  {
    BlankIffTrimEmpty(text);
    !Blank(text)
  }

  /** `value` is what some reply among prompts `from..to` gave for `key`. */
  ghost predicate Supplied(replies: nat -> Reply, from: nat, to: nat, key: string, value: string) {
    exists j | from <= j < to ::
      replies(j).Parsed? && key in replies(j).values && replies(j).values[key] == Text(value)
  }

  ghost predicate Complete(replies: nat -> Reply, from: nat, to: nat, items: seq<Item>, m: map<string, string>) {
    && m.Keys == ItemKeys(items)
    && forall key | key in m :: Usable(m[key]) && Supplied(replies, from, to, key, m[key])
  }

  lemma {:induction false} CollectComplete(values: map<string, Value>, items: seq<Item>)
    requires Collect(values, items).Good?
    ensures Collect(values, items).translated.Keys == ItemKeys(items)
    ensures forall key | key in ItemKeys(items) ::
              key in values && values[key] == Text(Collect(values, items).translated[key])
              && Usable(Collect(values, items).translated[key])
    decreases |items|
  {
    if items != [] {
      var n := |items| - 1;
      CollectComplete(values, items[..n]);
      KeysSplit(items, n);
      KeysSplit(items[n..], 0);
    }
  }

  lemma KeysSplit(items: seq<Item>, i: nat)
    requires i <= |items|
    ensures ItemKeys(items) == ItemKeys(items[..i]) + ItemKeys(items[i..])
    ensures i == |items| - 1 ==> ItemKeys(items[i..]) == {items[i].key}
  {
    forall key
      ensures key in ItemKeys(items) <==> key in ItemKeys(items[..i]) || key in ItemKeys(items[i..])
    {
      if key in ItemKeys(items) {
        var j :| 0 <= j < |items| && items[j].key == key;
        if j < i {
          assert items[..i][j].key == key;
        } else {
          assert items[i..][j - i].key == key;
        }
      }
    }
  }

  lemma WiderSupply(replies: nat -> Reply, from: nat, to: nat, from': nat, to': nat,
                    items: seq<Item>, m: map<string, string>)
    requires Complete(replies, from, to, items, m) && from' <= from && to <= to'
    ensures Complete(replies, from', to', items, m)
  {
    forall key | key in m
      ensures Supplied(replies, from', to', key, m[key])
    {
      assert Supplied(replies, from, to, key, m[key]);
    }
  }

  lemma AttemptComplete(replies: nat -> Reply, k: nat, items: seq<Item>)
    requires Attempted(replies(k), items).Good?
    ensures Complete(replies, k, k + 1, items, Attempted(replies(k), items).translated)
  {
    CollectComplete(replies(k).values, items);
  }

  lemma HalvesComplete(replies: nat -> Reply, from: nat, mid: nat, to: nat, items: seq<Item>, i: nat,
                       left: map<string, string>, right: map<string, string>)
    requires i <= |items| && from <= mid <= to
    requires Complete(replies, from, mid, items[..i], left) && Complete(replies, mid, to, items[i..], right)
    ensures Complete(replies, from, to, items, left + right)
  {
    KeysSplit(items, i);
    WiderSupply(replies, from, mid, from, to, items[..i], left);
    WiderSupply(replies, mid, to, from, to, items[i..], right);
    JoinComplete(replies, from, to, items, items[..i], items[i..], left, right);
  }

  lemma JoinComplete(replies: nat -> Reply, from: nat, to: nat, items: seq<Item>, a: seq<Item>, b: seq<Item>,
                     left: map<string, string>, right: map<string, string>)
    requires ItemKeys(items) == ItemKeys(a) + ItemKeys(b)
    requires Complete(replies, from, to, a, left) && Complete(replies, from, to, b, right)
    ensures Complete(replies, from, to, items, left + right)
  {
    var m := left + right;
    forall key | key in m
      ensures Usable(m[key]) && Supplied(replies, from, to, key, m[key])
    {
      if key in right {
        assert m[key] == right[key];
      } else {
        assert m[key] == left[key];
      }
    }
  }

  /** However often the batch was halved, success means exactly the input keys, each with a
      non-blank text that one of the issued prompts returned for it. */
  lemma {:induction false} SuccessIsComplete(replies: nat -> Reply, k: nat, items: seq<Item>, attempt: nat)
    ensures var o := Translated(replies, k, items, attempt);
            && k <= o.next
            && (o.result.Done? ==> Complete(replies, k, o.next, items, o.result.translated))
    decreases |items|, 1, TRANSLATE_MAX_ATTEMPTS - attempt
  {
    if attempt < TRANSLATE_MAX_ATTEMPTS {
      var tried := Attempted(replies(k), items);
      if tried.Good? {
        AttemptComplete(replies, k, items);
      } else if tried.timedOut && |items| > 1 {
        HalvedIsComplete(replies, k + 1, items);
        var o := Halved(replies, k + 1, items);
        if o.result.Done? {
          WiderSupply(replies, k + 1, o.next, k, o.next, items, o.result.translated);
        }
      } else if !tried.timedOut {
        SuccessIsComplete(replies, k + 1, items, attempt + 1);
        var o := Translated(replies, k + 1, items, attempt + 1);
        if o.result.Done? {
          WiderSupply(replies, k + 1, o.next, k, o.next, items, o.result.translated);
        }
      }
    }
  }

  lemma {:induction false} HalvedIsComplete(replies: nat -> Reply, k: nat, items: seq<Item>)
    requires |items| > 1
    ensures var o := Halved(replies, k, items);
            && k <= o.next
            && (o.result.Done? ==> Complete(replies, k, o.next, items, o.result.translated))
    decreases |items|, 0
  {
    var i := Midpoint(|items|);
    SuccessIsComplete(replies, k, items[..i], 0);
    var left := Translated(replies, k, items[..i], 0);
    SuccessIsComplete(replies, left.next, items[i..], 0);
    var right := Translated(replies, left.next, items[i..], 0);
    if left.result.Done? && right.result.Done? {
      HalvesComplete(replies, k, left.next, right.next, items, i, left.result.translated, right.result.translated);
    }
  }

  // ---- Which failures are retried ----

  /** The two words do not start at `p[i]`: if that is a t, the next two letters are not "im". */
  predicate Harmless(p: string, i: nat) {
    i < |p| && (p[i] != 't' || (i + 2 < |p| && !(p[i + 1] == 'i' && p[i + 2] == 'm')))
  }

  ghost predicate StartsNone(p: string) {
    forall i: nat | i < |p| :: Harmless(p, i)
  }

  lemma {:induction false} ContainsPast(p: string, s: string)
    requires StartsNone(p)
    ensures Contains(p + s, "timed out") == Contains(s, "timed out")
    decreases |p|
  {
    if p == "" {
      assert p + s == s;
    } else {
      var all := p + s;
      assert all[1..] == p[1..] + s;
      forall i: nat | i < |p[1..]|
        ensures Harmless(p[1..], i)
      {
        assert Harmless(p, i + 1);
      }
      assert Harmless(p, 0);
      DiffersEarly(all, "timed out");
      ContainsPast(p[1..], s);
    }
  }

  lemma DiffersEarly(s: string, part: string)
    requires |part| >= 3 && |s| >= 1 && (s[0] != part[0] || (|s| >= 3 && (s[1] != part[1] || s[2] != part[2])))
    ensures Contains(s, part) == Contains(s[1..], part)
  {
    if |s| >= |part| {
      assert s[..|part|][0] == s[0] && s[..|part|][1] == s[1] && s[..|part|][2] == s[2];
    }
  }

  lemma LowerPast(p: string, s: string)
    requires Lower(p) == p && StartsNone(p)
    ensures LooksTimedOut(p + s) == LooksTimedOut(s)
  {
    assert Lower(p + s) == p + Lower(s);
    ContainsPast(p, Lower(s));
  }

  lemma FixedWords()
    ensures Lower("missing ") == "missing " && StartsNone("missing ")
    ensures Lower("translation ") == "translation " && StartsNone("translation ")
    ensures Lower("for ") == "for " && StartsNone("for ")
  {
  }

  /** The fixed words of the message never match: only the key decides. */
  lemma MissingLooksTimedOutIff(key: string)
    ensures MissingLooksTimedOut(key) <==> LooksTimedOut(key)
  {
    FixedWords();
    LowerPast("missing ", "translation " + ("for " + key));
    LowerPast("translation ", "for " + key);
    LowerPast("for ", key);
  }

  predicate Answers(values: map<string, Value>, item: Item) {
    item.key in values && values[item.key].Text? && Usable(values[item.key].text)
  }

  /** The first item without a usable text is item `n`. */
  ghost predicate FirstMissing(values: map<string, Value>, items: seq<Item>, n: nat) {
    && n < |items| && !Answers(values, items[n])
    && forall i | 0 <= i < n :: Answers(values, items[i])
  }

  lemma {:induction false} CollectAnswered(values: map<string, Value>, items: seq<Item>)
    requires forall i | 0 <= i < |items| :: Answers(values, items[i])
    ensures Collect(values, items).Good?
    decreases |items|
  {
    if items != [] {
      CollectAnswered(values, items[..|items| - 1]);
    }
  }

  lemma CollectMissing(values: map<string, Value>, items: seq<Item>, n: nat)
    requires FirstMissing(values, items, n)
    ensures Collect(values, items) == Bad(MissingLooksTimedOut(items[n].key))
  {
    CollectAnswered(values, items[..n]);
    assert items[..n + 1][..n] == items[..n];
    CollectStopsAtBad(values, items, n + 1);
  }

  /** A reply without a usable text for some key: the whole batch is tried again, unless the first
      such key looks like a timeout. Then the batch is halved, and a batch of one item fails. */
  lemma MissingTextStep(replies: nat -> Reply, k: nat, values: map<string, Value>, items: seq<Item>, n: nat)
    requires replies(k) == Parsed(values) && FirstMissing(values, items, n)
    ensures !LooksTimedOut(items[n].key) ==> Translated(replies, k, items, 0) == Translated(replies, k + 1, items, 1)
    ensures LooksTimedOut(items[n].key) && |items| > 1 ==>
              Translated(replies, k, items, 0) == Halved(replies, k + 1, items)
    ensures LooksTimedOut(items[n].key) && |items| == 1 ==>
              Translated(replies, k, items, 0) == Outcome(Failed, k + 1)
  {
    CollectMissing(values, items, n);
    MissingLooksTimedOutIff(items[n].key);
  }

  /** However the translator goes on after this reply, the batch is tried again as a whole. */
  ghost predicate RetriesWhole(k: nat, values: map<string, Value>, items: seq<Item>) {
    forall replies: nat -> Reply | replies(k) == Parsed(values) ::
      Translated(replies, k, items, 0) == Translated(replies, k + 1, items, 1)
  }

  /** A translator that gives one answer to prompt `k` and fails on every other prompt. */
  function AnswersOnce(k: nat, values: map<string, Value>): nat -> Reply {
    j => if j == k then Parsed(values) else Thrown(false)
  }

  /** If every later prompt fails, retrying costs one more prompt and halving costs at least two. */
  lemma FailingTellsApart(replies: nat -> Reply, k: nat, items: seq<Item>)
    requires replies(k) == Thrown(false) && replies(k + 1) == Thrown(false)
    ensures Translated(replies, k, items, 1) == Outcome(Failed, k + 1)
    ensures |items| > 1 ==> Halved(replies, k, items) == Outcome(Failed, k + 2)
  {
    assert Translated(replies, k + 1, items, 2) == Outcome(Failed, k + 1);
    if |items| > 1 {
      var left := items[..Midpoint(|items|)];
      assert Translated(replies, k + 2, left, 2) == Outcome(Failed, k + 2);
      assert Translated(replies, k + 1, left, 1) == Outcome(Failed, k + 2);
    }
  }

  /** For every batch and every reply that misses a text, with item `n` the first one missing: the
      batch is tried again as a whole exactly when that item's key does not look like a timeout. */
  lemma MissingTextRetriesIff(k: nat, values: map<string, Value>, items: seq<Item>, n: nat)
    requires FirstMissing(values, items, n)
    ensures RetriesWhole(k, values, items) <==> !LooksTimedOut(items[n].key)
  {
    if LooksTimedOut(items[n].key) {
      var replies := AnswersOnce(k, values);
      MissingTextStep(replies, k, values, items, n);
      FailingTellsApart(replies, k + 1, items);
      assert replies(k) == Parsed(values);
      assert Translated(replies, k, items, 0) != Translated(replies, k + 1, items, 1);
    } else {
      forall replies: nat -> Reply | replies(k) == Parsed(values)
        ensures Translated(replies, k, items, 0) == Translated(replies, k + 1, items, 1)
      {
        MissingTextStep(replies, k, values, items, n);
      }
    }
  }

  /** A batch of two that is halved, although nothing timed out. */
  lemma MissingTextHalves(replies: nat -> Reply, k: nat, a: Item, b: Item)
    requires a.key == "title" && b.key == "timed out" && replies(k) == Parsed(map["title" := Text("x")])
    ensures Translated(replies, k, [a, b], 0) == Halved(replies, k + 1, [a, b])
    ensures !RetriesWhole(k, map["title" := Text("x")], [a, b])
  {
    var values := map["title" := Text("x")];
    LetterIsUsable();
    assert |"title"| != |"timed out"|;
    assert FirstMissing(values, [a, b], 1);
    assert Lower("timed out") == "timed out";
    MissingTextStep(replies, k, values, [a, b], 1);
    MissingTextRetriesIff(k, values, [a, b], 1);
  }

  /** Why `RetriesWhole` speaks of all translators: with one that times out late, halving that same
      batch happens to end like retrying it. */
  lemma HalvingMayEndAlike(replies: nat -> Reply, k: nat, a: Item, b: Item)
    requires a.key == "title" && b.key == "timed out"
    requires replies(k) == replies(k + 1) == Parsed(map["title" := Text("x")]) && replies(k + 2) == Thrown(true)
    ensures !RetriesWhole(k, map["title" := Text("x")], [a, b])
    ensures Translated(replies, k, [a, b], 0) == Translated(replies, k + 1, [a, b], 1) == Outcome(Failed, k + 3)
  {
    MissingTextHalves(replies, k, a, b);
    MissingTextHalves(replies, k + 1, a, b);
    CollectSingle(a);
    assert [a, b][..1] == [a] && [a, b][1..] == [b];
    assert Translated(replies, k + 1, [a, b], 1) == Halved(replies, k + 2, [a, b]);
  }

  // ---- What each reply leads to ----

  /** The reply holds a usable text for every item. */
  predicate AnswersAll(reply: Reply, items: seq<Item>) {
    reply.Parsed? && forall i | 0 <= i < |items| :: Answers(reply.values, items[i])
  }

  /** `m` has just the items' keys, each with the text of the reply. */
  ghost predicate TextsOf(reply: Reply, items: seq<Item>, m: map<string, string>) {
    && reply.Parsed? && m.Keys == ItemKeys(items)
    && forall key | key in m :: key in reply.values && reply.values[key] == Text(m[key])
  }

  /** An attempt is good exactly when the reply answers every item, and then has the reply's texts. */
  lemma GoodIff(reply: Reply, items: seq<Item>)
    ensures Attempted(reply, items).Good? <==> AnswersAll(reply, items)
    ensures AnswersAll(reply, items) ==> TextsOf(reply, items, Attempted(reply, items).translated)
  {
    if Attempted(reply, items).Good? {
      CollectComplete(reply.values, items);
      forall i | 0 <= i < |items|
        ensures Answers(reply.values, items[i])
      {
        assert items[i].key in ItemKeys(items);
      }
    }
    if AnswersAll(reply, items) {
      CollectAnswered(reply.values, items);
      CollectComplete(reply.values, items);
    }
  }

  ghost predicate DoneWith(o: Outcome, reply: Reply, items: seq<Item>, next: nat) {
    o.result.Done? && o.next == next && TextsOf(reply, items, o.result.translated)
  }

  /** A reply that answers every item ends the batch: no further prompt, and just its texts. */
  lemma GoodReplyEnds(replies: nat -> Reply, k: nat, items: seq<Item>, attempt: nat)
    requires attempt < TRANSLATE_MAX_ATTEMPTS && AnswersAll(replies(k), items)
    ensures DoneWith(Translated(replies, k, items, attempt), replies(k), items, k + 1)
  {
    GoodIff(replies(k), items);
  }

  /** A first attempt that fails without a timeout is made up for by a second one that answers. */
  lemma SecondReplyEnds(replies: nat -> Reply, k: nat, items: seq<Item>)
    requires replies(k) == Thrown(false) && AnswersAll(replies(k + 1), items)
    ensures DoneWith(Translated(replies, k, items, 0), replies(k + 1), items, k + 2)
  {
    GoodReplyEnds(replies, k + 1, items, 1);
  }

  /** Two such failures end the batch, and a timeout ends a batch of at most one item. */
  lemma FailuresEnd(replies: nat -> Reply, k: nat, items: seq<Item>)
    ensures replies(k) == replies(k + 1) == Thrown(false) ==>
              Translated(replies, k, items, 0) == Outcome(Failed, k + 2)
    ensures replies(k) == Thrown(true) && |items| <= 1 ==> Translated(replies, k, items, 0) == Outcome(Failed, k + 1)
  {
    if replies(k) == replies(k + 1) == Thrown(false) {
      assert Translated(replies, k + 2, items, 2) == Outcome(Failed, k + 2);
      assert Translated(replies, k + 1, items, 1) == Outcome(Failed, k + 2);
    }
  }

  /** The two halves differ by one item at most, and the first is the larger one. */
  lemma MidpointIsBalanced(n: nat)
    ensures Midpoint(n) <= n && (Midpoint(n) == n - Midpoint(n) || Midpoint(n) == n - Midpoint(n) + 1)
  {}

  /** After a timeout the first half takes the next prompts and the second half those after it. If each
      is answered at once, the batch has the texts of both replies, the second one's for a key in both. */
  lemma TimeoutHalvesInOrder(replies: nat -> Reply, k: nat, items: seq<Item>, attempt: nat)
    requires attempt < TRANSLATE_MAX_ATTEMPTS && |items| > 1 && replies(k) == Thrown(true)
    requires AnswersAll(replies(k + 1), items[..Midpoint(|items|)])
    requires AnswersAll(replies(k + 2), items[Midpoint(|items|)..])
    ensures var o := Translated(replies, k, items, attempt);
            && o.result.Done? && o.next == k + 3
            && (forall key | key in ItemKeys(items[Midpoint(|items|)..]) ::
                  key in o.result.translated && replies(k + 2).values[key] == Text(o.result.translated[key]))
            && (forall key | key in ItemKeys(items[..Midpoint(|items|)]) - ItemKeys(items[Midpoint(|items|)..]) ::
                  key in o.result.translated && replies(k + 1).values[key] == Text(o.result.translated[key]))
  {
    GoodReplyEnds(replies, k + 1, items[..Midpoint(|items|)], 0);
    GoodReplyEnds(replies, k + 2, items[Midpoint(|items|)..], 0);
  }

  /** If the first half fails, the second one is not prompted for; if the second fails, so does the batch. */
  lemma HalfFailureEnds(replies: nat -> Reply, k: nat, items: seq<Item>, attempt: nat)
    requires attempt < TRANSLATE_MAX_ATTEMPTS && |items| > 1 && replies(k) == Thrown(true)
    ensures var left := Translated(replies, k + 1, items[..Midpoint(|items|)], 0);
            left.result.Failed? ==> Translated(replies, k, items, attempt) == left
    ensures var left := Translated(replies, k + 1, items[..Midpoint(|items|)], 0);
            var right := Translated(replies, left.next, items[Midpoint(|items|)..], 0);
            left.result.Done? && right.result.Failed? ==> Translated(replies, k, items, attempt) == right
  {}

  // ---- How many prompts are issued ----

  function PromptLimit(n: nat): nat {
    if n == 0 then 2 else 4 * n - 2
  }

  /** At most 4n - 2 prompts for n items, and 2 for none. */
  lemma {:induction false} PromptsBounded(replies: nat -> Reply, k: nat, items: seq<Item>)
    ensures Translated(replies, k, items, 0).next <= k + PromptLimit(|items|)
    decreases |items|
  {
    if |items| > 1 {
      PromptsBoundedHalved(replies, k + 1, items);
      PromptsBoundedHalved(replies, k + 2, items);
    }
    assert Translated(replies, k + 2, items, 2).next == k + 2;
  }

  lemma {:induction false} PromptsBoundedHalved(replies: nat -> Reply, k: nat, items: seq<Item>)
    requires |items| > 1
    ensures Halved(replies, k, items).next <= k + 4 * |items| - 4
    decreases |items|, 0
  {
    var i := Midpoint(|items|);
    PromptsBounded(replies, k, items[..i]);
    PromptsBounded(replies, Translated(replies, k, items[..i], 0).next, items[i..]);
  }

  /** The worst translator: every batch fails once and then times out, and every single item
      fails once before it is translated. */
  function WorstReplies(items: seq<Item>): (r: seq<Reply>)
    requires items != []
    ensures |r| == 4 * |items| - 2
    decreases |items|
  {
    if |items| == 1 then [Thrown(false), Parsed(map[items[0].key := Text("x")])]
    else
      var i := Midpoint(|items|);
      [Thrown(false), Thrown(true)] + WorstReplies(items[..i]) + WorstReplies(items[i..])
  }

  ghost predicate Replays(replies: nat -> Reply, k: nat, script: seq<Reply>) {
    forall i | 0 <= i < |script| :: replies(k + i) == script[i]
  }

  lemma ReplaysSplit(replies: nat -> Reply, k: nat, a: seq<Reply>, b: seq<Reply>)
    requires Replays(replies, k, a + b)
    ensures Replays(replies, k, a) && Replays(replies, k + |a|, b)
  {
    forall i | 0 <= i < |a|
      ensures replies(k + i) == a[i]
    {
      assert (a + b)[i] == a[i];
    }
    forall i | 0 <= i < |b|
      ensures replies(k + |a| + i) == b[i]
    {
      assert (a + b)[|a| + i] == b[i] && replies(k + (|a| + i)) == (a + b)[|a| + i];
    }
  }

  lemma LetterIsUsable()
    ensures Usable("x")
  {
    assert !IsSpace("x"[0]);
  }

  lemma CollectSingle(item: Item)
    ensures Collect(map[item.key := Text("x")], [item]) == Good(map[item.key := "x"])
  {
    LetterIsUsable();
    assert [item][..0] == [];
  }

  lemma RetrySucceeds(replies: nat -> Reply, k: nat, items: seq<Item>, m: map<string, string>)
    requires replies(k) == Thrown(false) && Attempted(replies(k + 1), items) == Good(m)
    ensures Translated(replies, k, items, 0) == Outcome(Done(m), k + 2)
  {
    assert Translated(replies, k + 1, items, 1) == Outcome(Done(m), k + 2);
  }

  lemma FailThenTimeOut(replies: nat -> Reply, k: nat, items: seq<Item>)
    requires |items| > 1 && replies(k) == Thrown(false) && replies(k + 1) == Thrown(true)
    ensures Translated(replies, k, items, 0) == Halved(replies, k + 2, items)
  {
    assert Translated(replies, k + 1, items, 1) == Halved(replies, k + 2, items);
  }

  lemma WorstSingle(replies: nat -> Reply, k: nat, items: seq<Item>)
    requires |items| == 1 && Replays(replies, k, WorstReplies(items))
    ensures Translated(replies, k, items, 0) == Outcome(Done(map[items[0].key := "x"]), k + 2)
  {
    var script := WorstReplies(items);
    assert replies(k + 0) == script[0] && replies(k + 1) == script[1];
    assert items == [items[0]];
    CollectSingle(items[0]);
    RetrySucceeds(replies, k, items, map[items[0].key := "x"]);
  }

  lemma WorstHalves(items: seq<Item>, i: nat)
    requires |items| > 1 && i == Midpoint(|items|)
    ensures WorstReplies(items)
            == [Thrown(false), Thrown(true)] + WorstReplies(items[..i]) + WorstReplies(items[i..])
  {}

  lemma ReplaysParts(replies: nat -> Reply, k: nat, a: Reply, b: Reply, left: seq<Reply>, right: seq<Reply>)
    requires Replays(replies, k, [a, b] + left + right)
    ensures replies(k) == a && replies(k + 1) == b
    ensures Replays(replies, k + 2, left) && Replays(replies, k + 2 + |left|, right)
  {
    ReplaysSplit(replies, k, [a, b] + left, right);
    ReplaysSplit(replies, k, [a, b], left);
    assert replies(k + 0) == [a, b][0] && replies(k + 1) == [a, b][1];
  }

  /** The bound 4n - 2 is reached for every non-empty batch, on a call that succeeds. */
  lemma {:induction false} BoundIsTight(replies: nat -> Reply, k: nat, items: seq<Item>)
    requires items != [] && Replays(replies, k, WorstReplies(items))
    ensures Translated(replies, k, items, 0).next == k + PromptLimit(|items|)
    ensures Translated(replies, k, items, 0).result.Done?
    decreases |items|
  {
    if |items| == 1 {
      WorstSingle(replies, k, items);
    } else {
      var i := Midpoint(|items|);
      WorstHalves(items, i);
      ReplaysParts(replies, k, Thrown(false), Thrown(true), WorstReplies(items[..i]), WorstReplies(items[i..]));
      FailThenTimeOut(replies, k, items);
      BoundIsTight(replies, k + 2, items[..i]);
      BoundIsTight(replies, k + 4 * i, items[i..]);
      HalvedJoins(replies, k + 2, items, k + 4 * i);
    }
  }

  lemma HalvedJoins(replies: nat -> Reply, k: nat, items: seq<Item>, mid: nat)
    requires |items| > 1
    requires var left := Translated(replies, k, items[..Midpoint(|items|)], 0); left.result.Done? && left.next == mid
    requires Translated(replies, mid, items[Midpoint(|items|)..], 0).result.Done?
    ensures Halved(replies, k, items).result.Done?
    ensures Halved(replies, k, items).next == Translated(replies, mid, items[Midpoint(|items|)..], 0).next
  {}

  // ---- One batch after another ----

  /** All batches in order; the first one that fails ends it. */
  function TranslatedAll(replies: nat -> Reply, k: nat, batches: seq<seq<Item>>): Outcome {
    if batches == [] then Outcome(Done(map[]), k)
    else
      var before := TranslatedAll(replies, k, batches[..|batches| - 1]);
      if before.result.Failed? then before
      else
        var last := Translated(replies, before.next, batches[|batches| - 1], 0);
        if last.result.Failed? then last
        else Outcome(Done(before.result.translated + last.result.translated), last.next)
  }

  lemma {:induction false} FailureEndsAll(replies: nat -> Reply, k: nat, batches: seq<seq<Item>>, n: nat)
    requires n <= |batches| && TranslatedAll(replies, k, batches[..n]).result.Failed?
    ensures TranslatedAll(replies, k, batches) == TranslatedAll(replies, k, batches[..n])
    decreases |batches|
  {
    if n == |batches| {
      assert batches[..n] == batches;
    } else {
      assert batches[..|batches| - 1][..n] == batches[..n];
      FailureEndsAll(replies, k, batches[..|batches| - 1], n);
    }
  }

  lemma OneMoreBatch(replies: nat -> Reply, k: nat, batches: seq<seq<Item>>, n: nat)
    requires n < |batches| && TranslatedAll(replies, k, batches[..n]).result.Done?
    ensures Concat(batches[..n + 1]) == Concat(batches[..n]) + batches[n]
    ensures var before := TranslatedAll(replies, k, batches[..n]);
            var last := Translated(replies, before.next, batches[n], 0);
            TranslatedAll(replies, k, batches[..n + 1]) ==
              if last.result.Failed? then last
              else Outcome(Done(before.result.translated + last.result.translated), last.next)
  {
    assert batches[..n + 1][..n] == batches[..n];
  }

  /** What all batches give is exactly one text, from a prompt of this run, for each of their keys. */
  lemma {:induction false} AllBatchesComplete(replies: nat -> Reply, k: nat, batches: seq<seq<Item>>)
    ensures var o := TranslatedAll(replies, k, batches);
            && k <= o.next
            && (o.result.Done? ==> Complete(replies, k, o.next, Concat(batches), o.result.translated))
    decreases |batches|
  {
    if batches != [] {
      var n := |batches| - 1;
      AllBatchesComplete(replies, k, batches[..n]);
      var before := TranslatedAll(replies, k, batches[..n]);
      SuccessIsComplete(replies, before.next, batches[n], 0);
      var last := Translated(replies, before.next, batches[n], 0);
      if before.result.Done? && last.result.Done? {
        var items := Concat(batches[..n]) + batches[n];
        assert items[..|Concat(batches[..n])|] == Concat(batches[..n]);
        assert items[|Concat(batches[..n])|..] == batches[n];
        HalvesComplete(replies, k, before.next, last.next, items, |Concat(batches[..n])|,
                       before.result.translated, last.result.translated);
      }
    }
  }

  /** n items in b batches cost at most 4n - 2b prompts. */
  lemma {:induction false} AllPromptsBounded(replies: nat -> Reply, k: nat, batches: seq<seq<Item>>)
    requires forall i | 0 <= i < |batches| :: batches[i] != []
    ensures TranslatedAll(replies, k, batches).next <= k + 4 * |Concat(batches)| - 2 * |batches|
    decreases |batches|
  {
    if batches != [] {
      var n := |batches| - 1;
      AllPromptsBounded(replies, k, batches[..n]);
      var before := TranslatedAll(replies, k, batches[..n]);
      PromptsBounded(replies, before.next, batches[n]);
    }
  }

  /** If the first prompt of each batch answers it, `b` batches cost exactly `b` prompts. */
  lemma {:induction false} GoodRepliesEndAll(replies: nat -> Reply, k: nat, batches: seq<seq<Item>>)
    requires forall i | 0 <= i < |batches| :: AnswersAll(replies(k + i), batches[i])
    ensures TranslatedAll(replies, k, batches).result.Done?
    ensures TranslatedAll(replies, k, batches).next == k + |batches|
    decreases |batches|
  {
    if batches != [] {
      var n := |batches| - 1;
      GoodRepliesEndAll(replies, k, batches[..n]);
      GoodReplyEnds(replies, k + n, batches[n], 0);
    }
  }

  // ---- The function as the code runs it ----

  class Translator {
    const replies: nat -> Reply
    var prompts: nat

    constructor (replies: nat -> Reply)
      ensures this.replies == replies && prompts == 0
    {
      this.replies, prompts := replies, 0;
    }

    method Prompt() returns (reply: Reply)
      modifies this
      ensures reply == replies(old(prompts)) && prompts == old(prompts) + 1
    {
      reply := replies(prompts);
      prompts := prompts + 1;
    }
  }

  method CollectReply(values: map<string, Value>, items: seq<Item>) returns (r: Attempt)
    ensures r == Collect(values, items)
  {
    var translated := map[];
    for n := 0 to |items|
      invariant Collect(values, items[..n]) == Good(translated)
      invariant Collect(values, items[..n]).Bad? ==> Collect(values, items) == Collect(values, items[..n])
    {
      var key := items[n].key;
      assert items[..n + 1][..n] == items[..n];
      if key !in values || !values[key].Text? || !Usable(values[key].text) {
        CollectStopsAtBad(values, items, n + 1);
        return Bad(MissingLooksTimedOut(key));
      }
      translated := translated[key := values[key].text];
    }
    assert items[..|items|] == items;
    return Good(translated);
  }

  lemma {:induction false} CollectStopsAtBad(values: map<string, Value>, items: seq<Item>, n: nat)
    requires n <= |items| && Collect(values, items[..n]).Bad?
    ensures Collect(values, items) == Collect(values, items[..n])
    decreases |items|
  {
    if n < |items| {
      var m := |items| - 1;
      assert items[..m][..n] == items[..n];
      CollectStopsAtBad(values, items[..m], n);
    } else {
      assert items[..n] == items;
    }
  }

  method TranslateItems(client: Translator, items: seq<Item>) returns (result: Result)
    modifies client
    ensures Outcome(result, client.prompts) == Translated(client.replies, old(client.prompts), items, 0)
    ensures result.Done? ==>
              Complete(client.replies, old(client.prompts), client.prompts, items, result.translated)
    ensures client.prompts <= old(client.prompts) + PromptLimit(|items|)
    decreases |items|
  {
    SuccessIsComplete(client.replies, client.prompts, items, 0);
    PromptsBounded(client.replies, client.prompts, items);
    var attempt := 0;
    while attempt < TRANSLATE_MAX_ATTEMPTS
      invariant attempt <= TRANSLATE_MAX_ATTEMPTS
      invariant Translated(client.replies, old(client.prompts), items, 0)
                == Translated(client.replies, client.prompts, items, attempt)
    {
      var reply := client.Prompt();
      var tried;
      if reply.Parsed? {
        tried := CollectReply(reply.values, items);
      } else {
        tried := Bad(reply.timedOut);
      }
      if tried.Good? {
        return Done(tried.translated);
      }
      if tried.timedOut && |items| > 1 {
        var midpoint := Midpoint(|items|);
        var left := TranslateItems(client, items[..midpoint]);
        if left.Failed? {
          return Failed;
        }
        var right := TranslateItems(client, items[midpoint..]);
        if right.Failed? {
          return Failed;
        }
        return Done(left.translated + right.translated);
      }
      if tried.timedOut {
        break;
      }
      attempt := attempt + 1;
    }
    return Failed;
  }
}
