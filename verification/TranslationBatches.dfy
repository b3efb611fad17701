/** The greedy batcher: it conserves order, respects both limits, and no order-preserving split
    that respects the same limits uses fewer batches. */
module TranslationBatches {

  datatype Item = Item(cacheKey: string, key: string, text: string, textHash: string)

  const MAX_BATCH_ITEMS := 20
  const DEFAULT_BATCH_CHAR_BUDGET: real := 2000.0

  /** The environment's setting, trimmed and read as a number. */
  datatype BudgetSetting = Unset | NotANumber | Infinite | Number(value: real)

  /** Only a finite positive number replaces the default, and the budget is always positive. */
  function ResolveBudget(setting: BudgetSetting): (budget: real)
    ensures budget > 0.0
    ensures budget != DEFAULT_BATCH_CHAR_BUDGET ==> setting == Number(budget)
    ensures setting.Number? && setting.value > 0.0 ==> budget == setting.value
  {
    if setting.Number? && setting.value > 0.0 then setting.value else DEFAULT_BATCH_CHAR_BUDGET
  }

  /** The estimate of a batch's size in characters. */
  function Estimate(items: seq<Item>): nat {
    if items == [] then 2
    else
      var last := items[|items| - 1];
      Estimate(items[..|items| - 1]) + |last.key| + |last.text| + 8
  }

  /** The keys and texts of the items, one behind the other. */
  function AllText(items: seq<Item>): string {
    if items == [] then "" else items[0].key + items[0].text + AllText(items[1..])
  }

  /** The estimate allows eight characters an item and two in all beyond the keys and texts themselves. */
  lemma {:induction false} EstimateIs(items: seq<Item>)
    ensures Estimate(items) == |AllText(items)| + 8 * |items| + 2
    decreases |items|
  {
    if items != [] {
      var n := |items| - 1;
      EstimateIs(items[..n]);
      assert items == items[..n] + [items[n]];
      AllTextConcat(items[..n], [items[n]]);
      assert [items[n]][1..] == [];
    }
  }

  lemma {:induction false} AllTextConcat(a: seq<Item>, b: seq<Item>)
    ensures AllText(a + b) == AllText(a) + AllText(b)
    decreases |a|
  {
    if a == [] {
      assert a + b == b;
    } else {
      assert (a + b)[1..] == a[1..] + b;
      AllTextConcat(a[1..], b);
    }
  }

  /** The running total the batcher compares with the budget: the base cost is counted per item. */
  function Charged(batch: seq<Item>): nat {
    Estimate(batch) + 2 * |batch|
  }

  /** The limits one batch must meet; a single item may exceed the budget on its own. */
  predicate Fits(batch: seq<Item>, budget: real) {
    && 0 < |batch| <= MAX_BATCH_ITEMS
    && (|batch| > 1 ==> Charged(batch) as real <= budget)
  }

  function Concat(batches: seq<seq<Item>>): seq<Item> {
    if batches == [] then [] else Concat(batches[..|batches| - 1]) + batches[|batches| - 1]
  }

  /** An order-preserving split of `items` whose batches all meet the limits. */
  ghost predicate IsSplit(items: seq<Item>, batches: seq<seq<Item>>, budget: real) {
    Concat(batches) == items && forall b | b in batches :: Fits(b, budget)
  }

  /** The first item of `next` would have broken the limits of `batch`. */
  predicate NoRoom(batch: seq<Item>, next: seq<Item>, budget: real) {
    next != [] && !Fits(batch + [next[0]], budget)
  }

  /** No batch could have taken the first item of the next one. */
  ghost predicate Full(batches: seq<seq<Item>>, budget: real) {
    forall i, j | 0 <= i < j < |batches| && j == i + 1 ::
      NoRoom(batches[i], batches[j], budget)
  }

  lemma ChargedOneMore(batch: seq<Item>, item: Item)
    ensures Charged(batch + [item]) == Charged(batch) + Estimate([item])
  {
    assert (batch + [item])[..|batch|] == batch;
    assert [item][..0] == [];
  }

  /** The loop's state after the items of `taken`: closed batches and the one that is growing. */
  ghost predicate Built(taken: seq<Item>, batches: seq<seq<Item>>, current: seq<Item>, budget: real) {
    && Concat(batches) + current == taken
    && (forall b | b in batches :: Fits(b, budget))
    && (current == [] ==> taken == [] && batches == [])
    && (current != [] ==> Fits(current, budget) && Full(batches + [current], budget))
  }

  method BuildTranslationBatches(items: seq<Item>, budget: real) returns (batches: seq<seq<Item>>)
    ensures IsSplit(items, batches, budget)
    ensures Full(batches, budget)
    ensures forall split | IsSplit(items, split, budget) :: |batches| <= |split|
  {
    batches := [];
    var current: seq<Item> := [];
    var currentChars := 2;
    for i := 0 to |items|
      invariant Built(items[..i], batches, current, budget)
      invariant currentChars == Charged(current)
    {
      var item := items[i];
      var itemChars := Estimate([item]);
      var wouldOverflow := |current| > 0 && (currentChars + itemChars) as real > budget;
      var reachedMaxItems := |current| >= MAX_BATCH_ITEMS;
      ChargedOneMore(current, item);
      assert items[..i] + [item] == items[..i + 1];
      if wouldOverflow || reachedMaxItems {
        StartNext(items[..i], batches, current, item, budget);
        batches := batches + [current];
        current := [];
        currentChars := 2;
        ChargedOneMore([], item);
      } else {
        AddToCurrent(items[..i], batches, current, item, budget);
      }
      current := current + [item];
      currentChars := currentChars + itemChars;
    }
    assert items[..|items|] == items;
    if |current| > 0 {
      CloseLast(items, batches, current, budget);
      batches := batches + [current];
    }
    forall split | IsSplit(items, split, budget)
      ensures |batches| <= |split|
    {
      GreedyIsSmallest(items, batches, split, budget);
    }
  }

  lemma StartNext(taken: seq<Item>, batches: seq<seq<Item>>, current: seq<Item>, item: Item, budget: real)
    requires Built(taken, batches, current, budget)
    requires current != [] && !Fits(current + [item], budget)
    ensures Built(taken + [item], batches + [current], [] + [item], budget)
  {
    CloseBatch(batches, current, item, budget);
    assert [] + [item] == [item];
  }

  lemma AddToCurrent(taken: seq<Item>, batches: seq<seq<Item>>, current: seq<Item>, item: Item, budget: real)
    requires Built(taken, batches, current, budget)
    requires Fits(current + [item], budget)
    ensures Built(taken + [item], batches, current + [item], budget)
  {
    GrowBatch(batches, current, item, budget);
    assert Concat(batches) + (current + [item]) == Concat(batches) + current + [item];
  }

  lemma CloseLast(items: seq<Item>, batches: seq<seq<Item>>, current: seq<Item>, budget: real)
    requires Built(items, batches, current, budget) && current != []
    ensures IsSplit(items, batches + [current], budget) && Full(batches + [current], budget)
  {
    assert (batches + [current])[..|batches|] == batches;
  }

  lemma CloseBatch(batches: seq<seq<Item>>, current: seq<Item>, item: Item, budget: real)
    requires current != [] && !Fits(current + [item], budget) && Full(batches + [current], budget)
    ensures Concat(batches + [current]) == Concat(batches) + current
    ensures Full(batches + [current] + [[item]], budget)
  {
    assert (batches + [current])[..|batches|] == batches;
    var after := batches + [current] + [[item]];
    forall i, j | 0 <= i < j < |after| && j == i + 1
      ensures NoRoom(after[i], after[j], budget)
    {
      if j <= |batches| {
        var before := batches + [current];
        assert NoRoom(before[i], before[j], budget);
        assert after[i] == before[i] && after[j] == before[j];
      }
    }
  }

  lemma GrowBatch(batches: seq<seq<Item>>, current: seq<Item>, item: Item, budget: real)
    requires current != [] ==> Full(batches + [current], budget)
    requires current == [] ==> batches == []
    ensures Full(batches + [current + [item]], budget)
  {
    var after := batches + [current + [item]];
    forall i, j | 0 <= i < j < |after| && j == i + 1
      ensures NoRoom(after[i], after[j], budget)
    {
      var before := batches + [current];
      assert NoRoom(before[i], before[j], budget);
      assert after[i] == before[i] && after[j][0] == before[j][0];
    }
  }

  // ---- Fewest batches ----

  lemma {:induction false} EstimateOfSuffix(batch: seq<Item>, i: nat)
    requires i <= |batch|
    ensures Charged(batch[i..]) <= Charged(batch)
    decreases |batch|
  {
    if i < |batch| {
      var n := |batch| - 1;
      EstimateOfSuffix(batch[..n], i);
      assert batch[..n][i..] == batch[i..][..|batch[i..]| - 1];
    }
  }

  lemma {:induction false} EstimateOfPrefix(batch: seq<Item>, j: nat)
    requires j <= |batch|
    ensures Charged(batch[..j]) <= Charged(batch)
    decreases |batch|
  {
    if j == |batch| {
      assert batch[..j] == batch;
    } else {
      EstimateOfPrefix(batch[..|batch| - 1], j);
      assert batch[..|batch| - 1][..j] == batch[..j];
    }
  }

  /** Every non-empty contiguous part of a batch within the limits is within the limits. */
  lemma PartFits(batch: seq<Item>, i: nat, j: nat, budget: real)
    requires Fits(batch, budget) && i < j <= |batch|
    ensures Fits(batch[i..j], budget)
  {
    EstimateOfPrefix(batch, j);
    EstimateOfSuffix(batch[..j], i);
    assert batch[..j][i..] == batch[i..j];
  }

  lemma {:induction false} ConcatPrefix(batches: seq<seq<Item>>, k: nat)
    requires k <= |batches|
    ensures Concat(batches[..k]) <= Concat(batches)
    decreases |batches|
  {
    if k == |batches| {
      assert batches[..k] == batches;
    } else {
      ConcatPrefix(batches[..|batches| - 1], k);
      assert batches[..|batches| - 1][..k] == batches[..k];
    }
  }

  lemma ConcatSplit(batches: seq<seq<Item>>, k: nat)
    requires k < |batches|
    ensures Concat(batches[..k + 1]) == Concat(batches[..k]) + batches[k]
    ensures Concat(batches[..k + 1]) <= Concat(batches)
  {
    assert batches[..k + 1][..k] == batches[..k];
    ConcatPrefix(batches, k + 1);
  }

  lemma ItemAt(items: seq<Item>, batches: seq<seq<Item>>, k: nat, i: nat)
    requires Concat(batches) == items && k < |batches| && i < |batches[k]|
    ensures |Concat(batches[..k])| + i < |items| && items[|Concat(batches[..k])| + i] == batches[k][i]
  {
    ConcatSplit(batches, k);
    assert Concat(batches[..k + 1])[|Concat(batches[..k])| + i] == batches[k][i];
  }

  /** After `k` batches the greedy split has consumed at least as many items as any other. */
  lemma {:induction false} GreedyStaysAhead(items: seq<Item>, greedy: seq<seq<Item>>, split: seq<seq<Item>>,
                                            budget: real, k: nat)
    requires IsSplit(items, greedy, budget) && Full(greedy, budget) && IsSplit(items, split, budget)
    requires k <= |greedy| && k <= |split|
    ensures |Concat(split[..k])| <= |Concat(greedy[..k])|
  {
    if k > 0 {
      GreedyStaysAhead(items, greedy, split, budget, k - 1);
      ConcatSplit(greedy, k - 1);
      ConcatSplit(split, k - 1);
      if k == |greedy| {
        assert greedy[..k] == greedy;
      } else if |Concat(split[..k])| > |Concat(greedy[..k])| {
        OvertakingIsImpossible(items, greedy, split, budget, k - 1);
      }
    }
  }

  lemma OvertakingIsImpossible(items: seq<Item>, greedy: seq<seq<Item>>, split: seq<seq<Item>>,
                               budget: real, k: nat)
    requires IsSplit(items, greedy, budget) && Full(greedy, budget) && IsSplit(items, split, budget)
    requires k + 1 < |greedy| && k < |split|
    requires |Concat(split[..k])| <= |Concat(greedy[..k])|
    ensures |Concat(split[..k + 1])| <= |Concat(greedy[..k + 1])|
  {
    ConcatSplit(greedy, k);
    ConcatSplit(split, k);
    assert NoRoom(greedy[k], greedy[k + 1], budget);
    var g := |Concat(greedy[..k])|;
    var s := |Concat(split[..k])|;
    if s + |split[k]| > g + |greedy[k]| {
      PartIsLonger(items, greedy, split, k, g - s);
      assert split[k] in split;
      PartFits(split[k], g - s, g - s + |greedy[k]| + 1, budget);
      assert false;
    }
  }

  lemma BatchAt(items: seq<Item>, batches: seq<seq<Item>>, k: nat)
    requires Concat(batches) == items && k < |batches|
    ensures var i, j := |Concat(batches[..k])|, |Concat(batches[..k + 1])|;
            i <= j <= |items| && batches[k] == items[i..j]
  {
    ConcatSplit(batches, k);
    var i, j := |Concat(batches[..k])|, |Concat(batches[..k + 1])|;
    assert Concat(batches[..k + 1])[i..] == batches[k];
    assert items[..j] == Concat(batches[..k + 1]);
  }

  /** A batch as a range of the items, by where it starts and how long it is. */
  lemma BatchRange(items: seq<Item>, batches: seq<seq<Item>>, k: nat)
    requires Concat(batches) == items && k < |batches|
    ensures var i := |Concat(batches[..k])|;
            i + |batches[k]| <= |items| && batches[k] == items[i..i + |batches[k]|]
  {
    ConcatSplit(batches, k);
    BatchAt(items, batches, k);
  }

  lemma NextItem(items: seq<Item>, batches: seq<seq<Item>>, k: nat)
    requires Concat(batches) == items && k + 1 < |batches| && batches[k + 1] != []
    ensures var j := |Concat(batches[..k])| + |batches[k]|; j < |items| && batches[k + 1][0] == items[j]
  {
    ConcatSplit(batches, k);
    ItemAt(items, batches, k + 1, 0);
  }

  lemma SliceOfSlice(items: seq<Item>, s: nat, part: seq<Item>, d: nat, batch: seq<Item>, next: Item)
    requires s + |part| <= |items| && part == items[s..s + |part|] && d + |batch| < |part|
    requires batch == items[s + d..s + d + |batch|] && next == items[s + d + |batch|]
    ensures part[d..d + |batch| + 1] == batch + [next]
  {
    var longer := batch + [next];
    forall i | 0 <= i < |longer|
      ensures part[d..d + |longer|][i] == longer[i]
    {
      assert part[d + i] == items[s + (d + i)];
    }
  }

  /** A batch of `split` that reaches past `greedy[k]` holds that batch and the next item. */
  lemma PartIsLonger(items: seq<Item>, greedy: seq<seq<Item>>, split: seq<seq<Item>>, k: nat, d: nat)
    requires Concat(greedy) == items && Concat(split) == items && k + 1 < |greedy| && k < |split|
    requires greedy[k + 1] != [] && d + |greedy[k]| < |split[k]|
    requires |Concat(greedy[..k])| == |Concat(split[..k])| + d
    ensures split[k][d..d + |greedy[k]| + 1] == greedy[k] + [greedy[k + 1][0]]
  {
    BatchRange(items, greedy, k);
    BatchRange(items, split, k);
    NextItem(items, greedy, k);
    SliceOfSlice(items, |Concat(split[..k])|, split[k], d, greedy[k], greedy[k + 1][0]);
  }

  lemma GreedyIsSmallest(items: seq<Item>, greedy: seq<seq<Item>>, split: seq<seq<Item>>, budget: real)
    requires IsSplit(items, greedy, budget) && Full(greedy, budget) && IsSplit(items, split, budget)
    ensures |greedy| <= |split|
  {
    var k := |split|;
    if k < |greedy| {
      assert greedy[k] in greedy;
      GreedyStaysAhead(items, greedy, split, budget, k);
      assert split[..k] == split;
      ConcatSplit(greedy, k);
    }
  }

  /** The batches are determined: only one split within the limits leaves no room in any batch. */
  lemma FullSplitUnique(items: seq<Item>, a: seq<seq<Item>>, b: seq<seq<Item>>, budget: real)
    requires IsSplit(items, a, budget) && Full(a, budget)
    requires IsSplit(items, b, budget) && Full(b, budget)
    ensures a == b
  {
    GreedyIsSmallest(items, a, b, budget);
    GreedyIsSmallest(items, b, a, budget);
    forall k | 0 <= k < |a|
      ensures a[k] == b[k]
    {
      GreedyStaysAhead(items, a, b, budget, k);
      GreedyStaysAhead(items, b, a, budget, k);
      GreedyStaysAhead(items, a, b, budget, k + 1);
      GreedyStaysAhead(items, b, a, budget, k + 1);
      BatchAt(items, a, k);
      BatchAt(items, b, k);
    }
  }
}
