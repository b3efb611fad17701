/** `syncLocale`: which texts are reused, translated or left in English, and what the metadata says.
    Hashing and the cache key are abstract functions. */
module LocaleSync {
  import opened FlatMaps
  import opened JsText
  import opened Sets
  import opened Translations
  import opened TranslationBatches
  import opened TranslateBatch

  /** Everything one run reads. `memory` maps cache keys to translations. */
  datatype Inputs = Inputs(
    source: seq<Pair>,
    existing: map<string, string>,
    memory: map<string, string>,
    previousFallback: set<string>,
    allowTranslate: bool,
    force: bool,
    hashText: string -> string,
    cacheKey: (string, string) -> string)

  datatype Reuse = Reused(text: string) | MustTranslate

  function CacheKeyOf(run: Inputs, p: Pair): string {
    run.cacheKey(p.key, run.hashText(p.value))
  }

  function ItemOf(run: Inputs, p: Pair): Item {
    Item(CacheKeyOf(run, p), p.key, p.value, run.hashText(p.value))
  }

  predicate Refresh(run: Inputs, key: string) {
    run.allowTranslate && key in run.previousFallback
  }

  /** A cached translation, else the existing one; neither for a fallback a provider can refresh. */
  function Reuses(run: Inputs, p: Pair): Reuse {
    if Refresh(run, p.key) then MustTranslate
    else if CacheKeyOf(run, p) in run.memory then Reused(run.memory[CacheKeyOf(run, p)])
    else if p.key in run.existing then Reused(run.existing[p.key])
    else MustTranslate
  }

  /** The items to translate, in source order. */
  function PendingItems(run: Inputs, source: seq<Pair>): seq<Item> {
    if source == [] then []
    else
      var last := source[|source| - 1];
      PendingItems(run, source[..|source| - 1])
      + if Reuses(run, last).MustTranslate? then [ItemOf(run, last)] else []
  }

  /** The text a run settles on, given what the provider returned. */
  function FinalText(run: Inputs, returned: map<string, string>, p: Pair): string {
    match Reuses(run, p)
    case Reused(text) => text
    case MustTranslate =>
      if p.key in returned then returned[p.key]
      else if p.key in run.existing && !run.force then run.existing[p.key]
      else p.value
  }

  predicate IsFallback(run: Inputs, returned: map<string, string>, p: Pair) {
    match Reuses(run, p)
    case Reused(_) => p.key in run.previousFallback
    case MustTranslate =>
      p.key !in returned && (p.key in run.existing && !run.force ==> p.key in run.previousFallback)
  }

  function Remember(memory: map<string, string>, items: seq<Item>, returned: map<string, string>): map<string, string>
    requires ItemKeys(items) <= returned.Keys
  {
    if items == [] then memory
    else
      var last := items[|items| - 1];
      KeysSplit(items, |items| - 1);
      assert last.key in ItemKeys(items);
      Remember(memory, items[..|items| - 1], returned)[last.cacheKey := returned[last.key]]
  }

  /** What one completed run leaves behind. */
  datatype LocaleFiles = LocaleFiles(next: map<string, string>, fallback: set<string>, memory: map<string, string>)

  ghost predicate Returned(run: Inputs, returned: map<string, string>) {
    && returned.Keys == (if run.allowTranslate then ItemKeys(PendingItems(run, run.source)) else {})
    && AllUsable(returned)
  }

  ghost predicate Synced(run: Inputs, returned: map<string, string>, o: LocaleFiles) {
    && Returned(run, returned)
    && o.next.Keys == KeysOf(run.source)
    && o.fallback <= KeysOf(run.source)
    && (forall i | 0 <= i < |run.source| ::
          && o.next[run.source[i].key] == FinalText(run, returned, run.source[i])
          && (run.source[i].key in o.fallback <==> IsFallback(run, returned, run.source[i])))
    && o.memory == if run.allowTranslate
                   then Remember(run.memory, PendingItems(run, run.source), returned) else run.memory
  }

  // ---- What is pending ----

  lemma {:induction false} PendingIff(run: Inputs, source: seq<Pair>, item: Item)
    ensures item in PendingItems(run, source) <==>
            exists i :: 0 <= i < |source| && Reuses(run, source[i]).MustTranslate? && item == ItemOf(run, source[i])
    decreases |source|
  {
    if source != [] {
      var n := |source| - 1;
      var before := source[..n];
      PendingIff(run, before, item);
      if i :| 0 <= i < n && Reuses(run, source[i]).MustTranslate? && item == ItemOf(run, source[i]) {
        assert before[i] == source[i];
      }
    }
  }

  /** A key is sent to the provider exactly when it has neither a cached nor an existing text, or is
      a fallback that a provider can now refresh. */
  lemma PendingKeyIff(run: Inputs, i: nat)
    requires DistinctKeys(run.source) && i < |run.source|
    ensures var p := run.source[i];
            p.key in ItemKeys(PendingItems(run, run.source)) <==>
            || (run.allowTranslate && p.key in run.previousFallback)
            || (CacheKeyOf(run, p) !in run.memory && p.key !in run.existing)
  {
    var p := run.source[i];
    var items := PendingItems(run, run.source);
    if p.key in ItemKeys(items) {
      var k :| 0 <= k < |items| && items[k].key == p.key;
      PendingIff(run, run.source, items[k]);
      var j :| 0 <= j < |run.source| && Reuses(run, run.source[j]).MustTranslate? && items[k] == ItemOf(run, run.source[j]);
      assert run.source[j].key == run.source[i].key;
      assert i == j;
    }
    if Reuses(run, p).MustTranslate? {
      PendingIff(run, run.source, ItemOf(run, p));
      var k :| 0 <= k < |items| && items[k] == ItemOf(run, p);
      assert items[k].key == p.key;
    }
  }

  ghost predicate DistinctItemKeys(items: seq<Item>) {
    forall i, j | 0 <= i < j < |items| :: items[i].key != items[j].key
  }

  lemma {:induction false} PendingKeysDistinct(run: Inputs, source: seq<Pair>)
    requires DistinctKeys(source)
    ensures DistinctItemKeys(PendingItems(run, source))
    ensures forall k | k in ItemKeys(PendingItems(run, source)) :: k in KeysOf(source)
    decreases |source|
  {
    if source != [] {
      var n := |source| - 1;
      var before := source[..n];
      PendingKeysDistinct(run, before);
      var items := PendingItems(run, before);
      forall j | 0 <= j < |items|
        ensures items[j].key != source[n].key
      {
        assert items[j].key in ItemKeys(items);
        var i :| 0 <= i < n && before[i].key == items[j].key;
        assert source[i].key != source[n].key;
      }
      forall k | k in KeysOf(before)
        ensures k in KeysOf(source)
      {
        var i :| 0 <= i < n && before[i].key == k;
        assert source[i].key == k;
      }
      assert source[n].key in KeysOf(source);
    }
  }

  // ---- What a run guarantees ----

  lemma {:induction false} KeysOfSize(source: seq<Pair>)
    ensures |KeysOf(source)| <= |source|
    ensures DistinctKeys(source) ==> |KeysOf(source)| == |source|
    decreases |source|
  {
    if source != [] {
      var n := |source| - 1;
      KeysOfSize(source[..n]);
      forall k
        ensures k in KeysOf(source) <==> k in KeysOf(source[..n]) || k == source[n].key
      {
        if i :| 0 <= i < n && source[i].key == k {
          assert source[..n][i].key == k;
        }
        assert source[n].key in KeysOf(source);
      }
      assert KeysOf(source) == KeysOf(source[..n]) + {source[n].key};
    }
  }

  /** `translatedKeys` lies between 0 and `totalKeys`. */
  lemma TranslatedCountInRange(run: Inputs, returned: map<string, string>, o: LocaleFiles)
    requires Synced(run, returned, o)
    ensures 0 <= |run.source| - |o.fallback| <= |run.source|
  {
    KeysOfSize(run.source);
    SubsetSize(o.fallback, KeysOf(run.source));
  }

  /** A completed run with a provider leaves no fallback. */
  lemma ProviderLeavesNoFallback(run: Inputs, returned: map<string, string>, o: LocaleFiles)
    requires Synced(run, returned, o) && run.allowTranslate && DistinctKeys(run.source)
    ensures o.fallback == {}
  {
    forall k | k in o.fallback
      ensures false
    {
      var i :| 0 <= i < |run.source| && run.source[i].key == k;
      assert IsFallback(run, returned, run.source[i]);
      PendingKeyIff(run, i);
    }
  }

  // ---- Where each text comes from ----

  predicate Cached(run: Inputs, p: Pair) {
    CacheKeyOf(run, p) in run.memory
  }

  /** A provider is asked for the key. */
  predicate Asked(run: Inputs, p: Pair) {
    run.allowTranslate && (p.key in run.previousFallback || (!Cached(run, p) && p.key !in run.existing))
  }

  /** Where each text comes from: the provider if it was asked, else the memory, else the locale file,
      else the English source. */
  lemma TextComesFrom(run: Inputs, returned: map<string, string>, o: LocaleFiles, i: nat)
    requires Synced(run, returned, o) && DistinctKeys(run.source) && i < |run.source|
    ensures var p := run.source[i];
            && p.key in o.next
            && (p.key in returned <==> Asked(run, p))
            && o.next[p.key] == (if p.key in returned then returned[p.key]
                                 else if Cached(run, p) then run.memory[CacheKeyOf(run, p)]
                                 else if p.key in run.existing then run.existing[p.key]
                                 else p.value)
  {
    var p := run.source[i];
    PendingKeyIff(run, i);
    assert p.key in KeysOf(run.source);
    assert o.next[p.key] == FinalText(run, returned, p);
  }

  /** Which keys are fallbacks: without a provider, the earlier ones and those for which there is neither
      a remembered nor an existing text, so that English stands in; with one, none. */
  lemma FallbackIff(run: Inputs, returned: map<string, string>, o: LocaleFiles, i: nat)
    requires Synced(run, returned, o) && DistinctKeys(run.source) && i < |run.source|
    ensures var p := run.source[i];
            p.key in o.fallback <==>
            !run.allowTranslate && (p.key in run.previousFallback || (!Cached(run, p) && p.key !in run.existing))
  {
    var p := run.source[i];
    PendingKeyIff(run, i);
    assert p.key in o.fallback <==> IsFallback(run, returned, p);
  }

  /** What is sent for a key: its own English text and cache key. */
  lemma PendingItemsAreSources(run: Inputs, item: Item)
    requires item in PendingItems(run, run.source)
    ensures Pair(item.key, item.text) in run.source
    ensures item.textHash == run.hashText(item.text) && item.cacheKey == run.cacheKey(item.key, item.textHash)
  {
    PendingIff(run, run.source, item);
  }

  // ---- A second run ----

  /** The cache keys of the source texts are pairwise distinct, as hashing makes them. */
  ghost predicate CacheKeysApart(run: Inputs) {
    forall i, j | 0 <= i < j < |run.source| ::
      CacheKeyOf(run, run.source[i]) != CacheKeyOf(run, run.source[j])
  }

  lemma {:induction false} RememberOther(memory: map<string, string>, items: seq<Item>,
                                         returned: map<string, string>, key: string)
    requires ItemKeys(items) <= returned.Keys && forall item | item in items :: item.cacheKey != key
    ensures key in Remember(memory, items, returned) <==> key in memory
    ensures key in memory ==> Remember(memory, items, returned)[key] == memory[key]
    decreases |items|
  {
    if items != [] {
      KeysSplit(items, |items| - 1);
      assert items[|items| - 1] in items;
      RememberOther(memory, items[..|items| - 1], returned, key);
    }
  }

  lemma {:induction false} RememberItem(memory: map<string, string>, items: seq<Item>,
                                        returned: map<string, string>, item: Item)
    requires ItemKeys(items) <= returned.Keys && item in items && item.key in returned
    requires forall other | other in items && other.cacheKey == item.cacheKey :: other.key == item.key
    ensures item.cacheKey in Remember(memory, items, returned)
    ensures Remember(memory, items, returned)[item.cacheKey] == returned[item.key]
    decreases |items|
  {
    var n := |items| - 1;
    KeysSplit(items, n);
    assert items[n] in items;
    if items[n].cacheKey != item.cacheKey {
      RememberItem(memory, items[..n], returned, item);
    }
  }

  lemma PendingCacheKey(run: Inputs, other: Item, i: nat)
    requires CacheKeysApart(run) && i < |run.source|
    requires other in PendingItems(run, run.source) && other.cacheKey == CacheKeyOf(run, run.source[i])
    ensures other == ItemOf(run, run.source[i]) && Reuses(run, run.source[i]).MustTranslate?
  {
    PendingIff(run, run.source, other);
    var j :| 0 <= j < |run.source| && Reuses(run, run.source[j]).MustTranslate? && other == ItemOf(run, run.source[j]);
    assert i == j;
  }

  lemma TranslatedIsRemembered(run: Inputs, returned: map<string, string>, i: nat)
    requires CacheKeysApart(run) && i < |run.source| && Reuses(run, run.source[i]).MustTranslate?
    requires ItemKeys(PendingItems(run, run.source)) <= returned.Keys
    ensures var p := run.source[i];
            var memory := Remember(run.memory, PendingItems(run, run.source), returned);
            p.key in returned && CacheKeyOf(run, p) in memory && memory[CacheKeyOf(run, p)] == returned[p.key]
  {
    var item := ItemOf(run, run.source[i]);
    var items := PendingItems(run, run.source);
    PendingIff(run, run.source, item);
    var k :| 0 <= k < |items| && items[k] == item;
    assert items[k].key in ItemKeys(items);
    forall other | other in items && other.cacheKey == item.cacheKey
      ensures other.key == item.key
    {
      PendingCacheKey(run, other, i);
    }
    RememberItem(run.memory, items, returned, item);
  }

  lemma ReusedIsUntouched(run: Inputs, returned: map<string, string>, i: nat)
    requires CacheKeysApart(run) && i < |run.source| && Reuses(run, run.source[i]).Reused?
    requires ItemKeys(PendingItems(run, run.source)) <= returned.Keys
    ensures var key := CacheKeyOf(run, run.source[i]);
            var memory := Remember(run.memory, PendingItems(run, run.source), returned);
            (key in memory <==> key in run.memory) && (key in run.memory ==> memory[key] == run.memory[key])
  {
    forall other | other in PendingItems(run, run.source)
      ensures other.cacheKey != CacheKeyOf(run, run.source[i])
    {
      if other.cacheKey == CacheKeyOf(run, run.source[i]) {
        PendingCacheKey(run, other, i);
      }
    }
    RememberOther(run.memory, PendingItems(run, run.source), returned, CacheKeyOf(run, run.source[i]));
  }

  /** Under the cache keys of the run itself, the memory then holds no other text for a source key than
      the one settled on. */
  lemma TextIsKept(run: Inputs, returned: map<string, string>, o: LocaleFiles, i: nat)
    requires Synced(run, returned, o) && CacheKeysApart(run) && i < |run.source|
    ensures var p := run.source[i];
            CacheKeyOf(run, p) in o.memory ==> p.key in o.next && o.memory[CacheKeyOf(run, p)] == o.next[p.key]
  {
    var p := run.source[i];
    assert p.key in KeysOf(run.source) && o.next[p.key] == FinalText(run, returned, p);
    if run.allowTranslate {
      if Reuses(run, p).MustTranslate? {
        TranslatedIsRemembered(run, returned, i);
      } else {
        ReusedIsUntouched(run, returned, i);
      }
    }
  }

  /** A run with a provider remembers every translation under its key, and loses no other entry. */
  lemma TranslationsAreRemembered(run: Inputs, returned: map<string, string>, o: LocaleFiles)
    requires Synced(run, returned, o) && CacheKeysApart(run)
    ensures forall i | 0 <= i < |run.source| && Asked(run, run.source[i]) ::
              CacheKeyOf(run, run.source[i]) in o.memory
              && Settles(o, run.source[i].key, o.memory[CacheKeyOf(run, run.source[i])])
    ensures forall k | k in run.memory :: k in o.memory
              && (o.memory[k] == run.memory[k]
                  || exists i :: 0 <= i < |run.source| && Asked(run, run.source[i]) && k == CacheKeyOf(run, run.source[i]))
    ensures !run.allowTranslate ==> o.memory == run.memory
  {
    forall i | 0 <= i < |run.source| && Asked(run, run.source[i])
      ensures CacheKeyOf(run, run.source[i]) in o.memory
      ensures Settles(o, run.source[i].key, o.memory[CacheKeyOf(run, run.source[i])])
    {
      TranslatedIsRemembered(run, returned, i);
      TextIsKept(run, returned, o, i);
    }
    forall k | k in run.memory
      ensures k in o.memory
      ensures o.memory[k] == run.memory[k]
              || exists i :: 0 <= i < |run.source| && Asked(run, run.source[i]) && k == CacheKeyOf(run, run.source[i])
    {
      OtherEntryStays(run, returned, o, k);
    }
  }

  lemma OtherEntryStays(run: Inputs, returned: map<string, string>, o: LocaleFiles, k: string)
    requires Synced(run, returned, o) && k in run.memory && CacheKeysApart(run)
    ensures k in o.memory
    ensures o.memory[k] == run.memory[k]
            || exists i :: 0 <= i < |run.source| && Asked(run, run.source[i]) && k == CacheKeyOf(run, run.source[i])
  {
    if run.allowTranslate {
      var items := PendingItems(run, run.source);
      if item :| item in items && item.cacheKey == k {
        PendingIff(run, run.source, item);
        var j :| 0 <= j < |run.source| && Reuses(run, run.source[j]).MustTranslate? && item == ItemOf(run, run.source[j]);
        TranslatedIsRemembered(run, returned, j);
      } else {
        RememberOther(run.memory, items, returned, k);
      }
    }
  }

  /** The inputs of the run that follows: the files just written and the same source. Its cache keys are
      its own, because they name the provider and model configured then. */
  ghost function Following(run: Inputs, o: LocaleFiles, allowTranslate: bool, force: bool,
                           cacheKey: (string, string) -> string): Inputs {
    run.(existing := o.next, memory := o.memory, previousFallback := o.fallback,
         allowTranslate := allowTranslate, force := force, cacheKey := cacheKey)
  }

  /** English that stands in for a translation is never taken for one: a run without a provider that finds
      no text marks the key, and the next run that has a provider asks for it. */
  lemma EnglishIsAskedForLater(run: Inputs, returned: map<string, string>, o: LocaleFiles, i: nat,
                               force: bool, cacheKey: (string, string) -> string)
    requires Synced(run, returned, o) && DistinctKeys(run.source) && i < |run.source|
    requires !run.allowTranslate && !Cached(run, run.source[i]) && run.source[i].key !in run.existing
    ensures var p := run.source[i];
            var run2 := Following(run, o, true, force, cacheKey);
            && p.key in o.next && o.next[p.key] == p.value && p.key in o.fallback
            && p.key in ItemKeys(PendingItems(run2, run2.source))
  {
    TextComesFrom(run, returned, o, i);
    FallbackIff(run, returned, o, i);
    PendingKeyIff(Following(run, o, true, force, cacheKey), i);
  }

  /** Under the cache keys of `run2`, the memory `o` leaves holds no other text for a source key than the
      one settled on. */
  ghost predicate MemoryAgrees(run2: Inputs, o: LocaleFiles) {
    forall i | 0 <= i < |run2.source| && CacheKeyOf(run2, run2.source[i]) in o.memory ::
      Settles(o, run2.source[i].key, o.memory[CacheKeyOf(run2, run2.source[i])])
  }

  predicate Settles(o: LocaleFiles, key: string, text: string) {
    key in o.next && o.next[key] == text
  }

  lemma {:induction false} NothingPending(run: Inputs, source: seq<Pair>)
    requires forall i | 0 <= i < |source| :: Reuses(run, source[i]).Reused?
    ensures PendingItems(run, source) == []
    decreases |source|
  {
    if source != [] {
      NothingPending(run, source[..|source| - 1]);
    }
  }

  /** Every key is reused by the run that follows; a remembered text comes before the existing one. */
  lemma FollowingReuses(run: Inputs, returned: map<string, string>, o: LocaleFiles,
                        allowTranslate: bool, force: bool, cacheKey: (string, string) -> string, i: nat)
    requires Synced(run, returned, o) && i < |run.source|
    requires !allowTranslate || o.fallback == {}
    ensures var run2 := Following(run, o, allowTranslate, force, cacheKey);
            var p := run.source[i];
            && p.key in o.next
            && Reuses(run2, p) == Reused(if CacheKeyOf(run2, p) in o.memory then o.memory[CacheKeyOf(run2, p)]
                                         else o.next[p.key])
  {
    assert run.source[i].key in KeysOf(run.source);
  }

  lemma FollowingAt(run: Inputs, returned: map<string, string>, o: LocaleFiles, allowTranslate: bool, force: bool,
                    cacheKey: (string, string) -> string, returned2: map<string, string>, o2: LocaleFiles, i: nat)
    requires Synced(run, returned, o) && i < |run.source|
    requires !allowTranslate || o.fallback == {}
    requires Synced(Following(run, o, allowTranslate, force, cacheKey), returned2, o2)
    ensures var run2 := Following(run, o, allowTranslate, force, cacheKey);
            var p := run.source[i];
            && p.key in o.next && p.key in o2.next
            && (p.key in o2.fallback <==> p.key in o.fallback)
            && (o2.next[p.key] == o.next[p.key] <==>
                (CacheKeyOf(run2, p) in o.memory ==> Settles(o, p.key, o.memory[CacheKeyOf(run2, p)])))
  {
    var run2 := Following(run, o, allowTranslate, force, cacheKey);
    FollowingReuses(run, returned, o, allowTranslate, force, cacheKey, i);
    assert run2.source[i].key in KeysOf(run2.source);
    assert o2.next[run2.source[i].key] == FinalText(run2, returned2, run2.source[i]);
    assert run2.source[i].key in o2.fallback <==> IsFallback(run2, returned2, run2.source[i]);
  }

  /** The next run, without a provider or with nothing left to refresh, asks for no translation and keeps
      fallback set and memory, with `--force` or without. It reproduces the texts exactly when the memory
      holds no other text for a source key under the cache keys the next run uses. */
  lemma SecondRunReproducesIff(run: Inputs, returned: map<string, string>, o: LocaleFiles,
                               allowTranslate: bool, force: bool, cacheKey: (string, string) -> string,
                               returned2: map<string, string>, o2: LocaleFiles)
    requires Synced(run, returned, o)
    requires !allowTranslate || o.fallback == {}
    requires Synced(Following(run, o, allowTranslate, force, cacheKey), returned2, o2)
    ensures var run2 := Following(run, o, allowTranslate, force, cacheKey);
            && PendingItems(run2, run2.source) == []
            && o2.fallback == o.fallback && o2.memory == o.memory
            && (o2.next == o.next <==> MemoryAgrees(run2, o))
  {
    var run2 := Following(run, o, allowTranslate, force, cacheKey);
    forall i | 0 <= i < |run.source|
      ensures Reuses(run2, run.source[i]).Reused?
      ensures run.source[i].key in o2.fallback <==> run.source[i].key in o.fallback
    {
      FollowingReuses(run, returned, o, allowTranslate, force, cacheKey, i);
      FollowingAt(run, returned, o, allowTranslate, force, cacheKey, returned2, o2, i);
    }
    NothingPending(run2, run.source);
    SameFallback(run.source, o, o2);
    assert Remember(run2.memory, [], returned2) == run2.memory;
    SameTextsIff(run, returned, o, allowTranslate, force, cacheKey, returned2, o2);
  }

  lemma SameTextsIff(run: Inputs, returned: map<string, string>, o: LocaleFiles,
                     allowTranslate: bool, force: bool, cacheKey: (string, string) -> string,
                     returned2: map<string, string>, o2: LocaleFiles)
    requires Synced(run, returned, o)
    requires !allowTranslate || o.fallback == {}
    requires Synced(Following(run, o, allowTranslate, force, cacheKey), returned2, o2)
    ensures o2.next == o.next <==> MemoryAgrees(Following(run, o, allowTranslate, force, cacheKey), o)
  {
    var run2 := Following(run, o, allowTranslate, force, cacheKey);
    if o2.next == o.next {
      forall i | 0 <= i < |run2.source| && CacheKeyOf(run2, run2.source[i]) in o.memory
        ensures Settles(o, run2.source[i].key, o.memory[CacheKeyOf(run2, run2.source[i])])
      {
        FollowingAt(run, returned, o, allowTranslate, force, cacheKey, returned2, o2, i);
      }
    }
    if MemoryAgrees(run2, o) {
      forall k | k in KeysOf(run.source)
        ensures o2.next[k] == o.next[k]
      {
        var i :| 0 <= i < |run.source| && run.source[i].key == k;
        FollowingAt(run, returned, o, allowTranslate, force, cacheKey, returned2, o2, i);
        assert CacheKeyOf(run2, run2.source[i]) in o.memory ==>
            Settles(o, run2.source[i].key, o.memory[CacheKeyOf(run2, run2.source[i])]);
      }
    }
  }

  lemma SameFallback(source: seq<Pair>, o: LocaleFiles, o2: LocaleFiles)
    requires o.fallback <= KeysOf(source) && o2.fallback <= KeysOf(source)
    requires forall i | 0 <= i < |source| :: source[i].key in o2.fallback <==> source[i].key in o.fallback
    ensures o2.fallback == o.fallback
  {
    forall k | k in KeysOf(source)
      ensures k in o2.fallback <==> k in o.fallback
    {
      var i :| 0 <= i < |source| && source[i].key == k;
    }
  }

  /** With the provider and model unchanged, and so the cache keys, the second run reproduces everything. */
  lemma SecondRunReproduces(run: Inputs, returned: map<string, string>, o: LocaleFiles,
                            allowTranslate: bool, force: bool, returned2: map<string, string>, o2: LocaleFiles)
    requires Synced(run, returned, o) && CacheKeysApart(run)
    requires !allowTranslate || o.fallback == {}
    requires Synced(Following(run, o, allowTranslate, force, run.cacheKey), returned2, o2)
    ensures o2 == o
  {
    var run2 := Following(run, o, allowTranslate, force, run.cacheKey);
    forall i | 0 <= i < |run2.source| && CacheKeyOf(run2, run2.source[i]) in o.memory
      ensures Settles(o, run2.source[i].key, o.memory[CacheKeyOf(run2, run2.source[i])])
    {
      TextIsKept(run, returned, o, i);
    }
    SecondRunReproducesIff(run, returned, o, allowTranslate, force, run.cacheKey, returned2, o2);
  }

  // ---- Cache keys and the environment ----

  /** The environment variables that name the provider and the model, and hold the two API keys. */
  datatype Variables = Variables(provider: string, model: string, openaiKey: string, anthropicKey: string)

  const OPENAI := "openai"
  const ANTHROPIC := "anthropic"
  const DEFAULT_OPENAI_MODEL := "gpt-5.4"
  const DEFAULT_ANTHROPIC_MODEL := "claude-opus-4-6"

  function ConfiguredProvider(v: Variables): string {
    if Trim(v.provider) != "" then Trim(v.provider)
    else if Trim(v.openaiKey) != "" then OPENAI
    else if Trim(v.anthropicKey) != "" then ANTHROPIC
    else OPENAI
  }

  function ConfiguredModel(v: Variables): string {
    if Trim(v.model) != "" then Trim(v.model)
    else if ConfiguredProvider(v) == ANTHROPIC then DEFAULT_ANTHROPIC_MODEL
    else DEFAULT_OPENAI_MODEL
  }

  predicate HasTranslationProvider(v: Variables) {
    Trim(v.openaiKey) != "" || Trim(v.anthropicKey) != ""
  }

  /** The digest of provider, model, locale, key and text hash; the fixed parts are left out. */
  function CacheKeyIn(v: Variables, digest: seq<string> -> string, locale: string): (string, string) -> string {
    (segment, textHash) => digest([ConfiguredProvider(v), ConfiguredModel(v), locale, segment, textHash])
  }

  /** With a digest that tells its inputs apart, two cache keys are the same only for the same provider,
      model, locale, key and text hash. */
  lemma CacheKeysDiffer(v: Variables, w: Variables, digest: seq<string> -> string, here: string, there: string,
                        key: string, other: string, textHash: string, otherHash: string)
    requires forall a, b | digest(a) == digest(b) :: a == b
    ensures CacheKeyIn(v, digest, here)(key, textHash) == CacheKeyIn(w, digest, there)(other, otherHash) <==>
            && ConfiguredProvider(v) == ConfiguredProvider(w) && ConfiguredModel(v) == ConfiguredModel(w)
            && here == there && key == other && textHash == otherHash
  {
    var a := [ConfiguredProvider(v), ConfiguredModel(v), here, key, textHash];
    var b := [ConfiguredProvider(w), ConfiguredModel(w), there, other, otherHash];
    assert a == b <==> a[0] == b[0] && a[1] == b[1] && a[2] == b[2] && a[3] == b[3] && a[4] == b[4];
  }

  function WithoutApiKeys(v: Variables): Variables {
    v.(openaiKey := "", anthropicKey := "")
  }

  /** Taking the API keys away, which is what makes a run one without a provider, renames the configured
      provider exactly when it was chosen by the Anthropic key alone. The provider goes into every cache key. */
  lemma LosingKeysRenamesProviderIff(v: Variables)
    ensures !HasTranslationProvider(WithoutApiKeys(v))
    ensures ConfiguredProvider(WithoutApiKeys(v)) != ConfiguredProvider(v) <==>
            Trim(v.provider) == "" && Trim(v.openaiKey) == "" && Trim(v.anthropicKey) != ""
    ensures ConfiguredModel(WithoutApiKeys(v)) != ConfiguredModel(v) <==>
            Trim(v.model) == "" && ConfiguredProvider(WithoutApiKeys(v)) != ConfiguredProvider(v)
  {
    assert Trim("") == "";
    assert OPENAI[0] != ANTHROPIC[0];
    assert DEFAULT_OPENAI_MODEL[0] != DEFAULT_ANTHROPIC_MODEL[0];
  }

  /** A run whose memory holds "A" for its one key under the provider OpenAI, while `v` names another. */
  function RunWithOtherMemory(v: Variables, digest: seq<string> -> string, hashText: string -> string,
                              locale: string): Inputs {
    var remembered := CacheKeyIn(WithoutApiKeys(v), digest, locale)("k", hashText("English"));
    Inputs([Pair("k", "English")], map[], map[remembered := "A"], {}, HasTranslationProvider(v), false, hashText,
           CacheKeyIn(v, digest, locale))
  }

  lemma OneKey(run: Inputs, p: Pair)
    requires run.source == [p]
    ensures PendingItems(run, run.source) == if Reuses(run, p).MustTranslate? then [ItemOf(run, p)] else []
    ensures KeysOf(run.source) == {p.key}
    ensures ItemKeys([ItemOf(run, p)]) == {p.key} && ItemKeys([]) == {}
  {
    assert run.source[..0] == [];
    assert run.source[0] == p;
    assert [ItemOf(run, p)][0].key == p.key;
  }

  lemma RememberOne(memory: map<string, string>, item: Item, text: string)
    ensures ItemKeys([item]) <= map[item.key := text].Keys
    ensures Remember(memory, [item], map[item.key := text]) == memory[item.cacheKey := text]
  {
    assert [item][..0] == [];
    assert [item][0] == item;
  }

  lemma OneKeyTranslated(run: Inputs, p: Pair, text: string)
    requires run.source == [p] && run.allowTranslate && Reuses(run, p).MustTranslate? && Usable(text)
    ensures Synced(run, map[p.key := text],
                   LocaleFiles(map[p.key := text], {}, run.memory[CacheKeyOf(run, p) := text]))
  {
    OneKey(run, p);
    RememberOne(run.memory, ItemOf(run, p), text);
  }

  lemma OneKeyReused(run: Inputs, p: Pair)
    requires run.source == [p] && !run.allowTranslate && Reuses(run, p).Reused? && p.key !in run.previousFallback
    ensures Synced(run, map[], LocaleFiles(map[p.key := Reuses(run, p).text], {}, run.memory))
  {
    OneKey(run, p);
  }

  /** Two runs in a row of which the second writes another text: the first has only an Anthropic key and
      gets "B" from the provider, the second has no key and finds "A" remembered. */
  lemma SecondRunMayDiffer(digest: seq<string> -> string, hashText: string -> string, locale: string)
    requires var v := Variables("", "", "", "secret");
             CacheKeyIn(v, digest, locale)("k", hashText("English"))
             != CacheKeyIn(WithoutApiKeys(v), digest, locale)("k", hashText("English"))
    ensures var v := Variables("", "", "", "secret");
            var run := RunWithOtherMemory(v, digest, hashText, locale);
            var item := ItemOf(run, Pair("k", "English"));
            var o := LocaleFiles(map["k" := "B"], {}, run.memory[item.cacheKey := "B"]);
            && Synced(run, map["k" := "B"], o)
            && Synced(Following(run, o, false, false, CacheKeyIn(WithoutApiKeys(v), digest, locale)), map[],
                      LocaleFiles(map["k" := "A"], {}, o.memory))
  {
    var v := Variables("", "", "", "secret");
    var run := RunWithOtherMemory(v, digest, hashText, locale);
    var p := Pair("k", "English");
    var o := LocaleFiles(map["k" := "B"], {}, run.memory[CacheKeyOf(run, p) := "B"]);
    var run2 := Following(run, o, false, false, CacheKeyIn(WithoutApiKeys(v), digest, locale));
    TrimOfTrimmed("secret");
    TrimOfTrimmed("B");
    OneKeyTranslated(run, p, "B");
    OneKeyReused(run2, p);
  }

  // ---- Metadata ----

  /** `generatedAt` is refreshed only when some other field changes. */
  datatype Meta = Meta(
    fallbackKeys: set<string>,
    generatedAt: string,
    locale: string,
    model: string,
    provider: string,
    sourceHash: string,
    totalKeys: int,
    translatedKeys: int,
    workflow: nat)

  const CONTROL_UI_I18N_WORKFLOW := 1

  datatype PreviousMeta = NoMeta | Previous(meta: Meta)

  datatype Environment = Environment(locale: string, model: string, provider: string, sourceHash: string, now: string)

  function NextMeta(env: Environment, run: Inputs, o: LocaleFiles, previous: PreviousMeta): Meta {
    var provider := if run.allowTranslate then env.provider else if previous.NoMeta? then "" else previous.meta.provider;
    var model := if run.allowTranslate then env.model else if previous.NoMeta? then "" else previous.meta.model;
    var drafted := Meta(o.fallback, env.now, env.locale, model, provider, env.sourceHash,
                      |run.source|, |run.source| - |o.fallback|, CONTROL_UI_I18N_WORKFLOW);
    if previous.NoMeta? || drafted.(generatedAt := previous.meta.generatedAt) != previous.meta
    then drafted else drafted.(generatedAt := previous.meta.generatedAt)
  }

  /** What the metadata says of a run: its fallbacks, the number of its source keys and of those that are
      no fallback, and the provider and model it had, or those recorded before if it had none. */
  lemma MetaDescribesRun(env: Environment, run: Inputs, returned: map<string, string>, o: LocaleFiles,
                         previous: PreviousMeta)
    requires Synced(run, returned, o) && DistinctKeys(run.source)
    ensures var m := NextMeta(env, run, o, previous);
            && m.fallbackKeys == o.fallback && m.totalKeys == |o.next| && m.translatedKeys == |o.next.Keys - o.fallback|
            && m.locale == env.locale && m.sourceHash == env.sourceHash && m.workflow == CONTROL_UI_I18N_WORKFLOW
            && (run.allowTranslate ==> m.provider == env.provider && m.model == env.model)
            && (!run.allowTranslate ==> if previous.NoMeta? then m.provider == m.model == ""
                                        else m.provider == previous.meta.provider && m.model == previous.meta.model)
  {
    KeysOfSize(run.source);
    assert o.next.Keys == (o.next.Keys - o.fallback) + o.fallback;
  }

  /** The time stamp is renewed exactly when something else in the metadata changes. */
  lemma StampRenewedIff(env: Environment, run: Inputs, o: LocaleFiles, meta: Meta)
    ensures var m := NextMeta(env, run, o, Previous(meta));
            m.generatedAt == if m.(generatedAt := meta.generatedAt) == meta then meta.generatedAt else env.now
    ensures NextMeta(env, run, o, NoMeta).generatedAt == env.now
  {}

  /** A second run writes the very same metadata, time stamp included, at any later time, whether or not it
      reproduces the texts: unless it has a provider, and its provider or model is not the one recorded. */
  lemma SecondRunKeepsMeta(env: Environment, env2: Environment, run: Inputs, returned: map<string, string>,
                           o: LocaleFiles, previous: PreviousMeta, allowTranslate: bool, force: bool,
                           cacheKey: (string, string) -> string, returned2: map<string, string>, o2: LocaleFiles)
    requires env2.locale == env.locale && env2.sourceHash == env.sourceHash
    requires Synced(run, returned, o)
    requires !allowTranslate || o.fallback == {}
    requires Synced(Following(run, o, allowTranslate, force, cacheKey), returned2, o2)
    ensures var meta := NextMeta(env, run, o, previous);
            NextMeta(env2, Following(run, o, allowTranslate, force, cacheKey), o2, Previous(meta)) == meta
            <==> (allowTranslate ==> meta.provider == env2.provider && meta.model == env2.model)
  {
    SecondRunReproducesIff(run, returned, o, allowTranslate, force, cacheKey, returned2, o2);
  }

  // ---- The written tree ----

  lemma {:induction false} MapOfPairs(flat: seq<Pair>, texts: map<string, string>)
    requires forall i | 0 <= i < |flat| :: flat[i].key in texts && flat[i].value == texts[flat[i].key]
    ensures MapOf(flat).Keys == KeysOf(flat)
    ensures forall k | k in MapOf(flat) :: k in texts && MapOf(flat)[k] == texts[k]
    decreases |flat|
  {
    if flat != [] {
      var n := |flat| - 1;
      MapOfPairs(flat[..n], texts);
      forall k
        ensures k in KeysOf(flat) <==> k in KeysOf(flat[..n]) || k == flat[n].key
      {
        if i :| 0 <= i < n && flat[i].key == k {
          assert flat[..n][i].key == k;
        }
        assert flat[n].key in KeysOf(flat);
      }
    }
  }

  /** The tree a run writes reads back as exactly the texts it settled on. */
  lemma WrittenTreeReadsBack(source: Entries, next: map<string, string>)
    requires IsObject(source) && RoundTrips(source) && next.Keys == KeysOf(Flatten(source))
    ensures var written := Rebuild(End, RelabelledPairs(Flatten(source), next));
            written == Relabelled(source, "", next) && MapOf(Flatten(written)) == next
  {
    RebuildRelabelled(source, next);
    var flat := Flatten(source);
    var pairs := RelabelledPairs(flat, next);
    forall i | 0 <= i < |flat|
      ensures pairs[i].key in next && pairs[i].value == next[pairs[i].key]
    {
      assert flat[i].key in KeysOf(flat);
    }
    MapOfPairs(pairs, next);
    forall k
      ensures k in KeysOf(pairs) <==> k in KeysOf(flat)
    {
      if i :| 0 <= i < |flat| && flat[i].key == k {
        assert pairs[i].key == k;
      }
      if i :| 0 <= i < |pairs| && pairs[i].key == k {
        assert flat[i].key == k;
      }
    }
    assert MapOf(pairs) == next;
  }

  /** The tree that a run writes. */
  function WrittenTree(source: Entries, o: LocaleFiles): Entries {
    Rebuild(End, RelabelledPairs(Flatten(source), o.next))
  }

  /** The inputs of a run that reads back what an earlier run wrote. */
  ghost function Reread(run: Inputs, source: Entries, o: LocaleFiles, allowTranslate: bool, force: bool,
                        cacheKey: (string, string) -> string): Inputs {
    run.(existing := MapOf(Flatten(WrittenTree(source, o))), memory := o.memory, previousFallback := o.fallback,
         allowTranslate := allowTranslate, force := force, cacheKey := cacheKey)
  }

  /** From a source tree to the second run's tree: whatever the first run had to reuse or translate, a
      second run that reads its files has nothing to translate and keeps fallback set and memory. It writes
      the same tree exactly when the memory holds no other text for a source key under its cache keys. */
  lemma SecondRunWritesSameTreeIff(source: Entries, run: Inputs, returned: map<string, string>, o: LocaleFiles,
                                   allowTranslate: bool, force: bool, cacheKey: (string, string) -> string,
                                   returned2: map<string, string>, o2: LocaleFiles)
    requires IsObject(source) && RoundTrips(source) && run.source == Flatten(source)
    requires Synced(run, returned, o) && (!allowTranslate || o.fallback == {})
    requires Synced(Reread(run, source, o, allowTranslate, force, cacheKey), returned2, o2)
    ensures WrittenTree(source, o) == Relabelled(source, "", o.next)
    ensures var run2 := Reread(run, source, o, allowTranslate, force, cacheKey);
            && PendingItems(run2, run2.source) == []
            && o2.fallback == o.fallback && o2.memory == o.memory
            && (WrittenTree(source, o2) == WrittenTree(source, o) <==> MemoryAgrees(run2, o))
  {
    WrittenTreeReadsBack(source, o.next);
    WrittenTreeReadsBack(source, o2.next);
    assert Reread(run, source, o, allowTranslate, force, cacheKey)
        == Following(run, o, allowTranslate, force, cacheKey);
    SecondRunReproducesIff(run, returned, o, allowTranslate, force, cacheKey, returned2, o2);
  }

  // ---- The run as the code makes it ----

  /** The first loop's state: reused texts are settled, everything else is still open. */
  ghost predicate Classified(run: Inputs, source: seq<Pair>, next: map<string, string>, fallback: set<string>) {
    && next.Keys <= KeysOf(source) && fallback <= next.Keys
    && forall i | 0 <= i < |source| :: ClassifiedAs(run, source[i], next, fallback)
  }

  predicate ClassifiedAs(run: Inputs, p: Pair, next: map<string, string>, fallback: set<string>) {
    match Reuses(run, p)
    case Reused(text) =>
      p.key in next && next[p.key] == text && (p.key in fallback <==> p.key in run.previousFallback)
    case MustTranslate => p.key !in next
  }

  lemma PendingStep(run: Inputs, source: seq<Pair>, i: nat)
    requires i < |source|
    ensures PendingItems(run, source[..i + 1])
            == PendingItems(run, source[..i]) + if Reuses(run, source[i]).MustTranslate? then [ItemOf(run, source[i])] else []
  {
    assert source[..i + 1][..i] == source[..i];
  }

  lemma KeysOfPrefix(source: seq<Pair>, i: nat)
    requires i < |source|
    ensures KeysOf(source[..i + 1]) == KeysOf(source[..i]) + {source[i].key}
    ensures DistinctKeys(source) ==> source[i].key !in KeysOf(source[..i])
  {
    var before := source[..i];
    var after := source[..i + 1];
    assert after[i] == source[i];
    forall k
      ensures k in KeysOf(after) <==> k in KeysOf(before) || k == source[i].key
    {
      if j :| 0 <= j < |before| && before[j].key == k {
        assert after[j].key == k;
      }
      if j :| 0 <= j < |after| && after[j].key == k {
        assert j < i ==> before[j].key == k;
      }
    }
  }

  lemma ClassifiedOpen(run: Inputs, source: seq<Pair>, i: nat, next: map<string, string>, fallback: set<string>)
    requires DistinctKeys(source) && i < |source| && Reuses(run, source[i]).MustTranslate?
    requires Classified(run, source[..i], next, fallback)
    ensures Classified(run, source[..i + 1], next, fallback)
  {
    KeysOfPrefix(source, i);
    var after := source[..i + 1];
    forall j | 0 <= j < |after|
      ensures ClassifiedAs(run, after[j], next, fallback)
    {
      if j < i {
        assert after[j] == source[..i][j];
      }
    }
  }

  lemma ClassifiedReused(run: Inputs, source: seq<Pair>, i: nat, next: map<string, string>, fallback: set<string>)
    requires DistinctKeys(source) && i < |source| && Reuses(run, source[i]).Reused?
    requires Classified(run, source[..i], next, fallback)
    ensures Classified(run, source[..i + 1], next[source[i].key := Reuses(run, source[i]).text],
                       if source[i].key in run.previousFallback then fallback + {source[i].key} else fallback)
  {
    KeysOfPrefix(source, i);
    var before := source[..i];
    var after := source[..i + 1];
    var next' := next[source[i].key := Reuses(run, source[i]).text];
    var fallback' := if source[i].key in run.previousFallback then fallback + {source[i].key} else fallback;
    forall j | 0 <= j < |after|
      ensures ClassifiedAs(run, after[j], next', fallback')
    {
      if j < i {
        assert after[j] == before[j] && before[j].key in KeysOf(before);
        assert ClassifiedAs(run, before[j], next, fallback);
      }
    }
  }

  method Classify(run: Inputs) returns (next: map<string, string>, pending: seq<Item>, fallback: set<string>)
    requires DistinctKeys(run.source)
    ensures pending == PendingItems(run, run.source)
    ensures Classified(run, run.source, next, fallback)
  {
    next, pending, fallback := map[], [], {};
    for i := 0 to |run.source|
      invariant pending == PendingItems(run, run.source[..i])
      invariant Classified(run, run.source[..i], next, fallback)
    {
      var p := run.source[i];
      PendingStep(run, run.source, i);
      var cached := CacheKeyOf(run, p);
      var shouldRefreshFallback := p.key in run.previousFallback;
      if cached in run.memory && !(run.allowTranslate && shouldRefreshFallback) {
        ClassifiedReused(run, run.source, i, next, fallback);
        next := next[p.key := run.memory[cached]];
        fallback := if shouldRefreshFallback then fallback + {p.key} else fallback;
      } else if p.key in run.existing && !(run.allowTranslate && shouldRefreshFallback) {
        ClassifiedReused(run, run.source, i, next, fallback);
        next := next[p.key := run.existing[p.key]];
        fallback := if shouldRefreshFallback then fallback + {p.key} else fallback;
      } else {
        ClassifiedOpen(run, run.source, i, next, fallback);
        pending := pending + [ItemOf(run, p)];
      }
    }
    assert run.source[..|run.source|] == run.source;
  }

  lemma KeysOfConcat(a: seq<Item>, b: seq<Item>)
    ensures ItemKeys(a + b) == ItemKeys(a) + ItemKeys(b)
  {
    KeysSplit(a + b, |a|);
    assert (a + b)[..|a|] == a && (a + b)[|a|..] == b;
  }

  lemma {:induction false} RememberConcat(memory: map<string, string>, a: seq<Item>, b: seq<Item>,
                                          returned: map<string, string>)
    requires ItemKeys(a + b) <= returned.Keys
    ensures ItemKeys(a) <= returned.Keys && ItemKeys(b) <= returned.Keys
    ensures Remember(memory, a + b, returned) == Remember(Remember(memory, a, returned), b, returned)
    decreases |b|
  {
    KeysOfConcat(a, b);
    if b == [] {
      assert a + b == a;
    } else {
      var n := |b| - 1;
      KeysSplit(b, n);
      assert (a + b)[..|a + b| - 1] == a + b[..n];
      KeysOfConcat(a, b[..n]);
      RememberConcat(memory, a, b[..n], returned);
    }
  }

  lemma {:induction false} RememberAgrees(memory: map<string, string>, items: seq<Item>,
                                          r: map<string, string>, r': map<string, string>)
    requires ItemKeys(items) <= r.Keys && ItemKeys(items) <= r'.Keys
    requires forall k | k in ItemKeys(items) :: r[k] == r'[k]
    ensures Remember(memory, items, r) == Remember(memory, items, r')
    decreases |items|
  {
    if items != [] {
      KeysSplit(items, |items| - 1);
      RememberAgrees(memory, items[..|items| - 1], r, r');
    }
  }

  function StoreTexts(next: map<string, string>, items: seq<Item>, returned: map<string, string>): map<string, string>
    requires ItemKeys(items) <= returned.Keys
  {
    if items == [] then next
    else
      var last := items[|items| - 1];
      KeysSplit(items, |items| - 1);
      StoreTexts(next, items[..|items| - 1], returned)[last.key := returned[last.key]]
  }

  lemma {:induction false} StoreTextsAt(next: map<string, string>, items: seq<Item>,
                                        returned: map<string, string>, k: string)
    requires ItemKeys(items) <= returned.Keys
    ensures k in StoreTexts(next, items, returned) <==> k in next || k in ItemKeys(items)
    ensures k in StoreTexts(next, items, returned) ==>
              StoreTexts(next, items, returned)[k] == if k in ItemKeys(items) then returned[k] else next[k]
    decreases |items|
  {
    if items != [] {
      KeysSplit(items, |items| - 1);
      StoreTextsAt(next, items[..|items| - 1], returned, k);
    }
  }

  lemma StoreTextsAll(next: map<string, string>, items: seq<Item>, returned: map<string, string>)
    requires ItemKeys(items) == returned.Keys
    ensures StoreTexts(next, items, returned) == next + returned
  {
    forall k
      ensures k in StoreTexts(next, items, returned) <==> k in next + returned
      ensures k in next + returned ==> StoreTexts(next, items, returned)[k] == (next + returned)[k]
    {
      StoreTextsAt(next, items, returned, k);
    }
  }

  lemma StoreStep(next: map<string, string>, memory: map<string, string>, items: seq<Item>, i: nat,
                  returned: map<string, string>)
    requires i < |items| && ItemKeys(items) <= returned.Keys
    ensures items[i].key in returned
    ensures ItemKeys(items[..i]) <= returned.Keys && ItemKeys(items[..i + 1]) <= returned.Keys
    ensures StoreTexts(next, items[..i + 1], returned)
            == StoreTexts(next, items[..i], returned)[items[i].key := returned[items[i].key]]
    ensures Remember(memory, items[..i + 1], returned)
            == Remember(memory, items[..i], returned)[items[i].cacheKey := returned[items[i].key]]
  {
    assert items[i].key in ItemKeys(items);
    KeysSplit(items, i);
    KeysSplit(items, i + 1);
    assert items[..i + 1][..i] == items[..i];
  }

  lemma UsableIsNotEmpty(text: string)
    requires Usable(text)
    ensures text != ""
  {}

  method StoreBatch(batch: seq<Item>, translated: map<string, string>,
                    next0: map<string, string>, memory0: map<string, string>)
    returns (next: map<string, string>, memory: map<string, string>)
    requires translated.Keys == ItemKeys(batch) && AllUsable(translated)
    ensures next == next0 + translated
    ensures memory == Remember(memory0, batch, translated)
  {
    next, memory := next0, memory0;
    assert batch[..0] == [];
    for i := 0 to |batch|
      invariant ItemKeys(batch[..i]) <= translated.Keys
      invariant next == StoreTexts(next0, batch[..i], translated)
      invariant memory == Remember(memory0, batch[..i], translated)
    {
      var item := batch[i];
      StoreStep(next0, memory0, batch, i, translated);
      var value := translated[item.key];
      UsableIsNotEmpty(value);
      if value == "" {
        continue;
      }
      next := next[item.key := value];
      memory := memory[item.cacheKey := value];
    }
    assert batch[..|batch|] == batch;
    StoreTextsAll(next0, batch, translated);
  }

  ghost predicate AllUsable(texts: map<string, string>) {
    forall k | k in texts :: Usable(texts[k])
  }

  lemma UnionUsable(a: map<string, string>, b: map<string, string>)
    requires AllUsable(a) && AllUsable(b)
    ensures AllUsable(a + b)
  {}

  /** What has been gathered after the items `done`. */
  ghost predicate Gathered(done: seq<Item>, next0: map<string, string>, memory0: map<string, string>,
                           next: map<string, string>, memory: map<string, string>, returned: map<string, string>) {
    && returned.Keys == ItemKeys(done)
    && AllUsable(returned)
    && next == next0 + returned
    && memory == Remember(memory0, done, returned)
  }

  /** The whole outcome is that of the batches in order: whether it succeeds, the texts, and how many
      prompts it takes. */
  method TranslatePending(client: Translator, items: seq<Item>, budget: real,
                          next0: map<string, string>, memory0: map<string, string>)
    returns (ok: bool, next: map<string, string>, memory: map<string, string>,
             ghost returned: map<string, string>, ghost batches: seq<seq<Item>>)
    requires DistinctItemKeys(items)
    modifies client
    ensures IsSplit(items, batches, budget) && Full(batches, budget)
    ensures TranslatedAll(client.replies, old(client.prompts), batches)
            == Outcome(if ok then Done(returned) else Failed, client.prompts)
    ensures ok ==> Gathered(items, next0, memory0, next, memory, returned)
  {
    next, memory, returned := next0, memory0, map[];
    var split := Batches(items, budget);
    batches := split;
    ghost var k := client.prompts;
    assert split[..0] == [];
    var b := 0;
    while b < |split|
      invariant b <= |split| && Underway(client, k, split, b, next0, memory0, next, memory, returned)
    {
      ok, next, memory, returned := TranslateNext(client, items, split, b, k, next0, memory0, next, memory, returned);
      if !ok {
        FailureEndsAll(client.replies, k, split, b + 1);
        return;
      }
      b := b + 1;
    }
    assert split[..|split|] == split;
    ok := true;
  }

  method Batches(items: seq<Item>, budget: real) returns (batches: seq<seq<Item>>)
    ensures IsSplit(items, batches, budget) && Full(batches, budget)
  {
    batches := BuildTranslationBatches(items, budget);
  }

  /** The first `b` batches have succeeded and their texts are stored. */
  ghost predicate Underway(client: Translator, k: nat, batches: seq<seq<Item>>, b: nat,
                           next0: map<string, string>, memory0: map<string, string>,
                           next: map<string, string>, memory: map<string, string>, returned: map<string, string>)
    reads client
  {
    && b <= |batches|
    && TranslatedAll(client.replies, k, batches[..b]) == Outcome(Done(returned), client.prompts)
    && Gathered(Concat(batches[..b]), next0, memory0, next, memory, returned)
  }

  method TranslateNext(client: Translator, ghost items: seq<Item>, batches: seq<seq<Item>>, b: nat, ghost k: nat,
                       ghost next0: map<string, string>, ghost memory0: map<string, string>,
                       next: map<string, string>, memory: map<string, string>, ghost returned: map<string, string>)
    returns (ok: bool, next': map<string, string>, memory': map<string, string>, ghost returned': map<string, string>)
    requires DistinctItemKeys(items) && Concat(batches) == items && b < |batches|
    requires Underway(client, k, batches, b, next0, memory0, next, memory, returned)
    modifies client
    ensures ok ==> Underway(client, k, batches, b + 1, next0, memory0, next', memory', returned')
    ensures !ok ==> TranslatedAll(client.replies, k, batches[..b + 1]) == Outcome(Failed, client.prompts)
  {
    OneMoreBatch(client.replies, k, batches, b);
    var result := TranslateItems(client, batches[b]);
    if result.Failed? {
      return false, next, memory, returned;
    }
    next', memory' := StoreBatch(batches[b], result.translated, next, memory);
    ConcatSplit(batches, b);
    GatherMore(items, Concat(batches[..b]), batches[b], next0, memory0, returned, result.translated);
    returned' := returned + result.translated;
    ok := true;
  }

  lemma GatherMore(items: seq<Item>, done: seq<Item>, batch: seq<Item>,
                   next0: map<string, string>, memory0: map<string, string>,
                   returned: map<string, string>, translated: map<string, string>)
    requires DistinctItemKeys(items) && done + batch <= items
    requires returned.Keys == ItemKeys(done) && translated.Keys == ItemKeys(batch)
    requires AllUsable(returned) && AllUsable(translated)
    ensures Gathered(done + batch, next0, memory0, next0 + returned + translated,
                     Remember(Remember(memory0, done, returned), batch, translated), returned + translated)
  {
    BatchRemembered(memory0, items, done, batch, returned, translated);
    UnionAssoc(next0, returned, translated);
    UnionUsable(returned, translated);
  }

  lemma UnionAssoc(a: map<string, string>, b: map<string, string>, c: map<string, string>)
    ensures a + b + c == a + (b + c)
  {}

  /** Storing the next batch extends what is remembered, because no key occurs in two batches. */
  lemma BatchRemembered(memory: map<string, string>, items: seq<Item>, done: seq<Item>, batch: seq<Item>,
                        returned: map<string, string>, translated: map<string, string>)
    requires DistinctItemKeys(items) && done + batch <= items
    requires returned.Keys == ItemKeys(done) && translated.Keys == ItemKeys(batch)
    ensures ItemKeys(done + batch) == (returned + translated).Keys
    ensures Remember(Remember(memory, done, returned), batch, translated)
            == Remember(memory, done + batch, returned + translated)
  {
    var all := returned + translated;
    KeysSplit(done + batch, |done|);
    assert (done + batch)[..|done|] == done && (done + batch)[|done|..] == batch;
    RememberConcat(memory, done, batch, all);
    forall k | k in ItemKeys(done)
      ensures returned[k] == all[k]
    {
      BatchesApart(items, done, batch, k);
    }
    RememberAgrees(memory, done, returned, all);
    RememberAgrees(Remember(memory, done, returned), batch, translated, all);
  }

  lemma BatchesApart(items: seq<Item>, done: seq<Item>, batch: seq<Item>, k: string)
    requires DistinctItemKeys(items) && done + batch <= items && k in ItemKeys(done)
    ensures k !in ItemKeys(batch)
  {
    var i :| 0 <= i < |done| && done[i].key == k;
    forall j | 0 <= j < |batch|
      ensures batch[j].key != k
    {
      assert items[i] == (done + batch)[i] && items[|done| + j] == (done + batch)[|done| + j];
    }
  }

  function FillText(run: Inputs, item: Item): string {
    if item.key in run.existing && !run.force then run.existing[item.key] else item.text
  }

  predicate FillIsFallback(run: Inputs, item: Item) {
    item.key in run.existing && !run.force ==> item.key in run.previousFallback
  }

  /** The last loop gives every still open key the existing text or the English one. */
  ghost predicate Filled(run: Inputs, items: seq<Item>, next0: map<string, string>, fallback0: set<string>,
                         next: map<string, string>, fallback: set<string>) {
    && next.Keys == next0.Keys + ItemKeys(items)
    && (forall k | k in next0 :: next[k] == next0[k] && (k in fallback <==> k in fallback0))
    && fallback <= fallback0 + ItemKeys(items)
    && forall i | 0 <= i < |items| && items[i].key !in next0 :: FilledAs(run, items[i], next, fallback)
  }

  predicate FilledAs(run: Inputs, item: Item, next: map<string, string>, fallback: set<string>) {
    item.key in next && next[item.key] == FillText(run, item) && (item.key in fallback <==> FillIsFallback(run, item))
  }

  lemma ItemKeysStep(items: seq<Item>, n: nat)
    requires n < |items|
    ensures ItemKeys(items[..n + 1]) == ItemKeys(items[..n]) + {items[n].key}
    ensures DistinctItemKeys(items) ==> items[n].key !in ItemKeys(items[..n])
  {
    KeysSplit(items[..n + 1], n);
    assert items[..n + 1][..n] == items[..n];
  }

  lemma FilledStep(run: Inputs, items: seq<Item>, n: nat, next0: map<string, string>, fallback0: set<string>,
                   next: map<string, string>, fallback: set<string>)
    requires DistinctItemKeys(items) && n < |items| && fallback0 <= next0.Keys
    requires Filled(run, items[..n], next0, fallback0, next, fallback)
    ensures items[n].key in next <==> items[n].key in next0
    ensures Filled(run, items[..n + 1], next0, fallback0,
                   if items[n].key in next then next else next[items[n].key := FillText(run, items[n])],
                   if items[n].key !in next && FillIsFallback(run, items[n]) then fallback + {items[n].key} else fallback)
  {
    var item := items[n];
    var before := items[..n];
    var after := items[..n + 1];
    ItemKeysStep(items, n);
    var next' := if item.key in next then next else next[item.key := FillText(run, item)];
    var fallback' := if item.key !in next && FillIsFallback(run, item) then fallback + {item.key} else fallback;
    forall j | 0 <= j < |after| && after[j].key !in next0
      ensures FilledAs(run, after[j], next', fallback')
    {
      if j < n {
        assert after[j] == before[j] && before[j].key in ItemKeys(before);
        assert FilledAs(run, before[j], next, fallback);
      }
    }
  }

  method FillRest(run: Inputs, items: seq<Item>, next0: map<string, string>, fallback0: set<string>)
    returns (next: map<string, string>, fallback: set<string>)
    requires DistinctItemKeys(items) && fallback0 <= next0.Keys
    ensures Filled(run, items, next0, fallback0, next, fallback)
  {
    next, fallback := next0, fallback0;
    for n := 0 to |items|
      invariant Filled(run, items[..n], next0, fallback0, next, fallback)
    {
      var item := items[n];
      FilledStep(run, items, n, next0, fallback0, next, fallback);
      if item.key in next {
        continue;
      }
      if item.key in run.existing && !run.force {
        next := next[item.key := run.existing[item.key]];
        if item.key in run.previousFallback {
          fallback := fallback + {item.key};
        }
        continue;
      }
      next := next[item.key := item.text];
      fallback := fallback + {item.key};
    }
    assert items[..|items|] == items;
  }

  lemma AllKeysSettled(run: Inputs, next: map<string, string>, fallback: set<string>, k: string)
    requires DistinctKeys(run.source) && Classified(run, run.source, next, fallback)
    ensures k in KeysOf(run.source) <==> k in next || k in ItemKeys(PendingItems(run, run.source))
  {
    PendingKeysDistinct(run, run.source);
    if i :| 0 <= i < |run.source| && run.source[i].key == k {
      PendingKeyIff(run, i);
    }
  }

  /** The three loops together settle every source key as specified. */
  lemma SettledAt(run: Inputs, returned: map<string, string>, next1: map<string, string>, fallback1: set<string>,
                  next: map<string, string>, fallback: set<string>, i: nat)
    requires DistinctKeys(run.source) && Returned(run, returned) && i < |run.source|
    requires Classified(run, run.source, next1, fallback1)
    requires Filled(run, PendingItems(run, run.source), next1 + returned, fallback1, next, fallback)
    ensures run.source[i].key in next && next[run.source[i].key] == FinalText(run, returned, run.source[i])
    ensures run.source[i].key in fallback <==> IsFallback(run, returned, run.source[i])
  {
    var p := run.source[i];
    var items := PendingItems(run, run.source);
    if Reuses(run, p).MustTranslate? {
      PendingIff(run, run.source, ItemOf(run, p));
      var k :| 0 <= k < |items| && items[k] == ItemOf(run, p);
      assert items[k].key == p.key && items[k].text == p.value;
      assert ClassifiedAs(run, p, next1, fallback1);
      assert p.key in returned || FilledAs(run, items[k], next, fallback);
    } else {
      PendingKeyIff(run, i);
      assert ClassifiedAs(run, p, next1, fallback1);
      assert p.key in next1 && p.key !in returned;
    }
  }

  lemma RunIsSynced(run: Inputs, returned: map<string, string>, next1: map<string, string>, fallback1: set<string>,
                    o: LocaleFiles)
    requires DistinctKeys(run.source) && Returned(run, returned)
    requires Classified(run, run.source, next1, fallback1)
    requires Filled(run, PendingItems(run, run.source), next1 + returned, fallback1, o.next, o.fallback)
    requires o.memory == if run.allowTranslate
                         then Remember(run.memory, PendingItems(run, run.source), returned) else run.memory
    ensures Synced(run, returned, o)
  {
    forall k
      ensures k in o.next <==> k in KeysOf(run.source)
      ensures k in o.fallback ==> k in KeysOf(run.source)
    {
      AllKeysSettled(run, next1, fallback1, k);
    }
    forall i | 0 <= i < |run.source|
      ensures o.next[run.source[i].key] == FinalText(run, returned, run.source[i])
      ensures run.source[i].key in o.fallback <==> IsFallback(run, returned, run.source[i])
    {
      SettledAt(run, returned, next1, fallback1, o.next, o.fallback, i);
    }
  }

  /** The whole run. With a provider it succeeds exactly when every batch does, and then each stored
      translation is what a prompt of this run returned for that key; without one it always succeeds.
      `batches` is the one greedy split of the pending items. */
  method SyncLocale(client: Translator, run: Inputs, budget: real)
    returns (ok: bool, o: LocaleFiles, ghost returned: map<string, string>, ghost batches: seq<seq<Item>>)
    requires DistinctKeys(run.source)
    modifies client
    ensures if run.allowTranslate then IsSplit(PendingItems(run, run.source), batches, budget) && Full(batches, budget)
            else batches == []
    ensures TranslatedAll(client.replies, old(client.prompts), batches)
            == Outcome(if ok then Done(returned) else Failed, client.prompts)
    ensures ok ==> Synced(run, returned, o)
    ensures ok ==> Complete(client.replies, old(client.prompts), client.prompts, Concat(batches), returned)
  {
    var next, pending, fallback := Classify(run);
    PendingKeysDistinct(run, run.source);
    var settled, memory := next, run.memory;
    ok, returned, batches := true, map[], [];
    if run.allowTranslate && |pending| > 0 {
      ok, settled, memory, returned, batches := TranslatePending(client, pending, budget, next, run.memory);
      if !ok {
        return false, LocaleFiles(next, fallback, run.memory), returned, batches;
      }
    }
    AllBatchesComplete(client.replies, old(client.prompts), batches);
    assert settled == next + returned;
    var all, fallbackKeys := FillRest(run, pending, settled, fallback);
    o := LocaleFiles(all, fallbackKeys, memory);
    RunIsSynced(run, returned, next, fallback, o);
  }
}
