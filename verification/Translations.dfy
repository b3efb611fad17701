/** Flattening a translation tree to dotted keys and rebuilding it. An object is the list of its
    entries in insertion order; a JavaScript `Map` is the list of its pairs in insertion order. */
module Translations {
  import opened JsText

  datatype Tree = Text(text: string) | Branch(entries: Entries)

  datatype Entries = End | Entry(key: string, value: Tree, rest: Entries)

  datatype Pair = Pair(key: string, value: string)

  function Keys(e: Entries): set<string> {
    if e.End? then {} else {e.key} + Keys(e.rest)
  }

  /** What every JavaScript object satisfies at every level: no key occurs twice. */
  ghost predicate IsObject(e: Entries) {
    e.Entry? ==>
      e.key !in Keys(e.rest) && IsObject(e.rest) && (e.value.Branch? ==> IsObject(e.value.entries))
  }

  // ---- flattenTranslations ----

  function FullKey(prefix: string, key: string): string {
    if prefix != "" then prefix + "." + key else key
  }

  /** Setting a key of the map: an existing key keeps its place. */
  function MapSet(out: seq<Pair>, key: string, value: string): seq<Pair> {
    if out == [] then [Pair(key, value)]
    else if out[0].key == key then [Pair(key, value)] + out[1..]
    else [out[0]] + MapSet(out[1..], key, value)
  }

  function FlattenInto(e: Entries, prefix: string, out: seq<Pair>): seq<Pair> {
    match e
    case End => out
    case Entry(key, Text(text), rest) =>
      FlattenInto(rest, prefix, MapSet(out, FullKey(prefix, key), text))
    case Entry(key, Branch(sub), rest) =>
      FlattenInto(rest, prefix, FlattenInto(sub, FullKey(prefix, key), out))
  }

  function Flatten(e: Entries): seq<Pair> {
    FlattenInto(e, "", [])
  }

  // ---- setNestedValue ----

  function Split(s: string): seq<string> {
    SplitOn(s, '.')
  }

  /** Setting a field of an object: an existing field keeps its place. */
  function Put(e: Entries, key: string, value: Tree): Entries {
    match e
    case End => Entry(key, value, End)
    case Entry(k, v, rest) => if k == key then Entry(k, value, rest) else Entry(k, v, Put(rest, key, value))
  }

  /** The object found under `key`; a missing value or a string counts as an empty object. */
  function Child(e: Entries, key: string): Entries {
    match e
    case End => End
    case Entry(k, v, rest) => if k != key then Child(rest, key) else if v.Branch? then v.entries else End
  }

  /** The name is answered by a value that is not the object's own: a write below it misses the object,
      and so does a text assigned to `__proto__`. */
  predicate Escapes(e: Entries, key: string, last: bool) {
    key !in Keys(e) && if last then key == PROTO else IsInherited(key)
  }

  function SetPath(e: Entries, parts: seq<string>, value: string): Entries
    requires parts != []
    decreases |parts|
  {
    if Escapes(e, parts[0], |parts| == 1) then e
    else if |parts| == 1 then Put(e, parts[0], Text(value))
    else Put(e, parts[0], Branch(SetPath(Child(e, parts[0]), parts[1..], value)))
  }

  /** The loop that sets every pair in order. */
  function Rebuild(root: Entries, flat: seq<Pair>): Entries
    decreases |flat|
  {
    if flat == [] then root
    else Rebuild(SetPath(root, Split(flat[0].key), flat[0].value), flat[1..])
  }

  // ---- Trees that survive the round trip ----

  predicate DotFree(s: string) {
    Without(s, '.')
  }

  predicate DotFreeKeys(e: Entries) {
    e.Entry? ==> DotFree(e.key) && DotFreeKeys(e.rest) && (e.value.Branch? ==> DotFreeKeys(e.value.entries))
  }

  /** No empty object below the root, no object under an inherited name, and no field `__proto__`. */
  predicate Solid(e: Entries) {
    e.Entry? ==>
      && e.key != PROTO
      && Solid(e.rest)
      && (e.value.Branch? ==> !IsInherited(e.key) && e.value.entries.Entry? && Solid(e.value.entries))
  }

  predicate HasObjectUnderEmptyKey(e: Entries) {
    e.Entry? && ((e.key == "" && e.value.Branch?) || HasObjectUnderEmptyKey(e.rest))
  }

  /** The dotted keys tell the paths of the leaves. */
  predicate Flattens(e: Entries) {
    DotFreeKeys(e) && !HasObjectUnderEmptyKey(e)
  }

  predicate RoundTrips(e: Entries) {
    Flattens(e) && Solid(e)
  }

  // ---- Paths instead of dotted keys ----

  datatype Leaf = Leaf(path: seq<string>, value: string)

  function Leaves(e: Entries, path: seq<string>): seq<Leaf> {
    match e
    case End => []
    case Entry(key, Text(text), rest) => [Leaf(path + [key], text)] + Leaves(rest, path)
    case Entry(key, Branch(sub), rest) => Leaves(sub, path + [key]) + Leaves(rest, path)
  }

  function Pairs(e: Entries, prefix: string): seq<Pair> {
    match e
    case End => []
    case Entry(key, Text(text), rest) => [Pair(FullKey(prefix, key), text)] + Pairs(rest, prefix)
    case Entry(key, Branch(sub), rest) => Pairs(sub, FullKey(prefix, key)) + Pairs(rest, prefix)
  }

  predicate PathOf(prefix: string, path: seq<string>) {
    if prefix == "" then path == [] else path == Split(prefix)
  }

  lemma FullKeySplit(prefix: string, path: seq<string>, key: string)
    requires PathOf(prefix, path) && DotFree(key)
    ensures Split(FullKey(prefix, key)) == path + [key]
    ensures prefix != "" || key != "" ==> PathOf(FullKey(prefix, key), path + [key])
  {
    if prefix == "" {
      SplitOnWithout(key, '.');
    } else {
      SplitOnJoined(prefix, key, '.');
      SplitOnWithout(key, '.');
    }
  }

  predicate StartsWith(parts: seq<string>, path: seq<string>) {
    |parts| > |path| && parts[..|path|] == path
  }

  /** The conditions under which dotted keys and paths carry the same information. */
  ghost predicate Regular(e: Entries, prefix: string, path: seq<string>) {
    && IsObject(e) && DotFreeKeys(e)
    && PathOf(prefix, path)
    && (prefix == "" ==> !HasObjectUnderEmptyKey(e))
  }

  lemma RegularParts(e: Entries, prefix: string, path: seq<string>)
    requires Regular(e, prefix, path) && e.Entry?
    ensures Regular(e.rest, prefix, path)
    ensures Split(FullKey(prefix, e.key)) == path + [e.key]
    ensures e.value.Branch? ==> Regular(e.value.entries, FullKey(prefix, e.key), path + [e.key])
  {
    FullKeySplit(prefix, path, e.key);
  }

  lemma {:induction false} PairUnderPath(e: Entries, prefix: string, path: seq<string>, p: Pair)
    requires Regular(e, prefix, path) && p in Pairs(e, prefix)
    ensures StartsWith(Split(p.key), path) && Split(p.key)[|path|] in Keys(e)
    decreases e
  {
    RegularParts(e, prefix, path);
    if p in Pairs(e.rest, prefix) {
      PairUnderPath(e.rest, prefix, path, p);
    } else if e.value.Branch? {
      PairUnderPath(e.value.entries, FullKey(prefix, e.key), path + [e.key], p);
      StartsWithLonger(Split(p.key), path, e.key);
    }
  }

  lemma StartsWithLonger(parts: seq<string>, path: seq<string>, key: string)
    requires StartsWith(parts, path + [key])
    ensures StartsWith(parts, path) && parts[|path|] == key
  {
    assert parts[..|path + [key]|][..|path|] == parts[..|path|];
    assert parts[..|path + [key]|][|path|] == key;
  }

  predicate LiesUnder(p: Pair, path: seq<string>, ks: set<string>) {
    StartsWith(Split(p.key), path) && Split(p.key)[|path|] in ks
  }

  /** No key of `out` lies at `path` under one of the names `ks`. */
  ghost predicate Unused(out: seq<Pair>, path: seq<string>, ks: set<string>) {
    forall p | p in out :: !LiesUnder(p, path, ks)
  }

  lemma {:induction false} MapSetAppends(out: seq<Pair>, key: string, value: string)
    requires forall p | p in out :: p.key != key
    ensures MapSet(out, key, value) == out + [Pair(key, value)]
  {
    if out != [] {
      MapSetAppends(out[1..], key, value);
    }
  }

  lemma UnusedBelow(out: seq<Pair>, path: seq<string>, key: string, ks: set<string>, below: set<string>)
    requires Unused(out, path, ks) && key in ks
    ensures Unused(out, path + [key], below)
  {
    forall p | p in out
      ensures !LiesUnder(p, path + [key], below)
    {
      assert !LiesUnder(p, path, ks);
      if StartsWith(Split(p.key), path + [key]) {
        StartsWithLonger(Split(p.key), path, key);
      }
    }
  }

  lemma UnusedAfter(e: Entries, prefix: string, path: seq<string>, out: seq<Pair>)
    requires Regular(e, prefix, path) && e.Entry? && Unused(out, path, Keys(e))
    ensures e.value.Text? ==> Unused(out + [Pair(FullKey(prefix, e.key), e.value.text)], path, Keys(e.rest))
    ensures e.value.Branch? ==>
              Unused(out + Pairs(e.value.entries, FullKey(prefix, e.key)), path, Keys(e.rest))
  {
    RegularParts(e, prefix, path);
    forall p | p in out
      ensures !LiesUnder(p, path, Keys(e.rest))
    {
      assert !LiesUnder(p, path, Keys(e));
    }
    if e.value.Branch? {
      forall p | p in Pairs(e.value.entries, FullKey(prefix, e.key))
        ensures !LiesUnder(p, path, Keys(e.rest))
      {
        PairUnderPath(e.value.entries, FullKey(prefix, e.key), path + [e.key], p);
        StartsWithLonger(Split(p.key), path, e.key);
      }
    }
  }

  lemma ConcatAssoc(a: seq<Pair>, b: seq<Pair>, c: seq<Pair>)
    ensures a + b + c == a + (b + c)
  {}

  lemma NewKeyIsFresh(out: seq<Pair>, path: seq<string>, ks: set<string>, key: string, name: string)
    requires Unused(out, path, ks) && name in ks && Split(key) == path + [name]
    ensures forall p | p in out :: p.key != key
  {
    forall p | p in out
      ensures p.key != key
    {
      assert !LiesUnder(p, path, ks);
    }
  }

  /** Flattening never overwrites: it appends one pair per leaf. */
  lemma {:induction false} FlattenAppends(e: Entries, prefix: string, path: seq<string>, out: seq<Pair>)
    requires Regular(e, prefix, path) && Unused(out, path, Keys(e))
    ensures FlattenInto(e, prefix, out) == out + Pairs(e, prefix)
    decreases e
  {
    if e.End? {
      assert out + [] == out;
    } else {
      RegularParts(e, prefix, path);
      UnusedAfter(e, prefix, path, out);
      var key := FullKey(prefix, e.key);
      if e.value.Text? {
        NewKeyIsFresh(out, path, Keys(e), key, e.key);
        MapSetAppends(out, key, e.value.text);
        FlattenAppends(e.rest, prefix, path, out + [Pair(key, e.value.text)]);
        ConcatAssoc(out, [Pair(key, e.value.text)], Pairs(e.rest, prefix));
      } else {
        UnusedBelow(out, path, e.key, Keys(e), Keys(e.value.entries));
        FlattenAppends(e.value.entries, key, path + [e.key], out);
        FlattenAppends(e.rest, prefix, path, out + Pairs(e.value.entries, key));
        ConcatAssoc(out, Pairs(e.value.entries, key), Pairs(e.rest, prefix));
      }
    }
  }

  /** The dotted keys split back into the paths of the leaves. */
  ghost predicate SameLeaves(pairs: seq<Pair>, leaves: seq<Leaf>) {
    && |pairs| == |leaves|
    && forall i | 0 <= i < |pairs| :: Split(pairs[i].key) == leaves[i].path && pairs[i].value == leaves[i].value
  }

  lemma {:induction false} PairsAreLeaves(e: Entries, prefix: string, path: seq<string>)
    requires Regular(e, prefix, path)
    ensures SameLeaves(Pairs(e, prefix), Leaves(e, path))
    decreases e
  {
    if e.Entry? {
      RegularParts(e, prefix, path);
      PairsAreLeaves(e.rest, prefix, path);
      var key := FullKey(prefix, e.key);
      if e.value.Branch? {
        PairsAreLeaves(e.value.entries, key, path + [e.key]);
        SameLeavesConcat(Pairs(e.value.entries, key), Leaves(e.value.entries, path + [e.key]),
                         Pairs(e.rest, prefix), Leaves(e.rest, path));
      } else {
        SameLeavesConcat([Pair(key, e.value.text)], [Leaf(path + [e.key], e.value.text)],
                         Pairs(e.rest, prefix), Leaves(e.rest, path));
      }
    }
  }

  lemma SameLeavesConcat(a: seq<Pair>, la: seq<Leaf>, b: seq<Pair>, lb: seq<Leaf>)
    requires SameLeaves(a, la) && SameLeaves(b, lb)
    ensures SameLeaves(a + b, la + lb)
  {}

  // ---- Rebuilding from paths ----

  predicate Addressed(leaves: seq<Leaf>) {
    forall i | 0 <= i < |leaves| :: leaves[i].path != []
  }

  function Grow(root: Entries, leaves: seq<Leaf>): Entries
    requires Addressed(leaves)
    decreases |leaves|
  {
    if leaves == [] then root else Grow(SetPath(root, leaves[0].path, leaves[0].value), leaves[1..])
  }

  lemma {:induction false} RebuildIsGrow(root: Entries, pairs: seq<Pair>, leaves: seq<Leaf>)
    requires SameLeaves(pairs, leaves)
    ensures Addressed(leaves) && Rebuild(root, pairs) == Grow(root, leaves)
    decreases |pairs|
  {
    assert forall i | 0 <= i < |leaves| :: leaves[i].path == Split(pairs[i].key);
    if pairs != [] {
      RebuildIsGrow(SetPath(root, leaves[0].path, leaves[0].value), pairs[1..], leaves[1..]);
    }
  }

  lemma {:induction false} GrowConcat(root: Entries, a: seq<Leaf>, b: seq<Leaf>)
    requires Addressed(a) && Addressed(b)
    ensures Addressed(a + b) && Grow(root, a + b) == Grow(Grow(root, a), b)
    decreases |a|
  {
    if a == [] {
      assert a + b == b;
    } else {
      GrowConcat(SetPath(root, a[0].path, a[0].value), a[1..], b);
      assert (a + b)[1..] == a[1..] + b;
    }
  }

  function Append(d: Entries, e: Entries): Entries {
    if d.End? then e else Entry(d.key, d.value, Append(d.rest, e))
  }

  function Under(key: string, leaves: seq<Leaf>): seq<Leaf> {
    seq(|leaves|, i requires 0 <= i < |leaves| => Leaf([key] + leaves[i].path, leaves[i].value))
  }

  lemma {:induction false} PutNew(d: Entries, key: string, value: Tree)
    requires key !in Keys(d)
    ensures Put(d, key, value) == Append(d, Entry(key, value, End)) && Child(d, key) == End
  {
    if d.Entry? {
      PutNew(d.rest, key, value);
    }
  }

  lemma {:induction false} PutLast(d: Entries, key: string, cur: Tree, value: Tree)
    requires key !in Keys(d)
    ensures Put(Append(d, Entry(key, cur, End)), key, value) == Append(d, Entry(key, value, End))
    ensures Child(Append(d, Entry(key, cur, End)), key) == if cur.Branch? then cur.entries else End
    ensures key in Keys(Append(d, Entry(key, cur, End)))
  {
    if d.Entry? {
      PutLast(d.rest, key, cur, value);
    }
  }

  /** Setting leaves under one new key builds that key's object and nothing else. */
  lemma {:induction false} GrowUnder(d: Entries, key: string, cur: Entries, leaves: seq<Leaf>)
    requires key !in Keys(d) && Addressed(leaves)
    ensures Addressed(Under(key, leaves))
    ensures Grow(Append(d, Entry(key, Branch(cur), End)), Under(key, leaves))
            == Append(d, Entry(key, Branch(Grow(cur, leaves)), End))
    decreases |leaves|
  {
    if leaves != [] {
      var next := SetPath(cur, leaves[0].path, leaves[0].value);
      PutLast(d, key, Branch(cur), Branch(next));
      assert ([key] + leaves[0].path)[1..] == leaves[0].path;
      assert Under(key, leaves)[1..] == Under(key, leaves[1..]);
      GrowUnder(d, key, next, leaves[1..]);
    }
  }

  lemma GrowNewKey(d: Entries, key: string, leaves: seq<Leaf>)
    requires key !in Keys(d) && !IsInherited(key) && Addressed(leaves) && leaves != []
    ensures Addressed(Under(key, leaves))
    ensures Grow(d, Under(key, leaves)) == Append(d, Entry(key, Branch(Grow(End, leaves)), End))
  {
    var first := SetPath(End, leaves[0].path, leaves[0].value);
    PutNew(d, key, Branch(first));
    assert ([key] + leaves[0].path)[1..] == leaves[0].path;
    assert Under(key, leaves)[1..] == Under(key, leaves[1..]);
    GrowUnder(d, key, first, leaves[1..]);
  }

  /** Leaves below an inherited name miss the object. */
  lemma {:induction false} GrowEscapes(d: Entries, key: string, leaves: seq<Leaf>)
    requires key !in Keys(d) && IsInherited(key) && Addressed(leaves)
    ensures Addressed(Under(key, leaves)) && Grow(d, Under(key, leaves)) == d
    decreases |leaves|
  {
    if leaves != [] {
      assert Under(key, leaves)[0] == Leaf([key] + leaves[0].path, leaves[0].value);
      assert Under(key, leaves)[1..] == Under(key, leaves[1..]);
      GrowEscapes(d, key, leaves[1..]);
    }
  }

  lemma {:induction false} LeavesUnder(e: Entries, key: string, path: seq<string>)
    ensures Leaves(e, [key] + path) == Under(key, Leaves(e, path))
    decreases e
  {
    if e.Entry? {
      LeavesUnder(e.rest, key, path);
      assert [key] + path + [e.key] == [key] + (path + [e.key]);
      if e.value.Branch? {
        LeavesUnder(e.value.entries, key, path + [e.key]);
      }
    }
  }

  lemma {:induction false} LeavesAddressed(e: Entries, path: seq<string>)
    ensures Addressed(Leaves(e, path))
    decreases e
  {
    if e.Entry? {
      LeavesAddressed(e.rest, path);
      if e.value.Branch? {
        LeavesAddressed(e.value.entries, path + [e.key]);
      }
    }
  }

  /** What rebuilding keeps of a tree: not a text under `__proto__`, not an object under an inherited
      name, and not an object without leaves. */
  function Pruned(e: Entries): Entries {
    match e
    case End => End
    case Entry(key, Text(text), rest) => if key == PROTO then Pruned(rest) else Entry(key, Text(text), Pruned(rest))
    case Entry(key, Branch(sub), rest) =>
      if IsInherited(key) || Leaves(sub, []) == [] then Pruned(rest)
      else Entry(key, Branch(Pruned(sub)), Pruned(rest))
  }

  lemma {:induction false} PrunedKeys(e: Entries)
    ensures Keys(Pruned(e)) <= Keys(e)
  {
    if e.Entry? {
      PrunedKeys(e.rest);
    }
  }

  function Size(e: Entries): nat {
    match e
    case End => 0
    case Entry(_, Text(_), rest) => 1 + Size(rest)
    case Entry(_, Branch(sub), rest) => 1 + Size(sub) + Size(rest)
  }

  /** Pruning leaves a tree alone exactly when there is nothing to prune. */
  lemma {:induction false} PrunedIff(e: Entries)
    ensures Size(Pruned(e)) <= Size(e)
    ensures Solid(e) && e.Entry? ==> Leaves(e, []) != []
    ensures Pruned(e) == e <==> Solid(e)
    decreases e
  {
    if e.Entry? {
      PrunedIff(e.rest);
      if e.value.Branch? {
        PrunedIff(e.value.entries);
        LeavesUnder(e.value.entries, e.key, []);
        assert [] + [e.key] == [e.key] + [];
      }
    }
  }

  lemma {:induction false} AppendAssoc(a: Entries, b: Entries, c: Entries)
    ensures Append(Append(a, b), c) == Append(a, Append(b, c))
    ensures Keys(Append(a, b)) == Keys(a) + Keys(b)
    ensures Append(a, End) == a
  {
    if a.Entry? {
      AppendAssoc(a.rest, b, c);
    }
  }

  /** Setting all leaves of `e` after `d` appends what is kept of `e` to `d`. */
  lemma {:induction false} GrowAppends(d: Entries, e: Entries)
    requires IsObject(e) && Keys(d) !! Keys(e)
    ensures Addressed(Leaves(e, [])) && Grow(d, Leaves(e, [])) == Append(d, Pruned(e))
    decreases e
  {
    LeavesAddressed(e, []);
    if e.End? {
      AppendAssoc(d, End, End);
    } else {
      var one := Entry(e.key, e.value, End);
      AppendAssoc(d, Pruned(one), Pruned(e.rest));
      PrunedKeys(one);
      LeavesAddressed(e.rest, []);
      GrowFirst(d, e);
      GrowAppends(Append(d, Pruned(one)), e.rest);
      PrunedFirst(e);
      var first := Leaves(one, []);
      assert Leaves(e, []) == first + Leaves(e.rest, []);
      LeavesAddressed(one, []);
      GrowConcat(d, first, Leaves(e.rest, []));
    }
  }

  lemma PrunedFirst(e: Entries)
    requires e.Entry?
    ensures Pruned(e) == Append(Pruned(Entry(e.key, e.value, End)), Pruned(e.rest))
  {}

  lemma GrowFirst(d: Entries, e: Entries)
    requires e.Entry? && IsObject(e) && e.key !in Keys(d)
    ensures var one := Entry(e.key, e.value, End);
            Addressed(Leaves(one, [])) && Grow(d, Leaves(one, [])) == Append(d, Pruned(one))
    decreases e, 0
  {
    var one := Entry(e.key, e.value, End);
    AppendAssoc(d, End, End);
    if e.value.Text? {
      PutNew(d, e.key, e.value);
      assert [] + [e.key] == [e.key];
      assert Leaves(one, []) == [Leaf([e.key], e.value.text)];
    } else {
      var sub := e.value.entries;
      LeavesAddressed(sub, []);
      LeavesUnder(sub, e.key, []);
      assert [] + [e.key] == [e.key] + [];
      assert Leaves(one, []) == Under(e.key, Leaves(sub, []));
      if IsInherited(e.key) {
        GrowEscapes(d, e.key, Leaves(sub, []));
      } else if Leaves(sub, []) != [] {
        GrowAppends(End, sub);
        GrowNewKey(d, e.key, Leaves(sub, []));
      }
    }
  }

  lemma FlattenIsPairs(e: Entries)
    requires IsObject(e) && Flattens(e)
    ensures Flatten(e) == Pairs(e, "")
  {
    FlattenAppends(e, "", [], []);
  }

  /** What comes back of a tree whose dotted keys tell its paths. */
  lemma RebuildPrunes(e: Entries)
    requires IsObject(e) && Flattens(e)
    ensures Rebuild(End, Flatten(e)) == Pruned(e)
  {
    FlattenIsPairs(e);
    PairsAreLeaves(e, "", []);
    RebuildIsGrow(End, Pairs(e, ""), Leaves(e, []));
    GrowAppends(End, e);
  }

  lemma RoundTrip(e: Entries)
    requires IsObject(e) && RoundTrips(e)
    ensures Rebuild(End, Flatten(e)) == e
  {
    RebuildPrunes(e);
    PrunedIff(e);
  }

  // ---- Exactly which trees survive ----

  lemma {:induction false} DotFreePut(e: Entries, key: string, value: Tree)
    requires DotFreeKeys(e) && DotFree(key) && (value.Branch? ==> DotFreeKeys(value.entries))
    ensures DotFreeKeys(Put(e, key, value))
  {
    if e.Entry? && e.key != key {
      DotFreePut(e.rest, key, value);
    }
  }

  lemma {:induction false} DotFreeChild(e: Entries, key: string)
    requires DotFreeKeys(e)
    ensures DotFreeKeys(Child(e, key))
  {
    if e.Entry? && e.key != key {
      DotFreeChild(e.rest, key);
    }
  }

  lemma {:induction false} DotFreeSetPath(e: Entries, parts: seq<string>, value: string)
    requires DotFreeKeys(e) && parts != [] && forall i | 0 <= i < |parts| :: DotFree(parts[i])
    ensures DotFreeKeys(SetPath(e, parts, value))
    decreases |parts|
  {
    if |parts| > 1 {
      DotFreeChild(e, parts[0]);
      DotFreeSetPath(Child(e, parts[0]), parts[1..], value);
      DotFreePut(e, parts[0], Branch(SetPath(Child(e, parts[0]), parts[1..], value)));
    } else {
      DotFreePut(e, parts[0], Text(value));
    }
  }

  lemma SplitParts(s: string)
    ensures forall i | 0 <= i < |Split(s)| :: DotFree(Split(s)[i])
    ensures s != "" && s[0] != '.' ==> Split(s)[0] != ""
    ensures s == "" ==> Split(s) == [""]
  {
    SplitPartsWithout(s, '.');
  }

  /** Whatever was flattened, the keys of the rebuilt tree are dot-free. */
  lemma {:induction false} RebuildIsDotFree(root: Entries, flat: seq<Pair>)
    requires DotFreeKeys(root)
    ensures DotFreeKeys(Rebuild(root, flat))
    decreases |flat|
  {
    if flat != [] {
      SplitParts(flat[0].key);
      DotFreeSetPath(root, Split(flat[0].key), flat[0].value);
      RebuildIsDotFree(SetPath(root, Split(flat[0].key), flat[0].value), flat[1..]);
    }
  }

  /** No dotted key begins with a dot, so nothing is ever put below the empty top-level key. */
  predicate NoLeadingDot(flat: seq<Pair>) {
    forall i | 0 <= i < |flat| :: flat[i].key != "" ==> flat[i].key[0] != '.'
  }

  lemma {:induction false} MapSetNoLeadingDot(out: seq<Pair>, key: string, value: string)
    requires NoLeadingDot(out) && (key != "" ==> key[0] != '.')
    ensures NoLeadingDot(MapSet(out, key, value))
  {
    if out != [] && out[0].key != key {
      MapSetNoLeadingDot(out[1..], key, value);
    }
  }

  lemma {:induction false} FlattenNoLeadingDot(e: Entries, prefix: string, out: seq<Pair>)
    requires DotFreeKeys(e) && NoLeadingDot(out) && (prefix != "" ==> prefix[0] != '.')
    ensures NoLeadingDot(FlattenInto(e, prefix, out))
    decreases e
  {
    if e.Entry? {
      var key := FullKey(prefix, e.key);
      if e.value.Text? {
        MapSetNoLeadingDot(out, key, e.value.text);
        FlattenNoLeadingDot(e.rest, prefix, MapSet(out, key, e.value.text));
      } else {
        FlattenNoLeadingDot(e.value.entries, key, out);
        FlattenNoLeadingDot(e.rest, prefix, FlattenInto(e.value.entries, key, out));
      }
    }
  }

  lemma {:induction false} PutElsewhere(e: Entries, key: string, value: Tree)
    requires !HasObjectUnderEmptyKey(e) && (key == "" ==> value.Text?)
    ensures !HasObjectUnderEmptyKey(Put(e, key, value))
  {
    if e.Entry? && e.key != key {
      PutElsewhere(e.rest, key, value);
    }
  }

  lemma {:induction false} RebuildKeepsEmptyKeyFlat(root: Entries, flat: seq<Pair>)
    requires !HasObjectUnderEmptyKey(root) && NoLeadingDot(flat)
    ensures !HasObjectUnderEmptyKey(Rebuild(root, flat))
    decreases |flat|
  {
    if flat != [] {
      var parts := Split(flat[0].key);
      SplitParts(flat[0].key);
      var value := if |parts| == 1 then Text(flat[0].value)
                   else Branch(SetPath(Child(root, parts[0]), parts[1..], flat[0].value));
      PutElsewhere(root, parts[0], value);
      RebuildKeepsEmptyKeyFlat(SetPath(root, parts, flat[0].value), flat[1..]);
    }
  }

  /** Rebuilding a flattened tree gives the tree back exactly when its keys are dot-free, nothing
      below the root is an empty object, no object sits under an empty top-level key or under an
      inherited name, and no field is called `__proto__`. */
  lemma RoundTripIff(e: Entries)
    requires IsObject(e)
    ensures Rebuild(End, Flatten(e)) == e <==> RoundTrips(e)
  {
    if RoundTrips(e) {
      RoundTrip(e);
    }
    if Rebuild(End, Flatten(e)) == e {
      RebuildIsDotFree(End, Flatten(e));
      FlattenNoLeadingDot(e, "", []);
      RebuildKeepsEmptyKeyFlat(End, Flatten(e));
      RebuildPrunes(e);
      PrunedIff(e);
    }
  }

  /** A concrete tree that does not survive: its object sits under an empty key. */
  lemma EmptyKeyLosesItsObject()
    ensures var e := Entry("", Branch(Entry("a", Text("x"), End)), End);
            IsObject(e) && DotFreeKeys(e) && Solid(e) && Rebuild(End, Flatten(e)) == Entry("a", Text("x"), End)
  {
    var e := Entry("", Branch(Entry("a", Text("x"), End)), End);
    assert Flatten(e) == [Pair("a", "x")];
    SplitOnWithout("a", '.');
    assert Split("a") == ["a"];
  }

  lemma InheritedNamesFlatten(key: string)
    requires IsInherited(key)
    ensures DotFree(key) && key != ""
  {}

  /** Concrete trees that come back empty: `{toString: {a: "x"}}` or the like for any other inherited name,
      and a field `__proto__`. */
  lemma InheritedNameLosesItsObject(key: string, text: string)
    requires IsInherited(key)
    ensures var e := Entry(key, Branch(Entry("a", Text(text), End)), End);
            IsObject(e) && Flattens(e) && Rebuild(End, Flatten(e)) == End
    ensures var e := Entry(PROTO, Text(text), End);
            IsObject(e) && Flattens(e) && Rebuild(End, Flatten(e)) == End
  {
    InheritedNamesFlatten(key);
    RebuildPrunes(Entry(key, Branch(Entry("a", Text(text), End)), End));
    RebuildPrunes(Entry(PROTO, Text(text), End));
  }

  // ---- The same tree with other texts ----

  function Lookup(texts: map<string, string>, key: string, text: string): string {
    if key in texts then texts[key] else text
  }

  /** Every text replaced by the one recorded for its dotted key, where there is one. */
  function Relabelled(e: Entries, prefix: string, texts: map<string, string>): Entries {
    match e
    case End => End
    case Entry(key, Text(text), rest) =>
      Entry(key, Text(Lookup(texts, FullKey(prefix, key), text)), Relabelled(rest, prefix, texts))
    case Entry(key, Branch(sub), rest) =>
      Entry(key, Branch(Relabelled(sub, FullKey(prefix, key), texts)), Relabelled(rest, prefix, texts))
  }

  function RelabelledPairs(flat: seq<Pair>, texts: map<string, string>): (r: seq<Pair>)
    ensures |r| == |flat|
    ensures forall i | 0 <= i < |flat| :: r[i] == Pair(flat[i].key, Lookup(texts, flat[i].key, flat[i].value))
  {
    seq(|flat|, i requires 0 <= i < |flat| => Pair(flat[i].key, Lookup(texts, flat[i].key, flat[i].value)))
  }

  lemma {:induction false} RelabelKeepsShape(e: Entries, prefix: string, texts: map<string, string>)
    ensures var r := Relabelled(e, prefix, texts);
            && Keys(r) == Keys(e)
            && (IsObject(e) ==> IsObject(r))
            && DotFreeKeys(r) == DotFreeKeys(e)
            && Solid(r) == Solid(e)
            && HasObjectUnderEmptyKey(r) == HasObjectUnderEmptyKey(e)
            && r.Entry? == e.Entry?
    decreases e
  {
    if e.Entry? {
      RelabelKeepsShape(e.rest, prefix, texts);
      if e.value.Branch? {
        RelabelKeepsShape(e.value.entries, FullKey(prefix, e.key), texts);
      }
    }
  }

  lemma {:induction false} RelabelPairs(e: Entries, prefix: string, texts: map<string, string>)
    ensures Pairs(Relabelled(e, prefix, texts), prefix) == RelabelledPairs(Pairs(e, prefix), texts)
    decreases e
  {
    if e.Entry? {
      RelabelPairs(e.rest, prefix, texts);
      if e.value.Branch? {
        RelabelPairs(e.value.entries, FullKey(prefix, e.key), texts);
      }
    }
  }

  /** Rebuilding from the source's keys with other texts gives the source tree with those texts,
      and flattening that gives back exactly those pairs in the same order. */
  lemma RebuildRelabelled(e: Entries, texts: map<string, string>)
    requires IsObject(e) && RoundTrips(e)
    ensures Rebuild(End, RelabelledPairs(Flatten(e), texts)) == Relabelled(e, "", texts)
    ensures Flatten(Relabelled(e, "", texts)) == RelabelledPairs(Flatten(e), texts)
  {
    var r := Relabelled(e, "", texts);
    RelabelKeepsShape(e, "", texts);
    RelabelPairs(e, "", texts);
    FlattenIsPairs(e);
    FlattenIsPairs(r);
    RoundTrip(r);
  }

  // ---- The two functions as the code runs them ----

  class Flattener {
    var out: seq<Pair>

    constructor ()
      ensures out == []
    {
      out := [];
    }

    method FlattenTranslations(value: Entries, prefix: string)
      modifies this
      ensures out == FlattenInto(value, prefix, old(out))
      decreases value
    {
      var entries := value;
      while entries.Entry?
        invariant FlattenInto(entries, prefix, out) == FlattenInto(value, prefix, old(out))
        invariant entries == value || entries < value
        decreases entries
      {
        var fullKey := FullKey(prefix, entries.key);
        if entries.value.Text? {
          out := MapSet(out, fullKey, entries.value.text);
        } else {
          FlattenTranslations(entries.value.entries, fullKey);
        }
        entries := entries.rest;
      }
    }
  }

  /** A stretch of the cursor's way down: the object it left and the key it took. */
  datatype Step = Step(left: Entries, key: string)

  function Plug(way: seq<Step>, cursor: Entries): Entries {
    if way == [] then cursor
    else
      var last := way[|way| - 1];
      Plug(way[..|way| - 1], Put(last.left, last.key, Branch(cursor)))
  }

  class TranslationTree {
    var root: Entries

    constructor ()
      ensures root == End
    {
      root := End;
    }

    method SetNestedValue(dottedKey: string, value: string)
      modifies this
      ensures root == SetPath(old(root), Split(dottedKey), value)
    {
      var parts := Split(dottedKey);
      var cursor := root;
      var way := [];
      var index := 0;
      while index < |parts| - 1 && !Escapes(cursor, parts[index], false)
        invariant 0 <= index < |parts|
        invariant Plug(way, SetPath(cursor, parts[index..], value)) == SetPath(root, parts, value)
      {
        way := way + [Step(cursor, parts[index])];
        assert parts[index..][1..] == parts[index + 1..];
        cursor := Child(cursor, parts[index]);
        index := index + 1;
      }
      // From an inherited value on, what is written does not reach the tree.
      if !Escapes(cursor, parts[index], index == |parts| - 1) {
        assert parts[index..] == [parts[|parts| - 1]];
        cursor := Put(cursor, parts[|parts| - 1], Text(value));
      }
      // Each object on the way holds the next one by reference, so the write shows through.
      while way != []
        invariant Plug(way, cursor) == SetPath(root, parts, value)
        decreases |way|
      {
        var last := way[|way| - 1];
        cursor := Put(last.left, last.key, Branch(cursor));
        way := way[..|way| - 1];
      }
      root := cursor;
    }

    /** The loop that builds the next locale tree from the source's keys. */
    method SetAll(flat: seq<Pair>)
      modifies this
      ensures root == Rebuild(old(root), flat)
    {
      var i := 0;
      while i < |flat|
        invariant i <= |flat|
        invariant Rebuild(root, flat[i..]) == Rebuild(old(root), flat)
      {
        assert flat[i..][1..] == flat[i + 1..];
        SetNestedValue(flat[i].key, flat[i].value);
        i := i + 1;
      }
    }
  }
}
