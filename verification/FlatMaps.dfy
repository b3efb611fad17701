/** Flat maps of dotted keys, apart from the trees they came from: which of them survive being rebuilt
    into a tree and flattened again. A map is the list of its pairs, with distinct keys. */
module FlatMaps {
  import opened JsText
  import opened Translations
  import opened Wrappers

  function KeysOf(source: seq<Pair>): set<string> {
    set i | 0 <= i < |source| :: source[i].key
  }

  ghost predicate DistinctKeys(source: seq<Pair>) {
    forall i, j | 0 <= i < j < |source| :: source[i].key != source[j].key
  }

  function MapOf(flat: seq<Pair>): map<string, string> {
    if flat == [] then map[] else MapOf(flat[..|flat| - 1])[flat[|flat| - 1].key := flat[|flat| - 1].value]
  }

  lemma {:induction false} MapSetDistinct(out: seq<Pair>, key: string, value: string)
    requires DistinctKeys(out)
    ensures DistinctKeys(MapSet(out, key, value))
    ensures forall k | k in KeysOf(MapSet(out, key, value)) :: k == key || k in KeysOf(out)
  {
    if out != [] && out[0].key != key {
      var tail := out[1..];
      MapSetDistinct(tail, key, value);
      var r := MapSet(tail, key, value);
      forall j | 0 <= j < |r|
        ensures r[j].key != out[0].key && (r[j].key == key || r[j].key in KeysOf(out))
      {
        assert r[j].key in KeysOf(r);
        if i :| 0 <= i < |tail| && tail[i].key == r[j].key {
          assert out[i + 1].key == r[j].key;
        }
      }
      assert out[0].key in KeysOf(out);
    } else if out != [] {
      forall i | 0 <= i < |out|
        ensures out[i].key in KeysOf(out)
      {}
    }
  }

  /** Flattening yields every dotted key once, for every object. */
  lemma {:induction false} FlattenDistinct(e: Entries, prefix: string, out: seq<Pair>)
    requires DistinctKeys(out)
    ensures DistinctKeys(FlattenInto(e, prefix, out))
    decreases e
  {
    if e.Entry? {
      if e.value.Text? {
        MapSetDistinct(out, FullKey(prefix, e.key), e.value.text);
        FlattenDistinct(e.rest, prefix, MapSet(out, FullKey(prefix, e.key), e.value.text));
      } else {
        FlattenDistinct(e.value.entries, FullKey(prefix, e.key), out);
        FlattenDistinct(e.rest, prefix, FlattenInto(e.value.entries, FullKey(prefix, e.key), out));
      }
    }
  }

  /** The pairs of a map are its content. */
  lemma {:induction false} MapOfHolds(flat: seq<Pair>, key: string, value: string)
    requires DistinctKeys(flat)
    ensures key in MapOf(flat) <==> key in KeysOf(flat)
    ensures key in MapOf(flat) && MapOf(flat)[key] == value <==> Pair(key, value) in flat
    decreases |flat|
  {
    if flat != [] {
      var n := |flat| - 1;
      var before := flat[..n];
      MapOfHolds(before, key, value);
      assert flat == before + [flat[n]];
      assert KeysOf(flat) == KeysOf(before) + {flat[n].key} by {
        KeysOfLast(flat);
      }
      assert flat[n].key !in KeysOf(before);
      assert flat[n].key == key ==> Pair(key, value) !in before;
    }
  }

  lemma KeysOfLast(flat: seq<Pair>)
    requires flat != []
    ensures KeysOf(flat) == KeysOf(flat[..|flat| - 1]) + {flat[|flat| - 1].key}
  {
    var n := |flat| - 1;
    forall k
      ensures k in KeysOf(flat) <==> k in KeysOf(flat[..n]) || k == flat[n].key
    {
      if i :| 0 <= i < |flat| && flat[i].key == k {
        assert i < n ==> flat[..n][i].key == k;
      }
      if i :| 0 <= i < n && flat[..n][i].key == k {
        assert flat[i].key == k;
      }
    }
  }

  // ---- Dotted keys and paths ----

  function Join(parts: seq<string>): string
    requires parts != []
  {
    if |parts| == 1 then parts[0] else parts[0] + "." + Join(parts[1..])
  }

  lemma {:induction false} JoinSplit(s: string)
    ensures Join(Split(s)) == s
  {
    if s != "" {
      var rest := Split(s[1..]);
      JoinSplit(s[1..]);
      if s[0] == '.' {
        assert Split(s) == [""] + rest && ([""] + rest)[1..] == rest;
      } else {
        assert Split(s) == [[s[0]] + rest[0]] + rest[1..];
        assert ([[s[0]] + rest[0]] + rest[1..])[1..] == rest[1..];
      }
    }
  }

  lemma SplitInjective(a: string, b: string)
    requires Split(a) == Split(b)
    ensures a == b
  {
    JoinSplit(a);
    JoinSplit(b);
  }

  /** One path leads through the place where the other ends. */
  predicate Below(p: seq<string>, q: seq<string>) {
    |p| < |q| && q[..|p|] == p
  }

  lemma BelowRest(p: seq<string>, q: seq<string>)
    requires p != [] && q != []
    ensures Below(p, q) <==> p[0] == q[0] && Below(p[1..], q[1..])
  {
    if |p| < |q| {
      assert q[..|p|] == [q[0]] + q[1..][..|p| - 1];
      assert p == [p[0]] + p[1..];
    }
  }

  lemma {:induction false} JoinConcat(p: seq<string>, q: seq<string>)
    requires p != [] && q != []
    ensures Join(p + q) == Join(p) + "." + Join(q)
    decreases |p|
  {
    if |p| == 1 {
      assert (p + q)[1..] == q;
    } else {
      assert (p + q)[1..] == p[1..] + q;
      JoinConcat(p[1..], q);
    }
  }

  /** In terms of the keys: one key followed by a dot starts the other. */
  lemma BelowIff(a: string, b: string)
    ensures Below(Split(a), Split(b)) <==> |a| < |b| && b[..|a|] == a && b[|a|] == '.'
  {
    if |a| < |b| && b[..|a|] == a && b[|a|] == '.' {
      assert b == a + ['.'] + b[|a| + 1..];
      SplitOnJoined(a, b[|a| + 1..], '.');
      assert (Split(a) + Split(b[|a| + 1..]))[..|Split(a)|] == Split(a);
    }
    if Below(Split(a), Split(b)) {
      var rest := Split(b)[|Split(a)|..];
      assert Split(b) == Split(a) + rest;
      JoinConcat(Split(a), rest);
      JoinSplit(a);
      JoinSplit(b);
      assert b == a + "." + Join(rest);
    }
  }

  // ---- The text at a path ----

  function Field(e: Entries, key: string): Option<Tree> {
    match e
    case End => None
    case Entry(k, v, rest) => if k == key then Some(v) else Field(rest, key)
  }

  lemma {:induction false} FieldIsKey(e: Entries, key: string)
    ensures Field(e, key).Some? <==> key in Keys(e)
  {
    if e.Entry? && e.key != key {
      FieldIsKey(e.rest, key);
    }
  }

  function TextIn(field: Option<Tree>, path: seq<string>): Option<string>
    decreases |path|, 1
  {
    match field
    case None => None
    case Some(Text(text)) => if path == [] then Some(text) else None
    case Some(Branch(sub)) => if path == [] then None else TextAt(sub, path)
  }

  function TextAt(e: Entries, path: seq<string>): Option<string>
    requires path != []
    decreases |path|, 0
  {
    TextIn(Field(e, path[0]), path[1..])
  }

  lemma {:induction false} FieldOfPut(e: Entries, key: string, value: Tree, other: string)
    ensures Field(Put(e, key, value), other) == if other == key then Some(value) else Field(e, other)
  {
    if e.Entry? && e.key != key {
      FieldOfPut(e.rest, key, value, other);
    }
  }

  lemma {:induction false} ChildIsField(e: Entries, key: string)
    ensures Child(e, key) == match Field(e, key) case Some(Branch(sub)) => sub case _ => End
  {
    if e.Entry? && e.key != key {
      ChildIsField(e.rest, key);
    }
  }

  /** The path leads through no inherited value, so that its text is set in the tree. */
  predicate Arrives(e: Entries, path: seq<string>)
    requires path != []
    decreases |path|
  {
    !Escapes(e, path[0], |path| == 1) && (|path| > 1 ==> Arrives(Child(e, path[0]), path[1..]))
  }

  /** Setting one path: what it makes of every path. */
  lemma {:induction false} TextAfterSet(e: Entries, p: seq<string>, value: string, q: seq<string>)
    requires p != [] && q != []
    ensures TextAt(SetPath(e, p, value), q) ==
            if p == q then (if Arrives(e, p) then Some(value) else None)
            else if Below(p, q) || Below(q, p) then None
            else TextAt(e, q)
    decreases |p|
  {
    BelowRest(p, q);
    BelowRest(q, p);
    assert p == [p[0]] + p[1..] && q == [q[0]] + q[1..];
    FieldIsKey(e, p[0]);
    if Escapes(e, p[0], |p| == 1) {
      return;
    }
    var inner := if |p| == 1 then Text(value) else Branch(SetPath(Child(e, p[0]), p[1..], value));
    FieldOfPut(e, p[0], inner, q[0]);
    if p[0] == q[0] && |p| > 1 && |q| > 1 {
      ChildIsField(e, p[0]);
      TextAfterSet(Child(e, p[0]), p[1..], value, q[1..]);
    }
  }

  predicate OrdinaryPart(path: seq<string>, n: nat)
    requires n < |path|
  {
    if n == |path| - 1 then path[n] != PROTO else !IsInherited(path[n])
  }

  /** No part but the last is an inherited name, and the last is not `__proto__`. */
  predicate Ordinary(path: seq<string>) {
    forall n | 0 <= n < |path| :: OrdinaryPart(path, n)
  }

  /** An ordinary path arrives in every tree. */
  lemma {:induction false} OrdinaryArrives(e: Entries, path: seq<string>)
    requires path != [] && Ordinary(path)
    ensures Arrives(e, path)
    decreases |path|
  {
    assert OrdinaryPart(path, 0);
    if |path| > 1 {
      forall n | 0 <= n < |path[1..]|
        ensures OrdinaryPart(path[1..], n)
      {
        assert OrdinaryPart(path, n + 1);
      }
      OrdinaryArrives(Child(e, path[0]), path[1..]);
    }
  }

  predicate Exists(e: Entries, q: seq<string>)
    requires q != []
    decreases |q|
  {
    q[0] in Keys(e) && (|q| > 1 ==> Exists(Child(e, q[0]), q[1..]))
  }

  lemma {:induction false} TextExists(e: Entries, q: seq<string>, p: seq<string>)
    requires q != [] && p != [] && (q == p || Below(q, p)) && TextAt(e, p).Some?
    ensures Exists(e, q)
    decreases |q|
  {
    BelowRest(q, p);
    FieldIsKey(e, p[0]);
    ChildIsField(e, p[0]);
    if |q| > 1 {
      TextExists(Child(e, q[0]), q[1..], p[1..]);
    }
  }

  lemma {:induction false} KeysOfPut(e: Entries, key: string, value: Tree, other: string)
    ensures other in Keys(Put(e, key, value)) <==> other == key || other in Keys(e)
    ensures Child(Put(e, key, value), other)
            == if other != key then Child(e, other) else if value.Branch? then value.entries else End
  {
    if e.Entry? && e.key != key {
      KeysOfPut(e.rest, key, value, other);
    }
  }

  /** The place under an inherited name comes into being only when a text is set right there, and under
      `__proto__` not even then. */
  lemma {:induction false} StaysMissing(e: Entries, p: seq<string>, value: string, q: seq<string>)
    requires p != [] && q != [] && !Exists(e, q) && IsInherited(q[|q| - 1])
    requires p == q ==> q[|q| - 1] == PROTO
    ensures !Exists(SetPath(e, p, value), q)
    decreases |q|
  {
    if Escapes(e, p[0], |p| == 1) {
      return;
    }
    var inner := if |p| == 1 then Text(value) else Branch(SetPath(Child(e, p[0]), p[1..], value));
    KeysOfPut(e, p[0], inner, q[0]);
    assert p == [p[0]] + p[1..] && q == [q[0]] + q[1..];
    if |q| > 1 && p[0] == q[0] && |p| > 1 {
      ChildOfMissing(e, q[0], q[1..]);
      StaysMissing(Child(e, q[0]), p[1..], value, q[1..]);
    }
  }

  lemma {:induction false} ChildOfMissing(e: Entries, key: string, q: seq<string>)
    requires q != [] && !Exists(e, [key] + q)
    ensures !Exists(Child(e, key), q)
  {
    assert ([key] + q)[1..] == q;
    if key !in Keys(e) {
      PutNew(e, key, Text(""));
    }
  }

  /** A place that holds a text has nothing below it. */
  lemma {:induction false} NothingBelowText(e: Entries, p: seq<string>, q: seq<string>)
    requires p != [] && Below(p, q) && TextAt(e, p).Some?
    ensures TextAt(e, q) == None
    decreases |p|
  {
    BelowRest(p, q);
    if |p| > 1 {
      NothingBelowText(Field(e, p[0]).value.entries, p[1..], q[1..]);
    }
  }

  // ---- The texts of a rebuilt tree ----

  predicate IsText(flat: seq<Pair>, q: seq<string>, value: string) {
    exists i :: 0 <= i < |flat| && Split(flat[i].key) == q && flat[i].value == value
  }

  lemma {:induction false} RebuiltTextWasSet(root: Entries, flat: seq<Pair>, q: seq<string>, value: string)
    requires q != [] && TextAt(Rebuild(root, flat), q) == Some(value)
    ensures TextAt(root, q) == Some(value) || IsText(flat, q, value)
    decreases |flat|
  {
    if flat != [] {
      var next := SetPath(root, Split(flat[0].key), flat[0].value);
      RebuiltTextWasSet(next, flat[1..], q, value);
      TextAfterSet(root, Split(flat[0].key), flat[0].value, q);
      if IsText(flat[1..], q, value) {
        var i :| 0 <= i < |flat[1..]| && Split(flat[1..][i].key) == q && flat[1..][i].value == value;
        assert flat[i + 1] == flat[1..][i];
      } else if Split(flat[0].key) == q {
        assert flat[0].value == value;
      }
    }
  }

  /** No key's path runs into another's. */
  ghost predicate Apart(flat: seq<Pair>) {
    forall i, j | 0 <= i < |flat| && 0 <= j < |flat| :: !Below(Split(flat[i].key), Split(flat[j].key))
  }

  lemma ApartRest(flat: seq<Pair>)
    requires flat != [] && Apart(flat) && DistinctKeys(flat)
    ensures Apart(flat[1..]) && DistinctKeys(flat[1..])
    ensures forall j | 0 <= j < |flat[1..]| :: flat[1..][j] == flat[j + 1]
  {
  }

  lemma {:induction false} UntouchedStays(root: Entries, flat: seq<Pair>, q: seq<string>)
    requires q != []
    requires forall i | 0 <= i < |flat| ::
               Split(flat[i].key) != q && !Below(Split(flat[i].key), q) && !Below(q, Split(flat[i].key))
    ensures TextAt(Rebuild(root, flat), q) == TextAt(root, q)
    decreases |flat|
  {
    if flat != [] {
      TextAfterSet(root, Split(flat[0].key), flat[0].value, q);
      UntouchedStays(SetPath(root, Split(flat[0].key), flat[0].value), flat[1..], q);
    }
  }

  lemma {:induction false} EveryTextIsSet(root: Entries, flat: seq<Pair>, k: nat)
    requires Apart(flat) && DistinctKeys(flat) && k < |flat| && Ordinary(Split(flat[k].key))
    ensures TextAt(Rebuild(root, flat), Split(flat[k].key)) == Some(flat[k].value)
    decreases |flat|
  {
    var next := SetPath(root, Split(flat[0].key), flat[0].value);
    ApartRest(flat);
    if k > 0 {
      EveryTextIsSet(next, flat[1..], k - 1);
    } else {
      OrdinaryArrives(root, Split(flat[0].key));
      TextAfterSet(root, Split(flat[0].key), flat[0].value, Split(flat[0].key));
      forall i | 0 <= i < |flat[1..]|
        ensures Split(flat[1..][i].key) != Split(flat[0].key)
      {
        if Split(flat[1..][i].key) == Split(flat[0].key) {
          SplitInjective(flat[1..][i].key, flat[0].key);
        }
      }
      UntouchedStays(next, flat[1..], Split(flat[0].key));
    }
  }

  // ---- The pairs of a flattened tree ----

  lemma {:induction false} NeverExists(root: Entries, flat: seq<Pair>, q: seq<string>)
    requires q != [] && !Exists(root, q) && IsInherited(q[|q| - 1])
    requires forall i | 0 <= i < |flat| :: Split(flat[i].key) == q ==> q[|q| - 1] == PROTO
    ensures !Exists(Rebuild(root, flat), q)
    decreases |flat|
  {
    if flat != [] {
      StaysMissing(root, Split(flat[0].key), flat[0].value, q);
      assert forall i | 0 <= i < |flat[1..]| :: flat[1..][i] == flat[i + 1];
      NeverExists(SetPath(root, Split(flat[0].key), flat[0].value), flat[1..], q);
    }
  }

  /** No key's path ends on the way along `p`. */
  ghost predicate NoneAbove(flat: seq<Pair>, p: seq<string>) {
    forall i | 0 <= i < |flat| :: !Below(Split(flat[i].key), p)
  }

  lemma FoundPartIsOrdinary(flat: seq<Pair>, p: seq<string>, n: nat)
    requires n < |p| && NoneAbove(flat, p) && TextAt(Rebuild(End, flat), p).Some?
    ensures OrdinaryPart(p, n)
  {
    var q := p[..n + 1];
    if !OrdinaryPart(p, n) {
      TextExists(Rebuild(End, flat), q, p);
      NeverExists(End, flat, q);
    }
  }

  /** A text that is found after rebuilding lies on an ordinary path. */
  lemma FoundIsOrdinary(flat: seq<Pair>, p: seq<string>)
    requires p != [] && NoneAbove(flat, p) && TextAt(Rebuild(End, flat), p).Some?
    ensures Ordinary(p)
  {
    forall n | 0 <= n < |p|
      ensures OrdinaryPart(p, n)
    {
      FoundPartIsOrdinary(flat, p, n);
    }
  }

  lemma {:induction false} LeafIsText(e: Entries, path: seq<string>, value: string)
    requires IsObject(e)
    ensures Leaf(path, value) in Leaves(e, []) <==> path != [] && TextAt(e, path) == Some(value)
    decreases e
  {
    if e.Entry? {
      LeafIsText(e.rest, path, value);
      FieldIsKey(e.rest, e.key);
      assert [] + [e.key] == [e.key];
      if e.value.Branch? {
        var sub := e.value.entries;
        LeavesUnder(sub, e.key, []);
        assert [e.key] + [] == [e.key];
        LeafUnder(e.key, Leaves(sub, []), path, value);
        if path != [] {
          LeafIsText(sub, path[1..], value);
        }
      } else if path != [] {
        assert path == [e.key] <==> path[0] == e.key && path[1..] == [];
      }
    }
  }

  lemma LeafUnder(key: string, leaves: seq<Leaf>, path: seq<string>, value: string)
    ensures Leaf(path, value) in Under(key, leaves) <==>
            path != [] && path[0] == key && Leaf(path[1..], value) in leaves
  {
    var under := Under(key, leaves);
    if path != [] && path[0] == key && Leaf(path[1..], value) in leaves {
      var i: nat :| i < |leaves| && leaves[i] == Leaf(path[1..], value);
      assert under[i] == Leaf([key] + path[1..], value) && [key] + path[1..] == path;
    }
    if Leaf(path, value) in under {
      var i: nat :| i < |under| && under[i] == Leaf(path, value);
      assert path == [key] + leaves[i].path && path[1..] == leaves[i].path;
      assert leaves[i] == Leaf(path[1..], value);
    }
  }

  /** A tree whose dotted keys tell its paths flattens to exactly the texts at its paths. */
  lemma FlattenHolds(e: Entries, key: string, value: string)
    requires IsObject(e) && Flattens(e)
    ensures Pair(key, value) in Flatten(e) <==> TextAt(e, Split(key)) == Some(value)
  {
    var pairs, leaves := Pairs(e, ""), Leaves(e, []);
    FlattenIsPairs(e);
    PairsAreLeaves(e, "", []);
    LeafIsText(e, Split(key), value);
    if Pair(key, value) in pairs {
      var i: nat :| i < |pairs| && pairs[i] == Pair(key, value);
      assert leaves[i] == Leaf(Split(key), value);
    }
    if Leaf(Split(key), value) in leaves {
      var i: nat :| i < |leaves| && leaves[i] == Leaf(Split(key), value);
      SplitInjective(pairs[i].key, key);
      assert pairs[i] == Pair(key, value);
    }
  }

  // ---- What rebuilding makes is always an object ----

  lemma {:induction false} PutKeepsObject(e: Entries, key: string, value: Tree)
    requires IsObject(e) && (value.Branch? ==> IsObject(value.entries))
    ensures IsObject(Put(e, key, value)) && Keys(Put(e, key, value)) == Keys(e) + {key}
  {
    if e.Entry? && e.key != key {
      PutKeepsObject(e.rest, key, value);
    }
  }

  lemma {:induction false} ChildIsObject(e: Entries, key: string)
    requires IsObject(e)
    ensures IsObject(Child(e, key))
  {
    if e.Entry? && e.key != key {
      ChildIsObject(e.rest, key);
    }
  }

  lemma {:induction false} SetPathKeepsObject(e: Entries, parts: seq<string>, value: string)
    requires IsObject(e) && parts != []
    ensures IsObject(SetPath(e, parts, value))
    decreases |parts|
  {
    if |parts| == 1 {
      PutKeepsObject(e, parts[0], Text(value));
    } else {
      ChildIsObject(e, parts[0]);
      SetPathKeepsObject(Child(e, parts[0]), parts[1..], value);
      PutKeepsObject(e, parts[0], Branch(SetPath(Child(e, parts[0]), parts[1..], value)));
    }
  }

  lemma {:induction false} RebuildIsObject(root: Entries, flat: seq<Pair>)
    requires IsObject(root)
    ensures IsObject(Rebuild(root, flat))
    decreases |flat|
  {
    if flat != [] {
      SetPathKeepsObject(root, Split(flat[0].key), flat[0].value);
      RebuildIsObject(SetPath(root, Split(flat[0].key), flat[0].value), flat[1..]);
    }
  }

  // ---- Exactly which flat maps survive ----

  ghost predicate Survives(flat: seq<Pair>) {
    NoLeadingDot(flat) && Apart(flat) && forall i | 0 <= i < |flat| :: Ordinary(Split(flat[i].key))
  }

  lemma RebuiltFlattens(flat: seq<Pair>)
    requires NoLeadingDot(flat)
    ensures IsObject(Rebuild(End, flat)) && Flattens(Rebuild(End, flat))
  {
    RebuildIsObject(End, flat);
    RebuildIsDotFree(End, flat);
    RebuildKeepsEmptyKeyFlat(End, flat);
  }

  lemma SurvivorsHold(flat: seq<Pair>, key: string, value: string)
    requires DistinctKeys(flat) && Survives(flat)
    ensures Pair(key, value) in Flatten(Rebuild(End, flat)) <==> Pair(key, value) in flat
  {
    RebuiltFlattens(flat);
    FlattenHolds(Rebuild(End, flat), key, value);
    if Pair(key, value) in flat {
      var k: nat :| k < |flat| && flat[k] == Pair(key, value);
      EveryTextIsSet(End, flat, k);
    }
    if TextAt(Rebuild(End, flat), Split(key)) == Some(value) {
      RebuiltTextWasSet(End, flat, Split(key), value);
      assert TextAt(End, Split(key)) == None;
      var i :| 0 <= i < |flat| && Split(flat[i].key) == Split(key) && flat[i].value == value;
      SplitInjective(flat[i].key, key);
      assert flat[i] == Pair(key, value);
    }
  }

  lemma SameEntry(flat: seq<Pair>, key: string, value: string)
    requires DistinctKeys(flat) && Survives(flat)
    ensures var again := MapOf(Flatten(Rebuild(End, flat)));
            key in again && again[key] == value <==> key in MapOf(flat) && MapOf(flat)[key] == value
  {
    FlattenDistinct(Rebuild(End, flat), "", []);
    MapOfHolds(Flatten(Rebuild(End, flat)), key, value);
    MapOfHolds(flat, key, value);
    SurvivorsHold(flat, key, value);
  }

  lemma OnlySurvivorsHold(flat: seq<Pair>)
    requires DistinctKeys(flat) && MapOf(Flatten(Rebuild(End, flat))) == MapOf(flat)
    ensures Survives(flat)
  {
    var e := Rebuild(End, flat);
    var again := Flatten(e);
    FlattenDistinct(e, "", []);
    RebuildIsDotFree(End, flat);
    FlattenNoLeadingDot(e, "", []);
    forall k | 0 <= k < |flat|
      ensures flat[k] in again
    {
      MapOfHolds(flat, flat[k].key, flat[k].value);
      MapOfHolds(again, flat[k].key, flat[k].value);
    }
    forall k | 0 <= k < |flat|
      ensures flat[k].key != "" ==> flat[k].key[0] != '.'
    {
      var i: nat :| i < |again| && again[i] == flat[k];
    }
    RebuiltFlattens(flat);
    forall i, j | 0 <= i < |flat| && 0 <= j < |flat|
      ensures !Below(Split(flat[i].key), Split(flat[j].key))
    {
      FlattenHolds(e, flat[i].key, flat[i].value);
      FlattenHolds(e, flat[j].key, flat[j].value);
      if Below(Split(flat[i].key), Split(flat[j].key)) {
        NothingBelowText(e, Split(flat[i].key), Split(flat[j].key));
      }
    }
    forall k | 0 <= k < |flat|
      ensures Ordinary(Split(flat[k].key))
    {
      FlattenHolds(e, flat[k].key, flat[k].value);
      FoundIsOrdinary(flat, Split(flat[k].key));
    }
  }

  /** A flat map survives being rebuilt and flattened again exactly when no key starts with a dot, no
      key, followed by a dot, starts another key, and no part of a key is an inherited name, except that
      the last part may be any but `__proto__`. */
  lemma FlatRoundTripIff(flat: seq<Pair>)
    requires DistinctKeys(flat)
    ensures MapOf(Flatten(Rebuild(End, flat))) == MapOf(flat) <==> Survives(flat)
  {
    if Survives(flat) {
      var again := Flatten(Rebuild(End, flat));
      forall key
        ensures key in MapOf(again) <==> key in MapOf(flat)
        ensures key in MapOf(flat) ==> MapOf(again)[key] == MapOf(flat)[key]
      {
        if key in MapOf(again) {
          SameEntry(flat, key, MapOf(again)[key]);
        }
        if key in MapOf(flat) {
          SameEntry(flat, key, MapOf(flat)[key]);
        }
      }
    } else if MapOf(Flatten(Rebuild(End, flat))) == MapOf(flat) {
      OnlySurvivorsHold(flat);
    }
  }

  /** Two keys of which only one survives. */
  lemma KeyBelowKeyIsLost(x: string, y: string)
    ensures var flat := [Pair("a", x), Pair("a.b", y)];
            MapOf(Flatten(Rebuild(End, flat))) != MapOf(flat)
  {
    var flat := [Pair("a", x), Pair("a.b", y)];
    BelowIff("a", "a.b");
    assert Below(Split(flat[0].key), Split(flat[1].key));
    FlatRoundTripIff(flat);
  }

  /** A map of one pair that is lost: `toString.a`, or the like for any other inherited name. */
  lemma KeyBelowInheritedIsLost(name: string, x: string)
    requires IsInherited(name)
    ensures var flat := [Pair(name + ".a", x)];
            MapOf(Flatten(Rebuild(End, flat))) != MapOf(flat)
  {
    var flat := [Pair(name + ".a", x)];
    InheritedNamesFlatten(name);
    SplitOnJoined(name, "a", '.');
    SplitOnWithout(name, '.');
    SplitOnWithout("a", '.');
    assert name + ['.'] + "a" == name + ".a";
    assert Split(flat[0].key) == [name, "a"];
    assert !OrdinaryPart(Split(flat[0].key), 0);
    FlatRoundTripIff(flat);
  }
}
