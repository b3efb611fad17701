/** The migration of the legacy Bedrock discovery settings into the plugin's own configuration
    (extensions/amazon-bedrock/config-compat.ts), and the settings that discovery.ts makes of both.
    A record is the map of its own fields; nothing here depends on their order. */
module BedrockMigration {
  import opened JsText

  datatype Json =
    | Undefined
    | Atom(text: string)
    | Record(fields: map<string, Json>)

  type Fields = map<string, Json>

  type Path = seq<string>

  const BLOCKED_OBJECT_KEYS: set<string> := {"__proto__", "prototype", "constructor"}

  predicate IsBlockedObjectKey(key: string) {
    key in BLOCKED_OBJECT_KEYS
  }

  lemma PlainNames()
    ensures !IsInherited("models") && !IsInherited("plugins") && !IsInherited("entries")
    ensures !IsInherited("amazon-bedrock") && !IsInherited("config")
  {
  }

  /** What an expression such as `target[key]` gives. */
  function Lookup(fields: Fields, key: string): Json {
    if key in fields then fields[key]
    else if IsInherited(key) then Atom("function")
    else Undefined
  }

  function Own(fields: Fields, key: string): Json {
    if key in fields then fields[key] else Undefined
  }

  predicate Skipped(key: string, value: Json) {
    value.Undefined? || IsBlockedObjectKey(key)
  }

  // ---- mergeMissing ----

  /** The field of `key` once the source's `value` for it has been considered. */
  function Filled(fields: Fields, key: string, value: Json): Json
    decreases value, 1
  {
    var existing := Lookup(fields, key);
    if Skipped(key, value) then Own(fields, key)
    else if existing.Undefined? then value
    else if key in fields && existing.Record? && value.Record? then
      Record(MergeOn(existing.fields, value, value.fields.Keys))
    else Own(fields, key)
  }

  predicate Gains(fields: Fields, key: string, value: Json) {
    !Skipped(key, value) && Lookup(fields, key).Undefined?
  }

  /** The target after the source's fields named in `keys` were visited. */
  function MergeOn(target: Fields, source: Json, keys: set<string>): Fields
    requires source.Record? && keys <= source.fields.Keys
    decreases source, 0
  {
    map k | k in target.Keys + keys && (k in target || Gains(target, k, source.fields[k])) ::
      if k in keys then Filled(target, k, source.fields[k]) else target[k]
  }

  function Merged(target: Fields, source: Fields): Fields {
    MergeOn(target, Record(source), source.Keys)
  }

  class JsonRecord {
    var fields: Fields

    constructor (fields: Fields)
      ensures this.fields == fields
    {
      this.fields := fields;
    }

    method MergeMissing(source: Json)
      requires source.Record?
      modifies this
      ensures fields == Merged(old(fields), source.fields)
      decreases source, 1
    {
      ghost var before := fields;
      MergeNothing(before, source);
      var entries := source.fields.Keys;
      while entries != {}
        invariant MergedExcept(before, source, entries)
        decreases |entries|
      {
        var key :| key in entries;
        MergeEntry(before, source, entries, key);
        entries := entries - {key};
      }
      MergeEverything(before, source);
    }

    /** All of the source's entries but these were visited. */
    ghost predicate MergedExcept(before: Fields, source: Json, entries: set<string>)
      requires source.Record?
      reads this
    {
      entries <= source.fields.Keys && fields == MergeOn(before, source, source.fields.Keys - entries)
    }

    method MergeEntry(ghost before: Fields, source: Json, ghost entries: set<string>, key: string)
      requires source.Record? && key in entries && MergedExcept(before, source, entries)
      modifies this
      ensures MergedExcept(before, source, entries - {key})
      decreases source, 0
    {
      ghost var done := source.fields.Keys - entries;
      assert source.fields.Keys - (entries - {key}) == done + {key};
      MergeOneMore(before, source, done, key);
      MergeField(key, source.fields[key]);
    }

    /** One turn of the loop over the source's entries. */
    method MergeField(key: string, value: Json)
      modifies this
      ensures fields == Visited(old(fields), key, value)
      decreases value, 2
    {
      if value.Undefined? || IsBlockedObjectKey(key) {
        return;
      }
      var existing := Lookup(fields, key);
      if existing.Undefined? {
        fields := fields[key := value];
        return;
      }
      if existing.Record? && value.Record? {
        var inner := new JsonRecord(existing.fields);
        inner.MergeMissing(value);
        fields := fields[key := Record(inner.fields)];
      }
    }

    method EnsureRecord(key: string) returns (next: JsonRecord)
      requires !IsInherited(key)
      modifies this
      ensures fresh(next) && next.fields == RecordAt(old(fields), key)
      ensures fields == old(fields)[key := Record(next.fields)]
    {
      var existing := Lookup(fields, key);
      if existing.Record? {
        next := new JsonRecord(existing.fields);
        return;
      }
      next := new JsonRecord(map[]);
      fields := fields[key := Record(map[])];
    }

    /** The record that EnsureRecord gave out goes back where it came from. */
    method PutBack(ghost before: Fields, key: string, next: JsonRecord)
      requires key in fields && fields == before[key := fields[key]]
      modifies this
      ensures fields == before[key := Record(old(next.fields))]
    {
      fields := fields[key := Record(next.fields)];
    }

    method PruneEmptyModelsRoot()
      modifies this
      ensures fields == Pruned(old(fields))
    {
      var models := Lookup(fields, "models");
      if models.Record? && |models.fields| == 0 {
        fields := fields - {"models"};
      }
    }
  }

  /** The record after one entry of the source was considered. */
  function Visited(fields: Fields, key: string, value: Json): Fields {
    var existing := Lookup(fields, key);
    if Skipped(key, value) || !(existing.Undefined? || (existing.Record? && value.Record?)) then fields
    else fields[key := Filled(fields, key, value)]
  }

  lemma MergeNothing(before: Fields, source: Json)
    requires source.Record?
    ensures MergeOn(before, source, source.fields.Keys - source.fields.Keys) == before
  {
    assert source.fields.Keys - source.fields.Keys == {};
  }

  lemma MergeEverything(before: Fields, source: Json)
    requires source.Record?
    ensures MergeOn(before, source, source.fields.Keys - {}) == Merged(before, source.fields)
  {
    assert source.fields.Keys - {} == source.fields.Keys && source == Record(source.fields);
  }

  lemma MergeOneMore(before: Fields, source: Json, done: set<string>, key: string)
    requires source.Record? && done <= source.fields.Keys && key in source.fields && key !in done
    ensures MergeOn(before, source, done + {key}) == Visited(MergeOn(before, source, done), key, source.fields[key])
  {
    assert Lookup(MergeOn(before, source, done), key) == Lookup(before, key);
  }

  // ---- The migration ----

  const LEGACY_PATH: Path := ["models", "bedrockDiscovery"]
  const TARGET_PATH: Path := ["plugins", "entries", "amazon-bedrock", "config", "discovery"]

  datatype Change = RemovedEmpty | Moved | MergedInto | AlreadySet

  /** The value under a path of fields; `Undefined` where the path breaks off. */
  function At(value: Json, path: Path): Json
    decreases |path|
  {
    if path == [] then value
    else if value.Record? then At(Own(value.fields, path[0]), path[1..])
    else Undefined
  }

  /** The record under a key; a missing or other value counts as an empty record. */
  function RecordAt(fields: Fields, key: string): Fields {
    FieldsOf(Own(fields, key))
  }

  function FieldsOf(value: Json): Fields {
    if value.Record? then value.fields else map[]
  }

  function WithAt(fields: Fields, path: Path, value: Json): Fields
    requires path != []
    decreases |path|
  {
    if |path| == 1 then fields[path[0] := value]
    else fields[path[0] := Record(WithAt(RecordAt(fields, path[0]), path[1..], value))]
  }

  function Pruned(root: Fields): Fields {
    if "models" in root && root["models"] == Record(map[]) then root - {"models"} else root
  }

  function WithoutLegacy(root: Fields): Fields {
    Pruned(root["models" := Record(RecordAt(root, "models") - {"bedrockDiscovery"})])
  }

  /** What JSON.stringify tells apart here: fields that hold `undefined` do not show. */
  function Visible(fields: Fields): Fields {
    map k | k in fields && !fields[k].Undefined? :: fields[k]
  }

  /** What `existing` holds after the merge: its nested records are the merged ones, because the
      clone that was merged into is shallow. */
  function SharedAfter(existing: Fields, merged: Fields): Fields {
    map k | k in existing ::
      if existing[k].Record? && k in merged && merged[k].Record? then merged[k] else existing[k]
  }

  /** The plugin's discovery settings, given what was there, and how the change is reported. */
  function NewDiscovery(existing: Json, legacy: Json): (Json, Change)
    requires legacy.Record?
  {
    if !existing.Record? then (legacy, Moved) else
      var merged := Merged(existing.fields, legacy.fields);
      (Record(merged),
       if Visible(merged) != Visible(SharedAfter(existing.fields, merged)) then MergedInto else AlreadySet)
  }

  function Migrated(raw: Json): (Json, seq<Change>) {
    var legacy := At(raw, LEGACY_PATH);
    if !legacy.Record? then (raw, []) else
      var root := WithoutLegacy(raw.fields);
      if legacy.fields == map[] then (Record(root), [RemovedEmpty]) else
        var (discovery, change) := NewDiscovery(At(Record(root), TARGET_PATH), legacy);
        (Record(WithAt(root, TARGET_PATH, discovery)), [change])
  }

  lemma LegacyUnfolds(raw: Json)
    ensures At(raw, LEGACY_PATH) ==
            if raw.Record? then Own(RecordAt(raw.fields, "models"), "bedrockDiscovery") else Undefined
  {
    assert LEGACY_PATH[1..] == ["bedrockDiscovery"];
    assert ["bedrockDiscovery"][1..] == [];
    if raw.Record? {
      var models := Own(raw.fields, "models");
      assert At(raw, LEGACY_PATH) == At(models, ["bedrockDiscovery"]);
    }
  }

  /** The chain of records that leads to the plugin's settings. */
  lemma TargetUnfolds(root: Fields, value: Json)
    ensures
      var plugins := RecordAt(root, "plugins");
      var entries := RecordAt(plugins, "entries");
      var entry := RecordAt(entries, "amazon-bedrock");
      var config := RecordAt(entry, "config");
      && At(Record(root), TARGET_PATH) == Own(config, "discovery")
      && WithAt(root, TARGET_PATH, value) ==
         root["plugins" := Record(plugins["entries" := Record(entries["amazon-bedrock" :=
           Record(entry["config" := Record(config["discovery" := value])])])])]
  {
    var p1, p2, p3, p4 := TARGET_PATH[1..], TARGET_PATH[2..], TARGET_PATH[3..], TARGET_PATH[4..];
    assert p1[1..] == p2 && p2[1..] == p3 && p3[1..] == p4 && p4[1..] == [];
    var plugins := RecordAt(root, "plugins");
    var entries := RecordAt(plugins, "entries");
    var entry := RecordAt(entries, "amazon-bedrock");
    var config := RecordAt(entry, "config");
    AtStep(Record(root), TARGET_PATH);
    AtStep(Own(root, "plugins"), p1);
    AtStep(Own(plugins, "entries"), p2);
    AtStep(Own(entries, "amazon-bedrock"), p3);
    AtStep(Own(entry, "config"), p4);
    assert WithAt(config, p4, value) == config["discovery" := value];
    assert WithAt(entry, p3, value) == entry["config" := Record(WithAt(config, p4, value))];
    assert WithAt(entries, p2, value) == entries["amazon-bedrock" := Record(WithAt(entry, p3, value))];
    assert WithAt(plugins, p1, value) == plugins["entries" := Record(WithAt(entries, p2, value))];
  }

  lemma AtStep(value: Json, path: Path)
    requires path != []
    ensures At(value, path) == At(Own(FieldsOf(value), path[0]), path[1..])
  {
    if !value.Record? {
      AtUndefined(path[1..]);
    }
  }

  lemma AtUndefined(path: Path)
    ensures At(Undefined, path) == Undefined
  {
  }

  method RemoveLegacy(root: Fields) returns (nextRoot: JsonRecord)
    ensures fresh(nextRoot) && nextRoot.fields == WithoutLegacy(root)
  {
    PlainNames();
    nextRoot := new JsonRecord(root);
    var models := nextRoot.EnsureRecord("models");
    models.fields := models.fields - {"bedrockDiscovery"};
    nextRoot.fields := nextRoot.fields["models" := Record(models.fields)];
    nextRoot.PruneEmptyModelsRoot();
  }

  method MergeDiscovery(existing: Json, legacy: Json) returns (discovery: Json, change: Change)
    requires legacy.Record?
    ensures (discovery, change) == NewDiscovery(existing, legacy)
  {
    if !existing.Record? {
      return legacy, Moved;
    }
    var merged := new JsonRecord(existing.fields);
    merged.MergeMissing(legacy);
    change := if Visible(merged.fields) != Visible(SharedAfter(existing.fields, merged.fields))
              then MergedInto else AlreadySet;
    discovery := Record(merged.fields);
  }

  method InstallDiscovery(nextRoot: JsonRecord, legacy: Json) returns (change: Change)
    requires legacy.Record?
    modifies nextRoot
    ensures var (discovery, reported) := NewDiscovery(At(Record(old(nextRoot.fields)), TARGET_PATH), legacy);
            change == reported && nextRoot.fields == WithAt(old(nextRoot.fields), TARGET_PATH, discovery)
  {
    PlainNames();
    ghost var root := nextRoot.fields;
    var plugins := nextRoot.EnsureRecord("plugins");
    ghost var oldPlugins := plugins.fields;
    var entries := plugins.EnsureRecord("entries");
    ghost var oldEntries := entries.fields;
    var entry := entries.EnsureRecord("amazon-bedrock");
    ghost var oldEntry := entry.fields;
    var settings := entry.EnsureRecord("config");
    var discovery;
    discovery, change := MergeDiscovery(Own(settings.fields, "discovery"), legacy);
    TargetUnfolds(root, discovery);
    settings.fields := settings.fields["discovery" := discovery];
    entry.PutBack(oldEntry, "config", settings);
    entries.PutBack(oldEntries, "amazon-bedrock", entry);
    plugins.PutBack(oldPlugins, "entries", entries);
    nextRoot.PutBack(root, "plugins", plugins);
  }

  method MigrateAmazonBedrockLegacyConfig(raw: Json) returns (config: Json, changes: seq<Change>)
    ensures (config, changes) == Migrated(raw)
  {
    LegacyUnfolds(raw);
    if !raw.Record? {
      return raw, [];
    }
    var legacy := Own(RecordAt(raw.fields, "models"), "bedrockDiscovery");
    if !legacy.Record? {
      return raw, [];
    }
    var nextRoot := RemoveLegacy(raw.fields);
    if |legacy.fields| == 0 {
      return Record(nextRoot.fields), [RemovedEmpty];
    }
    var change := InstallDiscovery(nextRoot, legacy);
    return Record(nextRoot.fields), [change];
  }

  // ---- Merging ----

  /** The fields of a merge, one by one. */
  lemma MergedField(target: Fields, source: Fields, key: string)
    ensures key in Merged(target, source) <==> key in target || (key in source && Gains(target, key, source[key]))
    ensures key in target && (key in source ==> Skipped(key, source[key])) ==> Merged(target, source)[key] == target[key]
    ensures key in source && Gains(target, key, source[key]) ==> Merged(target, source)[key] == source[key]
    ensures key in source && key in target && !Skipped(key, source[key]) && !target[key].Undefined? ==>
      Merged(target, source)[key] ==
        if target[key].Record? && source[key].Record? then Record(Merged(target[key].fields, source[key].fields))
        else target[key]
  {
    if key in source {
      assert key in Merged(target, source) ==> Merged(target, source)[key] == Filled(target, key, source[key]);
      assert source[key].Record? ==> source[key] == Record(source[key].fields);
    }
  }

  /** Nothing of the source is missing in the target, at any depth. */
  ghost predicate Covers(target: Fields, source: Json)
    requires source.Record?
    decreases source, 0
  {
    forall k :: k in source.fields ==> CoversField(target, k, source.fields[k])
  }

  ghost predicate CoversField(target: Fields, key: string, value: Json)
    decreases value, 1
  {
    var existing := Lookup(target, key);
    || Skipped(key, value)
    || (!existing.Undefined? && (existing.Record? && value.Record? ==> Covers(existing.fields, value)))
  }

  predicate SameField(a: Fields, b: Fields, key: string) {
    (key in a <==> key in b) && (key in a ==> a[key] == b[key])
  }

  lemma {:induction false} FieldUnchangedIff(target: Fields, source: Json, key: string)
    requires source.Record? && key in source.fields
    ensures SameField(Merged(target, source.fields), target, key) <==> CoversField(target, key, source.fields[key])
    decreases source, 0
  {
    MergedField(target, source.fields, key);
    if Lookup(target, key).Record? && source.fields[key].Record? {
      MergeUnchangedIff(target[key].fields, source.fields[key]);
    }
  }

  /** Merging leaves the target alone exactly when nothing was missing. */
  lemma {:induction false} MergeUnchangedIff(target: Fields, source: Json)
    requires source.Record?
    ensures Merged(target, source.fields) == target <==> Covers(target, source)
    decreases source, 1
  {
    forall k
      ensures SameField(Merged(target, source.fields), target, k)
         <==> (k in source.fields ==> CoversField(target, k, source.fields[k]))
    {
      MergedField(target, source.fields, k);
      if k in source.fields {
        FieldUnchangedIff(target, source, k);
      }
    }
  }

  lemma {:induction false} MergedCovers(target: Fields, source: Json)
    requires source.Record?
    ensures Covers(Merged(target, source.fields), source)
    decreases source
  {
    forall k | k in source.fields
      ensures CoversField(Merged(target, source.fields), k, source.fields[k])
    {
      var value := source.fields[k];
      MergedField(target, source.fields, k);
      if value.Record? {
        if Lookup(target, k).Record? {
          MergedCovers(Lookup(target, k).fields, value);
        } else {
          CoversItself(value);
        }
      }
    }
  }

  lemma {:induction false} CoversItself(source: Json)
    requires source.Record?
    ensures Covers(source.fields, source)
    decreases source
  {
    forall k | k in source.fields
      ensures CoversField(source.fields, k, source.fields[k])
    {
      if source.fields[k].Record? {
        CoversItself(source.fields[k]);
      }
    }
  }

  /** Merging the same source again changes nothing. */
  lemma MergeIdempotent(target: Fields, source: Fields)
    ensures Merged(Merged(target, source), source) == Merged(target, source)
  {
    MergedCovers(target, Record(source));
    MergeUnchangedIff(Merged(target, source), Record(source));
  }

  /** Merging never adds a field that could reach a prototype, whatever the source holds under its name. */
  lemma NoPrototypeFieldIsAdded(target: Fields, source: Fields, key: string)
    requires key in {"__proto__", "prototype", "constructor"}
    ensures key in Merged(target, source) <==> key in target
    ensures key in target ==> Merged(target, source)[key] == target[key]
  {
    MergedField(target, source, key);
  }

  /** What the plugin's configuration sets explicitly stays, at any depth. */
  lemma {:induction false} ExplicitValuesWin(target: Fields, source: Fields, path: Path)
    requires At(Record(target), path).Atom?
    ensures At(Record(Merged(target, source)), path) == At(Record(target), path)
    decreases |path|
  {
    if path != [] {
      var k := path[0];
      MergedField(target, source, k);
      if k in target && target[k].Record? && k in source && source[k].Record? {
        ExplicitValuesWin(target[k].fields, source[k].fields, path[1..]);
      } else {
        AtUndefined(path[1..]);
      }
    }
  }

  // ---- Settings that discovery uses ----

  /** What the resolver spreads together: the legacy settings, then the plugin's over them. */
  function Effective(legacy: Fields, plugin: Fields): Fields {
    legacy + plugin
  }

  function EffectiveOf(root: Json): Fields {
    Effective(FieldsOf(At(root, LEGACY_PATH)), FieldsOf(At(root, TARGET_PATH)))
  }

  /** Every setting reads the same; a field that holds `undefined` reads as a missing one. */
  ghost predicate SameSettings(a: Fields, b: Fields) {
    forall k :: Own(a, k) == Own(b, k)
  }

  /** Merging keeps the setting of one name. */
  ghost predicate Carries(plugin: Fields, key: string, value: Json) {
    || value.Undefined?
    || (key !in plugin && !IsBlockedObjectKey(key) && !IsInherited(key))
    || (key in plugin && IsBlockedObjectKey(key))
    || (key in plugin && !plugin[key].Undefined?
        && (plugin[key].Record? && value.Record? ==> Covers(plugin[key].fields, value)))
  }

  lemma CarriesIff(legacy: Fields, plugin: Fields, key: string)
    ensures Own(Merged(plugin, legacy), key) == Own(Effective(legacy, plugin), key)
       <==> (key in legacy ==> Carries(plugin, key, legacy[key]))
  {
    MergedField(plugin, legacy, key);
    if key in legacy && key in plugin && plugin[key].Record? && legacy[key].Record? {
      MergeUnchangedIff(plugin[key].fields, legacy[key]);
    }
  }

  /** The whole condition under which merging keeps the effective settings. */
  lemma MergeKeepsSettingsIff(legacy: Fields, plugin: Fields)
    ensures SameSettings(Merged(plugin, legacy), Effective(legacy, plugin))
       <==> forall k :: k in legacy ==> Carries(plugin, k, legacy[k])
  {
    forall k
      ensures Own(Merged(plugin, legacy), k) == Own(Effective(legacy, plugin), k)
         <==> (k in legacy ==> Carries(plugin, k, legacy[k]))
    {
      CarriesIff(legacy, plugin, k);
    }
  }

  /** The settings as the schema has them: flat, every name an ordinary one, nothing `undefined`. */
  ghost predicate FlatSettings(fields: Fields) {
    forall k | k in fields :: fields[k].Atom? && !IsBlockedObjectKey(k) && !IsInherited(k)
  }

  lemma FlatSettingsAreKept(legacy: Fields, plugin: Fields)
    requires FlatSettings(legacy) && FlatSettings(plugin)
    ensures SameSettings(Merged(plugin, legacy), Effective(legacy, plugin))
  {
    forall k | k in legacy
      ensures Carries(plugin, k, legacy[k])
    {
      assert k in plugin ==> plugin[k].Atom?;
    }
    MergeKeepsSettingsIff(legacy, plugin);
  }

  /** A setting that the plugin's configuration holds as `undefined` comes back to life. */
  lemma ExplicitUndefinedIsFilled(value: Json)
    requires !value.Undefined?
    ensures var legacy, plugin := map["region" := value], map["region" := Undefined];
            && Own(Effective(legacy, plugin), "region") == Undefined
            && Own(Merged(plugin, legacy), "region") == value
  {
    MergedField(map["region" := Undefined], map["region" := value], "region");
  }

  // ---- Reading what was written ----

  /** The two paths part at some field. */
  predicate Diverges(p: Path, q: Path) {
    p != [] && q != [] && (p[0] != q[0] || Diverges(p[1..], q[1..]))
  }

  lemma {:induction false} AtWithAt(fields: Fields, path: Path, value: Json)
    requires path != []
    ensures At(Record(WithAt(fields, path, value)), path) == value
    decreases |path|
  {
    if |path| == 1 {
      assert path[1..] == [];
    } else {
      AtWithAt(RecordAt(fields, path[0]), path[1..], value);
    }
  }

  lemma {:induction false} AtElsewhere(fields: Fields, path: Path, value: Json, other: Path)
    requires path != [] && Diverges(other, path)
    ensures At(Record(WithAt(fields, path, value)), other) == At(Record(fields), other)
    decreases |path|
  {
    if other[0] == path[0] {
      AtElsewhere(RecordAt(fields, path[0]), path[1..], value, other[1..]);
      AtStep(Own(fields, path[0]), other[1..]);
      AtStep(Record(RecordAt(fields, path[0])), other[1..]);
    }
  }

  lemma AtWithoutLegacy(root: Fields, other: Path)
    requires Diverges(other, LEGACY_PATH)
    ensures At(Record(WithoutLegacy(root)), other) == At(Record(root), other)
  {
    var models := RecordAt(root, "models") - {"bedrockDiscovery"};
    if other[0] == "models" {
      var last: Path := ["bedrockDiscovery"];
      assert LEGACY_PATH[1..] == last && last[1..] == [];
      assert Diverges(other[1..], last) && !Diverges(other[1..][1..], []);
      AtStep(Own(root, "models"), other[1..]);
      AtStep(Own(WithoutLegacy(root), "models"), other[1..]);
      assert Own(models, other[1]) == Own(RecordAt(root, "models"), other[1]);
    }
  }

  lemma NoLegacyLeft(root: Fields)
    ensures At(Record(WithoutLegacy(root)), LEGACY_PATH) == Undefined
  {
    LegacyUnfolds(Record(WithoutLegacy(root)));
  }

  lemma PathsDiverge()
    ensures Diverges(LEGACY_PATH, TARGET_PATH) && Diverges(TARGET_PATH, LEGACY_PATH)
  {
    assert |LEGACY_PATH[0]| != |TARGET_PATH[0]|;
  }

  // ---- What migrating keeps ----

  /** Everything off the two paths stays as it was. */
  lemma OtherSettingsKept(raw: Json, other: Path)
    requires Diverges(other, LEGACY_PATH) && Diverges(other, TARGET_PATH)
    ensures At(Migrated(raw).0, other) == At(raw, other)
  {
    LegacyUnfolds(raw);
    if At(raw, LEGACY_PATH).Record? {
      var root := WithoutLegacy(raw.fields);
      AtWithoutLegacy(raw.fields, other);
      var discovery := NewDiscovery(At(Record(root), TARGET_PATH), At(raw, LEGACY_PATH)).0;
      AtElsewhere(root, TARGET_PATH, discovery, other);
    }
  }

  /** Where the two settings are after migrating. */
  lemma AfterMigration(raw: Json)
    requires At(raw, LEGACY_PATH).Record?
    ensures At(Migrated(raw).0, LEGACY_PATH) == Undefined
    ensures At(Migrated(raw).0, TARGET_PATH) ==
            if At(raw, LEGACY_PATH).fields == map[] then At(raw, TARGET_PATH)
            else NewDiscovery(At(raw, TARGET_PATH), At(raw, LEGACY_PATH)).0
  {
    LegacyUnfolds(raw);
    var root := WithoutLegacy(raw.fields);
    PathsDiverge();
    NoLegacyLeft(raw.fields);
    AtWithoutLegacy(raw.fields, TARGET_PATH);
    var discovery := NewDiscovery(At(Record(root), TARGET_PATH), At(raw, LEGACY_PATH)).0;
    AtWithAt(root, TARGET_PATH, discovery);
    AtElsewhere(root, TARGET_PATH, discovery, LEGACY_PATH);
  }

  lemma {:induction false} AtAppend(value: Json, p: Path, q: Path)
    ensures At(value, p + q) == At(At(value, p), q)
    decreases |p|
  {
    if p == [] {
      assert p + q == q;
    } else {
      assert (p + q)[1..] == p[1..] + q;
      AtStep(value, p + q);
      AtStep(value, p);
      AtAppend(Own(FieldsOf(value), p[0]), p[1..], q);
    }
  }

  /** Every value that the plugin's discovery settings hold survives the migration. */
  lemma PluginValuesWin(raw: Json, path: Path)
    requires At(raw, TARGET_PATH + path).Atom? && At(raw, TARGET_PATH).Record?
    ensures At(Migrated(raw).0, TARGET_PATH + path) == At(raw, TARGET_PATH + path)
  {
    AtAppend(raw, TARGET_PATH, path);
    AtAppend(Migrated(raw).0, TARGET_PATH, path);
    if At(raw, LEGACY_PATH).Record? {
      AfterMigration(raw);
      ExplicitValuesWin(At(raw, TARGET_PATH).fields, At(raw, LEGACY_PATH).fields, path);
    }
  }

  /** A second migration finds nothing to do. */
  lemma SecondMigrationIsIdentity(raw: Json)
    ensures Migrated(Migrated(raw).0) == (Migrated(raw).0, [])
  {
    if At(raw, LEGACY_PATH).Record? {
      AfterMigration(raw);
    }
  }

  /** There is a plugin record to merge into, and some legacy setting is not carried over. */
  ghost predicate LosesASetting(raw: Json) {
    var legacy, plugin := At(raw, LEGACY_PATH), At(raw, TARGET_PATH);
    && legacy.Record? && plugin.Record?
    && exists k :: k in legacy.fields && !Carries(plugin.fields, k, legacy.fields[k])
  }

  /** The settings that discovery resolves are the same before and after, for every configuration
      but those. */
  lemma SettingsKeptIff(raw: Json)
    ensures SameSettings(EffectiveOf(Migrated(raw).0), EffectiveOf(raw)) <==> !LosesASetting(raw)
  {
    var legacy, plugin := At(raw, LEGACY_PATH), At(raw, TARGET_PATH);
    if legacy.Record? {
      AfterMigration(raw);
      var after := FieldsOf(At(Migrated(raw).0, TARGET_PATH));
      assert EffectiveOf(Migrated(raw).0) == after;
      if plugin.Record? {
        MergeKeepsSettingsIff(legacy.fields, plugin.fields);
        if legacy.fields == map[] {
          assert EffectiveOf(raw) == plugin.fields;
        } else {
          assert after == Merged(plugin.fields, legacy.fields);
        }
      } else {
        assert EffectiveOf(raw) == legacy.fields;
      }
    }
  }

  /** The report says "merged" exactly when a field was missing at the top level. */
  lemma ReportsMergedIff(raw: Json)
    requires At(raw, LEGACY_PATH).Record? && At(raw, TARGET_PATH).Record?
    ensures Migrated(raw).1 == [MergedInto]
       <==> exists k :: k in At(raw, LEGACY_PATH).fields
                     && Gains(At(raw, TARGET_PATH).fields, k, At(raw, LEGACY_PATH).fields[k])
  {
    LegacyUnfolds(raw);
    PathsDiverge();
    AtWithoutLegacy(raw.fields, TARGET_PATH);
    var legacy, plugin := At(raw, LEGACY_PATH).fields, At(raw, TARGET_PATH).fields;
    VisibleChangesIff(plugin, legacy);
  }

  lemma VisibleChangesIff(plugin: Fields, legacy: Fields)
    ensures Visible(Merged(plugin, legacy)) != Visible(SharedAfter(plugin, Merged(plugin, legacy)))
       <==> exists k :: k in legacy && Gains(plugin, k, legacy[k])
  {
    var merged := Merged(plugin, legacy);
    var shared := SharedAfter(plugin, merged);
    if k :| k in legacy && Gains(plugin, k, legacy[k]) {
      MergedField(plugin, legacy, k);
      assert k in Visible(merged) && k !in Visible(shared);
    } else {
      forall k
        ensures k in Visible(merged) <==> k in Visible(shared)
        ensures k in Visible(merged) ==> Visible(merged)[k] == Visible(shared)[k]
      {
        MergedField(plugin, legacy, k);
      }
    }
  }

  /** The whole report: nothing without legacy settings, then by what there was to do. */
  lemma ReportIs(raw: Json)
    ensures var legacy, plugin := At(raw, LEGACY_PATH), At(raw, TARGET_PATH);
            Migrated(raw).1 ==
              if !legacy.Record? then []
              else if legacy.fields == map[] then [RemovedEmpty]
              else if !plugin.Record? then [Moved]
              else if exists k :: k in legacy.fields && Gains(plugin.fields, k, legacy.fields[k]) then [MergedInto]
              else [AlreadySet]
    ensures !At(raw, LEGACY_PATH).Record? ==> Migrated(raw).0 == raw
  {
    if At(raw, LEGACY_PATH).Record? {
      LegacyUnfolds(raw);
      PathsDiverge();
      AtWithoutLegacy(raw.fields, TARGET_PATH);
      if At(raw, TARGET_PATH).Record? {
        VisibleChangesIff(At(raw, TARGET_PATH).fields, At(raw, LEGACY_PATH).fields);
      }
    }
  }

  /** What is left of `models`: its other fields, and nothing at all if there are none. */
  lemma ModelsAfterMigration(raw: Json)
    requires At(raw, LEGACY_PATH).Record?
    ensures raw.Record? && "models" in raw.fields && raw.fields["models"].Record? && Migrated(raw).0.Record?
    ensures var others := raw.fields["models"].fields - {"bedrockDiscovery"};
            if others == map[] then "models" !in Migrated(raw).0.fields
            else "models" in Migrated(raw).0.fields && Migrated(raw).0.fields["models"] == Record(others)
  {
    LegacyUnfolds(raw);
    assert |"models"| != |"plugins"|;
    var root := WithoutLegacy(raw.fields);
    TargetUnfolds(root, NewDiscovery(At(Record(root), TARGET_PATH), At(raw, LEGACY_PATH)).0);
  }

  // ---- Configurations that the migration changes ----

  /** A configuration with both the legacy and the plugin's discovery settings. */
  function ConfigOf(legacy: Fields, plugin: Fields): Json {
    var entry := map["config" := Record(map["discovery" := Record(plugin)])];
    var entries := map["amazon-bedrock" := Record(entry)];
    Record(map["models" := Record(map["bedrockDiscovery" := Record(legacy)]),
               "plugins" := Record(map["entries" := Record(entries)])])
  }

  lemma ConfigPaths(legacy: Fields, plugin: Fields)
    ensures At(ConfigOf(legacy, plugin), LEGACY_PATH) == Record(legacy)
    ensures At(ConfigOf(legacy, plugin), TARGET_PATH) == Record(plugin)
  {
    var raw := ConfigOf(legacy, plugin);
    assert |"models"| != |"plugins"|;
    LegacyUnfolds(raw);
    TargetUnfolds(raw.fields, Undefined);
  }

  lemma ConfigLoses(legacy: Fields, plugin: Fields, key: string)
    requires key in legacy && !Carries(plugin, key, legacy[key])
    ensures var raw := ConfigOf(legacy, plugin);
            LosesASetting(raw) && !SameSettings(EffectiveOf(Migrated(raw).0), EffectiveOf(raw))
  {
    ConfigPaths(legacy, plugin);
    SettingsKeptIff(ConfigOf(legacy, plugin));
  }

  /** A nested record of the plugin gains a legacy field: the effective settings change, and yet the
      report says that the plugin's settings were already there. */
  lemma NestedGainGoesUnreported()
    ensures var legacy := map["filter" := Record(map["a" := Atom("1")])];
            var plugin := map["filter" := Record(map["b" := Atom("2")])];
            var raw := ConfigOf(legacy, plugin);
            && LosesASetting(raw) && !SameSettings(EffectiveOf(Migrated(raw).0), EffectiveOf(raw))
            && Migrated(raw).1 == [AlreadySet]
  {
    var gained, kept := map["a" := Atom("1")], map["b" := Atom("2")];
    var legacy, plugin := map["filter" := Record(gained)], map["filter" := Record(kept)];
    PlainFilterNames();
    assert !CoversField(kept, "a", gained["a"]);
    assert !Carries(plugin, "filter", legacy["filter"]);
    ConfigLoses(legacy, plugin, "filter");
    ConfigPaths(legacy, plugin);
    ReportsMergedIff(ConfigOf(legacy, plugin));
    ReportIsOneOf(ConfigOf(legacy, plugin));
  }

  lemma PlainFilterNames()
    ensures !IsBlockedObjectKey("filter") && !IsBlockedObjectKey("a") && !IsInherited("a")
    ensures "a" != "b"
  {
  }

  lemma ReportIsOneOf(raw: Json)
    requires At(raw, LEGACY_PATH).Record? && At(raw, TARGET_PATH).Record? && At(raw, LEGACY_PATH).fields != map[]
    ensures Migrated(raw).1 == [MergedInto] || Migrated(raw).1 == [AlreadySet]
  {
    LegacyUnfolds(raw);
    PathsDiverge();
    AtWithoutLegacy(raw.fields, TARGET_PATH);
  }

  /** A legacy setting with a blocked or an inherited name is lost if the plugin has other settings. */
  lemma OddNameIsLost(key: string)
    requires key in {"__proto__", "prototype", "constructor"} || IsInherited(key)
    ensures var raw := ConfigOf(map[key := Atom("x")], map[]);
            LosesASetting(raw) && !SameSettings(EffectiveOf(Migrated(raw).0), EffectiveOf(raw))
  {
    ConfigLoses(map[key := Atom("x")], map[], key);
  }
}
