/**
  What an informer does to its cache, and which handler events it emits, for
  each store event, list and resync.
*/
module InformerSpec {
  import opened Objects
  import opened QueueSpec

  const ALL_NAMESPACES: string := ""

  /** `transform` gives None when the configured transform reports an error. */
  datatype Config = Config(
    namespaces: Option<set<string>>, labels: Option<LabelSelector>,
    fields: Option<seq<FieldRequirement>>, transform: Object -> Option<Object>)

  datatype Effect = Effect(cache: Snapshot, events: seq<CacheEvent>)

  function FieldValue(k: Key, field: string): string {
    if field == "metadata.name" then k.name
    else if field == "metadata.namespace" then k.namespace
    else ""
  }

  predicate NamespaceAllowed(c: Config, ns: string) {
    c.namespaces.Some? ==> ns in c.namespaces.value || ALL_NAMESPACES in c.namespaces.value
  }

  predicate FieldsMatch(c: Config, k: Key) {
    c.fields.Some? ==>
      forall i :: 0 <= i < |c.fields.value| ==>
        var r := c.fields.value[i];
        (FieldValue(k, r.field) == r.value) == r.equals
  }

  predicate Matches(c: Config, o: Object) {
    && NamespaceAllowed(c, o.key.namespace)
    && (c.labels.Some? ==> c.labels.value(o.labels))
    && FieldsMatch(c, o.key)
  }

  predicate Newer(incoming: Object, existing: Object) { incoming.rv > existing.rv }

  function OnAdded(c: Config, cache: Snapshot, o: Object): Effect {
    if !Matches(c, o) || c.transform(o).None? then Effect(cache, [])
    else
      var t := c.transform(o).value;
      if t.key in cache && !Newer(t, cache[t.key]) then Effect(cache, [])
      else Effect(cache[t.key := t], [AddEvent(t, false)])
  }

  function OnModified(c: Config, cache: Snapshot, o: Object): Effect {
    var k := o.key;
    if !Matches(c, o) then
      if k in cache && Newer(o, cache[k]) then Effect(cache - {k}, [DeleteEvent(cache[k])])
      else Effect(cache, [])
    else if c.transform(o).None? then Effect(cache, [])
    else
      var t := c.transform(o).value;
      if k !in cache then Effect(cache[k := t], [AddEvent(t, false)])
      else if !Newer(t, cache[k]) then Effect(cache, [])
      else Effect(cache[k := t], [UpdateEvent(cache[k], t)])
  }

  function OnDeleted(cache: Snapshot, o: Object): Effect {
    if o.key in cache then Effect(cache - {o.key}, [DeleteEvent(cache[o.key])])
    else Effect(cache, [])
  }

  function OnEvent(c: Config, cache: Snapshot, e: Event): Effect {
    match e.kind
    case Added => OnAdded(c, cache, e.obj)
    case Modified => OnModified(c, cache, e.obj)
    case Deleted => OnDeleted(cache, e.obj)
    case Bookmark => Effect(cache, [])
  }

  /** The cache a relist builds from the listed items. */
  function Replaced(c: Config, items: seq<Object>): Snapshot {
    if items == [] then map[]
    else
      var rest := Replaced(c, items[..|items| - 1]);
      var o := items[|items| - 1];
      if !Matches(c, o) || c.transform(o).None? then rest
      else rest[c.transform(o).value.key := c.transform(o).value]
  }

  function VanishedAt(was: Snapshot, now: Snapshot, k: Key): seq<CacheEvent> {
    if k in was && k !in now then [DeleteEvent(was[k])] else []
  }

  /** Deletions a relist reports, visiting the old keys in `order`. */
  function Vanished(was: Snapshot, now: Snapshot, order: seq<Key>): seq<CacheEvent> {
    if order == [] then [] else VanishedAt(was, now, order[0]) + Vanished(was, now, order[1..])
  }

  function ChangedAt(was: Snapshot, now: Snapshot, k: Key): seq<CacheEvent> {
    if k !in now then []
    else if k !in was then [AddEvent(now[k], true)]
    else if was[k].rv != now[k].rv then [UpdateEvent(was[k], now[k])]
    else []
  }

  /** Additions and changes a relist reports, visiting the new keys in `order`. */
  function Changed(was: Snapshot, now: Snapshot, order: seq<Key>): seq<CacheEvent> {
    if order == [] then [] else ChangedAt(was, now, order[0]) + Changed(was, now, order[1..])
  }

  function Diff(was: Snapshot, now: Snapshot, wasOrder: seq<Key>, nowOrder: seq<Key>): seq<CacheEvent> {
    Vanished(was, now, wasOrder) + Changed(was, now, nowOrder)
  }

  function AgainAt(cache: Snapshot, k: Key): seq<CacheEvent> {
    if k in cache then [UpdateEvent(cache[k], cache[k])] else []
  }

  /** Periodic resync: every cached object again, as an update from itself. */
  function Resynced(cache: Snapshot, order: seq<Key>): seq<CacheEvent> {
    if order == [] then [] else AgainAt(cache, order[0]) + Resynced(cache, order[1..])
  }
}
