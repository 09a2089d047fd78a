/** The informer's cache is a view of the folded history, and its events describe its changes. */
module InformerProofs {
  import opened Objects
  import opened History
  import opened QueueSpec
  import opened QueueProofs
  import opened InformerSpec

  /** A transform that always succeeds and keeps key and version. */
  ghost predicate Faithful(c: Config) {
    forall o :: c.transform(o).Some? && c.transform(o).value.key == o.key && c.transform(o).value.rv == o.rv
  }

  /** Whether a key passes the namespace and field filters. */
  predicate Admits(c: Config, k: Key) { NamespaceAllowed(c, k.namespace) && FieldsMatch(c, k) }

  function Transformed(c: Config, o: Object): Object {
    if c.transform(o).Some? then c.transform(o).value else o
  }

  /** What an informer should hold when the store holds `m`: the matching objects, transformed. */
  function Cached(c: Config, m: Snapshot): Snapshot {
    map k | k in m && Matches(c, m[k]) :: Transformed(c, m[k])
  }

  // ---- what the filters let in ----

  /** No namespaces are configured, or the key's is, or the one that stands for all is. */
  ghost predicate InNamespaces(c: Config, k: Key) {
    c.namespaces.None? || k.namespace in c.namespaces.value || "" in c.namespaces.value
  }

  /** Every term on a name or a namespace is met by the key's, and every other term by the empty string. */
  ghost predicate MeetsTerms(c: Config, k: Key) {
    c.fields.Some? ==> forall r :: r in c.fields.value ==>
      && (r.field == "metadata.name" ==> (r.equals <==> r.value == k.name))
      && (r.field == "metadata.namespace" ==> (r.equals <==> r.value == k.namespace))
      && (r.field != "metadata.name" && r.field != "metadata.namespace" ==> (r.equals <==> r.value == ""))
  }

  /** What a configuration asks for. */
  ghost predicate Wants(c: Config, k: Key, labels: Labels) {
    InNamespaces(c, k) && (c.labels.Some? ==> c.labels.value(labels)) && MeetsTerms(c, k)
  }

  lemma FieldsMatchIffMet(c: Config, k: Key)
    ensures FieldsMatch(c, k) <==> MeetsTerms(c, k)
  {
    if c.fields.Some? && MeetsTerms(c, k) {
      forall i | 0 <= i < |c.fields.value|
        ensures (FieldValue(k, c.fields.value[i].field) == c.fields.value[i].value) == c.fields.value[i].equals
      {
        assert c.fields.value[i] in c.fields.value;
      }
    }
  }

  /** The informer's filter lets in exactly what its configuration asks for. */
  lemma MatchesIffWanted(c: Config, o: Object)
    ensures Matches(c, o) <==> Wants(c, o.key, o.labels)
  {
    FieldsMatchIffMet(c, o.key);
  }

  ghost predicate Keyed(m: Snapshot) { forall k :: k in m ==> m[k].key == k }

  /** An event that can come next for objects `m`, newer than anything in them. */
  ghost predicate Follows(m: Snapshot, e: Event) {
    && (forall k :: k in m ==> m[k].rv < e.obj.rv)
    && (e.kind == Added ==> e.obj.key !in m)
    && (e.kind == Modified || e.kind == Deleted ==> e.obj.key in m)
  }

  /** The events take `was` to `now`, legally. */
  ghost predicate Explains(was: Snapshot, events: seq<CacheEvent>, now: Snapshot) {
    LegalAll(was, events) && SeeAll(was, events) == now
  }

  lemma ExplainsOne(was: Snapshot, e: CacheEvent)
    requires Legal(was, e)
    ensures Explains(was, [e], See(was, e))
  {
    assert [e][1..] == [];
  }

  lemma SetTracks(c: Config, m: Snapshot, e: Event)
    requires Faithful(c) && Keyed(m) && Follows(m, e) && (e.kind == Added || e.kind == Modified)
    ensures var eff := OnEvent(c, Cached(c, m), e);
      && eff.cache == Cached(c, m[e.obj.key := e.obj])
      && (forall n :: 0 <= n < |eff.events| ==> Legal(Cached(c, m), eff.events[n]))
      && (eff.events == [] ==> eff.cache == Cached(c, m))
      && (eff.events != [] ==> |eff.events| == 1 && eff.cache == See(Cached(c, m), eff.events[0]))
  {
    var cache, k := Cached(c, m), e.obj.key;
    assert k in cache ==> cache[k].rv < e.obj.rv;
    assert Cached(c, m[k := e.obj]) == if Matches(c, e.obj) then cache[k := Transformed(c, e.obj)] else cache - {k};
    assert k !in cache ==> cache - {k} == cache;
  }

  lemma DeleteTracks(c: Config, m: Snapshot, e: Event)
    requires Faithful(c) && Keyed(m) && e.kind == Deleted
    ensures var eff := OnEvent(c, Cached(c, m), e);
      && eff.cache == Cached(c, m - {e.obj.key})
      && (forall n :: 0 <= n < |eff.events| ==> Legal(Cached(c, m), eff.events[n]))
      && (eff.events == [] ==> eff.cache == Cached(c, m))
      && (eff.events != [] ==> |eff.events| == 1 && eff.cache == See(Cached(c, m), eff.events[0]))
  {
    assert Cached(c, m - {e.obj.key}) == Cached(c, m) - {e.obj.key};
  }

  /** A store event moves the cache exactly as it moves the store's objects. */
  lemma EventTracks(c: Config, m: Snapshot, e: Event)
    requires Faithful(c) && Keyed(m) && Follows(m, e)
    ensures var eff := OnEvent(c, Cached(c, m), e);
      && eff.cache == Cached(c, Apply(m, e))
      && Explains(Cached(c, m), eff.events, eff.cache)
  {
    if e.kind == Deleted {
      DeleteTracks(c, m, e);
    } else if e.kind != Bookmark {
      SetTracks(c, m, e);
    }
    var eff := OnEvent(c, Cached(c, m), e);
    if eff.events != [] {
      assert eff.events == [eff.events[0]];
      ExplainsOne(Cached(c, m), eff.events[0]);
    }
  }

  // ---- relist ----

  lemma {:induction false} ReplacedLookup(c: Config, items: seq<Object>, k: Key)
    requires Faithful(c)
    requires forall i, j :: 0 <= i < j < |items| ==> items[i].key != items[j].key
    ensures k in Replaced(c, items) ==> exists i :: 0 <= i < |items| && items[i].key == k && Matches(c, items[i])
    ensures forall i :: 0 <= i < |items| && items[i].key == k && Matches(c, items[i]) ==>
      k in Replaced(c, items) && Replaced(c, items)[k] == Transformed(c, items[i])
  {
    if items != [] {
      var n := |items| - 1;
      ReplacedLookup(c, items[..n], k);
      assert forall i :: 0 <= i < n ==> items[..n][i] == items[i];
    }
  }

  /** A relist leaves exactly the view of the listed objects. */
  lemma ReplacedIsCached(c: Config, items: seq<Object>, m: Snapshot)
    requires Faithful(c) && Enumerates(items, m) && Keyed(m)
    ensures Replaced(c, items) == Cached(c, m)
  {
    var a, b := Replaced(c, items), Cached(c, m);
    forall k ensures Lookup(a, k) == Lookup(b, k) {
      ReplacedLookup(c, items, k);
      if k in m {
        var i :| 0 <= i < |items| && items[i] == m[k];
        assert items[i].key == k;
      }
    }
    SameLookups(a, b);
  }

  /** The item is asked for and its transform succeeds. */
  ghost predicate Kept(c: Config, o: Object) { Wants(c, o.key, o.labels) && c.transform(o).Some? }

  /** The last kept item of its key. */
  ghost predicate LastKept(c: Config, items: seq<Object>, i: int) {
    && 0 <= i < |items| && Kept(c, items[i])
    && forall j :: i < j < |items| && items[j].key == items[i].key ==> !Kept(c, items[j])
  }

  lemma ReplacedSnoc(c: Config, items: seq<Object>)
    requires items != [] && forall o :: c.transform(o).Some? ==> c.transform(o).value.key == o.key
    ensures var o := items[|items| - 1]; var rest := Replaced(c, items[..|items| - 1]);
      Replaced(c, items) == if Kept(c, o) then rest[o.key := c.transform(o).value] else rest
  {
    MatchesIffWanted(c, items[|items| - 1]);
  }

  /** A key is in the relisted cache exactly when one of its items is kept. */
  lemma {:induction false} ReplacedKeepsWanted(c: Config, items: seq<Object>, k: Key)
    requires forall o :: c.transform(o).Some? ==> c.transform(o).value.key == o.key
    ensures k in Replaced(c, items) <==> exists i :: 0 <= i < |items| && items[i].key == k && Kept(c, items[i])
  {
    if items != [] {
      var n := |items| - 1;
      ReplacedSnoc(c, items);
      ReplacedKeepsWanted(c, items[..n], k);
      assert forall i :: 0 <= i < n ==> items[..n][i] == items[i];
    }
  }

  /** And then it is the last of them, transformed. */
  lemma {:induction false} ReplacedIsLastKept(c: Config, items: seq<Object>, i: int)
    requires LastKept(c, items, i) && forall o :: c.transform(o).Some? ==> c.transform(o).value.key == o.key
    ensures Lookup(Replaced(c, items), items[i].key) == c.transform(items[i])
  {
    var n := |items| - 1;
    ReplacedSnoc(c, items);
    if i < n {
      ReplacedIsLastKept(c, items[..n], i);
    }
  }

  // ---- what a relist and a resync tell about each key ----

  lemma {:induction false} VanishedOfKey(was: Snapshot, now: Snapshot, order: seq<Key>, k: Key)
    requires Keyed(was)
    requires forall i, j :: 0 <= i < j < |order| ==> order[i] != order[j]
    ensures OfKey(Vanished(was, now, order), k) == if k in order then VanishedAt(was, now, k) else []
  {
    if order != [] {
      OfKeyConcat(VanishedAt(was, now, order[0]), Vanished(was, now, order[1..]), k);
      OfKeyUniform(VanishedAt(was, now, order[0]), order[0], k);
      VanishedOfKey(was, now, order[1..], k);
    }
  }

  lemma {:induction false} ChangedOfKey(was: Snapshot, now: Snapshot, order: seq<Key>, k: Key)
    requires Keyed(now)
    requires forall i, j :: 0 <= i < j < |order| ==> order[i] != order[j]
    ensures OfKey(Changed(was, now, order), k) == if k in order then ChangedAt(was, now, k) else []
  {
    if order != [] {
      OfKeyConcat(ChangedAt(was, now, order[0]), Changed(was, now, order[1..]), k);
      OfKeyUniform(ChangedAt(was, now, order[0]), order[0], k);
      ChangedOfKey(was, now, order[1..], k);
    }
  }

  lemma {:induction false} ResyncedOfKey(cache: Snapshot, order: seq<Key>, k: Key)
    requires Keyed(cache)
    requires forall i, j :: 0 <= i < j < |order| ==> order[i] != order[j]
    ensures OfKey(Resynced(cache, order), k) == if k in order then AgainAt(cache, k) else []
  {
    if order != [] {
      OfKeyConcat(AgainAt(cache, order[0]), Resynced(cache, order[1..]), k);
      OfKeyUniform(AgainAt(cache, order[0]), order[0], k);
      ResyncedOfKey(cache, order[1..], k);
    }
  }

  /** In any iteration order, a relist tells each key's difference once. */
  lemma DiffTellsEachKey(was: Snapshot, now: Snapshot, wasOrder: seq<Key>, nowOrder: seq<Key>, k: Key)
    requires Keyed(was) && Keyed(now) && Orders(wasOrder, was.Keys) && Orders(nowOrder, now.Keys)
    ensures OfKey(Diff(was, now, wasOrder, nowOrder), k) ==
      if k in was && k !in now then [DeleteEvent(was[k])]
      else if k !in was && k in now then [AddEvent(now[k], true)]
      else if k in was && k in now && was[k].rv != now[k].rv then [UpdateEvent(was[k], now[k])]
      else []
  {
    OfKeyConcat(Vanished(was, now, wasOrder), Changed(was, now, nowOrder), k);
    VanishedOfKey(was, now, wasOrder, k);
    ChangedOfKey(was, now, nowOrder, k);
    assert (k in wasOrder <==> k in was) && (k in nowOrder <==> k in now);
    assert OfKey(Diff(was, now, wasOrder, nowOrder), k) == VanishedAt(was, now, k) + ChangedAt(was, now, k);
  }

  /** In any iteration order, a resync tells each cached key once, as an update from itself. */
  lemma ResyncTellsEachKey(cache: Snapshot, order: seq<Key>, k: Key)
    requires Keyed(cache) && Orders(order, cache.Keys)
    ensures OfKey(Resynced(cache, order), k) == if k in cache then [UpdateEvent(cache[k], cache[k])] else []
  {
    ResyncedOfKey(cache, order, k);
  }

  // ---- and that it is legal ----

  lemma {:induction false} VanishedExplains(was: Snapshot, now: Snapshot, m: Snapshot, order: seq<Key>)
    requires Keyed(was)
    requires forall i, j :: 0 <= i < j < |order| ==> order[i] != order[j]
    requires forall k :: k in order ==> Lookup(m, k) == Lookup(was, k)
    ensures LegalAll(m, Vanished(was, now, order))
    ensures forall k :: Lookup(SeeAll(m, Vanished(was, now, order)), k)
                     == if k in order && k !in now then None else Lookup(m, k)
    decreases |order|
  {
    if order != [] {
      var k, rest := order[0], order[1..];
      assert Lookup(m, k) == Lookup(was, k);
      assert forall j :: j in order <==> j == k || j in rest;
      if k in was && k !in now {
        VanishedExplains(was, now, m - {k}, rest);
        assert Vanished(was, now, order)[1..] == Vanished(was, now, rest);
      } else {
        VanishedExplains(was, now, m, rest);
        assert Vanished(was, now, order) == Vanished(was, now, rest);
      }
    }
  }

  lemma {:induction false} ChangedExplains(was: Snapshot, now: Snapshot, m: Snapshot, order: seq<Key>)
    requires Keyed(now)
    requires forall i, j :: 0 <= i < j < |order| ==> order[i] != order[j]
    requires forall k :: k in was && k in now && was[k].rv == now[k].rv ==> was[k] == now[k]
    requires forall k :: k in order ==> k in now && Lookup(m, k) == Lookup(was, k)
    requires forall k :: k !in order ==> Lookup(m, k) == Lookup(now, k)
    ensures Explains(m, Changed(was, now, order), now)
    decreases |order|
  {
    if order == [] {
      SameLookups(m, now);
    } else {
      var k := order[0];
      var rest := order[1..];
      var m' := m[k := now[k]];
      assert Lookup(m, k) == Lookup(was, k);
      forall j ensures j in rest ==> j in now && Lookup(m', j) == Lookup(was, j) {}
      forall j | j !in rest ensures Lookup(m', j) == Lookup(now, j) {
        assert j != k ==> j !in order;
      }
      ChangedExplains(was, now, m', rest);
      if k in was && was[k].rv == now[k].rv {
        assert m' == m;
        assert Changed(was, now, order) == Changed(was, now, rest);
      } else {
        assert Changed(was, now, order)[1..] == Changed(was, now, rest);
      }
    }
  }

  /** A relist's events legally take any handler from the old cache to the new one. */
  lemma DiffExplains(was: Snapshot, now: Snapshot, wasOrder: seq<Key>, nowOrder: seq<Key>)
    requires Keyed(was) && Keyed(now)
    requires Orders(wasOrder, was.Keys) && Orders(nowOrder, now.Keys)
    requires forall k :: k in was && k in now && was[k].rv == now[k].rv ==> was[k] == now[k]
    ensures Explains(was, Diff(was, now, wasOrder, nowOrder), now)
  {
    var m := SeeAll(was, Vanished(was, now, wasOrder));
    VanishedExplains(was, now, was, wasOrder);
    ChangedExplains(was, now, m, nowOrder);
    SeeAllConcat(was, Vanished(was, now, wasOrder), Changed(was, now, nowOrder));
  }

  lemma {:induction false} ResyncExplains(cache: Snapshot, order: seq<Key>)
    requires Keyed(cache)
    ensures Explains(cache, Resynced(cache, order), cache)
  {
    if order != [] {
      ResyncExplains(cache, order[1..]);
      if order[0] in cache {
        var k := order[0];
        assert Resynced(cache, order)[1..] == Resynced(cache, order[1..]);
        assert cache[k := cache[k]] == cache;
      } else {
        assert Resynced(cache, order) == Resynced(cache, order[1..]);
      }
    }
  }
}
