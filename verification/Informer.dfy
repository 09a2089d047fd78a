/**
  The event queue and the informer as the mutable objects they are. Each
  method is proved to do what `QueueSpec` and `InformerSpec` say, and the
  informer keeps its secondary indices in agreement with its objects.
*/
module Informers {
  import opened Objects
  import opened IndexSpec
  import Q = QueueSpec
  import I = InformerSpec
  import P = InformerProofs
  import QueueProofs

  /** One more requirement keeps the objects that meet it. */
  lemma ScanStep(objects: Snapshot, indexers: map<string, Extractor>, reqs: seq<FieldRequirement>, n: nat)
    requires n < |reqs|
    ensures forall k :: k in objects ==>
      (Satisfies(objects[k], indexers, reqs[..n + 1]) <==>
        && Satisfies(objects[k], indexers, reqs[..n])
        && (reqs[n].equals ==> reqs[n].field in indexers && reqs[n].value in indexers[reqs[n].field](objects[k])))
  {
    assert reqs[..n + 1] == reqs[..n] + [reqs[n]];
  }

  lemma ScanAll(objects: Snapshot, indexers: map<string, Extractor>, reqs: seq<FieldRequirement>)
    requires forall m :: 0 <= m < |reqs| ==> !reqs[m].equals
    ensures Scan(objects, indexers, reqs) == objects
  {
  }

  lemma OrdersMore(order: seq<Key>, s: set<Key>, k: Key)
    requires Orders(order, s) && k !in s
    ensures Orders(order + [k], s + {k})
  {
    assert forall j :: 0 <= j < |order| ==> order[j] in order;
  }

  lemma {:induction false} VanishedSnoc(was: Snapshot, now: Snapshot, order: seq<Key>, k: Key)
    ensures I.Vanished(was, now, order + [k]) == I.Vanished(was, now, order) + I.VanishedAt(was, now, k)
  {
    var longer := order + [k];
    if order == [] {
      assert longer == [k] && [k][1..] == [];
    } else {
      assert longer[0] == order[0] && longer[1..] == order[1..] + [k];
      VanishedSnoc(was, now, order[1..], k);
    }
  }

  lemma {:induction false} ChangedSnoc(was: Snapshot, now: Snapshot, order: seq<Key>, k: Key)
    ensures I.Changed(was, now, order + [k]) == I.Changed(was, now, order) + I.ChangedAt(was, now, k)
  {
    var longer := order + [k];
    if order == [] {
      assert longer == [k] && [k][1..] == [];
    } else {
      assert longer[0] == order[0] && longer[1..] == order[1..] + [k];
      ChangedSnoc(was, now, order[1..], k);
    }
  }

  lemma {:induction false} ResyncedSnoc(cache: Snapshot, order: seq<Key>, k: Key)
    ensures I.Resynced(cache, order + [k]) == I.Resynced(cache, order) + I.AgainAt(cache, k)
  {
    var longer := order + [k];
    if order == [] {
      assert longer == [k] && [k][1..] == [];
    } else {
      assert longer[0] == order[0] && longer[1..] == order[1..] + [k];
      ResyncedSnoc(cache, order[1..], k);
    }
  }

  /** Enqueue a sequence of events, each under its object's key. */
  ghost function EnqueueAll(q: Q.Queue, es: seq<Q.CacheEvent>): Q.Queue
    decreases |es|
  {
    if es == [] then q else EnqueueAll(Q.Enqueue(q, es[0].obj.key, es[0]), es[1..])
  }

  lemma {:induction false} EnqueueAllConcat(q: Q.Queue, a: seq<Q.CacheEvent>, b: seq<Q.CacheEvent>)
    ensures EnqueueAll(q, a + b) == EnqueueAll(EnqueueAll(q, a), b)
    decreases |a|
  {
    if a == [] {
      assert a + b == b;
    } else {
      assert (a + b)[1..] == a[1..] + b;
      EnqueueAllConcat(Q.Enqueue(q, a[0].obj.key, a[0]), a[1..], b);
    }
  }

  /** At most one more event to enqueue. */
  lemma EnqueueAllMore(q: Q.Queue, es: seq<Q.CacheEvent>, more: seq<Q.CacheEvent>)
    requires |more| <= 1
    ensures EnqueueAll(q, es + more) ==
      if more == [] then EnqueueAll(q, es) else Q.Enqueue(EnqueueAll(q, es), more[0].obj.key, more[0])
  {
    EnqueueAllConcat(q, es, more);
    assert more != [] ==> more[1..] == [];
  }

  /** Events joined one after the other to what is pending for a key. */
  ghost function JoinAll(p: seq<Q.CacheEvent>, es: seq<Q.CacheEvent>): seq<Q.CacheEvent>
    decreases |es|
  {
    if es == [] then p else JoinAll(Q.Join(p, es[0]), es[1..])
  }

  /** What enqueueing does to one key: the key's events join what was pending for it. */
  lemma {:induction false} EnqueueAllOfKey(q: Q.Queue, es: seq<Q.CacheEvent>, k: Key)
    ensures EnqueueAll(q, es).closed == q.closed
    ensures Q.PendingOf(EnqueueAll(q, es).pending, k) ==
      if q.closed then Q.PendingOf(q.pending, k) else JoinAll(Q.PendingOf(q.pending, k), Q.OfKey(es, k))
    decreases |es|
  {
    if es != [] {
      var e := es[0];
      EnqueueAllOfKey(Q.Enqueue(q, e.obj.key, e), es[1..], k);
      if e.obj.key == k {
        assert Q.OfKey(es, k)[1..] == Q.OfKey(es[1..], k);
      } else {
        assert Q.OfKey(es, k) == Q.OfKey(es[1..], k);
      }
    }
  }

  /** At most one event of the key. */
  lemma EnqueueAllAtMostOne(q: Q.Queue, es: seq<Q.CacheEvent>, k: Key)
    requires |Q.OfKey(es, k)| <= 1
    ensures var p := Q.PendingOf(q.pending, k);
      Q.PendingOf(EnqueueAll(q, es).pending, k) ==
        if q.closed || Q.OfKey(es, k) == [] then p else Q.Join(p, Q.OfKey(es, k)[0])
  {
    EnqueueAllOfKey(q, es, k);
    assert Q.OfKey(es, k) != [] ==> Q.OfKey(es, k)[1..] == [];
  }

  class EventQueue {
    var order: seq<Key>
    var pending: map<Key, seq<Q.CacheEvent>>
    var closed: bool

    ghost function State(): Q.Queue
      reads this
    {
      Q.Queue(order, pending, closed)
    }

    ghost predicate Valid()
      reads this
    {
      forall k :: k in pending ==> pending[k] != []
    }

    constructor ()
      ensures Valid() && State() == Q.Queue([], map[], false)
    {
      order, pending, closed := [], map[], false;
    }

    method Enqueue(key: Key, evt: Q.CacheEvent)
      requires Valid()
      modifies this
      ensures Valid() && State() == Q.Enqueue(old(State()), key, evt)
    {
      if closed {
        return;
      }
      if key !in pending {
        pending := pending[key := [evt]];
        order := order + [key];
      } else {
        var existing := pending[key];
        var last := existing[|existing| - 1];
        if last.DeleteEvent? && evt.AddEvent? {
          pending := pending[key := existing + [evt]];
        } else {
          var coalesced := Q.Coalesce(last, evt);
          if coalesced.None? {
            existing := existing[..|existing| - 1];
            if |existing| == 0 {
              pending := pending - {key};
            } else {
              pending := pending[key := existing];
            }
          } else {
            pending := pending[key := existing[..|existing| - 1] + [coalesced.value]];
          }
        }
      }
    }

    /** Everything pending at once; None once closed and empty. It waits otherwise. */
    method Drain() returns (result: Option<(seq<Key>, map<Key, seq<Q.CacheEvent>>)>)
      requires Valid() && (pending != map[] || closed)
      modifies this
      ensures Valid()
      ensures old(pending) == map[] ==> result.None? && State() == old(State())
      ensures old(pending) != map[] ==>
        result == Some((old(order), old(pending))) && State() == Q.Drained(old(State()))
    {
      if closed && pending == map[] {
        return None;
      }
      result := Some((order, pending));
      order, pending := [], map[];
    }

    method Close()
      modifies this`closed
      ensures State() == old(State()).(closed := true)
    {
      closed := true;
    }
  }

  /** One round of `processEvents`: the handler calls a drained batch makes, in order. */
  method ProcessBatch(order: seq<Key>, events: map<Key, seq<Q.CacheEvent>>) returns (calls: seq<Q.CacheEvent>)
    ensures calls == Q.Deliveries(order, {}, events)
  {
    calls := [];
    var seen: set<Key> := {};
    for n := 0 to |order|
      invariant Q.Deliveries(order, {}, events) == calls + Q.Deliveries(order[n..], seen, events)
    {
      var key := order[n];
      assert order[n..][0] == key && order[n..][1..] == order[n + 1..];
      if key in seen {
        continue;
      }
      seen := seen + {key};
      var batch := if key in events then events[key] else [];
      ghost var before := calls;
      for m := 0 to |batch|
        invariant calls == before + batch[..m]
      {
        calls := calls + [batch[m]];
      }
      assert calls == before + batch;
      assert before + (batch + Q.Deliveries(order[n + 1..], seen, events))
          == calls + Q.Deliveries(order[n + 1..], seen, events);
    }
    assert order[|order|..] == [];
  }

  /** The order a `range` over a map happens to visit its keys in. */
  method RangeOver(keys: set<Key>) returns (order: seq<Key>)
    ensures Orders(order, keys)
  {
    order := [];
    var todo := keys;
    while todo != {}
      invariant todo <= keys && Orders(order, keys - todo)
      decreases |todo|
    {
      var key :| key in todo;
      OrdersMore(order, keys - todo, key);
      assert keys - todo + {key} == keys - (todo - {key});
      order, todo := order + [key], todo - {key};
    }
    assert keys - todo == keys;
  }

  class StoreInformer {
    const config: I.Config
    const queue: EventQueue
    var objects: Snapshot
    var indexers: map<string, Extractor>
    var indices: Indices

    /** Transforms may fail or strip fields, but they leave an object its key. */
    ghost predicate KeepsKeys() {
      forall o :: config.transform(o).Some? ==> config.transform(o).value.key == o.key
    }

    ghost predicate Valid()
      reads this, queue
    {
      && queue.Valid() && KeepsKeys()
      && (forall k :: k in objects ==> objects[k].key == k)
      && Agrees(objects, indexers, indices)
    }

    constructor (config: I.Config)
      requires forall o :: config.transform(o).Some? ==> config.transform(o).value.key == o.key
      ensures Valid() && fresh(queue)
      ensures objects == map[] && this.config == config && queue.State() == Q.Queue([], map[], false)
    {
      this.config := config;
      queue := new EventQueue();
      objects, indexers, indices := map[], map[], map[];
    }

    // ---- indices ----

    static method FilterKeys(keys: seq<Key>, key: Key) returns (newKeys: seq<Key>)
      ensures newKeys == Without(keys, key)
    {
      newKeys := [];
      for n := 0 to |keys|
        invariant newKeys == Without(keys[..n], key)
      {
        assert keys[..n + 1][..n] == keys[..n];
        if keys[n] != key {
          newKeys := newKeys + [keys[n]];
        }
      }
      assert keys[..|keys|] == keys;
    }

    static method ForgetKey(index: Index, key: Key) returns (r: Index)
      ensures r == Forget(index, key)
    {
      r := index;
      var todo := index.Keys;
      while todo != {}
        invariant todo <= index.Keys
        invariant r == map v | v in index && (v in todo || Without(index[v], key) != [])
          :: if v in todo then index[v] else Without(index[v], key)
        decreases |todo|
      {
        var value :| value in todo;
        todo := todo - {value};
        var newKeys := FilterKeys(index[value], key);
        if |newKeys| > 0 {
          r := r[value := newKeys];
        } else {
          r := r - {value};
        }
      }
    }

    method RemoveFromIndices(key: Key)
      modifies `indices
      ensures indices == map f | f in old(indices) :: Forget(old(indices)[f], key)
    {
      var todo := indices.Keys;
      while todo != {}
        invariant todo <= old(indices).Keys && indices.Keys == old(indices).Keys
        invariant forall f :: f in indices && f in todo ==> indices[f] == old(indices)[f]
        invariant forall f :: f in indices && f !in todo ==> indices[f] == Forget(old(indices)[f], key)
        decreases |todo|
      {
        var name :| name in todo;
        todo := todo - {name};
        var index := ForgetKey(indices[name], key);
        indices := indices[name := index];
      }
    }

    static method Insert(index: Index, values: seq<string>, key: Key) returns (r: Index)
      ensures r == AddValues(index, values, key)
    {
      r := index;
      for n := 0 to |values|
        invariant r == AddValues(index, values[..n], key)
      {
        assert values[..n + 1][..n] == values[..n];
        var v := values[n];
        r := r[v := (if v in r then r[v] else []) + [key]];
      }
      assert values[..|values|] == values;
    }

    method AddToIndices(key: Key, obj: Object)
      requires indices.Keys == indexers.Keys
      modifies `indices
      ensures indices.Keys == indexers.Keys
      ensures forall f :: f in indices ==> indices[f] == AddValues(old(indices)[f], indexers[f](obj), key)
    {
      var todo := indexers.Keys;
      while todo != {}
        invariant todo <= indexers.Keys && indices.Keys == indexers.Keys
        invariant forall f :: f in indices && f in todo ==> indices[f] == old(indices)[f]
        invariant forall f :: f in indices && f !in todo ==>
          indices[f] == AddValues(old(indices)[f], indexers[f](obj), key)
        decreases |todo|
      {
        var name :| name in todo;
        todo := todo - {name};
        var index := Insert(indices[name], indexers[name](obj), key);
        indices := indices[name := index];
      }
    }

    /** Re-index one key: whatever was there before, afterwards only the new object counts. */
    method RebuildIndicesForObject(key: Key, obj: Object, ghost before: Snapshot)
      requires Agrees(before, indexers, indices)
      modifies `indices
      ensures Agrees(before[key := obj], indexers, indices)
    {
      ghost var start := indices;
      RemoveFromIndices(key);
      ghost var rest := before - {key};
      forall f | f in indices ensures IndexAgrees(rest, indexers[f], indices[f]) {
        ForgetAgrees(before, indexers[f], start[f], key);
      }
      ghost var mid := indices;
      AddToIndices(key, obj);
      assert rest[key := obj] == before[key := obj];
      forall f | f in indices ensures IndexAgrees(before[key := obj], indexers[f], indices[f]) {
        AddAgrees(rest, indexers[f], mid[f], key, obj);
      }
    }

    method DropFromIndices(key: Key, ghost before: Snapshot)
      requires Agrees(before, indexers, indices)
      modifies `indices
      ensures Agrees(before - {key}, indexers, indices)
    {
      ghost var start := indices;
      RemoveFromIndices(key);
      forall f | f in indices ensures IndexAgrees(before - {key}, indexers[f], indices[f]) {
        ForgetAgrees(before, indexers[f], start[f], key);
      }
    }

    /** One index over the objects already cached. */
    method BuildIndex(extract: Extractor) returns (index: Index)
      ensures IndexAgrees(objects, extract, index)
    {
      index := map[];
      var todo := objects.Keys;
      while todo != {}
        invariant todo <= objects.Keys
        invariant IndexAgrees(objects - todo, extract, index)
        decreases |todo|
      {
        var key :| key in todo;
        AddAgrees(objects - todo, extract, index, key, objects[key]);
        assert (objects - todo)[key := objects[key]] == objects - (todo - {key});
        todo := todo - {key};
        index := Insert(index, extract(objects[key]), key);
      }
      assert objects - todo == objects;
    }

    /** Register (or replace) an index over the objects already cached. */
    method AddIndexer(field: string, extract: Extractor)
      requires Valid()
      modifies `indexers, `indices
      ensures Valid() && indexers == old(indexers)[field := extract]
    {
      var index := BuildIndex(extract);
      indexers := indexers[field := extract];
      indices := indices[field := index];
    }

    // ---- events ----

    method Add(obj: Object)
      requires Valid()
      modifies `objects, `indices, queue
      ensures Valid()
      ensures var eff := I.OnAdded(config, old(objects), obj);
        && objects == eff.cache
        && queue.State() == EnqueueAll(old(queue.State()), eff.events)
      ensures var t := config.transform(obj);
        if P.Kept(config, obj) && (obj.key in old(objects) ==> t.value.rv > old(objects)[obj.key].rv)
        then objects == old(objects)[obj.key := t.value]
          && queue.State() == Q.Enqueue(old(queue.State()), obj.key, Q.AddEvent(t.value, false))
        else objects == old(objects) && queue.State() == old(queue.State())
    {
      P.MatchesIffWanted(config, obj);
      if !I.Matches(config, obj) {
        return;
      }
      var transformed := config.transform(obj);
      if transformed.None? {
        return;
      }
      var t := transformed.value;
      if t.key in objects && !I.Newer(t, objects[t.key]) {
        return;
      }
      ghost var before := objects;
      objects := objects[t.key := t];
      RebuildIndicesForObject(t.key, t, before);
      queue.Enqueue(t.key, Q.AddEvent(t, false));
    }

    method Update(obj: Object)
      requires Valid()
      modifies `objects, `indices, queue
      ensures Valid()
      ensures var eff := I.OnModified(config, old(objects), obj);
        && objects == eff.cache
        && queue.State() == EnqueueAll(old(queue.State()), eff.events)
      ensures var was, q, k := old(objects), old(queue.State()), obj.key;
        if !P.Wants(config, k, obj.labels) && k in was && obj.rv > was[k].rv
        then objects == was - {k} && queue.State() == Q.Enqueue(q, k, Q.DeleteEvent(was[k]))
        else if P.Kept(config, obj) && k !in was
        then objects == was[k := config.transform(obj).value]
          && queue.State() == Q.Enqueue(q, k, Q.AddEvent(config.transform(obj).value, false))
        else if P.Kept(config, obj) && config.transform(obj).value.rv > was[k].rv
        then objects == was[k := config.transform(obj).value]
          && queue.State() == Q.Enqueue(q, k, Q.UpdateEvent(was[k], config.transform(obj).value))
        else objects == was && queue.State() == q
    {
      P.MatchesIffWanted(config, obj);
      var key := obj.key;
      ghost var before := objects;
      if !I.Matches(config, obj) {
        if key in objects && I.Newer(obj, objects[key]) {
          var cached := objects[key];
          objects := objects - {key};
          DropFromIndices(key, before);
          queue.Enqueue(key, Q.DeleteEvent(cached));
        }
        return;
      }
      var transformed := config.transform(obj);
      if transformed.None? {
        return;
      }
      var t := transformed.value;
      var existed := key in objects;
      var oldObj := if existed then objects[key] else t;
      if existed && !I.Newer(t, oldObj) {
        return;
      }
      objects := objects[key := t];
      RebuildIndicesForObject(key, t, before);
      if !existed {
        queue.Enqueue(key, Q.AddEvent(t, false));
      } else {
        queue.Enqueue(key, Q.UpdateEvent(oldObj, t));
      }
    }

    method Delete(obj: Object)
      requires Valid()
      modifies `objects, `indices, queue
      ensures Valid()
      ensures var eff := I.OnDeleted(old(objects), obj);
        && objects == eff.cache
        && queue.State() == EnqueueAll(old(queue.State()), eff.events)
      ensures objects == old(objects) - {obj.key}
      ensures queue.State() ==
        if obj.key in old(objects)
        then Q.Enqueue(old(queue.State()), obj.key, Q.DeleteEvent(old(objects)[obj.key]))
        else old(queue.State())
    {
      var key := obj.key;
      if key in objects {
        var cached := objects[key];
        ghost var before := objects;
        objects := objects - {key};
        DropFromIndices(key, before);
        queue.Enqueue(key, Q.DeleteEvent(cached));
      }
    }

    /** One turn of the watch loop: remember the newest version seen, then dispatch. */
    method HandleEvent(event: Event, lastRV: nat) returns (newest: nat)
      requires Valid()
      modifies `objects, `indices, queue
      ensures Valid()
      ensures var eff := I.OnEvent(config, old(objects), event);
        && objects == eff.cache
        && queue.State() == EnqueueAll(old(queue.State()), eff.events)
      ensures newest >= lastRV && newest >= event.obj.rv && (newest == lastRV || newest == event.obj.rv)
    {
      newest := lastRV;
      if event.obj.rv > newest {
        newest := event.obj.rv;
      }
      match event.kind {
        case Added => Add(event.obj);
        case Modified => Update(event.obj);
        case Deleted => Delete(event.obj);
        case Bookmark =>
      }
    }

    /** The cache a relist builds, before the indices catch up. */
    method LoadItems(items: seq<Object>) returns (loaded: Snapshot)
      requires KeepsKeys()
      ensures loaded == I.Replaced(config, items)
      ensures forall k :: k in loaded ==> loaded[k].key == k
    {
      loaded := map[];
      for n := 0 to |items|
        invariant loaded == I.Replaced(config, items[..n])
        invariant forall k :: k in loaded ==> loaded[k].key == k
      {
        assert items[..n + 1][..n] == items[..n];
        var obj := items[n];
        if !I.Matches(config, obj) {
          continue;
        }
        var transformed := config.transform(obj);
        if transformed.None? {
          continue;
        }
        loaded := loaded[transformed.value.key := transformed.value];
      }
      assert items[..|items|] == items;
    }

    method IndexAllObjects()
      requires Agrees(map[], indexers, indices)
      modifies `indices
      ensures Agrees(objects, indexers, indices)
    {
      var todo := objects.Keys;
      ghost var done: Snapshot := map[];
      while todo != {}
        invariant todo <= objects.Keys && done == objects - todo
        invariant Agrees(done, indexers, indices)
        decreases |todo|
      {
        var key :| key in todo;
        todo := todo - {key};
        RebuildIndicesForObject(key, objects[key], done);
        done := done[key := objects[key]];
      }
      assert done == objects;
    }

    /** Empty every index and re-index all objects. */
    method RebuildAllIndices()
      requires indices.Keys == indexers.Keys
      modifies `indices
      ensures Agrees(objects, indexers, indices)
    {
      indices := map f | f in indices :: map[];
      assert indices.Keys == indexers.Keys;
      IndexAllObjects();
    }

    method EnqueueVanished(was: Snapshot, now: Snapshot) returns (order: seq<Key>)
      requires queue.Valid() && forall k :: k in was ==> was[k].key == k
      modifies queue
      ensures queue.Valid() && Orders(order, was.Keys)
      ensures queue.State() == EnqueueAll(old(queue.State()), I.Vanished(was, now, order))
    {
      order := RangeOver(was.Keys);
      for n := 0 to |order|
        invariant queue.Valid()
        invariant queue.State() == EnqueueAll(old(queue.State()), I.Vanished(was, now, order[..n]))
      {
        var key := order[n];
        assert order[..n + 1] == order[..n] + [key] && key in order;
        VanishedSnoc(was, now, order[..n], key);
        EnqueueAllMore(old(queue.State()), I.Vanished(was, now, order[..n]), I.VanishedAt(was, now, key));
        assert key in was && was[key].key == key;
        if key !in now {
          queue.Enqueue(key, Q.DeleteEvent(was[key]));
        }
      }
      assert order[..|order|] == order;
    }

    method EnqueueChanged(was: Snapshot, now: Snapshot) returns (order: seq<Key>)
      requires queue.Valid() && forall k :: k in now ==> now[k].key == k
      modifies queue
      ensures queue.Valid() && Orders(order, now.Keys)
      ensures queue.State() == EnqueueAll(old(queue.State()), I.Changed(was, now, order))
    {
      order := RangeOver(now.Keys);
      for n := 0 to |order|
        invariant queue.Valid()
        invariant queue.State() == EnqueueAll(old(queue.State()), I.Changed(was, now, order[..n]))
      {
        var key := order[n];
        assert order[..n + 1] == order[..n] + [key] && key in order;
        ChangedSnoc(was, now, order[..n], key);
        EnqueueAllMore(old(queue.State()), I.Changed(was, now, order[..n]), I.ChangedAt(was, now, key));
        assert key in now && now[key].key == key;
        if key !in was {
          queue.Enqueue(key, Q.AddEvent(now[key], true));
        } else if was[key].rv != now[key].rv {
          queue.Enqueue(key, Q.UpdateEvent(was[key], now[key]));
        }
      }
      assert order[..|order|] == order;
    }

    /** What a relist leaves pending for a key. */
    static ghost function Told(was: Snapshot, now: Snapshot, p: seq<Q.CacheEvent>, k: Key): seq<Q.CacheEvent> {
      if k in was && k !in now then Q.Join(p, Q.DeleteEvent(was[k]))
      else if k !in was && k in now then Q.Join(p, Q.AddEvent(now[k], true))
      else if k in was && k in now && was[k].rv != now[k].rv then Q.Join(p, Q.UpdateEvent(was[k], now[k]))
      else p
    }

    /** Relist: new cache, new indices, then the difference as handler events. */
    method ReplaceAll(items: seq<Object>) returns (wasOrder: seq<Key>, nowOrder: seq<Key>)
      requires Valid()
      modifies `objects, `indices, queue
      ensures Valid() && objects == I.Replaced(config, items)
      ensures Orders(wasOrder, old(objects).Keys) && Orders(nowOrder, objects.Keys)
      ensures queue.State() == EnqueueAll(old(queue.State()), I.Diff(old(objects), objects, wasOrder, nowOrder))
      ensures forall k :: k in objects <==>
        exists i :: 0 <= i < |items| && items[i].key == k && P.Kept(config, items[i])
      ensures forall i :: P.LastKept(config, items, i) ==> Lookup(objects, items[i].key) == config.transform(items[i])
      ensures forall k :: !old(queue.closed) ==>
        Q.PendingOf(queue.pending, k) == Told(old(objects), objects, Q.PendingOf(old(queue.pending), k), k)
    {
      var oldObjects := objects;
      objects := LoadItems(items);
      RebuildAllIndices();
      wasOrder := EnqueueVanished(oldObjects, objects);
      nowOrder := EnqueueChanged(oldObjects, objects);
      EnqueueAllConcat(
        old(queue.State()), I.Vanished(oldObjects, objects, wasOrder), I.Changed(oldObjects, objects, nowOrder));
      forall k ensures k in objects <==> exists i :: 0 <= i < |items| && items[i].key == k && P.Kept(config, items[i]) {
        P.ReplacedKeepsWanted(config, items, k);
      }
      forall i | P.LastKept(config, items, i) ensures Lookup(objects, items[i].key) == config.transform(items[i]) {
        P.ReplacedIsLastKept(config, items, i);
      }
      forall k ensures !old(queue.closed) ==>
        Q.PendingOf(queue.pending, k) == Told(oldObjects, objects, Q.PendingOf(old(queue.pending), k), k)
      {
        P.DiffTellsEachKey(oldObjects, objects, wasOrder, nowOrder, k);
        EnqueueAllAtMostOne(old(queue.State()), I.Diff(oldObjects, objects, wasOrder, nowOrder), k);
      }
    }

    /** Resync: every cached object again, as an update from itself. */
    method Resync() returns (order: seq<Key>)
      requires Valid()
      modifies queue
      ensures Valid() && Orders(order, objects.Keys)
      ensures queue.State() == EnqueueAll(old(queue.State()), I.Resynced(objects, order))
      ensures forall k :: !old(queue.closed) ==>
        var p := Q.PendingOf(old(queue.pending), k);
        Q.PendingOf(queue.pending, k) == if k in objects then Q.Join(p, Q.UpdateEvent(objects[k], objects[k])) else p
    {
      var snapshot := objects;
      order := RangeOver(snapshot.Keys);
      for n := 0 to |order|
        invariant queue.Valid()
        invariant queue.State() == EnqueueAll(old(queue.State()), I.Resynced(snapshot, order[..n]))
      {
        var key := order[n];
        assert order[..n + 1] == order[..n] + [key] && key in order;
        var again := Q.UpdateEvent(snapshot[key], snapshot[key]);
        ResyncedSnoc(snapshot, order[..n], key);
        EnqueueAllMore(old(queue.State()), I.Resynced(snapshot, order[..n]), I.AgainAt(snapshot, key));
        queue.Enqueue(key, again);
      }
      assert order[..|order|] == order;
      forall k ensures !old(queue.closed) ==>
        var p := Q.PendingOf(old(queue.pending), k);
        Q.PendingOf(queue.pending, k) == if k in objects then Q.Join(p, Q.UpdateEvent(objects[k], objects[k])) else p
      {
        P.ResyncTellsEachKey(objects, order, k);
        EnqueueAllAtMostOne(old(queue.State()), I.Resynced(objects, order), k);
      }
    }

    // ---- queries ----

    /** Objects for a set of keys, each once. */
    method Collect(keys: set<Key>) returns (items: seq<Object>)
      requires forall k :: k in objects ==> objects[k].key == k
      ensures Enumerates(items, map k | k in objects && k in keys :: objects[k])
    {
      items := [];
      var todo := keys;
      while todo != {}
        invariant todo <= keys
        invariant Enumerates(items, map k | k in objects && k in keys - todo :: objects[k])
        decreases |todo|
      {
        var key :| key in todo;
        ghost var m := map k | k in objects && k in keys - todo :: objects[k];
        todo := todo - {key};
        ghost var m' := map k | k in objects && k in keys - todo :: objects[k];
        if key in objects {
          assert m' == m[key := objects[key]];
          EnumeratesMore(items, m, objects[key]);
          items := items + [objects[key]];
        } else {
          assert m' == m;
        }
      }
      assert (map k | k in objects && k in keys - todo :: objects[k])
          == map k | k in objects && k in keys :: objects[k];
    }

    /**
      The keys the equality requirements leave, by intersecting buckets; None
      when there is no equality requirement. A missing index or bucket leaves
      none. Exactly the keys a scan would keep.
    */
    method MatchingKeys(reqs: seq<FieldRequirement>) returns (keys: Option<set<Key>>)
      requires Valid()
      ensures keys.Some? ==> keys.value == Scan(objects, indexers, reqs).Keys
      ensures keys.None? ==> Scan(objects, indexers, reqs) == objects
    {
      keys := None;
      for n := 0 to |reqs|
        invariant keys.Some? ==> keys.value == Scan(objects, indexers, reqs[..n]).Keys
        invariant keys.None? ==> forall m :: 0 <= m < n ==> !reqs[m].equals
      {
        var req := reqs[n];
        ScanStep(objects, indexers, reqs, n);
        if !req.equals {
          continue;
        }
        if req.field !in indices || req.value !in indices[req.field] {
          forall k | k in objects ensures !Satisfies(objects[k], indexers, reqs) {
            if req.field in indices {
              assert k !in Bucket(indices[req.field], req.value);
            }
            assert !(req.field in indexers && req.value in indexers[req.field](objects[k]));
          }
          assert Scan(objects, indexers, reqs) == map[];
          return Some({});
        }
        var bucket := indices[req.field][req.value];
        var keySet := set k | k in bucket;
        assert IndexAgrees(objects, indexers[req.field], indices[req.field]);
        forall k ensures k in keySet <==> k in objects && req.value in indexers[req.field](objects[k]) {
          assert k in Bucket(indices[req.field], req.value) <==> k in bucket;
        }
        if keys.None? {
          ScanAll(objects, indexers, reqs[..n]);
          keys := Some(keySet);
        } else {
          keys := Some(keys.value * keySet);
        }
      }
      assert reqs[..|reqs|] == reqs;
      if keys.None? {
        ScanAll(objects, indexers, reqs);
      }
    }

    /** Listing through the indices gives exactly the objects a scan would. */
    method ListFromIndex(reqs: seq<FieldRequirement>) returns (items: seq<Object>)
      requires Valid()
      ensures Enumerates(items, Scan(objects, indexers, reqs))
      ensures forall k :: k in objects ==>
        (objects[k] in items <==>
           forall n :: 0 <= n < |reqs| && reqs[n].equals ==>
             reqs[n].field in indexers && reqs[n].value in indexers[reqs[n].field](objects[k]))
    {
      var keys := MatchingKeys(reqs);
      if keys.None? {
        items := Collect(objects.Keys);
        assert (map k | k in objects && k in objects.Keys :: objects[k]) == objects;
      } else {
        items := Collect(keys.value);
        assert (map k | k in objects && k in keys.value :: objects[k]) == Scan(objects, indexers, reqs);
      }
      forall k | k in objects ensures objects[k] in items <==> Satisfies(objects[k], indexers, reqs) {
        if objects[k] in items {
          var n :| 0 <= n < |items| && items[n] == objects[k];
          assert items[n].key in Scan(objects, indexers, reqs);
        }
        assert k in Scan(objects, indexers, reqs) ==> Scan(objects, indexers, reqs)[k] in items;
      }
    }
  }
}
