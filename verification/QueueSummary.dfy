/**
  Exactly what the queue tells a handler. Whatever is enqueued between two
  drains, the next batch goes through the keys in the order they were first
  seen, and tells each key's net change since the handler was last told.
*/
module QueueSummary {
  import opened Objects
  import opened QueueSpec
  import opened QueueProofs

  // ---- the net change of one key ----

  /** The object of a key after its events. */
  function Final(was: Option<Object>, es: seq<CacheEvent>): Option<Object> {
    if es == [] then was
    else if es[|es| - 1].DeleteEvent? then None
    else Some(es[|es| - 1].obj)
  }

  /** Events of one key that fit what is there: add when absent, update from the object there, delete when present. */
  ghost predicate Fit(was: Option<Object>, es: seq<CacheEvent>) {
    es != [] ==>
      var before := es[..|es| - 1];
      && Fit(was, before)
      && match es[|es| - 1]
         case AddEvent(_, _) => Final(was, before).None?
         case UpdateEvent(prev, _) => Final(was, before) == Some(prev)
         case DeleteEvent(_) => Final(was, before).Some?
  }

  /** The object the first delete carries. */
  function FirstDeleted(es: seq<CacheEvent>): Option<Object> {
    if es == [] then None
    else if es[0].DeleteEvent? then Some(es[0].obj)
    else FirstDeleted(es[1..])
  }

  /** Whether the last add was of an initial list. */
  function LastAddInitial(es: seq<CacheEvent>): bool {
    if es == [] then false
    else if es[|es| - 1].AddEvent? then es[|es| - 1].isInInitialList
    else LastAddInitial(es[..|es| - 1])
  }

  /**
    The net change, from the handler's object to the final one. A delete carries
    the object that was there when the handler's object first went away; an add
    is marked initial as the last add was.
  */
  function Summary(was: Option<Object>, es: seq<CacheEvent>): seq<CacheEvent> {
    if es == [] then []
    else
      var gone := FirstDeleted(es);
      match (was, Final(was, es))
      case (None, None) => []
      case (None, Some(o)) => [AddEvent(o, LastAddInitial(es))]
      case (Some(_), None) => if gone.Some? then [DeleteEvent(gone.value)] else []
      case (Some(prev), Some(o)) =>
        if gone.None? then [UpdateEvent(prev, o)] else [DeleteEvent(gone.value), AddEvent(o, LastAddInitial(es))]
  }

  lemma {:induction false} FirstDeletedSnoc(es: seq<CacheEvent>, e: CacheEvent)
    ensures FirstDeleted(es + [e]) ==
      if FirstDeleted(es).Some? then FirstDeleted(es) else if e.DeleteEvent? then Some(e.obj) else None
  {
    if es == [] {
      assert [e][1..] == [];
      assert es + [e] == [e];
    } else {
      assert (es + [e])[1..] == es[1..] + [e];
      FirstDeletedSnoc(es[1..], e);
    }
  }

  lemma {:induction false} FitMeansDeleted(was: Option<Object>, es: seq<CacheEvent>)
    requires Fit(was, es) && was.Some? && Final(was, es).None?
    ensures FirstDeleted(es).Some?
  {
    var n := |es| - 1;
    assert es == es[..n] + [es[n]];
    FirstDeletedSnoc(es[..n], es[n]);
  }

  /** One more event joins the net change as the queue joins it to what is pending. */
  lemma JoinSummarises(was: Option<Object>, es: seq<CacheEvent>, e: CacheEvent)
    requires Fit(was, es + [e])
    ensures Join(Summary(was, es), e) == Summary(was, es + [e])
  {
    assert (es + [e])[..|es|] == es;
    FirstDeletedSnoc(es, e);
    if was.Some? && Final(was, es).None? {
      FitMeansDeleted(was, es);
    }
    var p := Summary(was, es);
    assert |p| == 2 ==> p[..1] == [p[0]];
    assert |p| == 1 ==> p[..0] == [];
  }

  // ---- first-seen order ----

  function KeysOf(es: seq<CacheEvent>): seq<Key> { seq(|es|, n requires 0 <= n < |es| => es[n].obj.key) }

  /** The keys not in `done`, each once, in the order they first occur. */
  function FirstSeen(keys: seq<Key>, done: set<Key>): seq<Key> {
    if keys == [] then []
    else if keys[0] in done then FirstSeen(keys[1..], done)
    else [keys[0]] + FirstSeen(keys[1..], done + {keys[0]})
  }

  lemma {:induction false} FirstSeenSnoc(keys: seq<Key>, done: set<Key>, k: Key)
    ensures FirstSeen(keys + [k], done) == FirstSeen(keys, done) + if k in keys || k in done then [] else [k]
    decreases |keys|
  {
    var longer := keys + [k];
    if keys == [] {
      assert longer == [k] && [k][1..] == [];
    } else {
      assert longer[0] == keys[0] && longer[1..] == keys[1..] + [k];
      FirstSeenSnoc(keys[1..], if keys[0] in done then done else done + {keys[0]}, k);
    }
  }

  /**
    `FirstSeen` is what its name says: every key once, and more keys only ever
    extend it.
  */
  lemma {:induction false} FirstSeenExact(keys: seq<Key>, n: nat)
    requires n <= |keys|
    ensures Orders(FirstSeen(keys, {}), set k | k in keys)
    ensures FirstSeen(keys[..n], {}) <= FirstSeen(keys, {})
  {
    if keys != [] {
      var m := |keys| - 1;
      var before, k := keys[..m], keys[m];
      assert keys == before + [k];
      FirstSeenSnoc(before, {}, k);
      FirstSeenExact(before, if n <= m then n else m);
      assert n <= m ==> before[..n] == keys[..n];
      assert n > m ==> keys[..n] == keys;
      assert (set j | j in keys) == (set j | j in before) + {k};
    }
  }

  // ---- the whole queue ----

  /** What a batch tells: key by key, the net change of each. */
  function Told(keys: seq<Key>, was: Snapshot, es: seq<CacheEvent>): seq<CacheEvent> {
    if keys == [] then [] else Summary(Lookup(was, keys[0]), OfKey(es, keys[0])) + Told(keys[1..], was, es)
  }

  /** The queue holds the net changes of `es`, for a handler that has `was` once it is up to date. */
  ghost predicate Summarises(was: Snapshot, q: Queue, es: seq<CacheEvent>) {
    && !q.closed
    && (forall k :: PendingOf(q.pending, k) == Summary(Lookup(was, k), OfKey(es, k)))
    && (forall k :: k in q.pending ==> q.pending[k] != [])
    && (forall k :: k in q.order <==> k in KeysOf(es))
    && FirstSeen(q.order, {}) == FirstSeen(KeysOf(es), {})
  }

  lemma OfKeySnoc(es: seq<CacheEvent>, e: CacheEvent, k: Key)
    ensures OfKey(es + [e], k) == OfKey(es, k) + if e.obj.key == k then [e] else []
  {
    OfKeyConcat(es, [e], k);
    assert [e][1..] == [];
  }

  lemma FitSnoc(was: Option<Object>, es: seq<CacheEvent>, seen: Snapshot, e: CacheEvent)
    requires Fit(was, es) && Lookup(seen, e.obj.key) == Final(was, es) && Legal(seen, e)
    ensures Fit(was, es + [e]) && Lookup(See(seen, e), e.obj.key) == Final(was, es + [e])
  {
    assert (es + [e])[..|es|] == es;
  }

  lemma SeeAllSnoc(was: Snapshot, es: seq<CacheEvent>, e: CacheEvent)
    ensures LegalAll(was, es + [e]) <==> LegalAll(was, es) && Legal(SeeAll(was, es), e)
    ensures SeeAll(was, es + [e]) == See(SeeAll(was, es), e)
  {
    SeeAllConcat(was, es, [e]);
    assert [e][1..] == [];
  }

  /** Legal events fit, key by key. */
  lemma {:induction false} LegalMeansFit(was: Snapshot, es: seq<CacheEvent>, k: Key)
    requires LegalAll(was, es)
    ensures Fit(Lookup(was, k), OfKey(es, k))
    ensures Lookup(SeeAll(was, es), k) == Final(Lookup(was, k), OfKey(es, k))
  {
    if es != [] {
      var n := |es| - 1;
      var before, e := es[..n], es[n];
      assert es == before + [e];
      SeeAllSnoc(was, before, e);
      LegalMeansFit(was, before, k);
      OfKeySnoc(before, e, k);
      if e.obj.key == k {
        FitSnoc(Lookup(was, k), OfKey(before, k), SeeAll(was, before), e);
      } else {
        assert OfKey(before, k) + [] == OfKey(before, k);
      }
    }
  }

  lemma {:induction false} OfKeyEmpty(es: seq<CacheEvent>, k: Key)
    requires k !in KeysOf(es)
    ensures OfKey(es, k) == []
  {
    if es != [] {
      assert KeysOf(es)[0] == es[0].obj.key;
      assert KeysOf(es)[1..] == KeysOf(es[1..]);
      OfKeyEmpty(es[1..], k);
    }
  }

  lemma EnqueueOrder(was: Snapshot, q: Queue, es: seq<CacheEvent>, e: CacheEvent)
    requires Summarises(was, q, es)
    ensures var order := Enqueue(q, e.obj.key, e).order; var keys := KeysOf(es + [e]);
      (forall k :: k in order <==> k in keys) && FirstSeen(order, {}) == FirstSeen(keys, {})
  {
    var k := e.obj.key;
    assert KeysOf(es + [e]) == KeysOf(es) + [k];
    FirstSeenSnoc(KeysOf(es), {}, k);
    FirstSeenSnoc(q.order, {}, k);
    assert PendingOf(q.pending, k) == Summary(Lookup(was, k), OfKey(es, k));
    if k !in KeysOf(es) {
      OfKeyEmpty(es, k);
    }
  }

  lemma EnqueuePending(was: Snapshot, q: Queue, es: seq<CacheEvent>, e: CacheEvent, k: Key)
    requires !q.closed && PendingOf(q.pending, k) == Summary(Lookup(was, k), OfKey(es, k))
    requires LegalAll(was, es + [e])
    ensures PendingOf(Enqueue(q, e.obj.key, e).pending, k) == Summary(Lookup(was, k), OfKey(es + [e], k))
  {
    OfKeySnoc(es, e, k);
    if e.obj.key == k {
      LegalMeansFit(was, es + [e], k);
      JoinSummarises(Lookup(was, k), OfKey(es, k), e);
    } else {
      assert OfKey(es, k) + [] == OfKey(es, k);
    }
  }

  lemma EnqueueSummarises(was: Snapshot, q: Queue, es: seq<CacheEvent>, e: CacheEvent)
    requires Summarises(was, q, es) && LegalAll(was, es + [e])
    ensures Summarises(was, Enqueue(q, e.obj.key, e), es + [e])
  {
    var q' := Enqueue(q, e.obj.key, e);
    EnqueueOrder(was, q, es, e);
    forall k ensures PendingOf(q'.pending, k) == Summary(Lookup(was, k), OfKey(es + [e], k)) {
      EnqueuePending(was, q, es, e, k);
    }
  }

  lemma {:induction false} DeliveriesAreTold(
      order: seq<Key>, done: set<Key>, pending: map<Key, seq<CacheEvent>>, was: Snapshot, es: seq<CacheEvent>)
    requires forall k :: PendingOf(pending, k) == Summary(Lookup(was, k), OfKey(es, k))
    ensures Deliveries(order, done, pending) == Told(FirstSeen(order, done), was, es)
    decreases |order|
  {
    if order != [] && order[0] in done {
      DeliveriesAreTold(order[1..], done, pending, was, es);
    } else if order != [] {
      DeliveriesAreTold(order[1..], done + {order[0]}, pending, was, es);
      var rest := FirstSeen(order[1..], done + {order[0]});
      assert ([order[0]] + rest)[1..] == rest;
    }
  }

  /** The events put before, and after, the last drain. */
  function BeforeDrain(ops: seq<Op>): seq<CacheEvent> {
    if ops == [] then []
    else if ops[|ops| - 1].Drain? then PutEvents(ops)
    else BeforeDrain(ops[..|ops| - 1])
  }

  function SinceDrain(ops: seq<Op>): seq<CacheEvent> {
    if ops == [] || ops[|ops| - 1].Drain? then []
    else SinceDrain(ops[..|ops| - 1]) + [ops[|ops| - 1].event]
  }

  lemma {:induction false} DrainSplits(ops: seq<Op>)
    ensures PutEvents(ops) == BeforeDrain(ops) + SinceDrain(ops)
  {
    if ops != [] && ops[|ops| - 1].Put? {
      DrainSplits(ops[..|ops| - 1]);
    }
  }

  lemma EmptySummarises(was: Snapshot, q: Queue)
    requires !q.closed && q.order == [] && q.pending == map[]
    ensures Summarises(was, q, [])
  {
  }

  lemma {:induction false} QueueSummarises(ops: seq<Op>)
    requires LegalAll(map[], PutEvents(ops))
    ensures Summarises(SeeAll(map[], BeforeDrain(ops)), RunQueue(ops).0, SinceDrain(ops))
  {
    if ops == [] {
      EmptySummarises(map[], RunQueue(ops).0);
    } else {
      var before := ops[..|ops| - 1];
      match ops[|ops| - 1]
      case Drain =>
        assert PutEvents(ops) == PutEvents(before);
        QueueSummarises(before);
        EmptySummarises(SeeAll(map[], BeforeDrain(ops)), RunQueue(ops).0);
      case Put(e) =>
        SeeAllSnoc(map[], PutEvents(before), e);
        QueueSummarises(before);
        DrainSplits(ops);
        SeeAllConcat(map[], BeforeDrain(ops), SinceDrain(ops));
        EnqueueSummarises(SeeAll(map[], BeforeDrain(ops)), RunQueue(before).0, SinceDrain(before), e);
    }
  }

  /**
    For every legal sequence of events and every placement of drains, a drain
    delivers exactly this: for each key put since the last drain, in the order
    first put, its net change since then.
  */
  lemma DrainTellsNetChanges(ops: seq<Op>)
    requires LegalAll(map[], PutEvents(ops))
    ensures var es := SinceDrain(ops);
      RunQueue(ops + [Drain]).1 ==
        RunQueue(ops).1 + Told(FirstSeen(KeysOf(es), {}), SeeAll(map[], BeforeDrain(ops)), es)
  {
    QueueSummarises(ops);
    var q := RunQueue(ops).0;
    DeliveriesAreTold(q.order, {}, q.pending, SeeAll(map[], BeforeDrain(ops)), SinceDrain(ops));
    assert (ops + [Drain])[..|ops|] == ops;
  }
}
