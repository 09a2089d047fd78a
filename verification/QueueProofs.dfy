/** Coalescing loses nothing: the queue refines the sequence of events put into it. */
module QueueProofs {
  import opened Objects
  import opened QueueSpec

  /**
    The only five ways a handler's object of a key, the events pending for it
    and the published object can stand to each other.
  */
  ghost predicate Shape(seen: Option<Object>, p: seq<CacheEvent>, k: Key, now: Option<Object>) {
    && (forall i :: 0 <= i < |p| ==> p[i].obj.key == k)
    && if p == [] then seen == now
       else if |p| == 1 then
         match p[0]
         case AddEvent(o, _) => seen.None? && now == Some(o)
         case UpdateEvent(prev, o) => seen == Some(prev) && now == Some(o)
         case DeleteEvent(_) => seen.Some? && now.None?
       else |p| == 2 && p[0].DeleteEvent? && p[1].AddEvent? && seen.Some? && now == Some(p[1].obj)
  }

  /** Every key stands in one of the five shapes, and every pending key is in `order`. */
  ghost predicate InStep(seen: Snapshot, q: Queue, published: Snapshot) {
    && (forall k :: Shape(Lookup(seen, k), PendingOf(q.pending, k), k, Lookup(published, k)))
    && (forall k :: k in q.pending ==> q.pending[k] != [] && k in q.order)
  }

  lemma JoinKeepsShape(seen: Option<Object>, p: seq<CacheEvent>, k: Key, published: Snapshot, e: CacheEvent)
    requires Shape(seen, p, k, Lookup(published, k)) && e.obj.key == k && Legal(published, e)
    ensures Shape(seen, Join(p, e), k, Lookup(See(published, e), k))
  {
    assert |p| == 2 ==> p[..1] == [p[0]];
  }

  /** Enqueueing a legal event keeps every key in step; a key never holds more than two. */
  lemma EnqueueKeepsInStep(seen: Snapshot, q: Queue, published: Snapshot, e: CacheEvent)
    requires InStep(seen, q, published) && Legal(published, e) && !q.closed
    ensures InStep(seen, Enqueue(q, e.obj.key, e), See(published, e))
    ensures forall k :: |PendingOf(Enqueue(q, e.obj.key, e).pending, k)| <= 2
  {
    var k0 := e.obj.key;
    var q' := Enqueue(q, k0, e);
    forall k ensures Shape(Lookup(seen, k), PendingOf(q'.pending, k), k, Lookup(See(published, e), k)) {
      assert Shape(Lookup(seen, k), PendingOf(q.pending, k), k, Lookup(published, k));
      if k == k0 {
        JoinKeepsShape(Lookup(seen, k), PendingOf(q.pending, k), k, published, e);
      }
    }
    forall k ensures |PendingOf(q'.pending, k)| <= 2 {
      assert Shape(Lookup(seen, k), PendingOf(q'.pending, k), k, Lookup(See(published, e), k));
    }
  }

  // ---- delivery of a batch ----

  lemma {:induction false} SeeAllConcat(seen: Snapshot, a: seq<CacheEvent>, b: seq<CacheEvent>)
    ensures SeeAll(seen, a + b) == SeeAll(SeeAll(seen, a), b)
    ensures LegalAll(seen, a + b) <==> LegalAll(seen, a) && LegalAll(SeeAll(seen, a), b)
    decreases |a|
  {
    if a == [] {
      assert a + b == b;
    } else {
      assert (a + b)[1..] == a[1..] + b;
      SeeAllConcat(See(seen, a[0]), a[1..], b);
    }
  }

  /** The pending events of one key take the handler from what it saw to what is published. */
  lemma ShapeDelivers(seen: Snapshot, p: seq<CacheEvent>, k: Key, now: Option<Object>)
    requires Shape(Lookup(seen, k), p, k, now)
    ensures LegalAll(seen, p)
    ensures SeeAll(seen, p) == if now.Some? then seen[k := now.value] else seen - {k}
  {
    if p == [] {
      assert now.Some? ==> seen[k := now.value] == seen;
      assert now.None? ==> seen - {k} == seen;
    } else if |p| == 2 {
      assert p[1..] == [p[1]] && [p[1]][1..] == [];
      assert See(See(seen, p[0]), p[1]) == seen[k := p[1].obj];
    } else {
      assert p[1..] == [];
    }
  }

  lemma SameLookups(a: Snapshot, b: Snapshot)
    requires forall k :: Lookup(a, k) == Lookup(b, k)
    ensures a == b
  {
    forall k ensures k in a <==> k in b {
      assert Lookup(a, k) == Lookup(b, k);
    }
    forall k | k in a ensures a[k] == b[k] {
      assert Lookup(a, k) == Lookup(b, k);
    }
  }

  /**
    Delivering a batch is legal event by event and leaves the handler with
    exactly the published objects, whatever stale or duplicate keys `order` holds.
  */
  lemma {:induction false} DeliveriesReach(
      seen: Snapshot, order: seq<Key>, done: set<Key>, pending: map<Key, seq<CacheEvent>>, published: Snapshot)
    requires forall k :: k !in done ==> Shape(Lookup(seen, k), PendingOf(pending, k), k, Lookup(published, k))
    requires forall k :: k in done ==> Lookup(seen, k) == Lookup(published, k)
    requires forall k :: k in pending && k !in done ==> k in order
    ensures LegalAll(seen, Deliveries(order, done, pending))
    ensures SeeAll(seen, Deliveries(order, done, pending)) == published
    decreases |order|
  {
    if order == [] {
      forall k ensures Lookup(seen, k) == Lookup(published, k) {
        if k !in done {
          assert PendingOf(pending, k) == [];
        }
      }
      SameLookups(seen, published);
    } else if order[0] in done {
      DeliveriesReach(seen, order[1..], done, pending, published);
    } else {
      var k0 := order[0];
      var p := PendingOf(pending, k0);
      ShapeDelivers(seen, p, k0, Lookup(published, k0));
      SeeAllConcat(seen, p, Deliveries(order[1..], done + {k0}, pending));
      DeliveriesReach(SeeAll(seen, p), order[1..], done + {k0}, pending, published);
    }
  }

  lemma BatchReachesPublished(seen: Snapshot, q: Queue, published: Snapshot)
    requires InStep(seen, q, published)
    ensures LegalAll(seen, Batch(q)) && SeeAll(seen, Batch(q)) == published
    ensures InStep(published, Drained(q), published)
  {
    DeliveriesReach(seen, q.order, {}, q.pending, published);
  }

  lemma {:induction false} OfKeyConcat(a: seq<CacheEvent>, b: seq<CacheEvent>, k: Key)
    ensures OfKey(a + b, k) == OfKey(a, k) + OfKey(b, k)
  {
    if a == [] {
      assert a + b == b;
    } else {
      assert (a + b)[1..] == a[1..] + b;
      OfKeyConcat(a[1..], b, k);
    }
  }

  lemma {:induction false} OfKeyUniform(es: seq<CacheEvent>, k0: Key, k: Key)
    requires forall i :: 0 <= i < |es| ==> es[i].obj.key == k0
    ensures OfKey(es, k) == if k == k0 then es else []
  {
    if es != [] {
      OfKeyUniform(es[1..], k0, k);
    }
  }

  /** Each pending key's events are delivered exactly once, in order, and nothing else is. */
  lemma {:induction false} DeliveredExactlyOnce(
      order: seq<Key>, done: set<Key>, pending: map<Key, seq<CacheEvent>>, k: Key)
    requires forall j, i :: j in pending && 0 <= i < |pending[j]| ==> pending[j][i].obj.key == j
    ensures OfKey(Deliveries(order, done, pending), k)
         == if k in order && k !in done then PendingOf(pending, k) else []
  {
    if order != [] && order[0] in done {
      DeliveredExactlyOnce(order[1..], done, pending, k);
    } else if order != [] {
      var k0 := order[0];
      OfKeyConcat(PendingOf(pending, k0), Deliveries(order[1..], done + {k0}, pending), k);
      OfKeyUniform(PendingOf(pending, k0), k0, k);
      DeliveredExactlyOnce(order[1..], done + {k0}, pending, k);
    }
  }

  // ---- refinement over every placement of drains ----

  datatype Op = Put(event: CacheEvent) | Drain

  /** The queue after `ops`, starting empty, and the handler events its drains produced. */
  function RunQueue(ops: seq<Op>): (Queue, seq<CacheEvent>) {
    if ops == [] then (Queue([], map[], false), [])
    else
      var (q, out) := RunQueue(ops[..|ops| - 1]);
      match ops[|ops| - 1]
      case Put(e) => (Enqueue(q, e.obj.key, e), out)
      case Drain => (Drained(q), out + Batch(q))
  }

  /** The events that went in. */
  function PutEvents(ops: seq<Op>): seq<CacheEvent> {
    if ops == [] then []
    else PutEvents(ops[..|ops| - 1]) + if ops[|ops| - 1].Put? then [ops[|ops| - 1].event] else []
  }

  /**
    Queue refinement: for every legal sequence of events and every placement of
    drains, what came out is legal for a handler that started empty, and what
    came out plus what is still pending folds to what went in.
  */
  lemma {:induction false} QueueRefinesInput(ops: seq<Op>)
    requires LegalAll(map[], PutEvents(ops))
    ensures var (q, out) := RunQueue(ops);
      && !q.closed
      && LegalAll(map[], out)
      && InStep(SeeAll(map[], out), q, SeeAll(map[], PutEvents(ops)))
      && LegalAll(map[], out + Batch(q))
      && SeeAll(map[], out + Batch(q)) == SeeAll(map[], PutEvents(ops))
      && forall k :: |PendingOf(q.pending, k)| <= 2
  {
    var (q, out) := RunQueue(ops);
    var input := PutEvents(ops);
    if ops != [] {
      var before := ops[..|ops| - 1];
      var (q0, out0) := RunQueue(before);
      var input0 := PutEvents(before);
      match ops[|ops| - 1]
      case Put(e) =>
        SeeAllConcat(map[], input0, [e]);
        assert [e][1..] == [];
        QueueRefinesInput(before);
        EnqueueKeepsInStep(SeeAll(map[], out0), q0, SeeAll(map[], input0), e);
      case Drain =>
        assert input == input0;
        QueueRefinesInput(before);
        SeeAllConcat(map[], out0, Batch(q0));
        BatchReachesPublished(SeeAll(map[], out0), q0, SeeAll(map[], input0));
    }
    BatchReachesPublished(SeeAll(map[], out), q, SeeAll(map[], input));
    SeeAllConcat(map[], out, Batch(q));
    forall k ensures |PendingOf(q.pending, k)| <= 2 {
      assert Shape(Lookup(SeeAll(map[], out), k), PendingOf(q.pending, k), k, Lookup(SeeAll(map[], input), k));
    }
  }
}
