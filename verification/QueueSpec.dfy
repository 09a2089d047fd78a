/**
  The coalescing queue between an informer and its handlers, and what applying
  its events to a handler's view means.
*/
module QueueSpec {
  import opened Objects

  datatype CacheEvent =
    | AddEvent(obj: Object, isInInitialList: bool)
    | UpdateEvent(oldObj: Object, obj: Object)
    | DeleteEvent(obj: Object)

  datatype Queue = Queue(order: seq<Key>, pending: map<Key, seq<CacheEvent>>, closed: bool)

  /** One event standing for two; None when they cancel out. */
  function Coalesce(existing: CacheEvent, incoming: CacheEvent): Option<CacheEvent> {
    match (existing, incoming)
    case (AddEvent(_, initial), UpdateEvent(_, obj)) => Some(AddEvent(obj, initial))
    case (AddEvent(_, _), DeleteEvent(_)) => None
    case (UpdateEvent(oldObj, _), UpdateEvent(_, obj)) => Some(UpdateEvent(oldObj, obj))
    case (UpdateEvent(_, _), DeleteEvent(obj)) => Some(DeleteEvent(obj))
    case _ => Some(incoming)
  }

  /** The pending events of one key once `e` has joined them. */
  function Join(p: seq<CacheEvent>, e: CacheEvent): seq<CacheEvent> {
    if p == [] then [e]
    else
      var last := p[|p| - 1];
      if last.DeleteEvent? && e.AddEvent? then p + [e]
      else match Coalesce(last, e)
        case None => p[..|p| - 1]
        case Some(c) => p[..|p| - 1] + [c]
  }

  function PendingOf(pending: map<Key, seq<CacheEvent>>, k: Key): seq<CacheEvent> {
    if k in pending then pending[k] else []
  }

  /** A key without pending events is not in the map, though it may stay in `order`. */
  function WithPending(pending: map<Key, seq<CacheEvent>>, k: Key, p: seq<CacheEvent>): map<Key, seq<CacheEvent>> {
    if p == [] then pending - {k} else pending[k := p]
  }

  function Enqueue(q: Queue, k: Key, e: CacheEvent): Queue {
    if q.closed then q
    else q.(order := if k in q.pending then q.order else q.order + [k],
            pending := WithPending(q.pending, k, Join(PendingOf(q.pending, k), e)))
  }

  function Drained(q: Queue): Queue { q.(order := [], pending := map[]) }

  /** The events of a drained batch in delivery order: first-seen keys, each once. */
  function Deliveries(order: seq<Key>, done: set<Key>, pending: map<Key, seq<CacheEvent>>): seq<CacheEvent> {
    if order == [] then []
    else if order[0] in done then Deliveries(order[1..], done, pending)
    else PendingOf(pending, order[0]) + Deliveries(order[1..], done + {order[0]}, pending)
  }

  function Batch(q: Queue): seq<CacheEvent> { Deliveries(q.order, {}, q.pending) }

  // ---- what events mean to a handler ----

  /** OnAdd only for a missing key, OnUpdate from the object last seen, OnDelete for a present key. */
  predicate Legal(seen: Snapshot, e: CacheEvent) {
    match e
    case AddEvent(o, _) => o.key !in seen
    case UpdateEvent(prev, o) => o.key in seen && seen[o.key] == prev
    case DeleteEvent(o) => o.key in seen
  }

  function See(seen: Snapshot, e: CacheEvent): Snapshot {
    if e.DeleteEvent? then seen - {e.obj.key} else seen[e.obj.key := e.obj]
  }

  function SeeAll(seen: Snapshot, es: seq<CacheEvent>): Snapshot
    decreases |es|
  {
    if es == [] then seen else SeeAll(See(seen, es[0]), es[1..])
  }

  predicate LegalAll(seen: Snapshot, es: seq<CacheEvent>)
    decreases |es|
  {
    es == [] || (Legal(seen, es[0]) && LegalAll(See(seen, es[0]), es[1..]))
  }

  /** The events of one key in a sequence. */
  function OfKey(es: seq<CacheEvent>, k: Key): seq<CacheEvent> {
    if es == [] then []
    else (if es[0].obj.key == k then [es[0]] else []) + OfKey(es[1..], k)
  }
}
