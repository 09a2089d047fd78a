/**
  The whole replication pipeline as one state machine: the store, one informer
  with its watch loop, its event queue and one handler registered before the
  informer starts. Every move is one atomic step of one goroutine, and all
  goroutines interleave freely.
*/
module Pipeline {
  import opened Objects
  import opened QueueSpec
  import opened InformerSpec
  import Store = StoreSpec

  /** Where the informer's producer goroutine stands. */
  datatype Phase =
    | NotStarted
    | Loading(items: seq<Object>, rv: nat)   // initial list in hand, being added
    | Disconnected                           // about to watch from lastRV
    | Stale                                  // told its revision is too old, about to list
    | Relisted(items: seq<Object>, rv: nat)  // new list in hand
    | Watching(id: nat)

  /**
    `todo`: events of the producer's current operation not yet enqueued.
    `published`: the fold of everything the queue accepted.
    `inflight`: the drained batch the processor is still delivering.
    `seen`: what the handler has been told.
  */
  datatype Informer = Informer(
    gvk: GVK, config: Config, phase: Phase, lastRV: nat,
    cache: Snapshot, todo: seq<CacheEvent>,
    queue: Queue, published: Snapshot,
    inflight: seq<CacheEvent>, seen: Snapshot)

  datatype System = System(store: Store.StoreState, informer: Informer)

  datatype Move =
    | StoreMove(action: Store.Action)
    | List(listed: seq<Object>)
    | LoadOne
    | Loaded
    | Connect
    | Relist(relisted: seq<Object>)
    | ReplaceAll(wasOrder: seq<Key>, nowOrder: seq<Key>)
    | ReceiveEvent
    | ChannelClosed
    | Resync(order: seq<Key>)
    | EnqueueOne
    | Drain
    | Deliver
    | CloseQueue

  function Listable(c: Config, m: Snapshot): Snapshot {
    if c.labels.None? then m else map k | k in m && c.labels.value(m[k].labels) :: m[k]
  }

  ghost predicate Enabled(s: System, v: Move) {
    var i := s.informer;
    var ready := i.todo == [];
    match v
    case StoreMove(a) =>
      Store.Enabled(s.store, a) && !(i.phase.Watching? && a.Receive? && a.id == i.phase.id)
    case List(items) =>
      ready && i.phase.NotStarted? && Enumerates(items, Listable(i.config, Store.KindObjects(s.store, i.gvk)))
    case LoadOne => ready && i.phase.Loading? && i.phase.items != []
    case Loaded => ready && i.phase.Loading? && i.phase.items == []
    case Connect => ready && i.phase.Disconnected? && s.store.held <= |s.store.history|
    case Relist(items) =>
      ready && i.phase.Stale? && Enumerates(items, Listable(i.config, Store.KindObjects(s.store, i.gvk)))
    case ReplaceAll(wasOrder, nowOrder) =>
      && ready && i.phase.Relisted?
      && Orders(wasOrder, i.cache.Keys) && Orders(nowOrder, Replaced(i.config, i.phase.items).Keys)
    case ReceiveEvent =>
      ready && i.phase.Watching? && i.phase.id < |s.store.watchers| && s.store.watchers[i.phase.id].buffer != []
    case ChannelClosed =>
      && ready && i.phase.Watching? && i.phase.id < |s.store.watchers|
      && s.store.watchers[i.phase.id].buffer == [] && s.store.watchers[i.phase.id].closed
    case Resync(order) => ready && i.phase.Watching? && Orders(order, i.cache.Keys)
    case EnqueueOne => i.todo != []
    case Drain => i.inflight == [] && i.queue.pending != map[]
    case Deliver => i.inflight != []
    case CloseQueue => true
  }

  function WithEffect(i: Informer, eff: Effect): Informer {
    i.(cache := eff.cache, todo := eff.events)
  }

  /** What the watch loop makes of one event. */
  function Handled(i: Informer, e: Event): Informer {
    WithEffect(i, OnEvent(i.config, i.cache, e)).(lastRV := if e.obj.rv > i.lastRV then e.obj.rv else i.lastRV)
  }

  ghost function Next(s: System, v: Move): System
    requires Enabled(s, v)
  {
    var i := s.informer;
    match v
    case StoreMove(a) => s.(store := Store.Step(s.store, a))
    case List(items) => s.(informer := i.(phase := Loading(items, |s.store.history|)))
    case LoadOne =>
      var i1 := WithEffect(i, OnAdded(i.config, i.cache, i.phase.items[0]));
      s.(informer := i1.(phase := Loading(i.phase.items[1..], i.phase.rv)))
    case Loaded => s.(informer := i.(phase := Disconnected, lastRV := i.phase.rv))
    case Connect =>
      var (store', reply) := Store.Watch(s.store, i.gvk, Some(i.lastRV), i.config.labels);
      System(store', i.(phase := if reply.Opened? then Watching(reply.id) else Stale))
    case Relist(items) => s.(informer := i.(phase := Relisted(items, |s.store.history|)))
    case ReplaceAll(wasOrder, nowOrder) =>
      var now := Replaced(i.config, i.phase.items);
      var i1 := WithEffect(i, Effect(now, Diff(i.cache, now, wasOrder, nowOrder)));
      s.(informer := i1.(phase := Disconnected, lastRV := i.phase.rv))
    case ReceiveEvent =>
      var id := i.phase.id;
      System(Store.Step(s.store, Store.Receive(id)), Handled(i, s.store.watchers[id].buffer[0]))
    case ChannelClosed => s.(informer := i.(phase := Disconnected))
    case Resync(order) => s.(informer := i.(todo := Resynced(i.cache, order)))
    case EnqueueOne =>
      var e := i.todo[0];
      s.(informer := i.(todo := i.todo[1..],
                        queue := Enqueue(i.queue, e.obj.key, e),
                        published := if i.queue.closed then i.published else See(i.published, e)))
    case Drain => s.(informer := i.(inflight := Batch(i.queue), queue := Drained(i.queue)))
    case Deliver => s.(informer := i.(inflight := i.inflight[1..], seen := See(i.seen, i.inflight[0])))
    case CloseQueue => s.(informer := i.(queue := i.queue.(closed := true)))
  }

  function NewInformer(gvk: GVK, c: Config): Informer {
    Informer(gvk, c, NotStarted, 0, map[], [], Queue([], map[], false), map[], [], map[])
  }

  /** A run: a new store and a new informer, then any moves in any interleaving. */
  ghost predicate Run(states: seq<System>, moves: seq<Move>, logMax: nat, gvk: GVK, c: Config) {
    && |states| == |moves| + 1
    && states[0] == System(Store.Init(logMax), NewInformer(gvk, c))
    && forall n :: 0 <= n < |moves| ==>
         Enabled(states[n], moves[n]) && states[n + 1] == Next(states[n], moves[n])
  }
}
