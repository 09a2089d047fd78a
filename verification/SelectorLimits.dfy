/**
  When an informer converges, exactly. The replay of a resumed watch is
  filtered by each event's own labels, so the event that takes an object out of
  the selection can be left out of it; and then neither the cache nor the
  handler need be right.
*/
module SelectorLimits {
  import opened Objects
  import opened History
  import opened QueueSpec
  import opened InformerSpec
  import opened InformerProofs
  import opened Pipeline
  import opened PipelineProofs
  import Store = StoreSpec

  ghost predicate Reachable(s: System, logMax: nat, gvk: GVK, c: Config) {
    exists states, moves :: Run(states, moves, logMax, gvk, c) && states[|moves|] == s
  }

  /** Whenever the informer is caught up, its cache is the view of the store's objects. */
  ghost predicate Converges(logMax: nat, gvk: GVK, c: Config) {
    forall s :: Reachable(s, logMax, gvk, c) && CaughtUp(s) ==>
      s.informer.cache == Cached(c, Store.KindObjects(s.store, gvk))
  }

  /** No callback is ever an add of what the handler has, or an update or delete of what it has not. */
  ghost predicate CallbacksLegal(logMax: nat, gvk: GVK, c: Config) {
    forall s :: Reachable(s, logMax, gvk, c) && s.informer.inflight != [] ==>
      Legal(s.informer.seen, s.informer.inflight[0])
  }

  /** The event the watch loop would take next is Added. */
  ghost predicate ReceivesAdded(s: System) {
    Enabled(s, ReceiveEvent) && s.store.watchers[s.informer.phase.id].buffer[0].kind == Added
  }

  /** An Added event never meets a cached object of its key. */
  ghost predicate AddsAreNew(logMax: nat, gvk: GVK, c: Config) {
    forall s :: Reachable(s, logMax, gvk, c) && ReceivesAdded(s) ==>
      s.store.watchers[s.informer.phase.id].buffer[0].obj.key !in s.informer.cache
  }

  /** What the handler saw, and all it will be told, is legal and leads to the cache. */
  ghost predicate InOrder(i: Informer) {
    var coming := i.inflight + Batch(i.queue) + i.todo;
    LegalAll(i.seen, coming) && SeeAll(i.seen, coming) == i.cache
  }

  ghost predicate HandlerInOrder(logMax: nat, gvk: GVK, c: Config) {
    forall s :: Reachable(s, logMax, gvk, c) && !s.informer.queue.closed ==> InOrder(s.informer)
  }

  // ---- reaching states ----

  lemma StartReachable(logMax: nat, gvk: GVK, c: Config)
    ensures Reachable(System(Store.Init(logMax), NewInformer(gvk, c)), logMax, gvk, c)
  {
    assert Run([System(Store.Init(logMax), NewInformer(gvk, c))], [], logMax, gvk, c);
  }

  lemma StepReachable(s: System, v: Move, logMax: nat, gvk: GVK, c: Config)
    requires Reachable(s, logMax, gvk, c) && Enabled(s, v)
    ensures Reachable(Next(s, v), logMax, gvk, c)
  {
    var states, moves :| Run(states, moves, logMax, gvk, c) && states[|moves|] == s;
    var states', moves' := states + [Next(s, v)], moves + [v];
    forall n | 0 <= n < |moves'|
      ensures Enabled(states'[n], moves'[n]) && states'[n + 1] == Next(states'[n], moves'[n])
    {
      assert n < |moves| ==> moves'[n] == moves[n] && states'[n + 1] == states[n + 1];
    }
    assert Run(states', moves', logMax, gvk, c) && states'[|moves'|] == Next(s, v);
  }

  // ---- a cache that misses an event ----

  /** A selector that tells two label sets apart, a key it is asked about, and a log. */
  datatype Scene = Scene(gvk: GVK, c: Config, logMax: nat, k: Key, yes: Labels, no: Labels)

  ghost predicate Fits(x: Scene) {
    && Faithful(x.c) && x.logMax > 0 && Admits(x.c, x.k)
    && x.c.labels.Some? && x.c.labels.value(x.yes) && !x.c.labels.value(x.no)
  }

  function Made(x: Scene): Draft { Draft(x.gvk, x.k, None, "u", 1, x.yes, map[], None, None) }

  /** Takes the object out of the selection. */
  function Relabelled(x: Scene): Draft { Made(x).(rv := Some(1), labels := x.no) }

  function Object1(x: Scene): Object { Object(x.k, 1, "u", 1, x.yes, map[], None, None) }

  function Object2(x: Scene): Object { Object1(x).(rv := 2, labels := x.no) }

  function Store1(x: Scene): Store.StoreState { Store.Create(Store.Init(x.logMax), Made(x)).0 }

  function Store2(x: Scene): Store.StoreState { Store.Update(Store1(x), Relabelled(x)).0 }

  lemma StoreSide(x: Scene)
    requires Fits(x)
    ensures var s := Store1(x);
      && Store.KindObjects(s, x.gvk) == map[x.k := Object1(x)] && |s.history| == 1 && s.watchers == []
    ensures var s := Store2(x);
      && Store.KindObjects(s, x.gvk) == map[x.k := Object2(x)] && |s.history| == 2 && s.watchers == []
      && s.logMax == x.logMax && s.held == Store.Min(2, x.logMax)
      && s.history[1] == Entry(2, x.gvk, Event(Modified, Object2(x)))
  {
    var s := Store1(x);
    assert Made(x).uid != "";
    assert Store.KindObjects(s, x.gvk) == map[x.k := Object1(x)] && s.watchers == [];
    assert Store.MergeSpec(Object1(x), Relabelled(x)).labels != Object1(x).labels;
    assert Store.KindObjects(Store2(x), x.gvk) == map[x.k := Object2(x)];
  }

  /** A watch resumed from just before an event outside the selection is not told of it. */
  lemma ReplayDropsLast(s: Store.StoreState, gvk: GVK, sel: LabelSelector)
    requires 0 < s.held <= |s.history|
    requires var e := s.history[|s.history| - 1]; e.gvk == gvk && e.event.kind != Bookmark && !sel(e.event.obj.labels)
    ensures var n := |s.history| - 1;
      Store.Watch(s, gvk, Some(n), Some(sel)) ==
        (s.(watchers := s.watchers + [Store.Watcher(gvk, true, n, 100, [], [], false)]), Store.Opened(|s.watchers|))
  {
    var n := |s.history| - 1;
    var e := s.history[n];
    assert s.history[n..] == [] + [e];
    KindEventsAppend([], e, gvk);
    assert KindEvents(s.history[n..], gvk) == [e.event] && [e.event][..0] == [];
    assert Store.Selected([e.event], sel) == [];
  }

  /** The informer after its initial list of the first store state. */
  function Loaded1(x: Scene): Informer {
    var t := Transformed(x.c, Object1(x));
    NewInformer(x.gvk, x.c).(
      phase := Disconnected, lastRV := 1, cache := map[x.k := t],
      queue := Queue([x.k], map[x.k := [AddEvent(t, false)]], false), published := map[x.k := t])
  }

  lemma ListsFirst(x: Scene) returns (s: System)
    requires Fits(x)
    ensures s == System(Store1(x), NewInformer(x.gvk, x.c).(phase := Loading([Object1(x)], 1)))
    ensures Reachable(s, x.logMax, x.gvk, x.c)
  {
    StoreSide(x);
    var o := Object1(x);
    var s0 := System(Store.Init(x.logMax), NewInformer(x.gvk, x.c));
    StartReachable(x.logMax, x.gvk, x.c);
    var create := StoreMove(Store.CallCreate(Made(x)));
    StepReachable(s0, create, x.logMax, x.gvk, x.c);
    var s1 := Next(s0, create);
    assert Listable(x.c, map[x.k := o]) == map[x.k := o];
    assert Enumerates([o], map[x.k := o]);
    StepReachable(s1, List([o]), x.logMax, x.gvk, x.c);
    s := Next(s1, List([o]));
  }

  lemma LoadsFirst(x: Scene)
    requires Fits(x)
    ensures Reachable(System(Store1(x), Loaded1(x)), x.logMax, x.gvk, x.c)
  {
    var s2 := ListsFirst(x);
    var o, t := Object1(x), Transformed(x.c, Object1(x));
    assert OnAdded(x.c, map[], o) == Effect(map[x.k := t], [AddEvent(t, false)]);
    StepReachable(s2, LoadOne, x.logMax, x.gvk, x.c);
    var s3 := Next(s2, LoadOne);
    StepReachable(s3, EnqueueOne, x.logMax, x.gvk, x.c);
    var s4 := Next(s3, EnqueueOne);
    assert s4.informer.queue == Loaded1(x).queue;
    StepReachable(s4, Loaded, x.logMax, x.gvk, x.c);
    assert Next(s4, Loaded) == System(Store1(x), Loaded1(x));
  }

  /** Connected and drained, still holding the object that left the selection. */
  function Missed(x: Scene): System {
    System(Store2(x).(watchers := [Store.Watcher(x.gvk, true, 1, 100, [], [], false)]),
           Loaded1(x).(phase := Watching(0)))
  }

  lemma MissesRelabelling(x: Scene)
    requires Fits(x)
    ensures Reachable(Missed(x), x.logMax, x.gvk, x.c) && CaughtUp(Missed(x))
    ensures Missed(x).informer.cache != Cached(x.c, Store.KindObjects(Missed(x).store, x.gvk))
  {
    LoadsFirst(x);
    StoreSide(x);
    var update := StoreMove(Store.CallUpdate(Relabelled(x)));
    var s5, s6 := System(Store1(x), Loaded1(x)), System(Store2(x), Loaded1(x));
    StepReachable(s5, update, x.logMax, x.gvk, x.c);
    ReplayDropsLast(s6.store, x.gvk, x.c.labels.value);
    StepReachable(s6, Connect, x.logMax, x.gvk, x.c);
    assert Next(s6, Connect) == Missed(x);
    assert x.k in Missed(x).informer.cache && !Matches(x.c, Object2(x));
  }

  // ---- a handler told to add what it has ----

  function Other(x: Scene): Key { x.k.(name := x.k.name + "-other") }

  /** An event the informer has no use for. */
  ghost predicate Idle(x: Scene, e: Event, rv: nat) {
    e.obj.key == Other(x) && e.obj.labels == x.no && e.obj.rv == rv
  }

  /** The store of the missed relabelling, with `n` idle events more in the channel. */
  ghost predicate Filled(x: Scene, s: Store.StoreState, n: nat) {
    && s.logMax == x.logMax && |s.history| == n + 2 && s.held == Store.Min(n + 2, x.logMax)
    && |s.watchers| == 1
    && (var w := s.watchers[0];
        && w.gvk == x.gvk && !w.closed && w.cap == 100 && |w.buffer| == n
        && forall m :: 0 <= m < n ==> Idle(x, w.buffer[m], m + 3))
    && (var m := Store.KindObjects(s, x.gvk);
        && x.k in m && m[x.k] == Object2(x)
        && (Other(x) in m ==> m[Other(x)].key == Other(x) && m[Other(x)].labels == x.no))
  }

  ghost predicate Filling(x: Scene, s: System, n: nat) {
    Reachable(s, x.logMax, x.gvk, x.c) && s.informer == Missed(x).informer && Filled(x, s.store, n)
  }

  /** Create the other object, or delete it if it is there. */
  function Toggle(x: Scene, s: Store.StoreState): Store.Action {
    var d := Made(x).(key := Other(x), labels := x.no);
    if Other(x) in Store.KindObjects(s, x.gvk) then Store.CallDelete(d) else Store.CallCreate(d)
  }

  /** Either way the other object's event is logged and sent, and nothing else changes. */
  lemma ToggleIsIdle(x: Scene, s: Store.StoreState)
    requires Other(x) in Store.KindObjects(s, x.gvk) ==>
      var o := Store.KindObjects(s, x.gvk)[Other(x)]; o.key == Other(x) && o.labels == x.no
    ensures var s' := Store.Step(s, Toggle(x, s)); var n := |s.history| + 1;
      && s'.logMax == s.logMax && s'.held == Store.Min(s.held + 1, s.logMax) && |s'.history| == n
      && (var e := s'.history[n - 1].event; Idle(x, e, n) && s'.watchers == Store.Notify(s.watchers, x.gvk, e))
      && (var m, m' := Store.KindObjects(s, x.gvk), Store.KindObjects(s', x.gvk);
          && (forall k :: k != Other(x) ==> Lookup(m', k) == Lookup(m, k))
          && (Other(x) in m' ==> m'[Other(x)].key == Other(x) && m'[Other(x)].labels == x.no))
  {
  }

  lemma OtherDiffers(x: Scene)
    ensures Other(x) != x.k
  {
    assert |Other(x).name| > |x.k.name|;
  }

  lemma FillOne(x: Scene, s: Store.StoreState, n: nat)
    requires Filled(x, s, n) && n < 100
    ensures Filled(x, Store.Step(s, Toggle(x, s)), n + 1)
  {
    ToggleIsIdle(x, s);
    OtherDiffers(x);
    assert Lookup(Store.KindObjects(Store.Step(s, Toggle(x, s)), x.gvk), x.k) == Some(Object2(x));
  }

  lemma {:induction false} Fill(x: Scene, n: nat) returns (s: System)
    requires Fits(x) && n <= 100
    ensures Filling(x, s, n)
  {
    if n == 0 {
      MissesRelabelling(x);
      StoreSide(x);
      s := Missed(x);
    } else {
      var s0 := Fill(x, n - 1);
      var v := StoreMove(Toggle(x, s0.store));
      FillOne(x, s0.store, n - 1);
      StepReachable(s0, v, x.logMax, x.gvk, x.c);
      s := Next(s0, v);
    }
  }

  /** The delete that found the channel full closed it; `n` idle events are left to receive. */
  ghost predicate Draining(x: Scene, s: System, n: nat) {
    && Reachable(s, x.logMax, x.gvk, x.c)
    && n <= 100
    && s.informer == Missed(x).informer.(lastRV := s.informer.lastRV)
    && s.informer.lastRV <= 102 - n && (n < 100 ==> s.informer.lastRV == 102 - n)
    && x.k !in Store.KindObjects(s.store, x.gvk)
    && |s.store.history| == 103 && 0 < s.store.held <= 103
    && (var e := s.store.history[102]; e.gvk == x.gvk && e.event.kind == Deleted && e.event.obj.labels == x.no)
    && |s.store.watchers| == 1
    && (var w := s.store.watchers[0];
        && w.gvk == x.gvk && w.closed && |w.buffer| == n
        && forall m :: 0 <= m < n ==> Idle(x, w.buffer[m], 103 - n + m))
  }

  lemma Overflows(x: Scene) returns (s: System)
    requires Fits(x)
    ensures Draining(x, s, 100)
  {
    var s0 := Fill(x, 100);
    var v := StoreMove(Store.CallDelete(Made(x)));
    StepReachable(s0, v, x.logMax, x.gvk, x.c);
    s := Next(s0, v);
  }

  lemma DrainOne(x: Scene, s: System, n: nat)
    requires Fits(x) && Draining(x, s, n) && n > 0
    ensures Enabled(s, ReceiveEvent) && Draining(x, Next(s, ReceiveEvent), n - 1)
  {
    StepReachable(s, ReceiveEvent, x.logMax, x.gvk, x.c);
    var e := s.store.watchers[0].buffer[0];
    assert Idle(x, e, 103 - n);
    OtherDiffers(x);
    assert OnEvent(x.c, s.informer.cache, e) == Effect(s.informer.cache, []);
  }

  lemma {:induction false} DrainAll(x: Scene, s: System, n: nat) returns (s': System)
    requires Fits(x) && Draining(x, s, n)
    ensures Draining(x, s', 0)
    decreases n
  {
    if n == 0 {
      s' := s;
    } else {
      DrainOne(x, s, n);
      s' := DrainAll(x, Next(s, ReceiveEvent), n - 1);
    }
  }

  lemma NoticesClose(x: Scene) returns (s: System)
    requires Fits(x)
    ensures Reachable(s, x.logMax, x.gvk, x.c)
    ensures s.informer == Missed(x).informer.(lastRV := 102, phase := Disconnected)
    ensures |s.store.watchers| == 1 && x.k !in Store.KindObjects(s.store, x.gvk)
    ensures |s.store.history| == 103 && 0 < s.store.held <= 103
    ensures var e := s.store.history[102]; e.gvk == x.gvk && e.event.kind == Deleted && e.event.obj.labels == x.no
  {
    var s0 := Overflows(x);
    var s1 := DrainAll(x, s0, 100);
    StepReachable(s1, ChannelClosed, x.logMax, x.gvk, x.c);
    s := Next(s1, ChannelClosed);
  }

  /** Reconnecting leaves the delete out; the cache still holds the object, which is gone. */
  lemma MissesDelete(x: Scene) returns (s: System)
    requires Fits(x)
    ensures Reachable(s, x.logMax, x.gvk, x.c)
    ensures s.informer == Missed(x).informer.(lastRV := 102, phase := Watching(1))
    ensures |s.store.watchers| == 2 && x.k !in Store.KindObjects(s.store, x.gvk) && |s.store.history| == 103
    ensures var w := s.store.watchers[1]; w.gvk == x.gvk && !w.closed && w.cap == 100 && w.buffer == []
  {
    var s2 := NoticesClose(x);
    ReplayDropsLast(s2.store, x.gvk, x.c.labels.value);
    StepReachable(s2, Connect, x.logMax, x.gvk, x.c);
    s := Next(s2, Connect);
  }

  /** An Added event for a key that is still cached, older. */
  lemma CreatesAgain(x: Scene) returns (s: System)
    requires Fits(x)
    ensures Reachable(s, x.logMax, x.gvk, x.c)
    ensures s.informer == Missed(x).informer.(lastRV := 102, phase := Watching(1))
    ensures |s.store.watchers| == 2 && s.store.watchers[1].buffer == [Event(Added, Object1(x).(rv := 104))]
    ensures ReceivesAdded(s) && x.k in s.informer.cache
  {
    var s0 := MissesDelete(x);
    var create := StoreMove(Store.CallCreate(Made(x)));
    StepReachable(s0, create, x.logMax, x.gvk, x.c);
    s := Next(s0, create);
  }

  function OneAdd(o: Object): Queue { Queue([o.key], map[o.key := [AddEvent(o, false)]], false) }

  lemma OneAddBatch(o: Object)
    ensures Batch(OneAdd(o)) == [AddEvent(o, false)]
  {
    var q := OneAdd(o);
    assert q.order[1..] == [] && Deliveries(q.order[1..], {} + {q.order[0]}, q.pending) == [];
  }

  /** The handler is told of the first object before the second one's event is received. */
  lemma DeliversFirst(x: Scene) returns (s: System)
    requires Fits(x)
    ensures Reachable(s, x.logMax, x.gvk, x.c)
    ensures s.informer == Missed(x).informer.(
      lastRV := 102, phase := Watching(1), queue := Queue([], map[], false),
      seen := map[x.k := Transformed(x.c, Object1(x))])
    ensures |s.store.watchers| == 2 && s.store.watchers[1].buffer == [Event(Added, Object1(x).(rv := 104))]
  {
    var s0 := CreatesAgain(x);
    OneAddBatch(Transformed(x.c, Object1(x)));
    StepReachable(s0, Move.Drain, x.logMax, x.gvk, x.c);
    var s1 := Next(s0, Move.Drain);
    assert s1.informer.inflight == [AddEvent(Transformed(x.c, Object1(x)), false)];
    StepReachable(s1, Deliver, x.logMax, x.gvk, x.c);
    s := Next(s1, Deliver);
  }

  /** The second object replaces the first in the cache and is queued as an add. */
  lemma QueuesSecond(x: Scene) returns (s: System)
    requires Fits(x)
    ensures Reachable(s, x.logMax, x.gvk, x.c)
    ensures var i := s.informer;
      && i.inflight == [] && i.todo == [] && i.queue == OneAdd(Transformed(x.c, Object1(x).(rv := 104)))
      && x.k in i.seen
  {
    var s0 := DeliversFirst(x);
    var o, t := Object1(x).(rv := 104), Transformed(x.c, Object1(x).(rv := 104));
    assert OnAdded(x.c, s0.informer.cache, o) == Effect(map[x.k := t], [AddEvent(t, false)]);
    StepReachable(s0, ReceiveEvent, x.logMax, x.gvk, x.c);
    var s1 := Next(s0, ReceiveEvent);
    StepReachable(s1, EnqueueOne, x.logMax, x.gvk, x.c);
    s := Next(s1, EnqueueOne);
    assert s.informer.queue == OneAdd(t);
  }

  /** The next callback is an add, to a handler that has the object. */
  lemma AddsTwice(x: Scene) returns (s: System)
    requires Fits(x)
    ensures Reachable(s, x.logMax, x.gvk, x.c) && Enabled(s, Deliver)
    ensures var i := s.informer;
      && i.inflight[0].AddEvent? && i.inflight[0].obj.key == x.k && x.k in i.seen
      && i.inflight[1..] == [] && i.todo == [] && i.queue == Queue([], map[], false)
  {
    var s0 := QueuesSecond(x);
    OneAddBatch(Transformed(x.c, Object1(x).(rv := 104)));
    StepReachable(s0, Move.Drain, x.logMax, x.gvk, x.c);
    s := Next(s0, Move.Drain);
  }

  // ---- the exact condition ----

  /** Where replays suffice, an Added event is for a key that is not cached. */
  lemma AddedIsNew(s: System)
    requires Inv(s) && ReceivesAdded(s)
    ensures s.store.watchers[s.informer.phase.id].buffer[0].obj.key !in s.informer.cache
  {
    var h, i := s.store.history, s.informer;
    if !Blind(i.config) {
      assert s.store.watchers[i.phase.id].buffer[0] == KindEvents(h[i.lastRV..], i.gvk)[0];
      NextEvent(h, i.lastRV, i.gvk);
    }
  }

  lemma SufficesMeansRight(s: System, logMax: nat, gvk: GVK, c: Config)
    requires Faithful(c) && ReplaysSuffice(c, logMax) && Reachable(s, logMax, gvk, c)
    ensures CaughtUp(s) ==> s.informer.cache == Cached(c, Store.KindObjects(s.store, gvk))
    ensures s.informer.inflight != [] ==> Legal(s.informer.seen, s.informer.inflight[0])
    ensures ReceivesAdded(s) ==> s.store.watchers[s.informer.phase.id].buffer[0].obj.key !in s.informer.cache
    ensures !s.informer.queue.closed ==> InOrder(s.informer)
  {
    var states, moves :| Run(states, moves, logMax, gvk, c) && states[|moves|] == s;
    Convergence(states, moves, logMax, gvk, c, |moves|);
    HandlerConsistency(states, moves, logMax, gvk, c, |moves|);
    RunKeepsInv(states, moves, logMax, gvk, c, |moves|);
    if ReceivesAdded(s) {
      AddedIsNew(s);
    }
  }

  lemma SufficesMeansAll(logMax: nat, gvk: GVK, c: Config)
    requires Faithful(c) && ReplaysSuffice(c, logMax)
    ensures Converges(logMax, gvk, c) && CallbacksLegal(logMax, gvk, c)
    ensures AddsAreNew(logMax, gvk, c) && HandlerInOrder(logMax, gvk, c)
  {
    forall s | Reachable(s, logMax, gvk, c)
      ensures CaughtUp(s) ==> s.informer.cache == Cached(c, Store.KindObjects(s.store, gvk))
      ensures s.informer.inflight != [] ==> Legal(s.informer.seen, s.informer.inflight[0])
      ensures ReceivesAdded(s) ==> s.store.watchers[s.informer.phase.id].buffer[0].obj.key !in s.informer.cache
      ensures !s.informer.queue.closed ==> InOrder(s.informer)
    {
      SufficesMeansRight(s, logMax, gvk, c);
    }
  }

  lemma SceneBreaksAll(x: Scene)
    requires Fits(x)
    ensures !Converges(x.logMax, x.gvk, x.c) && !CallbacksLegal(x.logMax, x.gvk, x.c)
    ensures !AddsAreNew(x.logMax, x.gvk, x.c) && !HandlerInOrder(x.logMax, x.gvk, x.c)
  {
    MissesRelabelling(x);
    var replacing := CreatesAgain(x);
    assert replacing.store.watchers[replacing.informer.phase.id].buffer[0].obj.key == x.k;
    var s := AddsTwice(x);
    assert !Legal(s.informer.seen, s.informer.inflight[0]);
    var coming := s.informer.inflight + Batch(s.informer.queue) + s.informer.todo;
    assert coming[0] == s.informer.inflight[0];
  }

  /**
    For every kind, configuration and log size: in all runs the cache of a
    caught-up informer is right, in all runs every callback is legal for what
    the handler has seen, and in all runs an Added event is for a key that is
    not cached, each if and only if there is no label selector, or it treats all
    label sets alike, or no key passes the other filters, or the store keeps no
    log. So is what the handler saw and is about to be told leading to the cache.
  */
  lemma ConvergesIffReplaysSuffice(logMax: nat, gvk: GVK, c: Config)
    requires Faithful(c)
    ensures Converges(logMax, gvk, c) <==> ReplaysSuffice(c, logMax)
    ensures CallbacksLegal(logMax, gvk, c) <==> ReplaysSuffice(c, logMax)
    ensures AddsAreNew(logMax, gvk, c) <==> ReplaysSuffice(c, logMax)
    ensures HandlerInOrder(logMax, gvk, c) <==> ReplaysSuffice(c, logMax)
  {
    if ReplaysSuffice(c, logMax) {
      SufficesMeansAll(logMax, gvk, c);
    } else {
      var k :| Admits(c, k);
      var a, b :| c.labels.value(a) != c.labels.value(b);
      SceneBreaksAll(
        if c.labels.value(a) then Scene(gvk, c, logMax, k, a, b) else Scene(gvk, c, logMax, k, b, a));
    }
  }
}
