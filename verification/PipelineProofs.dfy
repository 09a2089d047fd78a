/** Convergence and handler consistency, over every run of the pipeline. */
module PipelineProofs {
  import opened Objects
  import opened History
  import opened QueueSpec
  import opened QueueProofs
  import opened InformerSpec
  import opened InformerProofs
  import opened Pipeline
  import Store = StoreSpec
  import StoreProofs
  import StoreRuns

  // ---- invariant ----

  /** A channel serving the kind's events after position `pos`, all of them while open. */
  ghost predicate Tracks(w: Store.Watcher, h: seq<Entry>, gvk: GVK, pos: nat)
    requires pos <= |h|
  {
    && w.gvk == gvk
    && w.buffer <= KindEvents(h[pos..], gvk)
    && (!w.closed ==> w.buffer == KindEvents(h[pos..], gvk))
  }

  /** An informer whose filters let nothing in. */
  ghost predicate Blind(c: Config) { forall o :: !Matches(c, o) }

  ghost predicate AllPast(es: seq<Event>, rv: nat) { forall n :: 0 <= n < |es| ==> es[n].obj.rv <= rv }

  /** A channel that leaves out nothing the informer needs. */
  ghost predicate Serves(w: Store.Watcher, h: seq<Entry>, i: Informer)
    requires i.lastRV <= |h|
  {
    if Blind(i.config) then AllPast(w.buffer, |h|) else Tracks(w, h, i.gvk, i.lastRV)
  }

  /**
    No replay can leave out an event the informer needs: there is no label
    selector, or it treats all label sets alike, or no key passes the other
    filters, or the store keeps no log to replay from.
  */
  ghost predicate ReplaysSuffice(c: Config, logMax: nat) {
    || c.labels.None?
    || (forall a, b :: c.labels.value(a) == c.labels.value(b))
    || (forall k :: !Admits(c, k))
    || logMax == 0
  }

  function KeySet(items: seq<Object>): set<Key> { set n | 0 <= n < |items| :: items[n].key }

  /** Items still to be added are distinct objects of `m`; the rest is cached already. */
  ghost predicate PartlyLoaded(c: Config, items: seq<Object>, m: Snapshot, cache: Snapshot) {
    && (forall n :: 0 <= n < |items| ==> items[n].key in m && m[items[n].key] == items[n])
    && (forall a, b :: 0 <= a < b < |items| ==> items[a].key != items[b].key)
    && cache == Cached(c, m - KeySet(items))
  }

  /** The cache is the view of the folded history up to `lastRV`. */
  ghost predicate Converged(h: seq<Entry>, i: Informer) {
    i.lastRV <= |h| && i.cache == Cached(i.config, StateOf(h[..i.lastRV], i.gvk))
  }

  ghost predicate CacheOk(store: Store.StoreState, i: Informer) {
    var h := store.history;
    match i.phase
    case NotStarted => i.cache == map[]
    case Loading(items, rv) =>
      rv <= |h| && PartlyLoaded(i.config, items, Listable(i.config, StateOf(h[..rv], i.gvk)), i.cache)
    case Disconnected => Converged(h, i)
    case Stale => Converged(h, i)
    case Relisted(items, rv) =>
      Converged(h, i) && rv <= |h| && Enumerates(items, Listable(i.config, StateOf(h[..rv], i.gvk)))
    case Watching(id) =>
      Converged(h, i) && id < |store.watchers| && Serves(store.watchers[id], h, i)
  }

  /** Handler, batch, queue and producer agree on one chain of snapshots ending in the cache. */
  ghost predicate HandlerOk(i: Informer) {
    && LegalAll(i.seen, i.inflight)
    && InStep(SeeAll(i.seen, i.inflight), i.queue, i.published)
    && (!i.queue.closed ==> Explains(i.published, i.todo, i.cache))
  }

  ghost predicate Inv(s: System) {
    && StoreProofs.Inv(s.store)
    && Faithful(s.informer.config)
    && ReplaysSuffice(s.informer.config, s.store.logMax)
    && CacheOk(s.store, s.informer)
    && HandlerOk(s.informer)
  }

  // ---- facts about folded prefixes ----

  /** Every object of `m` is the one its version was issued for, no later than `r`. */
  ghost predicate Issued(h: seq<Entry>, r: nat, m: Snapshot) {
    && r <= |h|
    && Keyed(m)
    && forall k :: k in m ==> 1 <= m[k].rv <= r && h[m[k].rv - 1].event.obj == m[k]
  }

  lemma StateKeyed(h: seq<Entry>, r: nat, gvk: GVK)
    requires WellFormed(h) && r <= |h|
    ensures Issued(h, r, StateOf(h[..r], gvk))
  {
    WellFormedPrefix(h, r);
    var m := StateOf(h[..r], gvk);
    forall k | k in m ensures m[k].key == k && 1 <= m[k].rv <= r && h[m[k].rv - 1].event.obj == m[k] {
      StateSound(h[..r], gvk, k);
    }
  }

  lemma CachedVersions(c: Config, h: seq<Entry>, a: nat, b: nat, m1: Snapshot, m2: Snapshot)
    requires Faithful(c) && Issued(h, a, m1) && Issued(h, b, m2)
    ensures var was := Cached(c, m1); var now := Cached(c, m2);
      && Keyed(was) && Keyed(now)
      && forall k :: k in was && k in now && was[k].rv == now[k].rv ==> was[k] == now[k]
  {
  }

  /** Same key and version, same object: at whatever revisions the two were listed. */
  lemma SameVersionSameObject(h: seq<Entry>, a: nat, b: nat, gvk: GVK, c: Config)
    requires WellFormed(h) && a <= |h| && b <= |h| && Faithful(c)
    ensures var was := Cached(c, StateOf(h[..a], gvk)); var now := Cached(c, StateOf(h[..b], gvk));
      && Keyed(was) && Keyed(now)
      && forall k :: k in was && k in now && was[k].rv == now[k].rv ==> was[k] == now[k]
  {
    StateKeyed(h, a, gvk);
    StateKeyed(h, b, gvk);
    CachedVersions(c, h, a, b, StateOf(h[..a], gvk), StateOf(h[..b], gvk));
  }

  lemma StateMoves(h: seq<Entry>, n: nat, gvk: GVK)
    requires 0 < n <= |h| && h[n - 1].gvk == gvk
    ensures StateOf(h[..n], gvk) == Apply(StateOf(h[..n - 1], gvk), h[n - 1].event)
  {
    assert h[..n] == h[..n - 1] + [h[n - 1]];
    StateAppend(h[..n - 1], h[n - 1], gvk);
  }

  lemma IssuedFollows(h: seq<Entry>, r: nat, m: Snapshot, e: Event)
    requires Issued(h, r, m) && e.obj.rv > r
    requires e.kind == Added ==> e.obj.key !in m
    requires e.kind == Modified || e.kind == Deleted ==> e.obj.key in m
    ensures Follows(m, e)
  {
  }

  lemma EntryFollows(h: seq<Entry>, r: nat, n: nat, gvk: GVK)
    requires WellFormed(h) && r < n <= |h| && h[n - 1].gvk == gvk && h[n - 1].event.obj.rv == n
    requires StateOf(h[..n - 1], gvk) == StateOf(h[..r], gvk)
    ensures Follows(StateOf(h[..r], gvk), h[n - 1].event)
  {
    WellFormedPrefix(h, n - 1);
    StateKeyed(h, r, gvk);
    IssuedFollows(h, r, StateOf(h[..r], gvk), h[n - 1].event);
  }

  lemma QuietBefore(h: seq<Entry>, r: nat, n: nat, gvk: GVK)
    requires r < n <= |h| && h[n - 1].gvk == gvk && |KindEvents(h[r..n], gvk)| == 1
    ensures KindEvents(h[r..n - 1], gvk) == []
  {
    assert h[r..n] == h[r..n - 1] + [h[n - 1]];
    KindEventsAppend(h[r..n - 1], h[n - 1], gvk);
  }

  /** Without events of the kind in between, the folded state does not move. */
  lemma StateSame(h: seq<Entry>, r: nat, n: nat, gvk: GVK)
    requires r <= n <= |h| && KindEvents(h[r..n], gvk) == []
    ensures StateOf(h[..n], gvk) == StateOf(h[..r], gvk)
  {
    StateSplit(h[..n], r, gvk);
    assert h[..n][..r] == h[..r] && h[..n][r..] == h[r..n];
  }

  lemma NextEventAt(h: seq<Entry>, r: nat, n: nat, gvk: GVK)
    requires WellFormed(h) && r < n <= |h| && h[n - 1].gvk == gvk && h[n - 1].event.obj.rv == n
    requires |KindEvents(h[r..n], gvk)| == 1
    ensures StateOf(h[..n], gvk) == Apply(StateOf(h[..r], gvk), h[n - 1].event)
    ensures Follows(StateOf(h[..r], gvk), h[n - 1].event)
  {
    QuietBefore(h, r, n, gvk);
    StateSame(h, r, n - 1, gvk);
    StateMoves(h, n, gvk);
    EntryFollows(h, r, n, gvk);
  }

  /** Receiving the next event of the kind moves the folded state by exactly that event. */
  lemma NextEvent(h: seq<Entry>, r: nat, gvk: GVK)
    requires WellFormed(h) && r <= |h| && KindEvents(h[r..], gvk) != []
    ensures var e := KindEvents(h[r..], gvk)[0]; var n := e.obj.rv;
      && r < n <= |h|
      && StateOf(h[..n], gvk) == Apply(StateOf(h[..r], gvk), e)
      && Follows(StateOf(h[..r], gvk), e)
      && KindEvents(h[n..], gvk) == KindEvents(h[r..], gvk)[1..]
  {
    WellFormedNumbered(h);
    FirstAfter(h, r, gvk);
    NextEventAt(h, r, KindEvents(h[r..], gvk)[0].obj.rv, gvk);
  }

  // ---- preservation, move by move ----

  lemma SendKeepsTracks(w: Store.Watcher, h: seq<Entry>, e: Entry, gvk: GVK, pos: nat)
    requires pos <= |h| && Tracks(w, h, gvk, pos)
    ensures Tracks(if w.gvk == e.gvk then Store.Send(w, e.event) else w, h + [e], gvk, pos)
  {
    KindEventsTail(h, e, pos, gvk);
  }

  lemma StoreStepKeepsTracks(s: Store.StoreState, a: Store.Action, id: nat, gvk: GVK, pos: nat)
    requires Store.Enabled(s, a) && id < |s.watchers| && !(a.Receive? && a.id == id)
    requires pos <= |s.history| && Tracks(s.watchers[id], s.history, gvk, pos)
    ensures var s' := Store.Step(s, a);
      id < |s'.watchers| && pos <= |s'.history| && Tracks(s'.watchers[id], s'.history, gvk, pos)
  {
    var s' := Store.Step(s, a);
    StoreRuns.StepGrows(s, a);
    if s'.history != s.history {
      var e :| s'.history == s.history + [e] && s'.watchers == Store.Notify(s.watchers, e.gvk, e.event);
      SendKeepsTracks(s.watchers[id], s.history, e, gvk, pos);
    }
  }

  lemma SendKeepsPast(w: Store.Watcher, gvk: GVK, e: Event, rv: nat)
    requires AllPast(w.buffer, rv) && e.obj.rv == rv + 1
    ensures AllPast((if w.gvk == gvk then Store.Send(w, e) else w).buffer, rv + 1)
  {
  }

  lemma StoreStepKeepsPast(s: Store.StoreState, a: Store.Action, id: nat)
    requires Store.Enabled(s, a) && id < |s.watchers| && AllPast(s.watchers[id].buffer, |s.history|)
    requires Numbered(Store.Step(s, a).history)
    ensures var s' := Store.Step(s, a);
      id < |s'.watchers| && AllPast(s'.watchers[id].buffer, |s'.history|)
  {
    var s' := Store.Step(s, a);
    StoreRuns.StepGrows(s, a);
    if s'.history != s.history {
      var e :| s'.history == s.history + [e] && s'.watchers == Store.Notify(s.watchers, e.gvk, e.event);
      assert s'.history[|s.history|] == e;
      SendKeepsPast(s.watchers[id], e.gvk, e.event, |s.history|);
    }
  }

  lemma StoreStepServes(s: Store.StoreState, a: Store.Action, id: nat, i: Informer)
    requires Store.Enabled(s, a) && id < |s.watchers| && !(a.Receive? && a.id == id)
    requires StoreProofs.Inv(Store.Step(s, a)) && i.lastRV <= |s.history|
    requires Serves(s.watchers[id], s.history, i)
    ensures var s' := Store.Step(s, a);
      id < |s'.watchers| && i.lastRV <= |s'.history| && Serves(s'.watchers[id], s'.history, i)
  {
    StoreRuns.StepGrows(s, a);
    if Blind(i.config) {
      WellFormedNumbered(Store.Step(s, a).history);
      StoreStepKeepsPast(s, a, id);
    } else {
      StoreStepKeepsTracks(s, a, id, i.gvk, i.lastRV);
    }
  }

  /** Facts about past revisions survive anything the store does. */
  lemma PastSurvives(s: System, store: Store.StoreState)
    requires Inv(s) && StoreProofs.Inv(store) && store.logMax == s.store.logMax && s.store.history <= store.history
    requires s.informer.phase.Watching? ==>
      && s.informer.phase.id < |store.watchers| && s.informer.lastRV <= |store.history|
      && Serves(store.watchers[s.informer.phase.id], store.history, s.informer)
    ensures Inv(s.(store := store))
  {
    forall r: nat | r <= |s.store.history| ensures store.history[..r] == s.store.history[..r] {}
  }

  lemma StoreMoveKeepsInv(s: System, a: Store.Action)
    requires Inv(s) && Enabled(s, StoreMove(a))
    ensures Inv(Next(s, StoreMove(a)))
  {
    var i := s.informer;
    StoreProofs.StepKeepsInv(s.store, a);
    StoreRuns.StepGrows(s.store, a);
    if i.phase.Watching? {
      StoreStepServes(s.store, a, i.phase.id, i);
    }
    PastSurvives(s, Store.Step(s.store, a));
  }

  /** What a list with the selector leaves out is not for the cache anyway. */
  lemma ListedIsCached(c: Config, m: Snapshot)
    ensures Cached(c, Listable(c, m)) == Cached(c, m)
  {
  }

  /** With the whole list in hand and nothing cached, loading can begin. */
  lemma NothingLoaded(c: Config, items: seq<Object>, m: Snapshot)
    requires Enumerates(items, m) && Keyed(m)
    ensures PartlyLoaded(c, items, m, map[])
  {
    forall k | k in m ensures k in KeySet(items) {
      var n :| 0 <= n < |items| && items[n] == m[k];
    }
    assert m - KeySet(items) == map[];
  }

  lemma ListKeepsInv(s: System, items: seq<Object>)
    requires Inv(s) && Enabled(s, List(items))
    ensures Inv(Next(s, List(items)))
  {
    var h, i := s.store.history, s.informer;
    assert h[..|h|] == h;
    assert StateOf(h, i.gvk) == Store.KindObjects(s.store, i.gvk);
    StateKeyed(h, |h|, i.gvk);
    NothingLoaded(i.config, items, Listable(i.config, StateOf(h, i.gvk)));
  }

  lemma KeySetHead(items: seq<Object>)
    requires items != []
    ensures KeySet(items) == KeySet(items[1..]) + {items[0].key}
  {
    var rest := items[1..];
    forall k | k in KeySet(items) ensures k in KeySet(rest) + {items[0].key} {
      var n :| 0 <= n < |items| && items[n].key == k;
      assert n > 0 ==> rest[n - 1].key == k;
    }
    forall k | k in KeySet(rest) + {items[0].key} ensures k in KeySet(items) {
      if k in KeySet(rest) {
        var n :| 0 <= n < |rest| && rest[n].key == k;
        assert items[n + 1].key == k;
      }
    }
  }

  /** Adding one listed object moves it from the items to the cache. */
  lemma LoadOneTracks(c: Config, items: seq<Object>, m: Snapshot, cache: Snapshot)
    requires Faithful(c) && items != [] && PartlyLoaded(c, items, m, cache)
    ensures var eff := OnAdded(c, cache, items[0]);
      PartlyLoaded(c, items[1..], m, eff.cache) && Explains(cache, eff.events, eff.cache)
  {
    var o, rest := items[0], items[1..];
    KeySetHead(items);
    var eff := OnAdded(c, cache, o);
    assert o.key !in KeySet(rest);
    assert eff.cache == Cached(c, m - KeySet(rest));
    if eff.events != [] {
      ExplainsOne(cache, eff.events[0]);
    }
  }

  lemma LoadOneKeepsInv(s: System)
    requires Inv(s) && Enabled(s, LoadOne)
    ensures Inv(Next(s, LoadOne))
  {
    var i := s.informer;
    LoadOneTracks(i.config, i.phase.items, Listable(i.config, StateOf(s.store.history[..i.phase.rv], i.gvk)), i.cache);
  }

  lemma LoadedKeepsInv(s: System)
    requires Inv(s) && Enabled(s, Loaded)
    ensures Inv(Next(s, Loaded))
  {
    var i := s.informer;
    var m := StateOf(s.store.history[..i.phase.rv], i.gvk);
    assert Listable(i.config, m) - KeySet([]) == Listable(i.config, m);
    ListedIsCached(i.config, m);
  }

  lemma {:induction false} KindEventsPast(h: seq<Entry>, gvk: GVK, rv: nat)
    requires forall n :: 0 <= n < |h| ==> h[n].event.obj.rv <= rv
    ensures AllPast(KindEvents(h, gvk), rv)
  {
    if h != [] {
      KindEventsPast(h[..|h| - 1], gvk, rv);
    }
  }

  lemma {:induction false} SelectedPast(es: seq<Event>, sel: LabelSelector, rv: nat)
    requires AllPast(es, rv)
    ensures AllPast(Store.Selected(es, sel), rv)
  {
    if es != [] {
      SelectedPast(es[..|es| - 1], sel, rv);
    }
  }

  lemma {:induction false} SelectedAll(es: seq<Event>, sel: LabelSelector)
    requires forall l :: sel(l)
    ensures Store.Selected(es, sel) == es
  {
    if es != [] {
      var n := |es| - 1;
      SelectedAll(es[..n], sel);
      assert es == es[..n] + [es[n]];
    }
  }

  /** Either nothing matches, or what is replayed is all there is to replay. */
  lemma ReplayServes(s: Store.StoreState, gvk: GVK, r: nat, c: Config)
    requires StoreProofs.Inv(s) && r <= |s.history| && ReplaysSuffice(c, s.logMax)
    ensures var (s', reply) := Store.Watch(s, gvk, Some(r), c.labels);
      reply.Opened? ==>
        && reply.id == |s.watchers| && |s'.watchers| == reply.id + 1
        && var w := s'.watchers[reply.id];
           if Blind(c) then AllPast(w.buffer, |s.history|) else Tracks(w, s.history, gvk, r)
  {
    WellFormedNumbered(s.history);
    var all := KindEvents(s.history[r..], gvk);
    KindEventsPast(s.history[r..], gvk, |s.history|);
    assert s.history[|s.history|..] == [];
    if c.labels.Some? {
      SelectedPast(all, c.labels.value, |s.history|);
      if s.logMax > 0 && !Blind(c) {
        var o :| Matches(c, o);
        assert Admits(c, o.key) && c.labels.value(o.labels);
        SelectedAll(all, c.labels.value);
      }
    }
  }

  lemma ConnectKeepsInv(s: System)
    requires Inv(s) && Enabled(s, Connect)
    ensures Inv(Next(s, Connect))
  {
    var i := s.informer;
    StoreProofs.WatchKeepsInv(s.store, i.gvk, Some(i.lastRV), i.config.labels);
    ReplayServes(s.store, i.gvk, i.lastRV, i.config);
  }

  /** Connecting opens a watch, or sends the informer to list again exactly when an event it lacks is gone. */
  lemma ConnectOpensOrRelists(s: System)
    requires Inv(s) && Enabled(s, Connect)
    ensures var s' := Next(s, Connect); var h := s.store.history; var i := s.informer;
      && (s'.informer.phase == Stale <==> i.lastRV < |h| - s.store.held)
      && (s'.informer.phase != Stale ==>
            && s'.informer.phase == Watching(|s.store.watchers|)
            && StoreRuns.OpensAt(s.store, s'.store, i.gvk, i.lastRV,
                                 Store.Chosen(i.config.labels, KindEvents(h[i.lastRV..], i.gvk))))
      && s'.informer == i.(phase := s'.informer.phase) && (s'.informer.phase == Stale ==> s'.store == s.store)
  {
    StoreRuns.WatchStartsAtRequest(s.store, s.informer.gvk, s.informer.lastRV, s.informer.config.labels);
  }

  lemma RelistKeepsInv(s: System, items: seq<Object>)
    requires Inv(s) && Enabled(s, Relist(items))
    ensures Inv(Next(s, Relist(items)))
  {
    var h := s.store.history;
    assert h[..|h|] == h;
    assert StateOf(h, s.informer.gvk) == Store.KindObjects(s.store, s.informer.gvk);
  }

  lemma ReplaceAllKeepsInv(s: System, wasOrder: seq<Key>, nowOrder: seq<Key>)
    requires Inv(s) && Enabled(s, ReplaceAll(wasOrder, nowOrder))
    ensures Inv(Next(s, ReplaceAll(wasOrder, nowOrder)))
  {
    var h, i := s.store.history, s.informer;
    var rv := i.phase.rv;
    StateKeyed(h, rv, i.gvk);
    ReplacedIsCached(i.config, i.phase.items, Listable(i.config, StateOf(h[..rv], i.gvk)));
    ListedIsCached(i.config, StateOf(h[..rv], i.gvk));
    SameVersionSameObject(h, i.lastRV, rv, i.gvk, i.config);
    DiffExplains(i.cache, Replaced(i.config, i.phase.items), wasOrder, nowOrder);
  }

  lemma BlindReceives(h: seq<Entry>, i: Informer, e: Event)
    requires Blind(i.config) && Converged(h, i) && e.obj.rv <= |h|
    ensures Handled(i, e).cache == i.cache == map[] && Handled(i, e).todo == [] && Converged(h, Handled(i, e))
  {
  }

  lemma NextReceived(h: seq<Entry>, i: Informer, e: Event)
    requires WellFormed(h) && Faithful(i.config) && Converged(h, i)
    requires KindEvents(h[i.lastRV..], i.gvk) != [] && e == KindEvents(h[i.lastRV..], i.gvk)[0]
    ensures Explains(i.cache, Handled(i, e).todo, Handled(i, e).cache) && Converged(h, Handled(i, e))
    ensures KindEvents(h[Handled(i, e).lastRV..], i.gvk) == KindEvents(h[i.lastRV..], i.gvk)[1..]
  {
    NextEvent(h, i.lastRV, i.gvk);
    StateKeyed(h, i.lastRV, i.gvk);
    EventTracks(i.config, StateOf(h[..i.lastRV], i.gvk), e);
  }

  /** The next event in the channel moves a right cache to the next right cache, explained. */
  lemma ReceiveTracks(h: seq<Entry>, i: Informer, w: Store.Watcher)
    requires WellFormed(h) && Faithful(i.config) && Converged(h, i) && w.buffer != [] && Serves(w, h, i)
    ensures var i' := Handled(i, w.buffer[0]);
      && Explains(i.cache, i'.todo, i'.cache)
      && Converged(h, i') && Serves(Store.Take(w), h, i')
  {
    var e := w.buffer[0];
    if Blind(i.config) {
      BlindReceives(h, i, e);
    } else {
      NextReceived(h, i, e);
    }
  }

  lemma ReceiveKeepsInv(s: System)
    requires Inv(s) && Enabled(s, ReceiveEvent)
    ensures Inv(Next(s, ReceiveEvent))
  {
    var i := s.informer;
    StoreProofs.StepKeepsInv(s.store, Store.Receive(i.phase.id));
    ReceiveTracks(s.store.history, i, s.store.watchers[i.phase.id]);
  }

  lemma ResyncKeepsInv(s: System, order: seq<Key>)
    requires Inv(s) && Enabled(s, Resync(order))
    ensures Inv(Next(s, Resync(order)))
  {
    var i := s.informer;
    StateKeyed(s.store.history, i.lastRV, i.gvk);
    ResyncExplains(i.cache, order);
  }

  /** A resync of the watch loop is about to tell each cached object again, and changes nothing else. */
  lemma ResyncRetells(s: System, order: seq<Key>, k: Key)
    requires Inv(s) && Enabled(s, Resync(order))
    ensures var s' := Next(s, Resync(order)); var i := s.informer;
      && s'.store == s.store && s'.informer == i.(todo := s'.informer.todo)
      && OfKey(s'.informer.todo, k) == if k in i.cache then [UpdateEvent(i.cache[k], i.cache[k])] else []
  {
    StateKeyed(s.store.history, s.informer.lastRV, s.informer.gvk);
    ResyncTellsEachKey(s.informer.cache, order, k);
  }

  lemma EnqueueKeepsInv(s: System)
    requires Inv(s) && Enabled(s, EnqueueOne)
    ensures Inv(Next(s, EnqueueOne))
  {
    var i := s.informer;
    if !i.queue.closed {
      EnqueueKeepsInStep(SeeAll(i.seen, i.inflight), i.queue, i.published, i.todo[0]);
    }
  }

  lemma DrainKeepsInv(s: System)
    requires Inv(s) && Enabled(s, Move.Drain)
    ensures Inv(Next(s, Move.Drain))
  {
    var i := s.informer;
    BatchReachesPublished(i.seen, i.queue, i.published);
  }

  lemma MoveKeepsInv(s: System, v: Move)
    requires Inv(s) && Enabled(s, v)
    ensures Inv(Next(s, v))
  {
    match v
    case StoreMove(a) => StoreMoveKeepsInv(s, a);
    case List(items) => ListKeepsInv(s, items);
    case LoadOne => LoadOneKeepsInv(s);
    case Loaded => LoadedKeepsInv(s);
    case Connect => ConnectKeepsInv(s);
    case Relist(items) => RelistKeepsInv(s, items);
    case ReplaceAll(wasOrder, nowOrder) => ReplaceAllKeepsInv(s, wasOrder, nowOrder);
    case ReceiveEvent => ReceiveKeepsInv(s);
    case ChannelClosed =>
    case Resync(order) => ResyncKeepsInv(s, order);
    case EnqueueOne => EnqueueKeepsInv(s);
    case Drain => DrainKeepsInv(s);
    case Deliver =>
    case CloseQueue =>
  }

  lemma {:induction false} RunKeepsInv(states: seq<System>, moves: seq<Move>, logMax: nat, gvk: GVK, c: Config, n: nat)
    requires Run(states, moves, logMax, gvk, c) && Faithful(c) && ReplaysSuffice(c, logMax)
    requires n <= |moves|
    ensures Inv(states[n]) && states[n].informer.gvk == gvk && states[n].informer.config == c
  {
    if n == 0 {
      StoreRuns.InitInv(logMax);
    } else {
      RunKeepsInv(states, moves, logMax, gvk, c, n - 1);
      MoveKeepsInv(states[n - 1], moves[n - 1]);
    }
  }

  // ---- main results ----

  /** The informer has its initial list and is in its watch loop. */
  predicate Synced(i: Informer) { !i.phase.NotStarted? && !i.phase.Loading? }

  /** Its watch is open and it has taken everything out of the channel. */
  predicate CaughtUp(s: System) {
    var i := s.informer;
    && i.phase.Watching? && i.phase.id < |s.store.watchers|
    && !s.store.watchers[i.phase.id].closed && s.store.watchers[i.phase.id].buffer == []
  }

  /** Nothing between the cache and the handler. */
  predicate Quiet(i: Informer) {
    i.todo == [] && i.inflight == [] && i.queue.pending == map[] && !i.queue.closed
  }

  lemma CaughtUpIsCurrent(s: System)
    requires Inv(s) && CaughtUp(s)
    ensures s.informer.cache == Cached(s.informer.config, Store.KindObjects(s.store, s.informer.gvk))
  {
    var h, i := s.store.history, s.informer;
    assert h[i.lastRV..|h|] == h[i.lastRV..] && h[..|h|] == h;
    if !Blind(i.config) {
      StateSame(h, i.lastRV, |h|, i.gvk);
    }
    assert StateOf(h, i.gvk) == Store.KindObjects(s.store, i.gvk);
  }

  lemma QuietMeansSeen(i: Informer)
    requires HandlerOk(i) && Quiet(i)
    ensures i.seen == i.cache
  {
    forall k ensures Lookup(i.seen, k) == Lookup(i.published, k) {
      assert Shape(Lookup(i.seen, k), PendingOf(i.queue.pending, k), k, Lookup(i.published, k));
    }
    SameLookups(i.seen, i.published);
  }

  /**
    End-to-end convergence: in every run in which replays suffice, a synced
    informer holds exactly the view of its kind's history up to `lastRV`; when
    its watch is open and drained that is the view of the store's current
    objects; and a quiet handler then has seen exactly those objects.
  */
  lemma Convergence(states: seq<System>, moves: seq<Move>, logMax: nat, gvk: GVK, c: Config, n: nat)
    requires Run(states, moves, logMax, gvk, c) && Faithful(c) && ReplaysSuffice(c, logMax)
    requires n <= |moves|
    ensures var s := states[n]; var i := s.informer;
      && (Synced(i) ==>
            && i.lastRV <= |s.store.history|
            && i.cache == Cached(c, StateOf(s.store.history[..i.lastRV], gvk)))
      && (CaughtUp(s) ==> i.cache == Cached(c, Store.KindObjects(s.store, gvk)))
      && (CaughtUp(s) && Quiet(i) ==> i.seen == Cached(c, Store.KindObjects(s.store, gvk)))
  {
    RunKeepsInv(states, moves, logMax, gvk, c, n);
    if CaughtUp(states[n]) {
      CaughtUpIsCurrent(states[n]);
    }
    if Quiet(states[n].informer) {
      QuietMeansSeen(states[n].informer);
    }
  }

  /**
    What a caught-up informer holds, key by key: exactly the store's objects its
    configuration asks for, each transformed.
  */
  lemma HoldsExactlyWanted(
      states: seq<System>, moves: seq<Move>, logMax: nat, gvk: GVK, c: Config, n: nat, k: Key)
    requires Run(states, moves, logMax, gvk, c) && Faithful(c) && ReplaysSuffice(c, logMax)
    requires n <= |moves| && CaughtUp(states[n])
    ensures var cache := states[n].informer.cache; var m := Store.KindObjects(states[n].store, gvk);
      && (k in cache <==> k in m && Wants(c, k, m[k].labels))
      && (k in cache ==> c.transform(m[k]) == Some(cache[k]))
  {
    RunKeepsInv(states, moves, logMax, gvk, c, n);
    CaughtUpIsCurrent(states[n]);
    var m := Store.KindObjects(states[n].store, gvk);
    if k in m {
      StoreProofs.LiveKey(states[n].store, gvk, k);
      MatchesIffWanted(c, m[k]);
    }
  }

  /**
    Handler consistency: in every run, what the handler has seen, plus what is
    being delivered, pending and about to be enqueued, is exactly the cache,
    and every one of those events is legal when its turn comes: OnAdd only for
    a missing key, OnUpdate from the object last seen, OnDelete for a present
    key. No key ever holds more than two pending events.
  */
  lemma HandlerConsistency(states: seq<System>, moves: seq<Move>, logMax: nat, gvk: GVK, c: Config, n: nat)
    requires Run(states, moves, logMax, gvk, c) && Faithful(c) && ReplaysSuffice(c, logMax)
    requires n <= |moves|
    ensures var i := states[n].informer;
      && (forall k :: |PendingOf(i.queue.pending, k)| <= 2)
      && LegalAll(i.seen, i.inflight + Batch(i.queue))
      && (!i.queue.closed ==>
            && LegalAll(i.seen, i.inflight + Batch(i.queue) + i.todo)
            && SeeAll(i.seen, i.inflight + Batch(i.queue) + i.todo) == i.cache)
  {
    RunKeepsInv(states, moves, logMax, gvk, c, n);
    var i := states[n].informer;
    var mid := SeeAll(i.seen, i.inflight);
    BatchReachesPublished(mid, i.queue, i.published);
    SeeAllConcat(i.seen, i.inflight, Batch(i.queue));
    SeeAllConcat(i.seen, i.inflight + Batch(i.queue), i.todo);
    forall k ensures |PendingOf(i.queue.pending, k)| <= 2 {
      assert Shape(Lookup(mid, k), PendingOf(i.queue.pending, k), k, Lookup(i.published, k));
    }
  }

  /** Every single callback made to the handler in any run is legal for what it has seen. */
  lemma EveryCallbackIsLegal(states: seq<System>, moves: seq<Move>, logMax: nat, gvk: GVK, c: Config, n: nat)
    requires Run(states, moves, logMax, gvk, c) && Faithful(c) && ReplaysSuffice(c, logMax)
    requires n < |moves| && moves[n] == Deliver
    ensures var i := states[n].informer;
      && i.inflight != []
      && Legal(i.seen, i.inflight[0])
      && states[n + 1].informer.seen == See(i.seen, i.inflight[0])
  {
    RunKeepsInv(states, moves, logMax, gvk, c, n);
  }
}
