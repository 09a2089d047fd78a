/**
  The in-memory store and its watchers as the mutable objects they are. The
  log is trimmed and the watcher lists are cleaned up as the calls go; each
  method is proved to do exactly what the state machine of `StoreSpec` does on
  the full history and on all watchers ever opened.
*/
module Memory {
  import opened Objects
  import opened History
  import EventLog
  import Spec = StoreSpec

  class MemoryWatcher {
    const gvk: GVK
    const cap: nat
    var ch: seq<Event>
    var closed: bool
    ghost const from: nat
    ghost const filtered: bool
    ghost var received: seq<Event>

    ghost function State(): Spec.Watcher
      reads this
    {
      Spec.Watcher(gvk, filtered, from, cap, ch, received, closed)
    }

    constructor (gvk: GVK, cap: nat, ghost from: nat, ghost filtered: bool)
      ensures State() == Spec.Watcher(gvk, filtered, from, cap, [], [], false)
    {
      this.gvk, this.cap, this.from, this.filtered := gvk, cap, from, filtered;
      ch, received, closed := [], [], false;
    }

    method IsStopped() returns (stopped: bool)
      ensures stopped == State().closed
    {
      stopped := closed;
    }

    /** A blocking channel send. It returns only if there is room. */
    method Push(event: Event)
      requires |ch| < cap
      modifies this`ch
      ensures State() == old(State()).(buffer := old(ch) + [event])
    {
      ch := ch + [event];
    }

    /** Deliver without blocking: close the channel when it is full. */
    method Send(event: Event)
      modifies this`ch, this`closed
      ensures State() == Spec.Send(old(State()), event)
      ensures old(closed) ==> closed && ch == old(ch)
      ensures !old(closed) && |old(ch)| < cap ==> !closed && ch == old(ch) + [event]
      ensures !old(closed) && |old(ch)| >= cap ==> closed && ch == old(ch)
    {
      if closed {
        return;
      }
      if |ch| < cap {
        Push(event);
      } else {
        closed := true;
      }
    }

    /** Take the next event out; None when the channel is closed and empty. */
    method Receive() returns (event: Option<Event>)
      requires ch != [] || closed
      modifies this`ch, this`received
      ensures old(ch) == [] ==> event.None? && State() == old(State())
      ensures old(ch) != [] ==> event == Some(old(ch)[0]) && State() == Spec.Take(old(State()))
    {
      if ch == [] {
        event := None;
      } else {
        event := Some(ch[0]);
        received := received + [ch[0]];
        ch := ch[1..];
      }
    }

    method Close()
      modifies this`closed
      ensures State() == old(State()).(closed := true)
    {
      closed := true;
    }
  }

  class MemoryStore {
    var objects: map<GVK, Snapshot>
    var watchers: map<GVK, seq<MemoryWatcher>>
    var uidCounter: nat
    var revision: nat
    var eventLog: seq<Entry>
    const eventLogMax: nat
    /** Everything ever logged, and every watcher ever opened. */
    ghost var history: seq<Entry>
    ghost var everOpened: seq<MemoryWatcher>

    /** The log is the end of the history. */
    ghost predicate LogValid()
      reads `eventLog, `history
    {
      |eventLog| <= eventLogMax && EventLog.IsEndOf(eventLog, history)
    }

    /** Every open watcher is registered under its kind, once. */
    ghost predicate Registered()
      reads `watchers, `everOpened, everOpened
    {
      && (forall i, j :: 0 <= i < j < |everOpened| ==> everOpened[i] != everOpened[j])
      && (forall g, i :: g in watchers && 0 <= i < |watchers[g]| ==>
            watchers[g][i] in everOpened && watchers[g][i].gvk == g)
      && (forall g, i, j :: g in watchers && 0 <= i < j < |watchers[g]| ==> watchers[g][i] != watchers[g][j])
      && (forall w :: w in everOpened && !w.closed ==> w.gvk in watchers && w in watchers[w.gvk])
    }

    ghost predicate Valid()
      reads this, everOpened
    {
      && revision == |history| && LogValid() && Registered()
      && forall g, k :: g in objects && k in objects[g] ==> objects[g][k].key == k
    }

    static ghost function StatesOf(ws: seq<MemoryWatcher>): seq<Spec.Watcher>
      reads ws
    {
      seq(|ws|, i requires 0 <= i < |ws| reads ws => ws[i].State())
    }

    ghost function WatcherStates(): seq<Spec.Watcher>
      reads `everOpened, everOpened
    {
      StatesOf(everOpened)
    }

    ghost function State(): Spec.StoreState
      reads this, everOpened
    {
      Spec.StoreState(objects, uidCounter, history, |eventLog|, eventLogMax, WatcherStates())
    }

    constructor (eventLogMax: nat)
      ensures Valid() && State() == Spec.Init(eventLogMax)
    {
      this.eventLogMax := eventLogMax;
      objects, watchers, uidCounter, revision, eventLog := map[], map[], 0, 0, [];
      history, everOpened := [], [];
    }

    // ---- log ----

    method LogEvent(gvk: GVK, rv: nat, event: Event)
      requires LogValid() && rv == |history| + 1
      modifies `eventLog, `history
      ensures LogValid()
      ensures history == old(history) + [Entry(rv, gvk, event)]
      ensures |eventLog| == Spec.Min(|old(eventLog)| + 1, eventLogMax)
    {
      eventLog := EventLog.Append(eventLog, eventLogMax, Entry(rv, gvk, event), history);
      history := history + [Entry(rv, gvk, event)];
    }

    // ---- watchers ----

    /** Send to every open watcher of a list; the open ones, by position, remain active. */
    static method SendAll(list: seq<MemoryWatcher>, event: Event)
      returns (active: seq<MemoryWatcher>, ghost at: seq<nat>)
      requires forall i, j :: 0 <= i < j < |list| ==> list[i] != list[j]
      modifies list
      ensures forall m :: 0 <= m < |list| ==> list[m].State() == Spec.Send(old(list[m].State()), event)
      ensures |at| == |active|
      ensures forall m :: 0 <= m < |at| ==> at[m] < |list| && active[m] == list[at[m]]
      ensures forall a, b :: 0 <= a < b < |at| ==> at[a] < at[b]
      ensures forall m :: 0 <= m < |list| && !old(list[m].closed) ==> m in at
    {
      active, at := [], [];
      for n := 0 to |list|
        invariant forall m :: 0 <= m < n ==> list[m].State() == Spec.Send(old(list[m].State()), event)
        invariant forall m :: n <= m < |list| ==> list[m].State() == old(list[m].State())
        invariant |at| == |active|
        invariant forall m :: 0 <= m < |at| ==> at[m] < n && active[m] == list[at[m]]
        invariant forall a, b :: 0 <= a < b < |at| ==> at[a] < at[b]
        invariant forall m :: 0 <= m < n && !old(list[m].closed) ==> m in at
      {
        var stopped := list[n].IsStopped();
        if !stopped {
          active, at := active + [list[n]], at + [n];
          list[n].Send(event);
        }
      }
    }

    /** The sending half of notifyWatchers: who is registered for the kind gets the event. */
    method Deliver(gvk: GVK, event: Event)
      returns (active: seq<MemoryWatcher>, ghost at: seq<nat>, ghost list: seq<MemoryWatcher>)
      requires Registered()
      modifies everOpened
      ensures WatcherStates() == Spec.Notify(old(WatcherStates()), gvk, event)
      ensures list == if gvk in watchers then watchers[gvk] else []
      ensures |at| == |active|
      ensures forall m :: 0 <= m < |at| ==> at[m] < |list| && active[m] == list[at[m]]
      ensures forall a, b :: 0 <= a < b < |at| ==> at[a] < at[b]
      ensures forall m :: 0 <= m < |list| && !list[m].closed ==> m in at
      ensures forall w :: w in everOpened && !w.closed ==> !old(w.closed)
    {
      var registered := if gvk in watchers then watchers[gvk] else [];
      list := registered;
      active, at := SendAll(registered, event);
      forall i | 0 <= i < |everOpened|
        ensures everOpened[i].State() == Spec.Notify(old(WatcherStates()), gvk, event)[i]
      {
        if everOpened[i] in list {
          var m :| 0 <= m < |list| && list[m] == everOpened[i];
        }
      }
    }

    method NotifyWatchers(gvk: GVK, event: Event)
      requires Registered()
      modifies `watchers, everOpened
      ensures Registered()
      ensures WatcherStates() == Spec.Notify(old(WatcherStates()), gvk, event)
    {
      var active;
      ghost var at, list;
      active, at, list := Deliver(gvk, event);
      forall w | w in everOpened && !w.closed && w.gvk == gvk ensures w in active {
        var m :| 0 <= m < |list| && list[m] == w;
        var j :| 0 <= j < |at| && at[j] == m;
        assert active[j] == w;
      }
      watchers := watchers[gvk := active];
    }

    method RemoveWatcher(watcher: MemoryWatcher)
      requires Registered() && watcher.closed
      modifies this`watchers
      ensures Registered() && WatcherStates() == old(WatcherStates())
      ensures forall g :: g in watchers ==> watcher !in watchers[g]
    {
      var gvk := watcher.gvk;
      var list := if gvk in watchers then watchers[gvk] else [];
      var filtered: seq<MemoryWatcher> := [];
      for n := 0 to |list|
        invariant forall m :: 0 <= m < |filtered| ==> filtered[m] in list[..n] && filtered[m] != watcher
        invariant forall a, b :: 0 <= a < b < |filtered| ==> filtered[a] != filtered[b]
        invariant forall m :: 0 <= m < n && list[m] != watcher ==> list[m] in filtered
      {
        assert list[n] !in list[..n];
        if list[n] != watcher {
          filtered := filtered + [list[n]];
        }
      }
      watchers := watchers[gvk := filtered];
    }

    /** `memoryWatcher.Stop`: close the channel, then leave the store's list. */
    method Stop(w: MemoryWatcher, ghost id: nat)
      requires Valid() && id < |everOpened| && everOpened[id] == w
      modifies this`watchers, w`closed
      ensures Valid() && State() == Spec.Step(old(State()), Spec.Stop(id))
    {
      w.Close();
      RemoveWatcher(w);
      assert WatcherStates() == old(WatcherStates())[id := old(WatcherStates())[id].(closed := true)];
    }

    // ---- calls ----

    /** The common end of every mutation: number it, log it, tell the watchers. */
    method Publish(gvk: GVK, kind: EventType, obj: Object)
      requires Valid() && obj.rv == revision + 1
      modifies this`revision, this`eventLog, this`history, this`watchers, everOpened
      ensures Valid() && State() == Spec.Publish(old(State()), gvk, kind, obj)
      ensures obj.rv == revision
    {
      revision := revision + 1;
      LogEvent(gvk, revision, Event(kind, obj));
      NotifyWatchers(gvk, Event(kind, obj));
    }

    /** Store an object under its key, then publish it. */
    method PutAndPublish(gvk: GVK, kind: EventType, obj: Object)
      requires Valid() && obj.rv == revision + 1
      modifies this, everOpened
      ensures Valid() && everOpened == old(everOpened)
      ensures State() == Spec.Publish(old(State()).(objects := Spec.Put(old(objects), gvk, obj)), gvk, kind, obj)
    {
      var gvkMap := if gvk in objects then objects[gvk] else map[];
      objects := objects[gvk := gvkMap[obj.key := obj]];
      Publish(gvk, kind, obj);
    }

    method Create(d: Draft) returns (reply: Spec.Reply)
      requires Valid()
      modifies this, everOpened
      ensures Valid() && everOpened == old(everOpened)
      ensures (State(), reply) == Spec.Create(old(State()), d)
    {
      var gvkMap := if d.gvk in objects then objects[d.gvk] else map[];
      if d.key in gvkMap {
        return Spec.Failed(Spec.AlreadyExists);
      }
      var uid := d.uid;
      if uid == "" {
        uid := Spec.NewUid(uidCounter);
        uidCounter := uidCounter + 1;
      }
      var stored := Object(d.key, revision + 1, uid, 1, d.labels, d.annotations, d.spec, d.status);
      PutAndPublish(d.gvk, Added, stored);
      return Spec.Ok(stored);
    }

    method Update(d: Draft) returns (reply: Spec.Reply)
      requires Valid()
      modifies this, everOpened
      ensures Valid() && everOpened == old(everOpened)
      ensures (State(), reply) == Spec.Update(old(State()), d)
    {
      if d.gvk !in objects || d.key !in objects[d.gvk] {
        return Spec.Failed(Spec.NotFound);
      }
      var stored := objects[d.gvk][d.key];
      if d.rv != Some(stored.rv) {
        return Spec.Failed(Spec.Conflict);
      }
      var merged := Spec.MergeSpec(stored, d);
      if merged == stored {
        return Spec.Ok(stored);
      }
      if stored.spec != d.spec {
        merged := merged.(generation := stored.generation + 1);
      } else {
        merged := merged.(generation := stored.generation);
      }
      merged := merged.(rv := revision + 1);
      PutAndPublish(d.gvk, Modified, merged);
      return Spec.Ok(merged);
    }

    method UpdateStatus(d: Draft) returns (reply: Spec.Reply)
      requires Valid()
      modifies this, everOpened
      ensures Valid() && everOpened == old(everOpened)
      ensures (State(), reply) == Spec.UpdateStatus(old(State()), d)
    {
      if d.gvk !in objects || d.key !in objects[d.gvk] {
        return Spec.Failed(Spec.NotFound);
      }
      var stored := objects[d.gvk][d.key];
      if d.rv != Some(stored.rv) {
        return Spec.Failed(Spec.Conflict);
      }
      var merged := Spec.MergeStatus(stored, d);
      if merged == stored {
        return Spec.Ok(stored);
      }
      merged := merged.(rv := revision + 1);
      PutAndPublish(d.gvk, Modified, merged);
      return Spec.Ok(merged);
    }

    method Delete(d: Draft) returns (reply: Spec.Reply)
      requires Valid()
      modifies this, everOpened
      ensures Valid() && everOpened == old(everOpened)
      ensures (State(), reply) == Spec.Delete(old(State()), d)
    {
      if d.gvk !in objects || d.key !in objects[d.gvk] {
        return Spec.Failed(Spec.NotFound);
      }
      var stored := objects[d.gvk][d.key];
      if d.rv.Some? && d.rv.value != stored.rv {
        return Spec.Failed(Spec.Conflict);
      }
      objects := objects[d.gvk := objects[d.gvk] - {d.key}];
      var gone := stored.(rv := revision + 1);
      Publish(d.gvk, Deleted, gone);
      return Spec.Ok(gone);
    }

    /** The objects a filtered list shows, leaving out the keys in `except`. */
    static ghost function Visible(m: Snapshot, except: set<Key>, namespace: string, selector: Option<LabelSelector>)
      : Snapshot
    {
      map k | k in m && k !in except
        && (namespace == "" || k.namespace == namespace)
        && (selector.Some? ==> selector.value(m[k].labels)) :: m[k]
    }

    static lemma VisibleStep(m: Snapshot, except: set<Key>, k: Key, namespace: string, selector: Option<LabelSelector>)
      requires k in except && k in m
      ensures
        var shown := (namespace == "" || k.namespace == namespace) && (selector.Some? ==> selector.value(m[k].labels));
        var before := Visible(m, except, namespace, selector);
        && k !in before
        && Visible(m, except - {k}, namespace, selector) == if shown then before[k := m[k]] else before
    {
    }

    static lemma VisibleItems(items: seq<Object>, m: Snapshot, namespace: string, selector: Option<LabelSelector>)
      requires Enumerates(items, Visible(m, {}, namespace, selector)) && forall k :: k in m ==> m[k].key == k
      ensures forall k :: k in m ==>
        (m[k] in items <==>
           (namespace == "" || k.namespace == namespace) && (selector.Some? ==> selector.value(m[k].labels)))
    {
      var visible := Visible(m, {}, namespace, selector);
      forall k | k in m ensures m[k] in items <==> k in visible {
        if m[k] in items {
          var n :| 0 <= n < |items| && items[n] == m[k];
          assert items[n].key in visible;
        }
        assert k in visible ==> visible[k] in items;
      }
    }

    /** The objects of a kind that pass the filters, each once, with the current revision. */
    method List(gvk: GVK, namespace: string, selector: Option<LabelSelector>)
      returns (items: seq<Object>, rv: nat)
      requires Valid()
      ensures rv == |State().history|
      ensures Enumerates(items, Visible(Spec.ObjectsOf(objects, gvk), {}, namespace, selector))
      ensures forall k :: k in Spec.ObjectsOf(objects, gvk) ==>
        var o := Spec.ObjectsOf(objects, gvk)[k];
        (o in items <==> (namespace == "" || k.namespace == namespace) && (selector.Some? ==> selector.value(o.labels)))
    {
      var gvkMap := if gvk in objects then objects[gvk] else map[];
      rv := revision;
      items := [];
      var todo := gvkMap.Keys;
      while todo != {}
        invariant todo <= gvkMap.Keys
        invariant Enumerates(items, Visible(gvkMap, todo, namespace, selector))
        decreases |todo|
      {
        var key :| key in todo;
        VisibleStep(gvkMap, todo, key, namespace, selector);
        ghost var shown := Visible(gvkMap, todo, namespace, selector);
        todo := todo - {key};
        var obj := gvkMap[key];
        assert obj.key == key;
        if (namespace != "" && key.namespace != namespace) || (selector.Some? && !selector.value(obj.labels)) {
          continue;
        }
        EnumeratesMore(items, shown, obj);
        items := items + [obj];
      }
      VisibleItems(items, gvkMap, namespace, selector);
    }

    /** The replayed events a label selector lets through. */
    static method SelectEvents(all: seq<Event>, selector: Option<LabelSelector>) returns (replay: seq<Event>)
      ensures replay == Spec.Chosen(selector, all)
    {
      if selector.None? {
        return all;
      }
      replay := [];
      for n := 0 to |all|
        invariant replay == Spec.Selected(all[..n], selector.value)
      {
        assert all[..n + 1][..n] == all[..n];
        if all[n].kind == Bookmark || selector.value(all[n].obj.labels) {
          replay := replay + [all[n]];
        }
      }
      assert all[..|all|] == all;
    }

    /** A channel with the replay already in it: every blocking send finds room. */
    static method Preload(gvk: GVK, replay: seq<Event>, ghost from: nat, ghost filtered: bool)
      returns (w: MemoryWatcher)
      ensures fresh(w)
      ensures w.State() == Spec.Watcher(gvk, filtered, from, Spec.Capacity(|replay|), replay, [], false)
    {
      var bufSize := 100;
      if |replay| > bufSize {
        bufSize := |replay| + 100;
      }
      w := new MemoryWatcher(gvk, bufSize, from, filtered);
      for n := 0 to |replay|
        invariant w.State() == Spec.Watcher(gvk, filtered, from, bufSize, replay[..n], [], false)
      {
        w.Push(replay[n]);
        assert replay[..n + 1] == replay[..n] + [replay[n]];
      }
      assert replay[..|replay|] == replay;
    }

    method Register(w: MemoryWatcher)
      requires Valid() && w !in everOpened
      modifies `watchers, `everOpened
      ensures Valid() && everOpened == old(everOpened) + [w]
      ensures State() == old(State()).(watchers := old(WatcherStates()) + [w.State()])
    {
      watchers := watchers[w.gvk := (if w.gvk in watchers then watchers[w.gvk] else []) + [w]];
      everOpened := everOpened + [w];
      assert WatcherStates() == old(WatcherStates()) + [w.State()];
    }

    /** Replay under the lock into a fresh channel, then register it for live events. */
    method Watch(gvk: GVK, resume: Option<int>, selector: Option<LabelSelector>)
      returns (w: MemoryWatcher?, tooOld: Option<(int, int)>, ghost reply: Spec.WatchReply)
      requires Valid()
      modifies `watchers, `everOpened
      ensures Valid() && (State(), reply) == Spec.Watch(old(State()), gvk, resume, selector)
      ensures reply.TooOld? ==> tooOld == Some((reply.requested, reply.oldest)) && everOpened == old(everOpened)
      ensures reply.Opened? ==> tooOld.None? && w != null && fresh(w) && everOpened == old(everOpened) + [w]
      ensures resume.None? ==> w != null && w.gvk == gvk && w.ch == [] && !w.closed && w.cap == 100
    {
      var all: seq<Event> := [];
      if resume.Some? {
        var r := EventLog.EventsSince(revision, eventLog, resume.value, gvk, history);
        if r.RevisionTooOld? {
          return null, Some((r.requested, r.oldest)), Spec.TooOld(r.requested, r.oldest);
        }
        all := r.events;
      }
      var replay := SelectEvents(all, selector);
      ghost var from := if resume.Some? then Spec.Min(resume.value, |history|) else |history|;
      var channel := Preload(gvk, replay, from, selector.Some?);
      Register(channel);
      return channel, None, Spec.Opened(|old(everOpened)|);
    }
  }
}
