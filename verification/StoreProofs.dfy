/** What every run of the store keeps. */
module StoreProofs {
  import opened Objects
  import opened History
  import opened StoreSpec

  /**
    Delivery without gaps: received plus buffered events are a prefix of the
    kind's history after `from`, and the whole of it while the watcher is open.
  */
  ghost predicate GapFree(w: Watcher, h: seq<Entry>)
    requires w.from <= |h|
  {
    && w.received + w.buffer <= KindEvents(h[w.from..], w.gvk)
    && (!w.closed ==> w.received + w.buffer == KindEvents(h[w.from..], w.gvk))
  }

  ghost predicate WatcherOk(w: Watcher, h: seq<Entry>) {
    w.from <= |h| && |w.buffer| <= w.cap && (!w.filtered ==> GapFree(w, h))
  }

  ghost predicate StateIsHistory(s: StoreState) {
    forall gvk :: KindObjects(s, gvk) == StateOf(s.history, gvk)
  }

  ghost predicate Inv(s: StoreState) {
    && WellFormed(s.history)
    && StateIsHistory(s)
    && s.held == Min(|s.history|, s.logMax)
    && forall i :: 0 <= i < |s.watchers| ==> WatcherOk(s.watchers[i], s.history)
  }

  // ---- preservation, call by call ----

  lemma SendKeepsOk(w: Watcher, h: seq<Entry>, e: Entry)
    requires WatcherOk(w, h)
    ensures WatcherOk(if w.gvk == e.gvk then Send(w, e.event) else w, h + [e])
  {
    KindEventsTail(h, e, w.from, w.gvk);
  }

  /** Publishing an event that can follow, with the objects changed to match. */
  lemma PublishKeepsInv(s: StoreState, objects: map<GVK, Snapshot>, uids: nat, gvk: GVK, kind: EventType, o: Object)
    requires Inv(s)
    requires CanFollow(s.history, Entry(|s.history| + 1, gvk, Event(kind, o)))
    requires forall g :: ObjectsOf(objects, g)
                      == (if g == gvk then Apply(KindObjects(s, g), Event(kind, o)) else KindObjects(s, g))
    ensures Inv(Publish(s.(objects := objects, uidCounter := uids), gvk, kind, o))
  {
    var e := Entry(|s.history| + 1, gvk, Event(kind, o));
    var s' := Publish(s.(objects := objects, uidCounter := uids), gvk, kind, o);
    WellFormedAppend(s.history, e);
    forall g ensures KindObjects(s', g) == StateOf(s'.history, g) {
      StateAppend(s.history, e, g);
    }
    forall i | 0 <= i < |s'.watchers| ensures WatcherOk(s'.watchers[i], s'.history) {
      SendKeepsOk(s.watchers[i], s.history, e);
    }
  }

  lemma ReplaceKeepsInv(s: StoreState, gvk: GVK, o: Object)
    requires Inv(s) && o.key in KindObjects(s, gvk) && o.rv == |s.history| + 1
    ensures Inv(Replace(s, gvk, o).0)
  {
    assert KindObjects(s, gvk) == StateOf(s.history, gvk);
    PublishKeepsInv(s, Put(s.objects, gvk, o), s.uidCounter, gvk, Modified, o);
  }

  lemma LiveKey(s: StoreState, gvk: GVK, k: Key)
    requires Inv(s) && k in KindObjects(s, gvk)
    ensures KindObjects(s, gvk)[k].key == k && 1 <= KindObjects(s, gvk)[k].rv <= |s.history|
  {
    assert KindObjects(s, gvk) == StateOf(s.history, gvk);
    StateSound(s.history, gvk, k);
  }

  lemma CreateKeepsInv(s: StoreState, d: Draft)
    requires Inv(s)
    ensures Inv(Create(s, d).0)
  {
    var (s', r) := Create(s, d);
    if r.Ok? {
      assert KindObjects(s, d.gvk) == StateOf(s.history, d.gvk);
      PublishKeepsInv(s, Put(s.objects, d.gvk, r.obj), s'.uidCounter, d.gvk, Added, r.obj);
    }
  }

  lemma UpdateKeepsInv(s: StoreState, d: Draft)
    requires Inv(s)
    ensures Inv(Update(s, d).0)
  {
    var (s', r) := Update(s, d);
    if s' != s {
      LiveKey(s, d.gvk, d.key);
      ReplaceKeepsInv(s, d.gvk, r.obj);
    }
  }

  lemma UpdateStatusKeepsInv(s: StoreState, d: Draft)
    requires Inv(s)
    ensures Inv(UpdateStatus(s, d).0)
  {
    var (s', r) := UpdateStatus(s, d);
    if s' != s {
      LiveKey(s, d.gvk, d.key);
      ReplaceKeepsInv(s, d.gvk, r.obj);
    }
  }

  lemma DeleteKeepsInv(s: StoreState, d: Draft)
    requires Inv(s)
    ensures Inv(Delete(s, d).0)
  {
    var (s', r) := Delete(s, d);
    if r.Ok? {
      var m := KindObjects(s, d.gvk);
      LiveKey(s, d.gvk, d.key);
      assert m == StateOf(s.history, d.gvk);
      PublishKeepsInv(s, s.objects[d.gvk := m - {d.key}], s.uidCounter, d.gvk, Deleted, r.obj);
    }
  }

  lemma WatchKeepsInv(s: StoreState, gvk: GVK, resume: Option<int>, selector: Option<LabelSelector>)
    requires Inv(s)
    ensures Inv(Watch(s, gvk, resume, selector).0)
  {
    var (s', r) := Watch(s, gvk, resume, selector);
    if r.Opened? {
      assert s.history[|s.history|..] == [];
    }
  }

  lemma StepKeepsInv(s: StoreState, a: Action)
    requires Inv(s) && Enabled(s, a)
    ensures Inv(Step(s, a))
  {
    match a
    case CallCreate(d) => CreateKeepsInv(s, d);
    case CallUpdate(d) => UpdateKeepsInv(s, d);
    case CallUpdateStatus(d) => UpdateStatusKeepsInv(s, d);
    case CallDelete(d) => DeleteKeepsInv(s, d);
    case CallWatch(gvk, resume, selector) => WatchKeepsInv(s, gvk, resume, selector);
    case Receive(id) =>
      var w := s.watchers[id];
      assert w.received + w.buffer == (w.received + [w.buffer[0]]) + w.buffer[1..];
    case Stop(id) =>
  }
}
