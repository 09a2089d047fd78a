/**
  The initial-events adapter: list items, a bookmark, then the live tail, as
  one stream.
*/
module InitialEvents {
  import opened Objects
  import opened History
  import Store = StoreSpec
  import StoreRuns
  import opened InformerProofs
  import opened PipelineProofs
  import QueueProofs

  /** One ADDED event per listed item. */
  function AsAdded(items: seq<Object>): seq<Event> {
    seq(|items|, n requires 0 <= n < |items| => Event(Added, items[n]))
  }

  /** The bookmark object: nothing but the list's resource version and the end-of-list mark. */
  function BookmarkFor(rv: nat): Object {
    Object(Key("", ""), rv, "", 0, map[], map["k8s.io/initial-events-end" := "true"], None, None)
  }

  /** The bookmark that ends the list: at the list's revision, with the end-of-list annotation. */
  ghost predicate EndsList(e: Event, rv: nat) {
    && e.kind == Bookmark && e.obj.rv == rv
    && "k8s.io/initial-events-end" in e.obj.annotations
    && e.obj.annotations["k8s.io/initial-events-end"] == "true"
  }

  function Marked(items: seq<Object>, bookmark: Option<Object>): seq<Event> {
    AsAdded(items) + if bookmark.Some? then [Event(Bookmark, bookmark.value)] else []
  }

  /** Everything the adapter would ever emit, given what its inner watcher delivers. */
  function Stream(items: seq<Object>, bookmark: Option<Object>, selector: Option<LabelSelector>, inner: seq<Event>)
    : seq<Event>
  {
    Marked(items, bookmark) + Store.Chosen(selector, inner)
  }

  function UpTo(es: seq<Event>, n: nat): seq<Event> {
    if n < |es| then es[..n] else es
  }

  lemma {:induction false} ChosenPrefix(selector: Option<LabelSelector>, es: seq<Event>, n: nat)
    requires n <= |es|
    ensures Store.Chosen(selector, es[..n]) <= Store.Chosen(selector, es)
  {
    if n == |es| {
      assert es[..n] == es;
    } else if selector.Some? {
      var m := |es| - 1;
      ChosenPrefix(selector, es[..m], n);
      assert es[..m][..n] == es[..n];
    }
  }

  /**
    `watchAdapter.relay`, also the live part of `initialEventsAdapter.run`:
    stopped by its consumer after `room` events or by the end of the inner channel.
  */
  method Relay(selector: Option<LabelSelector>, inner: seq<Event>, room: nat) returns (out: seq<Event>)
    ensures out == UpTo(Store.Chosen(selector, inner), room)
    ensures |out| == Store.Min(room, |Store.Chosen(selector, inner)|) && out <= Store.Chosen(selector, inner)
    ensures selector.None? && room >= |inner| ==> out == inner
  {
    out := [];
    for n := 0 to |inner|
      invariant out == Store.Chosen(selector, inner[..n]) && |out| <= room
    {
      var evt := inner[n];
      assert inner[..n + 1] == inner[..n] + [evt] && inner[..n + 1][..n] == inner[..n];
      if selector.Some? && evt.kind != Bookmark && !selector.value(evt.obj.labels) {
        continue;
      }
      if |out| == room {
        ChosenPrefix(selector, inner, n + 1);
        return;
      }
      out := out + [evt];
    }
    assert inner[..|inner|] == inner;
  }

  /** One ADDED event per item, the bookmark, and the live events, cut only where the room ends. */
  ghost predicate TellsInOrder(
      items: seq<Object>, bookmark: Option<Object>, live: seq<Event>, room: nat, out: seq<Event>)
  {
    var start := |items| + if bookmark.Some? then 1 else 0;
    && |out| == Store.Min(room, start + |live|)
    && (forall n :: 0 <= n < |items| && n < |out| ==> out[n] == Event(Added, items[n]))
    && (bookmark.Some? && |out| > |items| ==> out[|items|] == Event(Bookmark, bookmark.value))
    && (|out| >= start ==> out[start..] <= live)
  }

  lemma StreamTellsInOrder(items: seq<Object>, bookmark: Option<Object>, selector: Option<LabelSelector>,
                           inner: seq<Event>, room: nat)
    ensures TellsInOrder(items, bookmark, Store.Chosen(selector, inner), room,
                         UpTo(Stream(items, bookmark, selector, inner), room))
  {
    var marked, live := Marked(items, bookmark), Store.Chosen(selector, inner);
    var out := UpTo(marked + live, room);
    assert forall n :: 0 <= n < |marked| && n < |out| ==> out[n] == marked[n];
    if |out| >= |marked| {
      assert out[|marked|..] == live[..|out| - |marked|];
    }
  }

  /** `initialEventsAdapter.run`, stopped likewise after `room` events. */
  method RunAdapter(items: seq<Object>, bookmark: Option<Object>, selector: Option<LabelSelector>,
                    inner: seq<Event>, room: nat)
    returns (out: seq<Event>)
    ensures out == UpTo(Stream(items, bookmark, selector, inner), room)
    ensures TellsInOrder(items, bookmark, Store.Chosen(selector, inner), room, out)
    ensures var start := |items| + if bookmark.Some? then 1 else 0;
      selector.None? && room >= start + |inner| ==> |out| == start + |inner| && out[start..] == inner
  {
    StreamTellsInOrder(items, bookmark, selector, inner, room);
    out := [];
    for n := 0 to |items|
      invariant out == AsAdded(items)[..n] && n <= room
    {
      if |out| == room {
        return;
      }
      out := out + [Event(Added, items[n])];
    }
    if bookmark.Some? {
      if |out| == room {
        return;
      }
      out := out + [Event(Bookmark, bookmark.value)];
    }
    var live := Relay(selector, inner, room - |out|);
    assert out == Marked(items, bookmark);
    out := out + live;
  }

  // ---- what a consumer of the stream holds ----

  lemma {:induction false} FoldAdded(items: seq<Object>, k: Key)
    requires forall a, b :: 0 <= a < b < |items| ==> items[a].key != items[b].key
    ensures forall n :: 0 <= n < |items| && items[n].key == k ==>
      Lookup(Fold(map[], AsAdded(items)), k) == Some(items[n])
    ensures (forall n :: 0 <= n < |items| ==> items[n].key != k) ==> Lookup(Fold(map[], AsAdded(items)), k) == None
  {
    if items != [] {
      var n := |items| - 1;
      assert AsAdded(items)[..n] == AsAdded(items[..n]);
      FoldAdded(items[..n], k);
    }
  }

  /** Folding the ADDED events of a list gives the listed objects. */
  lemma FoldOfList(items: seq<Object>, m: Snapshot)
    requires Enumerates(items, m) && Keyed(m)
    ensures Fold(map[], AsAdded(items)) == m
  {
    var f := Fold(map[], AsAdded(items));
    forall k ensures Lookup(f, k) == Lookup(m, k) {
      FoldAdded(items, k);
      if k in m {
        var n :| 0 <= n < |items| && items[n] == m[k];
        assert items[n].key == k;
      }
    }
    QueueProofs.SameLookups(f, m);
  }

  /** The revision reached after `n` events of a kind from position `r` on. */
  ghost function Position(h: seq<Entry>, r: nat, gvk: GVK, n: nat): nat
    requires r <= |h| && n <= |KindEvents(h[r..], gvk)|
  {
    if n == 0 then r else KindEvents(h[r..], gvk)[n - 1].obj.rv
  }

  /** Folding any prefix of the tail gives the state at the last revision in it. */
  lemma {:induction false} PrefixState(h: seq<Entry>, r: nat, gvk: GVK, n: nat)
    requires WellFormed(h) && r <= |h| && n <= |KindEvents(h[r..], gvk)|
    ensures var p := Position(h, r, gvk, n);
      && r <= p <= |h|
      && Fold(StateOf(h[..r], gvk), KindEvents(h[r..], gvk)[..n]) == StateOf(h[..p], gvk)
      && KindEvents(h[p..], gvk) == KindEvents(h[r..], gvk)[n..]
  {
    var es := KindEvents(h[r..], gvk);
    if n > 0 {
      PrefixState(h, r, gvk, n - 1);
      var p := Position(h, r, gvk, n - 1);
      NextEvent(h, p, gvk);
      assert es[n - 1..][0] == es[n - 1] && es[n - 1..][1..] == es[n..];
      assert es[..n][..n - 1] == es[..n - 1];
    }
  }

  lemma StreamMonotone(
      items: seq<Object>, bookmark: Object, received: seq<Event>, tail: seq<Event>, room: nat, out: seq<Event>)
    requires received <= tail && out == UpTo(Stream(items, Some(bookmark), None, received), room)
    ensures |out| == Store.Min(room, |items| + 1 + |received|)
    ensures out <= AsAdded(items) + [Event(Bookmark, bookmark)] + tail
    ensures forall n :: 0 <= n < |items| && n < |out| ==> out[n] == Event(Added, items[n])
    ensures |out| > |items| ==> out[|items|] == Event(Bookmark, bookmark)
  {
    StreamTellsInOrder(items, Some(bookmark), None, received, room);
    assert Stream(items, Some(bookmark), None, received) == AsAdded(items) + [Event(Bookmark, bookmark)] + received;
  }

  lemma FoldMarked(items: seq<Object>, bookmark: Object, es: seq<Event>, m: Snapshot)
    requires Fold(map[], AsAdded(items)) == m
    ensures Fold(map[], AsAdded(items) + [Event(Bookmark, bookmark)] + es) == Fold(m, es)
  {
    var mark := [Event(Bookmark, bookmark)];
    FoldConcat(map[], AsAdded(items), mark);
    FoldConcat(map[], AsAdded(items) + mark, es);
    assert mark[..0] == [];
  }

  lemma StreamFold(h: seq<Entry>, R: nat, gvk: GVK, items: seq<Object>, bookmark: Object, out: seq<Event>)
    requires WellFormed(h) && R <= |h| && Enumerates(items, StateOf(h[..R], gvk))
    requires out <= AsAdded(items) + [Event(Bookmark, bookmark)] + KindEvents(h[R..], gvk) && |out| > |items|
    ensures var n := |out| - |items| - 1;
      && n <= |KindEvents(h[R..], gvk)|
      && Position(h, R, gvk, n) <= |h|
      && Fold(map[], out) == StateOf(h[..Position(h, R, gvk, n)], gvk)
  {
    var n := |out| - |items| - 1;
    var tail := KindEvents(h[R..], gvk);
    var m := StateOf(h[..R], gvk);
    PrefixState(h, R, gvk, n);
    assert Fold(map[], AsAdded(items)) == m by {
      StateKeyed(h, R, gvk);
      FoldOfList(items, m);
    }
    assert out == AsAdded(items) + [Event(Bookmark, bookmark)] + tail[..n];
    FoldMarked(items, bookmark, tail[..n], m);
  }

  /** What an adapter that still has room left has told its consumer. */
  lemma StreamWithRoom(h: seq<Entry>, R: nat, gvk: GVK, items: seq<Object>, bookmark: Object, received: seq<Event>,
                       out: seq<Event>)
    requires WellFormed(h) && R <= |h| && Enumerates(items, StateOf(h[..R], gvk))
    requires out <= AsAdded(items) + [Event(Bookmark, bookmark)] + KindEvents(h[R..], gvk)
    requires received <= KindEvents(h[R..], gvk) && |out| == |items| + 1 + |received|
    ensures var last := if received == [] then R else received[|received| - 1].obj.rv;
      && last <= |h| && Fold(map[], out) == StateOf(h[..last], gvk)
      && (received == KindEvents(h[R..], gvk) ==> Fold(map[], out) == StateOf(h, gvk))
  {
    var tail := KindEvents(h[R..], gvk);
    StreamFold(h, R, gvk, items, bookmark, out);
    if received == tail {
      PrefixState(h, R, gvk, |tail|);
      assert tail[..|tail|] == tail;
      StateSplit(h, R, gvk);
    }
  }

  /** The inner watch of the adapter, in terms of the history. */
  lemma InnerWatch(
      states: seq<Store.StoreState>, actions: seq<Store.Action>, logMax: nat,
      listed: nat, watched: nat, now: nat, gvk: GVK, id: nat)
    requires Store.Run(states, actions, logMax) && listed <= watched < now <= |actions|
    requires actions[watched] == Store.CallWatch(gvk, Some(|states[listed].history|), None)
    requires Store.Watch(states[watched], gvk, Some(|states[listed].history|), None).1 == Store.Opened(id)
    ensures var R := |states[listed].history|; var h := states[now].history;
      && WellFormed(h) && R <= |h| && id < |states[now].watchers|
      && Store.KindObjects(states[listed], gvk) == StateOf(h[..R], gvk)
      && Store.KindObjects(states[now], gvk) == StateOf(h, gvk)
      && var w := states[now].watchers[id]; var tail := KindEvents(h[R..], gvk);
         w.received <= tail && (!w.closed && w.buffer == [] ==> w.received == tail)
  {
    var R := |states[listed].history|;
    StoreRuns.RunKeepsInv(states, actions, logMax, listed);
    StoreRuns.RunKeepsInv(states, actions, logMax, watched);
    StoreRuns.RunKeepsInv(states, actions, logMax, now);
    StoreRuns.HistoryGrows(states, actions, logMax, listed, watched);
    StoreRuns.HistoryGrows(states, actions, logMax, listed, now);
    StoreRuns.WatchStartsAtRequest(states[watched], gvk, R, None);
    StoreRuns.DeliveryIsGapFree(states, actions, logMax, watched + 1, now, id);
    var w := states[now].watchers[id];
    assert states[now].history[..R] == states[listed].history;
    assert w.received <= w.received + w.buffer;
    assert w.buffer == [] ==> w.received + w.buffer == w.received;
  }

  /**
    The stream over every run of the store: list at one state, watch opened
    from that list's revision at a later one, anything emitted up to a still
    later one. What was emitted is a prefix of the items, one bookmark at the
    list's revision and every event of the kind after it, in order; and once
    the bookmark is out, folding it gives the store's objects at the last
    revision emitted. With room left, that is the last revision received, and
    the current objects if the watch is open and drained.
  */
  lemma StreamIsListThenTail(
      states: seq<Store.StoreState>, actions: seq<Store.Action>, logMax: nat,
      listed: nat, watched: nat, now: nat, gvk: GVK, id: nat,
      items: seq<Object>, room: nat, out: seq<Event>)
    requires Store.Run(states, actions, logMax) && listed <= watched < now <= |actions|
    requires Enumerates(items, Store.KindObjects(states[listed], gvk))
    requires actions[watched] == Store.CallWatch(gvk, Some(|states[listed].history|), None)
    requires Store.Watch(states[watched], gvk, Some(|states[listed].history|), None).1 == Store.Opened(id)
    requires id < |states[now].watchers|
    requires var inner := states[now].watchers[id].received;
      out == UpTo(Stream(items, Some(BookmarkFor(|states[listed].history|)), None, inner), room)
    ensures var R := |states[listed].history|; var h := states[now].history;
      && R <= |h|
      && out <= AsAdded(items) + [Event(Bookmark, BookmarkFor(R))] + KindEvents(h[R..], gvk)
      && (|out| > |items| ==>
            var n := |out| - |items| - 1;
            && n <= |KindEvents(h[R..], gvk)|
            && Position(h, R, gvk, n) <= |h|
            && Fold(map[], out) == StateOf(h[..Position(h, R, gvk, n)], gvk))
    ensures var R := |states[listed].history|; var w := states[now].watchers[id]; var h := states[now].history;
      && |out| == Store.Min(room, |items| + 1 + |w.received|)
      && (forall n :: 0 <= n < |items| && n < |out| ==> out[n] == Event(Added, items[n]))
      && (|out| > |items| ==> EndsList(out[|items|], R))
      && (|out| < room ==>
            var last := if w.received == [] then R else w.received[|w.received| - 1].obj.rv;
            && last <= |h| && Fold(map[], out) == StateOf(h[..last], gvk)
            && (!w.closed && w.buffer == [] ==> Fold(map[], out) == Store.KindObjects(states[now], gvk)))
  {
    var R := |states[listed].history|;
    var h, w := states[now].history, states[now].watchers[id];
    InnerWatch(states, actions, logMax, listed, watched, now, gvk, id);
    StreamMonotone(items, BookmarkFor(R), w.received, KindEvents(h[R..], gvk), room, out);
    if |out| > |items| {
      StreamFold(h, R, gvk, items, BookmarkFor(R), out);
    }
    if |out| < room {
      StreamWithRoom(h, R, gvk, items, BookmarkFor(R), w.received, out);
    }
  }
}
