/**
  The complete, untrimmed mutation history of a store and what it means: the
  objects of a kind are the fold of that kind's events.
*/
module History {
  import opened Objects

  datatype Entry = Entry(revision: nat, gvk: GVK, event: Event)

  /** What one event does to the objects of its kind. */
  function Apply(m: Snapshot, e: Event): Snapshot {
    match e.kind
    case Added => m[e.obj.key := e.obj]
    case Modified => m[e.obj.key := e.obj]
    case Deleted => m - {e.obj.key}
    case Bookmark => m
  }

  function Fold(m: Snapshot, es: seq<Event>): Snapshot {
    if es == [] then m else Apply(Fold(m, es[..|es| - 1]), es[|es| - 1])
  }

  /** The events of one kind, in order. */
  function KindEvents(h: seq<Entry>, gvk: GVK): seq<Event> {
    if h == [] then []
    else
      var last := h[|h| - 1];
      KindEvents(h[..|h| - 1], gvk) + if last.gvk == gvk then [last.event] else []
  }

  /** The objects of one kind after the whole of `h`. */
  function StateOf(h: seq<Entry>, gvk: GVK): Snapshot {
    Fold(map[], KindEvents(h, gvk))
  }

  /** An event that can follow `h`: numbered next, and legal for its kind's objects. */
  ghost predicate CanFollow(h: seq<Entry>, e: Entry) {
    && e.revision == |h| + 1
    && e.event.obj.rv == |h| + 1
    && match e.event.kind
       case Added => e.event.obj.key !in StateOf(h, e.gvk)
       case Modified => e.event.obj.key in StateOf(h, e.gvk)
       case Deleted => e.event.obj.key in StateOf(h, e.gvk)
       case Bookmark => false
  }

  ghost predicate WellFormed(h: seq<Entry>) {
    h == [] || (WellFormed(h[..|h| - 1]) && CanFollow(h[..|h| - 1], h[|h| - 1]))
  }

  /** Every event's object carries the revision the event was logged at. */
  ghost predicate Numbered(h: seq<Entry>) {
    forall i :: 0 <= i < |h| ==> h[i].revision == i + 1 && h[i].event.obj.rv == i + 1
  }

  // ---- algebra of kind events and folds ----

  lemma {:induction false} KindEventsConcat(a: seq<Entry>, b: seq<Entry>, gvk: GVK)
    ensures KindEvents(a + b, gvk) == KindEvents(a, gvk) + KindEvents(b, gvk)
  {
    if b == [] {
      assert a + b == a;
    } else {
      var n := |b| - 1;
      assert (a + b)[..|a + b| - 1] == a + b[..n];
      KindEventsConcat(a, b[..n], gvk);
    }
  }

  lemma KindEventsAppend(h: seq<Entry>, e: Entry, gvk: GVK)
    ensures KindEvents(h + [e], gvk) == KindEvents(h, gvk) + if e.gvk == gvk then [e.event] else []
  {
    assert (h + [e])[..|h|] == h;
  }

  lemma KindEventsSnoc(h: seq<Entry>, a: nat, b: nat, gvk: GVK)
    requires a <= b < |h|
    ensures KindEvents(h[a..b + 1], gvk) == KindEvents(h[a..b], gvk) + if h[b].gvk == gvk then [h[b].event] else []
  {
    assert h[a..b + 1] == h[a..b] + [h[b]];
    KindEventsAppend(h[a..b], h[b], gvk);
  }

  lemma KindEventsSplit(h: seq<Entry>, r: nat, gvk: GVK)
    requires r <= |h|
    ensures KindEvents(h, gvk) == KindEvents(h[..r], gvk) + KindEvents(h[r..], gvk)
  {
    assert h == h[..r] + h[r..];
    KindEventsConcat(h[..r], h[r..], gvk);
  }

  /** Appending to the history appends to the events after any earlier position. */
  lemma KindEventsTail(h: seq<Entry>, e: Entry, r: nat, gvk: GVK)
    requires r <= |h|
    ensures KindEvents((h + [e])[r..], gvk)
         == KindEvents(h[r..], gvk) + if e.gvk == gvk then [e.event] else []
  {
    assert (h + [e])[r..] == h[r..] + [e];
    KindEventsAppend(h[r..], e, gvk);
  }

  lemma {:induction false} FoldConcat(m: Snapshot, a: seq<Event>, b: seq<Event>)
    ensures Fold(m, a + b) == Fold(Fold(m, a), b)
  {
    if b == [] {
      assert a + b == a;
    } else {
      var n := |b| - 1;
      assert (a + b)[..|a + b| - 1] == a + b[..n];
      FoldConcat(m, a, b[..n]);
    }
  }

  lemma StateAppend(h: seq<Entry>, e: Entry, gvk: GVK)
    ensures StateOf(h + [e], gvk) == if e.gvk == gvk then Apply(StateOf(h, gvk), e.event) else StateOf(h, gvk)
  {
    KindEventsAppend(h, e, gvk);
    var es := KindEvents(h, gvk);
    if e.gvk == gvk {
      assert (es + [e.event])[..|es|] == es;
    } else {
      assert es + [] == es;
    }
  }

  /** Any earlier state plus the events after it rebuilds the current state. */
  lemma StateSplit(h: seq<Entry>, r: nat, gvk: GVK)
    requires r <= |h|
    ensures StateOf(h, gvk) == Fold(StateOf(h[..r], gvk), KindEvents(h[r..], gvk))
  {
    KindEventsSplit(h, r, gvk);
    FoldConcat(map[], KindEvents(h[..r], gvk), KindEvents(h[r..], gvk));
  }

  // ---- well-formed histories ----

  lemma {:induction false} WellFormedPrefix(h: seq<Entry>, n: nat)
    requires WellFormed(h) && n <= |h|
    ensures WellFormed(h[..n])
    ensures n < |h| ==> CanFollow(h[..n], h[n])
  {
    if n == |h| {
      assert h[..n] == h;
    } else if n < |h| - 1 {
      WellFormedPrefix(h[..|h| - 1], n);
      assert h[..|h| - 1][..n] == h[..n];
    }
  }

  lemma WellFormedAppend(h: seq<Entry>, e: Entry)
    requires WellFormed(h) && CanFollow(h, e)
    ensures WellFormed(h + [e])
  {
    assert (h + [e])[..|h|] == h;
  }

  lemma {:induction false} WellFormedNumbered(h: seq<Entry>)
    requires WellFormed(h)
    ensures Numbered(h)
  {
    if h != [] {
      WellFormedNumbered(h[..|h| - 1]);
    }
  }

  /**
    Every object of a folded state is the one its own resource version was
    issued for, under its own key. So two objects of a kind with the same
    resource version are the same object, whenever they were listed.
  */
  lemma {:induction false} StateSound(h: seq<Entry>, gvk: GVK, k: Key)
    requires WellFormed(h) && k in StateOf(h, gvk)
    ensures var o := StateOf(h, gvk)[k];
      && o.key == k
      && 1 <= o.rv <= |h|
      && h[o.rv - 1].gvk == gvk && h[o.rv - 1].event.obj == o
  {
    if h != [] {
      var n := |h| - 1;
      assert h == h[..n] + [h[n]];
      StateAppend(h[..n], h[n], gvk);
      if k in StateOf(h[..n], gvk) && !(h[n].gvk == gvk && h[n].event.obj.key == k) {
        StateSound(h[..n], gvk, k);
      }
    }
  }

  lemma KindEventsHead(h: seq<Entry>, r: nat, n: nat, gvk: GVK)
    requires r < n <= |h|
    ensures KindEvents(h[r..n], gvk)
         == (if h[r].gvk == gvk then [h[r].event] else []) + KindEvents(h[r + 1..n], gvk)
  {
    assert h[r..n] == [h[r]] + h[r + 1..n];
    KindEventsConcat([h[r]], h[r + 1..n], gvk);
    assert [h[r]][..0] == [];
  }

  lemma KindEventsOne(h: seq<Entry>, r: nat, gvk: GVK)
    requires r < |h| && h[r].gvk == gvk
    ensures KindEvents(h[r..r + 1], gvk) == [h[r].event]
  {
    assert h[r..r + 1] == [h[r]] && [h[r]][..0] == [];
  }

  /**
    The first event of a kind after position `r` is logged at the revision its
    object carries; no other event of the kind lies between.
  */
  lemma {:induction false} FirstAfter(h: seq<Entry>, r: nat, gvk: GVK)
    requires Numbered(h) && r <= |h| && KindEvents(h[r..], gvk) != []
    ensures var e := KindEvents(h[r..], gvk)[0]; var n := e.obj.rv;
      && r < n <= |h|
      && h[n - 1].gvk == gvk && h[n - 1].event == e
      && KindEvents(h[r..n], gvk) == [e]
      && KindEvents(h[n..], gvk) == KindEvents(h[r..], gvk)[1..]
    decreases |h| - r
  {
    assert r < |h|;
    KindEventsHead(h, r, |h|, gvk);
    assert h[r..|h|] == h[r..] && h[r + 1..|h|] == h[r + 1..];
    if h[r].gvk == gvk {
      var es, rest := KindEvents(h[r..], gvk), KindEvents(h[r + 1..], gvk);
      assert es == [h[r].event] + rest && es[1..] == rest;
      KindEventsOne(h, r, gvk);
    } else {
      FirstAfter(h, r + 1, gvk);
      KindEventsHead(h, r, KindEvents(h[r..], gvk)[0].obj.rv, gvk);
    }
  }

  /** The events of a kind: exactly those logged for it, in order of revision. */
  lemma {:induction false} KindEventsExact(h: seq<Entry>, gvk: GVK)
    requires Numbered(h)
    ensures forall e :: e in KindEvents(h, gvk) <==> exists i :: 0 <= i < |h| && h[i].gvk == gvk && h[i].event == e
    ensures forall i, j :: 0 <= i < j < |KindEvents(h, gvk)| ==>
      KindEvents(h, gvk)[i].obj.rv < KindEvents(h, gvk)[j].obj.rv <= |h|
  {
    if h != [] {
      var n := |h| - 1;
      KindEventsExact(h[..n], gvk);
      var before := KindEvents(h[..n], gvk);
      forall i | 0 <= i < |before| ensures before[i].obj.rv <= n {
        assert before[i] in before;
      }
      assert forall i :: 0 <= i < n ==> h[..n][i] == h[i];
    }
  }

  // ---- versions of one key ----

  /** The revision of the newest event for a key, 0 when there is none. */
  function LastChange(h: seq<Entry>, gvk: GVK, k: Key): nat {
    if h == [] then 0
    else
      var last := h[|h| - 1];
      if last.gvk == gvk && last.event.obj.key == k then |h|
      else LastChange(h[..|h| - 1], gvk, k)
  }

  lemma LastChangeAppend(h: seq<Entry>, e: Entry, gvk: GVK, k: Key)
    ensures LastChange(h + [e], gvk, k)
         == if e.gvk == gvk && e.event.obj.key == k then |h| + 1 else LastChange(h, gvk, k)
  {
    assert (h + [e])[..|h|] == h;
  }

  /** `LastChange` is what its name says: no event for the key is newer. */
  lemma {:induction false} LastChangeIsNewest(h: seq<Entry>, gvk: GVK, k: Key)
    requires WellFormed(h)
    ensures LastChange(h, gvk, k) <= |h|
    ensures forall i :: 0 <= i < |h| && h[i].gvk == gvk && h[i].event.obj.key == k
              ==> h[i].revision <= LastChange(h, gvk, k)
    ensures LastChange(h, gvk, k) > 0 ==>
              var e := h[LastChange(h, gvk, k) - 1]; e.gvk == gvk && e.event.obj.key == k
  {
    if h != [] {
      LastChangeIsNewest(h[..|h| - 1], gvk, k);
    }
  }

  /** A live object carries exactly the revision of its key's newest event. */
  lemma {:induction false} LiveVersionIsLastChange(h: seq<Entry>, gvk: GVK, k: Key)
    requires WellFormed(h) && k in StateOf(h, gvk)
    ensures StateOf(h, gvk)[k].rv == LastChange(h, gvk, k)
  {
    if h != [] {
      var n := |h| - 1;
      assert h == h[..n] + [h[n]];
      StateAppend(h[..n], h[n], gvk);
      if !(h[n].gvk == gvk && h[n].event.obj.key == k) {
        LiveVersionIsLastChange(h[..n], gvk, k);
      }
    }
  }

  /** Spec changes of the live object of a key since that object was created. */
  function SpecChanges(h: seq<Entry>, gvk: GVK, k: Key): nat {
    if h == [] then 0
    else
      var last := h[|h| - 1]; var before := h[..|h| - 1];
      if last.gvk != gvk || last.event.obj.key != k then SpecChanges(before, gvk, k)
      else if last.event.kind != Modified || k !in StateOf(before, gvk) then 0
      else SpecChanges(before, gvk, k) +
           if StateOf(before, gvk)[k].spec != last.event.obj.spec then 1 else 0
  }

  lemma SpecChangesAppend(h: seq<Entry>, e: Entry, gvk: GVK, k: Key)
    ensures SpecChanges(h + [e], gvk, k) ==
      if e.gvk != gvk || e.event.obj.key != k then SpecChanges(h, gvk, k)
      else if e.event.kind != Modified || k !in StateOf(h, gvk) then 0
      else SpecChanges(h, gvk, k) + if StateOf(h, gvk)[k].spec != e.event.obj.spec then 1 else 0
  {
    assert (h + [e])[..|h|] == h;
  }
}
