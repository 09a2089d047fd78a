/** What the store's documentation promises, over every run of it. */
module StoreRuns {
  import opened Objects
  import opened History
  import opened StoreSpec
  import opened StoreProofs
  import Numbers

  /** Every reachable state satisfies the invariant. */
  lemma {:induction false} RunKeepsInv(states: seq<StoreState>, actions: seq<Action>, logMax: nat, i: nat)
    requires Run(states, actions, logMax) && i <= |actions|
    ensures Inv(states[i]) && states[i].logMax == logMax
  {
    if i > 0 {
      RunKeepsInv(states, actions, logMax, i - 1);
      StepKeepsInv(states[i - 1], actions[i - 1]);
    }
  }

  /** A step logs one event and sends it to the watchers of its kind, or leaves the objects alone. */
  lemma StepGrows(s: StoreState, a: Action)
    requires Enabled(s, a)
    ensures var s' := Step(s, a);
      || (s'.history == s.history && s'.objects == s.objects && s'.held == s.held)
      || (exists e :: s'.history == s.history + [e] && s'.watchers == Notify(s.watchers, e.gvk, e.event))
    ensures s.history <= Step(s, a).history && Step(s, a).logMax == s.logMax
  {
  }

  lemma {:induction false} HistoryGrows(states: seq<StoreState>, actions: seq<Action>, logMax: nat, i: nat, j: nat)
    requires Run(states, actions, logMax) && i <= j <= |actions|
    ensures states[i].history <= states[j].history
  {
    if i < j {
      HistoryGrows(states, actions, logMax, i, j - 1);
      StepGrows(states[j - 1], actions[j - 1]);
    }
  }

  // ---- the bounded log against the full history ----

  /**
    For a log that is the last `held` entries of the history: a replay from
    `r >= 0` is refused exactly when some event after `r` is no longer held,
    and an accepted one is exactly the kind's events after `r`.
  */
  lemma ReplayIsExact(h: seq<Entry>, held: nat, r: int, gvk: GVK)
    requires WellFormed(h) && held <= |h|
    ensures var log := h[|h| - held..]; var replay := EventsAfter(h, held, r, gvk);
      && (r >= 0 ==>
            (replay.RevisionTooOld? <==> exists i :: 0 <= i < |h| && h[i].revision > r && h[i] !in log))
      && (r < 0 ==> replay.RevisionTooOld?)
      && (replay.Events? ==> replay.events == if r >= |h| then [] else KindEvents(h[r..], gvk))
      && (replay.RevisionTooOld? ==>
            replay.requested == r && replay.oldest == if log == [] then |h| + 1 else log[0].revision)
  {
    WellFormedNumbered(h);
    var n := |h| - held;
    forall i | 0 <= i < |h| ensures h[i] in h[n..] <==> i >= n {
      assert i >= n ==> h[n..][i - n] == h[i];
    }
    if 0 <= r < n {
      assert h[r].revision > r && h[r] !in h[n..];
    }
  }

  /**
    List then watch loses nothing: in every run, the objects listed at an
    earlier state plus an accepted replay from that list's revision are exactly
    the current objects, and no listed object is newer than the list.
  */
  lemma ListPlusReplayIsCurrent(states: seq<StoreState>, actions: seq<Action>, logMax: nat, i: nat, j: nat, gvk: GVK)
    requires Run(states, actions, logMax) && i <= j <= |actions|
    ensures Inv(states[i]) && Inv(states[j])
    ensures var listed := KindObjects(states[i], gvk);
      var replay := EventsAfter(states[j].history, states[j].held, |states[i].history|, gvk);
      && (replay.Events? ==> Fold(listed, replay.events) == KindObjects(states[j], gvk))
      && (forall k :: k in listed ==> listed[k].key == k && listed[k].rv <= |states[i].history|)
  {
    RunKeepsInv(states, actions, logMax, i);
    RunKeepsInv(states, actions, logMax, j);
    HistoryGrows(states, actions, logMax, i, j);
    var R := |states[i].history|;
    var listed := KindObjects(states[i], gvk);
    assert states[j].history[..R] == states[i].history;
    StateSplit(states[j].history, R, gvk);
    assert R == |states[j].history| ==> states[j].history[R..] == [];
    forall k | k in listed ensures listed[k].key == k && listed[k].rv <= R {
      LiveKey(states[i], gvk, k);
    }
  }

  // ---- watchers ----

  /** Nothing but a new watcher at the end: open, nothing received, from `from`, holding `buffer`. */
  ghost predicate OpensAt(s: StoreState, s': StoreState, gvk: GVK, from: nat, buffer: seq<Event>) {
    && |s'.watchers| == |s.watchers| + 1 && s' == s.(watchers := s.watchers + [s'.watchers[|s.watchers|]])
    && var w := s'.watchers[|s.watchers|];
       && w.gvk == gvk && w.from == from && w.buffer == buffer && w.received == [] && !w.closed
       && w.cap == if |buffer| <= 100 then 100 else |buffer| + 100
  }

  /**
    A watcher resumed from `r`, or from the current revision if that is
    earlier, starts exactly there, with every event since that its selector
    lets through, in a channel they fit; it is refused exactly when some event
    after `r` is no longer held.
  */
  lemma WatchStartsAtRequest(s: StoreState, gvk: GVK, r: int, selector: Option<LabelSelector>)
    requires Inv(s)
    ensures var (s', reply) := Watch(s, gvk, Some(r), selector);
      && (reply.TooOld? <==> r < |s.history| - s.held)
      && (reply.TooOld? ==> s' == s && reply == TooOld(r, |s.history| - s.held + 1))
      && (reply.Opened? ==>
            var from := if r < |s.history| then r else |s.history|;
            && from >= 0 && reply.id == |s.watchers|
            && OpensAt(s, s', gvk, from, Chosen(selector, KindEvents(s.history[from..], gvk)))
            && |s'.watchers[reply.id].buffer| <= s'.watchers[reply.id].cap)
  {
    assert s.history[|s.history|..] == [];
  }

  /** A watcher asked for without a revision always opens, empty, at the current one. */
  lemma WatchStartsNow(s: StoreState, gvk: GVK, selector: Option<LabelSelector>)
    requires Inv(s)
    ensures var (s', reply) := Watch(s, gvk, None, selector);
      reply == Opened(|s.watchers|) && OpensAt(s, s', gvk, |s.history|, [])
  {
  }

  /** `r` is the events of `es` at the positions `at`, in order: those that are bookmarks or accepted. */
  ghost predicate Picked(es: seq<Event>, sel: LabelSelector, r: seq<Event>, at: seq<nat>) {
    && |at| == |r|
    && (forall i :: 0 <= i < |at| ==> at[i] < |es| && r[i] == es[at[i]])
    && (forall i, j :: 0 <= i < j < |at| ==> at[i] < at[j])
    && (forall n: nat :: n < |es| ==> (n in at <==> es[n].kind == Bookmark || sel(es[n].obj.labels)))
  }

  lemma PickedMore(es: seq<Event>, sel: LabelSelector, r: seq<Event>, at: seq<nat>, e: Event)
    requires Picked(es, sel, r, at)
    ensures if e.kind == Bookmark || sel(e.obj.labels)
      then Picked(es + [e], sel, r + [e], at + [|es|]) else Picked(es + [e], sel, r, at)
  {
    assert |es| !in at;
    forall n: nat | n < |es| ensures n in at + [|es|] <==> n in at {}
  }

  /** A selector lets through exactly the bookmarks and the events it accepts, in order. */
  lemma {:induction false} SelectedExact(es: seq<Event>, sel: LabelSelector) returns (at: seq<nat>)
    ensures Picked(es, sel, Selected(es, sel), at)
  {
    if es == [] {
      at := [];
    } else {
      var m := |es| - 1;
      at := SelectedExact(es[..m], sel);
      PickedMore(es[..m], sel, Selected(es[..m], sel), at, es[m]);
      assert es == es[..m] + [es[m]];
      if es[m].kind == Bookmark || sel(es[m].obj.labels) {
        at := at + [m];
      } else {
        assert Selected(es, sel) == Selected(es[..m], sel);
      }
    }
  }

  /** Receiving takes the oldest event of one watcher, stopping closes one; nothing else moves. */
  lemma ReceiveAndStop(s: StoreState, id: nat)
    requires id < |s.watchers|
    ensures var s' := Step(s, Stop(id));
      && s'.watchers[id].closed && s'.watchers[id] == s.watchers[id].(closed := true)
      && s' == s.(watchers := s.watchers[id := s'.watchers[id]])
    ensures var w := s.watchers[id];
      w.buffer != [] ==>
        var s' := Step(s, Receive(id)); var w' := s'.watchers[id];
        && w.buffer == [w.buffer[0]] + w'.buffer && w'.received == w.received + [w.buffer[0]]
        && w' == w.(buffer := w'.buffer, received := w'.received)
        && s' == s.(watchers := s.watchers[id := w'])
  {
  }

  lemma StepKeepsWatcher(s: StoreState, a: Action, id: nat)
    requires Enabled(s, a) && id < |s.watchers|
    ensures var s' := Step(s, a);
      && id < |s'.watchers|
      && s'.watchers[id].gvk == s.watchers[id].gvk
      && s'.watchers[id].from == s.watchers[id].from
      && s'.watchers[id].filtered == s.watchers[id].filtered
      && s.watchers[id].received <= s'.watchers[id].received
      && (s.watchers[id].closed ==>
            && s'.watchers[id].closed
            && s'.watchers[id].received + s'.watchers[id].buffer == s.watchers[id].received + s.watchers[id].buffer)
  {
    match a
    case Receive(j) =>
      var w := s.watchers[j];
      assert (w.received + [w.buffer[0]]) + w.buffer[1..] == w.received + w.buffer;
    case Stop(j) =>
    case CallWatch(_, _, _) =>
    case _ => StepGrows(s, a);
  }

  /** From any state on, a watcher keeps its place, its deliveries and, once closed, its end. */
  lemma {:induction false} WatcherGrows(
      states: seq<StoreState>, actions: seq<Action>, logMax: nat, i: nat, j: nat, id: nat)
    requires Run(states, actions, logMax) && i <= j <= |actions| && id < |states[i].watchers|
    ensures id < |states[j].watchers|
    ensures var w := states[i].watchers[id]; var w' := states[j].watchers[id];
      && w'.from == w.from && w'.gvk == w.gvk && w'.filtered == w.filtered
      && w.received <= w'.received
      && (w.closed ==> w'.closed && w'.received + w'.buffer == w.received + w.buffer)
    decreases j
  {
    if i < j {
      WatcherGrows(states, actions, logMax, i, j - 1, id);
      StepKeepsWatcher(states[j - 1], actions[j - 1], id);
    }
  }

  /**
    Gap-free delivery over every run: from any later state the watcher is seen
    in, it still serves the same position; what it has been sent is a prefix of
    the kind's history after that position, all of it while open; and once
    closed nothing is ever added.
  */
  lemma DeliveryIsGapFree(
      states: seq<StoreState>, actions: seq<Action>, logMax: nat, i: nat, j: nat, id: nat)
    requires Run(states, actions, logMax) && i <= j <= |actions|
    requires id < |states[i].watchers| && !states[i].watchers[id].filtered
    ensures id < |states[j].watchers|
    ensures var w := states[i].watchers[id]; var w' := states[j].watchers[id];
      && w'.from == w.from <= |states[j].history| && w'.gvk == w.gvk && !w'.filtered
      && GapFree(w', states[j].history)
      && |w'.buffer| <= w'.cap
      && w.received <= w'.received
      && (w.closed ==> w'.closed && w'.received + w'.buffer == w.received + w.buffer)
  {
    RunKeepsInv(states, actions, logMax, j);
    WatcherGrows(states, actions, logMax, i, j, id);
    assert WatcherOk(states[j].watchers[id], states[j].history);
  }

  /** Over every run, a watcher asked for without a revision is sent the events logged after that, in order. */
  lemma WatchFromNowIsGapFree(
      states: seq<StoreState>, actions: seq<Action>, logMax: nat, i: nat, j: nat, gvk: GVK)
    requires Run(states, actions, logMax) && i < j <= |actions| && actions[i] == CallWatch(gvk, None, None)
    ensures var id := |states[i].watchers|; var r := |states[i].history|;
      && id < |states[j].watchers| && r <= |states[j].history|
      && var w := states[j].watchers[id]; var since := KindEvents(states[j].history[r..], gvk);
         w.received + w.buffer <= since && (!w.closed ==> w.received + w.buffer == since)
  {
    RunKeepsInv(states, actions, logMax, i);
    WatchStartsNow(states[i], gvk, None);
    DeliveryIsGapFree(states, actions, logMax, i + 1, j, |states[i].watchers|);
  }

  // ---- optimistic concurrency ----

  /** The draft a write carries, when the action is a versioned write. */
  function WriteDraft(a: Action): Option<Draft> {
    match a
    case CallUpdate(d) => Some(d)
    case CallUpdateStatus(d) => Some(d)
    case CallDelete(d) => if d.rv.Some? then Some(d) else None
    case _ => None
  }

  /** The action is a versioned write at `r` to the key, and it changes the store. */
  ghost predicate ChangesAt(s: StoreState, a: Action, gvk: GVK, k: Key, r: nat) {
    && Enabled(s, a)
    && WriteDraft(a).Some?
    && var d := WriteDraft(a).value;
       d.gvk == gvk && d.key == k && d.rv == Some(r) && Step(s, a) != s
  }

  /**
    A changing versioned write presents the revision of the key's newest event
    (so no event for the key is newer, a delete and re-create included), and
    logs the next one for that key.
  */
  lemma ChangeNeedsNewest(s: StoreState, a: Action, gvk: GVK, k: Key, r: nat)
    requires Inv(s) && ChangesAt(s, a, gvk, k, r)
    ensures r == LastChange(s.history, gvk, k)
    ensures forall i :: 0 <= i < |s.history| && s.history[i].gvk == gvk && s.history[i].event.obj.key == k
              ==> s.history[i].revision <= r
    ensures LastChange(Step(s, a).history, gvk, k) == |s.history| + 1 > r
  {
    var m := KindObjects(s, gvk);
    assert k in m && m[k].rv == r;
    assert m == StateOf(s.history, gvk);
    LiveVersionIsLastChange(s.history, gvk, k);
    LastChangeIsNewest(s.history, gvk, k);
    LiveKey(s, gvk, k);
    var s' := Step(s, a);
    var e := s'.history[|s.history|];
    assert s'.history == s.history + [e];
    LastChangeAppend(s.history, e, gvk, k);
  }

  /**
    The converse: a versioned write is refused as a conflict exactly when the
    key is live and its newest event is not the one presented. A refused call
    changes nothing.
  */
  lemma ConflictIffNotNewest(s: StoreState, d: Draft)
    requires Inv(s)
    ensures var live := d.key in KindObjects(s, d.gvk);
      var newest := Some(LastChange(s.history, d.gvk, d.key));
      && (Update(s, d).1 == Failed(Conflict) <==> live && d.rv != newest)
      && (UpdateStatus(s, d).1 == Failed(Conflict) <==> live && d.rv != newest)
      && (Delete(s, d).1 == Failed(Conflict) <==> live && d.rv.Some? && d.rv != newest)
      && (Update(s, d).1 == Failed(NotFound) <==> !live)
      && (UpdateStatus(s, d).1 == Failed(NotFound) <==> !live)
      && (Delete(s, d).1 == Failed(NotFound) <==> !live)
      && (Create(s, d).1 == Failed(AlreadyExists) <==> live)
      && (Update(s, d).1.Failed? ==> Update(s, d).0 == s)
      && (UpdateStatus(s, d).1.Failed? ==> UpdateStatus(s, d).0 == s)
      && (Delete(s, d).1.Failed? ==> Delete(s, d).0 == s)
      && (Create(s, d).1.Failed? ==> Create(s, d).0 == s)
  {
    assert KindObjects(s, d.gvk) == StateOf(s.history, d.gvk);
    if d.key in KindObjects(s, d.gvk) {
      LiveVersionIsLastChange(s.history, d.gvk, d.key);
    }
  }

  lemma StepGrowsLastChange(s: StoreState, a: Action, gvk: GVK, k: Key)
    requires Inv(s) && Enabled(s, a)
    ensures LastChange(s.history, gvk, k) <= LastChange(Step(s, a).history, gvk, k)
  {
    StepGrows(s, a);
    LastChangeIsNewest(s.history, gvk, k);
    var h' := Step(s, a).history;
    if h' != s.history {
      var e :| h' == s.history + [e] && Step(s, a).watchers == Notify(s.watchers, e.gvk, e.event);
      LastChangeAppend(s.history, e, gvk, k);
    }
  }

  lemma {:induction false} LastChangeGrows(
      states: seq<StoreState>, actions: seq<Action>, logMax: nat, i: nat, j: nat, gvk: GVK, k: Key)
    requires Run(states, actions, logMax) && i <= j <= |actions|
    ensures LastChange(states[i].history, gvk, k) <= LastChange(states[j].history, gvk, k)
    decreases j
  {
    if i < j {
      LastChangeGrows(states, actions, logMax, i, j - 1, gvk, k);
      RunKeepsInv(states, actions, logMax, j - 1);
      StepGrowsLastChange(states[j - 1], actions[j - 1], gvk, k);
    }
  }

  /** No lost update, no ABA: at most one change per presented version ever succeeds. */
  lemma AtMostOneChangePerVersion(
      states: seq<StoreState>, actions: seq<Action>, logMax: nat, i: nat, j: nat, gvk: GVK, k: Key, r: nat)
    requires Run(states, actions, logMax) && i < |actions| && j < |actions|
    requires ChangesAt(states[i], actions[i], gvk, k, r)
    requires ChangesAt(states[j], actions[j], gvk, k, r)
    ensures i == j
  {
    RunKeepsInv(states, actions, logMax, i);
    RunKeepsInv(states, actions, logMax, j);
    ChangeNeedsNewest(states[i], actions[i], gvk, k, r);
    ChangeNeedsNewest(states[j], actions[j], gvk, k, r);
    if i < j {
      LastChangeGrows(states, actions, logMax, i + 1, j, gvk, k);
    } else if j < i {
      LastChangeGrows(states, actions, logMax, j + 1, i, gvk, k);
    }
  }

  // ---- one life of an object ----

  /** The step is a successful create of the key. */
  ghost predicate Creates(s: StoreState, a: Action, gvk: GVK, k: Key) {
    a.CallCreate? && a.draft.gvk == gvk && a.draft.key == k && Create(s, a.draft).1.Ok?
  }

  /** What a created object starts as: the draft, at its own revision, first generation. */
  ghost predicate StartsAs(o: Object, d: Draft, rv: nat) {
    && o.key == d.key && o.rv == rv && o.generation == 1
    && (if d.uid != "" then o.uid == d.uid else "uid-" <= o.uid)
    && o.labels == d.labels && o.annotations == d.annotations && o.spec == d.spec && o.status == d.status
  }

  /** The key was created at step `j` and has been live ever since, with the UID it got then. */
  ghost predicate LiveSince(states: seq<StoreState>, actions: seq<Action>, i: nat, gvk: GVK, k: Key, j: nat)
    requires i < |states| && |states| == |actions| + 1
  {
    && j < i && Creates(states[j], actions[j], gvk, k)
    && (forall n :: j < n <= i ==> k in KindObjects(states[n], gvk))
    && (var o := KindObjects(states[j + 1], gvk)[k];
        && StartsAs(o, actions[j].draft, |states[j + 1].history|)
        && forall n :: j < n <= i ==> KindObjects(states[n], gvk)[k].uid == o.uid)
  }

  /** A delete logs and returns the stored object with only its version changed. */
  lemma DeleteTellsLastObject(s: StoreState, d: Draft)
    requires Inv(s) && Delete(s, d).1.Ok?
    ensures var s' := Delete(s, d).0; var n := |s.history|;
      && d.key in KindObjects(s, d.gvk) && d.key !in KindObjects(s', d.gvk) && |s'.history| == n + 1
      && var gone := s'.history[n];
         && gone.gvk == d.gvk && gone.event.kind == Deleted && gone.event.obj == Delete(s, d).1.obj
         && gone.event.obj == KindObjects(s, d.gvk)[d.key].(rv := n + 1)
  {
  }

  /** The action is a call on the key. */
  predicate Names(a: Action, gvk: GVK, k: Key) {
    match a
    case CallCreate(d) => d.gvk == gvk && d.key == k
    case CallUpdate(d) => d.gvk == gvk && d.key == k
    case CallUpdateStatus(d) => d.gvk == gvk && d.key == k
    case CallDelete(d) => d.gvk == gvk && d.key == k
    case _ => false
  }

  /** The kind a call is about; for other actions any kind will do. */
  function ActionKind(a: Action): GVK {
    match a
    case CallCreate(d) => d.gvk
    case CallUpdate(d) => d.gvk
    case CallUpdateStatus(d) => d.gvk
    case CallDelete(d) => d.gvk
    case _ => GVK("", "", "")
  }

  /** No call touches an object other than the one it names. */
  lemma CallsTouchOnlyTheirKey(s: StoreState, a: Action, gvk: GVK, k: Key)
    requires Inv(s) && Enabled(s, a)
    requires !Names(a, gvk, k)
    ensures Lookup(KindObjects(Step(s, a), gvk), k) == Lookup(KindObjects(s, gvk), k)
  {
    if (a.CallUpdate? || a.CallUpdateStatus?) && a.draft.key in KindObjects(s, a.draft.gvk) {
      LiveKey(s, a.draft.gvk, a.draft.key);
    }
    if gvk != ActionKind(a) {
      assert KindObjects(Step(s, a), gvk) == KindObjects(s, gvk);
    }
  }

  lemma StepKeepsLife(s: StoreState, a: Action, gvk: GVK, k: Key)
    requires Inv(s) && Enabled(s, a) && k in KindObjects(Step(s, a), gvk)
    ensures if k in KindObjects(s, gvk)
            then KindObjects(Step(s, a), gvk)[k].uid == KindObjects(s, gvk)[k].uid
            else Creates(s, a, gvk, k) && KindObjects(Step(s, a), gvk)[k] == Create(s, a.draft).1.obj
  {
    if Names(a, gvk, k) {
      if k in KindObjects(s, gvk) {
        LiveKey(s, gvk, k);
      }
    } else {
      CallsTouchOnlyTheirKey(s, a, gvk, k);
      assert Lookup(KindObjects(Step(s, a), gvk), k) == Lookup(KindObjects(s, gvk), k);
    }
  }

  /** In every run a live object goes back to one create, and no write since has changed its UID. */
  lemma {:induction false} LivesBeginWithCreate(
      states: seq<StoreState>, actions: seq<Action>, logMax: nat, i: nat, gvk: GVK, k: Key)
    returns (j: nat)
    requires Run(states, actions, logMax) && i <= |actions| && k in KindObjects(states[i], gvk)
    ensures LiveSince(states, actions, i, gvk, k, j)
  {
    RunKeepsInv(states, actions, logMax, i - 1);
    StepKeepsLife(states[i - 1], actions[i - 1], gvk, k);
    if k in KindObjects(states[i - 1], gvk) {
      j := LivesBeginWithCreate(states, actions, logMax, i - 1, gvk, k);
    } else {
      j := i - 1;
    }
  }

  ghost predicate GeneratesUid(s: StoreState, a: Action) {
    a.CallCreate? && a.draft.uid == "" && Create(s, a.draft).1.Ok?
  }

  lemma {:induction false} UidCounterGrows(states: seq<StoreState>, actions: seq<Action>, logMax: nat, i: nat, j: nat)
    requires Run(states, actions, logMax) && i <= j <= |actions|
    ensures states[i].uidCounter <= states[j].uidCounter
  {
    if i < j {
      UidCounterGrows(states, actions, logMax, i, j - 1);
      assert states[j] == Step(states[j - 1], actions[j - 1]);
    }
  }

  /** A generated UID names the number of UIDs generated so far. */
  lemma NewUidNames(n: nat)
    ensures |NewUid(n)| >= 4 && NewUid(n)[..4] == "uid-"
    ensures Numbers.AllDigits(NewUid(n)[4..]) && Numbers.DigitsValue(NewUid(n)[4..]) == n + 1
  {
    assert NewUid(n)[4..] == Numbers.FormatNat(n + 1);
    Numbers.FormatNatValue(n + 1);
  }

  /** The number of UIDs generated in the first `i` steps. */
  ghost function UidsGenerated(states: seq<StoreState>, actions: seq<Action>, i: nat): nat
    requires i <= |actions| <= |states|
  {
    if i == 0 then 0
    else UidsGenerated(states, actions, i - 1) + if GeneratesUid(states[i - 1], actions[i - 1]) then 1 else 0
  }

  /** The counter counts the generated UIDs of the run, so each of them names its own number. */
  lemma {:induction false} UidCounterCounts(states: seq<StoreState>, actions: seq<Action>, logMax: nat, i: nat)
    requires Run(states, actions, logMax) && i <= |actions|
    ensures states[i].uidCounter == UidsGenerated(states, actions, i)
  {
    if i > 0 {
      UidCounterCounts(states, actions, logMax, i - 1);
    }
  }

  /** No run gives out a generated UID twice, whatever was deleted in between. */
  lemma GeneratedUidsDiffer(states: seq<StoreState>, actions: seq<Action>, logMax: nat, i: nat, j: nat)
    requires Run(states, actions, logMax) && i < j < |actions|
    requires GeneratesUid(states[i], actions[i]) && GeneratesUid(states[j], actions[j])
    ensures Create(states[i], actions[i].draft).1.obj.uid != Create(states[j], actions[j].draft).1.obj.uid
  {
    UidCounterGrows(states, actions, logMax, i + 1, j);
    assert states[i].uidCounter < states[i + 1].uidCounter;
    NewUidNames(states[i].uidCounter);
    NewUidNames(states[j].uidCounter);
  }

  // ---- spec, status and generation ----

  /**
    Update keeps the stored status exactly when the store has one or the draft
    has none; UID and key survive, and spec and metadata are the draft's.
  */
  lemma UpdateKeepsStatus(s: StoreState, d: Draft)
    requires Inv(s) && d.key in KindObjects(s, d.gvk) && Update(s, d).1.Ok?
    ensures var stored := KindObjects(s, d.gvk)[d.key];
      && d.key in KindObjects(Update(s, d).0, d.gvk)
      && var o := KindObjects(Update(s, d).0, d.gvk)[d.key];
         && o == Update(s, d).1.obj && o.uid == stored.uid && o.key == d.key
         && (o.status == stored.status <==> stored.status.Some? || d.status.None?)
         && o.spec == d.spec && o.labels == d.labels && o.annotations == d.annotations
  {
    LiveKey(s, d.gvk, d.key);
  }

  lemma MergeKeepsIffWithin(a: Labels, b: Labels)
    ensures a + b == b <==> a.Keys <= b.Keys
  {
    assert (a + b).Keys == a.Keys + b.Keys;
    if a.Keys <= b.Keys {
      assert a + b == b;
    }
  }

  /** Entry by entry: the entries of both, those of `over` where they differ. */
  ghost predicate Overlaid(merged: Labels, under: Labels, over: Labels) {
    && (forall x :: x in merged <==> x in under || x in over)
    && (forall x :: x in merged ==> merged[x] == if x in over then over[x] else under[x])
  }

  /**
    UpdateStatus keeps the stored spec, labels and annotations, each exactly
    under the analogous condition; UID, key and generation survive. Where both
    have a label or annotation the stored value wins.
  */
  lemma UpdateStatusKeepsSpec(s: StoreState, d: Draft)
    requires Inv(s) && d.key in KindObjects(s, d.gvk) && UpdateStatus(s, d).1.Ok?
    ensures var stored := KindObjects(s, d.gvk)[d.key];
      && d.key in KindObjects(UpdateStatus(s, d).0, d.gvk)
      && var o := KindObjects(UpdateStatus(s, d).0, d.gvk)[d.key];
         && o == UpdateStatus(s, d).1.obj && o.uid == stored.uid && o.key == d.key
         && o.generation == stored.generation && o.status == d.status
         && (o.spec == stored.spec <==> stored.spec.Some? || d.spec.None?)
         && (o.labels == stored.labels <==> d.labels.Keys <= stored.labels.Keys)
         && (o.annotations == stored.annotations <==> d.annotations.Keys <= stored.annotations.Keys)
         && Overlaid(o.labels, d.labels, stored.labels) && Overlaid(o.annotations, d.annotations, stored.annotations)
  {
    LiveKey(s, d.gvk, d.key);
    MergeKeepsIffWithin(d.labels, KindObjects(s, d.gvk)[d.key].labels);
    MergeKeepsIffWithin(d.annotations, KindObjects(s, d.gvk)[d.key].annotations);
  }

  lemma InitInv(logMax: nat)
    ensures Inv(Init(logMax))
  {
  }

  /** The store right after its first create. */
  lemma FirstCreate(d: Draft, logMax: nat) returns (s: StoreState)
    ensures Run([Init(logMax), s], [CallCreate(d)], logMax) && Inv(s)
    ensures var uid := if d.uid == "" then NewUid(0) else d.uid;
      KindObjects(s, d.gvk) == map[d.key := Object(d.key, 1, uid, 1, d.labels, d.annotations, d.spec, d.status)]
  {
    InitInv(logMax);
    CreateKeepsInv(Init(logMax), d);
    s := Create(Init(logMax), d).0;
  }

  /** A new store with just `d` created in it. */
  ghost predicate Holding(s: StoreState, d: Draft) {
    Run([Init(1), s], [CallCreate(d)], 1) && d.key in KindObjects(s, d.gvk)
  }

  /** Update lets the caller's status into an object that has none. */
  lemma UpdateCanSetAbsentStatus(d: Draft, status: Json) returns (s: StoreState)
    requires d.status.None?
    ensures Holding(s, d)
    ensures var (s', r) := Update(s, d.(rv := Some(1), status := Some(status)));
      r.Ok? && Lookup(KindObjects(s', d.gvk), d.key) == Some(r.obj) && r.obj.status == Some(status)
  {
    s := FirstCreate(d, 1);
  }

  /** UpdateStatus lets the caller's spec into an object that has none. */
  lemma UpdateStatusCanSetAbsentSpec(d: Draft, spec: Json) returns (s: StoreState)
    requires d.spec.None?
    ensures Holding(s, d)
    ensures var (s', r) := UpdateStatus(s, d.(rv := Some(1), spec := Some(spec)));
      r.Ok? && Lookup(KindObjects(s', d.gvk), d.key) == Some(r.obj) && r.obj.spec == Some(spec)
  {
    s := FirstCreate(d, 1);
  }

  /** UpdateStatus lets in the caller's labels and annotations under keys the object does not have. */
  lemma UpdateStatusCanAddMetadata(d: Draft, key: string, value: string) returns (s: StoreState)
    requires key !in d.labels && key !in d.annotations
    ensures Holding(s, d)
    ensures var more := d.(rv := Some(1), labels := map[key := value], annotations := map[key := value]);
      var (s', r) := UpdateStatus(s, more);
      && r.Ok? && Lookup(KindObjects(s', d.gvk), d.key) == Some(r.obj)
      && r.obj.labels == d.labels[key := value] && r.obj.annotations == d.annotations[key := value]
  {
    s := FirstCreate(d, 1);
    var more := d.(rv := Some(1), labels := map[key := value], annotations := map[key := value]);
    var merged := MergeStatus(KindObjects(s, d.gvk)[d.key], more);
    assert merged.labels == d.labels[key := value] && merged.annotations == d.annotations[key := value];
  }

  // ---- generation ----

  /** The step is a successful Update of the key that gives it another spec. */
  ghost predicate UpdatesSpec(s: StoreState, a: Action, gvk: GVK, k: Key) {
    && a.CallUpdate? && Names(a, gvk, k) && Update(s, a.draft).1.Ok?
    && Lookup(KindObjects(s, gvk), k).Some? && KindObjects(s, gvk)[k].spec != a.draft.spec
  }

  /** The step is a successful UpdateStatus of the key that lets a spec in. */
  ghost predicate LetsSpecIn(s: StoreState, a: Action, gvk: GVK, k: Key) {
    && a.CallUpdateStatus? && Names(a, gvk, k) && UpdateStatus(s, a.draft).1.Ok?
    && Lookup(KindObjects(s, gvk), k).Some? && KindObjects(s, gvk)[k].spec.None? && a.draft.spec.Some?
  }

  /** The spec-changing Updates of a key since it was last created. */
  ghost function SpecUpdates(states: seq<StoreState>, actions: seq<Action>, i: nat, gvk: GVK, k: Key): nat
    requires i <= |actions| <= |states|
  {
    if i == 0 || Creates(states[i - 1], actions[i - 1], gvk, k) then 0
    else SpecUpdates(states, actions, i - 1, gvk, k) +
         if UpdatesSpec(states[i - 1], actions[i - 1], gvk, k) then 1 else 0
  }

  /** The UpdateStatus calls that let a spec into the key's object since it was last created. */
  ghost function SpecsLetIn(states: seq<StoreState>, actions: seq<Action>, i: nat, gvk: GVK, k: Key): nat
    requires i <= |actions| <= |states|
  {
    if i == 0 || Creates(states[i - 1], actions[i - 1], gvk, k) then 0
    else SpecsLetIn(states, actions, i - 1, gvk, k) +
         if LetsSpecIn(states[i - 1], actions[i - 1], gvk, k) then 1 else 0
  }

  /** What one step does to a live object's generation. */
  lemma StepGeneration(s: StoreState, a: Action, gvk: GVK, k: Key)
    requires Inv(s) && Enabled(s, a) && k in KindObjects(Step(s, a), gvk)
    ensures var o := KindObjects(Step(s, a), gvk)[k];
      if Creates(s, a, gvk, k) then o.generation == 1
      else
        && k in KindObjects(s, gvk)
        && o.generation == KindObjects(s, gvk)[k].generation + if UpdatesSpec(s, a, gvk, k) then 1 else 0
  {
    if Names(a, gvk, k) {
      if k in KindObjects(s, gvk) {
        LiveKey(s, gvk, k);
      }
    } else {
      CallsTouchOnlyTheirKey(s, a, gvk, k);
      assert Lookup(KindObjects(Step(s, a), gvk), k) == Lookup(KindObjects(s, gvk), k);
    }
  }

  /**
    In every run a live object's generation is one plus the number of
    spec-changing Updates since its creation.
  */
  lemma {:induction false} GenerationCountsSpecUpdates(
      states: seq<StoreState>, actions: seq<Action>, logMax: nat, i: nat, gvk: GVK, k: Key)
    requires Run(states, actions, logMax) && i <= |actions| && k in KindObjects(states[i], gvk)
    ensures KindObjects(states[i], gvk)[k].generation == 1 + SpecUpdates(states, actions, i, gvk, k)
  {
    RunKeepsInv(states, actions, logMax, i - 1);
    StepGeneration(states[i - 1], actions[i - 1], gvk, k);
    if !Creates(states[i - 1], actions[i - 1], gvk, k) {
      GenerationCountsSpecUpdates(states, actions, logMax, i - 1, gvk, k);
    }
  }

  /** The event a step logs for a key that stays live, and what it says about the spec. */
  lemma LoggedSpec(s: StoreState, a: Action, gvk: GVK, k: Key)
    requires Inv(s) && Enabled(s, a) && k in KindObjects(Step(s, a), gvk)
    requires |Step(s, a).history| > |s.history|
    ensures var e := Step(s, a).history[|s.history|];
      if e.gvk != gvk || e.event.obj.key != k then !Names(a, gvk, k)
      else if e.event.kind != Modified then Creates(s, a, gvk, k)
      else
        && k in KindObjects(s, gvk) && !a.CallCreate?
        && (KindObjects(s, gvk)[k].spec != e.event.obj.spec <==> UpdatesSpec(s, a, gvk, k) || LetsSpecIn(s, a, gvk, k))
  {
    match a
    case CallCreate(d) =>
    case CallUpdate(d) => LiveKey(s, d.gvk, d.key);
    case CallUpdateStatus(d) => LiveKey(s, d.gvk, d.key);
    case CallDelete(d) => LiveKey(s, d.gvk, d.key);
    case _ =>
  }

  /** What one step does to the count of spec changes in the history. */
  lemma StepSpecChanges(s: StoreState, a: Action, gvk: GVK, k: Key)
    requires Inv(s) && Enabled(s, a) && k in KindObjects(Step(s, a), gvk)
    ensures SpecChanges(Step(s, a).history, gvk, k) ==
      if Creates(s, a, gvk, k) then 0
      else SpecChanges(s.history, gvk, k) +
           if UpdatesSpec(s, a, gvk, k) || LetsSpecIn(s, a, gvk, k) then 1 else 0
  {
    var h, h' := s.history, Step(s, a).history;
    assert KindObjects(s, gvk) == StateOf(h, gvk);
    StepGrows(s, a);
    if h' != h {
      SpecChangesAppend(h, h'[|h|], gvk, k);
      assert h' == h + [h'[|h|]];
      LoggedSpec(s, a, gvk, k);
    }
  }

  /**
    The spec changes a reader of the history sees are those Updates plus the
    specs UpdateStatus let in, so the generation is one plus the changes seen
    exactly when UpdateStatus let none in.
  */
  lemma {:induction false} HistoryShowsSpecChanges(
      states: seq<StoreState>, actions: seq<Action>, logMax: nat, i: nat, gvk: GVK, k: Key)
    requires Run(states, actions, logMax) && i <= |actions| && k in KindObjects(states[i], gvk)
    ensures SpecChanges(states[i].history, gvk, k)
         == SpecUpdates(states, actions, i, gvk, k) + SpecsLetIn(states, actions, i, gvk, k)
    ensures KindObjects(states[i], gvk)[k].generation == 1 + SpecChanges(states[i].history, gvk, k)
       <==> SpecsLetIn(states, actions, i, gvk, k) == 0
  {
    RunKeepsInv(states, actions, logMax, i - 1);
    StepGeneration(states[i - 1], actions[i - 1], gvk, k);
    StepSpecChanges(states[i - 1], actions[i - 1], gvk, k);
    if !Creates(states[i - 1], actions[i - 1], gvk, k) {
      HistoryShowsSpecChanges(states, actions, logMax, i - 1, gvk, k);
    }
    GenerationCountsSpecUpdates(states, actions, logMax, i, gvk, k);
  }

  // ---- no-op suppression ----

  /**
    An accepted write leaves objects, history, log and every channel unchanged
    exactly when the draft says nothing new, and logs one event otherwise. For
    Update "nothing new" includes the draft's generation.
  */
  lemma NoOpIffNothingNew(s: StoreState, d: Draft)
    requires Inv(s) && d.key in KindObjects(s, d.gvk) && d.rv == Some(KindObjects(s, d.gvk)[d.key].rv)
    ensures var stored := KindObjects(s, d.gvk)[d.key];
      var sameSpec :=
        && d.spec == stored.spec && d.labels == stored.labels && d.annotations == stored.annotations
        && d.generation == stored.generation && (stored.status.Some? || d.status.None?);
      var sameStatus :=
        && d.status == stored.status && (stored.spec.Some? || d.spec.None?)
        && d.labels.Keys <= stored.labels.Keys && d.annotations.Keys <= stored.annotations.Keys;
      && Update(s, d).1.Ok? && UpdateStatus(s, d).1.Ok?
      && (if sameSpec then Update(s, d).0 == s else |Update(s, d).0.history| == |s.history| + 1)
      && (if sameStatus then UpdateStatus(s, d).0 == s else |UpdateStatus(s, d).0.history| == |s.history| + 1)
  {
    var stored := KindObjects(s, d.gvk)[d.key];
    LiveKey(s, d.gvk, d.key);
    MergeKeepsIffWithin(d.labels, stored.labels);
    MergeKeepsIffWithin(d.annotations, stored.annotations);
  }

  /**
    Identical content with any generation but the stored one still takes a
    revision, although the Store interface says an identical spec must not.
  */
  lemma UnsetGenerationBumpsRevision(d: Draft, generation: int) returns (s: StoreState)
    requires generation != 1
    ensures Holding(s, d)
    ensures var (s', r) := Update(s, d.(rv := Some(1), generation := generation));
      && r.Ok? && |s'.history| == |s.history| + 1
      && KindObjects(s, d.gvk)[d.key].(rv := |s'.history|) == r.obj
  {
    s := FirstCreate(d, 1);
  }
}
