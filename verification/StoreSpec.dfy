/**
  The versioned store as a state machine: what each call does to the objects,
  the history, the part of the history the bounded log still holds, and every
  watcher channel ever opened.
*/
module StoreSpec {
  import opened Objects
  import opened History
  import Numbers

  datatype StoreError = NotFound | AlreadyExists | Conflict

  datatype Reply = Ok(obj: Object) | Failed(error: StoreError)

  datatype Replay = Events(events: seq<Event>) | RevisionTooOld(requested: int, oldest: int)

  datatype WatchReply = Opened(id: nat) | TooOld(requested: int, oldest: int)

  /**
    A watcher channel. `from` is the position its delivery starts at, `received`
    what its consumer has taken out, `buffer` what is still in the channel.
    `filtered` marks a watcher opened with a label selector.
  */
  datatype Watcher = Watcher(
    gvk: GVK, filtered: bool, from: nat, cap: nat,
    buffer: seq<Event>, received: seq<Event>, closed: bool)

  /** The revision counter is `|history|`; the log holds the last `held` entries. */
  datatype StoreState = StoreState(
    objects: map<GVK, Snapshot>, uidCounter: nat,
    history: seq<Entry>, held: nat, logMax: nat,
    watchers: seq<Watcher>)

  function Min(a: int, b: int): int { if a <= b then a else b }

  function ObjectsOf(objects: map<GVK, Snapshot>, gvk: GVK): Snapshot {
    if gvk in objects then objects[gvk] else map[]
  }

  function KindObjects(s: StoreState, gvk: GVK): Snapshot { ObjectsOf(s.objects, gvk) }

  // ---- watchers ----

  /** Delivery never blocks: a full channel is closed instead. */
  function Send(w: Watcher, e: Event): Watcher {
    if w.closed then w
    else if |w.buffer| < w.cap then w.(buffer := w.buffer + [e])
    else w.(closed := true)
  }

  function Notify(ws: seq<Watcher>, gvk: GVK, e: Event): seq<Watcher> {
    seq(|ws|, i requires 0 <= i < |ws| => if ws[i].gvk == gvk then Send(ws[i], e) else ws[i])
  }

  // ---- log ----

  /** Append to the log and tell the watchers of the kind. */
  function Publish(s: StoreState, gvk: GVK, kind: EventType, obj: Object): StoreState {
    var e := Event(kind, obj);
    s.(history := s.history + [Entry(|s.history| + 1, gvk, e)],
       held := Min(s.held + 1, s.logMax),
       watchers := Notify(s.watchers, gvk, e))
  }

  /**
    The events of a kind after revision `r`, stated on the full history of
    which only the last `held` entries are at hand.
  */
  function EventsAfter(h: seq<Entry>, held: nat, r: int, gvk: GVK): Replay
    requires held <= |h|
  {
    if r >= |h| then Events([])
    else if r < |h| - held then RevisionTooOld(r, |h| - held + 1)
    else Events(KindEvents(h[r..], gvk))
  }

  // ---- calls ----

  function Put(objects: map<GVK, Snapshot>, gvk: GVK, o: Object): map<GVK, Snapshot> {
    objects[gvk := ObjectsOf(objects, gvk)[o.key := o]]
  }

  function NewUid(counter: nat): string { "uid-" + Numbers.FormatInt(counter + 1) }

  function Create(s: StoreState, d: Draft): (StoreState, Reply) {
    if d.key in KindObjects(s, d.gvk) then (s, Failed(AlreadyExists))
    else
      var uid := if d.uid == "" then NewUid(s.uidCounter) else d.uid;
      var o := Object(d.key, |s.history| + 1, uid, 1, d.labels, d.annotations, d.spec, d.status);
      var s1 := s.(objects := Put(s.objects, d.gvk, o),
                   uidCounter := if d.uid == "" then s.uidCounter + 1 else s.uidCounter);
      (Publish(s1, d.gvk, Added, o), Ok(o))
  }

  /**
    The draft with the stored status in place of its own, decoded over a copy
    of the draft: a status the store does not have leaves the draft's standing.
  */
  function MergeSpec(stored: Object, d: Draft): Object {
    Object(stored.key, stored.rv, stored.uid, d.generation, d.labels, d.annotations,
           d.spec, if stored.status.Some? then stored.status else d.status)
  }

  /**
    The stored object with the draft's status, decoded over a copy of the
    draft: absent fields and map entries keep what the draft held.
  */
  function MergeStatus(stored: Object, d: Draft): Object {
    Object(stored.key, stored.rv, stored.uid, stored.generation,
           d.labels + stored.labels, d.annotations + stored.annotations,
           if stored.spec.Some? then stored.spec else d.spec, d.status)
  }

  function Replace(s: StoreState, gvk: GVK, o: Object): (StoreState, Reply) {
    (Publish(s.(objects := Put(s.objects, gvk, o)), gvk, Modified, o), Ok(o))
  }

  function Update(s: StoreState, d: Draft): (StoreState, Reply) {
    var m := KindObjects(s, d.gvk);
    if d.key !in m then (s, Failed(NotFound))
    else if d.rv != Some(m[d.key].rv) then (s, Failed(Conflict))
    else
      var stored := m[d.key];
      var merged := MergeSpec(stored, d);
      if merged == stored then (s, Ok(stored))
      else
        var generation := if stored.spec != d.spec then stored.generation + 1 else stored.generation;
        Replace(s, d.gvk, merged.(generation := generation, rv := |s.history| + 1))
  }

  function UpdateStatus(s: StoreState, d: Draft): (StoreState, Reply) {
    var m := KindObjects(s, d.gvk);
    if d.key !in m then (s, Failed(NotFound))
    else if d.rv != Some(m[d.key].rv) then (s, Failed(Conflict))
    else
      var merged := MergeStatus(m[d.key], d);
      if merged == m[d.key] then (s, Ok(m[d.key]))
      else Replace(s, d.gvk, merged.(rv := |s.history| + 1))
  }

  function Delete(s: StoreState, d: Draft): (StoreState, Reply) {
    var m := KindObjects(s, d.gvk);
    if d.key !in m then (s, Failed(NotFound))
    else if d.rv.Some? && d.rv != Some(m[d.key].rv) then (s, Failed(Conflict))
    else
      var gone := m[d.key].(rv := |s.history| + 1);
      (Publish(s.(objects := s.objects[d.gvk := m - {d.key}]), d.gvk, Deleted, gone), Ok(gone))
  }

  function Selected(es: seq<Event>, sel: LabelSelector): seq<Event> {
    if es == [] then []
    else
      var last := es[|es| - 1];
      Selected(es[..|es| - 1], sel) + if last.kind == Bookmark || sel(last.obj.labels) then [last] else []
  }

  /** The events an optional label selector lets through; bookmarks always pass. */
  function Chosen(selector: Option<LabelSelector>, es: seq<Event>): seq<Event> {
    if selector.Some? then Selected(es, selector.value) else es
  }

  function Capacity(replay: nat): nat { if replay > 100 then replay + 100 else 100 }

  /** `resume` is None when the caller gives no revision to watch from. */
  function Watch(s: StoreState, gvk: GVK, resume: Option<int>, selector: Option<LabelSelector>)
    : (StoreState, WatchReply)
    requires s.held <= |s.history|
  {
    var from := if resume.Some? then resume.value else |s.history|;
    match EventsAfter(s.history, s.held, from, gvk)
    case RevisionTooOld(requested, oldest) => (s, TooOld(requested, oldest))
    case Events(all) =>
      var replay := Chosen(selector, all);
      var w := Watcher(gvk, selector.Some?, Min(from, |s.history|), Capacity(|replay|), replay, [], false);
      (s.(watchers := s.watchers + [w]), Opened(|s.watchers|))
  }

  // ---- runs ----

  datatype Action =
    | CallCreate(draft: Draft)
    | CallUpdate(draft: Draft)
    | CallUpdateStatus(draft: Draft)
    | CallDelete(draft: Draft)
    | CallWatch(gvk: GVK, resume: Option<int>, selector: Option<LabelSelector>)
    | Receive(id: nat)
    | Stop(id: nat)

  predicate Enabled(s: StoreState, a: Action) {
    match a
    case Receive(id) => id < |s.watchers| && s.watchers[id].buffer != []
    case Stop(id) => id < |s.watchers|
    case CallWatch(_, _, _) => s.held <= |s.history|
    case _ => true
  }

  function Take(w: Watcher): Watcher
    requires w.buffer != []
  {
    w.(buffer := w.buffer[1..], received := w.received + [w.buffer[0]])
  }

  function Step(s: StoreState, a: Action): StoreState
    requires Enabled(s, a)
  {
    match a
    case CallCreate(d) => Create(s, d).0
    case CallUpdate(d) => Update(s, d).0
    case CallUpdateStatus(d) => UpdateStatus(s, d).0
    case CallDelete(d) => Delete(s, d).0
    case CallWatch(gvk, resume, selector) => Watch(s, gvk, resume, selector).0
    case Receive(id) => s.(watchers := s.watchers[id := Take(s.watchers[id])])
    case Stop(id) => s.(watchers := s.watchers[id := s.watchers[id].(closed := true)])
  }

  function Init(logMax: nat): StoreState { StoreState(map[], 0, [], 0, logMax, []) }

  /** A run of a new store: any calls, receives and stops, in any interleaving. */
  ghost predicate Run(states: seq<StoreState>, actions: seq<Action>, logMax: nat) {
    && |states| == |actions| + 1
    && states[0] == Init(logMax)
    && forall i :: 0 <= i < |actions| ==>
         Enabled(states[i], actions[i]) && states[i + 1] == Step(states[i], actions[i])
  }
}
