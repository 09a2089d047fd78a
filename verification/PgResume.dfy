/**
  Resuming a watch with per-object versions: the informer remembers the larger
  of its list position and the object versions it has seen, and hands that
  number back as a sequence position.
*/
module PgResume {
  import opened PgSpec
  import opened PgSequence

  datatype Change = Change(key: RowKey, row: Row)

  /**
    One informer of a kind in one bucket. `cursor` is how far the poller has
    read, `channel` what it has read but the informer has not taken, `reached`
    the sequence of the last change taken, `known` the rows as last told,
    `versions` the position of the last list and the versions told since.
  */
  datatype Watch = Watch(
    gvk: string, bucket: int, lastRV: nat,
    reached: nat, cursor: nat, channel: seq<Change>, known: map<RowKey, Row>, versions: set<nat>)

  datatype System = System(db: Db, watch: Watch)

  datatype Move =
    | Database(statement: Statement)
    | Relist
    | Poll(batch: seq<Change>)
    | Receive
    | Reconnect

  /** The rows of the watched kind and bucket. */
  function Rows(db: Db, w: Watch): map<RowKey, Row> {
    map k | k in db.tables.rows && k.gvk == w.gvk && db.tables.rows[k].bucket == w.bucket :: db.tables.rows[k]
  }

  function Head(db: Db, w: Watch): nat { Counter(db.tables.counters, w.bucket, w.gvk) }

  ghost predicate Ascending(cs: seq<Change>) {
    forall a, b :: 0 <= a < b < |cs| ==> cs[a].row.seqNo < cs[b].row.seqNo
  }

  /** A poll reads exactly the rows past the cursor, in ascending sequence order. */
  ghost predicate PollReads(rows: map<RowKey, Row>, cursor: nat, batch: seq<Change>) {
    && Ascending(batch)
    && (forall n :: 0 <= n < |batch| ==>
          batch[n].key in rows && rows[batch[n].key] == batch[n].row && batch[n].row.seqNo > cursor)
    && (forall k :: k in rows && rows[k].seqNo > cursor ==> Change(k, rows[k]) in batch)
  }

  function Max(a: nat, b: nat): nat { if a >= b then a else b }

  function Polled(w: Watch, batch: seq<Change>): Watch {
    w.(channel := w.channel + batch, cursor := if batch == [] then w.cursor else batch[|batch| - 1].row.seqNo)
  }

  function Received(w: Watch): Watch
    requires w.channel != []
  {
    var c := w.channel[0];
    w.(lastRV := Max(w.lastRV, c.row.version), reached := c.row.seqNo,
       channel := w.channel[1..], known := w.known[c.key := c.row], versions := w.versions + {c.row.version})
  }

  ghost predicate Enabled(s: System, v: Move) {
    match v
    case Poll(batch) => PollReads(Rows(s.db, s.watch), s.watch.cursor, batch)
    case Receive => s.watch.channel != []
    case _ => true
  }

  ghost function Next(s: System, v: Move): System
    requires Enabled(s, v)
  {
    var w := s.watch;
    match v
    case Database(st) => s.(db := Execute(s.db, st))
    case Relist =>
      var at := Head(s.db, w);
      s.(watch := w.(lastRV := at, reached := at, cursor := at, channel := [], known := Rows(s.db, w),
                     versions := {at}))
    case Poll(batch) => s.(watch := Polled(w, batch))
    case Receive => s.(watch := Received(w))
    case Reconnect =>
      s.(watch := w.(reached := w.lastRV, cursor := w.lastRV, channel := []))
  }

  ghost predicate Run(states: seq<System>, moves: seq<Move>, gvk: string, bucket: int) {
    && |states| == |moves| + 1
    && states[0].db.tables == Tables(map[], map[], map[])
    && states[0].watch == Watch(gvk, bucket, 0, 0, 0, [], map[], {0})
    && forall n :: 0 <= n < |moves| ==> Enabled(states[n], moves[n]) && states[n + 1] == Next(states[n], moves[n])
  }

  // ---- invariant ----

  ghost predicate ChannelOk(w: Watch) {
    && Ascending(w.channel)
    && forall n :: 0 <= n < |w.channel| ==>
         w.reached < w.channel[n].row.seqNo <= w.cursor && w.channel[n].row.version <= w.channel[n].row.seqNo
  }

  /**
    Every row up to `reached` is known as it is, every other row up to the
    cursor is in the channel, and nothing known or in the channel is made up.
  */
  ghost predicate NothingMissed(rows: map<RowKey, Row>, w: Watch) {
    && (forall k :: k in rows && rows[k].seqNo <= w.reached ==> k in w.known && w.known[k] == rows[k])
    && (forall k :: k in rows && w.reached < rows[k].seqNo <= w.cursor ==> Change(k, rows[k]) in w.channel)
    && (forall n :: 0 <= n < |w.channel| ==>
          w.channel[n].key in rows && w.channel[n].row.seqNo <= rows[w.channel[n].key].seqNo)
    && w.known.Keys <= rows.Keys
  }

  /** `lastRV` is the largest of the list's position and the versions told since. */
  ghost predicate IsNewest(w: Watch) { w.lastRV in w.versions && forall v :: v in w.versions ==> v <= w.lastRV }

  ghost predicate Inv(s: System, assign: Assignment) {
    && PgSequence.Inv(s.db.tables, assign)
    && s.watch.lastRV <= s.watch.reached <= s.watch.cursor <= Head(s.db, s.watch)
    && IsNewest(s.watch)
    && ChannelOk(s.watch)
    && NothingMissed(Rows(s.db, s.watch), s.watch)
  }

  /** Every row stays as it was or moves past the cursor; new rows are past it too. */
  ghost predicate MovePast(rows: map<RowKey, Row>, rows': map<RowKey, Row>, cursor: nat) {
    && rows.Keys <= rows'.Keys
    && forall k :: k in rows' && !(k in rows && rows'[k] == rows[k]) ==> rows'[k].seqNo > cursor
  }

  lemma MovesAreNotMissed(rows: map<RowKey, Row>, rows': map<RowKey, Row>, w: Watch)
    requires w.reached <= w.cursor && ChannelOk(w) && NothingMissed(rows, w) && MovePast(rows, rows', w.cursor)
    ensures NothingMissed(rows', w)
  {
  }

  /** A write moves its row past everything read so far and leaves the others. */
  lemma AdvanceMissesNothing(t: Tables, t': Tables, key: RowKey, bucket: int, w: Watch, db: Db, db': Db)
    requires db.tables == t && db'.tables == t' && Advances(t, t', key, bucket)
    requires key in t.rows ==> t.rows[key].bucket == bucket
    requires w.cursor <= Head(db, w) && w.reached <= w.cursor && ChannelOk(w) && NothingMissed(Rows(db, w), w)
    ensures w.cursor <= Head(db', w) && NothingMissed(Rows(db', w), w)
  {
    var rows, rows' := Rows(db, w), Rows(db', w);
    forall k | k in rows' && !(k in rows && rows'[k] == rows[k]) ensures rows'[k].seqNo > w.cursor {
      assert k == key;
    }
    MovesAreNotMissed(rows, rows', w);
  }

  lemma DatabaseKeepsInv(s: System, st: Statement, assign: Assignment)
    requires Inv(s, assign) && Routed(st, assign)
    ensures Inv(Next(s, Database(st)), assign)
  {
    var s' := Next(s, Database(st));
    StatementKeepsInv(s.db, st, assign);
    var t, t' := s.db.tables, s'.db.tables;
    if st.DoWrite? {
      WriteAdvances(t, st.request, s.db.now, st.newUid, assign);
      if t' != t {
        AdvanceMissesNothing(t, t', st.request.key, st.request.bucket, s.watch, s.db, s'.db);
      }
    } else {
      assert t'.rows == t.rows && t'.counters == t.counters;
      assert Rows(s'.db, s.watch) == Rows(s.db, s.watch);
    }
  }

  lemma RelistKeepsInv(s: System, assign: Assignment)
    requires Inv(s, assign)
    ensures Inv(Next(s, Relist), assign)
  {
    var rows := Rows(s.db, s.watch);
    assert Rows(s.db, Next(s, Relist).watch) == rows;
  }

  lemma PollKeepsChannel(rows: map<RowKey, Row>, w: Watch, batch: seq<Change>, head: nat)
    requires forall k :: k in rows ==> rows[k].version <= rows[k].seqNo <= head
    requires w.reached <= w.cursor <= head && ChannelOk(w) && PollReads(rows, w.cursor, batch)
    ensures ChannelOk(Polled(w, batch)) && w.cursor <= Polled(w, batch).cursor <= head
  {
    var w' := Polled(w, batch);
    forall n | 0 <= n < |batch| ensures w.cursor < batch[n].row.seqNo <= w'.cursor {
      assert n < |batch| - 1 ==> batch[n].row.seqNo < batch[|batch| - 1].row.seqNo;
    }
  }

  lemma PollMissesNothing(rows: map<RowKey, Row>, w: Watch, batch: seq<Change>)
    requires w.reached <= w.cursor && NothingMissed(rows, w) && PollReads(rows, w.cursor, batch)
    ensures NothingMissed(rows, Polled(w, batch))
  {
    var w' := Polled(w, batch);
    forall k | k in rows && w'.reached < rows[k].seqNo <= w'.cursor ensures Change(k, rows[k]) in w'.channel {
      if rows[k].seqNo <= w.cursor {
        assert Change(k, rows[k]) in w.channel;
      } else {
        assert Change(k, rows[k]) in batch;
      }
    }
    forall n | 0 <= n < |w'.channel|
      ensures w'.channel[n].key in rows && w'.channel[n].row.seqNo <= rows[w'.channel[n].key].seqNo
    {
      assert w'.channel[n] == if n < |w.channel| then w.channel[n] else batch[n - |w.channel|];
    }
  }

  lemma PollKeepsInv(s: System, batch: seq<Change>, assign: Assignment)
    requires Inv(s, assign) && Enabled(s, Poll(batch))
    ensures Inv(Next(s, Poll(batch)), assign)
  {
    assert Rows(s.db, Polled(s.watch, batch)) == Rows(s.db, s.watch);
    PollKeepsChannel(Rows(s.db, s.watch), s.watch, batch, Head(s.db, s.watch));
    PollMissesNothing(Rows(s.db, s.watch), s.watch, batch);
  }

  /** The head of the channel is the only row between `reached` and its own number. */
  lemma HeadIsNext(rows: map<RowKey, Row>, w: Watch, k: RowKey)
    requires w.channel != [] && w.reached <= w.cursor && ChannelOk(w) && NothingMissed(rows, w)
    requires k in rows && rows[k].seqNo <= w.channel[0].row.seqNo
    ensures k in Received(w).known && Received(w).known[k] == rows[k]
  {
    if rows[k].seqNo > w.reached {
      assert Change(k, rows[k]) in w.channel;
      var n :| 0 <= n < |w.channel| && w.channel[n] == Change(k, rows[k]);
      assert n == 0;
    } else {
      assert w.channel[0].row.seqNo <= rows[w.channel[0].key].seqNo;
    }
  }

  lemma RestStays(rows: map<RowKey, Row>, w: Watch, k: RowKey)
    requires w.channel != [] && ChannelOk(w) && NothingMissed(rows, w)
    requires k in rows && w.channel[0].row.seqNo < rows[k].seqNo <= w.cursor
    ensures Change(k, rows[k]) in w.channel[1..]
  {
    assert Change(k, rows[k]) in w.channel;
    var n :| 0 <= n < |w.channel| && w.channel[n] == Change(k, rows[k]);
    assert w.channel[1..][n - 1] == w.channel[n];
  }

  lemma ReceiveKeepsChannel(w: Watch)
    requires w.channel != [] && w.lastRV <= w.reached <= w.cursor && ChannelOk(w)
    ensures ChannelOk(Received(w)) && Received(w).lastRV <= Received(w).reached <= w.cursor
  {
    var w' := Received(w);
    forall n | 0 <= n < |w'.channel| ensures w'.channel[n] == w.channel[n + 1] {}
  }

  lemma ReceiveMissesNothing(rows: map<RowKey, Row>, w: Watch)
    requires w.channel != [] && w.reached <= w.cursor && ChannelOk(w) && NothingMissed(rows, w)
    ensures NothingMissed(rows, Received(w))
  {
    var w' := Received(w);
    forall k | k in rows && rows[k].seqNo <= w'.reached ensures k in w'.known && w'.known[k] == rows[k] {
      HeadIsNext(rows, w, k);
    }
    forall k | k in rows && w'.reached < rows[k].seqNo <= w'.cursor ensures Change(k, rows[k]) in w'.channel {
      RestStays(rows, w, k);
    }
    forall n | 0 <= n < |w'.channel| ensures w'.channel[n] == w.channel[n + 1] {}
  }

  lemma ReceiveKeepsNewest(w: Watch)
    requires w.channel != [] && IsNewest(w)
    ensures IsNewest(Received(w))
  {
  }

  lemma ReceiveKeepsInv(s: System, assign: Assignment)
    requires Inv(s, assign) && Enabled(s, Receive)
    ensures Inv(Next(s, Receive), assign)
  {
    assert Rows(s.db, Received(s.watch)) == Rows(s.db, s.watch);
    ReceiveKeepsNewest(s.watch);
    ReceiveKeepsChannel(s.watch);
    ReceiveMissesNothing(Rows(s.db, s.watch), s.watch);
  }

  lemma ReconnectKeepsInv(s: System, assign: Assignment)
    requires Inv(s, assign)
    ensures Inv(Next(s, Reconnect), assign)
  {
    assert Rows(s.db, Next(s, Reconnect).watch) == Rows(s.db, s.watch);
  }

  lemma MoveKeepsInv(s: System, v: Move, assign: Assignment)
    requires Inv(s, assign) && Enabled(s, v) && (v.Database? ==> Routed(v.statement, assign))
    ensures Inv(Next(s, v), assign)
  {
    match v
    case Database(st) => DatabaseKeepsInv(s, st, assign);
    case Relist => RelistKeepsInv(s, assign);
    case Poll(batch) => PollKeepsInv(s, batch, assign);
    case Receive => ReceiveKeepsInv(s, assign);
    case Reconnect => ReconnectKeepsInv(s, assign);
  }

  lemma {:induction false} RunKeepsInv(
      states: seq<System>, moves: seq<Move>, gvk: string, bucket: int, assign: Assignment, n: nat)
    requires Run(states, moves, gvk, bucket) && n <= |moves|
    requires forall m :: 0 <= m < |moves| && moves[m].Database? ==> Routed(moves[m].statement, assign)
    ensures Inv(states[n], assign)
  {
    if n > 0 {
      RunKeepsInv(states, moves, gvk, bucket, assign, n - 1);
      MoveKeepsInv(states[n - 1], moves[n - 1], assign);
    }
  }

  /** With everything up to the head taken, the informer knows exactly the rows. */
  lemma CaughtUpKnowsAll(s: System, assign: Assignment)
    requires Inv(s, assign) && s.watch.channel == [] && s.watch.cursor == Head(s.db, s.watch)
    ensures s.watch.known == Rows(s.db, s.watch)
  {
    var w, rows := s.watch, Rows(s.db, s.watch);
    forall k | k in rows ensures k in w.known && w.known[k] == rows[k] {
      assert rows[k].seqNo <= w.cursor;
    }
  }

  /**
    Resume safety: in every run, the version the informer would resume from
    never exceeds the sequence it has reached, and every row it does not know
    as it is now lies past that version, so a poll from there reads it; and
    once it has taken everything up to the head it knows exactly the rows.
  */
  lemma ResumeSkipsNothing(states: seq<System>, moves: seq<Move>, gvk: string, bucket: int, assign: Assignment, n: nat)
    requires Run(states, moves, gvk, bucket) && n <= |moves|
    requires forall m :: 0 <= m < |moves| && moves[m].Database? ==> Routed(moves[m].statement, assign)
    ensures var s := states[n]; var w := s.watch; var rows := Rows(s.db, w);
      && IsNewest(w) && w.lastRV <= w.reached
      && (forall k :: k in rows && !(k in w.known && w.known[k] == rows[k]) ==> rows[k].seqNo > w.lastRV)
      && (forall k, batch :: k in rows && !(k in w.known && w.known[k] == rows[k]) && PollReads(rows, w.lastRV, batch)
            ==> Change(k, rows[k]) in batch)
      && (w.channel == [] && w.cursor == Head(s.db, w) ==> w.known == rows)
  {
    RunKeepsInv(states, moves, gvk, bucket, assign, n);
    var s := states[n];
    if s.watch.channel == [] && s.watch.cursor == Head(s.db, s.watch) {
      CaughtUpKnowsAll(s, assign);
    }
  }
}
