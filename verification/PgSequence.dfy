/** Sequence conservation: what every run of the write path keeps. */
module PgSequence {
  import opened Objects
  import opened PgSpec

  /** Which bucket each object lives in, the same for everybody. */
  type Assignment = (string, string) -> int

  ghost function InBucket(rows: map<RowKey, Row>, gvk: string, bucket: int): set<RowKey> {
    set k | k in rows && k.gvk == gvk && rows[k].bucket == bucket
  }

  ghost function Sum(rows: map<RowKey, Row>, keys: set<RowKey>): nat
    requires keys <= rows.Keys
    decreases |keys|
  {
    if keys == {} then 0
    else
      var k :| k in keys;
      rows[k].version + Sum(rows, keys - {k})
  }

  lemma {:induction false} SumTakesOut(rows: map<RowKey, Row>, keys: set<RowKey>, k: RowKey)
    requires keys <= rows.Keys && k in keys
    ensures Sum(rows, keys) == rows[k].version + Sum(rows, keys - {k})
    decreases |keys|
  {
    var j :| j in keys && Sum(rows, keys) == rows[j].version + Sum(rows, keys - {j});
    if j != k {
      SumTakesOut(rows, keys - {j}, k);
      SumTakesOut(rows, keys - {k}, j);
      assert keys - {j} - {k} == keys - {k} - {j};
    }
  }

  lemma {:induction false} SumSame(rows: map<RowKey, Row>, rows': map<RowKey, Row>, keys: set<RowKey>)
    requires keys <= rows.Keys && keys <= rows'.Keys
    requires forall k :: k in keys ==> rows[k].version == rows'[k].version
    ensures Sum(rows, keys) == Sum(rows', keys)
    decreases |keys|
  {
    if keys != {} {
      var k :| k in keys;
      SumTakesOut(rows, keys, k);
      SumTakesOut(rows', keys, k);
      SumSame(rows, rows', keys - {k});
    }
  }

  /** The versions in a bucket of a kind add up to its counter. */
  ghost predicate Conserved(t: Tables) {
    forall gvk, b :: Sum(t.rows, InBucket(t.rows, gvk, b)) == Counter(t.counters, b, gvk)
  }

  ghost predicate Ordered(t: Tables) {
    forall k :: k in t.rows ==>
      1 <= t.rows[k].version <= t.rows[k].seqNo <= Counter(t.counters, t.rows[k].bucket, k.gvk)
  }

  ghost predicate Distinct(t: Tables) {
    forall j, k :: j in t.rows && k in t.rows && j != k && j.gvk == k.gvk && t.rows[j].bucket == t.rows[k].bucket
      ==> t.rows[j].seqNo != t.rows[k].seqNo
  }

  ghost predicate Placed(t: Tables, assign: Assignment) {
    forall k :: k in t.rows ==> t.rows[k].bucket == assign(k.namespace, k.name)
  }

  ghost predicate Inv(t: Tables, assign: Assignment) {
    Conserved(t) && Ordered(t) && Distinct(t) && Placed(t, assign)
  }

  /** A changing write puts one row at the bucket's next number, one version up. */
  ghost predicate Advances(t: Tables, t': Tables, key: RowKey, bucket: int) {
    && key in t'.rows && t'.rows == t.rows[key := t'.rows[key]]
    && t'.rows[key].bucket == bucket
    && t'.rows[key].version == (if key in t.rows then t.rows[key].version else 0) + 1
    && t'.rows[key].seqNo == Counter(t.counters, bucket, key.gvk) + 1
    && t'.counters == t.counters[(bucket, key.gvk) := t'.rows[key].seqNo]
  }

  lemma WriteAdvances(t: Tables, q: Request, now: int, uid: string, assign: Assignment)
    requires Placed(t, assign) && q.bucket == assign(q.key.namespace, q.key.name)
    ensures var (t', reply) := Write(t, q, now, uid);
      && (reply.Written? && reply.changed ==>
            Advances(t, t', q.key, q.bucket) && t'.leases == t.leases
            && reply.seqNo == t'.rows[q.key].seqNo && reply.version == t'.rows[q.key].version)
      && (reply.Raised? || !reply.changed ==> t' == t)
  {
  }

  /** The row already has everything the request would write. */
  ghost predicate HasAlready(rows: map<RowKey, Row>, q: Request) {
    && q.key in rows && rows[q.key].status == q.status
    && (q.domain == SpecDomain ==>
          rows[q.key].spec == q.spec && rows[q.key].metadata == q.metadata && rows[q.key].deletion == q.deletion)
  }

  /**
    No accepted write is lost: after any reply but an error the row has what the
    request wrote, and the reply is about that row. It is unchanged exactly when
    the write was not forced and the row had all of that before.
  */
  lemma WriteTakesEffect(t: Tables, q: Request, now: int, uid: string)
    requires Write(t, q, now, uid).1.Written?
    ensures var (t', reply) := Write(t, q, now, uid);
      && HasAlready(t'.rows, q)
      && reply.uid == t'.rows[q.key].uid && reply.version == t'.rows[q.key].version
      && (!reply.changed <==> !q.force && HasAlready(t.rows, q))
      && reply.seqNo == if reply.changed then t'.rows[q.key].seqNo else 0
  {
  }

  /** The exact condition of each error; a write that raises one changes nothing. */
  lemma WriteRaisesExactly(t: Tables, q: Request, now: int, uid: string)
    ensures var (t', reply) := Write(t, q, now, uid);
      var lease := (q.bucket, q.domain);
      var holds := lease in t.leases && t.leases[lease].holder == q.holder
                && t.leases[lease].epoch == q.epoch && t.leases[lease].expires > now;
      var writes := holds && (q.force || !HasAlready(t.rows, q));
      && (reply == Raised(FenceViolation) <==> !holds)
      && (reply == Raised(StatusNeedsVersion) <==> writes && q.domain == StatusDomain && q.expected == 0)
      && (reply == Raised(RowExists) <==> writes && q.domain == SpecDomain && q.expected == 0 && q.key in t.rows)
      && (reply == Raised(VersionConflict) <==>
            writes && q.expected != 0 && !(q.key in t.rows && t.rows[q.key].version == q.expected))
      && (reply.Raised? ==> t' == t)
  {
  }

  lemma AdvanceConserves(t: Tables, t': Tables, key: RowKey, bucket: int)
    requires Conserved(t) && Advances(t, t', key, bucket)
    requires key in t.rows ==> t.rows[key].bucket == bucket
    ensures Conserved(t')
  {
    forall gvk, b ensures Sum(t'.rows, InBucket(t'.rows, gvk, b)) == Counter(t'.counters, b, gvk) {
      var was, now := InBucket(t.rows, gvk, b), InBucket(t'.rows, gvk, b);
      assert Sum(t.rows, was) == Counter(t.counters, b, gvk);
      if gvk == key.gvk && b == bucket {
        assert now == was + {key};
        assert now - {key} == was - {key};
        SumTakesOut(t'.rows, now, key);
        SumSame(t.rows, t'.rows, was - {key});
        if key in t.rows {
          SumTakesOut(t.rows, was, key);
        } else {
          assert was - {key} == was;
        }
      } else {
        assert now == was;
        SumSame(t.rows, t'.rows, was);
      }
    }
  }

  lemma AdvanceKeepsOrdered(t: Tables, t': Tables, key: RowKey, bucket: int)
    requires Ordered(t) && Advances(t, t', key, bucket)
    requires key in t.rows ==> t.rows[key].bucket == bucket
    ensures Ordered(t')
  {
    forall k | k in t'.rows
      ensures 1 <= t'.rows[k].version <= t'.rows[k].seqNo <= Counter(t'.counters, t'.rows[k].bucket, k.gvk)
    {
      assert k != key ==> k in t.rows && t'.rows[k] == t.rows[k];
    }
  }

  /** The new number is past every number of the bucket. */
  lemma AdvanceKeepsDistinct(t: Tables, t': Tables, key: RowKey, bucket: int)
    requires Ordered(t) && Distinct(t) && Advances(t, t', key, bucket)
    ensures Distinct(t')
  {
    var rows, rows' := t.rows, t'.rows;
    forall j | j in rows' && j != key ensures j in rows && rows'[j] == rows[j] {}
    forall j | j in rows' && j != key && j.gvk == key.gvk && rows'[j].bucket == bucket
      ensures rows'[j].seqNo < rows'[key].seqNo
    {
      assert rows[j].seqNo <= Counter(t.counters, bucket, key.gvk);
    }
  }

  lemma AdvanceKeepsInv(t: Tables, t': Tables, key: RowKey, bucket: int, assign: Assignment)
    requires Inv(t, assign) && Advances(t, t', key, bucket) && bucket == assign(key.namespace, key.name)
    ensures Inv(t', assign)
  {
    AdvanceConserves(t, t', key, bucket);
    AdvanceKeepsOrdered(t, t', key, bucket);
    AdvanceKeepsDistinct(t, t', key, bucket);
  }

  /** The statement's writes go to the assigned bucket. */
  ghost predicate Routed(s: Statement, assign: Assignment) {
    s.DoWrite? ==> s.request.bucket == assign(s.request.key.namespace, s.request.key.name)
  }

  lemma StatementKeepsInv(d: Db, s: Statement, assign: Assignment)
    requires Inv(d.tables, assign) && Routed(s, assign)
    ensures Inv(Execute(d, s).tables, assign)
  {
    var t, t' := d.tables, Execute(d, s).tables;
    if s.DoWrite? {
      WriteAdvances(t, s.request, d.now, s.newUid, assign);
      if t' != t {
        AdvanceKeepsInv(t, t', s.request.key, s.request.bucket, assign);
      }
    } else {
      assert t'.rows == t.rows && t'.counters == t.counters;
    }
  }

  /**
    Sequence conservation: in every run whose writes go to assigned buckets,
    the versions in a bucket of a kind sum to its counter, every row satisfies
    version <= sequence <= counter, and sequences in a bucket are distinct.
  */
  lemma {:induction false} SequenceConservation(states: seq<Db>, statements: seq<Statement>, assign: Assignment, n: nat)
    requires Run(states, statements) && n <= |statements|
    requires forall m :: 0 <= m < |statements| ==> Routed(statements[m], assign)
    ensures Inv(states[n].tables, assign)
  {
    if n > 0 {
      SequenceConservation(states, statements, assign, n - 1);
      StatementKeepsInv(states[n - 1], statements[n - 1], assign);
    }
  }

  /**
    The exact condition for one write: a changing write keeps the sums right if
    and only if it creates its row or goes to the bucket the row lives in.
  */
  lemma ConservedIffAtHome(t: Tables, q: Request, now: int, uid: string)
    requires Conserved(t)
    requires Write(t, q, now, uid).1.Written? && Write(t, q, now, uid).1.changed
    ensures Conserved(Write(t, q, now, uid).0) <==> q.key !in t.rows || t.rows[q.key].bucket == q.bucket
  {
    var t' := Write(t, q, now, uid).0;
    var gvk := q.key.gvk;
    if q.key !in t.rows || t.rows[q.key].bucket == q.bucket {
      AdvanceConserves(t, t', q.key, q.bucket);
    } else {
      var was, now' := InBucket(t.rows, gvk, q.bucket), InBucket(t'.rows, gvk, q.bucket);
      assert now' == was && q.key !in was;
      SumSame(t.rows, t'.rows, was);
      assert Sum(t.rows, was) == Counter(t.counters, q.bucket, gvk);
      assert Sum(t'.rows, now') != Counter(t'.counters, q.bucket, gvk);
    }
  }

  // ---- what a row tells ----

  /** The statement is a write to the key that changes its row. */
  ghost predicate Writes(d: Db, s: Statement, key: RowKey) {
    && s.DoWrite? && s.request.key == key
    && var reply := Write(d.tables, s.request, d.now, s.newUid).1;
       reply.Written? && reply.changed
  }

  /** The statements among the first `n` that changed the key's row, in order. */
  ghost function WritesTo(states: seq<Db>, statements: seq<Statement>, n: nat, key: RowKey): (r: seq<Statement>)
    requires n <= |statements| <= |states|
    ensures forall m :: 0 <= m < |r| ==> r[m].DoWrite? && r[m].request.key == key
  {
    if n == 0 then []
    else
      WritesTo(states, statements, n - 1, key) +
      if Writes(states[n - 1], statements[n - 1], key) then [statements[n - 1]] else []
  }

  /** The last of the writes that was for the spec. */
  ghost function LastSpec(writes: seq<Statement>): Option<Request>
    requires forall m :: 0 <= m < |writes| ==> writes[m].DoWrite?
  {
    if writes == [] then None
    else
      var q := writes[|writes| - 1].request;
      if q.domain == SpecDomain then Some(q) else LastSpec(writes[..|writes| - 1])
  }

  /** The row is what the writes to its key, in order, would leave. */
  ghost predicate Tells(rows: map<RowKey, Row>, key: RowKey, writes: seq<Statement>)
    requires forall m :: 0 <= m < |writes| ==> writes[m].DoWrite?
  {
    && (key in rows <==> writes != [])
    && (key in rows ==>
          var row := rows[key]; var spec := LastSpec(writes);
          && row.version == |writes|
          && row.uid == writes[0].newUid && row.bucket == writes[0].request.bucket
          && row.status == writes[|writes| - 1].request.status
          && spec.Some?
          && row.spec == spec.value.spec && row.metadata == spec.value.metadata && row.deletion == spec.value.deletion)
    && forall m :: 0 <= m < |writes| ==> writes[m].request.expected == m
  }

  lemma WriteTells(t: Tables, s: Statement, now: int, writes: seq<Statement>)
    requires s.DoWrite? && forall m :: 0 <= m < |writes| ==> writes[m].DoWrite?
    requires Tells(t.rows, s.request.key, writes)
    requires Write(t, s.request, now, s.newUid).1.Written? && Write(t, s.request, now, s.newUid).1.changed
    ensures Tells(Write(t, s.request, now, s.newUid).0.rows, s.request.key, writes + [s])
  {
    assert (writes + [s])[..|writes|] == writes;
  }

  /**
    In every run, whatever the routing: a row exists once its key was written;
    its version is the number of changing writes, the m-th of which expected
    version m; UID and bucket are the first one's, the status is the last
    one's, and spec, metadata and deletion are those of the last spec write.
  */
  lemma {:induction false} RowTellsItsWrites(states: seq<Db>, statements: seq<Statement>, n: nat, key: RowKey)
    requires Run(states, statements) && n <= |statements|
    ensures Tells(states[n].tables.rows, key, WritesTo(states, statements, n, key))
  {
    if n > 0 {
      RowTellsItsWrites(states, statements, n - 1, key);
      var d, s := states[n - 1], statements[n - 1];
      if Writes(d, s, key) {
        WriteTells(d.tables, s, d.now, WritesTo(states, statements, n - 1, key));
      } else {
        assert WritesTo(states, statements, n, key) == WritesTo(states, statements, n - 1, key);
      }
    }
  }
}
