/**
  The sequenced, fenced write path of the Postgres backend: leases, per-kind
  bucket counters and resource rows, each SQL statement one atomic step.
*/
module PgSpec {
  import opened Objects

  datatype Domain = SpecDomain | StatusDomain

  datatype Lease = Lease(holder: string, epoch: int, expires: int)

  type Leases = map<(int, Domain), Lease>

  datatype RowKey = RowKey(gvk: string, namespace: string, name: string)

  datatype Row = Row(
    uid: string, bucket: int, seqNo: nat, version: nat,
    spec: Json, status: Json, metadata: Json, deletion: Option<int>)

  datatype Tables = Tables(leases: Leases, counters: map<(int, string), nat>, rows: map<RowKey, Row>)

  datatype Request = Request(
    domain: Domain, key: RowKey, bucket: int, holder: string, epoch: int,
    expected: int, force: bool, spec: Json, status: Json, metadata: Json, deletion: Option<int>)

  datatype PgError = FenceViolation | StatusNeedsVersion | VersionConflict | RowExists

  datatype WriteReply =
    | Written(uid: string, version: nat, seqNo: nat, changed: bool)
    | Raised(error: PgError)

  // ---- pgctl_write ----

  predicate HoldsLease(leases: Leases, bucket: int, domain: Domain, holder: string, epoch: int, now: int) {
    && (bucket, domain) in leases
    && var l := leases[(bucket, domain)];
       l.holder == holder && l.epoch == epoch && l.expires > now
  }

  /** The write would leave the row as it is. */
  predicate Suppressed(rows: map<RowKey, Row>, q: Request) {
    && !q.force && q.key in rows
    && var row := rows[q.key];
       if q.domain == StatusDomain then row.status == q.status
       else row.spec == q.spec && row.status == q.status && row.metadata == q.metadata && row.deletion == q.deletion
  }

  function Counter(counters: map<(int, string), nat>, bucket: int, gvk: string): nat {
    if (bucket, gvk) in counters then counters[(bucket, gvk)] else 0
  }

  /** The row a changing write leaves behind, or the error it raises. */
  function NewRow(rows: map<RowKey, Row>, q: Request, seqNo: nat, newUid: string): (Option<Row>, PgError) {
    if q.domain == StatusDomain && q.expected == 0 then (None, StatusNeedsVersion)
    else if q.expected == 0 then
      if q.key in rows then (None, RowExists)
      else (Some(Row(newUid, q.bucket, seqNo, 1, q.spec, q.status, q.metadata, q.deletion)), RowExists)
    else if q.key !in rows || rows[q.key].version != q.expected then (None, VersionConflict)
    else
      var row := rows[q.key].(seqNo := seqNo, version := rows[q.key].version + 1, status := q.status);
      if q.domain == StatusDomain then (Some(row), VersionConflict)
      else (Some(row.(spec := q.spec, metadata := q.metadata, deletion := q.deletion)), VersionConflict)
  }

  function Write(t: Tables, q: Request, now: int, newUid: string): (Tables, WriteReply) {
    if !HoldsLease(t.leases, q.bucket, q.domain, q.holder, q.epoch, now) then (t, Raised(FenceViolation))
    else if Suppressed(t.rows, q) then
      (t, Written(t.rows[q.key].uid, t.rows[q.key].version, 0, false))
    else
      var seqNo := Counter(t.counters, q.bucket, q.key.gvk) + 1;
      var (row, error) := NewRow(t.rows, q, seqNo, newUid);
      if row.None? then (t, Raised(error))
      else
        (t.(counters := t.counters[(q.bucket, q.key.gvk) := seqNo], rows := t.rows[q.key := row.value]),
         Written(row.value.uid, row.value.version, seqNo, true))
  }

  // ---- leases ----

  /** The row is absent, expired or the holder's own. */
  predicate Free(leases: Leases, bucket: int, domain: Domain, holder: string, now: int) {
    (bucket, domain) in leases ==>
      leases[(bucket, domain)].expires < now || leases[(bucket, domain)].holder == holder
  }

  /** The epoch of a row, 0 when there is none. */
  function Epoch(leases: Leases, bucket: int, domain: Domain): int {
    if (bucket, domain) in leases then leases[(bucket, domain)].epoch else 0
  }

  /** One row of the acquiring upsert: the row it leaves, if it may take it. */
  function Taken(leases: Leases, bucket: int, domain: Domain, holder: string, now: int, ttl: nat): Option<Lease> {
    if !Free(leases, bucket, domain, holder, now) then None
    else Some(Lease(holder, Epoch(leases, bucket, domain) + 1, now + ttl))
  }

  function SetIf(leases: Leases, bucket: int, domain: Domain, l: Option<Lease>): Leases {
    if l.Some? then leases[(bucket, domain) := l.value] else leases
  }

  /** The acquiring statement; the count is the number of domains it returned. */
  function Acquire(leases: Leases, bucket: int, holder: string, now: int, ttl: nat): (Leases, nat) {
    var spec := Taken(leases, bucket, SpecDomain, holder, now, ttl);
    var status := Taken(leases, bucket, StatusDomain, holder, now, ttl);
    (SetIf(SetIf(leases, bucket, SpecDomain, spec), bucket, StatusDomain, status),
     (if spec.Some? then 1 else 0) + (if status.Some? then 1 else 0))
  }

  /** The row is in the bucket and the holder's. */
  predicate Owns(leases: Leases, row: (int, Domain), bucket: int, holder: string) {
    row in leases && row.0 == bucket && leases[row].holder == holder
  }

  function Renew(leases: Leases, bucket: int, holder: string, now: int, ttl: nat): Leases {
    map row | row in leases ::
      if Owns(leases, row, bucket, holder) then leases[row].(expires := now + ttl) else leases[row]
  }

  /** Release, and the clean-up after a partial acquire: the holder's own rows go. */
  function Release(leases: Leases, bucket: int, holder: string): Leases {
    map row | row in leases && !Owns(leases, row, bucket, holder) :: leases[row]
  }

  // ---- runs ----

  /** The database: its tables and its clock, which never goes back. */
  datatype Db = Db(tables: Tables, now: int)

  datatype Statement =
    | DoWrite(request: Request, newUid: string)
    | DoAcquire(bucket: int, holder: string, ttl: nat)
    | DoRenew(bucket: int, holder: string, ttl: nat)
    | DoRelease(bucket: int, holder: string)
    | Tick(elapsed: nat)

  function Execute(d: Db, s: Statement): Db {
    var t := d.tables;
    match s
    case DoWrite(q, uid) => d.(tables := Write(t, q, d.now, uid).0)
    case DoAcquire(b, h, ttl) => d.(tables := t.(leases := Acquire(t.leases, b, h, d.now, ttl).0))
    case DoRenew(b, h, ttl) => d.(tables := t.(leases := Renew(t.leases, b, h, d.now, ttl)))
    case DoRelease(b, h) => d.(tables := t.(leases := Release(t.leases, b, h)))
    case Tick(n) => d.(now := d.now + n)
  }

  ghost predicate Run(states: seq<Db>, statements: seq<Statement>) {
    && |states| == |statements| + 1
    && states[0].tables == Tables(map[], map[], map[])
    && forall n :: 0 <= n < |statements| ==> states[n + 1] == Execute(states[n], statements[n])
  }
}

/** The tables as the stored procedure updates them: step by step, with rollback on raise. */
module PgTables {
  import opened Objects
  import opened PgSpec

  class Database {
    var leases: Leases
    var counters: map<(int, string), nat>
    var rows: map<RowKey, Row>

    ghost function State(): Tables
      reads this
    {
      Tables(leases, counters, rows)
    }

    constructor ()
      ensures State() == Tables(map[], map[], map[])
    {
      leases, counters, rows := map[], map[], map[];
    }

    method PgctlWrite(q: Request, now: int, newUid: string) returns (reply: WriteReply)
      modifies this
      ensures (State(), reply) == Write(old(State()), q, now, newUid)
    {
      var savedCounters, savedRows := counters, rows;
      if !HoldsLease(leases, q.bucket, q.domain, q.holder, q.epoch, now) {
        return Raised(FenceViolation);
      }
      if !q.force && q.key in rows {
        var existing := rows[q.key];
        if q.domain == StatusDomain {
          if existing.status == q.status {
            return Written(existing.uid, existing.version, 0, false);
          }
        } else if existing.spec == q.spec && existing.status == q.status
               && existing.metadata == q.metadata && existing.deletion == q.deletion {
          return Written(existing.uid, existing.version, 0, false);
        }
      }
      var counter := (q.bucket, q.key.gvk);
      if counter in counters {
        counters := counters[counter := counters[counter] + 1];
      } else {
        counters := counters[counter := 1];
      }
      var seqNo := counters[counter];
      var raised: Option<PgError> := None;
      if q.domain == StatusDomain {
        if q.expected == 0 {
          raised := Some(StatusNeedsVersion);
        } else if q.key in rows && rows[q.key].version == q.expected {
          var row := rows[q.key];
          rows := rows[q.key := row.(seqNo := seqNo, version := row.version + 1, status := q.status)];
        } else {
          raised := Some(VersionConflict);
        }
      } else if q.expected == 0 {
        if q.key in rows {
          raised := Some(RowExists);
        } else {
          rows := rows[q.key := Row(newUid, q.bucket, seqNo, 1, q.spec, q.status, q.metadata, q.deletion)];
        }
      } else if q.key in rows && rows[q.key].version == q.expected {
        var row := rows[q.key];
        rows := rows[q.key := Row(row.uid, row.bucket, seqNo, row.version + 1,
                                  q.spec, q.status, q.metadata, q.deletion)];
      } else {
        raised := Some(VersionConflict);
      }
      if raised.Some? {
        counters, rows := savedCounters, savedRows;
        return Raised(raised.value);
      }
      return Written(rows[q.key].uid, rows[q.key].version, seqNo, true);
    }

    /** One row of the acquiring upsert; None when another holder's live row is left alone. */
    method UpsertLease(bucket: int, domain: Domain, holder: string, now: int, ttl: nat) returns (epoch: Option<int>)
      modifies `leases
      ensures leases == SetIf(old(leases), bucket, domain, Taken(old(leases), bucket, domain, holder, now, ttl))
      ensures epoch ==
        if Free(old(leases), bucket, domain, holder, now) then Some(Epoch(leases, bucket, domain)) else None
    {
      var row := (bucket, domain);
      if row !in leases {
        leases := leases[row := Lease(holder, 1, now + ttl)];
        return Some(1);
      }
      if leases[row].expires < now || leases[row].holder == holder {
        leases := leases[row := Lease(holder, leases[row].epoch + 1, now + ttl)];
        return Some(leases[row].epoch);
      }
      return None;
    }

    ghost predicate Holds(bucket: int, domain: Domain, lease: Lease)
      reads `leases
    {
      (bucket, domain) in leases && leases[(bucket, domain)] == lease
    }

    /** The row is gone if the holder could have taken it, and otherwise another's, as it was. */
    ghost predicate GivenUp(was: Leases, bucket: int, domain: Domain, holder: string, now: int)
      reads `leases
    {
      if Free(was, bucket, domain, holder, now) then (bucket, domain) !in leases
      else Holds(bucket, domain, was[(bucket, domain)]) && was[(bucket, domain)].holder != holder
    }

    /** The delete on one row. */
    method DeleteIfOwned(bucket: int, domain: Domain, holder: string)
      modifies `leases
      ensures leases == if Owns(old(leases), (bucket, domain), bucket, holder)
                        then old(leases) - {(bucket, domain)} else old(leases)
    {
      if (bucket, domain) in leases && leases[(bucket, domain)].holder == holder {
        leases := leases - {(bucket, domain)};
      }
    }

    /** The holder's rows of the bucket go; every other row stays as it was. */
    method ReleaseBothLeases(bucket: int, holder: string)
      modifies `leases
      ensures forall row :: row in leases <==> row in old(leases) && !Owns(old(leases), row, bucket, holder)
      ensures forall row :: row in leases ==> leases[row] == old(leases)[row]
      ensures leases == Release(old(leases), bucket, holder)
    {
      DeleteIfOwned(bucket, SpecDomain, holder);
      DeleteIfOwned(bucket, StatusDomain, holder);
      forall row: (int, Domain) ensures row.1 == SpecDomain || row.1 == StatusDomain {}
    }

    /**
      Succeeds exactly when both rows are absent, expired or the holder's own.
      Then both are the holder's, one epoch up; otherwise the rows it could have
      taken are gone, the others are as they were, and it holds nothing.
    */
    method AcquireBothLeases(bucket: int, holder: string, now: int, ttl: nat) returns (epochs: Option<(int, int)>)
      modifies `leases
      ensures epochs.Some? <==>
        Free(old(leases), bucket, SpecDomain, holder, now) && Free(old(leases), bucket, StatusDomain, holder, now)
      ensures epochs.Some? ==>
        && epochs == Some((Epoch(leases, bucket, SpecDomain), Epoch(leases, bucket, StatusDomain)))
        && Holds(bucket, SpecDomain, Lease(holder, Epoch(old(leases), bucket, SpecDomain) + 1, now + ttl))
        && Holds(bucket, StatusDomain, Lease(holder, Epoch(old(leases), bucket, StatusDomain) + 1, now + ttl))
      ensures epochs.None? ==>
        && GivenUp(old(leases), bucket, SpecDomain, holder, now)
        && GivenUp(old(leases), bucket, StatusDomain, holder, now)
      ensures forall row: (int, Domain) :: row.0 != bucket ==>
        && (row in leases <==> row in old(leases))
        && (row in leases ==> leases[row] == old(leases)[row])
      ensures var (taken, _) := Acquire(old(leases), bucket, holder, now, ttl);
        leases == if epochs.Some? then taken else Release(taken, bucket, holder)
    {
      var spec := UpsertLease(bucket, SpecDomain, holder, now, ttl);
      var status := UpsertLease(bucket, StatusDomain, holder, now, ttl);
      if spec.None? || status.None? {
        ReleaseBothLeases(bucket, holder);
        return None;
      }
      return Some((spec.value, status.value));
    }

    /** The update of one row, with the number of rows affected. */
    method ExtendIfOwned(bucket: int, domain: Domain, holder: string, expires: int) returns (affected: nat)
      modifies `leases
      ensures var owned := Owns(old(leases), (bucket, domain), bucket, holder);
        && affected == (if owned then 1 else 0)
        && leases == if owned
             then old(leases)[(bucket, domain) := old(leases)[(bucket, domain)].(expires := expires)]
             else old(leases)
    {
      if (bucket, domain) in leases && leases[(bucket, domain)].holder == holder {
        leases := leases[(bucket, domain) := leases[(bucket, domain)].(expires := expires)];
        return 1;
      }
      return 0;
    }

    /** Extend the holder's rows; it worked only if that was both of them. */
    method RenewBothLeases(bucket: int, holder: string, now: int, ttl: nat) returns (ok: bool)
      modifies `leases
      ensures leases.Keys == old(leases).Keys
      ensures forall row :: Owns(old(leases), row, bucket, holder) ==>
        row in leases && leases[row] == old(leases)[row].(expires := now + ttl)
      ensures forall row :: row in leases && !Owns(old(leases), row, bucket, holder) ==> leases[row] == old(leases)[row]
      ensures leases == Renew(old(leases), bucket, holder, now, ttl)
      ensures ok <==>
        && Owns(old(leases), (bucket, SpecDomain), bucket, holder)
        && Owns(old(leases), (bucket, StatusDomain), bucket, holder)
    {
      var spec := ExtendIfOwned(bucket, SpecDomain, holder, now + ttl);
      var status := ExtendIfOwned(bucket, StatusDomain, holder, now + ttl);
      forall row: (int, Domain) ensures row.1 == SpecDomain || row.1 == StatusDomain {}
      ok := spec + status == 2;
    }
  }
}
