/** Lease safety over runs: who may write a bucket, and how that changes hands. */
module PgLeases {
  import opened Objects
  import opened PgSpec

  /** The spec and status rows of a bucket are both absent or the same lease. */
  ghost predicate Paired(leases: Leases, b: int) {
    && ((b, SpecDomain) in leases <==> (b, StatusDomain) in leases)
    && ((b, SpecDomain) in leases ==> leases[(b, SpecDomain)] == leases[(b, StatusDomain)])
  }

  ghost predicate AllPaired(leases: Leases) { forall b :: Paired(leases, b) }

  /** The lease on a bucket, if any. */
  function LeaseOf(leases: Leases, b: int): Option<Lease> {
    if (b, SpecDomain) in leases then Some(leases[(b, SpecDomain)]) else None
  }

  function HolderOf(d: Db, b: int): Option<string> {
    var l := LeaseOf(d.tables.leases, b);
    if l.Some? then Some(l.value.holder) else None
  }

  /** An acquire takes both domains or neither, and says so in its count. */
  lemma AcquireIsAllOrNothing(leases: Leases, b: int, h: string, now: int, ttl: nat)
    requires AllPaired(leases)
    ensures var (leases', count) := Acquire(leases, b, h, now, ttl);
      var free := Free(leases, b, SpecDomain, h, now);
      && AllPaired(leases')
      && (count == 2 <==> free) && (count == 0 <==> !free)
      && (free ==> LeaseOf(leases', b) == Some(Lease(h, Epoch(leases, b, SpecDomain) + 1, now + ttl)))
      && (!free ==> leases' == leases)
      && (forall c :: c != b ==> LeaseOf(leases', c) == LeaseOf(leases, c))
  {
    var (leases', count) := Acquire(leases, b, h, now, ttl);
    assert Paired(leases, b);
    forall c ensures Paired(leases', c) {
      assert Paired(leases, c);
    }
  }

  lemma StatementKeepsPaired(d: Db, s: Statement)
    requires AllPaired(d.tables.leases)
    ensures AllPaired(Execute(d, s).tables.leases)
  {
    var leases, leases' := d.tables.leases, Execute(d, s).tables.leases;
    match s
    case DoAcquire(b, h, ttl) => AcquireIsAllOrNothing(leases, b, h, d.now, ttl);
    case _ =>
      forall c ensures Paired(leases', c) {
        assert Paired(leases, c);
      }
  }

  /** Both rows of every bucket agree in every reachable state. */
  lemma {:induction false} RunKeepsPaired(states: seq<Db>, statements: seq<Statement>, n: nat)
    requires Run(states, statements) && n <= |statements|
    ensures AllPaired(states[n].tables.leases)
  {
    if n > 0 {
      RunKeepsPaired(states, statements, n - 1);
      StatementKeepsPaired(states[n - 1], statements[n - 1]);
    }
  }

  /** The holder gives its lease up itself, or someone takes it after it expired. */
  ghost predicate Loses(d: Db, s: Statement, b: int, h: string) {
    || s == DoRelease(b, h)
    || (&& s.DoAcquire? && s.bucket == b && s.holder != h
        && LeaseOf(d.tables.leases, b).Some?
        && LeaseOf(d.tables.leases, b).value.holder == h
        && LeaseOf(d.tables.leases, b).value.expires < d.now)
  }

  /** The holder runs an acquire that returns both domains. */
  ghost predicate Gains(d: Db, s: Statement, b: int, h: string) {
    && s.DoAcquire? && s.bucket == b && s.holder == h
    && Acquire(d.tables.leases, b, h, d.now, s.ttl).1 == 2
  }

  /** The holder of a bucket changes only by losing and gaining. */
  lemma HolderChanges(d: Db, s: Statement, b: int, h: string)
    requires AllPaired(d.tables.leases)
    ensures HolderOf(d, b) == Some(h) && HolderOf(Execute(d, s), b) != Some(h) ==> Loses(d, s, b, h)
    ensures HolderOf(d, b) != Some(h) && HolderOf(Execute(d, s), b) == Some(h) ==> Gains(d, s, b, h)
  {
    assert Paired(d.tables.leases, b);
    if s.DoAcquire? {
      AcquireIsAllOrNothing(d.tables.leases, s.bucket, s.holder, d.now, s.ttl);
    }
  }

  /** Somewhere between holding and not holding, the lease was lost. */
  lemma {:induction false} FindLoss(states: seq<Db>, statements: seq<Statement>, b: int, h: string, i: nat, j: nat)
    returns (k: nat)
    requires Run(states, statements) && i <= j <= |statements|
    requires HolderOf(states[i], b) == Some(h) && HolderOf(states[j], b) != Some(h)
    ensures i <= k < j && Loses(states[k], statements[k], b, h) && HolderOf(states[k], b) == Some(h)
    decreases j
  {
    if HolderOf(states[j - 1], b) == Some(h) {
      k := j - 1;
      RunKeepsPaired(states, statements, k);
      HolderChanges(states[k], statements[k], b, h);
    } else {
      k := FindLoss(states, statements, b, h, i, j - 1);
    }
  }

  /** Somewhere between not holding and holding, the lease was gained. */
  lemma {:induction false} FindGain(states: seq<Db>, statements: seq<Statement>, b: int, h: string, i: nat, j: nat)
    returns (k: nat)
    requires Run(states, statements) && i <= j <= |statements|
    requires HolderOf(states[i], b) != Some(h) && HolderOf(states[j], b) == Some(h)
    ensures i <= k < j && Gains(states[k], statements[k], b, h)
    decreases j
  {
    if HolderOf(states[j - 1], b) != Some(h) {
      k := j - 1;
      RunKeepsPaired(states, statements, k);
      HolderChanges(states[k], statements[k], b, h);
    } else {
      k := FindGain(states, statements, b, h, i, j - 1);
    }
  }

  /** The statement is a write by the holder to the bucket that passes the fence. */
  ghost predicate AcceptedWrite(d: Db, s: Statement, b: int, h: string) {
    && s.DoWrite? && s.request.bucket == b && s.request.holder == h
    && Write(d.tables, s.request, d.now, s.newUid).1 != Raised(FenceViolation)
  }

  lemma WriterHolds(d: Db, s: Statement, b: int, h: string)
    requires AllPaired(d.tables.leases) && AcceptedWrite(d, s, b, h)
    ensures HolderOf(d, b) == Some(h) && LeaseOf(d.tables.leases, b).value.expires > d.now
  {
    assert Paired(d.tables.leases, b);
    assert HoldsLease(d.tables.leases, b, s.request.domain, h, s.request.epoch, d.now);
  }

  /**
    Lease safety: between two accepted writes to a bucket by different holders,
    the first holder's lease expired and was taken or the first holder deleted
    it, and after that the second holder acquired both domains.
  */
  lemma HandoverBetweenWriters(
      states: seq<Db>, statements: seq<Statement>, b: int, first: string, second: string, i: nat, j: nat)
    requires Run(states, statements) && i < j < |statements| && first != second
    requires AcceptedWrite(states[i], statements[i], b, first)
    requires AcceptedWrite(states[j], statements[j], b, second)
    ensures exists lost: nat, gained: nat ::
      && i < lost <= gained < j
      && HolderOf(states[lost], b) == Some(first)
      && Loses(states[lost], statements[lost], b, first)
      && Gains(states[gained], statements[gained], b, second)
  {
    RunKeepsPaired(states, statements, i);
    RunKeepsPaired(states, statements, j);
    WriterHolds(states[i], statements[i], b, first);
    WriterHolds(states[j], statements[j], b, second);
    var lost := FindLoss(states, statements, b, first, i, j);
    var gained := FindGain(states, statements, b, second, lost, j);
    assert lost != i;
  }

  /** Renewing moves the expiry of the holder's lease, and of no other lease. */
  lemma RenewExtends(d: Db, b: int, h: string, ttl: nat, c: int)
    requires AllPaired(d.tables.leases)
    ensures var was := LeaseOf(d.tables.leases, c);
      LeaseOf(Execute(d, DoRenew(b, h, ttl)).tables.leases, c) ==
        if c == b && HolderOf(d, b) == Some(h) then Some(was.value.(expires := d.now + ttl)) else was
  {
  }

  // ---- epochs over runs ----

  /** The holder deletes its own lease: the only way a bucket's rows go away. */
  ghost predicate Releases(d: Db, s: Statement, b: int) {
    HolderOf(d, b).Some? && s == DoRelease(b, HolderOf(d, b).value)
  }

  lemma StatementKeepsEpoch(d: Db, s: Statement, b: int)
    requires AllPaired(d.tables.leases) && LeaseOf(d.tables.leases, b).Some? && !Releases(d, s, b)
    ensures LeaseOf(Execute(d, s).tables.leases, b).Some?
    ensures Epoch(d.tables.leases, b, SpecDomain) <= Epoch(Execute(d, s).tables.leases, b, SpecDomain)
  {
    if s.DoAcquire? {
      AcquireIsAllOrNothing(d.tables.leases, s.bucket, s.holder, d.now, s.ttl);
    }
  }

  /** While nobody releases the bucket its epoch never goes down. */
  lemma {:induction false} EpochNeverDrops(states: seq<Db>, statements: seq<Statement>, b: int, i: nat, j: nat)
    requires Run(states, statements) && i <= j <= |statements| && LeaseOf(states[i].tables.leases, b).Some?
    requires forall k :: i <= k < j ==> !Releases(states[k], statements[k], b)
    ensures LeaseOf(states[j].tables.leases, b).Some?
    ensures Epoch(states[i].tables.leases, b, SpecDomain) <= Epoch(states[j].tables.leases, b, SpecDomain)
    decreases j
  {
    if i < j {
      EpochNeverDrops(states, statements, b, i, j - 1);
      RunKeepsPaired(states, statements, j - 1);
      StatementKeepsEpoch(states[j - 1], statements[j - 1], b);
    }
  }

  /**
    An acquire, by the same holder included, fences off every request of the
    previous epoch or an older one for as long as nobody releases the bucket:
    in every run, if such a request passes later, a release came in between.
  */
  lemma FencedUntilReleased(
      states: seq<Db>, statements: seq<Statement>, b: int, h: string, i: nat, j: nat, q: Request, uid: string)
    requires Run(states, statements) && i < j <= |statements|
    requires LeaseOf(states[i].tables.leases, b).Some? && Gains(states[i], statements[i], b, h)
    requires q.bucket == b && q.epoch <= Epoch(states[i].tables.leases, b, SpecDomain)
    requires Write(states[j].tables, q, states[j].now, uid).1 != Raised(FenceViolation)
    ensures exists k :: i < k < j && Releases(states[k], statements[k], b)
  {
    RunKeepsPaired(states, statements, i);
    RunKeepsPaired(states, statements, j);
    AcquireIsAllOrNothing(states[i].tables.leases, b, h, states[i].now, statements[i].ttl);
    assert Paired(states[j].tables.leases, b);
    if forall k :: i < k < j ==> !Releases(states[k], statements[k], b) {
      EpochNeverDrops(states, statements, b, i + 1, j);
    }
  }

  /** The database after a sequence of statements. */
  function After(d: Db, statements: seq<Statement>): Db {
    if statements == [] then d
    else Execute(After(d, statements[..|statements| - 1]), statements[|statements| - 1])
  }

  function Acquires(b: int, h: string, ttl: nat, n: nat): seq<Statement> { seq(n, _ => DoAcquire(b, h, ttl)) }

  /** A free bucket acquired `n` times in a row is at epoch `n`. */
  lemma {:induction false} EpochCountsAcquires(d: Db, b: int, h: string, ttl: nat, n: nat)
    requires AllPaired(d.tables.leases) && LeaseOf(d.tables.leases, b).None?
    ensures var d' := After(d, Acquires(b, h, ttl, n));
      && AllPaired(d'.tables.leases) && d'.now == d.now
      && LeaseOf(d'.tables.leases, b) == if n == 0 then None else Some(Lease(h, n, d.now + ttl))
  {
    if n > 0 {
      assert Acquires(b, h, ttl, n)[..n - 1] == Acquires(b, h, ttl, n - 1);
      EpochCountsAcquires(d, b, h, ttl, n - 1);
      AcquireIsAllOrNothing(After(d, Acquires(b, h, ttl, n - 1)).tables.leases, b, h, d.now, ttl);
    }
  }

  /**
    A release is enough to bring any epoch back: from every state in which the
    holder has the bucket, releasing it and acquiring it `q.epoch` times lets a
    request through the fence, whether or not it had been fenced off before.
  */
  lemma ReleaseRevivesEpoch(d: Db, b: int, h: string, ttl: nat, q: Request, uid: string)
    requires AllPaired(d.tables.leases) && HolderOf(d, b) == Some(h) && ttl > 0
    requires q.bucket == b && q.holder == h && q.epoch > 0
    ensures Releases(d, DoRelease(b, h), b)
    ensures var d' := After(Execute(d, DoRelease(b, h)), Acquires(b, h, ttl, q.epoch));
      Write(d'.tables, q, d'.now, uid).1 != Raised(FenceViolation)
  {
    StatementKeepsPaired(d, DoRelease(b, h));
    assert Paired(d.tables.leases, b);
    var d0 := Execute(d, DoRelease(b, h));
    EpochCountsAcquires(d0, b, h, ttl, q.epoch);
    var d' := After(d0, Acquires(b, h, ttl, q.epoch));
    assert Paired(d'.tables.leases, b);
    assert q.domain == SpecDomain || q.domain == StatusDomain;
  }

  /** Never two fences at once: whoever passes at one moment is one holder with one epoch. */
  lemma OneWriterAtATime(d: Db, q: Request, r: Request, uid: string)
    requires AllPaired(d.tables.leases) && q.bucket == r.bucket
    requires Write(d.tables, q, d.now, uid).1 != Raised(FenceViolation)
    requires Write(d.tables, r, d.now, uid).1 != Raised(FenceViolation)
    ensures q.holder == r.holder && q.epoch == r.epoch
  {
    assert Paired(d.tables.leases, q.bucket);
  }
}
