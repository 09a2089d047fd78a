/**
  Stale, duplicated and reordered Added/Modified events: the version guard
  makes the cache depend only on which objects arrived, not on when.
*/
module Confluence {
  import opened Objects
  import opened QueueSpec
  import opened InformerSpec
  import opened InformerProofs
  import QueueProofs

  /** The cache after a sequence of events. */
  function After(c: Config, cache: Snapshot, es: seq<Event>): Snapshot {
    if es == [] then cache
    else OnEvent(c, After(c, cache, es[..|es| - 1]), es[|es| - 1]).cache
  }

  /** Added or Modified, and let in by the filter. */
  ghost predicate Arrivals(c: Config, es: seq<Event>) {
    forall n :: 0 <= n < |es| ==> (es[n].kind == Added || es[n].kind == Modified) && Matches(c, es[n].obj)
  }

  /** The object `o` is one of the candidates for key `k`. */
  ghost predicate Candidate(c: Config, cache: Snapshot, es: seq<Event>, k: Key, o: Object) {
    (k in cache && cache[k] == o) || exists n :: 0 <= n < |es| && es[n].obj.key == k && Transformed(c, es[n].obj) == o
  }

  /** No two candidates for a key have the same version. */
  ghost predicate OnePerVersion(c: Config, cache: Snapshot, es: seq<Event>) {
    forall k, o, p :: Candidate(c, cache, es, k, o) && Candidate(c, cache, es, k, p) && o.rv == p.rv ==> o == p
  }

  /** One arrival replaces the cached object of its key unless that is as new. */
  lemma OneArrival(c: Config, cache: Snapshot, e: Event)
    requires Faithful(c) && (e.kind == Added || e.kind == Modified) && Matches(c, e.obj)
    ensures var t := Transformed(c, e.obj);
      OnEvent(c, cache, e).cache ==
        if t.key in cache && t.rv <= cache[t.key].rv then cache else cache[t.key := t]
  {
  }

  lemma CandidateMore(c: Config, cache: Snapshot, es: seq<Event>, k: Key, o: Object)
    requires es != []
    ensures var last := es[|es| - 1].obj;
      Candidate(c, cache, es, k, o) <==>
        Candidate(c, cache, es[..|es| - 1], k, o) || (last.key == k && Transformed(c, last) == o)
  {
    var n := |es| - 1;
    if Candidate(c, cache, es, k, o) && !(k in cache && cache[k] == o) {
      var m :| 0 <= m < |es| && es[m].obj.key == k && Transformed(c, es[m].obj) == o;
      assert m < n ==> es[..n][m] == es[m];
    }
    if exists m :: 0 <= m < n && es[..n][m].obj.key == k && Transformed(c, es[..n][m].obj) == o {
      var m :| 0 <= m < n && es[..n][m].obj.key == k && Transformed(c, es[..n][m].obj) == o;
      assert es[m].obj.key == k;
    }
  }

  /**
    Each key ends with a candidate of the greatest version there was for it; a
    key is cached exactly when it had a candidate.
  */
  lemma {:induction false} KeepsNewest(c: Config, cache: Snapshot, es: seq<Event>, k: Key)
    requires Faithful(c) && Arrivals(c, es) && Keyed(cache)
    ensures k in After(c, cache, es) <==> exists o :: Candidate(c, cache, es, k, o)
    ensures k in After(c, cache, es) ==>
      var kept := After(c, cache, es)[k];
      Candidate(c, cache, es, k, kept) && forall o :: Candidate(c, cache, es, k, o) ==> o.rv <= kept.rv
  {
    if es == [] {
      assert k in cache ==> Candidate(c, cache, es, k, cache[k]);
    } else {
      var n := |es| - 1;
      KeepsNewest(c, cache, es[..n], k);
      forall o ensures Candidate(c, cache, es, k, o) <==>
        Candidate(c, cache, es[..n], k, o) || (es[n].obj.key == k && Transformed(c, es[n].obj) == o)
      {
        CandidateMore(c, cache, es, k, o);
      }
      OneArrival(c, After(c, cache, es[..n]), es[n]);
      if es[n].obj.key == k {
        assert Candidate(c, cache, es, k, Transformed(c, es[n].obj));
      }
    }
  }

  lemma ArrivalNeverGoesBack(c: Config, cache: Snapshot, e: Event, k: Key)
    requires Faithful(c) && (e.kind == Added || e.kind == Modified) && Matches(c, e.obj) && k in cache
    ensures k in OnEvent(c, cache, e).cache && cache[k].rv <= OnEvent(c, cache, e).cache[k].rv
  {
    OneArrival(c, cache, e);
  }

  /** A cached version never goes back, whatever arrives. */
  lemma {:induction false} NeverGoesBack(c: Config, cache: Snapshot, es: seq<Event>, n: nat, k: Key)
    requires Faithful(c) && Arrivals(c, es) && n <= |es| && k in After(c, cache, es[..n])
    ensures k in After(c, cache, es) && After(c, cache, es[..n])[k].rv <= After(c, cache, es)[k].rv
  {
    if n == |es| {
      assert es[..n] == es;
    } else {
      var m := |es| - 1;
      assert es[..m][..n] == es[..n];
      NeverGoesBack(c, cache, es[..m], n, k);
      ArrivalNeverGoesBack(c, After(c, cache, es[..m]), es[m], k);
    }
  }

  /**
    Two event sequences offering the same candidates, with one object per
    version, leave the same cache.
  */
  lemma SameCandidatesSameCache(c: Config, cache: Snapshot, es: seq<Event>, fs: seq<Event>)
    requires Faithful(c) && Arrivals(c, es) && Arrivals(c, fs) && Keyed(cache)
    requires forall k, o :: Candidate(c, cache, es, k, o) <==> Candidate(c, cache, fs, k, o)
    requires OnePerVersion(c, cache, es)
    ensures After(c, cache, es) == After(c, cache, fs)
  {
    var a, b := After(c, cache, es), After(c, cache, fs);
    forall k ensures Lookup(a, k) == Lookup(b, k) {
      KeepsNewest(c, cache, es, k);
      KeepsNewest(c, cache, fs, k);
    }
    QueueProofs.SameLookups(a, b);
  }

  lemma CandidateAmong(c: Config, cache: Snapshot, es: seq<Event>, fs: seq<Event>, k: Key, o: Object)
    requires (forall e :: e in es <==> e in fs) && Candidate(c, cache, es, k, o)
    ensures Candidate(c, cache, fs, k, o)
  {
    if !(k in cache && cache[k] == o) {
      var n :| 0 <= n < |es| && es[n].obj.key == k && Transformed(c, es[n].obj) == o;
      assert es[n] in es;
      var m :| 0 <= m < |fs| && fs[m] == es[n];
    }
  }

  /**
    Confluence: any reordering and duplication of the same arrivals, with one
    object per version, leaves the same cache.
  */
  lemma SameArrivalsSameCache(c: Config, cache: Snapshot, es: seq<Event>, fs: seq<Event>)
    requires Faithful(c) && Arrivals(c, es) && Keyed(cache) && OnePerVersion(c, cache, es)
    requires forall e :: e in es <==> e in fs
    ensures After(c, cache, es) == After(c, cache, fs)
  {
    forall n | 0 <= n < |fs| ensures (fs[n].kind == Added || fs[n].kind == Modified) && Matches(c, fs[n].obj) {
      assert fs[n] in es;
    }
    forall k, o ensures Candidate(c, cache, es, k, o) <==> Candidate(c, cache, fs, k, o) {
      if Candidate(c, cache, es, k, o) {
        CandidateAmong(c, cache, es, fs, k, o);
      }
      if Candidate(c, cache, fs, k, o) {
        CandidateAmong(c, cache, fs, es, k, o);
      }
    }
    SameCandidatesSameCache(c, cache, es, fs);
  }

  /**
    The handler side does not share that tolerance: an Added event that
    replaces an older cached object is reported as an add, so it is legal for
    a handler in step with the cache exactly when the key was not cached.
  */
  lemma ReplacingAddIsIllegal(c: Config, cache: Snapshot, o: Object)
    requires Faithful(c) && Matches(c, o)
    ensures var eff := OnAdded(c, cache, o);
      LegalAll(cache, eff.events) <==> o.key !in cache || o.rv <= cache[o.key].rv
  {
    var eff := OnAdded(c, cache, o);
    if eff.events != [] {
      assert eff.events[1..] == [];
    }
  }
}
