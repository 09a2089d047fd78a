/** The bounded event log both stores keep: the end of a history that is never trimmed. */
module EventLog {
  import opened Objects
  import opened History
  import opened StoreSpec

  /** `log` is the last entries of `history`, whose revisions count from 1. */
  ghost predicate IsEndOf(log: seq<Entry>, history: seq<Entry>) {
    && |log| <= |history|
    && log == history[|history| - |log|..]
    && forall i :: 0 <= i < |history| ==> history[i].revision == i + 1
  }

  /** Appending and dropping what exceeds the maximum leaves the end of the longer history. */
  method Append(log: seq<Entry>, max: nat, entry: Entry, ghost history: seq<Entry>) returns (longer: seq<Entry>)
    requires IsEndOf(log, history) && entry.revision == |history| + 1
    ensures IsEndOf(longer, history + [entry])
    ensures |longer| == Min(|log| + 1, max)
  {
    longer := log + [entry];
    if |longer| > max {
      var excess := |longer| - max;
      longer := longer[excess..];
    }
  }

  /** Scanning what is left of the log answers as the full history would. */
  method EventsSince(revision: int, log: seq<Entry>, fromRevision: int, gvk: GVK, ghost history: seq<Entry>)
    returns (r: Replay)
    requires IsEndOf(log, history) && revision == |history|
    ensures r == EventsAfter(history, |log|, fromRevision, gvk)
  {
    if fromRevision >= revision {
      return Events([]);
    }
    if |log| == 0 {
      return RevisionTooOld(fromRevision, revision + 1);
    }
    var oldest := log[0].revision;
    if fromRevision + 1 < oldest {
      return RevisionTooOld(fromRevision, oldest);
    }
    ghost var skip := fromRevision - (|history| - |log|);
    var events: seq<Event> := [];
    for n := 0 to |log|
      invariant n <= skip ==> events == []
      invariant n >= skip ==> events == KindEvents(log[skip..n], gvk)
    {
      var entry := log[n];
      assert entry == history[|history| - |log| + n];
      if n >= skip {
        KindEventsSnoc(log, skip, n, gvk);
      }
      if entry.revision > fromRevision && entry.gvk == gvk {
        events := events + [entry.event];
      }
    }
    assert log[skip..|log|] == history[fromRevision..];
    return Events(events);
  }
}
