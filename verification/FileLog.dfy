/**
  The file store's event log and revision counter across restarts: the log is
  lost, the counter is reloaded from disk. Every file write succeeds here.
*/
module FileLog {
  import opened Objects
  import opened History
  import opened Numbers
  import EventLog
  import Spec = StoreSpec

  /** `unicode.IsSpace`: the characters `strings.TrimSpace` trims. */
  predicate IsSpace(c: char) {
    || c == ' ' || '\t' <= c <= '\r' || c == '\U{85}' || c == '\U{A0}' || c == '\U{1680}'
    || '\U{2000}' <= c <= '\U{200A}' || c == '\U{2028}' || c == '\U{2029}'
    || c == '\U{202F}' || c == '\U{205F}' || c == '\U{3000}'
  }

  function TrimSpace(s: string): string
    decreases |s|
  {
    if s != "" && IsSpace(s[0]) then TrimSpace(s[1..])
    else if s != "" && IsSpace(s[|s| - 1]) then TrimSpace(s[..|s| - 1])
    else s
  }

  /** Trimming takes off the white space at both ends, and nothing else. */
  lemma {:induction false} TrimSpaceExact(a: string, s: string, b: string)
    requires forall i :: 0 <= i < |a| ==> IsSpace(a[i])
    requires forall i :: 0 <= i < |b| ==> IsSpace(b[i])
    requires s != "" ==> !IsSpace(s[0]) && !IsSpace(s[|s| - 1])
    ensures TrimSpace(a + s + b) == s
    decreases |a| + |b|
  {
    var t := a + s + b;
    if a != "" {
      assert t[0] == a[0] && t[1..] == a[1..] + s + b;
      TrimSpaceExact(a[1..], s, b);
    } else if b != "" && s == "" {
      assert t[0] == b[0] && t[1..] == a + s + b[1..];
      TrimSpaceExact(a, s, b[1..]);
    } else if b != "" {
      var n := |b| - 1;
      assert t[0] == s[0] && t[|t| - 1] == b[n] && t[..|t| - 1] == a + s + b[..n];
      TrimSpaceExact(a, s, b[..n]);
    } else {
      assert t == s;
    }
  }

  /** A printed number has no spaces to trim. */
  lemma FormattedIsTrimmed(n: nat)
    ensures TrimSpace(FormatInt(n)) == FormatInt(n)
  {
    var s := FormatInt(n);
    assert IsDigit(s[0]) && IsDigit(s[|s| - 1]);
  }

  class FileStore {
    var revision: int
    var eventLog: seq<Entry>
    const eventLogMax: nat
    /** The `.revision` file: what survives the process. */
    var revisionFile: Option<string>
    /** Everything ever logged, over all restarts. */
    ghost var history: seq<Entry>

    /** The log is the end of the history, and the disk knows the revision. */
    ghost predicate Valid()
      reads this
    {
      && revision == |history| <= INT64_MAX
      && EventLog.IsEndOf(eventLog, history)
      && revisionFile == if history == [] then None else Some(FormatInt(revision))
    }

    constructor (eventLogMax: nat)
      ensures Valid() && history == [] && eventLog == [] && this.eventLogMax == eventLogMax
    {
      this.eventLogMax := eventLogMax;
      revision, eventLog, revisionFile, history := 0, [], None, [];
    }

    /** A missing or unreadable file leaves the counter where it is. */
    method LoadRevision()
      modifies `revision
      ensures revision == match revisionFile
        case None => old(revision)
        case Some(data) =>
          var rv := ParseInt(TrimSpace(data));
          if rv.Some? then rv.value else old(revision)
    {
      if revisionFile.None? {
        return;
      }
      var rv := ParseInt(TrimSpace(revisionFile.value));
      if rv.Some? {
        revision := rv.value;
      }
    }

    method PersistRevision(rv: int)
      modifies `revisionFile
      ensures revisionFile == Some(FormatInt(rv))
    {
      revisionFile := Some(FormatInt(rv));
    }

    /** The process ends and a new one opens the same directory. */
    method Restart()
      requires Valid()
      modifies this
      ensures Valid() && history == old(history) && revision == old(revision) && eventLog == []
    {
      revision, eventLog := 0, [];
      LoadRevision();
      if revisionFile.Some? {
        FormattedIsTrimmed(|history|);
        FormatParse(|history|);
      }
    }

    /** The end of every successful write: take a revision, persist it, log the event. */
    method Record(gvk: GVK, event: Event)
      requires Valid() && revision < INT64_MAX
      modifies this
      ensures Valid() && revision == old(revision) + 1
      ensures history == old(history) + [Entry(|old(history)| + 1, gvk, event)]
      ensures |eventLog| == Spec.Min(|old(eventLog)| + 1, eventLogMax)
    {
      revision := revision + 1;
      PersistRevision(revision);
      eventLog := EventLog.Append(eventLog, eventLogMax, Entry(revision, gvk, event), history);
      history := history + [Entry(|history| + 1, gvk, event)];
    }

    method EventsSince(fromRevision: int, gvk: GVK) returns (r: Spec.Replay)
      requires Valid()
      ensures r == Spec.EventsAfter(history, |eventLog|, fromRevision, gvk)
    {
      r := EventLog.EventsSince(revision, eventLog, fromRevision, gvk, history);
    }
  }

  // ---- replay across restarts, over every run ----

  datatype Step = Write(gvk: GVK, event: Event) | Reopen

  /** The number of entries still in the log, step by step. */
  function Held(steps: seq<Step>, logMax: nat): nat {
    if steps == [] then 0
    else if steps[|steps| - 1].Reopen? then 0
    else Spec.Min(Held(steps[..|steps| - 1], logMax) + 1, logMax)
  }

  /** Everything logged, over all restarts. */
  function Logged(steps: seq<Step>): seq<Entry> {
    if steps == [] then []
    else
      var before := Logged(steps[..|steps| - 1]);
      match steps[|steps| - 1]
      case Write(gvk, e) => before + [Entry(|before| + 1, gvk, e)]
      case Reopen => before
  }

  /** The steps up to and including the last restart. */
  function UpToRestart(steps: seq<Step>): seq<Step> {
    if steps == [] then []
    else if steps[|steps| - 1].Reopen? then steps
    else UpToRestart(steps[..|steps| - 1])
  }

  lemma {:induction false} HeldSinceRestart(steps: seq<Step>, logMax: nat)
    ensures |Logged(UpToRestart(steps))| <= |Logged(steps)|
    ensures Held(steps, logMax) == Spec.Min(logMax, |Logged(steps)| - |Logged(UpToRestart(steps))|)
  {
    if steps != [] {
      HeldSinceRestart(steps[..|steps| - 1], logMax);
    }
  }

  lemma {:induction false} LoggedAtMostSteps(steps: seq<Step>)
    ensures |Logged(steps)| <= |steps|
  {
    if steps != [] {
      LoggedAtMostSteps(steps[..|steps| - 1]);
    }
  }

  /** Drive a new store through writes and restarts; its counter goes through the file each time. */
  method Drive(steps: seq<Step>, eventLogMax: nat) returns (store: FileStore)
    requires |steps| <= INT64_MAX
    ensures fresh(store) && store.Valid() && store.eventLogMax == eventLogMax
    ensures store.history == Logged(steps) && |store.eventLog| == Held(steps, eventLogMax)
  {
    store := new FileStore(eventLogMax);
    for n := 0 to |steps|
      invariant fresh(store) && store.Valid() && store.eventLogMax == eventLogMax
      invariant store.history == Logged(steps[..n]) && |store.eventLog| == Held(steps[..n], eventLogMax)
    {
      LoggedAtMostSteps(steps[..n]);
      assert steps[..n + 1][..n] == steps[..n];
      match steps[n]
      case Write(gvk, event) => store.Record(gvk, event);
      case Reopen => store.Restart();
    }
    assert steps[..|steps|] == steps;
  }

  /**
    Over every run of writes and restarts of a file store, a replay from
    `r >= 0` is refused exactly when some event after `r` was logged before the
    last restart or has left the window of `eventLogMax` entries; an accepted
    one has them all.
  */
  method ReplayAcrossRestarts(steps: seq<Step>, eventLogMax: nat, r: nat, gvk: GVK) returns (replay: Spec.Replay)
    requires |steps| <= INT64_MAX
    ensures var h := Logged(steps); var before := |Logged(UpToRestart(steps))|;
      && (replay.RevisionTooOld? <==> r < |h| && (r < before || r < |h| - eventLogMax))
      && (replay.Events? ==> replay.events == if r < |h| then KindEvents(h[r..], gvk) else [])
  {
    HeldSinceRestart(steps, eventLogMax);
    var store := Drive(steps, eventLogMax);
    replay := store.EventsSince(r, gvk);
  }
}
