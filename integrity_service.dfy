/**
 * The two endpoints of integrity_service/main.py: `ingest` stores the event,
 * updates the user's sliding window in place and records an anomaly when the
 * window holds more than ten timestamps; `get_anomalies` lists a user's
 * anomalies, most recent first.
 */
module IntegrityService {
  import opened Models
  import opened SlidingWindow

  // ---------------------------------------------------------------------------
  // The window table as a value
  // ---------------------------------------------------------------------------

  /** The window table after one event: only the event's user's window changes. */
  function IngestWindows(table: map<UserId, seq<int>>, e: SignalEvent): map<UserId, seq<int>> {
    table[e.userId := Observe(WindowOf(table, e.userId), e.timestamp)]
  }

  /** The window table after a sequence of events, processed in order. */
  function WindowsAfter(table: map<UserId, seq<int>>, events: seq<SignalEvent>): map<UserId, seq<int>>
    decreases |events|
  {
    if events == [] then table else WindowsAfter(IngestWindows(table, events[0]), events[1..])
  }

  /** The timestamps of the events of user `u`, in order; the signal type plays no part. */
  function TimestampsOf(events: seq<SignalEvent>, u: UserId): seq<int> {
    if events == [] then []
    else (if events[0].userId == u then [events[0].timestamp] else []) + TimestampsOf(events[1..], u)
  }

  /**
   * Windows are keyed by user id alone: after any sequence of events, a user's
   * window depends only on the timestamps of that user's own events, whatever
   * their signal types and whatever other users do in between.
   */
  lemma {:induction false} WindowDependsOnlyOnOwnEvents(table: map<UserId, seq<int>>, events: seq<SignalEvent>, u: UserId)
    ensures WindowOf(WindowsAfter(table, events), u) == Replay(WindowOf(table, u), TimestampsOf(events, u))
    decreases |events|
  {
    if events != [] {
      var e := events[0];
      var next := IngestWindows(table, e);
      WindowDependsOnlyOnOwnEvents(next, events[1..], u);
      if e.userId == u {
        var ts := TimestampsOf(events, u);
        assert ts == [e.timestamp] + TimestampsOf(events[1..], u);
        assert ts[1..] == TimestampsOf(events[1..], u);
      } else {
        assert WindowOf(next, u) == WindowOf(table, u);
        assert TimestampsOf(events, u) == [] + TimestampsOf(events[1..], u) == TimestampsOf(events[1..], u);
      }
    }
  }

  /** Ingesting changes the event's user's window and no other. */
  lemma IngestWindowsFrame(table: map<UserId, seq<int>>, e: SignalEvent, u: UserId)
    ensures e.userId in IngestWindows(table, e)
    ensures u != e.userId ==> WindowOf(IngestWindows(table, e), u) == WindowOf(table, u)
    ensures |IngestWindows(table, e)[e.userId]| <= |WindowOf(table, e.userId)| + 1
  {
    ObserveIsSuffix(WindowOf(table, e.userId), e.timestamp);
  }

  /** Every window of the table is sorted. */
  ghost predicate AllSorted(table: map<UserId, seq<int>>) {
    forall v :: v in table ==> Sorted(table[v])
  }

  /**
   * With events arriving in timestamp order for their user, ingestion keeps every
   * window sorted, and the event's user's window then lies within five seconds
   * of the event's timestamp.
   */
  lemma IngestKeepsWindowsSorted(table: map<UserId, seq<int>>, e: SignalEvent)
    requires AllSorted(table)
    requires WindowOf(table, e.userId) != [] ==>
      WindowOf(table, e.userId)[|WindowOf(table, e.userId)| - 1] <= e.timestamp
    ensures AllSorted(IngestWindows(table, e))
    ensures InWindow(IngestWindows(table, e)[e.userId], e.timestamp)
  {
    ObserveSortedInWindow(WindowOf(table, e.userId), e.timestamp);
  }

  /** The anomaly `ingest` records for an event whose pruned window is `w`, if any. */
  function AnomalyFor(id: nat, e: SignalEvent, w: seq<int>): seq<Anomaly> {
    if |w| > Threshold then [Anomaly(id, e.userId, e.timestamp, |w|, w[0])] else []
  }

  // ---------------------------------------------------------------------------
  // POST /event
  // ---------------------------------------------------------------------------

  /**
   * Stores the event, appends its timestamp to the user's window, pops stale
   * timestamps from the front, and records an anomaly when more than `Threshold`
   * timestamps remain.
   */
  method Ingest(event: SignalEvent, db: Database, windows: Windows) returns (status: string)
    requires db.Valid()
    modifies db, windows
    ensures db.Valid()
    ensures db.events == old(db.events) + [ToEventRow(|old(db.events)| + 1, event)]
    ensures windows.table == IngestWindows(old(windows.table), event)
    ensures db.anomalies ==
      old(db.anomalies) + AnomalyFor(|old(db.anomalies)| + 1, event, windows.table[event.userId])
    ensures status == "ingested"
  {
    var _ := db.AddEvent(event);

    // The window is looked up (and created if absent), then updated in place.
    var u := event.userId;
    var now := event.timestamp;
    var _ := windows.Get(u);
    windows.Append(u, now);

    // Each iteration pops one stale timestamp; the pruned result never changes.
    var cutoff := now - WindowMs;
    ghost var before := windows.table;
    ghost var stored, flagged := db.events, db.anomalies;
    while |windows.table[u]| > 0 && windows.table[u][0] < cutoff
      invariant u in windows.table
      invariant windows.table == before[u := windows.table[u]]
      invariant Prune(windows.table[u], cutoff) == Prune(before[u], cutoff)
      invariant db.events == stored && db.anomalies == flagged
      decreases |windows.table[u]|
    {
      var _ := windows.PopLeft(u);
    }

    var window := windows.table[u];
    if |window| > Threshold {
      var _ := db.AddAnomaly(u, now, |window|, window[0]);
    }
    status := "ingested";
  }

  // ---------------------------------------------------------------------------
  // GET /anomalies/{user_id}
  // ---------------------------------------------------------------------------

  /** The fields of an anomaly the endpoint returns. */
  datatype AnomalyView = AnomalyView(detectedAt: int, count: nat, windowStart: int)

  function View(a: Anomaly): AnomalyView {
    AnomalyView(a.detectedAt, a.count, a.windowStart)
  }

  /** `filter(Anomaly.user_id == user_id)`, in table order. */
  function UserAnomalies(log: seq<Anomaly>, u: UserId): seq<Anomaly> {
    if log == [] then []
    else (if log[0].userId == u then [log[0]] else []) + UserAnomalies(log[1..], u)
  }

  /**
   * The filter keeps exactly the user's rows, each as often as it occurs in the
   * log, and drops every other row.
   */
  lemma {:induction false} UserAnomaliesMembers(log: seq<Anomaly>, u: UserId)
    ensures forall a :: a in UserAnomalies(log, u) <==> a in log && a.userId == u
    ensures forall a :: multiset(UserAnomalies(log, u))[a] == if a.userId == u then multiset(log)[a] else 0
  {
    if log != [] {
      UserAnomaliesMembers(log[1..], u);
      assert log == [log[0]] + log[1..];
      assert multiset(log) == multiset{log[0]} + multiset(log[1..]);
      var head := if log[0].userId == u then [log[0]] else [];
      assert UserAnomalies(log, u) == head + UserAnomalies(log[1..], u);
      assert multiset(UserAnomalies(log, u)) == multiset(head) + multiset(UserAnomalies(log[1..], u));
      assert forall a :: a in log <==> a == log[0] || a in log[1..];
    }
  }

  ghost predicate NewestFirst(s: seq<Anomaly>) {
    forall i, j :: 0 <= i < j < |s| ==> s[i].detectedAt >= s[j].detectedAt
  }

  /** Putting an anomaly no older than any of a newest-first sequence in front keeps it newest-first. */
  lemma ConsNewestFirst(x: Anomaly, rest: seq<Anomaly>)
    requires NewestFirst(rest)
    requires forall y :: y in rest ==> y.detectedAt <= x.detectedAt
    ensures NewestFirst([x] + rest)
  {
    var r := [x] + rest;
    forall i, j | 0 <= i < j < |r|
      ensures r[i].detectedAt >= r[j].detectedAt
    {
      assert r[j] == rest[j - 1];
      if i > 0 {
        assert r[i] == rest[i - 1];
      } else {
        assert rest[j - 1] in rest;
      }
    }
  }

  /** In a newest-first sequence nothing is newer than the first anomaly. */
  lemma HeadIsNewest(s: seq<Anomaly>)
    requires s != [] && NewestFirst(s)
    ensures forall y :: y in s ==> y.detectedAt <= s[0].detectedAt
  {
    forall y | y in s
      ensures y.detectedAt <= s[0].detectedAt
    {
      var k :| 0 <= k < |s| && s[k] == y;
    }
  }

  /** A bound on detection times carries over to a sequence with the same elements plus one more. */
  lemma BoundCarries(rest: seq<Anomaly>, s: seq<Anomaly>, a: Anomaly, bound: int)
    requires multiset(rest) == multiset(s) + multiset{a}
    requires forall y :: y in s ==> y.detectedAt <= bound
    requires a.detectedAt <= bound
    ensures forall y :: y in rest ==> y.detectedAt <= bound
  {
    forall y | y in rest
      ensures y.detectedAt <= bound
    {
      assert y in multiset(rest);
      if y != a {
        assert y in multiset(s);
      }
    }
  }

  /** Inserts `a` into a newest-first sequence, ahead of every anomaly not newer than it. */
  function Insert(a: Anomaly, s: seq<Anomaly>): (r: seq<Anomaly>)
    requires NewestFirst(s)
    ensures NewestFirst(r)
    ensures multiset(r) == multiset(s) + multiset{a}
  {
    if s == [] then [a]
    else
      HeadIsNewest(s);
      if a.detectedAt >= s[0].detectedAt then
        ConsNewestFirst(a, s);
        [a] + s
      else
        var tail := s[1..];
        assert s == [s[0]] + tail;
        assert forall y :: y in tail ==> y in s;
        var rest := Insert(a, tail);
        BoundCarries(rest, tail, a, s[0].detectedAt);
        ConsNewestFirst(s[0], rest);
        [s[0]] + rest
  }

  /** `order_by(Anomaly.detected_at.desc())`. */
  function SortNewestFirst(s: seq<Anomaly>): (r: seq<Anomaly>)
    ensures NewestFirst(r)
    ensures multiset(r) == multiset(s)
  {
    if s == [] then []
    else
      assert s == [s[0]] + s[1..];
      Insert(s[0], SortNewestFirst(s[1..]))
  }

  /** The user's anomaly rows, most recent first. */
  function QueryAnomalies(log: seq<Anomaly>, u: UserId): (r: seq<Anomaly>)
    ensures NewestFirst(r)
    ensures multiset(r) == multiset(UserAnomalies(log, u))
    ensures forall a :: a in r <==> a in log && a.userId == u
  {
    UserAnomaliesMembers(log, u);
    var r := SortNewestFirst(UserAnomalies(log, u));
    assert forall a :: a in r <==> a in multiset(r);
    r
  }

  /** The projection `[{detected_at, count, window_start} for a in records]`. */
  function Views(rows: seq<Anomaly>): seq<AnomalyView> {
    seq(|rows|, i requires 0 <= i < |rows| => View(rows[i]))
  }

  lemma ViewsMembers(rows: seq<Anomaly>, v: AnomalyView)
    ensures v in Views(rows) <==> exists a :: a in rows && View(a) == v
  {
    var r := Views(rows);
    if v in r {
      var i :| 0 <= i < |r| && r[i] == v;
      assert rows[i] in rows;
    }
    if exists a :: a in rows && View(a) == v {
      var a :| a in rows && View(a) == v;
      var i :| 0 <= i < |rows| && rows[i] == a;
      assert r[i] == v;
    }
  }

  /** The response of `get_anomalies`: one entry per anomaly row of the user, most recent first. */
  function GetAnomalies(log: seq<Anomaly>, u: UserId): (r: seq<AnomalyView>)
    ensures |r| == |UserAnomalies(log, u)|
    ensures forall i, j :: 0 <= i < j < |r| ==> r[i].detectedAt >= r[j].detectedAt
    ensures forall v :: v in r <==> exists a :: a in log && a.userId == u && View(a) == v
    ensures exists rows :: NewestFirst(rows) && multiset(rows) == multiset(UserAnomalies(log, u)) && r == Views(rows)
  {
    var rows := QueryAnomalies(log, u);
    assert |rows| == |multiset(rows)| == |multiset(UserAnomalies(log, u))| == |UserAnomalies(log, u)|;
    forall v
      ensures v in Views(rows) <==> exists a :: a in log && a.userId == u && View(a) == v
    {
      ViewsMembers(rows, v);
    }
    Views(rows)
  }
}
