/**
 * The window arithmetic of `ingest` (integrity_service/main.py): the event's
 * timestamp is appended to the user's window, then timestamps strictly older
 * than `now - 5 s` are popped from the front only. An anomaly is due when more
 * than ten timestamps remain.
 */
module SlidingWindow {

  /** `timedelta(seconds=5)` in milliseconds. */
  const WindowMs: int := 5000

  /** The anomaly rule `len(window) > 10`. */
  const Threshold: nat := 10

  /** `while window and window[0] < cutoff: window.popleft()`. */
  function Prune(w: seq<int>, cutoff: int): seq<int>
    decreases |w|
  {
    if |w| > 0 && w[0] < cutoff then Prune(w[1..], cutoff) else w
  }

  /** The user's window after one event at `now`: append first, then prune. */
  function Observe(w: seq<int>, now: int): seq<int> {
    Prune(w + [now], now - WindowMs)
  }

  /** The window after a run of events at the timestamps `ts`, in arrival order. */
  function Replay(w: seq<int>, ts: seq<int>): seq<int>
    decreases |ts|
  {
    if ts == [] then w else Replay(Observe(w, ts[0]), ts[1..])
  }

  ghost predicate Sorted(s: seq<int>) {
    forall i, j :: 0 <= i < j < |s| ==> s[i] <= s[j]
  }

  /** Every timestamp of `w` lies in the closed interval `[now - 5 s, now]`. */
  ghost predicate InWindow(w: seq<int>, now: int) {
    forall i :: 0 <= i < |w| ==> now - WindowMs <= w[i] <= now
  }

  // ---------------------------------------------------------------------------
  // Pruning
  // ---------------------------------------------------------------------------

  /**
   * Pruning removes a prefix and nothing else: the result is a suffix of the
   * input, each removed timestamp was older than the cutoff, and the front of
   * what is kept is not (a timestamp equal to the cutoff is kept).
   */
  lemma {:induction false} PruneRemovesStalePrefix(w: seq<int>, cutoff: int)
    ensures |Prune(w, cutoff)| <= |w|
    ensures Prune(w, cutoff) == w[|w| - |Prune(w, cutoff)|..]
    ensures forall i :: 0 <= i < |w| - |Prune(w, cutoff)| ==> w[i] < cutoff
    ensures Prune(w, cutoff) != [] ==> Prune(w, cutoff)[0] >= cutoff
    decreases |w|
  {
    if |w| > 0 && w[0] < cutoff {
      PruneRemovesStalePrefix(w[1..], cutoff);
      var r := Prune(w[1..], cutoff);
      assert w[1..][|w[1..]| - |r|..] == w[|w| - |r|..];
      forall i | 0 <= i < |w| - |r|
        ensures w[i] < cutoff
      {
        if i > 0 {
          assert w[i] == w[1..][i - 1];
        }
      }
    }
  }

  /** A window whose last timestamp is not stale never prunes down to nothing, and keeps that last timestamp. */
  lemma {:induction false} PruneKeepsFreshLast(w: seq<int>, cutoff: int)
    requires |w| > 0 && w[|w| - 1] >= cutoff
    ensures |Prune(w, cutoff)| > 0
    ensures Prune(w, cutoff)[|Prune(w, cutoff)| - 1] == w[|w| - 1]
    decreases |w|
  {
    if w[0] < cutoff {
      assert |w| > 1;
      assert w[1..][|w[1..]| - 1] == w[|w| - 1];
      PruneKeepsFreshLast(w[1..], cutoff);
    }
  }

  // ---------------------------------------------------------------------------
  // One observation
  // ---------------------------------------------------------------------------

  /** After an event the window is non-empty and ends with the event's own timestamp. */
  lemma ObserveEndsWithNow(w: seq<int>, now: int)
    ensures |Observe(w, now)| > 0
    ensures Observe(w, now)[|Observe(w, now)| - 1] == now
  {
    PruneKeepsFreshLast(w + [now], now - WindowMs);
  }

  /**
   * The new window is a suffix of the old window followed by `now`, so it grows
   * by at most one timestamp per event; its front is within five seconds of `now`.
   */
  lemma ObserveIsSuffix(w: seq<int>, now: int)
    ensures |Observe(w, now)| <= |w| + 1
    ensures Observe(w, now) == (w + [now])[|w| + 1 - |Observe(w, now)|..]
    ensures |Observe(w, now)| > 0 && Observe(w, now)[0] >= now - WindowMs
  {
    PruneRemovesStalePrefix(w + [now], now - WindowMs);
    ObserveEndsWithNow(w, now);
  }

  /**
   * With timestamps arriving in non-decreasing order the window stays sorted and
   * every timestamp in it lies in `[now - 5 s, now]`.
   */
  lemma ObserveSortedInWindow(w: seq<int>, now: int)
    requires Sorted(w)
    requires w != [] ==> w[|w| - 1] <= now
    ensures Sorted(Observe(w, now))
    ensures InWindow(Observe(w, now), now)
  {
    var full := w + [now];
    SortedAppend(w, now);
    ObserveIsSuffix(w, now);
    var r := Observe(w, now);
    SortedSuffix(full, |full| - |r|);
    assert r[|r| - 1] == now by {
      ObserveEndsWithNow(w, now);
    }
    forall i | 0 <= i < |r|
      ensures now - WindowMs <= r[i] <= now
    {
      if i > 0 {
        assert r[0] <= r[i];
      }
      if i < |r| - 1 {
        assert r[i] <= r[|r| - 1];
      }
    }
  }

  lemma SortedAppend(w: seq<int>, t: int)
    requires Sorted(w)
    requires w != [] ==> w[|w| - 1] <= t
    ensures Sorted(w + [t])
  {
    var full := w + [t];
    forall i, j | 0 <= i < j < |full|
      ensures full[i] <= full[j]
    {
      if j < |w| {
        assert full[i] == w[i] && full[j] == w[j];
      } else {
        assert full[i] == w[i] <= w[|w| - 1];
      }
    }
  }

  lemma SortedSuffix(s: seq<int>, k: int)
    requires Sorted(s)
    requires 0 <= k <= |s|
    ensures Sorted(s[k..])
  {
    var r := s[k..];
    forall i, j | 0 <= i < j < |r|
      ensures r[i] <= r[j]
    {
      assert r[i] == s[k + i] && r[j] == s[k + j];
    }
  }

  // ---------------------------------------------------------------------------
  // Runs of observations
  // ---------------------------------------------------------------------------

  /**
   * Non-decreasing timestamps all within five seconds of the newest one are all
   * retained: the window is exactly the old window followed by the run.
   */
  lemma {:induction false} ReplayKeepsAllWithinWindow(w: seq<int>, ts: seq<int>)
    requires ts != []
    requires Sorted(w + ts)
    requires (w + ts)[0] >= ts[|ts| - 1] - WindowMs
    ensures Replay(w, ts) == w + ts
    decreases |ts|
  {
    var t := ts[0];
    var full := w + [t];
    assert Sorted(full) by {
      assert forall i :: 0 <= i < |full| ==> full[i] == (w + ts)[i];
    }
    assert full[0] == (w + ts)[0];
    assert (w + ts)[|w|] == t;
    assert (w + ts)[|w + ts| - 1] == ts[|ts| - 1];
    assert full[0] >= t - WindowMs;
    assert Observe(w, t) == full;
    if |ts| > 1 {
      assert full + ts[1..] == w + ts;
      ReplayKeepsAllWithinWindow(full, ts[1..]);
    }
  }

  /** From an empty window, a run of non-decreasing timestamps spanning at most five seconds is kept whole. */
  lemma ReplaySortedRun(ts: seq<int>)
    requires ts != []
    requires Sorted(ts)
    requires ts[|ts| - 1] - ts[0] <= WindowMs
    ensures Replay([], ts) == ts
  {
    assert [] + ts == ts;
    ReplayKeepsAllWithinWindow([], ts);
  }

  /**
   * The threshold boundary: for eleven non-decreasing timestamps of one user
   * spanning at most five seconds, the first ten events leave at most ten
   * timestamps in the window (no anomaly), and the eleventh leaves eleven, the
   * earliest being the first event's timestamp.
   */
  lemma ElevenEventsInFiveSeconds(ts: seq<int>)
    requires |ts| == 11
    requires Sorted(ts)
    requires ts[10] - ts[0] <= WindowMs
    ensures forall k :: 1 <= k <= 10 ==> |Replay([], ts[..k])| == k <= Threshold
    ensures |Replay([], ts)| == 11 > Threshold
    ensures Replay([], ts)[0] == ts[0]
  {
    forall k | 1 <= k <= 10
      ensures |Replay([], ts[..k])| == k
    {
      var p := ts[..k];
      assert Sorted(p) by {
        forall i, j | 0 <= i < j < |p| ensures p[i] <= p[j] {
          assert p[i] == ts[i] && p[j] == ts[j];
        }
      }
      assert p[0] == ts[0] && p[|p| - 1] == ts[k - 1] <= ts[10];
      ReplaySortedRun(p);
    }
    ReplaySortedRun(ts);
  }

  /**
   * Pruning looks only at the front: once a timestamp arrives out of order, a
   * stale timestamp behind a fresh front survives and is counted.
   */
  lemma OutOfOrderLeavesStale()
    ensures Replay([], [10000, 1, 10001]) == [10000, 1, 10001]
    ensures !InWindow(Replay([], [10000, 1, 10001]), 10001)
  {
    assert Observe([], 10000) == [10000];
    assert Observe([10000], 1) == [10000, 1];
    assert Observe([10000, 1], 10001) == [10000, 1, 10001];
    assert Replay([], [10000, 1, 10001]) == Replay([10000], [1, 10001]);
    assert [1, 10001][1..] == [10001];
    assert Replay([10000], [1, 10001]) == Replay([10000, 1], [10001]);
  }
}
