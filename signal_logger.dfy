/**
 * `Logger` of logger.py: an append-only log of interaction records. The JSONL
 * file is modelled as its sequence of records, or `None` while the file does
 * not exist; `read_recent` and `summarize_signals` are queries over it.
 */
module SignalLogger {
  import opened Wrappers
  import Classifier

  /** One line of the log file. */
  datatype LogRecord = LogRecord(
    timestamp: string,
    agentId: string,
    userId: string,
    userInput: string,
    detectedSignal: string,
    responseType: string,
    coherenceScoreImpact: Option<real>,
    escalationFlag: bool,
    sessionId: Option<string>)

  /** `detected_signal or classify_signal(user_input)`: `None` and `""` are falsy. */
  function SignalOrDefault(detectedSignal: Option<string>, userInput: string): string {
    if detectedSignal.None? || detectedSignal.value == "" then Classifier.ClassifySignal(userInput)
    else detectedSignal.value
  }

  /** The record `write` appends; `now` stands for the formatted current time. */
  function MakeRecord(
    now: string, agentId: string, userId: string, userInput: string,
    detectedSignal: Option<string>, responseType: string,
    coherenceScoreImpact: Option<real>, escalationFlag: bool, sessionId: Option<string>): LogRecord
  {
    LogRecord(now, agentId, userId, userInput, SignalOrDefault(detectedSignal, userInput),
              responseType, coherenceScoreImpact, escalationFlag, sessionId)
  }

  /**
   * A falsy signal is replaced by the classifier's label for the input, which is
   * one of the four labels; a non-empty signal is stored as given.
   */
  lemma SignalDefaulting(detectedSignal: Option<string>, userInput: string)
    ensures detectedSignal.None? || detectedSignal == Some("") ==>
      SignalOrDefault(detectedSignal, userInput) == Classifier.ClassifySignal(userInput) &&
      SignalOrDefault(detectedSignal, userInput) in Classifier.Labels
    ensures detectedSignal.Some? && detectedSignal.value != "" ==>
      SignalOrDefault(detectedSignal, userInput) == detectedSignal.value
  {
  }

  /** The records of an agent-user pair, in log order. */
  function Matching(logs: seq<LogRecord>, agentId: string, userId: string): seq<LogRecord> {
    if logs == [] then []
    else (if logs[0].agentId == agentId && logs[0].userId == userId then [logs[0]] else []) +
         Matching(logs[1..], agentId, userId)
  }

  /**
   * The filter keeps exactly the records of the pair, each as often as it
   * occurs in the log, and no other record.
   */
  lemma {:induction false} MatchingMembers(logs: seq<LogRecord>, agentId: string, userId: string)
    ensures |Matching(logs, agentId, userId)| <= |logs|
    ensures forall x :: x in Matching(logs, agentId, userId) <==>
      x in logs && x.agentId == agentId && x.userId == userId
    ensures forall x :: multiset(Matching(logs, agentId, userId))[x] == (if x.agentId == agentId && x.userId == userId then multiset(logs)[x] else 0)
  {
    if logs != [] {
      MatchingMembers(logs[1..], agentId, userId);
      assert logs == [logs[0]] + logs[1..];
      assert multiset(logs) == multiset{logs[0]} + multiset(logs[1..]);
      var head := if logs[0].agentId == agentId && logs[0].userId == userId then [logs[0]] else [];
      assert Matching(logs, agentId, userId) == head + Matching(logs[1..], agentId, userId);
      assert multiset(Matching(logs, agentId, userId)) ==
        multiset(head) + multiset(Matching(logs[1..], agentId, userId));
      assert forall x :: x in logs <==> x == logs[0] || x in logs[1..];
    }
  }

  /**
   * The filter keeps log order: a record written last is, when it matches, the
   * last of the matches. So the last matches are the most recently written ones.
   */
  lemma {:induction false} MatchingAppend(logs: seq<LogRecord>, x: LogRecord, agentId: string, userId: string)
    ensures Matching(logs + [x], agentId, userId) ==
      Matching(logs, agentId, userId) + (if x.agentId == agentId && x.userId == userId then [x] else [])
  {
    if logs == [] {
      assert [] + [x] == [x];
      assert [x][1..] == [];
    } else {
      assert (logs + [x])[1..] == logs[1..] + [x];
      MatchingAppend(logs[1..], x, agentId, userId);
    }
  }

  /** Python's `s[start:]`: a negative start counts from the end; both are clamped to the length. */
  function SliceFrom<T>(s: seq<T>, start: int): (r: seq<T>)
    ensures |r| <= |s| && r == s[|s| - |r|..]
    ensures start >= 0 ==> |r| == if start <= |s| then |s| - start else 0
    ensures start < 0 ==> |r| == if -start <= |s| then -start else |s|
  {
    if start >= 0 then (if start <= |s| then s[start..] else [])
    else (if |s| + start >= 0 then s[|s| + start..] else s)
  }

  function Min(a: int, b: int): int {
    if a <= b then a else b
  }

  /** The log's records: a file that does not exist reads as no records. */
  function Lines(file: Option<seq<LogRecord>>): seq<LogRecord> {
    if file.None? then [] else file.value
  }

  /** The signals of a run of records, in order. */
  function Signals(records: seq<LogRecord>): seq<string> {
    seq(|records|, i requires 0 <= i < |records| => records[i].detectedSignal)
  }

  // ---------------------------------------------------------------------------
  // Counter: a frequency table in first-occurrence order
  // ---------------------------------------------------------------------------

  type Summary = seq<(string, nat)>

  /** The number of times `x` occurs in `s`. */
  function Occurrences(s: seq<string>, x: string): nat {
    if s == [] then 0
    else Occurrences(s[..|s| - 1], x) + (if s[|s| - 1] == x then 1 else 0)
  }

  function HasKey(t: Summary, k: string): bool {
    t != [] && (t[0].0 == k || HasKey(t[1..], k))
  }

  /** The count stored under `k`; 0 when `k` has no entry. */
  function CountOf(t: Summary, k: string): nat {
    if t == [] then 0 else if t[0].0 == k then t[0].1 else CountOf(t[1..], k)
  }

  /** The sum of all counts. */
  function Total(t: Summary): nat {
    if t == [] then 0 else t[0].1 + Total(t[1..])
  }

  ghost predicate DistinctKeys(t: Summary) {
    forall i, j :: 0 <= i < j < |t| ==> t[i].0 != t[j].0
  }

  /** Counts one more occurrence of `x`: its entry is incremented, or a new entry is added at the end. */
  function Bump(t: Summary, x: string): (r: Summary)
    requires DistinctKeys(t)
    ensures DistinctKeys(r)
    ensures Total(r) == Total(t) + 1
    ensures forall k :: HasKey(r, k) <==> HasKey(t, k) || k == x
    ensures forall k :: CountOf(r, k) == CountOf(t, k) + (if k == x then 1 else 0)
  {
    if t == [] then [(x, 1)]
    else if t[0].0 == x then
      var r := [(x, t[0].1 + 1)] + t[1..];
      assert r[1..] == t[1..];
      r
    else
      var rest := Bump(t[1..], x);
      var r := [t[0]] + rest;
      assert r[1..] == rest;
      assert !HasKey(t[1..], t[0].0) by {
        NoKeyInTail(t);
      }
      forall j | 0 < j < |r|
        ensures r[0].0 != r[j].0
      {
        KeyAt(rest, j - 1);
      }
      r
  }

  lemma NoKeyInTail(t: Summary)
    requires t != [] && DistinctKeys(t)
    ensures !HasKey(t[1..], t[0].0)
  {
    forall j | 0 <= j < |t| - 1
      ensures t[1..][j].0 != t[0].0
    {
      assert t[1..][j] == t[j + 1];
    }
    AbsentKey(t[1..], t[0].0);
  }

  /** A key that no entry carries is not present. */
  lemma {:induction false} AbsentKey(t: Summary, k: string)
    requires forall j :: 0 <= j < |t| ==> t[j].0 != k
    ensures !HasKey(t, k)
  {
    if t != [] {
      AbsentKey(t[1..], k);
    }
  }

  lemma {:induction false} KeyAt(t: Summary, i: int)
    requires 0 <= i < |t|
    ensures HasKey(t, t[i].0)
  {
    if i > 0 {
      KeyAt(t[1..], i - 1);
    }
  }

  /** `Counter(signals)`: per distinct signal, in order of first occurrence, its number of occurrences. */
  function Tally(s: seq<string>): (r: Summary)
    ensures DistinctKeys(r)
    ensures forall k :: HasKey(r, k) <==> k in s
    ensures forall k :: CountOf(r, k) == Occurrences(s, k)
    ensures Total(r) == |s|
  {
    if s == [] then []
    else
      var init := s[..|s| - 1];
      assert s == init + [s[|s| - 1]];
      Bump(Tally(init), s[|s| - 1])
  }

  // ---------------------------------------------------------------------------
  // The logger
  // ---------------------------------------------------------------------------

  class Logger {
    /** The path of the log file. */
    var output: string

    /** The log file's records, or `None` while the file does not exist. */
    var file: Option<seq<LogRecord>>

    /** `Logger(output="logs.jsonl")`: the file at `output` may or may not exist already. */
    constructor (existing: Option<seq<LogRecord>>, output: string := "logs.jsonl")
      ensures this.output == output && file == existing
    {
      this.output := output;
      file := existing;
    }

    /** Appends one record at the end of the log, creating the file if needed. */
    method Write(
      now: string, agentId: string, userId: string, userInput: string,
      detectedSignal: Option<string> := None, responseType: string := "",
      coherenceScoreImpact: Option<real> := None, escalationFlag: bool := false,
      sessionId: Option<string> := None)
      modifies this
      ensures output == old(output)
      ensures file == Some(Lines(old(file)) + [MakeRecord(now, agentId, userId, userInput, detectedSignal,
                                                          responseType, coherenceScoreImpact, escalationFlag, sessionId)])
    {
      var record := MakeRecord(now, agentId, userId, userInput, detectedSignal,
                               responseType, coherenceScoreImpact, escalationFlag, sessionId);
      file := Some(Lines(file) + [record]);
    }

    /**
     * `read_recent`: the records of the agent-user pair, keeping `filtered[-limit:]`.
     * For a positive limit that is the last `min(limit, n)` of the `n` matches;
     * a limit of 0 keeps all of them, and a negative limit drops the first `-limit`.
     */
    function ReadRecent(agentId: string, userId: string, limit: int := 10): (r: seq<LogRecord>)
      reads this
      ensures forall x :: x in r ==> x in Lines(file) && x.agentId == agentId && x.userId == userId
      ensures var m := Matching(Lines(file), agentId, userId);
        |r| <= |m| && r == m[|m| - |r|..]
      ensures limit > 0 ==> |r| == Min(limit, |Matching(Lines(file), agentId, userId)|)
      ensures limit == 0 ==> r == Matching(Lines(file), agentId, userId)
      ensures limit < 0 ==> |r| == |Matching(Lines(file), agentId, userId)| - Min(-limit, |Matching(Lines(file), agentId, userId)|)
      ensures file.None? ==> r == []
    {
      var filtered := Matching(Lines(file), agentId, userId);
      MatchingMembers(Lines(file), agentId, userId);
      SliceFrom(filtered, -limit)
    }

    /**
     * `summarize_signals`: the frequency of each detected signal among the last
     * 1000 records of the pair. The keys are exactly the signals occurring there,
     * each count is that signal's number of occurrences, and the counts sum to
     * the number of records read, at most 1000.
     */
    function SummarizeSignals(agentId: string, userId: string): (r: Summary)
      reads this
      ensures DistinctKeys(r)
      ensures forall k :: HasKey(r, k) <==> k in Signals(ReadRecent(agentId, userId, 1000))
      ensures forall k :: CountOf(r, k) == Occurrences(Signals(ReadRecent(agentId, userId, 1000)), k)
      ensures Total(r) == |ReadRecent(agentId, userId, 1000)| <= 1000
    {
      Tally(Signals(ReadRecent(agentId, userId, 1000)))
    }
  }
}
