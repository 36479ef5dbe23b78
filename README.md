# Signal integrity monitor and signal logger, modelled in Dafny

This project models the core of a small telemetry service for interactions
between users and an AI agent:

* **The integrity monitor** (`integrity_service/`). `POST /event` stores a
  validated `SignalEvent` as a row of the `events` table. It then updates a
  per-user sliding window of timestamps. The timestamp is appended first, then
  every timestamp strictly older than `timestamp - 5 s` is popped from the
  front. When more than 10 timestamps remain, an `anomalies` row is stored with
  the user id, the detection time, the window size and the window's first
  timestamp. `GET /anomalies/{user_id}` lists a user's anomalies, newest first.
* **The keyword classifier** (`classifier.py`). The input is lowercased and
  tested against three keyword lists in priority order: uncertain, stressed,
  positive. If no keyword matches, the label is neutral.
* **The interaction logger** (`logger.py`). `write` appends one record to a JSONL
  log and fills in a missing signal with the classifier's label. `read_recent`
  returns the last records of an agent-user pair. `summarize_signals` counts
  the signals of the last 1000 of them.

Files and modules:

| file | module | models |
|---|---|---|
| `wrappers.dfy` | `Wrappers` | `Option`, `Result` |
| `models.dfy` | `Models` | record shapes, field validation, the `Database` tables, the `Windows` default-empty map |
| `sliding_window.dfy` | `SlidingWindow` | the window rule as functions (`Prune`, `Observe`, `Replay`) and its lemmas |
| `integrity_service.dfy` | `IntegrityService` | `Ingest` (imperative, with the `popleft` loop), the anomaly query |
| `classifier.dfy` | `Classifier` | `ClassifySignal` and its keyword lemmas |
| `signal_logger.dfy` | `SignalLogger` | the `Logger` class, `ReadRecent`, `SummarizeSignals` |

Timestamps are integer milliseconds. The window is `WindowMs = 5000` and the
threshold is `Threshold = 10`. The database is modelled as two sequences of
rows, and a committed `add` is an append. Ids are assigned 1, 2, 3, … . The
in-memory `windows` table is a class holding a `map` from user id to a
sequence of timestamps. `Ingest` updates it in place with `Append` and
`PopLeft` calls, as the source does with its deque.

In the code, and so in the model:

* windows are keyed by `user_id` alone, not by user and signal type;
* the timestamp is appended before pruning;
* there is no severity, no per-signal-type configuration, no idle-key eviction,
  no alert dispatch and no per-key locking;
* an anomaly row has no signal type, threshold or severity.

Pruning looks only at the front of the window. So "every timestamp is within
5 s of now" holds only when a user's timestamps arrive in non-decreasing order.
`ObserveSortedInWindow` and `IngestKeepsWindowsSorted` state this with that
order as a precondition. `OutOfOrderLeavesStale` shows a stale timestamp that
survives when the order is broken.

## Model

| member | source | states |
|---|---|---|
| `Models.ValidateEvent` | integrity_service/models.py:11-16 | an event is accepted iff `user_id`, `agent_id`, `signal_type` and `timestamp` are present; their values are kept; a missing payload becomes the empty object; a refusal names exactly the missing required fields, each once, and nothing else |
| `Models.ToEventRow` | integrity_service/main.py:26 | the stored row copies every field of the event and carries the table's id |
| `Models.EventIdsIncreasing` | integrity_service/models.py:23 | auto-incremented event ids are strictly increasing in insertion order, hence distinct |
| `Models.AnomalyIdsIncreasing` | integrity_service/models.py:32 | auto-incremented anomaly ids are strictly increasing in insertion order, hence distinct |
| `Models.Database.constructor` | integrity_service/models.py:39-43 | the tables hold whatever rows the database file already had (none for a new file), with ids 1, 2, 3, …, so later ids continue from them |
| `Models.Database.AddEvent` | integrity_service/main.py:26-28 | exactly one row is appended, copied field for field from the event, with the next id; the anomaly table is untouched; the id invariant is kept |
| `Models.Database.AddAnomaly` | integrity_service/main.py:41-48 | exactly one anomaly row is appended with the next id; the event table is untouched |
| `Models.Windows.constructor` | integrity_service/models.py:46 | the window table starts with no users |
| `Models.Windows.Get` | integrity_service/models.py:46 | looking up a never-seen user yields the empty window and creates that entry; a known user's window is returned unchanged |
| `Models.Windows.Append` | integrity_service/main.py:33 | the timestamp is added at the back of that user's window only |
| `Models.Windows.PopLeft` | integrity_service/main.py:38 | the front timestamp of that user's window is removed and returned; nothing else changes |
| `SlidingWindow.Prune` | integrity_service/main.py:37-38 | pops timestamps strictly older than the cutoff from the front until the front is fresh or the window is empty; its properties are stated by `PruneRemovesStalePrefix` and `PruneKeepsFreshLast` |
| `SlidingWindow.Observe` | integrity_service/main.py:33-38 | the window after one event: the timestamp is appended, then the window is pruned at `now - 5 s`; its properties are stated by the `Observe…` lemmas |
| `SlidingWindow.PruneRemovesStalePrefix` | integrity_service/main.py:36-38 | pruning keeps a suffix; every removed timestamp is older than the cutoff; the kept front is at least the cutoff, so a timestamp equal to the cutoff is kept |
| `SlidingWindow.PruneKeepsFreshLast` | integrity_service/main.py:37-38 | a window whose last timestamp is not stale is never emptied, and keeps that last timestamp |
| `SlidingWindow.ObserveEndsWithNow` | integrity_service/main.py:33-38 | after an event the window is non-empty and its last timestamp is the event's |
| `SlidingWindow.ObserveIsSuffix` | integrity_service/main.py:33-38 | the new window is a suffix of the old window plus `now`, so it grows by at most one; its front is at least `now - 5 s` |
| `SlidingWindow.ObserveSortedInWindow` | integrity_service/main.py:33-38 | if the window is sorted and `now` is at least its last timestamp, the new window is sorted and lies within `[now - 5 s, now]` |
| `SlidingWindow.ReplayKeepsAllWithinWindow` | integrity_service/main.py:31-38 | non-decreasing timestamps all within 5 s of the newest are all retained: the window is the old one followed by the run |
| `SlidingWindow.ReplaySortedRun` | integrity_service/main.py:31-38 | from an empty window, a sorted run spanning at most 5 s is kept whole |
| `SlidingWindow.ElevenEventsInFiveSeconds` | integrity_service/main.py:40-46 | with 11 non-decreasing timestamps within 5 s, the first 10 events leave at most 10 timestamps, so no anomaly; the 11th leaves 11, starting at the first timestamp |
| `SlidingWindow.OutOfOrderLeavesStale` | integrity_service/main.py:37-38 | with an out-of-order arrival, a timestamp more than 5 s old stays in the window behind a fresh front |
| `IntegrityService.IngestWindows` | integrity_service/main.py:32-38 | the window table after one event: the event's user's window becomes `Observe` of its old (default-empty) window; stated by `IngestWindowsFrame` and `IngestKeepsWindowsSorted` |
| `IntegrityService.AnomalyFor` | integrity_service/main.py:40-46 | one anomaly row with the user, `now`, the window size and the window's first timestamp when the window holds more than 10 timestamps, none otherwise; `Ingest` appends it |
| `IntegrityService.WindowDependsOnlyOnOwnEvents` | integrity_service/main.py:31-38 | after any sequence of events, a user's window is determined by that user's own timestamps alone; signal types and other users' events do not matter |
| `IntegrityService.IngestWindowsFrame` | integrity_service/main.py:32-38 | an event creates or updates only its own user's window, which grows by at most one |
| `IntegrityService.IngestKeepsWindowsSorted` | integrity_service/main.py:33-38 | with in-order arrivals, every window stays sorted, and the event's user's window lies within 5 s of the event |
| `IntegrityService.Ingest` | integrity_service/main.py:18-50 | one event row is appended; only the event's user's window changes, to `Observe` of its old window (append, then pop stale timestamps from the front); one anomaly row with the user, `now`, the window size and its first timestamp is appended iff more than 10 timestamps remain |
| `IntegrityService.UserAnomalies` | integrity_service/main.py:59 | `filter(Anomaly.user_id == user_id)` in table order; stated by `UserAnomaliesMembers` |
| `IntegrityService.UserAnomaliesMembers` | integrity_service/main.py:59 | the filter keeps exactly the anomalies of the requested user, each as many times as it occurs in the log, and no other row |
| `IntegrityService.Insert` | integrity_service/main.py:60 | inserting into a newest-first sequence keeps it newest-first and adds exactly one element |
| `IntegrityService.SortNewestFirst` | integrity_service/main.py:60 | the result is ordered by detection time, non-increasing, and is a permutation of the input |
| `IntegrityService.QueryAnomalies` | integrity_service/main.py:57-62 | the result holds exactly the user's anomalies, as a permutation, newest first |
| `IntegrityService.Views` | integrity_service/main.py:63-70 | the projection of each row to its detection time, count and window start; stated by `ViewsMembers` and `GetAnomalies` |
| `IntegrityService.ViewsMembers` | integrity_service/main.py:63-70 | the response holds exactly the projections of the selected rows |
| `IntegrityService.GetAnomalies` | integrity_service/main.py:52-70 | the response is the projection of a newest-first permutation of the user's anomaly rows: one entry per anomaly, duplicates included, ordered by detection time non-increasing |
| `Classifier.Lower` | classifier.py:3 | `user_input.lower()` for ASCII: same length, each character lowercased in place |
| `Classifier.LowerIdempotent` | classifier.py:3 | lowercasing is idempotent |
| `Classifier.ContainsCorrect` | classifier.py:4 | the executable substring test agrees with "occurs at some position" |
| `Classifier.Contains` | classifier.py:4 | Python's `word in text`, searching each start position; stated by `ContainsCorrect` |
| `Classifier.AnyIn` | classifier.py:4 | `any(word in text for word in words)`; stated by `AnyInCorrect` |
| `Classifier.AnyInCorrect` | classifier.py:4 | the `any(...)` test is true iff some keyword of the list occurs in the text |
| `Classifier.ClassifySignal` | classifier.py:1-11 | the result is one of "uncertain", "stressed", "positive", "neutral" |
| `Classifier.ClassifyUncertain` | classifier.py:4-5 | the label is "uncertain" iff some uncertain keyword occurs in the lowercased input, whatever else occurs |
| `Classifier.ClassifyStressed` | classifier.py:6-7 | the label is "stressed" iff no uncertain keyword occurs and some stressed keyword does |
| `Classifier.ClassifyPositive` | classifier.py:8-9 | the label is "positive" iff no uncertain or stressed keyword occurs and some positive keyword does |
| `Classifier.ClassifyNeutral` | classifier.py:10-11 | the label is "neutral" iff no keyword of any list occurs |
| `Classifier.ClassifyCaseInsensitive` | classifier.py:3 | classifying the lowercased input gives the same label |
| `SignalLogger.SignalOrDefault` | logger.py:16 | `detected_signal or classify_signal(user_input)`; stated by `SignalDefaulting` |
| `SignalLogger.MakeRecord` | logger.py:18-28 | the record `write` serialises: the given fields, the time `now` and the defaulted signal |
| `SignalLogger.SignalDefaulting` | logger.py:16 | a missing or empty signal is replaced by the classifier's label, one of the four labels; a non-empty signal is stored as given |
| `SignalLogger.Logger.constructor` | logger.py:7-8 | the logger keeps its output path, `logs.jsonl` by default, and starts on whatever that file holds, possibly no file |
| `SignalLogger.Logger.Write` | logger.py:10-31 | with the source's defaults for the optional arguments, the log afterwards exists and is the old log plus exactly one record, built from the arguments with the defaulted signal; the path is unchanged |
| `SignalLogger.Matching` | logger.py:41 | the records of an agent-user pair, in log order; stated by `MatchingMembers` (which and how many) and `MatchingAppend` (order) |
| `SignalLogger.MatchingMembers` | logger.py:41 | the filter keeps exactly the records whose agent id and user id both match, each as many times as it occurs in the log, and no other record |
| `SignalLogger.MatchingAppend` | logger.py:41 | the filter keeps log order: a matching record written last becomes the last match, so the last `limit` matches are the most recently written |
| `SignalLogger.SliceFrom` | logger.py:42 | Python's `s[start:]` is a suffix; its length for negative and non-negative starts, clamped to the sequence |
| `SignalLogger.Logger.ReadRecent` | logger.py:33-42 | `limit` defaults to 10; only records of the pair, as a suffix of the matches in log order; for `limit > 0` the last `min(limit, n)`; for `limit == 0` all matches; for `limit < 0` all but the first `-limit`; no file yields nothing |
| `SignalLogger.Bump` | logger.py:48 | counting one occurrence increments that signal's count by one, adds the key if new, keeps keys distinct and raises the total by one |
| `SignalLogger.Tally` | logger.py:48 | keys are distinct and are exactly the signals that occur; each count is that signal's number of occurrences; the counts sum to the input length |
| `SignalLogger.Logger.SummarizeSignals` | logger.py:44-48 | a frequency table over the signals of `read_recent(..., 1000)`: keys are exactly the signals present, counts are their occurrences, and the total is the number of records read, at most 1000 |

## Left out

- SQLAlchemy sessions, SQLite and transactions: the tables are sequences and a commit is an append. Commit failures and rollbacks are not modelled.
- FastAPI routing and Pydantic coercion: `ValidateEvent` checks only that the required fields are present. Type coercion and timestamp parsing are not modelled. `Ingest` takes an already validated event.
- `datetime` arithmetic: timestamps are integer milliseconds, read as instants. The source's microsecond resolution and its naive/aware datetime mix-ups are not modelled. SQLite's `DateTime` column stores wall-clock fields without the UTC offset, so for aware timestamps with different offsets `order_by(Anomaly.detected_at.desc())` sorts by wall clock, while `QueryAnomalies` sorts by instant.
- Payload contents: the payload is an opaque JSON object whose numbers are integers. JSON floats are not modelled.
- JSONL I/O: the log file is modelled as its records, or `None` while it does not exist. The model assumes `json.loads` gives back what `json.dumps` wrote. Lines written by other programs, malformed lines and records without `agent_id` or `user_id` are not modelled.
- `datetime.now().strftime(...)` in `write` becomes the parameter `now`.
- `SignalLogger.SignalOrDefault`: `detected_signal` is typed as an optional string, so only `None` and `""` are treated as falsy. Other falsy values a caller could pass through `**data` (`0`, `False`, `[]`, `{}`) would also be replaced by the classifier's label in Python; this is not modelled.
- `Models.Database.constructor`: the rows already in the database file must have ids 1, 2, 3, … in order, as they do when only this service has ever written to the file. Deleted rows and ids chosen by other writers are not modelled.
- `write(**data)` called with missing or extra keys raises `TypeError` in Python; this is not modelled.
- `str.lower()` is modelled for ASCII letters only. Unicode case mapping is not modelled.
- `IntegrityService.QueryAnomalies`: the database leaves the order among anomalies with equal `detected_at` unspecified. The model keeps table order for ties. The contract promises only a newest-first permutation.
- `SignalLogger.Tally`: the key order of `dict(Counter(...))`, first occurrence, is what the model builds, but its contract does not state it.
- Concurrency: the source runs no locking and the model is sequential.
- `api.py` (HTTP wrappers and matplotlib charts) and `generate_logs.py` (a random client script) are not part of this model.
