/**
 * Record shapes and stores of integrity_service/models.py: the validated inbound
 * `SignalEvent`, the `events` and `anomalies` tables (auto-incremented ids,
 * `commit` modelled as an append), and the process-wide `windows` table, a
 * default-empty map from user id to the timestamps of that user's recent events.
 * Timestamps are integer milliseconds.
 */
module Models {
  import opened Wrappers

  type UserId = string

  /** An opaque JSON value, the element type of an event's payload. */
  datatype Json =
    | JNull
    | JBool(b: bool)
    | JNumber(n: int)
    | JString(s: string)
    | JArray(items: seq<Json>)
    | JObject(fields: map<string, Json>)

  type Payload = map<string, Json>

  /** A validated inbound event. */
  datatype SignalEvent = SignalEvent(
    userId: UserId,
    agentId: string,
    signalType: string,
    timestamp: int,
    payload: Payload)

  /** An inbound request body before validation: every field may be missing. */
  datatype RawEvent = RawEvent(
    userId: Option<UserId>,
    agentId: Option<string>,
    signalType: Option<string>,
    timestamp: Option<int>,
    payload: Option<Payload>)

  /** A row of the `events` table. */
  datatype Event = Event(
    id: nat,
    userId: UserId,
    agentId: string,
    signalType: string,
    timestamp: int,
    payload: Payload)

  /** A row of the `anomalies` table: no severity, no link to an event. */
  datatype Anomaly = Anomaly(
    id: nat,
    userId: UserId,
    detectedAt: int,
    count: nat,
    windowStart: int)

  /** The required fields of `SignalEvent`, in declaration order. */
  const RequiredFields: seq<string> := ["user_id", "agent_id", "signal_type", "timestamp"]

  /**
   * Required-field validation of `SignalEvent`: the four required fields must be
   * present; a missing payload defaults to the empty object. A refusal names
   * every missing field, in declaration order.
   */
  function ValidateEvent(raw: RawEvent): (r: Result<SignalEvent, seq<string>>)
    ensures r.Ok? <==>
      raw.userId.Some? && raw.agentId.Some? && raw.signalType.Some? && raw.timestamp.Some?
    ensures r.Ok? ==>
      r.value.userId == raw.userId.value && r.value.agentId == raw.agentId.value &&
      r.value.signalType == raw.signalType.value && r.value.timestamp == raw.timestamp.value
    ensures r.Ok? && raw.payload.None? ==> r.value.payload == map[]
    ensures r.Ok? && raw.payload.Some? ==> r.value.payload == raw.payload.value
    ensures r.Err? ==> r.error != [] && |r.error| <= 4
    ensures r.Err? ==> forall f :: f in r.error ==> f in RequiredFields
    ensures r.Err? ==> forall i, j :: 0 <= i < j < |r.error| ==> r.error[i] != r.error[j]
    ensures r.Err? ==> ("user_id" in r.error <==> raw.userId.None?)
    ensures r.Err? ==> ("agent_id" in r.error <==> raw.agentId.None?)
    ensures r.Err? ==> ("signal_type" in r.error <==> raw.signalType.None?)
    ensures r.Err? ==> ("timestamp" in r.error <==> raw.timestamp.None?)
  {
    var missing :=
      (if raw.userId.None? then ["user_id"] else []) +
      (if raw.agentId.None? then ["agent_id"] else []) +
      (if raw.signalType.None? then ["signal_type"] else []) +
      (if raw.timestamp.None? then ["timestamp"] else []);
    if missing != [] then Err(missing)
    else Ok(SignalEvent(raw.userId.value, raw.agentId.value, raw.signalType.value,
                        raw.timestamp.value, raw.payload.GetOr(map[])))
  }

  /** `Event(**event.dict())` with the id the table assigns. */
  function ToEventRow(id: nat, e: SignalEvent): Event {
    Event(id, e.userId, e.agentId, e.signalType, e.timestamp, e.payload)
  }

  /** Ids of a table are 1, 2, 3, ... in insertion order. */
  ghost predicate EventIdsSequential(events: seq<Event>) {
    forall i :: 0 <= i < |events| ==> events[i].id == i + 1
  }

  ghost predicate AnomalyIdsSequential(anomalies: seq<Anomaly>) {
    forall i :: 0 <= i < |anomalies| ==> anomalies[i].id == i + 1
  }

  /** Auto-incremented event ids are distinct and strictly increasing in insertion order. */
  lemma EventIdsIncreasing(events: seq<Event>, i: int, j: int)
    requires EventIdsSequential(events)
    requires 0 <= i < j < |events|
    ensures events[i].id < events[j].id
  {
  }

  lemma AnomalyIdsIncreasing(anomalies: seq<Anomaly>, i: int, j: int)
    requires AnomalyIdsSequential(anomalies)
    requires 0 <= i < j < |anomalies|
    ensures anomalies[i].id < anomalies[j].id
  {
  }

  /** The two tables of the SQLite database; each committed `add` is an append. */
  class Database {
    var events: seq<Event>
    var anomalies: seq<Anomaly>

    ghost predicate Valid()
      reads this
    {
      EventIdsSequential(events) && AnomalyIdsSequential(anomalies)
    }

    /**
     * The database as `create_all` leaves it: the rows already in the database
     * file, or empty tables when the file is new. Ids continue from the rows kept.
     */
    constructor (events0: seq<Event>, anomalies0: seq<Anomaly>)
      requires EventIdsSequential(events0) && AnomalyIdsSequential(anomalies0)
      ensures Valid()
      ensures events == events0 && anomalies == anomalies0
    {
      events := events0;
      anomalies := anomalies0;
    }

    /** `db.add(Event(**event.dict())); db.commit()`. */
    method AddEvent(e: SignalEvent) returns (id: nat)
      requires Valid()
      modifies this
      ensures Valid()
      ensures id == |old(events)| + 1
      ensures events == old(events) + [ToEventRow(id, e)]
      ensures anomalies == old(anomalies)
    {
      id := |events| + 1;
      events := events + [ToEventRow(id, e)];
    }

    /** `db.add(Anomaly(...)); db.commit()`. */
    method AddAnomaly(userId: UserId, detectedAt: int, count: nat, windowStart: int) returns (id: nat)
      requires Valid()
      modifies this
      ensures Valid()
      ensures id == |old(anomalies)| + 1
      ensures anomalies == old(anomalies) + [Anomaly(id, userId, detectedAt, count, windowStart)]
      ensures events == old(events)
    {
      id := |anomalies| + 1;
      anomalies := anomalies + [Anomaly(id, userId, detectedAt, count, windowStart)];
    }
  }

  /** The window of a user in a window table: the empty window for a user never seen. */
  function WindowOf(table: map<UserId, seq<int>>, u: UserId): seq<int> {
    if u in table then table[u] else []
  }

  /**
   * `windows = defaultdict(lambda: deque())`: one deque of timestamps per user id,
   * created empty on first lookup.
   */
  class Windows {
    var table: map<UserId, seq<int>>

    constructor ()
      ensures table == map[]
    {
      table := map[];
    }

    /** `windows[u]`: yields the user's window, creating an empty one if absent. */
    method Get(u: UserId) returns (w: seq<int>)
      modifies this
      ensures w == WindowOf(old(table), u)
      ensures u in table && table[u] == w
      ensures table == old(table)[u := w]
    {
      if u !in table {
        table := table[u := []];
      }
      w := table[u];
    }

    /** `window.append(t)` on the deque stored under `u`. */
    method Append(u: UserId, t: int)
      requires u in table
      modifies this
      ensures table == old(table)[u := old(table)[u] + [t]]
    {
      table := table[u := table[u] + [t]];
    }

    /** `window.popleft()` on the non-empty deque stored under `u`. */
    method PopLeft(u: UserId) returns (t: int)
      requires u in table && |table[u]| > 0
      modifies this
      ensures t == old(table)[u][0]
      ensures table == old(table)[u := old(table)[u][1..]]
    {
      t := table[u][0];
      table := table[u := table[u][1..]];
    }
  }
}
