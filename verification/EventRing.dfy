/** The bounded event history in shared memory. Every body that holds the lock
    is one atomic method here. */
module EventRing {
  import opened Strings
  import opened Wrappers

  datatype Decision = Allow | Warn | Block

  datatype RiskEvent = RiskEvent(timestamp: int, backendPid: int, databaseOid: int, userOid: int, primaryRule: string,
                                 riskScore: int, decision: Decision, baseDecision: Decision, runtimeMode: int,
                                 relationOid: int, operation: int)

  /** The texts handed over with an event; a missing one is a null pointer. */
  datatype Texts = Texts(ruleIds: Option<string>, relation: Option<string>, database: Option<string>,
                         user: Option<string>)

  datatype SharedEvent = SharedEvent(eventId: int, decisionId: int, timestamp: int, backendPid: int, databaseOid: int,
                                     userOid: int, relationOid: int, decision: Decision, baseDecision: Decision,
                                     runtimeMode: int, operation: int, riskScore: int, primaryRule: string,
                                     ruleIds: string, relationName: string, databaseName: string, userName: string,
                                     fingerprint: string)

  const RULE_MAX := 16
  const RULE_IDS_MAX := 64
  const NAMEDATALEN := 64
  const FINGERPRINT_MAX := 33

  /** The hash of operation and relation name, empty when hashing fails. */
  type Fingerprint = (int, string) -> string

  const ZERO_SLOT := SharedEvent(0, 0, 0, 0, 0, 0, 0, Allow, Allow, 0, 0, 0, "", "", "", "", "", "")

  function OrElse(t: Option<string>, other: string): string { if t.Some? then t.value else other }

  /** The slot of an event, before it gets its ids: every text cut to its field,
      the primary rule standing in for a missing rule list. */
  ghost function SlotFor(e: RiskEvent, t: Texts, fingerprint: string): SharedEvent {
    SharedEvent(0, 0, e.timestamp, e.backendPid, e.databaseOid, e.userOid, e.relationOid, e.decision, e.baseDecision,
                e.runtimeMode, e.operation, e.riskScore, Truncated(e.primaryRule, RULE_MAX),
                Truncated(OrElse(t.ruleIds, e.primaryRule), RULE_IDS_MAX),
                Truncated(OrElse(t.relation, ""), NAMEDATALEN),
                Truncated(OrElse(t.database, ""), NAMEDATALEN), Truncated(OrElse(t.user, ""), NAMEDATALEN),
                Truncated(fingerprint, FINGERPRINT_MAX))
  }

  function FingerprintOf(e: RiskEvent, t: Texts, hash: Fingerprint): string {
    hash(e.operation, OrElse(t.relation, ""))
  }

  // ---------- the log that the ring refines ----------

  type Log = seq<SharedEvent>

  function Min(a: int, b: int): int { if a <= b then a else b }

  /** Ids count the records of one server lifetime from 1. */
  ghost predicate Numbered(log: Log) {
    forall i :: 0 <= i < |log| ==> log[i].eventId == i + 1 && log[i].decisionId == i + 1
  }

  /** One more record, with the next ids. */
  ghost function Extended(log: Log, slot: SharedEvent): Log {
    log + [slot.(eventId := |log| + 1, decisionId := |log| + 1)]
  }

  ghost function Newest(log: Log, n: int): seq<SharedEvent>
    requires 0 <= n <= |log|
  {
    seq(n, i requires 0 <= i < n => log[|log| - 1 - i])
  }

  /** What a reader who asks for at most `maxOut` events gets. */
  ghost function Snapshot(log: Log, capacity: nat, maxOut: int): seq<SharedEvent> {
    Newest(log, if maxOut <= 0 then 0 else Min(|log|, Min(capacity, maxOut)))
  }

  /** The snapshot holds exactly the records with the newest ids, in strictly
      consecutive descending order. */
  lemma SnapshotIsNewest(log: Log, capacity: nat, maxOut: int)
    requires Numbered(log)
    ensures var s := Snapshot(log, capacity, maxOut);
            && (forall i :: 0 <= i < |s| ==> s[i].eventId == |log| - i && s[i].decisionId == s[i].eventId)
            && (forall e :: e in s <==> e in log && |log| - Min(capacity, maxOut) < e.eventId)
  {
    var s := Snapshot(log, capacity, maxOut);
    forall e | e in log && |log| - Min(capacity, maxOut) < e.eventId ensures e in s {
      var i :| 0 <= i < |log| && log[i] == e;
      assert s[|log| - 1 - i] == e;
    }
  }

  // ---------- remainders ----------

  lemma RemainderUnique(x: int, c: int, q: int, r: int)
    requires c > 0 && x == c * q + r && 0 <= r < c
    ensures x % c == r
  {
    assert x == c * (x / c) + x % c;
    var d := q - x / c;
    assert c * d == x % c - r by { assert c * d == c * q - c * (x / c); }
    assert d > 0 ==> c * d >= c;
    assert d < 0 ==> c * d <= -c;
  }

  lemma StepBack(n: nat, d: int, c: int)
    requires c > 0 && 0 <= d <= c && d <= n
    ensures (n - d) % c == if n % c >= d then n % c - d else n % c - d + c
  {
    var q, r := n / c, n % c;
    assert n == c * q + r;
    if r >= d {
      RemainderUnique(n - d, c, q, r - d);
    } else {
      assert c * (q - 1) == c * q - c;
      RemainderUnique(n - d, c, q - 1, r - d + c);
    }
  }

  lemma StepForward(n: nat, c: int)
    requires c > 0
    ensures (n + 1) % c == (n % c + 1) % c
  {
    StepBack(n + 1, 1, c);
    var r := n % c;
    if r + 1 < c {
      RemainderUnique(r + 1, c, 0, r + 1);
    } else {
      RemainderUnique(r + 1, c, 1, 0);
    }
  }

  /** The slot to be written holds none of the records to be kept. */
  lemma SlotsApart(n: nat, c: int)
    requires c > 0
    ensures forall i :: 0 <= i < n && n - i < c ==> i % c != n % c
  {
    forall i | 0 <= i < n && n - i < c ensures i % c != n % c { StepBack(n, n - i, c); }
  }

  /** What a reader finds in a slot: the event's numbers as they are, and of every
      text as much as its field holds. */
  lemma SlotReads(e: RiskEvent, t: Texts, fingerprint: string)
    ensures var r := SlotFor(e, t, fingerprint);
            && r.timestamp == e.timestamp && r.backendPid == e.backendPid && r.databaseOid == e.databaseOid
            && r.userOid == e.userOid && r.relationOid == e.relationOid && r.riskScore == e.riskScore
            && r.decision == e.decision && r.baseDecision == e.baseDecision && r.runtimeMode == e.runtimeMode
            && r.operation == e.operation
    ensures var r := SlotFor(e, t, fingerprint);
            && IsHead(r.primaryRule, e.primaryRule, 15) && IsHead(r.fingerprint, fingerprint, 32)
            && IsHead(r.ruleIds, if t.ruleIds.Some? then t.ruleIds.value else e.primaryRule, 63)
            && (if t.relation.Some? then IsHead(r.relationName, t.relation.value, 63) else r.relationName == "")
            && (if t.database.Some? then IsHead(r.databaseName, t.database.value, 63) else r.databaseName == "")
            && (if t.user.Some? then IsHead(r.userName, t.user.value, 63) else r.userName == "")
  {
  }

  /** The zeroed slot, filled field by field. */
  method FillSlot(event: RiskEvent, texts: Texts, fingerprint: string, eventId: int, decisionId: int)
      returns (slot: SharedEvent)
    ensures slot == SlotFor(event, texts, fingerprint).(eventId := eventId, decisionId := decisionId)
  {
    slot := ZERO_SLOT.(
      timestamp := event.timestamp, eventId := eventId, decisionId := decisionId,
      backendPid := event.backendPid, databaseOid := event.databaseOid, userOid := event.userOid,
      relationOid := event.relationOid, decision := event.decision, baseDecision := event.baseDecision,
      runtimeMode := event.runtimeMode, operation := event.operation, riskScore := event.riskScore);
    slot := slot.(primaryRule := Truncated(event.primaryRule, RULE_MAX));
    if texts.ruleIds.Some? {
      slot := slot.(ruleIds := Truncated(texts.ruleIds.value, RULE_IDS_MAX));
    } else {
      slot := slot.(ruleIds := Truncated(event.primaryRule, RULE_IDS_MAX));
    }
    if texts.relation.Some? { slot := slot.(relationName := Truncated(texts.relation.value, NAMEDATALEN)); }
    if texts.database.Some? { slot := slot.(databaseName := Truncated(texts.database.value, NAMEDATALEN)); }
    if texts.user.Some? { slot := slot.(userName := Truncated(texts.user.value, NAMEDATALEN)); }
    slot := slot.(fingerprint := Truncated(fingerprint, FINGERPRINT_MAX));
  }

  // ---------- the ring ----------

  class Ring {
    const capacity: int
    const events: array<SharedEvent>
    var head: int
    var count: int
    var nextEventId: int
    var nextDecisionId: int
    ghost var log: Log

    ghost predicate Valid()
      reads this, events
    {
      && capacity >= 1 && events.Length == capacity
      && nextEventId == nextDecisionId == |log| && Numbered(log)
      && head == |log| % capacity
      && count == Min(|log|, capacity)
      && forall i :: |log| - count <= i < |log| ==> events[i % capacity] == log[i]
    }

    constructor (historySize: int)
      ensures Valid() && fresh(events)
      ensures log == [] && capacity == if historySize < 1 then 1 else historySize
    {
      capacity := if historySize < 1 then 1 else historySize;
      events := new SharedEvent[if historySize < 1 then 1 else historySize](_ => ZERO_SLOT);
      head, count, nextEventId, nextDecisionId, log := 0, 0, 0, 0, [];
    }

    /** Records WARN and BLOCK decisions, and ALLOW ones only when a policy asks
        for audit. `full` is the injected fault that drops the event. That the
        capacity is at least 1, which the source tests again, is in `Valid`. */
    method Record(event: RiskEvent, texts: Texts, hash: Fingerprint, auditOnly: bool, full: bool)
      requires Valid()
      modifies this, events
      ensures Valid()
      ensures log == if full || (event.decision == Allow && !auditOnly) then old(log)
                     else Extended(old(log), SlotFor(event, texts, FingerprintOf(event, texts, hash)))
    {
      hide SlotFor;
      if full { return; }
      if event.decision == Allow && !auditOnly { return; }
      var fingerprint := FingerprintOf(event, texts, hash);
      nextEventId := nextEventId + 1;
      nextDecisionId := nextDecisionId + 1;
      ghost var n := |log|;
      SlotsApart(n, capacity);
      StepForward(n, capacity);
      var slot := FillSlot(event, texts, fingerprint, nextEventId, nextDecisionId);
      events[head] := slot;
      log := log + [slot];
      head := (head + 1) % capacity;
      if count < capacity {
        count := count + 1;
      }
    }

    /** Copies the newest events into `out` and says how many there are. */
    method TakeSnapshot(out: array?<SharedEvent>, maxOut: int) returns (n: int)
      requires Valid() && (out != null ==> out != events && maxOut <= out.Length)
      modifies out
      ensures out == null ==> n == 0
      ensures out != null ==> 0 <= n <= out.Length && out[..n] == Snapshot(log, capacity, maxOut)
    {
      if out == null || maxOut <= 0 { return 0; }
      n := Min(count, maxOut);
      for i := 0 to n
        invariant forall k :: 0 <= k < i ==> out[k] == log[|log| - 1 - k]
      {
        var idx := head - 1 - i;
        StepBack(|log|, 1 + i, capacity);
        while idx < 0
          invariant idx == head - 1 - i || (idx == head - 1 - i + capacity && head - 1 - i < 0)
        {
          idx := idx + capacity;
        }
        assert idx == (|log| - 1 - i) % capacity;
        out[i] := events[idx];
      }
    }
  }
}
