/** The polling watcher that turns ring events into webhook calls, and its
    guarantees over every interleaving with the backends that append. */
module Watcher {
  import opened EventRing

  /** One webhook call and whether the receiver took it. */
  datatype Attempt = Attempt(id: int, delivered: bool)

  ghost function Ids(events: seq<SharedEvent>): set<int> { set e | e in events :: e.eventId }

  ghost predicate Fresh(events: seq<SharedEvent>, i: nat, seen: set<int>)
    requires i < |events|
  {
    events[i].eventId !in seen + Ids(events[..i])
  }

  /** The calls of one poll: in the order of the rows, for the wanted ones that
      had not been seen. `receiver` decides which calls succeed. */
  ghost function Attempts(events: seq<SharedEvent>, seen: set<int>, want: set<Decision>,
                          receiver: int -> bool): seq<Attempt> {
    if events == [] then []
    else
      var k := |events| - 1;
      Attempts(events[..k], seen, want, receiver) +
      (if Fresh(events, k, seen) && events[k].decision in want
       then [Attempt(events[k].eventId, receiver(events[k].eventId))] else [])
  }

  /** The calls of a catch-up: every wanted row, up to the first refusal. */
  ghost function CatchUp(events: seq<SharedEvent>, want: set<Decision>, receiver: int -> bool): seq<Attempt> {
    if events == [] then []
    else
      var k := |events| - 1;
      CatchUp(events[..k], want, receiver) +
      (if !CatchUpFails(events[..k], want, receiver) && events[k].decision in want
       then [Attempt(events[k].eventId, receiver(events[k].eventId))] else [])
  }

  ghost predicate CatchUpFails(events: seq<SharedEvent>, want: set<Decision>, receiver: int -> bool) {
    exists e :: e in events && e.decision in want && !receiver(e.eventId)
  }

  lemma NothingYet(seen: set<int>, want: set<Decision>, receiver: int -> bool)
    ensures Ids([]) == {} && Attempts([], seen, want, receiver) == []
    ensures CatchUp([], want, receiver) == [] && !CatchUpFails([], want, receiver)
  {
  }

  lemma IdsStep(events: seq<SharedEvent>, i: nat)
    requires i < |events|
    ensures Ids(events[..i + 1]) == Ids(events[..i]) + {events[i].eventId}
  {
    assert events[..i + 1][..i] == events[..i] && events[..i + 1][i] == events[i];
    assert forall e :: e in events[..i + 1] <==> e in events[..i] || e == events[i];
  }

  lemma AttemptsStep(events: seq<SharedEvent>, i: nat, seen: set<int>, want: set<Decision>, receiver: int -> bool)
    requires i < |events|
    ensures Attempts(events[..i + 1], seen, want, receiver) == Attempts(events[..i], seen, want, receiver) +
            (if Fresh(events, i, seen) && events[i].decision in want
             then [Attempt(events[i].eventId, receiver(events[i].eventId))] else [])
  {
    assert events[..i + 1][..i] == events[..i] && events[..i + 1][i] == events[i];
  }

  lemma CatchUpStep(events: seq<SharedEvent>, i: nat, want: set<Decision>, receiver: int -> bool)
    requires i < |events| && !CatchUpFails(events[..i], want, receiver)
    ensures CatchUp(events[..i + 1], want, receiver) == CatchUp(events[..i], want, receiver) +
            (if events[i].decision in want
             then [Attempt(events[i].eventId, receiver(events[i].eventId))] else [])
    ensures CatchUpFails(events[..i + 1], want, receiver) <==>
            events[i].decision in want && !receiver(events[i].eventId)
  {
    assert events[..i + 1][..i] == events[..i] && events[..i + 1][i] == events[i];
    assert forall e :: e in events[..i + 1] <==> e in events[..i] || e == events[i];
  }

  class Poller {
    var seen: set<int>
    const want: set<Decision>
    ghost var attempts: seq<Attempt>

    constructor (want: set<Decision>)
      ensures seen == {} && attempts == [] && this.want == want
    {
      seen, attempts, this.want := {}, [], want;
    }

    method Deliver(id: int, receiver: int -> bool) returns (ok: bool)
      modifies this`attempts
      ensures ok == receiver(id) && attempts == old(attempts) + [Attempt(id, ok)]
    {
      ok := receiver(id);
      attempts := attempts + [Attempt(id, ok)];
    }

    /** The seeding loop; a refused catch-up call ends the program. */
    method Seed(events: seq<SharedEvent>, catchUp: bool, receiver: int -> bool) returns (alive: bool)
      modifies this
      ensures alive == !(catchUp && CatchUpFails(events, want, receiver))
      ensures alive ==> seen == old(seen) + Ids(events)
      ensures attempts == old(attempts) + (if catchUp then CatchUp(events, want, receiver) else [])
    {
      hide Ids, CatchUp, CatchUpFails;
      NothingYet(seen, want, receiver);
      assert events[..0] == [];
      for i := 0 to |events|
        invariant seen == old(seen) + Ids(events[..i])
        invariant catchUp ==> !CatchUpFails(events[..i], want, receiver)
        invariant attempts == old(attempts) + (if catchUp then CatchUp(events[..i], want, receiver) else [])
      {
        var e := events[i];
        IdsStep(events, i);
        if catchUp { CatchUpStep(events, i, want, receiver); }
        seen := seen + {e.eventId};
        if catchUp && e.decision in want {
          var ok := Deliver(e.eventId, receiver);
          if !ok {
            CatchUpStops(events, i + 1, want, receiver);
            return false;
          }
        }
      }
      assert events[..|events|] == events;
      return true;
    }

    /** One successful poll. A refused call is not repeated. */
    method Poll(events: seq<SharedEvent>, receiver: int -> bool)
      modifies this
      ensures seen == old(seen) + Ids(events)
      ensures attempts == old(attempts) + Attempts(events, old(seen), want, receiver)
    {
      hide Ids, Attempts;
      NothingYet(seen, want, receiver);
      assert events[..0] == [];
      for i := 0 to |events|
        invariant seen == old(seen) + Ids(events[..i])
        invariant attempts == old(attempts) + Attempts(events[..i], old(seen), want, receiver)
      {
        var e := events[i];
        IdsStep(events, i);
        AttemptsStep(events, i, old(seen), want, receiver);
        if e.eventId in seen { continue; }
        seen := seen + {e.eventId};
        if e.decision !in want { continue; }
        var ok := Deliver(e.eventId, receiver);
      }
      assert events[..|events|] == events;
    }
  }

  lemma FailsForGood(events: seq<SharedEvent>, k: nat, want: set<Decision>, receiver: int -> bool)
    requires k <= |events| && CatchUpFails(events[..k], want, receiver)
    ensures CatchUpFails(events, want, receiver)
  {
  }

  lemma {:induction false} CatchUpStops(events: seq<SharedEvent>, k: nat, want: set<Decision>, receiver: int -> bool)
    requires k <= |events| && CatchUpFails(events[..k], want, receiver)
    ensures CatchUp(events, want, receiver) == CatchUp(events[..k], want, receiver)
    ensures CatchUpFails(events, want, receiver)
    decreases |events|
  {
    if k < |events| {
      var m := |events| - 1;
      assert events[..m][..k] == events[..k];
      CatchUpStops(events[..m], k, want, receiver);
      hide CatchUpFails;
      FailsForGood(events, m, want, receiver);
    } else {
      assert events[..k] == events;
    }
  }

  // ---------- runs ----------

  /** `fetches` is the history of successful fetches: how long the log was at
      the seed and at every later one. */
  datatype World = World(log: Log, capacity: nat, want: set<Decision>,
                         seen: set<int>, attempts: seq<Attempt>, fetches: seq<nat>)

  datatype Step =
    | Append(slot: SharedEvent)
    | Poll(receiver: int -> bool)
    | FailedPoll

  ghost function Next(w: World, step: Step): World {
    match step
    case Append(slot) => w.(log := Extended(w.log, slot))
    case Poll(receiver) =>
      var rows := Snapshot(w.log, w.capacity, w.capacity);
      w.(seen := w.seen + Ids(rows),
         attempts := w.attempts + Attempts(rows, w.seen, w.want, receiver),
         fetches := w.fetches + [|w.log|])
    case FailedPoll => w
  }

  /** The world is the watcher's state beside the ring it reads. */
  ghost predicate Mirrors(w: World, ring: Ring, poller: Poller)
    reads ring, poller
  {
    && w.log == ring.log && w.capacity == ring.capacity && w.want == poller.want
    && w.seen == poller.seen && w.attempts == poller.attempts
  }

  /** Every fetch asks for as many rows as the ring can hold. */
  method Fetch(ring: Ring) returns (rows: seq<SharedEvent>)
    requires ring.Valid()
    ensures rows == Snapshot(ring.log, ring.capacity, ring.capacity)
  {
    var out := new SharedEvent[ring.capacity](_ => ZERO_SLOT);
    var n := ring.TakeSnapshot(out, ring.capacity);
    rows := out[..n];
  }

  /** Seeding from the ring: the code of both sides starts the world. */
  method FetchAndSeed(ring: Ring, poller: Poller, catchUp: bool, receiver: int -> bool)
      returns (alive: bool, ghost w: World)
    requires ring.Valid() && poller.seen == {} && poller.attempts == []
    modifies poller
    ensures ring.Valid() && w == Seeded(ring.log, ring.capacity, poller.want, catchUp, receiver)
    ensures var rows := Snapshot(ring.log, ring.capacity, ring.capacity);
            alive <==> !(catchUp && CatchUpFails(rows, poller.want, receiver))
    ensures alive ==> Mirrors(w, ring, poller)
  {
    hide Snapshot, CatchUp, CatchUpFails, Ids;
    var rows := Fetch(ring);
    alive := poller.Seed(rows, catchUp, receiver);
    w := Seeded(ring.log, ring.capacity, poller.want, catchUp, receiver);
  }

  /** One successful poll of the ring: the code of both sides takes the step of the
      world. */
  method FetchAndPoll(ring: Ring, poller: Poller, receiver: int -> bool, ghost w: World) returns (ghost w': World)
    requires ring.Valid() && Mirrors(w, ring, poller)
    modifies poller
    ensures ring.Valid() && w' == Next(w, Poll(receiver)) && Mirrors(w', ring, poller)
  {
    hide Snapshot, Attempts, Ids;
    var rows := Fetch(ring);
    poller.Poll(rows, receiver);
    w' := Next(w, Poll(receiver));
  }

  ghost function Run(w: World, steps: seq<Step>): World {
    if steps == [] then w else Next(Run(w, steps[..|steps| - 1]), steps[|steps| - 1])
  }

  /** After a seed that did not end the program. */
  ghost function Seeded(log: Log, capacity: nat, want: set<Decision>, catchUp: bool, receiver: int -> bool): World {
    var rows := Snapshot(log, capacity, capacity);
    World(log, capacity, want, Ids(rows), if catchUp then CatchUp(rows, want, receiver) else [], [|log|])
  }

  /** The fetch that was the first to find record `k` did find it: it was then
      among the newest `capacity`. */
  ghost predicate Caught(fetches: seq<nat>, capacity: nat, k: int) {
    exists i :: 0 < i < |fetches| && fetches[i - 1] < k <= fetches[i] && fetches[i] - capacity < k
  }

  ghost predicate Tried(attempts: seq<Attempt>, k: int) {
    exists i :: 0 <= i < |attempts| && attempts[i].id == k
  }

  ghost predicate DistinctIds(attempts: seq<Attempt>) {
    forall i, j :: 0 <= i < j < |attempts| ==> attempts[i].id != attempts[j].id
  }

  ghost predicate Wanted(w: World, k: int) {
    1 <= k <= |w.log| && w.log[k - 1].decision in w.want
  }

  ghost predicate DistinctRows(rows: seq<SharedEvent>) {
    forall i, j :: 0 <= i < j < |rows| ==> rows[i].eventId != rows[j].eventId
  }

  ghost predicate HasRow(rows: seq<SharedEvent>, want: set<Decision>, k: int) {
    exists i :: 0 <= i < |rows| && rows[i].eventId == k && rows[i].decision in want
  }

  lemma TriedConcat(a: seq<Attempt>, b: seq<Attempt>, k: int)
    ensures Tried(a + b, k) <==> Tried(a, k) || Tried(b, k)
  {
    if i :| 0 <= i < |a| && a[i].id == k { assert (a + b)[i].id == k; }
    if i :| 0 <= i < |b| && b[i].id == k { assert (a + b)[|a| + i].id == k; }
  }

  lemma {:induction false} AttemptsExact(rows: seq<SharedEvent>, seen: set<int>, want: set<Decision>,
                                         receiver: int -> bool)
    requires DistinctRows(rows)
    ensures var a := Attempts(rows, seen, want, receiver);
            DistinctIds(a) && forall k :: Tried(a, k) <==> HasRow(rows, want, k) && k !in seen
  {
    if rows != [] {
      var m := |rows| - 1;
      var init, last := rows[..m], rows[m];
      AttemptsExact(init, seen, want, receiver);
      var a, b := Attempts(init, seen, want, receiver), Attempts(rows, seen, want, receiver);
      assert last.eventId !in Ids(init);
      assert Fresh(rows, m, seen) <==> last.eventId !in seen;
      var hit := Fresh(rows, m, seen) && last.decision in want;
      var c := if hit then [Attempt(last.eventId, receiver(last.eventId))] else [];
      assert hit ==> c[0].id == last.eventId;
      assert b == a + c;
      forall k ensures Tried(b, k) <==> HasRow(rows, want, k) && k !in seen {
        TriedConcat(a, c, k);
        assert Tried(c, k) <==> hit && k == last.eventId;
        assert HasRow(rows, want, k) <==> HasRow(init, want, k) || (last.eventId == k && last.decision in want);
      }
      assert !Tried(a, last.eventId);
      forall i | 0 <= i < |a| ensures a[i].id != last.eventId { assert Tried(a, a[i].id); }
    }
  }

  lemma {:induction false} CatchUpExact(rows: seq<SharedEvent>, want: set<Decision>, receiver: int -> bool)
    requires DistinctRows(rows) && !CatchUpFails(rows, want, receiver)
    ensures CatchUp(rows, want, receiver) == Attempts(rows, {}, want, receiver)
  {
    if rows != [] {
      var m := |rows| - 1;
      CatchUpExact(rows[..m], want, receiver);
      assert Fresh(rows, m, {});
    }
  }

  /** The rows of a fetch are the newest `capacity` records, no id twice. */
  lemma RowsExact(log: Log, capacity: nat, want: set<Decision>)
    requires Numbered(log)
    ensures var rows := Snapshot(log, capacity, capacity);
            && DistinctRows(rows)
            && (forall k :: k in Ids(rows) <==> 1 <= k <= |log| && |log| - capacity < k)
            && (forall k :: HasRow(rows, want, k) <==>
                  1 <= k <= |log| && |log| - capacity < k && log[k - 1].decision in want)
  {
    var rows := Snapshot(log, capacity, capacity);
    SnapshotIsNewest(log, capacity, capacity);
    forall k | 1 <= k <= |log| && |log| - capacity < k ensures k in Ids(rows) && rows[|log| - k] == log[k - 1] {
      assert rows[|log| - k] == log[k - 1];
      assert rows[|log| - k] in rows;
    }
  }

  ghost predicate Descending(rows: seq<SharedEvent>) {
    forall i, j :: 0 <= i < j < |rows| ==> rows[i].eventId > rows[j].eventId
  }

  /** Calls are made newest event first, and noted as the receiver took them. */
  ghost predicate NewestFirst(a: seq<Attempt>, receiver: int -> bool) {
    && (forall i, j :: 0 <= i < j < |a| ==> a[i].id > a[j].id)
    && (forall i :: 0 <= i < |a| ==> a[i].delivered == receiver(a[i].id))
  }

  ghost predicate CallsFor(a: seq<Attempt>, rows: seq<SharedEvent>, receiver: int -> bool) {
    NewestFirst(a, receiver) && forall i :: 0 <= i < |a| ==> a[i].id in Ids(rows)
  }

  lemma CallsForMore(a: seq<Attempt>, rows: seq<SharedEvent>, receiver: int -> bool)
    requires rows != [] && Descending(rows) && CallsFor(a, rows[..|rows| - 1], receiver)
    ensures var id := rows[|rows| - 1].eventId;
            CallsFor(a, rows, receiver) && CallsFor(a + [Attempt(id, receiver(id))], rows, receiver)
  {
    var m := |rows| - 1;
    IdsStep(rows, m);
    assert rows[..m + 1] == rows;
    assert forall k :: k in Ids(rows[..m]) ==> k > rows[m].eventId;
  }

  lemma {:induction false} PollNewestFirst(rows: seq<SharedEvent>, seen: set<int>, want: set<Decision>,
                                           receiver: int -> bool)
    requires Descending(rows)
    ensures CallsFor(Attempts(rows, seen, want, receiver), rows, receiver)
  {
    hide CallsFor, Fresh;
    if rows == [] {
      NothingCalled(receiver);
    } else {
      var init := rows[..|rows| - 1];
      PollNewestFirst(init, seen, want, receiver);
      CallsForMore(Attempts(init, seen, want, receiver), rows, receiver);
      assert Attempts(init, seen, want, receiver) + [] == Attempts(init, seen, want, receiver);
    }
  }

  lemma {:induction false} CatchUpNewestFirst(rows: seq<SharedEvent>, want: set<Decision>, receiver: int -> bool)
    requires Descending(rows)
    ensures CallsFor(CatchUp(rows, want, receiver), rows, receiver)
  {
    hide CallsFor, CatchUpFails;
    if rows == [] {
      NothingCalled(receiver);
    } else {
      var init := rows[..|rows| - 1];
      CatchUpNewestFirst(init, want, receiver);
      CallsForMore(CatchUp(init, want, receiver), rows, receiver);
      assert CatchUp(init, want, receiver) + [] == CatchUp(init, want, receiver);
    }
  }

  lemma NothingCalled(receiver: int -> bool)
    ensures CallsFor([], [], receiver)
  {
  }

  lemma SnapshotDescends(log: Log, capacity: nat)
    requires Numbered(log)
    ensures Descending(Snapshot(log, capacity, capacity))
  {
    SnapshotIsNewest(log, capacity, capacity);
  }

  /** A catch-up tries a wanted row exactly if no newer wanted one was refused. */
  lemma {:induction false} CatchUpTriedIff(rows: seq<SharedEvent>, want: set<Decision>, receiver: int -> bool, k: int)
    requires Descending(rows)
    ensures Tried(CatchUp(rows, want, receiver), k) <==>
            HasRow(rows, want, k) && forall j :: j > k && HasRow(rows, want, j) ==> receiver(j)
  {
    if rows != [] {
      var m := |rows| - 1;
      var init, last := rows[..m], rows[m];
      CatchUpTriedIff(init, want, receiver, k);
      var a := CatchUp(init, want, receiver);
      var hit := !CatchUpFails(init, want, receiver) && last.decision in want;
      var c := if hit then [Attempt(last.eventId, receiver(last.eventId))] else [];
      assert hit ==> c[0].id == last.eventId;
      assert CatchUp(rows, want, receiver) == a + c;
      TriedConcat(a, c, k);
      assert forall j :: HasRow(init, want, j) ==> j > last.eventId;
      forall j ensures HasRow(rows, want, j) <==> HasRow(init, want, j) || (last.eventId == j && last.decision in want)
      {
        HasRowStep(rows, want, j);
      }
      FailsMeans(init, want, receiver);
    }
  }

  lemma HasRowStep(rows: seq<SharedEvent>, want: set<Decision>, j: int)
    requires rows != []
    ensures var last := rows[|rows| - 1];
            HasRow(rows, want, j) <==>
            HasRow(rows[..|rows| - 1], want, j) || (last.eventId == j && last.decision in want)
  {
    assert rows == rows[..|rows| - 1] + [rows[|rows| - 1]];
  }

  lemma FailsMeans(rows: seq<SharedEvent>, want: set<Decision>, receiver: int -> bool)
    ensures CatchUpFails(rows, want, receiver) <==> exists j :: HasRow(rows, want, j) && !receiver(j)
  {
    if CatchUpFails(rows, want, receiver) {
      var e :| e in rows && e.decision in want && !receiver(e.eventId);
      assert HasRow(rows, want, e.eventId);
    }
  }

  /** The same for the ring: a seed with catch-up tries a record of the window exactly
      if it is wanted and no newer wanted one was refused, newest first; and every
      poll makes its calls newest first. */
  lemma CallsInOrder(log: Log, capacity: nat, seen: set<int>, want: set<Decision>, receiver: int -> bool, k: int)
    requires Numbered(log)
    ensures var rows := Snapshot(log, capacity, capacity);
            && NewestFirst(Attempts(rows, seen, want, receiver), receiver)
            && NewestFirst(CatchUp(rows, want, receiver), receiver)
            && (Tried(CatchUp(rows, want, receiver), k) <==>
                  && 1 <= k <= |log| && |log| - capacity < k && log[k - 1].decision in want
                  && forall j :: k < j <= |log| && log[j - 1].decision in want ==> receiver(j))
  {
    hide Snapshot, NewestFirst, Attempts, CatchUp, Ids, Tried, HasRow;
    var rows := Snapshot(log, capacity, capacity);
    SnapshotDescends(log, capacity);
    PollNewestFirst(rows, seen, want, receiver);
    CatchUpNewestFirst(rows, want, receiver);
    CatchUpTriedIff(rows, want, receiver, k);
    RowsExact(log, capacity, want);
    if HasRow(rows, want, k) {
      assert forall j :: k < j <= |log| && log[j - 1].decision in want ==> HasRow(rows, want, j);
    }
  }

  /** What every step keeps. `seed` are the calls made before the first poll. */
  ghost predicate Inv(w: World, seed: seq<Attempt>) {
    && Numbered(w.log) && |w.fetches| >= 1 && w.fetches[|w.fetches| - 1] <= |w.log|
    && (forall i :: 0 < i < |w.fetches| ==> w.fetches[i - 1] <= w.fetches[i])
    && (forall i :: 0 <= i < |w.fetches| ==> w.fetches[i] <= w.fetches[|w.fetches| - 1])
    && (forall k :: k in w.seen ==> 1 <= k <= w.fetches[|w.fetches| - 1])
    && (forall k :: 1 <= k <= w.fetches[|w.fetches| - 1] && w.fetches[|w.fetches| - 1] - w.capacity < k ==> k in w.seen)
    && DistinctIds(w.attempts)
    && (forall k :: Tried(w.attempts, k) ==> k in w.seen)
    && (forall k :: Tried(w.attempts, k) <==> Tried(seed, k) || (Wanted(w, k) && Caught(w.fetches, w.capacity, k)))
  }

  lemma CaughtStep(fetches: seq<nat>, n: nat, capacity: nat, k: int)
    requires |fetches| >= 1
    ensures Caught(fetches + [n], capacity, k) <==>
            Caught(fetches, capacity, k) || (fetches[|fetches| - 1] < k <= n && n - capacity < k)
  {
    var f := fetches + [n];
    if i :| 0 < i < |fetches| && fetches[i - 1] < k <= fetches[i] && fetches[i] - capacity < k {
      assert f[i - 1] < k <= f[i];
    }
    if fetches[|fetches| - 1] < k <= n && n - capacity < k {
      assert f[|fetches| - 1] < k <= f[|fetches|];
    }
  }

  lemma AppendKeepsInv(w: World, seed: seq<Attempt>, slot: SharedEvent)
    requires Inv(w, seed)
    ensures Inv(Next(w, Append(slot)), seed)
  {
    var w' := Next(w, Append(slot));
    forall k | Caught(w.fetches, w.capacity, k) ensures Wanted(w', k) <==> Wanted(w, k) {
    }
  }

  lemma PollKeepsInv(w: World, seed: seq<Attempt>, receiver: int -> bool)
    requires Inv(w, seed)
    ensures Inv(Next(w, Poll(receiver)), seed)
  {
    hide Snapshot, Numbered, Caught, Fresh;
    var w' := Next(w, Poll(receiver));
    var rows, last, n := Snapshot(w.log, w.capacity, w.capacity), w.fetches[|w.fetches| - 1], |w.log|;
    var a := Attempts(rows, w.seen, w.want, receiver);
    RowsExact(w.log, w.capacity, w.want);
    AttemptsExact(rows, w.seen, w.want, receiver);
    forall k ensures Tried(a, k) <==> Wanted(w, k) && last < k <= n && n - w.capacity < k {
    }
    forall k
      ensures Tried(w'.attempts, k) <==> Tried(seed, k) || (Wanted(w', k) && Caught(w'.fetches, w.capacity, k))
      ensures Tried(w'.attempts, k) ==> k in w'.seen
    {
      TriedConcat(w.attempts, a, k);
      CaughtStep(w.fetches, n, w.capacity, k);
      WantedSame(w, w', k);
    }
    forall i | 0 <= i < |w.attempts| ensures w.attempts[i].id <= last { assert Tried(w.attempts, w.attempts[i].id); }
    forall i | 0 <= i < |a| ensures a[i].id > last { assert Tried(a, a[i].id); }
  }

  lemma WantedSame(w: World, w': World, k: int)
    requires w.log == w'.log && w.want == w'.want
    ensures Wanted(w, k) <==> Wanted(w', k)
  {
  }

  lemma {:induction false} RunKeepsInv(w: World, seed: seq<Attempt>, steps: seq<Step>)
    requires Inv(w, seed)
    ensures Inv(Run(w, steps), seed)
  {
    if steps != [] {
      var m := |steps| - 1;
      RunKeepsInv(w, seed, steps[..m]);
      var v := Run(w, steps[..m]);
      match steps[m]
      case Append(slot) => AppendKeepsInv(v, seed, slot);
      case Poll(receiver) => PollKeepsInv(v, seed, receiver);
      case FailedPoll =>
    }
  }

  lemma SeededInv(log: Log, capacity: nat, want: set<Decision>, catchUp: bool, receiver: int -> bool)
    requires Numbered(log) && (catchUp ==> !CatchUpFails(Snapshot(log, capacity, capacity), want, receiver))
    ensures var w := Seeded(log, capacity, want, catchUp, receiver);
            && Inv(w, w.attempts)
            && (forall k :: Tried(w.attempts, k) <==>
                  catchUp && Wanted(w, k) && |log| - capacity < k)
  {
    var w := Seeded(log, capacity, want, catchUp, receiver);
    var rows := Snapshot(log, capacity, capacity);
    RowsExact(log, capacity, want);
    if catchUp {
      CatchUpExact(rows, want, receiver);
      AttemptsExact(rows, {}, want, receiver);
    }
    forall k ensures !Caught(w.fetches, capacity, k) {
    }
  }

  /** Over any run after the seed: no id is tried twice, delivered or not, and a
      wanted event recorded after the seed has been tried exactly if the first
      successful fetch after it still found it in the ring. */
  lemma DeliveryGuarantee(log: Log, capacity: nat, want: set<Decision>, catchUp: bool, receiver: int -> bool,
                          steps: seq<Step>)
    requires Numbered(log) && (catchUp ==> !CatchUpFails(Snapshot(log, capacity, capacity), want, receiver))
    ensures var w := Run(Seeded(log, capacity, want, catchUp, receiver), steps);
            && DistinctIds(w.attempts)
            && (forall k :: k > |log| ==> (Tried(w.attempts, k) <==> Wanted(w, k) && Caught(w.fetches, capacity, k)))
            && (forall k :: k <= |log| ==> (Tried(w.attempts, k) <==>
                  catchUp && 1 <= k && log[k - 1].decision in want && |log| - capacity < k))
  {
    var w0 := Seeded(log, capacity, want, catchUp, receiver);
    SeededInv(log, capacity, want, catchUp, receiver);
    RunKeepsInv(w0, w0.attempts, steps);
    RunGrows(w0, steps);
    var w := Run(w0, steps);
    forall k | k <= |log| ensures !Caught(w.fetches, capacity, k) {
      FetchesRise(w, w0.attempts);
    }
  }

  lemma FetchesRise(w: World, seed: seq<Attempt>)
    requires Inv(w, seed)
    ensures forall i :: 0 <= i < |w.fetches| ==> w.fetches[0] <= w.fetches[i]
  {
    forall i | 0 <= i < |w.fetches| ensures w.fetches[0] <= w.fetches[i] { Rising(w.fetches, 0, i); }
  }

  lemma {:induction false} RunGrows(w: World, steps: seq<Step>)
    ensures var v := Run(w, steps);
            w.log <= v.log && w.capacity == v.capacity && w.want == v.want && w.fetches <= v.fetches
            && w.attempts <= v.attempts
  {
    if steps != [] { RunGrows(w, steps[..|steps| - 1]); }
  }

  lemma OnlyGapsLose(w: World, seed: seq<Attempt>)
    requires Inv(w, seed) && w.fetches[|w.fetches| - 1] == |w.log|
    requires forall k :: Tried(seed, k) ==> k <= w.fetches[0]
    ensures (forall k :: k > w.fetches[0] && Wanted(w, k) ==> Tried(w.attempts, k)) <==>
            (forall i, k :: 0 < i < |w.fetches| && w.fetches[i - 1] < k <= w.fetches[i] - w.capacity ==> !Wanted(w, k))
  {
    FetchesRise(w, seed);
    if forall k :: k > w.fetches[0] && Wanted(w, k) ==> Tried(w.attempts, k) {
      forall i, k | 0 < i < |w.fetches| && w.fetches[i - 1] < k <= w.fetches[i] - w.capacity ensures !Wanted(w, k) {
        if Wanted(w, k) {
          assert w.fetches[0] <= w.fetches[i - 1];
          OneGap(w, seed, i, k);
        }
      }
    }
    if forall i, k :: 0 < i < |w.fetches| && w.fetches[i - 1] < k <= w.fetches[i] - w.capacity ==> !Wanted(w, k) {
      forall k | k > w.fetches[0] && Wanted(w, k) ensures Tried(w.attempts, k) {
        var i := FirstFetchOf(w, k);
        assert w.fetches[i - 1] < k <= w.fetches[i];
      }
    }
  }

  lemma FirstFetchOf(w: World, k: int) returns (i: int)
    requires |w.fetches| >= 1 && w.fetches[0] < k <= w.fetches[|w.fetches| - 1]
    ensures 0 < i < |w.fetches| && w.fetches[i - 1] < k <= w.fetches[i]
  {
    i := 1;
    while w.fetches[i] < k
      invariant 1 <= i < |w.fetches| && w.fetches[i - 1] < k
      decreases |w.fetches| - i
    {
      i := i + 1;
    }
  }

  /** Fetches only rise, so `k` lies between at most one pair of them. */
  lemma OneGap(w: World, seed: seq<Attempt>, i: int, k: int)
    requires Inv(w, seed) && 0 < i < |w.fetches| && w.fetches[i - 1] < k <= w.fetches[i] - w.capacity
    ensures !Caught(w.fetches, w.capacity, k)
  {
    forall j | 0 < j < |w.fetches| && w.fetches[j - 1] < k <= w.fetches[j] ensures j == i {
      if j < i { Rising(w.fetches, j, i - 1); }
      if i < j { Rising(w.fetches, i, j - 1); }
    }
  }

  /** `k` fell into a gap: between two fetches, and no longer among the newest
      `capacity` at the later one. */
  ghost predicate Swallowed(fetches: seq<nat>, capacity: nat, k: int) {
    exists i :: 0 < i < |fetches| && fetches[i - 1] < k <= fetches[i] - capacity
  }

  /** Once a fetch has come after it, a record was either caught or swallowed. */
  lemma CaughtUnlessSwallowed(w: World, seed: seq<Attempt>, k: int)
    requires Inv(w, seed) && w.fetches[0] < k <= w.fetches[|w.fetches| - 1]
    ensures Caught(w.fetches, w.capacity, k) <==> !Swallowed(w.fetches, w.capacity, k)
  {
    var i := FirstFetchOf(w, k);
    assert w.fetches[i - 1] < k <= w.fetches[i];
    if j :| 0 < j < |w.fetches| && w.fetches[j - 1] < k <= w.fetches[j] - w.capacity {
      OneGap(w, seed, j, k);
    }
  }

  /** Over any run that ends with a successful fetch, a single wanted record that
      came after the seed has been tried exactly if no gap swallowed it. */
  lemma TriedUnlessSwallowed(log: Log, capacity: nat, want: set<Decision>, catchUp: bool, receiver: int -> bool,
                             steps: seq<Step>, last: int -> bool, k: int)
    requires Numbered(log) && (catchUp ==> !CatchUpFails(Snapshot(log, capacity, capacity), want, receiver))
    requires Wanted(Run(Seeded(log, capacity, want, catchUp, receiver), steps + [Poll(last)]), k) && k > |log|
    ensures var w := Run(Seeded(log, capacity, want, catchUp, receiver), steps + [Poll(last)]);
            Tried(w.attempts, k) <==> !Swallowed(w.fetches, capacity, k)
  {
    hide Snapshot, Inv, Wanted, Tried, Caught, Swallowed, CatchUpFails;
    var w0 := Seeded(log, capacity, want, catchUp, receiver);
    SeededInv(log, capacity, want, catchUp, receiver);
    RunKeepsInv(w0, w0.attempts, steps + [Poll(last)]);
    RunGrows(w0, steps + [Poll(last)]);
    var w := Run(w0, steps + [Poll(last)]);
    EndsWithFetch(w0, steps, last);
    WantedBound(w, k);
    DeliveryGuarantee(log, capacity, want, catchUp, receiver, steps + [Poll(last)]);
    CaughtUnlessSwallowed(w, w0.attempts, k);
  }

  lemma {:induction false} Rising(f: seq<nat>, i: int, j: int)
    requires forall x :: 0 < x < |f| ==> f[x - 1] <= f[x]
    requires 0 <= i <= j < |f|
    ensures f[i] <= f[j]
    decreases j - i
  {
    if i < j { Rising(f, i, j - 1); }
  }

  /** Over any run that ends with a successful fetch: every wanted event since
      the seed has been tried exactly if no wanted event fell into a gap, that
      is between two fetches and `capacity` or more before the end of the later
      one. In particular nothing is missed while at most `capacity` records
      come between consecutive fetches. */
  lemma NothingMissedIff(log: Log, capacity: nat, want: set<Decision>, catchUp: bool, receiver: int -> bool,
                         steps: seq<Step>, last: int -> bool)
    requires Numbered(log) && (catchUp ==> !CatchUpFails(Snapshot(log, capacity, capacity), want, receiver))
    ensures var w := Run(Seeded(log, capacity, want, catchUp, receiver), steps + [Poll(last)]);
            && ((forall k :: k > |log| && Wanted(w, k) ==> Tried(w.attempts, k)) <==>
                (forall i, k :: 0 < i < |w.fetches| && w.fetches[i - 1] < k <= w.fetches[i] - capacity ==>
                   !Wanted(w, k)))
            && ((forall i :: 0 < i < |w.fetches| ==> w.fetches[i] - w.fetches[i - 1] <= capacity) ==>
                forall k :: k > |log| && Wanted(w, k) ==> Tried(w.attempts, k))
  {
    hide Snapshot, Inv, Wanted, Tried, Caught;
    var w0 := Seeded(log, capacity, want, catchUp, receiver);
    SeededInv(log, capacity, want, catchUp, receiver);
    RunKeepsInv(w0, w0.attempts, steps + [Poll(last)]);
    RunGrows(w0, steps + [Poll(last)]);
    var w := Run(w0, steps + [Poll(last)]);
    EndsWithFetch(w0, steps, last);
    forall k | Tried(w0.attempts, k) ensures k <= |log| { WantedBound(w0, k); }
    OnlyGapsLose(w, w0.attempts);
  }

  lemma WantedBound(w: World, k: int)
    requires Wanted(w, k)
    ensures 1 <= k <= |w.log|
  {
  }

  lemma EndsWithFetch(w: World, steps: seq<Step>, last: int -> bool)
    ensures var v := Run(w, steps + [Poll(last)]);
            |v.fetches| > 0 && v.fetches[|v.fetches| - 1] == |v.log|
  {
    assert (steps + [Poll(last)])[..|steps|] == steps;
  }

  /** A refused call is never made good later in the same run. */
  lemma RefusedStaysRefused(log: Log, capacity: nat, want: set<Decision>, catchUp: bool, receiver: int -> bool,
                            steps: seq<Step>, more: seq<Step>, k: int)
    requires Numbered(log) && (catchUp ==> !CatchUpFails(Snapshot(log, capacity, capacity), want, receiver))
    requires Attempt(k, false) in Run(Seeded(log, capacity, want, catchUp, receiver), steps).attempts
    ensures Attempt(k, true) !in Run(Seeded(log, capacity, want, catchUp, receiver), steps + more).attempts
  {
    hide Seeded, Snapshot, CatchUpFails, Next, Run, Wanted, Caught, Tried, DistinctIds;
    var w0 := Seeded(log, capacity, want, catchUp, receiver);
    DeliveryGuarantee(log, capacity, want, catchUp, receiver, steps + more);
    RunConcat(w0, steps, more);
    RunGrows(Run(w0, steps), more);
    OneOutcome(Run(w0, steps).attempts, Run(w0, steps + more).attempts, k);
  }

  lemma OneOutcome(a: seq<Attempt>, b: seq<Attempt>, k: int)
    requires a <= b && DistinctIds(b) && Attempt(k, false) in a
    ensures Attempt(k, true) !in b
  {
    var i :| 0 <= i < |a| && a[i] == Attempt(k, false);
    assert b[i] == Attempt(k, false);
  }

  lemma {:induction false} RunConcat(w: World, steps: seq<Step>, more: seq<Step>)
    ensures Run(w, steps + more) == Run(Run(w, steps), more)
    decreases |more|
  {
    if more == [] {
      assert steps + more == steps;
    } else {
      var m := |more| - 1;
      RunConcat(w, steps, more[..m]);
      assert (steps + more)[..|steps + more| - 1] == steps + more[..m];
    }
  }
}
