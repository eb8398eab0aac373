/** Backends and the watcher together: from a blocked statement to the webhook. */
module EndToEnd {
  import opened EventRing
  import opened Pipeline
  import B = Backends
  import W = Watcher

  datatype Step =
    | Backend(step: B.Step)
    | Poll(receiver: int -> bool)
    | FailedPoll

  datatype State = State(server: B.System, watcher: W.World)

  /** The watcher seeds itself after some backend steps. */
  ghost function Seed(before: seq<B.Step>, capacity: nat, want: set<Decision>, catchUp: bool,
                      receiver: int -> bool): State {
    var s := B.Run(B.Start(true), before);
    State(s, W.Seeded(s.log, capacity, want, catchUp, receiver))
  }

  /** It survives its catch-up calls. */
  ghost predicate SeedSurvives(before: seq<B.Step>, capacity: nat, want: set<Decision>, catchUp: bool,
                               receiver: int -> bool) {
    catchUp ==> !W.CatchUpFails(Snapshot(B.Run(B.Start(true), before).log, capacity, capacity), want, receiver)
  }

  /** The watcher's view of the log is the server's. */
  ghost function Next(st: State, step: Step): State {
    match step
    case Backend(b) =>
      var s := B.Next(st.server, b);
      State(s, st.watcher.(log := s.log))
    case Poll(receiver) => st.(watcher := W.Next(st.watcher, W.Poll(receiver)))
    case FailedPoll => st
  }

  ghost function Run(st: State, steps: seq<Step>): State {
    if steps == [] then st else Next(Run(st, steps[..|steps| - 1]), steps[|steps| - 1])
  }

  /** A backend step writes one record or none, so to the watcher it is an append
      or nothing. */
  ghost function Seen(st: State, step: Step): W.Step {
    match step
    case Backend(b) =>
      var s := B.Next(st.server, b);
      if |s.log| > |st.server.log| && s.log == Extended(st.server.log, s.log[|st.server.log|])
      then W.Append(s.log[|st.server.log|])
      else W.FailedPoll
    case Poll(receiver) => W.Poll(receiver)
    case FailedPoll => W.FailedPoll
  }

  lemma BackendStepIsAppend(s: B.System, b: B.Step)
    ensures var s' := B.Next(s, b);
            s'.log == s.log || exists e :: s'.log == Extended(s.log, e)
  {
    hide B.FateOfStmt, B.Passes;
    if b.Begin? {
      var fate := B.FateOfStmt(B.Statement(s.tickets, b.backend, b.cfg, b.cmd, b.env, b.faults));
      if fate.slot.Some? && B.Next(s, b).log != s.log {
        assert B.Next(s, b).log == Extended(s.log, fate.slot.value);
      }
    }
  }

  lemma SeenStep(st: State, step: Step)
    requires st.watcher.log == st.server.log
    ensures Next(st, step).watcher == W.Next(st.watcher, Seen(st, step))
    ensures Next(st, step).watcher.log == Next(st, step).server.log
  {
    if step.Backend? {
      BackendStepIsAppend(st.server, step.step);
    }
  }

  /** Any joint run is a run of the backends and a run of the watcher. */
  lemma {:induction false} Projections(before: seq<B.Step>, st: State, steps: seq<Step>)
      returns (bs: seq<B.Step>, ws: seq<W.Step>)
    requires st.server == B.Run(B.Start(true), before) && st.watcher.log == st.server.log
    ensures Run(st, steps).server == B.Run(B.Start(true), bs)
    ensures Run(st, steps).watcher == W.Run(st.watcher, ws)
    ensures Run(st, steps).watcher.log == Run(st, steps).server.log
    ensures steps != [] && steps[|steps| - 1].Poll? ==>
              ws != [] && ws[|ws| - 1] == W.Poll(steps[|steps| - 1].receiver)
  {
    hide B.Next, W.Next, Seen, B.Start;
    if steps == [] {
      bs, ws := before, [];
    } else {
      var k := |steps| - 1;
      bs, ws := Projections(before, st, steps[..k]);
      var mid := Run(st, steps[..k]);
      SeenStep(mid, steps[k]);
      var w := Seen(mid, steps[k]);
      assert (ws + [w])[..|ws|] == ws;
      ws := ws + [w];
      SeenPoll(mid, steps[k]);
      if steps[k].Backend? {
        assert (bs + [steps[k].step])[..|bs|] == bs;
        bs := bs + [steps[k].step];
      }
    }
  }

  lemma SeenPoll(st: State, step: Step)
    ensures step.Poll? ==> Seen(st, step) == W.Poll(step.receiver)
  {
  }

  /** Record `own` has been tried exactly if it was written after the seed and no gap
      swallowed it, or before the seed and caught up with. */
  ghost predicate TriedExactly(st: State, own: int, seeded: nat, capacity: nat, catchUp: bool) {
    W.Tried(st.watcher.attempts, own) <==>
    if own > seeded then !W.Swallowed(st.watcher.fetches, capacity, own) else catchUp && own > seeded - capacity
  }

  /** After a last fetch, this holds for the record of every statement whose decision
      is wanted. A statement that began before a seed without catch-up and ended
      after it is not announced. */
  lemma {:induction false} RecordTriedIff(
      before: seq<B.Step>, capacity: nat, want: set<Decision>, catchUp: bool, receiver: int -> bool,
      steps: seq<Step>, last: int -> bool, own: int)
    requires SeedSurvives(before, capacity, want, catchUp, receiver)
    requires var st := Run(Seed(before, capacity, want, catchUp, receiver), steps + [Poll(last)]);
             1 <= own <= |st.server.log| && st.server.log[own - 1].decision in want
    ensures var st := Run(Seed(before, capacity, want, catchUp, receiver), steps + [Poll(last)]);
            && W.DistinctIds(st.watcher.attempts)
            && TriedExactly(st, own, |B.Run(B.Start(true), before).log|, capacity, catchUp)
  {
    hide Run, B.Run, W.Run, B.Next, W.Next, W.Caught, W.Tried, W.CatchUpFails, B.StmtInv, B.TicketInv, Snapshot;
    var st0 := Seed(before, capacity, want, catchUp, receiver);
    var st := Run(st0, steps + [Poll(last)]);
    var bs, ws := Projections(before, st0, steps + [Poll(last)]);
    B.RunKeeps(true, before);
    var init := ws[..|ws| - 1];
    assert ws == init + [W.Poll(last)];
    W.DeliveryGuarantee(st0.server.log, capacity, want, catchUp, receiver, ws);
    W.RunGrows(st0.watcher, ws);
    assert W.Wanted(st.watcher, own);
    if own > |st0.server.log| {
      W.TriedUnlessSwallowed(st0.server.log, capacity, want, catchUp, receiver, init, last, own);
    } else {
      assert st.watcher.log[own - 1] == st0.server.log[own - 1];
    }
  }

  /** In particular for every statement that was aborted by decision. */
  lemma {:induction false} BlockTriedIff(
      before: seq<B.Step>, capacity: nat, want: set<Decision>, catchUp: bool, receiver: int -> bool,
      steps: seq<Step>, last: int -> bool, h: nat)
    requires Block in want && SeedSurvives(before, capacity, want, catchUp, receiver)
    requires var st := Run(Seed(before, capacity, want, catchUp, receiver), steps + [Poll(last)]);
             h < |st.server.history| && st.server.history[h].outcome == AbortDecision
    ensures var st := Run(Seed(before, capacity, want, catchUp, receiver), steps + [Poll(last)]);
            var own := st.server.history[h].own;
            && own.Some? && W.DistinctIds(st.watcher.attempts)
            && TriedExactly(st, own.value, |B.Run(B.Start(true), before).log|, capacity, catchUp)
  {
    hide Run, B.Run, TriedExactly, SeedSurvives;
    var st := Run(Seed(before, capacity, want, catchUp, receiver), steps + [Poll(last)]);
    var bs, _ := Projections(before, Seed(before, capacity, want, catchUp, receiver), steps + [Poll(last)]);
    B.BlockedIsRecorded(true, bs, h);
    RecordTriedIff(before, capacity, want, catchUp, receiver, steps, last, st.server.history[h].own.value);
  }

  /** And for every statement that was assessed at warn level. */
  lemma {:induction false} WarningTriedIff(
      before: seq<B.Step>, capacity: nat, want: set<Decision>, catchUp: bool, receiver: int -> bool,
      steps: seq<Step>, last: int -> bool, h: nat)
    requires Warn in want && SeedSurvives(before, capacity, want, catchUp, receiver)
    requires var st := Run(Seed(before, capacity, want, catchUp, receiver), steps + [Poll(last)]);
             h < |st.server.history| && B.Assessed(st.server.history[h].stmt) && B.AtWarn(st.server.history[h].stmt)
    ensures var st := Run(Seed(before, capacity, want, catchUp, receiver), steps + [Poll(last)]);
            var own := st.server.history[h].own;
            && own.Some? && W.DistinctIds(st.watcher.attempts)
            && TriedExactly(st, own.value, |B.Run(B.Start(true), before).log|, capacity, catchUp)
  {
    hide Run, B.Run, TriedExactly, SeedSurvives;
    var st := Run(Seed(before, capacity, want, catchUp, receiver), steps + [Poll(last)]);
    var bs, _ := Projections(before, Seed(before, capacity, want, catchUp, receiver), steps + [Poll(last)]);
    B.RecordedIff(bs, h);
    RecordTriedIff(before, capacity, want, catchUp, receiver, steps, last, st.server.history[h].own.value);
  }

  /** In particular, while at most `capacity` records come between consecutive
      fetches, every block whose record was written after the seed is tried,
      exactly once. */
  lemma {:induction false} EveryBlockIsTried(
      before: seq<B.Step>, capacity: nat, want: set<Decision>, catchUp: bool, receiver: int -> bool,
      steps: seq<Step>, last: int -> bool, h: nat)
    requires Block in want && SeedSurvives(before, capacity, want, catchUp, receiver)
    requires var st := Run(Seed(before, capacity, want, catchUp, receiver), steps + [Poll(last)]);
             && (forall i :: 0 < i < |st.watcher.fetches| ==>
                   st.watcher.fetches[i] - st.watcher.fetches[i - 1] <= capacity)
             && h < |st.server.history| && st.server.history[h].outcome == AbortDecision
    ensures var st := Run(Seed(before, capacity, want, catchUp, receiver), steps + [Poll(last)]);
            var own := st.server.history[h].own;
            && own.Some? && W.DistinctIds(st.watcher.attempts)
            && (own.value > |B.Run(B.Start(true), before).log| ==> W.Tried(st.watcher.attempts, own.value))
  {
    hide Run, Seed, B.Run, W.Tried, SeedSurvives;
    BlockTriedIff(before, capacity, want, catchUp, receiver, steps, last, h);
  }
}
