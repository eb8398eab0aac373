/** Many backends at once: a statement writes its event and takes its effect in
    two separate steps, and anything may happen in other backends between. */
module Backends {
  import opened EventRing
  import opened Risk
  import opened Utility
  import opened Pipeline
  import opened Wrappers

  /** A statement with the configuration its session had when it began. The
      ticket tells statements apart. */
  datatype Statement = Statement(ticket: nat, backend: int, cfg: Config, cmd: Command, env: Env, faults: Faults)

  /** `own` is the id of the record the statement wrote. */
  datatype Pending = Pending(stmt: Statement, own: Option<int>)

  datatype Ended = Ended(stmt: Statement, outcome: Outcome, notices: seq<Notice>, own: Option<int>)

  /** `writers` lists the tickets behind the log's records. */
  datatype System = System(log: Log, writers: seq<nat>, attached: bool, tickets: nat,
                           pending: map<int, Pending>, history: seq<Ended>)

  datatype Step =
    | Begin(backend: int, cfg: Config, cmd: Command, env: Env, faults: Faults)
    | Finish(backend: int)

  ghost function Start(attached: bool): System { System([], [], attached, 0, map[], []) }

  ghost function FateOfStmt(stmt: Statement): Fate { HookFate(stmt.cfg, stmt.cmd, stmt.env, stmt.faults) }

  /** The statement gets past the write of its event, whether or not one is due. */
  ghost predicate Passes(cfg: Config, cmd: Command, faults: Faults) {
    Examined(cfg, cmd).Classified? && Reaches(Examined(cfg, cmd).info, faults)
  }

  /** Up to the write of the event, under the lock: one step. A statement that
      fails before it, or that is of no interest, ends here. */
  ghost function Next(s: System, step: Step): System {
    match step
    case Begin(b, cfg, cmd, env, faults) =>
      if b in s.pending then s
      else
        var stmt := Statement(s.tickets, b, cfg, cmd, env, faults);
        var fate := FateOfStmt(stmt);
        if !Passes(cfg, cmd, faults) then
          s.(tickets := s.tickets + 1, history := s.history + [Ended(stmt, fate.outcome, fate.notices, None)])
        else if s.attached && fate.slot.Some? then
          s.(tickets := s.tickets + 1, log := WithRecord(s.log, fate.slot), writers := s.writers + [s.tickets],
             pending := s.pending[b := Pending(stmt, Some(|s.log| + 1))])
        else
          s.(tickets := s.tickets + 1, pending := s.pending[b := Pending(stmt, None)])
    case Finish(b) =>
      if b !in s.pending then s
      else
        var p := s.pending[b];
        var fate := FateOfStmt(p.stmt);
        s.(pending := s.pending - {b}, history := s.history + [Ended(p.stmt, fate.outcome, fate.notices, p.own)])
  }

  ghost function Run(s: System, steps: seq<Step>): System {
    if steps == [] then s else Next(Run(s, steps[..|steps| - 1]), steps[|steps| - 1])
  }

  // ---------- what every step keeps ----------

  /** Record `own` is the one `stmt` wrote. */
  ghost predicate Wrote(log: Log, writers: seq<nat>, stmt: Statement, own: int) {
    && 1 <= own <= |log| == |writers| && writers[own - 1] == stmt.ticket
    && FateOfStmt(stmt).slot.Some?
    && log[own - 1] == FateOfStmt(stmt).slot.value.(eventId := own, decisionId := own)
  }

  ghost predicate Accounted(s: System, stmt: Statement, own: Option<int>) {
    && stmt.ticket < s.tickets
    && (own.Some? <==> s.attached && FateOfStmt(stmt).slot.Some?)
    && (own.Some? ==> Wrote(s.log, s.writers, stmt, own.value))
  }

  ghost predicate LogInv(s: System) {
    && |s.log| == |s.writers| && Numbered(s.log)
    && (forall i :: 0 <= i < |s.log| ==> s.log[i].decision != Allow && s.writers[i] < s.tickets)
    && (forall i, j :: 0 <= i < j < |s.log| ==> s.writers[i] != s.writers[j])
  }

  ghost predicate StmtInv(s: System) {
    && (forall b :: b in s.pending ==>
          Accounted(s, s.pending[b].stmt, s.pending[b].own) && s.pending[b].stmt.backend == b)
    && (forall h :: 0 <= h < |s.history| ==>
          && Accounted(s, s.history[h].stmt, s.history[h].own)
          && s.history[h].outcome == FateOfStmt(s.history[h].stmt).outcome
          && s.history[h].notices == FateOfStmt(s.history[h].stmt).notices)
  }

  ghost predicate TicketInv(s: System) {
    && (forall b, c :: b in s.pending && c in s.pending && b != c ==>
          s.pending[b].stmt.ticket != s.pending[c].stmt.ticket)
    && (forall g, h :: 0 <= g < h < |s.history| ==> s.history[g].stmt.ticket != s.history[h].stmt.ticket)
    && (forall b, h :: b in s.pending && 0 <= h < |s.history| ==> s.pending[b].stmt.ticket != s.history[h].stmt.ticket)
  }

  lemma Grow(s: System, s': System, stmt: Statement, own: Option<int>)
    requires Accounted(s, stmt, own)
    requires s.log <= s'.log && s.writers <= s'.writers && |s'.log| == |s'.writers|
    requires s.attached == s'.attached && s.tickets <= s'.tickets
    ensures Accounted(s', stmt, own)
  {
  }

  /** What the machine uses of the fate of a statement. */
  lemma FateFacts(stmt: Statement)
    ensures FateOfStmt(stmt).slot.Some? ==>
              Passes(stmt.cfg, stmt.cmd, stmt.faults) && FateOfStmt(stmt).slot.value.decision != Allow
  {
    hide Examined, Score;
  }

  lemma BeginKeepsLog(s: System, step: Step)
    requires LogInv(s) && step.Begin?
    ensures LogInv(Next(s, step))
  {
    hide FateOfStmt, Passes;
    FateFacts(Statement(s.tickets, step.backend, step.cfg, step.cmd, step.env, step.faults));
  }

  lemma BeginKeepsStatements(s: System, step: Step)
    requires LogInv(s) && StmtInv(s) && step.Begin?
    ensures StmtInv(Next(s, step))
  {
    hide FateOfStmt, Passes, Accounted;
    var s' := Next(s, step);
    if step.backend !in s.pending {
      assert s.log <= s'.log && s.writers <= s'.writers && |s'.log| == |s'.writers|;
      forall b | b in s.pending ensures Accounted(s', s.pending[b].stmt, s.pending[b].own) {
        Grow(s, s', s.pending[b].stmt, s.pending[b].own);
      }
      forall h | 0 <= h < |s.history| ensures Accounted(s', s.history[h].stmt, s.history[h].own) {
        Grow(s, s', s.history[h].stmt, s.history[h].own);
      }
      NewIsAccounted(s, step);
    }
  }

  lemma NewIsAccounted(s: System, step: Step)
    requires LogInv(s) && step.Begin? && step.backend !in s.pending
    ensures var s' := Next(s, step);
            var stmt := Statement(s.tickets, step.backend, step.cfg, step.cmd, step.env, step.faults);
            if Passes(step.cfg, step.cmd, step.faults) then Accounted(s', stmt, s'.pending[step.backend].own)
            else Accounted(s', stmt, None)
  {
    hide FateOfStmt, Passes;
    FateFacts(Statement(s.tickets, step.backend, step.cfg, step.cmd, step.env, step.faults));
  }

  lemma BeginKeepsTickets(s: System, step: Step)
    requires StmtInv(s) && TicketInv(s) && step.Begin?
    ensures TicketInv(Next(s, step))
  {
    hide FateOfStmt, Passes, Wrote;
  }

  lemma FinishKeeps(s: System, step: Step)
    requires LogInv(s) && StmtInv(s) && TicketInv(s) && step.Finish?
    ensures LogInv(Next(s, step)) && StmtInv(Next(s, step)) && TicketInv(Next(s, step))
  {
    hide FateOfStmt, Passes, Wrote;
  }

  lemma {:induction false} RunKeeps(attached: bool, steps: seq<Step>)
    ensures var s := Run(Start(attached), steps);
            LogInv(s) && StmtInv(s) && TicketInv(s) && s.attached == attached
  {
    hide LogInv, StmtInv, TicketInv, FateOfStmt, Passes;
    if steps == [] {
      StartKeeps(attached);
    } else {
      var k := |steps| - 1;
      RunKeeps(attached, steps[..k]);
      var s := Run(Start(attached), steps[..k]);
      if steps[k].Begin? {
        BeginKeepsLog(s, steps[k]);
        BeginKeepsStatements(s, steps[k]);
        BeginKeepsTickets(s, steps[k]);
      } else {
        FinishKeeps(s, steps[k]);
      }
    }
  }

  lemma StartKeeps(attached: bool)
    ensures LogInv(Start(attached)) && StmtInv(Start(attached)) && TicketInv(Start(attached))
  {
  }

  // ---------- what is recorded ----------

  /** The hook classified the statement as one of interest, and no stage up to the
      write of its event raised. */
  ghost predicate Assessed(m: Statement) {
    && Examined(m.cfg, m.cmd).Classified? && Examined(m.cfg, m.cmd).info.kind != Other
    && m.faults(Collect).None? && m.faults(Assess).None? && m.faults(Policy).None? && m.faults(Fill).None?
    && m.faults(Persist).None?
  }

  ghost function ScoreOf(m: Statement): int
    requires Examined(m.cfg, m.cmd).Classified?
  {
    Score(Examined(m.cfg, m.cmd).info)
  }

  ghost predicate AtBlock(m: Statement)
    requires Examined(m.cfg, m.cmd).Classified?
  {
    m.cfg.mode == Enforce && ScoreOf(m) >= m.cfg.blockAt
  }

  ghost predicate AtWarn(m: Statement)
    requires Examined(m.cfg, m.cmd).Classified?
  {
    !AtBlock(m) && (m.cfg.mode == WarnOnly || m.cfg.mode == Enforce) && ScoreOf(m) >= m.cfg.warnAt
  }

  /** The fate of a statement, in terms of mode, score and thresholds. */
  lemma SlotIff(m: Statement)
    ensures FateOfStmt(m).slot.Some? <==> Assessed(m) && (AtBlock(m) || AtWarn(m))
    ensures FateOfStmt(m).slot.Some? ==> FateOfStmt(m).slot.value.decision == if AtBlock(m) then Block else Warn
  {
    hide Examined, Score;
  }

  lemma NoticeIff(m: Statement)
    ensures HighRisk in FateOfStmt(m).notices <==>
            && Assessed(m) && AtWarn(m)
            && m.faults(Detail).None? && !(m.cfg.debug && m.faults(DebugLog).Some?)
  {
    hide Examined, Score;
  }

  lemma FailOpenIff(m: Statement)
    ensures FailOpen in FateOfStmt(m).notices <==>
            StageFault(m.cfg, m.cmd, m.faults).Some? && FateOfStmt(m).outcome == Proceed
  {
    hide Examined, DecisionOf, Early, Late;
  }

  /** Over every run with shared memory: a statement has a record of its own exactly
      if it was assessed and its score reaches a threshold that counts in its
      mode; the record says which. */
  lemma {:induction false} RecordedIff(steps: seq<Step>, h: nat)
    requires h < |Run(Start(true), steps).history|
    ensures var s := Run(Start(true), steps); var e := s.history[h];
            && (e.own.Some? <==> Assessed(e.stmt) && (AtBlock(e.stmt) || AtWarn(e.stmt)))
            && (e.own.Some? ==> 1 <= e.own.value <= |s.log|)
            && (e.own.Some? ==> s.log[e.own.value - 1].decision == if AtBlock(e.stmt) then Block else Warn)
  {
    hide Run, Next, LogInv, TicketInv, FateOfStmt, Assessed, AtBlock, AtWarn;
    RunKeeps(true, steps);
    var s := Run(Start(true), steps);
    HistoryAccounted(s, h);
    SlotIff(s.history[h].stmt);
  }

  /** What a reader finds in that record. */
  lemma {:induction false} RecordReads(attached: bool, steps: seq<Step>, h: nat)
    requires h < |Run(Start(attached), steps).history|
    requires Run(Start(attached), steps).history[h].own.Some?
    ensures var s := Run(Start(attached), steps); var e := s.history[h]; var m := e.stmt;
            && 1 <= e.own.value <= |s.log| && Examined(m.cfg, m.cmd).Classified?
            && var r := s.log[e.own.value - 1];
               r.eventId == r.decisionId == e.own.value && Describes(r, m.cfg, m.env, Examined(m.cfg, m.cmd).info)
  {
    hide Run, Next, LogInv, TicketInv, Examined, RecordOf, Describes, DecisionOf;
    RunKeeps(attached, steps);
    var s := Run(Start(attached), steps);
    HistoryAccounted(s, h);
    var m := s.history[h].stmt;
    RecordDescribes(m.cfg, m.env, Examined(m.cfg, m.cmd).info);
    Renumbered(RecordOf(m.cfg, m.env, Examined(m.cfg, m.cmd).info), m.cfg, m.env, Examined(m.cfg, m.cmd).info,
               s.history[h].own.value);
  }

  /** The ids are none of the fields described. */
  lemma Renumbered(r: SharedEvent, cfg: Config, env: Env, q: QueryInfo, id: int)
    requires Describes(r, cfg, env, q)
    ensures Describes(r.(eventId := id, decisionId := id), cfg, env, q)
  {
  }

  /** Over every run: the high-risk notice is given exactly to the statements at warn
      level whose debug log and message did not fail. With shared memory, each of
      them has a WARN record; observe mode leaves neither notice nor record.
      The other notice says that a stage failed and the statement went on. */
  lemma {:induction false} NoticedIff(attached: bool, steps: seq<Step>, h: nat)
    requires h < |Run(Start(attached), steps).history|
    ensures var s := Run(Start(attached), steps); var e := s.history[h]; var m := e.stmt;
            && (HighRisk in e.notices <==>
                  && Assessed(m) && AtWarn(m)
                  && m.faults(Detail).None? && !(m.cfg.debug && m.faults(DebugLog).Some?))
            && (HighRisk in e.notices && attached ==>
                  e.own.Some? && 1 <= e.own.value <= |s.log| && s.log[e.own.value - 1].decision == Warn)
            && (m.cfg.mode == Observe ==> HighRisk !in e.notices && e.own.None?)
            && (FailOpen in e.notices <==> StageFault(m.cfg, m.cmd, m.faults).Some? && e.outcome == Proceed)
  {
    hide Run, Next, LogInv, TicketInv, FateOfStmt, Examined, Score, StageFault;
    RunKeeps(attached, steps);
    var s := Run(Start(attached), steps);
    HistoryAccounted(s, h);
    SlotIff(s.history[h].stmt);
    NoticeIff(s.history[h].stmt);
    FailOpenIff(s.history[h].stmt);
  }

  ghost predicate HasBlockRecord(s: System, e: Ended) {
    && e.own.Some? && 1 <= e.own.value <= |s.log|
    && var r := s.log[e.own.value - 1];
       r.decision == Block && r.backendPid == e.stmt.env.pid && r.eventId == e.own.value
  }

  /** Over every run: a statement that the decision aborted was in enforce mode
      and, with shared memory attached, had written a BLOCK record of its own
      before. */
  lemma {:induction false} BlockedIsRecorded(attached: bool, steps: seq<Step>, h: nat)
    requires h < |Run(Start(attached), steps).history|
    requires Run(Start(attached), steps).history[h].outcome == AbortDecision
    ensures var s := Run(Start(attached), steps); var e := s.history[h];
            e.stmt.cfg.mode == Enforce && (attached ==> HasBlockRecord(s, e))
  {
    hide Run, StmtInv, LogInv, TicketInv, Next, HookFate;
    RunKeeps(attached, steps);
    var s := Run(Start(attached), steps);
    HistoryAccounted(s, h);
    var stmt := s.history[h].stmt;
    DecisionAbortsOnlyInEnforce(stmt.cfg, stmt.cmd, stmt.env, stmt.faults);
  }

  lemma {:induction false} NothingAllowedIsRecorded(attached: bool, steps: seq<Step>)
    ensures forall e :: e in Run(Start(attached), steps).log ==> e.decision != Allow
  {
    hide Run, Next;
    RunKeeps(attached, steps);
  }

  /** Two ended statements never share a record. */
  lemma {:induction false} RecordsAreOwn(attached: bool, steps: seq<Step>, g: nat, h: nat)
    requires g < h < |Run(Start(attached), steps).history|
    requires Run(Start(attached), steps).history[g].own.Some?
    ensures var s := Run(Start(attached), steps); s.history[g].own != s.history[h].own
  {
    hide Run, Next, FateOfStmt;
    RunKeeps(attached, steps);
    var s := Run(Start(attached), steps);
    HistoryAccounted(s, g);
    HistoryAccounted(s, h);
  }

  /** Over every run, observe and warn mode abort a statement exactly if its
      classification raises or a stage lacks privilege; for a utility statement
      that is spelled out down to the parse tree. */
  lemma {:induction false} SoftModesAbortIff(attached: bool, steps: seq<Step>, h: nat)
    requires h < |Run(Start(attached), steps).history|
    requires Run(Start(attached), steps).history[h].stmt.cfg.mode != Enforce
    ensures var e := Run(Start(attached), steps).history[h]; var m := e.stmt;
            e.outcome != Proceed <==>
            Examined(m.cfg, m.cmd).Raised? || StageFault(m.cfg, m.cmd, m.faults) == Some(InsufficientPrivilege)
    ensures var e := Run(Start(attached), steps).history[h]; var m := e.stmt;
            m.cmd.UtilityCommand? ==>
              (e.outcome != Proceed <==> UtilityAborts(m.cfg, m.cmd.tree, m.cmd.catalog, m.faults))
  {
    hide Run, Next, LogInv, TicketInv, Accounted, Examined, HookFate, StageFault;
    RunKeeps(attached, steps);
    var s := Run(Start(attached), steps);
    HistoryAccounted(s, h);
    var m := s.history[h].stmt;
    HookAbortsIff(m.cfg, m.cmd, m.env, m.faults);
    NoBlockOutsideEnforce(m.cfg, m.cmd, m.env, m.faults);
    if m.cmd.UtilityCommand? { SoftModeAbortsIff(m.cfg, m.cmd.tree, m.cmd.catalog, m.env, m.faults); }
  }

  /** Over every run, an error of a stage other than of insufficient privilege
      aborts its statement exactly in enforce mode with fail_closed on. */
  lemma {:induction false} StageErrorsAbortIff(attached: bool, steps: seq<Step>, h: nat)
    requires h < |Run(Start(attached), steps).history|
    requires var m := Run(Start(attached), steps).history[h].stmt; var fault := StageFault(m.cfg, m.cmd, m.faults);
             fault.Some? && fault != Some(InsufficientPrivilege)
    ensures var e := Run(Start(attached), steps).history[h];
            e.outcome != Proceed <==> e.stmt.cfg.mode == Enforce && e.stmt.cfg.failClosed
  {
    hide Run, Next, LogInv, TicketInv, Accounted, Examined, HookFate, StageFault;
    RunKeeps(attached, steps);
    var s := Run(Start(attached), steps);
    HistoryAccounted(s, h);
    var m := s.history[h].stmt;
    InternalErrorAbortsIff(m.cfg, m.cmd, m.env, m.faults);
  }

  lemma NoBlockOutsideEnforce(cfg: Config, cmd: Command, env: Env, f: Faults)
    requires cfg.mode != Enforce
    ensures HookFate(cfg, cmd, env, f).outcome != AbortDecision
    ensures HookFate(cfg, cmd, env, f).outcome != AbortFailClosed
  {
    hide Examined, Score;
  }

  lemma HistoryAccounted(s: System, h: nat)
    requires StmtInv(s) && h < |s.history|
    ensures Accounted(s, s.history[h].stmt, s.history[h].own)
    ensures s.history[h].outcome == FateOfStmt(s.history[h].stmt).outcome
    ensures s.history[h].notices == FateOfStmt(s.history[h].stmt).notices
  {
  }

  // ---------- the machine and the hook ----------

  /** One backend left alone: begin and finish together have the outcome and the
      effect on the log that the hook's code is proved to have. */
  lemma BeginThenFinish(s: System, b: int, cfg: Config, cmd: Command, env: Env, faults: Faults)
    requires b !in s.pending
    ensures var s' := Next(Next(s, Begin(b, cfg, cmd, env, faults)), Finish(b));
            var fate := HookFate(cfg, cmd, env, faults);
            && s'.log == (if s.attached then WithRecord(s.log, fate.slot) else s.log)
            && |s'.history| == |s.history| + 1 && s'.history[|s.history|].outcome == fate.outcome
            && s'.history[|s.history|].notices == fate.notices
            && s'.pending == s.pending
  {
    hide HookFate, Passes;
    FateFacts(Statement(s.tickets, b, cfg, cmd, env, faults));
    var mid := Next(s, Begin(b, cfg, cmd, env, faults));
    if b in mid.pending {
      assert s.pending[b := mid.pending[b]] - {b} == s.pending;
    }
  }

  /** The same as a session runs it: the machine and the code agree on a utility
      statement, from any state in which the ring holds the machine's log. */
  method RunStatement(session: Session, ghost s: System, b: int, tree: Option<Node>, catalog: Catalog, env: Env,
                      f: Faults) returns (out: Outcome, ghost s': System)
    requires session.Valid() && b !in s.pending && s.attached && session.ring != null && session.ring.log == s.log
    modifies session`notices, session.Footprint()
    ensures session.Valid() && session.ring.log == s'.log
    ensures s' == Next(Next(s, Begin(b, session.cfg, UtilityCommand(tree, catalog), env, f)), Finish(b))
    ensures |s'.history| == |s.history| + 1 && out == s'.history[|s.history|].outcome
    ensures session.notices == old(session.notices) + s'.history[|s.history|].notices
  {
    hide HookFate, Next;
    BeginThenFinish(s, b, session.cfg, UtilityCommand(tree, catalog), env, f);
    var ran;
    out, ran := session.ProcessUtility(tree, catalog, env, f);
    s' := Next(Next(s, Begin(b, session.cfg, UtilityCommand(tree, catalog), env, f)), Finish(b));
  }
}
