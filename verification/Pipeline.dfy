/** From a classified statement to its fate: evaluation in stages, each of which
    may raise, with the failure policy around them. */
module Pipeline {
  import opened EventRing
  import opened Risk
  import opened Utility
  import opened RuleIds
  import opened Strings
  import opened Wrappers

  datatype Config = Config(enabled: bool, parallelWorker: bool, autovacuum: bool, mode: Mode, failClosed: bool,
                           warnAt: int, blockAt: int, debug: bool)

  /** The session and the clock; `hash` is the server's hash function. */
  datatype Env = Env(pid: int, now: int, databaseOid: int, userOid: int, databaseName: Option<string>,
                     userName: Option<string>, hash: Fingerprint)

  /** What the two hooks are called with. The analysis of a DELETE or UPDATE plan
      is an input; other plans come as a classification of no interest. */
  datatype Command =
    | UtilityCommand(tree: Option<Node>, catalog: Catalog)
    | DmlCommand(analysis: Result)

  /** The stages inside the error handler, in order. */
  datatype Stage = Collect | Assess | Policy | Fill | Persist | DebugLog | Detail | Release

  /** What a stage raises if it is reached. */
  type Faults = Stage -> Option<SqlState>

  datatype Error = Decided | Internal(state: SqlState)

  /** An abort is by decision, by an error of the classification, by an error of a
      stage that passed through the handler, or by the handler itself. */
  datatype Outcome =
    | Proceed | AbortDecision | AbortAnalysis(state: SqlState) | AbortInternal(state: SqlState) | AbortFailClosed

  datatype Notice = HighRisk | FailOpen

  // ---------- meaning ----------

  ghost function DecisionOf(cfg: Config, q: QueryInfo): Decision {
    Decide(cfg.mode, Score(q), cfg.warnAt, cfg.blockAt)
  }

  function KindCode(kind: QueryKind): int {
    match kind
    case Other => 0
    case DeleteNoWhere => 1
    case UpdateNoWhere => 2
    case Truncate => 3
    case DropTable => 4
    case DropDatabase => 5
    case AlterTable => 6
    case CreateIndex => 7
    case CreateIndexConcurrently => 8
    case Reindex => 9
    case VacuumFull => 10
    case Cluster => 11
  }

  /** The runtime safety mode is always the normal one. */
  const NORMAL := 0

  ghost function EventFor(cfg: Config, env: Env, q: QueryInfo): RiskEvent {
    RiskEvent(env.now, env.pid, env.databaseOid, env.userOid, RuleOf(q), Score(q), DecisionOf(cfg, q),
              DecisionOf(cfg, q), NORMAL, q.relationOid, KindCode(q.kind))
  }

  /** The texts that go with it. */
  ghost function TextsFor(env: Env, q: QueryInfo): Texts {
    Texts(Some(RuleOf(q)), Some(if q.relationQualname != "" then q.relationQualname else q.relationName),
          Some(Truncated(OrElse(env.databaseName, ""), NAMEDATALEN)),
          Some(Truncated(OrElse(env.userName, ""), NAMEDATALEN)))
  }

  ghost function RecordOf(cfg: Config, env: Env, q: QueryInfo): SharedEvent {
    var event, texts := EventFor(cfg, env, q), TextsFor(env, q);
    SlotFor(event, texts, FingerprintOf(event, texts, env.hash))
  }

  function FirstOf(a: Option<SqlState>, b: Option<SqlState>): Option<SqlState> { if a.Some? then a else b }

  /** The first error up to and including the write of the event. */
  ghost function Early(f: Faults): Option<SqlState> {
    FirstOf(f(Collect), FirstOf(f(Assess), FirstOf(f(Policy), FirstOf(f(Fill), f(Persist)))))
  }

  /** What is raised after the write of the event, if anything. */
  ghost function Late(cfg: Config, d: Decision, f: Faults): Option<Error> {
    if cfg.debug && f(DebugLog).Some? then Some(Internal(f(DebugLog).value))
    else if d != Allow && f(Detail).Some? then Some(Internal(f(Detail).value))
    else if d == Block then Some(Decided)
    else if f(Release).Some? then Some(Internal(f(Release).value))
    else None
  }

  ghost function Thrown(cfg: Config, q: QueryInfo, f: Faults): Option<Error> {
    if Early(f).Some? then Some(Internal(Early(f).value)) else Late(cfg, DecisionOf(cfg, q), f)
  }

  function StateOf(e: Error): SqlState { if e.Decided? then InsufficientPrivilege else e.state }

  /** The handler: privilege errors pass through, others follow the policy. */
  function Caught(cfg: Config, e: Error): Outcome {
    if StateOf(e) == InsufficientPrivilege then (if e.Decided? then AbortDecision else AbortInternal(e.state))
    else if cfg.mode == Enforce && cfg.failClosed then AbortFailClosed
    else Proceed
  }

  ghost function Verdict(cfg: Config, q: QueryInfo, f: Faults): Outcome {
    if q.kind == Other || Thrown(cfg, q, f).None? then Proceed else Caught(cfg, Thrown(cfg, q, f).value)
  }

  ghost predicate Reaches(q: QueryInfo, f: Faults) { q.kind != Other && Early(f).None? }

  ghost predicate Records(cfg: Config, q: QueryInfo, f: Faults) { Reaches(q, f) && DecisionOf(cfg, q) != Allow }

  /** The log with the next record, if there is one. */
  ghost function WithRecord(log: Log, slot: Option<SharedEvent>): Log {
    match slot
    case None => log
    case Some(e) => Extended(log, e)
  }

  ghost function RecordIf(cfg: Config, env: Env, q: QueryInfo, f: Faults): Option<SharedEvent> {
    if Records(cfg, q, f) then Some(RecordOf(cfg, env, q)) else None
  }

  ghost function Warned(cfg: Config, q: QueryInfo, f: Faults): seq<Notice> {
    (if Reaches(q, f) && DecisionOf(cfg, q) == Warn && f(Detail).None? && !(cfg.debug && f(DebugLog).Some?)
     then [HighRisk] else []) +
    (if q.kind != Other && Thrown(cfg, q, f).Some? && Verdict(cfg, q, f) == Proceed then [FailOpen] else [])
  }

  datatype Fate = Fate(outcome: Outcome, notices: seq<Notice>, slot: Option<SharedEvent>)

  ghost function FateOf(cfg: Config, env: Env, q: QueryInfo, f: Faults): Fate {
    Fate(Verdict(cfg, q, f), Warned(cfg, q, f), RecordIf(cfg, env, q, f))
  }

  ghost function Untouched(): Fate { Fate(Proceed, [], None) }

  // ---------- the hooks ----------

  function Skips(cfg: Config): bool { !cfg.enabled || cfg.parallelWorker }

  /** The classification a hook ends up with; what it does not look at is of no
      interest. */
  ghost function Examined(cfg: Config, cmd: Command): Result {
    if Skips(cfg) then Classified(INIT_INFO)
    else match cmd
      case UtilityCommand(tree, catalog) =>
        if MayBeRisky(tree) then Analyze(tree, cfg.autovacuum, catalog) else Classified(INIT_INFO)
      case DmlCommand(analysis) => analysis
  }

  /** Classification happens outside the error handler: its errors always abort. */
  ghost function HookFate(cfg: Config, cmd: Command, env: Env, f: Faults): Fate {
    match Examined(cfg, cmd)
    case Raised(state) => Fate(AbortAnalysis(state), [], None)
    case Classified(q) => FateOf(cfg, env, q, f)
  }

  /** The filter is invisible: outcome, messages and record are those of analysing
      every statement. */
  lemma FilterIsInvisible(cfg: Config, tree: Option<Node>, catalog: Catalog, env: Env, f: Faults)
    ensures HookFate(cfg, UtilityCommand(tree, catalog), env, f) ==
            if !cfg.enabled || cfg.parallelWorker then Untouched()
            else HookFate(cfg, DmlCommand(Analyze(tree, cfg.autovacuum, catalog)), env, f)
  {
    FilterIsSafe(tree, cfg.autovacuum, catalog);
  }

  /** Switched off, or in a parallel worker, neither hook does anything. */
  lemma SkippedIsUntouched(cfg: Config, cmd: Command, env: Env, f: Faults)
    requires !cfg.enabled || cfg.parallelWorker
    ensures HookFate(cfg, cmd, env, f) == Untouched()
  {
  }

  // ---------- who aborts, and why ----------

  /** The internal error that a classified statement runs into, if any. */
  ghost function Fault(cfg: Config, q: QueryInfo, f: Faults): Option<SqlState> {
    match Thrown(cfg, q, f)
    case Some(Internal(s)) => Some(s)
    case _ => None
  }

  /** The stages in the order in which they run. */
  const ORDER: seq<Stage> := [Collect, Assess, Policy, Fill, Persist, DebugLog, Detail, Release]

  /** The stage is run for this decision, given that nothing went wrong before. */
  ghost predicate Due(cfg: Config, d: Decision, stage: Stage) {
    match stage
    case DebugLog => cfg.debug
    case Detail => d == Warn || d == Block
    case Release => d == Allow || d == Warn
    case _ => true
  }

  /** The first due stage to raise is the one whose error counts. */
  lemma FaultIff(cfg: Config, q: QueryInfo, f: Faults, s: SqlState)
    ensures Fault(cfg, q, f) == Some(s) <==>
            exists i :: 0 <= i < 8 && Due(cfg, DecisionOf(cfg, q), ORDER[i]) && f(ORDER[i]) == Some(s)
                        && forall j :: 0 <= j < i && Due(cfg, DecisionOf(cfg, q), ORDER[j]) ==> f(ORDER[j]).None?
  {
    hide DecisionOf;
    var d := DecisionOf(cfg, q);
    assert ORDER[0] == Collect && ORDER[1] == Assess && ORDER[2] == Policy && ORDER[3] == Fill;
    assert ORDER[4] == Persist && ORDER[5] == DebugLog && ORDER[6] == Detail && ORDER[7] == Release;
  }

  /** The error of a stage that a hook runs into, if any. */
  ghost function StageFault(cfg: Config, cmd: Command, f: Faults): Option<SqlState> {
    match Examined(cfg, cmd)
    case Raised(_) => None
    case Classified(q) => if q.kind == Other then None else Fault(cfg, q, f)
  }

  lemma VerdictIff(cfg: Config, q: QueryInfo, f: Faults)
    requires q.kind != Other
    ensures Verdict(cfg, q, f) == AbortDecision <==> Fault(cfg, q, f).None? && DecisionOf(cfg, q) == Block
    ensures Verdict(cfg, q, f).AbortInternal? <==> Fault(cfg, q, f) == Some(InsufficientPrivilege)
    ensures Verdict(cfg, q, f) == AbortFailClosed <==>
            && Fault(cfg, q, f).Some? && Fault(cfg, q, f) != Some(InsufficientPrivilege)
            && cfg.mode == Enforce && cfg.failClosed
    ensures !Verdict(cfg, q, f).AbortAnalysis?
  {
  }

  /** The four ways in which a hook aborts a statement, each with its exact
      condition. */
  lemma HookAbortsIff(cfg: Config, cmd: Command, env: Env, f: Faults)
    ensures var o, r, fault := HookFate(cfg, cmd, env, f).outcome, Examined(cfg, cmd), StageFault(cfg, cmd, f);
            && (forall s :: o == AbortAnalysis(s) <==> r == Raised(s))
            && (o == AbortDecision <==>
                  r.Classified? && r.info.kind != Other && fault.None? && DecisionOf(cfg, r.info) == Block)
            && (o.AbortInternal? <==> fault == Some(InsufficientPrivilege))
            && (o == AbortFailClosed <==>
                  fault.Some? && fault != Some(InsufficientPrivilege) && cfg.mode == Enforce && cfg.failClosed)
  {
    hide Examined, Verdict, Fault;
    match Examined(cfg, cmd)
    case Raised(_) =>
    case Classified(q) => if q.kind == Other { NoInterest(cfg, q, f); } else { VerdictIff(cfg, q, f); }
  }

  lemma NoInterest(cfg: Config, q: QueryInfo, f: Faults)
    requires q.kind == Other
    ensures Verdict(cfg, q, f) == Proceed
  {
  }

  /** A decision aborts a statement only in enforce mode, only at or above the
      block threshold, and only after its BLOCK record was due. */
  lemma DecisionAbortsOnlyInEnforce(cfg: Config, cmd: Command, env: Env, f: Faults)
    requires HookFate(cfg, cmd, env, f).outcome == AbortDecision
    ensures cfg.mode == Enforce && Examined(cfg, cmd).Classified? && Score(Examined(cfg, cmd).info) >= cfg.blockAt
    ensures var slot := HookFate(cfg, cmd, env, f).slot;
            slot.Some? && slot.value.decision == Block && slot.value.backendPid == env.pid
  {
  }

  /** An error of a stage, other than of insufficient privilege, aborts exactly in
      enforce mode with fail_closed on. */
  lemma InternalErrorAbortsIff(cfg: Config, cmd: Command, env: Env, f: Faults)
    requires StageFault(cfg, cmd, f).Some? && StageFault(cfg, cmd, f) != Some(InsufficientPrivilege)
    ensures HookFate(cfg, cmd, env, f).outcome != Proceed <==> cfg.mode == Enforce && cfg.failClosed
  {
    hide Examined, Verdict, Fault, StageFault;
    HookAbortsIff(cfg, cmd, env, f);
    StageFaultIsClassified(cfg, cmd, f);
  }

  lemma StageFaultIsClassified(cfg: Config, cmd: Command, f: Faults)
    requires StageFault(cfg, cmd, f).Some?
    ensures Examined(cfg, cmd).Classified?
  {
  }

  /** Failing open, for the whole hook: outside enforce mode with fail_closed, a
      statement on which anything fails goes on exactly if it was a stage that
      failed, and not for want of privilege. */
  lemma FailsOpenIff(cfg: Config, cmd: Command, env: Env, f: Faults)
    requires Examined(cfg, cmd).Raised? || StageFault(cfg, cmd, f).Some?
    requires !(cfg.mode == Enforce && cfg.failClosed)
    ensures HookFate(cfg, cmd, env, f).outcome == Proceed <==>
            Examined(cfg, cmd).Classified? && StageFault(cfg, cmd, f) != Some(InsufficientPrivilege)
  {
    hide Examined, Verdict, Fault, StageFault;
    HookAbortsIff(cfg, cmd, env, f);
  }

  ghost predicate UtilityAborts(cfg: Config, tree: Option<Node>, catalog: Catalog, f: Faults) {
    && !Skips(cfg) && MayBeRisky(tree)
    && var r := Analyze(tree, cfg.autovacuum, catalog);
       r.Raised? || (r.info.kind != Other && Fault(cfg, r.info, f) == Some(InsufficientPrivilege))
  }

  /** The utility hook outside enforce mode aborts a statement exactly if it looks
      at it and either the classification raises or a stage lacks privilege. */
  lemma SoftModeAbortsIff(cfg: Config, tree: Option<Node>, catalog: Catalog, env: Env, f: Faults)
    requires cfg.mode != Enforce
    ensures HookFate(cfg, UtilityCommand(tree, catalog), env, f).outcome != Proceed <==>
            UtilityAborts(cfg, tree, catalog, f)
  {
    hide Analyze, MayBeRisky, Verdict, Fault;
    var cmd := UtilityCommand(tree, catalog);
    HookAbortsIff(cfg, cmd, env, f);
    if Examined(cfg, cmd).Classified? && DecisionOf(cfg, Examined(cfg, cmd).info) == Block { assert false; }
  }

  function Quiet(): Faults { s => None }

  function Only(stage: Stage, state: SqlState): Faults { s => if s == stage then Some(state) else None }

  const OBSERVING := Config(true, false, false, Observe, false, 50, 80, false)
  const ENFORCING := Config(true, false, false, Enforce, false, 50, 80, false)

  /** The hardening guide lets observe mode always fail open. A privilege error
      while signals are collected aborts the statement all the same. */
  lemma ObserveCanAbort(catalog: Catalog, env: Env)
    ensures HookFate(OBSERVING, UtilityCommand(Some(TruncateStmt([])), catalog), env,
                     Only(Collect, InsufficientPrivilege)).outcome == AbortInternal(InsufficientPrivilege)
  {
  }

  /** So does an option that does not read as a Boolean, with no stage failing. */
  lemma ClassificationCanAbort(catalog: Catalog, env: Env)
    ensures HookFate(OBSERVING, UtilityCommand(Some(ReindexStmt([DefElem("concurrently", None)], None)), catalog), env,
                     Quiet()).outcome == AbortAnalysis(SyntaxError)
  {
  }

  /** A recorded BLOCK need not have stopped anything: it did not exactly if the
      debug log or the error detail failed afterwards, with an error that fails
      open. */
  lemma RecordedBlockProceedsIff(cfg: Config, cmd: Command, env: Env, f: Faults)
    requires HookFate(cfg, cmd, env, f).slot.Some? && HookFate(cfg, cmd, env, f).slot.value.decision == Block
    ensures HookFate(cfg, cmd, env, f).outcome == Proceed <==>
            var late := if cfg.debug then FirstOf(f(DebugLog), f(Detail)) else f(Detail);
            late.Some? && late.value != InsufficientPrivilege && !cfg.failClosed
  {
    hide Examined, Analyze, Score;
  }

  /** A TRUNCATE in enforce mode, recorded as BLOCK, that goes on because
      there was no memory for the detail of its error message. */
  lemma RecordedBlockProceeds(catalog: Catalog, env: Env)
    ensures var fate := HookFate(ENFORCING, UtilityCommand(Some(TruncateStmt([])), catalog), env,
                                 Only(Detail, OutOfMemory));
            fate.outcome == Proceed && fate.slot.Some? && fate.slot.value.decision == Block
  {
    hide Examined, RecordOf, DecisionOf;
    var cmd := UtilityCommand(Some(TruncateStmt([])), catalog);
    TruncateBlocks(catalog);
    RecordDecision(ENFORCING, env, Examined(ENFORCING, cmd).info);
  }

  lemma TruncateBlocks(catalog: Catalog)
    ensures var r := Examined(ENFORCING, UtilityCommand(Some(TruncateStmt([])), catalog));
            r.Classified? && r.info.kind == Truncate && DecisionOf(ENFORCING, r.info) == Block
  {
    OneFinding(Finding("PGC003", 90));
  }

  lemma RecordDecision(cfg: Config, env: Env, q: QueryInfo)
    ensures RecordOf(cfg, env, q).decision == DecisionOf(cfg, q)
  {
    hide SlotFor, TextsFor, DecisionOf;
    var event, texts := EventFor(cfg, env, q), TextsFor(env, q);
    SlotDecision(event, texts, FingerprintOf(event, texts, env.hash));
  }

  /** The record of a statement, field by field. */
  ghost predicate Describes(r: SharedEvent, cfg: Config, env: Env, q: QueryInfo) {
    && r.timestamp == env.now && r.backendPid == env.pid && r.databaseOid == env.databaseOid && r.userOid == env.userOid
    && r.relationOid == q.relationOid && r.riskScore == Score(q) && r.baseDecision == r.decision && r.runtimeMode == 0
    && r.operation == KindCode(q.kind)
    && (if env.databaseName.Some? then IsHead(r.databaseName, env.databaseName.value, 63) else r.databaseName == "")
    && (if env.userName.Some? then IsHead(r.userName, env.userName.value, 63) else r.userName == "")
    && (q.relationQualname != "" ==> IsHead(r.relationName, q.relationQualname, 63))
    && (q.relationQualname == "" ==> IsHead(r.relationName, q.relationName, 63))
    && (q.relationQualname != "" ==> IsHead(r.fingerprint, env.hash(KindCode(q.kind), q.relationQualname), 32))
    && (q.relationQualname == "" ==> IsHead(r.fingerprint, env.hash(KindCode(q.kind), q.relationName), 32))
    && r.ruleIds == r.primaryRule == RuleOf(q)
  }

  lemma RecordDescribes(cfg: Config, env: Env, q: QueryInfo)
    requires q.kind != Other
    ensures Describes(RecordOf(cfg, env, q), cfg, env, q)
  {
    hide SlotFor, Score, Decide;
    var event, texts := EventFor(cfg, env, q), TextsFor(env, q);
    SlotReads(event, texts, FingerprintOf(event, texts, env.hash));
    TruncatedIsHead(OrElse(env.databaseName, ""), NAMEDATALEN);
    TruncatedIsHead(OrElse(env.userName, ""), NAMEDATALEN);
    RuleIdShape(q);
  }

  lemma SlotDecision(e: RiskEvent, t: Texts, fingerprint: string)
    ensures SlotFor(e, t, fingerprint).decision == e.decision
  {
  }

  // ---------- the staged code ----------

  lemma RuleIdShape(q: QueryInfo)
    ensures q.kind != Other ==>
              |FindingFor(q)| == 1 && |FindingFor(q)[0].ruleId| == 6 && '\0' !in FindingFor(q)[0].ruleId
  {
  }

  lemma OneRuleText(q: QueryInfo)
    requires q.kind != Other
    ensures RuleIdText(FindingFor(q), RuleOf(q), 64) == RuleOf(q) && '\0' !in RuleOf(q)
  {
    hide FindingFor, RuleIdText;
    RuleIdShape(q);
    SingleId(FindingFor(q)[0], RuleOf(q), 64);
    assert FindingFor(q) == [FindingFor(q)[0]];
  }

  method ReadText(buf: array<char>, ghost text: string) returns (s: string)
    requires HoldsText(buf, text) && '\0' !in text
    ensures s == text
  {
    var i := 0;
    assert forall k :: 0 <= k < |text| ==> buf[..|text|][k] == text[k] && buf[k] == text[k] && text[k] in text;
    while i < buf.Length && buf[i] != '\0'
      invariant 0 <= i <= |text|
    {
      i := i + 1;
    }
    assert i == |text|;
    s := buf[..i];
  }

  class Session {
    const ring: Ring?
    var cfg: Config
    var notices: seq<Notice>

    constructor (ring: Ring?, cfg: Config)
      ensures this.ring == ring && this.cfg == cfg && notices == []
    {
      this.ring, this.cfg, notices := ring, cfg, [];
    }

    function Footprint(): set<object> {
      if ring == null then {} else {ring, ring.events}
    }

    ghost predicate Valid()
      reads this, Footprint()
    {
      this !in Footprint() && (ring != null ==> ring.Valid())
    }

    /** Fills and stores the event of an assessment. */
    method PersistEvent(a: Assessment, q: QueryInfo, env: Env, full: bool)
      requires Valid() && a !in Footprint()
      requires a.findings == FindingFor(q) && a.score == Score(q) && a.decision == DecisionOf(cfg, q)
      requires a.primaryRule == RuleOf(q) && q.kind != Other
      modifies Footprint()
      ensures Valid()
      ensures ring != null ==>
        ring.log == WithRecord(old(ring.log),
                               if full || DecisionOf(cfg, q) == Allow then None else Some(RecordOf(cfg, env, q)))
    {
      hide Score, Decide, RuleIdText, HoldsText, SlotFor, Truncated;
      var event := RiskEvent(env.now, env.pid, env.databaseOid, env.userOid, a.primaryRule, a.score, a.decision,
                             a.decision, NORMAL, q.relationOid, KindCode(q.kind));
      var buf := new char[64];
      BuildRuleIds(a.findings, a.primaryRule, buf);
      OneRuleText(q);
      var ruleIds := ReadText(buf, RuleOf(q));
      var dbname, username := "", "";
      if env.databaseName.Some? { dbname := env.databaseName.value; }
      if env.userName.Some? { username := env.userName.value; }
      var relname := if q.relationQualname != "" then q.relationQualname else q.relationName;
      var texts := Texts(Some(ruleIds), Some(relname), Some(Truncated(dbname, NAMEDATALEN)),
                         Some(Truncated(username, NAMEDATALEN)));
      if ring != null {
        ring.Record(event, texts, env.hash, false, full);
      }
    }

    /** The guarded stages up to the decision's own effect. */
    method Stages(q: QueryInfo, env: Env, f: Faults, full: bool) returns (raised: Option<Error>)
      requires Valid() && q.kind != Other
      modifies this`notices, Footprint()
      ensures Valid() && raised == Thrown(cfg, q, f)
      ensures ring != null ==> ring.log == WithRecord(old(ring.log), if full then None else RecordIf(cfg, env, q, f))
      ensures notices == old(notices) +
                (if Reaches(q, f) && DecisionOf(cfg, q) == Warn && f(Detail).None? && !(cfg.debug && f(DebugLog).Some?)
                 then [HighRisk] else [])
    {
      hide Score, Decide, FindingFor;
      raised := None;
      if f(Collect).Some? { return Some(Internal(f(Collect).value)); }
      if f(Assess).Some? { return Some(Internal(f(Assess).value)); }
      var a := new Assessment();
      a.AssessQuery(q, cfg.mode, cfg.warnAt, cfg.blockAt);
      if f(Policy).Some? { return Some(Internal(f(Policy).value)); }
      if f(Fill).Some? { return Some(Internal(f(Fill).value)); }
      if f(Persist).Some? { return Some(Internal(f(Persist).value)); }
      PersistEvent(a, q, env, full);
      if cfg.debug && f(DebugLog).Some? { return Some(Internal(f(DebugLog).value)); }
      if a.decision != Allow {
        if f(Detail).Some? { return Some(Internal(f(Detail).value)); }
        if a.decision == Block { return Some(Decided); }
        notices := notices + [HighRisk];
      }
      if f(Release).Some? { return Some(Internal(f(Release).value)); }
    }

    method EvaluateAndApply(q: QueryInfo, env: Env, f: Faults, full: bool) returns (out: Outcome)
      requires Valid()
      modifies this`notices, Footprint()
      ensures Valid() && out == Verdict(cfg, q, f) && notices == old(notices) + Warned(cfg, q, f)
      ensures ring != null ==> ring.log == WithRecord(old(ring.log), if full then None else RecordIf(cfg, env, q, f))
    {
      hide DecisionOf, Early, Late;
      if q.kind == Other { return Proceed; }
      var raised := Stages(q, env, f, full);
      out := Proceed;
      match raised {
        case None =>
        case Some(e) =>
          if StateOf(e) == InsufficientPrivilege {
            out := if e.Decided? then AbortDecision else AbortInternal(e.state);
          } else {
            out := HandleInternalFailure();
          }
      }
    }

    method HandleInternalFailure() returns (out: Outcome)
      modifies this`notices
      ensures out == (if cfg.mode == Enforce && cfg.failClosed then AbortFailClosed else Proceed)
      ensures notices == old(notices) + (if out == Proceed then [FailOpen] else [])
    {
      if cfg.mode == Enforce && cfg.failClosed { return AbortFailClosed; }
      notices := notices + [FailOpen];
      out := Proceed;
    }

    /** The utility hook; `ran` says whether the statement was passed on. */
    method ProcessUtility(tree: Option<Node>, catalog: Catalog, env: Env, f: Faults) returns (out: Outcome, ran: bool)
      requires Valid()
      modifies this`notices, Footprint()
      ensures Valid()
      ensures var fate := HookFate(cfg, UtilityCommand(tree, catalog), env, f);
              && out == fate.outcome && notices == old(notices) + fate.notices && (ran <==> out == Proceed)
              && (ring != null ==> ring.log == WithRecord(old(ring.log), fate.slot))
    {
      hide Analyze, MayBeRisky, Verdict, Warned, RecordIf, Score, FindingFor;
      NothingOfInterest(cfg, env, f);
      out := Proceed;
      if !Skips(cfg) && MayBeRisky(tree) {
        var a := new Analysis();
        var raised := a.AnalyzeUtility(tree, cfg.autovacuum, catalog);
        if raised.Some? { return AbortAnalysis(raised.value), false; }
        out := EvaluateAndApply(a.View(), env, f, false);
      }
      ran := out == Proceed;
    }
  }

  lemma NothingOfInterest(cfg: Config, env: Env, f: Faults)
    ensures FateOf(cfg, env, INIT_INFO, f) == Untouched()
  {
  }
}
