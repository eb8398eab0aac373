/** Scoring and deciding: one statement, one risk score, one decision. */
module Risk {
  import opened EventRing

  datatype QueryKind =
    | Other | DeleteNoWhere | UpdateNoWhere | Truncate | DropTable | DropDatabase | AlterTable
    | CreateIndex | CreateIndexConcurrently | Reindex | VacuumFull | Cluster

  datatype LockClass = NoLock | Low | Medium | High {
    function Rank(): nat {
      match this
      case NoLock => 0
      case Low => 1
      case Medium => 2
      case High => 3
    }
  }

  function MaxClass(a: LockClass, b: LockClass): LockClass { if a.Rank() < b.Rank() then b else a }

  /** What is known of the statement; the size is -1 when unknown. */
  datatype QueryInfo = QueryInfo(kind: QueryKind, relationOid: int, relationName: string, relationQualname: string,
                                 estimatedRows: int, relationSize: int, isWrite: bool, concurrent: bool,
                                 rewriteLikely: bool, lockClass: LockClass, ddlDetail: string)

  datatype Finding = Finding(ruleId: string, contribution: int)

  datatype Mode = Observe | WarnOnly | Enforce

  const MB64 := 64 * 1024 * 1024

  // ---------- meaning ----------

  ghost function Total(findings: seq<Finding>): int {
    if findings == [] then 0 else Total(findings[..|findings| - 1]) + findings[|findings| - 1].contribution
  }

  function Clamp(score: int): int { if score < 0 then 0 else if score > 100 then 100 else score }

  ghost function FindingFor(q: QueryInfo): seq<Finding> {
    match q.kind
    case DeleteNoWhere => [Finding("PGC001", 95)]
    case UpdateNoWhere => [Finding("PGC002", 95)]
    case Truncate => [Finding("PGC003", 90)]
    case DropTable => [Finding("PGC004", 95)]
    case DropDatabase => [Finding("PGC005", 100)]
    case AlterTable => [Finding("PGC012", match q.lockClass case High => 60 case Medium => 45 case _ => 35)]
    case CreateIndex => [Finding("PGC013", if 0 <= q.relationSize < MB64 then 25 else 50)]
    case CreateIndexConcurrently => [Finding("PGC013", 15)]
    case Reindex => [Finding("PGC014", if q.concurrent then 20 else 55)]
    case VacuumFull => [Finding("PGC015", 70)]
    case Cluster => [Finding("PGC016", 70)]
    case Other => []
  }

  ghost function RuleOf(q: QueryInfo): string {
    if FindingFor(q) == [] then "" else FindingFor(q)[0].ruleId
  }

  ghost function Score(q: QueryInfo): int { Clamp(Total(FindingFor(q))) }

  ghost function Decide(mode: Mode, score: int, warnAt: int, blockAt: int): Decision {
    if mode == Enforce && score >= blockAt then Block
    else if mode != Observe && score >= warnAt then Warn
    else Allow
  }

  function Severity(d: Decision): nat {
    match d
    case Allow => 0
    case Warn => 1
    case Block => 2
  }

  function MaxDecision(a: Decision, b: Decision): Decision { if Severity(a) < Severity(b) then b else a }

  /** A higher score never gets a milder decision, even when the thresholds are
      set the wrong way round. */
  lemma DecideMonotone(mode: Mode, s: int, t: int, warnAt: int, blockAt: int)
    requires s <= t
    ensures Severity(Decide(mode, s, warnAt, blockAt)) <= Severity(Decide(mode, t, warnAt, blockAt))
  {
  }

  lemma NoFindings()
    ensures Total([]) == 0
  {
  }

  lemma OneFinding(f: Finding)
    ensures Total([f]) == f.contribution
  {
    assert [f][..0] == [];
  }

  // ---------- the assessment, updated in place ----------

  class Assessment {
    var score: int
    var shouldWarn: bool
    var shouldBlock: bool
    var decision: Decision
    var findings: seq<Finding>
    var primaryRule: string

    constructor ()
      ensures score == 0 && findings == [] && decision == Allow && primaryRule == ""
    {
      score, shouldWarn, shouldBlock, decision, findings, primaryRule := 0, false, false, Allow, [], "";
    }

    /** The score stays the sum of the findings; the primary rule is the first
        one unless a later finding weighs 80 or more. */
    method AddFinding(ruleId: string, contribution: int)
      requires score == Total(findings)
      modifies this
      ensures findings == old(findings) + [Finding(ruleId, contribution)] && score == Total(findings)
      ensures primaryRule == if old(primaryRule) == "" || contribution >= 80 then ruleId else old(primaryRule)
      ensures decision == old(decision)
    {
      findings := findings + [Finding(ruleId, contribution)];
      score := score + contribution;
      if primaryRule == "" || contribution >= 80 {
        primaryRule := ruleId;
      }
    }

    method Finalize(mode: Mode, warnAt: int, blockAt: int)
      modifies this
      ensures score == Clamp(old(score)) && decision == Decide(mode, score, warnAt, blockAt)
      ensures findings == old(findings) && primaryRule == old(primaryRule)
    {
      score := Clamp(score);
      shouldWarn := score >= warnAt;
      shouldBlock := score >= blockAt;
      decision := Allow;
      match mode
      case Observe =>
        decision := Allow;
      case WarnOnly =>
        if shouldWarn { decision := Warn; }
      case Enforce =>
        if shouldBlock {
          decision := Block;
        } else if shouldWarn {
          decision := Warn;
        }
    }

    method AssessQuery(q: QueryInfo, mode: Mode, warnAt: int, blockAt: int)
      modifies this
      ensures findings == FindingFor(q) && score == Score(q)
      ensures decision == Decide(mode, Score(q), warnAt, blockAt)
      ensures primaryRule == RuleOf(q)
    {
      hide Total;
      NoFindings();
      score, decision, findings, primaryRule := 0, Allow, [], "";
      match q.kind {
      case DeleteNoWhere =>
        AddFinding("PGC001", 95);
      case UpdateNoWhere =>
        AddFinding("PGC002", 95);
      case Truncate =>
        AddFinding("PGC003", 90);
      case DropTable =>
        AddFinding("PGC004", 95);
      case DropDatabase =>
        AddFinding("PGC005", 100);
      case AlterTable =>
        var base := 35;
        if q.lockClass.Rank() >= High.Rank() {
          base := 60;
        } else if q.lockClass.Rank() >= Medium.Rank() {
          base := 45;
        }
        AddFinding("PGC012", base);
      case CreateIndex =>
        var contrib := if q.relationSize >= 0 && q.relationSize < MB64 then 25 else 50;
        AddFinding("PGC013", contrib);
      case CreateIndexConcurrently =>
        AddFinding("PGC013", 15);
      case Reindex =>
        if q.concurrent {
          AddFinding("PGC014", 20);
        } else {
          AddFinding("PGC014", 55);
        }
      case VacuumFull =>
        AddFinding("PGC015", 70);
      case Cluster =>
        AddFinding("PGC016", 70);
      case Other =>
      }
      Finalize(mode, warnAt, blockAt);
    }
  }
}
