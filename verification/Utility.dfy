/** Classification of utility statements, and the cheap filter in front of it. */
module Utility {
  import opened EventRing
  import opened Risk
  import opened Strings
  import opened Wrappers

  datatype SqlState = InsufficientPrivilege | SyntaxError | OutOfMemory | OtherState(code: int)

  /** The value of an option is `None` when it does not read as a Boolean, which
      makes the server raise a syntax error. */
  datatype DefElem = DefElem(name: string, value: Option<bool>)

  datatype AlterCmd =
    | AddColumn | DropColumn | AlterColumnType | SetNotNull | DropNotNull | AddConstraint | DropConstraint
    | SetTableSpace | SetLogged | SetUnLogged | OtherCmd

  datatype ObjectType = ObjTable | ObjColumn | ObjOther

  /** The name list of a dropped object is `None` when it has too many parts to be a
      relation's name, which raises a syntax error. */
  datatype Node =
    | TruncateStmt(relations: seq<string>)
    | DropStmt(removeType: ObjectType, objects: seq<Option<string>>, missingOk: bool)
    | DropdbStmt(dbname: Option<string>)
    | AlterTableStmt(relation: Option<string>, cmds: seq<AlterCmd>)
    | RenameStmt(renameType: ObjectType, target: Option<string>)
    | IndexStmt(concurrent: bool, table: Option<string>)
    | ReindexStmt(params: seq<DefElem>, reindexed: Option<string>)
    | VacuumStmt(isVacuum: bool, options: seq<DefElem>, rels: seq<Option<string>>)
    | ClusterStmt(clustered: Option<string>)
    | OtherStmt

  datatype Relation = Relation(oid: int, qualname: string, size: int, rows: int)

  /** What comes of looking up a name; taking the lock or reading the catalog may
      raise anything. */
  datatype Lookup = Missing | Found(relation: Relation) | LookupRaises(state: SqlState)

  type Catalog = string -> Lookup

  // ---------- meaning ----------

  const INIT_INFO := QueryInfo(Other, 0, "", "", -1, -1, false, false, false, NoLock, "")

  function ClassOf(cmd: AlterCmd): LockClass {
    match cmd
    case AddColumn | DropNotNull => Medium
    case OtherCmd => Low
    case _ => High
  }

  predicate Rewrites(cmd: AlterCmd) {
    cmd in {DropColumn, AlterColumnType, SetTableSpace, SetLogged, SetUnLogged}
  }

  function DetailOf(cmd: AlterCmd): string {
    match cmd
    case AddColumn => "ADD COLUMN"
    case DropColumn => "DROP COLUMN"
    case AlterColumnType => "ALTER COLUMN TYPE"
    case SetNotNull => "SET NOT NULL"
    case DropNotNull => "DROP NOT NULL"
    case AddConstraint => "ADD CONSTRAINT"
    case DropConstraint => "DROP CONSTRAINT"
    case SetTableSpace | SetLogged | SetUnLogged => "storage rewrite ALTER"
    case OtherCmd => "ALTER TABLE (other)"
  }

  ghost function Worst(cmds: seq<AlterCmd>): LockClass {
    if cmds == [] then Low else MaxClass(Worst(cmds[..|cmds| - 1]), ClassOf(cmds[|cmds| - 1]))
  }

  ghost predicate AnyRewrite(cmds: seq<AlterCmd>) {
    exists c :: c in cmds && Rewrites(c)
  }

  lemma NoCommands()
    ensures Worst([]) == Low && !AnyRewrite([])
  {
  }

  lemma FoldStep(cmds: seq<AlterCmd>, i: nat)
    requires i < |cmds|
    ensures Worst(cmds[..i + 1]) == MaxClass(Worst(cmds[..i]), ClassOf(cmds[i]))
    ensures AnyRewrite(cmds[..i + 1]) <==> AnyRewrite(cmds[..i]) || Rewrites(cmds[i])
  {
    assert cmds[..i + 1][..i] == cmds[..i];
    assert cmds[..i + 1] == cmds[..i] + [cmds[i]];
    assert cmds[i] in cmds[..i + 1];
  }

  function FirstNamed(options: seq<DefElem>, name: string): Option<DefElem> {
    if options == [] then None
    else if options[0].name == name then Some(options[0])
    else FirstNamed(options[1..], name)
  }

  /** Presence only, as the filter tests it. */
  predicate OptionsHaveFull(options: seq<DefElem>) {
    exists i :: 0 <= i < |options| && options[i].name == "full"
  }

  datatype Result = Classified(info: QueryInfo) | Raised(state: SqlState)

  /** The record with the relation filled in. */
  ghost function WithRelation(q: QueryInfo, name: Option<string>, catalog: Catalog): Result {
    match name
    case None => Classified(q)
    case Some(n) =>
      var named := q.(relationName := Truncated(n, NAMEDATALEN), relationOid := 0);
      match catalog(n)
      case Missing => Classified(named)
      case Found(r) =>
        Classified(named.(relationOid := r.oid, relationQualname := r.qualname, relationSize := r.size,
                          estimatedRows := r.rows))
      case LookupRaises(state) => Raised(state)
  }

  ghost predicate Resolves(name: Option<string>, catalog: Catalog) {
    name.Some? ==> !catalog(name.value).LookupRaises?
  }

  ghost function AnalyzeDrop(removeType: ObjectType, objects: seq<Option<string>>, missingOk: bool,
                             catalog: Catalog): Result {
    if removeType != ObjTable then Classified(INIT_INFO)
    else
      var q := INIT_INFO.(isWrite := true, kind := DropTable, lockClass := High, ddlDetail := "DROP TABLE");
      if objects == [] then Classified(q)
      else if objects[0].None? then Raised(SyntaxError)
      else if missingOk && catalog(objects[0].value).Missing? then Classified(INIT_INFO)
      else WithRelation(q, objects[0], catalog)
  }

  ghost function AnalyzeAlterTable(relation: Option<string>, cmds: seq<AlterCmd>, catalog: Catalog): Result {
    var r := WithRelation(INIT_INFO.(isWrite := true, kind := AlterTable), relation, catalog);
    if r.Raised? then r
    else Classified(r.info.(lockClass := Worst(cmds), rewriteLikely := AnyRewrite(cmds),
                            ddlDetail := if cmds == [] then "ALTER TABLE" else DetailOf(cmds[|cmds| - 1])))
  }

  ghost function AnalyzeIndex(concurrent: bool, table: Option<string>, catalog: Catalog): Result {
    var r := WithRelation(INIT_INFO.(isWrite := true, concurrent := concurrent), table, catalog);
    if r.Raised? then r
    else if concurrent
    then Classified(r.info.(kind := CreateIndexConcurrently, lockClass := Low,
                            ddlDetail := "CREATE INDEX CONCURRENTLY"))
    else Classified(r.info.(kind := CreateIndex, lockClass := Medium, ddlDetail := "CREATE INDEX"))
  }

  ghost function AnalyzeReindex(params: seq<DefElem>, reindexed: Option<string>, catalog: Catalog): Result {
    var opt := FirstNamed(params, "concurrently");
    if opt.Some? && opt.value.value.None? then Raised(SyntaxError)
    else
      var concurrent := opt.Some? && opt.value.value.value;
      var q := INIT_INFO.(isWrite := true, concurrent := concurrent, kind := Reindex,
                         lockClass := if concurrent then Low else High,
                         ddlDetail := if concurrent then "REINDEX CONCURRENTLY" else "REINDEX");
      WithRelation(q, reindexed, catalog)
  }

  ghost function AnalyzeVacuum(isVacuum: bool, options: seq<DefElem>, rels: seq<Option<string>>,
                               catalog: Catalog): Result {
    var opt := FirstNamed(options, "full");
    if !isVacuum then Classified(INIT_INFO)
    else if opt.Some? && opt.value.value.None? then Raised(SyntaxError)
    else if !(opt.Some? && opt.value.value.value) then Classified(INIT_INFO)
    else
      var q := INIT_INFO.(isWrite := true, kind := VacuumFull, lockClass := High, rewriteLikely := true,
                         ddlDetail := "VACUUM FULL");
      WithRelation(q, if rels == [] then None else rels[0], catalog)
  }

  ghost function Analyze(tree: Option<Node>, autovacuum: bool, catalog: Catalog): Result {
    if tree.None? || autovacuum then Classified(INIT_INFO)
    else match tree.value
      case TruncateStmt(relations) =>
        var q := INIT_INFO.(isWrite := true, kind := Truncate, lockClass := High, ddlDetail := "TRUNCATE");
        WithRelation(q, if relations == [] then None else Some(relations[0]), catalog)
      case DropStmt(removeType, objects, missingOk) => AnalyzeDrop(removeType, objects, missingOk, catalog)
      case DropdbStmt(dbname) =>
        var q := INIT_INFO.(isWrite := true, kind := DropDatabase, lockClass := High, ddlDetail := "DROP DATABASE");
        Classified(if dbname.Some? then q.(relationName := Truncated(dbname.value, NAMEDATALEN)) else q)
      case AlterTableStmt(relation, cmds) => AnalyzeAlterTable(relation, cmds, catalog)
      case RenameStmt(renameType, target) =>
        if renameType == ObjOther then Classified(INIT_INFO)
        else
          var q := INIT_INFO.(isWrite := true, kind := AlterTable, lockClass := High,
                             ddlDetail := if renameType == ObjColumn then "RENAME COLUMN" else "RENAME TABLE");
          WithRelation(q, target, catalog)
      case IndexStmt(concurrent, table) => AnalyzeIndex(concurrent, table, catalog)
      case ReindexStmt(params, reindexed) => AnalyzeReindex(params, reindexed, catalog)
      case VacuumStmt(isVacuum, options, rels) => AnalyzeVacuum(isVacuum, options, rels, catalog)
      case ClusterStmt(clustered) =>
        var q := INIT_INFO.(isWrite := true, kind := Cluster, lockClass := High, rewriteLikely := true,
                           ddlDetail := "CLUSTER");
        WithRelation(q, clustered, catalog)
      case OtherStmt => Classified(INIT_INFO)
  }

  /** The filter on the statement's hot path. */
  function MayBeRisky(tree: Option<Node>): bool {
    match tree
    case None => false
    case Some(n) =>
      match n
      case TruncateStmt(_) | DropdbStmt(_) | AlterTableStmt(_, _) | IndexStmt(_, _) | ReindexStmt(_, _)
         | ClusterStmt(_) => true
      case RenameStmt(renameType, _) => renameType == ObjTable || renameType == ObjColumn
      case DropStmt(removeType, _, _) => removeType == ObjTable
      case VacuumStmt(isVacuum, options, _) => isVacuum && OptionsHaveFull(options)
      case OtherStmt => false
  }

  // ---------- the filter refines the analysis ----------

  lemma {:induction false} FirstNamedIff(options: seq<DefElem>, name: string)
    ensures FirstNamed(options, name).Some? <==> exists i :: 0 <= i < |options| && options[i].name == name
  {
    if options != [] && options[0].name != name {
      FirstNamedIff(options[1..], name);
      if i :| 0 <= i < |options| && options[i].name == name { assert options[1..][i - 1].name == name; }
    }
  }

  /** Nothing that would be classified, and no error that would be raised, is
      filtered out. */
  lemma FilterIsSafe(tree: Option<Node>, autovacuum: bool, catalog: Catalog)
    ensures !MayBeRisky(tree) ==> Analyze(tree, autovacuum, catalog) == Classified(INIT_INFO)
  {
    if tree.Some? && tree.value.VacuumStmt? {
      FirstNamedIff(tree.value.options, "full");
    }
  }

  /** The filter lets through in vain exactly: any of its statements inside an
      autovacuum worker, VACUUM (FULL false), and DROP TABLE IF EXISTS whose
      first name does not exist. */
  lemma FilterInVain(tree: Option<Node>, autovacuum: bool, catalog: Catalog)
    requires MayBeRisky(tree)
    ensures var r := Analyze(tree, autovacuum, catalog);
            (r.Classified? && r.info.kind == Other) <==>
            || autovacuum
            || (tree.value.VacuumStmt? && FirstNamed(tree.value.options, "full") == Some(DefElem("full", Some(false))))
            || (tree.value.DropStmt? && tree.value.missingOk && tree.value.objects != []
                && tree.value.objects[0].Some? && catalog(tree.value.objects[0].value).Missing?)
  {
    if tree.value.VacuumStmt? {
      FirstNamedIff(tree.value.options, "full");
      FirstNamedName(tree.value.options, "full");
    }
  }

  lemma {:induction false} FirstNamedName(options: seq<DefElem>, name: string)
    ensures FirstNamed(options, name).Some? ==> FirstNamed(options, name).value.name == name
  {
    if options != [] && options[0].name != name { FirstNamedName(options[1..], name); }
  }

  /** A DROP TABLE that names some existing table, and whose first name can be
      looked up, is recognised as one exactly if it has no IF EXISTS or its
      first name exists: later names are not looked at. */
  lemma DropTableRecognisedIff(objects: seq<Option<string>>, missingOk: bool, catalog: Catalog)
    requires exists o :: Some(o) in objects && catalog(o).Found?
    ensures var r := Analyze(Some(DropStmt(ObjTable, objects, missingOk)), false, catalog);
            && (r.Classified? <==> objects[0].Some? && Resolves(objects[0], catalog))
            && (r.Classified? ==> (r.info.kind == DropTable <==> !missingOk || catalog(objects[0].value).Found?))
  {
  }

  /** DROP TABLE IF EXISTS a, b with only b there passes as nothing of interest. */
  lemma DropTableEscapes()
    ensures var catalog: Catalog := n => if n == "b" then Found(Relation(7, "public.b", 8192, 10)) else Missing;
            var tree := Some(DropStmt(ObjTable, [Some("a"), Some("b")], true));
            MayBeRisky(tree) && Analyze(tree, false, catalog) == Classified(INIT_INFO)
  {
    assert "a"[0] != "b"[0];
  }

  // ---------- ALTER TABLE ----------

  lemma {:induction false} WorstConcat(xs: seq<AlterCmd>, ys: seq<AlterCmd>)
    ensures Worst(xs + ys) == MaxClass(Worst(xs), Worst(ys))
    decreases |ys|
  {
    if ys == [] {
      assert xs + ys == xs;
      WorstAtLeastLow(xs);
    } else {
      var k := |ys| - 1;
      assert (xs + ys)[..|xs + ys| - 1] == xs + ys[..k];
      WorstConcat(xs, ys[..k]);
    }
  }

  lemma {:induction false} WorstAtLeastLow(xs: seq<AlterCmd>)
    ensures Worst(xs).Rank() >= Low.Rank()
  {
    if xs != [] { WorstAtLeastLow(xs[..|xs| - 1]); }
  }

  /** The class is attained and never exceeded, so it depends on which commands
      there are and not on their order or number. */
  lemma {:induction false} WorstIsMaximum(xs: seq<AlterCmd>)
    ensures forall c :: c in xs ==> ClassOf(c).Rank() <= Worst(xs).Rank()
    ensures Worst(xs) == Low || exists c :: c in xs && ClassOf(c) == Worst(xs)
    ensures AnyRewrite(xs) ==> Worst(xs) == High
  {
    if xs != [] {
      var k := |xs| - 1;
      WorstIsMaximum(xs[..k]);
      assert forall c :: c in xs <==> c in xs[..k] || c == xs[k];
      assert xs[k] in xs;
    }
  }

  ghost function AlterResult(xs: seq<AlterCmd>, relation: Option<string>, catalog: Catalog): Result {
    Analyze(Some(AlterTableStmt(relation, xs)), false, catalog)
  }

  ghost function AlterScore(xs: seq<AlterCmd>, relation: Option<string>, catalog: Catalog): int
    requires AlterResult(xs, relation, catalog).Classified?
  {
    Score(AlterResult(xs, relation, catalog).info)
  }

  ghost function ClassScore(c: LockClass): int {
    match c
    case High => 60
    case Medium => 45
    case _ => 35
  }

  /** Whether the classification raises depends on the relation alone; otherwise
      class and score are those of the worst command. */
  lemma AlterScoreOfClass(xs: seq<AlterCmd>, relation: Option<string>, catalog: Catalog)
    ensures AlterResult(xs, relation, catalog).Raised? ==>
              relation.Some? && catalog(relation.value) == LookupRaises(AlterResult(xs, relation, catalog).state)
    ensures AlterResult(xs, relation, catalog).Classified? <==> Resolves(relation, catalog)
    ensures AlterResult(xs, relation, catalog).Classified? ==>
              && AlterResult(xs, relation, catalog).info.lockClass == Worst(xs)
              && AlterResult(xs, relation, catalog).info.rewriteLikely == AnyRewrite(xs)
              && AlterScore(xs, relation, catalog) == ClassScore(Worst(xs))
  {
    hide Worst, AnyRewrite;
    if Resolves(relation, catalog) {
      OneFinding(FindingFor(AlterResult(xs, relation, catalog).info)[0]);
    }
  }

  ghost function MaxInt(a: int, b: int): int { if a < b then b else a }

  lemma ClassScoreMax(a: LockClass, b: LockClass)
    ensures ClassScore(MaxClass(a, b)) == MaxInt(ClassScore(a), ClassScore(b))
  {
  }

  lemma DecideMax(mode: Mode, s: int, t: int, warnAt: int, blockAt: int)
    ensures Decide(mode, MaxInt(s, t), warnAt, blockAt) ==
            MaxDecision(Decide(mode, s, warnAt, blockAt), Decide(mode, t, warnAt, blockAt))
  {
  }

  /** Joining two command lists takes the maximum at every level: lock class,
      score and decision. If the relation's lookup raises, it raises for all. */
  lemma AlterTableIsHomomorphic(xs: seq<AlterCmd>, ys: seq<AlterCmd>, relation: Option<string>, catalog: Catalog,
                                mode: Mode, warnAt: int, blockAt: int)
    ensures var x, y, xy := AlterResult(xs, relation, catalog), AlterResult(ys, relation, catalog),
                            AlterResult(xs + ys, relation, catalog);
            if xy.Raised? then x == y == xy
            else
              && x.Classified? && y.Classified?
              && xy.info.lockClass == MaxClass(x.info.lockClass, y.info.lockClass)
              && Score(xy.info) == MaxInt(Score(x.info), Score(y.info))
              && Decide(mode, Score(xy.info), warnAt, blockAt) ==
                   MaxDecision(Decide(mode, Score(x.info), warnAt, blockAt),
                               Decide(mode, Score(y.info), warnAt, blockAt))
              && (x.info.rewriteLikely ==> x.info.lockClass == High)
  {
    hide Analyze, Worst, AnyRewrite, Score, Decide;
    WorstConcat(xs, ys);
    WorstIsMaximum(xs);
    AlterScoreOfClass(xs, relation, catalog);
    AlterScoreOfClass(ys, relation, catalog);
    AlterScoreOfClass(xs + ys, relation, catalog);
    ClassScoreMax(Worst(xs), Worst(ys));
    DecideMax(mode, ClassScore(Worst(xs)), ClassScore(Worst(ys)), warnAt, blockAt);
  }

  /** Reordering the commands, or repeating some, changes neither. */
  lemma AlterTableIgnoresOrder(xs: seq<AlterCmd>, ys: seq<AlterCmd>, relation: Option<string>, catalog: Catalog)
    requires forall c :: c in xs <==> c in ys
    ensures var x, y := AlterResult(xs, relation, catalog), AlterResult(ys, relation, catalog);
            if x.Raised? then x == y
            else y.Classified? && x.info.lockClass == y.info.lockClass && Score(x.info) == Score(y.info)
                 && x.info.rewriteLikely == y.info.rewriteLikely
  {
    hide Analyze, Score;
    WorstIsMaximum(xs);
    WorstIsMaximum(ys);
    WorstAtLeastLow(xs);
    WorstAtLeastLow(ys);
    AlterScoreOfClass(xs, relation, catalog);
    AlterScoreOfClass(ys, relation, catalog);
  }

  // ---------- the analysis, filling a record in place ----------

  class Analysis {
    var kind: QueryKind
    var relationOid: int
    var relationName: string
    var relationQualname: string
    var estimatedRows: int
    var relationSize: int
    var isWrite: bool
    var concurrent: bool
    var rewriteLikely: bool
    var lockClass: LockClass
    var ddlDetail: string

    function View(): QueryInfo
      reads this
    {
      QueryInfo(kind, relationOid, relationName, relationQualname, estimatedRows, relationSize, isWrite, concurrent,
                rewriteLikely, lockClass, ddlDetail)
    }

    constructor ()
      ensures View() == INIT_INFO
    {
      kind, relationOid, relationName, relationQualname, estimatedRows := Other, 0, "", "", -1;
      relationSize, isWrite, concurrent, rewriteLikely, lockClass, ddlDetail := -1, false, false, false, NoLock, "";
    }

    method Init()
      modifies this
      ensures View() == INIT_INFO
    {
      kind, relationOid, relationName, relationQualname, estimatedRows := Other, 0, "", "", -1;
      relationSize, isWrite, concurrent, rewriteLikely, lockClass, ddlDetail := -1, false, false, false, NoLock, "";
    }

    /** The object and the error raised, if any, are what was to be found out. */
    ghost predicate Reports(raised: Option<SqlState>, r: Result)
      reads this
    {
      match r
      case Classified(info) => raised.None? && View() == info
      case Raised(state) => raised == Some(state)
    }

    method FillRelation(name: Option<string>, catalog: Catalog) returns (raised: Option<SqlState>)
      modifies this
      ensures Reports(raised, WithRelation(old(View()), name, catalog))
    {
      raised := None;
      if name.None? { return; }
      relationName := Truncated(name.value, NAMEDATALEN);
      match catalog(name.value) {
        case LookupRaises(state) =>
          raised := Some(state);
        case Missing =>
          relationOid := 0;
        case Found(relation) =>
          relationOid := relation.oid;
          relationQualname := relation.qualname;
          relationSize := relation.size;
          estimatedRows := relation.rows;
      }
    }

    /** One subcommand of the fold. */
    method ClassifyCommand(cmd: AlterCmd, worst0: LockClass, rewrite0: bool)
        returns (worst: LockClass, rewrite: bool, detail: string)
      requires worst0.Rank() >= Low.Rank()
      ensures worst == MaxClass(worst0, ClassOf(cmd)) && (rewrite <==> rewrite0 || Rewrites(cmd))
      ensures detail == DetailOf(cmd)
    {
      worst, rewrite := worst0, rewrite0;
      match cmd {
        case AddColumn =>
          if worst.Rank() < Medium.Rank() { worst := Medium; }
          detail := "ADD COLUMN";
        case DropColumn =>
          worst, rewrite, detail := High, true, "DROP COLUMN";
        case AlterColumnType =>
          worst, rewrite, detail := High, true, "ALTER COLUMN TYPE";
        case SetNotNull =>
          worst, detail := High, "SET NOT NULL";
        case DropNotNull =>
          if worst.Rank() < Medium.Rank() { worst := Medium; }
          detail := "DROP NOT NULL";
        case AddConstraint =>
          worst, detail := High, "ADD CONSTRAINT";
        case DropConstraint =>
          worst, detail := High, "DROP CONSTRAINT";
        case SetTableSpace | SetLogged | SetUnLogged =>
          worst, rewrite, detail := High, true, "storage rewrite ALTER";
        case OtherCmd =>
          if worst.Rank() < Low.Rank() { worst := Low; }
          detail := "ALTER TABLE (other)";
      }
    }

    /** Folds the subcommands into the worst class, the rewrite flag and the
        detail of the last one. */
    method FoldCommands(cmds: seq<AlterCmd>) returns (worst: LockClass, rewrite: bool, detail: string)
      ensures worst == Worst(cmds) && (rewrite <==> AnyRewrite(cmds))
      ensures detail == if cmds == [] then "ALTER TABLE" else DetailOf(cmds[|cmds| - 1])
    {
      hide Worst, AnyRewrite, DetailOf;
      worst, rewrite, detail := Low, false, "ALTER TABLE";
      NoCommands();
      assert cmds[..0] == [];
      for i := 0 to |cmds|
        invariant worst == Worst(cmds[..i])
        invariant rewrite <==> AnyRewrite(cmds[..i])
        invariant detail == if i == 0 then "ALTER TABLE" else DetailOf(cmds[i - 1])
      {
        FoldStep(cmds, i);
        WorstAtLeastLow(cmds[..i]);
        worst, rewrite, detail := ClassifyCommand(cmds[i], worst, rewrite);
      }
      assert cmds[..|cmds|] == cmds;
    }

    method ClassifyAlterTable(relation: Option<string>, cmds: seq<AlterCmd>, catalog: Catalog)
        returns (raised: Option<SqlState>)
      requires View() == INIT_INFO
      modifies this
      ensures Reports(raised, AnalyzeAlterTable(relation, cmds, catalog))
    {
      hide Worst, AnyRewrite, DetailOf;
      isWrite := true;
      kind := AlterTable;
      raised := FillRelation(relation, catalog);
      if raised.Some? { return; }
      lockClass, rewriteLikely, ddlDetail := FoldCommands(cmds);
    }

    /** The value of the first option of that name. */
    method DefListHasBool(options: seq<DefElem>, name: string) returns (r: bool, raised: Option<SqlState>)
      ensures var opt := FirstNamed(options, name);
              && (raised == if opt.Some? && opt.value.value.None? then Some(SyntaxError) else None)
              && (raised.None? ==> (r <==> opt.Some? && opt.value.value.value))
    {
      for i := 0 to |options|
        invariant FirstNamed(options, name) == FirstNamed(options[i..], name)
      {
        if options[i].name == name {
          match options[i].value
          case None => return false, Some(SyntaxError);
          case Some(b) => return b, None;
        }
        assert options[i..][1..] == options[i + 1..];
      }
      return false, None;
    }

    method ClassifyDrop(removeType: ObjectType, objects: seq<Option<string>>, missingOk: bool, catalog: Catalog)
        returns (raised: Option<SqlState>)
      requires View() == INIT_INFO
      modifies this
      ensures Reports(raised, AnalyzeDrop(removeType, objects, missingOk, catalog))
    {
      raised := None;
      if removeType != ObjTable { return; }
      isWrite := true;
      kind := DropTable;
      lockClass := High;
      ddlDetail := "DROP TABLE";
      if objects != [] {
        if objects[0].None? { return Some(SyntaxError); }
        raised := FillRelation(objects[0], catalog);
        if raised.Some? { return; }
        if missingOk && catalog(objects[0].value).Missing? {
          Init();
          return;
        }
      }
    }

    method ClassifyIndex(conc: bool, table: Option<string>, catalog: Catalog) returns (raised: Option<SqlState>)
      requires View() == INIT_INFO
      modifies this
      ensures Reports(raised, AnalyzeIndex(conc, table, catalog))
    {
      isWrite := true;
      concurrent := conc;
      raised := FillRelation(table, catalog);
      if raised.Some? { return; }
      if conc {
        kind := CreateIndexConcurrently;
        lockClass := Low;
        ddlDetail := "CREATE INDEX CONCURRENTLY";
      } else {
        kind := CreateIndex;
        lockClass := Medium;
        ddlDetail := "CREATE INDEX";
      }
    }

    method ClassifyReindex(params: seq<DefElem>, reindexed: Option<string>, catalog: Catalog)
        returns (raised: Option<SqlState>)
      requires View() == INIT_INFO
      modifies this
      ensures Reports(raised, AnalyzeReindex(params, reindexed, catalog))
    {
      hide FirstNamed;
      var conc;
      conc, raised := DefListHasBool(params, "concurrently");
      if raised.Some? { return; }
      isWrite := true;
      concurrent := conc;
      kind := Reindex;
      lockClass := if conc then Low else High;
      ddlDetail := if conc then "REINDEX CONCURRENTLY" else "REINDEX";
      raised := FillRelation(reindexed, catalog);
    }

    method ClassifyVacuum(isVacuum: bool, options: seq<DefElem>, rels: seq<Option<string>>, catalog: Catalog)
        returns (raised: Option<SqlState>)
      requires View() == INIT_INFO
      modifies this
      ensures Reports(raised, AnalyzeVacuum(isVacuum, options, rels, catalog))
    {
      hide FirstNamed;
      raised := None;
      if !isVacuum { return; }
      var isFull;
      isFull, raised := DefListHasBool(options, "full");
      if raised.Some? || !isFull { return; }
      isWrite := true;
      kind := VacuumFull;
      lockClass := High;
      rewriteLikely := true;
      ddlDetail := "VACUUM FULL";
      if rels != [] {
        raised := FillRelation(rels[0], catalog);
      }
    }

    method AnalyzeUtility(tree: Option<Node>, autovacuum: bool, catalog: Catalog) returns (raised: Option<SqlState>)
      modifies this
      ensures Reports(raised, Analyze(tree, autovacuum, catalog))
    {
      hide AnalyzeDrop, AnalyzeAlterTable, AnalyzeIndex, AnalyzeReindex, AnalyzeVacuum, Truncated;
      raised := None;
      Init();
      if tree.None? { return; }
      if autovacuum { return; }
      match tree.value {
        case TruncateStmt(relations) =>
          isWrite := true;
          kind := Truncate;
          lockClass := High;
          ddlDetail := "TRUNCATE";
          raised := FillRelation(if relations != [] then Some(relations[0]) else None, catalog);
        case DropStmt(removeType, objects, missingOk) =>
          raised := ClassifyDrop(removeType, objects, missingOk, catalog);
        case DropdbStmt(dbname) =>
          isWrite := true;
          kind := DropDatabase;
          lockClass := High;
          ddlDetail := "DROP DATABASE";
          if dbname.Some? {
            relationName := Truncated(dbname.value, NAMEDATALEN);
          }
        case AlterTableStmt(relation, cmds) =>
          raised := ClassifyAlterTable(relation, cmds, catalog);
        case RenameStmt(renameType, target) =>
          if renameType == ObjTable || renameType == ObjColumn {
            isWrite := true;
            kind := AlterTable;
            lockClass := High;
            ddlDetail := if renameType == ObjColumn then "RENAME COLUMN" else "RENAME TABLE";
            raised := FillRelation(target, catalog);
          }
        case IndexStmt(conc, table) =>
          raised := ClassifyIndex(conc, table, catalog);
        case ReindexStmt(params, reindexed) =>
          raised := ClassifyReindex(params, reindexed, catalog);
        case VacuumStmt(isVacuum, options, rels) =>
          raised := ClassifyVacuum(isVacuum, options, rels, catalog);
        case ClusterStmt(clustered) =>
          isWrite := true;
          kind := Cluster;
          lockClass := High;
          rewriteLikely := true;
          ddlDetail := "CLUSTER";
          raised := FillRelation(clustered, catalog);
        case OtherStmt =>
      }
    }
  }
}
