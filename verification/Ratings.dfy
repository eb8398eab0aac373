/** From the parse tree to the score: what every form of statement is rated, said
    without the passes in between. */
module Ratings {
  import opened EventRing
  import opened Risk
  import opened Utility
  import opened Strings
  import opened Wrappers

  /** The statement is of interest, for this rule and at this score, and its message
      says this. */
  ghost predicate Rated(r: Result, rule: string, score: int, lockClass: LockClass, detail: string) {
    && r.Classified? && r.info.kind != Other && r.info.lockClass == lockClass && r.info.ddlDetail == detail
    && RuleOf(r.info) == rule && Score(r.info) == score
  }

  ghost function RateOf(tree: Node, catalog: Catalog): Result { Analyze(Some(tree), false, catalog) }

  lemma ScoreOfOne(q: QueryInfo)
    requires q.kind != Other
    ensures |FindingFor(q)| == 1 && Score(q) == Clamp(FindingFor(q)[0].contribution)
  {
    OneFinding(FindingFor(q)[0]);
  }

  // ---------- statements with one rating ----------

  lemma TruncateRated(relations: seq<string>, catalog: Catalog)
    ensures var r := RateOf(TruncateStmt(relations), catalog);
            if relations != [] && catalog(relations[0]).LookupRaises? then r == Raised(catalog(relations[0]).state)
            else Rated(r, "PGC003", 90, High, "TRUNCATE")
  {
    var r := RateOf(TruncateStmt(relations), catalog);
    if r.Classified? { ScoreOfOne(r.info); }
  }

  /** Whenever a DROP TABLE is recognised: see `DropTableRecognisedIff`. */
  lemma DropTableRated(objects: seq<Option<string>>, missingOk: bool, catalog: Catalog)
    ensures var r := RateOf(DropStmt(ObjTable, objects, missingOk), catalog);
            r.Raised? || r.info.kind == Other || Rated(r, "PGC004", 95, High, "DROP TABLE")
  {
    var r := RateOf(DropStmt(ObjTable, objects, missingOk), catalog);
    if r.Classified? && r.info.kind != Other { ScoreOfOne(r.info); }
  }

  lemma DropDatabaseRated(dbname: Option<string>, catalog: Catalog)
    ensures Rated(RateOf(DropdbStmt(dbname), catalog), "PGC005", 100, High, "DROP DATABASE")
  {
    ScoreOfOne(RateOf(DropdbStmt(dbname), catalog).info);
  }

  lemma ClusterRated(clustered: Option<string>, catalog: Catalog)
    requires Resolves(clustered, catalog)
    ensures Rated(RateOf(ClusterStmt(clustered), catalog), "PGC016", 70, High, "CLUSTER")
    ensures RateOf(ClusterStmt(clustered), catalog).info.rewriteLikely
  {
    ScoreOfOne(RateOf(ClusterStmt(clustered), catalog).info);
  }

  lemma RenameRated(renameType: ObjectType, target: Option<string>, catalog: Catalog)
    requires Resolves(target, catalog)
    ensures var r := RateOf(RenameStmt(renameType, target), catalog);
            match renameType
            case ObjTable => Rated(r, "PGC012", 60, High, "RENAME TABLE")
            case ObjColumn => Rated(r, "PGC012", 60, High, "RENAME COLUMN")
            case ObjOther => r == Classified(INIT_INFO)
  {
    var r := RateOf(RenameStmt(renameType, target), catalog);
    if renameType != ObjOther { ScoreOfOne(r.info); }
  }

  /** The two statements that the executor hook classifies. */
  lemma DmlRated(q: QueryInfo)
    ensures q.kind == DeleteNoWhere ==> RuleOf(q) == "PGC001" && Score(q) == 95
    ensures q.kind == UpdateNoWhere ==> RuleOf(q) == "PGC002" && Score(q) == 95
  {
    if q.kind != Other { ScoreOfOne(q); }
  }

  /** Nothing is rated inside an autovacuum worker. */
  lemma AutovacuumUnrated(tree: Option<Node>, catalog: Catalog)
    ensures Analyze(tree, true, catalog) == Classified(INIT_INFO)
  {
  }

  // ---------- indexes ----------

  /** The catalog knows the table to be smaller than 64 MB. */
  ghost predicate Small(table: Option<string>, catalog: Catalog) {
    table.Some? && catalog(table.value).Found? && 0 <= catalog(table.value).relation.size < 67108864
  }

  lemma CreateIndexRated(concurrent: bool, table: Option<string>, catalog: Catalog)
    ensures var r := RateOf(IndexStmt(concurrent, table), catalog);
            if !Resolves(table, catalog) then r.Raised?
            else if concurrent then Rated(r, "PGC013", 15, Low, "CREATE INDEX CONCURRENTLY")
            else Rated(r, "PGC013", if Small(table, catalog) then 25 else 50, Medium, "CREATE INDEX")
  {
    var r := RateOf(IndexStmt(concurrent, table), catalog);
    if r.Classified? { ScoreOfOne(r.info); }
  }

  /** CONCURRENTLY never makes it worse: a lower score and no severer decision, in any
      mode and under any thresholds. */
  lemma ConcurrentIndexIsMilder(table: Option<string>, catalog: Catalog, mode: Mode, warnAt: int, blockAt: int)
    requires Resolves(table, catalog)
    ensures var c, p := RateOf(IndexStmt(true, table), catalog), RateOf(IndexStmt(false, table), catalog);
            && c.Classified? && p.Classified? && Score(c.info) < Score(p.info)
            && Severity(Decide(mode, Score(c.info), warnAt, blockAt)) <=
                 Severity(Decide(mode, Score(p.info), warnAt, blockAt))
  {
    CreateIndexRated(true, table, catalog);
    CreateIndexRated(false, table, catalog);
  }

  /** The first option of that name has this value. */
  ghost predicate FirstIs(options: seq<DefElem>, name: string, value: Option<bool>) {
    exists i :: 0 <= i < |options| && options[i] == DefElem(name, value)
                && forall j :: 0 <= j < i ==> options[j].name != name
  }

  ghost predicate Absent(options: seq<DefElem>, name: string) {
    forall i :: 0 <= i < |options| ==> options[i].name != name
  }

  lemma {:induction false} FirstNamedIs(options: seq<DefElem>, name: string)
    ensures FirstNamed(options, name).None? <==> Absent(options, name)
    ensures forall v :: FirstNamed(options, name) == Some(DefElem(name, v)) <==> FirstIs(options, name, v)
    ensures FirstNamed(options, name).Some? ==> FirstNamed(options, name).value.name == name
  {
    if options != [] {
      var tail := options[1..];
      if options[0].name == name {
        assert options[0] == DefElem(name, options[0].value);
        assert !Absent(options, name);
        forall v ensures FirstIs(options, name, v) <==> options[0].value == v {
          if options[0].value == v { assert options[0] == DefElem(name, v); }
        }
      } else {
        FirstNamedIs(tail, name);
        assert Absent(options, name) <==> Absent(tail, name) by {
          assert forall i :: 0 <= i < |tail| ==> tail[i] == options[i + 1];
        }
        forall v ensures FirstIs(options, name, v) <==> FirstIs(tail, name, v) { FirstOfTail(options, name, v); }
      }
    }
  }

  lemma FirstOfTail(options: seq<DefElem>, name: string, v: Option<bool>)
    requires options != [] && options[0].name != name
    ensures FirstIs(options, name, v) <==> FirstIs(options[1..], name, v)
  {
    var tail := options[1..];
    assert forall i :: 0 <= i < |tail| ==> tail[i] == options[i + 1];
    if i :| 0 <= i < |options| && options[i] == DefElem(name, v) && forall j :: 0 <= j < i ==> options[j].name != name {
      assert tail[i - 1] == DefElem(name, v);
    }
    if i :| 0 <= i < |tail| && tail[i] == DefElem(name, v) && forall j :: 0 <= j < i ==> tail[j].name != name {
      assert options[i + 1] == DefElem(name, v);
      assert forall j :: 0 <= j < i + 1 ==> j == 0 || options[j] == tail[j - 1];
    }
  }

  /** What decides is the first option of the name: its value, or that it has none;
      only then is the relation looked up. */
  lemma ReindexRated(params: seq<DefElem>, reindexed: Option<string>, catalog: Catalog)
    ensures var r := RateOf(ReindexStmt(params, reindexed), catalog);
            if FirstIs(params, "concurrently", None) then r == Raised(SyntaxError)
            else if !Resolves(reindexed, catalog) then r.Raised?
            else if FirstIs(params, "concurrently", Some(true)) then Rated(r, "PGC014", 20, Low, "REINDEX CONCURRENTLY")
            else Rated(r, "PGC014", 55, High, "REINDEX")
  {
    hide FirstNamed, FirstIs;
    FirstNamedIs(params, "concurrently");
    var r := RateOf(ReindexStmt(params, reindexed), catalog);
    if r.Classified? { ScoreOfOne(r.info); }
  }

  lemma ConcurrentReindexIsMilder(c: seq<DefElem>, p: seq<DefElem>, reindexed: Option<string>, catalog: Catalog,
                                  mode: Mode, warnAt: int, blockAt: int)
    requires Resolves(reindexed, catalog) && FirstIs(c, "concurrently", Some(true))
    requires FirstIs(p, "concurrently", Some(false)) || Absent(p, "concurrently")
    ensures var x, y := RateOf(ReindexStmt(c, reindexed), catalog), RateOf(ReindexStmt(p, reindexed), catalog);
            && x.Classified? && y.Classified? && Score(x.info) < Score(y.info)
            && Severity(Decide(mode, Score(x.info), warnAt, blockAt)) <=
                 Severity(Decide(mode, Score(y.info), warnAt, blockAt))
  {
    OneFirst(c, "concurrently");
    OneFirst(p, "concurrently");
    ReindexRated(c, reindexed, catalog);
    ReindexRated(p, reindexed, catalog);
  }

  lemma OneFirst(options: seq<DefElem>, name: string)
    ensures forall v, w :: FirstIs(options, name, v) && FirstIs(options, name, w) ==> v == w
    ensures forall v :: FirstIs(options, name, v) ==> !Absent(options, name)
  {
    FirstNamedIs(options, name);
  }

  lemma VacuumRated(options: seq<DefElem>, rels: seq<Option<string>>, catalog: Catalog)
    ensures var r := RateOf(VacuumStmt(true, options, rels), catalog);
            if FirstIs(options, "full", None) then r == Raised(SyntaxError)
            else if !FirstIs(options, "full", Some(true)) then r == Classified(INIT_INFO)
            else if rels != [] && !Resolves(rels[0], catalog) then r.Raised?
            else Rated(r, "PGC015", 70, High, "VACUUM FULL") && r.info.rewriteLikely
  {
    hide FirstNamed, FirstIs;
    FirstNamedIs(options, "full");
    var r := RateOf(VacuumStmt(true, options, rels), catalog);
    if r.Classified? && r.info.kind != Other { ScoreOfOne(r.info); }
  }

  // ---------- ALTER TABLE ----------

  ghost predicate AnyOf(xs: seq<AlterCmd>, s: set<AlterCmd>) {
    exists c :: c in xs && c in s
  }

  /** The rating by the commands that occur. */
  lemma AlterTableRated(xs: seq<AlterCmd>, relation: Option<string>, catalog: Catalog)
    requires Resolves(relation, catalog)
    ensures var r := RateOf(AlterTableStmt(relation, xs), catalog);
            && r.Classified? && r.info.kind == AlterTable && RuleOf(r.info) == "PGC012"
            && (r.info.rewriteLikely <==>
                  AnyOf(xs, {DropColumn, AlterColumnType, SetTableSpace, SetLogged, SetUnLogged}))
            && Score(r.info) ==
                 if AnyOf(xs, {DropColumn, AlterColumnType, SetNotNull, AddConstraint, DropConstraint, SetTableSpace,
                               SetLogged, SetUnLogged}) then 60
                 else if AnyOf(xs, {AddColumn, DropNotNull}) then 45
                 else 35
  {
    hide Worst, Score, Analyze;
    AlterScoreOfClass(xs, relation, catalog);
    WorstIsMaximum(xs);
    WorstAtLeastLow(xs);
    AlterIsAlter(xs, relation, catalog);
  }

  lemma AlterIsAlter(xs: seq<AlterCmd>, relation: Option<string>, catalog: Catalog)
    requires Resolves(relation, catalog)
    ensures RateOf(AlterTableStmt(relation, xs), catalog).Classified?
    ensures RateOf(AlterTableStmt(relation, xs), catalog).info.kind == AlterTable
  {
  }

  /** The message names the last command. */
  lemma AlterTableDetail(xs: seq<AlterCmd>, relation: Option<string>, catalog: Catalog)
    requires Resolves(relation, catalog)
    ensures var r := RateOf(AlterTableStmt(relation, xs), catalog);
            && r.Classified?
            && r.info.ddlDetail ==
                 if xs == [] then "ALTER TABLE"
                 else match xs[|xs| - 1]
                   case AddColumn => "ADD COLUMN"
                   case DropColumn => "DROP COLUMN"
                   case AlterColumnType => "ALTER COLUMN TYPE"
                   case SetNotNull => "SET NOT NULL"
                   case DropNotNull => "DROP NOT NULL"
                   case AddConstraint => "ADD CONSTRAINT"
                   case DropConstraint => "DROP CONSTRAINT"
                   case SetTableSpace => "storage rewrite ALTER"
                   case SetLogged => "storage rewrite ALTER"
                   case SetUnLogged => "storage rewrite ALTER"
                   case OtherCmd => "ALTER TABLE (other)"
  {
  }

  // ---------- the relation ----------

  /** The name that the record is about; a database's is not looked up. */
  ghost function Target(tree: Node): Option<string> {
    match tree
    case TruncateStmt(relations) => if relations == [] then None else Some(relations[0])
    case DropStmt(_, objects, _) => if objects == [] then None else objects[0]
    case DropdbStmt(dbname) => dbname
    case AlterTableStmt(relation, _) => relation
    case RenameStmt(_, target) => target
    case IndexStmt(_, table) => table
    case ReindexStmt(_, reindexed) => reindexed
    case VacuumStmt(_, _, rels) => if rels == [] then None else rels[0]
    case ClusterStmt(clustered) => clustered
    case OtherStmt => None
  }

  /** The record holds what the catalog says of the target. */
  ghost predicate About(q: QueryInfo, tree: Node, catalog: Catalog) {
    && q.isWrite
    && (if Target(tree).Some? then IsHead(q.relationName, Target(tree).value, 63) else q.relationName == "")
    && (if !tree.DropdbStmt? && Target(tree).Some? && catalog(Target(tree).value).Found? then
          var relation := catalog(Target(tree).value).relation;
          && q.relationOid == relation.oid && q.relationQualname == relation.qualname
          && q.relationSize == relation.size && q.estimatedRows == relation.rows
        else q.relationOid == 0 && q.relationQualname == "" && q.relationSize == -1 && q.estimatedRows == -1)
  }

  lemma DroppedOrTruncated(tree: Node, catalog: Catalog)
    requires tree.TruncateStmt? || tree.DropStmt? || tree.DropdbStmt?
    requires RateOf(tree, catalog).Classified? && RateOf(tree, catalog).info.kind != Other
    ensures About(RateOf(tree, catalog).info, tree, catalog)
  {
  }

  lemma Altered(tree: Node, catalog: Catalog)
    requires tree.AlterTableStmt? || tree.RenameStmt? || tree.IndexStmt?
    requires RateOf(tree, catalog).Classified? && RateOf(tree, catalog).info.kind != Other
    ensures About(RateOf(tree, catalog).info, tree, catalog)
  {
    hide Worst, AnyRewrite;
  }

  lemma Rewritten(tree: Node, catalog: Catalog)
    requires tree.ReindexStmt? || tree.VacuumStmt? || tree.ClusterStmt? || tree.OtherStmt?
    requires RateOf(tree, catalog).Classified? && RateOf(tree, catalog).info.kind != Other
    ensures About(RateOf(tree, catalog).info, tree, catalog)
  {
    hide FirstNamed;
  }

  lemma TargetDescribed(tree: Node, catalog: Catalog)
    requires RateOf(tree, catalog).Classified? && RateOf(tree, catalog).info.kind != Other
    ensures About(RateOf(tree, catalog).info, tree, catalog)
  {
    hide About, RateOf;
    match tree
    case TruncateStmt(_) => DroppedOrTruncated(tree, catalog);
    case DropStmt(_, _, _) => DroppedOrTruncated(tree, catalog);
    case DropdbStmt(_) => DroppedOrTruncated(tree, catalog);
    case AlterTableStmt(_, _) => Altered(tree, catalog);
    case RenameStmt(_, _) => Altered(tree, catalog);
    case IndexStmt(_, _) => Altered(tree, catalog);
    case _ => Rewritten(tree, catalog);
  }
}
