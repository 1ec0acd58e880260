/** From path components to query plans, and back. */
module Resolver {
  import opened Common
  import opened InodeModel

  datatype PlanKind =
    | Root
    | DbNamespace
    | ListTables
    | ListPartitions
    | DescribeTable
    | Readme
    | StreamAll
    | StreamPartition(partition: string)

  datatype QueryPlan = QueryPlan(kind: PlanKind, db: Option<string>, table: Option<string>) {
    predicate IsDir() {
      kind.Root? || kind.DbNamespace? || kind.ListTables? || kind.ListPartitions?
    }

    predicate IsSpecialFile() {
      kind.DescribeTable? || kind.Readme?
    }
  }

  datatype FsError = NotFound | InvalidIdentifier(text: string) | NotADir | Query(code: nat)

  const MAX_NAME: nat := 192

  predicate IsAlphanumeric(c: char) {
    '0' <= c <= '9' || 'a' <= c <= 'z' || 'A' <= c <= 'Z'
  }

  predicate ValidIdentifier(s: string) {
    && s != "" && |s| <= MAX_NAME
    && forall i :: 0 <= i < |s| ==> IsAlphanumeric(s[i]) || s[i] == '_' || s[i] == '-' || s[i] == '.'
  }

  predicate ValidDbOrTable(s: string) {
    && s != "" && |s| <= MAX_NAME
    && s[0] != '.'
    && forall i :: 0 <= i < |s| ==> IsAlphanumeric(s[i]) || s[i] == '_'
  }

  const PARENT := ".."
  const SUFFIX := ".tsv"

  predicate EndsWith(s: string, suffix: string) {
    |s| >= |suffix| && s[|s| - |suffix|..] == suffix
  }

  /** The plan of a file name inside a table's directory. */
  function ResolveLeaf(db: string, tbl: string, leaf: string): Result<QueryPlan, FsError> {
    if leaf == ".schema" then Ok(QueryPlan(DescribeTable, Some(db), Some(tbl)))
    else if leaf == "README.md" then Ok(QueryPlan(Readme, Some(db), Some(tbl)))
    else if leaf == "all.tsv" then Ok(QueryPlan(StreamAll, Some(db), Some(tbl)))
    else if EndsWith(leaf, SUFFIX) then
      var part := leaf[..|leaf| - |SUFFIX|];
      if !ValidIdentifier(part) then Err(InvalidIdentifier(part))
      else Ok(QueryPlan(StreamPartition(part), Some(db), Some(tbl)))
    else Err(NotFound)
  }

  function Resolve(path: Path): Result<QueryPlan, FsError> {
    if PARENT in path then Err(NotFound)
    else if path == [] then Ok(QueryPlan(Root, None, None))
    else if path[0] != "db" then Err(NotFound)
    else if |path| == 1 then Ok(QueryPlan(DbNamespace, None, None))
    else if |path| == 2 then
      if !ValidDbOrTable(path[1]) then Err(InvalidIdentifier(path[1]))
      else Ok(QueryPlan(ListTables, Some(path[1]), None))
    else if |path| <= 4 then
      if !ValidDbOrTable(path[1]) || !ValidDbOrTable(path[2]) then
        Err(InvalidIdentifier(path[1] + "." + path[2]))
      else if |path| == 3 then Ok(QueryPlan(ListPartitions, Some(path[1]), Some(path[2])))
      else ResolveLeaf(path[1], path[2], path[3])
    else Err(NotFound)
  }

  /** A plan that names what its kind needs, and nothing else. */
  predicate WellFormed(plan: QueryPlan) {
    match plan.kind
    case Root => plan.db.None? && plan.table.None?
    case DbNamespace => plan.db.None? && plan.table.None?
    case ListTables => plan.db.Some? && ValidDbOrTable(plan.db.value) && plan.table.None?
    case StreamPartition(part) => TableNamed(plan) && ValidIdentifier(part) && part != "all"
    case _ => TableNamed(plan)
  }

  predicate TableNamed(plan: QueryPlan) {
    plan.db.Some? && plan.table.Some? && ValidDbOrTable(plan.db.value) && ValidDbOrTable(plan.table.value)
  }

  /** The path of a well-formed plan. */
  function Print(plan: QueryPlan): Path
    requires WellFormed(plan)
  {
    match plan.kind
    case Root => []
    case DbNamespace => ["db"]
    case ListTables => ["db", plan.db.value]
    case ListPartitions => ["db", plan.db.value, plan.table.value]
    case DescribeTable => ["db", plan.db.value, plan.table.value, ".schema"]
    case Readme => ["db", plan.db.value, plan.table.value, "README.md"]
    case StreamAll => ["db", plan.db.value, plan.table.value, "all.tsv"]
    case StreamPartition(part) => ["db", plan.db.value, plan.table.value, part + SUFFIX]
  }

  lemma PartitionName(part: string)
    requires ValidIdentifier(part)
    ensures
      var leaf := part + SUFFIX;
      && EndsWith(leaf, SUFFIX) && leaf[..|leaf| - |SUFFIX|] == part
      && leaf != ".schema" && leaf != "README.md" && leaf != PARENT
      && (leaf == "all.tsv" <==> part == "all")
  {
    var leaf := part + SUFFIX;
    assert leaf[|leaf| - 1] == 'v';
    assert leaf[..|part|] == part;
    if leaf == "all.tsv" {
      assert part == "all.tsv"[..3];
    }
  }

  /** Resolving the path of a plan gives the plan back. */
  lemma ResolvePrint(plan: QueryPlan)
    requires WellFormed(plan)
    ensures Resolve(Print(plan)) == Ok(plan)
  {
    if plan.kind.StreamPartition? {
      PartitionName(plan.kind.partition);
    }
    assert plan.db.Some? ==> plan.db.value != PARENT;
    assert plan.table.Some? ==> plan.table.value != PARENT;
  }

  /** The path of what `resolve` accepts is the path it was given; what it gives is well formed. */
  lemma PrintResolve(path: Path)
    requires Resolve(path).Ok?
    ensures WellFormed(Resolve(path).value)
    ensures Print(Resolve(path).value) == path
  {
    if |path| == 4 {
      var leaf := path[3];
      if EndsWith(leaf, SUFFIX) && leaf != "all.tsv" {
        var part := leaf[..|leaf| - |SUFFIX|];
        assert leaf == part + SUFFIX;
      }
    }
  }

  /**
    Distinct accepted paths have distinct plans, exactly the well-formed plans
    are reached, and no path streams the pseudo-partition "all".
   */
  lemma ResolveInjective(path1: Path, path2: Path)
    requires Resolve(path1).Ok? && Resolve(path2).Ok?
    ensures Resolve(path1) == Resolve(path2) ==> path1 == path2
    ensures Resolve(path1).value.kind != StreamPartition("all")
  {
    PrintResolve(path1);
    PrintResolve(path2);
  }
}
