/** Directories: verification of plans, `lookup`, `readdir`, and how they agree. */
module Directory {
  import opened Common
  import opened InodeModel
  import opened InodeTables
  import opened Resolver
  import Pieces
  import StreamModel
  import StreamProperties

  // ------------------------------------------------------------------- snapshots

  /** What the three listings answer while one operation looks at them. */
  datatype Snapshot = Snapshot(
    databases: Result<seq<string>, FsError>,
    tables: string -> Result<seq<string>, FsError>,
    partitions: (string, string) -> Result<seq<string>, FsError>)

  function Contains(listing: Result<seq<string>, FsError>, name: string): Result<(), FsError> {
    match listing
    case Err(e) => Err(e)
    case Ok(names) => if name in names then Ok(()) else Err(NotFound)
  }

  /** Whether the plan names a real object, by its parent's listing. */
  function VerifyPlanExists(snap: Snapshot, plan: QueryPlan): Result<(), FsError> {
    match plan.kind
    case Root => Ok(())
    case DbNamespace => Ok(())
    case ListTables => if plan.db.Some? then Contains(snap.databases, plan.db.value) else Err(NotFound)
    case StreamPartition(part) =>
      if plan.db.Some? && plan.table.Some? then
        Contains(snap.partitions(plan.db.value, plan.table.value), part)
      else Err(NotFound)
    case _ =>
      if plan.db.Some? && plan.table.Some? then Contains(snap.tables(plan.db.value), plan.table.value)
      else Err(NotFound)
  }

  datatype FileType = DirectoryType | RegularFile

  datatype Attr = Attr(ino: nat, kind: FileType, size: nat)

  function AttrForPlan(ino: nat, plan: QueryPlan): Attr {
    if plan.IsDir() then Attr(ino, DirectoryType, 0)
    else if plan.IsSpecialFile() then Attr(ino, RegularFile, 4096)
    else Attr(ino, RegularFile, StreamModel.PSEUDO_EOF)
  }

  /**
    The size reported for a stream file is where the tail window ends: reading
    the last k bytes before it, k no more than the buffer holds, gives the last k
    bytes of the buffer.
   */
  lemma LastBytesOfReportedSize(
      plan: QueryPlan, ino: nat, file: StreamModel.File, v: StreamModel.View, buf: seq<Byte>, k: nat)
    requires plan.kind.StreamAll? || plan.kind.StreamPartition?
    requires StreamModel.ViewValid(file, v) && StreamProperties.BelowTail(v)
    requires v.tail.buf == Some(buf) && k <= |buf| <= StreamModel.PSEUDO_EOF
    ensures AttrForPlan(ino, plan).kind == RegularFile && k <= AttrForPlan(ino, plan).size
    ensures
      StreamModel.ViewRead(file, v, StreamModel.Request(AttrForPlan(ino, plan).size - k, k, None)).1
      == StreamModel.Data(buf[|buf| - k..])
  {
    StreamProperties.TailRead(file, v, buf, AttrForPlan(ino, plan).size - k, k);
  }

  // ----------------------------------------------------------------------- paths

  /** Path components of a text, without empty and "." ones. */
  function Clean(pieces: seq<string>): Path {
    if pieces == [] then []
    else (if pieces[0] == "" || pieces[0] == "." then [] else [pieces[0]]) + Clean(pieces[1..])
  }

  /** `path.join(name)`: an absolute name replaces the path. */
  function JoinPath(path: Path, name: string): Path {
    var comps := Clean(Pieces.Split('/', name));
    if name != "" && name[0] == '/' then comps else path + comps
  }

  /** A name the kernel passes to `lookup`: one component, not a dot directory. */
  predicate Ordinary(name: string) {
    name != "" && '/' !in name && name != "." && name != ".."
  }

  lemma JoinOrdinary(path: Path, name: string)
    requires Ordinary(name)
    ensures JoinPath(path, name) == path + [name]
  {
    Pieces.SplitJoin('/', [name]);
    assert Clean([name]) == [name];
  }

  /** The components that count. */
  ghost predicate Component(c: string) {
    c != "" && c != "." && '/' !in c
  }

  lemma CleanCons(first: string, rest: seq<string>)
    ensures Clean([first] + rest) == (if first == "" || first == "." then [] else [first]) + Clean(rest)
  {
    assert ([first] + rest)[1..] == rest;
  }

  lemma {:induction false} CleanConcat(before: seq<string>, after: seq<string>)
    ensures Clean(before + after) == Clean(before) + Clean(after)
  {
    if before == [] {
      assert before + after == after;
    } else {
      hide Clean;
      CleanConcat(before[1..], after);
      CleanCons(before[0], before[1..]);
      CleanCons(before[0], before[1..] + after);
      assert [before[0]] + before[1..] == before;
      assert [before[0]] + (before[1..] + after) == before + after;
      var first := if before[0] == "" || before[0] == "." then [] else [before[0]];
      Pieces.Associate(first, Clean(before[1..]), Clean(after));
    }
  }

  lemma {:induction false} CleanNone(skipped: seq<string>)
    requires forall i :: 0 <= i < |skipped| ==> skipped[i] == "" || skipped[i] == "."
    ensures Clean(skipped) == []
  {
    if skipped != [] {
      CleanNone(skipped[1..]);
    }
  }

  lemma {:induction false} CleanAll(comps: seq<string>)
    requires forall i :: 0 <= i < |comps| ==> Component(comps[i])
    ensures Clean(comps) == comps
  {
    if comps != [] {
      CleanAll(comps[1..]);
      assert [comps[0]] + comps[1..] == comps;
    }
  }

  /**
    Joining a relative name of several components adds them in order and passes
    over empty ones and dots; an absolute name stands for itself.
   */
  lemma JoinComponents(path: Path, comps: seq<string>, skipped: seq<string>, more: seq<string>)
    requires comps != [] && forall i :: 0 <= i < |comps| ==> Component(comps[i])
    requires forall i :: 0 <= i < |skipped| ==> skipped[i] == "" || skipped[i] == "."
    requires forall i :: 0 <= i < |more| ==> Component(more[i])
    ensures JoinPath(path, Pieces.Join("/", comps + skipped + more)) == path + comps + more
    ensures JoinPath(path, "/" + Pieces.Join("/", comps + skipped + more)) == comps + more
  {
    hide Clean, Pieces.Split, Pieces.Join;
    var pieces := comps + skipped + more;
    var name := Pieces.Join("/", pieces);
    CleanConcat(comps + skipped, more);
    CleanConcat(comps, skipped);
    CleanAll(comps);
    CleanNone(skipped);
    CleanAll(more);
    assert comps + [] == comps;
    forall i | 0 <= i < |pieces| ensures '/' !in pieces[i] {
      PieceOf(comps, skipped, more, i);
    }
    NameSplits(pieces);
    CleanCons("", pieces);
    Pieces.Associate(path, comps, more);
  }

  lemma PieceOf(comps: seq<string>, skipped: seq<string>, more: seq<string>, i: nat)
    requires i < |comps + skipped + more|
    ensures
      var piece := (comps + skipped + more)[i];
      piece in comps || piece in skipped || piece in more
  {
  }

  lemma NameSplits(pieces: seq<string>)
    requires pieces != [] && pieces[0] != "" && Pieces.Free('/', pieces)
    ensures
      var name := Pieces.Join("/", pieces);
      && name != "" && name[0] != '/'
      && Pieces.Split('/', name) == pieces
      && Pieces.Split('/', "/" + name) == [""] + pieces
  {
    Pieces.SplitJoin('/', pieces);
    assert ['/'] == "/";
    var name := Pieces.Join("/", pieces);
    assert name[0] == pieces[0][0];
    assert ("/" + name)[1..] == name;
  }

  // --------------------------------------------------------------------- listing

  datatype Listed = Listed(kind: FileType, name: string)

  function DirsOf(names: seq<string>): (r: seq<Listed>)
    ensures |r| == |names|
    ensures forall i :: 0 <= i < |names| ==> r[i] == Listed(DirectoryType, names[i])
  {
    if names == [] then [] else [Listed(DirectoryType, names[0])] + DirsOf(names[1..])
  }

  function PartitionFiles(parts: seq<string>): (r: seq<Listed>)
    ensures |r| == |parts|
    ensures forall i :: 0 <= i < |parts| ==> r[i] == Listed(RegularFile, parts[i] + SUFFIX)
  {
    if parts == [] then [] else [Listed(RegularFile, parts[0] + SUFFIX)] + PartitionFiles(parts[1..])
  }

  const DOTS := [Listed(DirectoryType, "."), Listed(DirectoryType, "..")]
  const TABLE_FILES := [
    Listed(RegularFile, ".schema"), Listed(RegularFile, "README.md"), Listed(RegularFile, "all.tsv")]

  /** The entries of a directory, or why it has none. */
  function Entries(snap: Snapshot, plan: QueryPlan): Result<seq<Listed>, FsError> {
    match plan.kind
    case Root => Ok(DOTS + [Listed(DirectoryType, "db")])
    case DbNamespace =>
      (match snap.databases
       case Err(e) => Err(e)
       case Ok(names) => Ok(DOTS + DirsOf(names)))
    case ListTables =>
      if plan.db.None? then Err(NotFound)
      else
        (match snap.tables(plan.db.value)
         case Err(e) => Err(e)
         case Ok(names) => Ok(DOTS + DirsOf(names)))
    case ListPartitions =>
      if plan.db.None? || plan.table.None? then Err(NotFound)
      else
        (match snap.partitions(plan.db.value, plan.table.value)
         case Err(_) => Ok(DOTS + TABLE_FILES)
         case Ok(parts) => Ok(DOTS + TABLE_FILES + PartitionFiles(parts)))
    case _ => Err(NotADir)
  }

  /** `readdir` on the plan lists the entry. */
  ghost predicate Lists(snap: Snapshot, plan: QueryPlan, entry: Listed) {
    Entries(snap, plan).Ok? && entry in Entries(snap, plan).value
  }

  /** `lookup` of a path succeeds. */
  predicate Found(snap: Snapshot, path: Path) {
    Resolve(path).Ok? && VerifyPlanExists(snap, Resolve(path).value).Ok?
  }

  // ------------------------------------------------------------------- coherence

  lemma RootCoherent(snap: Snapshot, name: string)
    requires Ordinary(name)
    ensures Found(snap, [name]) <==>
              Resolve([name]).Ok? && Lists(snap, QueryPlan(Root, None, None), Listed(DirectoryType, name))
    ensures Resolve([name]).Ok? ==> Resolve([name]).value.IsDir()
  {
  }

  lemma NamespaceCoherent(snap: Snapshot, name: string)
    requires Ordinary(name)
    ensures
      var path := ["db", name];
      Found(snap, path) <==>
        Resolve(path).Ok? && Lists(snap, QueryPlan(DbNamespace, None, None), Listed(DirectoryType, name))
    ensures Resolve(["db", name]).Ok? ==> Resolve(["db", name]).value.IsDir()
  {
    if snap.databases.Ok? {
      DirNames(snap.databases.value, name);
    }
  }

  lemma TablesCoherent(snap: Snapshot, db: string, name: string)
    requires Ordinary(name)
    ensures
      var path := ["db", db, name];
      Found(snap, path) <==>
        Resolve(path).Ok? && Lists(snap, QueryPlan(ListTables, Some(db), None), Listed(DirectoryType, name))
    ensures Resolve(["db", db, name]).Ok? ==> Resolve(["db", db, name]).value.IsDir()
  {
    if snap.tables(db).Ok? {
      DirNames(snap.tables(db).value, name);
    }
  }

  lemma DirNames(names: seq<string>, name: string)
    requires Ordinary(name)
    ensures Listed(DirectoryType, name) in DOTS + DirsOf(names) <==> name in names
  {
    var dirs := DirsOf(names);
    if name in names {
      var i :| 0 <= i < |names| && names[i] == name;
      assert dirs[i] == Listed(DirectoryType, name);
    }
  }

  lemma PartitionNames(parts: seq<string>, name: string)
    ensures Listed(RegularFile, name) in PartitionFiles(parts) <==>
              EndsWith(name, SUFFIX) && name[..|name| - |SUFFIX|] in parts
  {
    var files := PartitionFiles(parts);
    if Listed(RegularFile, name) in files {
      var i :| 0 <= i < |files| && files[i] == Listed(RegularFile, name);
      assert (parts[i] + SUFFIX)[..|parts[i]|] == parts[i];
      assert parts[i] in parts;
    }
    if EndsWith(name, SUFFIX) && name[..|name| - |SUFFIX|] in parts {
      var part := name[..|name| - |SUFFIX|];
      assert name == part + SUFFIX;
      var i :| 0 <= i < |parts| && parts[i] == part;
      assert files[i] == Listed(RegularFile, name);
    }
  }

  lemma TableFileNames(name: string)
    ensures Listed(RegularFile, name) in TABLE_FILES <==> name == ".schema" || name == "README.md" || name == "all.tsv"
  {
    assert TABLE_FILES[0].name == ".schema" && TABLE_FILES[1].name == "README.md" && TABLE_FILES[2].name == "all.tsv";
  }

  lemma PartitionsCoherent(snap: Snapshot, db: string, tbl: string, name: string)
    requires Ordinary(name) && ValidDbOrTable(db) && ValidDbOrTable(tbl)
    requires VerifyPlanExists(snap, QueryPlan(ListPartitions, Some(db), Some(tbl))).Ok?
    ensures
      var path := ["db", db, tbl, name];
      Found(snap, path) <==>
        Resolve(path).Ok? && Lists(snap, QueryPlan(ListPartitions, Some(db), Some(tbl)), Listed(RegularFile, name))
    ensures Resolve(["db", db, tbl, name]).Ok? ==> !Resolve(["db", db, tbl, name]).value.IsDir()
  {
    TableFileNames(name);
    var path := ["db", db, tbl, name];
    assert Resolve(path).Ok? ==> Resolve(path) == ResolveLeaf(db, tbl, name);
    if snap.partitions(db, tbl).Ok? {
      PartitionNames(snap.partitions(db, tbl).value, name);
    }
  }

  function ChildPath(plan: QueryPlan, name: string): Path
    requires WellFormed(plan)
  {
    Print(plan) + [name]
  }

  lemma PlanCoherent(snap: Snapshot, plan: QueryPlan, name: string, ino: nat)
    requires Ordinary(name) && WellFormed(plan) && plan.IsDir() && VerifyPlanExists(snap, plan).Ok?
    ensures
      var child := ChildPath(plan, name);
      Found(snap, child) <==>
        Resolve(child).Ok? && Lists(snap, plan, Listed(AttrForPlan(ino, Resolve(child).value).kind, name))
  {
    match plan.kind
    case Root => RootCoherent(snap, name);
    case DbNamespace => NamespaceCoherent(snap, name);
    case ListTables => TablesCoherent(snap, plan.db.value, name);
    case ListPartitions => PartitionsCoherent(snap, plan.db.value, plan.table.value, name);
  }

  /** Ordinary entries are directories everywhere but in a table's directory. */
  lemma ListedKind(snap: Snapshot, plan: QueryPlan, entry: Listed)
    requires Ordinary(entry.name) && Lists(snap, plan, entry)
    ensures entry.kind.DirectoryType? <==> !plan.kind.ListPartitions?
  {
  }

  /** And so are the plans of what lies in them. */
  lemma ChildKind(plan: QueryPlan, name: string)
    requires WellFormed(plan) && plan.IsDir() && Resolve(ChildPath(plan, name)).Ok?
    ensures Resolve(ChildPath(plan, name)).value.IsDir() <==> !plan.kind.ListPartitions?
  {
    var path := ChildPath(plan, name);
    if plan.kind.ListPartitions? {
      assert Resolve(path) == ResolveLeaf(path[1], path[2], name);
    }
  }

  /**
    For one snapshot and a directory that itself verifies: an ordinary name is
    found by `lookup` if and only if the resolver accepts it and `readdir` lists
    it, and the type listed is the type `lookup` reports.
   */
  lemma LookupAgreesWithReaddir(snap: Snapshot, path: Path, name: string, ino: nat)
    requires Ordinary(name) && Found(snap, path) && Resolve(path).value.IsDir()
    ensures
      var child := JoinPath(path, name);
      Found(snap, child) <==>
        Resolve(child).Ok?
        && Lists(snap, Resolve(path).value, Listed(AttrForPlan(ino, Resolve(child).value).kind, name))
  {
    JoinOrdinary(path, name);
    PrintResolve(path);
    PlanCoherent(snap, Resolve(path).value, name, ino);
  }

  /** The names the resolver takes in a directory. */
  predicate NameAccepted(plan: QueryPlan, name: string) {
    match plan.kind
    case Root => name == "db"
    case ListPartitions => TableFile(name) || (EndsWith(name, SUFFIX) && ValidIdentifier(name[..|name| - |SUFFIX|]))
    case _ => ValidDbOrTable(name)
  }

  /** The files every table's directory holds. */
  predicate TableFile(name: string) {
    name == ".schema" || name == "README.md" || name == "all.tsv"
  }

  lemma AcceptedNames(plan: QueryPlan, name: string)
    requires WellFormed(plan) && plan.IsDir() && Ordinary(name)
    ensures Resolve(ChildPath(plan, name)).Ok? <==> NameAccepted(plan, name)
  {
    var path := ChildPath(plan, name);
    if plan.kind.ListPartitions? {
      assert Resolve(path) == ResolveLeaf(path[1], path[2], name);
    }
  }

  lemma PlanListed(snap: Snapshot, plan: QueryPlan, entry: Listed, ino: nat)
    requires WellFormed(plan) && plan.IsDir() && VerifyPlanExists(snap, plan).Ok?
    requires Lists(snap, plan, entry) && Ordinary(entry.name)
    ensures Found(snap, ChildPath(plan, entry.name)) <==> NameAccepted(plan, entry.name)
    ensures NameAccepted(plan, entry.name) ==>
              AttrForPlan(ino, Resolve(ChildPath(plan, entry.name)).value).kind == entry.kind
  {
    hide NameAccepted, Resolve, Lists, VerifyPlanExists, ChildPath, WellFormed;
    AcceptedNames(plan, entry.name);
    if NameAccepted(plan, entry.name) {
      ListedKind(snap, plan, entry);
      ChildKind(plan, entry.name);
      var child := Resolve(ChildPath(plan, entry.name)).value;
      assert AttrForPlan(ino, child).kind.DirectoryType? <==> child.IsDir();
      PlanCoherent(snap, plan, entry.name, ino);
    }
  }

  /**
    An ordinary name that is listed can be looked up if and only if it is one the
    resolver accepts, and then it has the type it was listed with.
   */
  lemma ListedIsFoundWhenAccepted(snap: Snapshot, path: Path, entry: Listed, ino: nat)
    requires Found(snap, path) && Resolve(path).value.IsDir()
    requires Lists(snap, Resolve(path).value, entry) && Ordinary(entry.name)
    ensures Found(snap, JoinPath(path, entry.name)) <==> NameAccepted(Resolve(path).value, entry.name)
    ensures NameAccepted(Resolve(path).value, entry.name) ==>
              AttrForPlan(ino, Resolve(JoinPath(path, entry.name)).value).kind == entry.kind
  {
    hide NameAccepted, Lists, Resolve, VerifyPlanExists, AttrForPlan, JoinPath, Ordinary, WellFormed, Print;
    PrintResolve(path);
    JoinOrdinary(path, entry.name);
    PlanListed(snap, Resolve(path).value, entry, ino);
  }

  // -------------------------------------------------------------------- no doubles

  ghost predicate Distinct<T>(s: seq<T>) {
    forall i, j :: 0 <= i < j < |s| ==> s[i] != s[j]
  }

  function Names(entries: seq<Listed>): (r: seq<string>)
    ensures |r| == |entries|
    ensures forall i :: 0 <= i < |entries| ==> r[i] == entries[i].name
  {
    if entries == [] then [] else [entries[0].name] + Names(entries[1..])
  }

  lemma DistinctConcat<T>(a: seq<T>, b: seq<T>)
    ensures Distinct(a + b) <==> Distinct(a) && Distinct(b) && forall x :: x in a ==> x !in b
  {
    var all := a + b;
    if Distinct(all) {
      forall i, j | 0 <= i < j < |a| ensures a[i] != a[j] {
        assert all[i] != all[j];
      }
      forall i, j | 0 <= i < j < |b| ensures b[i] != b[j] {
        assert all[i + |a|] != all[j + |a|];
      }
      forall x | x in a ensures x !in b {
        var i :| 0 <= i < |a| && a[i] == x;
        assert forall j :: 0 <= j < |b| ==> all[i] != all[j + |a|] && all[j + |a|] == b[j];
      }
    } else {
      var i, j :| 0 <= i < j < |all| && all[i] == all[j];
      assert all[i] == if i < |a| then a[i] else b[i - |a|];
      assert all[j] == if j < |a| then a[j] else b[j - |a|];
      if i < |a| <= j {
        assert a[i] in a && b[j - |a|] in b;
      } else if |a| <= i {
        assert b[i - |a|] == b[j - |a|];
      }
    }
  }

  lemma DistinctDirs(names: seq<string>)
    ensures Distinct(Names(DOTS + DirsOf(names))) <==> Distinct(names) && "." !in names && ".." !in names
  {
    assert Names(DOTS + DirsOf(names)) == [".", ".."] + names;
    DistinctConcat([".", ".."], names);
  }

  function Suffixed(parts: seq<string>): (r: seq<string>)
    ensures |r| == |parts|
    ensures forall i :: 0 <= i < |parts| ==> r[i] == parts[i] + SUFFIX
  {
    Names(PartitionFiles(parts))
  }

  lemma DistinctSuffixed(parts: seq<string>)
    ensures Distinct(Suffixed(parts)) <==> Distinct(parts)
  {
    var names := Suffixed(parts);
    forall i, j | 0 <= i < j < |parts| ensures names[i] == names[j] <==> parts[i] == parts[j] {
      SuffixedName(parts[i]);
      SuffixedName(parts[j]);
    }
  }

  const FIXED := [".", "..", ".schema", "README.md", "all.tsv"]

  lemma SuffixedAmongFixed(parts: seq<string>)
    ensures (forall x :: x in FIXED ==> x !in Suffixed(parts)) <==> "all" !in parts
  {
    assert FIXED[4] == "all.tsv";
    forall i | 0 <= i < |parts| ensures Suffixed(parts)[i] in FIXED <==> parts[i] == "all" {
      SuffixedName(parts[i]);
    }
    if "all" in parts {
      var i :| 0 <= i < |parts| && parts[i] == "all";
      assert Suffixed(parts)[i] in FIXED;
    }
  }

  lemma FixedAreDistinct()
    ensures Distinct(FIXED)
  {
    assert FIXED[0] == "." && FIXED[1] == ".." && FIXED[2] == ".schema" && FIXED[3] == "README.md";
  }

  lemma NamesConcat(a: seq<Listed>, b: seq<Listed>)
    ensures Names(a + b) == Names(a) + Names(b)
  {
  }

  lemma TableNames(parts: seq<string>)
    ensures Names(DOTS + TABLE_FILES + PartitionFiles(parts)) == FIXED + Suffixed(parts)
  {
    hide DOTS, TABLE_FILES, PartitionFiles, FIXED;
    assert Names(DOTS + TABLE_FILES) == FIXED by {
      FixedNames();
    }
    NamesConcat(DOTS + TABLE_FILES, PartitionFiles(parts));
  }

  lemma FixedNames()
    ensures Names(DOTS + TABLE_FILES) == FIXED
  {
  }

  lemma DistinctPartitions(parts: seq<string>)
    ensures Distinct(Names(DOTS + TABLE_FILES + PartitionFiles(parts))) <==> Distinct(parts) && "all" !in parts
  {
    hide Distinct;
    TableNames(parts);
    FixedAreDistinct();
    DistinctConcat(FIXED, Suffixed(parts));
    DistinctSuffixed(parts);
    SuffixedAmongFixed(parts);
  }

  lemma SuffixedName(part: string)
    ensures
      var name := part + SUFFIX;
      && name[..|name| - |SUFFIX|] == part
      && name != "." && name != ".." && name != ".schema" && name != "README.md"
      && (name == "all.tsv" <==> part == "all")
  {
    var name := part + SUFFIX;
    assert name[|name| - 1] == 'v';
    if name == "all.tsv" {
      assert part == "all.tsv"[..3];
    }
  }

  /** The server's names for a directory are distinct and clash with none of the fixed ones. */
  ghost predicate NoClash(snap: Snapshot, plan: QueryPlan)
    requires Entries(snap, plan).Ok?
  {
    match plan.kind
    case DbNamespace => Distinct(snap.databases.value) && "." !in snap.databases.value && ".." !in snap.databases.value
    case ListTables =>
      var names := snap.tables(plan.db.value).value;
      Distinct(names) && "." !in names && ".." !in names
    case ListPartitions =>
      var parts := snap.partitions(plan.db.value, plan.table.value);
      parts.Ok? ==> Distinct(parts.value) && "all" !in parts.value
    case _ => true
  }

  /** No name is listed twice exactly when the server's names are distinct and are not one of the fixed ones. */
  lemma NoNameTwice(snap: Snapshot, plan: QueryPlan)
    requires Entries(snap, plan).Ok?
    ensures Distinct(Names(Entries(snap, plan).value)) <==> NoClash(snap, plan)
  {
    if plan.kind.Root? {
      var names := Names(Entries(snap, plan).value);
      assert names[0] == "." && names[1] == ".." && names[2] == "db";
    } else if plan.kind.DbNamespace? {
      DistinctDirs(snap.databases.value);
    } else if plan.kind.ListTables? {
      DistinctDirs(snap.tables(plan.db.value).value);
    } else {
      var parts := snap.partitions(plan.db.value, plan.table.value);
      if parts.Ok? {
        DistinctPartitions(parts.value);
      } else {
        DistinctPartitions([]);
        assert DOTS + TABLE_FILES + PartitionFiles([]) == DOTS + TABLE_FILES;
      }
    }
  }

  // ---------------------------------------------------------------------- paging

  /** What one reply holds: the entries from the offset on, until one takes more bytes than are left. */
  function Page(entries: seq<Listed>, offset: nat, capacity: nat, size: string -> nat): (page: seq<Listed>)
    ensures offset <= |entries| ==> offset + |page| <= |entries|
    decreases |entries| - offset
  {
    if offset >= |entries| || size(entries[offset].name) > capacity then []
    else [entries[offset]] + Page(entries, offset + 1, capacity - size(entries[offset].name), size)
  }

  lemma {:induction false} PageIsSlice(entries: seq<Listed>, offset: nat, capacity: nat, size: string -> nat)
    requires offset <= |entries|
    ensures
      var page := Page(entries, offset, capacity, size);
      offset + |page| <= |entries| && page == entries[offset..offset + |page|]
    decreases |entries| - offset
  {
    if offset < |entries| && size(entries[offset].name) <= capacity {
      PageIsSlice(entries, offset + 1, capacity - size(entries[offset].name), size);
    }
  }

  /** The bytes entries take. */
  function Bytes(entries: seq<Listed>, size: string -> nat): nat {
    if entries == [] then 0 else size(entries[0].name) + Bytes(entries[1..], size)
  }

  /** Of the entries from the offset on, `n` is as many as fit. */
  ghost predicate Fills(entries: seq<Listed>, offset: nat, capacity: nat, size: string -> nat, n: nat) {
    if offset >= |entries| then n == 0
    else
      && offset + n <= |entries|
      && Bytes(entries[offset..offset + n], size) <= capacity
      && (offset + n < |entries| ==> Bytes(entries[offset..offset + n + 1], size) > capacity)
  }

  lemma BytesOfFirst(entries: seq<Listed>, from: nat, to: nat, size: string -> nat)
    requires from < to <= |entries|
    ensures Bytes(entries[from..to], size) == size(entries[from].name) + Bytes(entries[from + 1..to], size)
  {
    assert entries[from..to][1..] == entries[from + 1..to];
  }

  /** A reply is as full as it can be. */
  lemma {:induction false} PageFills(entries: seq<Listed>, offset: nat, capacity: nat, size: string -> nat)
    ensures Fills(entries, offset, capacity, size, |Page(entries, offset, capacity, size)|)
    decreases |entries| - offset
  {
    if offset < |entries| {
      var first := size(entries[offset].name);
      if first > capacity {
        assert entries[offset..offset] == [];
        BytesOfFirst(entries, offset, offset + 1, size);
      } else {
        PageFills(entries, offset + 1, capacity - first, size);
        var n := |Page(entries, offset + 1, capacity - first, size)|;
        BytesOfFirst(entries, offset, offset + 1 + n, size);
        if offset + 1 >= |entries| {
          assert entries[offset + 1..] == [];
        } else if offset + 1 + n < |entries| {
          BytesOfFirst(entries, offset, offset + n + 2, size);
        }
      }
    }
  }

  lemma {:induction false} BytesOfPrefix(entries: seq<Listed>, n: nat, size: string -> nat)
    requires n <= |entries|
    ensures Bytes(entries[..n], size) <= Bytes(entries, size)
  {
    if n > 0 {
      BytesOfPrefix(entries[1..], n - 1, size);
      assert entries[..n][1..] == entries[1..][..n - 1];
    }
  }

  lemma PrefixIsSlice(entries: seq<Listed>, n: nat)
    ensures n < |entries| ==> entries[0..0 + n + 1] == entries[..n + 1]
  {
  }

  /** A reply with room for all entries has them all. */
  lemma AllFit(entries: seq<Listed>, capacity: nat, size: string -> nat, n: nat)
    requires Fills(entries, 0, capacity, size, n) && Bytes(entries, size) <= capacity
    ensures n == |entries|
  {
    BytesOfPrefix(entries, Min(n + 1, |entries|), size);
    PrefixIsSlice(entries, n);
  }

  /** What a client gets that asks from the offset the last reply ended at, until a reply is empty. */
  function ReadAll(entries: seq<Listed>, offset: nat, capacities: nat -> nat, size: string -> nat, turn: nat):
    seq<Listed>
    decreases |entries| - offset
  {
    var page := Page(entries, offset, capacities(turn), size);
    if page == [] then [] else page + ReadAll(entries, offset + |page|, capacities, size, turn + 1)
  }

  /**
    Following the offsets lists the entries once and in order. Only an entry that
    is larger than a whole reply can end the listing early.
   */
  lemma {:induction false} PagingIsComplete(
      entries: seq<Listed>, offset: nat, capacities: nat -> nat, size: string -> nat, turn: nat)
    requires offset <= |entries|
    ensures
      var got := ReadAll(entries, offset, capacities, size, turn);
      && offset + |got| <= |entries|
      && got == entries[offset..offset + |got|]
      && (offset + |got| < |entries| ==>
            exists t :: t >= turn && size(entries[offset + |got|].name) > capacities(t))
    decreases |entries| - offset
  {
    var page := Page(entries, offset, capacities(turn), size);
    PageIsSlice(entries, offset, capacities(turn), size);
    if page != [] {
      var next := offset + |page|;
      PagingIsComplete(entries, next, capacities, size, turn + 1);
      var rest := ReadAll(entries, next, capacities, size, turn + 1);
      assert entries[offset..next] + entries[next..next + |rest|] == entries[offset..next + |rest|];
    }
  }
}
