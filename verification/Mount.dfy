/**
  The mounted tree as a user sees it, path by path: which names there are, what a
  directory lists, and what looking a name up answers.
 */
module Mount {
  import opened Common
  import opened InodeModel
  import opened Resolver
  import opened Directory

  // ----------------------------------------------------------------------- names

  predicate NameChar(c: char) {
    c in "ABCDEFGHIJKLMNOPQRSTUVWXYZ" || c in "abcdefghijklmnopqrstuvwxyz" || c in "0123456789" || c == '_'
  }

  /** Names of databases and tables. */
  predicate GoodName(s: string) {
    1 <= |s| <= 192 && forall i :: 0 <= i < |s| ==> NameChar(s[i])
  }

  /** Names of partitions. */
  predicate GoodPartition(s: string) {
    1 <= |s| <= 192 && forall i :: 0 <= i < |s| ==> NameChar(s[i]) || s[i] == '-' || s[i] == '.'
  }

  lemma UpperCase(c: char)
    ensures c in "ABCDEFGHIJKLMNOPQRSTUVWXYZ" <==> 'A' <= c <= 'Z'
  {
    var letters := "ABCDEFGHIJKLMNOPQRSTUVWXYZ";
    if 'A' <= c <= 'Z' {
      assert letters[c as int - 'A' as int] == c;
    }
  }

  lemma LowerCase(c: char)
    ensures c in "abcdefghijklmnopqrstuvwxyz" <==> 'a' <= c <= 'z'
  {
    var letters := "abcdefghijklmnopqrstuvwxyz";
    if 'a' <= c <= 'z' {
      assert letters[c as int - 'a' as int] == c;
    }
  }

  lemma Digit(c: char)
    ensures c in "0123456789" <==> '0' <= c <= '9'
  {
    var digits := "0123456789";
    if '0' <= c <= '9' {
      assert digits[c as int - '0' as int] == c;
    }
  }

  lemma NameCharacters(c: char)
    ensures NameChar(c) <==> IsAlphanumeric(c) || c == '_'
  {
    UpperCase(c);
    LowerCase(c);
    Digit(c);
  }

  lemma NamesAreValid(s: string)
    ensures GoodName(s) <==> ValidDbOrTable(s)
    ensures GoodPartition(s) <==> ValidIdentifier(s)
  {
    hide NameChar, IsAlphanumeric;
    forall i | 0 <= i < |s| ensures NameChar(s[i]) <==> IsAlphanumeric(s[i]) || s[i] == '_' {
      NameCharacters(s[i]);
    }
    if s != "" && s[0] == '.' {
      DotIsNoLetter();
    }
  }

  lemma NoParent(s: string)
    ensures GoodName(s) ==> s != ".."
  {
    NamesAreValid(s);
  }

  lemma DotIsNoLetter()
    ensures !IsAlphanumeric('.')
  {
  }

  // ----------------------------------------------------------------------- paths

  /** Every string of 1 to 192 letters, digits and underscores names a database, and no other does. */
  lemma DatabasePath(s: string)
    ensures Resolve(["db", s])
         == if GoodName(s) then Ok(QueryPlan(ListTables, Some(s), None))
            else if s == ".." then Err(NotFound)
            else Err(InvalidIdentifier(s))
  {
    NamesAreValid(s);
  }

  lemma TablePath(d: string, t: string)
    ensures Resolve(["db", d, t])
         == if GoodName(d) && GoodName(t) then Ok(QueryPlan(ListPartitions, Some(d), Some(t)))
            else if d == ".." || t == ".." then Err(NotFound)
            else Err(InvalidIdentifier(d + "." + t))
  {
    hide GoodName, ValidDbOrTable;
    NamesAreValid(d);
    NamesAreValid(t);
    NoParent(d);
    NoParent(t);
  }

  /** The partition a file name stands for. */
  function PartitionOf(name: string): Option<string> {
    if |name| >= 4 && name[|name| - 4..] == ".tsv" then Some(name[..|name| - 4]) else None
  }

  /** The files of a table: three fixed ones, and one for every name of 1 to 192 partition characters. */
  lemma FilePath(d: string, t: string, name: string)
    requires GoodName(d) && GoodName(t) && name != ".."
    ensures Resolve(["db", d, t, ".schema"]) == Ok(QueryPlan(DescribeTable, Some(d), Some(t)))
    ensures Resolve(["db", d, t, "README.md"]) == Ok(QueryPlan(Readme, Some(d), Some(t)))
    ensures Resolve(["db", d, t, "all.tsv"]) == Ok(QueryPlan(StreamAll, Some(d), Some(t)))
    ensures name !in [".schema", "README.md", "all.tsv"] ==>
              Resolve(["db", d, t, name])
              == match PartitionOf(name)
                 case None => Err(NotFound)
                 case Some(part) =>
                   if GoodPartition(part) then Ok(QueryPlan(StreamPartition(part), Some(d), Some(t)))
                   else Err(InvalidIdentifier(part))
  {
    NamesAreValid(d);
    NamesAreValid(t);
    LeafPath(d, t, ".schema");
    LeafPath(d, t, "README.md");
    LeafPath(d, t, "all.tsv");
    LeafPath(d, t, name);
    if PartitionOf(name).Some? {
      NamesAreValid(PartitionOf(name).value);
    }
  }

  lemma LeafPath(d: string, t: string, name: string)
    requires ValidDbOrTable(d) && ValidDbOrTable(t) && name != ".."
    ensures Resolve(["db", d, t, name]) == ResolveLeaf(d, t, name)
  {
    assert d != ".." && t != "..";
  }

  /** Everything else: the two directories above, and paths that lead nowhere. */
  lemma OtherPath(path: Path)
    ensures Resolve([]) == Ok(QueryPlan(Root, None, None))
    ensures Resolve(["db"]) == Ok(QueryPlan(DbNamespace, None, None))
    ensures path != [] && path[0] != "db" ==> Resolve(path) == Err(NotFound)
    ensures |path| > 4 || ".." in path ==> Resolve(path) == Err(NotFound)
    ensures 3 <= |path| <= 4 && path[0] == "db" && ".." !in path && !(GoodName(path[1]) && GoodName(path[2])) ==>
              Resolve(path) == Err(InvalidIdentifier(path[1] + "." + path[2]))
  {
    if |path| >= 3 {
      NamesAreValid(path[1]);
      NamesAreValid(path[2]);
    }
  }

  // --------------------------------------------------------------------- lookups

  /** A lookup settled by one listing: the name must be acceptable, the listing there, and the object on it. */
  ghost predicate Settles(
      acceptable: bool, otherwise: FsError, listing: Result<seq<string>, FsError>, item: string, attr: Attr,
      reply: Result<Attr, FsError>)
  {
    if !acceptable then reply == Err(otherwise)
    else
      match listing
      case Err(e) => reply == Err(e)
      case Ok(names) => if item in names then reply == Ok(attr) else reply == Err(NotFound)
  }

  /**
    What looking up `name` in the directory at `dir` answers, by the listings of
    databases, of the tables of `dir`'s database and of the partitions of its table.
   */
  ghost predicate LookupAt(
      dir: Path, name: string, databases: Result<seq<string>, FsError>, tables: Result<seq<string>, FsError>,
      partitions: Result<seq<string>, FsError>, ino: nat, reply: Result<Attr, FsError>)
  {
    if dir == [] then reply == if name == "db" then Ok(Attr(ino, DirectoryType, 0)) else Err(NotFound)
    else if dir[0] != "db" || |dir| > 3 || ".." in dir then reply == Err(NotFound)
    else if |dir| == 1 then
      Settles(GoodName(name), InvalidIdentifier(name), databases, name, Attr(ino, DirectoryType, 0), reply)
    else if |dir| == 2 then
      Settles(GoodName(dir[1]) && GoodName(name), InvalidIdentifier(dir[1] + "." + name), tables, name,
              Attr(ino, DirectoryType, 0), reply)
    else if !(GoodName(dir[1]) && GoodName(dir[2])) then reply == Err(InvalidIdentifier(dir[1] + "." + dir[2]))
    else if name == ".schema" || name == "README.md" then
      Settles(true, NotFound, tables, dir[2], Attr(ino, RegularFile, 4096), reply)
    else if name == "all.tsv" then
      Settles(true, NotFound, tables, dir[2], Attr(ino, RegularFile, 0x7FFF_FFFF_FFFF_FFFF), reply)
    else
      match PartitionOf(name)
      case None => reply == Err(NotFound)
      case Some(part) =>
        Settles(GoodPartition(part), InvalidIdentifier(part), partitions, part,
                Attr(ino, RegularFile, 0x7FFF_FFFF_FFFF_FFFF), reply)
  }

  /** The reply by resolution and verification. */
  function Outcome(snap: Snapshot, path: Path, ino: nat): Result<Attr, FsError> {
    match Resolve(path)
    case Err(e) => Err(e)
    case Ok(plan) =>
      match VerifyPlanExists(snap, plan)
      case Err(e) => Err(e)
      case Ok(_) => Ok(AttrForPlan(ino, plan))
  }

  lemma OutcomeAtFile(snap: Snapshot, d: string, t: string, name: string, ino: nat)
    requires GoodName(d) && GoodName(t) && name != ".."
    ensures LookupAt(["db", d, t], name, snap.databases, snap.tables(d), snap.partitions(d, t), ino,
                     Outcome(snap, ["db", d, t, name], ino))
  {
    hide Resolve, GoodName, GoodPartition, PartitionOf;
    FilePath(d, t, name);
    NoParent(d);
    NoParent(t);
  }

  /** Exactly what a lookup of one component answers on a snapshot. */
  lemma OutcomeByPath(snap: Snapshot, dir: Path, name: string, ino: nat)
    requires name != "" && name != "." && name != ".." && '/' !in name
    ensures
      var d := if |dir| >= 2 then dir[1] else "";
      var t := if |dir| >= 3 then dir[2] else "";
      LookupAt(dir, name, snap.databases, snap.tables(d), snap.partitions(d, t), ino, Outcome(snap, dir + [name], ino))
  {
    hide Resolve, GoodName, GoodPartition, PartitionOf;
    var path := dir + [name];
    OtherPath(path);
    assert path[|dir|] == name;
    assert forall i :: 0 <= i < |dir| ==> path[i] == dir[i];
    if dir == [] {
      assert path == [name];
    } else if dir[0] != "db" || |dir| > 3 || ".." in dir {
      assert ".." in dir ==> ".." in path;
    } else if |dir| == 1 {
      assert dir == ["db"] && path == ["db", name];
      DatabasePath(name);
    } else if |dir| == 2 {
      assert path == ["db", dir[1], name];
      TablePath(dir[1], name);
    } else if GoodName(dir[1]) && GoodName(dir[2]) {
      assert dir == ["db", dir[1], dir[2]] && path == ["db", dir[1], dir[2], name];
      OutcomeAtFile(snap, dir[1], dir[2], name, ino);
    }
  }

  /** A file every table has is found exactly when its table is. */
  lemma TableFileNeedsTable(snap: Snapshot, d: string, t: string, name: string)
    requires name in [".schema", "README.md", "all.tsv"]
    ensures Found(snap, ["db", d, t, name]) <==> Found(snap, ["db", d, t])
  {
    hide GoodName;
    OtherPath(["db", d, t, name]);
    TablePath(d, t);
    if GoodName(d) && GoodName(t) {
      FilePath(d, t, name);
    }
  }

  // -------------------------------------------------------------------- listings

  /** The dot directories, the given files, and an entry for every name. */
  function ListingOf(files: seq<string>, names: seq<string>, kind: FileType, suffix: string): seq<Listed> {
    [Listed(DirectoryType, "."), Listed(DirectoryType, "..")]
    + seq(|files|, i requires 0 <= i < |files| => Listed(RegularFile, files[i]))
    + seq(|names|, i requires 0 <= i < |names| => Listed(kind, names[i] + suffix))
  }

  /** What the directory at `dir` lists. */
  function ListingAt(
      dir: Path, databases: Result<seq<string>, FsError>, tables: Result<seq<string>, FsError>,
      partitions: Result<seq<string>, FsError>): Result<seq<Listed>, FsError>
  {
    if dir == [] then Ok(ListingOf([], ["db"], DirectoryType, ""))
    else if dir[0] != "db" || |dir| > 4 || ".." in dir then Err(NotFound)
    else if |dir| == 1 then
      match databases
      case Err(e) => Err(e)
      case Ok(names) => Ok(ListingOf([], names, DirectoryType, ""))
    else if |dir| == 2 then
      if !GoodName(dir[1]) then Err(InvalidIdentifier(dir[1]))
      else
        match tables
        case Err(e) => Err(e)
        case Ok(names) => Ok(ListingOf([], names, DirectoryType, ""))
    else if !(GoodName(dir[1]) && GoodName(dir[2])) then Err(InvalidIdentifier(dir[1] + "." + dir[2]))
    else if |dir| == 3 then
      var names := if partitions.Ok? then partitions.value else [];
      Ok(ListingOf([".schema", "README.md", "all.tsv"], names, RegularFile, ".tsv"))
    else if dir[3] == ".schema" || dir[3] == "README.md" || dir[3] == "all.tsv" then Err(NotADir)
    else
      match PartitionOf(dir[3])
      case None => Err(NotFound)
      case Some(part) => if GoodPartition(part) then Err(NotADir) else Err(InvalidIdentifier(part))
  }

  /** The entries by resolution. */
  function Contents(snap: Snapshot, path: Path): Result<seq<Listed>, FsError> {
    match Resolve(path)
    case Err(e) => Err(e)
    case Ok(plan) => Entries(snap, plan)
  }

  lemma PlainListing(names: seq<string>)
    ensures DOTS + DirsOf(names) == ListingOf([], names, DirectoryType, "")
  {
    forall i | 0 <= i < |names| ensures names[i] + "" == names[i] {
    }
  }

  lemma TableListing(parts: seq<string>)
    ensures DOTS + TABLE_FILES + PartitionFiles(parts)
         == ListingOf([".schema", "README.md", "all.tsv"], parts, RegularFile, ".tsv")
  {
    var files := [".schema", "README.md", "all.tsv"];
    assert TABLE_FILES == seq(|files|, i requires 0 <= i < |files| => Listed(RegularFile, files[i]));
  }

  lemma RootListing()
    ensures DOTS + [Listed(DirectoryType, "db")] == ListingOf([], ["db"], DirectoryType, "")
  {
    PlainListing(["db"]);
    assert DirsOf(["db"]) == [Listed(DirectoryType, "db")];
  }

  lemma ContentsOfTable(snap: Snapshot, d: string, t: string)
    requires GoodName(d) && GoodName(t)
    ensures Contents(snap, ["db", d, t])
         == ListingAt(["db", d, t], snap.databases, snap.tables(d), snap.partitions(d, t))
  {
    hide Resolve, GoodName, ListingOf, DOTS, TABLE_FILES;
    TablePath(d, t);
    NoParent(d);
    NoParent(t);
    var parts := snap.partitions(d, t);
    TableListing(if parts.Ok? then parts.value else []);
    assert PartitionFiles([]) == [];
    assert DOTS + TABLE_FILES + [] == DOTS + TABLE_FILES;
  }

  lemma ContentsOfFile(snap: Snapshot, d: string, t: string, name: string)
    requires GoodName(d) && GoodName(t) && name != ".."
    ensures Contents(snap, ["db", d, t, name])
         == ListingAt(["db", d, t, name], snap.databases, snap.tables(d), snap.partitions(d, t))
  {
    hide Resolve, GoodName, GoodPartition, PartitionOf, ListingOf, DOTS, TABLE_FILES;
    FilePath(d, t, name);
    NoParent(d);
    NoParent(t);
  }

  /** Exactly what every path lists on a snapshot, or why it does not. */
  lemma ContentsByPath(snap: Snapshot, dir: Path)
    ensures
      var d := if |dir| >= 2 then dir[1] else "";
      var t := if |dir| >= 3 then dir[2] else "";
      Contents(snap, dir) == ListingAt(dir, snap.databases, snap.tables(d), snap.partitions(d, t))
  {
    hide Resolve, GoodName, GoodPartition, PartitionOf, ListingOf, DOTS;
    OtherPath(dir);
    if dir == [] {
      RootListing();
    } else if dir[0] != "db" || |dir| > 4 || ".." in dir {
    } else if |dir| == 1 {
      assert dir == ["db"];
      if snap.databases.Ok? {
        PlainListing(snap.databases.value);
      }
    } else if |dir| == 2 {
      assert dir == ["db", dir[1]];
      DatabasePath(dir[1]);
      if snap.tables(dir[1]).Ok? {
        PlainListing(snap.tables(dir[1]).value);
      }
    } else if GoodName(dir[1]) && GoodName(dir[2]) {
      if |dir| == 3 {
        assert dir == ["db", dir[1], dir[2]];
        ContentsOfTable(snap, dir[1], dir[2]);
      } else {
        assert dir == ["db", dir[1], dir[2], dir[3]];
        ContentsOfFile(snap, dir[1], dir[2], dir[3]);
      }
    }
  }
}
