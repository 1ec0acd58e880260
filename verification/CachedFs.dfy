/** `lookup` and `readdir` through the listing caches, while the server changes. */
module CachedFses {
  import opened Common
  import opened InodeModel
  import opened InodeTables
  import opened TtlCaches
  import opened Listings
  import opened Resolver
  import opened Directory
  import opened ClickFses
  import opened Mount

  /** The listing an operation asks for; none asks for more than one. */
  datatype Need = NoFetch | Databases | TablesOf(db: string) | PartitionsOf(db: string, tbl: string)

  /** What verifying a plan asks for: its parent's listing. */
  function LookupNeed(plan: QueryPlan): Need {
    match plan.kind
    case Root => NoFetch
    case DbNamespace => NoFetch
    case ListTables => Databases
    case StreamPartition(_) =>
      if plan.db.Some? && plan.table.Some? then PartitionsOf(plan.db.value, plan.table.value) else NoFetch
    case _ => if plan.db.Some? && plan.table.Some? then TablesOf(plan.db.value) else NoFetch
  }

  /** What listing a directory asks for. */
  function ReaddirNeed(plan: QueryPlan): Need {
    match plan.kind
    case DbNamespace => Databases
    case ListTables => if plan.db.Some? then TablesOf(plan.db.value) else NoFetch
    case ListPartitions =>
      if plan.db.Some? && plan.table.Some? then PartitionsOf(plan.db.value, plan.table.value) else NoFetch
    case _ => NoFetch
  }

  /** The listing that a call on inode `dir`, or on a name in it, asks for. */
  function DirNeed(forward: map<nat, Path>, dir: nat): Need {
    if dir in forward && Resolve(forward[dir]).Ok? then ReaddirNeed(Resolve(forward[dir]).value) else NoFetch
  }

  function NameNeed(forward: map<nat, Path>, dir: nat, name: string): Need {
    if dir in forward && Resolve(JoinPath(forward[dir], name)).Ok?
    then LookupNeed(Resolve(JoinPath(forward[dir], name)).value)
    else NoFetch
  }

  /** A snapshot in which the one listing that is needed is `list`. */
  function SnapshotFor(need: Need, list: Result<seq<string>, FsError>): Snapshot {
    Snapshot(
      if need == Databases then list else Err(NotFound),
      db => if need == TablesOf(db) then list else Err(NotFound),
      (db, tbl) => if need == PartitionsOf(db, tbl) then list else Err(NotFound))
  }

  /** The course of an operation: when its query runs if it makes one, and what the server then answers. */
  datatype Call = Call(timing: Timing, answers: Need -> Result<string, FsError>)

  datatype Operation =
    | LookupOp(parent: nat, name: string, call: Call)
    | ReaddirOp(dir: nat, offset: nat, capacity: nat, call: Call)

  /** How many paths an operation may bind. */
  function Cost(op: Operation): nat {
    match op
    case LookupOp(_, _, _) => 1
    case ReaddirOp(_, _, capacity, _) => capacity + 1
  }

  function Work(ops: seq<Operation>): nat {
    if ops == [] then 0 else Cost(ops[0]) + Work(ops[1..])
  }

  /** When the last of the operations is over. */
  function EndOf(ops: seq<Operation>, now: nat): nat {
    if ops == [] then now else EndOf(ops[1..], ops[0].call.timing.stored)
  }

  type Remembered = Option<Entry<seq<string>>>

  predicate Young(cached: Remembered, ttl: nat, now: nat) {
    cached.Some? && now - cached.value.at <= ttl
  }

  /** What a fetch returns, by what the cache remembers. */
  function Fetched(cached: Remembered, ttl: nat, need: Need, call: Call): Result<seq<string>, FsError> {
    if need == NoFetch then Err(NotFound)
    else if Young(cached, ttl, call.timing.asked) then Ok(cached.value.value)
    else match call.answers(need)
         case Err(e) => Err(e)
         case Ok(text) => Ok(ParseListing(text, need.PartitionsOf?))
  }

  /** And what the cache remembers after it. */
  function After(cached: Remembered, ttl: nat, need: Need, call: Call): Remembered {
    if need == NoFetch || Young(cached, ttl, call.timing.asked) || call.answers(need).Err? then cached
    else Some(Entry(ParseListing(call.answers(need).value, need.PartitionsOf?), call.timing.stored))
  }

  /** An ordinary name the resolver accepts that a table's directory does not hold anyway. */
  predicate Comes(plan: QueryPlan, name: string) {
    Ordinary(name) && NameAccepted(plan, name) && !(plan.kind.ListPartitions? && TableFile(name))
  }

  /** A component of a path. */
  function Part(path: Path, k: nat): string {
    if k < |path| then path[k] else ""
  }

  function InoOf(reverse: map<Path, nat>, path: Path): nat {
    if path in reverse then reverse[path] else 0
  }

  /** The reply is the listing's error, or as many of its entries from the offset on as fit, on their inodes. */
  ghost predicate Shows(
      listing: Result<seq<Listed>, FsError>, path: Path, dir: nat, reverse: map<Path, nat>, offset: nat, capacity: nat,
      size: string -> nat, reply: Result<seq<DirEntry>, FsError>)
  {
    match listing
    case Err(e) => reply == Err(e)
    case Ok(entries) =>
      && reply.Ok?
      && Emitted(reverse, path, dir, entries, offset, reply.value)
      && Fills(entries, offset, capacity, size, |reply.value|)
  }

  /** Until when the listing that a call fetches now stays young. */
  function Deadline(cached: Remembered, ttl: nat, need: Need, call: Call): nat {
    match After(cached, ttl, need, call)
    case Some(e) => e.at + ttl
    case None => 0
  }

  lemma YoungBefore(cached: Remembered, ttl: nat, now: nat, later: nat)
    requires now <= later
    ensures Young(cached, ttl, later) ==> Young(cached, ttl, now)
  {
  }

  class CachedFs {
    const fs: ClickFs
    const databases: CachedListing<()>
    const tables: CachedListing<string>
    const partitions: CachedListing<(string, string)>
    const ttl: nat

    ghost function Caches(): set<object> {
      {databases, databases.cache, tables, tables.cache, partitions, partitions.cache}
    }

    ghost predicate Valid()
      reads Caches(), fs.inodes
    {
      && Separate()
      && fs.inodes.Valid() && TakesSpace(fs.size)
      && databases.Valid() && tables.Valid() && partitions.Valid()
      && databases.cache.ttl == tables.cache.ttl == partitions.cache.ttl == ttl
      && !databases.dropAll && !tables.dropAll && partitions.dropAll
    }

    /** The caches and the inode table are different objects. */
    ghost predicate Separate() {
      var d: set<object> := {databases, databases.cache};
      var t: set<object> := {tables, tables.cache};
      var p: set<object> := {partitions, partitions.cache};
      d !! t && d !! p && t !! p && fs.inodes !in Caches()
    }

    constructor (
        hash: Path -> nat, size: string -> nat, ttl: nat, ghost databaseServer: ((), nat) -> string,
        ghost tableServer: (string, nat) -> string, ghost partitionServer: ((string, string), nat) -> string)
      requires IsHash(hash) && TakesSpace(size)
      ensures Valid() && fresh(Caches() + {fs.inodes}) && this.ttl == ttl && fs.size == size
      ensures fs.inodes.forward == map[INO_ROOT := ROOT] && fs.inodes.bump == 0
      ensures forall need :: Cached(need) == None
    {
      hide CachedListing.Valid, InodeTable.Valid, InodeTable.Complete;
      fs := new ClickFs(hash, size);
      databases := new CachedListing(ttl, false, databaseServer);
      tables := new CachedListing(ttl, false, tableServer);
      partitions := new CachedListing(ttl, true, partitionServer);
      this.ttl := ttl;
    }

    /** The latest insertion into the cache an operation asks. */
    ghost function Cached(need: Need): Remembered
      reads Caches()
    {
      match need
      case NoFetch => None
      case Databases => Latest(databases.cache.log, ())
      case TablesOf(db) => Latest(tables.cache.log, db)
      case PartitionsOf(db, tbl) => Latest(partitions.cache.log, (db, tbl))
    }

    ghost function ServerText(need: Need, at: nat): string {
      match need
      case NoFetch => ""
      case Databases => databases.server((), at)
      case TablesOf(db) => tables.server(db, at)
      case PartitionsOf(db, tbl) => partitions.server((db, tbl), at)
    }

    /** A query may fail, but an answer is what the server says at that time. */
    ghost predicate Truthful(call: Call) {
      && call.timing.InOrder()
      && forall need :: call.answers(need).Ok? ==> call.answers(need).value == ServerText(need, call.timing.sampled)
    }

    /** The caches have been used up to `now` at most. */
    ghost predicate UsedBy(now: nat)
      reads Caches()
    {
      databases.cache.clock <= now && tables.cache.clock <= now && partitions.cache.clock <= now
    }

    method FetchDatabases(call: Call) returns (list: Result<seq<string>, FsError>)
      requires Valid() && Truthful(call) && UsedBy(call.timing.asked)
      modifies databases, databases.cache
      ensures Valid() && UsedBy(call.timing.stored)
      ensures list == Fetched(old(Cached(Databases)), ttl, Databases, call)
      ensures Cached(Databases) == After(old(Cached(Databases)), ttl, Databases, call)
    {
      hide CachedListing.Valid, ParseListing;
      list := databases.Fetch((), call.timing, call.answers(Databases));
      LatestAfter(old(databases.cache.log), (), ttl, Databases, call);
    }

    method FetchTables(db: string, call: Call) returns (list: Result<seq<string>, FsError>)
      requires Valid() && Truthful(call) && UsedBy(call.timing.asked)
      modifies tables, tables.cache
      ensures Valid() && UsedBy(call.timing.stored)
      ensures list == Fetched(old(Cached(TablesOf(db))), ttl, TablesOf(db), call)
      ensures forall d :: Cached(TablesOf(d)) ==
                if d == db then After(old(Cached(TablesOf(db))), ttl, TablesOf(db), call) else old(Cached(TablesOf(d)))
    {
      hide CachedListing.Valid, ParseListing;
      list := tables.Fetch(db, call.timing, call.answers(TablesOf(db)));
      LatestAfter(old(tables.cache.log), db, ttl, TablesOf(db), call);
    }

    method FetchPartitions(db: string, tbl: string, call: Call) returns (list: Result<seq<string>, FsError>)
      requires Valid() && Truthful(call) && UsedBy(call.timing.asked)
      modifies partitions, partitions.cache
      ensures Valid() && UsedBy(call.timing.stored)
      ensures list == Fetched(old(Cached(PartitionsOf(db, tbl))), ttl, PartitionsOf(db, tbl), call)
      ensures forall d, t :: Cached(PartitionsOf(d, t)) ==
                if d == db && t == tbl then After(old(Cached(PartitionsOf(db, tbl))), ttl, PartitionsOf(db, tbl), call)
                else old(Cached(PartitionsOf(d, t)))
    {
      hide CachedListing.Valid, ParseListing;
      list := partitions.Fetch((db, tbl), call.timing, call.answers(PartitionsOf(db, tbl)));
      LatestAfter(old(partitions.cache.log), (db, tbl), ttl, PartitionsOf(db, tbl), call);
    }

    /** The listing for `need`, from its cache or by a query. */
    method Fetch(need: Need, call: Call) returns (list: Result<seq<string>, FsError>)
      requires Valid() && Truthful(call) && UsedBy(call.timing.asked)
      modifies Caches()
      ensures Valid() && UsedBy(call.timing.stored)
      ensures list == Fetched(old(Cached(need)), ttl, need, call)
      ensures forall n :: Cached(n) == if n == need then After(old(Cached(n)), ttl, n, call) else old(Cached(n))
    {
      hide CachedListing.Valid, ParseListing, Latest;
      match need {
        case NoFetch => list := Err(NotFound);
        case Databases => list := FetchDatabases(call);
        case TablesOf(db) => list := FetchTables(db, call);
        case PartitionsOf(db, tbl) => list := FetchPartitions(db, tbl, call);
      }
    }

    /** The listing for `need` by its cache, if it is young there, and else by the query. */
    ghost function Told(need: Need, call: Call): Result<seq<string>, FsError>
      reads Caches()
    {
      Fetched(Cached(need), ttl, need, call)
    }

    ghost function SnapshotOf(need: Need, call: Call): Snapshot
      reads Caches()
    {
      SnapshotFor(need, Fetched(Cached(need), ttl, need, call))
    }

    /** Looking a name up asks for one listing at most, and answers by it. */
    method Lookup(parent: nat, name: string, call: Call) returns (reply: Result<Attr, FsError>)
      requires Valid() && Truthful(call) && UsedBy(call.timing.asked) && fs.Room(1)
      modifies Caches(), fs.inodes
      ensures Valid() && UsedBy(call.timing.stored) && fs.Grown() && fs.Used() <= old(fs.Used()) + 2
      ensures LookedUp(old(fs.inodes.forward), fs.inodes.reverse, parent, name,
                       old(SnapshotOf(NameNeed(fs.inodes.forward, parent, name), call)), reply)
      ensures forall n :: Cached(n) ==
                if n == NameNeed(old(fs.inodes.forward), parent, name) then After(old(Cached(n)), ttl, n, call)
                else old(Cached(n))
      ensures parent in old(fs.inodes.forward) && name != "" && name != "." && name != ".." && '/' !in name ==>
                var dir := old(fs.inodes.forward)[parent];
                var d, t := Part(dir, 1), Part(dir, 2);
                && LookupAt(dir, name, old(Told(Databases, call)), old(Told(TablesOf(d), call)),
                            old(Told(PartitionsOf(d, t), call)), InoOf(fs.inodes.reverse, dir + [name]), reply)
                && (reply.Ok? ==> dir + [name] in fs.inodes.reverse)
    {
      hide CachedListing.Valid, InodeTable.Valid, InodeTable.Complete, Resolve, JoinPath, LookupNeed, LookedUp, Latest;
      hide LookupAt, Part, Fetched, After;
      var need := NoFetch;
      var path := fs.inodes.Lookup(parent);
      if path.Some? {
        var plan := Resolve(JoinPath(path.value, name));
        if plan.Ok? {
          need := LookupNeed(plan.value);
        }
      }
      ghost var databases, d, t := Told(Databases, call), "", "";
      if path.Some? {
        d, t := Part(path.value, 1), Part(path.value, 2);
      }
      ghost var tables, partitions := Told(TablesOf(d), call), Told(PartitionsOf(d, t), call);
      var list := Fetch(need, call);
      ghost var forward: map<nat, Path> := fs.inodes.forward;
      reply := fs.Lookup(parent, name, SnapshotFor(need, list));
      if path.Some? && name != "" && name != "." && name != ".." && '/' !in name {
        LookupByPath(forward, fs.inodes.reverse, parent, name, list, databases, tables, partitions, reply);
      }
    }

    /** Listing a directory asks for one listing at most, and answers by it. */
    method Readdir(dir: nat, offset: nat, capacity: nat, call: Call) returns (reply: Result<seq<DirEntry>, FsError>)
      requires Valid() && Truthful(call) && UsedBy(call.timing.asked) && fs.Room(capacity + 1)
      modifies Caches(), fs.inodes
      ensures Valid() && UsedBy(call.timing.stored) && fs.Grown() && fs.Used() <= old(fs.Used()) + 2 * (capacity + 1)
      ensures ListedFrom(old(fs.inodes.forward), fs.inodes.reverse, dir, offset, capacity, fs.size,
                         old(SnapshotOf(DirNeed(fs.inodes.forward, dir), call)), reply)
      ensures forall n :: Cached(n) ==
                if n == DirNeed(old(fs.inodes.forward), dir) then After(old(Cached(n)), ttl, n, call)
                else old(Cached(n))
      ensures dir in old(fs.inodes.forward) ==>
                var path := old(fs.inodes.forward)[dir];
                var d, t := Part(path, 1), Part(path, 2);
                var listing := ListingAt(path, old(Told(Databases, call)), old(Told(TablesOf(d), call)),
                                         old(Told(PartitionsOf(d, t), call)));
                Shows(listing, path, dir, fs.inodes.reverse, offset, capacity, fs.size, reply)
    {
      hide CachedListing.Valid, InodeTable.Valid, InodeTable.Complete, Latest;
      hide Resolve, ReaddirNeed, ListedFrom, Entries, ListingAt, Shows, Part, Fetched, After;
      var need := NoFetch;
      var path := fs.inodes.Lookup(dir);
      if path.Some? {
        var plan := Resolve(path.value);
        if plan.Ok? {
          need := ReaddirNeed(plan.value);
        }
      }
      ghost var databases, d, t := Told(Databases, call), "", "";
      if path.Some? {
        d, t := Part(path.value, 1), Part(path.value, 2);
      }
      ghost var tables, partitions := Told(TablesOf(d), call), Told(PartitionsOf(d, t), call);
      var list := Fetch(need, call);
      ghost var forward: map<nat, Path> := fs.inodes.forward;
      reply := fs.Readdir(dir, offset, capacity, SnapshotFor(need, list));
      if path.Some? {
        ListingByPath(forward, fs.inodes.reverse, dir, offset, capacity, fs.size, list, databases, tables, partitions,
                      reply);
      }
    }

    /** The operations come one at a time, each with truthful answers. */
    ghost predicate Scheduled(ops: seq<Operation>, now: nat) {
      ops == [] ||
        (Truthful(ops[0].call) && now <= ops[0].call.timing.asked && Scheduled(ops[1..], ops[0].call.timing.stored))
    }

    /** What was remembered and is young until `end` is remembered still. */
    twostate predicate Kept(end: nat)
      reads Caches()
    {
      forall n :: Young(old(Cached(n)), ttl, end) ==> Cached(n) == old(Cached(n))
    }

    method Perform(op: Operation)
      requires Valid() && Truthful(op.call) && UsedBy(op.call.timing.asked) && fs.Room(Cost(op))
      modifies Caches(), fs.inodes
      ensures Valid() && UsedBy(op.call.timing.stored) && fs.Grown() && fs.Used() <= old(fs.Used()) + 2 * Cost(op)
      ensures forall n, end :: end >= op.call.timing.asked && Young(old(Cached(n)), ttl, end) ==>
                Cached(n) == old(Cached(n))
    {
      hide CachedListing.Valid, InodeTable.Valid, InodeTable.Complete, Latest, LookedUp, ListedFrom;
      match op {
        case LookupOp(parent, name, call) => var _ := Lookup(parent, name, call);
        case ReaddirOp(dir, offset, capacity, call) => var _ := Readdir(dir, offset, capacity, call);
      }
    }

    /** Any operations in any order keep what stays young, and every binding. */
    method PerformAll(ops: seq<Operation>, ghost now: nat)
      requires Valid() && UsedBy(now) && Scheduled(ops, now) && fs.Room(Work(ops))
      modifies Caches(), fs.inodes
      ensures Valid() && UsedBy(EndOf(ops, now)) && fs.Grown() && fs.Used() <= old(fs.Used()) + 2 * Work(ops)
      ensures EndOf(ops, now) >= now
      ensures Kept(EndOf(ops, now))
    {
      hide CachedListing.Valid, InodeTable.Valid, InodeTable.Complete, Latest, Extends;
      ghost var reverse, forward := fs.inodes.reverse, fs.inodes.forward;
      if ops == [] {
        ExtendsRefl(reverse);
        ExtendsRefl(forward);
        return;
      }
      Perform(ops[0]);
      ghost var reverse1, forward1 := fs.inodes.reverse, fs.inodes.forward;
      label mid:
      PerformAll(ops[1..], ops[0].call.timing.stored);
      ExtendsTrans(reverse, reverse1, fs.inodes.reverse);
      ExtendsTrans(forward, forward1, fs.inodes.forward);
      ghost var end := EndOf(ops, now);
      forall n | Young(old(Cached(n)), ttl, end) ensures Cached(n) == old(Cached(n)) {
        assert old@mid(Cached(n)) == old(Cached(n));
      }
    }

    /**
      Whatever other operations come between and however the server changes: a
      name that `readdir` listed from a fetched listing and that the resolver
      accepts is found by `lookup` while that listing is within its TTL, with the
      very inode and type that were listed.
     */
    method ListThenLookup(
        dir: nat, offset: nat, capacity: nat, listing: Call, between: seq<Operation>, name: string, looking: Call)
      returns (page: Result<seq<DirEntry>, FsError>, reply: Result<Attr, FsError>)
      requires Valid() && UsedBy(listing.timing.asked)
      requires Truthful(listing) && Scheduled(between, listing.timing.stored)
      requires Truthful(looking) && EndOf(between, listing.timing.stored) <= looking.timing.asked
      requires fs.Room(capacity + Work(between) + 2)
      modifies Caches(), fs.inodes
      ensures Valid() && fs.Grown()
      ensures page.Ok? ==> dir in old(fs.inodes.forward) && Resolve(old(fs.inodes.forward)[dir]).Ok?
      ensures page.Ok? ==>
                var plan := Resolve(old(fs.inodes.forward)[dir]).value;
                var need := DirNeed(old(fs.inodes.forward), dir);
                var cached := old(Cached(DirNeed(fs.inodes.forward, dir)));
                forall k ::
                  (0 <= k < |page.value| && page.value[k].name == name && Comes(plan, name) &&
                   looking.timing.asked <= Deadline(cached, ttl, need, listing)) ==>
                    reply.Ok? && reply.value.ino == page.value[k].ino && reply.value.kind == page.value[k].kind
    {
      hide CachedListing.Valid, InodeTable.Valid, InodeTable.Complete, Latest, Extends, Truthful, Young, Fetched, After;
      hide LookedUp, ListedFrom, NameAccepted, Resolve, JoinPath, LookupNeed, ReaddirNeed, SnapshotFor, Ordinary;
      hide CachedFs.Valid, CachedFs.Cached, DirNeed, NameNeed, Deadline, Lists, TableFile, Comes;
      ghost var forward: map<nat, Path>, reverse: map<Path, nat> := fs.inodes.forward, fs.inodes.reverse;
      ghost var need := DirNeed(forward, dir);
      ghost var cached := Cached(need);
      page := Readdir(dir, offset, capacity, listing);
      ghost var forward1: map<nat, Path>, reverse1: map<Path, nat> := fs.inodes.forward, fs.inodes.reverse;
      PerformAll(between, listing.timing.stored);
      ghost var forward2: map<nat, Path>, reverse2: map<Path, nat> := fs.inodes.forward, fs.inodes.reverse;
      ghost var cached2 := Cached(need);
      reply := Lookup(dir, name, looking);
      ExtendsTrans(forward, forward1, forward2);
      ExtendsTrans(forward, forward2, fs.inodes.forward);
      ExtendsTrans(reverse, reverse1, reverse2);
      ExtendsTrans(reverse, reverse2, fs.inodes.reverse);
      ExtendsTrans(reverse1, reverse2, fs.inodes.reverse);
      if page.Ok? {
        ghost var result := Fetched(cached, ttl, need, listing);
        ListedFromDir(forward, reverse1, dir, offset, capacity, fs.size, SnapshotFor(need, result), page.value);
        forall k | 0 <= k < |page.value| && page.value[k].name == name && Comes(Resolve(forward[dir]).value, name)
            && looking.timing.asked <= Deadline(cached, ttl, need, listing)
          ensures reply.Ok? && reply.value.ino == page.value[k].ino && reply.value.kind == page.value[k].kind
        {
          ListedAsks(forward, forward2, reverse1, dir, offset, capacity, fs.size, result, page.value, k);
          ghost var end := EndOf(between, listing.timing.stored);
          YoungBefore(After(cached, ttl, need, listing), ttl, end, looking.timing.asked);
          FetchedAgain(cached, cached2, ttl, need, listing, looking);
          SameAnswer(forward, forward2, reverse1, fs.inodes.reverse, dir, offset, capacity, fs.size,
                     result, page.value, k, reply);
        }
      }
    }
  }

  /**
    A name that a listing contributed to a directory is verified by that very
    listing, whatever the other listings say.
   */
  lemma ListedIsVerified(plan: QueryPlan, result: Result<seq<string>, FsError>, entry: Listed, ino: nat)
    requires WellFormed(plan) && plan.IsDir() && Lists(SnapshotFor(ReaddirNeed(plan), result), plan, entry)
    requires Comes(plan, entry.name)
    ensures result.Ok? || ReaddirNeed(plan) == NoFetch
    ensures
      var child := ChildPath(plan, entry.name);
      && Resolve(child).Ok?
      && LookupNeed(Resolve(child).value) == ReaddirNeed(plan)
      && Found(SnapshotFor(ReaddirNeed(plan), result), child)
      && AttrForPlan(ino, Resolve(child).value).kind == entry.kind
  {
    var snap := SnapshotFor(ReaddirNeed(plan), result);
    var child := ChildPath(plan, entry.name);
    AcceptedNames(plan, entry.name);
    ListedKind(snap, plan, entry);
    ChildKind(plan, entry.name);
    match plan.kind
    case Root => {}
    case DbNamespace => DirNames(result.value, entry.name);
    case ListTables => DirNames(result.value, entry.name);
    case ListPartitions =>
      TableFileNames(entry.name);
      if result.Ok? {
        PartitionNames(result.value, entry.name);
      }
  }

  /** A reply with entries comes from a directory that resolves. */
  lemma ListedFromDir(
      forward: map<nat, Path>, reverse: map<Path, nat>, dir: nat, offset: nat, capacity: nat, size: string -> nat,
      snap: Snapshot, page: seq<DirEntry>)
    requires ListedFrom(forward, reverse, dir, offset, capacity, size, snap, Ok(page))
    ensures dir in forward && Resolve(forward[dir]).Ok? && WellFormed(Resolve(forward[dir]).value)
    ensures Resolve(forward[dir]).value.IsDir()
    ensures Print(Resolve(forward[dir]).value) == forward[dir]
    ensures forall k :: 0 <= k < |page| ==>
              && Carries(reverse, forward[dir], dir, page[k].name, page[k].ino)
              && Lists(snap, Resolve(forward[dir]).value, Listed(page[k].kind, page[k].name))
  {
    PrintResolve(forward[dir]);
  }

  /** Looking a listed name up asks for the listing the name came from. */
  lemma ListedAsks(
      forward: map<nat, Path>, forward2: map<nat, Path>, reverse: map<Path, nat>, dir: nat, offset: nat,
      capacity: nat, size: string -> nat, result: Result<seq<string>, FsError>, page: seq<DirEntry>, k: nat)
    requires
      var snap := SnapshotFor(DirNeed(forward, dir), result);
      ListedFrom(forward, reverse, dir, offset, capacity, size, snap, Ok(page))
    requires dir in forward && Resolve(forward[dir]).Ok?
    requires Extends(forward, forward2)
    requires k < |page| && Comes(Resolve(forward[dir]).value, page[k].name)
    ensures result.Ok? || DirNeed(forward, dir) == NoFetch
    ensures NameNeed(forward2, dir, page[k].name) == DirNeed(forward, dir)
    ensures forward2[dir] == forward[dir]
    ensures JoinPath(forward[dir], page[k].name) == forward[dir] + [page[k].name]
    ensures
      var snap := SnapshotFor(DirNeed(forward, dir), result);
      var child := JoinPath(forward[dir], page[k].name);
      && Found(snap, child)
      && forall ino :: AttrForPlan(ino, Resolve(child).value).kind == page[k].kind
  {
    hide Resolve, ListedFrom, LookupNeed, ReaddirNeed, SnapshotFor, Lists, NameAccepted, TableFile, JoinPath, Carries;
    hide VerifyPlanExists, Extends, Print, WellFormed, Ordinary;
    var plan := Resolve(forward[dir]).value;
    var snap := SnapshotFor(DirNeed(forward, dir), result);
    ListedFromDir(forward, reverse, dir, offset, capacity, size, snap, page);
    KeyKept(forward, forward2, dir);
    JoinOrdinary(forward[dir], page[k].name);
    var entry := Listed(page[k].kind, page[k].name);
    ListedIsVerified(plan, result, entry, 0);
    forall ino ensures AttrForPlan(ino, Resolve(ChildPath(plan, entry.name)).value).kind == entry.kind {
      ListedIsVerified(plan, result, entry, ino);
    }
  }

  /** And answering by that listing gives the inode and type that were listed. */
  lemma SameAnswer(
      forward: map<nat, Path>, forward2: map<nat, Path>, reverse: map<Path, nat>, reverse2: map<Path, nat>, dir: nat,
      offset: nat, capacity: nat, size: string -> nat, result: Result<seq<string>, FsError>, page: seq<DirEntry>,
      k: nat, reply: Result<Attr, FsError>)
    requires
      var snap := SnapshotFor(DirNeed(forward, dir), result);
      && ListedFrom(forward, reverse, dir, offset, capacity, size, snap, Ok(page))
      && k < |page|
      && LookedUp(forward2, reverse2, dir, page[k].name, snap, reply)
    requires dir in forward && Resolve(forward[dir]).Ok? && Comes(Resolve(forward[dir]).value, page[k].name)
    requires Extends(forward, forward2) && Extends(reverse, reverse2)
    ensures reply.Ok? && reply.value.ino == page[k].ino && reply.value.kind == page[k].kind
  {
    hide Resolve, ListedFrom, LookupNeed, ReaddirNeed, SnapshotFor, Lists, NameAccepted, TableFile, JoinPath;
    hide WellFormed, VerifyPlanExists, Print, DirNeed, NameNeed, Extends;
    var snap := SnapshotFor(DirNeed(forward, dir), result);
    ListedFromDir(forward, reverse, dir, offset, capacity, size, snap, page);
    ListedAsks(forward, forward2, reverse, dir, offset, capacity, size, result, page, k);
    KeyKept(forward, forward2, dir);
    var child := JoinPath(forward[dir], page[k].name);
    assert Carries(reverse, forward[dir], dir, page[k].name, page[k].ino);
    KeyKept(reverse, reverse2, child);
    assert reply == Ok(AttrForPlan(reverse2[child], Resolve(child).value));
  }

  // ------------------------------------------------------------------ path by path

  /** Which listing settles a lookup, where one does. */
  lemma NameNeeds(forward: map<nat, Path>, parent: nat, name: string)
    requires parent in forward && name != "" && name != "." && name != ".." && '/' !in name
    ensures
      var dir := forward[parent];
      var need := NameNeed(forward, parent, name);
      var d, t := Part(dir, 1), Part(dir, 2);
      dir != [] && dir[0] == "db" ==>
        && (|dir| == 1 && GoodName(name) ==> need == Databases)
        && (|dir| == 2 && GoodName(d) && GoodName(name) ==> need == TablesOf(d))
        && (|dir| == 3 && GoodName(d) && GoodName(t) ==>
              if name == ".schema" || name == "README.md" || name == "all.tsv" then need == TablesOf(d)
              else PartitionOf(name).Some? && GoodPartition(PartitionOf(name).value) ==> need == PartitionsOf(d, t))
  {
    hide Resolve, GoodName, GoodPartition, PartitionOf, JoinPath;
    var dir := forward[parent];
    JoinOrdinary(dir, name);
    if |dir| == 1 && dir[0] == "db" {
      assert dir + [name] == ["db", name];
      DatabasePath(name);
    } else if |dir| == 2 && dir[0] == "db" {
      assert dir + [name] == ["db", dir[1], name];
      TablePath(dir[1], name);
    } else if |dir| == 3 && dir[0] == "db" && GoodName(dir[1]) && GoodName(dir[2]) {
      assert dir + [name] == ["db", dir[1], dir[2], name];
      FilePath(dir[1], dir[2], name);
    }
  }

  /** Only that listing matters. */
  lemma SameLookup(
      dir: Path, name: string, snap: Snapshot, databases: Result<seq<string>, FsError>,
      tables: Result<seq<string>, FsError>, partitions: Result<seq<string>, FsError>, ino: nat,
      reply: Result<Attr, FsError>)
    requires LookupAt(dir, name, snap.databases, snap.tables(Part(dir, 1)),
                      snap.partitions(Part(dir, 1), Part(dir, 2)), ino, reply)
    requires
      var d, t := Part(dir, 1), Part(dir, 2);
      dir != [] && dir[0] == "db" ==>
        && (|dir| == 1 && GoodName(name) ==> snap.databases == databases)
        && (|dir| == 2 && GoodName(d) && GoodName(name) ==> snap.tables(d) == tables)
        && (|dir| == 3 && GoodName(d) && GoodName(t) ==>
              if name == ".schema" || name == "README.md" || name == "all.tsv" then snap.tables(d) == tables
              else PartitionOf(name).Some? && GoodPartition(PartitionOf(name).value) ==>
                     snap.partitions(d, t) == partitions)
    ensures LookupAt(dir, name, databases, tables, partitions, ino, reply)
  {
    hide GoodName, GoodPartition, PartitionOf;
  }

  lemma ReplyIsOutcome(
      forward: map<nat, Path>, reverse: map<Path, nat>, parent: nat, name: string, snap: Snapshot,
      reply: Result<Attr, FsError>)
    requires parent in forward && name != "" && name != "." && name != ".." && '/' !in name
    requires LookedUp(forward, reverse, parent, name, snap, reply)
    ensures
      var child := forward[parent] + [name];
      reply == Outcome(snap, child, InoOf(reverse, child)) && (reply.Ok? ==> child in reverse)
  {
    hide Resolve, JoinPath, VerifyPlanExists, AttrForPlan;
    JoinOrdinary(forward[parent], name);
  }

  lemma LookupByPath(
      forward: map<nat, Path>, reverse: map<Path, nat>, parent: nat, name: string, list: Result<seq<string>, FsError>,
      databases: Result<seq<string>, FsError>, tables: Result<seq<string>, FsError>,
      partitions: Result<seq<string>, FsError>, reply: Result<Attr, FsError>)
    requires parent in forward && name != "" && name != "." && name != ".." && '/' !in name
    requires LookedUp(forward, reverse, parent, name, SnapshotFor(NameNeed(forward, parent, name), list), reply)
    requires
      var need := NameNeed(forward, parent, name);
      var d, t := Part(forward[parent], 1), Part(forward[parent], 2);
      && (need == Databases ==> list == databases)
      && (need == TablesOf(d) ==> list == tables)
      && (need == PartitionsOf(d, t) ==> list == partitions)
    ensures
      var dir := forward[parent];
      && LookupAt(dir, name, databases, tables, partitions, InoOf(reverse, dir + [name]), reply)
      && (reply.Ok? ==> dir + [name] in reverse)
  {
    hide GoodName, GoodPartition, PartitionOf, NameNeed, LookedUp, LookupAt, Outcome;
    var dir := forward[parent];
    var snap := SnapshotFor(NameNeed(forward, parent, name), list);
    ReplyIsOutcome(forward, reverse, parent, name, snap, reply);
    OutcomeByPath(snap, dir, name, InoOf(reverse, dir + [name]));
    NameNeeds(forward, parent, name);
    SameLookup(dir, name, snap, databases, tables, partitions, InoOf(reverse, dir + [name]), reply);
  }

  /** Which listing a directory shows. */
  lemma DirNeeds(forward: map<nat, Path>, dir: nat)
    requires dir in forward
    ensures
      var path, need := forward[dir], DirNeed(forward, dir);
      path != [] && path[0] == "db" ==>
        && (|path| == 1 ==> need == Databases)
        && (|path| == 2 && GoodName(path[1]) ==> need == TablesOf(path[1]))
        && (|path| == 3 && GoodName(path[1]) && GoodName(path[2]) ==> need == PartitionsOf(path[1], path[2]))
  {
    hide Resolve, GoodName;
    var path := forward[dir];
    OtherPath(path);
    if |path| == 1 && path[0] == "db" {
      assert path == ["db"];
    } else if |path| == 2 && path[0] == "db" {
      assert path == ["db", path[1]];
      DatabasePath(path[1]);
    } else if |path| == 3 && path[0] == "db" {
      assert path == ["db", path[1], path[2]];
      TablePath(path[1], path[2]);
    }
  }

  /** Only that listing is shown. */
  lemma SameListing(
      path: Path, snap: Snapshot, databases: Result<seq<string>, FsError>, tables: Result<seq<string>, FsError>,
      partitions: Result<seq<string>, FsError>)
    requires path != [] && path[0] == "db" ==>
               && (|path| == 1 ==> snap.databases == databases)
               && (|path| == 2 && GoodName(path[1]) ==> snap.tables(path[1]) == tables)
               && (|path| == 3 && GoodName(path[1]) && GoodName(path[2]) ==>
                     snap.partitions(path[1], path[2]) == partitions)
    ensures ListingAt(path, snap.databases, snap.tables(Part(path, 1)), snap.partitions(Part(path, 1), Part(path, 2)))
         == ListingAt(path, databases, tables, partitions)
  {
    hide GoodName, GoodPartition, PartitionOf, ListingOf;
  }

  lemma ListingByPath(
      forward: map<nat, Path>, reverse: map<Path, nat>, dir: nat, offset: nat, capacity: nat, size: string -> nat,
      list: Result<seq<string>, FsError>, databases: Result<seq<string>, FsError>,
      tables: Result<seq<string>, FsError>, partitions: Result<seq<string>, FsError>,
      reply: Result<seq<DirEntry>, FsError>)
    requires dir in forward
    requires ListedFrom(forward, reverse, dir, offset, capacity, size, SnapshotFor(DirNeed(forward, dir), list), reply)
    requires
      var need := DirNeed(forward, dir);
      var d, t := Part(forward[dir], 1), Part(forward[dir], 2);
      && (need == Databases ==> list == databases)
      && (need == TablesOf(d) ==> list == tables)
      && (need == PartitionsOf(d, t) ==> list == partitions)
    ensures Shows(ListingAt(forward[dir], databases, tables, partitions), forward[dir], dir, reverse, offset, capacity,
                  size, reply)
  {
    hide GoodName, ListingAt, ListingOf, DirNeed, Emitted, Page, Fills, Resolve, Entries;
    var path := forward[dir];
    var snap := SnapshotFor(DirNeed(forward, dir), list);
    ContentsByPath(snap, path);
    DirNeeds(forward, dir);
    SameListing(path, snap, databases, tables, partitions);
    if Contents(snap, path).Ok? {
      PageFills(Contents(snap, path).value, offset, capacity, size);
    }
  }

  /** A reply from offset 0 with room enough has an entry for every name of the listing, in its order. */
  lemma NamesAreShown(
      files: seq<string>, names: seq<string>, kind: FileType, suffix: string, path: Path, dir: nat,
      reverse: map<Path, nat>, capacity: nat, size: string -> nat, reply: Result<seq<DirEntry>, FsError>)
    requires Shows(Ok(ListingOf(files, names, kind, suffix)), path, dir, reverse, 0, capacity, size, reply)
    requires Bytes(ListingOf(files, names, kind, suffix), size) <= capacity
    ensures reply.Ok? && |reply.value| == 2 + |files| + |names|
    ensures forall i :: 0 <= i < |names| ==>
              var e := reply.value[2 + |files| + i];
              e.name == names[i] + suffix && e.kind == kind && Carries(reverse, path, dir, e.name, e.ino)
  {
    hide Carries, Fills, Bytes;
    var entries := ListingOf(files, names, kind, suffix);
    AllFit(entries, capacity, size, |reply.value|);
    forall i | 0 <= i < |names|
      ensures
        var e := reply.value[2 + |files| + i];
        e.name == names[i] + suffix && e.kind == kind && Carries(reverse, path, dir, e.name, e.ino)
    {
      var k := 2 + |files| + i;
      assert Listed(reply.value[k].kind, reply.value[k].name) == entries[0 + k];
    }
  }

  /** What a fetch returns is what is remembered after it. */
  lemma FetchedIsRemembered(cached: Remembered, ttl: nat, need: Need, call: Call)
    requires Fetched(cached, ttl, need, call).Ok?
    ensures After(cached, ttl, need, call).Some?
    ensures After(cached, ttl, need, call).value.value == Fetched(cached, ttl, need, call).value
  {
  }

  /** The second fetch returns what the first one did. */
  lemma FetchedAgain(cached: Remembered, cached2: Remembered, ttl: nat, need: Need, listing: Call, looking: Call)
    requires Fetched(cached, ttl, need, listing).Ok? || need == NoFetch
    requires looking.timing.asked <= Deadline(cached, ttl, need, listing)
    requires Young(After(cached, ttl, need, listing), ttl, looking.timing.asked) ==>
               cached2 == After(cached, ttl, need, listing)
    ensures Fetched(cached2, ttl, need, looking) == Fetched(cached, ttl, need, listing)
  {
    if need != NoFetch {
      FetchedIsRemembered(cached, ttl, need, listing);
    }
  }

  /** The log after a fetch remembers for each key what `After` says. */
  lemma LatestAfter<K(!new)>(log: seq<Insertion<K, seq<string>>>, key: K, ttl: nat, need: Need, call: Call)
    requires need != NoFetch
    ensures Fresh(log, key, ttl, call.timing.asked)
         == if Young(Latest(log, key), ttl, call.timing.asked) then Some(Latest(log, key).value.value) else None
    ensures call.answers(need).Ok? ==>
              var list := ParseListing(call.answers(need).value, need.PartitionsOf?);
              forall k :: Latest(log + [Insertion(key, Entry(list, call.timing.stored))], k)
                == if k == key then Some(Entry(list, call.timing.stored)) else Latest(log, k)
  {
    if call.answers(need).Ok? {
      var list := ParseListing(call.answers(need).value, need.PartitionsOf?);
      var more := log + [Insertion(key, Entry(list, call.timing.stored))];
      assert more[..|more| - 1] == log;
    }
  }
}
