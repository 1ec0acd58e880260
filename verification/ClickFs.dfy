/** The filesystem callbacks that touch the inode table. */
module ClickFses {
  import opened Common
  import opened InodeModel
  import opened InodeTables
  import opened Resolver
  import opened Directory

  /** One entry handed to the kernel, with the offset to resume after it. */
  datatype DirEntry = DirEntry(ino: nat, next: nat, kind: FileType, name: string)

  /** The inode an entry of directory `dir` at `path` carries. */
  ghost predicate Carries(reverse: map<Path, nat>, path: Path, dir: nat, name: string, ino: nat) {
    if name == "." || name == ".." then ino == dir
    else JoinPath(path, name) in reverse && reverse[JoinPath(path, name)] == ino
  }

  /** What was emitted from `offset` on carries the entries' names, types, offsets and inodes. */
  ghost predicate Emitted(
      reverse: map<Path, nat>, path: Path, dir: nat, entries: seq<Listed>, offset: nat, out: seq<DirEntry>)
  {
    forall k :: 0 <= k < |out| ==>
      && offset + k < |entries|
      && Listed(out[k].kind, out[k].name) == entries[offset + k]
      && out[k].next == offset + k + 1
      && Carries(reverse, path, dir, out[k].name, out[k].ino)
  }

  /** The reply to looking up `name` in directory `parent`: found exactly when it resolves and exists. */
  ghost predicate LookedUp(
      forward: map<nat, Path>, reverse: map<Path, nat>, parent: nat, name: string, snap: Snapshot,
      reply: Result<Attr, FsError>)
  {
    if parent !in forward then reply == Err(NotFound)
    else
      var child := JoinPath(forward[parent], name);
      if Found(snap, child) then
        child in reverse && reply == Ok(AttrForPlan(reverse[child], Resolve(child).value))
      else
        reply == Err(if Resolve(child).Err? then Resolve(child).error
                     else VerifyPlanExists(snap, Resolve(child).value).error)
  }

  /** The reply to listing directory `dir` from an offset: one of three errors, or a page of its entries. */
  ghost predicate ListedFrom(
      forward: map<nat, Path>, reverse: map<Path, nat>, dir: nat, offset: nat, capacity: nat, size: string -> nat,
      snap: Snapshot, reply: Result<seq<DirEntry>, FsError>)
  {
    if dir !in forward then reply == Err(NotFound)
    else if Resolve(forward[dir]).Err? then reply == Err(Resolve(forward[dir]).error)
    else
      var entries := Entries(snap, Resolve(forward[dir]).value);
      if entries.Err? then reply == Err(entries.error)
      else
        && reply.Ok?
        && Emitted(reverse, forward[dir], dir, entries.value, offset, reply.value)
        && |reply.value| == |Page(entries.value, offset, capacity, size)|
  }

  ghost predicate Extends<K, V>(small: map<K, V>, big: map<K, V>) {
    forall k :: k in small ==> k in big && big[k] == small[k]
  }

  lemma ExtendsRefl<K, V>(m: map<K, V>)
    ensures Extends(m, m)
  {
  }

  lemma ExtendsTrans<K, V>(small: map<K, V>, middle: map<K, V>, big: map<K, V>)
    requires Extends(small, middle) && Extends(middle, big)
    ensures Extends(small, big)
  {
  }

  lemma EmittedGrows(
      small: map<Path, nat>, big: map<Path, nat>, path: Path, dir: nat, entries: seq<Listed>, offset: nat,
      out: seq<DirEntry>)
    requires Emitted(small, path, dir, entries, offset, out) && Extends(small, big)
    ensures Emitted(big, path, dir, entries, offset, out)
  {
    forall k | 0 <= k < |out| ensures Carries(big, path, dir, out[k].name, out[k].ino) {
      assert Carries(small, path, dir, out[k].name, out[k].ino);
    }
  }

  lemma EmittedNone(reverse: map<Path, nat>, path: Path, dir: nat, entries: seq<Listed>, offset: nat)
    ensures Emitted(reverse, path, dir, entries, offset, [])
  {
  }

  lemma EmittedSnoc(
      reverse: map<Path, nat>, path: Path, dir: nat, entries: seq<Listed>, offset: nat, out: seq<DirEntry>, ino: nat)
    requires Emitted(reverse, path, dir, entries, offset, out) && offset + |out| < |entries|
    requires Carries(reverse, path, dir, entries[offset + |out|].name, ino)
    ensures
      var e := entries[offset + |out|];
      Emitted(reverse, path, dir, entries, offset, out + [DirEntry(ino, offset + |out| + 1, e.kind, e.name)])
  {
  }

  lemma PageStep(entries: seq<Listed>, i: nat, left: nat, size: string -> nat)
    ensures |Page(entries, i, left, size)|
         == if i >= |entries| || size(entries[i].name) > left then 0
            else 1 + |Page(entries, i + 1, left - size(entries[i].name), size)|
  {
  }

  /** An entry takes at least one byte of a reply. */
  ghost predicate TakesSpace(size: string -> nat) {
    forall name :: size(name) >= 1
  }

  lemma TakesOne(size: string -> nat, name: string)
    requires TakesSpace(size)
    ensures size(name) >= 1
  {
  }

  class ClickFs {
    const inodes: InodeTable
    /** The bytes an entry of that name takes in a reply. */
    const size: string -> nat

    constructor (hash: Path -> nat, size: string -> nat)
      requires IsHash(hash)
      ensures fresh(inodes) && inodes.Valid() && inodes.Complete() && this.size == size
      ensures inodes.forward == map[INO_ROOT := ROOT] && inodes.bump == 0
    {
      this.size := size;
      inodes := new InodeTable(hash);
    }

    ghost function Used(): nat
      reads inodes
    {
      |inodes.forward| + inodes.bump
    }

    /** The table can take `n` more allocations. */
    ghost predicate Room(n: nat)
      reads inodes
    {
      Used() + 2 * n <= U64
    }

    /** Bindings made before are still there. */
    twostate predicate Grown()
      reads inodes
    {
      Extends(old(inodes.reverse), inodes.reverse) && Extends(old(inodes.forward), inodes.forward)
    }

    /** A name in a known directory is looked up: found exactly when it resolves and exists, on its own inode. */
    method Lookup(parent: nat, name: string, snap: Snapshot) returns (reply: Result<Attr, FsError>)
      requires inodes.Valid() && Room(1)
      modifies inodes
      ensures inodes.Valid() && Grown() && (old(inodes.Complete()) ==> inodes.Complete())
      ensures Used() <= old(Used()) + 2
      ensures LookedUp(old(inodes.forward), inodes.reverse, parent, name, snap, reply)
    {
      var parentPath := inodes.Lookup(parent);
      if parentPath.None? {
        return Err(NotFound);
      }
      var child := JoinPath(parentPath.value, name);
      var plan := Resolve(child);
      if plan.Err? {
        return Err(plan.error);
      }
      var exist := VerifyPlanExists(snap, plan.value);
      if exist.Err? {
        return Err(exist.error);
      }
      var ino, _ := inodes.Allocate(child);
      reply := Ok(AttrForPlan(ino, plan.value));
    }

    /** The directory's entries, pushed one by one. */
    method BuildEntries(snap: Snapshot, plan: QueryPlan) returns (res: Result<seq<Listed>, FsError>)
      ensures res == Entries(snap, plan)
    {
      var entries := DOTS;
      match plan.kind {
        case Root => entries := entries + [Listed(DirectoryType, "db")];
        case DbNamespace =>
          if snap.databases.Err? {
            return Err(snap.databases.error);
          }
          entries := PushDirs(entries, snap.databases.value);
        case ListTables =>
          if plan.db.None? {
            return Err(NotFound);
          }
          var tables := snap.tables(plan.db.value);
          if tables.Err? {
            return Err(tables.error);
          }
          entries := PushDirs(entries, tables.value);
        case ListPartitions =>
          if plan.db.None? || plan.table.None? {
            return Err(NotFound);
          }
          entries := entries + TABLE_FILES;
          var parts := snap.partitions(plan.db.value, plan.table.value);
          if parts.Ok? {
            entries := PushPartitions(entries, parts.value);
          }
        case _ => return Err(NotADir);
      }
      res := Ok(entries);
    }

    method PushDirs(entries: seq<Listed>, names: seq<string>) returns (out: seq<Listed>)
      ensures out == entries + DirsOf(names)
    {
      out := entries;
      for i := 0 to |names|
        invariant out == entries + DirsOf(names)[..i]
      {
        out := out + [Listed(DirectoryType, names[i])];
      }
    }

    method PushPartitions(entries: seq<Listed>, parts: seq<string>) returns (out: seq<Listed>)
      ensures out == entries + PartitionFiles(parts)
    {
      out := entries;
      for i := 0 to |parts|
        invariant out == entries + PartitionFiles(parts)[..i]
      {
        out := out + [Listed(RegularFile, parts[i] + SUFFIX)];
      }
    }

    /** Entries are added from the offset on until one does not fit in the bytes left. */
    method Emit(path: Path, dir: nat, entries: seq<Listed>, offset: nat, capacity: nat) returns (out: seq<DirEntry>)
      requires inodes.Valid() && Room(Min(|entries|, capacity + 1))
      requires TakesSpace(size)
      modifies inodes
      ensures inodes.Valid() && Grown() && (old(inodes.Complete()) ==> inodes.Complete())
      ensures Emitted(inodes.reverse, path, dir, entries, offset, out)
      ensures |out| == |Page(entries, offset, capacity, size)|
      ensures Used() <= old(Used()) + 2 * Min(|out| + 1, |entries|)
    {
      hide Emitted, Carries, Page, Extends, TakesSpace, InodeTable.Valid, InodeTable.Complete;
      hide ClickFs.Room, ClickFs.Used;
      ghost var complete, used, most := inodes.Complete(), Used(), Min(|entries|, capacity + 1);
      ghost var start, first := inodes.reverse, inodes.forward;
      ExtendsRefl(start);
      ExtendsRefl(first);
      out := [];
      EmittedNone(inodes.reverse, path, dir, entries, offset);
      var i: nat, left: nat := offset, capacity;
      while i < |entries|
        invariant inodes.Valid() && (complete ==> inodes.Complete())
        invariant |out| <= most && Room(most - |out|)
        invariant Extends(start, inodes.reverse) && Extends(first, inodes.forward)
        invariant i == offset + |out| && (i <= |entries| || out == [])
        invariant |out| + left <= capacity
        invariant |Page(entries, offset, capacity, size)| == |out| + |Page(entries, i, left, size)|
        invariant Used() <= used + 2 * |out|
        invariant Emitted(inodes.reverse, path, dir, entries, offset, out)
      {
        ghost var before, held := inodes.reverse, inodes.forward;
        RoomForLess(most - |out|, 1);
        var ino := EntryInode(path, dir, entries[i].name);
        ExtendsTrans(start, before, inodes.reverse);
        ExtendsTrans(first, held, inodes.forward);
        EmittedGrows(before, inodes.reverse, path, dir, entries, offset, out);
        PageStep(entries, i, left, size);
        if size(entries[i].name) > left {
          break;
        }
        TakesOne(size, entries[i].name);
        left := left - size(entries[i].name);
        EmittedSnoc(inodes.reverse, path, dir, entries, offset, out, ino);
        out := out + [DirEntry(ino, i + 1, entries[i].kind, entries[i].name)];
        i := i + 1;
      }
      PageStep(entries, i, left, size);
    }

    lemma RoomForLess(n: nat, m: nat)
      requires Room(n) && m <= n
      ensures Room(m)
    {
    }

    lemma RoomLeft(used: nat, n: nat, done: nat)
      requires used + 2 * (3 * n) <= U64 && Used() <= used + 4 * done && done <= n
      ensures Room(n)
    {
    }

    lemma RoomIs(n: nat)
      requires Room(n)
      ensures Used() + 2 * n <= U64
    {
    }

    /** The inode an entry is listed with; a name that is not a dot directory is allocated. */
    method EntryInode(path: Path, dir: nat, name: string) returns (ino: nat)
      requires inodes.Valid() && Room(1)
      modifies inodes
      ensures inodes.Valid() && Grown() && (old(inodes.Complete()) ==> inodes.Complete())
      ensures Carries(inodes.reverse, path, dir, name, ino) && Used() <= old(Used()) + 2
      ensures forall n: nat :: old(Room(n + 1)) ==> Room(n)
    {
      if name == "." || name == ".." {
        return dir;
      }
      ghost var passes;
      ino, passes := inodes.Allocate(JoinPath(path, name));
    }

    /** How many paths a listing may bind. */
    ghost function Demand(dir: nat, capacity: nat, snap: Snapshot): nat
      reads inodes
    {
      if dir in inodes.forward && Resolve(inodes.forward[dir]).Ok? &&
         Entries(snap, Resolve(inodes.forward[dir]).value).Ok?
      then Min(|Entries(snap, Resolve(inodes.forward[dir]).value).value|, capacity + 1)
      else 0
    }

    lemma DemandWithin(dir: nat, capacity: nat, snap: Snapshot)
      requires dir in inodes.forward && Resolve(inodes.forward[dir]).Ok?
      requires Entries(snap, Resolve(inodes.forward[dir]).value).Ok?
      ensures forall n :: n >= |Entries(snap, Resolve(inodes.forward[dir]).value).value| && Room(n) ==>
                Room(Demand(dir, capacity, snap))
    {
    }

    /** The listing of a known directory, from an offset, as much as fits. */
    method Readdir(dir: nat, offset: nat, capacity: nat, snap: Snapshot) returns (reply: Result<seq<DirEntry>, FsError>)
      requires inodes.Valid() && Room(Demand(dir, capacity, snap))
      requires TakesSpace(size)
      modifies inodes
      ensures inodes.Valid() && Grown() && (old(inodes.Complete()) ==> inodes.Complete())
      ensures ListedFrom(old(inodes.forward), inodes.reverse, dir, offset, capacity, size, snap, reply)
      ensures Used() <= old(Used()) + 2 * old(Demand(dir, capacity, snap))
      ensures reply.Ok? ==> Used() <= old(Used()) + 2 * (|reply.value| + 1)
    {
      var path := inodes.Lookup(dir);
      if path.None? {
        return Err(NotFound);
      }
      var plan := Resolve(path.value);
      if plan.Err? {
        return Err(plan.error);
      }
      var entries := BuildEntries(snap, plan.value);
      if entries.Err? {
        return Err(entries.error);
      }
      var out := Emit(path.value, dir, entries.value, offset, capacity);
      PageFits(entries.value, offset, capacity, size);
      reply := Ok(out);
    }

    /**
      A client that asks for the next reply at the offset the last one ended at
      gets the directory's entries once each and in order, every one on the inode
      its path keeps, and all of them unless one is larger than a whole reply.
     */
    method ReadWhole(dir: nat, capacities: nat -> nat, snap: Snapshot) returns (all: seq<DirEntry>)
      requires inodes.Valid() && dir in inodes.forward && Resolve(inodes.forward[dir]).Ok?
      requires Entries(snap, Resolve(inodes.forward[dir]).value).Ok?
      requires Room(3 * |Entries(snap, Resolve(inodes.forward[dir]).value).value|)
      requires TakesSpace(size)
      modifies inodes
      ensures inodes.Valid() && Grown()
      ensures
        var path := old(inodes.forward)[dir];
        var entries := Entries(snap, Resolve(path).value).value;
        && Emitted(inodes.reverse, path, dir, entries, 0, all)
        && |all| <= |entries|
        && (|all| < |entries| ==> exists t :: size(entries[|all|].name) > capacities(t))
    {
      hide Emitted, Carries, Page, ReadAll, Extends, TakesSpace, InodeTable.Valid, InodeTable.Complete;
      hide ClickFs.Room, ClickFs.Used, ClickFs.Demand, Resolve, Entries;
      ghost var path := inodes.forward[dir];
      ghost var entries := Entries(snap, Resolve(path).value).value;
      ghost var start, first := inodes.reverse, inodes.forward;
      ExtendsRefl(start);
      ExtendsRefl(first);
      EmittedNone(start, path, dir, entries, 0);
      ghost var used := Used();
      RoomIs(3 * |entries|);
      all := [];
      var next, turn := 0, 0;
      while true
        invariant inodes.Valid() && next == |all| <= |entries|
        invariant Extends(start, inodes.reverse) && Extends(first, inodes.forward)
        invariant Used() <= used + 4 * |all|
        invariant Emitted(inodes.reverse, path, dir, entries, 0, all)
        invariant |ReadAll(entries, 0, capacities, size, 0)| == |all| + |ReadAll(entries, next, capacities, size, turn)|
        decreases |entries| - |all|
      {
        ghost var before, held := inodes.reverse, inodes.forward;
        KeyKept(first, held, dir);
        RoomLeft(used, |entries|, |all|);
        DemandWithin(dir, capacities(turn), snap);
        ReadAllStep(entries, next, capacities, size, turn);
        var reply := Readdir(dir, next, capacities(turn), snap);
        ExtendsTrans(start, before, inodes.reverse);
        ExtendsTrans(first, held, inodes.forward);
        EmittedGrows(before, inodes.reverse, path, dir, entries, 0, all);
        if reply.value == [] {
          break;
        }
        EmittedJoins(inodes.reverse, path, dir, entries, all, reply.value);
        all := all + reply.value;
        LastNext(inodes.reverse, path, dir, entries, next, reply.value);
        next := reply.value[|reply.value| - 1].next;
        turn := turn + 1;
      }
      PagingIsComplete(entries, 0, capacities, size, 0);
    }
  }

  /** Each entry of a reply takes at least a byte. */
  lemma {:induction false} PageFits(entries: seq<Listed>, offset: nat, capacity: nat, size: string -> nat)
    requires TakesSpace(size)
    ensures |Page(entries, offset, capacity, size)| <= capacity
    decreases |entries| - offset
  {
    if offset < |entries| && size(entries[offset].name) <= capacity {
      PageFits(entries, offset + 1, capacity - size(entries[offset].name), size);
    }
  }

  lemma ReadAllStep(entries: seq<Listed>, offset: nat, capacities: nat -> nat, size: string -> nat, turn: nat)
    ensures
      var page := Page(entries, offset, capacities(turn), size);
      |ReadAll(entries, offset, capacities, size, turn)|
      == if page == [] then 0 else |page| + |ReadAll(entries, offset + |page|, capacities, size, turn + 1)|
  {
  }

  lemma LastNext(
      reverse: map<Path, nat>, path: Path, dir: nat, entries: seq<Listed>, offset: nat, out: seq<DirEntry>)
    requires Emitted(reverse, path, dir, entries, offset, out) && out != []
    ensures out[|out| - 1].next == offset + |out| <= |entries|
  {
  }

  lemma KeyKept<K, V>(small: map<K, V>, big: map<K, V>, key: K)
    requires Extends(small, big) && key in small
    ensures key in big && big[key] == small[key]
  {
  }

  lemma EmittedJoins(
      reverse: map<Path, nat>, path: Path, dir: nat, entries: seq<Listed>, first: seq<DirEntry>, second: seq<DirEntry>)
    requires Emitted(reverse, path, dir, entries, 0, first)
    requires Emitted(reverse, path, dir, entries, |first|, second)
    ensures Emitted(reverse, path, dir, entries, 0, first + second)
  {
    var all := first + second;
    forall k | 0 <= k < |all|
      ensures k < |entries| && Listed(all[k].kind, all[k].name) == entries[k] && all[k].next == k + 1
      ensures Carries(reverse, path, dir, all[k].name, all[k].ino)
    {
      if k >= |first| {
        assert all[k] == second[k - |first|];
        assert Carries(reverse, path, dir, second[k - |first|].name, second[k - |first|].ino);
        assert |first| + (k - |first|) == k;
      } else {
        assert all[k] == first[k];
        assert Carries(reverse, path, dir, first[k].name, first[k].ino);
        assert 0 + k == k;
      }
    }
  }
}
