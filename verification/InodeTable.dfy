/** The inode table as an object, for callers that come one at a time. */
module InodeTables {
  import opened Common
  import opened InodeModel

  /** The root is pinned and every reverse entry agrees with the forward map. */
  ghost predicate Agrees(forward: map<nat, Path>, reverse: map<Path, nat>) {
    && INO_ROOT in forward && forward[INO_ROOT] == ROOT
    && ROOT in reverse && reverse[ROOT] == INO_ROOT
    && (forall i :: i in forward ==> i < U64)
    && (forall p :: p in reverse ==> reverse[p] in forward && forward[reverse[p]] == p)
  }

  /** Every forward entry has been published. */
  ghost predicate Published(forward: map<nat, Path>, reverse: map<Path, nat>) {
    forall i :: i in forward ==> forward[i] in reverse && reverse[forward[i]] == i
  }

  /** Binding an unpublished path, in a free slot or in the one it has. */
  lemma BindKeeps(forward: map<nat, Path>, reverse: map<Path, nat>, path: Path, ino: nat)
    requires Agrees(forward, reverse) && path !in reverse && ino < U64
    requires ino !in forward || forward[ino] == path
    ensures Agrees(forward[ino := path], reverse[path := ino]) && path != ROOT && ino != INO_ROOT
    ensures Published(forward, reverse) ==> Published(forward[ino := path], reverse[path := ino])
    ensures ino in forward ==> forward[ino := path] == forward
  {
  }

  class InodeTable {
    const hash: Path -> nat
    var forward: map<nat, Path>
    var reverse: map<Path, nat>
    var bump: nat

    ghost predicate Valid()
      reads this
    {
      IsHash(hash) && Agrees(forward, reverse)
    }

    /** With Valid, the maps are mutual inverses. */
    ghost predicate Complete()
      reads this
    {
      Published(forward, reverse)
    }

    constructor (hash: Path -> nat)
      requires IsHash(hash)
      ensures Valid() && Complete()
      ensures this.hash == hash && forward == map[INO_ROOT := ROOT] && bump == 0
    {
      this.hash := hash;
      forward := map[INO_ROOT := ROOT];
      reverse := map[ROOT := INO_ROOT];
      bump := 0;
    }

    /** Lookup undoes allocation: a path comes back from its inode and from no other number. */
    method Lookup(ino: nat) returns (path: Option<Path>)
      ensures path.Some? <==> ino in forward
      ensures path.Some? ==> path.value == forward[ino]
      ensures Valid() && Complete() ==>
                && (path.Some? ==> path.value in reverse && reverse[path.value] == ino)
                && (path.None? <==> forall p :: p in reverse ==> reverse[p] != ino)
                && (ino == INO_ROOT ==> path == Some(ROOT))
    {
      path := if ino in forward then Some(forward[ino]) else None;
    }

    /**
      The inode of `path`, bound now if it had none. While the entries and the
      bump counter together stay below 2^64 the probe ends, within one pass more
      than there are entries, even if it runs past the largest inode and jumps.
     */
    method Allocate(path: Path) returns (ino: nat, ghost passes: nat)
      requires Valid()
      requires |forward| + bump < U64
      modifies `forward, `reverse, `bump
      ensures Valid()
      ensures ino in forward && forward[ino] == path && path in reverse && reverse[path] == ino
      ensures path in old(reverse) ==> forward == old(forward) && reverse == old(reverse) && bump == old(bump)
      ensures path !in old(reverse) ==>
                && (ino in old(forward) ==> old(forward)[ino] == path)
                && forward == old(forward)[ino := path]
                && reverse == old(reverse)[path := ino]
      ensures old(Complete()) ==> Complete()
      ensures path != ROOT ==> ino != INO_ROOT
      ensures old(bump) <= bump <= old(bump) + 1
      ensures passes <= |old(forward)| + 1
      ensures bump == old(bump) && path !in old(reverse) ==> Probed(hash, old(forward), path, ino)
      ensures path !in old(reverse) ==>
                if NoFit(hash(path), old(forward), path) then
                  && bump == old(bump) + 1 && ino >= old(bump) + 2
                  && forall j: nat :: old(bump) + 2 <= j < ino ==> j in old(forward) && old(forward)[j] != path
                else
                  bump == old(bump) && FirstFit(hash(path), old(forward), path, ino)
    {
      hide FirstFit, NoFit, Probed, Scanned, HeldByOthers, BumpedSlot, NextSlot, Published;
      passes := 0;
      if path in reverse {
        return reverse[path], 0;
      }
      ino := Start(hash, path);
      ghost var start, jump := Start(hash, path), bump + 2;
      ghost var seen: set<nat> := {};
      ScanStarts(hash, forward, path, jump);
      while true
        invariant forward == old(forward) && reverse == old(reverse)
        invariant old(bump) <= bump <= old(bump) + 1
        invariant passes == |seen| && HeldByOthers(forward, path, seen)
        invariant Scanned(start, jump, bump == old(bump), ino, seen)
        decreases |forward| - |seen|
      {
        passes := passes + 1;
        SeenSize(forward, path, seen);
        if ino == INO_ROOT {
          RootComesFirst(start, jump, bump == old(bump), seen);
          ScanJump(start, bump, forward.Keys, seen);
          OneMore(start, jump, true, forward, path, ino, seen);
          seen := seen + {ino};
          ino := BumpedSlot(bump);
          bump := bump + 1;
        } else if ino in forward {
          if forward[ino] == path {
            ScanIsProbe(hash, forward, path, jump, ino, seen);
            ScanFits(hash, forward, path, jump, bump == old(bump), ino, seen);
            BindKeeps(forward, reverse, path, ino);
            reverse := reverse[path := ino];
            return;
          }
          ScanNext(start, jump, bump == old(bump), forward.Keys, ino, seen);
          OneMore(start, jump, bump == old(bump), forward, path, ino, seen);
          seen := seen + {ino};
          ino := NextSlot(ino);
        } else {
          ScanIsProbe(hash, forward, path, jump, ino, seen);
          ScanFits(hash, forward, path, jump, bump == old(bump), ino, seen);
          BindKeeps(forward, reverse, path, ino);
          forward := forward[ino := path];
          reverse := reverse[path := ino];
          return;
        }
      }
    }
  }

  /** The slots in `seen` are occupied, and none but the root's could belong to `path`. */
  ghost predicate HeldByOthers(forward: map<nat, Path>, path: Path, seen: set<nat>) {
    seen <= forward.Keys && forall j :: j in seen && j != INO_ROOT ==> forward[j] != path
  }

  /**
    The slots a scan has seen when it is at `ino`. Before the jump they go from
    the start up and around zero; after it they also go up from the jump.
   */
  ghost predicate Scanned(start: nat, jump: nat, first: bool, ino: nat, seen: set<nat>) {
    && 100 <= start < U64
    && ino < U64
    && ino !in seen
    && (if first then
          && (ino >= start || ino <= INO_ROOT)
          && (forall j: nat :: j in seen <==>
                if ino >= start then start <= j < ino else start <= j < U64 || j < ino)
        else
          && INO_ROOT < jump <= ino < start
          && (forall j: nat :: j in seen <==> start <= j < U64 || j <= INO_ROOT || jump <= j < ino))
  }

  lemma ScanStarts(hash: Path -> nat, forward: map<nat, Path>, path: Path, jump: nat)
    requires IsHash(hash)
    ensures Scanned(Start(hash, path), jump, true, Start(hash, path), {}) && HeldByOthers(forward, path, {})
  {
  }

  lemma RootComesFirst(start: nat, jump: nat, first: bool, seen: set<nat>)
    requires Scanned(start, jump, first, INO_ROOT, seen)
    ensures first
  {
  }

  lemma SeenSize(forward: map<nat, Path>, path: Path, seen: set<nat>)
    requires HeldByOthers(forward, path, seen)
    ensures seen <= forward.Keys && |seen| <= |forward|
  {
    SubsetSize(seen, forward.Keys);
  }

  /** A slot passed by. */
  lemma OneMore(
      start: nat, jump: nat, first: bool, forward: map<nat, Path>, path: Path, ino: nat, seen: set<nat>)
    requires Scanned(start, jump, first, ino, seen) && HeldByOthers(forward, path, seen)
    requires ino in forward && (ino == INO_ROOT || forward[ino] != path)
    ensures HeldByOthers(forward, path, seen + {ino}) && |seen + {ino}| == |seen| + 1 <= |forward|
  {
    SubsetSize(seen + {ino}, forward.Keys);
  }

  lemma ScanNext(start: nat, jump: nat, first: bool, keys: set<nat>, ino: nat, seen: set<nat>)
    requires Scanned(start, jump, first, ino, seen) && ino != INO_ROOT
    requires seen <= keys && ino in keys
    requires 2 <= jump && |keys| + jump < U64 + 2
    ensures Scanned(start, jump, first, NextSlot(ino), seen + {ino})
  {
    if !first {
      assert {0, INO_ROOT} <= keys;
      VacancyAbove(keys, jump - 2);
    }
  }

  lemma ScanJump(start: nat, bump: nat, keys: set<nat>, seen: set<nat>)
    requires Scanned(start, bump + 2, true, INO_ROOT, seen) && seen <= keys && INO_ROOT in keys
    requires |keys| + bump < U64
    ensures BumpedSlot(bump) == bump + 2
    ensures Scanned(start, bump + 2, false, BumpedSlot(bump), seen + {INO_ROOT})
  {
    assert {0, INO_ROOT} <= keys;
    VacancyAbove(keys, bump);
  }

  lemma ScanIsProbe(hash: Path -> nat, forward: map<nat, Path>, path: Path, jump: nat, ino: nat, seen: set<nat>)
    requires HeldByOthers(forward, path, seen) && ino != INO_ROOT
    ensures Scanned(Start(hash, path), jump, true, ino, seen) ==> Probed(hash, forward, path, ino)
  {
  }

  /** Where a scan stops is the first fit, or above the jump if there is none. */
  lemma ScanFits(
      hash: Path -> nat, forward: map<nat, Path>, path: Path, jump: nat, first: bool, ino: nat, seen: set<nat>)
    requires HeldByOthers(forward, path, seen) && Scanned(Start(hash, path), jump, first, ino, seen)
    requires ino != INO_ROOT && (ino !in forward || forward[ino] == path)
    ensures ino < U64
    ensures first ==> FirstFit(hash(path), forward, path, ino) && !NoFit(hash(path), forward, path)
    ensures !first ==> NoFit(hash(path), forward, path) && ino >= jump
    ensures !first ==> forall j: nat :: jump <= j < ino ==> j in forward && forward[j] != path
  {
  }

  /** A table that is not full, counting the bump, has room above the place a jump leads to. */
  lemma VacancyAbove(keys: set<nat>, bump: nat)
    requires |keys| + bump < U64
    ensures {0, INO_ROOT} <= keys ==> exists j: nat :: bump + 2 <= j < U64 && j !in keys
  {
    if {0, INO_ROOT} <= keys {
      SubsetSize({0, INO_ROOT}, keys);
      SubsetSize({0, INO_ROOT} + Range(bump + 2, U64), keys);
    }
  }
}
