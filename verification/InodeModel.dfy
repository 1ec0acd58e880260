/** Inode numbers, paths and the probe order shared by the table and its protocol. */
module InodeModel {
  import opened Common

  /** An absolute path as its components; the root has none. */
  type Path = seq<string>

  const ROOT: Path := []
  const INO_ROOT: nat := 1
  const U64: nat := U64_MAX + 1

  /** The hash of a path is never 0 or 1. */
  ghost predicate IsHash(hash: Path -> nat) {
    forall p :: 2 <= hash(p) < U64
  }

  /** The first slot tried for a path; low numbers are reserved. */
  function Start(hash: Path -> nat, path: Path): nat {
    if hash(path) >= 100 then hash(path) else 100
  }

  /** `wrapping_add(1)` on 64 bits. */
  function NextSlot(ino: nat): nat {
    if ino >= U64_MAX then 0 else ino + 1
  }

  /** Where a probe that has reached the root's slot jumps. */
  function BumpedSlot(bump: nat): nat {
    (INO_ROOT + bump + 1) % U64
  }

  /** Slots passed on the way from `from` to `to`, going up and around. */
  function Distance(from: nat, to: nat): int {
    if to >= from then to - from else to + U64 - from
  }

  /** Every slot the probe of `path` visits before `ino` is held by another path. */
  ghost predicate Probed(hash: Path -> nat, forward: map<nat, Path>, path: Path, ino: nat) {
    forall j: nat :: j < U64 && Distance(Start(hash, path), j) < Distance(Start(hash, path), ino) ==>
      j in forward && forward[j] != path
  }

  /** `ino` is the first slot from the hash up, but not below 100, and then slot 0, that is free or the path's own. */
  ghost predicate FirstFit(h: nat, forward: map<nat, Path>, path: Path, ino: nat) {
    && (ino == 0 || (100 <= ino && h <= ino <= 0xFFFF_FFFF_FFFF_FFFF))
    && forall j: nat :: 100 <= j && h <= j <= 0xFFFF_FFFF_FFFF_FFFF && (ino == 0 || j < ino) ==>
         j in forward && forward[j] != path
  }

  /** There is no such slot. */
  ghost predicate NoFit(h: nat, forward: map<nat, Path>, path: Path) {
    forall j: nat :: j == 0 || (100 <= j && h <= j <= 0xFFFF_FFFF_FFFF_FFFF) ==> j in forward && forward[j] != path
  }

  lemma SubsetSize(a: set<nat>, b: set<nat>)
    ensures a <= b ==> |a| <= |b|
  {
    if a <= b {
      assert b == a + (b - a);
    }
  }

  function Range(lo: nat, hi: nat): (r: set<nat>)
    requires lo <= hi
    ensures forall j :: j in r <==> lo <= j < hi
    ensures |r| == hi - lo
  {
    if lo == hi then {} else Range(lo, hi - 1) + {hi - 1}
  }
}
