/**
  Any number of threads calling `allocate` on one table, interleaved at its
  atomic map operations: the reverse lookup, one probe of a forward entry, the
  bump of the shared counter, and the reverse insert.
 */
module InodeProtocol {
  import opened Common
  import opened InodeModel

  datatype Thread =
    | Idle
    | Asked(path: Path)
    | Probing(path: Path, ino: nat)
    | Publishing(path: Path, ino: nat)
    | Returned(path: Path, ino: nat)

  datatype State = State(
    forward: map<nat, Path>,
    reverse: map<Path, nat>,
    bump: nat,
    threads: map<nat, Thread>)

  const NEW_TABLE := State(map[INO_ROOT := ROOT], map[ROOT := INO_ROOT], 0, map[])

  function At(s: State, t: nat): Thread {
    if t in s.threads then s.threads[t] else Idle
  }

  datatype Action = Call(t: nat, path: Path) | Check(t: nat) | Probe(t: nat) | Bump(t: nat) | Publish(t: nat)

  predicate Enabled(s: State, a: Action) {
    match a
    case Call(t, _) => At(s, t).Idle? || At(s, t).Returned?
    case Check(t) => At(s, t).Asked?
    case Probe(t) => At(s, t).Probing? && At(s, t).ino != INO_ROOT
    case Bump(t) => At(s, t).Probing? && At(s, t).ino == INO_ROOT
    case Publish(t) => At(s, t).Publishing?
  }

  function Move(s: State, t: nat, to: Thread): State {
    s.(threads := s.threads[t := to])
  }

  function Apply(hash: Path -> nat, s: State, a: Action): State
    requires Enabled(s, a)
  {
    match a
    case Call(t, path) => Move(s, t, Asked(path))
    case Check(t) =>
      var path := At(s, t).path;
      if path in s.reverse then Move(s, t, Returned(path, s.reverse[path]))
      else Move(s, t, Probing(path, Start(hash, path)))
    case Probe(t) =>
      var Probing(path, ino) := At(s, t);
      if ino !in s.forward then
        Move(s.(forward := s.forward[ino := path]), t, Publishing(path, ino))
      else if s.forward[ino] == path then Move(s, t, Publishing(path, ino))
      else Move(s, t, Probing(path, NextSlot(ino)))
    case Bump(t) =>
      Move(s.(bump := (s.bump + 1) % U64), t, Probing(At(s, t).path, BumpedSlot(s.bump)))
    case Publish(t) =>
      var Publishing(path, ino) := At(s, t);
      Move(s.(reverse := s.reverse[path := ino]), t, Returned(path, ino))
  }

  function Run(hash: Path -> nat, schedule: seq<Action>): Option<State> {
    if schedule == [] then Some(NEW_TABLE)
    else
      match Run(hash, schedule[..|schedule| - 1])
      case None => None
      case Some(s) =>
        var a := schedule[|schedule| - 1];
        if Enabled(s, a) then Some(Apply(hash, s, a)) else None
  }

  /** No probe of the schedule runs into the root's slot, past the largest inode. */
  predicate NeverBumps(schedule: seq<Action>) {
    forall k :: 0 <= k < |schedule| ==> !schedule[k].Bump?
  }

  // ------------------------------------------------------------------ invariant

  /** A probe is at its start or above, or has gone around to the first two slots. */
  predicate OnTrack(hash: Path -> nat, path: Path, ino: nat) {
    ino < U64 && (ino >= Start(hash, path) || ino <= INO_ROOT)
  }

  /** A binding sits where the probe of its path first found room. */
  ghost predicate BindingOk(hash: Path -> nat, s: State, ino: nat)
    requires ino in s.forward
  {
    var path := s.forward[ino];
    if ino == INO_ROOT then path == ROOT
    else path != ROOT && OnTrack(hash, path, ino) && Probed(hash, s.forward, path, ino)
  }

  ghost predicate Bound(s: State, path: Path, ino: nat) {
    ino in s.forward && s.forward[ino] == path
  }

  ghost predicate ThreadOk(hash: Path -> nat, s: State, th: Thread) {
    match th
    case Idle => true
    case Asked(_) => true
    case Probing(path, ino) => path != ROOT && OnTrack(hash, path, ino) && Probed(hash, s.forward, path, ino)
    case Publishing(path, ino) => path != ROOT && Bound(s, path, ino)
    case Returned(path, ino) => Bound(s, path, ino)
  }

  ghost predicate Inv(hash: Path -> nat, s: State) {
    && INO_ROOT in s.forward
    && ROOT in s.reverse && s.reverse[ROOT] == INO_ROOT
    && (forall i :: i in s.forward ==> BindingOk(hash, s, i))
    && (forall p :: p in s.reverse ==> Bound(s, p, s.reverse[p]))
    && (forall t :: t in s.threads ==> ThreadOk(hash, s, s.threads[t]))
  }

  /** A path is bound to at most one inode: the later of two slots would have been passed by. */
  lemma {:induction false} BoundOnce(hash: Path -> nat, s: State, path: Path, i: nat, j: nat)
    requires IsHash(hash) && Inv(hash, s)
    requires Bound(s, path, i) && Bound(s, path, j)
    ensures i == j
  {
    assert BindingOk(hash, s, i) && BindingOk(hash, s, j);
    var from := Start(hash, path);
    assert i != j ==> Distance(from, i) < Distance(from, j) || Distance(from, j) < Distance(from, i);
  }

  /** Where a probe may bind its path, or stop because another thread has done so. */
  lemma ProbeFinds(hash: Path -> nat, s: State, path: Path, ino: nat)
    requires IsHash(hash) && Inv(hash, s) && ino != INO_ROOT && path != ROOT
    requires OnTrack(hash, path, ino) && Probed(hash, s.forward, path, ino) && ino !in s.forward
    ensures Inv(hash, s.(forward := s.forward[ino := path]))
  {
    var t := s.(forward := s.forward[ino := path]);
    forall i | i in t.forward ensures BindingOk(hash, t, i) {
      if i != ino {
        assert BindingOk(hash, s, i);
        assert t.forward[i] == s.forward[i];
      }
    }
    forall p | p in t.reverse ensures Bound(t, p, t.reverse[p]) {
      assert Bound(s, p, s.reverse[p]);
    }
    forall u | u in t.threads ensures ThreadOk(hash, t, t.threads[u]) {
      assert ThreadOk(hash, s, s.threads[u]);
    }
  }

  lemma ProbePasses(hash: Path -> nat, forward: map<nat, Path>, path: Path, ino: nat)
    requires IsHash(hash) && ino != INO_ROOT
    requires OnTrack(hash, path, ino) && Probed(hash, forward, path, ino)
    requires ino in forward && forward[ino] != path
    ensures OnTrack(hash, path, NextSlot(ino)) && Probed(hash, forward, path, NextSlot(ino))
  {
    var from := Start(hash, path);
    forall j: nat | j < U64 && Distance(from, j) < Distance(from, NextSlot(ino))
      ensures j in forward && forward[j] != path
    {
      if j != ino {
        assert Distance(from, j) < Distance(from, ino);
      }
    }
  }

  lemma MoveInv(hash: Path -> nat, s: State, t: nat, to: Thread)
    requires Inv(hash, s) && ThreadOk(hash, s, to)
    ensures Inv(hash, Move(s, t, to))
  {
    var m := Move(s, t, to);
    forall i | i in m.forward ensures BindingOk(hash, m, i) {
      assert BindingOk(hash, s, i);
    }
    forall p | p in m.reverse ensures Bound(m, p, m.reverse[p]) {
      assert Bound(s, p, s.reverse[p]);
    }
    forall u | u in m.threads ensures ThreadOk(hash, m, m.threads[u]) {
      assert u != t ==> ThreadOk(hash, s, s.threads[u]);
    }
  }

  lemma PublishInv(hash: Path -> nat, s: State, path: Path, ino: nat)
    requires Inv(hash, s) && Bound(s, path, ino) && path != ROOT
    ensures Inv(hash, s.(reverse := s.reverse[path := ino]))
  {
    var m := s.(reverse := s.reverse[path := ino]);
    forall i | i in m.forward ensures BindingOk(hash, m, i) {
      assert BindingOk(hash, s, i);
    }
    forall u | u in m.threads ensures ThreadOk(hash, m, m.threads[u]) {
      assert ThreadOk(hash, s, s.threads[u]);
    }
  }

  lemma InvStep(hash: Path -> nat, s: State, a: Action)
    requires IsHash(hash) && Inv(hash, s) && Enabled(s, a) && !a.Bump?
    ensures Inv(hash, Apply(hash, s, a))
  {
    var th := At(s, a.t);
    assert ThreadOk(hash, s, th);
    match a
    case Call(t, path) => MoveInv(hash, s, t, Asked(path));
    case Check(t) =>
      if th.path in s.reverse {
        MoveInv(hash, s, t, Returned(th.path, s.reverse[th.path]));
      } else {
        StartsOnTrack(hash, s.forward, th.path);
        MoveInv(hash, s, t, Probing(th.path, Start(hash, th.path)));
      }
    case Probe(t) =>
      if th.ino !in s.forward {
        ProbeFinds(hash, s, th.path, th.ino);
        MoveInv(hash, s.(forward := s.forward[th.ino := th.path]), t, Publishing(th.path, th.ino));
      } else if s.forward[th.ino] == th.path {
        MoveInv(hash, s, t, Publishing(th.path, th.ino));
      } else {
        ProbePasses(hash, s.forward, th.path, th.ino);
        MoveInv(hash, s, t, Probing(th.path, NextSlot(th.ino)));
      }
    case Publish(t) =>
      PublishInv(hash, s, th.path, th.ino);
      MoveInv(hash, s.(reverse := s.reverse[th.path := th.ino]), t, Returned(th.path, th.ino));
  }

  lemma StartsOnTrack(hash: Path -> nat, forward: map<nat, Path>, path: Path)
    requires IsHash(hash)
    ensures OnTrack(hash, path, Start(hash, path)) && Probed(hash, forward, path, Start(hash, path))
  {
  }

  lemma {:induction false} RunInv(hash: Path -> nat, schedule: seq<Action>)
    requires IsHash(hash) && NeverBumps(schedule)
    ensures Run(hash, schedule).Some? ==> Inv(hash, Run(hash, schedule).value)
  {
    if schedule != [] && Run(hash, schedule).Some? {
      var before := schedule[..|schedule| - 1];
      RunInv(hash, before);
      InvStep(hash, Run(hash, before).value, schedule[|schedule| - 1]);
    }
  }

  // ------------------------------------------------------------------- theorems

  /**
    However many threads interleave, as long as no probe runs into the root's
    slot: no path is bound to two inodes, every published entry agrees with the
    forward map, only the root has inode 1, all inodes are 64-bit, and the low
    ones are reserved, but for 0, which a probe past the top may take.
   */
  lemma InodesAreUnique(hash: Path -> nat, schedule: seq<Action>, i: nat, j: nat)
    requires IsHash(hash) && NeverBumps(schedule) && Run(hash, schedule).Some?
    ensures
      var s := Run(hash, schedule).value;
      && (i in s.forward && j in s.forward && s.forward[i] == s.forward[j] ==> i == j)
      && (i in s.forward ==> i < U64 && (i == INO_ROOT <==> s.forward[i] == ROOT))
      && (i in s.forward && i != INO_ROOT && i != 0 ==> i >= 100)
      && (forall p :: p in s.reverse ==> s.reverse[p] in s.forward && s.forward[s.reverse[p]] == p)
  {
    RunInv(hash, schedule);
    var s := Run(hash, schedule).value;
    if i in s.forward {
      assert BindingOk(hash, s, i);
      if j in s.forward && s.forward[i] == s.forward[j] {
        BoundOnce(hash, s, s.forward[i], i, j);
      }
    }
  }

  /** A step, of any kind, only adds bindings. */
  lemma BindingsGrow(hash: Path -> nat, s: State, a: Action)
    requires Enabled(s, a)
    ensures forall i :: i in s.forward ==>
              i in Apply(hash, s, a).forward && Apply(hash, s, a).forward[i] == s.forward[i]
  {
  }

  /** A binding never changes, even in schedules that bump. */
  lemma {:induction false} BindingsStay(hash: Path -> nat, schedule: seq<Action>, k: nat)
    requires k <= |schedule| && Run(hash, schedule).Some?
    ensures Run(hash, schedule[..k]).Some?
    ensures
      var early, late := Run(hash, schedule[..k]).value, Run(hash, schedule).value;
      forall i :: i in early.forward ==> i in late.forward && late.forward[i] == early.forward[i]
    decreases |schedule|
  {
    if k < |schedule| {
      var before := schedule[..|schedule| - 1];
      BindingsStay(hash, before, k);
      assert before[..k] == schedule[..k];
      BindingsGrow(hash, Run(hash, before).value, schedule[|schedule| - 1]);
    } else {
      assert schedule[..k] == schedule;
    }
  }

  /** All calls for one path return the same inode, whenever and on whichever thread they return. */
  lemma SamePathSameInode(hash: Path -> nat, schedule: seq<Action>, k: nat, t: nat, u: nat)
    requires IsHash(hash) && NeverBumps(schedule)
    requires k <= |schedule| && Run(hash, schedule).Some? && Run(hash, schedule[..k]).Some?
    requires
      var early, late := Run(hash, schedule[..k]).value, Run(hash, schedule).value;
      At(early, t).Returned? && At(late, u).Returned? && At(early, t).path == At(late, u).path
    ensures At(Run(hash, schedule[..k]).value, t).ino == At(Run(hash, schedule).value, u).ino
  {
    var early, late := Run(hash, schedule[..k]).value, Run(hash, schedule).value;
    RunInv(hash, schedule);
    RunInv(hash, schedule[..k]);
    BindingsStay(hash, schedule, k);
    assert ThreadOk(hash, early, early.threads[t]) && ThreadOk(hash, late, late.threads[u]);
    BoundOnce(hash, late, At(late, u).path, At(early, t).ino, At(late, u).ino);
  }

  /** What a call returns is bound, and its path is published; this holds even in schedules that bump. */
  ghost predicate ReturnsOk(s: State) {
    && (forall p :: p in s.reverse ==> Bound(s, p, s.reverse[p]))
    && (forall t :: t in s.threads && (s.threads[t].Publishing? || s.threads[t].Returned?) ==>
          Bound(s, s.threads[t].path, s.threads[t].ino))
    && (forall t :: t in s.threads && s.threads[t].Returned? ==> s.threads[t].path in s.reverse)
  }

  lemma ReturnsOkStep(hash: Path -> nat, s: State, a: Action)
    requires ReturnsOk(s) && Enabled(s, a)
    ensures ReturnsOk(Apply(hash, s, a))
  {
    BindingsGrow(hash, s, a);
  }

  lemma {:induction false} ReturnsOkRun(hash: Path -> nat, schedule: seq<Action>)
    requires Run(hash, schedule).Some?
    ensures ReturnsOk(Run(hash, schedule).value)
  {
    if schedule != [] {
      var before := schedule[..|schedule| - 1];
      ReturnsOkRun(hash, before);
      ReturnsOkStep(hash, Run(hash, before).value, schedule[|schedule| - 1]);
    }
  }

  /**
    A call that has returned has published its path, in every schedule, so that a
    later one finds it; without a jump it finds the very inode.
   */
  lemma ReturnedIsPublished(hash: Path -> nat, schedule: seq<Action>, t: nat)
    requires IsHash(hash) && Run(hash, schedule).Some? && At(Run(hash, schedule).value, t).Returned?
    ensures
      var s := Run(hash, schedule).value;
      var Returned(path, ino) := At(s, t);
      && ino in s.forward && s.forward[ino] == path
      && path in s.reverse
      && (NeverBumps(schedule) ==> s.reverse[path] == ino)
  {
    ReturnsOkRun(hash, schedule);
    var s := Run(hash, schedule).value;
    if NeverBumps(schedule) {
      RunInv(hash, schedule);
      BoundOnce(hash, s, At(s, t).path, At(s, t).ino, s.reverse[At(s, t).path]);
    }
  }

  // ------------------------------------------------------- which paths can collide

  ghost predicate CallsOnly(schedule: seq<Action>, paths: set<Path>) {
    forall k :: 0 <= k < |schedule| && schedule[k].Call? ==> schedule[k].path in paths
  }

  /** Some path is bound to two inodes. */
  ghost predicate BindsTwice(s: State) {
    exists i, j :: i in s.forward && j in s.forward && i != j && s.forward[i] == s.forward[j]
  }

  /** Some threads, calling for these paths only, can bring this about. */
  ghost predicate CanBindTwice(hash: Path -> nat, paths: set<Path>) {
    exists schedule :: CallsOnly(schedule, paths) && Run(hash, schedule).Some? && BindsTwice(Run(hash, schedule).value)
  }

  ghost predicate CanBump(hash: Path -> nat, paths: set<Path>) {
    exists schedule :: CallsOnly(schedule, paths) && Run(hash, schedule).Some? && !NeverBumps(schedule)
  }

  /** The paths, but the root, whose hash, or 100 if that is higher, is slot `x` or above. */
  function FromSlot(hash: Path -> nat, paths: set<Path>, x: nat): set<Path> {
    set p | p in paths && p != [] && (hash(p) >= x || 100 >= x)
  }

  /** More paths start at some slot or above than the slots from there on, and slot 0, can take. */
  ghost predicate Crowded(hash: Path -> nat, paths: set<Path>) {
    exists x: nat ::
      100 <= x < 0x1_0000_0000_0000_0000 && |FromSlot(hash, paths, x)| >= 0x1_0000_0000_0000_0000 - x + 2
  }

  // --------------------------------------------- a jump is possible only when crowded

  /** Only these paths have been called for. */
  ghost predicate PathsAmong(s: State, paths: set<Path>) {
    && (forall i :: i in s.forward ==> s.forward[i] == ROOT || s.forward[i] in paths)
    && (forall t :: t in s.threads && !s.threads[t].Idle? ==> s.threads[t].path in paths)
  }

  lemma {:induction false} RunPathsAmong(hash: Path -> nat, schedule: seq<Action>, paths: set<Path>)
    requires CallsOnly(schedule, paths) && Run(hash, schedule).Some?
    ensures PathsAmong(Run(hash, schedule).value, paths)
  {
    if schedule != [] {
      RunPathsAmong(hash, schedule[..|schedule| - 1], paths);
    }
  }

  /** Distinct slots with distinct holders have as many holders as slots. */
  lemma {:induction false} HoldersCount(forward: map<nat, Path>, slots: set<nat>)
    requires slots <= forward.Keys
    requires forall i, j :: i in slots && j in slots && forward[i] == forward[j] ==> i == j
    ensures |set j | j in slots :: forward[j]| == |slots|
  {
    var holders := set j | j in slots :: forward[j];
    assert slots == {} ==> holders == {};
    if slots != {} {
      var k :| k in slots;
      var rest := slots - {k};
      HoldersCount(forward, rest);
      assert holders == (set j | j in rest :: forward[j]) + {forward[k]};
    }
  }

  /** The lowest slot from which on everything up to the top is taken, at or below `from`. */
  lemma BlockStart(forward: map<nat, Path>, from: nat) returns (x: nat)
    requires 100 <= from < U64 && forall j: nat :: from <= j < U64 ==> j in forward
    ensures 100 <= x <= from
    ensures forall j: nat :: x <= j < U64 ==> j in forward
    ensures x == 100 || x - 1 !in forward
  {
    x := from;
    while x > 100 && x - 1 in forward
      invariant 100 <= x <= from
      invariant forall j: nat :: x <= j < U64 ==> j in forward
    {
      x := x - 1;
    }
  }

  /** A path bound in a block, or above it in slot 0, started its probe inside the block. */
  lemma HolderStartsInBlock(hash: Path -> nat, s: State, x: nat, j: nat)
    requires IsHash(hash) && Inv(hash, s) && 100 <= x < U64 && (x == 100 || x - 1 !in s.forward)
    requires j in s.forward && (x <= j < U64 || j == 0)
    ensures s.forward[j] != ROOT && Start(hash, s.forward[j]) >= x
  {
    assert BindingOk(hash, s, j);
    var from := Start(hash, s.forward[j]);
    if x > 100 {
      assert Distance(from, x - 1) >= Distance(from, j);
    }
  }

  lemma TopIsTaken(hash: Path -> nat, s: State, path: Path)
    requires IsHash(hash) && Inv(hash, s) && Probed(hash, s.forward, path, INO_ROOT)
    ensures forall j: nat :: Start(hash, path) <= j < U64 || j == 0 ==> j in s.forward && s.forward[j] != path
  {
    forall j: nat | Start(hash, path) <= j < U64 || j == 0 ensures j in s.forward && s.forward[j] != path {
      assert Distance(Start(hash, path), j) < Distance(Start(hash, path), INO_ROOT);
    }
  }

  /** The holders of a solid block, and of slot 0, are distinct paths that start in the block. */
  lemma BlockHolders(hash: Path -> nat, s: State, paths: set<Path>, x: nat, slots: set<nat>, path: Path)
    requires IsHash(hash) && Inv(hash, s) && PathsAmong(s, paths)
    requires 100 <= x < U64 && (x == 100 || x - 1 !in s.forward)
    requires forall j :: j in slots <==> x <= j < U64 || j == 0
    requires slots <= s.forward.Keys
    requires forall i: nat :: Start(hash, path) <= i < U64 || i == 0 ==> i in s.forward && s.forward[i] != path
    ensures forall j :: j in slots ==> s.forward[j] in FromSlot(hash, paths, x) && s.forward[j] != path
    ensures forall i, j :: i in slots && j in slots && s.forward[i] == s.forward[j] ==> i == j
  {
    hide Inv, Probed;
    forall j | j in slots ensures s.forward[j] in FromSlot(hash, paths, x) && s.forward[j] != path {
      HolderStartsInBlock(hash, s, x, j);
      HolderIsOther(hash, s, x, j, path);
    }
    forall i, j | i in slots && j in slots && s.forward[i] == s.forward[j] ensures i == j {
      BoundOnce(hash, s, s.forward[i], i, j);
    }
  }

  /** A probe about to jump has a crowded block of paths behind it, its own path on top of them. */
  lemma BlockIsCrowded(hash: Path -> nat, s: State, paths: set<Path>, path: Path)
    requires IsHash(hash) && Inv(hash, s) && PathsAmong(s, paths)
    requires path in paths && path != ROOT && Probed(hash, s.forward, path, INO_ROOT)
    ensures Crowded(hash, paths)
  {
    TopIsTaken(hash, s, path);
    var x := BlockStart(s.forward, Start(hash, path));
    hide Probed, Crowded, Range, Inv, PathsAmong;
    var slots := Range(x, U64) + {0};
    BlockHolders(hash, s, paths, x, slots, path);
    CountHolders(s.forward, slots, path, FromSlot(hash, paths, x));
    CrowdedFrom(hash, paths, x);
  }

  lemma CrowdedFrom(hash: Path -> nat, paths: set<Path>, x: nat)
    requires 100 <= x < U64 && |FromSlot(hash, paths, x)| >= U64 - x + 2
    ensures Crowded(hash, paths)
  {
  }

  /** The path above the block holds no slot of it: below its start it cannot, from there on others do. */
  lemma HolderIsOther(hash: Path -> nat, s: State, x: nat, j: nat, path: Path)
    requires IsHash(hash) && Inv(hash, s) && 100 <= x
    requires forall i: nat :: Start(hash, path) <= i < U64 || i == 0 ==> i in s.forward && s.forward[i] != path
    requires j in s.forward && (x <= j < U64 || j == 0)
    ensures s.forward[j] != path
  {
    assert BindingOk(hash, s, j);
  }

  lemma CountHolders(forward: map<nat, Path>, slots: set<nat>, path: Path, among: set<Path>)
    requires slots <= forward.Keys && path in among
    requires forall j :: j in slots ==> forward[j] in among && forward[j] != path
    requires forall i, j :: i in slots && j in slots && forward[i] == forward[j] ==> i == j
    ensures |among| >= |slots| + 1
  {
    HoldersCount(forward, slots);
    var holders := set j | j in slots :: forward[j];
    assert among == (holders + {path}) + (among - (holders + {path}));
  }

  lemma {:induction false} BumpMeansCrowded(hash: Path -> nat, schedule: seq<Action>, paths: set<Path>)
    requires IsHash(hash) && CallsOnly(schedule, paths) && Run(hash, schedule).Some? && !NeverBumps(schedule)
    ensures Crowded(hash, paths)
  {
    var before, a := schedule[..|schedule| - 1], schedule[|schedule| - 1];
    if NeverBumps(before) {
      var s := Run(hash, before).value;
      RunInv(hash, before);
      RunPathsAmong(hash, before, paths);
      assert forall k :: 0 <= k < |before| ==> schedule[k] == before[k] && !before[k].Bump?;
      assert ThreadOk(hash, s, s.threads[a.t]);
      hide Crowded;
      BlockIsCrowded(hash, s, paths, At(s, a.t).path);
    } else {
      BumpMeansCrowded(hash, before, paths);
    }
  }

  // -------------------------------------------------- and when crowded it does happen

  /** Reached by calls for these paths only. */
  ghost predicate Reached(hash: Path -> nat, paths: set<Path>, s: State) {
    exists schedule :: CallsOnly(schedule, paths) && Run(hash, schedule) == Some(s)
  }

  lemma Step(hash: Path -> nat, paths: set<Path>, s: State, a: Action) returns (t: State)
    requires Reached(hash, paths, s) && Enabled(s, a) && (a.Call? ==> a.path in paths)
    ensures t == Apply(hash, s, a) && Reached(hash, paths, t)
    ensures IsHash(hash) && Inv(hash, s) && !a.Bump? ==> Inv(hash, t)
  {
    var schedule :| CallsOnly(schedule, paths) && Run(hash, schedule) == Some(s);
    assert (schedule + [a])[..|schedule|] == schedule;
    t := Apply(hash, s, a);
    assert Run(hash, schedule + [a]) == Some(t);
    assert CallsOnly(schedule + [a], paths);
    if IsHash(hash) && Inv(hash, s) && !a.Bump? {
      InvStep(hash, s, a);
    }
  }

  /** A thread whose way from `ino` to `to` is taken by others walks it; nothing else changes. */
  lemma {:induction false} Walk(hash: Path -> nat, paths: set<Path>, s: State, t: nat, path: Path, ino: nat, to: nat)
    returns (r: State)
    requires IsHash(hash) && Reached(hash, paths, s) && At(s, t) == Probing(path, ino)
    requires OnTrack(hash, path, ino) && OnTrack(hash, path, to) && Probed(hash, s.forward, path, to)
    requires Distance(Start(hash, path), ino) <= Distance(Start(hash, path), to)
    ensures Reached(hash, paths, r) && r == Move(s, t, Probing(path, to))
    decreases Distance(Start(hash, path), to) - Distance(Start(hash, path), ino)
  {
    if ino == to {
      r := s;
      assert s.threads[t := Probing(path, to)] == s.threads;
    } else {
      var from := Start(hash, path);
      assert Distance(from, ino) < Distance(from, to);
      var next := Step(hash, paths, s, Probe(t));
      assert next == Move(s, t, Probing(path, NextSlot(ino)));
      r := Walk(hash, paths, next, t, path, NextSlot(ino), to);
      assert r.threads == s.threads[t := Probing(path, to)];
    }
  }

  /** The first slot on a probe with room, when the probe of an unbound path does not reach the root. */
  lemma FirstRoom(hash: Path -> nat, s: State, path: Path) returns (ino: nat)
    requires IsHash(hash) && Inv(hash, s) && (forall i :: i in s.forward ==> s.forward[i] != path)
    requires !Probed(hash, s.forward, path, INO_ROOT)
    ensures ino !in s.forward && ino != INO_ROOT && OnTrack(hash, path, ino) && Probed(hash, s.forward, path, ino)
  {
    ino := Start(hash, path);
    StartsOnTrack(hash, s.forward, path);
    while ino in s.forward
      invariant OnTrack(hash, path, ino) && Probed(hash, s.forward, path, ino)
      decreases U64 + 2 - Distance(Start(hash, path), ino)
    {
      ProbePasses(hash, s.forward, path, ino);
      ino := NextSlot(ino);
    }
  }

  /** The slot a probe ends at: its path's own, or the first with room. */
  lemma ProbeEnd(hash: Path -> nat, s: State, path: Path) returns (to: nat)
    requires IsHash(hash) && Inv(hash, s) && path != ROOT && !Probed(hash, s.forward, path, INO_ROOT)
    ensures to != INO_ROOT && OnTrack(hash, path, to) && Probed(hash, s.forward, path, to)
    ensures to !in s.forward || s.forward[to] == path
  {
    if i :| i in s.forward && s.forward[i] == path {
      assert BindingOk(hash, s, i);
      to := i;
    } else {
      to := FirstRoom(hash, s, path);
    }
  }

  /** A thread that probes goes on to publish and return by steps of its own. */
  lemma ProbeReturns(hash: Path -> nat, paths: set<Path>, s: State, t: nat) returns (r: State)
    requires IsHash(hash) && Reached(hash, paths, s) && Inv(hash, s) && At(s, t).Probing?
    requires !Probed(hash, s.forward, At(s, t).path, INO_ROOT)
    ensures Reached(hash, paths, r) && At(r, t).Returned? && At(r, t).path == At(s, t).path
    ensures forall u :: u != t ==> At(r, u) == At(s, u)
  {
    var Probing(path, ino) := At(s, t);
    assert ThreadOk(hash, s, s.threads[t]);
    var to := ProbeEnd(hash, s, path);
    assert Distance(Start(hash, path), ino) <= Distance(Start(hash, path), to);
    hide Reached, Probed, Inv;
    r := Walk(hash, paths, s, t, path, ino, to);
    r := Step(hash, paths, r, Probe(t));
    r := Step(hash, paths, r, Publish(t));
  }

  /**
    No call waits for another thread: from any reachable state without a jump, a
    call whose probe is not taken up to the root's slot returns by steps of its
    own thread alone.
   */
  lemma CallReturns(hash: Path -> nat, paths: set<Path>, s: State, t: nat) returns (r: State)
    requires IsHash(hash) && Reached(hash, paths, s) && Inv(hash, s)
    requires At(s, t).Asked? || At(s, t).Probing? || At(s, t).Publishing?
    requires !Probed(hash, s.forward, At(s, t).path, INO_ROOT)
    ensures Reached(hash, paths, r) && At(r, t).Returned? && At(r, t).path == At(s, t).path
    ensures forall u :: u != t ==> At(r, u) == At(s, u)
  {
    hide Reached, Probed, Inv;
    match At(s, t)
    case Asked(path) =>
      r := Step(hash, paths, s, Check(t));
      if At(r, t).Probing? {
        assert r == Move(s, t, At(r, t));
        r := ProbeReturns(hash, paths, r, t);
      }
    case Probing(_, _) => r := ProbeReturns(hash, paths, s, t);
    case Publishing(_, _) => r := Step(hash, paths, s, Publish(t));
  }

  /** Thread 0 alone has called, one call after the other, and bound paths from slot `x` on. */
  ghost predicate Filling(hash: Path -> nat, paths: set<Path>, s: State, x: nat) {
    && x < U64
    && Reached(hash, paths, s) && Inv(hash, s) && s.bump == 0
    && s.threads.Keys <= {0} && (At(s, 0).Idle? || At(s, 0).Returned?)
    && forall i :: i in s.forward ==> i <= INO_ROOT || x <= i < U64
  }

  ghost predicate Unbound(s: State, path: Path) {
    path !in s.reverse && forall i :: i in s.forward ==> s.forward[i] != path
  }

  /** Thread 0 calls for an unbound path and walks to a slot on its probe. */
  lemma CallAndWalk(hash: Path -> nat, paths: set<Path>, s: State, path: Path, ino: nat) returns (r: State)
    requires IsHash(hash) && Reached(hash, paths, s) && Inv(hash, s) && path in paths && path != ROOT
    requires (At(s, 0).Idle? || At(s, 0).Returned?) && path !in s.reverse
    requires OnTrack(hash, path, ino) && Probed(hash, s.forward, path, ino)
    ensures Reached(hash, paths, r) && Inv(hash, r) && r == Move(s, 0, Probing(path, ino))
  {
    hide Reached, Probed, Inv;
    r := Step(hash, paths, s, Call(0, path));
    r := Step(hash, paths, r, Check(0));
    assert r == Move(Move(s, 0, Asked(path)), 0, Probing(path, Start(hash, path)));
    r := Walk(hash, paths, r, 0, path, Start(hash, path), ino);
    MoveInv(hash, s, 0, Probing(path, ino));
    assert r.threads == s.threads[0 := Probing(path, ino)];
  }

  /** Thread 0 binds its path in a free slot and returns. */
  lemma BindHere(hash: Path -> nat, paths: set<Path>, s: State, path: Path, ino: nat) returns (r: State)
    requires IsHash(hash) && Reached(hash, paths, s) && Inv(hash, s)
    requires At(s, 0) == Probing(path, ino) && ino !in s.forward && ino != INO_ROOT
    ensures Reached(hash, paths, r) && Inv(hash, r)
    ensures r.forward == s.forward[ino := path] && r.reverse == s.reverse[path := ino] && r.bump == s.bump
    ensures r.threads == s.threads[0 := Returned(path, ino)]
  {
    hide Reached, Inv;
    r := Step(hash, paths, s, Probe(0));
    assert r == Move(s.(forward := s.forward[ino := path]), 0, Publishing(path, ino));
    r := Step(hash, paths, r, Publish(0));
  }

  lemma UnboundElsewhere(s: State, r: State, path: Path, ino: nat)
    requires r.forward == s.forward[ino := path] && r.reverse == s.reverse[path := ino]
    ensures forall q :: q != path && Unbound(s, q) ==> Unbound(r, q)
  {
  }

  lemma KeepsFilling(hash: Path -> nat, paths: set<Path>, s: State, r: State, x: nat, path: Path, ino: nat)
    requires Filling(hash, paths, s, x) && Reached(hash, paths, r) && Inv(hash, r)
    requires r.forward == s.forward[ino := path] && r.bump == s.bump
    requires r.threads == s.threads[0 := Returned(path, ino)]
    requires ino !in s.forward && (ino <= INO_ROOT || x <= ino < U64)
    ensures Filling(hash, paths, r, x) && |r.forward| == |s.forward| + 1
  {
    hide Reached, Inv;
  }

  /** One more path is bound, where its probe first finds room. */
  lemma FillOne(hash: Path -> nat, paths: set<Path>, s: State, x: nat, path: Path) returns (r: State)
    requires IsHash(hash) && 100 <= x < U64 && Filling(hash, paths, s, x)
    requires path in FromSlot(hash, paths, x) && Unbound(s, path) && !Probed(hash, s.forward, path, INO_ROOT)
    ensures Filling(hash, paths, r, x) && |r.forward| == |s.forward| + 1
    ensures forall q :: q != path && Unbound(s, q) ==> Unbound(r, q)
  {
    hide Reached, Probed, Inv;
    var ino := FirstRoom(hash, s, path);
    var walked := CallAndWalk(hash, paths, s, path, ino);
    r := BindHere(hash, paths, walked, path, ino);
    assert r.threads == s.threads[0 := Returned(path, ino)];
    hide Filling, Unbound;
    KeepsFilling(hash, paths, s, r, x, path, ino);
    UnboundElsewhere(s, r, path, ino);
  }

  /** Binding the crowd one after the other brings one of them to where it would jump. */
  lemma {:induction false} Fill(hash: Path -> nat, paths: set<Path>, s: State, x: nat, crowd: set<Path>)
    returns (r: State, path: Path)
    requires IsHash(hash) && 100 <= x < U64 && Filling(hash, paths, s, x)
    requires crowd <= FromSlot(hash, paths, x) && forall p :: p in crowd ==> Unbound(s, p)
    requires |crowd| + |s.forward| >= U64 - x + 3
    ensures Filling(hash, paths, r, x)
    ensures path in paths && path != ROOT && Unbound(r, path) && Probed(hash, r.forward, path, INO_ROOT)
    decreases |crowd|
  {
    hide Reached, Probed, Inv;
    SubsetSize(s.forward.Keys, Range(x, U64) + {0, INO_ROOT});
    path :| path in crowd;
    if Probed(hash, s.forward, path, INO_ROOT) {
      r := s;
    } else {
      var next := FillOne(hash, paths, s, x, path);
      r, path := Fill(hash, paths, next, x, crowd - {path});
    }
  }

  /** A thread at the start of a fully taken probe walks to the root's slot and jumps by the counter's value. */
  lemma WalkAndJump(hash: Path -> nat, paths: set<Path>, s: State, t: nat, path: Path) returns (r: State)
    requires IsHash(hash) && Reached(hash, paths, s) && At(s, t) == Probing(path, Start(hash, path))
    requires Probed(hash, s.forward, path, INO_ROOT) && s.bump <= 1
    ensures Reached(hash, paths, r)
    ensures r == Move(s.(bump := s.bump + 1), t, Probing(path, s.bump + 2))
  {
    hide Reached, Probed;
    r := Walk(hash, paths, s, t, path, Start(hash, path), INO_ROOT);
    r := Step(hash, paths, r, Bump(t));
    assert r.threads == s.threads[t := Probing(path, s.bump + 2)];
  }

  /** Both threads that jumped to free slots bind the path there and return. */
  lemma BothBind(hash: Path -> nat, paths: set<Path>, s: State, path: Path) returns (r: State)
    requires Reached(hash, paths, s) && At(s, 1) == Probing(path, 2) && At(s, 2) == Probing(path, 3)
    requires 2 !in s.forward && 3 !in s.forward
    ensures Reached(hash, paths, r) && Bound(r, path, 2) && Bound(r, path, 3)
    ensures At(r, 1) == Returned(path, 2) && At(r, 2) == Returned(path, 3)
  {
    hide Reached, Inv;
    r := Step(hash, paths, s, Probe(1));
    r := Step(hash, paths, r, Probe(2));
    r := Step(hash, paths, r, Publish(1));
    r := Step(hash, paths, r, Publish(2));
  }

  /**
    Two threads racing for a path whose probe is taken up to the root's slot read
    different values of the bump counter, jump to different slots, bind the path
    twice, and return different inodes.
   */
  lemma RaceBindsTwice(hash: Path -> nat, paths: set<Path>, s: State, x: nat, path: Path) returns (r: State)
    requires IsHash(hash) && 100 <= x < U64 && Filling(hash, paths, s, x)
    requires path in paths && Unbound(s, path) && Probed(hash, s.forward, path, INO_ROOT)
    ensures Reached(hash, paths, r) && Bound(r, path, 2) && Bound(r, path, 3)
    ensures At(r, 1) == Returned(path, 2) && At(r, 2) == Returned(path, 3)
  {
    hide Reached, Probed, Inv;
    var s1 := Step(hash, paths, s, Call(1, path));
    var s2 := Step(hash, paths, s1, Call(2, path));
    var s3 := Step(hash, paths, s2, Check(1));
    var s4 := Step(hash, paths, s3, Check(2));
    var s5 := WalkAndJump(hash, paths, s4, 1, path);
    var s6 := WalkAndJump(hash, paths, s5, 2, path);
    r := BothBind(hash, paths, s6, path);
  }

  lemma NewTableFills(hash: Path -> nat, paths: set<Path>, x: nat)
    requires IsHash(hash) && 100 <= x < U64
    ensures Filling(hash, paths, NEW_TABLE, x)
    ensures forall p :: p != ROOT ==> Unbound(NEW_TABLE, p)
    ensures |NEW_TABLE.forward| == 1
  {
    assert CallsOnly([], paths) && Run(hash, []) == Some(NEW_TABLE);
    RunInv(hash, []);
    assert NEW_TABLE.forward.Keys == {INO_ROOT};
  }

  lemma CrowdedBindsTwice(hash: Path -> nat, paths: set<Path>)
    requires IsHash(hash) && Crowded(hash, paths)
    ensures CanBindTwice(hash, paths)
  {
    var x: nat :| 100 <= x < U64 && |FromSlot(hash, paths, x)| >= U64 - x + 2;
    NewTableFills(hash, paths, x);
    var s, path := Fill(hash, paths, NEW_TABLE, x, FromSlot(hash, paths, x));
    var r := RaceBindsTwice(hash, paths, s, x, path);
    assert BindsTwice(r);
    var schedule :| CallsOnly(schedule, paths) && Run(hash, schedule) == Some(r);
  }

  /**
    The exact condition. For every hash and every finite set of paths: some
    schedule of calls for them binds a path to two inodes if and only if more of
    them start their probe at some slot or above than the slots from there to the
    top, and slot 0, can take. The same condition decides whether any probe of
    such a schedule can run into the root's slot.
   */
  lemma {:induction false} UniqueUnlessCrowded(hash: Path -> nat, paths: set<Path>)
    requires IsHash(hash)
    ensures CanBindTwice(hash, paths) <==> Crowded(hash, paths)
    ensures CanBump(hash, paths) <==> Crowded(hash, paths)
  {
    if CanBump(hash, paths) {
      var schedule :| CallsOnly(schedule, paths) && Run(hash, schedule).Some? && !NeverBumps(schedule);
      BumpMeansCrowded(hash, schedule, paths);
    }
    if CanBindTwice(hash, paths) {
      var schedule :| CallsOnly(schedule, paths) && Run(hash, schedule).Some? && BindsTwice(Run(hash, schedule).value);
      TwiceMeansBump(hash, schedule);
      BumpMeansCrowded(hash, schedule, paths);
    }
    if Crowded(hash, paths) {
      CrowdedBindsTwice(hash, paths);
      var schedule :| CallsOnly(schedule, paths) && Run(hash, schedule).Some? && BindsTwice(Run(hash, schedule).value);
      TwiceMeansBump(hash, schedule);
    }
  }

  lemma TwiceMeansBump(hash: Path -> nat, schedule: seq<Action>)
    requires IsHash(hash) && Run(hash, schedule).Some? && BindsTwice(Run(hash, schedule).value)
    ensures !NeverBumps(schedule)
  {
    var s := Run(hash, schedule).value;
    var i, j :| i in s.forward && j in s.forward && i != j && s.forward[i] == s.forward[j];
    if NeverBumps(schedule) {
      InodesAreUnique(hash, schedule, i, j);
    }
  }

  /**
    Enough room beforehand, however long the schedule and however many calls: if
    every path starts at least as far below the top as there are paths, nothing
    bumps, so everything proved for schedules that never bump holds.
   */
  lemma RoomMeansNoBump(hash: Path -> nat, schedule: seq<Action>, paths: set<Path>)
    requires IsHash(hash) && CallsOnly(schedule, paths) && Run(hash, schedule).Some?
    requires forall p :: p in paths && p != [] ==>
               hash(p) + |paths| <= 0x1_0000_0000_0000_0001 && 100 + |paths| <= 0x1_0000_0000_0000_0001
    ensures NeverBumps(schedule) && !BindsTwice(Run(hash, schedule).value)
  {
    forall x: nat | 100 <= x < U64 ensures |FromSlot(hash, paths, x)| < U64 - x + 2 {
      var crowd := FromSlot(hash, paths, x);
      assert paths == crowd + (paths - crowd);
      if crowd != {} {
        var p :| p in crowd;
      }
    }
    if !NeverBumps(schedule) {
      BumpMeansCrowded(hash, schedule, paths);
    }
    if BindsTwice(Run(hash, schedule).value) {
      TwiceMeansBump(hash, schedule);
    }
  }
}
