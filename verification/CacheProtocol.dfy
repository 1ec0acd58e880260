/**
  The TTL cache under any interleaving of threads: a `get` reads an entry in one
  step and, when it saw an expired one, removes the key in a later step; an
  `insert` takes its timestamp in one step and stores in a later one.
 */
module CacheProtocol {
  import opened Common
  import opened TtlCaches

  datatype Thread<K, V> = Idle | Storing(key: K, entry: Entry<V>) | Removing(key: K, seen: nat)

  /** What has happened to a key: a value stored, or a removal by a reader that saw an entry stamped `seen`. */
  datatype Change<K, V> = Stored(key: K, entry: Entry<V>) | Removed(key: K, seen: nat)

  datatype State<K, V> = State(
    now: nat,
    entries: map<K, Entry<V>>,
    threads: map<nat, Thread<K, V>>,
    changes: seq<Change<K, V>>)

  datatype Action<K, V> =
    | Tick(span: nat)
    | Stamp(t: nat, key: K, value: V)
    | Store(t: nat)
    | Read(t: nat, key: K)
    | Remove(t: nat)

  function At<K, V>(s: State<K, V>, t: nat): Thread<K, V> {
    if t in s.threads then s.threads[t] else Idle
  }

  predicate Enabled<K(==), V>(s: State<K, V>, a: Action<K, V>) {
    match a
    case Tick(_) => true
    case Stamp(t, _, _) => At(s, t).Idle?
    case Store(t) => At(s, t).Storing?
    case Read(t, _) => At(s, t).Idle?
    case Remove(t) => At(s, t).Removing?
  }

  /** What a read of `key` in this state returns. */
  function Found<K(==), V>(ttl: nat, s: State<K, V>, key: K): Option<V> {
    if key in s.entries && s.now - s.entries[key].at <= ttl then Some(s.entries[key].value) else None
  }

  function Apply<K(==), V>(ttl: nat, s: State<K, V>, a: Action<K, V>): State<K, V>
    requires Enabled(s, a)
  {
    match a
    case Tick(span) => s.(now := s.now + span)
    case Stamp(t, key, value) => s.(threads := s.threads[t := Storing(key, Entry(value, s.now))])
    case Store(t) =>
      var Storing(key, entry) := At(s, t);
      s.(entries := s.entries[key := entry],
         threads := s.threads[t := Idle],
         changes := s.changes + [Stored(key, entry)])
    case Read(t, key) =>
      if key in s.entries && Found(ttl, s, key).None? then
        s.(threads := s.threads[t := Removing(key, s.entries[key].at)])
      else s
    case Remove(t) =>
      var Removing(key, seen) := At(s, t);
      s.(entries := s.entries - {key},
         threads := s.threads[t := Idle],
         changes := s.changes + [Removed(key, seen)])
  }

  function Start<K, V>(now: nat): State<K, V> {
    State(now, map[], map[], [])
  }

  function Run<K(==), V>(ttl: nat, now: nat, schedule: seq<Action<K, V>>): Option<State<K, V>> {
    if schedule == [] then Some(Start(now))
    else
      match Run(ttl, now, schedule[..|schedule| - 1])
      case None => None
      case Some(s) =>
        var a := schedule[|schedule| - 1];
        if Enabled(s, a) then Some(Apply(ttl, s, a)) else None
  }

  /** The latest change to a key. */
  function LastChange<K(==), V>(changes: seq<Change<K, V>>, key: K): Option<Change<K, V>> {
    if changes == [] then None
    else if changes[|changes| - 1].key == key then Some(changes[|changes| - 1])
    else LastChange(changes[..|changes| - 1], key)
  }

  /** The latest value stored under a key, removed since or not. */
  function LastStored<K(==), V>(changes: seq<Change<K, V>>, key: K): Option<Entry<V>> {
    if changes == [] then None
    else
      var c := changes[|changes| - 1];
      if c.Stored? && c.key == key then Some(c.entry) else LastStored(changes[..|changes| - 1], key)
  }

  ghost predicate Inv<K(!new), V>(ttl: nat, s: State<K, V>) {
    && (forall k :: k in s.entries ==> LastChange(s.changes, k) == Some(Stored(k, s.entries[k])))
    && (forall k :: k !in s.entries ==>
          var c := LastChange(s.changes, k); c.None? || c.value.Removed?)
    && (forall k :: k in s.entries ==> s.entries[k].at <= s.now)
    && (forall i :: 0 <= i < |s.changes| && s.changes[i].Removed? ==> s.changes[i].seen + ttl < s.now)
    && (forall t :: t in s.threads && s.threads[t].Storing? ==> s.threads[t].entry.at <= s.now)
    && (forall t :: t in s.threads && s.threads[t].Removing? ==> s.threads[t].seen + ttl < s.now)
  }

  lemma InvStep<K(!new), V>(ttl: nat, s: State<K, V>, a: Action<K, V>)
    requires Inv(ttl, s) && Enabled(s, a)
    ensures Inv(ttl, Apply(ttl, s, a))
  {
    var t := Apply(ttl, s, a);
    if |t.changes| != |s.changes| {
      assert t.changes[..|t.changes| - 1] == s.changes;
    }
  }

  lemma {:induction false} RunInv<K(!new), V>(ttl: nat, now: nat, schedule: seq<Action<K, V>>)
    requires Run(ttl, now, schedule).Some?
    ensures Inv(ttl, Run(ttl, now, schedule).value)
  {
    if schedule != [] {
      var before := schedule[..|schedule| - 1];
      RunInv(ttl, now, before);
      InvStep(ttl, Run(ttl, now, before).value, schedule[|schedule| - 1]);
    }
  }

  lemma {:induction false} LastChangeStored<K, V>(changes: seq<Change<K, V>>, key: K)
    ensures
      var c := LastChange(changes, key);
      && (c.Some? && c.value.Stored? ==> LastStored(changes, key) == Some(c.value.entry))
      && (c.Some? && c.value.Removed? ==> c.value in changes)
      && (c.None? ==> LastStored(changes, key).None?)
      && (c.Some? ==> c.value.key == key)
  {
    if changes != [] && changes[|changes| - 1].key != key {
      LastChangeStored(changes[..|changes| - 1], key);
    }
  }

  /**
    In every interleaving: a hit is the latest value stored under the key, no
    older than the TTL when it is read; and a miss means that nothing was ever
    stored, or that the latest value is older than the TTL, or that the key was
    removed after it by a reader who had seen an expired entry.
   */
  lemma ReadsAreHonest<K(!new), V>(ttl: nat, now: nat, schedule: seq<Action<K, V>>, key: K)
    requires Run(ttl, now, schedule).Some?
    ensures
      var s := Run(ttl, now, schedule).value;
      var stored, last := LastStored(s.changes, key), LastChange(s.changes, key);
      match Found(ttl, s, key)
      case Some(v) => stored.Some? && stored.value.value == v && stored.value.at <= s.now <= stored.value.at + ttl
      case None =>
        || stored.None?
        || s.now > stored.value.at + ttl
        || (last.Some? && last.value.Removed? && last.value.seen + ttl < s.now)
  {
    RunInv(ttl, now, schedule);
    var s := Run(ttl, now, schedule).value;
    LastChangeStored(s.changes, key);
    if key !in s.entries && LastChange(s.changes, key).Some? {
      var c := LastChange(s.changes, key).value;
      var i :| 0 <= i < |s.changes| && s.changes[i] == c;
    }
  }

  /** Exactly when a read hits: the latest change to its key stored a value still within the TTL. */
  lemma HitCondition<K(!new), V>(ttl: nat, now: nat, schedule: seq<Action<K, V>>, key: K)
    requires Run(ttl, now, schedule).Some?
    ensures
      var s := Run(ttl, now, schedule).value;
      var last := LastChange(s.changes, key);
      Found(ttl, s, key).Some? <==> last.Some? && last.value.Stored? && s.now <= last.value.entry.at + ttl
  {
    RunInv(ttl, now, schedule);
  }

  ghost predicate Reachable<K(!new), V(!new)>(ttl: nat, s: State<K, V>) {
    exists now, schedule :: Run(ttl, now, schedule) == Some(s)
  }

  lemma Step<K(!new), V(!new)>(ttl: nat, s: State<K, V>, a: Action<K, V>) returns (t: State<K, V>)
    requires Reachable(ttl, s) && Enabled(s, a)
    ensures t == Apply(ttl, s, a) && Reachable(ttl, t)
  {
    var now, schedule :| Run(ttl, now, schedule) == Some(s);
    t := Apply(ttl, s, a);
    assert (schedule + [a])[..|schedule|] == schedule;
    assert Run(ttl, now, schedule + [a]) == Some(t);
  }

  /** The extra miss does happen: a reader of an expired entry can remove a fresh one stored in between. */
  lemma RefreshCanBeRemoved<K(!new), V(!new)>(ttl: nat, key: K, v: V) returns (s: State<K, V>)
    ensures Reachable(ttl, s)
    ensures LastStored(s.changes, key) == Some(Entry(v, s.now)) && Found(ttl, s, key).None?
  {
    s := Start(0);
    assert Reachable(ttl, s) by {
      assert Run(ttl, 0, []) == Some(s);
    }
    hide Run, Reachable;
    s := Step(ttl, s, Stamp(0, key, v));
    s := Step(ttl, s, Store(0));
    s := Step(ttl, s, Tick(ttl + 1));
    s := Step(ttl, s, Read(1, key));
    s := Step(ttl, s, Stamp(0, key, v));
    s := Step(ttl, s, Store(0));
    var stored := s.changes;
    s := Step(ttl, s, Remove(1));
    assert s.changes[..|stored|] == stored;
  }
}
