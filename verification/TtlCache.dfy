/** The TTL cache of metadata listings, for callers that come one at a time. */
module TtlCaches {
  import opened Common

  /** A cached value and the instant it was inserted. */
  datatype Entry<V> = Entry(value: V, at: nat)

  datatype Insertion<K, V> = Insertion(key: K, entry: Entry<V>)

  /** The latest insertion for a key. */
  function Latest<K(==), V>(log: seq<Insertion<K, V>>, key: K): Option<Entry<V>> {
    if log == [] then None
    else if log[|log| - 1].key == key then Some(log[|log| - 1].entry)
    else Latest(log[..|log| - 1], key)
  }

  /** What a cache that never forgets too early answers: the latest insertion, while it is young. */
  function Fresh<K(==), V>(log: seq<Insertion<K, V>>, key: K, ttl: nat, now: nat): Option<V> {
    match Latest(log, key)
    case Some(e) => if now - e.at <= ttl then Some(e.value) else None
    case None => None
  }

  class TtlCache<K(==, !new), V> {
    const ttl: nat
    var entries: map<K, Entry<V>>
    /** Every insertion so far, and the latest instant the clock has shown. */
    ghost var log: seq<Insertion<K, V>>
    ghost var clock: nat

    ghost predicate Valid()
      reads this
    {
      && (forall i :: 0 <= i < |log| ==> log[i].entry.at <= clock)
      && (forall k :: k in entries ==> Latest(log, k) == Some(entries[k]))
      && (forall k :: k !in entries && Latest(log, k).Some? ==> Latest(log, k).value.at + ttl < clock)
    }

    constructor (ttl: nat)
      ensures Valid() && this.ttl == ttl && log == [] && clock == 0
    {
      this.ttl := ttl;
      entries := map[];
      log := [];
      clock := 0;
    }

    /** A hit exactly when the latest insertion is within the TTL; an expired entry is dropped. */
    method Get(key: K, now: nat) returns (found: Option<V>)
      requires Valid() && clock <= now
      modifies this
      ensures Valid() && log == old(log) && clock == now
      ensures found == Fresh(log, key, ttl, now)
      ensures entries == if found.Some? then old(entries) else old(entries) - {key}
    {
      clock := now;
      if key !in entries {
        return None;
      }
      var e := entries[key];
      if now - e.at <= ttl {
        found := Some(e.value);
      } else {
        entries := entries - {key};
        found := None;
      }
    }

    method Insert(key: K, value: V, now: nat)
      requires Valid() && clock <= now
      modifies this
      ensures Valid() && clock == now
      ensures log == old(log) + [Insertion(key, Entry(value, now))]
      ensures entries == old(entries)[key := Entry(value, now)]
    {
      clock := now;
      entries := entries[key := Entry(value, now)];
      log := log + [Insertion(key, Entry(value, now))];
      assert log[..|log| - 1] == old(log);
    }
  }
}
