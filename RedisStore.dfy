/**
 * The part of Redis the accessor relies on: a keyspace of hashes, the
 * commands EXISTS, HMSET, HGETALL, DEL and KEYS, and the Redlock lease
 * (created with retryCount 0, so one attempt per acquisition).
 */
module RedisStore {
  import opened Wrappers

  /** A Redis hash: field name to string value. */
  type Hash = map<string, string>

  /** A held lease on a resource, with the time-to-live it was taken with. */
  datatype Lock = Lock(resource: string, ttl: nat)

  /** Redis drops a hash whose last field is gone, so no key holds an empty hash. */
  predicate NoEmptyHashes(store: map<string, Hash>) {
    forall k :: k in store ==> store[k] != map[]
  }

  /** The hash at key after HMSET key fields: the listed fields set, all others kept. */
  function MergeFields(store: map<string, Hash>, key: string, fields: Hash): (h: Hash)
    ensures h.Keys == fields.Keys + (if key in store then store[key].Keys else {})
    ensures forall f :: f in fields ==> h[f] == fields[f]
    ensures forall f :: f in h && f !in fields ==> key in store && h[f] == store[key][f]
  {
    (if key in store then store[key] else map[]) + fields
  }

  /** The HGETALL reply: the hash, or an empty one for a missing key. */
  function HashAt(store: map<string, Hash>, key: string): Hash {
    if key in store then store[key] else map[]
  }

  /** The keys of `DEL key [extra]`: the first key, and the second one when the client sends it. */
  function DelKeys(key: string, extra: Option<string>): set<string> {
    match extra
    case Some(k) => {key, k}
    case None => {key}
  }

  /**
   * DEL's reply: the number of distinct named keys that were present, so
   * naming one key twice counts it once.
   */
  function DelCount(store: map<string, Hash>, key: string, extra: Option<string>): (n: nat)
    ensures n == |DelKeys(key, extra) * store.Keys|
    ensures n <= 2
  {
    PresentOne(store.Keys, key);
    match extra
    case None => if key in store then 1 else 0
    case Some(k) =>
      if k == key then
        assert DelKeys(key, extra) == {key};
        if key in store then 1 else 0
      else
        PresentTwo(store.Keys, key, k);
        (if key in store then 1 else 0) + (if k in store then 1 else 0)
  }

  /** A one-key set meets a key set in one element or none. */
  lemma PresentOne(keys: set<string>, key: string)
    ensures |{key} * keys| == if key in keys then 1 else 0
  {
    if key in keys {
      assert {key} * keys == {key};
    } else {
      assert {key} * keys == {};
    }
  }

  /** Two distinct keys meet a key set in as many elements as are in it. */
  lemma PresentTwo(keys: set<string>, a: string, b: string)
    requires a != b
    ensures |{a, b} * keys| == (if a in keys then 1 else 0) + (if b in keys then 1 else 0)
  {
    PresentOne(keys, a);
    PresentOne(keys, b);
    assert {a, b} * keys == ({a} * keys) + ({b} * keys);
    assert ({a} * keys) * ({b} * keys) == {};
  }

  /** HGETALL cannot tell a missing key from an empty hash, but Redis keeps no empty hash. */
  lemma EmptyReplyMeansMissing(store: map<string, Hash>, key: string)
    requires NoEmptyHashes(store)
    ensures HashAt(store, key) == map[] <==> key !in store
  {
  }

  class Redis {
    var store: map<string, Hash>
    var locks: set<string>

    ghost predicate Valid()
      reads this
    {
      NoEmptyHashes(store)
    }

    constructor ()
      ensures Valid() && store == map[] && locks == {}
    {
      store := map[];
      locks := {};
    }

    /** EXISTS key: the number of the given keys that exist. */
    method Exists(key: string) returns (n: nat)
      ensures n <= 1
      ensures n == 1 <==> key in store
    {
      n := if key in store then 1 else 0;
    }

    /** HMSET key fields; an empty field list is a Redis error (wrong number of arguments). */
    method HMSet(key: string, fields: Hash) returns (ok: bool)
      requires Valid()
      modifies this
      ensures Valid()
      ensures ok <==> fields != map[]
      ensures store == if ok then old(store)[key := MergeFields(old(store), key, fields)] else old(store)
      ensures locks == old(locks)
    {
      ok := fields != map[];
      if ok {
        store := store[key := MergeFields(store, key, fields)];
      }
    }

    /** HGETALL key. */
    method HGetAll(key: string) returns (h: Hash)
      requires Valid()
      ensures key in store ==> h == store[key] && h != map[]
      ensures key !in store ==> h == map[]
    {
      h := HashAt(store, key);
    }

    /** DEL key [extra]: removes the named keys and answers how many of them were present. */
    method Del(key: string, extra: Option<string>) returns (n: nat)
      requires Valid()
      modifies this
      ensures Valid()
      ensures n == |DelKeys(key, extra) * old(store).Keys|
      ensures store == old(store) - DelKeys(key, extra)
      ensures locks == old(locks)
    {
      n := DelCount(store, key, extra);
      store := store - DelKeys(key, extra);
    }

    /**
     * KEYS "<prefix>*": every key that starts with prefix, each once, in an
     * order Redis does not specify.
     */
    method Keys(prefix: string) returns (ks: seq<string>)
      ensures forall k :: k in ks <==> k in store && prefix <= k
      ensures forall i, j :: 0 <= i < j < |ks| ==> ks[i] != ks[j]
    {
      ks := [];
      var todo := store.Keys;
      while todo != {}
        invariant todo <= store.Keys
        invariant forall k :: k in ks <==> k in store && k !in todo && prefix <= k
        invariant forall i, j :: 0 <= i < j < |ks| ==> ks[i] != ks[j]
        decreases todo
      {
        var k :| k in todo;
        if prefix <= k {
          ks := ks + [k];
        }
        todo := todo - {k};
      }
    }

    /**
     * One Redlock acquisition attempt (no retries): it fails when the
     * resource is already held, and otherwise takes the lease.
     */
    method Acquire(resource: string, ttl: nat) returns (lock: Option<Lock>)
      modifies this
      ensures resource in old(locks) ==> lock == None && locks == old(locks)
      ensures resource !in old(locks) ==> lock == Some(Lock(resource, ttl)) && locks == old(locks) + {resource}
      ensures store == old(store)
    {
      if resource in locks {
        lock := None;
      } else {
        locks := locks + {resource};
        lock := Some(Lock(resource, ttl));
      }
    }

    /** Releasing a lease frees its resource. */
    method Release(lock: Lock)
      modifies this
      ensures locks == old(locks) - {lock.resource}
      ensures store == old(store)
    {
      locks := locks - {lock.resource};
    }
  }
}
