/**
 * IORedisAccessor: the per-model accessor of lib/ioredis.js. Its create,
 * upsert, delete and read operations over the shared Redis keyspace are
 * specified by the pure functions below (Post, Put, Destroy, FindOutcome,
 * Gather), and the class Accessor implements them as commands on a Redis.
 */
module IORedis {
  import opened Wrappers
  import opened Codec
  import opened Keyspace
  import opened RedisStore

  const Conflict: nat := 409
  const NotFound: nat := 404
  /** The lock lease used when lockById gets no ttl (or a zero one, since `ttl || 1000`). */
  const DefaultLockTtl: nat := 1000

  /** An operation's eventual result: a value, an HTTP error, or a Redis command error. */
  datatype Reply<T> = Ok(value: T) | HttpError(status: nat) | CommandError

  /** One [id, data] pair of findAll. */
  type Entry = (string, Hash)

  /** The lease time lockById passes to Redlock: `ttl || 1000`. */
  function LockTtl(ttl: Option<nat>): (r: nat)
    ensures r > 0
    ensures ttl.Some? && ttl.value > 0 ==> r == ttl.value
    ensures ttl.None? || ttl == Some(0) ==> r == DefaultLockTtl
  {
    match ttl
    case Some(t) => if t != 0 then t else DefaultLockTtl
    case None => DefaultLockTtl
  }

  // ---------------------------------------------------------------------------
  // What each operation does to the keyspace, as functions of the state before it.
  // Each returns the operation's reply and the new store; the lock set is the
  // same after every operation, since postWithId releases what it takes.

  /** postWithId: refuse a present key, refuse a held lock, else write the fields. */
  function Post(store: map<string, Hash>, locks: set<string>, model: string, id: string, fields: Hash)
    : (r: (Reply<string>, map<string, Hash>))
    ensures r.0 == Ok(id) || r.0 == HttpError(Conflict)
    ensures r.0 == Ok(id) ==> RecordKey(model, id) !in store && RecordKey(model, id) in r.1
    ensures r.0 != Ok(id) ==> r.1 == store
  {
    var key := RecordKey(model, id);
    if key in store then (HttpError(Conflict), store)
    else if LockResource(model, id) in locks then (HttpError(Conflict), store)
    else if fields == map[] then (HttpError(Conflict), store)  // the HMSET error, caught and turned into 409
    else (Ok(id), store[key := fields])
  }

  /** putWithId: HMSET without any check, so a merge into whatever is there. */
  function Put(store: map<string, Hash>, model: string, id: string, fields: Hash)
    : (r: (Reply<string>, map<string, Hash>))
    ensures r.0 == (if fields == map[] then CommandError else Ok(id))
    ensures r.0.Ok? ==> RecordKey(model, id) in r.1
    ensures !r.0.Ok? ==> r.1 == store
  {
    var key := RecordKey(model, id);
    if fields == map[] then (CommandError, store)
    else (Ok(id), store[key := MergeFields(store, key, fields)])
  }

  /**
   * destroyById: DEL of the record key and of options, which the code passes
   * to DEL as a second key; options is the key the client sends for it, or
   * None when it sends none. The reply is the number of keys removed.
   */
  function Destroy(store: map<string, Hash>, model: string, id: string, options: Option<string>)
    : (r: (nat, map<string, Hash>))
    ensures RecordKey(model, id) !in r.1
    ensures r.1.Keys == store.Keys - DelKeys(RecordKey(model, id), options)
    ensures forall k :: k in r.1 ==> r.1[k] == store[k]
    ensures r.0 == |store.Keys - r.1.Keys|
  {
    var key := RecordKey(model, id);
    var rest := store - DelKeys(key, options);
    assert store.Keys - rest.Keys == DelKeys(key, options) * store.Keys;
    (DelCount(store, key, options), rest)
  }

  /** destroyById as evidently intended: DEL of the record key alone. */
  function DestroyRecord(store: map<string, Hash>, model: string, id: string): (r: (nat, map<string, Hash>))
    ensures r.1.Keys == store.Keys - {RecordKey(model, id)}
    ensures forall k :: k in r.1 ==> r.1[k] == store[k]
    ensures r.0 == |store.Keys - r.1.Keys| && r.0 <= 1
    ensures r.0 == 1 <==> RecordKey(model, id) in store
  {
    var key := RecordKey(model, id);
    PresentOne(store.Keys, key);
    assert store.Keys - (store - {key}).Keys == {key} * store.Keys;
    (if key in store then 1 else 0, store - {key})
  }

  /** findById: 404 for a missing key, else the stored hash. */
  function FindOutcome(store: map<string, Hash>, model: string, id: string): (r: Reply<Hash>)
    ensures r.Ok? || r == HttpError(NotFound)
  {
    var key := RecordKey(model, id);
    if key in store then Ok(store[key]) else HttpError(NotFound)
  }

  /**
   * The map/filter of findAll over the scanned keys: each key's id is
   * key.split(':')[1], looked up with findById; failed lookups are dropped.
   */
  function Gather(model: string, keys: seq<string>, store: map<string, Hash>): (r: seq<Entry>)
    requires forall k :: k in keys ==> ':' in k
    ensures |r| <= |keys|
    ensures forall e :: e in r ==> FindOutcome(store, model, e.0) == Ok(e.1)
    ensures forall k :: k in keys && RecordKey(model, IdOfKey(k)) in store ==>
              (IdOfKey(k), store[RecordKey(model, IdOfKey(k))]) in r
    ensures forall e :: e in r ==> e.0 in IdsOf(keys)
    decreases |keys|
  {
    if keys == [] then []
    else
      var id := IdOfKey(keys[0]);
      assert forall k :: k in keys ==> k == keys[0] || k in keys[1..];
      var rest := Gather(model, keys[1..], store);
      assert IdsOf(keys) == [id] + IdsOf(keys[1..]);
      match FindOutcome(store, model, id)
      case Ok(h) => [(id, h)] + rest
      case _ => rest
  }

  /** The ids findAll reads out of the keys, in order. */
  function IdsOf(keys: seq<string>): (ids: seq<string>)
    requires forall k :: k in keys ==> ':' in k
    ensures |ids| == |keys|
  {
    if keys == [] then [] else [IdOfKey(keys[0])] + IdsOf(keys[1..])
  }

  predicate Distinct<T(==)>(s: seq<T>) {
    forall i, j :: 0 <= i < j < |s| ==> s[i] != s[j]
  }

  /** When the keys yield distinct ids, findAll yields each id at most once. */
  lemma {:induction false} GatherDistinct(model: string, keys: seq<string>, store: map<string, Hash>)
    requires forall k :: k in keys ==> ':' in k
    requires Distinct(IdsOf(keys))
    ensures forall i, j :: 0 <= i < j < |Gather(model, keys, store)| ==>
              Gather(model, keys, store)[i].0 != Gather(model, keys, store)[j].0
  {
    if keys != [] {
      var ids := IdsOf(keys);
      assert ids == [IdOfKey(keys[0])] + IdsOf(keys[1..]);
      assert forall k :: k in keys[1..] ==> k in keys;
      assert Distinct(IdsOf(keys[1..])) by {
        forall i, j | 0 <= i < j < |IdsOf(keys[1..])| ensures IdsOf(keys[1..])[i] != IdsOf(keys[1..])[j] {
          assert IdsOf(keys[1..])[i] == ids[i + 1] && IdsOf(keys[1..])[j] == ids[j + 1];
        }
      }
      GatherDistinct(model, keys[1..], store);
      var rest := Gather(model, keys[1..], store);
      assert IdOfKey(keys[0]) !in IdsOf(keys[1..]) by {
        assert ids[0] == IdOfKey(keys[0]);
        forall j | 0 <= j < |IdsOf(keys[1..])| ensures IdsOf(keys[1..])[j] != IdOfKey(keys[0]) {
          assert IdsOf(keys[1..])[j] == ids[j + 1];
        }
      }
    }
  }

  /** Every record of model is stored under an id without ':'. */
  predicate ColonFreeIds(store: map<string, Hash>, model: string) {
    forall k :: k in store && ModelPrefix(model) <= k ==> ':' !in k[|model| + 1..]
  }

  /** The id as the text after "<model>:", which is what the record was stored under. */
  function IdAfterPrefix(model: string, key: string): (id: string)
    requires ModelPrefix(model) <= key
    ensures RecordKey(model, id) == key
  {
    key[|model| + 1..]
  }

  /** Gather with the id read as the whole text after the model prefix. */
  function GatherFixed(model: string, keys: seq<string>, store: map<string, Hash>): (r: seq<Entry>)
    requires forall k :: k in keys ==> ModelPrefix(model) <= k
    ensures |r| <= |keys|
    ensures forall e :: e in r ==> FindOutcome(store, model, e.0) == Ok(e.1)
    ensures forall k :: k in keys && k in store ==> (IdAfterPrefix(model, k), store[k]) in r
    decreases |keys|
  {
    if keys == [] then []
    else
      assert forall k :: k in keys ==> k == keys[0] || k in keys[1..];
      assert keys[0] in keys && forall k :: k in keys[1..] ==> k in keys;
      var id := IdAfterPrefix(model, keys[0]);
      var rest := GatherFixed(model, keys[1..], store);
      match FindOutcome(store, model, id)
      case Ok(h) => [(id, h)] + rest
      case _ => rest
  }

  // ---------------------------------------------------------------------------
  // Properties of the operations.

  /**
   * A create succeeds exactly when the key is absent, its lock is free and
   * there is something to write; then the record holds exactly the fields.
   * Every refusal is a 409 that leaves the store as it was.
   */
  lemma PostSucceedsIff(store: map<string, Hash>, locks: set<string>, model: string, id: string, fields: Hash)
    ensures Post(store, locks, model, id, fields).0 == Ok(id) <==>
              RecordKey(model, id) !in store && LockResource(model, id) !in locks && fields != map[]
    ensures Post(store, locks, model, id, fields).0 != Ok(id) ==>
              Post(store, locks, model, id, fields) == (HttpError(Conflict), store)
    ensures Post(store, locks, model, id, fields).0 == Ok(id) ==>
              FindOutcome(Post(store, locks, model, id, fields).1, model, id) == Ok(fields)
  {
  }

  /** A second create with the same id is refused, and the first record stays as written. */
  lemma DuplicateCreateConflicts(store: map<string, Hash>, locks: set<string>, model: string, id: string, a: Hash, b: Hash)
    requires Post(store, locks, model, id, a).0 == Ok(id)
    ensures var s1 := Post(store, locks, model, id, a).1;
            Post(s1, locks, model, id, b) == (HttpError(Conflict), s1) && FindOutcome(s1, model, id) == Ok(a)
  {
  }

  /** While the lock of an absent record is held, creates of it are refused; once released, one succeeds. */
  lemma LockedCreateConflicts(store: map<string, Hash>, locks: set<string>, model: string, id: string, fields: Hash)
    requires RecordKey(model, id) !in store && fields != map[]
    ensures Post(store, locks + {LockResource(model, id)}, model, id, fields) == (HttpError(Conflict), store)
    ensures Post(store, locks - {LockResource(model, id)}, model, id, fields).0 == Ok(id)
  {
  }

  /**
   * An upsert succeeds whether or not the record exists; it sets the listed
   * fields, keeps the record's other fields and touches no other key.
   */
  lemma PutMerges(store: map<string, Hash>, model: string, id: string, fields: Hash, other: string)
    requires fields != map[]
    ensures Put(store, model, id, fields).0 == Ok(id)
    ensures var h := Put(store, model, id, fields).1[RecordKey(model, id)];
            (forall f :: f in fields ==> f in h && h[f] == fields[f])
            && (RecordKey(model, id) in store ==>
                  forall f :: f in store[RecordKey(model, id)] && f !in fields ==> f in h && h[f] == store[RecordKey(model, id)][f])
    ensures other != RecordKey(model, id) ==>
              (other in Put(store, model, id, fields).1 <==> other in store)
              && (other in store ==> Put(store, model, id, fields).1[other] == store[other])
  {
  }

  /**
   * Deleting reports 1 and removes the record when it was there and 0
   * otherwise, plus 1 when the options key is another stored key, which
   * goes too.
   */
  lemma DestroyCounts(store: map<string, Hash>, model: string, id: string, options: Option<string>)
    ensures var key := RecordKey(model, id);
            Destroy(store, model, id, options).0
              == (if key in store then 1 else 0)
                 + (if options.Some? && options.value != key && options.value in store then 1 else 0)
    ensures FindOutcome(Destroy(store, model, id, options).1, model, id) == HttpError(NotFound)
  {
  }

  /** A second delete with the same arguments reports 0 and changes nothing. */
  lemma DestroyTwice(store: map<string, Hash>, model: string, id: string, options: Option<string>)
    ensures var s1 := Destroy(store, model, id, options).1;
            Destroy(s1, model, id, options) == (0, s1)
  {
    var key := RecordKey(model, id);
    var gone := DelKeys(key, options);
    var s1 := store - gone;
    assert Destroy(store, model, id, options).1 == s1;
    assert gone * s1.Keys == {};
    assert DelCount(s1, key, options) == 0;
    assert s1 - gone == s1;
  }

  /** No key other than the record key and the options key is touched by a delete. */
  lemma DestroyFrame(store: map<string, Hash>, model: string, id: string, options: Option<string>, other: string)
    requires other != RecordKey(model, id) && options != Some(other)
    ensures var s1 := Destroy(store, model, id, options).1;
            (other in s1 <==> other in store) && (other in store ==> s1[other] == store[other])
  {
  }

  /**
   * As written, destroyById also deletes whatever stored key the client
   * makes of options, and counts it.
   */
  lemma OptionsKeyIsDeleted(store: map<string, Hash>, model: string, id: string, k: string)
    requires RecordKey(model, id) in store && k in store && k != RecordKey(model, id)
    ensures Destroy(store, model, id, Some(k)).0 == 2
    ensures k !in Destroy(store, model, id, Some(k)).1
  {
    assert DelKeys(RecordKey(model, id), Some(k)) == {RecordKey(model, id), k};
    PresentTwo(store.Keys, RecordKey(model, id), k);
  }

  /** With DEL given only the record key, the reply is 0 or 1 and no other key is touched. */
  lemma DestroyRecordTouchesOnlyRecord(store: map<string, Hash>, model: string, id: string, other: string)
    requires other != RecordKey(model, id)
    ensures DestroyRecord(store, model, id) == Destroy(store, model, id, None)
    ensures (other in DestroyRecord(store, model, id).1 <==> other in store)
    ensures DestroyRecord(store, model, id).0 <= 1
  {
  }

  /** findById finds exactly the stored records. */
  lemma FindIff(store: map<string, Hash>, model: string, id: string)
    ensures FindOutcome(store, model, id).Ok? <==> RecordKey(model, id) in store
    ensures FindOutcome(store, model, id).Ok? ==> FindOutcome(store, model, id).value == store[RecordKey(model, id)]
    ensures !FindOutcome(store, model, id).Ok? ==> FindOutcome(store, model, id) == HttpError(NotFound)
  {
  }

  /** No operation leaves an empty hash in the store. */
  lemma OperationsKeepNoEmptyHashes(store: map<string, Hash>, locks: set<string>, model: string, id: string, fields: Hash,
                                    options: Option<string>)
    requires NoEmptyHashes(store)
    ensures NoEmptyHashes(Post(store, locks, model, id, fields).1)
    ensures NoEmptyHashes(Put(store, model, id, fields).1)
    ensures NoEmptyHashes(Destroy(store, model, id, options).1)
  {
  }

  /**
   * With the id taken as key.split(':')[1], a record whose id contains ':'
   * is looked up under a shorter id and, when no record has that shorter id,
   * findAll leaves it out although findById finds it.
   */
  lemma ColonIdIsDropped(model: string, id: string, store: map<string, Hash>)
    requires ':' !in model && ':' in id
    requires RecordKey(model, id) in store && RecordKey(model, UpToColon(id)) !in store
    ensures ':' in RecordKey(model, id)
    ensures FindOutcome(store, model, id) == Ok(store[RecordKey(model, id)])
    ensures Gather(model, [RecordKey(model, id)], store) == []
  {
    IdOfRecordKey(model, id);
  }

  /**
   * The same line lists a record twice: with records "a" and "a:b" both
   * stored, the scan of their keys gives the entry of "a" twice and never
   * the one of "a:b".
   */
  lemma ShortIdListedTwice(model: string, a: string, b: string, store: map<string, Hash>)
    requires ':' !in model && ':' !in a
    requires RecordKey(model, a) in store && RecordKey(model, a + ":" + b) in store
    ensures ':' in RecordKey(model, a) && ':' in RecordKey(model, a + ":" + b)
    ensures Gather(model, [RecordKey(model, a), RecordKey(model, a + ":" + b)], store)
              == [(a, store[RecordKey(model, a)]), (a, store[RecordKey(model, a)])]
  {
    var keys := [RecordKey(model, a), RecordKey(model, a + ":" + b)];
    IdOfRecordKey(model, a);
    IdOfRecordKey(model, a + ":" + b);
    UpToColonOfJoin(a, b);
    assert keys[1..] == [RecordKey(model, a + ":" + b)];
    assert keys[1..][1..] == [];
  }

  /** Read as the whole text after the prefix, the ids of those two keys list each record once. */
  lemma FixedGatherListsBoth(model: string, a: string, b: string, store: map<string, Hash>)
    requires RecordKey(model, a) in store && RecordKey(model, a + ":" + b) in store
    ensures ModelPrefix(model) <= RecordKey(model, a) && ModelPrefix(model) <= RecordKey(model, a + ":" + b)
    ensures GatherFixed(model, [RecordKey(model, a), RecordKey(model, a + ":" + b)], store)
              == [(a, store[RecordKey(model, a)]), (a + ":" + b, store[RecordKey(model, a + ":" + b)])]
  {
    var keys := [RecordKey(model, a), RecordKey(model, a + ":" + b)];
    RecordKeyHasPrefix(model, a);
    RecordKeyHasPrefix(model, a + ":" + b);
    assert keys[1..] == [RecordKey(model, a + ":" + b)];
    assert keys[1..][1..] == [];
  }

  /** The same record is found when the id is read as the whole text after the prefix. */
  lemma FixedGatherKeepsColonId(model: string, id: string, store: map<string, Hash>)
    requires RecordKey(model, id) in store
    ensures ModelPrefix(model) <= RecordKey(model, id)
    ensures GatherFixed(model, [RecordKey(model, id)], store) == [(id, store[RecordKey(model, id)])]
  {
    assert IdAfterPrefix(model, RecordKey(model, id)) == id;
  }

  /** Over a full KEYS scan, the corrected findAll returns every record of the model, whatever its id. */
  lemma FixedGatherComplete(model: string, keys: seq<string>, store: map<string, Hash>, id: string)
    requires forall k :: k in keys <==> k in store && ModelPrefix(model) <= k
    requires RecordKey(model, id) in store
    ensures (id, store[RecordKey(model, id)]) in GatherFixed(model, keys, store)
  {
    var key := RecordKey(model, id);
    assert ModelPrefix(model) <= key;
    assert key in keys;
    assert IdAfterPrefix(model, key) == id;
  }

  /** The keys of one KEYS scan of a model whose ids have no ':' yield distinct ids. */
  lemma ScanIdsDistinct(model: string, keys: seq<string>)
    requires ':' !in model && Distinct(keys)
    requires forall k :: k in keys ==> ModelPrefix(model) <= k && ':' !in k[|model| + 1..]
    ensures forall k :: k in keys ==> ':' in k
    ensures Distinct(IdsOf(keys))
  {
    forall k | k in keys
      ensures ':' in k
    {
      assert k[|model|] == ':';
    }
    IdsOfAt(keys);
    forall i, j | 0 <= i < j < |keys|
      ensures IdsOf(keys)[i] != IdsOf(keys)[j]
    {
      var ki, kj := keys[i], keys[j];
      assert ki in keys && kj in keys;
      IdOfScannedKey(model, ki);
      IdOfScannedKey(model, kj);
      if ki[|model| + 1..] == kj[|model| + 1..] {
        SuffixDetermines(ModelPrefix(model), ki, kj);
      }
    }
  }

  lemma IdOfScannedKey(model: string, k: string)
    requires ':' !in model && ModelPrefix(model) <= k && ':' !in k[|model| + 1..]
    ensures ':' in k && IdOfKey(k) == k[|model| + 1..]
  {
    var id := k[|model| + 1..];
    assert k == RecordKey(model, id);
    IdOfRecordKey(model, id);
  }

  lemma SuffixDetermines(p: string, k1: string, k2: string)
    requires p <= k1 && p <= k2 && k1[|p|..] == k2[|p|..]
    ensures k1 == k2
  {
    assert k1 == p + k1[|p|..] && k2 == p + k2[|p|..];
  }

  lemma {:induction false} IdsOfAt(keys: seq<string>)
    requires forall k :: k in keys ==> ':' in k
    ensures forall i :: 0 <= i < |keys| ==> IdsOf(keys)[i] == IdOfKey(keys[i])
  {
    if keys != [] {
      assert forall k :: k in keys[1..] ==> k in keys;
      IdsOfAt(keys[1..]);
    }
  }

  // ---------------------------------------------------------------------------

  class Accessor {
    const modelName: string
    const properties: Schema
    const foreign: Foreign
    const redis: Redis

    constructor (modelName: string, properties: Schema, foreign: Foreign, redis: Redis)
      ensures this.modelName == modelName && this.properties == properties
      ensures this.foreign == foreign && this.redis == redis
    {
      this.modelName := modelName;
      this.properties := properties;
      this.foreign := foreign;
      this.redis := redis;
    }

    /** forDb: rewrites every field of data, in place, into its stored form. */
    method ForDb(data: Document)
      modifies data
      ensures data.fields == EncodeAll(foreign, properties, old(data.fields))
    {
      ghost var orig := data.fields;
      var todo := data.fields.Keys;
      while todo != {}
        invariant todo <= orig.Keys && data.fields.Keys == orig.Keys
        invariant forall k :: k in todo ==> data.fields[k] == orig[k]
        invariant forall k :: k in orig && k !in todo ==>
                    data.fields[k] == EncodeField(foreign, PropOf(properties, k), orig[k])
        decreases todo
      {
        var k :| k in todo;
        data.fields := data.fields[k := EncodeField(foreign, PropOf(properties, k), data.fields[k])];
        todo := todo - {k};
      }
    }

    /** fromDb: rewrites every field of data, in place, back into a model value. */
    method FromDb(data: Document)
      modifies data
      ensures data.fields == DecodeAll(foreign, properties, old(data.fields))
    {
      ghost var orig := data.fields;
      var todo := data.fields.Keys;
      while todo != {}
        invariant todo <= orig.Keys && data.fields.Keys == orig.Keys
        invariant forall k :: k in todo ==> data.fields[k] == orig[k]
        invariant forall k :: k in orig && k !in todo ==>
                    data.fields[k] == DecodeField(foreign, PropOf(properties, k), orig[k])
        decreases todo
      {
        var k :| k in todo;
        data.fields := data.fields[k := DecodeField(foreign, PropOf(properties, k), data.fields[k])];
        todo := todo - {k};
      }
    }

    /** exists: whether the key is present, whatever it holds. */
    method Exists(key: string) returns (b: bool)
      ensures b <==> key in redis.store
    {
      var n := redis.Exists(key);
      b := n != 0;
    }

    /** lockById: one attempt at the lease "locks:<model>:<id>". */
    method LockById(id: string, ttl: Option<nat>) returns (lock: Option<Lock>)
      requires redis.Valid()
      modifies redis
      ensures redis.Valid() && redis.store == old(redis.store)
      ensures LockResource(modelName, id) in old(redis.locks) ==> lock == None && redis.locks == old(redis.locks)
      ensures LockResource(modelName, id) !in old(redis.locks) ==>
                && lock == Some(Lock(LockResource(modelName, id), LockTtl(ttl)))
                && redis.locks == old(redis.locks) + {LockResource(modelName, id)}
    {
      lock := redis.Acquire(LockResource(modelName, id), LockTtl(ttl));
    }

    /** postWithId: create the record, refusing a duplicate or a locked id with 409. */
    method PostWithId(id: string, fields: Hash) returns (r: Reply<string>)
      requires redis.Valid()
      modifies redis
      ensures redis.Valid() && redis.locks == old(redis.locks)
      ensures (r, redis.store) == Post(old(redis.store), old(redis.locks), modelName, id, fields)
    {
      var key := RecordKey(modelName, id);
      var present := Exists(key);
      if present {
        return HttpError(Conflict);
      }
      var lock := LockById(id, None);
      if lock.None? {
        return HttpError(Conflict);
      }
      var ok := redis.HMSet(key, fields);
      redis.Release(lock.value);
      assert MergeFields(old(redis.store), key, fields) == fields;
      r := if ok then Ok(id) else HttpError(Conflict);
    }

    /** postWithoutId: create under a fresh id, here the uuid the caller supplies. */
    method PostWithoutId(uuid: string, fields: Hash) returns (r: Reply<string>)
      requires redis.Valid()
      modifies redis
      ensures redis.Valid() && redis.locks == old(redis.locks)
      ensures (r, redis.store) == Post(old(redis.store), old(redis.locks), modelName, uuid, fields)
    {
      r := PostWithId(uuid, fields);
    }

    /** putWithId: write the fields whether or not the record exists. */
    method PutWithId(id: string, fields: Hash) returns (r: Reply<string>)
      requires redis.Valid()
      modifies redis
      ensures redis.Valid() && redis.locks == old(redis.locks)
      ensures (r, redis.store) == Put(old(redis.store), modelName, id, fields)
    {
      var ok := redis.HMSet(RecordKey(modelName, id), fields);
      r := if ok then Ok(id) else CommandError;
    }

    /**
     * destroyById: DEL of the record key and of the key the client sends for
     * options (None when it sends none), replying with the number removed.
     */
    method DestroyById(id: string, options: Option<string>) returns (count: nat)
      requires redis.Valid()
      modifies redis
      ensures redis.Valid() && redis.locks == old(redis.locks)
      ensures (count, redis.store) == Destroy(old(redis.store), modelName, id, options)
    {
      count := redis.Del(RecordKey(modelName, id), options);
    }

    /** findById: 404 for a missing record, else the stored hash. */
    method FindById(id: string) returns (r: Reply<Hash>)
      requires redis.Valid()
      ensures r == FindOutcome(redis.store, modelName, id)
    {
      var key := RecordKey(modelName, id);
      var present := Exists(key);
      if !present {
        return HttpError(NotFound);
      }
      var h := redis.HGetAll(key);
      r := Ok(h);
    }

    /**
     * findAll: every entry is a stored record of this model, and every
     * record of this model whose id has no ':' is among them (given a model
     * name without ':').
     */
    method FindAll() returns (entries: seq<Entry>)
      requires redis.Valid()
      ensures forall e :: e in entries ==>
                RecordKey(modelName, e.0) in redis.store && redis.store[RecordKey(modelName, e.0)] == e.1
      ensures ':' !in modelName ==>
                forall id :: ':' !in id && RecordKey(modelName, id) in redis.store ==>
                  (id, redis.store[RecordKey(modelName, id)]) in entries
      ensures ':' !in modelName && ColonFreeIds(redis.store, modelName) ==>
                forall i, j :: 0 <= i < j < |entries| ==> entries[i].0 != entries[j].0
    {
      var keys := redis.Keys(ModelPrefix(modelName));
      forall k | k in keys
        ensures ':' in k
      {
        assert k[|modelName|] == ':';
      }
      entries := Gather(modelName, keys, redis.store);
      if ':' !in modelName {
        forall id | ':' !in id && RecordKey(modelName, id) in redis.store
          ensures (id, redis.store[RecordKey(modelName, id)]) in entries
        {
          RecordKeyHasPrefix(modelName, id);
          IdOfRecordKey(modelName, id);
        }
        if ColonFreeIds(redis.store, modelName) {
          ScanIdsDistinct(modelName, keys);
          GatherDistinct(modelName, keys, redis.store);
        }
      }
    }
  }
}
