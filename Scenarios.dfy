/**
 * The outcomes the repository's CRUD tests expect, replayed on a fresh
 * Redis through the Accessor's methods.
 */
module CrudScenarios {
  import opened Wrappers
  import opened Codec
  import opened Keyspace
  import opened RedisStore
  import opened IORedis

  /**
   * Create with an id, then again with the same id; create while the id's
   * lock is held elsewhere, then again after it is released.
   */
  method CreateRules(f: Foreign, charlie: Hash, david: Hash)
    returns (first: Reply<string>, duplicate: Reply<string>, stored: Reply<Hash>,
             locked: Reply<string>, unlocked: Reply<string>)
    requires charlie != map[] && david != map[]
    ensures first == Ok("0") && duplicate == HttpError(Conflict) && stored == Ok(charlie)
    ensures locked == HttpError(Conflict) && unlocked == Ok("2")
  {
    LiteralKeysDiffer();
    var redis := new Redis();
    var person := new Accessor("person", map[], f, redis);
    first := person.PostWithId("0", charlie);
    duplicate := person.PostWithId("0", david);
    stored := person.FindById("0");
    var lock := person.LockById("2", None);
    locked := person.PostWithId("2", david);
    redis.Release(lock.value);
    unlocked := person.PostWithId("2", david);
  }

  /** Delete a saved record, an unsaved one, and the saved one again. */
  method DestroyRules(f: Foreign, charlie: Hash, options: Option<string>)
    returns (saved: nat, unsaved: nat, again: nat, found: Reply<Hash>)
    requires charlie != map[]
    ensures saved == 1 && unsaved == 0 && again == 0 && found == HttpError(NotFound)
  {
    LiteralKeysDiffer();
    var redis := new Redis();
    var person := new Accessor("person", map[], f, redis);
    var _ := person.PostWithId("0", charlie);
    saved := person.DestroyById("0", options);
    unsaved := person.DestroyById("2", options);
    again := person.DestroyById("0", options);
    found := person.FindById("0");
  }

  /** Upsert an existing record and a missing one; the existing one is merged. */
  method UpsertRules(f: Foreign)
    returns (updated: Reply<string>, created: Reply<string>, charlie: Reply<Hash>, mary: Reply<Hash>)
    ensures updated == Ok("0") && created == Ok("1")
    ensures charlie == Ok(map["name" := "Charlie II", "age" := "24"])
    ensures mary == Ok(map["name" := "Mary"])
  {
    LiteralKeysDiffer();
    var redis := new Redis();
    var person := new Accessor("person", map[], f, redis);
    var first := map["name" := "Charlie", "age" := "24"];
    var merged := map["name" := "Charlie II", "age" := "24"];
    assert "name" in first;
    var _ := person.PostWithId("0", first);
    assert redis.store == map[RecordKey("person", "0") := first];
    assert "name" in map["name" := "Charlie II"] && "name" in map["name" := "Mary"];
    updated := person.PutWithId("0", map["name" := "Charlie II"]);
    assert first + map["name" := "Charlie II"] == merged;
    assert redis.store == map[RecordKey("person", "0") := merged];
    created := person.PutWithId("1", map["name" := "Mary"]);
    assert map[] + map["name" := "Mary"] == map["name" := "Mary"];
    assert redis.store == map[RecordKey("person", "0") := merged, RecordKey("person", "1") := map["name" := "Mary"]];
    charlie := person.FindById("0");
    mary := person.FindById("1");
  }

  /** Two persons and one noise stored: findAll of person returns the two persons only. */
  method FindAllRules(f: Foreign, charlie: Hash, mary: Hash, noise: Hash) returns (entries: seq<Entry>)
    requires charlie != map[] && mary != map[] && noise != map[]
    ensures |entries| == 2
    ensures ("0", charlie) in entries && ("1", mary) in entries
  {
    LiteralKeysDiffer();
    var redis := new Redis();
    var person := new Accessor("person", map[], f, redis);
    var noises := new Accessor("noise", map[], f, redis);
    var r0 := person.PostWithId("0", charlie);
    assert redis.store == map[RecordKey("person", "0") := charlie];
    var r1 := person.PostWithId("1", mary);
    assert redis.store == map[RecordKey("person", "0") := charlie, RecordKey("person", "1") := mary];
    var r2 := noises.PostWithId("0", noise);
    PersonRecords(redis.store);
    entries := person.FindAll();
    forall e | e in entries
      ensures e.0 == "0" || e.0 == "1"
    {
      assert RecordKey("person", e.0) in redis.store;
    }
    TwoDistinctIds(entries, "0", "1");
  }

  /**
   * The person model of the tests (name: String, age: Number): a record
   * written with forDb and read back with fromDb comes back unchanged.
   */
  method CodecRoundTrip(f: Foreign, name: string, age: int)
    returns (stored: map<string, Value>, loaded: map<string, Value>)
    requires name != "" && NumberRoundTrips(f, age)
    ensures "name" in stored && "age" in stored
    ensures stored["name"] == Str(name) && stored["age"].Str? == (age != 0)
    ensures loaded == map["name" := Str(name), "age" := Num(age)]
  {
    var schema := map["name" := StringType, "age" := NumberType];
    var redis := new Redis();
    var person := new Accessor("person", schema, f, redis);
    var record := map["name" := Str(name), "age" := Num(age)];
    var doc := new Document(record);
    person.ForDb(doc);
    stored := doc.fields;
    person.FromDb(doc);
    loaded := doc.fields;
    RecordRoundTrip(f, schema, record);
  }

  /** In the findAll scenario's store, the person records have ids "0" and "1", neither with ':'. */
  lemma PersonRecords(store: map<string, Hash>)
    requires store.Keys == {RecordKey("person", "0"), RecordKey("person", "1"), RecordKey("noise", "0")}
    ensures ColonFreeIds(store, "person")
    ensures forall id :: RecordKey("person", id) in store ==> id == "0" || id == "1"
  {
    LiteralKeysDiffer();
    assert !(ModelPrefix("person") <= RecordKey("noise", "0")) by {
      assert RecordKey("noise", "0")[0] == 'n';
    }
    forall id | RecordKey("person", id) in store
      ensures id == "0" || id == "1"
    {
      if RecordKey("person", id) == RecordKey("noise", "0") {
        RecordKeyInjective("person", id, "noise", "0");
      } else if RecordKey("person", id) == RecordKey("person", "0") {
        RecordKeyInjective("person", id, "person", "0");
      } else {
        RecordKeyInjective("person", id, "person", "1");
      }
    }
  }

  lemma TwoDistinctIds(entries: seq<Entry>, a: string, b: string)
    requires a != b
    requires forall i, j :: 0 <= i < j < |entries| ==> entries[i].0 != entries[j].0
    requires forall e :: e in entries ==> e.0 == a || e.0 == b
    requires exists e :: e in entries && e.0 == a
    requires exists e :: e in entries && e.0 == b
    ensures |entries| == 2
  {
    var ids := IdSet(entries);
    IdSetSize(entries);
    assert ids == {a, b};
  }

  function IdSet(entries: seq<Entry>): set<string> {
    set e | e in entries :: e.0
  }

  lemma {:induction false} IdSetSize(entries: seq<Entry>)
    requires forall i, j :: 0 <= i < j < |entries| ==> entries[i].0 != entries[j].0
    ensures |IdSet(entries)| == |entries|
  {
    if entries != [] {
      var rest := entries[1..];
      assert forall i, j :: 0 <= i < j < |rest| ==> rest[i].0 == entries[i + 1].0 && rest[j].0 == entries[j + 1].0;
      IdSetSize(rest);
      assert IdSet(entries) == {entries[0].0} + IdSet(rest);
      assert entries[0].0 !in IdSet(rest) by {
        forall e | e in rest ensures e.0 != entries[0].0 {
          var j :| 0 <= j < |rest| && rest[j] == e;
          assert entries[j + 1] == e;
        }
      }
    }
  }

  /** The literal keys the scenarios use are pairwise distinct. */
  lemma LiteralKeysDiffer()
    ensures RecordKey("person", "0") != RecordKey("person", "1")
    ensures RecordKey("person", "0") != RecordKey("person", "2")
    ensures RecordKey("person", "0") != RecordKey("noise", "0")
    ensures RecordKey("person", "1") != RecordKey("noise", "0")
  {
    assert RecordKey("person", "0")[7] == '0' && RecordKey("person", "1")[7] == '1';
    assert RecordKey("person", "2")[7] == '2';
    assert RecordKey("person", "0")[0] == 'p' && RecordKey("noise", "0")[0] == 'n';
    assert RecordKey("person", "1")[0] == 'p';
  }
}
