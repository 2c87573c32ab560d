/**
 * How the accessor names things in the Redis keyspace: record keys
 * "<model>:<id>", lock resources "locks:<model>:<id>", and the id that
 * findAll reads back out of a record key with key.split(':')[1].
 */
module Keyspace {

  /** The key of the hash that holds record id of model. */
  function RecordKey(model: string, id: string): (key: string)
    ensures |key| == |model| + 1 + |id|
    ensures key[..|model|] == model && key[|model|] == ':' && key[|model| + 1..] == id
  {
    model + ":" + id
  }

  /** The Redlock resource that guards the creation of record id of model. */
  function LockResource(model: string, id: string): (r: string)
    ensures |r| > 6 && r[6..] == RecordKey(model, id) && r != RecordKey(model, id)
  {
    "locks:" + model + ":" + id
  }

  /** The KEYS pattern "<model>:*", as the literal prefix it matches. */
  function ModelPrefix(model: string): string {
    model + ":"
  }

  /** The text after the first ':' of s. */
  function AfterFirstColon(s: string): (r: string)
    requires ':' in s
    ensures |r| < |s| && r == s[|s| - |r|..]
    decreases |s|
  {
    if s[0] == ':' then s[1..]
    else
      assert s == [s[0]] + s[1..];
      AfterFirstColon(s[1..])
  }

  /** The text of s up to its first ':', or all of s when it has none. */
  function UpToColon(s: string): (r: string)
    ensures ':' !in r && r <= s
    ensures ':' !in s ==> r == s
    ensures |r| < |s| ==> s[|r|] == ':'
  {
    if s == [] || s[0] == ':' then []
    else [s[0]] + UpToColon(s[1..])
  }

  /** key.split(':')[1]: the text between the first and the second ':'. */
  function IdOfKey(key: string): (id: string)
    requires ':' in key
    ensures ':' !in id && id <= AfterFirstColon(key)
  {
    UpToColon(AfterFirstColon(key))
  }

  lemma {:induction false} AfterFirstColonOfJoin(a: string, b: string)
    requires ':' !in a
    ensures ':' in a + ":" + b && AfterFirstColon(a + ":" + b) == b
  {
    var s := a + ":" + b;
    assert s[|a|] == ':';
    if a != [] {
      assert s[1..] == a[1..] + ":" + b;
      AfterFirstColonOfJoin(a[1..], b);
    }
  }

  /**
   * Reading the id back out of a record key: for a model name without ':',
   * the id found is the record's id up to its first ':', and exactly the id
   * when the id has no ':' itself.
   */
  lemma IdOfRecordKey(model: string, id: string)
    requires ':' !in model
    ensures ':' in RecordKey(model, id)
    ensures IdOfKey(RecordKey(model, id)) == UpToColon(id)
    ensures ':' !in id ==> IdOfKey(RecordKey(model, id)) == id
    ensures ':' in id ==> IdOfKey(RecordKey(model, id)) != id
  {
    AfterFirstColonOfJoin(model, id);
  }

  /** The id up to its first ':' of an id "a:b" with a free of ':' is a. */
  lemma {:induction false} UpToColonOfJoin(a: string, b: string)
    requires ':' !in a
    ensures UpToColon(a + ":" + b) == a
  {
    var s := a + ":" + b;
    var r := UpToColon(s);
    assert s[|a|] == ':' && a == s[..|a|];
    assert r == s[..|r|];
  }

  /** Every record key of a model starts with the model's KEYS prefix. */
  lemma RecordKeyHasPrefix(model: string, id: string)
    ensures ModelPrefix(model) <= RecordKey(model, id)
    ensures RecordKey(model, id)[|ModelPrefix(model)|..] == id
  {
  }

  /** Distinct (model, id) pairs have distinct record keys when model names have no ':'. */
  lemma {:induction false} RecordKeyInjective(m1: string, i1: string, m2: string, i2: string)
    requires ':' !in m1 && ':' !in m2
    requires RecordKey(m1, i1) == RecordKey(m2, i2)
    ensures m1 == m2 && i1 == i2
  {
    var k := RecordKey(m1, i1);
    AfterFirstColonOfJoin(m1, i1);
    AfterFirstColonOfJoin(m2, i2);
    assert |i1| == |i2|;
    assert m1 == k[..|m1|] && m2 == k[..|m2|];
  }
}
