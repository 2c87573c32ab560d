# IORedis accessor: a Dafny model

This project models the accessor of `loopback-connector-ioredis`. The accessor
stores LoopBack model instances as Redis hashes and has two parts:

- **The value codec (`forDb` / `fromDb`).** These rewrite each field of a
  record in place, between model values and hash strings. The rewrite depends
  on the field's declared type: `Date`, `Number`, `Boolean`, `String`, `Text`,
  any other type, or no property definition.
- **The CRUD operations over the Redis keyspace.** These are `postWithId`,
  `postWithoutId`, `putWithId`, `destroyById`, `findById`, `findAll`, `exists`
  and `lockById`. A record lives at key `<model>:<id>`. A create is guarded by
  a Redlock lease on `locks:<model>:<id>`. That lease is taken in one attempt,
  because Redlock is built with `retryCount: 0`.

Files:

- `Wrappers.dfy`: `Option`.
- `Codec.dfy`: type tags, values, per-field rules, record round-trip, and the `Document` object the codec mutates.
- `Keyspace.dfy`: record keys, lock resources, and `key.split(':')[1]`.
- `RedisStore.dfy`: the class `Redis`, holding `store: map<string, Hash>` and `locks: set<string>`, with EXISTS, HMSET, HGETALL, DEL, KEYS and lease acquire/release.
- `Accessor.dfy`: module `IORedis`. It has pure specifications of each operation (`Post`, `Put`, `Destroy`, `FindOutcome`, `Gather`), lemmas about them, and the class `Accessor` whose methods are proved against them.
- `Scenarios.dfy`: the outcomes the repository's CRUD tests expect, replayed on a fresh store.

How the model represents the source:

- **Library conversions are parameters.** `JSON.stringify`, `JSON.parse`,
  `moment(v).toJSON()`, `moment(v).toDate()`, `v.toString()` and `Number(v)`
  are uninterpreted function-valued fields of `Codec.Foreign`.
  - `parse` returns `None` where `JSON.parse` throws, which makes the fallback
    of `fromDb` to the original string visible.
  - `dateToJson` returns `None` where moment gives `null` for an invalid date.
- **Numbers are `int`.**
- **The uuid of `postWithoutId` is a parameter.**
- **Operations are sequential and atomic.**

Points where the code behaves in a way its callers might not expect, and
which the model follows:

- `putWithId` is HMSET, so it merges into an existing hash. It is not a full overwrite.
- A falsy `Number` value (0) is left as the value itself by `forDb`, not turned into `"0"`.
- A field with no property definition is JSON-encoded by `forDb` but left alone
  by `fromDb`, so it does not round-trip.
- Lock contention in `postWithId` is caught like any other error of the locked
  write and reported as HTTP 409.
- HMSET with no fields is a Redis error (wrong number of arguments). `postWithId`
  catches it and reports 409; `putWithId` passes it on (`CommandError`).
- `destroyById` passes its `options` argument to DEL as a second key, so DEL
  may remove, and count, one more key than the record's. The key the client
  makes of `options` is a parameter of `Destroy` (`None` when the client sends
  no second argument).
- Redis keeps no empty hash (`RedisStore.NoEmptyHashes`, the `Redis.Valid()`
  invariant). This is why `findById` checks EXISTS before HGETALL: HGETALL
  answers `{}` for a missing key.

## Model

| member | source | states |
|---|---|---|
| `Codec.EncodeField` | lib/ioredis.js:191-216 | forDb gives a string for every field except a falsy Number value (left as is), a String/Text field's own value, and an invalid Date (null) |
| `Codec.DecodeField` | lib/ioredis.js:225-254 | fromDb gives null for null and `''`; a field with no schema entry or a String/Text field reads back unchanged or null; a Boolean field reads back as a boolean or null |
| `Codec.EncodeAll` | lib/ioredis.js:191-217 | forDb's `for...in` keeps every field name, and a field with no schema entry is always stored as text |
| `Codec.DecodeAll` | lib/ioredis.js:225-255 | fromDb's `for...in` keeps every field name, and a field with no schema entry reads back as stored, or null |
| `Codec.EncodeRules` | lib/ioredis.js:191-216 | forDb case rules: null becomes `''`; no schema entry or an unknown type becomes JSON; Boolean becomes `'true'`/`'false'` by truthiness; String/Text unchanged; Number becomes toString when truthy, else unchanged |
| `Codec.DecodeRules` | lib/ioredis.js:225-254 | fromDb case rules: null or `''` becomes null; no schema entry unchanged; Number becomes `Number(s)`; Boolean is true exactly for `'true'` or `'1'`; String/Text unchanged; an unknown type becomes the JSON parse result, or the original string when parsing fails |
| `Codec.FieldRoundTrip` | lib/ioredis.js:190-257 | fromDb(forDb(v)) == v for null, Boolean values, non-empty String/Text values, numbers whose toString/Number agree, and unknown-type values that JSON parses back |
| `Codec.BooleanNormalises` | lib/ioredis.js:208-243 | a Boolean field comes back as the truthiness of the value written |
| `Codec.EmptyStringBecomesNull` | lib/ioredis.js:211-228 | an empty String/Text field comes back as null |
| `Codec.SchemalessDoesNotRoundTrip` | lib/ioredis.js:196-233 | a field with no schema entry comes back as its JSON text, so a number comes back as a string |
| `Codec.RecordRoundTrip` | lib/ioredis.js:190-257 | a whole record round-trips when each of its fields does |
| `Codec.Fieldwise` | lib/ioredis.js:191-255 | both conversions keep the field names, and each field's result depends only on its own value and schema entry |
| `Keyspace.RecordKey` | lib/ioredis.js:117 | a record key is the model name, one `':'`, and the id, each at its place |
| `Keyspace.LockResource` | lib/ioredis.js:94 | a lock resource is the record key under the `locks:` namespace, and never the record key itself |
| `Keyspace.IdOfKey` | lib/ioredis.js:173 | `key.split(':')[1]` has no `':'` and is a prefix of the text after the key's first `':'` |
| `Keyspace.UpToColonOfJoin` | lib/ioredis.js:173 | the text up to the first `':'` of `a:b`, for `a` without `':'`, is `a` |
| `Keyspace.UpToColon` | lib/ioredis.js:173 | the extracted id has no `':'`, is a prefix of the text after the first `':'`, and is all of that text when it has no `':'` |
| `Keyspace.IdOfRecordKey` | lib/ioredis.js:173 | for a model name without `':'`, `key.split(':')[1]` of `<model>:<id>` is the id up to its first `':'`: the id exactly when it has no `':'`, and never the id when it has one |
| `Keyspace.RecordKeyHasPrefix` | lib/ioredis.js:172 | every record key of a model matches the model's KEYS pattern `<model>:*`, and the id is the rest of the key |
| `Keyspace.RecordKeyInjective` | lib/ioredis.js:117 | distinct (model, id) pairs get distinct keys when model names have no `':'` |
| `RedisStore.MergeFields` | lib/ioredis.js:125 | HMSET sets the listed fields and keeps every other field of the hash |
| `RedisStore.EmptyReplyMeansMissing` | lib/ioredis.js:157-162 | since Redis keeps no empty hash, an empty HGETALL reply means the key is missing |
| `RedisStore.Redis.Exists` | lib/ioredis.js:184 | EXISTS answers 1 for a present key and 0 for a missing one |
| `RedisStore.Redis.HMSet` | lib/ioredis.js:125 | HMSET merges the fields into the key's hash, and fails, changing nothing, when there are no fields |
| `RedisStore.Redis.HGetAll` | lib/ioredis.js:162 | HGETALL returns the stored (non-empty) hash, or `{}` for a missing key |
| `RedisStore.DelCount` | lib/ioredis.js:147 | DEL's reply is the number of distinct named keys that are present, at most 2 here |
| `RedisStore.Redis.Del` | lib/ioredis.js:147 | DEL removes the first key and the optional second key and answers how many of them were present |
| `RedisStore.Redis.Keys` | lib/ioredis.js:172 | KEYS returns exactly the stored keys with the prefix, each once |
| `RedisStore.Redis.Acquire` | lib/ioredis.js:63 | a single lease attempt: it fails if the resource is held, else it takes it |
| `RedisStore.Redis.Release` | lib/ioredis.js:124 | leaving the `Promise.using` scope frees the resource |
| `IORedis.Post` | lib/ioredis.js:116-128 | a create answers the id or 409; on success the key was absent and now exists; a 409 leaves the store as it was |
| `IORedis.Put` | lib/ioredis.js:135-138 | an upsert answers the id exactly when there are fields, and the record then exists; with no fields it is a command error that changes nothing |
| `IORedis.Destroy` | lib/ioredis.js:145-148 | after a delete the record key and the options key are gone, every other key keeps its hash, and the reply is the number of keys removed |
| `IORedis.DestroyRecord` | lib/ioredis.js:145-148 | a delete of the record key alone removes only that key and answers 1 exactly when the record was there, else 0 |
| `IORedis.FindOutcome` | lib/ioredis.js:155-164 | findById answers a hash or 404, nothing else |
| `IORedis.LockTtl` | lib/ioredis.js:95 | the lease time is the given ttl when it is non-zero, and 1000 when it is absent or 0 |
| `IORedis.Gather` | lib/ioredis.js:171-178 | findAll's map/filter: each entry is a successful findById of `key.split(':')[1]`, every key whose such lookup succeeds gives an entry, and failed lookups are dropped |
| `IORedis.GatherDistinct` | lib/ioredis.js:171-178 | when the scanned keys give distinct ids, findAll lists each id at most once |
| `IORedis.ScanIdsDistinct` | lib/ioredis.js:172-173 | the keys of one scan of a model yield distinct ids when no id contains `':'` |
| `IORedis.PostSucceedsIff` | lib/ioredis.js:116-127 | a create succeeds exactly when the key is absent, its lock is free and there are fields; the record then holds exactly those fields; every refusal is a 409 that leaves the store unchanged |
| `IORedis.DuplicateCreateConflicts` | lib/ioredis.js:118-122 | a second create with the same id is a 409 and the first record stays as written |
| `IORedis.LockedCreateConflicts` | lib/ioredis.js:123-126 | a held lock makes the create a 409 with nothing written; once released, the create of the still-absent id succeeds |
| `IORedis.PutMerges` | lib/ioredis.js:135-138 | an upsert succeeds whether the record exists or not, sets the listed fields, keeps the other fields, and touches no other key |
| `IORedis.DestroyCounts` | lib/ioredis.js:145-148 | a delete answers 1 for a present record or 0, plus 1 when the options key is another stored key; the record is then not found |
| `IORedis.DestroyTwice` | lib/ioredis.js:145-148 | a second delete with the same arguments answers 0 and changes nothing |
| `IORedis.DestroyFrame` | lib/ioredis.js:145-148 | a delete touches no key other than the record key and the options key |
| `IORedis.OptionsKeyIsDeleted` | lib/ioredis.js:147 | when the options key names another stored key, destroyById answers 2 and deletes that key too |
| `IORedis.DestroyRecordTouchesOnlyRecord` | lib/ioredis.js:145-148 | a delete with no second DEL key answers at most 1 and keeps every other key |
| `IORedis.FindIff` | lib/ioredis.js:155-164 | findById answers the stored hash exactly for stored records, and 404 otherwise |
| `IORedis.OperationsKeepNoEmptyHashes` | lib/ioredis.js:116-148 | no create, upsert or delete leaves an empty hash in the store |
| `IORedis.ColonIdIsDropped` | lib/ioredis.js:171-178 | a record whose id contains `':'` is found by findById but left out by findAll when no record has the shorter id |
| `IORedis.ShortIdListedTwice` | lib/ioredis.js:171-178 | with records `a` and `a:b` both stored, findAll over their keys lists the record `a` twice and never `a:b` |
| `IORedis.FixedGatherListsBoth` | lib/ioredis.js:171-178 | with the id read as the whole text after `<model>:`, the same two keys list `a` and `a:b` once each |
| `IORedis.IdAfterPrefix` | lib/ioredis.js:173 | reading the id as the whole text after `<model>:` recovers the id the key was built from |
| `IORedis.GatherFixed` | lib/ioredis.js:171-178 | with that id, every scanned stored key gives its entry, and every entry is a successful findById |
| `IORedis.FixedGatherKeepsColonId` | lib/ioredis.js:171-178 | the record that findAll drops is listed with that id |
| `IORedis.FixedGatherComplete` | lib/ioredis.js:171-178 | over a full scan, the corrected findAll lists every record of the model, whatever its id |
| `IORedis.Accessor.ForDb` | lib/ioredis.js:190-219 | forDb rewrites the object in place into the field-by-field encoding of its old contents |
| `IORedis.Accessor.FromDb` | lib/ioredis.js:224-257 | fromDb rewrites the object in place into the field-by-field decoding of its old contents |
| `IORedis.Accessor.Exists` | lib/ioredis.js:183-185 | true exactly when the key is present |
| `IORedis.Accessor.LockById` | lib/ioredis.js:93-98 | one attempt at the lease `locks:<model>:<id>` with the given ttl, or 1000 when it is absent or 0 |
| `IORedis.Accessor.PostWithId` | lib/ioredis.js:116-128 | the reply and new store are those of `Post`, and the lock set is as before |
| `IORedis.Accessor.PostWithoutId` | lib/ioredis.js:105-109 | a create under the supplied uuid, as `Post` |
| `IORedis.Accessor.PutWithId` | lib/ioredis.js:135-138 | the reply and new store are those of `Put` |
| `IORedis.Accessor.DestroyById` | lib/ioredis.js:145-148 | DEL of the record key and the options key; the count and new store are those of `Destroy` |
| `IORedis.Accessor.FindById` | lib/ioredis.js:155-164 | the reply is that of `FindOutcome` |
| `IORedis.Accessor.FindAll` | lib/ioredis.js:171-178 | every entry is a stored record of this model; every record whose id has no `':'` is listed; ids are distinct when no id of the model has `':'` |
| `CrudScenarios.CreateRules` | test/10.crud.test.js:79-120 | create succeeds; duplicate create is a 409 and the first record stays; create under a held lock is a 409; create after release succeeds |
| `CrudScenarios.DestroyRules` | test/10.crud.test.js:242-254 | deleting a saved record answers 1, an unsaved one 0, the same one again 0, whatever key the client makes of options |
| `CrudScenarios.UpsertRules` | test/10.crud.test.js:279-301 | upserting an existing and a missing record both succeed; the existing one is merged |
| `CrudScenarios.FindAllRules` | test/10.crud.test.js:346-473 | with two persons and one noise stored, findAll for person returns exactly the two persons |
| `CrudScenarios.CodecRoundTrip` | lib/ioredis.js:190-257 | a person record (name String, age Number) passed through forDb and then fromDb comes back unchanged |

## Findings

| source | as written | input that shows it | evidently intended | confidence | as-written member | corrected member |
|---|---|---|---|---|---|---|
| lib/ioredis.js:147 | destroyById calls DEL with `key, options`, so the client sends `options` as a second key | a store holding `person:0` and a second key `k`, with the client sending `k` for `options`: `destroyById('0')` deletes both and answers 2 | DEL of the record key alone, answering 0 or 1 | medium, not executed | `IORedis.OptionsKeyIsDeleted` | `IORedis.DestroyRecord` |
| lib/ioredis.js:173 | findAll reads `person:a:b` as id `a` | records `person:a` and `person:a:b` both stored: findAll lists the record `a` twice and never `a:b` | the id is the whole text after `person:`, so each record is listed once | medium, not executed | `IORedis.ShortIdListedTwice` | `IORedis.FixedGatherListsBoth` |
| lib/ioredis.js:173 | findAll takes the id as `key.split(':')[1]` and looks it up again with findById | a `person` record with id `a:b` at key `person:a:b`, and no record `person:a`: findById('a:b') finds it, but findAll looks up `a` and drops it | the id is the whole text after `person:`, so every stored record is listed | medium, not executed | `IORedis.ColonIdIsDropped` | `IORedis.FixedGatherComplete` |

The corrected definitions (`DestroyRecord`, `IdAfterPrefix`, `GatherFixed`) are
given beside the as-written ones. `Accessor.DestroyById` and `Accessor.FindAll`
keep the behaviour as written.

## Left out

- Connection setup and teardown (`_connect`, `_disconnect`): URL, auth and sentinel parsing and the Redis client are I/O and configuration.
- Redlock internals: the random owner token, TTL expiry in wall-clock time, and logging a failed release. A lease is only membership in `locks`, and the lease time is carried in the `Lock` handle without effect. Expiry is time-driven.
- Redlock's lease keys live in the same Redis keyspace as the records. The model keeps them in a separate set, so a model named `locks` cannot see them in `findAll`.
- The real JSON, moment and number conversions: they are foreign or floating point and stay uninterpreted. Numbers are integers; NaN does not exist.
- `uuid.v4()`: nondeterministic, so the id is a parameter of `PostWithoutId`.
- `where`/`inq` handling, `findByIds`, remove-all, and turning 404/409 into null or counts: these live in the base `Accessor` of `loopback-connector-nosql`, whose source is not part of this model.
- Concurrency between in-flight operations: each operation is one atomic step, so findAll's lookups see the store as listed. Dropping on a failed lookup is stated by `Gather` for any store.
- The conversion of HMSET's argument values to strings by the Redis client: the accessor operations take the hash as strings already.
- Glob metacharacters in a model name: `KEYS <model>:*` is modelled as a literal prefix scan.
- Transport errors of any command other than the empty HMSET.
- The `[id, rev]` reply: `rev` is always null and is not carried; `Ok(id)` stands for `[id, null]`.
- `for ... in` also visits inherited enumerable properties; the model visits the object's own fields. The conversions return `data` itself, which the model leaves implicit because the object is rewritten in place.
- IORedis.Accessor.FindAll: its contract does not fix the order of the entries, because KEYS returns keys in no specified order. It says nothing about the keys whose id contains `':'` beyond their soundness; `Gather` states that case.
- How the client turns `destroyById`'s `options` into a DEL argument (dropped, `""` or `"[object Object]"`): that is the client's argument conversion, which is not part of this model, so the key is the `Option<string>` parameter of `Destroy` and `Accessor.DestroyById`.
