# Arcs wasm particle storage layer, in Dafny

This project models the particle-side storage layer of the Arcs C++ wasm
particle library (`src/wasm/cpp/arcs.h`) and proves properties of it.

- **Handles.** `Singleton` and `Collection` keep a local cache of entities.
  The host pushes snapshots (`sync`) and deltas (`update`) into that cache.
  Particle writes (`set`, `store`, `remove`, `clear`) go out to the host.
  A handle connected `InOut` also applies them to its own cache.
- **References.** `Ref` is a reference to an entity in another store. Copies
  of a `Ref` share one payload, and dereferencing fetches that payload from
  the host at most once.
- **Continuation table.** `Particle` keeps pending dereference requests under
  ids from a counter and resolves them when the host answers.
- **Codec.** `StringEncoder` and `StringDecoder` are the token codec all of
  the above use to talk to the host.

Modules, one per component:

| file | module | what |
|---|---|---|
| `results.dfy` | `Results` | `Option` and `Result` (with `:-` support) |
| `maps.dfy` | `Maps` | `std::unordered_map::emplace`, which the caches and the continuation table share |
| `wire.dfy` | `Wire` | the codec: `upTo`, `getInt`, `chomp`, `validate`, `done`, string values, `decodeList` |
| `entities.dfy` | `Entities` | entities (internal id plus the set fields), `encode_entity`/`decode_entity`, `entity_to_str` |
| `lex.dfy` | `Lex` | `std::string::compare` as a three-way lexicographic comparison |
| `cache.dfy` | `Cache` | what adding records, removing ids and a particle store do to a collection's id-to-entity map |
| `arcs.dfy` | `Arcs` | the classes: `Host` (outbound call log), `Particle`, `Handle`, `Singleton`, `Collection`, `Payload`, and the `Ref` value with its `Accessor` functions |
| `scenarios.dfy` | `Scenarios` | concrete runs: a collection snapshot, remove and delta (on cache values and on a `Collection` object); a reference fetched once and reused by a copy; a set through a read-only singleton; an answer for an unknown continuation id |

## How the model maps the C++

**Classes that change state.** `Particle`, `Handle`, `Singleton`,
`Collection` and `Payload` are Dafny classes. Their fields are the C++
fields: `continuations_`, `continuation_id_`, `entity_`, `entities_`, and
`entity`/`dereferenced`. Each method's `modifies` clause names what it
changes. Its `ensures` gives the new state as a function of the old state and
the inputs. The `Collection` methods are proved against `Cache.Added`,
`Cache.Removed` and `Cache.Updated`, and the properties of these functions
are separate lemmas. `Ref` is a datatype holding a `Payload` object, so every
copy of a `Ref` shares one payload, just as the copies of a C++ `Ref` share
one `shared_ptr<Payload>`.

**Host calls.** Calls into JavaScript (`singletonSet`, `collectionStore`,
`collectionRemove`, `singletonClear`, `collectionClear`, `dereference`) are
appended to `Host.calls`. The id that `singletonSet`/`collectionStore` return
is a method parameter, `hostId: Option<string>`, where `None` stands for a
null pointer.

**Direction.** The source checks reads with `failForDirection(Out)` and
writes with `failForDirection(In)`. So, in the code, `In` means read-only for
the particle and `Out` means write-only. Some prose descriptions of the
system use the opposite reading. The model follows the code.

`failForDirection`'s body is not part of this model. Every call site ignores
its result and carries on. The model therefore counts faults in a ghost
`Handle.faults` counter (one per check that matches) and lets the operation
proceed. A write through an `In` singleton still reaches the host
(`Scenarios.ReadOnlySingletonSet`).

**Codec.** Only the declarations of `StringDecoder`/`StringEncoder` are in
`arcs.h`, so the token layout is this model's own, built from the declared
primitives:
- a string value is `prefix`, its decimal length, `:`, its characters, `|`;
- a list is a decimal count, `:`, then each item as length `:` chunk;
- an entity is its id as a value, then one token per set field (`name:`
  followed by the value).

Every round trip is proved. Decoding failures are values
(`Wire.DecodeError`), not preconditions. The bodies of `validate` and
`decodeList` are not in `arcs.h` (lines 62 and 66 only declare them), so two
assumptions stand in for them:
- a failed `validate` ends the operation;
- `decodeList` calls its callback chunk by chunk as it scans, so the records
  applied before a failing one stay applied.

What happens inside the failing `decode_entity` call itself is coarser in the
model. The C++ decodes in place, so fields it wrote before the failing
`validate` stay in the target. The model writes nothing into the target on a
failed decode (see "## Left out").

**Strings.** Every string, whether an entity's field values, the encodings
sent to the host or the chunks read back, is a sequence of characters in the
model. The C++ passes encodings to the host as NUL-terminated `const char*`
(`encoded.c_str()`, lines 303, 391 and 405), decodes chunks through
`str.c_str()` (lines 361 and 424), and counts lengths in bytes. The model has
no NUL truncation and counts lengths in characters (see "## Left out").

**Entities.** The generated per-schema classes are represented by one
`Entities.Entity`: the internal id plus the list of set fields.

**The continuation counter.** `continuation_id_` is a `size_t`, which is 32
bits on wasm32. It is modelled as `Arcs.SizeT`, with wrap-around to 0
(`Arcs.NextId`). Ids are fresh as long as the counter has not wrapped.

**At most once.** A reference is fetched at most once once the host has
answered. Two `dereference` calls made before the first answer each send a
request, because `dereferenced` is still false for both.

**Answering a continuation.** `dereferenceResponse` looks the id up with
`operator[]`. For an id that was never issued, or was already answered,
`operator[]` inserts an empty `std::function`, and calling that throws
`std::bad_function_call`. The model returns `BadFunctionCall` and leaves the
inserted empty entry in the table. It does not treat the call as a no-op.

## Model

| member | source | states |
|---|---|---|
| Wire.NatToStr | src/wasm/cpp/arcs.h:82 | the length or count an encoder writes is a non-empty string of decimal digits |
| Wire.ParseNatToStr | src/wasm/cpp/arcs.h:60 | reading a rendered number back as `getInt` does gives the number |
| Wire.UpTo | src/wasm/cpp/arcs.h:59 | `upTo(sep)` succeeds exactly when `sep` occurs; the input is then the token, `sep` and the rest, and the token holds no `sep` |
| Wire.UpToSplit | src/wasm/cpp/arcs.h:59 | on a token free of `sep` followed by `sep`, `upTo` returns exactly that token and the rest |
| Wire.GetInt | src/wasm/cpp/arcs.h:60 | a successful `getInt` consumes input |
| Wire.GetIntOfNumeral | src/wasm/cpp/arcs.h:60 | `getInt(':')` on a rendered number followed by `:` returns the number and the rest |
| Wire.Done | src/wasm/cpp/arcs.h:58 | the input is done exactly when not even one more character can be chomped |
| Wire.Chomp | src/wasm/cpp/arcs.h:61 | `chomp(len)` succeeds exactly when `len` characters remain, and splits off exactly `len` of them |
| Wire.Validate | src/wasm/cpp/arcs.h:62 | `validate(token)` succeeds exactly when the input continues with `token`, and consumes only it |
| Wire.DecodeString | src/wasm/cpp/arcs.h:63 | a successful string decode consumes input, so decoding loops terminate |
| Wire.EncodeString | src/wasm/cpp/arcs.h:82 | the prefix comes first, the value's characters come last, closed by `|`, after a length of at least one digit and `:` |
| Wire.DecodeLengthPrefixed | src/wasm/cpp/arcs.h:60-63 | a length-prefixed value decodes to itself whatever follows |
| Wire.DecodeEncodedString | src/wasm/cpp/arcs.h:63 | decoding an encoded string value gives the value back and leaves the cursor on its `|` |
| Wire.ScanChunks | src/wasm/cpp/arcs.h:66 | a list scan yields at most `count` chunks, and exactly `count` when it completes |
| Wire.ScanEncodedChunks | src/wasm/cpp/arcs.h:66 | scanning encoded chunks gives those chunks back, completely |
| Wire.ScanEncodedList | src/wasm/cpp/arcs.h:66 | `decodeList` on an encoded list visits exactly its chunks, in order |
| Wire.DecodeAll | src/wasm/cpp/arcs.h:66 | decoding chunks one by one yields at most one item per chunk, and one per chunk when every chunk decodes |
| Wire.DecodeAllItems | src/wasm/cpp/arcs.h:66 | each item is its chunk decoded, and a pass that stops early stops at the first chunk that fails to decode |
| Wire.DecodeList | src/wasm/cpp/arcs.h:66 | `decodeList` with a decoding callback yields at most one item per scanned chunk, each the decode of its chunk, and is complete iff the scan completed and every chunk decoded |
| Wire.DecodeAllAdvance | src/wasm/cpp/arcs.h:66 | one callback step: a failing chunk ends the pass with the items so far; a decoded chunk appends its item |
| Wire.DecodeAllFinished | src/wasm/cpp/arcs.h:66 | when every chunk has been handed to the callback, the pass yields exactly the items decoded |
| Wire.DecodeAllEncoded | src/wasm/cpp/arcs.h:66 | if every chunk decodes to its item, the pass yields all items, completely |
| Wire.DecodeIdOfChunk | src/wasm/cpp/arcs.h:359-362 | a removed-id chunk decodes to that id |
| Wire.DecodeEncodedIds | src/wasm/cpp/arcs.h:359-362 | an encoded list of removed ids decodes to exactly those ids |
| Entities.EncodeEntity | src/wasm/cpp/arcs.h:162-166 | the first value of an encoded entity is its id, followed by the encoded fields |
| Entities.DecodeFields | src/wasm/cpp/arcs.h:157-160 | no field name read from the host contains the `:` that ends a name |
| Entities.DecodeEntity | src/wasm/cpp/arcs.h:157-160 | every entity read from the host is well formed, so it re-encodes losslessly |
| Entities.EntityToStr | src/wasm/cpp/arcs.h:149-152 | the rendering is empty exactly when no field is set, and otherwise starts with the first set field as `name: value` |
| Entities.DecodeEncodedFields | src/wasm/cpp/arcs.h:158-165 | the field tokens of an entity decode to exactly its fields, in order |
| Entities.DecodeEncodedEntity | src/wasm/cpp/arcs.h:158-165 | `decode_entity(encode_entity(e))` gives back e: its id and every set field |
| Entities.DecodeEncodedRecords | src/wasm/cpp/arcs.h:420-428 | a list of encoded entities decodes to exactly those entities, completely |
| Lex.Compare | src/wasm/cpp/arcs.h:497-498 | `compare` returns a sign, and it is 0 exactly for equal strings |
| Lex.CompareFlip | src/wasm/cpp/arcs.h:497-498 | swapping the operands of `compare` flips the sign |
| Lex.CompareTransitive | src/wasm/cpp/arcs.h:497-498 | `compare(a, b) < 0` and `compare(b, c) < 0` give `compare(a, c) < 0` |
| Cache.AddedKeys | src/wasm/cpp/arcs.h:420-428 | after adding records, the ids held are the ids held before plus every record's id |
| Cache.AddedOneMore | src/wasm/cpp/arcs.h:424-426 | one more record is an erase of its id followed by an emplace |
| Cache.AddedLookup | src/wasm/cpp/arcs.h:420-428 | an id is held after adding iff it was held or some record carries it; it then maps to the last such record (a re-added id replaces the old entry) |
| Cache.LastWithIdCarriesId | src/wasm/cpp/arcs.h:420-428 | the record an id resolves to carries that id and is one of the added records |
| Cache.AddedIdConsistent | src/wasm/cpp/arcs.h:420-428 | adding keeps every entry under its own entity's id |
| Cache.RemovedOneMore | src/wasm/cpp/arcs.h:359-362 | one more removed id is one more erase |
| Cache.UpdatedLookup | src/wasm/cpp/arcs.h:357-364 | after `update(added, removed)` an id is held iff it is not removed and was held or added; an id in both lists ends up absent |
| Cache.UpdatedIdConsistent | src/wasm/cpp/arcs.h:357-364 | an update keeps every entry under its own entity's id |
| Cache.UpdateIdempotent | src/wasm/cpp/arcs.h:357-364 | applying the same delta twice gives the same map as applying it once |
| Cache.StoreEcho | src/wasm/cpp/arcs.h:397-399 | as written: the id becomes held; a cache already holding the id is left exactly as it was; otherwise the written entity goes in and every other entry is kept |
| Maps.Emplace | src/wasm/cpp/arcs.h:687 | `emplace` adds the key, keeps any value already held under it, and leaves every other entry alone |
| Cache.StoreEchoKeepsStaleEntry | src/wasm/cpp/arcs.h:398-400 | as written, re-storing an entity under an id the cache already holds keeps the old entry |
| Cache.StoreEchoReplacing | src/wasm/cpp/arcs.h:398-400 | the corrected echo holds the written entity under its id and leaves every other entry unchanged |
| Arcs.NextId | src/wasm/cpp/arcs.h:687 | `++continuation_id_` on a 32-bit `size_t` is addition of one modulo 2^32 |
| Arcs.DispatchIsFresh | src/wasm/cpp/arcs.h:686-689 | until the counter wraps, the pre-incremented id is above every id in the table, so `emplace` stores the continuation |
| Arcs.Particle.constructor | src/wasm/cpp/arcs.h:700-701 | a particle starts with an empty table and the counter at 0 |
| Arcs.Particle.Dereference | src/wasm/cpp/arcs.h:686-689 | the counter is pre-incremented; the continuation is emplaced under the new id; one request carrying that same id goes out; the id is fresh while the counter has not wrapped |
| Arcs.Resolve | src/wasm/cpp/arcs.h:465-469 | the stored wrapper decodes the answer into the shared payload, marks it fetched and runs the continuation; an undecodable answer leaves the payload untouched |
| Arcs.Particle.DereferenceResponse | src/wasm/cpp/arcs.h:691-694 | a stored continuation decodes the answer into its payload, marks it dereferenced, runs, and its id is erased; an unknown id throws and leaves an empty entry; an undecodable answer changes nothing |
| Arcs.Handle.constructor | src/wasm/cpp/arcs.h:271-275 | a handle's name, direction and owning particle are set once, and no direction fault has occurred yet |
| Arcs.Handle.FailForDirection | src/wasm/cpp/arcs.h:270 | the check fails exactly when the handle is connected in the direction tested, and each failure is counted |
| Arcs.Handle.Dereference | src/wasm/cpp/arcs.h:704-706 | forwards to the owning particle with this handle, with the same effect as `Particle::dereference` |
| Arcs.Stamped | src/wasm/cpp/arcs.h:303-307 | a write takes the host's id when one is returned and keeps its data fields |
| Arcs.SyncedEntity | src/wasm/cpp/arcs.h:285-286 | a singleton holds the decoded entity when decoding succeeds, and whatever it holds is well formed and re-encodes losslessly |
| Arcs.SyncedEntityOfEncoded | src/wasm/cpp/arcs.h:283-287 | syncing a singleton with an encoded entity restores exactly that entity |
| Arcs.Singleton.constructor | src/wasm/cpp/arcs.h:323 | a new singleton holds the empty entity `T()` |
| Arcs.Singleton.Sync | src/wasm/cpp/arcs.h:283-287 | the cache becomes a fresh entity decoded from the model; a read check is made |
| Arcs.Singleton.Update | src/wasm/cpp/arcs.h:289-291 | an update has exactly the effect of a sync with its first argument; the second is ignored |
| Arcs.Singleton.Get | src/wasm/cpp/arcs.h:293-296 | returns the cached entity after a read check |
| Arcs.Singleton.Set | src/wasm/cpp/arcs.h:300-312 | one `singletonSet` call with the encoded entity; the result carries the host's id and the same fields; the cache becomes it only for an InOut handle |
| Arcs.Singleton.Clear | src/wasm/cpp/arcs.h:314-320 | one `singletonClear` call; the cache becomes `T()` only for an InOut handle |
| Arcs.Collection.constructor | src/wasm/cpp/arcs.h:430 | a new collection holds no entities, which trivially sit under their own ids |
| Arcs.Collection.Sync | src/wasm/cpp/arcs.h:352-355 | the cache becomes the records of the snapshot, whatever it held before, each under its own id |
| Arcs.Collection.Update | src/wasm/cpp/arcs.h:357-364 | all adds first, then every removed id erased; the cache stays keyed by entity id |
| Arcs.Collection.RemoveIds | src/wasm/cpp/arcs.h:359-363 | erases exactly the decoded ids |
| Arcs.Collection.Add | src/wasm/cpp/arcs.h:420-428 | the cache becomes the old cache with every decoded record added, after a read check |
| Arcs.Collection.AddRecords | src/wasm/cpp/arcs.h:422-427 | each decoded record replaces any entry under its id |
| Arcs.Collection.IsEmpty | src/wasm/cpp/arcs.h:366-369 | true exactly when the cache is empty, after a read check |
| Arcs.Collection.Size | src/wasm/cpp/arcs.h:371-374 | the number of cached entities, after a read check |
| Arcs.Collection.Store | src/wasm/cpp/arcs.h:388-400 | one `collectionStore` call; the result carries the host's id and the same fields; an InOut handle emplaces it (as written) |
| Arcs.Collection.Remove | src/wasm/cpp/arcs.h:402-409 | one `collectionRemove` call; an InOut handle erases exactly that entity's id, and, since every entry sits under its own id, no cached entity carries that id afterwards |
| Arcs.Collection.Clear | src/wasm/cpp/arcs.h:411-417 | one `collectionClear` call; an InOut handle empties its cache |
| Arcs.Payload.constructor | src/wasm/cpp/arcs.h:436-439 | a payload starts with the empty entity and not dereferenced |
| Arcs.NewRef | src/wasm/cpp/arcs.h:443 | a new reference has empty id and key and its own fresh payload, not dereferenced |
| Arcs.DereferenceRef | src/wasm/cpp/arcs.h:462-474 | a dereferenced reference runs its continuation at once and sends nothing; an unbound one does nothing; otherwise exactly one request goes out with a continuation that fills the shared payload, and nothing runs yet |
| Arcs.RefEquals | src/wasm/cpp/arcs.h:487-489 | `==` holds exactly when `compare` finds both the ids and the storage keys equal, so it is the equivalence of the order `<` uses |
| Arcs.RefEqualsIffSameEncoding | src/wasm/cpp/arcs.h:487-489 | two references are `==` exactly when `encode_entity` writes the same string for both |
| Arcs.RefNotEquals | src/wasm/cpp/arcs.h:491-493 | `!=` holds iff the ids or the storage keys differ |
| Arcs.RefLess | src/wasm/cpp/arcs.h:496-499 | `<` never holds between `==` references; it compares ids when they differ and storage keys otherwise |
| Arcs.RefLessTransitive | src/wasm/cpp/arcs.h:496-499 | `<` on references is transitive |
| Arcs.RefOrderTrichotomy | src/wasm/cpp/arcs.h:487-499 | exactly one of `a < b`, `a == b`, `b < a` holds: `<` is a strict total order whose equivalence is `==` |
| Arcs.CloneRef | src/wasm/cpp/arcs.h:512-515 | a clone is `==` to the original and shares its payload and handle |
| Arcs.FieldsEqualRef | src/wasm/cpp/arcs.h:525-528 | `fields_equal` on references holds iff ids and storage keys match, as `==` does |
| Arcs.EncodeRef | src/wasm/cpp/arcs.h:555-561 | the first value of an encoded reference is its id, followed by its storage key as a value |
| Arcs.DecodeRefInto | src/wasm/cpp/arcs.h:544-553 | a null string leaves the reference as it is; a successful decode changes only the id and the storage key, never the handle or the shared payload |
| Arcs.DecodeEncodedRef | src/wasm/cpp/arcs.h:544-561 | decoding an encoded reference into any reference makes it `==` to the original and keeps its handle and payload |
| Arcs.RefToStr | src/wasm/cpp/arcs.h:530-542 | the rendering opens with `REF<`, closes with `>`, and is longer than the id by at least those five characters |
| Arcs.RefToStrAmbiguousWithSeparator | src/wasm/cpp/arcs.h:530-542 | an id containing `|` makes renderings ambiguous: `REF<a|b>` renders two references that are not `==` |
| Arcs.RefToStrIdentifiesRef | src/wasm/cpp/arcs.h:530-542 | before dereferencing, and for ids without `|`, equal renderings mean equal references |
| Scenarios.ItemsSnapshot | src/wasm/cpp/arcs.h:352-355 | a snapshot of two entities with distinct ids gives a cache of exactly those two |
| Scenarios.ItemsDelta | src/wasm/cpp/arcs.h:357-364 | the delta (added c, removed a) on the cache {a} leaves {c} |
| Scenarios.ItemsScenario | src/wasm/cpp/arcs.h:352-364 | snapshot [a, b], local remove of b, then delta (added c, removed a) leaves exactly {c} |
| Scenarios.ItemsRun | src/wasm/cpp/arcs.h:352-409 | the same run on a `Collection` object connected InOut: two entities after the sync, exactly {c} at the end |
| Scenarios.SyncSnapshot | src/wasm/cpp/arcs.h:352-355 | `sync` with the encoded snapshot [a, b] leaves exactly a and b |
| Scenarios.RemoveLocally | src/wasm/cpp/arcs.h:402-409 | an InOut `remove(b)` on {a, b} leaves {a} |
| Scenarios.Memoisation | src/wasm/cpp/arcs.h:445-474 | a reference is requested once; after the answer a copy of it resolves at once, so the host saw exactly one request and the copy holds the answered entity; a repeated answer throws |
| Scenarios.RequestOnce | src/wasm/cpp/arcs.h:686-689 | the first dereference of a fresh reference stores its continuation under id 1 and sends one request |
| Scenarios.AnswerOnce | src/wasm/cpp/arcs.h:691-694 | the answer for id 1 fills the shared payload, marks it fetched and erases id 1 |
| Scenarios.AnswerAgain | src/wasm/cpp/arcs.h:691-694 | an answer for an id no longer in the table throws |
| Scenarios.ApplyDelta | src/wasm/cpp/arcs.h:357-364 | `update` with encoded added [c] and removed [a.id] on {a} leaves {c} |

## Findings

| source | as written | input that shows it | evidently intended | confidence | as-written member | corrected member |
|---|---|---|---|---|---|---|
| src/wasm/cpp/arcs.h:398-400 | `Collection::store` updates an InOut handle's cache with `entities_.emplace(id, …)`, and `emplace` does nothing when the id is already held | an InOut collection holding `e1 → {n: 1}`; the particle stores `{id: e1, n: 2}`, and the host returns no new id | the cache holds the entity just written, as `add` does by erasing before emplacing (line 425) | medium, not executed | Cache.StoreEcho, Cache.StoreEchoKeepsStaleEntry | Cache.StoreEchoReplacing |

`Arcs.Collection.Store` models the code as written, so its `ensures` uses
`Cache.StoreEcho`.

## Left out

- Arcs.Collection.Store: models the emplace as written, not the corrected echo; see Findings.
- Arcs.Resolve, Arcs.Particle.DereferenceResponse: an answer that fails to decode stops with `Undecodable`, keeps the continuation and leaves the payload as it was. Fields the C++ decoder may already have written before the failing `validate` are not modelled. A successful answer replaces the payload's entity as a whole, while the C++ decodes into the payload's existing entity without resetting it first; when two requests for one reference are in flight, the second answer meets an already filled entity, and fields it does not set would keep their earlier values there. A null `encoded` pointer is not modelled; the answer is always a string.
- Arcs.DereferenceRef: the C++ wrapper lambda captures the `Ref` object (`this`) and reads `payload_` through it when the answer arrives (lines 466-468). The model's continuation holds the payload that was shared at dispatch. It therefore captures neither of two hazards:
  - a `Ref` destroyed before the answer arrives;
  - a `Ref` object reassigned before the answer arrives. There the answer is decoded into the NEW reference's payload, which is then marked dereferenced and holds the old reference's entity. This happens in the documented usage (lines 451-456): `data_.get()` returns the singleton's `entity_`, which a `sync` replaces with a fresh `T(this)` (line 285), so a sync between request and answer leaves the new reference dereferenced to the wrong entity. The model binds the payload at dispatch, which is the evident intent.
- Arcs.DecodeRefInto: the C++ writes the id into the reference before validating the rest. The model returns a `Result` and does not model that partial write.
- Continuation code: what a particle's continuation does when it runs is not modelled. The model reports that it runs (`Resolved`, `ranNow`) by a `CallbackId`.
- Entity classes: the generated per-schema classes are represented by one `Entity` value with a list of set fields. Field types, `num_to_str` and typed field tags are not modelled.
- Strings: every string is a sequence of characters. The NUL-terminated `const char*` boundary to the host (`c_str()` at lines 303, 361, 391, 405 and 424) is not modelled. A value containing `'\0'` would reach the host cut short at the first NUL, while `Host.calls` records the whole `EncodeEntity(e)` and the round-trip lemmas cover such values too. Lengths read by `getInt`/`chomp` count characters, where the C++ counts bytes.
- Codec layout: `StringDecoder`/`StringEncoder` bodies, `StringPrinter` and the dictionary codec are not part of this model, so the token layout is the model's own (see above). `Entities.EntityToStr` joins `name: value` pairs as a stand-in for `StringPrinter`.
- Arcs.Singleton.Sync: the model string is never null here. A null model, and what the generated `decode_entity` does with one, is not modelled. On a failed decode the model leaves the fresh `T()`; the C++ decodes in place into `entity_`, so fields written before the failing `validate` would stay. The same holds for `Arcs.Singleton.Update`, which is a sync.
- `Singleton<Ref<T>>` and `Collection<Ref<T>>` are not modelled; handles hold entities. A reference gets its handle when it is made (`NewRef`).
- `Collection::begin`/`end` and `WrappedIter`: iteration over the cache is not modelled. The cache is a map and is read directly.
- `Ref::is_dereferenced` and `Ref::entity` are plain reads of the payload. The model reads `r.payload.dereferenced` and `r.payload.entity`.
- `hash_entity`, `hash_combine` and the `std::hash` specialisation: bit mixing over an unseen library hash.
- `get_id`/`set_id`/`make_ref`: plain field accessors.
- `registerHandle`, `connectHandle`, `Particle::sync`/`update`, `onHandleSync`/`onHandleUpdate`, rendering, services and logging: declared only, or host pass-throughs.
- The `free` of the id buffer returned by the host: memory management.
- Ownership and lifetimes (`unique_ptr`, `shared_ptr`, raw back-pointers) are not modelled. Objects are garbage-collected Dafny objects.
