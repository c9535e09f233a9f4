/**
  The particle-side storage layer of arcs.h: the Singleton and Collection
  handles with their local caches, the shared and memoising Ref, and the
  Particle's table of dereference continuations.

  Calls out to the host are appended to a Host object's call log. The id the
  host hands back from singletonSet / collectionStore is a parameter of the
  method that makes the call (None stands for a null pointer). Particle code
  that runs as a continuation is represented by a CallbackId; the model
  reports when a continuation runs, not what it does.
*/
module Arcs {
  import opened Results
  import opened Wire
  import opened Entities
  import Lex
  import Cache
  import Maps

  // ---- Host boundary ----

  /** size_t on wasm32. */
  const SizeMax: nat := 0xFFFF_FFFF

  type SizeT = n: nat | n <= SizeMax

  /** ++ on a size_t: wraps to 0 after SizeMax. */
  function NextId(id: SizeT): (n: SizeT)
    ensures n == (id + 1) % (SizeMax + 1)
  {
    if id == SizeMax then 0 else id + 1
  }

  /** The outbound calls of the Wasm-to-JS API that the storage layer makes. */
  datatype HostCall =
    | SingletonSet(handle: string, encoded: string)
    | SingletonClear(handle: string)
    | CollectionStore(handle: string, encoded: string)
    | CollectionRemove(handle: string, encoded: string)
    | CollectionClear(handle: string)
    | DereferenceRequest(handle: string, refId: string, continuationId: SizeT)

  class Host {
    var calls: seq<HostCall>

    constructor ()
      ensures calls == []
    {
      calls := [];
    }
  }

  // ---- Directions ----

  datatype Direction = Unconnected | In | Out | InOut

  /** How many direction faults a check against `bad` records. */
  function Fault(dir: Direction, bad: Direction): nat
  {
    if dir == bad then 1 else 0
  }

  // ---- Dereference continuations ----

  /** Particle code run as a continuation, by identity. */
  type CallbackId = nat

  /** The data a Ref and all its copies share: the fetched entity and whether
      it has been fetched. */
  class Payload {
    var entity: Entity
    var dereferenced: bool

    constructor ()
      ensures entity == EmptyEntity && !dereferenced
    {
      entity := EmptyEntity;
      dereferenced := false;
    }
  }

  /** A DerefContinuation (std::function<void(const char*)>): either empty
      (what operator[] default-constructs) or the wrapper Ref::dereference
      builds, which decodes into a payload and then runs the caller's code. */
  datatype DerefContinuation = EmptyFunction | ResolveInto(payload: Payload, callback: CallbackId)

  datatype ResponseOutcome =
    | Resolved(callback: CallbackId)   // the payload was filled in and the callback ran
    | Undecodable(error: DecodeError)  // decode_entity hit a fatal validation failure
    | BadFunctionCall                  // an empty std::function was called, which throws

  type Continuations = map<SizeT, DerefContinuation>

  /** Every id in the table was issued by the counter, which has not wrapped. */
  ghost predicate IssuedUpTo(t: Continuations, counter: SizeT)
  {
    forall k :: k in t ==> 0 < k <= counter
  }

  /** The objects a response for `id` writes to. */
  function Targets(t: Continuations, id: SizeT): set<object>
  {
    if id in t && t[id].ResolveInto? then {t[id].payload} else {}
  }

  /** Until the counter wraps, the pre-incremented id is above every earlier one,
      so it is never already in the table and emplace stores the continuation. */
  lemma DispatchIsFresh(t: Continuations, counter: SizeT, fn: DerefContinuation)
    requires IssuedUpTo(t, counter) && counter < SizeMax
    ensures NextId(counter) > counter && NextId(counter) !in t
    ensures Maps.Emplace(t, NextId(counter), fn) == t[NextId(counter) := fn]
    ensures IssuedUpTo(t[NextId(counter) := fn], NextId(counter))
  {
  }

  class Particle {
    const host: Host
    var continuations: Continuations
    var continuationId: SizeT

    ghost predicate IdsIssued()
      reads this
    {
      IssuedUpTo(continuations, continuationId)
    }

    constructor (host: Host)
      ensures this.host == host && continuations == map[] && continuationId == 0
      ensures IdsIssued()
    {
      this.host := host;
      continuations := map[];
      continuationId := 0;
    }

    /** Stores `fn` under the next id and asks the host to resolve `refId`
        under that same id. */
    method Dereference(handle: Handle, refId: string, fn: DerefContinuation)
      modifies this, host
      ensures continuationId == NextId(old(continuationId))
      ensures continuations == Maps.Emplace(old(continuations), continuationId, fn)
      ensures host.calls == old(host.calls) + [DereferenceRequest(handle.name, refId, continuationId)]
      ensures old(IdsIssued()) && old(continuationId) < SizeMax ==>
        IdsIssued() && continuationId > old(continuationId) &&
        continuationId !in old(continuations) && continuations == old(continuations)[continuationId := fn]
    {
      ghost var table, counter := continuations, continuationId;
      continuationId := NextId(continuationId);
      continuations := Maps.Emplace(continuations, continuationId, fn);
      host.calls := host.calls + [DereferenceRequest(handle.name, refId, continuationId)];
      if IssuedUpTo(table, counter) && counter < SizeMax {
        DispatchIsFresh(table, counter, fn);
      }
    }

    /** Runs the continuation stored under `id` with the host's answer, then
        erases it. */
    method DereferenceResponse(id: SizeT, encoded: string) returns (outcome: ResponseOutcome)
      modifies this, Targets(continuations, id)
      ensures continuationId == old(continuationId)
      ensures id !in old(continuations) || old(continuations)[id].EmptyFunction? ==>
        outcome == BadFunctionCall && continuations == old(continuations)[id := EmptyFunction]
      ensures id in old(continuations) && old(continuations)[id].ResolveInto? ==>
        var fn, answer := old(continuations)[id], DecodeEntity(encoded);
        if answer.Success? then
          outcome == Resolved(fn.callback) && fn.payload.entity == answer.value && fn.payload.dereferenced &&
          continuations == old(continuations) - {id} && id !in continuations
        else
          outcome == Undecodable(answer.error) && unchanged(fn.payload) && continuations == old(continuations)
      ensures old(IdsIssued()) && id in old(continuations) ==> IdsIssued()
    {
      var fn := if id in continuations then continuations[id] else EmptyFunction;
      continuations := continuations[id := fn];
      if fn.ResolveInto? {
        outcome := Resolve(fn.payload, fn.callback, encoded);
        if outcome.Resolved? {
          continuations := continuations - {id};
        }
      } else {
        outcome := BadFunctionCall;
      }
    }
  }

  /** The wrapper Ref::dereference stores: decode the answer into the shared
      payload, mark it fetched, then run the caller's continuation. */
  method Resolve(payload: Payload, callback: CallbackId, encoded: string) returns (outcome: ResponseOutcome)
    modifies payload
    ensures match DecodeEntity(encoded)
      case Success(e) => outcome == Resolved(callback) && payload.entity == e && payload.dereferenced
      case Failure(err) => outcome == Undecodable(err) && unchanged(payload)
  {
    match DecodeEntity(encoded) {
      case Failure(err) =>
        outcome := Undecodable(err);
      case Success(e) =>
        payload.entity := e;
        payload.dereferenced := true;
        outcome := Resolved(callback);
    }
  }

  // ---- Handles ----

  /** The part every handle shares: its name, its direction (fixed when the
      particle connects it) and the particle that owns it. */
  class Handle {
    const name: string
    const dir: Direction
    const particle: Particle
    /** Number of failed direction checks so far. */
    ghost var faults: nat

    constructor (name: string, dir: Direction, particle: Particle)
      ensures this.name == name && this.dir == dir && this.particle == particle && faults == 0
    {
      this.name := name;
      this.dir := dir;
      this.particle := particle;
      faults := 0;
    }

    /** failForDirection: a check that the handle is not connected as `bad`.
        Callers ignore the answer and carry on. */
    method FailForDirection(bad: Direction) returns (failed: bool)
      modifies this
      ensures failed == (dir == bad)
      ensures faults == old(faults) + Fault(dir, bad)
    {
      failed := dir == bad;
      if failed {
        faults := faults + 1;
      }
    }

    /** Handle::dereference: forwards to the owning particle with itself as the handle. */
    method Dereference(refId: string, fn: DerefContinuation)
      modifies particle, particle.host
      ensures particle.continuationId == NextId(old(particle.continuationId))
      ensures particle.continuations == Maps.Emplace(old(particle.continuations), particle.continuationId, fn)
      ensures particle.host.calls == old(particle.host.calls) + [DereferenceRequest(name, refId, particle.continuationId)]
      ensures old(particle.IdsIssued()) && old(particle.continuationId) < SizeMax ==>
        particle.IdsIssued() && particle.continuationId !in old(particle.continuations)
    {
      particle.Dereference(this, refId, fn);
    }
  }

  /** The entity a particle-side write ends up as: the id the host returned,
      if any, and the data fields unchanged. */
  function Stamped(e: Entity, hostId: Option<string>): (r: Entity)
    ensures r.fields == e.fields
    ensures r.id == (if hostId.Some? then hostId.value else e.id)
  {
    if hostId.Some? then e.(id := hostId.value) else e
  }

  /** The entity a singleton holds after a sync or update with `model`: the
      decoded entity, or the fresh T() when decoding fails. Either way it is
      well formed, so encoding it for the host and decoding that gives it back. */
  function SyncedEntity(model: string): (e: Entity)
    ensures DecodeEntity(model).Success? ==> e == DecodeEntity(model).value
    ensures WellFormed(e) && DecodeEntity(EncodeEntity(e)) == Success(e)
  {
    var e := match DecodeEntity(model)
      case Success(e) => e
      case Failure(_) => EmptyEntity;
    DecodeEncodedEntity(e);
    e
  }

  /** A sync of an encoded entity restores exactly that entity. */
  lemma SyncedEntityOfEncoded(e: Entity)
    requires WellFormed(e)
    ensures SyncedEntity(EncodeEntity(e)) == e
  {
    DecodeEncodedEntity(e);
  }

  class Singleton {
    const handle: Handle
    var entity: Entity

    constructor (handle: Handle)
      ensures this.handle == handle && entity == EmptyEntity
    {
      this.handle := handle;
      entity := EmptyEntity;
    }

    method Sync(model: string) returns (ok: bool)
      modifies this, handle
      ensures entity == SyncedEntity(model)
      ensures ok == DecodeEntity(model).Success?
      ensures handle.faults == old(handle.faults) + Fault(handle.dir, Out)
    {
      var _ := handle.FailForDirection(Out);
      entity := EmptyEntity;
      match DecodeEntity(model) {
        case Success(e) =>
          entity := e;
          ok := true;
        case Failure(_) =>
          ok := false;
      }
    }

    /** A singleton update is a sync with the new model; the second argument is unused. */
    method Update(model: string, ignored: string) returns (ok: bool)
      modifies this, handle
      ensures entity == SyncedEntity(model)
      ensures ok == DecodeEntity(model).Success?
      ensures handle.faults == old(handle.faults) + Fault(handle.dir, Out)
    {
      ok := Sync(model);
    }

    method Get() returns (e: Entity)
      modifies handle
      ensures e == entity
      ensures handle.faults == old(handle.faults) + Fault(handle.dir, Out)
    {
      var _ := handle.FailForDirection(Out);
      e := entity;
    }

    /** Sends the entity to the host and returns it with the id the host
        assigned; only an InOut handle keeps a local copy. */
    method Set(e: Entity, hostId: Option<string>) returns (written: Entity)
      modifies this, handle, handle.particle.host
      ensures written == Stamped(e, hostId)
      ensures handle.particle.host.calls == old(handle.particle.host.calls) + [SingletonSet(handle.name, EncodeEntity(e))]
      ensures entity == (if handle.dir == InOut then written else old(entity))
      ensures handle.faults == old(handle.faults) + Fault(handle.dir, In)
    {
      var _ := handle.FailForDirection(In);
      var encoded := EncodeEntity(e);
      var host := handle.particle.host;
      host.calls := host.calls + [SingletonSet(handle.name, encoded)];
      written := e;
      if hostId.Some? {
        written := written.(id := hostId.value);
      }
      if handle.dir == InOut {
        entity := written;
      }
    }

    method Clear()
      modifies this, handle, handle.particle.host
      ensures handle.particle.host.calls == old(handle.particle.host.calls) + [SingletonClear(handle.name)]
      ensures entity == (if handle.dir == InOut then EmptyEntity else old(entity))
      ensures handle.faults == old(handle.faults) + Fault(handle.dir, In)
    {
      var _ := handle.FailForDirection(In);
      var host := handle.particle.host;
      host.calls := host.calls + [SingletonClear(handle.name)];
      if handle.dir == InOut {
        entity := EmptyEntity;
      }
    }
  }

  class Collection {
    const handle: Handle
    var entities: Cache.Cache

    /** entities_ holds each entity under its own id. */
    ghost predicate Valid()
      reads this
    {
      Cache.IdConsistent(entities)
    }

    constructor (handle: Handle)
      ensures this.handle == handle && entities == map[] && Valid()
    {
      this.handle := handle;
      entities := map[];
    }

    /** Replaces the cache with the records of the snapshot. */
    method Sync(model: string) returns (ok: bool)
      modifies this, handle
      ensures entities == Cache.Added(map[], DecodeRecords(model).items)
      ensures ok == DecodeRecords(model).complete
      ensures Valid()
      ensures handle.faults == old(handle.faults) + Fault(handle.dir, Out)
    {
      entities := map[];
      ok := Add(model);
    }

    /** Adds every record of `added`, then erases every id of `removed`. */
    method Update(added: string, removed: string) returns (ok: bool)
      modifies this, handle
      ensures var adds := DecodeRecords(added);
              var removals := DecodeIds(removed);
              && ok == (adds.complete && removals.complete)
              && entities == (if adds.complete then Cache.Updated(old(entities), adds.items, removals.items)
                              else Cache.Added(old(entities), adds.items))
      ensures handle.faults == old(handle.faults) + Fault(handle.dir, Out)
      ensures old(Valid()) ==> Valid()
    {
      ok := Add(added);
      if ok {
        ok := RemoveIds(removed);
      }
    }

    /** The removal half of update(): decodes the id list and erases each id. */
    method RemoveIds(removed: string) returns (ok: bool)
      modifies this
      ensures entities == Cache.Removed(old(entities), DecodeIds(removed).items)
      ensures ok == DecodeIds(removed).complete
      ensures old(Valid()) ==> Valid()
    {
      ghost var base := entities;
      var chunks := ScanList(removed);
      ghost var all := DecodeAll(chunks.items, DecodeId);
      ghost var ids: seq<string> := [];
      var i := 0;
      while i < |chunks.items|
        invariant 0 <= i <= |chunks.items|
        invariant entities == Cache.Removed(base, ids)
        invariant all == Prepend(ids, DecodeAll(chunks.items[i..], DecodeId))
      {
        DecodeAllAdvance(chunks.items, i, ids, all, DecodeId);
        var r := DecodeId(chunks.items[i]);
        if r.Failure? {
          return false;
        }
        entities := entities - {r.value};
        Cache.RemovedOneMore(base, ids, r.value);
        ids := ids + [r.value];
        i := i + 1;
      }
      DecodeAllFinished(chunks.items, ids, all, DecodeId);
      ok := chunks.complete;
    }

    /** The private add(): decodes the list and, for each record, erases the
        id before emplacing, so the record replaces any entry under its id. */
    method Add(added: string) returns (ok: bool)
      modifies this, handle
      ensures entities == Cache.Added(old(entities), DecodeRecords(added).items)
      ensures ok == DecodeRecords(added).complete
      ensures handle.faults == old(handle.faults) + Fault(handle.dir, Out)
      ensures old(Valid()) ==> Valid()
    {
      var _ := handle.FailForDirection(Out);
      ok := AddRecords(added);
    }

    /** The decodeList pass of add(). */
    method AddRecords(added: string) returns (ok: bool)
      modifies this
      ensures entities == Cache.Added(old(entities), DecodeRecords(added).items)
      ensures ok == DecodeRecords(added).complete
      ensures old(Valid()) ==> Valid()
    {
      ghost var base := entities;
      if Valid() {
        Cache.AddedIdConsistent(base, DecodeRecords(added).items);
      }
      var chunks := ScanList(added);
      ghost var all := DecodeAll(chunks.items, DecodeEntity);
      ghost var records: seq<Entity> := [];
      var i := 0;
      while i < |chunks.items|
        invariant 0 <= i <= |chunks.items|
        invariant entities == Cache.Added(base, records)
        invariant all == Prepend(records, DecodeAll(chunks.items[i..], DecodeEntity))
      {
        DecodeAllAdvance(chunks.items, i, records, all, DecodeEntity);
        var r := DecodeEntity(chunks.items[i]);
        if r.Failure? {
          return false;
        }
        var e := r.value;
        entities := entities - {e.id};
        entities := Maps.Emplace(entities, e.id, e);
        Cache.AddedOneMore(base, records, e);
        records := records + [e];
        i := i + 1;
      }
      DecodeAllFinished(chunks.items, records, all, DecodeEntity);
      ok := chunks.complete;
    }

    method IsEmpty() returns (empty: bool)
      modifies handle
      ensures empty == (entities == map[])
      ensures handle.faults == old(handle.faults) + Fault(handle.dir, Out)
    {
      var _ := handle.FailForDirection(Out);
      empty := |entities| == 0;
    }

    method Size() returns (n: nat)
      modifies handle
      ensures n == |entities|
      ensures handle.faults == old(handle.faults) + Fault(handle.dir, Out)
    {
      var _ := handle.FailForDirection(Out);
      n := |entities|;
    }

    /** Sends the entity to the host and returns it with the id the host
        assigned; an InOut handle emplaces a copy into its cache. */
    method Store(e: Entity, hostId: Option<string>) returns (written: Entity)
      modifies this, handle, handle.particle.host
      ensures written == Stamped(e, hostId)
      ensures handle.particle.host.calls == old(handle.particle.host.calls) + [CollectionStore(handle.name, EncodeEntity(e))]
      ensures entities == (if handle.dir == InOut then Cache.StoreEcho(old(entities), written) else old(entities))
      ensures handle.faults == old(handle.faults) + Fault(handle.dir, In)
      ensures old(Valid()) ==> Valid()
    {
      var _ := handle.FailForDirection(In);
      var encoded := EncodeEntity(e);
      var host := handle.particle.host;
      host.calls := host.calls + [CollectionStore(handle.name, encoded)];
      written := e;
      if hostId.Some? {
        written := written.(id := hostId.value);
      }
      if handle.dir == InOut {
        entities := Maps.Emplace(entities, written.id, written);
      }
    }

    method Remove(e: Entity)
      modifies this, handle, handle.particle.host
      ensures handle.particle.host.calls == old(handle.particle.host.calls) + [CollectionRemove(handle.name, EncodeEntity(e))]
      ensures entities == (if handle.dir == InOut then old(entities) - {e.id} else old(entities))
      ensures handle.faults == old(handle.faults) + Fault(handle.dir, In)
      ensures old(Valid()) ==> Valid()
      ensures old(Valid()) && handle.dir == InOut ==> forall id :: id in entities ==> entities[id].id != e.id
    {
      var _ := handle.FailForDirection(In);
      var host := handle.particle.host;
      host.calls := host.calls + [CollectionRemove(handle.name, EncodeEntity(e))];
      if handle.dir == InOut {
        entities := entities - {e.id};
      }
    }

    method Clear()
      modifies this, handle, handle.particle.host
      ensures handle.particle.host.calls == old(handle.particle.host.calls) + [CollectionClear(handle.name)]
      ensures entities == (if handle.dir == InOut then map[] else old(entities))
      ensures handle.faults == old(handle.faults) + Fault(handle.dir, In)
      ensures old(Valid()) ==> Valid()
    {
      var _ := handle.FailForDirection(In);
      var host := handle.particle.host;
      host.calls := host.calls + [CollectionClear(handle.name)];
      if handle.dir == InOut {
        entities := map[];
      }
    }
  }

  // ---- References ----

  /** Ref<T>: the referenced entity's id and storage key, the handle it was
      read through (none for a detached reference) and the payload that all
      copies of the reference share. Copying a Ref copies the pointer. */
  datatype Ref = Ref(id: string, storageKey: string, handle: Option<Handle>, payload: Payload)

  /** Ref(handle): empty id and key, a fresh payload not yet dereferenced. */
  method NewRef(handle: Option<Handle>) returns (r: Ref)
    ensures fresh(r.payload) && r == Ref("", "", handle, r.payload)
    ensures r.payload.entity == EmptyEntity && !r.payload.dereferenced
  {
    var payload := new Payload();
    r := Ref("", "", handle, payload);
  }

  /** The objects a dereference through `r` may write to. */
  function RefOwner(r: Ref): set<object>
  {
    if r.handle.Some? then {r.handle.value.particle, r.handle.value.particle.host} else {}
  }

  /** Ref::dereference. `ranNow` tells whether the continuation ran during
      this call. Otherwise, for a bound reference, exactly one request goes
      out, tagged with a continuation that fills in the shared payload. */
  method DereferenceRef(r: Ref, callback: CallbackId) returns (ranNow: bool)
    modifies RefOwner(r)
    ensures ranNow == r.payload.dereferenced
    ensures r.handle.Some? && !r.payload.dereferenced ==>
      var h := r.handle.value;
      && h.particle.continuationId == NextId(old(h.particle.continuationId))
      && h.particle.continuations ==
         Maps.Emplace(old(h.particle.continuations), h.particle.continuationId, ResolveInto(r.payload, callback))
      && h.particle.host.calls == old(h.particle.host.calls) + [DereferenceRequest(h.name, r.id, h.particle.continuationId)]
    ensures r.handle.Some? && r.payload.dereferenced ==>
      unchanged(r.handle.value.particle, r.handle.value.particle.host)
  {
    if r.payload.dereferenced {
      ranNow := true;
    } else if r.handle.Some? {
      ranNow := false;
      r.handle.value.Dereference(r.id, ResolveInto(r.payload, callback));
    } else {
      ranNow := false;
    }
  }

  /** operator==: only the id and the storage key take part. It is the
      equivalence of the compare() order that operator< uses. */
  function RefEquals(a: Ref, b: Ref): (eq: bool)
    ensures eq <==> Lex.Compare(a.id, b.id) == 0 && Lex.Compare(a.storageKey, b.storageKey) == 0
  {
    a.id == b.id && a.storageKey == b.storageKey
  }

  function RefNotEquals(a: Ref, b: Ref): (r: bool)
    ensures r <==> a.id != b.id || a.storageKey != b.storageKey
  {
    !RefEquals(a, b)
  }

  /** operator<: by id, then by storage key. It never holds between equal
      references. */
  function RefLess(a: Ref, b: Ref): (lt: bool)
    ensures lt ==> !RefEquals(a, b)
    ensures a.id != b.id ==> (lt <==> Lex.Compare(a.id, b.id) < 0)
    ensures a.id == b.id ==> (lt <==> Lex.Compare(a.storageKey, b.storageKey) < 0)
  {
    var cmp := Lex.Compare(a.id, b.id);
    if cmp != 0 then cmp < 0 else Lex.Compare(a.storageKey, b.storageKey) < 0
  }

  lemma RefLessTransitive(a: Ref, b: Ref, c: Ref)
    requires RefLess(a, b) && RefLess(b, c)
    ensures RefLess(a, c)
  {
    if Lex.Compare(a.id, b.id) != 0 && Lex.Compare(b.id, c.id) != 0 {
      Lex.CompareTransitive(a.id, b.id, c.id);
    } else if Lex.Compare(a.id, b.id) == 0 && Lex.Compare(b.id, c.id) == 0 {
      Lex.CompareTransitive(a.storageKey, b.storageKey, c.storageKey);
    }
  }

  /** For any two references exactly one of a < b, a == b and b < a holds:
      operator< is a strict total order whose equivalence is operator==. */
  lemma RefOrderTrichotomy(a: Ref, b: Ref)
    ensures (if RefLess(a, b) then 1 else 0) + (if RefEquals(a, b) then 1 else 0) + (if RefLess(b, a) then 1 else 0) == 1
  {
    Lex.CompareFlip(a.id, b.id);
    Lex.CompareFlip(a.storageKey, b.storageKey);
  }

  // ---- Accessor specialisations for references ----

  /** clone_entity: the reference itself, sharing its payload (unlike an
      entity clone, the id is kept). */
  function CloneRef(r: Ref): (c: Ref)
    ensures RefEquals(c, r) && c.payload == r.payload && c.handle == r.handle
  {
    r
  }

  /** fields_equal on references is operator==. */
  function FieldsEqualRef(a: Ref, b: Ref): (eq: bool)
    ensures eq <==> a.id == b.id && a.storageKey == b.storageKey
  {
    RefEquals(a, b)
  }

  /** encode_entity: the id and the storage key as two string values. */
  function EncodeRef(r: Ref): (s: string)
    ensures DecodeString(s) == Success((r.id, "|" + EncodeString("", r.storageKey)))
  {
    DecodeEncodedString(r.id, EncodeString("", r.storageKey));
    EncodeString("", r.id) + EncodeString("", r.storageKey)
  }

  /** decode_entity into an existing reference: a null string leaves it as it
      is; otherwise id, '|', storage key, '|'. Handle and payload are kept. */
  function DecodeRefInto(r: Ref, str: Option<string>): (res: Result<Ref, DecodeError>)
    ensures str.None? ==> res == Success(r)
    ensures res.Success? ==> res.value == r.(id := res.value.id, storageKey := res.value.storageKey)
  {
    if str.None? then Success(r)
    else
      var (id, afterId) :- DecodeString(str.value);
      var rest :- Validate(afterId, "|");
      var (key, afterKey) :- DecodeString(rest);
      var _ :- Validate(afterKey, "|");
      Success(r.(id := id, storageKey := key))
  }

  /** Decoding an encoded reference into any reference gives one equal to it. */
  lemma DecodeEncodedRef(target: Ref, r: Ref)
    ensures DecodeRefInto(target, Some(EncodeRef(r))) == Success(target.(id := r.id, storageKey := r.storageKey))
    ensures RefEquals(target.(id := r.id, storageKey := r.storageKey), r)
  {
    var keyPart := EncodeString("", r.storageKey);
    DecodeEncodedString(r.id, keyPart);
    assert Validate("|" + keyPart, "|") == Success(keyPart);
    DecodeEncodedString(r.storageKey, "");
    assert keyPart + "" == keyPart;
    assert Validate("|" + "", "|") == Success("");
  }

  /** Two references are == exactly when encode_entity writes the same
      string for both. */
  lemma RefEqualsIffSameEncoding(a: Ref, b: Ref)
    ensures RefEquals(a, b) <==> EncodeRef(a) == EncodeRef(b)
  {
    if EncodeRef(a) == EncodeRef(b) {
      var ka, kb := EncodeString("", a.storageKey), EncodeString("", b.storageKey);
      assert "|" + ka == "|" + kb;
      assert ka == ("|" + ka)[1..] == kb;
      DecodeEncodedString(a.storageKey, "");
      DecodeEncodedString(b.storageKey, "");
      assert ka + "" == ka && kb + "" == kb;
    }
  }

  /** entity_to_str: REF<id, then |key when there is a key, then |entity when
      the payload has been fetched, then >. */
  function RefToStr(r: Ref): (s: string)
    reads r.payload
    ensures |s| >= 5 + |r.id| && s[..4] == "REF<" && s[|s| - 1] == '>'
  {
    "REF<" + r.id
      + (if r.storageKey != "" then "|" + r.storageKey else "")
      + (if r.payload.dereferenced then "|" + EntityToStr(r.payload.entity, ", ") else "")
      + ">"
  }

  lemma Unwrapped(x: string, y: string)
    requires "REF<" + x + ">" == "REF<" + y + ">"
    ensures x == y
  {
    assert x == ("REF<" + x + ">")[4..|x| + 4];
  }

  /** Without the requirement below that ids hold no '|', two different
      references can render alike: REF<a|b> is both id "a|b" with no key and
      id "a" with key "b". */
  lemma RefToStrAmbiguousWithSeparator(p: Payload)
    requires !p.dereferenced
    ensures var joined, split := Ref("a|b", "", None, p), Ref("a", "b", None, p);
            RefToStr(joined) == RefToStr(split) && !RefEquals(joined, split)
  {
  }

  /** Before either is fetched, and when ids contain no '|', the rendering of
      two references tells them apart exactly as operator== does. */
  lemma RefToStrIdentifiesRef(a: Ref, b: Ref)
    requires !a.payload.dereferenced && !b.payload.dereferenced
    requires '|' !in a.id && '|' !in b.id
    requires RefToStr(a) == RefToStr(b)
    ensures RefEquals(a, b)
  {
    var ia := a.id + (if a.storageKey != "" then "|" + a.storageKey else "");
    var ib := b.id + (if b.storageKey != "" then "|" + b.storageKey else "");
    assert RefToStr(a) == "REF<" + ia + ">";
    assert RefToStr(b) == "REF<" + ib + ">";
    Unwrapped(ia, ib);
    if a.storageKey != "" {
      assert ia == a.id + ['|'] + a.storageKey;
      UpToSplit(a.id, a.storageKey, '|');
    } else {
      assert ia == a.id;
    }
    if b.storageKey != "" {
      assert ib == b.id + ['|'] + b.storageKey;
      UpToSplit(b.id, b.storageKey, '|');
    } else {
      assert ib == b.id;
    }
  }
}
