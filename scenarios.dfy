/**
  Concrete runs of the storage layer as a particle and its host drive it:
  the collection run on the cache functions the Collection class is proved
  against and on a Collection object, a reference fetched once, and two
  small runs on a singleton and on the continuation table.
*/
module Scenarios {
  import opened Results
  import opened Wire
  import opened Entities
  import opened Arcs

  /** The snapshot {a, b} as the cache holds it. */
  lemma ItemsSnapshot(a: Entity, b: Entity)
    requires a.id != b.id
    ensures Cache.Added(map[], [a, b]) == map[a.id := a, b.id := b]
    ensures |map[a.id := a, b.id := b]| == 2
  {
    assert [] + [a] == [a] && [a] + [b] == [a, b];
    Cache.AddedOneMore(map[], [], a);
    Cache.AddedOneMore(map[], [a], b);
    var one: Cache.Cache := map[a.id := a];
    assert |one| == 1;
    assert b.id !in one && one[b.id := b] == map[a.id := a, b.id := b];
  }

  /** The delta (added c, removed a) applied to the cache {a}. */
  lemma ItemsDelta(a: Entity, c: Entity)
    requires a.id != c.id
    ensures Cache.Updated(map[a.id := a], [c], [a.id]) == map[c.id := c]
  {
    assert [] + [c] == [c];
    Cache.AddedOneMore(map[a.id := a], [], c);
    assert (set id | id in [a.id]) == {a.id};
    assert map[a.id := a, c.id := c] - {a.id} == map[c.id := c];
  }

  /** A read-write collection: the host syncs the snapshot [a, b], the
      particle removes b (an InOut handle erases it locally), then the host
      sends a delta adding [c] and removing [a.id]. Only c is left. These are
      the records and ids that EncodeRecords and EncodeIds messages decode to
      (DecodeEncodedRecords, DecodeEncodedIds). */
  lemma ItemsScenario(a: Entity, b: Entity, c: Entity)
    requires a.id != b.id && a.id != c.id && b.id != c.id
    ensures var synced := Cache.Added(map[], [a, b]);
            && |synced| == 2 && |synced - {b.id}| == 1
            && Cache.Updated(synced - {b.id}, [c], [a.id]) == map[c.id := c]
  {
    ItemsSnapshot(a, b);
    assert map[a.id := a, b.id := b] - {b.id} == map[a.id := a];
    ItemsDelta(a, c);
  }

  /** The same run on a Collection object connected InOut, one step per
      method: the host's snapshot, the particle's remove, the host's delta. */
  method ItemsRun(a: Entity, b: Entity, c: Entity) returns (held: Cache.Cache, sizeAfterSync: nat)
    requires WellFormed(a) && WellFormed(b) && WellFormed(c)
    requires a.id != b.id && a.id != c.id && b.id != c.id
    ensures sizeAfterSync == 2
    ensures held == map[c.id := c]
  {
    var host := new Host();
    var particle := new Particle(host);
    var handle := new Handle("items", InOut, particle);
    var items := new Collection(handle);
    SyncSnapshot(items, a, b);
    sizeAfterSync := items.Size();
    RemoveLocally(items, a, b);
    ApplyDelta(items, a, c);
    held := items.entities;
  }

  /** sync() with the encoded snapshot [a, b]. */
  method SyncSnapshot(items: Collection, a: Entity, b: Entity)
    requires WellFormed(a) && WellFormed(b) && a.id != b.id
    modifies items, items.handle
    ensures items.entities == map[a.id := a, b.id := b]
  {
    var records := [a, b];
    assert forall i :: 0 <= i < |records| ==> WellFormed(records[i]);
    DecodeEncodedRecords(records);
    var _ := items.Sync(EncodeRecords(records));
    ItemsSnapshot(a, b);
  }

  /** The particle removes b; an InOut handle erases it from its cache. */
  method RemoveLocally(items: Collection, a: Entity, b: Entity)
    requires items.handle.dir == InOut && a.id != b.id
    requires items.entities == map[a.id := a, b.id := b]
    modifies items, items.handle, items.handle.particle.host
    ensures items.entities == map[a.id := a]
  {
    items.Remove(b);
    assert map[a.id := a, b.id := b] - {b.id} == map[a.id := a];
  }

  /** update() with the encoded delta: added [c], removed [a.id]. */
  method ApplyDelta(items: Collection, a: Entity, c: Entity)
    requires WellFormed(c) && a.id != c.id
    requires items.entities == map[a.id := a]
    modifies items, items.handle
    ensures items.entities == map[c.id := c]
  {
    var records := [c];
    assert forall i :: 0 <= i < |records| ==> WellFormed(records[i]);
    DecodeEncodedRecords(records);
    DecodeEncodedIds([a.id]);
    var _ := items.Update(EncodeRecords(records), EncodeIds([a.id]));
    ItemsDelta(a, c);
  }

  /** Dereferencing fetches at most once after the answer: the first
      dereference sends one request; once the host answers, a copy of the
      reference resolves at once without a second request; and answering
      the same continuation id again meets the empty function. */
  method Memoisation(e: Entity, encoded: string) returns (requests: nat, fetched: Entity, repeated: ResponseOutcome)
    requires DecodeEntity(encoded) == Success(e)
    ensures requests == 1 && fetched == e && repeated == BadFunctionCall
  {
    var host := new Host();
    var particle := new Particle(host);
    var handle := new Handle("data", In, particle);
    var r := NewRef(Some(handle));
    var copy := r;
    RequestOnce(particle, r);
    AnswerOnce(particle, r.payload, e, encoded);
    var ranAgain := DereferenceRef(copy, 2);
    assert ranAgain;
    requests := |host.calls|;
    fetched := copy.payload.entity;
    repeated := AnswerAgain(particle, encoded);
  }

  /** A second answer for id 1 finds no stored continuation. */
  method AnswerAgain(particle: Particle, encoded: string) returns (outcome: ResponseOutcome)
    requires 1 !in particle.continuations
    modifies particle
    ensures outcome == BadFunctionCall
  {
    assert Targets(particle.continuations, 1) == {};
    outcome := particle.DereferenceResponse(1, encoded);
  }

  /** The first dereference of a fresh reference: one request, under id 1. */
  method RequestOnce(particle: Particle, r: Ref)
    requires r.handle.Some? && r.handle.value.particle == particle && !r.payload.dereferenced
    requires particle.continuations == map[] && particle.continuationId == 0 && particle.host.calls == []
    modifies particle, particle.host
    ensures particle.continuations == map[1 := ResolveInto(r.payload, 1)]
    ensures |particle.host.calls| == 1
  {
    var ranNow := DereferenceRef(r, 1);
  }

  /** The host's answer for id 1 fills the payload and clears the table. */
  method AnswerOnce(particle: Particle, payload: Payload, e: Entity, encoded: string)
    requires DecodeEntity(encoded) == Success(e)
    requires particle.continuations == map[1 := ResolveInto(payload, 1)]
    modifies particle, payload
    ensures payload.entity == e && payload.dereferenced
    ensures 1 !in particle.continuations
  {
    assert particle.continuations[1] == ResolveInto(payload, 1);
    assert Targets(particle.continuations, 1) == {payload};
    var outcome := particle.DereferenceResponse(1, encoded);
  }

  /** A singleton connected as In (read-only for the particle) still forwards
      a set: the host's id lands on the written entity, the local copy stays
      empty, and the direction check records one fault. */
  method ReadOnlySingletonSet()
  {
    var host := new Host();
    var particle := new Particle(host);
    var handle := new Handle("data", In, particle);
    var data := new Singleton(handle);

    var e := Entity("", [Field("x", "1")]);
    var written := data.Set(e, Some("e7"));
    assert written == Entity("e7", [Field("x", "1")]);
    assert data.entity == EmptyEntity;
    assert host.calls == [SingletonSet("data", EncodeEntity(e))];
    assert handle.faults == 1;
  }

  /** An answer for an id with no stored continuation (never issued, or
      already answered) meets the empty function operator[] inserts. */
  method UnknownResponse(id: SizeT, encoded: string)
  {
    var host := new Host();
    var particle := new Particle(host);
    var outcome := particle.DereferenceResponse(id, encoded);
    assert outcome == BadFunctionCall;
    assert particle.continuations == map[id := EmptyFunction];
  }
}
