/**
  The value-level specification of a collection handle's local cache
  (Collection<T>::entities_, a map from internal id to entity): what adding a
  list of records, removing a list of ids and a particle-side store do to it.
  The Collection class in module Arcs is proved against these functions.
*/
module Cache {
  import opened Results
  import opened Entities
  import opened Maps

  type Cache = map<string, Entity>

  /** The cache after adding `records` in order; a record replaces any entry
      already held under its id. */
  function Added(m: Cache, records: seq<Entity>): Cache
  {
    if records == [] then m
    else
      var last := records[|records| - 1];
      var before := records[..|records| - 1];
      assert records == before + [last];
      Added(m, before)[last.id := last]
  }

  /** Adding keeps every id held before and holds every added record's id. */
  lemma {:induction false} AddedKeys(m: Cache, records: seq<Entity>)
    ensures Added(m, records).Keys == m.Keys + (set e | e in records :: e.id)
  {
    if records != [] {
      var before := records[..|records| - 1];
      AddedKeys(m, before);
      assert records == before + [records[|records| - 1]];
    }
  }

  /** One more record: erase its id, then emplace it, as add() does per record. */
  lemma AddedOneMore(m: Cache, records: seq<Entity>, e: Entity)
    ensures Added(m, records + [e]) == Emplace(Added(m, records) - {e.id}, e.id, e)
  {
    assert (records + [e])[..|records|] == records;
  }

  /** The last record in `records` that carries `id`, if any. */
  function LastWithId(records: seq<Entity>, id: string): Option<Entity>
  {
    if records == [] then None
    else if records[|records| - 1].id == id then Some(records[|records| - 1])
    else LastWithId(records[..|records| - 1], id)
  }

  /** An id is held after adding iff it was held before or some record carries
      it, and it then maps to the LAST such record. */
  lemma {:induction false} AddedLookup(m: Cache, records: seq<Entity>, id: string)
    ensures id in Added(m, records) <==> id in m || LastWithId(records, id).Some?
    ensures id in Added(m, records) ==>
      Added(m, records)[id] == (if LastWithId(records, id).Some? then LastWithId(records, id).value else m[id])
  {
    if records != [] {
      AddedLookup(m, records[..|records| - 1], id);
    }
  }

  lemma {:induction false} LastWithIdCarriesId(records: seq<Entity>, id: string)
    ensures LastWithId(records, id).Some? ==> LastWithId(records, id).value.id == id && LastWithId(records, id).value in records
  {
    if records != [] && records[|records| - 1].id != id {
      LastWithIdCarriesId(records[..|records| - 1], id);
    }
  }

  /** Every entry is held under its own entity's id. */
  predicate IdConsistent(m: Cache)
  {
    forall id :: id in m ==> m[id].id == id
  }

  /** Adding keeps every entry under its own id, since each record goes in
      under its id. */
  lemma {:induction false} AddedIdConsistent(m: Cache, records: seq<Entity>)
    requires IdConsistent(m)
    ensures IdConsistent(Added(m, records))
  {
    if records != [] {
      AddedIdConsistent(m, records[..|records| - 1]);
    }
  }

  /** The cache after erasing every id in `ids`. */
  function Removed(m: Cache, ids: seq<string>): Cache
  {
    m - (set id | id in ids)
  }

  /** One more id: erase it, as update() does per removed id. */
  lemma RemovedOneMore(m: Cache, ids: seq<string>, id: string)
    ensures Removed(m, ids + [id]) == Removed(m, ids) - {id}
  {
    assert (set x | x in ids + [id]) == (set x | x in ids) + {id};
  }

  /** update(added, removed): every add first, then every removal. */
  function Updated(m: Cache, added: seq<Entity>, removed: seq<string>): Cache
  {
    Removed(Added(m, added), removed)
  }

  /** What an update leaves: an id is held iff it is not removed and it was
      held before or added; an id both added and removed ends up absent. */
  lemma UpdatedLookup(m: Cache, added: seq<Entity>, removed: seq<string>, id: string)
    ensures id in Updated(m, added, removed) <==> id !in removed && (id in m || LastWithId(added, id).Some?)
    ensures id in Updated(m, added, removed) ==>
      Updated(m, added, removed)[id] == (if LastWithId(added, id).Some? then LastWithId(added, id).value else m[id])
  {
    AddedLookup(m, added, id);
  }

  lemma UpdatedIdConsistent(m: Cache, added: seq<Entity>, removed: seq<string>)
    requires IdConsistent(m)
    ensures IdConsistent(Added(m, added)) && IdConsistent(Updated(m, added, removed))
  {
    AddedIdConsistent(m, added);
  }

  /** Applying the same delta twice gives the same cache as applying it once. */
  lemma UpdateIdempotent(m: Cache, added: seq<Entity>, removed: seq<string>)
    ensures Updated(Updated(m, added, removed), added, removed) == Updated(m, added, removed)
  {
    var once := Updated(m, added, removed);
    var twice := Updated(once, added, removed);
    forall id | id in twice || id in once
      ensures id in twice && id in once && twice[id] == once[id]
    {
      UpdatedLookup(m, added, removed, id);
      UpdatedLookup(once, added, removed, id);
    }
    assert twice.Keys == once.Keys;
  }

  // ---- The particle-side store ----

  /** Collection::store's local echo as written: an emplace, which keeps any
      entry already held under the entity's id. */
  function StoreEcho(m: Cache, e: Entity): (r: Cache)
    ensures r.Keys == m.Keys + {e.id}
    ensures e.id in m ==> r == m
    ensures e.id !in m ==> r[e.id] == e && forall id :: id in m ==> r[id] == m[id]
  {
    Emplace(m, e.id, e)
  }

  /** Re-storing an entity under an id the cache already holds leaves the
      stale entry in place: the particle does not observe its own write. */
  lemma StoreEchoKeepsStaleEntry()
    ensures var held := Entity("e1", [Field("n", "1")]);
            var written := Entity("e1", [Field("n", "2")]);
            StoreEcho(map["e1" := held], written)["e1"] == held != written
  {
  }

  /** The echo built the way add() builds its entries at arcs.h:425-426:
      erase, then emplace, since emplace keeps an entry already held. The
      cache then holds exactly the written entity under its id. */
  function StoreEchoReplacing(m: Cache, e: Entity): (r: Cache)
    ensures r.Keys == m.Keys + {e.id}
    ensures r[e.id] == e
    ensures forall id :: id in m && id != e.id ==> r[id] == m[id]
  {
    Emplace(m - {e.id}, e.id, e)
  }
}
