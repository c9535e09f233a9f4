/**
  The schema entities that handles cache. The per-schema classes are
  generated code; this model represents every entity type by one value: the
  internal id (empty until the store assigns one) and the data fields that
  are set, in schema order. Unset fields are simply absent.

  encode_entity writes the id as a string value followed by one token per
  set field, `name:` then the field's value; decode_entity reads the id,
  validates the '|' after it, then reads fields until the input is done.
*/
module Entities {
  import opened Results
  import opened Wire

  datatype Field = Field(name: string, value: string)

  datatype Entity = Entity(id: string, fields: seq<Field>)

  /** T(): no id, no field set. */
  const EmptyEntity := Entity("", [])

  /** Schema field names are identifiers: they never contain the ':' that ends a name. */
  predicate WellFormed(e: Entity)
  {
    NamesWithoutColon(e.fields)
  }

  predicate NamesWithoutColon(fields: seq<Field>)
  {
    forall i :: 0 <= i < |fields| ==> ':' !in fields[i].name
  }

  function EncodeField(f: Field): string
  {
    EncodeString(f.name + ":", f.value)
  }

  function EncodeFields(fields: seq<Field>): string
  {
    if fields == [] then "" else EncodeField(fields[0]) + EncodeFields(fields[1..])
  }

  /** The first value of the encoding is the id, which is what the host reads
      first; the set fields follow. */
  function EncodeEntity(e: Entity): (s: string)
    ensures DecodeString(s) == Success((e.id, "|" + EncodeFields(e.fields)))
  {
    DecodeEncodedString(e.id, EncodeFields(e.fields));
    EncodeString("", e.id) + EncodeFields(e.fields)
  }

  /** Field tokens up to the end of the input; a name ends at the first ':',
      so no decoded name contains one. */
  function DecodeFields(s: string): (r: Result<seq<Field>, DecodeError>)
    ensures r.Success? ==> NamesWithoutColon(r.value)
    decreases |s|
  {
    if Done(s) then Success([])
    else
      var (name, afterName) :- UpTo(s, ':');
      var (value, afterValue) :- DecodeString(afterName);
      var rest :- Validate(afterValue, "|");
      var fields :- DecodeFields(rest);
      Success([Field(name, value)] + fields)
  }

  /** Every entity read from the host is well formed, so encoding it again
      and decoding that gives it back (DecodeEncodedEntity). */
  function DecodeEntity(s: string): (r: Result<Entity, DecodeError>)
    ensures r.Success? ==> WellFormed(r.value)
  {
    var (id, afterId) :- DecodeString(s);
    var rest :- Validate(afterId, "|");
    var fields :- DecodeFields(rest);
    Success(Entity(id, fields))
  }

  lemma {:induction false} DecodeEncodedFields(fields: seq<Field>)
    requires NamesWithoutColon(fields)
    ensures DecodeFields(EncodeFields(fields)) == Success(fields)
  {
    if fields != [] {
      var f := fields[0];
      var tail := EncodeFields(fields[1..]);
      var s := EncodeFields(fields);
      assert EncodeField(f) == f.name + ":" + LengthPrefixed(f.value) + "|";
      assert s == f.name + [':'] + (LengthPrefixed(f.value) + ("|" + tail));
      UpToSplit(f.name, LengthPrefixed(f.value) + ("|" + tail), ':');
      DecodeLengthPrefixed(f.value, "|" + tail);
      assert Validate("|" + tail, "|") == Success(tail);
      DecodeEncodedFields(fields[1..]);
      assert !Done(s);
      assert [f] + fields[1..] == fields;
    }
  }

  /** decode_entity(encode_entity(e)) gives e back: the id and every set field. */
  lemma DecodeEncodedEntity(e: Entity)
    requires WellFormed(e)
    ensures DecodeEntity(EncodeEntity(e)) == Success(e)
  {
    var tail := EncodeFields(e.fields);
    assert EncodeEntity(e) == EncodeString("", e.id) + tail;
    DecodeEncodedString(e.id, tail);
    assert Validate("|" + tail, "|") == Success(tail);
    DecodeEncodedFields(e.fields);
  }

  /** entity_to_str: the set fields as `name: value`, joined by `join`. */
  function EntityToStr(e: Entity, join: string): (s: string)
    ensures s == "" <==> e.fields == []
    ensures e.fields != [] ==>
      var first := e.fields[0].name + ": " + e.fields[0].value;
      |first| <= |s| && s[..|first|] == first
  {
    JoinFields(e.fields, join)
  }

  function JoinFields(fields: seq<Field>, join: string): string
  {
    if fields == [] then ""
    else if |fields| == 1 then fields[0].name + ": " + fields[0].value
    else fields[0].name + ": " + fields[0].value + join + JoinFields(fields[1..], join)
  }

  // ---- Record lists, as the host pushes them to collections ----

  /** The entities of an encoded list, decoded one chunk at a time. */
  function DecodeRecords(s: string): Decoded<Entity>
  {
    DecodeList(s, DecodeEntity)
  }

  function RecordChunks(es: seq<Entity>): seq<string>
  {
    seq(|es|, i requires 0 <= i < |es| => EncodeEntity(es[i]))
  }

  function EncodeRecords(es: seq<Entity>): string
  {
    EncodeList(RecordChunks(es))
  }

  lemma DecodeEncodedRecords(es: seq<Entity>)
    requires forall i :: 0 <= i < |es| ==> WellFormed(es[i])
    ensures DecodeRecords(EncodeRecords(es)) == Decoded(es, true)
  {
    var chunks := RecordChunks(es);
    forall i | 0 <= i < |es| ensures DecodeEntity(chunks[i]) == Success(es[i]) {
      DecodeEncodedEntity(es[i]);
    }
    ScanEncodedList(chunks);
    DecodeAllEncoded(es, chunks, DecodeEntity);
  }
}
