/** The request and response bodies of the sample routes (src/routes/sample/schemas.py).
    The pydantic field constraints become predicates; validation itself is not modelled. */
module Schemas {
  import opened Wrappers
  import opened Values
  import opened Entities

  const StringFieldMaxLength: nat := 255

  /** `Field(min_length=1, max_length=255)` on `string_field`. */
  predicate ValidStringField(s: string) {
    1 <= |s| <= StringFieldMaxLength
  }

  /** `SampleEntityCreate` (= `SampleEntityBase`) with its defaults. */
  datatype SampleEntityCreate = SampleEntityCreate(
    requiredUuid: Uuid,
    stringField: string,
    requiredJsonb: Dict,
    optionalUuid: Option<Uuid> := None,
    optionalText: Option<string> := None,
    optionalJsonb: Option<Dict> := None,
    bigInt: int := 1)

  /** The constraints of `SampleEntityBase`: `string_field` of 1..255 characters, `big_int >= 0`. */
  predicate ValidCreate(c: SampleEntityCreate) {
    ValidStringField(c.stringField) && c.bigInt >= 0
  }

  /** Only the three required fields need to be given; the defaults are valid. */
  lemma CreateDefaults(ru: Uuid, sf: string, rj: Dict)
    ensures var c := SampleEntityCreate(ru, sf, rj);
            c.optionalUuid.None? && c.optionalText.None? && c.optionalJsonb.None? && c.bigInt == 1
    ensures ValidCreate(SampleEntityCreate(ru, sf, rj)) <==> ValidStringField(sf)
  {
  }

  /** `SampleEntityUpdate`: every field optional, `None` by default. It has `is_active`
      but neither `id`, `is_deleted` nor the timestamps. */
  datatype SampleEntityUpdate = SampleEntityUpdate(
    requiredUuid: Option<Uuid> := None,
    optionalUuid: Option<Uuid> := None,
    stringField: Option<string> := None,
    optionalText: Option<string> := None,
    requiredJsonb: Option<Dict> := None,
    optionalJsonb: Option<Dict> := None,
    bigInt: Option<int> := None,
    isActive: Option<bool> := None)

  /** The constraints apply only to the fields that are given. */
  predicate ValidUpdate(u: SampleEntityUpdate) {
    && (u.stringField.Some? ==> ValidStringField(u.stringField.value))
    && (u.bigInt.Some? ==> u.bigInt.value >= 0)
  }

  /** `model_dump()` of an update body: every declared field in declaration order,
      `None` for the absent ones. */
  function DumpUpdate(u: SampleEntityUpdate): (d: seq<(string, FieldValue)>)
    ensures |d| == 8
    ensures forall i :: 0 <= i < |d| ==> d[i].0 in Columns && d[i].0 !in {"id", "is_deleted", "created_on", "modified_on"}
    ensures forall i, j :: 0 <= i < j < |d| ==> d[i].0 != d[j].0
    ensures forall i :: 0 <= i < |d| ==> Fits(d[i].0, d[i].1) || d[i].1.NoneValue?
  {
    [ ("required_uuid", OptUuid(u.requiredUuid)),
      ("optional_uuid", OptUuid(u.optionalUuid)),
      ("string_field", OptText(u.stringField)),
      ("optional_text", OptText(u.optionalText)),
      ("required_jsonb", OptDict(u.requiredJsonb)),
      ("optional_jsonb", OptDict(u.optionalJsonb)),
      ("big_int", if u.bigInt.Some? then IntValue(u.bigInt.value) else NoneValue),
      ("is_active", if u.isActive.Some? then BoolValue(u.isActive.value) else NoneValue) ]
  }

  /** The value a dump gives a name: its entry's value, `None` when it has none. */
  function DumpLookup(d: seq<(string, FieldValue)>, name: string): FieldValue
    decreases |d|
  {
    if d == [] then NoneValue
    else if d[0].0 == name then d[0].1
    else DumpLookup(d[1..], name)
  }

  function AsUuid(v: FieldValue): Option<Uuid> { if v.UuidValue? then Some(v.u) else None }
  function AsText(v: FieldValue): Option<string> { if v.TextValue? then Some(v.t) else None }
  function AsDict(v: FieldValue): Option<Dict> { if v.DictValue? then Some(v.d) else None }
  function AsInt(v: FieldValue): Option<int> { if v.IntValue? then Some(v.n) else None }
  function AsBool(v: FieldValue): Option<bool> { if v.BoolValue? then Some(v.b) else None }

  /** An update body read back from a dump, each field from the entry under its own name. */
  function LoadUpdate(d: seq<(string, FieldValue)>): SampleEntityUpdate {
    SampleEntityUpdate(
      requiredUuid := AsUuid(DumpLookup(d, "required_uuid")),
      optionalUuid := AsUuid(DumpLookup(d, "optional_uuid")),
      stringField := AsText(DumpLookup(d, "string_field")),
      optionalText := AsText(DumpLookup(d, "optional_text")),
      requiredJsonb := AsDict(DumpLookup(d, "required_jsonb")),
      optionalJsonb := AsDict(DumpLookup(d, "optional_jsonb")),
      bigInt := AsInt(DumpLookup(d, "big_int")),
      isActive := AsBool(DumpLookup(d, "is_active")))
  }

  /** Each field of the body is dumped under its own name: reading the dump back by name
      gives the body again. */
  lemma DumpRoundTrip(u: SampleEntityUpdate)
    ensures LoadUpdate(DumpUpdate(u)) == u
  {
    var d := DumpUpdate(u);
    assert d[0].0 == "required_uuid" && d[1].0 == "optional_uuid" && d[2].0 == "string_field";
    assert d[3].0 == "optional_text" && d[4].0 == "required_jsonb" && d[5].0 == "optional_jsonb";
    assert d[6].0 == "big_int" && d[7].0 == "is_active";
    DumpLookupAt(d, 0); DumpLookupAt(d, 1); DumpLookupAt(d, 2); DumpLookupAt(d, 3);
    DumpLookupAt(d, 4); DumpLookupAt(d, 5); DumpLookupAt(d, 6); DumpLookupAt(d, 7);
  }

  /** In a dump whose names are distinct, a name gives its own entry's value. */
  lemma {:induction false} DumpLookupAt(d: seq<(string, FieldValue)>, k: nat)
    requires k < |d|
    requires forall i, j :: 0 <= i < j < |d| ==> d[i].0 != d[j].0
    ensures DumpLookup(d, d[k].0) == d[k].1
    decreases k
  {
    if k > 0 {
      assert d[0].0 != d[k].0;
      assert d[1..][k - 1] == d[k];
      DumpLookupAt(d[1..], k - 1);
    }
  }

  /** Every update field defaults to `None`, so the dump of an empty body is all `None`. */
  lemma EmptyUpdateDump()
    ensures forall i :: 0 <= i < 8 ==> DumpUpdate(SampleEntityUpdate())[i].1 == NoneValue
    ensures ValidUpdate(SampleEntityUpdate())
  {
  }

  /** `SampleEntityResponse`: the base fields plus `id`, `is_active`, `is_deleted`,
      `created_on` and `modified_on`. */
  datatype SampleEntityResponse = SampleEntityResponse(
    requiredUuid: Uuid,
    stringField: string,
    requiredJsonb: Dict,
    optionalUuid: Option<Uuid>,
    optionalText: Option<string>,
    optionalJsonb: Option<Dict>,
    bigInt: int,
    id: Uuid,
    isActive: bool,
    isDeleted: bool,
    createdOn: Timestamp,
    modifiedOn: Timestamp)

  /** The response inherits the base constraints. */
  predicate ValidResponse(r: SampleEntityResponse) {
    ValidStringField(r.stringField) && r.bigInt >= 0
  }

  /** `from_attributes=True`: the response is read off the record. */
  function ToResponse(e: SampleEntity): SampleEntityResponse {
    SampleEntityResponse(e.requiredUuid, e.stringField, e.requiredJsonb, e.optionalUuid,
                         e.optionalText, e.optionalJsonb, e.bigInt, e.id, e.isActive,
                         e.isDeleted, e.createdOn, e.modifiedOn)
  }

  /** The record a response describes. */
  function FromResponse(r: SampleEntityResponse): SampleEntity {
    SampleEntity(r.id, r.isActive, r.isDeleted, r.createdOn, r.modifiedOn, r.requiredUuid,
                 r.optionalUuid, r.stringField, r.optionalText, r.requiredJsonb, r.optionalJsonb, r.bigInt)
  }

  /** The response carries every column of the record: nothing is lost. */
  lemma ResponseRoundTrip(e: SampleEntity)
    ensures FromResponse(ToResponse(e)) == e
    ensures forall r :: ToResponse(FromResponse(r)) == r
  {
  }

  /** `SampleEntityListResponse`. */
  datatype SampleEntityListResponse = SampleEntityListResponse(
    items: seq<SampleEntityResponse>, total: int, skip: int, limit: int)

  /** `DeleteResponse`. */
  datatype DeleteResponse = DeleteResponse(success: bool, message: string, id: Uuid)
}
