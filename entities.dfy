/** The `sample_table` record: the columns of `BaseEntityMixin`
    (src/entities/base/base_entity_mixin.py) and of `SampleEntity`
    (src/entities/sample_entity.py), flattened as SQLModel does. Non-null columns have
    plain types, nullable ones `Option`. The uuid generator and the clock are injected. */
module Entities {
  import opened Wrappers
  import opened Values

  /** A UUID as its 128-bit number. */
  type Uuid = x: nat | x < 0x1_0000_0000_0000_0000_0000_0000_0000_0000

  /** A UTC instant, in microseconds. */
  type Timestamp = int

  datatype SampleEntity = SampleEntity(
    id: Uuid,
    isActive: bool,
    isDeleted: bool,
    createdOn: Timestamp,
    modifiedOn: Timestamp,
    requiredUuid: Uuid,
    optionalUuid: Option<Uuid>,
    stringField: string,
    optionalText: Option<string>,
    requiredJsonb: Dict,
    optionalJsonb: Option<Dict>,
    bigInt: int)

  /** `SampleEntity(...)` with the column defaults: `id` is the fresh `uuid4()`, and
      `createdOn` and `modifiedOn` are the two separate `utcnow()` calls of the two
      timestamp columns' default factories. */
  function NewSampleEntity(
    id: Uuid, createdOn: Timestamp, modifiedOn: Timestamp,
    requiredUuid: Uuid, stringField: string, requiredJsonb: Dict, optionalJsonb: Option<Dict>,
    optionalUuid: Option<Uuid> := None, optionalText: Option<string> := None, bigInt: int := 1): (e: SampleEntity)
    ensures e.id == id && e.createdOn == createdOn && e.modifiedOn == modifiedOn
    ensures e.isActive && !e.isDeleted
    ensures e.requiredUuid == requiredUuid && e.optionalUuid == optionalUuid
    ensures e.stringField == stringField && e.optionalText == optionalText
    ensures e.requiredJsonb == requiredJsonb && e.optionalJsonb == optionalJsonb
    ensures e.bigInt == bigInt
  {
    SampleEntity(id, true, false, createdOn, modifiedOn, requiredUuid, optionalUuid, stringField,
                 optionalText, requiredJsonb, optionalJsonb, bigInt)
  }

  /** The rows the service shows: active and not deleted. */
  predicate Visible(e: SampleEntity) {
    !e.isDeleted && e.isActive
  }

  /** A freshly built record is visible, and its optional columns are empty unless given. */
  lemma NewEntityDefaults(id: Uuid, c: Timestamp, m: Timestamp, ru: Uuid, sf: string, rj: Dict, oj: Option<Dict>)
    ensures var e := NewSampleEntity(id, c, m, ru, sf, rj, oj);
            Visible(e) && e.optionalUuid.None? && e.optionalText.None? && e.bigInt == 1
  {
  }

  /** The range of PostgreSQL `BIGINT`. */
  const BigIntMin: int := -0x8000_0000_0000_0000
  const BigIntMax: int := 0x7fff_ffff_ffff_ffff

  /** PostgreSQL `text` values cannot hold the NUL character. */
  predicate NulFree(s: string) {
    '\0' !in s
  }

  /** A JSON value PostgreSQL's `jsonb` accepts: no string in it, member names
      included, holds the `\u0000` character. */
  predicate JsonStorable(v: Value)
    decreases v
  {
    match v
    case Str(s) => NulFree(s)
    case Array(items) => forall i :: 0 <= i < |items| ==> JsonStorable(items[i])
    case Table(fields) => forall k :: k in fields ==> NulFree(k) && JsonStorable(fields[k])
    case _ => true
  }

  /** A `JSONB` column value the database accepts. */
  predicate DictStorable(d: Dict) {
    JsonStorable(Table(d))
  }

  /** A record the database accepts: `big_int` fits its `BIGINT` column, the `text`
      columns hold no NUL and the `jsonb` columns no `\u0000` (the other columns'
      constraints are carried by the field types). */
  predicate Storable(e: SampleEntity) {
    ValuesStorable(e.bigInt, e.stringField, e.optionalText, e.requiredJsonb, e.optionalJsonb)
  }

  /** `Storable` on the only columns it depends on. */
  predicate ValuesStorable(bigInt: int, stringField: string, optionalText: Option<string>,
                           requiredJsonb: Dict, optionalJsonb: Option<Dict>) {
    && BigIntMin <= bigInt <= BigIntMax
    && NulFree(stringField)
    && (optionalText.Some? ==> NulFree(optionalText.value))
    && DictStorable(requiredJsonb)
    && (optionalJsonb.Some? ==> DictStorable(optionalJsonb.value))
  }

  /** A value as `setattr` receives it. */
  datatype FieldValue =
    | UuidValue(u: Uuid)
    | TextValue(t: string)
    | IntValue(n: int)
    | BoolValue(b: bool)
    | DictValue(d: Dict)
    | TimeValue(ts: Timestamp)
    | NoneValue

  /** The column attributes of the record; `hasattr` is true of these. */
  const Columns: set<string> := {
    "id", "is_active", "is_deleted", "created_on", "modified_on", "required_uuid",
    "optional_uuid", "string_field", "optional_text", "required_jsonb", "optional_jsonb", "big_int"
  }

  function OptUuid(o: Option<Uuid>): FieldValue {
    if o.Some? then UuidValue(o.value) else NoneValue
  }

  function OptText(o: Option<string>): FieldValue {
    if o.Some? then TextValue(o.value) else NoneValue
  }

  function OptDict(o: Option<Dict>): FieldValue {
    if o.Some? then DictValue(o.value) else NoneValue
  }

  /** `getattr(e, name)` for a column, `None` for any other name. */
  function FieldOf(e: SampleEntity, name: string): (r: Option<FieldValue>)
    ensures r.Some? <==> name in Columns
  {
    match name
    case "id" => Some(UuidValue(e.id))
    case "is_active" => Some(BoolValue(e.isActive))
    case "is_deleted" => Some(BoolValue(e.isDeleted))
    case "created_on" => Some(TimeValue(e.createdOn))
    case "modified_on" => Some(TimeValue(e.modifiedOn))
    case "required_uuid" => Some(UuidValue(e.requiredUuid))
    case "optional_uuid" => Some(OptUuid(e.optionalUuid))
    case "string_field" => Some(TextValue(e.stringField))
    case "optional_text" => Some(OptText(e.optionalText))
    case "required_jsonb" => Some(DictValue(e.requiredJsonb))
    case "optional_jsonb" => Some(OptDict(e.optionalJsonb))
    case "big_int" => Some(IntValue(e.bigInt))
    case _ => None
  }

  /** The value of each column by its name. */
  lemma ColumnValues(e: SampleEntity)
    ensures FieldOf(e, "id") == Some(UuidValue(e.id))
    ensures FieldOf(e, "is_active") == Some(BoolValue(e.isActive))
    ensures FieldOf(e, "is_deleted") == Some(BoolValue(e.isDeleted))
    ensures FieldOf(e, "created_on") == Some(TimeValue(e.createdOn))
    ensures FieldOf(e, "modified_on") == Some(TimeValue(e.modifiedOn))
    ensures FieldOf(e, "required_uuid") == Some(UuidValue(e.requiredUuid))
    ensures FieldOf(e, "optional_uuid") == Some(OptUuid(e.optionalUuid))
    ensures FieldOf(e, "string_field") == Some(TextValue(e.stringField))
    ensures FieldOf(e, "optional_text") == Some(OptText(e.optionalText))
    ensures FieldOf(e, "required_jsonb") == Some(DictValue(e.requiredJsonb))
    ensures FieldOf(e, "optional_jsonb") == Some(OptDict(e.optionalJsonb))
    ensures FieldOf(e, "big_int") == Some(IntValue(e.bigInt))
  {
  }

  /** The value has the column's type, `None` only in a nullable column. */
  predicate Fits(name: string, v: FieldValue) {
    match name
    case "id" => v.UuidValue?
    case "is_active" => v.BoolValue?
    case "is_deleted" => v.BoolValue?
    case "created_on" => v.TimeValue?
    case "modified_on" => v.TimeValue?
    case "required_uuid" => v.UuidValue?
    case "optional_uuid" => v.UuidValue? || v.NoneValue?
    case "string_field" => v.TextValue?
    case "optional_text" => v.TextValue? || v.NoneValue?
    case "required_jsonb" => v.DictValue?
    case "optional_jsonb" => v.DictValue? || v.NoneValue?
    case "big_int" => v.IntValue?
    case _ => false
  }

  /** `setattr(e, name, v)` for a column and a value that fits it. */
  function SetField(e: SampleEntity, name: string, v: FieldValue): (r: SampleEntity)
    requires Fits(name, v)
    ensures FieldOf(r, name) == Some(v)
    ensures forall other :: other != name ==> FieldOf(r, other) == FieldOf(e, other)
  {
    match name
    case "id" => e.(id := v.u)
    case "is_active" => e.(isActive := v.b)
    case "is_deleted" => e.(isDeleted := v.b)
    case "created_on" => e.(createdOn := v.ts)
    case "modified_on" => e.(modifiedOn := v.ts)
    case "required_uuid" => e.(requiredUuid := v.u)
    case "optional_uuid" => e.(optionalUuid := if v.UuidValue? then Some(v.u) else None)
    case "string_field" => e.(stringField := v.t)
    case "optional_text" => e.(optionalText := if v.TextValue? then Some(v.t) else None)
    case "required_jsonb" => e.(requiredJsonb := v.d)
    case "optional_jsonb" => e.(optionalJsonb := if v.DictValue? then Some(v.d) else None)
    case "big_int" => e.(bigInt := v.n)
  }

  /** Two records with the same column values are the same record. */
  lemma {:induction false} FieldsDetermineEntity(a: SampleEntity, b: SampleEntity)
    requires forall name :: FieldOf(a, name) == FieldOf(b, name)
    ensures a == b
  {
    assert FieldOf(a, "id") == FieldOf(b, "id");
    assert FieldOf(a, "is_active") == FieldOf(b, "is_active");
    assert FieldOf(a, "is_deleted") == FieldOf(b, "is_deleted");
    assert FieldOf(a, "created_on") == FieldOf(b, "created_on");
    assert FieldOf(a, "modified_on") == FieldOf(b, "modified_on");
    assert FieldOf(a, "required_uuid") == FieldOf(b, "required_uuid");
    assert FieldOf(a, "optional_uuid") == FieldOf(b, "optional_uuid");
    assert FieldOf(a, "string_field") == FieldOf(b, "string_field");
    assert FieldOf(a, "optional_text") == FieldOf(b, "optional_text");
    assert FieldOf(a, "required_jsonb") == FieldOf(b, "required_jsonb");
    assert FieldOf(a, "optional_jsonb") == FieldOf(b, "optional_jsonb");
    assert FieldOf(a, "big_int") == FieldOf(b, "big_int");
  }

  /** A lower-case hexadecimal digit. */
  predicate IsHexDigit(c: char) {
    '0' <= c <= '9' || 'a' <= c <= 'f'
  }

  function HexDigit(d: nat): (c: char)
    requires d < 16
    ensures IsHexDigit(c) && DigitValue(c) == d
  {
    if d < 10 then ('0' as int + d) as char else ('a' as int + d - 10) as char
  }

  /** The number a hexadecimal digit stands for. */
  function DigitValue(c: char): nat
    requires IsHexDigit(c)
  {
    if c <= '9' then c as int - '0' as int else c as int - 'a' as int + 10
  }

  function Pow16(k: nat): (r: nat)
    ensures r >= 1
  {
    if k == 0 then 1 else 16 * Pow16(k - 1)
  }

  lemma {:induction false} Pow16Add(a: nat, b: nat)
    ensures Pow16(a + b) == Pow16(a) * Pow16(b)
    decreases a
  {
    if a > 0 {
      Pow16Add(a - 1, b);
    }
  }

  /** 32 hexadecimal digits span the 128 bits of a uuid. */
  lemma Pow16Of32()
    ensures Pow16(32) == 0x1_0000_0000_0000_0000_0000_0000_0000_0000
  {
    Pow16Add(16, 16);
    Pow16Add(8, 8);
    Pow16Add(4, 4);
    assert Pow16(4) == 0x1_0000;
  }

  /** The lowest `width` hexadecimal digits of `n`, most significant first. */
  function Hex(n: nat, width: nat): (r: string)
    ensures |r| == width
    ensures forall i :: 0 <= i < |r| ==> IsHexDigit(r[i])
  {
    if width == 0 then [] else Hex(n / 16, width - 1) + [HexDigit(n % 16)]
  }

  /** The number a string of hexadecimal digits stands for. */
  function Unhex(s: string): nat
    requires forall i :: 0 <= i < |s| ==> IsHexDigit(s[i])
    decreases |s|
  {
    if s == [] then 0 else 16 * Unhex(s[..|s| - 1]) + DigitValue(s[|s| - 1])
  }

  /** Reading the digits back gives the number, when it has at most `width` digits. */
  lemma {:induction false} UnhexHex(n: nat, width: nat)
    requires n < Pow16(width)
    ensures Unhex(Hex(n, width)) == n
  {
    if width > 0 {
      var h := Hex(n, width);
      assert h[..width - 1] == Hex(n / 16, width - 1);
      UnhexHex(n / 16, width - 1);
    }
  }

  /** `str(uuid)`: 32 lower-case hexadecimal digits grouped 8-4-4-4-12. */
  function UuidString(u: Uuid): (r: string)
    ensures |r| == 36
    ensures r[8] == '-' && r[13] == '-' && r[18] == '-' && r[23] == '-'
    ensures forall i :: 0 <= i < 36 && i != 8 && i != 13 && i != 18 && i != 23 ==> IsHexDigit(r[i])
  {
    var h := Hex(u, 32);
    h[..8] + "-" + h[8..12] + "-" + h[12..16] + "-" + h[16..20] + "-" + h[20..]
  }

  /** A uuid read back from its 36-character form: the digits without the dashes. */
  function ParseUuid(s: string): nat
    requires |s| == 36
    requires forall i :: 0 <= i < 36 && i != 8 && i != 13 && i != 18 && i != 23 ==> IsHexDigit(s[i])
  {
    var digits := s[..8] + s[9..13] + s[14..18] + s[19..23] + s[24..];
    assert forall i :: 0 <= i < |digits| ==> IsHexDigit(digits[i]) by {
      forall i | 0 <= i < |digits| ensures IsHexDigit(digits[i]) {
        if i < 8 { assert digits[i] == s[i]; }
        else if i < 12 { assert digits[i] == s[i + 1]; }
        else if i < 16 { assert digits[i] == s[i + 2]; }
        else if i < 20 { assert digits[i] == s[i + 3]; }
        else { assert digits[i] == s[i + 4]; }
      }
    }
    Unhex(digits)
  }

  /** Reading the string form back gives the uuid, so two uuids with the same string
      form are the same uuid. */
  lemma UuidStringRoundTrip(u: Uuid)
    ensures ParseUuid(UuidString(u)) == u
    ensures forall v: Uuid :: UuidString(v) == UuidString(u) ==> v == u
  {
    ParseUuidString(u);
    forall v: Uuid | UuidString(v) == UuidString(u) ensures v == u {
      ParseUuidString(v);
    }
  }

  lemma ParseUuidString(u: Uuid)
    ensures ParseUuid(UuidString(u)) == u
  {
    var h := Hex(u, 32);
    DashesRoundTrip(h);
    assert ParseUuid(UuidString(u)) == Unhex(h);
    Pow16Of32();
    UnhexHex(u, 32);
  }

  /** Taking the dashes out of the grouped form gives the digits back. */
  lemma DashesRoundTrip(h: string)
    requires |h| == 32
    ensures var s := h[..8] + "-" + h[8..12] + "-" + h[12..16] + "-" + h[16..20] + "-" + h[20..];
            s[..8] + s[9..13] + s[14..18] + s[19..23] + s[24..] == h
  {
    var s := h[..8] + "-" + h[8..12] + "-" + h[12..16] + "-" + h[16..20] + "-" + h[20..];
    var digits := s[..8] + s[9..13] + s[14..18] + s[19..23] + s[24..];
    forall i | 0 <= i < 32 ensures digits[i] == h[i] {
      if i < 8 { assert digits[i] == s[i]; }
      else if i < 12 { assert digits[i] == s[i + 1]; }
      else if i < 16 { assert digits[i] == s[i + 2]; }
      else if i < 20 { assert digits[i] == s[i + 3]; }
      else { assert digits[i] == s[i + 4]; }
    }
  }
}
