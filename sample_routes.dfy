/** The `/sample` handlers (src/routes/sample/sample_routes.py). Each handler is a function
    of the table before the request, giving the reply and the table after it; the fresh
    `uuid4()` id and the clock are parameters. FastAPI's request validation is the
    `Unprocessable` reply (status 422). */
module SampleRoutes {
  import opened Wrappers
  import opened Entities
  import opened Schemas
  import opened SampleService

  datatype Body =
    | EntityBody(entity: SampleEntityResponse)
    | ListBody(list: SampleEntityListResponse)
    | EntitiesBody(items: seq<SampleEntityResponse>)
    | DeleteBody(deleted: DeleteResponse)

  datatype Reply =
    | Ok(status: int, body: Body)
    | HttpError(status: int, detail: string)   // a raised `HTTPException`
    | Unprocessable                            // FastAPI's 422 for a body or query it rejects
    | Raised(error: DbError)                   // an exception the service re-raised

  const MaxLimit: int := 1000

  /** The `Query(ge=0)` / `Query(ge=1, le=1000)` bounds of `skip` and `limit`. */
  predicate ValidPage(skip: int, limit: int) {
    skip >= 0 && 1 <= limit <= MaxLimit
  }

  function NotFoundDetail(id: Uuid): string {
    "Sample entity with ID " + UuidString(id) + " not found"
  }

  function Responses(es: seq<SampleEntity>): (r: seq<SampleEntityResponse>)
    ensures |r| == |es| && forall i :: 0 <= i < |es| ==> r[i] == ToResponse(es[i])
  {
    seq(|es|, i requires 0 <= i < |es| => ToResponse(es[i]))
  }

  /** `SampleEntity(**entity_data.model_dump())` with the generated id and timestamps. */
  function ToEntity(c: SampleEntityCreate, id: Uuid, createdOn: Timestamp, modifiedOn: Timestamp)
    : (e: SampleEntity)
    ensures Visible(e) && e.id == id && e.createdOn == createdOn && e.modifiedOn == modifiedOn
    ensures e.requiredUuid == c.requiredUuid && e.stringField == c.stringField
    ensures e.requiredJsonb == c.requiredJsonb && e.optionalUuid == c.optionalUuid
    ensures e.optionalText == c.optionalText && e.optionalJsonb == c.optionalJsonb && e.bigInt == c.bigInt
  {
    NewSampleEntity(id, createdOn, modifiedOn, c.requiredUuid, c.stringField, c.requiredJsonb, c.optionalJsonb,
                    c.optionalUuid, c.optionalText, c.bigInt)
  }

  /** `POST /`; `createdOn` and `modifiedOn` are the two `utcnow()` readings. */
  function CreateSampleEntity(t: Table, body: SampleEntityCreate, id: Uuid,
                              createdOn: Timestamp, modifiedOn: Timestamp): Write<Reply> {
    if !ValidCreate(body) then Write(Unprocessable, t)
    else
      var w := CreateRow(t, ToEntity(body, id, createdOn, modifiedOn));
      match w.result
      case Failure(err) => Write(Raised(err), w.rows)
      case Success(e) => Write(Ok(201, EntityBody(ToResponse(e))), w.rows)
  }

  /** `GET /{entity_id}`. */
  function GetSampleEntity(t: Table, id: Uuid): Reply {
    match GetById(t, id)
    case None => HttpError(404, NotFoundDetail(id))
    case Some(e) => Ok(200, EntityBody(ToResponse(e)))
  }

  /** `GET /`. */
  function ListSampleEntities(t: Table, skip: int := 0, limit: int := 100, includeInactive: bool := false): Reply
    requires Keyed(t)
  {
    if !ValidPage(skip, limit) then Unprocessable
    else
      var items := GetAll(t, skip, limit, includeInactive);
      Ok(200, ListBody(SampleEntityListResponse(Responses(items), Count(t, includeInactive), skip, limit)))
  }

  /** `GET /search/by-string`. */
  function SearchSampleEntities(t: Table, q: string, skip: int := 0, limit: int := 100): Reply
    requires Keyed(t)
  {
    if |q| < 1 || !ValidPage(skip, limit) then Unprocessable
    else Ok(200, EntitiesBody(Responses(SearchByStringField(t, q, skip, limit))))
  }

  /** No name occurs twice. */
  predicate DistinctNames(d: seq<(string, FieldValue)>) {
    forall i, j :: 0 <= i < j < |d| ==> d[i].0 != d[j].0
  }

  /** The items of a `model_dump()` whose value is not `None`. */
  function DropNone(d: seq<(string, FieldValue)>): (r: seq<(string, FieldValue)>)
    ensures forall i :: 0 <= i < |r| ==> !r[i].1.NoneValue? && r[i] in d
    ensures forall i :: 0 <= i < |d| && !d[i].1.NoneValue? ==> d[i] in r
    ensures r == [] <==> forall i :: 0 <= i < |d| ==> d[i].1.NoneValue?
    ensures |r| <= |d|
  {
    if d == [] then []
    else (if d[0].1.NoneValue? then [] else [d[0]]) + DropNone(d[1..])
  }

  /** Dropping entries keeps the names distinct. */
  lemma {:induction false} DropNoneDistinct(d: seq<(string, FieldValue)>)
    requires DistinctNames(d)
    ensures DistinctNames(DropNone(d))
    decreases |d|
  {
    if d != [] {
      var tail := d[1..];
      DistinctTail(d);
      DropNoneDistinct(tail);
      var rest := DropNone(tail);
      forall i | 0 <= i < |rest| ensures rest[i].0 != d[0].0 {
        var j :| 0 <= j < |tail| && tail[j] == rest[i];
      }
      if !d[0].1.NoneValue? {
        DistinctCons(d[0], rest);
      }
    }
  }

  lemma DistinctTail(d: seq<(string, FieldValue)>)
    requires d != [] && DistinctNames(d)
    ensures DistinctNames(d[1..])
    ensures forall j :: 0 <= j < |d[1..]| ==> d[1..][j].0 != d[0].0
  {
    var tail := d[1..];
    forall i, j | 0 <= i < j < |tail| ensures tail[i].0 != tail[j].0 {
      assert tail[i] == d[i + 1] && tail[j] == d[j + 1];
    }
    forall j | 0 <= j < |tail| ensures tail[j].0 != d[0].0 {
      assert tail[j] == d[j + 1];
    }
  }

  lemma DistinctCons(x: (string, FieldValue), rest: seq<(string, FieldValue)>)
    requires DistinctNames(rest) && forall i :: 0 <= i < |rest| ==> rest[i].0 != x.0
    ensures DistinctNames([x] + rest)
  {
    var r := [x] + rest;
    forall i, j | 0 <= i < j < |r| ensures r[i].0 != r[j].0 {
      assert r[j] == rest[j - 1];
      if i > 0 {
        assert r[i] == rest[i - 1];
      }
    }
  }

  /** `{k: v for k, v in entity_data.model_dump().items() if v is not None}`. */
  function UpdateData(u: SampleEntityUpdate): seq<(string, FieldValue)> {
    DropNone(DumpUpdate(u))
  }

  /** `PUT /{entity_id}`: 400 without calling the service when no field is given, 404
      when the service finds no visible row. */
  function UpdateSampleEntity(t: Table, id: Uuid, body: SampleEntityUpdate, now: Timestamp): Write<Reply> {
    if !ValidUpdate(body) then Write(Unprocessable, t)
    else UpdateWithData(t, id, UpdateData(body), now)
  }

  /** The handler's body once `update_data` is built. */
  function UpdateWithData(t: Table, id: Uuid, data: seq<(string, FieldValue)>, now: Timestamp): Write<Reply> {
    if data == [] then Write(HttpError(400, "No fields provided for update"), t)
    else
      var w := UpdateRow(t, id, data, now);
      match w.result
      case Failure(err) => Write(Raised(err), w.rows)
      case Success(None) => Write(HttpError(404, NotFoundDetail(id)), w.rows)
      case Success(Some(e)) => Write(Ok(200, EntityBody(ToResponse(e))), w.rows)
  }

  /** `PATCH /{entity_id}` delegates to the `PUT` handler. */
  function PatchSampleEntity(t: Table, id: Uuid, body: SampleEntityUpdate, now: Timestamp): (w: Write<Reply>)
    ensures w == UpdateSampleEntity(t, id, body, now)
  {
    UpdateSampleEntity(t, id, body, now)
  }

  /** `f"Sample entity {delete_type} successfully"`. */
  function DeleteMessage(hardDelete: bool): string {
    if hardDelete then "Sample entity permanently deleted successfully"
    else "Sample entity soft deleted successfully"
  }

  /** `DELETE /{entity_id}`. */
  function DeleteSampleEntity(t: Table, id: Uuid, hardDelete: bool, now: Timestamp): Write<Reply> {
    var w := DeleteRow(t, id, hardDelete, now);
    if !w.result then Write(HttpError(404, NotFoundDetail(id)), w.rows)
    else Write(Ok(200, DeleteBody(DeleteResponse(true, DeleteMessage(hardDelete), id))), w.rows)
  }

  // ---- Properties ----

  /** `GET` by id: 404 exactly when `get_by_id` finds nothing, otherwise 200 with that row. */
  lemma GetSpec(t: Table, id: Uuid)
    ensures var r := GetSampleEntity(t, id);
            && (r.HttpError? <==> !(id in t && Visible(t[id])))
            && (r.HttpError? ==> r.status == 404 && r.detail == NotFoundDetail(id))
            && (!r.HttpError? ==> r.Ok? && r.status == 200 && r.body.EntityBody?
                                  && FromResponse(r.body.entity) == t[id])
  {
    if id in t && Visible(t[id]) {
      ResponseRoundTrip(t[id]);
    }
  }

  /** The list envelope: the page of `get_all`, `total` from `count` under the same
      `include_inactive`, and `skip` and `limit` echoed. */
  lemma ListSpec(t: Table, skip: int, limit: int, includeInactive: bool)
    requires Keyed(t)
    ensures var r := ListSampleEntities(t, skip, limit, includeInactive);
            && (r.Unprocessable? <==> !ValidPage(skip, limit))
            && (ValidPage(skip, limit) ==>
                  && r.Ok? && r.status == 200 && r.body.ListBody?
                  && r.body.list.total == Count(t, includeInactive)
                  && r.body.list.skip == skip && r.body.list.limit == limit
                  && |r.body.list.items| <= limit
                  && r.body.list.items == Responses(GetAll(t, skip, limit, includeInactive)))
  {
  }

  /** The search route: 422 for an empty term or a page outside the bounds, otherwise
      the page of `search_by_string_field`, never longer than `limit`. */
  lemma SearchSpec(t: Table, q: string, skip: int, limit: int)
    requires Keyed(t)
    ensures var r := SearchSampleEntities(t, q, skip, limit);
            && (r.Unprocessable? <==> |q| < 1 || !ValidPage(skip, limit))
            && (|q| >= 1 && ValidPage(skip, limit) ==>
                  && r.Ok? && r.status == 200 && r.body.EntitiesBody?
                  && |r.body.items| <= limit
                  && r.body.items == Responses(SearchByStringField(t, q, skip, limit)))
  {
  }

  /** The update data holds only given fields, none of them `id`, `created_on`,
      `is_deleted` or `modified_on`, and never a `None`: a nullable column cannot be
      cleared through the route. */
  lemma UpdateDataFields(u: SampleEntityUpdate)
    ensures forall i :: 0 <= i < |UpdateData(u)| ==>
              var (k, v) := UpdateData(u)[i];
              && Writable(k) && k != "is_deleted" && k != "modified_on"
              && !v.NoneValue? && Fits(k, v)
  {
  }

  /** The update data is empty exactly for a body with no field given. */
  lemma UpdateDataEmpty(u: SampleEntityUpdate)
    ensures UpdateData(u) == [] <==> u == SampleEntityUpdate()
  {
    var d := DumpUpdate(u);
    var r := UpdateData(u);
    if u != SampleEntityUpdate() {
      var i :=
        if u.requiredUuid.Some? then 0 else if u.optionalUuid.Some? then 1
        else if u.stringField.Some? then 2 else if u.optionalText.Some? then 3
        else if u.requiredJsonb.Some? then 4 else if u.optionalJsonb.Some? then 5
        else if u.bigInt.Some? then 6 else 7;
      assert !d[i].1.NoneValue?;
      assert d[i] in r;
    } else {
      EmptyUpdateDump();
    }
  }

  /** The row a `PUT` is meant to leave: each given field replaced, `modified_on`
      stamped, every other column kept. */
  function Updated(e: SampleEntity, u: SampleEntityUpdate, now: Timestamp): SampleEntity {
    e.(requiredUuid := u.requiredUuid.GetOr(e.requiredUuid),
       optionalUuid := if u.optionalUuid.Some? then u.optionalUuid else e.optionalUuid,
       stringField := u.stringField.GetOr(e.stringField),
       optionalText := if u.optionalText.Some? then u.optionalText else e.optionalText,
       requiredJsonb := u.requiredJsonb.GetOr(e.requiredJsonb),
       optionalJsonb := if u.optionalJsonb.Some? then u.optionalJsonb else e.optionalJsonb,
       bigInt := u.bigInt.GetOr(e.bigInt),
       isActive := u.isActive.GetOr(e.isActive),
       modifiedOn := now)
  }

  /** In a list with distinct names, the dictionary gives each name its own entry's value. */
  lemma {:induction false} LastForDistinct(items: seq<(string, FieldValue)>, k: nat)
    requires k < |items| && DistinctNames(items)
    ensures LastFor(items, items[k].0) == Some(items[k].1)
    decreases |items|
  {
    var n := |items| - 1;
    if k != n {
      var init := items[..n];
      assert items[n].0 != items[k].0;
      assert init[k] == items[k];
      assert DistinctNames(init) by {
        forall i, j | 0 <= i < j < |init| ensures init[i].0 != init[j].0 {
          assert init[i] == items[i] && init[j] == items[j];
        }
      }
      LastForDistinct(init, k);
    }
  }

  /** After dropping the `None` entries of a list with distinct names, each name gives
      its entry's value, or nothing when that value was `None`. */
  lemma LastForDropNone(d: seq<(string, FieldValue)>, k: nat)
    requires k < |d| && DistinctNames(d)
    ensures LastFor(DropNone(d), d[k].0) == if d[k].1.NoneValue? then None else Some(d[k].1)
  {
    var r := DropNone(d);
    DropNoneDistinct(d);
    if !d[k].1.NoneValue? {
      var i :| 0 <= i < |r| && r[i] == d[k];
      LastForDistinct(r, i);
    } else {
      DropNoneDropsName(d, k);
      LastForWritten(r, d[k].0);
    }
  }

  /** A name whose value is `None` is gone once the `None` entries are dropped. */
  lemma DropNoneDropsName(d: seq<(string, FieldValue)>, k: nat)
    requires k < |d| && DistinctNames(d) && d[k].1.NoneValue?
    ensures forall i :: 0 <= i < |DropNone(d)| ==> DropNone(d)[i].0 != d[k].0
  {
    var r := DropNone(d);
    forall i | 0 <= i < |r| ensures r[i].0 != d[k].0 {
      var j :| 0 <= j < |d| && d[j] == r[i];
    }
  }

  /** The update data gives each column the body's value, when the body gives one. */
  lemma DataGiven(u: SampleEntityUpdate)
    ensures var r := UpdateData(u);
            && LastFor(r, "required_uuid") == (if u.requiredUuid.Some? then Some(UuidValue(u.requiredUuid.value)) else None)
            && LastFor(r, "optional_uuid") == (if u.optionalUuid.Some? then Some(UuidValue(u.optionalUuid.value)) else None)
            && LastFor(r, "string_field") == (if u.stringField.Some? then Some(TextValue(u.stringField.value)) else None)
            && LastFor(r, "optional_text") == (if u.optionalText.Some? then Some(TextValue(u.optionalText.value)) else None)
            && LastFor(r, "required_jsonb") == (if u.requiredJsonb.Some? then Some(DictValue(u.requiredJsonb.value)) else None)
            && LastFor(r, "optional_jsonb") == (if u.optionalJsonb.Some? then Some(DictValue(u.optionalJsonb.value)) else None)
            && LastFor(r, "big_int") == (if u.bigInt.Some? then Some(IntValue(u.bigInt.value)) else None)
            && LastFor(r, "is_active") == (if u.isActive.Some? then Some(BoolValue(u.isActive.value)) else None)
  {
    var d := DumpUpdate(u);
    assert DistinctNames(d);
    assert d[0] == ("required_uuid", OptUuid(u.requiredUuid));
    assert d[1] == ("optional_uuid", OptUuid(u.optionalUuid));
    assert d[2] == ("string_field", OptText(u.stringField));
    assert d[3] == ("optional_text", OptText(u.optionalText));
    assert d[4] == ("required_jsonb", OptDict(u.requiredJsonb));
    assert d[5] == ("optional_jsonb", OptDict(u.optionalJsonb));
    assert d[6].0 == "big_int" && d[7].0 == "is_active";
    LastForDropNone(d, 0); LastForDropNone(d, 1); LastForDropNone(d, 2); LastForDropNone(d, 3);
    LastForDropNone(d, 4); LastForDropNone(d, 5); LastForDropNone(d, 6); LastForDropNone(d, 7);
  }

  /** The update data never assigns `is_deleted`. */
  lemma DataKeepsDeleted(u: SampleEntityUpdate)
    ensures LastFor(UpdateData(u), "is_deleted").None?
  {
    UpdateDataFields(u);
    LastForWritten(UpdateData(u), "is_deleted");
  }

  /** The update data of a non-empty body stages without an invalid value and makes the
      row dirty. */
  lemma StagedClean(e: SampleEntity, u: SampleEntityUpdate)
    requires u != SampleEntityUpdate()
    ensures Stage(e, UpdateData(u)).invalid.None? && Stage(e, UpdateData(u)).dirty
  {
    var items := UpdateData(u);
    UpdateDataFields(u);
    UpdateDataEmpty(u);
    StageFlags(e, items);
    assert Writable(items[0].0);
  }

  /** Staging the update data of a non-empty body and stamping it gives `Updated`. */
  lemma UpdateStaged(e: SampleEntity, u: SampleEntityUpdate, now: Timestamp)
    requires u != SampleEntityUpdate()
    ensures Stage(e, UpdateData(u)).invalid.None?
    ensures Stamped(Stage(e, UpdateData(u)), now) == Updated(e, u, now)
  {
    StagedClean(e, u);
    DataGiven(u);
    DataKeepsDeleted(u);
    StagedFromLast(e, UpdateData(u), u, now);
  }

  /** A clean, dirty staging of items that give each column the body's value, when the
      body gives one, stamps to `Updated`. */
  lemma StagedFromLast(e: SampleEntity, items: seq<(string, FieldValue)>, u: SampleEntityUpdate, now: Timestamp)
    requires Stage(e, items).invalid.None? && Stage(e, items).dirty
    requires LastFor(items, "required_uuid") == (if u.requiredUuid.Some? then Some(UuidValue(u.requiredUuid.value)) else None)
    requires LastFor(items, "optional_uuid") == (if u.optionalUuid.Some? then Some(UuidValue(u.optionalUuid.value)) else None)
    requires LastFor(items, "string_field") == (if u.stringField.Some? then Some(TextValue(u.stringField.value)) else None)
    requires LastFor(items, "optional_text") == (if u.optionalText.Some? then Some(TextValue(u.optionalText.value)) else None)
    requires LastFor(items, "required_jsonb") == (if u.requiredJsonb.Some? then Some(DictValue(u.requiredJsonb.value)) else None)
    requires LastFor(items, "optional_jsonb") == (if u.optionalJsonb.Some? then Some(DictValue(u.optionalJsonb.value)) else None)
    requires LastFor(items, "big_int") == (if u.bigInt.Some? then Some(IntValue(u.bigInt.value)) else None)
    requires LastFor(items, "is_active") == (if u.isActive.Some? then Some(BoolValue(u.isActive.value)) else None)
    requires LastFor(items, "is_deleted").None?
    ensures Stamped(Stage(e, items), now) == Updated(e, u, now)
  {
    StagedColumns(e, items, now);
    var a, b := Stamped(Stage(e, items), now), Updated(e, u, now);
    ColumnValues(a);
    ColumnValues(e);
    assert a.id == b.id && a.createdOn == b.createdOn;
    assert a.isDeleted == b.isDeleted && a.isActive == b.isActive;
    assert a.requiredUuid == b.requiredUuid && a.optionalUuid == b.optionalUuid;
    assert a.stringField == b.stringField && a.optionalText == b.optionalText;
    assert a.requiredJsonb == b.requiredJsonb && a.optionalJsonb == b.optionalJsonb;
    assert a.bigInt == b.bigInt;
  }

  /** `PUT`: 422 for a body outside the schema's constraints; 400 without a change when
      no field is given; 404 without a change when the row is missing or invisible;
      otherwise the row with each given field replaced and `modified_on` stamped is
      stored and returned with 200, unless PostgreSQL refuses it, which raises and
      changes nothing. */
  lemma UpdateSpec(t: Table, id: Uuid, body: SampleEntityUpdate, now: Timestamp)
    ensures var w := UpdateSampleEntity(t, id, body, now);
            && (!ValidUpdate(body) ==> w == Write(Unprocessable, t))
            && (ValidUpdate(body) && body == SampleEntityUpdate() ==>
                  w == Write(HttpError(400, "No fields provided for update"), t))
            && (ValidUpdate(body) && body != SampleEntityUpdate() ==>
                  && (GetById(t, id).None? ==> w == Write(HttpError(404, NotFoundDetail(id)), t))
                  && (GetById(t, id).Some? ==>
                        var e' := Updated(t[id], body, now);
                        && (Storable(e') ==> w == Write(Ok(200, EntityBody(ToResponse(e'))), t[id := e']))
                        && (!Storable(e') ==> w == Write(Raised(DataException), t))))
  {
    UpdateDataEmpty(body);
    if ValidUpdate(body) && body != SampleEntityUpdate() && GetById(t, id).Some? {
      UpdateStaged(t[id], body, now);
      UpdateFound(t, id, UpdateData(body), now, Updated(t[id], body, now));
    }
  }

  /** Once `update_data` is non-empty and stages cleanly on a visible row, the reply and
      the new table depend only on whether the stamped row can be stored. */
  lemma UpdateFound(t: Table, id: Uuid, items: seq<(string, FieldValue)>, now: Timestamp, e': SampleEntity)
    requires items != [] && GetById(t, id).Some?
    requires Stage(t[id], items).invalid.None? && Stamped(Stage(t[id], items), now) == e'
    ensures Storable(e') ==> UpdateWithData(t, id, items, now) == Write(Ok(200, EntityBody(ToResponse(e'))), t[id := e'])
    ensures !Storable(e') ==> UpdateWithData(t, id, items, now) == Write(Raised(DataException), t)
  {
  }

  /** `DELETE`: a 404 exactly when the row is missing or invisible, otherwise success with
      the message for the delete mode and the id echoed; a soft delete keeps the row with
      both flags flipped and `modified_on` stamped, a hard delete removes it. */
  lemma DeleteSpec(t: Table, id: Uuid, hardDelete: bool, now: Timestamp)
    ensures var w := DeleteSampleEntity(t, id, hardDelete, now);
            && (w.result.HttpError? <==> GetById(t, id).None?)
            && (w.result.HttpError? ==> w.result == HttpError(404, NotFoundDetail(id)) && w.rows == t)
            && (GetById(t, id).Some? ==>
                  && w.result.Ok? && w.result.status == 200 && w.result.body.DeleteBody?
                  && w.result.body.deleted.success && w.result.body.deleted.id == id
                  && w.result.body.deleted.message
                     == (if hardDelete then "Sample entity permanently deleted successfully"
                         else "Sample entity soft deleted successfully")
                  && GetById(w.rows, id).None?
                  && w.rows == (if hardDelete then t - {id}
                                else t[id := t[id].(isDeleted := true, isActive := false, modifiedOn := now)]))
  {
  }


  /** `POST`: 422 without a change for a body outside the schema's constraints. A valid
      create raises, changing nothing, exactly when the generated id is taken (a unique
      violation), `big_int` exceeds `BIGINT`, a text field holds a NUL or a JSON field a
      `\u0000` (a data exception); otherwise it stores a visible row carrying the
      request's fields and replies 201 with it. */
  lemma CreateSpec(t: Table, body: SampleEntityCreate, id: Uuid, createdOn: Timestamp, modifiedOn: Timestamp)
    ensures var w := CreateSampleEntity(t, body, id, createdOn, modifiedOn);
            var e := ToEntity(body, id, createdOn, modifiedOn);
            && (!ValidCreate(body) ==> w == Write(Unprocessable, t))
            && (ValidCreate(body) ==>
                  && (w.result.Raised? <==>
                        || id in t || body.bigInt > BigIntMax
                        || !NulFree(body.stringField)
                        || (body.optionalText.Some? && !NulFree(body.optionalText.value))
                        || !DictStorable(body.requiredJsonb)
                        || (body.optionalJsonb.Some? && !DictStorable(body.optionalJsonb.value)))
                  && (w.result.Raised? ==>
                        && w.rows == t
                        && w.result.error == (if id in t then UniqueViolation else DataException))
                  && (!w.result.Raised? ==>
                        && w.result == Ok(201, EntityBody(ToResponse(e)))
                        && w.rows == t[id := e]
                        && GetById(w.rows, id) == Some(e)))
  {
  }

  // ---- Response validation never fails ----

  /** Every row passes `SampleEntityResponse`'s field constraints. */
  predicate RowsValid(t: Table) {
    forall k :: k in t ==> ValidResponse(ToResponse(t[k]))
  }

  /** The value a dictionary gives a name is one of its entries. */
  lemma {:induction false} LastForIn(items: seq<(string, FieldValue)>, name: string)
    ensures LastFor(items, name).Some? ==> (name, LastFor(items, name).value) in items
    decreases |items|
  {
    if items != [] && items[|items| - 1].0 != name {
      LastForIn(items[..|items| - 1], name);
    }
  }

  /** An update through the route keeps the row within the response constraints. */
  lemma UpdateKeepsRowValid(e: SampleEntity, body: SampleEntityUpdate, now: Timestamp)
    requires ValidResponse(ToResponse(e))
    requires ValidUpdate(body)
    ensures Flush(Stage(e, UpdateData(body)), now).Success? ==>
            ValidResponse(ToResponse(Flush(Stage(e, UpdateData(body)), now).value))
  {
    var data := UpdateData(body);
    UpdateDataValid(body);
    var st := Stage(e, data);
    if st.invalid.None? {
      StageKeepsValid(e, data);
    }
  }

  /** Every value the update data carries for `string_field` or `big_int` is valid. */
  lemma UpdateDataValid(u: SampleEntityUpdate)
    requires ValidUpdate(u)
    ensures ValidItems(UpdateData(u))
  {
    var d := DumpUpdate(u);
    var r := UpdateData(u);
    DumpValid(u);
    forall i | 0 <= i < |r| ensures ValidItem(r[i]) {
      var j :| 0 <= j < |d| && d[j] == r[i];
    }
  }

  lemma DumpValid(u: SampleEntityUpdate)
    requires ValidUpdate(u)
    ensures ValidItems(DumpUpdate(u))
  {
    var d := DumpUpdate(u);
    assert ValidItem(d[0]) && ValidItem(d[1]) && ValidItem(d[2]) && ValidItem(d[3]);
    assert ValidItem(d[4]) && ValidItem(d[5]) && ValidItem(d[6]) && ValidItem(d[7]);
    forall j | 0 <= j < |d| ensures ValidItem(d[j]) {
      assert j == 0 || j == 1 || j == 2 || j == 3 || j == 4 || j == 5 || j == 6 || j == 7;
    }
  }

  predicate ValidItem(item: (string, FieldValue)) {
    && (item.0 == "string_field" && item.1.TextValue? ==> ValidStringField(item.1.t))
    && (item.0 == "big_int" && item.1.IntValue? ==> item.1.n >= 0)
  }

  predicate ValidItems(items: seq<(string, FieldValue)>) {
    forall i :: 0 <= i < |items| ==> ValidItem(items[i])
  }

  /** Assigning valid items keeps a row within the response constraints. */
  lemma {:induction false} StageKeepsValid(e: SampleEntity, items: seq<(string, FieldValue)>)
    requires ValidResponse(ToResponse(e)) && ValidItems(items)
    ensures ValidResponse(ToResponse(Stage(e, items).entity))
    decreases |items|
  {
    if items != [] {
      var init := items[..|items| - 1];
      assert ValidItems(init) by {
        forall i | 0 <= i < |init| ensures ValidItem(init[i]) {
          assert init[i] == items[i];
        }
      }
      StageKeepsValid(e, init);
      var st := Stage(e, init);
      var (k, v) := items[|items| - 1];
      assert ValidItem(items[|items| - 1]);
      if Writable(k) && Fits(k, v) {
        SetFieldKeepsValid(st.entity, k, v);
      }
    }
  }

  lemma SetFieldKeepsValid(e: SampleEntity, k: string, v: FieldValue)
    requires ValidResponse(ToResponse(e)) && ValidItem((k, v)) && Fits(k, v)
    ensures ValidResponse(ToResponse(SetField(e, k, v)))
  {
  }

  /** Every handler keeps every row within the response constraints, so a table written
      only through these routes never makes `response_model` validation fail. */
  lemma RoutesKeepRowsValid(t: Table, id: Uuid, now: Timestamp, later: Timestamp,
                            c: SampleEntityCreate, u: SampleEntityUpdate, hardDelete: bool)
    requires RowsValid(t)
    ensures RowsValid(CreateSampleEntity(t, c, id, now, later).rows)
    ensures RowsValid(UpdateSampleEntity(t, id, u, now).rows)
    ensures RowsValid(DeleteSampleEntity(t, id, hardDelete, now).rows)
  {
    CreateKeepsRowsValid(t, c, id, now, later);
    UpdateKeepsRowsValid(t, id, u, now);
    DeleteKeepsRowsValid(t, id, hardDelete, now);
  }

  lemma UpdateKeepsRowsValid(t: Table, id: Uuid, u: SampleEntityUpdate, now: Timestamp)
    requires RowsValid(t)
    ensures RowsValid(UpdateSampleEntity(t, id, u, now).rows)
  {
    if ValidUpdate(u) {
      UpdateDataValid(u);
      UpdateItemsKeepRowsValid(t, id, UpdateData(u), now);
    }
  }

  /** `update` with valid items keeps every row within the response constraints. */
  lemma UpdateItemsKeepRowsValid(t: Table, id: Uuid, items: seq<(string, FieldValue)>, now: Timestamp)
    requires RowsValid(t) && ValidItems(items)
    ensures RowsValid(UpdateWithData(t, id, items, now).rows)
  {
    if GetById(t, id).Some? && Stage(t[id], items).invalid.None? {
      StageKeepsValid(t[id], items);
    }
  }

  lemma DeleteKeepsRowsValid(t: Table, id: Uuid, hardDelete: bool, now: Timestamp)
    requires RowsValid(t)
    ensures RowsValid(DeleteSampleEntity(t, id, hardDelete, now).rows)
  {
  }

  lemma CreateKeepsRowsValid(t: Table, c: SampleEntityCreate, id: Uuid, createdOn: Timestamp, modifiedOn: Timestamp)
    requires RowsValid(t)
    ensures RowsValid(CreateSampleEntity(t, c, id, createdOn, modifiedOn).rows)
  {
    var e := ToEntity(c, id, createdOn, modifiedOn);
    if ValidCreate(c) && CreateRow(t, e).result.Success? {
      assert ValidResponse(ToResponse(e));
    }
  }
}
