/** `SampleService` (src/services/sample_service.py) over an in-memory `sample_table`:
    the queries are functions of the table, the writes are methods of `SampleTable`. */
module SampleService {
  import opened Wrappers
  import opened Text
  import opened Entities
  import opened SqlLike

  /** The rows by primary key. */
  type Table = map<Uuid, SampleEntity>

  /** Every row is stored under its own id. */
  predicate Keyed(t: Table) {
    forall k :: k in t ==> t[k].id == k
  }

  /** `get_by_id`: the row with that id, provided it is not deleted and active. */
  function GetById(t: Table, id: Uuid): (r: Option<SampleEntity>)
    ensures r.Some? <==> id in t && Visible(t[id])
    ensures r.Some? ==> r.value == t[id]
  {
    if id in t && !t[id].isDeleted && t[id].isActive then Some(t[id]) else None
  }

  /** The `WHERE is_deleted = false AND is_active = true` filter, dropped when
      `include_inactive` is set. */
  function Filter(t: Table, includeInactive: bool): (r: Table)
    ensures forall k :: k in r <==> k in t && (includeInactive || Visible(t[k]))
    ensures forall k :: k in r ==> r[k] == t[k]
  {
    map k | k in t && (includeInactive || Visible(t[k])) :: t[k]
  }

  /** The row order of the queries: `created_on DESC`; rows created at the same instant
      are taken by ascending id. */
  predicate Precedes(a: SampleEntity, b: SampleEntity) {
    a.createdOn > b.createdOn || (a.createdOn == b.createdOn && a.id < b.id)
  }

  predicate Sorted(s: seq<SampleEntity>) {
    forall i, j :: 0 <= i < j < |s| ==> Precedes(s[i], s[j])
  }

  /** `k` is the key of the row that comes first. */
  predicate IsFirst(t: Table, k: Uuid) {
    k in t && forall j :: j in t && j != k ==> Precedes(t[k], t[j])
  }

  lemma {:induction false} HasFirst(t: Table)
    requires Keyed(t) && t != map[]
    ensures exists k :: IsFirst(t, k)
    decreases |t|
  {
    var k0 :| k0 in t;
    var rest := t - {k0};
    assert rest.Keys == t.Keys - {k0};
    if forall j :: j in t ==> j == k0 {
      assert IsFirst(t, k0);
    } else {
      var j0 :| j0 in t && j0 != k0;
      assert j0 in rest;
      HasFirst(rest);
      var k1 :| IsFirst(rest, k1);
      if Precedes(t[k0], t[k1]) {
        forall j | j in t && j != k0 ensures Precedes(t[k0], t[j]) {
          assert j in rest;
          if j != k1 {
            assert Precedes(t[k1], t[j]);
          }
        }
        assert IsFirst(t, k0);
      } else {
        assert t[k0].id != t[k1].id;
        forall j | j in t && j != k1 ensures Precedes(t[k1], t[j]) {
          if j != k0 {
            assert j in rest;
          }
        }
        assert IsFirst(t, k1);
      }
    }
  }

  lemma FirstUnique(t: Table)
    ensures forall k, k' :: IsFirst(t, k) && IsFirst(t, k') ==> k == k'
  {
  }

  /** The rows in query order. */
  function Ordered(t: Table): (r: seq<SampleEntity>)
    requires Keyed(t)
    ensures |r| == |t|
    ensures Sorted(r)
    ensures forall i :: 0 <= i < |r| ==> r[i].id in t && t[r[i].id] == r[i]
    ensures forall k :: k in t ==> t[k] in r
    decreases |t|
  {
    if t == map[] then []
    else
      HasFirst(t);
      FirstUnique(t);
      var k :| IsFirst(t, k);
      var rest := t - {k};
      assert rest.Keys == t.Keys - {k};
      var tail := Ordered(rest);
      OrderedCons(t, k, tail);
      [t[k]] + tail
  }

  /** The first row followed by the ordered remaining rows is the ordered table. */
  lemma OrderedCons(t: Table, k: Uuid, tail: seq<SampleEntity>)
    requires Keyed(t) && IsFirst(t, k)
    requires |tail| == |t| - 1 && Sorted(tail)
    requires forall i :: 0 <= i < |tail| ==> tail[i].id in t - {k} && (t - {k})[tail[i].id] == tail[i]
    requires forall k' :: k' in t - {k} ==> (t - {k})[k'] in tail
    ensures var r := [t[k]] + tail;
            && Sorted(r)
            && (forall i :: 0 <= i < |r| ==> r[i].id in t && t[r[i].id] == r[i])
            && (forall k' :: k' in t ==> t[k'] in r)
  {
    var r := [t[k]] + tail;
    forall i, j | 0 <= i < j < |r| ensures Precedes(r[i], r[j]) {
      assert r[j] == tail[j - 1];
      if i > 0 {
        assert r[i] == tail[i - 1];
      }
    }
    forall i | 0 <= i < |r| ensures r[i].id in t && t[r[i].id] == r[i] {
      if i > 0 {
        assert r[i] == tail[i - 1];
      }
    }
    forall k' | k' in t ensures t[k'] in r {
      if k' != k {
        assert k' in t - {k};
      }
    }
  }

  /** `OFFSET skip LIMIT limit`. */
  function Page<T>(s: seq<T>, skip: nat, limit: nat): (r: seq<T>)
    ensures |r| == if skip >= |s| then 0 else if limit <= |s| - skip then limit else |s| - skip
    ensures forall i :: 0 <= i < |r| ==> r[i] == s[skip + i]
  {
    if skip >= |s| then []
    else if limit <= |s| - skip then s[skip..skip + limit]
    else s[skip..]
  }

  /** Consecutive pages tile the listing: nothing is skipped and nothing repeats. */
  lemma PagesTile<T>(s: seq<T>, skip: nat, a: nat, b: nat)
    ensures Page(s, skip, a) + Page(s, skip + a, b) == Page(s, skip, a + b)
  {
  }

  /** `get_all`. */
  function GetAll(t: Table, skip: nat := 0, limit: nat := 100, includeInactive: bool := false): seq<SampleEntity>
    requires Keyed(t)
  {
    Page(Ordered(Filter(t, includeInactive)), skip, limit)
  }

  /** `count`: `count(id)` under the same filter. */
  function Count(t: Table, includeInactive: bool := false): nat {
    |Filter(t, includeInactive)|
  }

  /** `get_all` returns at most `limit` rows, those after the first `skip` of the filtered
      rows in created-descending order; it sees exactly the rows `count` counts. */
  lemma GetAllWindow(t: Table, skip: nat, limit: nat, includeInactive: bool)
    requires Keyed(t)
    ensures var r := GetAll(t, skip, limit, includeInactive);
            && |r| <= limit
            && |r| == (if skip >= Count(t, includeInactive) then 0
                       else if limit <= Count(t, includeInactive) - skip then limit
                       else Count(t, includeInactive) - skip)
            && Sorted(r)
            && (forall i :: 0 <= i < |r| ==> r[i].id in t && t[r[i].id] == r[i])
            && (!includeInactive ==> forall i :: 0 <= i < |r| ==> Visible(r[i]))
  {
  }

  /** With no paging in the way, the listing holds every counted row. */
  lemma GetAllComplete(t: Table, includeInactive: bool)
    requires Keyed(t)
    ensures var r := GetAll(t, 0, Count(t, includeInactive), includeInactive);
            && |r| == Count(t, includeInactive)
            && (forall k :: k in t ==> (t[k] in r <==> includeInactive || Visible(t[k])))
  {
  }

  /** The rows `search_by_string_field` selects: visible, and `string_field ILIKE '%term%'`. */
  function Matching(t: Table, term: string): (r: Table)
    ensures forall k :: k in r <==> k in t && Visible(t[k]) && ILike(t[k].stringField, "%" + term + "%")
    ensures forall k :: k in r ==> r[k] == t[k]
  {
    map k | k in t && Visible(t[k]) && ILike(t[k].stringField, "%" + term + "%") :: t[k]
  }

  /** `search_by_string_field`. */
  function SearchByStringField(t: Table, term: string, skip: nat := 0, limit: nat := 100): seq<SampleEntity>
    requires Keyed(t)
  {
    Page(Ordered(Matching(t, term)), skip, limit)
  }

  /** A search for a term without `%`, `_` or `\` returns, in query order, the visible rows
      whose `string_field` contains the term ignoring ASCII case, paged like `get_all`. */
  lemma SearchContains(t: Table, term: string, skip: nat, limit: nat)
    requires Keyed(t)
    requires NoWildcards(term)
    ensures var r := SearchByStringField(t, term, skip, limit);
            && |r| <= limit
            && Sorted(r)
            && (forall i :: 0 <= i < |r| ==>
                  r[i].id in t && t[r[i].id] == r[i] && Visible(r[i])
                  && Contains(Lower(r[i].stringField), Lower(term)))
    ensures skip == 0 && limit >= |t| ==>
            forall k :: k in t && Visible(t[k]) && Contains(Lower(t[k].stringField), Lower(term))
                        ==> t[k] in SearchByStringField(t, term, skip, limit)
  {
    var m := Matching(t, term);
    var o := Ordered(m);
    var r := SearchByStringField(t, term, skip, limit);
    forall i, j | 0 <= i < j < |r| ensures Precedes(r[i], r[j]) {
      assert r[i] == o[skip + i] && r[j] == o[skip + j];
    }
    forall i | 0 <= i < |r|
      ensures r[i].id in t && t[r[i].id] == r[i] && Visible(r[i])
              && Contains(Lower(r[i].stringField), Lower(term))
    {
      assert r[i] == o[skip + i];
      assert r[i].id in m;
      ILikeContains(r[i].stringField, term);
    }
    if skip == 0 && limit >= |t| {
      assert m.Keys <= t.Keys;
      assert |m| <= |t| by { SubmapSize(m, t); }
      assert r == o;
      forall k | k in t && Visible(t[k]) && Contains(Lower(t[k].stringField), Lower(term))
        ensures t[k] in r
      {
        ILikeContains(t[k].stringField, term);
        assert k in m;
      }
    }
  }

  lemma SubmapSize(m: Table, t: Table)
    requires m.Keys <= t.Keys
    ensures |m| <= |t|
  {
    assert |m.Keys| <= |t.Keys| by { SubsetSize(m.Keys, t.Keys); }
  }

  lemma {:induction false} SubsetSize(a: set<Uuid>, b: set<Uuid>)
    requires a <= b
    ensures |a| <= |b|
    decreases |b|
  {
    if a != {} {
      var x :| x in a;
      SubsetSize(a - {x}, b - {x});
    }
  }

  // ---- Writes ----

  /** What the database refuses at flush time. */
  datatype DbError =
    | UniqueViolation                // the primary key is taken
    | InvalidValue(column: string)   // an assigned value does not have the column's type
    | DataException                  // PostgreSQL refuses a value (SQLSTATE class 22)

  /** The new table and the result of a write. */
  datatype Write<R> = Write(result: R, rows: Table)

  /** The table invariant: rows keyed by id, and every row storable. */
  predicate Consistent(t: Table) {
    Keyed(t) && forall k :: k in t ==> Storable(t[k])
  }

  /** `create`: `add`, `flush`, `refresh`; the flush fails on a taken id or a value a
      column cannot store, and then nothing is stored. */
  function CreateRow(t: Table, e: SampleEntity): Write<Result<SampleEntity, DbError>> {
    if e.id in t then Write(Failure(UniqueViolation), t)
    else if !Storable(e) then Write(Failure(DataException), t)
    else Write(Success(e), t[e.id := e])
  }

  /** The names `update` assigns: attributes of the record other than `id` and `created_on`. */
  predicate Writable(name: string) {
    name in Columns && name != "id" && name != "created_on"
  }

  /** The record after some `setattr` calls: the first assigned name whose value the column
      cannot hold, and whether anything was assigned (which makes the row dirty). */
  datatype Staged = Staged(entity: SampleEntity, invalid: Option<string>, dirty: bool)

  /** One iteration of the `setattr` loop. */
  function Assign(st: Staged, name: string, v: FieldValue): (r: Staged)
    ensures r.entity.id == st.entity.id && r.entity.createdOn == st.entity.createdOn
  {
    if !Writable(name) then st
    else if Fits(name, v) then st.(entity := SetField(st.entity, name, v), dirty := true)
    else st.(invalid := if st.invalid.Some? then st.invalid else Some(name), dirty := true)
  }

  /** The loop over `update_data.items()`, in order. */
  function Stage(e: SampleEntity, items: seq<(string, FieldValue)>): (r: Staged)
    ensures r.entity.id == e.id && r.entity.createdOn == e.createdOn
    decreases |items|
  {
    if items == [] then Staged(e, None, false)
    else
      var last := items[|items| - 1];
      Assign(Stage(e, items[..|items| - 1]), last.0, last.1)
  }

  /** The value the dictionary gives `name`: its last entry. */
  function LastFor(items: seq<(string, FieldValue)>, name: string): Option<FieldValue>
    decreases |items|
  {
    if items == [] then None
    else if items[|items| - 1].0 == name then Some(items[|items| - 1].1)
    else LastFor(items[..|items| - 1], name)
  }

  /** `flush` + `refresh`: the `before_update` listener stamps `modified_on` on a dirty row,
      and the row must be storable. */
  function Flush(st: Staged, now: Timestamp): Result<SampleEntity, DbError> {
    if st.invalid.Some? then Failure(InvalidValue(st.invalid.value))
    else
      var e := Stamped(st, now);
      if Storable(e) then Success(e) else Failure(DataException)
  }

  /** The staged record as the `before_update` listener leaves it. */
  function Stamped(st: Staged, now: Timestamp): SampleEntity {
    if st.dirty then st.entity.(modifiedOn := now) else st.entity
  }

  /** `update`: `None` for a missing or invisible row; otherwise the staged and flushed
      record, stored only when the flush succeeds. */
  function UpdateRow(t: Table, id: Uuid, items: seq<(string, FieldValue)>, now: Timestamp)
    : Write<Result<Option<SampleEntity>, DbError>>
  {
    match GetById(t, id)
    case None => Write(Success(None), t)
    case Some(e) =>
      match Flush(Stage(e, items), now)
      case Failure(err) => Write(Failure(err), t)
      case Success(e') => Write(Success(Some(e')), t[id := e'])
  }

  /** `delete`: `False` for a missing or invisible row; a hard delete removes the row, a soft
      delete sets `is_deleted` and clears `is_active`, and its flush stamps `modified_on`. */
  function DeleteRow(t: Table, id: Uuid, hardDelete: bool, now: Timestamp): Write<bool> {
    match GetById(t, id)
    case None => Write(false, t)
    case Some(e) =>
      if hardDelete then Write(true, t - {id})
      else Write(true, t[id := e.(isDeleted := true, isActive := false, modifiedOn := now)])
  }

  /** Storing a storable record with the same id keeps the table consistent. */
  lemma ConsistentReplace(t: Table, e: SampleEntity)
    requires Consistent(t) && Storable(e)
    ensures Consistent(t[e.id := e])
  {
  }

  /** A successful create stores the record, visible to `get_by_id`, and `count` grows by
      one; a failed one changes nothing. */
  lemma CreateRowSpec(t: Table, e: SampleEntity, includeInactive: bool)
    requires Consistent(t)
    ensures var w := CreateRow(t, e);
            && Consistent(w.rows)
            && (w.result.Success? <==> e.id !in t && Storable(e))
            && (w.result.Success? ==>
                  && w.result.value == e && w.rows == t[e.id := e]
                  && (Visible(e) ==> GetById(w.rows, e.id) == Some(e))
                  && Count(w.rows, includeInactive)
                     == Count(t, includeInactive) + (if includeInactive || Visible(e) then 1 else 0))
            && (w.result.Failure? ==> w.rows == t)
  {
    var w := CreateRow(t, e);
    if e.id !in t && Storable(e) {
      assert w == Write(Success(e), t[e.id := e]);
      ConsistentReplace(t, e);
      CountInsert(t, e, includeInactive);
    }
  }

  /** A new row adds one to `count` when the count includes it. */
  lemma CountInsert(t: Table, e: SampleEntity, includeInactive: bool)
    requires e.id !in t
    ensures Count(t[e.id := e], includeInactive)
            == Count(t, includeInactive) + (if includeInactive || Visible(e) then 1 else 0)
  {
    var f, f' := Filter(t, includeInactive), Filter(t[e.id := e], includeInactive);
    if includeInactive || Visible(e) {
      assert f' == f[e.id := e];
    } else {
      assert f' == f;
    }
  }

  /** The setattr loop never touches a name it may not write; when every value fits,
      each writable name ends with its last value in the dictionary. */
  lemma {:induction false} StageFields(e: SampleEntity, items: seq<(string, FieldValue)>, name: string)
    ensures !Writable(name) ==> FieldOf(Stage(e, items).entity, name) == FieldOf(e, name)
    ensures Writable(name) && Stage(e, items).invalid.None? ==>
            FieldOf(Stage(e, items).entity, name)
            == (if LastFor(items, name).Some? then LastFor(items, name) else FieldOf(e, name))
    decreases |items|
  {
    if items != [] {
      var init := items[..|items| - 1];
      StageFields(e, init, name);
    }
  }

  /** The flush fails exactly when some writable name was given a value its column
      cannot hold; the row is dirty exactly when some writable name was assigned. */
  lemma {:induction false} StageFlags(e: SampleEntity, items: seq<(string, FieldValue)>)
    ensures Stage(e, items).invalid.None? <==>
            forall i :: 0 <= i < |items| && Writable(items[i].0) ==> Fits(items[i].0, items[i].1)
    ensures Stage(e, items).dirty <==> exists i :: 0 <= i < |items| && Writable(items[i].0)
    decreases |items|
  {
    if items != [] {
      var init := items[..|items| - 1];
      StageFlags(e, init);
      assert forall i :: 0 <= i < |init| ==> init[i] == items[i];
    }
  }

  /** `update` of a missing or invisible id returns `None` and changes nothing. For a
      visible row it fails exactly when a value does not have its column's type
      (`InvalidValue`, naming the first such column) or the staged row cannot be stored
      (`DataException`), and a failure changes nothing. A success stores the staged row
      under the same key: id and `created_on` kept, each writable name holding its last
      value in the dictionary and every other column its old value, and `modified_on`
      refreshed when anything was assigned. */
  lemma UpdateRowSpec(t: Table, id: Uuid, items: seq<(string, FieldValue)>, now: Timestamp)
    requires Consistent(t)
    ensures var w := UpdateRow(t, id, items, now);
            && Consistent(w.rows)
            && (GetById(t, id).None? ==> w.result == Success(None) && w.rows == t)
            && (w.result.Failure? ==> w.rows == t)
            && (GetById(t, id).Some? ==>
                  var st := Stage(t[id], items);
                  && (w.result.Success? <==> st.invalid.None? && Storable(Stamped(st, now)))
                  && (st.invalid.Some? ==> w.result == Failure(InvalidValue(st.invalid.value)))
                  && (st.invalid.None? && !Storable(Stamped(st, now)) ==> w.result == Failure(DataException))
                  && (w.result.Success? ==> w.result.value == Some(Stamped(st, now))))
            && (w.result.Success? && w.result.value.Some? ==>
                  var e' := w.result.value.value;
                  && GetById(t, id).Some?
                  && w.rows == t[id := e']
                  && e'.id == id && e'.createdOn == t[id].createdOn
                  && (forall n :: n != "modified_on" ==>
                        FieldOf(e', n)
                        == (if Writable(n) && LastFor(items, n).Some? then LastFor(items, n) else FieldOf(t[id], n)))
                  && (if exists i :: 0 <= i < |items| && Writable(items[i].0)
                      then e'.modifiedOn == now
                      else e' == t[id]))
  {
    var w := UpdateRow(t, id, items, now);
    if GetById(t, id).Some? {
      StageFlags(t[id], items);
      if Stage(t[id], items).invalid.None? {
        StagedColumns(t[id], items, now);
      }
      if !Stage(t[id], items).dirty && Stage(t[id], items).invalid.None? {
        forall name ensures FieldOf(Stage(t[id], items).entity, name) == FieldOf(t[id], name) {
          StageFields(t[id], items, name);
          if Writable(name) {
            LastForWritten(items, name);
          }
        }
        FieldsDetermineEntity(Stage(t[id], items).entity, t[id]);
      }
    }
  }

  /** Apart from `modified_on`, the stamped record holds each writable name's last value
      in the dictionary and every other column's old value. */
  lemma StagedColumns(e: SampleEntity, items: seq<(string, FieldValue)>, now: Timestamp)
    requires Stage(e, items).invalid.None?
    ensures forall n :: n != "modified_on" ==>
              FieldOf(Stamped(Stage(e, items), now), n)
              == (if Writable(n) && LastFor(items, n).Some? then LastFor(items, n) else FieldOf(e, n))
  {
    var st := Stage(e, items);
    forall n | n != "modified_on"
      ensures FieldOf(Stamped(st, now), n)
              == (if Writable(n) && LastFor(items, n).Some? then LastFor(items, n) else FieldOf(e, n))
    {
      StageFields(e, items, n);
      assert FieldOf(Stamped(st, now), n) == FieldOf(st.entity, n);
    }
  }

  /** A name the dictionary holds is one of its keys. */
  lemma {:induction false} LastForWritten(items: seq<(string, FieldValue)>, name: string)
    ensures LastFor(items, name).Some? ==> exists i :: 0 <= i < |items| && items[i].0 == name
    decreases |items|
  {
    if items != [] && items[|items| - 1].0 != name {
      var init := items[..|items| - 1];
      LastForWritten(init, name);
      if LastFor(init, name).Some? {
        var i :| 0 <= i < |init| && init[i].0 == name;
        assert items[i] == init[i];
      }
    }
  }

  /** `update` writes at most the staged and flushed row. */
  lemma UpdateRowWrites(t: Table, id: Uuid, items: seq<(string, FieldValue)>, now: Timestamp)
    ensures var w := UpdateRow(t, id, items, now);
            || w.rows == t
            || (GetById(t, id).Some? && Flush(Stage(t[id], items), now).Success?
                && w.rows == t[id := Flush(Stage(t[id], items), now).value])
  {
  }

  /** After either delete the row is no longer visible to `get_by_id`; a soft delete keeps
      it with both flags flipped, a hard delete removes it; `count` drops by one. A missing
      or invisible id returns false and changes nothing. Other rows are untouched. */
  lemma DeleteRowSpec(t: Table, id: Uuid, hardDelete: bool, now: Timestamp)
    requires Consistent(t)
    ensures var w := DeleteRow(t, id, hardDelete, now);
            && Consistent(w.rows)
            && (w.result <==> GetById(t, id).Some?)
            && (!w.result ==> w.rows == t)
            && (w.result ==>
                  && GetById(w.rows, id).None?
                  && Count(w.rows) == Count(t) - 1
                  && (forall k :: k != id ==> (k in w.rows <==> k in t) && (k in t ==> w.rows[k] == t[k]))
                  && (hardDelete ==> id !in w.rows)
                  && (!hardDelete ==>
                        && id in w.rows && w.rows[id].isDeleted && !w.rows[id].isActive
                        && w.rows[id] == t[id].(isDeleted := true, isActive := false, modifiedOn := now)))
  {
    var w := DeleteRow(t, id, hardDelete, now);
    if w.result && !hardDelete {
      ConsistentReplace(t, t[id].(isDeleted := true, isActive := false, modifiedOn := now));
    }
    if w.result {
      CountHide(t, w.rows, id);
    }
  }

  /** Hiding a counted row, by removing it or by making it invisible, drops `count` by one. */
  lemma CountHide(t: Table, t': Table, id: Uuid)
    requires id in t && Visible(t[id])
    requires id !in t' || !Visible(t'[id])
    requires forall k :: k != id ==> (k in t' <==> k in t) && (k in t ==> t'[k] == t[k])
    ensures Count(t') == Count(t) - 1
  {
    var f, f' := Filter(t, false), Filter(t', false);
    assert f' == f - {id};
    assert f'.Keys == f.Keys - {id};
  }

  /** The `sample_table` rows; create, update and delete change them in place, each as
      one flushed unit of work. */
  class SampleTable {
    var rows: Table

    ghost predicate Valid()
      reads this
    {
      Consistent(rows)
    }

    constructor()
      ensures rows == map[] && Valid()
    {
      rows := map[];
    }

    method Create(e: SampleEntity) returns (r: Result<SampleEntity, DbError>)
      requires Valid()
      modifies this
      ensures Write(r, rows) == CreateRow(old(rows), e)
      ensures Valid()
    {
      if e.id in rows {
        return Failure(UniqueViolation);
      }
      if !Storable(e) {
        return Failure(DataException);
      }
      rows := rows[e.id := e];
      return Success(e);
    }

    method Update(id: Uuid, items: seq<(string, FieldValue)>, now: Timestamp)
      returns (r: Result<Option<SampleEntity>, DbError>)
      requires Valid()
      modifies this
      ensures Write(r, rows) == UpdateRow(old(rows), id, items, now)
      ensures Valid()
    {
      var found := GetById(rows, id);
      if found.None? {
        return Success(None);
      }
      var st := Staged(found.value, None, false);
      for i := 0 to |items|
        invariant st == Stage(found.value, items[..i])
      {
        assert items[..i + 1][..i] == items[..i];
        st := Assign(st, items[i].0, items[i].1);
      }
      assert items[..|items|] == items;
      var flushed := Flush(st, now);
      if flushed.Failure? {
        return Failure(flushed.error);
      }
      rows := rows[id := flushed.value];
      return Success(Some(flushed.value));
    }

    method Delete(id: Uuid, hardDelete: bool, now: Timestamp) returns (ok: bool)
      requires Valid()
      modifies this
      ensures Write(ok, rows) == DeleteRow(old(rows), id, hardDelete, now)
      ensures Valid()
    {
      var found := GetById(rows, id);
      if found.None? {
        return false;
      }
      if hardDelete {
        rows := rows - {id};
      } else {
        var e := found.value;
        e := e.(isDeleted := true, isActive := false);
        e := e.(modifiedOn := now);
        rows := rows[id := e];
      }
      return true;
    }
  }
}
