/** The pin store client (src/services/pinService.ts): the mapping between
    rows of the hosted `pins` table and `UserPin` records, and the effect of
    each call on that table. The hosted table is modelled by `PinStore`, a
    fake store holding the rows by id; a failure of the backend itself
    (network, permissions, constraint) is an input of each call. */
module PinService {
  import opened Wrappers
  import opened PinTypes

  /** What a call can fail with: a backend failure with its message, a
      primary-key clash on insert, or `.single()` seeing no row. */
  datatype StoreError = Backend(reason: string) | DuplicateKey | NotSingleRow

  /** A row of the `pins` table (PinData). The array columns are nullable;
      `created_at` and `updated_at` are set by the store and are modelled as
      ticks of the store's clock. */
  datatype Row = Row(
    id: string,
    title: string,
    lng: real,
    lat: real,
    assignees: Option<seq<string>>,
    target_families: Option<seq<string>>,
    created_at: nat,
    updated_at: nat)

  /** The input of `createPin`: a pin without its id (`Omit<UserPin, 'id'>`). */
  datatype PinDraft = PinDraft(
    title: string,
    lng: real,
    lat: real,
    assignees: seq<string>,
    targetFamilies: seq<string>)

  /** The input of `updatePin`: any subset of the pin's fields other than the
      id (`Partial<Omit<UserPin, 'id'>>`). */
  datatype PinChanges = PinChanges(
    title: Option<string>,
    lng: Option<real>,
    lat: Option<real>,
    assignees: Option<seq<string>>,
    targetFamilies: Option<seq<string>>)

  /** The object handed to `insert`: no id and no timestamps. */
  datatype NewRow = NewRow(
    title: string,
    lng: real,
    lat: real,
    assignees: seq<string>,
    target_families: seq<string>)

  /** The object handed to `update`. A field left `undefined` is dropped when
      the object is serialised to JSON, so the column keeps its value. */
  datatype RowPatch = RowPatch(
    title: Option<string>,
    assignees: Option<seq<string>>,
    target_families: Option<seq<string>>)

  /** The id reserved in the table, which `deleteAllPins` spares. */
  const SentinelId: string := "00000000-0000-0000-0000-000000000000"

  /** Row to app record, as done for every row a call returns: copy the
      scalar fields, rename `target_families`, and read a null array as `[]`. */
  function ToPin(row: Row): Pin {
    Pin(row.id, row.title, row.lng, row.lat,
        row.assignees.GetOr([]), row.target_families.GetOr([]))
  }

  /** The draft completed with the id the store assigned. */
  function WithId(draft: PinDraft, id: string): Pin {
    Pin(id, draft.title, draft.lng, draft.lat, draft.assignees, draft.targetFamilies)
  }

  /** The insert payload built by `createPin`. */
  function InsertPayload(draft: PinDraft): NewRow {
    NewRow(draft.title, draft.lng, draft.lat, draft.assignees, draft.targetFamilies)
  }

  /** The row the store keeps for an insert: the payload plus the id and the
      creation time it assigns. */
  function Stored(payload: NewRow, id: string, now: nat): Row {
    Row(id, payload.title, payload.lng, payload.lat,
        Some(payload.assignees), Some(payload.target_families), now, now)
  }

  /** The update payload built by `updatePin`: title, assignees and
      target_families only; coordinates among the changes are dropped. */
  function UpdatePayload(changes: PinChanges): RowPatch {
    RowPatch(changes.title, changes.assignees, changes.targetFamilies)
  }

  /** The row after an update with `patch`: present fields overwrite their
      column, every other column keeps its value. */
  function Patch(row: Row, patch: RowPatch): Row {
    row.(title := patch.title.GetOr(row.title),
         assignees := if patch.assignees.Some? then patch.assignees else row.assignees,
         target_families := if patch.target_families.Some? then patch.target_families else row.target_families)
  }

  /** A null array and an empty array read back the same, for each of the
      two array columns on its own and for both together. */
  lemma NullReadsAsEmpty(row: Row)
    ensures row.assignees == None ==> ToPin(row) == ToPin(row.(assignees := Some([])))
    ensures row.target_families == None ==> ToPin(row) == ToPin(row.(target_families := Some([])))
    ensures row.assignees == None && row.target_families == None ==>
      ToPin(row) == ToPin(row.(assignees := Some([]), target_families := Some([])))
  {
  }

  /** Creating and reading back returns the draft with the assigned id. */
  lemma CreateRoundTrip(draft: PinDraft, id: string, now: nat)
    ensures ToPin(Stored(InsertPayload(draft), id, now)) == WithId(draft, id)
  {
  }

  /** A row with both arrays present is rebuilt from its pin and timestamps. */
  lemma ToPinLosesOnlyNulls(row: Row)
    requires row.assignees.Some? && row.target_families.Some?
    ensures var p := ToPin(row);
      Row(p.id, p.title, p.lng, p.lat, Some(p.assignees), Some(p.targetFamilies),
          row.created_at, row.updated_at) == row
  {
  }

  /** No update payload moves a pin, changes its id or its creation time;
      the fields it carries are written unchanged, and each field it leaves
      out keeps its column. */
  lemma UpdateKeepsCoordinates(row: Row, changes: PinChanges)
    ensures var r := Patch(row, UpdatePayload(changes));
      && r.id == row.id && r.lng == row.lng && r.lat == row.lat
      && r.created_at == row.created_at
      && (changes.title.Some? ==> r.title == changes.title.value)
      && (changes.title.None? ==> r.title == row.title)
      && (changes.assignees.Some? ==> ToPin(r).assignees == changes.assignees.value)
      && (changes.targetFamilies.Some? ==> ToPin(r).targetFamilies == changes.targetFamilies.value)
      && (changes.assignees.None? ==> r.assignees == row.assignees)
      && (changes.targetFamilies.None? ==> r.target_families == row.target_families)
  {
  }

  /** Newest first: `created_at` never increases along the list. */
  predicate NewestFirst(rows: seq<Row>) {
    forall i, j :: 0 <= i < j < |rows| ==> rows[i].created_at >= rows[j].created_at
  }

  function RowIds(rows: seq<Row>): set<string> {
    set x | x in rows :: x.id
  }

  predicate DistinctRowIds(rows: seq<Row>) {
    forall i, j :: 0 <= i < j < |rows| ==> rows[i].id != rows[j].id
  }

  /** Puts a row into a newest-first list in front of the first row created
      before it. */
  function InsertByAge(rows: seq<Row>, row: Row): (r: seq<Row>)
    ensures forall x :: x in r <==> x in rows || x == row
  {
    if |rows| == 0 || rows[0].created_at < row.created_at then [row] + rows
    else [rows[0]] + InsertByAge(rows[1..], row)
  }

  /** Inserting by age keeps a list newest first. */
  lemma {:induction false} InsertByAgeSorted(rows: seq<Row>, row: Row)
    requires NewestFirst(rows)
    ensures NewestFirst(InsertByAge(rows, row))
  {
    if |rows| > 0 {
      assert rows == [rows[0]] + rows[1..];
      NewestFirstCons(rows[0], rows[1..]);
    }
    if |rows| > 0 && rows[0].created_at >= row.created_at {
      InsertByAgeSorted(rows[1..], row);
      NewestFirstCons(rows[0], InsertByAge(rows[1..], row));
    } else {
      NewestFirstCons(row, rows);
    }
  }

  /** A list with a row in front is newest first exactly when the rest is
      and no row of the rest is newer than the front. */
  lemma NewestFirstCons(row: Row, rows: seq<Row>)
    ensures NewestFirst([row] + rows) <==>
      NewestFirst(rows) && forall x :: x in rows ==> x.created_at <= row.created_at
  {
    if NewestFirst([row] + rows) {
      NewestFirstUncons(row, rows, [row] + rows);
    }
    if NewestFirst(rows) && forall x :: x in rows ==> x.created_at <= row.created_at {
      NewestFirstConsBuild(row, rows, [row] + rows);
    }
  }

  lemma NewestFirstUncons(row: Row, rows: seq<Row>, r: seq<Row>)
    requires r == [row] + rows && NewestFirst(r)
    ensures NewestFirst(rows) && forall x :: x in rows ==> x.created_at <= row.created_at
  {
    forall x | x in rows ensures x.created_at <= row.created_at {
      var k :| 0 <= k < |rows| && rows[k] == x;
      assert r[0] == row && r[k + 1] == x;
      assert r[0].created_at >= r[k + 1].created_at;
    }
    forall i, j | 0 <= i < j < |rows| ensures rows[i].created_at >= rows[j].created_at {
      assert r[i + 1] == rows[i] && r[j + 1] == rows[j];
    }
  }

  lemma NewestFirstConsBuild(row: Row, rows: seq<Row>, r: seq<Row>)
    requires r == [row] + rows && NewestFirst(rows)
    requires forall x :: x in rows ==> x.created_at <= row.created_at
    ensures NewestFirst(r)
  {
    forall i, j | 0 <= i < j < |r| ensures r[i].created_at >= r[j].created_at {
      assert r[j] == rows[j - 1];
      if i > 0 {
        assert r[i] == rows[i - 1];
      }
    }
  }

  /** Inserting a row with a new id keeps the ids distinct. */
  lemma {:induction false} InsertByAgeDistinct(rows: seq<Row>, row: Row)
    requires DistinctRowIds(rows) && row.id !in RowIds(rows)
    ensures DistinctRowIds(InsertByAge(rows, row))
  {
    if |rows| == 0 || rows[0].created_at < row.created_at {
      DistinctCons(row, rows);
    } else {
      assert rows == [rows[0]] + rows[1..];
      DistinctCons(rows[0], rows[1..]);
      InsertByAgeDistinct(rows[1..], row);
      DistinctCons(rows[0], InsertByAge(rows[1..], row));
    }
  }

  /** Putting a row in front of a list keeps its ids distinct exactly when
      the row's id is new to the list. */
  lemma DistinctCons(row: Row, rows: seq<Row>)
    ensures DistinctRowIds([row] + rows) <==> DistinctRowIds(rows) && row.id !in RowIds(rows)
  {
    var r := [row] + rows;
    assert forall i :: 0 <= i < |rows| ==> r[i + 1] == rows[i];
    if DistinctRowIds(r) {
      forall x | x in rows ensures x.id != row.id {
        var k :| 0 <= k < |rows| && rows[k] == x;
        assert r[0] == row && r[k + 1] == x;
        assert r[0].id != r[k + 1].id;
      }
    }
  }

  /** `pins` is what a successful `getAllPins` reads from `table`: every row
      exactly once, converted to a pin, newest first. */
  ghost predicate Listing(table: map<string, Row>, pins: seq<Pin>) {
    && Ids(pins) == table.Keys
    && DistinctIds(pins)
    && (forall i :: 0 <= i < |pins| ==> pins[i].id in table && pins[i] == ToPin(table[pins[i].id]))
    && (forall i, j :: 0 <= i < j < |pins| ==>
          table[pins[i].id].created_at >= table[pins[j].id].created_at)
  }

  /** `data.map(...)`: every row converted, in order. */
  function ToPins(rows: seq<Row>): (r: seq<Pin>)
    ensures |r| == |rows| && forall i :: 0 <= i < |rows| ==> r[i] == ToPin(rows[i])
  {
    seq(|rows|, i requires 0 <= i < |rows| => ToPin(rows[i]))
  }

  /** Converting a newest-first list holding every row of `table` exactly
      once gives a listing of `table`. */
  lemma SortedRowsListing(table: map<string, Row>, sorted: seq<Row>)
    requires forall x :: x in sorted ==> x.id in table && table[x.id] == x
    requires RowIds(sorted) == table.Keys
    requires DistinctRowIds(sorted)
    requires NewestFirst(sorted)
    ensures Listing(table, ToPins(sorted))
  {
    var pins := ToPins(sorted);
    assert forall i :: 0 <= i < |sorted| ==> pins[i].id == sorted[i].id && sorted[i] in sorted;
    assert Ids(pins) == RowIds(sorted) by {
      forall id | id in RowIds(sorted) ensures id in Ids(pins) {
        var x :| x in sorted && x.id == id;
        var k :| 0 <= k < |sorted| && sorted[k] == x;
        assert pins[k].id == id;
      }
    }
  }

  /** The hosted `pins` table, keyed by id, with the clock that stamps new rows. */
  class PinStore {
    var table: map<string, Row>
    var clock: nat

    /** Every row is stored under its own id and was created before now. */
    ghost predicate Valid()
      reads this
    {
      forall id :: id in table ==> table[id].id == id && table[id].created_at < clock
    }

    constructor (rows: map<string, Row>, now: nat)
      requires forall id :: id in rows ==> rows[id].id == id && rows[id].created_at < now
      ensures Valid() && table == rows && clock == now
    {
      table := rows;
      clock := now;
    }

    /** `getAllPins`: every row exactly once, newest first, as pins. */
    method GetAllPins(failure: Option<string>) returns (r: Result<seq<Pin>, StoreError>)
      requires Valid()
      ensures failure.Some? ==> r == Err(Backend(failure.value))
      ensures failure.None? ==> r.Ok? && Listing(table, r.value)
    {
      if failure.Some? {
        return Err(Backend(failure.value));
      }
      var rest := table.Keys;
      var sorted: seq<Row> := [];
      while rest != {}
        invariant rest <= table.Keys
        invariant forall x :: x in sorted ==> x.id in table && table[x.id] == x
        invariant RowIds(sorted) == table.Keys - rest
        invariant DistinctRowIds(sorted)
        invariant NewestFirst(sorted)
        decreases rest
      {
        var id :| id in rest;
        ghost var before := sorted;
        InsertByAgeSorted(sorted, table[id]);
        InsertByAgeDistinct(sorted, table[id]);
        sorted := InsertByAge(sorted, table[id]);
        assert RowIds(sorted) == RowIds(before) + {id};
        rest := rest - {id};
      }
      SortedRowsListing(table, sorted);
      return Ok(ToPins(sorted));
    }

    /** `createPin`: insert the payload under the id the store generates
        (`newId`), stamped with the current time, and return it as a pin. */
    method CreatePin(draft: PinDraft, newId: string, failure: Option<string>)
      returns (r: Result<Pin, StoreError>)
      requires Valid()
      modifies this
      ensures Valid()
      ensures failure.Some? ==> r == Err(Backend(failure.value))
      ensures failure.None? && newId in old(table) ==> r == Err(DuplicateKey)
      ensures r.Err? ==> table == old(table) && clock == old(clock)
      ensures r.Ok? <==> failure.None? && newId !in old(table)
      ensures r.Ok? ==>
        && table == old(table)[newId := Stored(InsertPayload(draft), newId, old(clock))]
        && clock == old(clock) + 1
        && r.value == WithId(draft, newId)
    {
      if failure.Some? {
        return Err(Backend(failure.value));
      }
      if newId in table {
        return Err(DuplicateKey);
      }
      var row := Stored(InsertPayload(draft), newId, clock);
      table := table[newId := row];
      clock := clock + 1;
      r := Ok(ToPin(row));
    }

    /** `updatePin`: patch the one row with that id and return it; without
        such a row `.single()` fails. Coordinates are never written. */
    method UpdatePin(id: string, changes: PinChanges, failure: Option<string>)
      returns (r: Result<Pin, StoreError>)
      requires Valid()
      modifies this
      ensures Valid() && clock == old(clock)
      ensures failure.Some? ==> r == Err(Backend(failure.value))
      ensures failure.None? && id !in old(table) ==> r == Err(NotSingleRow)
      ensures r.Err? ==> table == old(table)
      ensures r.Ok? <==> failure.None? && id in old(table)
      ensures r.Ok? ==>
        && table == old(table)[id := Patch(old(table)[id], UpdatePayload(changes))]
        && r.value == ToPin(table[id])
      ensures table.Keys == old(table).Keys
      ensures forall k :: k in table ==>
        table[k].lng == old(table)[k].lng && table[k].lat == old(table)[k].lat
    {
      if failure.Some? {
        return Err(Backend(failure.value));
      }
      if id !in table {
        return Err(NotSingleRow);
      }
      var row := Patch(table[id], UpdatePayload(changes));
      table := table[id := row];
      r := Ok(ToPin(row));
    }

    /** `deletePin`: remove the row with that id, if any. */
    method DeletePin(id: string, failure: Option<string>) returns (r: Outcome<StoreError>)
      requires Valid()
      modifies this
      ensures Valid() && clock == old(clock)
      ensures failure.Some? ==> r == Fail(Backend(failure.value)) && table == old(table)
      ensures failure.None? ==> r == Pass && table == old(table) - {id}
    {
      if failure.Some? {
        return Fail(Backend(failure.value));
      }
      table := table - {id};
      r := Pass;
    }

    /** `deleteAllPins`: remove every row whose id is not the sentinel. */
    method DeleteAllPins(failure: Option<string>) returns (r: Outcome<StoreError>)
      requires Valid()
      modifies this
      ensures Valid() && clock == old(clock)
      ensures failure.Some? ==> r == Fail(Backend(failure.value)) && table == old(table)
      ensures failure.None? ==>
        && r == Pass
        && table.Keys == old(table).Keys * {SentinelId}
        && (SentinelId in table ==> table[SentinelId] == old(table)[SentinelId])
    {
      if failure.Some? {
        return Fail(Backend(failure.value));
      }
      table := map id | id in table && id == SentinelId :: table[id];
      r := Pass;
    }
  }
}
