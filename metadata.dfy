/**
 * The SQLite table `files`: one row per stored object, an AUTOINCREMENT
 * integer id, a UNIQUE s3_key, and uploaded_at as TEXT written by
 * datetime('now'). Rows are kept in rowid order, which for an
 * AUTOINCREMENT table is insertion order.
 */
module Metadata {
  import opened Wrappers
  import opened StorageKeys

  /** The largest rowid SQLite can assign, 2^63 - 1. */
  const MAX_ROW_ID := 0x7FFF_FFFF_FFFF_FFFF

  datatype Row = Row(
    id: int,
    filename: JsString,
    s3Key: JsString,
    s3Bucket: JsString,
    size: nat,
    mimetype: JsString,
    uploadedAt: string)

  /**
   * The rows in rowid order, and the AUTOINCREMENT high-water mark that
   * SQLite keeps for the table in sqlite_sequence (0 before any insert).
   */
  datatype TableState = TableState(rows: seq<Row>, lastId: int)

  const EMPTY := TableState([], 0)

  /** Why an INSERT or DELETE statement failed. */
  datatype DbError =
    | EngineError      // I/O error, busy database or any other failure of the engine
    | Full             // the largest rowid has been used: SQLITE_FULL
    | UniqueViolation  // UNIQUE constraint failed: files.s3_key

  ghost predicate IdsIncreasing(rows: seq<Row>) {
    forall i, j :: 0 <= i < j < |rows| ==> rows[i].id < rows[j].id
  }

  ghost predicate KeysUnique(rows: seq<Row>) {
    forall x, y :: x in rows && y in rows && x.s3Key == y.s3Key ==> x == y
  }

  /** What the schema and AUTOINCREMENT guarantee of the table at all times. */
  ghost predicate TableInvariant(t: TableState) {
    && 0 <= t.lastId <= MAX_ROW_ID
    && IdsIncreasing(t.rows)
    && KeysUnique(t.rows)
    && forall x :: x in t.rows ==> 1 <= x.id <= t.lastId
  }

  lemma EmptyTableInvariant()
    ensures TableInvariant(EMPTY)
  {
  }

  predicate KeyInUse(rows: seq<Row>, key: JsString) {
    exists x :: x in rows && x.s3Key == key
  }

  /** SELECT * FROM files WHERE id = ? */
  function FindById(rows: seq<Row>, id: int): (found: Option<Row>)
    ensures found.Some? ==> found.value in rows && found.value.id == id
    ensures found.None? <==> forall x :: x in rows ==> x.id != id
  {
    if rows == [] then None
    else if rows[0].id == id then Some(rows[0])
    else FindById(rows[1..], id)
  }

  /** The rows left after DELETE FROM files WHERE id = ?, still in rowid order. */
  function WithoutId(rows: seq<Row>, id: int): (kept: seq<Row>)
    ensures forall x :: x in kept <==> x in rows && x.id != id
    ensures IdsIncreasing(rows) ==> IdsIncreasing(kept)
  {
    if rows == [] then []
    else if rows[0].id == id then WithoutId(rows[1..], id)
    else [rows[0]] + WithoutId(rows[1..], id)
  }

  /** Outcome of an INSERT: the table afterwards and lastInsertRowid or the error. */
  datatype Insertion = Insertion(table: TableState, rowid: Result<int, DbError>)

  /**
   * INSERT INTO files (filename, s3_key, s3_bucket, size, mimetype, uploaded_at)
   * VALUES (?, ?, ?, ?, ?, datetime('now')), with `uploadedAt` standing for the
   * value of datetime('now') and `engineOk` for whether the engine itself
   * completes the statement. A failed statement is rolled back whole.
   */
  function InsertRow(
    t: TableState, filename: JsString, key: JsString, bucket: JsString,
    size: nat, mimetype: JsString, uploadedAt: string, engineOk: bool): (r: Insertion)
    ensures r.rowid.Err? ==> r.table == t
    ensures r.rowid.Err? <==> !engineOk || t.lastId >= MAX_ROW_ID || KeyInUse(t.rows, key)
    ensures r.rowid == Err(UniqueViolation) <==> engineOk && t.lastId < MAX_ROW_ID && KeyInUse(t.rows, key)
    ensures r.rowid.Ok? ==>
      && r.rowid.value == t.lastId + 1
      && r.table.lastId == r.rowid.value
      && r.table.rows == t.rows + [Row(r.rowid.value, filename, key, bucket, size, mimetype, uploadedAt)]
    ensures TableInvariant(t) && r.rowid.Ok? ==> forall x :: x in t.rows ==> x.id < r.rowid.value
    ensures TableInvariant(t) ==> TableInvariant(r.table)
  {
    if !engineOk then Insertion(t, Err(EngineError))
    else if t.lastId >= MAX_ROW_ID then Insertion(t, Err(Full))
    else if KeyInUse(t.rows, key) then Insertion(t, Err(UniqueViolation))
    else
      var id := t.lastId + 1;
      var row := Row(id, filename, key, bucket, size, mimetype, uploadedAt);
      Insertion(TableState(t.rows + [row], id), Ok(id))
  }

  /** Outcome of a DELETE: the table afterwards and whether the statement succeeded. */
  datatype Deletion = Deletion(table: TableState, ok: bool)

  /**
   * DELETE FROM files WHERE id = ?. Deleting an absent id succeeds and
   * changes nothing; the high-water mark is never lowered.
   */
  function DeleteRow(t: TableState, id: int, engineOk: bool): (r: Deletion)
    ensures r.ok == engineOk
    ensures !r.ok ==> r.table == t
    ensures r.ok ==> r.table.lastId == t.lastId && FindById(r.table.rows, id).None?
    ensures r.ok ==> forall x :: x in t.rows && x.id != id ==> x in r.table.rows
    ensures forall x :: x in r.table.rows ==> x in t.rows
    ensures TableInvariant(t) ==> TableInvariant(r.table)
  {
    if engineOk then Deletion(TableState(WithoutId(t.rows, id), t.lastId), true)
    else Deletion(t, false)
  }

  /** SELECT after a successful INSERT finds exactly the row that was inserted. */
  lemma InsertThenFind(
    t: TableState, filename: JsString, key: JsString, bucket: JsString,
    size: nat, mimetype: JsString, uploadedAt: string, engineOk: bool)
    requires TableInvariant(t)
    ensures var r := InsertRow(t, filename, key, bucket, size, mimetype, uploadedAt, engineOk);
      r.rowid.Ok? ==>
        FindById(r.table.rows, r.rowid.value) == Some(Row(r.rowid.value, filename, key, bucket, size, mimetype, uploadedAt))
  {
  }

  /** Ids are never reused: a row inserted after a delete never gets the deleted id. */
  lemma DeletedIdNotReused(
    t: TableState, id: int, filename: JsString, key: JsString, bucket: JsString,
    size: nat, mimetype: JsString, uploadedAt: string, engineOk: bool)
    requires TableInvariant(t)
    requires FindById(t.rows, id).Some?
    ensures var r := InsertRow(DeleteRow(t, id, true).table, filename, key, bucket, size, mimetype, uploadedAt, engineOk);
      r.rowid.Ok? ==> r.rowid.value != id
  {
  }

  /** Deleting a row that was just inserted gives back the rows there were before. */
  lemma {:induction false} WithoutNewest(rows: seq<Row>, row: Row)
    requires forall x :: x in rows ==> x.id < row.id
    ensures WithoutId(rows + [row], row.id) == rows
  {
    if rows != [] {
      assert (rows + [row])[1..] == rows[1..] + [row];
      WithoutNewest(rows[1..], row);
    }
  }

  // ORDER BY uploaded_at DESC. The column is TEXT under the BINARY collation,
  // which compares UTF-8 bytes; for Unicode scalar values that order is the
  // order of code points, so it is the lexicographic order on `string`.

  /** a sorts before or with b under the BINARY collation. */
  predicate TextLe(a: string, b: string) {
    a == [] || (b != [] && (a[0] < b[0] || (a[0] == b[0] && TextLe(a[1..], b[1..]))))
  }

  lemma {:induction false} TextLeTotal(a: string, b: string)
    ensures TextLe(a, b) || TextLe(b, a)
  {
    if a != [] && b != [] && a[0] == b[0] {
      TextLeTotal(a[1..], b[1..]);
    }
  }

  lemma {:induction false} TextLeTransitive(a: string, b: string, c: string)
    requires TextLe(a, b) && TextLe(b, c)
    ensures TextLe(a, c)
  {
    if a != [] && a[0] == b[0] && b[0] == c[0] {
      TextLeTransitive(a[1..], b[1..], c[1..]);
    }
  }

  /** Newest first: no row is followed by a row with a later uploaded_at. */
  ghost predicate NewestFirst(rows: seq<Row>) {
    forall i, j :: 0 <= i < j < |rows| ==> TextLe(rows[j].uploadedAt, rows[i].uploadedAt)
  }

  /** Places row into a newest-first sequence, ahead of the first row it is not older than. */
  function InsertNewestFirst(row: Row, sorted: seq<Row>): (r: seq<Row>)
    requires NewestFirst(sorted)
    ensures NewestFirst(r)
    ensures multiset(r) == multiset(sorted) + multiset{row}
  {
    if sorted == [] then [row]
    else if TextLe(sorted[0].uploadedAt, row.uploadedAt) then
      forall j | 0 <= j < |sorted| ensures TextLe(sorted[j].uploadedAt, row.uploadedAt) {
        if j > 0 {
          TextLeTransitive(sorted[j].uploadedAt, sorted[0].uploadedAt, row.uploadedAt);
        }
      }
      [row] + sorted
    else
      TextLeTotal(sorted[0].uploadedAt, row.uploadedAt);
      var rest := InsertNewestFirst(row, sorted[1..]);
      assert sorted == [sorted[0]] + sorted[1..];
      forall j | 0 <= j < |rest| ensures TextLe(rest[j].uploadedAt, sorted[0].uploadedAt) {
        assert rest[j] in multiset(rest);
        if rest[j] != row {
          assert rest[j] in multiset(sorted[1..]);
          var k :| 1 <= k < |sorted| && sorted[k] == rest[j];
        }
      }
      [sorted[0]] + rest
  }

  /** SELECT * FROM files ORDER BY uploaded_at DESC. SQLite leaves the order of ties open; this picks one. */
  function ListNewestFirst(rows: seq<Row>): (listed: seq<Row>)
    ensures NewestFirst(listed)
    ensures multiset(listed) == multiset(rows)
  {
    if rows == [] then []
    else
      assert rows == [rows[0]] + rows[1..];
      InsertNewestFirst(rows[0], ListNewestFirst(rows[1..]))
  }

  /** The `files` table as the server's database handle sees it. */
  class FilesTable {
    var rows: seq<Row>
    var lastId: int

    function State(): TableState
      reads this
    {
      TableState(rows, lastId)
    }

    ghost predicate Valid()
      reads this
    {
      TableInvariant(State())
    }

    /** CREATE TABLE IF NOT EXISTS files (...) on a fresh database. */
    constructor ()
      ensures Valid() && State() == EMPTY
    {
      rows, lastId := [], 0;
    }

    /** Runs the INSERT; returns lastInsertRowid or the error the statement throws. */
    method Insert(
      filename: JsString, key: JsString, bucket: JsString,
      size: nat, mimetype: JsString, uploadedAt: string, engineOk: bool)
      returns (rowid: Result<int, DbError>)
      requires Valid()
      modifies this
      ensures Valid()
      ensures Insertion(State(), rowid) == InsertRow(old(State()), filename, key, bucket, size, mimetype, uploadedAt, engineOk)
    {
      if !engineOk {
        return Err(EngineError);
      }
      if lastId >= MAX_ROW_ID {
        return Err(Full);
      }
      if KeyInUse(rows, key) {
        return Err(UniqueViolation);
      }
      var id := lastId + 1;
      rows := rows + [Row(id, filename, key, bucket, size, mimetype, uploadedAt)];
      lastId := id;
      rowid := Ok(id);
    }

    /** SELECT * FROM files WHERE id = ? */
    method Get(id: int) returns (found: Option<Row>)
      ensures found == FindById(rows, id)
    {
      found := FindById(rows, id);
    }

    /** DELETE FROM files WHERE id = ? */
    method Delete(id: int, engineOk: bool) returns (ok: bool)
      requires Valid()
      modifies this
      ensures Valid()
      ensures Deletion(State(), ok) == DeleteRow(old(State()), id, engineOk)
    {
      if !engineOk {
        return false;
      }
      rows := WithoutId(rows, id);
      ok := true;
    }

    /** SELECT * FROM files ORDER BY uploaded_at DESC */
    method List() returns (listed: seq<Row>)
      ensures NewestFirst(listed) && multiset(listed) == multiset(rows)
      ensures listed == ListNewestFirst(rows)
    {
      listed := ListNewestFirst(rows);
    }
  }
}
