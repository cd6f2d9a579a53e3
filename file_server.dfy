/**
 * The HTTP handlers of the file-storage server: list, upload and delete,
 * sequenced across the object store and the `files` table, with every
 * thrown error ending in the global handler's 500 response.
 *
 * Each handler is first given as a function from the two stores before the
 * request to the two stores after it and the response; the class FileApi
 * then runs the same steps one call at a time against the stores' objects
 * and is proved to agree with those functions.
 */
module FileServer {
  import opened Wrappers
  import opened StorageKeys
  import opened Metadata
  import opened ObjectStore

  /** multer's limits.fileSize: 50 MiB. */
  const MAX_FILE_SIZE := 50 * 1024 * 1024

  const NO_FILE_UPLOADED := "No file uploaded"
  const NOT_FOUND := "Not found"

  /** The single `file` part of a multipart upload, as multer hands it over. */
  datatype UploadedFile = UploadedFile(originalname: JsString, buffer: Bytes, mimetype: JsString)

  datatype UploadRequest = NoFile | WithFile(file: UploadedFile)

  /** What the global error handler reports as the detail of a 500. */
  datatype Cause =
    | FileTooLarge               // multer's LIMIT_FILE_SIZE
    | PutFailed                  // PutObjectCommand threw
    | InsertFailed(db: DbError)  // the INSERT threw
    | BlobDeleteFailed           // DeleteObjectCommand threw
    | RowDeleteFailed            // the DELETE threw

  datatype Response =
    | Listed(rows: seq<Row>)       // 200, the rows as JSON
    | Created(row: Row)            // 201, the new row
    | Deleted                      // 200 {ok: true}
    | BadRequest(error: string)    // 400 {error}
    | NotFound(error: string)      // 404 {error}
    | ServerError(cause: Cause)    // 500 {error: 'Server error', detail}
  {
    function Status(): int {
      match this
      case Listed(_) => 200
      case Created(_) => 201
      case Deleted => 200
      case BadRequest(_) => 400
      case NotFound(_) => 404
      case ServerError(_) => 500
    }
  }

  /** The object store and the metadata table together. */
  datatype Stores = Stores(blobs: map<BlobId, StoredObject>, table: TableState)

  /** A handled request: the stores afterwards and the response sent. */
  datatype Step = Step(after: Stores, response: Response)

  /** The per-request inputs of an upload that come from outside the program. */
  datatype UploadEnv = UploadEnv(
    bucket: JsString,     // process.env.S3_BUCKET_NAME
    now: TimeValue,       // Date.now()
    uploadedAt: string,   // datetime('now') inside the INSERT
    putOk: bool,          // whether PutObjectCommand succeeds
    insertOk: bool)       // whether the database engine completes the INSERT

  /** Whether the two writes of a delete succeed. */
  datatype DeleteEnv = DeleteEnv(blobDeleteOk: bool, rowDeleteOk: bool)

  function BlobOf(row: Row): BlobId {
    BlobId(row.s3Bucket, row.s3Key)
  }

  /** What the put of an upload stores: Body is the buffer, ContentType the mimetype. */
  function ObjectOf(f: UploadedFile): StoredObject {
    StoredObject(f.buffer, f.mimetype)
  }

  /** Where an upload of f is stored. */
  function TargetOf(f: UploadedFile, env: UploadEnv): BlobId {
    BlobId(env.bucket, StorageKey(env.now, f.originalname))
  }

  ghost function Referenced(rows: seq<Row>): set<BlobId> {
    set x | x in rows :: BlobOf(x)
  }

  /** Every row names an object that exists. */
  ghost predicate NoDanglingRows(s: Stores) {
    Referenced(s.table.rows) <= s.blobs.Keys
  }

  /** Every object is named by some row. */
  ghost predicate NoOrphanBlobs(s: Stores) {
    s.blobs.Keys <= Referenced(s.table.rows)
  }

  ghost predicate Consistent(s: Stores) {
    NoDanglingRows(s) && NoOrphanBlobs(s)
  }

  /** GET /api/files */
  function List(s: Stores): (r: Step)
    ensures r.after == s && r.response.Listed? && r.response.Status() == 200
    ensures NewestFirst(r.response.rows) && multiset(r.response.rows) == multiset(s.table.rows)
  {
    Step(s, Listed(ListNewestFirst(s.table.rows)))
  }

  /** POST /api/upload, including multer's size check that runs before the handler. */
  function Upload(s: Stores, req: UploadRequest, env: UploadEnv): (r: Step)
    requires TableInvariant(s.table)
    ensures TableInvariant(r.after.table)
    ensures r.response.Status() in {201, 400, 500}
    // 400 exactly when there is no file, and then nothing changes
    ensures r.response.Status() == 400 <==> req.NoFile?
    ensures req.NoFile? ==> r == Step(s, BadRequest(NO_FILE_UPLOADED))
    // an oversized file never reaches the handler
    ensures req.WithFile? && |req.file.buffer| > MAX_FILE_SIZE ==> r == Step(s, ServerError(FileTooLarge))
    // a failed put touches neither store
    ensures req.WithFile? && |req.file.buffer| <= MAX_FILE_SIZE && !env.putOk ==> r == Step(s, ServerError(PutFailed))
    // only a 201 adds a row
    ensures !r.response.Created? ==> r.after.table == s.table
    // once the put has succeeded, any other outcome than 201 is a failed insert that leaves the object stored
    ensures req.WithFile? && |req.file.buffer| <= MAX_FILE_SIZE && env.putOk && !r.response.Created? ==>
      && r.response.ServerError? && r.response.cause.InsertFailed?
      && r.after.blobs == s.blobs[TargetOf(req.file, env) := ObjectOf(req.file)]
    // which error the insert reports
    ensures r.response == ServerError(InsertFailed(EngineError)) <==>
      req.WithFile? && |req.file.buffer| <= MAX_FILE_SIZE && env.putOk && !env.insertOk
    ensures r.response == ServerError(InsertFailed(Full)) <==>
      req.WithFile? && |req.file.buffer| <= MAX_FILE_SIZE && env.putOk && env.insertOk && s.table.lastId >= MAX_ROW_ID
    ensures r.response == ServerError(InsertFailed(UniqueViolation)) <==>
      && req.WithFile? && |req.file.buffer| <= MAX_FILE_SIZE && env.putOk && env.insertOk
      && s.table.lastId < MAX_ROW_ID && KeyInUse(s.table.rows, TargetOf(req.file, env).key)
    // when an upload succeeds, and what it leaves behind
    ensures r.response.Created? <==>
      && req.WithFile? && |req.file.buffer| <= MAX_FILE_SIZE && env.putOk && env.insertOk
      && s.table.lastId < MAX_ROW_ID && !KeyInUse(s.table.rows, TargetOf(req.file, env).key)
    ensures r.response.Created? ==>
      var f, row := req.file, r.response.row;
      && row == Row(s.table.lastId + 1, f.originalname, TargetOf(f, env).key, env.bucket, |f.buffer|, f.mimetype, env.uploadedAt)
      && (forall x :: x in s.table.rows ==> x.id < row.id)
      && BlobOf(row) == TargetOf(f, env)
      && r.after.blobs == s.blobs[BlobOf(row) := ObjectOf(f)]
      && r.after.table == TableState(s.table.rows + [row], row.id)
  {
    match req
    case NoFile => Step(s, BadRequest(NO_FILE_UPLOADED))
    case WithFile(f) =>
      if |f.buffer| > MAX_FILE_SIZE then Step(s, ServerError(FileTooLarge))
      else if !env.putOk then Step(s, ServerError(PutFailed))
      else
        var target := TargetOf(f, env);
        var blobs := s.blobs[target := ObjectOf(f)];
        var ins := InsertRow(s.table, f.originalname, target.key, env.bucket, |f.buffer|, f.mimetype, env.uploadedAt, env.insertOk);
        match ins.rowid
        case Err(e) => Step(Stores(blobs, s.table), ServerError(InsertFailed(e)))
        case Ok(id) =>
          InsertThenFind(s.table, f.originalname, target.key, env.bucket, |f.buffer|, f.mimetype, env.uploadedAt, env.insertOk);
          Step(Stores(blobs, ins.table), Created(FindById(ins.table.rows, id).value))
  }

  /** DELETE /api/files/:id */
  function Delete(s: Stores, id: int, env: DeleteEnv): (r: Step)
    requires TableInvariant(s.table)
    ensures TableInvariant(r.after.table)
    ensures r.response.Status() in {200, 404, 500}
    // 404 exactly when no row has the id, and then nothing changes
    ensures r.response == NotFound(NOT_FOUND) <==> FindById(s.table.rows, id).None?
    ensures FindById(s.table.rows, id).None? ==> r.after == s
    ensures FindById(s.table.rows, id).Some? ==>
      var row := FindById(s.table.rows, id).value;
      // a failed object delete leaves both stores as they were
      && (!env.blobDeleteOk ==> r == Step(s, ServerError(BlobDeleteFailed)))
      // otherwise exactly that row's object is gone
      && (env.blobDeleteOk ==> r.after.blobs == s.blobs - {BlobOf(row)})
      // a failed row delete after it leaves the row in place
      && (env.blobDeleteOk && !env.rowDeleteOk ==>
            r.after.table == s.table && r.response == ServerError(RowDeleteFailed))
    ensures r.response == Deleted <==>
      FindById(s.table.rows, id).Some? && env.blobDeleteOk && env.rowDeleteOk
    ensures r.response == Deleted ==>
      && r.after.table.lastId == s.table.lastId
      && FindById(r.after.table.rows, id).None?
      && (forall x :: x in s.table.rows && x.id != id ==> x in r.after.table.rows)
      && (forall x :: x in r.after.table.rows ==> x in s.table.rows)
  {
    match FindById(s.table.rows, id)
    case None => Step(s, NotFound(NOT_FOUND))
    case Some(row) =>
      if !env.blobDeleteOk then Step(s, ServerError(BlobDeleteFailed))
      else
        var blobs := s.blobs - {BlobOf(row)};
        var del := DeleteRow(s.table, id, env.rowDeleteOk);
        if !del.ok then Step(Stores(blobs, s.table), ServerError(RowDeleteFailed))
        else Step(Stores(blobs, del.table), Deleted)
  }

  /** Two rows with the same id are the same row. */
  lemma IdsIdentifyRows(rows: seq<Row>, x: Row, y: Row)
    requires IdsIncreasing(rows)
    requires x in rows && y in rows && x.id == y.id
    ensures x == y
  {
    var i :| 0 <= i < |rows| && rows[i] == x;
    var j :| 0 <= j < |rows| && rows[j] == y;
    assert !(i < j) && !(j < i);
  }

  /** Appending a row adds exactly its object to the referenced ones. */
  lemma ReferencedAppend(rows: seq<Row>, row: Row)
    ensures Referenced(rows + [row]) == Referenced(rows) + {BlobOf(row)}
  {
    assert row in rows + [row];
    forall b | b in Referenced(rows) ensures b in Referenced(rows + [row]) {
      var x :| x in rows && BlobOf(x) == b;
      assert x in rows + [row];
    }
  }

  /** A row's object is referenced by no other row, because s3_key is UNIQUE. */
  lemma ReferencedWithout(t: TableState, row: Row)
    requires TableInvariant(t)
    requires row in t.rows
    ensures Referenced(WithoutId(t.rows, row.id)) == Referenced(t.rows) - {BlobOf(row)}
  {
    var kept := WithoutId(t.rows, row.id);
    forall b | b in Referenced(t.rows) - {BlobOf(row)} ensures b in Referenced(kept) {
      var x :| x in t.rows && BlobOf(x) == b;
      if x.id == row.id {
        IdsIdentifyRows(t.rows, x, row);
      }
      assert x in kept;
    }
    forall b | b in Referenced(kept) ensures b != BlobOf(row) {
      var x :| x in kept && BlobOf(x) == b;
      assert x != row;
    }
  }

  /** An upload never leaves a row without its object, whatever fails. */
  lemma UploadNeverLeavesDanglingRow(s: Stores, req: UploadRequest, env: UploadEnv)
    requires TableInvariant(s.table)
    requires NoDanglingRows(s)
    ensures NoDanglingRows(Upload(s, req, env).after)
  {
    var r := Upload(s, req, env);
    if r.response.Created? {
      ReferencedAppend(s.table.rows, r.response.row);
    }
  }

  /**
   * An upload keeps the stores consistent unless the insert fails after the
   * put; then an object that no row names is left behind if the key was new.
   */
  lemma UploadConsistency(s: Stores, req: UploadRequest, env: UploadEnv)
    requires TableInvariant(s.table)
    requires Consistent(s)
    ensures var r := Upload(s, req, env);
      !(r.response.ServerError? && r.response.cause.InsertFailed?) ==> Consistent(r.after)
    ensures var r := Upload(s, req, env);
      r.response.ServerError? && r.response.cause.InsertFailed? && TargetOf(req.file, env) !in s.blobs ==>
        TargetOf(req.file, env) in r.after.blobs && TargetOf(req.file, env) !in Referenced(r.after.table.rows)
  {
    var r := Upload(s, req, env);
    if r.response.Created? {
      ReferencedAppend(s.table.rows, r.response.row);
    }
  }

  /** A delete never leaves an object without its row, whatever fails. */
  lemma DeleteNeverLeavesOrphanBlob(s: Stores, id: int, env: DeleteEnv)
    requires TableInvariant(s.table)
    requires NoOrphanBlobs(s)
    ensures NoOrphanBlobs(Delete(s, id, env).after)
  {
    var r := Delete(s, id, env);
    if r.response == Deleted {
      ReferencedWithout(s.table, FindById(s.table.rows, id).value);
    }
  }

  /**
   * A delete keeps the stores consistent unless the row delete fails after
   * the object delete; then the row names an object that is gone.
   */
  lemma DeleteConsistency(s: Stores, id: int, env: DeleteEnv)
    requires TableInvariant(s.table)
    requires Consistent(s)
    ensures var r := Delete(s, id, env);
      r.response != ServerError(RowDeleteFailed) ==> Consistent(r.after)
    ensures var r := Delete(s, id, env);
      r.response == ServerError(RowDeleteFailed) ==>
        var row := FindById(s.table.rows, id).value;
        row in r.after.table.rows && BlobOf(row) !in r.after.blobs
  {
    var r := Delete(s, id, env);
    if r.response == Deleted {
      ReferencedWithout(s.table, FindById(s.table.rows, id).value);
    }
  }

  /** After a successful upload the listing holds the new row, and no other row with its key. */
  lemma UploadThenList(s: Stores, req: UploadRequest, env: UploadEnv)
    requires TableInvariant(s.table)
    ensures var r := Upload(s, req, env);
      r.response.Created? ==>
        var listed := List(r.after).response.rows;
        && r.response.row in listed
        && forall x :: x in listed && x.s3Key == r.response.row.s3Key ==> x == r.response.row
  {
    var r := Upload(s, req, env);
    if r.response.Created? {
      var listed := List(r.after).response.rows;
      assert r.response.row in multiset(r.after.table.rows);
      forall x | x in listed && x.s3Key == r.response.row.s3Key ensures x == r.response.row {
        assert x in multiset(listed);
        assert x in r.after.table.rows;
      }
    }
  }

  /**
   * Deleting a file right after uploading it gives back both stores as they
   * were, except that the id is spent.
   */
  lemma UploadThenDelete(s: Stores, f: UploadedFile, env: UploadEnv)
    requires TableInvariant(s.table)
    requires Consistent(s)
    requires Upload(s, WithFile(f), env).response.Created?
    ensures var r1 := Upload(s, WithFile(f), env);
      var r2 := Delete(r1.after, r1.response.row.id, DeleteEnv(true, true));
      r2 == Step(Stores(s.blobs, TableState(s.table.rows, s.table.lastId + 1)), Deleted)
  {
    var r1 := Upload(s, WithFile(f), env);
    var row := r1.response.row;
    assert BlobOf(row) !in Referenced(s.table.rows);
    assert s.blobs[BlobOf(row) := ObjectOf(f)] - {BlobOf(row)} == s.blobs;
    WithoutNewest(s.table.rows, row);
  }

  /**
   * Two uploads in the same millisecond whose names sanitise alike get the
   * same key: the second put replaces the first file's object, and the
   * second insert then fails on the UNIQUE key, so the first row now names
   * the second file's bytes and content type.
   */
  lemma SameInstantUploadsCollide(s: Stores, f1: UploadedFile, f2: UploadedFile, env1: UploadEnv, env2: UploadEnv)
    requires TableInvariant(s.table)
    requires Upload(s, WithFile(f1), env1).response.Created?
    requires env2.now == env1.now && env2.bucket == env1.bucket
    requires Sanitize(f2.originalname) == Sanitize(f1.originalname)
    requires |f2.buffer| <= MAX_FILE_SIZE && env2.putOk && env2.insertOk
    requires s.table.lastId + 1 < MAX_ROW_ID
    ensures var r1 := Upload(s, WithFile(f1), env1);
      var r2 := Upload(r1.after, WithFile(f2), env2);
      && r2.response == ServerError(InsertFailed(UniqueViolation))
      && r1.response.row in r2.after.table.rows
      && r2.after.blobs[BlobOf(r1.response.row)] == StoredObject(f2.buffer, f2.mimetype)
  {
    var r1 := Upload(s, WithFile(f1), env1);
    KeysCollideIff(env1.now, f1.originalname, env2.now, f2.originalname);
    assert TargetOf(f2, env2) == TargetOf(f1, env1);
    assert r1.response.row in r1.after.table.rows;
  }

  /** The server process: one S3 client and one database handle, shared by all requests. */
  class FileApi {
    const s3: BlobStore
    const db: FilesTable

    ghost predicate Valid()
      reads this, db
    {
      db.Valid()
    }

    function Current(): Stores
      reads this, s3, db
    {
      Stores(s3.objects, db.State())
    }

    constructor (s3: BlobStore, db: FilesTable)
      requires db.Valid()
      ensures Valid() && this.s3 == s3 && this.db == db
    {
      this.s3 := s3;
      this.db := db;
    }

    /** GET /api/files */
    method ListFiles() returns (resp: Response)
      requires Valid()
      ensures resp.Listed? && resp.Status() == 200
      ensures NewestFirst(resp.rows) && multiset(resp.rows) == multiset(db.rows)
      ensures Step(Current(), resp) == List(Current())
    {
      var rows := db.List();
      resp := Listed(rows);
    }

    /** POST /api/upload */
    method UploadFile(req: UploadRequest, env: UploadEnv) returns (resp: Response)
      requires Valid()
      modifies s3, db
      ensures Valid()
      ensures Step(Current(), resp) == Upload(old(Current()), req, env)
    {
      if req.NoFile? {
        return BadRequest(NO_FILE_UPLOADED);
      }
      var file := req.file;
      if |file.buffer| > MAX_FILE_SIZE {
        // multer passes its error to the global handler; the route never runs
        return ServerError(FileTooLarge);
      }
      var key := StorageKey(env.now, file.originalname);
      var put := s3.Put(BlobId(env.bucket, key), ObjectOf(file), env.putOk);
      if !put {
        return ServerError(PutFailed);
      }
      ghost var before := db.State();
      var rowid := db.Insert(file.originalname, key, env.bucket, |file.buffer|, file.mimetype, env.uploadedAt, env.insertOk);
      if rowid.Err? {
        return ServerError(InsertFailed(rowid.error));
      }
      InsertThenFind(before, file.originalname, key, env.bucket, |file.buffer|, file.mimetype, env.uploadedAt, env.insertOk);
      var row := db.Get(rowid.value);
      resp := Created(row.value);
    }

    /** DELETE /api/files/:id */
    method DeleteFile(id: int, env: DeleteEnv) returns (resp: Response)
      requires Valid()
      modifies s3, db
      ensures Valid()
      ensures Step(Current(), resp) == Delete(old(Current()), id, env)
    {
      var row := db.Get(id);
      if row.None? {
        return NotFound(NOT_FOUND);
      }
      var blobDeleted := s3.Delete(BlobOf(row.value), env.blobDeleteOk);
      if !blobDeleted {
        return ServerError(BlobDeleteFailed);
      }
      var rowDeleted := db.Delete(id, env.rowDeleteOk);
      if !rowDeleted {
        return ServerError(RowDeleteFailed);
      }
      resp := Deleted;
    }
  }
}
