# File-storage server: key construction, metadata table and upload/delete sequencing

This project models the backend of the gdrive-clone file-storage app
(`foundation/gdrive-clone-aws/server/src/server.js`) in Dafny and proves
properties of that model. The backend is an Express server. It stores uploaded
files in an S3 bucket and records one row per file in a SQLite table named
`files`. Three parts are modelled:

- **Storage keys** (`storage_keys.dfy`, module `StorageKeys`). Each upload is
  stored under a key made of the `Date.now()` timestamp in decimal, an
  underscore, and the original name sanitised by
  `replace(/[^a-zA-Z0-9._-]/g, '_')`. JavaScript strings are modelled as
  sequences of UTF-16 code units. The expression has no `u` flag, so it works
  one code unit at a time, and a surrogate pair becomes two underscores.
- **The `files` table** (`metadata.dfy`, module `Metadata`):
  - the rows in rowid order, plus the AUTOINCREMENT high-water mark that SQLite
    keeps in `sqlite_sequence`;
  - the four statements the server runs: INSERT, SELECT by id, DELETE by id,
    and SELECT ordered by `uploaded_at` descending;
  - the UNIQUE constraint on `s3_key`;
  - `SQLITE_FULL` once the largest rowid has been used.

  The statements are pure functions. Class `FilesTable` runs the same
  statements as methods on its fields and is proved to agree with them.
- **The handlers** (`file_server.dfy`, module `FileServer`; the S3 side is in
  `object_store.dfy`, module `ObjectStore`):
  - `GET /api/files` lists the rows;
  - `POST /api/upload` puts the object first, then inserts the row;
  - `DELETE /api/files/:id` looks up the row, deletes the object, then deletes
    the row.

  Multer's 50 MiB limit runs before the upload handler. Any thrown error ends in
  the global handler's 500. Each handler is a function from the two stores
  before the request to the two stores after it and the response. Class
  `FileApi` owns a `BlobStore` and a `FilesTable` and performs the steps in
  source order. Its methods are proved equal to these functions.

Inputs from outside the program are parameters:
- the timestamp (`Date.now()`);
- the `datetime('now')` text;
- the bucket name (`S3_BUCKET_NAME`);
- whether each S3 call and each database write succeeds.

The object store is a map from (bucket, key) to the stored bytes and content
type, rather than a set of pairs. This makes an overwrite by a second put with the same key visible in the
model.

Three consequences of the code are worth stating plainly:
- A file over 50 MiB gets 500. Multer passes its `LIMIT_FILE_SIZE` error to
  the global error handler (server.js:53, 107-110), so the route never runs.
- Every S3 or database failure gets the global handler's 500.
- Two uploads in the same millisecond whose names sanitise alike get the same
  key; see `SameInstantUploadsCollide`.

## Model

| member | source | states |
|---|---|---|
| `StorageKeys.Sanitize` | foundation/gdrive-clone-aws/server/src/server.js:68 | the result has the input's length; each code unit is kept if it is in [a-zA-Z0-9._-] and becomes `_` otherwise |
| `StorageKeys.SanitizeOnlySafe` | foundation/gdrive-clone-aws/server/src/server.js:68 | every code unit of a sanitised name is in [a-zA-Z0-9._-] |
| `StorageKeys.SanitizeFixesSafeNames` | foundation/gdrive-clone-aws/server/src/server.js:68 | sanitising leaves a name unchanged if and only if all its code units are already safe |
| `StorageKeys.SanitizeIdempotent` | foundation/gdrive-clone-aws/server/src/server.js:68 | sanitising twice equals sanitising once |
| `StorageKeys.SanitizeMergesNames` | foundation/gdrive-clone-aws/server/src/server.js:68 | two different names ("a b", "a_b") sanitise to the same safe name |
| `StorageKeys.SanitizeSurrogatePair` | foundation/gdrive-clone-aws/server/src/server.js:68 | without the `u` flag, a character outside the BMP (one surrogate pair) becomes two underscores |
| `StorageKeys.Decimal` | foundation/gdrive-clone-aws/server/src/server.js:69 | the decimal text of a non-negative integer is non-empty, all digits, and has no leading zero: it starts with 0 only when it is the text "0" of zero |
| `StorageKeys.DecimalRoundTrip` | foundation/gdrive-clone-aws/server/src/server.js:69 | reading the decimal text back gives the number |
| `StorageKeys.TimeText` | foundation/gdrive-clone-aws/server/src/server.js:67-69 | the text of a time value has only safe code units and no underscore; it starts with a minus sign exactly when the value is negative, followed by decimal digits with no leading zero ("0" only for zero, never "-0") |
| `StorageKeys.TimeRoundTrip` | foundation/gdrive-clone-aws/server/src/server.js:67-69 | the text of any time value, negative ones included, parses back to that value |
| `StorageKeys.StorageKey` | foundation/gdrive-clone-aws/server/src/server.js:67-69 | every code unit of a key is in [a-zA-Z0-9._-]; the key is as long as the timestamp text, plus one, plus the name |
| `StorageKeys.IndexOf` | foundation/gdrive-clone-aws/server/src/server.js:69 | the first underscore of a key, used to split it back into its timestamp and name |
| `StorageKeys.KeyRoundTrip` | foundation/gdrive-clone-aws/server/src/server.js:67-69 | splitting a key at its first underscore gives back the timestamp and the sanitised name |
| `StorageKeys.KeysCollideIff` | foundation/gdrive-clone-aws/server/src/server.js:67-69 | two keys are equal if and only if the timestamps are equal and the names sanitise alike |
| `Metadata.EmptyTableInvariant` | foundation/gdrive-clone-aws/server/src/server.js:29-39 | a freshly created table meets the schema invariant: increasing ids, each at most the high-water mark, and unique keys |
| `Metadata.FindById` | foundation/gdrive-clone-aws/server/src/server.js:92 | returns a row of the table with the requested id, or none exactly when no row has that id |
| `Metadata.WithoutId` | foundation/gdrive-clone-aws/server/src/server.js:102 | keeps exactly the rows whose id differs, still in increasing id order |
| `Metadata.InsertRow` | foundation/gdrive-clone-aws/server/src/server.js:80-84 | fails, changing nothing, exactly on an engine failure, an exhausted rowid, or an `s3_key` already in use (UNIQUE violation); otherwise appends one row with the given fields and id = high-water mark + 1, above every existing id; keeps the schema invariant |
| `Metadata.DeleteRow` | foundation/gdrive-clone-aws/server/src/server.js:102 | on failure nothing changes; on success no row has the id, every other row stays, no row is added, and the high-water mark is kept; keeps the invariant |
| `Metadata.InsertThenFind` | foundation/gdrive-clone-aws/server/src/server.js:84-86 | the SELECT by lastInsertRowid after a successful INSERT returns exactly the inserted row |
| `Metadata.DeletedIdNotReused` | foundation/gdrive-clone-aws/server/src/server.js:31 | with AUTOINCREMENT, a row inserted after a delete never gets the deleted id |
| `Metadata.TextLeTotal` | foundation/gdrive-clone-aws/server/src/server.js:59 | any two `uploaded_at` texts are comparable under the BINARY collation |
| `Metadata.TextLeTransitive` | foundation/gdrive-clone-aws/server/src/server.js:59 | the BINARY collation order is transitive |
| `Metadata.ListNewestFirst` | foundation/gdrive-clone-aws/server/src/server.js:59 | the listing is a permutation of the rows (the same multiset), ordered by `uploaded_at` non-increasing |
| `Metadata.FilesTable.constructor` | foundation/gdrive-clone-aws/server/src/server.js:29-39 | a new table is empty, with high-water mark 0, and meets the invariant |
| `Metadata.FilesTable.Insert` | foundation/gdrive-clone-aws/server/src/server.js:80-84 | the new rows, the high-water mark and the returned rowid or error are those of `InsertRow`; the invariant is kept |
| `Metadata.FilesTable.Get` | foundation/gdrive-clone-aws/server/src/server.js:86 | returns what `FindById` returns on the table's rows: a row with the requested id, or none exactly when no row has it |
| `Metadata.FilesTable.Delete` | foundation/gdrive-clone-aws/server/src/server.js:102 | the new rows and the success flag are those of `DeleteRow`; the invariant is kept |
| `Metadata.FilesTable.List` | foundation/gdrive-clone-aws/server/src/server.js:59 | returns every row, newest `uploaded_at` first |
| `ObjectStore.BlobStore.constructor` | foundation/gdrive-clone-aws/server/src/server.js:42-48 | the store starts with no objects |
| `ObjectStore.BlobStore.Put` | foundation/gdrive-clone-aws/server/src/server.js:72-77 | on success the object at (bucket, key) holds the body and the content type, replacing any earlier object; on failure nothing changes |
| `ObjectStore.BlobStore.Delete` | foundation/gdrive-clone-aws/server/src/server.js:96-99 | on success the object at (bucket, key) is gone, whether it existed or not; on failure nothing changes |
| `FileServer.List` | foundation/gdrive-clone-aws/server/src/server.js:58-61 | 200 with every row, newest first; neither store changes |
| `FileServer.Upload` | foundation/gdrive-clone-aws/server/src/server.js:63-88 | see the summary below this table |
| `FileServer.Delete` | foundation/gdrive-clone-aws/server/src/server.js:90-104 | see the summary below this table |
| `FileServer.ReferencedWithout` | foundation/gdrive-clone-aws/server/src/server.js:33 | because `s3_key` is UNIQUE, removing a row stops referencing exactly that row's object and no other |
| `FileServer.UploadNeverLeavesDanglingRow` | foundation/gdrive-clone-aws/server/src/server.js:71-84 | whatever fails, an upload never creates a row whose object is missing (the put comes before the insert) |
| `FileServer.UploadConsistency` | foundation/gdrive-clone-aws/server/src/server.js:71-84 | from consistent stores, an upload leaves them consistent unless the insert fails after the put; in that case a new key leaves an orphan object that no row names |
| `FileServer.DeleteNeverLeavesOrphanBlob` | foundation/gdrive-clone-aws/server/src/server.js:95-102 | whatever fails, a delete never leaves an object that no row names (the object goes before the row) |
| `FileServer.DeleteConsistency` | foundation/gdrive-clone-aws/server/src/server.js:95-102 | from consistent stores, a delete leaves them consistent unless the row delete fails after the object delete; in that case the row names a missing object (a dangling row) |
| `FileServer.UploadThenList` | foundation/gdrive-clone-aws/server/src/server.js:58-87 | after a 201, the listing contains the new row and no other row with its key |
| `FileServer.UploadThenDelete` | foundation/gdrive-clone-aws/server/src/server.js:63-104 | uploading and then deleting the new id gives 200. Both stores are back as they were, except that the id is spent |
| `FileServer.SameInstantUploadsCollide` | foundation/gdrive-clone-aws/server/src/server.js:67-84 | a second upload in the same millisecond, with a name that sanitises alike, overwrites the first upload's object and then gets a 500 from the UNIQUE key. The first row now names the second file's bytes and content type |
| `FileServer.FileApi.constructor` | foundation/gdrive-clone-aws/server/src/server.js:25-48 | the server is built on one object store and one valid table |
| `FileServer.FileApi.ListFiles` | foundation/gdrive-clone-aws/server/src/server.js:58-61 | the response is 200 with a permutation of the table's rows, newest first, as in `List` |
| `FileServer.FileApi.UploadFile` | foundation/gdrive-clone-aws/server/src/server.js:63-88 | running the put, then the insert, then the select in order gives the stores and the response of `Upload` |
| `FileServer.FileApi.DeleteFile` | foundation/gdrive-clone-aws/server/src/server.js:90-104 | running the lookup, then the object delete, then the row delete in order gives the stores and the response of `Delete` |

`FileServer.Upload` states the following:
- The status is 201, 400 or 500.
- The status is 400 exactly when no file was sent; the response is then "No file uploaded" and nothing changes.
- A file over 50 MiB gets the 500 of multer's size error and nothing changes.
- A file within the limit whose put fails gets the 500 of the put error and changes neither store.
- Every response other than 201 leaves the table unchanged.
- Once the put of a file within the limit has succeeded, every response other than 201 is the 500 of a failed insert, and the object stays stored under the key. The insert's error is the engine error exactly when the engine fails, `SQLITE_FULL` exactly when the engine works and no rowid is left, and the UNIQUE violation exactly when a rowid is left and the key is already in use.
- 201 is returned exactly when all of these hold: a file was sent, it is within the limit, both writes succeed, a rowid is left, and the key is unused. The row then has the next id, above every earlier id, and its fields are the inputs. The new object holds the uploaded bytes with the mimetype as its content type, and all other rows are unchanged.
- The schema invariant is kept.

`FileServer.Delete` states the following:
- The status is 200, 404 or 500.
- 404 "Not found" is returned exactly when no row has the id, and then nothing changes.
- If the object delete fails, the result is 500 and both stores are unchanged.
- Otherwise exactly that row's `(s3_bucket, s3_key)` object is removed.
- If the row delete then fails, the row stays and the result is 500.
- 200 `{ok:true}` is returned exactly when the row exists and both deletes succeed. The row is then gone, every other row stays, and no row is added.
- The schema invariant is kept.

## Left out

- Concurrency: requests run concurrently in the server, and their steps can interleave. The model runs each request as one sequential method on one state.
- The S3 client's network calls, credentials, region and retries are left out. The outcome of each call is a boolean parameter.
- `ObjectStore.BlobStore.Put`: a rejected put is modelled as storing nothing. `await s3.send(...)` (server.js:72) can also reject after S3 has stored the object, for example when the response is lost or times out after the retries; that outcome is not modelled.
- `ObjectStore.BlobStore.Delete`: a rejected delete is modelled as removing nothing. `await s3.send(...)` (server.js:96) can also reject after S3 has removed the object; that outcome is not modelled.
- `FileServer.UploadConsistency`: the put-error 500 counts as consistent only because a rejected put stores nothing in the model. A put that S3 applied before the call rejected would leave an orphan object, which the lemma does not cover. `UploadNeverLeavesDanglingRow` holds either way.
- `FileServer.DeleteConsistency`: the object-delete 500 counts as consistent only because a rejected delete removes nothing in the model. A delete that S3 applied before the call rejected would leave a dangling row, which the lemma does not cover. `DeleteNeverLeavesOrphanBlob` holds either way.
- Multer's multipart parsing is left out, except for the presence of the `file` part and the 50 MiB limit. Unexpected field names, several files and multer's other limit errors are not modelled. The uploaded size is the buffer's length.
- SQLite's WAL journal, crashes and durability are left out. The SELECT statements are modelled as never failing; only INSERT and DELETE take a failure flag.
- `datetime('now')` and `Date.now()` are parameters. The text format of `uploaded_at` is not modelled; the listing order holds for any texts.
- `Metadata.ListNewestFirst`: SQLite does not fix the order of rows with equal `uploaded_at`. The model picks one such order. Its contract promises only a permutation ordered non-increasing, which is all the query promises.
- `FileServer.FileApi.DeleteFile`: the model's `id` is the integer that `Number(...)` yields from the path segment (server.js:91); the conversion itself is not modelled. Hex, exponent and padded forms such as `0x10`, `1e1` or ` 16 ` address the row of that value, and digit strings beyond 2^53 round to a nearby double. Only a value that is not an integer (NaN, 1.5) matches no row; it gets the same 404 as an unknown id, which the model does not represent as a separate input.
- `FileServer.Upload`: row ids are unbounded integers up to 2^63-1. In the server, better-sqlite3 returns `lastInsertRowid` (server.js:84) as a JavaScript number, because safe integers are not enabled on the handle (server.js:27). Above 2^53 that number is rounded, so the SELECT at server.js:86 can return another row or none. The 201 body would then be an earlier file's row or empty. The model promises the inserted row for every rowid below 2^63-1.
- `FileServer.FileApi.UploadFile`: inherits the same gap. Above 2^53, the rowid it looks up and the ids it returns are exact in the model, but rounded in the server.
- `FileServer.List`: ids of rows above 2^53 would be rounded when read into JavaScript for the listing. The model lists them exactly.
- `Metadata.InsertRow`: stores `filename`, `s3_bucket` and `mimetype` exactly as given. SQLite stores text as UTF-8, so a name holding an unpaired surrogate would read back with U+FFFD; that is not modelled.
- An unset `S3_BUCKET_NAME` is not modelled. The bucket is always a string parameter.
- The error `detail` strings are reduced to the closed set `Cause`. JSON serialisation of the responses is not modelled.
- The following are not part of this model: the health endpoint, CORS, morgan logging, dotenv, `console.error`, `app.listen`, the React client, and the separate user-CRUD app.
