/**
 * The S3 side as the server uses it: objects addressed by bucket and key.
 * Whether a request reaches the service and succeeds is not something the
 * server controls, so each call takes its outcome as a parameter.
 */
module ObjectStore {
  import opened StorageKeys

  newtype Byte = b: int | 0 <= b < 256

  type Bytes = seq<Byte>

  datatype BlobId = BlobId(bucket: JsString, key: JsString)

  /** An object as PutObjectCommand stores it: its Body and its ContentType. */
  datatype StoredObject = StoredObject(body: Bytes, contentType: JsString)

  /** The objects of every bucket the server writes to. */
  class BlobStore {
    var objects: map<BlobId, StoredObject>

    constructor ()
      ensures objects == map[]
    {
      objects := map[];
    }

    /**
     * PutObjectCommand: on success the object holds the body and content
     * type, replacing whatever was stored under the same bucket and key.
     */
    method Put(id: BlobId, stored: StoredObject, succeeds: bool) returns (ok: bool)
      modifies this
      ensures ok == succeeds
      ensures ok ==> objects == old(objects)[id := stored]
      ensures !ok ==> objects == old(objects)
    {
      ok := succeeds;
      if ok {
        objects := objects[id := stored];
      }
    }

    /** DeleteObjectCommand: succeeds whether or not the object exists. */
    method Delete(id: BlobId, succeeds: bool) returns (ok: bool)
      modifies this
      ensures ok == succeeds
      ensures ok ==> objects == old(objects) - {id}
      ensures !ok ==> objects == old(objects)
    {
      ok := succeeds;
      if ok {
        objects := objects - {id};
      }
    }
  }
}
