/** The in-memory file catalog: records under sequential string ids, the
    normalisation applied on creation, the merge of a patch that keeps the
    id, and the field filter of the database-backed patch. */
module FileCatalog {
  import opened Wrappers
  import Js

  /** One chunk of a submission as the server copies it: its hash, size,
      wrapped key and the two IVs, each as received. `hash` is `None` when
      it is null or missing. */
  datatype ChunkMeta = ChunkMeta(hash: Option<string>, size: Js.Value, wrappedChunkKey: Js.Value,
                                 wrapIv: Js.Value, chunkIv: Js.Value)

  datatype FileRecord = FileRecord(
    id: string,
    fileName: Js.Value,
    fileSize: Js.Value,
    chunks: seq<ChunkMeta>,
    wrappedFileKey: Js.Value,
    wrappedFileKeyIv: Js.Value,
    ownerId: Js.Value,
    note: Js.Value,
    createdAt: string)

  /** The fields a patch may carry; `None` is a field the patch does not
      have. `id` is there to show that it is overridden. */
  datatype Patch = Patch(
    id: Option<string>,
    fileName: Option<Js.Value>,
    fileSize: Option<Js.Value>,
    chunks: Option<seq<ChunkMeta>>,
    wrappedFileKey: Option<Js.Value>,
    wrappedFileKeyIv: Option<Js.Value>,
    ownerId: Option<Js.Value>,
    note: Option<Js.Value>,
    createdAt: Option<string>)

  const EMPTY_PATCH := Patch(None, None, None, None, None, None, None, None, None)

  /** The record `createFile` builds: a falsy name, key, IV or owner becomes
      null, a size that is not a finite number becomes null, a chunk list
      that is not an array becomes empty, and the note starts null.
      `chunks` is `None` when the argument is not an array. */
  function NewRecord(id: string, fileName: Js.Value, fileSize: Js.Value, chunks: Option<seq<ChunkMeta>>,
                     wrappedFileKey: Js.Value, wrappedFileKeyIv: Js.Value, ownerId: Js.Value,
                     createdAt: string): (r: FileRecord)
    ensures r.id == id && r.createdAt == createdAt && r.note == Js.Null
    ensures Js.Truthy(fileName) ==> r.fileName == fileName
    ensures !Js.Truthy(fileName) ==> r.fileName == Js.Null
    ensures Js.IsFinite(fileSize) ==> r.fileSize == fileSize
    ensures !Js.IsFinite(fileSize) ==> r.fileSize == Js.Null
    ensures chunks.Some? ==> r.chunks == chunks.value
    ensures chunks.None? ==> r.chunks == []
    ensures Js.Truthy(wrappedFileKey) ==> r.wrappedFileKey == wrappedFileKey
    ensures !Js.Truthy(wrappedFileKey) ==> r.wrappedFileKey == Js.Null
    ensures Js.Truthy(wrappedFileKeyIv) ==> r.wrappedFileKeyIv == wrappedFileKeyIv
    ensures !Js.Truthy(wrappedFileKeyIv) ==> r.wrappedFileKeyIv == Js.Null
    ensures Js.Truthy(ownerId) ==> r.ownerId == ownerId
    ensures !Js.Truthy(ownerId) ==> r.ownerId == Js.Null
  {
    FileRecord(id, Js.OrNull(fileName), if Js.IsFinite(fileSize) then fileSize else Js.Null,
               chunks.GetOr([]), Js.OrNull(wrappedFileKey), Js.OrNull(wrappedFileKeyIv),
               Js.OrNull(ownerId), Js.Null, createdAt)
  }

  /** `Object.assign({}, cur, patch, { id: cur.id })`. */
  function Merge(cur: FileRecord, patch: Patch): FileRecord {
    FileRecord(cur.id,
               patch.fileName.GetOr(cur.fileName),
               patch.fileSize.GetOr(cur.fileSize),
               patch.chunks.GetOr(cur.chunks),
               patch.wrappedFileKey.GetOr(cur.wrappedFileKey),
               patch.wrappedFileKeyIv.GetOr(cur.wrappedFileKeyIv),
               patch.ownerId.GetOr(cur.ownerId),
               patch.note.GetOr(cur.note),
               patch.createdAt.GetOr(cur.createdAt))
  }

  /** The merge keeps the id whatever the patch says, takes every field the
      patch has, keeps every other field, and is idempotent. */
  lemma MergeOverlays(cur: FileRecord, patch: Patch)
    ensures Merge(cur, patch).id == cur.id
    ensures patch.fileName.Some? ==> Merge(cur, patch).fileName == patch.fileName.value
    ensures patch.fileName.None? ==> Merge(cur, patch).fileName == cur.fileName
    ensures patch.fileSize.Some? ==> Merge(cur, patch).fileSize == patch.fileSize.value
    ensures patch.fileSize.None? ==> Merge(cur, patch).fileSize == cur.fileSize
    ensures patch.chunks.Some? ==> Merge(cur, patch).chunks == patch.chunks.value
    ensures patch.chunks.None? ==> Merge(cur, patch).chunks == cur.chunks
    ensures patch.wrappedFileKey.Some? ==> Merge(cur, patch).wrappedFileKey == patch.wrappedFileKey.value
    ensures patch.wrappedFileKey.None? ==> Merge(cur, patch).wrappedFileKey == cur.wrappedFileKey
    ensures patch.wrappedFileKeyIv.Some? ==> Merge(cur, patch).wrappedFileKeyIv == patch.wrappedFileKeyIv.value
    ensures patch.wrappedFileKeyIv.None? ==> Merge(cur, patch).wrappedFileKeyIv == cur.wrappedFileKeyIv
    ensures patch.ownerId.Some? ==> Merge(cur, patch).ownerId == patch.ownerId.value
    ensures patch.ownerId.None? ==> Merge(cur, patch).ownerId == cur.ownerId
    ensures patch.note.Some? ==> Merge(cur, patch).note == patch.note.value
    ensures patch.note.None? ==> Merge(cur, patch).note == cur.note
    ensures patch.createdAt.Some? ==> Merge(cur, patch).createdAt == patch.createdAt.value
    ensures patch.createdAt.None? ==> Merge(cur, patch).createdAt == cur.createdAt
    ensures Merge(Merge(cur, patch), patch) == Merge(cur, patch)
    ensures Merge(cur, EMPTY_PATCH) == cur
  {
  }

  /** The patch object the database-backed `updateFile` sends. */
  datatype PatchBody = PatchBody(wrappedFileKey: Js.Value, wrappedFileKeyIv: Js.Value,
                                 ownerId: Js.Value, note: Js.Value)

  /** Only `typeof … === 'string'` values of the four writable fields pass. */
  function StringField(v: Js.Value): Option<Js.Value> {
    if Js.IsString(v) then Some(v) else None
  }

  /** The field filter of the database-backed `updateFile`. */
  function PrismaFilter(body: PatchBody): (p: Patch)
    ensures p.id.None? && p.fileName.None? && p.fileSize.None? && p.chunks.None? && p.createdAt.None?
    ensures p.wrappedFileKey.Some? <==> body.wrappedFileKey.Str?
    ensures p.wrappedFileKeyIv.Some? <==> body.wrappedFileKeyIv.Str?
    ensures p.ownerId.Some? <==> body.ownerId.Str?
    ensures p.note.Some? <==> body.note.Str?
    ensures p.wrappedFileKey.Some? ==> p.wrappedFileKey.value == body.wrappedFileKey
    ensures p.wrappedFileKeyIv.Some? ==> p.wrappedFileKeyIv.value == body.wrappedFileKeyIv
    ensures p.ownerId.Some? ==> p.ownerId.value == body.ownerId
    ensures p.note.Some? ==> p.note.value == body.note
  {
    Patch(None, None, None, None, StringField(body.wrappedFileKey), StringField(body.wrappedFileKeyIv),
          StringField(body.ownerId), StringField(body.note), None)
  }

  /** The database-backed `updateFile` on the record found under the id: an
      empty filtered patch returns the record as it is; otherwise the
      filtered fields are written. */
  function PrismaUpdate(cur: FileRecord, body: PatchBody): FileRecord {
    var p := PrismaFilter(body);
    if p == EMPTY_PATCH then cur else Merge(cur, p)
  }

  /** A patch without string fields changes nothing, and whatever the body
      holds only the four writable fields can change. */
  lemma PrismaUpdateWritesOnlyStrings(cur: FileRecord, body: PatchBody)
    ensures !body.wrappedFileKey.Str? && !body.wrappedFileKeyIv.Str? && !body.ownerId.Str? && !body.note.Str?
      ==> PrismaUpdate(cur, body) == cur
    ensures var r := PrismaUpdate(cur, body);
      && r.id == cur.id && r.fileName == cur.fileName && r.fileSize == cur.fileSize
      && r.chunks == cur.chunks && r.createdAt == cur.createdAt
      && (body.note.Str? ==> r.note == body.note)
      && (!body.note.Str? ==> r.note == cur.note)
      && (body.ownerId.Str? ==> r.ownerId == body.ownerId)
      && (!body.ownerId.Str? ==> r.ownerId == cur.ownerId)
  {
    var p := PrismaFilter(body);
    if p != EMPTY_PATCH {
      MergeOverlays(cur, p);
    }
  }

  /** The records are exactly those created, listed in creation order under
      ids "1" … String(nextId - 1), each under its own id. */
  ghost predicate CatalogInv(files: map<string, FileRecord>, order: seq<string>, nextId: nat) {
    && nextId >= 1
    && order == Js.IdsUpTo(nextId - 1)
    && (forall k :: k in files <==> k in order)
    && (forall k :: k in files ==> files[k].id == k)
  }

  /** Reading the records in iteration order gives each record once, under
      the ids "1", "2", … in turn. */
  lemma CatalogListing(files: map<string, FileRecord>, order: seq<string>, nextId: nat)
    requires CatalogInv(files, order, nextId)
    ensures |order| == nextId - 1
    ensures forall i :: 0 <= i < |order| ==> order[i] in files
    ensures forall i :: 0 <= i < |order| ==> files[order[i]].id == order[i] == Js.NatToString(i + 1)
    ensures forall i, j :: 0 <= i < j < |order| ==> order[i] != order[j]
  {
    Js.IdsDistinct(nextId - 1);
  }

  /** The catalog: the records under their ids, in the order `Map` iterates
      them, and the next id. */
  class Catalog {
    var files: map<string, FileRecord>
    var order: seq<string>
    var nextId: nat

    ghost predicate Valid()
      reads this
    {
      CatalogInv(files, order, nextId)
    }

    constructor ()
      ensures Valid() && files == map[] && nextId == 1
    {
      files := map[];
      order := [];
      nextId := 1;
    }

    /** `createFile`: a fresh id, the normalised record stored under it,
        every other record unchanged. */
    method CreateFile(fileName: Js.Value, fileSize: Js.Value, chunks: Option<seq<ChunkMeta>>,
                      wrappedFileKey: Js.Value, wrappedFileKeyIv: Js.Value, ownerId: Js.Value,
                      createdAt: string) returns (rec: FileRecord)
      requires Valid()
      modifies this
      ensures Valid()
      ensures rec.id == Js.NatToString(old(nextId)) && rec.id !in old(files)
      ensures rec == NewRecord(rec.id, fileName, fileSize, chunks, wrappedFileKey, wrappedFileKeyIv, ownerId, createdAt)
      ensures files == old(files)[rec.id := rec]
      ensures order == old(order) + [rec.id] && nextId == old(nextId) + 1
    {
      var id := Js.NatToString(nextId);
      Js.IdsSnoc(nextId - 1);
      nextId := nextId + 1;
      rec := NewRecord(id, fileName, fileSize, chunks, wrappedFileKey, wrappedFileKeyIv, ownerId, createdAt);
      files := files[id := rec];
      order := order + [id];
    }

    /** `getFile`: the record stored under the id, or null. */
    method GetFile(id: string) returns (r: Option<FileRecord>)
      requires Valid()
      ensures r.Some? <==> id in files
      ensures r.Some? ==> r.value == files[id] && r.value.id == id
    {
      r := if id in files then Some(files[id]) else None;
    }

    /** `listFiles`: every record once, in creation order. */
    method ListFiles() returns (r: seq<FileRecord>)
      requires Valid()
      ensures |r| == |order| == nextId - 1
      ensures forall i :: 0 <= i < |r| ==> order[i] in files && r[i] == files[order[i]]
      ensures forall i :: 0 <= i < |r| ==> r[i].id == order[i] == Js.NatToString(i + 1)
      ensures forall i, j :: 0 <= i < j < |r| ==> r[i].id != r[j].id
    {
      CatalogListing(files, order, nextId);
      var keys, stored := order, files;
      r := seq(|keys|, i requires 0 <= i < |keys| && keys[i] in stored => stored[keys[i]]);
    }

    /** `updateFile`: null and no change for an unknown id; otherwise the
        patch merged over the record, keeping its id, and every other record
        unchanged. */
    method UpdateFile(id: string, patch: Patch) returns (r: Option<FileRecord>)
      requires Valid()
      modifies this
      ensures Valid()
      ensures id !in old(files) ==> r.None? && files == old(files)
      ensures id in old(files) ==>
        && r == Some(Merge(old(files)[id], patch))
        && files == old(files)[id := Merge(old(files)[id], patch)]
      ensures order == old(order) && nextId == old(nextId)
    {
      if id !in files {
        return None;
      }
      var cur := files[id];
      var updated := Merge(cur, patch);
      files := files[id := updated];
      r := Some(updated);
    }
  }
}
