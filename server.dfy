/** The three request handlers of the server that carry logic: file creation
    (request body to chunk list, dedup verdicts to upload jobs, the file
    record), the commit of uploaded hashes, and the metadata backup with its
    field filter. */
module Server {
  import opened Wrappers
  import Js
  import HashStore
  import opened FileCatalog

  /** The body of a create request. An array field is `Some`, anything else
      (missing, null, an object) is `None`. */
  datatype CreateBody = CreateBody(
    fileName: Js.Value,
    fileSize: Js.Value,
    chunkHashes: Option<seq<Option<string>>>,
    chunks: Option<seq<ChunkMeta>>,
    wrappedFileKey: Js.Value,
    wrappedFileKeyIv: Js.Value)

  /** The body of a metadata request. */
  datatype MetadataBody = MetadataBody(wrappedFileKey: Js.Value, wrappedFileKeyIv: Js.Value, note: Js.Value)

  /** One upload job of the create reply. */
  datatype JobEntry = JobEntry(hash: string, status: string, uploadUrl: Option<string>)

  /** What the metadata reply carries as its `file`. */
  datatype FileBody = Record(rec: FileRecord) | NoRecord | EmptyObject

  datatype Reply =
    | BadRequest(error: string)
    | NotFound(error: string)
    | ServerError(error: string)
    | Created(fileId: string, fileName: Js.Value, fileSize: Js.Value, jobs: seq<JobEntry>)
    | Committed(count: nat)
    | MetadataSaved(file: FileBody)

  const CHUNKS_REQUIRED := "chunkHashes or chunks must be provided as an array"
  const HASHES_REQUIRED := "chunkHashes must be an array"
  const FILE_NOT_FOUND := "file not found"
  const UPLOAD_URL_PREFIX := "https://example.com/upload/"

  /** A chunk known only by its hash. */
  function HashOnly(h: Option<string>): ChunkMeta {
    ChunkMeta(h, Js.Undefined, Js.Undefined, Js.Undefined, Js.Undefined)
  }

  /** The chunk list of a create body: `chunkHashes` when it is an array,
      else `chunks` when that is, else nothing (the request is refused). */
  function BodyChunks(body: CreateBody): (r: Option<seq<ChunkMeta>>)
    ensures body.chunkHashes.Some? ==>
      && r.Some? && |r.value| == |body.chunkHashes.value|
      && forall i :: 0 <= i < |r.value| ==> r.value[i] == HashOnly(body.chunkHashes.value[i])
    ensures body.chunkHashes.None? ==> r == body.chunks
  {
    if body.chunkHashes.Some? then
      var hs := body.chunkHashes.value;
      Some(seq(|hs|, i requires 0 <= i < |hs| => HashOnly(hs[i])))
    else body.chunks
  }

  /** `Boolean(hash)` for a chunk: present and not the empty string. */
  predicate HasHash(c: ChunkMeta) {
    c.hash.Some? && c.hash.value != ""
  }

  /** `chunks.map((c) => c.hash).filter(Boolean)`. */
  function DedupHashes(chunks: seq<ChunkMeta>): seq<string>
    decreases |chunks|
  {
    if chunks == [] then []
    else
      var init := DedupHashes(chunks[..|chunks| - 1]);
      var last := chunks[|chunks| - 1];
      if HasHash(last) then init + [last.hash.value] else init
  }

  /** The hashes checked are exactly the non-empty hashes of the chunks, in
      chunk order: none is empty, and every chunk with a hash gives one. */
  lemma {:induction false} DedupHashesKeep(chunks: seq<ChunkMeta>)
    ensures |DedupHashes(chunks)| <= |chunks|
    ensures forall h :: h in DedupHashes(chunks) ==> h != ""
    ensures forall h :: h in DedupHashes(chunks) <==> exists i :: 0 <= i < |chunks| && HasHash(chunks[i]) && chunks[i].hash.value == h
    ensures (forall i :: 0 <= i < |chunks| ==> HasHash(chunks[i])) ==> |DedupHashes(chunks)| == |chunks|
    decreases |chunks|
  {
    if chunks != [] {
      var init := chunks[..|chunks| - 1];
      DedupHashesKeep(init);
      assert forall i :: 0 <= i < |init| ==> init[i] == chunks[i];
      forall h | h in DedupHashes(chunks)
        ensures exists i :: 0 <= i < |chunks| && HasHash(chunks[i]) && chunks[i].hash.value == h
      {
        if h !in DedupHashes(init) {
          assert HasHash(chunks[|chunks| - 1]);
        }
      }
    }
  }

  /** The job for one dedup answer: a known hash needs nothing, any other
      hash gets the placeholder upload URL. */
  function EntryFor(check: HashStore.HashCheck): (e: JobEntry)
    ensures e.hash == check.hash
    ensures check.known ==> e.status == "deduplicated" && e.uploadUrl.None?
    ensures !check.known ==> e.status == "needs_upload" && e.uploadUrl == Some(UPLOAD_URL_PREFIX + check.hash)
  {
    if check.known then JobEntry(check.hash, "deduplicated", None)
    else JobEntry(check.hash, "needs_upload", Some(UPLOAD_URL_PREFIX + check.hash))
  }

  /** `POST /api/files/create`, with both store calls (`checkHashes` and
      `createFile`) awaited: refused without
      an array of chunks, with no store touched; otherwise one job per hash
      checked, in order, and a new file record holding the chunk list. */
  method HandleCreate(hashes: HashStore.Store, files: Catalog, body: CreateBody, createdAt: string)
    returns (reply: Reply)
    requires hashes.Valid() && files.Valid()
    modifies files
    ensures files.Valid()
    ensures BodyChunks(body).None? ==>
      reply == BadRequest(CHUNKS_REQUIRED) && files.files == old(files.files) && files.nextId == old(files.nextId)
    ensures BodyChunks(body).Some? ==>
      var chunks := BodyChunks(body).value;
      var hs := DedupHashes(chunks);
      var id := Js.NatToString(old(files.nextId));
      && reply.Created? && reply.fileId == id && id !in old(files.files)
      && reply.fileName == body.fileName && reply.fileSize == body.fileSize
      && |reply.jobs| == |hs|
      && (forall i :: 0 <= i < |hs| ==>
            reply.jobs[i] == EntryFor(HashStore.HashCheck(hs[i], hs[i] in hashes.added)))
      && files.files == old(files.files)[id := NewRecord(id, body.fileName, body.fileSize, Some(chunks),
                                                          Js.OrNull(body.wrappedFileKey), Js.OrNull(body.wrappedFileKeyIv),
                                                          Js.Undefined, createdAt)]
  {
    var chunks := BodyChunks(body);
    if chunks.None? {
      return BadRequest(CHUNKS_REQUIRED);
    }
    var hs := DedupHashes(chunks.value);
    var results := hashes.CheckHashes(hs);
    var jobs := seq(|results|, i requires 0 <= i < |results| => EntryFor(results[i]));
    var wrappedFileKey := Js.OrNull(body.wrappedFileKey);
    var wrappedFileKeyIv := Js.OrNull(body.wrappedFileKeyIv);
    var rec := files.CreateFile(body.fileName, body.fileSize, chunks, wrappedFileKey, wrappedFileKeyIv,
                                Js.Undefined, createdAt);
    reply := Created(rec.id, body.fileName, body.fileSize, jobs);
  }

  const RESULTS_NOT_ARRAY := "TypeError: results.map is not a function"

  /** `POST /api/files/create` as written: `checkHashes` is asynchronous and
      not awaited, so `results` is a Promise and `results.map` throws before
      the file is created. Every request with an array of chunks fails. */
  method HandleCreateAsWritten(hashes: HashStore.Store, files: Catalog, body: CreateBody)
    returns (reply: Reply)
    requires hashes.Valid() && files.Valid()
    ensures BodyChunks(body).None? ==> reply == BadRequest(CHUNKS_REQUIRED)
    ensures BodyChunks(body).Some? ==> reply == ServerError(RESULTS_NOT_ARRAY)
  {
    var chunks := BodyChunks(body);
    if chunks.None? {
      return BadRequest(CHUNKS_REQUIRED);
    }
    return ServerError(RESULTS_NOT_ARRAY);
  }

  /** `POST /api/files/commit`: refused unless `chunkHashes` is an array;
      otherwise every hash is added, duplicates included, and the reply
      counts them all. */
  method HandleCommit(hashes: HashStore.Store, chunkHashes: Option<seq<string>>) returns (reply: Reply)
    requires hashes.Valid()
    modifies hashes
    ensures hashes.Valid()
    ensures chunkHashes.None? ==>
      && reply == BadRequest(HASHES_REQUIRED)
      && hashes.added == old(hashes.added) && hashes.counts == old(hashes.counts) && hashes.order == old(hashes.order)
    ensures chunkHashes.Some? ==>
      && reply == Committed(|chunkHashes.value|)
      && hashes.added == old(hashes.added) + chunkHashes.value
      && hashes.counts == HashStore.AddAll(old(hashes.counts), chunkHashes.value)
      && hashes.order == HashStore.NewKeys(old(hashes.order), chunkHashes.value)
  {
    if chunkHashes.None? {
      return BadRequest(HASHES_REQUIRED);
    }
    hashes.AddHashes(chunkHashes.value);
    reply := Committed(|chunkHashes.value|);
  }

  /** The patch the metadata handler forwards: only string-typed
      `wrappedFileKey`, `wrappedFileKeyIv` and `note`. */
  function MetadataPatch(body: MetadataBody): (p: Patch)
    ensures p.id.None? && p.fileName.None? && p.fileSize.None? && p.ownerId.None?
    ensures p.chunks.None? && p.createdAt.None?
    ensures p.wrappedFileKey.Some? <==> body.wrappedFileKey.Str?
    ensures p.wrappedFileKeyIv.Some? <==> body.wrappedFileKeyIv.Str?
    ensures p.note.Some? <==> body.note.Str?
    ensures p.wrappedFileKey.Some? ==> p.wrappedFileKey.value == body.wrappedFileKey
    ensures p.wrappedFileKeyIv.Some? ==> p.wrappedFileKeyIv.value == body.wrappedFileKeyIv
    ensures p.note.Some? ==> p.note.value == body.note
  {
    Patch(None, None, None, None, StringField(body.wrappedFileKey), StringField(body.wrappedFileKeyIv), None,
          StringField(body.note), None)
  }

  /** The metadata patch never reaches the name, size, owner, chunks or
      creation time of a record, and a body without string fields leaves
      the record as it is. */
  lemma MetadataPatchConfined(cur: FileRecord, body: MetadataBody)
    ensures var r := Merge(cur, MetadataPatch(body));
      && r.id == cur.id && r.fileName == cur.fileName && r.fileSize == cur.fileSize
      && r.ownerId == cur.ownerId && r.chunks == cur.chunks && r.createdAt == cur.createdAt
    ensures !body.wrappedFileKey.Str? && !body.wrappedFileKeyIv.Str? && !body.note.Str? ==>
      Merge(cur, MetadataPatch(body)) == cur
  {
    MergeOverlays(cur, MetadataPatch(body));
  }

  /** `POST /api/files/:fileId/metadata`, with the store calls awaited: an
      unknown file is a 404 with nothing changed; otherwise the filtered
      patch is merged into the record and the updated record returned. */
  method HandleMetadata(files: Catalog, id: string, body: MetadataBody) returns (reply: Reply)
    requires files.Valid()
    modifies files
    ensures files.Valid()
    ensures id !in old(files.files) ==> reply == NotFound(FILE_NOT_FOUND) && files.files == old(files.files)
    ensures id in old(files.files) ==>
      var updated := Merge(old(files.files)[id], MetadataPatch(body));
      && reply == MetadataSaved(Record(updated))
      && files.files == old(files.files)[id := updated]
  {
    var rec := files.GetFile(id);
    if rec.None? {
      return NotFound(FILE_NOT_FOUND);
    }
    var patch := MetadataPatch(body);
    var updated := files.UpdateFile(id, patch);
    reply := MetadataSaved(if updated.Some? then Record(updated.value) else NoRecord);
  }

  /** `POST /api/files/:fileId/metadata` as written: `getFile` and
      `updateFile` return Promises that are not awaited. The Promise is
      truthy, so an unknown file is never a 404, and it serialises as an
      empty object, so the reply never carries the record. The update
      itself still happens for a known file. */
  method HandleMetadataAsWritten(files: Catalog, id: string, body: MetadataBody) returns (reply: Reply)
    requires files.Valid()
    modifies files
    ensures files.Valid()
    ensures reply == MetadataSaved(EmptyObject)
    ensures id !in old(files.files) ==> files.files == old(files.files)
    ensures id in old(files.files) ==>
      files.files == old(files.files)[id := Merge(old(files.files)[id], MetadataPatch(body))]
  {
    var patch := MetadataPatch(body);
    var _ := files.UpdateFile(id, patch);
    reply := MetadataSaved(EmptyObject);
  }
}
