# DriveMerge chunking and dedup pipeline, modelled in Dafny

DriveMerge splits a file in the browser into content-defined chunks and
hashes each plaintext chunk with SHA-256. Each chunk is encrypted under its
own key, and that key is wrapped under a per-file key. The server then checks
the chunk hashes against a reference-counted hash store: chunks it already
holds are deduplicated, and the rest get an upload URL. This project models
the parts of that pipeline that carry logic:

- `Js` (js.dfy): the JavaScript values the code inspects: truthiness,
  `Number.isFinite`, `typeof … === 'string'`, and `String(n)` for the
  sequential ids.
- `Bytes` (bytes.dfy): lowercase hex rendering, `hexToUint8` with
  `parseInt(…, 16)` semantics, base64 as `btoa` writes it (RFC 4648
  section 4), and `atob`'s forgiving decode. The block-wise `uint8ToBase64`
  and `base64ToUint8` loops are methods proved against those functions.
- `Gear` (gear.dfy): the 256-entry gear table, and the hash update
  `((h << 1) + GEAR[b]) >>> 0` with ECMAScript's ToInt32/ToUint32 written
  out. It also holds the mask `(1 << maskBits) - 1` with its shift count
  taken modulo 32, and `Math.max(1, Math.round(Math.log2(avg)))` computed
  exactly.
- `Cdc` (cdc.dfy): configuration normalisation, the cut rule, and the
  split of a byte stream into cut chunks plus a trailing chunk.
- `ChunkerWorker` (chunker_worker.dfy): the messages `processFileCDC`
  posts, and the block-by-block byte loop that produces them. It also holds
  a `Worker` class that keeps the raw file key for a later `wrapFileKey`
  request. SHA-256 (FIPS 180-4), AES-GCM (NIST SP 800-38D) and the random
  source are parameters.
- `HashStore` (hash_store.dfy): the in-memory `hashStore` map from hash to
  reference count, with `checkHashes`, `addHashes` and `getAll`.
- `FileCatalog` (file_catalog.dfy): the in-memory file records under
  sequential ids, with creation normalisation and the id-preserving merge.
  It also holds the field filter of the database-backed `updateFile`.
- `JobStore` (job_store.dfy): upload jobs and their numbered items.
- `Queue` (queue.dfy): the job processor. It marks a job in progress,
  gives every item not yet deduplicated or uploaded a URL, marks the job
  completed, and reports each step.
- `Server` (server.dfy): the create, commit and metadata request handlers
  over the stores.
- `CryptoWorker` (crypto_worker.dfy): the `derive` request. It picks
  Argon2id (RFC 9106) when the library loads and PBKDF2 (RFC 8018
  section 5.2) otherwise, defaults the parameters, and handles the salt.
  Both derivation functions are parameters.

The stores are classes whose methods update `map` and `seq` fields in
place. Each store's consistency is a ghost predicate over its fields
(`StoreInv`, `CatalogInv`, `JobInv`), and lemmas state what that predicate
gives a reader of the store.

The lemmas and contracts in the table below are about these reference
definitions, each of which models the source lines given:

- `Bytes.ParseIntHex`: `parseInt(…, 16)` (client/public/workers/crypto.worker.js:76).
- `Bytes.HexDecode`: `hexToUint8` as a value (client/public/workers/crypto.worker.js:73-77).
- `Bytes.ForgivingDecode`: the forgiving-base64 decode behind `atob` (client/public/workers/crypto.worker.js:65).
- `Cdc.Continue` and `Cdc.SplitOf`: the chunk boundaries of the read loop (client/public/workers/chunker.worker.js:185-257).
- `FileCatalog.Merge`: `Object.assign({}, cur, patch, { id: cur.id })` (server/src/db/files.js:38).
- `Server.DedupHashes`: the hashes sent to `checkHashes` (server/src/server.js:45).
- `Queue.ItemNotes`: the item reports of a run (server/src/queue/index.js:43-49).
- `CryptoWorker.DeriveOutcome`: the reply to one `derive` request (client/public/workers/crypto.worker.js:9-48).

## Model

| member | source | states |
|---|---|---|
| Js.ParseNatToString | server/src/db/files.js:10 | `String(n)` is a decimal numeral that reads back as `n` |
| Js.NatToStringInjective | server/src/db/files.js:10 | distinct counters give distinct id strings |
| Js.IdsUpTo | server/src/db/files.js:10 | the ids handed out after `n` creations are "1" … String(n), in order |
| Js.IdsDistinct | server/src/db/files.js:10 | the ids handed out are pairwise distinct |
| Js.IdsSnoc | server/src/db/files.js:10 | the next id extends the list and is not among the earlier ones |
| Bytes.HexOfAt | client/public/workers/chunker.worker.js:211 | the hex rendering has two digits per byte: the high nibble, then the low one |
| Bytes.HexOfLength | client/public/workers/chunker.worker.js:211 | the hex rendering is twice as long as the bytes |
| Bytes.HexOfLowercase | client/public/workers/chunker.worker.js:211 | every digit of the rendering is a lowercase hex digit |
| Bytes.HexDigitValue | client/public/workers/crypto.worker.js:76 | a hex digit's value is in 0..15, and -1 marks a non-digit |
| Bytes.HexRunLength | client/public/workers/crypto.worker.js:76 | `parseInt` reads the longest leading run of hex digits: every character in it is a hex digit, and the next one, if any, is not |
| Bytes.HexPairValue | client/public/workers/crypto.worker.js:76 | two hex digits parse to 16·high + low, and the byte conversion keeps that value |
| Bytes.HexDecodeAt | client/public/workers/crypto.worker.js:73-77 | `hexToUint8` has length hex.length/2, and byte i is the value of digits 2i and 2i+1 |
| Bytes.HexRoundTrip | client/public/workers/crypto.worker.js:73-77 | `hexToUint8` inverts the chunker's hex rendering of any bytes |
| Bytes.HexToUint8 | client/public/workers/crypto.worker.js:73-78 | the byte-filling loop computes the hex decoding of the string |
| Bytes.SextetOf | client/public/workers/crypto.worker.js:64-69 | every base64 character has a 6-bit value in 0..63 |
| Bytes.Latin1 | client/public/workers/crypto.worker.js:52-62 | `String.fromCharCode` over the bytes gives one character per byte, whose character code is that byte |
| Bytes.EncodeUnpaddedShape | client/public/workers/crypto.worker.js:52-62 | the unpadded encoding is made of base64 characters, 4 per 3 bytes with a 2- or 3-character tail |
| Bytes.DecodeEncodeUnpadded | client/public/workers/crypto.worker.js:52-69 | decoding the unpadded encoding gives back the bytes |
| Bytes.StripEncodedPadding | client/public/workers/crypto.worker.js:52-69 | `atob` strips exactly the padding `btoa` added |
| Bytes.Base64RoundTrip | client/public/workers/crypto.worker.js:52-69 | `base64ToUint8(uint8ToBase64(u)) == u` for all bytes |
| Bytes.NoWhitespace | client/public/workers/crypto.worker.js:65 | `atob`'s whitespace removal leaves base64 output unchanged |
| Bytes.Uint8ToBase64 | client/public/workers/crypto.worker.js:52-62 | the 0x8000-byte block loop gives the same string as encoding the bytes in one piece |
| Bytes.Base64ToUint8 | client/public/workers/crypto.worker.js:64-69 | the character-copy loop gives `atob`'s forgiving decode, and `None` where `atob` throws |
| Gear.GEAR | client/public/workers/chunker.worker.js:105-140 | every table entry is a 32-bit unsigned value: the 32 listed constants, then 0x11111111 + i |
| Gear.ToUint32 | client/public/workers/chunker.worker.js:193 | `>>> 0` lands in [0, 2^32) |
| Gear.ToInt32 | client/public/workers/chunker.worker.js:193 | the `<<` operand conversion lands in the signed 32-bit range |
| Gear.GearStepIsMod | client/public/workers/chunker.worker.js:193 | the JavaScript hash update equals (2·h + GEAR[b]) mod 2^32 |
| Gear.MaskPattern | client/public/workers/chunker.worker.js:148 | the mask's 32-bit pattern is 2^(maskBits mod 32) − 1 |
| Gear.MaskTestIsLowBits | client/public/workers/chunker.worker.js:203 | `(h & mask) === 0` holds iff h is a multiple of 2^(maskBits mod 32) |
| Gear.MaskBitsNearest | client/public/workers/chunker.worker.js:147 | the mask width is the integer nearest log2(avg), at least 1 |
| Gear.MaskBitsOfPowerOfTwo | client/public/workers/chunker.worker.js:147 | for avg = 2^k the mask has max(1, k) bits, so the default 65536 gives 16 |
| Cdc.Requested | client/public/workers/chunker.worker.js:39-50 | a non-finite or non-positive size takes its default; otherwise the size is the floor of the request |
| Cdc.NormaliseConfig | client/public/workers/chunker.worker.js:30-57 | absent inputs give 16384/65536/262144; a min above avg becomes max(1, ⌊avg/4⌋) and a max below avg becomes 2·avg, other sizes are kept; sizes of at least 1 give 1 ≤ min ≤ avg ≤ max |
| Cdc.RollingHash | client/public/workers/chunker.worker.js:170-193 | the hash of a chunk, started from 0, stays below 2^32 |
| Cdc.RollingHashSnoc | client/public/workers/chunker.worker.js:193 | one more byte applies the gear update to the hash |
| Cdc.BoundaryFollowsRule | client/public/workers/chunker.worker.js:199-203 | the boundary test is the cut rule: length ≥ min and mask test, or length ≥ max |
| Cdc.FlattenAppend | client/public/workers/chunker.worker.js:185-281 | concatenating chunk lists concatenates their bytes |
| Cdc.ContinueCovers | client/public/workers/chunker.worker.js:190-248 | the split from any state covers the current chunk followed by the rest of the input |
| Cdc.ContinueCutsNonEmpty | client/public/workers/chunker.worker.js:196-203 | no cut chunk is empty |
| Cdc.Reassemble | client/public/workers/chunker.worker.js:185-281 | the chunks in index order reproduce the input bytes, and none is empty |
| Cdc.ContinueShape | client/public/workers/chunker.worker.js:190-248 | each cut chunk ends at the first position where the rule fires, and the tail has no such position |
| Cdc.SplitShape | client/public/workers/chunker.worker.js:185-257 | the same for the split of a whole file |
| Cdc.LongFires | client/public/workers/chunker.worker.js:199-203 | a stretch of max bytes always contains a cut |
| Cdc.ChunkBounds | client/public/workers/chunker.worker.js:199-257 | every cut chunk has min ≤ size ≤ max, and the trailing chunk is shorter than max |
| Cdc.SplitCons | client/public/workers/chunker.worker.js:243-247 | after a cut the state resets: the rest is split as a file on its own |
| Cdc.SplitUnique | client/public/workers/chunker.worker.js:185-257 | any chunking made of rule-following cuts and a cut-free tail is the split, so boundaries depend only on the bytes and the configuration |
| Cdc.AppendKeepsCuts | client/public/workers/chunker.worker.js:185-251 | bytes read later never move an earlier boundary |
| ChunkerWorker.ProgressDecodes | client/public/workers/chunker.worker.js:209-241 | a progress message's hash is the lowercase hex SHA-256 of the plaintext chunk; its wrapped key decodes to the chunk key sealed under the file key; both IVs decode to the values drawn |
| ChunkerWorker.ProgressTotals | client/public/workers/chunker.worker.js:231-244 | one progress message per chunk, with sizes summing to the bytes of all chunks |
| ChunkerWorker.ChunkInPlace | client/public/workers/chunker.worker.js:229 | chunk k is the stretch of the file that ends at its bytesProcessed |
| ChunkerWorker.ChunksReportFile | client/public/workers/chunker.worker.js:185-281 | the messages for a chunking of the file report the file |
| ChunkerWorker.CdcMessagesReport | client/public/workers/chunker.worker.js:185-281 | indices 0,1,2,… in order; consecutive non-empty stretches whose hashes are SHA-256 of exactly those bytes; sizes sum to the file size; `done` counts the progress messages; an empty file gives `done` with 0 alone |
| ChunkerWorker.CdcChunkSizes | client/public/workers/chunker.worker.js:199-257 | every reported chunk has 1..max bytes, and every chunk but the last at least min |
| ChunkerWorker.EmitChunk | client/public/workers/chunker.worker.js:209-241 | the message built for a chunk is its progress message |
| ChunkerWorker.AtBoundary | client/public/workers/chunker.worker.js:199-203 | the test on the running hash is the cut rule on the current chunk |
| ChunkerWorker.ScanByte | client/public/workers/chunker.worker.js:190-248 | one byte keeps the loop state: hash, buffer, index and messages reset after a cut |
| ChunkerWorker.ScanBlock | client/public/workers/chunker.worker.js:185-251 | one read block keeps the loop state, carrying hash and buffer across the block end |
| ChunkerWorker.ProcessFileCDC | client/public/workers/chunker.worker.js:143-285 | whatever the read-block size, the messages posted are those of the split: the chunks, then `done` |
| ChunkerWorker.WrapReply | client/public/workers/chunker.worker.js:86-101 | no file key gives "No fileKey available to wrap"; a master key that is not base64 or not 16/24/32 bytes gives an error; otherwise the file key sealed under the master key with the fresh IV, both decodable |
| ChunkerWorker.Worker.HandleWrapFileKey | client/public/workers/chunker.worker.js:86-102 | the wrap reply is posted and the file key is kept |
| ChunkerWorker.Worker.HandleChunkFile | client/public/workers/chunker.worker.js:14-59 | an invalid file posts the error; otherwise the file key is replaced and the messages of the normalised configuration are posted |
| ChunkerWorker.Worker.OnMessage | client/public/workers/chunker.worker.js:4-61 | dispatch on the message type, ignoring other types |
| ChunkerWorker.WrapAfterChunking | client/public/workers/chunker.worker.js:86-102 | a wrap before any chunking fails; after a run it wraps the file key under which every chunk key of that run was wrapped |
| ChunkerWorker.ChunkKeyAt | client/public/workers/chunker.worker.js:214-224 | message k carries draw k's chunk key wrapped under the file key |
| HashStore.AddAllCount | server/src/db/simpleHashes.js:12-17 | `addHashes` raises each hash's count by its number of occurrences in the list, and creates absent ones |
| HashStore.NewKeysShape | server/src/db/simpleHashes.js:12-20 | the iteration order gains the new hashes at its end, each once |
| HashStore.AddOneKeepsInv | server/src/db/simpleHashes.js:14-15 | one loop step keeps the counts equal to the multiplicities of everything added |
| HashStore.Store.CheckHashes | server/src/db/simpleHashes.js:8-10 | one answer per input, in order, duplicates kept; `exists` iff the hash was added before; the store is unchanged |
| HashStore.Store.AddHashes | server/src/db/simpleHashes.js:12-17 | the history grows by the list, and the counts and order are as the loop computes |
| HashStore.Store.GetAll | server/src/db/simpleHashes.js:19-21 | one row per stored hash in insertion order, with its count equal to its multiplicity (≥ 1); the store is unchanged |
| HashStore.AddPreservesCounts | server/src/db/simpleHashes.js:12-17 | counts never decrease, stay ≥ 1, and hashes not in the list keep theirs |
| FileCatalog.NewRecord | server/src/db/files.js:9-21 | falsy name/key/IV/owner become null; a non-finite size becomes null; a non-array chunk list becomes []; note is null |
| FileCatalog.MergeOverlays | server/src/db/files.js:38 | the merge keeps the id; for each of name, size, chunks, key, IV, owner, note and creation time it takes the patch's value when the patch has one and keeps the record's otherwise; it is idempotent, and the empty patch is the identity |
| FileCatalog.PrismaFilter | server/src/db/files.js:113-118 | exactly the string-typed key, IV, owner and note pass, with their values |
| FileCatalog.PrismaUpdateWritesOnlyStrings | server/src/db/files.js:113-120 | a patch without string fields returns the record unchanged; only the four writable fields can change |
| FileCatalog.CatalogListing | server/src/db/files.js:9-32 | the records in iteration order are under ids "1", "2", …, each once |
| FileCatalog.Catalog.constructor | server/src/db/files.js:6-7 | the catalog starts empty with the next id 1 |
| FileCatalog.Catalog.CreateFile | server/src/db/files.js:9-24 | a fresh id String(nextId), the normalised record stored under it, and no other record changed |
| FileCatalog.Catalog.GetFile | server/src/db/files.js:26-28 | the record under the id, or null |
| FileCatalog.Catalog.ListFiles | server/src/db/files.js:30-32 | every created record exactly once, in creation order |
| FileCatalog.Catalog.UpdateFile | server/src/db/files.js:34-41 | an unknown id gives null and no change; otherwise the merged record is stored and returned, with other records unchanged |
| JobStore.ItemIdInjective | server/src/db/jobs.js:10 | item ids of decimal job ids coincide only for the same job and index |
| JobStore.ItemIdWithinJob | server/src/db/jobs.js:10 | within one job, distinct indices give distinct item ids |
| JobStore.NewItem | server/src/db/jobs.js:10 | item i has id `${jobId}:${i}` and the given hash; status defaults to 'needs_upload' and uploadUrl to null |
| JobStore.NewJob | server/src/db/jobs.js:8-10 | an absent status is 'pending', and the items match the input in count and order |
| JobStore.FindItem | server/src/db/jobs.js:26 | the first item with the id, or none when no item has it |
| JobStore.FindNumbered | server/src/db/jobs.js:10-26 | in a job's own items, the id of index i finds index i |
| JobStore.PatchItem | server/src/db/jobs.js:28 | only item k changes, and only in the fields the patch carries |
| JobStore.StoredIdDecimal | server/src/db/jobs.js:9 | every stored job id is a decimal counter |
| JobStore.ItemIdsUnique | server/src/db/jobs.js:9-10 | no two items of the store, in one job or in two, share an id |
| JobStore.JobListing | server/src/db/jobs.js:8-21 | the jobs in iteration order are under ids "1", "2", …, each once |
| JobStore.ReplaceKeepsInv | server/src/db/jobs.js:28-35 | replacing a job with one of the same id and item ids keeps the store consistent |
| JobStore.Store.constructor | server/src/db/jobs.js:5-6 | the store starts empty with the next id 1 |
| JobStore.Store.CreateJob | server/src/db/jobs.js:8-13 | a fresh id, the new job stored under it, and no other job changed |
| JobStore.Store.GetJob | server/src/db/jobs.js:15-17 | the job under the id, or null |
| JobStore.Store.ListJobs | server/src/db/jobs.js:19-21 | every job exactly once, in creation order |
| JobStore.Store.UpdateJobItem | server/src/db/jobs.js:23-30 | null and no change for a missing job or item; otherwise only that item is patched and returned |
| JobStore.Store.UpdateJobStatus | server/src/db/jobs.js:32-37 | null for an unknown job; otherwise only the status changes |
| Queue.UploadBase | server/src/queue/index.js:45 | an unset or empty UPLOAD_BASE gives the default base |
| Queue.Processed | server/src/queue/index.js:44-47 | deduplicated and uploaded items are untouched; any other item gets 'url_ready' and base + "/" + hash; every status ends terminal |
| Queue.PartlyProcessed | server/src/queue/index.js:43-49 | after i loop passes, the first i items are processed and the rest are as they were |
| Queue.Completed | server/src/queue/index.js:39-53 | the job ends 'completed' with every item processed and nothing else changed |
| Queue.Unsettled | server/src/queue/index.js:44 | the items the loop does not skip, in item order: each is an unsettled item, every unsettled item is among them, all of them when none is settled, none when all are |
| Queue.ItemNotesCount | server/src/queue/index.js:43-49 | one item report per unsettled item, in item order: report k is the 'url_ready' update of the k-th unsettled item with its URL |
| Queue.ItemNotesShape | server/src/queue/index.js:48 | every item report names an unsettled item of the job and its URL |
| Queue.RunNotes | server/src/queue/index.js:40-53 | reports go in_progress first and completed last, with item updates between |
| Queue.StepItem | server/src/queue/index.js:43-49 | one loop pass: a settled item changes nothing, any other is processed and reported |
| Queue.PatchMidway | server/src/queue/index.js:47 | the store update for item i is the processing of item i |
| Queue.FinishStep | server/src/queue/index.js:52 | the completed status write after the loop gives the completed job |
| Queue.ProcessJob | server/src/queue/index.js:33-55 | an unknown job gives no update and no report; otherwise the job ends completed and the reports come in order |
| Queue.RunJob | server/src/queue/index.js:39-54 | in_progress is written before any item update and completed after all of them |
| Queue.RunItems | server/src/queue/index.js:43-49 | the loop processes every item in order |
| Queue.ProcessItem | server/src/queue/index.js:44-48 | a settled item is skipped; any other is updated through its own id and reported |
| Queue.CompletedIdempotent | server/src/queue/index.js:43-53 | a second run on a completed job leaves it as it is |
| Queue.CompletedKeepsSettled | server/src/queue/index.js:44-47 | settled items come out unchanged, and every status ends deduplicated, uploaded or url_ready |
| Queue.ProcessJobAsExported | server/src/db/jobs.js:39-84 | as written: an existing job fails at the first status write, with nothing reported |
| Queue.ExportedProcessorStalls | server/src/db/jobs.js:39-88 | a one-item pending job that the intended processor completes stays pending, with no URL, under the exported functions |
| Server.BodyChunks | server/src/server.js:40-43 | a `chunkHashes` array takes precedence over `chunks`, and neither being an array gives none |
| Server.DedupHashesKeep | server/src/server.js:45 | the checked hashes are exactly the non-empty hashes of the chunks |
| Server.EntryFor | server/src/server.js:49-58 | a known hash is 'deduplicated' with no URL; any other is 'needs_upload' with "https://example.com/upload/" + hash |
| Server.HandleCreate | server/src/server.js:37-70 | no array gives a 400 with no store touched; otherwise job i is EntryFor of checked hash i and whether the store's history holds it (so 'deduplicated' without URL, or 'needs_upload' with the placeholder URL), and a new record with null key/IV when absent whose id is the reply's fileId |
| Server.HandleCreateAsWritten | server/src/server.js:46-49 | as written: every request with an array of chunks fails at `results.map` |
| Server.HandleCommit | server/src/server.js:73-80 | a non-array is a 400 with the history, counts and insertion order unchanged; otherwise the whole list is added, the counts are AddAll and the insertion order gains the new hashes (NewKeys), and `committed` is its length, duplicates included |
| Server.MetadataPatch | server/src/server.js:116-120 | only string-typed wrappedFileKey, wrappedFileKeyIv and note are forwarded |
| Server.MetadataPatchConfined | server/src/server.js:116-122 | the patch never touches name, size, owner, chunks or creation time |
| Server.HandleMetadata | server/src/server.js:109-127 | an unknown file is a 404 with nothing changed; otherwise the filtered patch is merged and the record returned |
| Server.HandleMetadataAsWritten | server/src/server.js:113-123 | as written: never a 404, the reply's file is `{}`, and the update still happens |
| CryptoWorker.Password | client/public/workers/crypto.worker.js:10 | a falsy password becomes the empty string |
| CryptoWorker.Argon2Params | client/public/workers/crypto.worker.js:27-29 | time, mem and parallelism default to 3, 65536 and 1 unless finite numbers |
| CryptoWorker.Iterations | client/public/workers/crypto.worker.js:37 | iterations default to 250000 unless a finite number |
| CryptoWorker.SaltBytes | client/public/workers/crypto.worker.js:24-40 | a supplied salt is decoded, and an absent one is the 16 fresh bytes |
| CryptoWorker.DeriveReplies | client/public/workers/crypto.worker.js:7-50 | one reply per derive; the tag follows the library's availability; the reported salt decodes to the salt used; the key decodes to the derivation output (32 bytes from 64 hex digits); an error exactly when a step fails |
| CryptoWorker.OnMessage | client/public/workers/crypto.worker.js:7-50 | the listener posts exactly those replies |

## Left out

- Crypto primitives: SHA-256, AES-GCM, Argon2id, PBKDF2 and `crypto.getRandomValues` are function or value parameters, and their internals are not modelled.
- The ciphertext `processFileCDC` computes for each chunk is never posted or stored, so the model does not compute it.
- The `percent` field of progress messages is left out because it is floating-point rounding.
- Gear.MaskBits: `Math.round(Math.log2(avg))` is computed exactly. Floating-point `Math.log2` could round differently for an average extremely close to a half-integer power of two.
- Reading the file: `file.slice(…).arrayBuffer()` is given as the byte sequence. Read errors, the `catch` that posts them, and the cooperative `setTimeout` yield are not modelled.
- ChunkerWorker.WrapReply: `importKey` and `encrypt` failures other than a master key that is not 16, 24 or 32 bytes are not modelled.
- CryptoWorker.DeriveReplies: a failure of the PBKDF2 `importKey` is folded into the derivation parameter's error, so its message is whatever that parameter returns. The source runs that `importKey` (client/public/workers/crypto.worker.js:39) before it decodes the salt (line 40), and the model decodes the salt first: when both fail, the source posts the `importKey` error and the model posts `InvalidCharacterError`.
- Prisma branches of simpleHashes.js, files.js and jobs.js are not part of this model. The exception is the field filter of the database-backed `updateFile` (FileCatalog.PrismaFilter). prismaClient.js is not part of this model either.
- BullMQ/Redis setup, retries and the `failed` handler are not modelled. `UPLOAD_BASE` is a parameter, and `onUpdate` is taken to be present: the reports are always collected.
- The HTTP and WebSocket layer (Express routing, CORS, broadcast, startup) and the GET routes are not modelled. The handlers return a `Reply` value.
- auth.js, client/pages/index.js and transfer.worker.js are not part of this model. Two client quirks are not modelled: the client drops repeated chunks from its submission, and the chunk size it sends is ignored by the chunker.
- JavaScript object identity is not modelled: records are values, so a caller holding a returned record does not see later updates to it.
- JobStore.Store.UpdateJobItem: a patch carries only `status` and `uploadUrl`, the fields the processor sends. `Object.assign` with other keys (including `id`) is not modelled.
- JobStore.Store.CreateJob: `items` is taken to be an array. A non-array `items` would throw in `items.map`, which is not modelled.
- Non-string hashes, salts and master keys in JSON bodies and messages are not modelled: a hash is a string or absent.
- Server.HandleCreate: every element of `chunks` is an object. A null or non-object element makes `c.hash` throw (server/src/server.js:42), which gives a 500; that path is not modelled.
- Error text of `atob`: both workers post `String(err)` of the platform's exception, whose text differs between browsers. The model uses its name, `InvalidCharacterError` (Bytes.INVALID_CHARACTER), in both workers.
- FileCatalog.Catalog.UpdateFile: a patch carries the record's own fields (name, size, chunks, key, IV, owner, note, creation time) and they are merged as `Object.assign` does. Keys that are not record fields, a non-array `chunks` and a non-string `createdAt` in a patch are not modelled. The database-backed `updateFile` writes only four string fields (FileCatalog.PrismaUpdate).
- FileCatalog.MergeOverlays: states the overlay only for the record's own fields, for the reason given for FileCatalog.Catalog.UpdateFile.
- Cdc.ChunkBounds and ChunkerWorker.CdcChunkSizes: a requested size in (0, 1) floors to 0, and a configuration with `avgChunk` and `maxChunk` both 0 makes every byte a cut (chunker.worker.js:203). The chunk bounds are not claimed for it: both lemmas require `maxChunk >= 1`.
- The create handler stores a file record, but it never calls `createJob`, so no job is created for it. The model follows the code: jobs enter the store only through JobStore.Store.CreateJob.

## Findings

| source | as written | input that shows it | evidently intended | confidence | as-written member | corrected member |
|---|---|---|---|---|---|---|
| server/src/db/jobs.js:39-88 | the in-memory store exports only `createJob`, `getJob` and `listJobs`, so the exported `updateJobItem`/`updateJobStatus` call undefined functions when no database is configured | any existing job id given to the processor, e.g. job "1" with one item of hash "ab" | the processor marks the job in progress, gives the item 'url_ready' with base + "/ab", and marks the job completed | high, not executed | Queue.ProcessJobAsExported, Queue.ExportedProcessorStalls | Queue.ProcessJob |
| server/src/server.js:46-66 | `checkHashes` is async and not awaited, so `results` is a Promise and `results.map` throws; `createFile` (server/src/db/files.js:46) is async and not awaited either (line 63), so once `checkHashes` is awaited `fileRec.id` is still undefined and the reply and broadcast carry no `fileId` | any create body whose `chunkHashes` is an array, even `[]` | one job entry per checked hash, and the file record created with its id returned as `fileId` | high, not executed | Server.HandleCreateAsWritten | Server.HandleCreate |
| server/src/server.js:113-123 | `getFile`/`updateFile` are async and not awaited, so `rec` is always truthy and `updated` serialises as `{}` | a metadata request for an id that was never created | a 404 for an unknown file, and the updated record in the reply | high, not executed | Server.HandleMetadataAsWritten | Server.HandleMetadata |
