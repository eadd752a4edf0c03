/** The chunker worker around the boundary engine: the messages it posts,
    the chunk loop of `processFileCDC` that reads the file in blocks, and the
    worker's state (the raw file key kept for a later wrap request). SHA-256,
    AES-GCM and the random source are parameters: their internals are not
    part of this model. */
module ChunkerWorker {
  import opened Wrappers
  import opened Bytes
  import opened Gear
  import opened Cdc
  import Js

  /** A raw AES-256 key as `getRandomValues(new Uint8Array(32))` returns it. */
  type Key256 = s: seq<Byte> | |s| == 32 witness [0, 0, 0, 0, 0, 0, 0, 0, 0, 0, 0, 0, 0, 0, 0, 0, 0, 0, 0, 0, 0, 0, 0, 0, 0, 0, 0, 0, 0, 0, 0, 0]

  /** A 12-byte AES-GCM initialisation vector. */
  type Iv96 = s: seq<Byte> | |s| == 12 witness [0, 0, 0, 0, 0, 0, 0, 0, 0, 0, 0, 0]

  /** SHA-256 (FIPS 180-4): bytes to digest. */
  type Digest = seq<Byte> -> seq<Byte>

  /** AES-GCM encryption (NIST SP 800-38D): key, IV and plaintext to
      ciphertext with its tag. */
  type Aead = (seq<Byte>, seq<Byte>, seq<Byte>) -> seq<Byte>

  /** The random values drawn for one chunk: its key, the IV for the chunk
      ciphertext and the IV for wrapping the chunk key. */
  datatype Draw = Draw(chunkKey: Key256, chunkIv: Iv96, wrapIv: Iv96)

  /** The block size the file is read in. */
  const READER_CHUNK: nat := 256 * 1024

  const INVALID_FILE := "Invalid file provided to chunker.worker"
  const NO_FILE_KEY := "No fileKey available to wrap"
  /** The exception `importKey` raises on a key that is not 16, 24 or 32
      bytes; `atob` on a string that is not base64 raises INVALID_CHARACTER. */
  const DATA_ERROR := "DataError"

  datatype WorkerMessage =
    | Progress(index: nat, hash: string, size: nat, bytesProcessed: nat,
               wrappedChunkKey: string, wrapIv: string, chunkIv: string)
    | Done(count: nat)
    | Error(message: string)
    | WrappedFileKey(wrappedFileKey: string, wrapIv: string)

  /** The progress message for chunk `index`, which ends after `processed`
      bytes of the file: its plaintext SHA-256 in hex, its size, and its key
      wrapped under the file key, with both IVs, in base64. */
  function ChunkProgress(chunk: seq<Byte>, index: nat, processed: nat, fileKey: Key256,
                         draw: Draw, sha: Digest, aead: Aead): WorkerMessage
  {
    Progress(index, HexOf(sha(chunk)), |chunk|, processed,
             Base64Encode(aead(fileKey, draw.wrapIv, draw.chunkKey)),
             Base64Encode(draw.wrapIv), Base64Encode(draw.chunkIv))
  }

  /** One progress message per chunk, in order: message `k` reports chunk
      `k` at index `k`, with the bytes processed up to the end of that chunk. */
  function ProgressMessages(chunks: seq<seq<Byte>>, fileKey: Key256, draws: nat -> Draw,
                            sha: Digest, aead: Aead): seq<WorkerMessage>
  {
    seq(|chunks|, k requires 0 <= k < |chunks| =>
      ChunkProgress(chunks[k], k, |Flatten(chunks[..k + 1])|, fileKey, draws(k), sha, aead))
  }

  /** Everything `processFileCDC` posts for a file that reads without error:
      a progress message per chunk, then `done` with the chunk count. */
  function CdcMessages(file: seq<Byte>, cfg: Config, fileKey: Key256, draws: nat -> Draw,
                       sha: Digest, aead: Aead): seq<WorkerMessage>
  {
    var chunks := Chunks(file, Boundary(ParamsOf(cfg)));
    ProgressMessages(chunks, fileKey, draws, sha, aead) + [Done(|chunks|)]
  }

  /** Reporting one more chunk, which ends after `processed` bytes, appends
      its message. */
  lemma ProgressMessagesSnoc(cuts: seq<seq<Byte>>, c: seq<Byte>, processed: nat, fileKey: Key256,
                             draws: nat -> Draw, sha: Digest, aead: Aead)
    requires |Flatten(cuts + [c])| == processed
    ensures ProgressMessages(cuts + [c], fileKey, draws, sha, aead)
      == ProgressMessages(cuts, fileKey, draws, sha, aead)
         + [ChunkProgress(c, |cuts|, processed, fileKey, draws(|cuts|), sha, aead)]
  {
    var all := cuts + [c];
    var grown := ProgressMessages(all, fileKey, draws, sha, aead);
    var extended := ProgressMessages(cuts, fileKey, draws, sha, aead)
      + [ChunkProgress(c, |cuts|, processed, fileKey, draws(|cuts|), sha, aead)];
    forall k | 0 <= k < |all|
      ensures grown[k] == extended[k]
    {
      if k < |cuts| {
        assert all[..k + 1] == cuts[..k + 1];
      } else {
        assert all[..k + 1] == all;
      }
    }
    assert grown == extended;
  }

  // ---------------------------------------------------------------------------
  // What the messages say

  /** Every field of a progress message reads back: the hash is lowercase hex,
      two digits per byte, and decodes to the SHA-256 of the plaintext chunk;
      the wrapped chunk key decodes to the chunk key sealed under the file key
      with the wrap IV; both IVs decode to the fresh values drawn. */
  lemma ProgressDecodes(chunk: seq<Byte>, index: nat, processed: nat, fileKey: Key256,
                        draw: Draw, sha: Digest, aead: Aead)
    ensures var m := ChunkProgress(chunk, index, processed, fileKey, draw, sha, aead);
      && m.Progress? && m.index == index && m.size == |chunk| && m.bytesProcessed == processed
      && |m.hash| == 2 * |sha(chunk)|
      && (forall j :: 0 <= j < |m.hash| ==> IsLowerHexDigit(m.hash[j]))
      && HexDecode(m.hash) == sha(chunk)
      && ForgivingDecode(m.wrappedChunkKey) == Some(aead(fileKey, draw.wrapIv, draw.chunkKey))
      && ForgivingDecode(m.wrapIv) == Some(draw.wrapIv)
      && ForgivingDecode(m.chunkIv) == Some(draw.chunkIv)
  {
    HexOfLength(sha(chunk));
    HexOfLowercase(sha(chunk));
    HexRoundTrip(sha(chunk));
    Base64RoundTrip(aead(fileKey, draw.wrapIv, draw.chunkKey));
    Base64RoundTrip(draw.wrapIv);
    Base64RoundTrip(draw.chunkIv);
  }

  /** The number of progress messages in a list. */
  function ProgressCount(msgs: seq<WorkerMessage>): nat
    decreases |msgs|
  {
    if msgs == [] then 0
    else ProgressCount(msgs[..|msgs| - 1]) + (if msgs[|msgs| - 1].Progress? then 1 else 0)
  }

  /** The sum of the chunk sizes the progress messages of a list report. */
  function SizeTotal(msgs: seq<WorkerMessage>): nat
    decreases |msgs|
  {
    if msgs == [] then 0
    else SizeTotal(msgs[..|msgs| - 1]) + (if msgs[|msgs| - 1].Progress? then msgs[|msgs| - 1].size else 0)
  }

  /** One progress message per chunk, and their sizes add up to the bytes
      of all the chunks. */
  lemma {:induction false} ProgressTotals(chunks: seq<seq<Byte>>, fileKey: Key256, draws: nat -> Draw,
                                          sha: Digest, aead: Aead)
    ensures ProgressCount(ProgressMessages(chunks, fileKey, draws, sha, aead)) == |chunks|
    ensures SizeTotal(ProgressMessages(chunks, fileKey, draws, sha, aead)) == |Flatten(chunks)|
    decreases |chunks|
  {
    if chunks != [] {
      var n := |chunks|;
      var init := chunks[..n - 1];
      var c := chunks[n - 1];
      assert init + [c] == chunks;
      FlattenSnoc(init, c);
      ProgressMessagesSnoc(init, c, |Flatten(chunks)|, fileKey, draws, sha, aead);
      ProgressTotals(init, fileKey, draws, sha, aead);
      var msgs := ProgressMessages(chunks, fileKey, draws, sha, aead);
      assert msgs[..|msgs| - 1] == ProgressMessages(init, fileKey, draws, sha, aead);
    }
  }

  /** Chunk `k` is the stretch of the concatenation that ends where the first
      `k + 1` chunks end. */
  lemma ChunkInPlace(chunks: seq<seq<Byte>>, k: nat)
    requires k < |chunks|
    ensures var e := |Flatten(chunks[..k + 1])|;
      |chunks[k]| <= e <= |Flatten(chunks)| && Flatten(chunks)[e - |chunks[k]| .. e] == chunks[k]
  {
    var head := chunks[..k + 1];
    assert head == chunks[..k] + [chunks[k]];
    FlattenSnoc(chunks[..k], chunks[k]);
    assert head + chunks[k + 1..] == chunks;
    FlattenAppend(head, chunks[k + 1..]);
    var e := |Flatten(head)|;
    assert Flatten(chunks)[..e] == Flatten(head);
  }

  /** The messages report the file: progress messages with indices 0, 1, 2,
      … in order, each naming a non-empty stretch of the file that starts
      where the previous one ends, whose hash is the hex SHA-256 of exactly
      those bytes; the sizes add up to the file size and the last progress
      message reports the whole file processed; then `done` with the number
      of progress messages. An empty file gets `done` with count 0 alone. */
  predicate ReportsFile(msgs: seq<WorkerMessage>, file: seq<Byte>, sha: Digest) {
    var n := |msgs| - 1;
    && |msgs| >= 1
    && msgs[n] == Done(ProgressCount(msgs[..n]))
    && ProgressCount(msgs[..n]) == n
    && SizeTotal(msgs) == |file|
    && (forall k :: 0 <= k < n ==> ReportsStretch(msgs, k, file, sha))
    && (n > 0 ==> msgs[n - 1].Progress? && msgs[n - 1].bytesProcessed == |file|)
    && (file == [] <==> msgs == [Done(0)])
  }

  /** Message `k` is progress message number `k` for a non-empty stretch of
      the file that starts where the stretch of message `k - 1` ends (at 0
      for the first), and its hash is the hex SHA-256 of exactly those bytes. */
  predicate ReportsStretch(msgs: seq<WorkerMessage>, k: nat, file: seq<Byte>, sha: Digest)
    requires k < |msgs|
  {
    var m := msgs[k];
    && m.Progress? && m.index == k
    && 0 < m.size <= m.bytesProcessed <= |file|
    && (k == 0 ==> m.bytesProcessed == m.size)
    && (k > 0 ==> msgs[k - 1].Progress? && m.bytesProcessed == msgs[k - 1].bytesProcessed + m.size)
    && m.hash == HexOf(sha(file[m.bytesProcessed - m.size .. m.bytesProcessed]))
  }

  /** Message `k` of the progress list reports chunk `k`. */
  lemma ProgressAt(chunks: seq<seq<Byte>>, k: nat, fileKey: Key256, draws: nat -> Draw, sha: Digest, aead: Aead)
    requires k < |chunks|
    ensures |ProgressMessages(chunks, fileKey, draws, sha, aead)| == |chunks|
    ensures var m := ProgressMessages(chunks, fileKey, draws, sha, aead)[k];
      && m.Progress? && m.index == k && m.size == |chunks[k]|
      && m.bytesProcessed == |Flatten(chunks[..k + 1])| && m.hash == HexOf(sha(chunks[k]))
  {
    var e := |Flatten(chunks[..k + 1])|;
    assert ProgressMessages(chunks, fileKey, draws, sha, aead)[k]
      == ChunkProgress(chunks[k], k, e, fileKey, draws(k), sha, aead);
  }

  /** The first `k + 1` chunks hold chunk `k` more bytes than the first `k`. */
  lemma PrefixGrows(chunks: seq<seq<Byte>>, k: nat)
    requires k < |chunks|
    ensures |Flatten(chunks[..k + 1])| == |Flatten(chunks[..k])| + |chunks[k]|
    ensures k == 0 ==> |Flatten(chunks[..k])| == 0
  {
    assert chunks[..k + 1] == chunks[..k] + [chunks[k]];
    FlattenSnoc(chunks[..k], chunks[k]);
    if k == 0 {
      assert chunks[..k] == [];
    }
  }

  /** The message for chunk `k` reports its stretch of the file. */
  lemma StretchReported(file: seq<Byte>, chunks: seq<seq<Byte>>, k: nat, fileKey: Key256,
                        draws: nat -> Draw, sha: Digest, aead: Aead)
    requires Flatten(chunks) == file && k < |chunks| && chunks[k] != []
    ensures |ProgressMessages(chunks, fileKey, draws, sha, aead)| == |chunks|
    ensures ReportsStretch(ProgressMessages(chunks, fileKey, draws, sha, aead), k, file, sha)
  {
    var progress := ProgressMessages(chunks, fileKey, draws, sha, aead);
    var e := |Flatten(chunks[..k + 1])|;
    assert && progress[k].Progress? && progress[k].index == k && progress[k].size == |chunks[k]|
           && progress[k].bytesProcessed == e && |chunks[k]| <= e <= |file|
           && progress[k].hash == HexOf(sha(file[e - |chunks[k]| .. e])) by {
      ProgressAt(chunks, k, fileKey, draws, sha, aead);
      ChunkInPlace(chunks, k);
    }
    PrefixGrows(chunks, k);
    if k > 0 {
      ProgressAt(chunks, k - 1, fileKey, draws, sha, aead);
    }
  }

  /** A stretch reported in a list is still reported once more messages follow. */
  lemma StretchKept(msgs: seq<WorkerMessage>, more: seq<WorkerMessage>, k: nat, file: seq<Byte>, sha: Digest)
    requires k < |msgs| && ReportsStretch(msgs, k, file, sha)
    ensures ReportsStretch(msgs + more, k, file, sha)
  {
    assert (msgs + more)[k] == msgs[k];
    if k > 0 {
      assert (msgs + more)[k - 1] == msgs[k - 1];
    }
  }

  /** Any list of non-empty chunks that concatenate to the file is reported
      as the file. */
  lemma ChunksReportFile(file: seq<Byte>, chunks: seq<seq<Byte>>, fileKey: Key256, draws: nat -> Draw,
                         sha: Digest, aead: Aead)
    requires Flatten(chunks) == file
    requires forall k :: 0 <= k < |chunks| ==> chunks[k] != []
    ensures ReportsFile(ProgressMessages(chunks, fileKey, draws, sha, aead) + [Done(|chunks|)], file, sha)
  {
    var progress := ProgressMessages(chunks, fileKey, draws, sha, aead);
    var msgs := progress + [Done(|chunks|)];
    var n := |chunks|;
    assert |msgs| == n + 1 && msgs[..n] == progress;
    assert msgs[n] == Done(ProgressCount(msgs[..n])) && ProgressCount(msgs[..n]) == n by {
      ProgressTotals(chunks, fileKey, draws, sha, aead);
    }
    assert SizeTotal(msgs) == |file| by {
      ProgressTotals(chunks, fileKey, draws, sha, aead);
      assert msgs[..|msgs| - 1] == progress;
    }
    forall k | 0 <= k < n
      ensures ReportsStretch(msgs, k, file, sha)
    {
      StretchReported(file, chunks, k, fileKey, draws, sha, aead);
      StretchKept(progress, [Done(n)], k, file, sha);
    }
    if n > 0 {
      assert msgs[n - 1] == progress[n - 1] by {
        assert msgs[..n] == progress;
      }
      ProgressAt(chunks, n - 1, fileKey, draws, sha, aead);
      assert chunks[..n] == chunks;
    }
  }

  /** What `processFileCDC` posts reports the file (see `ReportsFile`). */
  lemma CdcMessagesReport(file: seq<Byte>, cfg: Config, fileKey: Key256, draws: nat -> Draw,
                          sha: Digest, aead: Aead)
    ensures ReportsFile(CdcMessages(file, cfg, fileKey, draws, sha, aead), file, sha)
  {
    ghost var fires := Boundary(ParamsOf(cfg));
    Reassemble(file, fires);
    ChunksReportFile(file, Chunks(file, fires), fileKey, draws, sha, aead);
  }

  /** Chunk sizes from the bounds of a split: cut chunks between the two
      bounds, a tail below the maximum, and no empty chunk. */
  lemma SizesOfSplit(s: Split, chunks: seq<seq<Byte>>, minChunk: nat, maxChunk: nat, fileKey: Key256,
                     draws: nat -> Draw, sha: Digest, aead: Aead)
    requires chunks == s.cuts + (if s.tail == [] then [] else [s.tail])
    requires forall k :: 0 <= k < |s.cuts| ==> minChunk <= |s.cuts[k]| <= maxChunk
    requires |s.tail| < maxChunk
    requires forall k :: 0 <= k < |chunks| ==> chunks[k] != []
    ensures var progress := ProgressMessages(chunks, fileKey, draws, sha, aead);
      forall k :: 0 <= k < |progress| ==>
        progress[k].Progress? && 1 <= progress[k].size <= maxChunk
        && (k < |progress| - 1 ==> minChunk <= progress[k].size)
  {
    var progress := ProgressMessages(chunks, fileKey, draws, sha, aead);
    forall k | 0 <= k < |progress|
      ensures progress[k].Progress? && 1 <= progress[k].size <= maxChunk
      ensures k < |progress| - 1 ==> minChunk <= progress[k].size
    {
      ProgressAt(chunks, k, fileKey, draws, sha, aead);
      if k < |s.cuts| {
        assert chunks[k] == s.cuts[k];
      } else {
        assert chunks[k] == s.tail;
      }
    }
  }

  /** With a minimum no larger than the maximum, every chunk reported has
      between 1 and `maxChunk` bytes, and every chunk but the last at least
      `minChunk`. */
  lemma CdcChunkSizes(file: seq<Byte>, cfg: Config, fileKey: Key256, draws: nat -> Draw,
                      sha: Digest, aead: Aead)
    requires cfg.minChunk <= cfg.maxChunk && cfg.maxChunk >= 1
    ensures var msgs := CdcMessages(file, cfg, fileKey, draws, sha, aead);
      var n := |msgs| - 1;
      forall k :: 0 <= k < n ==>
        msgs[k].Progress? && 1 <= msgs[k].size <= cfg.maxChunk && (k < n - 1 ==> cfg.minChunk <= msgs[k].size)
  {
    var p := ParamsOf(cfg);
    assert p.minChunk == cfg.minChunk && p.maxChunk == cfg.maxChunk;
    ghost var fires := Boundary(p);
    var chunks := Chunks(file, fires);
    var progress := ProgressMessages(chunks, fileKey, draws, sha, aead);
    Reassemble(file, fires);
    ChunkBounds(file, p);
    SizesOfSplit(SplitOf(file, fires), chunks, cfg.minChunk, cfg.maxChunk, fileKey, draws, sha, aead);
    var msgs := CdcMessages(file, cfg, fileKey, draws, sha, aead);
    assert msgs == progress + [Done(|chunks|)];
  }

  // ---------------------------------------------------------------------------
  // The chunk loop

  /** The state of the byte loop after `pos` bytes: the chunks cut so far and
      the current chunk cover the bytes read, every chunk cut so far ends at
      the first position where the rule fires, and the current chunk has no
      such position. */
  ghost predicate LoopState(file: seq<Byte>, pos: nat, cuts: seq<seq<Byte>>, buf: seq<Byte>, fires: Fires) {
    pos <= |file| && Flatten(cuts) + buf == file[..pos] && AllCuts(cuts, fires) && Uncut(buf, fires)
  }

  lemma LoopStart(file: seq<Byte>, fires: Fires)
    ensures LoopState(file, 0, [], [], fires)
  {
    assert Flatten([]) + [] == file[..0];
  }

  /** One byte of the loop when the rule fires on the grown chunk: the chunk
      is cut and the loop goes on with an empty one. */
  lemma LoopCut(file: seq<Byte>, pos: nat, cuts: seq<seq<Byte>>, buf: seq<Byte>, fires: Fires)
    requires LoopState(file, pos, cuts, buf, fires) && pos < |file|
    requires fires(buf + [file[pos]])
    ensures LoopState(file, pos + 1, cuts + [buf + [file[pos]]], [], fires)
    ensures |Flatten(cuts + [buf + [file[pos]]])| == pos + 1
  {
    var grown := buf + [file[pos]];
    assert grown[..|buf| + 1] == grown;
    GrowCut(buf, file[pos], fires);
    assert file[..pos + 1] == file[..pos] + [file[pos]];
    FlattenSnoc(cuts, grown);
    assert Flatten(cuts + [grown]) + [] == file[..pos + 1];
    assert AllCuts(cuts + [grown], fires) by {
      forall k | 0 <= k < |cuts + [grown]| ensures IsCut((cuts + [grown])[k], fires) {
        if k < |cuts| {
          assert (cuts + [grown])[k] == cuts[k];
        }
      }
    }
  }

  /** One byte of the loop when the rule does not fire: the byte stays in
      the current chunk. */
  lemma LoopKeep(file: seq<Byte>, pos: nat, cuts: seq<seq<Byte>>, buf: seq<Byte>, fires: Fires)
    requires LoopState(file, pos, cuts, buf, fires) && pos < |file|
    requires !fires(buf + [file[pos]])
    ensures LoopState(file, pos + 1, cuts, buf + [file[pos]], fires)
  {
    var grown := buf + [file[pos]];
    assert grown[..|buf| + 1] == grown;
    GrowUncut(buf, file[pos], fires);
    assert file[..pos + 1] == file[..pos] + [file[pos]];
    assert Flatten(cuts) + grown == (Flatten(cuts) + buf) + [file[pos]];
  }

  /** At the end of the file the chunks cut and the current chunk are the
      split of the file. */
  lemma LoopEnd(file: seq<Byte>, cuts: seq<seq<Byte>>, buf: seq<Byte>, fires: Fires)
    requires LoopState(file, |file|, cuts, buf, fires)
    ensures SplitOf(file, fires) == Split(cuts, buf)
    ensures Flatten(cuts) + buf == file
  {
    assert file[..|file|] == file;
    SplitUnique(file, cuts, buf, fires);
  }

  /** The message for one chunk: its hash and its wrapped key and IVs. */
  method EmitChunk(chunk: seq<Byte>, index: nat, processed: nat, fileKey: Key256,
                   draw: Draw, sha: Digest, aead: Aead) returns (m: WorkerMessage)
    ensures m == ChunkProgress(chunk, index, processed, fileKey, draw, sha, aead)
  {
    var hashHex := HexOf(sha(chunk));
    var wrapped := aead(fileKey, draw.wrapIv, draw.chunkKey);
    var wrappedB64 := Uint8ToBase64(wrapped);
    var wrapIvB64 := Uint8ToBase64(draw.wrapIv);
    var chunkIvB64 := Uint8ToBase64(draw.chunkIv);
    m := Progress(index, hashHex, |chunk|, processed, wrappedB64, wrapIvB64, chunkIvB64);
  }

  /** The test made after a byte joins the current chunk: it has reached the
      minimum size and the hash has no bit of the mask set, or it has
      reached the maximum size. */
  method AtBoundary(buf: seq<Byte>, gearHash: nat, p: CutParams, ghost fires: Fires) returns (cut: bool)
    requires gearHash == RollingHash(buf) && FollowsRule(fires, p)
    ensures cut == fires(buf)
  {
    cut := (|buf| >= p.minChunk && MaskTest(gearHash, p.mask)) || |buf| >= p.maxChunk;
    assert cut == CutRule(|buf|, RollingHash(buf), p);
  }

  /** The loop state after `pos` bytes together with the worker's running
      values: the hash of the current chunk, the number of chunks reported
      and the messages posted so far. */
  ghost predicate ScanState(file: seq<Byte>, pos: nat, cuts: seq<seq<Byte>>, buf: seq<Byte>,
                            gearHash: nat, chunkIndex: nat, msgs: seq<WorkerMessage>, fires: Fires,
                            fileKey: Key256, draws: nat -> Draw, sha: Digest, aead: Aead)
  {
    LoopState(file, pos, cuts, buf, fires) && gearHash == RollingHash(buf)
    && chunkIndex == |cuts| && msgs == ProgressMessages(cuts, fileKey, draws, sha, aead)
  }

  /** The body of the byte loop: the byte updates the hash and joins the
      current chunk; when the rule fires the chunk is reported and the hash,
      chunk and length reset. */
  method ScanByte(file: seq<Byte>, pos: nat, b: Byte, p: CutParams, fileKey: Key256,
                  draws: nat -> Draw, sha: Digest, aead: Aead,
                  buf0: seq<Byte>, gearHash0: nat, chunkIndex0: nat, msgs0: seq<WorkerMessage>,
                  ghost cuts0: seq<seq<Byte>>, ghost fires: Fires)
    returns (buf: seq<Byte>, gearHash: nat, chunkIndex: nat, msgs: seq<WorkerMessage>, ghost cuts: seq<seq<Byte>>)
    requires pos < |file| && b == file[pos] && FollowsRule(fires, p)
    requires ScanState(file, pos, cuts0, buf0, gearHash0, chunkIndex0, msgs0, fires, fileKey, draws, sha, aead)
    ensures ScanState(file, pos + 1, cuts, buf, gearHash, chunkIndex, msgs, fires, fileKey, draws, sha, aead)
  {
    RollingHashSnoc(buf0, b);
    gearHash := GearStep(gearHash0, b);
    buf := buf0 + [b];
    var cut := AtBoundary(buf, gearHash, p, fires);
    if cut {
      LoopCut(file, pos, cuts0, buf0, fires);
      var m := EmitChunk(buf, chunkIndex0, pos + 1, fileKey, draws(chunkIndex0), sha, aead);
      ProgressMessagesSnoc(cuts0, buf, pos + 1, fileKey, draws, sha, aead);
      msgs := msgs0 + [m];
      cuts := cuts0 + [buf];
      chunkIndex := chunkIndex0 + 1;
      buf := [];
      gearHash := 0;
    } else {
      LoopKeep(file, pos, cuts0, buf0, fires);
      msgs, cuts, chunkIndex := msgs0, cuts0, chunkIndex0;
    }
  }

  /** The inner loop of `processFileCDC` over one block `file[offset..end]`. */
  method ScanBlock(file: seq<Byte>, offset: nat, end: nat, p: CutParams, fileKey: Key256,
                   draws: nat -> Draw, sha: Digest, aead: Aead,
                   buf0: seq<Byte>, gearHash0: nat, chunkIndex0: nat, msgs0: seq<WorkerMessage>,
                   ghost cuts0: seq<seq<Byte>>, ghost fires: Fires)
    returns (buf: seq<Byte>, gearHash: nat, chunkIndex: nat, msgs: seq<WorkerMessage>, ghost cuts: seq<seq<Byte>>)
    requires offset <= end <= |file| && FollowsRule(fires, p)
    requires ScanState(file, offset, cuts0, buf0, gearHash0, chunkIndex0, msgs0, fires, fileKey, draws, sha, aead)
    ensures ScanState(file, end, cuts, buf, gearHash, chunkIndex, msgs, fires, fileKey, draws, sha, aead)
  {
    buf, gearHash, chunkIndex, msgs, cuts := buf0, gearHash0, chunkIndex0, msgs0, cuts0;
    var block := file[offset..end];
    for i := 0 to |block|
      invariant ScanState(file, offset + i, cuts, buf, gearHash, chunkIndex, msgs, fires, fileKey, draws, sha, aead)
    {
      var b := block[i];
      buf, gearHash, chunkIndex, msgs, cuts :=
        ScanByte(file, offset + i, b, p, fileKey, draws, sha, aead, buf, gearHash, chunkIndex, msgs, cuts, fires);
    }
  }

  /** `processFileCDC`: the file is read in blocks of `blockSize` bytes; the
      hash, the current chunk and its length carry across blocks and reset
      after every cut; a non-empty trailing chunk is reported at the end,
      then `done`. What it posts is the message list of the split, whatever
      the block size. */
  method ProcessFileCDC(file: seq<Byte>, cfg: Config, fileKey: Key256, draws: nat -> Draw,
                        sha: Digest, aead: Aead, blockSize: nat) returns (msgs: seq<WorkerMessage>)
    requires blockSize > 0
    ensures msgs == CdcMessages(file, cfg, fileKey, draws, sha, aead)
  {
    var maskBits := MaskBits(cfg.avgChunk);
    var mask := Mask(maskBits);
    var p := CutParams(cfg.minChunk, cfg.maxChunk, ToUint32(mask));
    assert p == ParamsOf(cfg);
    BoundaryFollowsRule(p);
    var offset := 0;
    var buf: seq<Byte> := [];
    var chunkIndex := 0;
    var gearHash: nat := 0;
    ghost var cuts: seq<seq<Byte>> := [];
    msgs := [];
    ghost var fires := Boundary(p);
    LoopStart(file, fires);
    while offset < |file|
      invariant ScanState(file, offset, cuts, buf, gearHash, chunkIndex, msgs, fires, fileKey, draws, sha, aead)
      decreases |file| - offset
    {
      var end := Min(offset + blockSize, |file|);
      buf, gearHash, chunkIndex, msgs, cuts :=
        ScanBlock(file, offset, end, p, fileKey, draws, sha, aead, buf, gearHash, chunkIndex, msgs, cuts, fires);
      offset := end;
    }
    LoopEnd(file, cuts, buf, fires);
    if |buf| > 0 {
      var m := EmitChunk(buf, chunkIndex, |file|, fileKey, draws(chunkIndex), sha, aead);
      FlattenSnoc(cuts, buf);
      ProgressMessagesSnoc(cuts, buf, |file|, fileKey, draws, sha, aead);
      msgs := msgs + [m];
      chunkIndex := chunkIndex + 1;
      assert Chunks(file, fires) == cuts + [buf];
    } else {
      assert Chunks(file, fires) == cuts + [];
      assert cuts + [] == cuts;
    }
    msgs := msgs + [Done(chunkIndex)];
  }

  // ---------------------------------------------------------------------------
  // Wrapping the file key

  /** `importKey('raw', …, 'AES-GCM')` accepts 128-, 192- and 256-bit keys. */
  predicate IsAesKeyLength(n: nat) {
    n == 16 || n == 24 || n == 32
  }

  /** The reply to a wrap request: an error when no file key has been drawn
      yet; the exception of `atob` on a master key that is not base64; the
      exception of `importKey` on a master key of the wrong length; otherwise
      the file key sealed under the master key with the fresh 12-byte IV,
      both in base64. */
  function WrapReply(fileKeyRaw: Option<Key256>, masterKey: string, wrapIv: Iv96, aead: Aead): (m: WorkerMessage)
    ensures fileKeyRaw.None? ==> m == Error(NO_FILE_KEY)
    ensures fileKeyRaw.Some? && ForgivingDecode(masterKey).None? ==> m == Error(INVALID_CHARACTER)
    ensures m.WrappedFileKey? <==>
      fileKeyRaw.Some? && ForgivingDecode(masterKey).Some? && IsAesKeyLength(|ForgivingDecode(masterKey).value|)
    ensures !m.WrappedFileKey? ==> m.Error?
    ensures m.WrappedFileKey? ==>
      && ForgivingDecode(m.wrappedFileKey) == Some(aead(ForgivingDecode(masterKey).value, wrapIv, fileKeyRaw.value))
      && ForgivingDecode(m.wrapIv) == Some(wrapIv)
  {
    if fileKeyRaw.None? then Error(NO_FILE_KEY)
    else match ForgivingDecode(masterKey)
      case None => Error(INVALID_CHARACTER)
      case Some(master) =>
        if !IsAesKeyLength(|master|) then Error(DATA_ERROR)
        else
          var wrapped := aead(master, wrapIv, fileKeyRaw.value);
          Base64RoundTrip(wrapped);
          Base64RoundTrip(wrapIv);
          WrappedFileKey(Base64Encode(wrapped), Base64Encode(wrapIv))
  }

  /** A message the worker receives. `file` is `None` when it is missing or
      not file-like (no numeric `size`, no `slice` method); any other
      message type is ignored. */
  datatype Request =
    | WrapFileKeyRequest(masterKey: string)
    | ChunkFileRequest(file: Option<seq<Byte>>, minChunk: Js.Value, avgChunk: Js.Value, maxChunk: Js.Value)
    | OtherRequest

  /** The worker: the raw file key of the last chunking run, kept for a
      later wrap request, and the messages posted so far. */
  class Worker {
    var fileKeyRaw: Option<Key256>
    var posted: seq<WorkerMessage>

    constructor ()
      ensures fileKeyRaw == None && posted == []
    {
      fileKeyRaw := None;
      posted := [];
    }

    /** `handleWrapFileKey`. */
    method HandleWrapFileKey(masterKey: string, wrapIv: Iv96, aead: Aead)
      modifies this
      ensures fileKeyRaw == old(fileKeyRaw)
      ensures posted == old(posted) + [WrapReply(fileKeyRaw, masterKey, wrapIv, aead)]
    {
      if fileKeyRaw.None? {
        posted := posted + [Error(NO_FILE_KEY)];
        return;
      }
      var masterRaw := Base64ToUint8(masterKey);
      if masterRaw.None? {
        posted := posted + [Error(INVALID_CHARACTER)];
        return;
      }
      if !IsAesKeyLength(|masterRaw.value|) {
        posted := posted + [Error(DATA_ERROR)];
        return;
      }
      var wrapped := aead(masterRaw.value, wrapIv, fileKeyRaw.value);
      var wrappedB64 := Uint8ToBase64(wrapped);
      var wrapIvB64 := Uint8ToBase64(wrapIv);
      posted := posted + [WrappedFileKey(wrappedB64, wrapIvB64)];
    }

    /** The `chunkFile` request: a missing or non-file value is refused;
      otherwise the configuration is normalised, a fresh file key replaces
      the previous one and the file is chunked. */
    method HandleChunkFile(file: Option<seq<Byte>>, minIn: Js.Value, avgIn: Js.Value, maxIn: Js.Value,
                           fileKey: Key256, draws: nat -> Draw, sha: Digest, aead: Aead)
      modifies this
      ensures file.None? ==> fileKeyRaw == old(fileKeyRaw) && posted == old(posted) + [Error(INVALID_FILE)]
      ensures file.Some? ==>
        && fileKeyRaw == Some(fileKey)
        && posted == old(posted)
           + CdcMessages(file.value, NormaliseConfig(minIn, avgIn, maxIn), fileKey, draws, sha, aead)
    {
      if file.None? {
        posted := posted + [Error(INVALID_FILE)];
        return;
      }
      var cfg := NormaliseConfig(minIn, avgIn, maxIn);
      fileKeyRaw := Some(fileKey);
      var msgs := ProcessFileCDC(file.value, cfg, fileKey, draws, sha, aead, READER_CHUNK);
      posted := posted + msgs;
    }

    /** The message listener: dispatch on the request type. The random file
        key, chunk draws and wrap IV are the values the random source would
        give this request. */
    method OnMessage(req: Request, fileKey: Key256, draws: nat -> Draw, wrapIv: Iv96, sha: Digest, aead: Aead)
      modifies this
      ensures req.WrapFileKeyRequest? ==>
        fileKeyRaw == old(fileKeyRaw)
        && posted == old(posted) + [WrapReply(fileKeyRaw, req.masterKey, wrapIv, aead)]
      ensures req.ChunkFileRequest? && req.file.None? ==>
        fileKeyRaw == old(fileKeyRaw) && posted == old(posted) + [Error(INVALID_FILE)]
      ensures req.ChunkFileRequest? && req.file.Some? ==>
        && fileKeyRaw == Some(fileKey)
        && posted == old(posted)
           + CdcMessages(req.file.value, NormaliseConfig(req.minChunk, req.avgChunk, req.maxChunk),
                         fileKey, draws, sha, aead)
      ensures req.OtherRequest? ==> fileKeyRaw == old(fileKeyRaw) && posted == old(posted)
    {
      match req
      case WrapFileKeyRequest(masterKey) =>
        HandleWrapFileKey(masterKey, wrapIv, aead);
      case ChunkFileRequest(file, minIn, avgIn, maxIn) =>
        HandleChunkFile(file, minIn, avgIn, maxIn, fileKey, draws, sha, aead);
      case OtherRequest =>
    }
  }

  /** A wrap request before any chunking run gets the no-key error; after a
      run, the key it wraps is the file key under which that run wrapped
      every chunk key. */
  lemma WrapAfterChunking(file: seq<Byte>, cfg: Config, fileKey: Key256, draws: nat -> Draw,
                          sha: Digest, aead: Aead, masterKey: string, wrapIv: Iv96, k: nat)
    requires ForgivingDecode(masterKey).Some? && IsAesKeyLength(|ForgivingDecode(masterKey).value|)
    requires k < |CdcMessages(file, cfg, fileKey, draws, sha, aead)| - 1
    ensures WrapReply(None, masterKey, wrapIv, aead) == Error(NO_FILE_KEY)
    ensures var r := WrapReply(Some(fileKey), masterKey, wrapIv, aead);
      var m := CdcMessages(file, cfg, fileKey, draws, sha, aead)[k];
      && r.WrappedFileKey?
      && ForgivingDecode(r.wrappedFileKey) == Some(aead(ForgivingDecode(masterKey).value, wrapIv, fileKey))
      && m.Progress?
      && ForgivingDecode(m.wrappedChunkKey) == Some(aead(fileKey, draws(k).wrapIv, draws(k).chunkKey))
  {
    ghost var fires := Boundary(ParamsOf(cfg));
    var chunks := Chunks(file, fires);
    var progress := ProgressMessages(chunks, fileKey, draws, sha, aead);
    assert CdcMessages(file, cfg, fileKey, draws, sha, aead)[k] == progress[k];
    ChunkKeyAt(chunks, k, fileKey, draws, sha, aead);
  }

  /** The message for chunk `k` carries the chunk key of draw `k` wrapped
      under the file key. */
  lemma ChunkKeyAt(chunks: seq<seq<Byte>>, k: nat, fileKey: Key256, draws: nat -> Draw, sha: Digest, aead: Aead)
    requires k < |chunks|
    ensures var m := ProgressMessages(chunks, fileKey, draws, sha, aead)[k];
      m.Progress? && ForgivingDecode(m.wrappedChunkKey) == Some(aead(fileKey, draws(k).wrapIv, draws(k).chunkKey))
  {
    var e := |Flatten(chunks[..k + 1])|;
    assert ProgressMessages(chunks, fileKey, draws, sha, aead)[k]
      == ChunkProgress(chunks[k], k, e, fileKey, draws(k), sha, aead);
    ProgressDecodes(chunks[k], k, e, fileKey, draws(k), sha, aead);
  }
}
