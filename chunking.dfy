/** The chunked copy of a large incoming buffer: a buffer longer than
    five chunks is split into chunk-sized byte ranges, each range is
    copied into a fresh buffer at its own offset in whatever order the
    scheduler runs the copies, and the copy is handed back once every
    chunk is in. Smaller buffers are handed back as they are. */
module Chunking {

  newtype byte = x: int | 0 <= x < 256

  /** 1 MiB. */
  const CHUNK_SIZE: nat := 1024 * 1024

  /** Buffers longer than this many chunks are copied chunk by chunk. */
  const THRESHOLD_CHUNKS: nat := 5

  /** `Math.ceil(len / chunkSize)`. */
  function ChunkCount(len: nat, chunkSize: nat): (chunks: nat)
    requires chunkSize > 0
    ensures len <= chunks * chunkSize
    ensures chunks > 0 ==> (chunks - 1) * chunkSize < len
  {
    if len % chunkSize == 0 then len / chunkSize else len / chunkSize + 1
  }

  function ChunkStart(i: nat, chunkSize: nat): (start: nat) {
    i * chunkSize
  }

  /** `Math.min(start + chunkSize, len)`. */
  function ChunkEnd(i: nat, chunkSize: nat, len: nat): (stop: nat) {
    if i * chunkSize + chunkSize < len then i * chunkSize + chunkSize else len
  }

  lemma MulMonotone(a: nat, b: nat, c: nat)
    requires a <= b
    ensures a * c <= b * c
  {
  }

  /** Different chunks' byte ranges do not overlap. */
  lemma ChunksDisjoint(len: nat, chunkSize: nat, i: nat, j: nat)
    requires chunkSize > 0 && i < j
    ensures ChunkEnd(i, chunkSize, len) <= ChunkStart(j, chunkSize)
  {
    MulMonotone(i + 1, j, chunkSize);
  }

  /** Every byte of the buffer falls in a chunk's range: the one numbered
      by its offset divided by the chunk size. */
  lemma ChunksCover(len: nat, chunkSize: nat, p: nat)
    requires chunkSize > 0 && p < len
    ensures p / chunkSize < ChunkCount(len, chunkSize)
    ensures ChunkStart(p / chunkSize, chunkSize) <= p < ChunkEnd(p / chunkSize, chunkSize, len)
  {
    var i, chunks := p / chunkSize, ChunkCount(len, chunkSize);
    assert i * chunkSize <= p < i * chunkSize + chunkSize;
    if chunks <= i {
      MulMonotone(chunks, i, chunkSize);
    }
  }

  /** A byte lies in no range other than that of its own chunk. */
  lemma ChunkOfByte(len: nat, chunkSize: nat, i: nat, p: nat)
    requires chunkSize > 0
    requires ChunkStart(i, chunkSize) <= p < ChunkEnd(i, chunkSize, len)
    ensures p / chunkSize == i
  {
    var j := p / chunkSize;
    assert j * chunkSize <= p < j * chunkSize + chunkSize;
    if j < i {
      ChunksDisjoint(len, chunkSize, j, i);
    } else if i < j {
      ChunksDisjoint(len, chunkSize, i, j);
    }
  }

  /** The chunk numbers `0 .. chunks - 1`. */
  function ChunkIndices(chunks: nat): (r: set<nat>)
    ensures forall i :: i in r <==> 0 <= i < chunks
    ensures |r| == chunks
  {
    if chunks == 0 then {}
    else
      assert chunks - 1 !in ChunkIndices(chunks - 1);
      ChunkIndices(chunks - 1) + {chunks - 1}
  }

  /** Every byte of `buffer` whose chunk is in `done` equals the input's. */
  ghost predicate ChunksCopied(buffer: seq<byte>, data: seq<byte>, chunkSize: nat, done: set<nat>)
    requires chunkSize > 0 && |buffer| == |data|
  {
    forall p :: 0 <= p < |data| && p / chunkSize in done ==> buffer[p] == data[p]
  }

  /** Copying chunk `i`'s range adds chunk `i` to the copied ones and
      leaves the others' bytes as they were. */
  lemma CopyChunkStep(before: seq<byte>, after: seq<byte>, data: seq<byte>,
                      chunkSize: nat, done: set<nat>, i: nat)
    requires chunkSize > 0 && |before| == |after| == |data|
    requires ChunksCopied(before, data, chunkSize, done)
    requires forall p :: 0 <= p < |data| ==>
      after[p] == if ChunkStart(i, chunkSize) <= p < ChunkEnd(i, chunkSize, |data|) then data[p] else before[p]
    ensures ChunksCopied(after, data, chunkSize, done + {i})
  {
  }

  /** Once every chunk is copied the buffer equals the input. */
  lemma AllChunksCopied(buffer: seq<byte>, data: seq<byte>, chunkSize: nat)
    requires chunkSize > 0 && |buffer| == |data|
    requires ChunksCopied(buffer, data, chunkSize, ChunkIndices(ChunkCount(|data|, chunkSize)))
    ensures buffer == data
  {
    forall p | 0 <= p < |data| ensures buffer[p] == data[p] {
      ChunksCover(|data|, chunkSize, p);
    }
  }

  /** The copy requested for a large buffer. The per-chunk copies run in an
      arbitrary order; `copies` counts them, and the result is handed back
      after the last one. */
  method ProcessEpubFile(fileData: array<byte>, chunkSize: nat := CHUNK_SIZE)
    returns (result: array<byte>, ghost copies: nat)
    requires chunkSize > 0
    ensures result[..] == fileData[..]
    ensures fileData.Length <= THRESHOLD_CHUNKS * chunkSize ==> result == fileData && copies == 0
    ensures fileData.Length > THRESHOLD_CHUNKS * chunkSize ==>
      fresh(result) && copies == ChunkCount(fileData.Length, chunkSize)
  {
    if fileData.Length <= THRESHOLD_CHUNKS * chunkSize {
      return fileData, 0;
    }
    var len := fileData.Length;
    var chunks := ChunkCount(len, chunkSize);
    var buffer := new byte[len];
    var pending := ChunkIndices(chunks);
    ghost var done: set<nat> := {};
    var processedChunks := 0;
    while pending != {}
      invariant pending + done == ChunkIndices(chunks) && pending !! done
      invariant buffer.Length == len
      invariant processedChunks + |pending| == chunks
      invariant ChunksCopied(buffer[..], fileData[..], chunkSize, done)
      decreases |pending|
    {
      var i :| i in pending;
      var start, end := ChunkStart(i, chunkSize), ChunkEnd(i, chunkSize, len);
      ghost var before := buffer[..];
      forall p | start <= p < end {
        buffer[p] := fileData[p];
      }
      CopyChunkStep(before, buffer[..], fileData[..], chunkSize, done, i);
      pending, done := pending - {i}, done + {i};
      processedChunks := processedChunks + 1;
    }
    AllChunksCopied(buffer[..], fileData[..], chunkSize);
    result, copies := buffer, processedChunks;
  }
}
