/** The benchmark's deterministic file and the range it expects back, computed without the file. */
module ByteRanges {
  import opened Bytes
  import opened Sizes

  const PNG_SIGNATURE: seq<Byte> := [137, 80, 78, 71, 13, 10, 26, 10]

  function FillByte(index: nat): Byte {
    ((index * 73 + 19) % 256) as Byte
  }

  /** Chunk `index`: one repeated byte, and in the first chunk, when it has room, a PNG signature. */
  function Chunk(size: nat, index: nat): seq<Byte> {
    seq(size, k requires 0 <= k < size =>
      if index == 0 && size >= 8 && k < 8 then PNG_SIGNATURE[k] else FillByte(index))
  }

  /** The size of chunk `index` of a file. */
  function ChunkSize(fileBytes: nat, chunkBytes: nat, index: nat): nat
    requires index * chunkBytes <= fileBytes
  {
    Min(chunkBytes, fileBytes - index * chunkBytes)
  }

  /** Everything from chunk `index` on. */
  function FileFrom(fileBytes: nat, chunkBytes: nat, index: nat): (f: seq<Byte>)
    requires chunkBytes > 0 && index * chunkBytes <= fileBytes
    ensures |f| == fileBytes - index * chunkBytes
    decreases fileBytes - index * chunkBytes
  {
    if index * chunkBytes == fileBytes then []
    else if (index + 1) * chunkBytes >= fileBytes then Chunk(fileBytes - index * chunkBytes, index)
    else Chunk(chunkBytes, index) + FileFrom(fileBytes, chunkBytes, index + 1)
  }

  method DeterministicChunk(size: int, index: int) returns (ok: bool, chunk: array<Byte>)
    ensures ok <==> size > 0 && index >= 0
    ensures ok ==> chunk[..] == Chunk(size, index)
    ensures fresh(chunk)
  {
    if size <= 0 || index < 0 {
      chunk := new Byte[0];
      return false, chunk;
    }
    var value := FillByte(index);
    chunk := new Byte[size](_ => value);
    if index == 0 && size >= 8 {
      forall k | 0 <= k < 8 { chunk[k] := PNG_SIGNATURE[k]; }
    }
    ok := true;
  }

  /** `Math.ceil` of the quotient. */
  function ChunkCount(fileBytes: nat, chunkBytes: nat): nat
    requires chunkBytes > 0
  {
    (fileBytes + chunkBytes - 1) / chunkBytes
  }

  lemma CountBounds(fileBytes: nat, chunkBytes: nat)
    requires chunkBytes > 0 && fileBytes > 0
    ensures var n := ChunkCount(fileBytes, chunkBytes);
            n > 0 && (n - 1) * chunkBytes < fileBytes <= n * chunkBytes
  {
    var n := ChunkCount(fileBytes, chunkBytes);
    var r := (fileBytes + chunkBytes - 1) % chunkBytes;
    assert fileBytes + chunkBytes - 1 == n * chunkBytes + r;
    assert (n - 1) * chunkBytes == n * chunkBytes - chunkBytes;
  }

  lemma Before(index: nat, count: nat, chunkBytes: nat)
    requires index <= count
    ensures index * chunkBytes <= count * chunkBytes
    ensures (index + 1) * chunkBytes == index * chunkBytes + chunkBytes
  {
  }

  /** How much of the file is behind the loop when it is about to send chunk `index`. */
  function Behind(fileBytes: nat, chunkBytes: nat, index: nat): nat
    requires chunkBytes > 0
  {
    if index < ChunkCount(fileBytes, chunkBytes) then index * chunkBytes else fileBytes
  }

  /** What is still ahead of it. */
  function Ahead(fileBytes: nat, chunkBytes: nat, index: nat): seq<Byte>
    requires chunkBytes > 0
  {
    if index * chunkBytes < fileBytes then FileFrom(fileBytes, chunkBytes, index) else []
  }

  lemma UploadStep(fileBytes: nat, chunkBytes: nat, index: nat)
    requires fileBytes > 0 && chunkBytes > 0 && index < ChunkCount(fileBytes, chunkBytes)
    ensures index * chunkBytes < fileBytes && 0 < ChunkSize(fileBytes, chunkBytes, index) <= chunkBytes
    ensures Behind(fileBytes, chunkBytes, index + 1) == index * chunkBytes + ChunkSize(fileBytes, chunkBytes, index)
    ensures Ahead(fileBytes, chunkBytes, index)
            == Chunk(ChunkSize(fileBytes, chunkBytes, index), index) + Ahead(fileBytes, chunkBytes, index + 1)
  {
    var total := ChunkCount(fileBytes, chunkBytes);
    CountBounds(fileBytes, chunkBytes);
    Before(index, total - 1, chunkBytes);
    Before(index + 1, total, chunkBytes);
    if index + 1 < total { Before(index + 1, total - 1, chunkBytes); }
  }

  lemma NothingAhead(fileBytes: nat, chunkBytes: nat)
    requires fileBytes > 0 && chunkBytes > 0
    ensures Ahead(fileBytes, chunkBytes, ChunkCount(fileBytes, chunkBytes)) == []
    ensures ChunkCount(fileBytes, chunkBytes) > 0
  {
    CountBounds(fileBytes, chunkBytes);
  }

  /** The upload loop: its chunks, put together, are the file, and none is empty. */
  method UploadChunks(fileBytes: nat, chunkBytes: nat) returns (sent: seq<Byte>, sizes: seq<nat>)
    requires fileBytes > 0 && chunkBytes > 0
    ensures sent == FileFrom(fileBytes, chunkBytes, 0)
    ensures |sizes| == ChunkCount(fileBytes, chunkBytes) && Sum(sizes) == fileBytes
    ensures forall n :: n in sizes ==> 0 < n <= chunkBytes
  {
    var total := ChunkCount(fileBytes, chunkBytes);
    NothingAhead(fileBytes, chunkBytes);
    sent, sizes := [], [];
    for index := 0 to total
      invariant Sum(sizes) == Behind(fileBytes, chunkBytes, index)
      invariant sent + Ahead(fileBytes, chunkBytes, index) == FileFrom(fileBytes, chunkBytes, 0)
      invariant |sizes| == index && forall n :: n in sizes ==> 0 < n <= chunkBytes
    {
      UploadStep(fileBytes, chunkBytes, index);
      var size := ChunkSize(fileBytes, chunkBytes, index);
      var ok, payload := DeterministicChunk(size, index);
      SumAppend(sizes, size);
      sent := sent + payload[..];
      sizes := sizes + [size];
    }
  }

  // ---------------------------------------------------------------- the expected range

  /** The byte the range computation expects at a position of the file. */
  function ExpectedByte(position: nat, chunkBytes: nat): Byte
    requires chunkBytes > 0
  {
    FillByte(position / chunkBytes)
  }

  /** A stretch inside one chunk expects that chunk's byte. */
  lemma StretchInChunk(cursor: nat, take: nat, chunkBytes: nat)
    requires chunkBytes > 0 && take <= chunkBytes - cursor % chunkBytes
    ensures forall position :: cursor <= position < cursor + take ==>
              ExpectedByte(position, chunkBytes) == FillByte(cursor / chunkBytes)
  {
    var index, offset := cursor / chunkBytes, cursor % chunkBytes;
    forall position | cursor <= position < cursor + take ensures position / chunkBytes == index {
      SameChunk(position, index, offset + (position - cursor), chunkBytes);
    }
  }

  /** The loop over the chunks the range touches; every turn takes at least a byte. */
  method ExpectedRange(start: nat, end: nat, chunkBytes: nat) returns (result: array<Byte>)
    requires start <= end && chunkBytes > 0
    ensures fresh(result) && result.Length == end - start + 1
    ensures forall k :: 0 <= k < result.Length ==> result[k] == ExpectedByte(start + k, chunkBytes)
  {
    result := new Byte[end - start + 1];
    var outputOffset, cursor := 0, start;
    while cursor <= end
      invariant cursor == start + outputOffset && cursor <= end + 1
      invariant forall k :: 0 <= k < outputOffset ==> result[k] == ExpectedByte(start + k, chunkBytes)
      decreases end + 1 - cursor
    {
      var chunkIndex := cursor / chunkBytes;
      var offsetInChunk := cursor % chunkBytes;
      var take := Min(end - cursor + 1, chunkBytes - offsetInChunk);
      StretchInChunk(cursor, take, chunkBytes);
      forall k | outputOffset <= k < outputOffset + take { result[k] := FillByte(chunkIndex); }
      cursor := cursor + take;
      outputOffset := outputOffset + take;
    }
  }

  /** A position is in the chunk it is an offset into. */
  lemma SameChunk(position: nat, index: nat, offset: nat, chunkBytes: nat)
    requires chunkBytes > 0 && position == index * chunkBytes + offset && offset < chunkBytes
    ensures position / chunkBytes == index
  {
    var q, r := position / chunkBytes, position % chunkBytes;
    assert position == q * chunkBytes + r;
    if q < index {
      Before(q + 1, index, chunkBytes);
      Before(q, index, chunkBytes);
    } else if q > index {
      Before(index + 1, q, chunkBytes);
      Before(index, q, chunkBytes);
    }
  }

  /** The file's byte at a position: the signature at its start, when the first chunk has room. */
  function FileByte(fileBytes: nat, chunkBytes: nat, position: nat): Byte
    requires chunkBytes > 0
  {
    if position < 8 && Min(chunkBytes, fileBytes) >= 8 then PNG_SIGNATURE[position]
       else ExpectedByte(position, chunkBytes)
  }

  lemma ChunkByte(fileBytes: nat, chunkBytes: nat, index: nat, size: nat, k: nat)
    requires chunkBytes > 0 && index * chunkBytes < fileBytes && size == ChunkSize(fileBytes, chunkBytes, index)
             && k < size
    ensures Chunk(size, index)[k] == FileByte(fileBytes, chunkBytes, index * chunkBytes + k)
  {
    SameChunk(index * chunkBytes + k, index, k, chunkBytes);
    if index > 0 { Before(1, index, chunkBytes); }
  }

  lemma {:induction false} FileBytesAre(fileBytes: nat, chunkBytes: nat, index: nat, k: nat)
    requires chunkBytes > 0 && index * chunkBytes <= fileBytes && k < fileBytes - index * chunkBytes
    ensures FileFrom(fileBytes, chunkBytes, index)[k] == FileByte(fileBytes, chunkBytes, index * chunkBytes + k)
    decreases fileBytes - index * chunkBytes
  {
    Before(index, index + 1, chunkBytes);
    if (index + 1) * chunkBytes >= fileBytes {
      ChunkByte(fileBytes, chunkBytes, index, fileBytes - index * chunkBytes, k);
    } else if k < chunkBytes {
      ChunkByte(fileBytes, chunkBytes, index, chunkBytes, k);
    } else {
      FileBytesAre(fileBytes, chunkBytes, index + 1, k - chunkBytes);
    }
  }

  /** What `ExpectedRange` computes, as a sequence. */
  function Expected(start: nat, end: nat, chunkBytes: nat): seq<Byte>
    requires start <= end && chunkBytes > 0
  {
    seq(end - start + 1, k requires 0 <= k < end - start + 1 => ExpectedByte(start + k, chunkBytes))
  }

  /** The expected range is that slice of the uploaded file if and only if it does not touch the
      signature: it starts at 8 or later, or the first chunk is too small to carry one. */
  lemma RangeIsSlice(fileBytes: nat, chunkBytes: nat, start: nat, end: nat)
    requires chunkBytes > 0 && start <= end < fileBytes
    ensures Expected(start, end, chunkBytes) == FileFrom(fileBytes, chunkBytes, 0)[start..end + 1]
            <==> start >= 8 || Min(chunkBytes, fileBytes) < 8
  {
    var file := FileFrom(fileBytes, chunkBytes, 0);
    var slice, expected := file[start..end + 1], Expected(start, end, chunkBytes);
    forall k | 0 <= k < end - start + 1 ensures slice[k] == FileByte(fileBytes, chunkBytes, start + k) {
      FileBytesAre(fileBytes, chunkBytes, 0, start + k);
    }
    if start >= 8 || Min(chunkBytes, fileBytes) < 8 {
      assert expected == slice;
    } else {
      SameChunk(start, 0, start, chunkBytes);
      assert slice[0] == PNG_SIGNATURE[start] != 19;
      assert expected[0] == 19;
    }
  }
}
