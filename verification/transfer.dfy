/** The download loop: the remote backup is read in chunks of at most 2048
    bytes until a read comes back empty; each chunk is written to the local
    file, flushed, fed to the MD5 accumulator, and counted as 2048 bytes in
    the progress counter. The remote file, the local file and the hash
    object are the three objects the loop changes. */
module Transfer {

  newtype byte = b: int | 0 <= b < 256

  const ChunkSize := 2048

  function Min(a: nat, b: nat): nat
  {
    if a <= b then a else b
  }

  /** The remote backup opened for sequential reading. */
  class RemoteFile {
    const content: seq<byte>
    var position: nat

    ghost predicate Valid()
      reads this
    {
      position <= |content|
    }

    constructor Open(content: seq<byte>)
      ensures Valid() && this.content == content && position == 0
    {
      this.content := content;
      position := 0;
    }

    /** `read(size)`: the next `size` bytes, fewer only at the end of the
        file, none once the end has been reached. */
    method Read(size: nat) returns (data: seq<byte>)
      requires Valid()
      modifies this
      ensures Valid()
      ensures data == content[old(position)..Min(old(position) + size, |content|)]
      ensures position == old(position) + |data|
    {
      var stop := Min(position + size, |content|);
      data := content[position..stop];
      position := stop;
    }
  }

  /** The local destination file, opened for writing (and so truncated).
      `flushed` counts the bytes handed to the operating system; `writes` is the
      sequence of buffers handed to `write`. */
  class LocalFile {
    var contents: seq<byte>
    var flushed: nat
    ghost var writes: seq<seq<byte>>

    ghost predicate Valid()
      reads this
    {
      flushed <= |contents|
    }

    constructor Create()
      ensures Valid() && contents == [] && flushed == 0 && writes == []
    {
      contents := [];
      flushed := 0;
      writes := [];
    }

    method Write(data: seq<byte>)
      requires Valid()
      modifies this
      ensures Valid()
      ensures contents == old(contents) + data && flushed == old(flushed)
      ensures writes == old(writes) + [data]
    {
      contents := contents + data;
      writes := writes + [data];
    }

    method Flush()
      requires Valid()
      modifies this
      ensures Valid()
      ensures contents == old(contents) && flushed == |contents| && writes == old(writes)
    {
      flushed := |contents|;
    }

    /** The bytes handed to the operating system by `flush`; nothing
        here models `fsync` or what reaches the disk. */
    function Flushed(): seq<byte>
      reads this
      requires Valid()
    {
      contents[..flushed]
    }
  }

  /** `hashlib.md5()`: the accumulator keeps the bytes fed to it; the digest
      is a function of those bytes, taken as a parameter of the model. */
  class Md5Accumulator {
    const digestOf: seq<byte> -> string
    var fed: seq<byte>

    constructor (digestOf: seq<byte> -> string)
      ensures this.digestOf == digestOf && fed == []
    {
      this.digestOf := digestOf;
      fed := [];
    }

    method Update(data: seq<byte>)
      modifies this
      ensures fed == old(fed) + data
    {
      fed := fed + data;
    }

    function HexDigest(): string
      reads this
    {
      digestOf(fed)
    }
  }

  /** The chunks that successive `read(2048)` calls return for `data`,
      the final empty read left out. */
  function Chunks(data: seq<byte>): seq<seq<byte>>
    decreases |data|
  {
    if data == [] then []
    else
      var n := Min(ChunkSize, |data|);
      [data[..n]] + Chunks(data[n..])
  }

  function Flatten(chunks: seq<seq<byte>>): seq<byte>
  {
    if chunks == [] then [] else chunks[0] + Flatten(chunks[1..])
  }

  /** The copy loop, from the first `read` to the one that comes back
      empty. Every source byte is written once, in order, in the chunks the
      reads return; every chunk is flushed before it is hashed, so the hash
      is fed exactly the bytes handed to the operating system; the counter grows by 2048 per
      chunk. */
  method CopyAndHash(source: RemoteFile, dest: LocalFile, md5: Md5Accumulator) returns (downloadedBits: nat)
    requires source.Valid() && source.position == 0
    requires dest.Valid() && dest.contents == [] && dest.writes == []
    requires md5.fed == []
    modifies source, dest, md5
    ensures source.Valid() && source.position == |source.content|
    ensures dest.Valid() && dest.contents == source.content && dest.flushed == |source.content|
    ensures dest.writes == Chunks(source.content)
    ensures md5.fed == dest.Flushed()
    ensures downloadedBits == ChunkSize * |Chunks(source.content)|
  {
    downloadedBits := 0;
    var data := source.Read(ChunkSize);
    ghost var done := 0;
    while data != []
      invariant source.Valid() && dest.Valid()
      invariant done + |data| == source.position
      invariant data == source.content[done..Min(done + ChunkSize, |source.content|)]
      invariant dest.contents == source.content[..done]
      invariant dest.flushed == done && md5.fed == dest.contents
      invariant dest.writes + Chunks(source.content[done..]) == Chunks(source.content)
      invariant downloadedBits == ChunkSize * |dest.writes|
      decreases |source.content| - done
    {
      ChunksAdvance(source.content, done, dest.writes);
      StoreChunk(dest, md5, data);
      downloadedBits := downloadedBits + ChunkSize;
      assert source.content[..done + |data|] == source.content[..done] + data;
      done := done + |data|;
      data := source.Read(ChunkSize);
    }
    assert source.content[done..] == [];
  }

  /** The body of the copy loop: write the chunk, flush it, then feed it to
      the hash. */
  method StoreChunk(dest: LocalFile, md5: Md5Accumulator, data: seq<byte>)
    requires dest.Valid() && dest.flushed == |dest.contents|
    modifies dest, md5
    ensures dest.Valid() && dest.contents == old(dest.contents) + data && dest.flushed == |dest.contents|
    ensures dest.writes == old(dest.writes) + [data]
    ensures md5.fed == old(md5.fed) + data
  {
    dest.Write(data);
    dest.Flush();
    md5.Update(data);
  }

  /** Once the chunks before `start` have been written, writing the next
      one leaves the chunks after it to be written. */
  lemma ChunksAdvance(content: seq<byte>, start: nat, written: seq<seq<byte>>)
    requires start < |content|
    requires written + Chunks(content[start..]) == Chunks(content)
    ensures var stop := Min(start + ChunkSize, |content|);
      (written + [content[start..stop]]) + Chunks(content[stop..]) == Chunks(content)
  {
    var stop := Min(start + ChunkSize, |content|);
    ChunksStep(content, start);
    assert (written + [content[start..stop]]) + Chunks(content[stop..])
        == written + ([content[start..stop]] + Chunks(content[stop..]));
  }

  /** Reading from `start` on: the next chunk, then the chunks of the rest. */
  lemma ChunksStep(content: seq<byte>, start: nat)
    requires start < |content|
    ensures Chunks(content[start..])
         == [content[start..Min(start + ChunkSize, |content|)]] + Chunks(content[Min(start + ChunkSize, |content|)..])
  {
    var rest := content[start..];
    var stop := Min(start + ChunkSize, |content|);
    assert rest[..stop - start] == content[start..stop];
    assert rest[stop - start..] == content[stop..];
  }

  /** Writing the chunks one after another reproduces the data exactly. */
  lemma {:induction false} ChunksReassemble(data: seq<byte>)
    ensures Flatten(Chunks(data)) == data
    decreases |data|
  {
    if data != [] {
      var n := Min(ChunkSize, |data|);
      ChunksReassemble(data[n..]);
      var chunks := Chunks(data);
      assert chunks[0] == data[..n] && chunks[1..] == Chunks(data[n..]);
      assert data == data[..n] + data[n..];
    }
  }

  /** No chunk is empty and none is longer than 2048 bytes. */
  lemma {:induction false} ChunkSizes(data: seq<byte>)
    ensures forall i :: 0 <= i < |Chunks(data)| ==> 0 < |Chunks(data)[i]| <= ChunkSize
    decreases |data|
  {
    if data != [] {
      var n := Min(ChunkSize, |data|);
      ChunkSizes(data[n..]);
      assert Chunks(data)[1..] == Chunks(data[n..]);
    }
  }

  /** Every chunk but the last is a full 2048 bytes. */
  lemma {:induction false} ChunksFullButLast(data: seq<byte>)
    ensures forall i :: 0 <= i < |Chunks(data)| - 1 ==> |Chunks(data)[i]| == ChunkSize
    decreases |data|
  {
    if data != [] {
      var n := Min(ChunkSize, |data|);
      ChunksFullButLast(data[n..]);
      var chunks := Chunks(data);
      assert chunks[1..] == Chunks(data[n..]);
      if |chunks| > 1 {
        assert data[n..] != [];
      }
    }
  }

  /** There are as many chunks as 2048-byte blocks needed to hold the data. */
  lemma {:induction false} ChunkCount(data: seq<byte>)
    ensures |Chunks(data)| == (|data| + ChunkSize - 1) / ChunkSize
    decreases |data|
  {
    if data != [] {
      var n := Min(ChunkSize, |data|);
      ChunkCount(data[n..]);
      assert |data[n..]| == |data| - n;
      if |data| > ChunkSize {
        assert (|data| - ChunkSize + ChunkSize - 1) / ChunkSize + 1 == (|data| + ChunkSize - 1) / ChunkSize;
      }
    }
  }

  /** The progress counter ends at 2048 per chunk: never below the true
      size, and less than one chunk above it. It overshoots exactly when the
      size is not a multiple of 2048. */
  lemma DownloadedBitsBounds(data: seq<byte>)
    ensures |data| <= ChunkSize * |Chunks(data)| < |data| + ChunkSize
    ensures ChunkSize * |Chunks(data)| == |data| <==> |data| % ChunkSize == 0
  {
    ChunkCount(data);
  }

  /** A file shorter than one chunk is read in one piece (the 1000-byte
      backup of the end-to-end scenario). */
  lemma ShortFileIsOneChunk(data: seq<byte>)
    requires 0 < |data| <= ChunkSize
    ensures Chunks(data) == [data]
  {
    assert data[..|data|] == data;
    assert data[|data|..] == [];
  }
}
