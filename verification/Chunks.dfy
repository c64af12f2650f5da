/** Cutting a file into chunks, and folding over it chunk by chunk. */
module Chunks {
  import opened Wrappers

  type Byte = b: nat | b < 256

  /** Blob.slice: both ends are cut to the size. */
  function Slice(file: seq<Byte>, start: nat, end: nat): seq<Byte> {
    if start >= end || start >= |file| then [] else file[start..Min(|file|, end)]
  }

  function Chunk(file: seq<Byte>, chunkSize: nat, index: nat): seq<Byte> {
    Slice(file, index * chunkSize, Min(|file|, index * chunkSize + chunkSize))
  }

  function ChunkCount(size: nat, chunkSize: nat): nat
    requires 0 < chunkSize
  {
    (size + chunkSize - 1) / chunkSize
  }

  /** The first n pieces laid end to end. */
  function Joined(pieces: nat -> seq<Byte>, n: nat): seq<Byte> {
    if n == 0 then [] else Joined(pieces, n - 1) + pieces(n - 1)
  }

  lemma {:induction false} ChunksJoin(file: seq<Byte>, chunkSize: nat, n: nat, pieces: nat -> seq<Byte>)
    requires forall i: nat :: pieces(i) == Chunk(file, chunkSize, i)
    ensures Joined(pieces, n) == file[..Min(|file|, n * chunkSize)]
  {
    if n == 0 {
      assert 0 * chunkSize == 0;
    } else {
      ChunksJoin(file, chunkSize, n - 1, pieces);
      var start := (n - 1) * chunkSize;
      assert n * chunkSize == start + chunkSize;
      assert file[..Min(|file|, start)] + Chunk(file, chunkSize, n - 1) == file[..Min(|file|, start + chunkSize)];
    }
  }

  lemma ChunkCountCovers(size: nat, chunkSize: nat)
    requires 0 < chunkSize
    ensures size <= ChunkCount(size, chunkSize) * chunkSize < size + chunkSize
  {
    var x := size + chunkSize - 1;
    assert x == (x / chunkSize) * chunkSize + x % chunkSize;
  }

  /** Pieces that are the chunks, as many as there are, make the file. */
  lemma ChunksMakeTheFile(file: seq<Byte>, chunkSize: nat, pieces: nat -> seq<Byte>)
    requires 0 < chunkSize
    requires forall i: nat :: i < ChunkCount(|file|, chunkSize) ==> pieces(i) == Chunk(file, chunkSize, i)
    ensures Joined(pieces, ChunkCount(|file|, chunkSize)) == file
  {
    var n := ChunkCount(|file|, chunkSize);
    ChunkCountCovers(|file|, chunkSize);
    ChunksJoin(file, chunkSize, n, (i: nat) => Chunk(file, chunkSize, i));
    JoinedAgree(pieces, (i: nat) => Chunk(file, chunkSize, i), n);
    assert file[..|file|] == file;
  }

  lemma {:induction false} JoinedAgree(a: nat -> seq<Byte>, b: nat -> seq<Byte>, n: nat)
    requires forall i: nat :: i < n ==> a(i) == b(i)
    ensures Joined(a, n) == Joined(b, n)
  {
    if 0 < n { JoinedAgree(a, b, n - 1); }
  }
}
