/** Hashing a blob piece by piece. */
module StreamedHash {
  import opened Wrappers
  import opened Chunks

  const CHUNK_SIZE: nat := 8 * 1024 * 1024

  /** Any hash that absorbs its input byte after byte. */
  datatype Hasher<!S> = Hasher(initial: S, absorb: (S, Byte) -> S, digest: S -> string)

  function Absorbed<S>(h: Hasher<S>, state: S, bytes: seq<Byte>): S {
    if bytes == [] then state else Absorbed(h, h.absorb(state, bytes[0]), bytes[1..])
  }

  /** The digest of the whole blob at once. */
  function Digest<S>(h: Hasher<S>, blob: seq<Byte>): string {
    h.digest(Absorbed(h, h.initial, blob))
  }

  lemma {:induction false} AbsorbedJoins<S>(h: Hasher<S>, state: S, a: seq<Byte>, b: seq<Byte>)
    ensures Absorbed(h, state, a + b) == Absorbed(h, Absorbed(h, state, a), b)
  {
    if a == [] {
      assert a + b == b;
    } else {
      assert (a + b)[1..] == a[1..] + b;
      AbsorbedJoins(h, h.absorb(state, a[0]), a[1..], b);
    }
  }

  lemma PieceAbsorbed<S>(h: Hasher<S>, blob: seq<Byte>, offset: nat)
    requires offset < |blob|
    ensures var end := Min(|blob|, offset + CHUNK_SIZE);
      Absorbed(h, Absorbed(h, h.initial, blob[..offset]), Slice(blob, offset, end))
        == Absorbed(h, h.initial, blob[..end])
  {
    var end := Min(|blob|, offset + CHUNK_SIZE);
    assert blob[..end] == blob[..offset] + Slice(blob, offset, end);
    AbsorbedJoins(h, h.initial, blob[..offset], Slice(blob, offset, end));
  }

  /** `aborted(k)` is the signal at its k-th inspection: once before every piece and
      once before the digest. */
  method Sha256Blob<S>(h: Hasher<S>, blob: seq<Byte>, aborted: nat -> bool) returns (hash: Option<string>)
    ensures hash.Some? ==> hash.value == Digest(h, blob)
    ensures hash.Some? <==> forall k: nat :: k <= ChunkCount(|blob|, CHUNK_SIZE) ==> !aborted(k)
  {
    var state := h.initial;
    var offset: nat := 0;
    var n: nat := 0;
    ChunkCountCovers(|blob|, CHUNK_SIZE);
    while offset < |blob|
      invariant offset == n * CHUNK_SIZE && n <= ChunkCount(|blob|, CHUNK_SIZE)
      invariant state == Absorbed(h, h.initial, blob[..Min(|blob|, offset)])
      invariant forall k: nat :: k < n ==> !aborted(k)
      decreases |blob| - offset
    {
      if aborted(n) { return None; }
      var piece := Slice(blob, offset, Min(|blob|, offset + CHUNK_SIZE));
      PieceAbsorbed(h, blob, offset);
      state := Absorbed(h, state, piece);
      offset := offset + CHUNK_SIZE;
      n := n + 1;
    }
    if aborted(n) { return None; }
    assert blob[..Min(|blob|, offset)] == blob;
    return Some(h.digest(state));
  }
}
