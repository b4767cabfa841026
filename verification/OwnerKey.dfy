/** Reading an owner key back in chunks, as the owner-lock test does. */
module OwnerKey {
  import opened Hex
  import opened AvbDevice
  import opened AvbTools

  /** Whole chunks: a multiple of the chunk size. */
  predicate Chunked(n: nat, chunkSize: Positive) {
    n == 0 || (chunkSize <= n && Chunked(n - chunkSize, chunkSize))
  }

  lemma {:induction false} MultipleIsChunked(chunks: nat, chunkSize: Positive)
    ensures Chunked(chunks * chunkSize, chunkSize)
    decreases chunks
  {
    if chunks > 0 {
      MultipleIsChunked(chunks - 1, chunkSize);
      assert chunks * chunkSize == (chunks - 1) * chunkSize + chunkSize;
    }
  }

  method SameChunk(chunk: array<Byte>, size: nat, ownerKey: seq<Byte>, i: nat) returns (ok: bool)
    requires size <= chunk.Length && i + size <= |ownerKey|
    ensures ok <==> chunk[..size] == ownerKey[i..i + size]
  {
    ghost var wanted := ownerKey[i..i + size];
    for j := 0 to size
      invariant forall k :: 0 <= k < j ==> chunk[k] == wanted[k]
    {
      if chunk[j] != ownerKey[i + j] {
        assert chunk[..size][j] != wanted[j];
        return false;
      }
    }
    return true;
  }

  /** As far as n bytes, the key is what is stored. */
  predicate StoredUpTo(stored: seq<Byte>, key: seq<Byte>, n: nat)
    requires n <= |key|
  {
    n <= |stored| && stored[..n] == key[..n]
  }

  lemma StoredFurther(stored: seq<Byte>, key: seq<Byte>, n: nat, m: nat)
    requires n <= m <= |key| && StoredUpTo(stored, key, n)
    ensures StoredUpTo(stored, key, m) <==> m <= |stored| && stored[n..m] == key[n..m]
  {
    if m <= |stored| {
      assert stored[..m] == stored[..n] + stored[n..m] && key[..m] == key[..n] + key[n..m];
      assert stored[..m][n..] == stored[n..m] && key[..m][n..] == key[n..m];
    }
  }

  lemma StoredLess(stored: seq<Byte>, key: seq<Byte>, n: nat, m: nat)
    requires n <= m <= |key| && StoredUpTo(stored, key, m)
    ensures StoredUpTo(stored, key, n)
  {
    assert stored[..m][..n] == stored[..n] && key[..m][..n] == key[..n];
  }

  /** The chunk loop, on a device with an owner lock. For every key of whole chunks it
      accepts exactly a device that stores the key, which is then what it has read. */
  method CheckOwnerKey(c: AvbClient, ownerKey: seq<Byte>, chunkSize: Positive, ghost chunks: nat)
    returns (ok: bool, read: seq<Byte>)
    requires Valid(c.state) && c.state.owner != 0 && !c.state.production
    requires |ownerKey| == chunks * chunkSize
    modifies c
    ensures c.state == old(c.state)
    ensures ok <==> ownerKey <= c.state.ownerKey
    ensures ok ==> read == ownerKey
  {
    MultipleIsChunked(chunks, chunkSize);
    ghost var stored := c.state.ownerKey;
    read := [];
    var i := 0;
    while i < |ownerKey|
      invariant c.state == old(c.state)
      invariant i <= |ownerKey| && Chunked(|ownerKey| - i, chunkSize)
      invariant StoredUpTo(stored, ownerKey, i)
      invariant read == ownerKey[..i]
    {
      StoredFurther(stored, ownerKey, i, i + chunkSize);
      if ownerKey <= stored {
        StoredLess(stored, ownerKey, i + chunkSize, |ownerKey|);
      }
      var chunk := new Byte[chunkSize];
      var code, size, answer := c.GetOwnerKey(i, chunk);
      if code != Success || size != chunk.Length {
        return false, read;
      }
      var same := SameChunk(chunk, size, ownerKey, i);
      if !same {
        return false, read;
      }
      assert ownerKey[..i] + ownerKey[i..i + chunkSize] == ownerKey[..i + chunkSize];
      read := read + chunk[..];
      i := i + chunkSize;
    }
    return true, read;
  }
}
