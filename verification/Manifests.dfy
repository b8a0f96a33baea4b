/** internal/manifest and the key envelope of internal/file: what a manifest says, and
    what it means for one to describe a given file. */
module Manifests {
  import opened Base
  import opened Primitives
  import opened Erasure

  const MODE_SHARED := "shared"
  const MODE_PRIVATE := "private"

  datatype Stripe = Stripe(index: int, shardIds: seq<ShardId>, plaintextBytes: int, ciphertextBytes: int)

  datatype Manifest = Manifest(
    fileId: FileId, groupId: string, size: int, k: int, m: int, stripeSize: int,
    holders: seq<Peer>, stripes: seq<Stripe>, owner: Peer, mode: string, wrappedKey: Bytes)

  /** What the uploader had in hand: the manifest it committed, the plaintext, the file
      key, each stripe's ciphertext, and the keys the file key was wrapped for. */
  datatype Original = Original(
    mf: Manifest, plain: Bytes, key: Bytes, cts: seq<Bytes>, groupKey: Bytes, ownerPub: Bytes)

  // ----- layout -----

  function ChunkStart(plain: Bytes, size: int, i: int): (p: nat)
    requires size >= 1 && i >= 0
    ensures p <= |plain|
    ensures p <= Min((i + 1) * size, |plain|)
  {
    assert (i + 1) * size == i * size + size;
    assert 0 <= i * size;
    Min(i * size, |plain|)
  }

  /** Bytes [i*size, (i+1)*size) of the file, cut off at its end. */
  function Chunk(plain: Bytes, size: int, i: int): (c: Bytes)
    requires size >= 1 && i >= 0
  {
    plain[ChunkStart(plain, size, i)..Min((i + 1) * size, |plain|)]
  }

  /** `n` stripes of `size` bytes are just enough for `len` bytes. */
  ghost predicate Covers(n: int, size: int, len: int) {
    n >= 1 && (n - 1) * size < len <= n * size
  }

  function Chunks(plain: Bytes, size: int, count: nat): (cs: seq<Bytes>)
    requires size >= 1
    ensures |cs| == count
    ensures forall i :: 0 <= i < count ==> cs[i] == Chunk(plain, size, i)
  {
    if count == 0 then [] else Chunks(plain, size, count - 1) + [Chunk(plain, size, count - 1)]
  }

  lemma {:induction false} ChunksPrefix(plain: Bytes, size: int, count: nat)
    requires size >= 1
    ensures Flatten(Chunks(plain, size, count)) == plain[..ChunkStart(plain, size, count)]
  {
    if count == 0 {
      assert 0 * size == 0;
    } else {
      ChunksPrefix(plain, size, count - 1);
      FlattenSnoc(Chunks(plain, size, count - 1), Chunk(plain, size, count - 1));
    }
  }

  lemma MulMonotone(a: int, b: int, c: int)
    requires a <= b && c >= 0
    ensures a * c <= b * c
  {
  }

  lemma ChunkLength(plain: Bytes, size: int, i: int)
    requires size >= 1 && i >= 0 && i * size <= |plain|
    ensures |Chunk(plain, size, i)| == Min(size, |plain| - i * size)
    ensures (i + 1) * size == i * size + size
  {
  }

  lemma ChunkFits(plain: Bytes, size: int, i: int)
    requires size >= 1 && i >= 0
    ensures |Chunk(plain, size, i)| <= size
  {
    assert (i + 1) * size == i * size + size;
  }

  /** The stripes of a non-empty file tile it: they concatenate to the file, every one
      but the last is full, and the last is neither empty nor over-full. */
  lemma ChunksTile(plain: Bytes, size: int, n: int)
    requires size >= 1 && Covers(n, size, |plain|)
    ensures Flatten(Chunks(plain, size, n)) == plain
    ensures forall i :: 0 <= i < n - 1 ==> |Chunk(plain, size, i)| == size
    ensures 1 <= |Chunk(plain, size, n - 1)| <= size
  {
    ChunksPrefix(plain, size, n);
    assert plain[..|plain|] == plain;
    forall i | 0 <= i < n - 1
      ensures |Chunk(plain, size, i)| == size
    {
      MulMonotone(i + 1, n - 1, size);
      ChunkLength(plain, size, i);
    }
    ChunkLength(plain, size, n - 1);
  }

  // ----- key envelope: wrapForMode and unwrapForMode -----

  function WrapKey(lib: Library, mode: string, key: Bytes, groupKey: Bytes, pub: Bytes,
                   nonce: Bytes): (r: Result<Bytes>) {
    if mode == MODE_SHARED then
      if |groupKey| != FILE_KEY_SIZE then Err("group has no shared key") else SealAES(lib, groupKey, nonce, key)
    else if mode == MODE_PRIVATE then
      if |pub| != ENC_KEY_SIZE then Err("local node has no enc keypair") else SealAnonymous(lib, pub, nonce, key)
    else Err("unknown mode")
  }

  function UnwrapKey(lib: Library, mf: Manifest, self: Peer, groupKey: Bytes, pub: Bytes,
                     priv: Bytes): (r: Result<Bytes>) {
    if mf.mode == MODE_SHARED then
      if |groupKey| != FILE_KEY_SIZE then Err("local group has no shared key")
      else OpenAES(lib, groupKey, mf.wrappedKey)
    else if mf.mode == MODE_PRIVATE then
      if mf.owner != self then Err("private file: only the owner can decrypt")
      else OpenAnonymous(lib, pub, priv, mf.wrappedKey)
    else Err("unknown or missing manifest mode")
  }

  /** The manifest's envelope opens to the file key for whoever it was wrapped for. */
  ghost predicate Enveloped(lib: Library, o: Original) {
    || (o.mf.mode == MODE_SHARED && |o.groupKey| == FILE_KEY_SIZE &&
        OpenAES(lib, o.groupKey, o.mf.wrappedKey) == Ok(o.key))
    || (o.mf.mode == MODE_PRIVATE && forall priv: Bytes :: |priv| == ENC_KEY_SIZE && lib.boxPair(o.ownerPub, priv) ==>
          OpenAnonymous(lib, o.ownerPub, priv, o.mf.wrappedKey) == Ok(o.key))
  }

  lemma WrapEnvelopes(lib: Library, o: Original, nonce: Bytes)
    requires Sound(lib) && |nonce| == NONCE_SIZE
    requires WrapKey(lib, o.mf.mode, o.key, o.groupKey, o.ownerPub, nonce) == Ok(o.mf.wrappedKey)
    ensures Enveloped(lib, o)
  {
    if o.mf.mode == MODE_SHARED {
      SealOpenRoundTrip(lib, o.groupKey, nonce, o.key);
    }
  }

  /** Unwrapping undoes wrapping for every member holding the group key (shared) or for
      the owner alone (private), whatever happened to the holder list since. */
  lemma UnwrapRecoversKey(lib: Library, o: Original, mf: Manifest, self: Peer, groupKey: Bytes, pub: Bytes, priv: Bytes)
    requires Enveloped(lib, o) && SameFile(mf, o.mf)
    ensures mf.mode == MODE_SHARED && groupKey == o.groupKey ==>
              UnwrapKey(lib, mf, self, groupKey, pub, priv) == Ok(o.key)
    ensures mf.mode == MODE_PRIVATE && self == o.mf.owner && pub == o.ownerPub && |priv| == ENC_KEY_SIZE &&
              lib.boxPair(pub, priv) ==>
              UnwrapKey(lib, mf, self, groupKey, pub, priv) == Ok(o.key)
    ensures mf.mode == MODE_PRIVATE && self != o.mf.owner ==> UnwrapKey(lib, mf, self, groupKey, pub, priv).Err?
  {
  }

  /** What comes out of an envelope was sealed in it under the group key, or is what the box
      opens to for the owner; nothing else comes out. */
  lemma UnwrapsExactly(lib: Library, mf: Manifest, self: Peer, groupKey: Bytes, pub: Bytes, priv: Bytes, key: Bytes)
    requires GcmSound(lib) && GcmExact(lib)
    ensures UnwrapKey(lib, mf, self, groupKey, pub, priv) == Ok(key) <==>
              || (mf.mode == MODE_SHARED && exists nonce: Bytes ::
                    |nonce| == NONCE_SIZE && SealAES(lib, groupKey, nonce, key) == Ok(mf.wrappedKey))
              || (mf.mode == MODE_PRIVATE && self == mf.owner && |pub| == |priv| == ENC_KEY_SIZE &&
                  lib.boxOpen(pub, priv, mf.wrappedKey) == Some(key))
  {
    OpensExactly(lib, groupKey, mf.wrappedKey, key);
  }

  // ----- what a manifest describes -----

  /** Equal in everything but the holder list. */
  predicate SameFile(a: Manifest, b: Manifest) {
    a == b.(holders := a.holders)
  }

  function Ids(lib: Library, shards: seq<Bytes>): (ids: seq<ShardId>)
    ensures |ids| == |shards|
    ensures forall i :: 0 <= i < |ids| ==> ids[i] == lib.hash(shards[i])
  {
    seq(|shards|, i requires 0 <= i < |shards| => lib.hash(shards[i]))
  }

  /** `s` is the manifest entry of stripe `idx`: `ct` seals `chunk`, and the shard ids
      name the shards of `ct` in slot order. */
  ghost predicate StripeOf(lib: Library, p: Params, key: Bytes, chunk: Bytes, ct: Bytes, s: Stripe, idx: int) {
    && s.index == idx
    && s.plaintextBytes == |chunk|
    && s.ciphertextBytes == |ct| == |chunk| + 28
    && OpenAES(lib, key, ct) == Ok(chunk)
    && Encode(lib, p, ct).Ok?
    && s.shardIds == Ids(lib, Encode(lib, p, ct).value)
  }

  ghost predicate Describes(lib: Library, o: Original) {
    && o.mf.stripeSize >= 1 && o.mf.size == |o.plain|
    && |o.mf.stripes| == |o.cts| && Covers(|o.cts|, o.mf.stripeSize, |o.plain|)
    && (forall i :: 0 <= i < |o.cts| ==>
          StripeOf(lib, Params(o.mf.k, o.mf.m), o.key, Chunk(o.plain, o.mf.stripeSize, i), o.cts[i], o.mf.stripes[i],
                   i))
    && Enveloped(lib, o)
  }

  /** Holders are pairwise distinct and there is one per slot of every stripe. */
  ghost predicate WellFormed(mf: Manifest) {
    && mf.k >= 1 && mf.m >= 1
    && |mf.holders| == mf.k + mf.m
    && NoDup(mf.holders)
    && forall i :: 0 <= i < |mf.stripes| ==> |mf.stripes[i].shardIds| == mf.k + mf.m
  }

  function SumPlaintext(stripes: seq<Stripe>): int {
    if stripes == [] then 0 else SumPlaintext(stripes[..|stripes| - 1]) + stripes[|stripes| - 1].plaintextBytes
  }

  lemma {:induction false} SumIsPrefix(lib: Library, o: Original, n: nat)
    requires Describes(lib, o) && n <= |o.cts|
    ensures SumPlaintext(o.mf.stripes[..n]) == ChunkStart(o.plain, o.mf.stripeSize, n)
  {
    if n == 0 {
      assert 0 * o.mf.stripeSize == 0;
    } else {
      SumIsPrefix(lib, o, n - 1);
      assert o.mf.stripes[..n][..n - 1] == o.mf.stripes[..n - 1];
      assert StripeOf(lib, Params(o.mf.k, o.mf.m), o.key, Chunk(o.plain, o.mf.stripeSize, n - 1), o.cts[n - 1],
                      o.mf.stripes[n - 1], n - 1);
    }
  }

  /** The size fields of a manifest that describes a file all agree. */
  lemma SizesAgree(lib: Library, o: Original)
    requires Describes(lib, o)
    ensures o.mf.size == SumPlaintext(o.mf.stripes)
    ensures forall i :: 0 <= i < |o.mf.stripes| ==>
              && o.mf.stripes[i].index == i
              && 1 <= o.mf.stripes[i].plaintextBytes <= o.mf.stripeSize
              && (i < |o.mf.stripes| - 1 ==> o.mf.stripes[i].plaintextBytes == o.mf.stripeSize)
              && o.mf.stripes[i].ciphertextBytes == o.mf.stripes[i].plaintextBytes + 28
  {
    var n := |o.cts|;
    ChunksTile(o.plain, o.mf.stripeSize, n);
    SumIsPrefix(lib, o, n);
    assert o.mf.stripes[..n] == o.mf.stripes;
    forall i | 0 <= i < n
      ensures StripeOf(lib, Params(o.mf.k, o.mf.m), o.key, Chunk(o.plain, o.mf.stripeSize, i), o.cts[i],
                       o.mf.stripes[i], i)
    {
    }
  }
}
