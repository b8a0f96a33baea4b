/** The third-party primitives fnshare is built on, as one value: SHA-256, AES-GCM,
    the NaCl anonymous box, the Reed-Solomon library and peer-id decoding. Nothing is
    assumed about a `Library` except where a `requires` names one of the predicates
    below; `Witness.dfy` shows that they can all hold at once. */
module Primitives {
  import opened Base

  const FILE_KEY_SIZE := 32
  const ENC_KEY_SIZE := 32
  const NONCE_SIZE := 12
  const TAG_SIZE := 16

  datatype Library = Library(
    hash: Bytes -> ShardId,                        // hex of SHA-256
    gcmSeal: (Bytes, Bytes, Bytes) -> Bytes,       // key, nonce, plaintext
    gcmOpen: (Bytes, Bytes, Bytes) -> Option<Bytes>,
    boxSeal: (Bytes, Bytes, Bytes) -> Bytes,       // public key, entropy, plaintext
    boxOpen: (Bytes, Bytes, Bytes) -> Option<Bytes>, // public key, private key, box
    boxPair: (Bytes, Bytes) -> bool,               // the two halves of one key pair
    rsAccepts: (int, int) -> bool,                 // shapes reedsolomon.New supports
    rsParity: (int, int, seq<Bytes>) -> seq<Bytes>,
    rsReconstruct: (int, int, seq<Option<Bytes>>) -> Option<seq<Bytes>>,
    decodes: Peer -> bool)                         // peer.Decode succeeds

  /** Sections 7.1 and 7.2 of NIST SP 800-38D: opening undoes sealing, and the sealed
      text carries a 16-byte tag. */
  ghost predicate GcmSound(lib: Library) {
    forall key: Bytes, nonce: Bytes, plain: Bytes
      {:trigger lib.gcmSeal(key, nonce, plain)} ::
      |key| == FILE_KEY_SIZE && |nonce| == NONCE_SIZE ==>
        && |lib.gcmSeal(key, nonce, plain)| == |plain| + TAG_SIZE
        && lib.gcmOpen(key, nonce, lib.gcmSeal(key, nonce, plain)) == Some(plain)
  }

  /** What opens is the sealing of what it opens to: the tag is checked. */
  ghost predicate GcmExact(lib: Library) {
    forall key: Bytes, nonce: Bytes, sealed: Bytes
      {:trigger lib.gcmOpen(key, nonce, sealed)} ::
      |key| == FILE_KEY_SIZE && |nonce| == NONCE_SIZE && lib.gcmOpen(key, nonce, sealed).Some? ==>
        sealed == lib.gcmSeal(key, nonce, lib.gcmOpen(key, nonce, sealed).value)
  }

  ghost predicate BoxSound(lib: Library) {
    forall pub: Bytes, priv: Bytes, entropy: Bytes, plain: Bytes
      {:trigger lib.boxOpen(pub, priv, lib.boxSeal(pub, entropy, plain))} ::
      lib.boxPair(pub, priv) ==>
        lib.boxOpen(pub, priv, lib.boxSeal(pub, entropy, plain)) == Some(plain)
  }

  ghost predicate SameLength(rows: seq<Bytes>, len: int) {
    forall i :: 0 <= i < |rows| ==> |rows[i]| == len
  }

  /** `view` shows the rows of `full` that it shows at all unchanged. */
  ghost predicate ViewOf(view: seq<Option<Bytes>>, full: seq<Bytes>) {
    && |view| == |full|
    && forall i :: 0 <= i < |view| && view[i].Some? ==> view[i].value == full[i]
  }

  /** `reedsolomon.New`: refuses non-positive data and negative parity counts, and any
      further shape its implementation does not support. */
  predicate RsNew(lib: Library, k: int, m: int) {
    k >= 1 && m >= 0 && lib.rsAccepts(k, m)
  }

  /** Equal non-empty data rows that the library can encode. */
  ghost predicate Encodable(lib: Library, k: int, m: int, data: seq<Bytes>) {
    && RsNew(lib, k, m) && |data| == k
    && |data[0]| >= 1 && SameLength(data, |data[0]|)
  }

  /** The library is a systematic code in which any k rows fix all k+m. */
  ghost predicate RsSound(lib: Library) {
    && (forall k: int, m: int, data: seq<Bytes> {:trigger lib.rsParity(k, m, data)} ::
          Encodable(lib, k, m, data) ==>
            |lib.rsParity(k, m, data)| == m && SameLength(lib.rsParity(k, m, data), |data[0]|))
    && (forall k: int, m: int, data: seq<Bytes>, view: seq<Option<Bytes>>
          {:trigger lib.rsParity(k, m, data), lib.rsReconstruct(k, m, view)} ::
          Encodable(lib, k, m, data) && ViewOf(view, data + lib.rsParity(k, m, data)) && CountSome(view) >= k ==>
            lib.rsReconstruct(k, m, view) == Some(data + lib.rsParity(k, m, data)))
  }

  /** Hashes and decodable peer ids are not empty, so that both can name spool entries. */
  ghost predicate NamesSound(lib: Library) {
    (forall x: Bytes :: lib.hash(x) != "") && !lib.decodes("")
  }

  ghost predicate Sound(lib: Library) {
    GcmSound(lib) && BoxSound(lib) && RsSound(lib)
  }

  /** No two of the byte strings in `strings` share a hash. */
  ghost predicate CollisionFree(lib: Library, strings: set<Bytes>) {
    forall x, y :: x in strings && y in strings && lib.hash(x) == lib.hash(y) ==> x == y
  }

  // ----- crypto.go -----

  function SealAES(lib: Library, key: Bytes, nonce: Bytes, plain: Bytes): (r: Result<Bytes>) {
    if |key| != FILE_KEY_SIZE then Err("key size")
    else Ok(nonce + lib.gcmSeal(key, nonce, plain))
  }

  function OpenAES(lib: Library, key: Bytes, sealed: Bytes): (r: Result<Bytes>) {
    if |key| != FILE_KEY_SIZE then Err("key size")
    else if |sealed| < NONCE_SIZE + 1 then Err("ciphertext too short")
    else match lib.gcmOpen(key, sealed[..NONCE_SIZE], sealed[NONCE_SIZE..])
      case Some(plain) => Ok(plain)
      case None => Err("gcm open")
  }

  function SealAnonymous(lib: Library, pub: Bytes, entropy: Bytes, plain: Bytes): (r: Result<Bytes>) {
    if |pub| != ENC_KEY_SIZE then Err("recipient key size") else Ok(lib.boxSeal(pub, entropy, plain))
  }

  function OpenAnonymous(lib: Library, pub: Bytes, priv: Bytes, box: Bytes): (r: Result<Bytes>) {
    if |pub| != ENC_KEY_SIZE || |priv| != ENC_KEY_SIZE then Err("recipient key sizes")
    else match lib.boxOpen(pub, priv, box)
      case Some(plain) => Ok(plain)
      case None => Err("anonymous box")
  }

  /** Sealing succeeds exactly for 32-byte keys; what it makes is 28 bytes longer than
      the plaintext and opens under that key to the plaintext, the empty one included. */
  lemma SealOpenRoundTrip(lib: Library, key: Bytes, nonce: Bytes, plain: Bytes)
    requires GcmSound(lib) && |nonce| == NONCE_SIZE
    ensures SealAES(lib, key, nonce, plain).Ok? <==> |key| == 32
    ensures SealAES(lib, key, nonce, plain).Ok? ==>
              var sealed := SealAES(lib, key, nonce, plain).value;
              |sealed| == |plain| + 28 && OpenAES(lib, key, sealed) == Ok(plain)
  {
    if |key| == FILE_KEY_SIZE {
      var sealed := nonce + lib.gcmSeal(key, nonce, plain);
      assert sealed[..NONCE_SIZE] == nonce && sealed[NONCE_SIZE..] == lib.gcmSeal(key, nonce, plain);
    }
  }

  /** Opening succeeds on nothing but what was sealed under that key. */
  lemma OpensExactly(lib: Library, key: Bytes, sealed: Bytes, plain: Bytes)
    requires GcmSound(lib) && GcmExact(lib)
    ensures OpenAES(lib, key, sealed) == Ok(plain) <==>
              exists nonce: Bytes :: |nonce| == NONCE_SIZE && SealAES(lib, key, nonce, plain) == Ok(sealed)
  {
    if OpenAES(lib, key, sealed) == Ok(plain) {
      var nonce := sealed[..NONCE_SIZE];
      assert sealed == nonce + sealed[NONCE_SIZE..];
      assert SealAES(lib, key, nonce, plain) == Ok(sealed);
    }
    if nonce: Bytes :| |nonce| == NONCE_SIZE && SealAES(lib, key, nonce, plain) == Ok(sealed) {
      SealOpenRoundTrip(lib, key, nonce, plain);
    }
  }
}
