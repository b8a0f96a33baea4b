/** internal/file/reader.go: random and sequential access to a file's plaintext, stripe
    by stripe, through the shared cache, while the rest of the cluster goes on. */
module Reading {
  import opened Base
  import opened Primitives
  import opened Erasure
  import opened Manifests
  import opened ClusterModel
  import opened Network
  import opened Recovery
  import opened Cache

  /** A cached entry is a stripe of a committed file. */
  ghost predicate StripeEntry(s: State, e: Element, f: FileId, i: int) {
    && f in s.files && s.files[f].mf.stripeSize >= 1 && i >= 0
    && e == Element(CacheKey(f, i), Chunk(s.files[f].plain, s.files[f].mf.stripeSize, i))
  }

  ghost predicate Backed(s: State, e: Element) {
    exists f, i :: StripeEntry(s, e, f, i)
  }

  /** Unless SHA-256 collided, the cache holds only true plaintext. */
  ghost predicate CacheTrue(lib: Library, s: State, lru: seq<Element>) {
    CollisionFree(lib, s.seen) ==> forall e :: e in lru ==> Backed(s, e)
  }

  lemma CacheTrueKept(lib: Library, s: State, t: State, lru: seq<Element>)
    requires Grows(s, t) && CacheTrue(lib, s, lru)
    ensures CacheTrue(lib, t, lru)
  {
    if CollisionFree(lib, t.seen) {
      forall e | e in lru
        ensures Backed(t, e)
      {
        var f, i :| StripeEntry(s, e, f, i);
        assert StripeEntry(t, e, f, i);
      }
    }
  }

  /** A hit is the stripe that was asked for: keys do not collide. */
  lemma HitIsStripe(s: State, e: Element, f: FileId, i: int)
    requires Backed(s, e) && e.key == CacheKey(f, i)
    ensures StripeEntry(s, e, f, i)
  {
    var g, j :| StripeEntry(s, e, g, j);
    CacheKeyInjective(f, i, g, j);
  }

  /** Lookups and puts of true entries keep the cache true. */
  lemma TouchedTrue(lib: Library, s: State, lru: seq<Element>, e: Element)
    requires CacheTrue(lib, s, lru) && (CollisionFree(lib, s.seen) ==> Backed(s, e))
    ensures CacheTrue(lib, s, Touched(lru, e))
  {
    WithoutMembers(lru, e.key);
  }

  lemma InsertedTrue(lib: Library, s: State, lru: seq<Element>, key: string, data: Bytes, max: int)
    requires CacheTrue(lib, s, lru) && (CollisionFree(lib, s.seen) ==> Backed(s, Element(key, data)))
    ensures CacheTrue(lib, s, Inserted(lru, key, data, max))
  {
    if |data| <= max {
      var t := Touched(lru, Element(key, data));
      TouchedTrue(lib, s, lru, Element(key, data));
      FitIsLongestPrefix(t, max);
    }
  }

  /** Stripe `idx` of this version can be gathered by `self` in state `s`. */
  ghost predicate Readable(net: Cluster, s: State, self: Peer, mf: Manifest, idx: int) {
    && 0 <= idx < |mf.stripes| && |mf.stripes[idx].shardIds| == |mf.holders|
    && AvailableCount(net, s, self, mf.holders, mf.stripes[idx].shardIds, -1, Anybody, |mf.holders|) >= mf.k
  }

  ghost predicate AllReadable(net: Cluster, s: State, self: Peer, mf: Manifest) {
    forall i :: 0 <= i < |mf.stripes| ==> Readable(net, s, self, mf, i)
  }

  /** What is stored stays stored. */
  lemma ReadableKept(net: Cluster, s: State, t: State, self: Peer, mf: Manifest, idx: int)
    requires Grows(s, t)
    ensures Readable(net, s, self, mf, idx) ==> Readable(net, t, self, mf, idx)
  {
    if 0 <= idx < |mf.stripes| && |mf.stripes[idx].shardIds| == |mf.holders| {
      AvailableKept(net, s, t, self, mf.holders, mf.stripes[idx].shardIds, -1, Anybody, |mf.holders|);
    }
  }

  /** The part of [cur, end) that lies in cur's stripe, as seen from the stripe. */
  lemma ChunkSlice(plain: Bytes, size: int, cur: nat, end: nat)
    requires size >= 1 && cur < end <= |plain|
    ensures var idx := cur / size;
            var data := Chunk(plain, size, idx);
            var inStart := cur - idx * size;
            var want := Min(end - cur, |data| - inStart);
            && 0 <= inStart && want >= 1 && cur + want == Min(end, (idx + 1) * size)
            && data[inStart..inStart + want] == plain[cur..cur + want]
  {
    DivBounds(cur, size);
    ChunkSliceAt(plain, size, cur / size, cur, end);
  }

  lemma DivBounds(cur: nat, size: int)
    requires size >= 1
    ensures cur / size >= 0 && cur / size * size <= cur < cur / size * size + size
  {
    assert cur == cur / size * size + cur % size;
  }

  lemma ChunkSliceAt(plain: Bytes, size: int, idx: nat, cur: nat, end: nat)
    requires size >= 1 && idx * size <= cur < idx * size + size && cur < end <= |plain|
    ensures var data := Chunk(plain, size, idx);
            var inStart := cur - idx * size;
            var want := Min(end - cur, |data| - inStart);
            && want >= 1 && cur + want == Min(end, (idx + 1) * size)
            && data[inStart..inStart + want] == plain[cur..cur + want]
  {
    ChunkLength(plain, size, idx);
    SliceOfSlice(plain, idx * size, Min(idx * size + size, |plain|), cur, Min(end, Min(idx * size + size, |plain|)));
  }

  lemma SliceOfSlice(s: Bytes, lo: nat, hi: nat, a: nat, b: nat)
    requires lo <= a <= b <= hi <= |s|
    ensures s[lo..hi][a - lo..b - lo] == s[a..b]
  {
    var x := s[lo..hi][a - lo..b - lo];
    assert |x| == b - a && forall i :: 0 <= i < |x| ==> x[i] == s[a + i];
  }

  datatype ReadErr = NoErr | AtEof | Broken(why: string)

  /** What `ReadAt` promises of a request for `len` bytes at `offset`. */
  ghost predicate ReadsRange(plain: Bytes, offset: nat, len: nat, got: Bytes, err: ReadErr) {
    && offset + |got| <= (if offset <= |plain| then |plain| else offset)
    && (offset <= |plain| ==> got == plain[offset..offset + |got|])
    && (!err.Broken? ==>
          && |got| == (if offset >= |plain| then 0 else Min(len, |plain| - offset))
          && (err == AtEof <==> offset >= |plain| || offset + len > |plain|))
  }

  /** Stripe i has bytes of the requested range. */
  ghost predicate Overlaps(mf: Manifest, i: int, offset: nat, len: nat) {
    && 0 <= i < |mf.stripes| && offset < Min(offset + len, mf.size)
    && i * mf.stripeSize < Min(offset + len, mf.size) && offset < (i + 1) * mf.stripeSize
  }

  /** Where stripe i ends within a range that ends at `end`. */
  function StripeEnd(mf: Manifest, i: int, end: int): int {
    Min(end, (i + 1) * mf.stripeSize)
  }

  /** Whole numbers a, a + 1, and so on, n of them. */
  function Count(a: int, n: nat): (s: seq<int>)
    ensures |s| == n
  {
    seq(n, i => a + i)
  }

  /** The first m stripes from that of `offset` on reach position `cur` and start before `end`. */
  ghost predicate Walked(mf: Manifest, offset: nat, end: nat, cur: nat, m: nat)
    requires mf.stripeSize >= 1
  {
    var first := offset / mf.stripeSize;
    if m == 0 then cur == offset
    else offset < end && cur == StripeEnd(mf, first + m - 1, end) && (first + m - 1) * mf.stripeSize < end
  }

  lemma DivUnique(x: int, q: int, size: int)
    requires size >= 1 && x >= 0 && q * size <= x < q * size + size
    ensures x / size == q
  {
    var d := x / size;
    DivBounds(x, size);
    assert (d + 1) * size == d * size + size && (q + 1) * size == q * size + size;
    if d < q {
      MulMonotone(d + 1, q, size);
    } else if q < d {
      MulMonotone(q + 1, d, size);
    }
  }

  /** One more stripe: it is the next one. */
  lemma WalkOn(mf: Manifest, offset: nat, end: nat, cur: nat, m: nat)
    requires mf.stripeSize >= 1 && Walked(mf, offset, end, cur, m) && offset <= cur < end
    ensures cur / mf.stripeSize == offset / mf.stripeSize + m
    ensures Walked(mf, offset, end, StripeEnd(mf, cur / mf.stripeSize, end), m + 1)
    ensures Count(offset / mf.stripeSize, m) + [cur / mf.stripeSize] == Count(offset / mf.stripeSize, m + 1)
  {
    var first := offset / mf.stripeSize;
    if m > 0 {
      DivUnique(cur, first + m, mf.stripeSize);
    }
    DivBounds(cur, mf.stripeSize);
  }

  /** Which of the stripes of `size` bytes overlap [offset, end). */
  lemma OverlapBounds(size: int, first: nat, m: nat, i: int, offset: nat, end: nat)
    requires size >= 1 && m >= 1 && first * size <= offset < first * size + size
    requires (first + m - 1) * size < end <= (first + m) * size
    ensures first <= i < first + m <==> i * size < end && offset < (i + 1) * size
  {
    assert (first + 1) * size == first * size + size;
    if i < first {
      MulMonotone(i + 1, first, size);
    } else if i < first + m {
      MulMonotone(first + 1, i + 1, size);
      MulMonotone(i, first + m - 1, size);
    } else {
      MulMonotone(first + m, i, size);
    }
  }

  /** Having reached the end, the stripes walked are those that overlap the range. */
  lemma WalkedAll(mf: Manifest, offset: nat, len: nat, m: nat, i: int)
    requires mf.stripeSize >= 1 && Covers(|mf.stripes|, mf.stripeSize, mf.size) && offset < mf.size
    requires var end := Min(offset + len, mf.size); Walked(mf, offset, end, end, m)
    ensures Overlaps(mf, i, offset, len) <==> offset / mf.stripeSize <= i < offset / mf.stripeSize + m
  {
    if m > 0 {
      DivBounds(offset, mf.stripeSize);
      OverlapBounds(mf.stripeSize, offset / mf.stripeSize, m, i, offset, Min(offset + len, mf.size));
      if i >= |mf.stripes| {
        MulMonotone(|mf.stripes|, i, mf.stripeSize);
      }
    }
  }

  /** The stripe of any position within the range overlaps it. */
  lemma StripeIndex(mf: Manifest, offset: nat, len: nat, cur: nat)
    requires mf.stripeSize >= 1 && Covers(|mf.stripes|, mf.stripeSize, mf.size)
    requires offset <= cur < Min(offset + len, mf.size)
    ensures 0 <= cur / mf.stripeSize < |mf.stripes| && Overlaps(mf, cur / mf.stripeSize, offset, len)
  {
    var size := mf.stripeSize;
    var i := cur / size;
    DivBounds(cur, size);
    assert (i + 1) * size == i * size + size;
    if i >= |mf.stripes| {
      MulMonotone(|mf.stripes|, i, size);
    }
  }

  /** A buffer `bytes` whose front was overwritten by `out`. */
  function Overlay(out: Bytes, bytes: Bytes): Bytes
    requires |out| <= |bytes|
  {
    out + bytes[|out|..]
  }

  lemma OverlayStep(out: Bytes, data: Bytes, bytes: Bytes)
    requires |out| + |data| <= |bytes|
    ensures var b := Overlay(out, bytes); b[..|out|] + data + b[|out| + |data|..] == Overlay(out + data, bytes)
  {
  }

  method CopyInto(dst: array<bv8>, at: nat, data: Bytes)
    requires at + |data| <= dst.Length
    modifies dst
    ensures dst[..] == old(dst[..])[..at] + data + old(dst[..])[at + |data|..]
  {
    forall j | 0 <= j < |data| {
      dst[at + j] := data[j];
    }
  }

  const SEEK_START := 0
  const SEEK_CURRENT := 1
  const SEEK_END := 2

  class Reader {
    const net: Cluster
    const self: Peer
    const mf: Manifest
    const key: Bytes
    const cache: StripeCache
    var pos: int
    /** The stripes asked for so far, cached or not; `StripeBytes` keeps this log. */
    ghost var asked: seq<int>

    constructor (net: Cluster, self: Peer, mf: Manifest, key: Bytes, cache: StripeCache)
      ensures this.net == net && this.self == self && this.mf == mf && this.key == key && this.cache == cache
      ensures pos == 0 && asked == []
    {
      this.net, this.self, this.mf, this.key, this.cache, pos, asked := net, self, mf, key, cache, 0, [];
    }

    /** The reader holds some version of a committed file's manifest and its key. */
    ghost predicate OpenAt(s: State) {
      Version(s, mf) && s.files[mf.fileId].key == key
    }

    ghost predicate Open()
      reads net
    {
      net.Valid() && Sound(net.lib) && OpenAt(net.st)
    }

    ghost predicate CacheGood()
      reads net, cache
    {
      cache.Valid() && CacheTrue(net.lib, net.st, cache.lru)
    }

    /** The bytes that were uploaded. */
    ghost function Plain(): Bytes
      reads net
      requires Open()
    {
      net.st.files[mf.fileId].plain
    }

    ghost predicate NoCollision()
      reads net
    {
      CollisionFree(net.lib, net.st.seen)
    }

    /** An open reader stays open on the same bytes, and collisions do not go away. */
    lemma StillOpen(earlier: seq<State>)
      requires net.Since(earlier) && earlier != [] && Sound(net.lib) && OpenAt(earlier[|earlier| - 1])
      ensures Open() && Plain() == earlier[|earlier| - 1].files[mf.fileId].plain
      ensures NoCollision() ==> CollisionFree(net.lib, earlier[|earlier| - 1].seen)
    {
      net.Grown(earlier);
    }

    /** `r` is stripe `idx`, and is there if the stripe was readable in state `s`. */
    ghost predicate IsStripe(s: State, idx: int, r: Result<Bytes>)
      reads net
      requires Open()
    {
      && (r.Ok? ==> 0 <= idx < |mf.stripes|)
      && (NoCollision() ==>
            && (r.Ok? ==> mf.stripeSize >= 1 && r.value == Chunk(Plain(), mf.stripeSize, idx))
            && (Readable(net, s, self, mf, idx) ==> r.Ok?))
    }

    /** `fetchAndDecryptStripe`. */
    method FetchStripe(idx: int) returns (r: Result<Bytes>)
      requires Open()
      modifies net`st, net`past, net`trace
      ensures net.Since(old(net.past)) && Open() && IsStripe(old(net.st), idx, r)
      ensures r.Ok? ==> |mf.stripes[idx].shardIds| == |mf.holders| &&
                        HeldCount(net.st, self, mf.holders, mf.stripes[idx].shardIds, |mf.holders|) >= mf.k &&
                        PutSlots(net.trace, self, mf.holders, mf.stripes[idx].shardIds, |mf.holders|) >= mf.k
    {
      if idx < 0 || idx >= |mf.stripes| {
        return Err("stripe index out of range");
      }
      var stripe := mf.stripes[idx];
      var total := mf.k + mf.m;
      if |stripe.shardIds| != total || |mf.holders| != total {
        return Err("manifest stripe malformed");
      }
      var shards := new Option<Bytes>[total](_ => None);
      var gathered := Gather(net, self, mf.holders, stripe.shardIds, mf.k, -1, Anybody, shards);
      StillOpen(old(net.past));
      if gathered < mf.k {
        return Err("too few shards");
      }
      HeldWasPut(net.lib, net.past, net.trace, self, mf.holders, stripe.shardIds, total);
      r := OpenShards(idx, shards);
    }

    /** Decode and decrypt what was gathered. */
    method OpenShards(idx: int, shards: array<Option<Bytes>>) returns (r: Result<Bytes>)
      requires Open() && 0 <= idx < |mf.stripes|
      requires Fetched(net.lib, net.st.seen, mf.stripes[idx].shardIds, shards[..]) && CountSome(shards[..]) >= mf.k
      modifies shards
      ensures NoCollision() ==> mf.stripeSize >= 1 && r == Ok(Chunk(Plain(), mf.stripeSize, idx))
    {
      net.Sane();
      VersionTruth(net.lib, net.st, mf, idx);
      if NoCollision() {
        FetchedDecodes(net.lib, net.st, mf, idx, shards[..]);
      }
      var ct := Decode(net.lib, Params(mf.k, mf.m), shards, mf.stripes[idx].ciphertextBytes);
      if ct.Err? {
        return Err("ec decode");
      }
      r := OpenAES(net.lib, key, ct.value);
    }

    /** What lasts was not evicted since the index was `before`. */
    ghost predicate Lasted(before: map<string, Element>)
      reads cache
    {
      forall k :: k in cache.lasting && k in before ==> k in cache.index
    }

    /** Other goroutines use the shared cache in the meantime. The body does nothing;
        callers know only the contract. */
    method OthersRead()
      requires Open() && CacheGood()
      modifies net`st, net`past, net`trace, cache
      ensures net.Since(old(net.past)) && Open() && CacheGood() && Lasted(old(cache.index))
    {
    }

    ghost predicate Cached(idx: int)
      reads cache
    {
      CacheKey(mf.fileId, idx) in cache.index
    }

    /** The stripe is in the cache, and the others leave it there. */
    ghost predicate Kept(idx: int)
      reads cache
    {
      Cached(idx) && CacheKey(mf.fileId, idx) in cache.lasting
    }

    /** The stripe is the entry used last. */
    ghost predicate Latest(idx: int, data: Bytes)
      reads cache
    {
      Cached(idx) && cache.lru != [] && cache.lru[0] == Element(CacheKey(mf.fileId, idx), data)
    }

    method LookUp(idx: int) returns (hit: Option<Bytes>)
      requires Open() && CacheGood()
      modifies cache
      ensures CacheGood() && cache.index == old(cache.index) && (hit.Some? <==> Cached(idx))
      ensures hit.Some? ==> Latest(idx, hit.value)
      ensures hit.Some? && NoCollision() ==> mf.stripeSize >= 1 && idx >= 0
      ensures hit.Some? && NoCollision() ==> hit.value == Chunk(Plain(), mf.stripeSize, idx)
    {
      ghost var lru := cache.lru;
      hit := cache.Get(mf.fileId, idx);
      if hit.Some? {
        ghost var e := cache.index[CacheKey(mf.fileId, idx)];
        assert e in lru;
        TouchedTrue(net.lib, net.st, lru, e);
        if NoCollision() {
          HitIsStripe(net.st, e, mf.fileId, idx);
        }
      }
    }

    method Remember(idx: int, data: Bytes)
      requires Open() && CacheGood() && idx >= 0
      requires NoCollision() ==> mf.stripeSize >= 1 && data == Chunk(Plain(), mf.stripeSize, idx)
      modifies cache
      ensures CacheGood() && (|data| <= cache.maxBytes ==> Latest(idx, data))
    {
      ghost var e := Element(CacheKey(mf.fileId, idx), data);
      assert NoCollision() ==> StripeEntry(net.st, e, mf.fileId, idx);
      InsertedTrue(net.lib, net.st, cache.lru, CacheKey(mf.fileId, idx), data, cache.maxBytes);
      if |data| <= cache.maxBytes {
        NewestSurvives(cache.lru, CacheKey(mf.fileId, idx), data, cache.maxBytes);
      }
      cache.Put(mf.fileId, idx, data);
      assert |data| <= cache.maxBytes ==> cache.lru[0] == e && e in cache.lru;
    }

    /** A miss: fetch the stripe and cache it. */
    method FetchAndRemember(idx: int) returns (r: Result<Bytes>)
      requires Open() && CacheGood() && 0 <= idx < |mf.stripes|
      modifies net`st, net`past, net`trace, cache
      ensures net.Since(old(net.past)) && Open() && CacheGood() && IsStripe(old(net.st), idx, r)
      ensures r.Ok? && |r.value| <= cache.maxBytes ==> Latest(idx, r.value)
    {
      ghost var before := net.past;
      r := FetchStripe(idx);
      StillTrue(before, cache.lru);
      if r.Ok? {
        Remember(idx, r.value);
      }
    }

    /** `stripeBytes`. What it returns is cached from then on, if it is within the budget, and
        what is cached is served, whether it could be gathered or not. */
    method StripeBytes(idx: int) returns (r: Result<Bytes>)
      requires Open() && CacheGood() && 0 <= idx < |mf.stripes|
      modifies net`st, net`past, net`trace, cache, `asked
      ensures net.Since(old(net.past)) && Open() && CacheGood() && IsStripe(old(net.st), idx, r)
      ensures asked == old(asked) + [idx]
      ensures r.Ok? && |r.value| <= cache.maxBytes ==> Latest(idx, r.value)
      ensures old(Kept(idx)) ==> r.Ok? && Lasted(old(cache.index))
    {
      asked := asked + [idx];
      ghost var before := net.past;
      OthersRead();
      StillReadable(before, idx);
      var hit := LookUp(idx);
      if hit.Some? {
        return Ok(hit.value);
      }
      r := FetchAndRemember(idx);
    }

    /** The size and stripe count that `ReadAt` relies on. */
    lemma Shape()
      requires Open()
      ensures mf.size == |Plain()| && mf.stripeSize >= 1 && Covers(|mf.stripes|, mf.stripeSize, mf.size)
    {
      net.Sane();
    }

    /** `got` is what the file has from `offset` on, unless SHA-256 collided. */
    ghost predicate Right(offset: nat, got: Bytes)
      reads net
      requires Open()
    {
      NoCollision() ==> offset + |got| <= |Plain()| && got == Plain()[offset..offset + |got|]
    }

    /** How the cache takes part in reading a stripe, unless SHA-256 collided: what was kept is
        served and evicts nothing that lasts, and what was read is cached if stripes fit. */
    ghost predicate Served(before: map<string, Element>, idx: int, ok: bool)
      reads net, cache
    {
      NoCollision() ==>
        && (WasKept(before, idx) ==> ok && Lasted(before))
        && (ok && mf.stripeSize <= cache.maxBytes ==> Cached(idx))
    }

    ghost predicate WasKept(before: map<string, Element>, idx: int) {
      CacheKey(mf.fileId, idx) in before && CacheKey(mf.fileId, idx) in cache.lasting
    }

    /** `StripeBytes`, with what it says of the cache put that way. */
    method ServedStripe(idx: int) returns (r: Result<Bytes>)
      requires Open() && CacheGood() && 0 <= idx < |mf.stripes|
      modifies net`st, net`past, net`trace, cache, `asked
      ensures net.Since(old(net.past)) && Open() && CacheGood() && IsStripe(old(net.st), idx, r)
      ensures asked == old(asked) + [idx] && Served(old(cache.index), idx, r.Ok?)
    {
      r := StripeBytes(idx);
      if r.Ok? && NoCollision() {
        ChunkFits(Plain(), mf.stripeSize, idx);
      }
    }

    /** The part of the stripe's bytes that lies in [cur, end). A negative length would be a
        slice panic. */
    method CutOut(bytes: Bytes, cur: nat, end: nat) returns (data: Bytes, err: ReadErr)
      requires Open() && cur < end <= mf.size && mf.stripeSize >= 1
      requires NoCollision() ==> bytes == Chunk(Plain(), mf.stripeSize, cur / mf.stripeSize)
      ensures Right(cur, data) && |data| <= end - cur
      ensures err == NoErr && NoCollision() ==> cur + |data| == StripeEnd(mf, cur / mf.stripeSize, end)
      ensures err != NoErr ==> err.Broken? && data == []
      ensures NoCollision() ==> err == NoErr
    {
      var idx := cur / mf.stripeSize;
      Shape();
      if NoCollision() {
        ChunkSlice(Plain(), mf.stripeSize, cur, end);
      }
      var inStart := cur - idx * mf.stripeSize;
      var want := Min(end - cur, |bytes| - inStart);
      if want < 0 {
        return [], Broken("slice bounds");
      }
      return bytes[inStart..inStart + want], NoErr;
    }

    /** What stripe cur/stripeSize has of [cur, end). */
    method StripeSlice(cur: nat, end: nat) returns (data: Bytes, err: ReadErr)
      requires Open() && CacheGood() && cur < end <= mf.size && mf.stripeSize >= 1 && cur / mf.stripeSize < |mf.stripes|
      modifies net`st, net`past, net`trace, cache, `asked
      ensures net.Since(old(net.past)) && Open() && CacheGood() && Right(cur, data)
      ensures asked == old(asked) + [cur / mf.stripeSize]
      ensures |data| <= end - cur
      ensures err == NoErr && NoCollision() ==> cur + |data| == StripeEnd(mf, cur / mf.stripeSize, end)
      ensures err != NoErr ==> err.Broken? && data == []
      ensures NoCollision() && Readable(net, old(net.st), self, mf, cur / mf.stripeSize) ==> err == NoErr
      ensures Served(old(cache.index), cur / mf.stripeSize, err == NoErr)
    {
      var r := ServedStripe(cur / mf.stripeSize);
      if r.Err? {
        Shape();
        return [], Broken("stripe");
      }
      data, err := CutOut(r.value, cur, end);
    }

    lemma RightExtends(offset: nat, got: Bytes, data: Bytes)
      requires Open() && Right(offset, got) && Right(offset + |got|, data)
      ensures Right(offset, got + data)
    {
    }

    /** What comes after `got`, as far as its stripe has it. */
    method NextBytes(offset: nat, n: nat, ghost got: Bytes, end: nat) returns (data: Bytes, err: ReadErr)
      requires Open() && CacheGood() && n == |got| && offset + |got| < end <= mf.size
      requires mf.stripeSize >= 1 && (offset + |got|) / mf.stripeSize < |mf.stripes| && Right(offset, got)
      modifies net`st, net`past, net`trace, cache, `asked
      ensures net.Since(old(net.past)) && Open() && CacheGood() && Right(offset, got + data)
      ensures asked == old(asked) + [(offset + |got|) / mf.stripeSize]
      ensures |data| <= end - (offset + |got|)
      ensures err == NoErr && NoCollision() ==>
                offset + |got| + |data| == StripeEnd(mf, (offset + |got|) / mf.stripeSize, end)
      ensures err != NoErr ==> err.Broken? && data == []
      ensures NoCollision() && Readable(net, old(net.st), self, mf, (offset + |got|) / mf.stripeSize) ==> err == NoErr
      ensures Served(old(cache.index), (offset + |got|) / mf.stripeSize, err == NoErr)
    {
      data, err := StripeSlice(offset + n, end);
      StillOpen(old(net.past));
      assert Right(offset, got);
      RightExtends(offset, got, data);
    }

    /** One turn of the loop in `ReadAt`: overwrite a further piece of the buffer. */
    method ReadOnce(dst: array<bv8>, offset: nat, n: nat, end: nat, ghost out: Bytes, ghost bytes: Bytes)
      returns (data: Bytes, err: ReadErr)
      requires Open() && CacheGood() && offset + n < end == Min(offset + dst.Length, mf.size)
      requires n == |out| && |bytes| == dst.Length && dst[..] == Overlay(out, bytes) && Right(offset, out)
      modifies net`st, net`past, net`trace, cache, dst, `asked
      ensures net.Since(old(net.past)) && Open() && CacheGood() && mf.stripeSize >= 1
      ensures offset + n + |data| <= end && dst[..] == Overlay(out + data, bytes) && Right(offset, out + data)
      ensures asked == old(asked) + [(offset + n) / mf.stripeSize]
      ensures Overlaps(mf, (offset + n) / mf.stripeSize, offset, dst.Length)
      ensures err == NoErr && NoCollision() ==> offset + n + |data| == StripeEnd(mf, (offset + n) / mf.stripeSize, end)
      ensures err != NoErr ==> err.Broken? && data == []
      ensures NoCollision() && Readable(net, old(net.st), self, mf, (offset + n) / mf.stripeSize) ==> err == NoErr
      ensures Served(old(cache.index), (offset + n) / mf.stripeSize, err == NoErr)
    {
      Shape();
      StripeIndex(mf, offset, dst.Length, offset + n);
      if (offset + n) / mf.stripeSize >= |mf.stripes| {
        return [], NoErr;
      }
      data, err := NextBytes(offset, n, out, end);
      CopyInto(dst, n, data);
      OverlayStep(out, data, bytes);
    }

    lemma StillTrue(earlier: seq<State>, lru: seq<Element>)
      requires net.Since(earlier) && earlier != [] && CacheTrue(net.lib, earlier[|earlier| - 1], lru)
      ensures CacheTrue(net.lib, net.st, lru)
    {
      net.Grown(earlier);
      CacheTrueKept(net.lib, earlier[|earlier| - 1], net.st, lru);
    }

    /** What was readable stays readable. */
    lemma StillReadable(earlier: seq<State>, idx: int)
      requires net.Since(earlier) && earlier != []
      ensures Readable(net, earlier[|earlier| - 1], self, mf, idx) ==> Readable(net, net.st, self, mf, idx)
    {
      net.Grown(earlier);
      ReadableKept(net, earlier[|earlier| - 1], net.st, self, mf, idx);
    }

    lemma StillReadableBetween(earlier: seq<State>, later: seq<State>, idx: int)
      requires net.Since(later) && earlier != [] && earlier <= later
      ensures Readable(net, earlier[|earlier| - 1], self, mf, idx) ==> Readable(net, later[|later| - 1], self, mf, idx)
    {
      RunGrows(net.lib, net.past, net.trace, |earlier| - 1, |later| - 1);
      ReadableKept(net, earlier[|earlier| - 1], later[|later| - 1], self, mf, idx);
    }

    /** Every stripe of the range could be gathered in state `s`. */
    ghost predicate RangeReadable(s: State, offset: nat, len: nat) {
      forall i :: Overlaps(mf, i, offset, len) ==> Readable(net, s, self, mf, i)
    }

    /** Every stripe of the range is in the cache, and the others leave it there. */
    ghost predicate RangeKept(offset: nat, len: nat)
      reads cache
    {
      forall i :: Overlaps(mf, i, offset, len) ==> Kept(i)
    }

    /** The last stripe asked for is cached, if stripes fit. */
    ghost predicate LastCached()
      reads cache, `asked
    {
      asked != [] && mf.stripeSize <= cache.maxBytes ==> Cached(asked[|asked| - 1])
    }

    /** Only stripes of the range were asked for since `before`. */
    ghost predicate AskedWithin(before: seq<int>, offset: nat, len: nat)
      reads `asked
    {
      before <= asked && forall i :: |before| <= i < |asked| ==> Overlaps(mf, asked[i], offset, len)
    }

    /** Since `before`, m stripes were asked for, in order and each once, from that of
        `offset` on, and they reach `cur`; unless SHA-256 collided. */
    ghost predicate AskedInOrder(before: seq<int>, offset: nat, end: nat, cur: nat, m: nat)
      requires mf.stripeSize >= 1
      reads net, `asked
    {
      NoCollision() ==> asked == before + Count(offset / mf.stripeSize, m) && Walked(mf, offset, end, cur, m)
    }

    /** n bytes of the range were written over the front of a buffer that held `bytes`. */
    ghost predicate Filled(now: Bytes, bytes: Bytes, offset: nat, end: nat, n: nat, out: Bytes)
      reads net
      requires Open()
    {
      && n == |out| <= |bytes| && offset + n <= end && now == Overlay(out, bytes) && Right(offset, out)
    }

    /** A range kept in the cache stays there and is read, and what was read is cached. */
    ghost predicate CacheSide(kept: bool, offset: nat, len: nat, ok: bool)
      reads net, cache, `asked
    {
      NoCollision() ==> (kept ==> ok && RangeKept(offset, len)) && (ok ==> asked != [] && LastCached())
    }

    lemma ServedInRange(before: map<string, Element>, log: seq<int>, idx: int, kept: bool, offset: nat, len: nat,
                        ok: bool)
      requires Served(before, idx, ok) && Overlaps(mf, idx, offset, len) && asked == log + [idx]
      requires NoCollision() && kept ==> forall i :: Overlaps(mf, i, offset, len) ==> WasKept(before, i)
      ensures CacheSide(kept, offset, len, ok)
    {
    }

    /** The same, with what becomes of the range in the cache. */
    method ReadKept(dst: array<bv8>, offset: nat, n: nat, end: nat, ghost out: Bytes, ghost bytes: Bytes,
                    ghost kept: bool)
      returns (data: Bytes, err: ReadErr)
      requires Open() && CacheGood() && offset + n < end == Min(offset + dst.Length, mf.size)
      requires n == |out| && |bytes| == dst.Length && dst[..] == Overlay(out, bytes) && Right(offset, out)
      requires NoCollision() && kept ==> RangeKept(offset, dst.Length)
      modifies net`st, net`past, net`trace, cache, dst, `asked
      ensures net.Since(old(net.past)) && Open() && CacheGood() && mf.stripeSize >= 1
      ensures offset + n + |data| <= end && dst[..] == Overlay(out + data, bytes) && Right(offset, out + data)
      ensures asked == old(asked) + [(offset + n) / mf.stripeSize]
      ensures Overlaps(mf, (offset + n) / mf.stripeSize, offset, dst.Length)
      ensures err == NoErr && NoCollision() ==> offset + n + |data| == StripeEnd(mf, (offset + n) / mf.stripeSize, end)
      ensures err != NoErr ==> err.Broken? && data == []
      ensures NoCollision() && Readable(net, old(net.st), self, mf, (offset + n) / mf.stripeSize) ==> err == NoErr
      ensures CacheSide(kept, offset, dst.Length, err == NoErr)
    {
      ghost var past, log, before := net.past, asked, cache.index;
      data, err := ReadOnce(dst, offset, n, end, out, bytes);
      StillOpen(past);
      ServedInRange(before, log, (offset + n) / mf.stripeSize, kept, offset, dst.Length, err == NoErr);
    }

    /** Unless SHA-256 collided: after m stripes a range that was kept still is, and the last
        stripe is cached if stripes fit. */
    ghost predicate Caching(kept: bool, offset: nat, len: nat, m: nat)
      reads net, cache, `asked
    {
      NoCollision() ==> (kept ==> RangeKept(offset, len)) && (m > 0 ==> LastCached())
    }

    /** Where the loop of `ReadAt` stands after m stripes of the range, with n bytes in `out`. */
    ghost predicate Reached(now: Bytes, bytes: Bytes, before: seq<int>, offset: nat, end: nat, n: nat, out: Bytes,
                            m: nat, kept: bool)
      requires Open() && mf.stripeSize >= 1
      reads net, cache, `asked
    {
      && Filled(now, bytes, offset, end, n, out) && AskedInOrder(before, offset, end, offset + n, m)
      && Caching(kept, offset, |bytes|, m)
    }

    lemma NothingReached(bytes: Bytes, offset: nat, end: nat, kept: bool)
      requires Open() && mf.stripeSize >= 1 && offset <= end <= mf.size && (kept ==> RangeKept(offset, |bytes|))
      ensures Reached(bytes, bytes, asked, offset, end, 0, [], 0, kept)
    {
      Shape();
      assert Overlay([], bytes) == bytes && Count(offset / mf.stripeSize, 0) == [];
    }

    /** The same, with readability as it was when the loop began, and the log so far. */
    method ReadTurn(dst: array<bv8>, offset: nat, n: nat, end: nat, ghost out: Bytes, ghost bytes: Bytes,
                    ghost first: seq<State>, ghost sure: bool, ghost kept: bool, ghost before: seq<int>, ghost m: nat)
      returns (n': nat, err: ReadErr, ghost out': Bytes)
      requires Open() && CacheGood() && offset + n < end == Min(offset + dst.Length, mf.size) && mf.stripeSize >= 1
      requires |bytes| == dst.Length && Reached(dst[..], bytes, before, offset, end, n, out, m, kept)
      requires first != [] && net.Since(first) && (sure ==> RangeReadable(first[|first| - 1], offset, dst.Length))
      requires AskedWithin(before, offset, dst.Length)
      modifies net`st, net`past, net`trace, cache, dst, `asked
      ensures net.Since(first) && Open() && CacheGood() && n <= n'
      ensures Filled(dst[..], bytes, offset, end, n', out')
      ensures AskedWithin(before, offset, dst.Length)
      ensures err == NoErr ==> Reached(dst[..], bytes, before, offset, end, n', out', m + 1, kept)
      ensures err == NoErr && NoCollision() ==> n < n'
      ensures err != NoErr ==> err.Broken?
      ensures NoCollision() && (sure || kept) ==> err == NoErr
    {
      ghost var past, log := net.past, asked;
      var data;
      data, err := ReadKept(dst, offset, n, end, out, bytes, kept);
      n', out' := n + |data|, out + data;
      StillReadableBetween(first, past, (offset + n) / mf.stripeSize);
      StillOpen(past);
      if NoCollision() {
        Stepped(before, log, offset, end, offset + n, m);
      }
    }

    /** The stripe just asked for is the next in order, and has something to give. */
    lemma Stepped(before: seq<int>, log: seq<int>, offset: nat, end: nat, cur: nat, m: nat)
      requires mf.stripeSize >= 1 && offset <= cur < end && Walked(mf, offset, end, cur, m)
      requires log == before + Count(offset / mf.stripeSize, m) && asked == log + [cur / mf.stripeSize]
      ensures asked == before + Count(offset / mf.stripeSize, m + 1)
      ensures Walked(mf, offset, end, StripeEnd(mf, cur / mf.stripeSize, end), m + 1)
      ensures cur < StripeEnd(mf, cur / mf.stripeSize, end)
    {
      WalkOn(mf, offset, end, cur, m);
      DivBounds(cur, mf.stripeSize);
      assert (cur / mf.stripeSize + 1) * mf.stripeSize == cur / mf.stripeSize * mf.stripeSize + mf.stripeSize;
    }

    /** The loop of `ReadAt`. */
    method ReadLoop(dst: array<bv8>, offset: nat, end: nat, ghost sure: bool, ghost kept: bool)
      returns (n: nat, err: ReadErr, ghost out: Bytes, ghost m: nat)
      requires Open() && CacheGood() && end == Min(offset + dst.Length, mf.size) && offset < mf.size
      requires mf.stripeSize >= 1
      requires sure ==> RangeReadable(net.st, offset, dst.Length)
      requires kept ==> RangeKept(offset, dst.Length)
      modifies net`st, net`past, net`trace, cache, dst, `asked
      ensures net.Since(old(net.past)) && Open() && CacheGood()
      ensures Filled(dst[..], old(dst[..]), offset, end, n, out) && AskedWithin(old(asked), offset, dst.Length)
      ensures err == NoErr ==> Reached(dst[..], old(dst[..]), old(asked), offset, end, n, out, m, kept)
      ensures NoCollision() && err == NoErr ==> offset + n == end
      ensures err != NoErr ==> err.Broken?
      ensures NoCollision() && (sure || kept) ==> err == NoErr
    {
      ghost var first, bytes, before := net.past, dst[..], asked;
      n, err, out, m := 0, NoErr, [], 0;
      NothingReached(bytes, offset, end, kept);
      while offset + n < end
        invariant net.Since(first) && Open() && CacheGood() && err == NoErr
        invariant AskedWithin(before, offset, dst.Length)
        invariant Reached(dst[..], bytes, before, offset, end, n, out, m, kept)
      {
        var n';
        n', err, out := ReadTurn(dst, offset, n, end, out, bytes, first, sure, kept, before, m);
        if err != NoErr {
          return n', err, out, m;
        }
        m := m + 1;
        if n' == n {
          break;
        }
        n := n';
      }
    }

    /** `ReadAt`, stripe by stripe. Only stripes overlapping the range are asked for. And
        provided SHA-256 did not collide: what is returned is a prefix of the requested
        range of the uploaded bytes; it is the whole range that exists unless some stripe
        could not be had, and then every stripe that overlaps it was asked for exactly
        once, in order; the end of file is reported exactly when the range reaches past
        it; and if all stripes of the range could be gathered at the start, or all were
        cached and not evicted by others, they are read. The last one is cached then. */
    method ReadAt(dst: array<bv8>, offset: nat) returns (n: nat, err: ReadErr)
      requires Open() && CacheGood()
      modifies net`st, net`past, net`trace, cache, dst, `asked
      ensures net.Since(old(net.past)) && Open() && CacheGood()
      ensures n <= dst.Length && dst[n..] == old(dst[..])[n..]
      ensures NoCollision() ==> ReadsRange(Plain(), offset, dst.Length, dst[..n], err)
      ensures NoCollision() && RangeReadable(old(net.st), offset, dst.Length) ==> !err.Broken?
      ensures NoCollision() && old(RangeKept(offset, dst.Length)) ==> !err.Broken?
      ensures NoCollision() && !err.Broken? && |old(asked)| < |asked| ==> LastCached()
      ensures AskedWithin(old(asked), offset, dst.Length)
      ensures NoCollision() && !err.Broken? ==> AskedExactly(old(asked), offset, dst.Length)
    {
      Shape();
      if offset >= mf.size {
        NothingOverlaps(offset, dst.Length);
        return 0, AtEof;
      }
      ghost var before, out, m := asked, [], 0;
      n, err, out, m := ReadLoop(dst, offset, Min(offset + dst.Length, mf.size),
                                 RangeReadable(net.st, offset, dst.Length), RangeKept(offset, dst.Length));
      Shape();
      assert dst[..n] == out;
      if NoCollision() && err == NoErr {
        AskedAll(before, offset, dst.Length, m);
      }
      if err == NoErr && n < dst.Length && offset + n >= mf.size {
        err := AtEof;
      }
    }

    /** Since `before` the stripes that overlap the range were asked for, and no others,
        each once and in ascending order. */
    ghost predicate AskedExactly(before: seq<int>, offset: nat, len: nat)
      reads `asked
    {
      exists a, m: nat ::
        && asked == before + Count(a, m)
        && forall i :: Overlaps(mf, i, offset, len) <==> a <= i < a + m
    }

    lemma NothingOverlaps(offset: nat, len: nat)
      requires offset >= mf.size
      ensures AskedExactly(asked, offset, len)
    {
      assert asked == asked + Count(0, 0);
      assert forall i :: Overlaps(mf, i, offset, len) <==> 0 <= i < 0 + 0;
    }

    lemma AskedAll(before: seq<int>, offset: nat, len: nat, m: nat)
      requires Open() && NoCollision() && offset < mf.size && mf.stripeSize >= 1
      requires var end := Min(offset + len, mf.size); AskedInOrder(before, offset, end, end, m)
      ensures AskedExactly(before, offset, len)
    {
      Shape();
      forall i
        ensures Overlaps(mf, i, offset, len) <==> offset / mf.stripeSize <= i < offset / mf.stripeSize + m
      {
        WalkedAll(mf, offset, len, m, i);
      }
    }

    /** `Read`: the next bytes from the cursor on, which it advances by what it returns. */
    method Read(dst: array<bv8>) returns (n: nat, err: ReadErr)
      requires Open() && CacheGood() && pos >= 0
      modifies net`st, net`past, net`trace, cache, dst, `pos, `asked
      ensures net.Since(old(net.past)) && Open() && CacheGood()
      ensures n <= dst.Length && pos == old(pos) + n && (old(pos) >= mf.size ==> err == AtEof)
      ensures AskedWithin(old(asked), old(pos), dst.Length)
      ensures dst[n..] == old(dst[..])[n..]
      ensures NoCollision() ==> ReadsRange(Plain(), old(pos), dst.Length, dst[..n], err)
      ensures NoCollision() && (forall i :: Overlaps(mf, i, old(pos), dst.Length) ==>
                                Readable(net, old(net.st), self, mf, i)) ==>
                !err.Broken?
      ensures NoCollision() && old(RangeKept(pos, dst.Length)) ==> !err.Broken?
    {
      Shape();
      if pos >= mf.size {
        return 0, AtEof;
      }
      n, err := ReadAt(dst, pos);
      pos := pos + n;
    }

    /** `Seek`: from the start, the cursor or the end, but never to before the start; an
        unknown `whence` is an error and leaves the cursor. */
    method Seek(offset: int, whence: int) returns (r: Option<int>)
      modifies `pos
      ensures whence == 0 ==> r == Some(Max(0, offset))
      ensures whence == 1 ==> r == Some(Max(0, old(pos) + offset))
      ensures whence == 2 ==> r == Some(Max(0, mf.size + offset))
      ensures whence !in {0, 1, 2} ==> r.None?
      ensures pos == if r.Some? then r.value else old(pos)
    {
      if whence == SEEK_START {
        pos := offset;
      } else if whence == SEEK_CURRENT {
        pos := pos + offset;
      } else if whence == SEEK_END {
        pos := mf.size + offset;
      } else {
        return None;
      }
      if pos < 0 {
        pos := 0;
      }
      return Some(pos);
    }

    /** `Get`: `io.Copy` from the start to the end of the file. It delivers a prefix of
        the uploaded bytes, all of them when it reports success, and it succeeds when
        every stripe could be gathered at the start. (A read of nothing without an error,
        which only a collision could cause, is reported as a failure.) */
    method Get(bufferSize: nat) returns (out: Bytes, ok: bool)
      requires Open() && CacheGood() && pos == 0 && bufferSize >= 1
      modifies net`st, net`past, net`trace, cache, `pos, `asked
      ensures net.Since(old(net.past)) && Open() && CacheGood()
      ensures NoCollision() ==> out <= Plain()
      ensures NoCollision() && ok ==> out == Plain()
      ensures NoCollision() && AllReadable(net, old(net.st), self, mf) ==> ok
    {
      out, ok := [], false;
      var buf := new bv8[bufferSize];
      Shape();
      while true
        invariant net.Since(old(net.past)) && Open() && CacheGood()
        invariant pos == |out| && Right(0, out) && !ok
        decreases mf.size - pos
      {
        var n, err := ReadPiece(buf, out, old(net.past));
        out := out + buf[..n];
        if err == AtEof {
          ok := true;
          return;
        }
        if err.Broken? || n == 0 {
          return;
        }
      }
    }

    /** One `Read` of the copy loop. */
    method ReadPiece(buf: array<bv8>, out: Bytes, ghost from: seq<State>) returns (n: nat, err: ReadErr)
      requires Open() && CacheGood() && pos == |out| && Right(0, out) && buf.Length >= 1
      requires net.Since(from) && from != []
      modifies net`st, net`past, net`trace, cache, buf, `pos, `asked
      ensures net.Since(from) && Open() && CacheGood()
      ensures n <= buf.Length && pos == |out| + n && Right(0, out + buf[..n])
      ensures old(pos) >= mf.size ==> err == AtEof
      ensures NoCollision() && err == AtEof ==> |out| + n == |Plain()|
      ensures NoCollision() && err == NoErr ==> n > 0
      ensures NoCollision() && AllReadable(net, from[|from| - 1], self, mf) ==> !err.Broken?
    {
      forall i | 0 <= i < |mf.stripes| {
        StillReadable(from, i);
      }
      n, err := Read(buf);
      StillOpen(old(net.past));
      assert Right(0, out);
      assert Right(0 + |out|, buf[..n]);
      RightExtends(0, out, buf[..n]);
    }
  }

  /** The keys a node holds: its groups' shared keys and its own box pair. */
  datatype Keyring = Keyring(groups: map<string, Bytes>, pub: Bytes, priv: Bytes)

  /** The keyring holds what the file key was wrapped for. */
  ghost predicate Entitled(lib: Library, ring: Keyring, self: Peer, o: Original) {
    && o.mf.groupId in ring.groups
    && (o.mf.mode == MODE_SHARED ==> ring.groups[o.mf.groupId] == o.groupKey)
    && (o.mf.mode == MODE_PRIVATE ==>
          self == o.mf.owner && ring.pub == o.ownerPub && |ring.priv| == ENC_KEY_SIZE &&
              lib.boxPair(ring.pub, ring.priv))
  }

  /** The local store works, and this node or a member that can be reached throughout stores
      a manifest of the file. */
  ghost predicate Findable(net: Cluster, s: State, self: Peer, members: seq<Peer>, fileId: FileId) {
    net.AlwaysUp(self, self) && exists p ::
        (p == self || p in members) && net.AlwaysUp(self, p) && Holding(p, fileId) in s.manifests
  }

  /** What was found is a version that one of the members stored, with nobody before it that is
      another, can be reached throughout and had one already. */
  ghost predicate FoundFirst(net: Cluster, before: seq<State>, now: seq<State>, self: Peer, members: seq<Peer>,
                             mf: Manifest)
    requires before != []
  {
    exists i :: 0 <= i < |members| && members[i] != self && WasStored(before, now, members[i], mf) &&
                NobodyHas(net, before[|before| - 1], self, members[..i], mf.fileId)
  }

  ghost predicate NobodyHas(net: Cluster, s: State, self: Peer, members: seq<Peer>, fileId: FileId) {
    forall p :: p in members && p != self && net.AlwaysUp(self, p) ==> Holding(p, fileId) !in s.manifests
  }

  lemma WasStoredLater(before: seq<State>, first: seq<State>, now: seq<State>, later: seq<State>, peer: Peer,
                       mf: Manifest)
    requires WasStored(before, now, peer, mf) && first <= before && now <= later
    ensures WasStored(first, later, peer, mf)
  {
    var n :| |before| - 1 <= n < |now| && n >= 0 && Holding(peer, mf.fileId) in now[n].manifests &&
             now[n].manifests[Holding(peer, mf.fileId)] == mf;
    assert later[n].manifests[Holding(peer, mf.fileId)] == mf;
  }

  /** `fetchManifest`: ask the members in turn. */
  method FetchManifest(net: Cluster, self: Peer, members: seq<Peer>, fileId: FileId) returns (r: Option<Manifest>)
    requires net.Valid()
    modifies net`st, net`past, net`trace, net`own, net`places
    ensures net.Since(old(net.past))
    ensures r.Some? ==> Copy(self, r.value) in net.st.inHand && r.value.fileId == fileId
    ensures r.Some? ==> FoundFirst(net, old(net.past), net.past, self, members, r.value)
    ensures r.None? ==> NobodyHas(net, old(net.st), self, members, fileId)
  {
    for i := 0 to |members|
      invariant net.Since(old(net.past))
      invariant NobodyHas(net, old(net.st), self, members[..i], fileId)
    {
      net.Grown(old(net.past));
      if members[i] != self && net.lib.decodes(members[i]) {
        ghost var before := net.past;
        var loaded := net.LoadManifest(self, members[i], fileId);
        if loaded.Found? {
          WasStoredLater(before, old(net.past), net.past, net.past, members[i], loaded.mf);
          return Some(loaded.mf);
        }
      }
    }
    assert members[..|members|] == members;
    return None;
  }

  /** The local manifest or, failing that, the first one a member sends, which is stored. */
  method FindManifest(net: Cluster, self: Peer, members: seq<Peer>, fileId: FileId) returns (r: Option<Manifest>)
    requires net.Valid()
    modifies net`st, net`past, net`trace, net`own, net`places
    ensures net.Since(old(net.past))
    ensures r.Some? ==> r.value.fileId == fileId && Version(net.st, r.value) && Copy(self, r.value) in net.st.inHand
    ensures Findable(net, old(net.st), self, members, fileId) ==> r.Some?
    ensures r.Some? && self in net.disks ==> Holding(self, fileId) in net.st.manifests
    ensures r.Some? ==>
              || WasStored(old(net.past), net.past, self, r.value)
              || (Holding(self, fileId) !in old(net.st).manifests &&
                  exists from, to :: old(net.past) <= from <= to <= net.past && from != [] &&
                                     FoundFirst(net, from, to, self, members, r.value))
  {
    var local := net.LoadManifest(self, self, fileId);
    if local.Found? {
      InHandVersion(net, self, local.mf);
      WasStoredIsStored(net, old(net.past), self, local.mf);
      return Some(local.mf);
    }
    if local.Unreadable? {
      return None;
    }
    net.Grown(old(net.past));
    ghost var from := net.past;
    r := FetchManifest(net, self, members, fileId);
    if r.Some? {
      ghost var before := net.past;
      assert FoundFirst(net, from, before, self, members, r.value);
      var stored := net.SendManifest(self, self, r.value);
      net.Grown(before);
      InHandVersion(net, self, r.value);
      if stored {
        ReceiptIsStored(net, Receipt(self, self, r.value));
      }
    }
  }

  lemma WasStoredIsStored(net: Cluster, before: seq<State>, peer: Peer, mf: Manifest)
    requires net.Since(before) && before != [] && WasStored(before, net.past, peer, mf)
    ensures Holding(peer, mf.fileId) in net.st.manifests
  {
    var n :| |before| - 1 <= n < |net.past| && n >= 0 && Holding(peer, mf.fileId) in net.past[n].manifests &&
             net.past[n].manifests[Holding(peer, mf.fileId)] == mf;
    RunGrows(net.lib, net.past, net.trace, n, |net.past| - 1);
  }

  lemma ReceiptIsStored(net: Cluster, r: Receipt)
    requires net.Valid() && r in net.st.manifestAcks
    ensures Holding(r.holder, r.mf.fileId) in net.st.manifests
  {
    net.Sane();
  }

  /** `OpenReader`. Whoever the file was wrapped for gets an open reader on it; nobody
      but the owner opens a private file. */
  method OpenReader(net: Cluster, self: Peer, members: seq<Peer>, ring: Keyring, cache: StripeCache, fileId: FileId)
    returns (r: Option<Reader>)
    requires net.Valid() && Sound(net.lib)
    modifies net`st, net`past, net`trace, net`own, net`places
    ensures net.Since(old(net.past))
    ensures r.Some? ==> fresh(r.value) && r.value.net == net && r.value.self == self && r.value.cache == cache
    ensures r.Some? ==> r.value.pos == 0 && r.value.mf.fileId == fileId && Version(net.st, r.value.mf)
    ensures r.Some? ==> Copy(self, r.value.mf) in net.st.inHand
    ensures r.Some? ==> r.value.mf.groupId in ring.groups
    ensures r.Some? ==> Ok(r.value.key) ==
                        UnwrapKey(net.lib, r.value.mf, self, ring.groups[r.value.mf.groupId], ring.pub, ring.priv)
    ensures r.Some? && Entitled(net.lib, ring, self, net.st.files[fileId]) ==> r.value.Open()
    ensures r.Some? && net.st.files[fileId].mf.mode == MODE_PRIVATE ==> self == net.st.files[fileId].mf.owner
    ensures Findable(net, old(net.st), self, members, fileId) ==>
              fileId in net.st.files && (Entitled(net.lib, ring, self, net.st.files[fileId]) ==> r.Some?)
  {
    var found := FindManifest(net, self, members, fileId);
    if found.None? || found.value.groupId !in ring.groups {
      return None;
    }
    var mf := found.value;
    var key := UnwrapKey(net.lib, mf, self, ring.groups[mf.groupId], ring.pub, ring.priv);
    ghost var o := net.st.files[fileId];
    assert Enveloped(net.lib, o) by {
      net.Sane();
    }
    UnwrapRecoversKey(net.lib, o, mf, self, ring.groups[mf.groupId], ring.pub, ring.priv);
    if key.Err? {
      return None;
    }
    var reader := new Reader(net, self, mf, key.value, cache);
    return Some(reader);
  }
}
