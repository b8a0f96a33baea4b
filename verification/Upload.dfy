/** internal/file/file.go, `Put` and `uploadStripe`: stream a body into sealed, coded
    stripes, ship or spool every shard, then commit and replicate the manifest. */
module Upload {
  import opened Base
  import opened Primitives
  import opened Erasure
  import opened Manifests
  import opened ClusterModel
  import opened Network
  import opened Streams
  import opened Recovery
  import Rendezvous

  /** The node's file service; the random choices of one upload come in as `Draw`. */
  datatype Service = Service(self: Peer, p: Params, stripeSize: nat, hasSpool: bool, encPub: Bytes)

  datatype Draw = Draw(fileId: FileId, key: Bytes, nonce: nat -> Bytes)

  ghost predicate GoodDraw(d: Draw) {
    |d.key| == FILE_KEY_SIZE && forall i :: |d.nonce(i)| == NONCE_SIZE
  }

  /** The holder takes the shard, or the node's spool does: the holder can be reached
      throughout, or it can be spooled for and the node's disks work. */
  predicate Shippable(net: Cluster, svc: Service, holder: Peer) {
    net.AlwaysUp(svc.self, holder) ||
    (holder != svc.self && svc.self in net.disks && svc.hasSpool && net.lib.decodes(holder))
  }

  ghost predicate AllShippable(net: Cluster, svc: Service, holders: seq<Peer>) {
    forall h :: h in holders ==> Shippable(net, svc, h)
  }

  /** What the code did since `before` fits an upload to those holders: every action is its
      owner's own, nothing goes or is queued to anybody else, only for decodable holders that
      cannot be reached throughout is anything queued, and no entry is removed. */
  ghost predicate Uploads(net: Cluster, svc: Service, holders: seq<Peer>, before: seq<Action>, now: seq<Action>) {
    before <= now && forall i :: |before| <= i < |now| ==> Uploading(net, svc, holders, now[i])
  }

  lemma UploadsOn(net: Cluster, svc: Service, holders: seq<Peer>, before: seq<Action>, middle: seq<Action>,
                  now: seq<Action>)
    requires Uploads(net, svc, holders, before, middle) && Uploads(net, svc, holders, middle, now)
    ensures Uploads(net, svc, holders, before, now)
  {
    forall i | |before| <= i < |now|
      ensures Uploading(net, svc, holders, now[i])
    {
      if i < |middle| {
        assert now[i] == middle[i];
      }
    }
  }

  predicate Uploading(net: Cluster, svc: Service, holders: seq<Peer>, a: Action) {
    match a
    case PutBlock(client, holder, _, _, _) => client == svc.self && holder in holders
    case Enqueue(client, holder, _, _) => client == svc.self && MayQueueFor(net, svc, holders, holder)
    case Commit(o) => o.mf.owner == svc.self && o.mf.holders == holders
    case SendManifest(peer, target, _, _) => peer == svc.self && target in holders && target != svc.self
    case EnqueueManifest(peer, target, _) => peer == svc.self && MayQueueFor(net, svc, holders, target)
    case _ => false
  }

  predicate MayQueueFor(net: Cluster, svc: Service, holders: seq<Peer>, h: Peer) {
    svc.hasSpool && h in holders && h != svc.self && net.lib.decodes(h) && !net.AlwaysUp(svc.self, h)
  }

  /** Put one shard on its holder, or queue it when the holder cannot be reached. */
  method ShipShard(net: Cluster, svc: Service, holders: seq<Peer>, holder: Peer, shard: Bytes) returns (ok: bool)
    requires net.Valid() && holder in holders
    modifies net`st, net`past, net`trace, net`own, net`places
    ensures net.Since(old(net.past))
    ensures ok ==> Delivered(net.st, svc.self, holder, net.lib.hash(shard)) && shard in net.st.seen
    ensures ok ==> holder == svc.self || net.lib.decodes(holder)
    ensures ok && !svc.hasSpool ==> Parcel(svc.self, holder, net.lib.hash(shard)) in net.st.acks
    ensures net.AlwaysUp(svc.self, holder) ==> Parcel(svc.self, holder, net.lib.hash(shard)) in net.st.acks
    ensures NamesSound(net.lib) && Shippable(net, svc, holder) ==> ok
    ensures Uploads(net, svc, holders, old(net.own), net.own)
    ensures OneShipment(old(net.own), net.own, holder, shard, ok)
  {
    var id := net.lib.hash(shard);
    if holder != svc.self && !net.lib.decodes(holder) {
      return false;
    }
    ok := net.PutShard(svc.self, holder, id, shard);
    if !ok && holder != svc.self && svc.hasSpool {
      ok := net.EnqueueShard(svc.self, holder, id, shard);
    }
  }

  /** One shard is put at most once, and queued only if that was not acknowledged. */
  ghost predicate OneShipment(before: seq<Action>, now: seq<Action>, holder: Peer, shard: Bytes, ok: bool) {
    before <= now &&
    var step := now[|before|..];
    || (step == [] && !ok)
    || (|step| == 1 && PutsShard(step[0], holder, shard, ok))
    || (|step| == 1 && QueuesShard(step[0], holder, shard) && ok)
    || (|step| == 2 && PutsShard(step[0], holder, shard, false) && QueuesShard(step[1], holder, shard) && ok)
  }

  predicate PutsShard(a: Action, holder: Peer, shard: Bytes, acked: bool) {
    a.PutBlock? && a.holder == holder && a.data == shard && a.acked == acked
  }

  predicate QueuesShard(a: Action, holder: Peer, shard: Bytes) {
    a.Enqueue? && a.holder == holder && a.data == shard
  }

  /** Holders that can be reached throughout have acknowledged their shards. */
  ghost predicate Taken(net: Cluster, s: State, self: Peer, holders: seq<Peer>, ids: seq<ShardId>) {
    forall j :: 0 <= j < |holders| && j < |ids| && net.AlwaysUp(self, holders[j]) ==>
        Parcel(self, holders[j], ids[j]) in s.acks
  }

  /** Nobody uploads to a holder other than itself whose id does not decode. */
  predicate Decodable(lib: Library, self: Peer, holders: seq<Peer>) {
    forall j :: 0 <= j < |holders| ==> holders[j] == self || lib.decodes(holders[j])
  }

  /** Every shard of one sealed stripe was delivered to its slot's holder. */
  ghost predicate StripeShipped(lib: Library, s: State, self: Peer, p: Params, holders: seq<Peer>, ct: Bytes,
                                ids: seq<ShardId>) {
    && Decodable(lib, self, holders)
    && (forall j :: 0 <= j < |holders| && j < |ids| ==> Delivered(s, self, holders[j], ids[j]))
    && (forall j :: 0 <= j < |holders| ==> ShardAt(lib, p, ct, j) in s.seen)
  }

  lemma StripeShippedKept(lib: Library, s: State, t: State, self: Peer, p: Params, holders: seq<Peer>, ct: Bytes,
                          ids: seq<ShardId>)
    requires Grows(s, t) && StripeShipped(lib, s, self, p, holders, ct, ids)
    ensures StripeShipped(lib, t, self, p, holders, ct, ids)
  {
  }

  /** The first n shards went out: their ids by hash, each delivered to its slot's holder, whose
      id decodes, and acknowledged by those that stay up. */
  ghost predicate ShippedFirst(net: Cluster, s: State, svc: Service, holders: seq<Peer>, shards: seq<Bytes>,
                               ids: seq<ShardId>, n: nat)
    requires n <= |holders| == |shards|
  {
    && |ids| == n
    && forall j :: 0 <= j < n ==> ids[j] == net.lib.hash(shards[j]) && WentOut(net, s, svc, holders[j], shards[j])
  }

  ghost predicate WentOut(net: Cluster, s: State, svc: Service, holder: Peer, shard: Bytes) {
    && Delivered(s, svc.self, holder, net.lib.hash(shard)) && shard in s.seen
    && (holder == svc.self || net.lib.decodes(holder))
    && (net.AlwaysUp(svc.self, holder) ==> Parcel(svc.self, holder, net.lib.hash(shard)) in s.acks)
  }

  lemma ShippedFirstKept(net: Cluster, earlier: seq<State>, svc: Service, holders: seq<Peer>, shards: seq<Bytes>,
                         ids: seq<ShardId>, n: nat)
    requires net.Since(earlier) && earlier != [] && n <= |holders| == |shards|
    requires ShippedFirst(net, earlier[|earlier| - 1], svc, holders, shards, ids, n)
    ensures ShippedFirst(net, net.st, svc, holders, shards, ids, n)
  {
    net.Grown(earlier);
    forall j | 0 <= j < n
      ensures WentOut(net, net.st, svc, holders[j], shards[j])
    {
      assert WentOut(net, earlier[|earlier| - 1], svc, holders[j], shards[j]);
    }
  }

  method ShipShards(net: Cluster, svc: Service, holders: seq<Peer>, shards: seq<Bytes>)
    returns (ids: seq<ShardId>, ok: bool)
    requires net.Valid() && |holders| == |shards|
    modifies net`st, net`past, net`trace, net`own, net`places
    ensures net.Since(old(net.past))
    ensures ok ==> ShippedFirst(net, net.st, svc, holders, shards, ids, |shards|)
    ensures NamesSound(net.lib) && AllShippable(net, svc, holders) ==> ok
    ensures Uploads(net, svc, holders, old(net.own), net.own)
  {
    ids, ok := [], true;
    for i := 0 to |shards|
      invariant net.Since(old(net.past)) && ok && Uploads(net, svc, holders, old(net.own), net.own)
      invariant ShippedFirst(net, net.st, svc, holders, shards, ids, i)
    {
      ghost var before, own := net.past, net.own;
      ok := ShipShard(net, svc, holders, holders[i], shards[i]);
      UploadsOn(net, svc, holders, old(net.own), own, net.own);
      if !ok {
        return;
      }
      ShippedFirstKept(net, before, svc, holders, shards, ids, i);
      ids := ids + [net.lib.hash(shards[i])];
    }
  }

  /** All shards of a coded stripe having gone out means that the stripe was shipped. */
  lemma AllWentOut(net: Cluster, svc: Service, holders: seq<Peer>, ct: Bytes, ids: seq<ShardId>)
    requires Encode(net.lib, svc.p, ct).Ok? && |holders| == |Encode(net.lib, svc.p, ct).value|
    requires ShippedFirst(net, net.st, svc, holders, Encode(net.lib, svc.p, ct).value, ids, |holders|)
    ensures ids == Ids(net.lib, Encode(net.lib, svc.p, ct).value)
    ensures StripeShipped(net.lib, net.st, svc.self, svc.p, holders, ct, ids)
    ensures Taken(net, net.st, svc.self, holders, ids)
  {
    var shards := Encode(net.lib, svc.p, ct).value;
    forall j | 0 <= j < |holders|
      ensures WentOut(net, net.st, svc, holders[j], shards[j]) && ids[j] == net.lib.hash(shards[j])
      ensures ShardAt(net.lib, svc.p, ct, j) == shards[j]
    {
    }
  }

  predicate Codes(lib: Library, p: Params) {
    p.m >= 1 && RsNew(lib, p.k, p.m)
  }

  /** Stripes can be coded, all their shards taken or spooled, and the manifest stored. */
  ghost predicate Carried(net: Cluster, svc: Service, holders: seq<Peer>) {
    NamesSound(net.lib) && Codes(net.lib, svc.p) && AllShippable(net, svc, holders) && svc.self in net.disks
  }

  /** `uploadStripe`. */
  method UploadStripe(net: Cluster, svc: Service, key: Bytes, nonce: Bytes, holders: seq<Peer>, idx: nat,
                      plaintext: Bytes)
    returns (r: Result<Stripe>, ct: Bytes)
    requires net.Valid() && Sound(net.lib) && |nonce| == NONCE_SIZE
    requires svc.p.k + svc.p.m >= 1 ==> |holders| == svc.p.k + svc.p.m
    modifies net`st, net`past, net`trace, net`own, net`places
    ensures net.Since(old(net.past))
    ensures r.Ok? ==> StripeOf(net.lib, svc.p, key, plaintext, ct, r.value, idx) && nonce <= ct
    ensures r.Ok? ==> StripeShipped(net.lib, net.st, svc.self, svc.p, holders, ct, r.value.shardIds)
    ensures r.Ok? ==> Taken(net, net.st, svc.self, holders, r.value.shardIds)
    ensures Carried(net, svc, holders) && |key| == FILE_KEY_SIZE ==> r.Ok?
    ensures Uploads(net, svc, holders, old(net.own), net.own)
  {
    var sealed := SealAES(net.lib, key, nonce, plaintext);
    SealOpenRoundTrip(net.lib, key, nonce, plaintext);
    if sealed.Err? {
      return Err("encrypt"), [];
    }
    ct := sealed.value;
    var shards := Encode(net.lib, svc.p, ct);
    EncodeShape(net.lib, svc.p, ct);
    if shards.Err? {
      return Err("ec encode"), ct;
    }
    var ids, ok := ShipShards(net, svc, holders, shards.value);
    if !ok {
      return Err("ship shard"), ct;
    }
    AllWentOut(net, svc, holders, ct, ids);
    r := Ok(Stripe(idx, ids, |plaintext|, |ct|));
  }

  /** The stripes uploaded so far are the first `n` of the file. */
  ghost predicate Uploaded(lib: Library, s: State, svc: Service, key: Bytes, holders: seq<Peer>, all: Bytes,
                           cts: seq<Bytes>, stripes: seq<Stripe>)
  {
    && svc.stripeSize >= 1 && |cts| == |stripes|
    && (forall i :: 0 <= i < |cts| ==>
          StripeOf(lib, svc.p, key, Chunk(all, svc.stripeSize, i), cts[i], stripes[i], i))
    && (forall i :: 0 <= i < |cts| ==>
          StripeShipped(lib, s, svc.self, svc.p, holders, cts[i], stripes[i].shardIds))
  }

  ghost predicate AllTaken(net: Cluster, s: State, self: Peer, holders: seq<Peer>, stripes: seq<Stripe>) {
    forall i :: 0 <= i < |stripes| ==> Taken(net, s, self, holders, stripes[i].shardIds)
  }

  lemma AllTakenKept(net: Cluster, earlier: seq<State>, self: Peer, holders: seq<Peer>, stripes: seq<Stripe>)
    requires net.Since(earlier) && earlier != [] && AllTaken(net, earlier[|earlier| - 1], self, holders, stripes)
    ensures AllTaken(net, net.st, self, holders, stripes)
  {
    net.Grown(earlier);
    forall i | 0 <= i < |stripes|
      ensures Taken(net, net.st, self, holders, stripes[i].shardIds)
    {
      assert Taken(net, earlier[|earlier| - 1], self, holders, stripes[i].shardIds);
    }
  }

  lemma AllTakenSnoc(net: Cluster, s: State, self: Peer, holders: seq<Peer>, stripes: seq<Stripe>, stripe: Stripe)
    requires AllTaken(net, s, self, holders, stripes) && Taken(net, s, self, holders, stripe.shardIds)
    ensures AllTaken(net, s, self, holders, stripes + [stripe])
  {
  }

  lemma UploadedKept(lib: Library, s: State, t: State, svc: Service, key: Bytes, holders: seq<Peer>, all: Bytes,
                     cts: seq<Bytes>, stripes: seq<Stripe>)
    requires Grows(s, t) && Uploaded(lib, s, svc, key, holders, all, cts, stripes)
    ensures Uploaded(lib, t, svc, key, holders, all, cts, stripes)
  {
    forall i | 0 <= i < |cts|
      ensures StripeShipped(lib, t, svc.self, svc.p, holders, cts[i], stripes[i].shardIds)
    {
      StripeShippedKept(lib, s, t, svc.self, svc.p, holders, cts[i], stripes[i].shardIds);
    }
  }

  /** One more stripe extends it. */
  lemma UploadedSnoc(lib: Library, s: State, t: State, svc: Service, key: Bytes, holders: seq<Peer>, all: Bytes,
                     cts: seq<Bytes>, stripes: seq<Stripe>, ct: Bytes, stripe: Stripe)
    requires Grows(s, t) && Uploaded(lib, s, svc, key, holders, all, cts, stripes)
    requires StripeOf(lib, svc.p, key, Chunk(all, svc.stripeSize, |cts|), ct, stripe, |cts|)
    requires StripeShipped(lib, t, svc.self, svc.p, holders, ct, stripe.shardIds)
    ensures Uploaded(lib, t, svc, key, holders, all, cts + [ct], stripes + [stripe])
  {
    UploadedKept(lib, s, t, svc, key, holders, all, cts, stripes);
  }

  lemma StillUploaded(net: Cluster, earlier: seq<State>, svc: Service, key: Bytes, holders: seq<Peer>, all: Bytes,
                      cts: seq<Bytes>, stripes: seq<Stripe>)
    requires net.Since(earlier) && earlier != []
    requires Uploaded(net.lib, earlier[|earlier| - 1], svc, key, holders, all, cts, stripes)
    requires AllTaken(net, earlier[|earlier| - 1], svc.self, holders, stripes)
    ensures Uploaded(net.lib, net.st, svc, key, holders, all, cts, stripes)
    ensures AllTaken(net, net.st, svc.self, holders, stripes)
  {
    net.Grown(earlier);
    UploadedKept(net.lib, earlier[|earlier| - 1], net.st, svc, key, holders, all, cts, stripes);
    AllTakenKept(net, earlier, svc.self, holders, stripes);
  }

  lemma OneMoreUploaded(net: Cluster, earlier: seq<State>, svc: Service, key: Bytes, holders: seq<Peer>, all: Bytes,
                        cts: seq<Bytes>, stripes: seq<Stripe>, ct: Bytes, stripe: Stripe)
    requires net.Since(earlier) && earlier != []
    requires Uploaded(net.lib, earlier[|earlier| - 1], svc, key, holders, all, cts, stripes)
    requires AllTaken(net, earlier[|earlier| - 1], svc.self, holders, stripes)
    requires Taken(net, net.st, svc.self, holders, stripe.shardIds)
    requires StripeOf(net.lib, svc.p, key, Chunk(all, svc.stripeSize, |cts|), ct, stripe, |cts|)
    requires StripeShipped(net.lib, net.st, svc.self, svc.p, holders, ct, stripe.shardIds)
    ensures Uploaded(net.lib, net.st, svc, key, holders, all, cts + [ct], stripes + [stripe])
    ensures AllTaken(net, net.st, svc.self, holders, stripes + [stripe])
  {
    net.Grown(earlier);
    UploadedSnoc(net.lib, earlier[|earlier| - 1], net.st, svc, key, holders, all, cts, stripes, ct, stripe);
    AllTakenKept(net, earlier, svc.self, holders, stripes);
    AllTakenSnoc(net, net.st, svc.self, holders, stripes, stripe);
  }

  lemma FullStripesCover(n: nat, size: nat)
    requires size >= 1
    ensures n * size > 0 ==> Covers(n, size, n * size)
  {
    assert (n - 1) * size == n * size - size;
  }

  /** What `ReadFull` takes after n full stripes is chunk n. */
  lemma NextChunk(all: Bytes, size: nat, n: nat, chunk: Bytes, rest: Bytes)
    requires size >= 1 && n * size <= |all|
    requires chunk == all[n * size..][..Min(size, |all| - n * size)] && chunk + rest == all[n * size..]
    ensures chunk == Chunk(all, size, n)
    ensures rest == all[n * size + |chunk|..]
    ensures |chunk| == size ==> n * size + |chunk| == (n + 1) * size
    ensures 0 < |chunk| < size ==> n * size + |chunk| == |all| && Covers(n + 1, size, |all|)
  {
    assert (n + 1) * size == n * size + size;
    ChunkLength(all, size, n);
    assert rest == all[n * size..][|chunk|..];
  }

  /** Read up to a stripe's worth: chunk `idx` of the stream, what is left of it after that, and
      how it ends. */
  method ReadChunk(body: Body, size: nat, idx: nat, ghost all: Bytes) returns (chunk: Bytes, err: ReadEnd)
    requires size >= 1 && idx * size <= |all| && body.Rest() == all[idx * size..]
    modifies body
    ensures chunk == Chunk(all, size, idx)
    ensures err == More ==> |chunk| == size && (idx + 1) * size <= |all| && body.Rest() == all[(idx + 1) * size..]
    ensures err == Failed <==> err != More && body.ending.Failing?
    ensures err == Eof || err == UnexpectedEof ==> idx * size + |chunk| == |all| && !body.ending.Failing?
    ensures (err == Eof || err == UnexpectedEof) && chunk != [] ==> Covers(idx + 1, size, |all|)
  {
    chunk, err := ReadFull(body, size);
    NextChunk(all, size, idx, chunk, body.Rest());
  }

  /** How one turn of the stripe loop goes. */
  datatype Turn = Ended | Went(stripe: Stripe, ct: Bytes, n: nat, last: bool) | Broke(why: string)

  /** Stripe i was sealed under nonce i + 1 of the draw; the first is for the file key. */
  ghost predicate OwnNonces(d: Draw, cts: seq<Bytes>) {
    forall i :: 0 <= i < |cts| ==> d.nonce(i + 1) <= cts[i]
  }

  /** One turn: read up to a stripe's worth, seal, code and ship it. */
  method UploadNext(net: Cluster, svc: Service, d: Draw, holders: seq<Peer>, body: Body, idx: nat, ghost all: Bytes)
    returns (t: Turn)
    requires net.Valid() && Sound(net.lib) && GoodDraw(d) && svc.stripeSize >= 1
    requires svc.p.k + svc.p.m >= 1 ==> |holders| == svc.p.k + svc.p.m
    requires idx * svc.stripeSize <= |all| && body.Rest() == all[idx * svc.stripeSize..]
    modifies net`st, net`past, net`trace, net`own, net`places, body
    ensures net.Since(old(net.past))
    ensures t.Ended? ==> |all| == idx * svc.stripeSize && !body.ending.Failing?
    ensures t.Went? ==> StripeOf(net.lib, svc.p, d.key, Chunk(all, svc.stripeSize, idx), t.ct, t.stripe, idx)
    ensures t.Went? ==> StripeShipped(net.lib, net.st, svc.self, svc.p, holders, t.ct, t.stripe.shardIds)
    ensures t.Went? && !t.last ==>
              t.n == svc.stripeSize && (idx + 1) * svc.stripeSize <= |all| &&
                  body.Rest() == all[(idx + 1) * svc.stripeSize..]
    ensures t.Went? && t.last ==>
              idx * svc.stripeSize + t.n == |all| && Covers(idx + 1, svc.stripeSize, |all|) && !body.ending.Failing?
    ensures t.Went? ==> Taken(net, net.st, svc.self, holders, t.stripe.shardIds) && d.nonce(idx + 1) <= t.ct
    ensures Uploads(net, svc, holders, old(net.own), net.own)
    ensures Carried(net, svc, holders) && !body.ending.Failing? ==> !t.Broke?
  {
    var chunk, err := ReadChunk(body, svc.stripeSize, idx, all);
    if chunk == [] && (err == Eof || err == UnexpectedEof) {
      return Ended;
    }
    t := UploadChunk(net, svc, d, holders, idx, chunk, err);
  }

  /** The rest of a turn, once a chunk was read. */
  method UploadChunk(net: Cluster, svc: Service, d: Draw, holders: seq<Peer>, idx: nat, chunk: Bytes, err: ReadEnd)
    returns (t: Turn)
    requires net.Valid() && Sound(net.lib) && GoodDraw(d)
    requires svc.p.k + svc.p.m >= 1 ==> |holders| == svc.p.k + svc.p.m
    modifies net`st, net`past, net`trace, net`own, net`places
    ensures net.Since(old(net.past)) && !t.Ended? && (t.Went? ==> t.n == |chunk|)
    ensures t.Went? ==> (t.last <==> err != More) && err != Failed
    ensures t.Went? ==> StripeOf(net.lib, svc.p, d.key, chunk, t.ct, t.stripe, idx) && d.nonce(idx + 1) <= t.ct
    ensures t.Went? ==> StripeShipped(net.lib, net.st, svc.self, svc.p, holders, t.ct, t.stripe.shardIds)
    ensures t.Went? ==> Taken(net, net.st, svc.self, holders, t.stripe.shardIds)
    ensures Carried(net, svc, holders) && err != Failed ==> !t.Broke?
    ensures Uploads(net, svc, holders, old(net.own), net.own)
  {
    var stripe, ct := UploadStripe(net, svc, d.key, d.nonce(idx + 1), holders, idx, chunk);
    if stripe.Err? {
      return Broke("stripe");
    }
    if err == Failed {
      return Broke("read body");
    }
    return Went(stripe.value, ct, |chunk|, err != More);
  }

  /** Where the stripe loop stands: the stripes so far are those of the stream, and `rest` of
      it is still to come, or the loop is done and they just cover it. */
  ghost predicate Underway(net: Cluster, s: State, svc: Service, key: Bytes, holders: seq<Peer>, all: Bytes,
                           cts: seq<Bytes>, stripes: seq<Stripe>, total: nat, done: bool, rest: Bytes, ending: Ending)
  {
    && Uploaded(net.lib, s, svc, key, holders, all, cts, stripes) && AllTaken(net, s, svc.self, holders, stripes)
    && total <= |all|
    && (!done ==> total == |cts| * svc.stripeSize && rest == all[total..])
    && (done ==> total == |all| && !ending.Failing? && (total > 0 ==> Covers(|cts|, svc.stripeSize, total)))
  }

  /** One turn with its bookkeeping. */
  method UploadTurn(net: Cluster, svc: Service, d: Draw, holders: seq<Peer>, body: Body, ghost all: Bytes,
                    cts: seq<Bytes>, stripes: seq<Stripe>, total: nat)
    returns (broke: Option<string>, cts': seq<Bytes>, stripes': seq<Stripe>, total': nat, done: bool)
    requires net.Valid() && Sound(net.lib) && GoodDraw(d) && svc.stripeSize >= 1
    requires svc.p.k + svc.p.m >= 1 ==> |holders| == svc.p.k + svc.p.m
    requires Underway(net, net.st, svc, d.key, holders, all, cts, stripes, total, false, body.Rest(), body.ending)
    requires OwnNonces(d, cts)
    modifies net`st, net`past, net`trace, net`own, net`places, body
    ensures net.Since(old(net.past))
    ensures broke.None? ==> Underway(net, net.st, svc, d.key, holders, all, cts', stripes', total', done, body.Rest(),
                                     body.ending)
    ensures broke.None? && !done ==> total < total'
    ensures broke.None? ==> OwnNonces(d, cts')
    ensures Uploads(net, svc, holders, old(net.own), net.own)
    ensures Carried(net, svc, holders) && !body.ending.Failing? ==> broke.None?
  {
    ghost var before := net.past;
    var turn := UploadNext(net, svc, d, holders, body, |cts|, all);
    match turn {
      case Broke(why) =>
        return Some(why), cts, stripes, total, true;
      case Ended =>
        StillUploaded(net, before, svc, d.key, holders, all, cts, stripes);
        FullStripesCover(|cts|, svc.stripeSize);
        return None, cts, stripes, total, true;
      case Went(stripe, ct, n, last) =>
        OneMoreUploaded(net, before, svc, d.key, holders, all, cts, stripes, ct, stripe);
        assert (|cts| + 1) * svc.stripeSize == |cts| * svc.stripeSize + svc.stripeSize;
        return None, cts + [ct], stripes + [stripe], total + n, last;
    }
  }

  /** The stripe loop of `Put`. */
  method UploadStripes(net: Cluster, svc: Service, d: Draw, holders: seq<Peer>, body: Body)
    returns (r: Result<seq<Stripe>>, total: nat, cts: seq<Bytes>)
    requires net.Valid() && Sound(net.lib) && GoodDraw(d) && svc.stripeSize >= 1
    requires svc.p.k + svc.p.m >= 1 ==> |holders| == svc.p.k + svc.p.m
    modifies net`st, net`past, net`trace, net`own, net`places, body
    ensures net.Since(old(net.past))
    ensures r.Ok? ==> total == |old(body.Rest())| && !body.ending.Failing?
    ensures r.Ok? ==> Uploaded(net.lib, net.st, svc, d.key, holders, old(body.Rest()), cts, r.value)
    ensures r.Ok? && total > 0 ==> Covers(|cts|, svc.stripeSize, total)
    ensures r.Ok? ==> AllTaken(net, net.st, svc.self, holders, r.value) && OwnNonces(d, cts)
    ensures Carried(net, svc, holders) && !body.ending.Failing? ==> r.Ok?
    ensures Uploads(net, svc, holders, old(net.own), net.own)
  {
    ghost var all := body.Rest();
    var stripes: seq<Stripe> := [];
    var done := false;
    total, cts := 0, [];
    while !done
      invariant net.Since(old(net.past)) && Uploads(net, svc, holders, old(net.own), net.own) && OwnNonces(d, cts)
      invariant Underway(net, net.st, svc, d.key, holders, all, cts, stripes, total, done, body.Rest(), body.ending)
      decreases !done, |all| - total
    {
      var broke;
      broke, cts, stripes, total, done := UploadTurn(net, svc, d, holders, body, all, cts, stripes, total);
      if broke.Some? {
        return Err(broke.value), total, cts;
      }
    }
    r := Ok(stripes);
  }

  /** The manifest and the facts behind it, once the loop has ended. */
  function MakeOriginal(svc: Service, d: Draw, groupId: string, groupKey: Bytes, mode: string, wrapped: Bytes,
                        holders: seq<Peer>, stripes: seq<Stripe>, plain: Bytes, cts: seq<Bytes>): Original
  {
    Original(Manifest(d.fileId, groupId, |plain|, svc.p.k, svc.p.m, svc.stripeSize, holders, stripes, svc.self, mode,
                      wrapped),
             plain, d.key, cts, groupKey, svc.encPub)
  }

  lemma UploadedDescribes(lib: Library, s: State, svc: Service, d: Draw, o: Original)
    requires Sound(lib) && GoodDraw(d)
    requires o == MakeOriginal(svc, d, o.mf.groupId, o.groupKey, o.mf.mode, o.mf.wrappedKey, o.mf.holders, o.mf.stripes,
                               o.plain, o.cts)
    requires Uploaded(lib, s, svc, d.key, o.mf.holders, o.plain, o.cts, o.mf.stripes)
    requires Covers(|o.cts|, svc.stripeSize, |o.plain|)
    requires WrapKey(lib, o.mf.mode, d.key, o.groupKey, svc.encPub, d.nonce(0)) == Ok(o.mf.wrappedKey)
    requires |o.mf.holders| == svc.p.k + svc.p.m && NoDup(o.mf.holders)
    ensures Describes(lib, o) && WellFormed(o.mf) && Shipped(lib, s, o)
  {
    WrapEnvelopes(lib, o, d.nonce(0));
    forall i | 0 <= i < |o.cts|
      ensures |o.mf.stripes[i].shardIds| == svc.p.k + svc.p.m && svc.p.k >= 1 && svc.p.m >= 1
      ensures StripeShipped(lib, s, svc.self, svc.p, o.mf.holders, o.cts[i], o.mf.stripes[i].shardIds)
    {
      assert StripeOf(lib, svc.p, d.key, Chunk(o.plain, svc.stripeSize, i), o.cts[i], o.mf.stripes[i], i);
      EncodeShape(lib, svc.p, o.cts[i]);
    }
    assert |o.mf.stripes[0].shardIds| == svc.p.k + svc.p.m;
  }

  /** The holder has acknowledged the manifest, or it waits in the spool. */
  ghost predicate Awaits(s: State, self: Peer, h: Peer, mf: Manifest) {
    || Receipt(self, h, mf) in s.manifestAcks
    || (Parcel(self, h, mf.fileId) in s.manifestSpool && s.manifestSpool[Parcel(self, h, mf.fileId)] == mf)
  }

  lemma AwaitsKept(net: Cluster, earlier: seq<State>, self: Peer, h: Peer, mf: Manifest)
    requires net.Since(earlier) && earlier != [] && Awaits(earlier[|earlier| - 1], self, h, mf)
    ensures Awaits(net.st, self, h, mf)
  {
    net.Grown(earlier);
  }

  /** The first n holders, other than the node itself, have the manifest or will be sent it. */
  ghost predicate Announced(net: Cluster, s: State, svc: Service, mf: Manifest, n: nat)
    requires n <= |mf.holders|
  {
    NamesSound(net.lib) && mf.fileId != "" ==>
      forall i :: 0 <= i < n && mf.holders[i] != svc.self && Shippable(net, svc, mf.holders[i]) ==>
          Awaits(s, svc.self, mf.holders[i], mf)
  }

  lemma AnnouncedKept(net: Cluster, earlier: seq<State>, svc: Service, mf: Manifest, n: nat)
    requires net.Since(earlier) && earlier != [] && n <= |mf.holders|
    requires Announced(net, earlier[|earlier| - 1], svc, mf, n)
    ensures Announced(net, net.st, svc, mf, n)
  {
    if NamesSound(net.lib) && mf.fileId != "" {
      forall i | 0 <= i < n && mf.holders[i] != svc.self && Shippable(net, svc, mf.holders[i])
        ensures Awaits(net.st, svc.self, mf.holders[i], mf)
      {
        AwaitsKept(net, earlier, svc.self, mf.holders[i], mf);
      }
    }
  }

  /** Offer the manifest to one holder, queueing it if the holder cannot be reached. */
  method Offer(net: Cluster, svc: Service, mf: Manifest, h: Peer)
    requires net.Valid() && mf.owner == svc.self && Copy(svc.self, mf) in net.st.inHand && h in mf.holders
    requires mf.fileId in net.st.files && net.st.files[mf.fileId].mf == mf
    modifies net`st, net`past, net`trace, net`own, net`places
    ensures net.Since(old(net.past))
    ensures h != svc.self && net.AlwaysUp(svc.self, h) ==> Receipt(svc.self, h, mf) in net.st.manifestAcks
    ensures h != svc.self && NamesSound(net.lib) && mf.fileId != "" && Shippable(net, svc, h) ==>
              Awaits(net.st, svc.self, h, mf)
    ensures Uploads(net, svc, mf.holders, old(net.own), net.own)
  {
    if h == svc.self || !net.lib.decodes(h) {
      return;
    }
    var sent := net.SendManifest(svc.self, h, mf);
    net.Grown(old(net.past));
    if !sent && svc.hasSpool {
      var queued := net.QueueManifest(svc.self, h, mf);
    }
  }

  /** Offer the manifest to every holder. */
  method Replicate(net: Cluster, svc: Service, mf: Manifest)
    requires net.Valid() && mf.owner == svc.self && Copy(svc.self, mf) in net.st.inHand
    requires mf.fileId in net.st.files && net.st.files[mf.fileId].mf == mf
    modifies net`st, net`past, net`trace, net`own, net`places
    ensures net.Since(old(net.past)) && Replicated(net, net.st, svc.self, mf, |mf.holders|)
    ensures Announced(net, net.st, svc, mf, |mf.holders|) && Uploads(net, svc, mf.holders, old(net.own), net.own)
  {
    for i := 0 to |mf.holders|
      invariant net.Since(old(net.past)) && Replicated(net, net.st, svc.self, mf, i)
      invariant Announced(net, net.st, svc, mf, i) && Uploads(net, svc, mf.holders, old(net.own), net.own)
    {
      net.Grown(old(net.past));
      ghost var before := net.past;
      Offer(net, svc, mf, mf.holders[i]);
      ReplicatedKept(net, before, svc.self, mf, i);
      AnnouncedKept(net, before, svc, mf, i);
    }
  }

  /** The holders of a file: the heaviest members for it, one per slot. */
  function Chosen(svc: Service, members: seq<Peer>, weight: (Peer, FileId) -> int, fileId: FileId): seq<Peer> {
    Rendezvous.Pick(members, (p: Peer) => weight(p, fileId), svc.p.k + svc.p.m)
  }

  lemma ChosenDistinct(svc: Service, members: seq<Peer>, weight: (Peer, FileId) -> int, fileId: FileId)
    requires NoDup(members) && 1 <= svc.p.k + svc.p.m <= |members|
    ensures |Chosen(svc, members, weight, fileId)| == svc.p.k + svc.p.m && NoDup(Chosen(svc, members, weight, fileId))
    ensures forall h :: h in Chosen(svc, members, weight, fileId) ==> h in members
  {
    Rendezvous.PickDistinct(members, (p: Peer) => weight(p, fileId), svc.p.k + svc.p.m);
  }

  /** What an upload needs besides its stream and its holders. */
  ghost predicate CanUpload(svc: Service, members: nat, groupKey: Bytes, modeOption: string) {
    && svc.p.k + svc.p.m <= members
    && modeOption in {"", MODE_SHARED, MODE_PRIVATE}
    && (modeOption == MODE_PRIVATE ==> |svc.encPub| == ENC_KEY_SIZE)
    && (modeOption != MODE_PRIVATE ==> |groupKey| == FILE_KEY_SIZE)
  }

  /** What `Put` leaves behind: the record is what was read from the stream, the holders that
      stay up have their shards of every stripe and the manifest, and the others that can
      be spooled for have the manifest or will be sent it. */
  ghost predicate Recorded(net: Cluster, svc: Service, d: Draw, groupKey: Bytes, plain: Bytes, mf: Manifest)
    reads net
  {
    && d.fileId in net.st.files && Copy(svc.self, mf) in net.st.inHand &&
        Holding(svc.self, d.fileId) in net.st.manifests
    && net.st.files[d.fileId].mf == mf && net.st.files[d.fileId].plain == plain && net.st.files[d.fileId].key == d.key
    && net.st.files[d.fileId].groupKey == groupKey && net.st.files[d.fileId].ownerPub == svc.encPub
    && mf.fileId == d.fileId && mf.owner == svc.self && mf.k == svc.p.k && mf.m == svc.p.m
    && mf.stripeSize == svc.stripeSize && Decodable(net.lib, svc.self, mf.holders)
    && OwnNonces(d, net.st.files[d.fileId].cts) && (mf.mode == MODE_SHARED ==> d.nonce(0) <= mf.wrappedKey)
    && AllTaken(net, net.st, svc.self, mf.holders, mf.stripes)
    && Replicated(net, net.st, svc.self, mf, |mf.holders|) && Announced(net, net.st, svc, mf, |mf.holders|)
  }

  /** `Put`. On success the file's record holds exactly the bytes read from the stream; on
      failure no such file exists. It fails for unknown modes, too few members, streams
      that fail and streams without a byte. On all other inputs it succeeds if every holder
      takes its shards or can be spooled for, also when the stream was cut short. */
  method Put(net: Cluster, svc: Service, d: Draw, members: seq<Peer>, weight: (Peer, FileId) -> int, groupId: string,
             groupKey: Bytes, modeOption: string, body: Body) returns (r: Result<Manifest>)
    requires net.Valid() && Sound(net.lib) && GoodDraw(d) && svc.stripeSize >= 1
    requires NoDup(members) && d.fileId in net.mine && d.fileId !in net.ours
    modifies net, body
    ensures net.Since(old(net.past))
    ensures r.Err? ==> d.fileId !in net.st.files
    ensures r.Ok? ==> Recorded(net, svc, d, groupKey, old(body.Rest()), r.value)
    ensures r.Ok? ==>
              && r.value.holders == Chosen(svc, members, weight, d.fileId)
              && r.value.mode == (if modeOption == "" then MODE_SHARED else modeOption) && r.value.groupId == groupId
    ensures r.Ok? ==> old(body.Rest()) != [] && !body.ending.Failing? && 1 <= svc.p.k + svc.p.m <= |members|
    ensures r.Ok? ==> modeOption in {"", MODE_SHARED, MODE_PRIVATE}
    ensures (CanUpload(svc, |members|, groupKey, modeOption) &&
             Carried(net, svc, Chosen(svc, members, weight, d.fileId))) ==>
              (r.Ok? <==> old(body.Rest()) != [] && !body.ending.Failing?)
    ensures Uploads(net, svc, Chosen(svc, members, weight, d.fileId), old(net.own), net.own)
  {
    var mode := if modeOption == "" then MODE_SHARED else modeOption;
    if mode != MODE_SHARED && mode != MODE_PRIVATE {
      return Err("unknown mode");
    }
    var slots := svc.p.k + svc.p.m;
    if |members| < slots {
      return Err("too few members");
    }
    var holders := Chosen(svc, members, weight, d.fileId);
    if slots >= 1 {
      ChosenDistinct(svc, members, weight, d.fileId);
    }
    r := PutOn(net, svc, d, holders, groupId, groupKey, mode, body);
  }

  /** `Put` once the holders are chosen. */
  method PutOn(net: Cluster, svc: Service, d: Draw, holders: seq<Peer>, groupId: string, groupKey: Bytes, mode: string,
               body: Body)
    returns (r: Result<Manifest>)
    requires net.Valid() && Sound(net.lib) && GoodDraw(d) && svc.stripeSize >= 1
    requires svc.p.k + svc.p.m >= 1 ==> |holders| == svc.p.k + svc.p.m && NoDup(holders)
    requires d.fileId in net.mine && d.fileId !in net.ours
    modifies net, body
    ensures net.Since(old(net.past))
    ensures r.Err? ==> d.fileId !in net.st.files
    ensures r.Ok? ==> Recorded(net, svc, d, groupKey, old(body.Rest()), r.value)
    ensures r.Ok? ==> r.value.holders == holders && r.value.mode == mode && r.value.groupId == groupId
    ensures r.Ok? ==> svc.p.k + svc.p.m >= 1
    ensures r.Ok? ==> old(body.Rest()) != [] && !body.ending.Failing?
    ensures (WrapKey(net.lib, mode, d.key, groupKey, svc.encPub, d.nonce(0)).Ok? && Carried(net, svc, holders) &&
             old(body.Rest()) != [] && !body.ending.Failing?) ==> r.Ok?
    ensures Uploads(net, svc, holders, old(net.own), net.own)
  {
    var wrapped := WrapKey(net.lib, mode, d.key, groupKey, svc.encPub, d.nonce(0));
    if wrapped.Err? {
      return Err("wrap key");
    }
    var plain := body.Rest();
    var stripes, total, cts := UploadStripes(net, svc, d, holders, body);
    if stripes.Err? {
      return Err("upload");
    }
    if total == 0 {
      return Err("file is empty");
    }
    r := Finish(net, svc, d, groupId, groupKey, mode, wrapped.value, holders, stripes.value, total, cts, plain);
  }

  /** The end of `Put`: commit the manifest and replicate it. */
  method Finish(net: Cluster, svc: Service, d: Draw, groupId: string, groupKey: Bytes, mode: string, wrapped: Bytes,
                holders: seq<Peer>, stripes: seq<Stripe>, total: nat, cts: seq<Bytes>, plain: Bytes)
    returns (r: Result<Manifest>)
    requires net.Valid() && Sound(net.lib) && GoodDraw(d)
    requires d.fileId in net.mine && d.fileId !in net.ours
    requires Uploaded(net.lib, net.st, svc, d.key, holders, plain, cts, stripes)
    requires AllTaken(net, net.st, svc.self, holders, stripes) && OwnNonces(d, cts)
    requires Covers(|cts|, svc.stripeSize, total) && total == |plain|
    requires WrapKey(net.lib, mode, d.key, groupKey, svc.encPub, d.nonce(0)) == Ok(wrapped)
    requires svc.p.k + svc.p.m >= 1 ==> |holders| == svc.p.k + svc.p.m && NoDup(holders)
    modifies net
    ensures net.Since(old(net.past))
    ensures r.Err? ==> d.fileId !in net.st.files
    ensures r.Ok? ==> Recorded(net, svc, d, groupKey, plain, r.value)
    ensures r.Ok? ==> r.value.holders == holders && r.value.mode == mode && r.value.groupId == groupId
    ensures r.Ok? ==> svc.p.k + svc.p.m >= 1
    ensures svc.self in net.disks ==> r.Ok?
    ensures Uploads(net, svc, holders, old(net.own), net.own)
  {
    var o := MakeOriginal(svc, d, groupId, groupKey, mode, wrapped, holders, stripes, plain, cts);
    assert svc.p.k + svc.p.m >= 1 by {
      assert StripeOf(net.lib, svc.p, d.key, Chunk(plain, svc.stripeSize, 0), cts[0], stripes[0], 0);
    }
    assert Decodable(net.lib, svc.self, holders) by {
      assert StripeShipped(net.lib, net.st, svc.self, svc.p, holders, cts[0], stripes[0].shardIds);
    }
    UploadedDescribes(net.lib, net.st, svc, d, o);
    r := Conclude(net, svc, o);
  }

  /** Store the manifest, then offer it to the holders. */
  method Conclude(net: Cluster, svc: Service, o: Original) returns (r: Result<Manifest>)
    requires net.Valid() && o.mf.fileId in net.mine && o.mf.fileId !in net.ours && o.mf.owner == svc.self
    requires WellFormed(o.mf) && Describes(net.lib, o) && Shipped(net.lib, net.st, o)
    requires AllTaken(net, net.st, svc.self, o.mf.holders, o.mf.stripes)
    modifies net
    ensures net.Since(old(net.past))
    ensures r.Err? ==> o.mf.fileId !in net.st.files
    ensures r.Ok? ==> r.value == o.mf && o.mf.fileId in net.st.files && net.st.files[o.mf.fileId] == o
    ensures r.Ok? ==> Copy(svc.self, o.mf) in net.st.inHand && Holding(svc.self, o.mf.fileId) in net.st.manifests
    ensures r.Ok? ==> AllTaken(net, net.st, svc.self, o.mf.holders, o.mf.stripes)
    ensures r.Ok? ==> Replicated(net, net.st, svc.self, o.mf, |o.mf.holders|)
    ensures r.Ok? ==> Announced(net, net.st, svc, o.mf, |o.mf.holders|)
    ensures svc.self in net.disks ==> r.Ok?
    ensures Uploads(net, svc, o.mf.holders, old(net.own), net.own)
  {
    ghost var before := net.past;
    var ok := net.CommitFile(o);
    if !ok {
      return Err("save manifest");
    }
    AllTakenKept(net, before, svc.self, o.mf.holders, o.mf.stripes);
    ghost var own := net.own;
    ReplicateCommitted(net, svc, o);
    UploadsOn(net, svc, o.mf.holders, old(net.own), own, net.own);
    return Ok(o.mf);
  }

  method ReplicateCommitted(net: Cluster, svc: Service, o: Original)
    requires net.Valid() && o.mf.owner == svc.self && o.mf.fileId in net.st.files && net.st.files[o.mf.fileId] == o
    requires Copy(svc.self, o.mf) in net.st.inHand && Holding(svc.self, o.mf.fileId) in net.st.manifests
    requires AllTaken(net, net.st, svc.self, o.mf.holders, o.mf.stripes)
    modifies net`st, net`past, net`trace, net`own, net`places
    ensures net.Since(old(net.past)) && o.mf.fileId in net.st.files && net.st.files[o.mf.fileId] == o
    ensures Copy(svc.self, o.mf) in net.st.inHand && Holding(svc.self, o.mf.fileId) in net.st.manifests
    ensures AllTaken(net, net.st, svc.self, o.mf.holders, o.mf.stripes)
    ensures Replicated(net, net.st, svc.self, o.mf, |o.mf.holders|)
    ensures Announced(net, net.st, svc, o.mf, |o.mf.holders|)
    ensures Uploads(net, svc, o.mf.holders, old(net.own), net.own)
  {
    ghost var committed := net.past;
    Replicate(net, svc, o.mf);
    StillCommitted(net, committed, o);
    AllTakenKept(net, committed, svc.self, o.mf.holders, o.mf.stripes);
  }

  lemma StillCommitted(net: Cluster, earlier: seq<State>, o: Original)
    requires net.Since(earlier) && earlier != []
    requires var s := earlier[|earlier| - 1];
             && o.mf.fileId in s.files && s.files[o.mf.fileId] == o && Copy(o.mf.owner, o.mf) in s.inHand
             && Holding(o.mf.owner, o.mf.fileId) in s.manifests
    ensures o.mf.fileId in net.st.files && net.st.files[o.mf.fileId] == o && Copy(o.mf.owner, o.mf) in net.st.inHand
    ensures Holding(o.mf.owner, o.mf.fileId) in net.st.manifests
  {
    net.Grown(earlier);
  }

  /** A request body that breaks off after some of its bytes is committed as a complete
      file: for every upload that would succeed and every proper part of its bytes. */
  method UploadCutShort(net: Cluster, svc: Service, d: Draw, members: seq<Peer>, weight: (Peer, FileId) -> int,
                        groupId: string, groupKey: Bytes, modeOption: string, whole: Bytes,
                        cut: nat) returns (r: Result<Manifest>)
    requires net.Valid() && Sound(net.lib) && GoodDraw(d) && svc.stripeSize >= 1
    requires NoDup(members) && d.fileId in net.mine && d.fileId !in net.ours
    requires 1 <= cut < |whole|
    requires CanUpload(svc, |members|, groupKey, modeOption)
    requires Carried(net, svc, Chosen(svc, members, weight, d.fileId))
    modifies net
    ensures net.Since(old(net.past)) && r.Ok?
    ensures d.fileId in net.st.files && net.st.files[d.fileId].plain == whole[..cut] != whole
  {
    var body := new Body([whole[..cut]], CutShort, false);
    assert [whole[..cut]][1..] == [];
    assert body.Rest() == whole[..cut] + Flatten([]);
    r := Put(net, svc, d, members, weight, groupId, groupKey, modeOption, body);
  }
}
