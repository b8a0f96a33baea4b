/** What the invariant means for users: over every run, no shard of a known file is ever
    lost, whoever holds a shard holds the original bytes, and any k of them give back the
    uploaded plaintext. And what it does not mean: an upload can succeed with no shard
    delivered to anybody. */
module Durability {
  import opened Base
  import opened Primitives
  import opened Erasure
  import opened Manifests
  import opened ClusterModel
  import opened Recovery
  import opened SpoolWorker

  /** A manifest that some node stores, has spooled, or has in hand. */
  ghost predicate Known(s: State, mf: Manifest) {
    || (exists h :: h in s.manifests && s.manifests[h] == mf)
    || (exists q :: q in s.manifestSpool && s.manifestSpool[q] == mf)
    || (exists p :: Copy(p, mf) in s.inHand)
  }

  lemma KnownIsGenuine(lib: Library, s: State, mf: Manifest)
    requires Reachable(lib, s) && Known(s, mf)
    ensures Inv(lib, s) && Genuine(s, mf) && Version(s, mf)
  {
    ReachableInv(lib, s);
    if q :| q in s.manifestSpool && s.manifestSpool[q] == mf {
      assert Copy(mf.owner, mf) in s.inHand;
    }
  }

  /** Durability over all runs of uploads, spool flushes, repairs (also concurrent ones),
      manifest replication and peers going up and down: for every known manifest, every
      stripe and every slot, bytes hashing to the slot's id are in its holder's blockstore
      or in the uploader's spool for that holder. */
  lemma EveryShardIsSomewhere(lib: Library, s: State, mf: Manifest, i: nat, j: nat)
    requires Reachable(lib, s) && Known(s, mf) && i < |mf.stripes| && j < |mf.holders|
    ensures j < |mf.stripes[i].shardIds|
    ensures var id := mf.stripes[i].shardIds[j];
            var h := Holding(mf.holders[j], id);
            var q := Parcel(mf.owner, mf.holders[j], id);
            || (h in s.blocks && lib.hash(s.blocks[h]) == id)
            || (q in s.shardSpool && lib.hash(s.shardSpool[q]) == id)
  {
    KnownIsGenuine(lib, s, mf);
    assert Placed(s, mf.owner, mf.holders[j], mf.stripes[i].shardIds[j]);
  }

  /** Holders of every known version are pairwise distinct, one per slot, and the version
      differs from the committed one in its holders only. */
  lemma VersionsDifferInHoldersOnly(lib: Library, s: State, mf: Manifest)
    requires Reachable(lib, s) && Known(s, mf)
    ensures mf.fileId in s.files && SameFile(mf, s.files[mf.fileId].mf)
    ensures NoDup(mf.holders) && |mf.holders| == mf.k + mf.m
  {
    KnownIsGenuine(lib, s, mf);
  }

  /** Content addressing: unless SHA-256 collided in this run, whoever stores or spools
      something under a shard id of a known file has the original shard, byte for byte. */
  lemma StoredShardsAreOriginal(lib: Library, s: State, mf: Manifest, i: nat, j: nat)
    requires Reachable(lib, s) && RsSound(lib) && CollisionFree(lib, s.seen) && Known(s, mf)
    requires i < |mf.stripes| && j < |mf.holders|
    ensures j < |mf.stripes[i].shardIds| && mf.fileId in s.files && i < |s.files[mf.fileId].cts|
    ensures var id := mf.stripes[i].shardIds[j];
            var shard := ShardAt(lib, Params(mf.k, mf.m), s.files[mf.fileId].cts[i], j);
            && lib.hash(shard) == id
            && (forall p :: Holding(p, id) in s.blocks ==> s.blocks[Holding(p, id)] == shard)
            && (forall c, h :: Parcel(c, h, id) in s.shardSpool ==> s.shardSpool[Parcel(c, h, id)] == shard)
  {
    KnownIsGenuine(lib, s, mf);
    VersionTruth(lib, s, mf, i);
    var ct := s.files[mf.fileId].cts[i];
    EncodeShape(lib, Params(mf.k, mf.m), ct);
    assert ShardAt(lib, Params(mf.k, mf.m), ct, j) == Encode(lib, Params(mf.k, mf.m), ct).value[j];
  }

  /** End to end: any k shards of a stripe, from whichever stores under whichever version
      of the manifest, decode, open and are the uploaded bytes of that stripe. */
  lemma AnyShardsGiveThePlaintext(lib: Library, s: State, mf: Manifest, idx: nat, view: seq<Option<Bytes>>)
    requires Reachable(lib, s) && Sound(lib) && CollisionFree(lib, s.seen) && Known(s, mf) && idx < |mf.stripes|
    requires Fetched(lib, s.seen, mf.stripes[idx].shardIds, view) && CountSome(view) >= mf.k
    ensures mf.fileId in s.files && mf.stripeSize >= 1 && mf.stripes[idx].ciphertextBytes >= 0
    ensures var o := s.files[mf.fileId];
            var d := Decoded(lib, Params(mf.k, mf.m), view, mf.stripes[idx].ciphertextBytes);
            && d.Ok?
            && OpenAES(lib, o.key, d.value.1) == Ok(Chunk(o.plain, mf.stripeSize, idx))
  {
    KnownIsGenuine(lib, s, mf);
    VersionTruth(lib, s, mf, idx);
    FetchedDecodes(lib, s, mf, idx, view);
  }

  /** Conservation over every run: a spooled shard stays spooled until the holder has it,
      a spooled manifest until the holder acknowledged that manifest. */
  lemma SpoolsLoseNothing(lib: Library, states: seq<State>, run: seq<Action>, m: nat, n: nat, q: Parcel)
    requires IsRun(lib, states, run) && m <= n < |states|
    ensures q in states[m].shardSpool ==> q in states[n].shardSpool || Holding(q.holder, q.id) in states[n].blocks
    ensures q in states[m].manifestSpool ==>
              || (q in states[n].manifestSpool && states[n].manifestSpool[q] == states[m].manifestSpool[q])
              || Receipt(q.client, q.holder, states[m].manifestSpool[q]) in states[n].manifestAcks
  {
    RunGrows(lib, states, run, m, n);
    RunKeepsInv(lib, states, run, n);
  }

  /** Putting a shard twice is putting it once. */
  lemma PutsAreIdempotent(lib: Library, s: State, client: Peer, holder: Peer, id: ShardId, data: Bytes)
    ensures var a := PutBlock(client, holder, id, data, true); Step(lib, Step(lib, s, a), a) == Step(lib, s, a)
  {
    var a := PutBlock(client, holder, id, data, true);
    var t := Step(lib, s, a);
    if Enabled(lib, s, a) {
      assert Apply(t, a).blocks == t.blocks;
      assert Apply(t, a).acks == t.acks && Apply(t, a).seen == t.seen;
    }
  }

  // ----- an upload can succeed with nothing delivered -----

  /** An owner that is among its own holders always has its slot of every stripe. */
  lemma OwnerHoldsItsSlot(lib: Library, s: State, f: FileId, i: nat, j: nat)
    requires Reachable(lib, s) && f in s.files
    requires i < |s.files[f].mf.stripes| && j < |s.files[f].mf.holders|
    requires s.files[f].mf.holders[j] == s.files[f].mf.owner
    ensures j < |s.files[f].mf.stripes[i].shardIds|
    ensures Holding(s.files[f].mf.owner, s.files[f].mf.stripes[i].shardIds[j]) in s.blocks
  {
    ReachableInv(lib, s);
    var mf := s.files[f].mf;
    assert Copy(mf.owner, mf) in s.inHand;
    assert Genuine(s, mf);
    assert Delivered(s, mf.owner, mf.holders[j], mf.stripes[i].shardIds[j]);
  }

  lemma ReachableStep(lib: Library, s: State, a: Action)
    requires Reachable(lib, s)
    ensures Reachable(lib, Step(lib, s, a))
  {
    var states, run :| IsRun(lib, states, run) && s == states[|run|];
    RunLonger(lib, states, run, a);
    assert (states + [Step(lib, s, a)])[|run + [a]|] == Step(lib, s, a);
  }

  lemma RunLonger(lib: Library, states: seq<State>, run: seq<Action>, a: Action)
    requires IsRun(lib, states, run)
    ensures IsRun(lib, states + [Step(lib, states[|run|], a)], run + [a])
  {
    var states', run' := states + [Step(lib, states[|run|], a)], run + [a];
    forall i {:trigger run'[i]} | 0 <= i < |run'|
      ensures states'[i + 1] == Step(lib, states'[i], run'[i])
    {
      if i < |run| {
        assert run'[i] == run[i];
      }
    }
  }

  /** t is s after uploads by `owner` that reached nobody: more was stored with the owner
      itself, if at all, and more queued for others. */
  ghost predicate Quiet(s: State, t: State, owner: Peer, holders: seq<Peer>) {
    && t.files == s.files && t.manifests == s.manifests && t.online == s.online && t.manifestSpool == s.manifestSpool
    && s.acks <= t.acks && s.queued <= t.queued && s.seen <= t.seen && s.shardSpool.Keys <= t.shardSpool.Keys
    && (forall h :: h in t.blocks ==> h in s.blocks || (h.peer == owner && owner in holders))
    && (forall q :: q in t.shardSpool ==> q in s.shardSpool || q.client == owner)
  }

  /** With every holder offline, each shard of a stripe can be kept or spooled. */
  lemma {:induction false} ShipOffline(lib: Library, s: State, owner: Peer, holders: seq<Peer>, shards: seq<Bytes>,
                                       n: nat) returns (t: State)
    requires Reachable(lib, s) && n <= |holders| == |shards|
    ensures Reachable(lib, t) && Quiet(s, t, owner, holders)
    ensures forall j :: 0 <= j < n ==> Delivered(t, owner, holders[j], lib.hash(shards[j])) && shards[j] in t.seen
    ensures forall j :: 0 <= j < n && holders[j] != owner ==>
              Parcel(owner, holders[j], lib.hash(shards[j])) in t.shardSpool
  {
    if n == 0 {
      return s;
    }
    var u := ShipOffline(lib, s, owner, holders, shards, n - 1);
    var h := holders[n - 1];
    t := ShipOne(lib, u, owner, h, shards[n - 1]);
    assert h in holders;
  }

  /** One shard: kept if the owner is its holder, else queued. */
  lemma ShipOne(lib: Library, s: State, owner: Peer, h: Peer, shard: Bytes) returns (t: State)
    requires Reachable(lib, s)
    ensures Reachable(lib, t) && Quiet(s, t, owner, [h])
    ensures Delivered(t, owner, h, lib.hash(shard)) && shard in t.seen
    ensures h != owner ==> Parcel(owner, h, lib.hash(shard)) in t.shardSpool
  {
    var id := lib.hash(shard);
    var a := if h == owner then PutBlock(owner, h, id, shard, true) else Enqueue(owner, h, id, shard);
    ReachableStep(lib, s, a);
    t := Step(lib, s, a);
  }

  ghost predicate StripesShipped(lib: Library, t: State, o: Original, n: nat) {
    && |o.cts| == |o.mf.stripes| && n <= |o.cts|
    && (forall i, j :: 0 <= i < n && 0 <= j < |o.mf.holders| && j < |o.mf.stripes[i].shardIds| ==>
          Delivered(t, o.mf.owner, o.mf.holders[j], o.mf.stripes[i].shardIds[j]))
    && (forall i, j :: 0 <= i < n && 0 <= j < |o.mf.holders| ==>
          ShardAt(lib, Params(o.mf.k, o.mf.m), o.cts[i], j) in t.seen)
    && (forall i, j :: (0 <= i < n && 0 <= j < |o.mf.holders| && j < |o.mf.stripes[i].shardIds| &&
                        o.mf.holders[j] != o.mf.owner) ==>
          Parcel(o.mf.owner, o.mf.holders[j], o.mf.stripes[i].shardIds[j]) in t.shardSpool)
  }

  lemma {:induction false} ShipAllOffline(lib: Library, s: State, o: Original, n: nat) returns (t: State)
    requires Reachable(lib, s) && RsSound(lib) && WellFormed(o.mf) && Describes(lib, o) && n <= |o.cts|
    ensures Reachable(lib, t) && Quiet(s, t, o.mf.owner, o.mf.holders) && StripesShipped(lib, t, o, n)
  {
    if n == 0 {
      return s;
    }
    var u := ShipAllOffline(lib, s, o, n - 1);
    var p := Params(o.mf.k, o.mf.m);
    assert StripeOf(lib, p, o.key, Chunk(o.plain, o.mf.stripeSize, n - 1), o.cts[n - 1], o.mf.stripes[n - 1], n - 1);
    EncodeShape(lib, p, o.cts[n - 1]);
    var shards := Encode(lib, p, o.cts[n - 1]).value;
    t := ShipOffline(lib, u, o.mf.owner, o.mf.holders, shards, |shards|);
    OneMoreShipped(lib, u, t, o, n - 1, shards);
  }

  lemma OneMoreShipped(lib: Library, u: State, t: State, o: Original, n: nat, shards: seq<Bytes>)
    requires StripesShipped(lib, u, o, n) && n < |o.cts| && Quiet(u, t, o.mf.owner, o.mf.holders)
    requires Encode(lib, Params(o.mf.k, o.mf.m), o.cts[n]) == Ok(shards) && |shards| == |o.mf.holders|
    requires o.mf.stripes[n].shardIds == Ids(lib, shards)
    requires forall j :: 0 <= j < |shards| ==>
               Delivered(t, o.mf.owner, o.mf.holders[j], lib.hash(shards[j])) && shards[j] in t.seen
    requires forall j :: 0 <= j < |shards| && o.mf.holders[j] != o.mf.owner ==>
               Parcel(o.mf.owner, o.mf.holders[j], lib.hash(shards[j])) in t.shardSpool
    ensures StripesShipped(lib, t, o, n + 1)
  {
    forall i, j | 0 <= i < n + 1 && 0 <= j < |o.mf.holders|
      ensures ShardAt(lib, Params(o.mf.k, o.mf.m), o.cts[i], j) in t.seen
    {
      if i == n {
        assert shards[j] in t.seen;
      }
    }
  }

  ghost function Empty(online: set<Peer>): State {
    State(map[], map[], map[], map[], {}, {}, {}, {}, map[], {}, online)
  }

  /** An upload counts on k holders having taken their shards, so that the file can be read
      at once; the code does not check that any did. Every file can be committed with no
      shard anywhere but with the owner, as far as it is its own holder. If it is not,
      nobody has a single shard and no reader can gather even one (compare the lower bound
      on what `FetchStripe` needs). */
  lemma CommitWithoutDelivery(lib: Library, o: Original, online: set<Peer>) returns (s: State)
    requires Sound(lib) && WellFormed(o.mf) && Describes(lib, o)
    ensures Reachable(lib, s) && s.files == map[o.mf.fileId := o] && StripesShipped(lib, s, o, |o.cts|)
    ensures s.manifests == map[Holding(o.mf.owner, o.mf.fileId) := o.mf] && s.manifestSpool == map[]
    ensures s.online == online
    ensures forall h :: h in s.blocks ==> h.peer == o.mf.owner && o.mf.owner in o.mf.holders
    ensures o.mf.owner !in o.mf.holders ==> s.blocks == map[]
    ensures o.mf.owner !in o.mf.holders ==>
              forall self, i :: 0 <= i < |o.cts| ==>
                  HeldCount(s, self, o.mf.holders, o.mf.stripes[i].shardIds, |o.mf.holders|) == 0 < o.mf.k
  {
    var start := Empty(online);
    var none: seq<Action> := [];
    assert IsRun(lib, [start], none) && start == [start][|none|];
    var t := ShipAllOffline(lib, start, o, |o.cts|);
    assert Shipped(lib, t, o);
    ReachableStep(lib, t, Commit(o));
    s := Step(lib, t, Commit(o));
    if o.mf.owner !in o.mf.holders {
      assert s.blocks == map[];
      forall self, i | 0 <= i < |o.cts|
        ensures HeldCount(s, self, o.mf.holders, o.mf.stripes[i].shardIds, |o.mf.holders|) == 0
      {
        NobodyHolds(s, self, o.mf.holders, o.mf.stripes[i].shardIds, |o.mf.holders|);
      }
    }
  }

  lemma {:induction false} NobodyHolds(s: State, self: Peer, holders: seq<Peer>, ids: seq<ShardId>, n: nat)
    requires s.blocks == map[] && n <= |holders| == |ids|
    ensures HeldCount(s, self, holders, ids, n) == 0
  {
    if n > 0 {
      NobodyHolds(s, self, holders, ids, n - 1);
    }
  }

  /** Exactly the files whose owner is not among the holders can be committed with nothing
      stored anywhere. */
  lemma NothingStoredExactly(lib: Library, o: Original)
    requires Sound(lib) && WellFormed(o.mf) && Describes(lib, o)
    ensures (exists s :: Reachable(lib, s) && o.mf.fileId in s.files && s.files[o.mf.fileId] == o && s.blocks == map[])
              <==> o.mf.owner !in o.mf.holders
  {
    if o.mf.owner !in o.mf.holders {
      var s := CommitWithoutDelivery(lib, o, {});
    } else {
      var j :| 0 <= j < |o.mf.holders| && o.mf.holders[j] == o.mf.owner;
      forall s | Reachable(lib, s) && o.mf.fileId in s.files && s.files[o.mf.fileId] == o
        ensures s.blocks != map[]
      {
        OwnerHoldsItsSlot(lib, s, o.mf.fileId, 0, j);
      }
    }
  }

  /** Such files exist: every non-empty plaintext of at most one stripe has, for every
      choice of keys, nonces and holders, an upload as `CommitWithoutDelivery` needs it. */
  lemma OneStripeUpload(lib: Library, plain: Bytes, stripeSize: int, k: int, m: int, holders: seq<Peer>, owner: Peer,
                        fileId: FileId, key: Bytes, groupKey: Bytes, nonce: Bytes) returns (o: Original)
    requires Sound(lib) && RsNew(lib, k, m) && m >= 1
    requires 1 <= |plain| <= stripeSize && |holders| == k + m && NoDup(holders)
    requires |key| == |groupKey| == FILE_KEY_SIZE && |nonce| == NONCE_SIZE
    ensures o.plain == plain && o.mf.fileId == fileId && o.mf.owner == owner && o.mf.holders == holders
    ensures WellFormed(o.mf) && Describes(lib, o) && |o.cts| == 1
  {
    SealOpenRoundTrip(lib, key, nonce, plain);
    SealOpenRoundTrip(lib, groupKey, nonce, key);
    var ct := SealAES(lib, key, nonce, plain).value;
    EncodeShape(lib, Params(k, m), ct);
    var stripe := Stripe(0, Ids(lib, Encode(lib, Params(k, m), ct).value), |plain|, |ct|);
    var wrapped := SealAES(lib, groupKey, nonce, key).value;
    var mf := Manifest(fileId, "", |plain|, k, m, stripeSize, holders, [stripe], owner, MODE_SHARED, wrapped);
    o := Original(mf, plain, key, [ct], groupKey, []);
    assert 0 * stripeSize == 0 && 1 * stripeSize == stripeSize;
    assert Chunk(plain, stripeSize, 0) == plain;
  }

  // ----- shards first, unless they cannot be read -----

  /** The members of a finite set as a list. */
  lemma Listing(ids: set<string>) returns (list: seq<string>)
    ensures forall x :: x in list <==> x in ids
  {
    if ids == {} {
      return [];
    }
    var x :| x in ids;
    list := Listing(ids - {x});
    list := list + [x];
  }

  /** A pass over unreadable shard entries delivers the manifest alone: for every file and
      every holder but the owner there is a run that ends in a pass which lists all shards
      of the file for that holder, passes them over, sends and removes the manifest, and
      leaves the holder with the manifest and without a shard. */
  lemma ManifestBeforeShards(lib: Library, o: Original, j: nat)
    returns (states: seq<State>, run: seq<Action>, listed: nat, shards: seq<ShardId>)
    requires Sound(lib) && WellFormed(o.mf) && Describes(lib, o)
    requires j < |o.mf.holders| && o.mf.holders[j] != o.mf.owner
    ensures IsRun(lib, states, run) && listed <= |run|
    ensures Exact(states[listed], o.mf.owner, o.mf.holders[j], shards, [o.mf.fileId])
    ensures forall i :: 0 <= i < |o.mf.stripes| ==> o.mf.stripes[i].shardIds[j] in shards
    ensures Half([], Route(o.mf.owner, o.mf.holders[j], false), shards, |shards|)
    ensures Half(run[listed..], Route(o.mf.owner, o.mf.holders[j], true), [o.mf.fileId], 1)
    ensures Holding(o.mf.holders[j], o.mf.fileId) in states[|run|].manifests
    ensures forall id :: Holding(o.mf.holders[j], id) !in states[|run|].blocks
  {
    var owner, peer, mf := o.mf.owner, o.mf.holders[j], o.mf;
    var t := CommitWithoutDelivery(lib, o, {owner, peer});
    var q, a, b := EnqueueManifest(owner, peer, mf), SendManifest(owner, peer, mf, true),
        DequeueManifest(owner, peer, mf.fileId);
    shards := ListSpooled(lib, t, o, j);
    ReachableInv(lib, t);
    DeliveredAlone(lib, t, o, peer);
    states, run, listed := PassRun(lib, t, q, a, b);
    AllPassedOver(Route(owner, peer, false), shards);
    SentAndRemoved(Route(owner, peer, true), mf.fileId, a, b);
  }

  lemma SentAndRemoved(r: Route, key: string, a: Action, b: Action)
    requires Puts(a, r, key, true) && b == Drop(r, key)
    ensures Half([a, b], r, [key], 1)
  {
    assert [a, b][..0] == [] && [key][..0] == [] && [key][..1] == [key];
  }

  lemma ListSpooled(lib: Library, t: State, o: Original, j: nat) returns (shards: seq<ShardId>)
    requires WellFormed(o.mf) && StripesShipped(lib, t, o, |o.cts|) && t.manifestSpool == map[]
    requires o.mf.fileId in t.files && t.files[o.mf.fileId] == o
    requires j < |o.mf.holders| && o.mf.holders[j] != o.mf.owner
    ensures Exact(Step(lib, t, EnqueueManifest(o.mf.owner, o.mf.holders[j], o.mf)), o.mf.owner, o.mf.holders[j], shards,
                  [o.mf.fileId])
    ensures forall i :: 0 <= i < |o.mf.stripes| ==> o.mf.stripes[i].shardIds[j] in shards
  {
    var owner, peer := o.mf.owner, o.mf.holders[j];
    shards := Listing(set e | e in t.shardSpool && e.client == owner && e.holder == peer :: e.id);
    assert forall id :: Parcel(owner, peer, id).id == id;
    forall i | 0 <= i < |o.mf.stripes|
      ensures o.mf.stripes[i].shardIds[j] in shards
    {
      assert Parcel(owner, o.mf.holders[j], o.mf.stripes[i].shardIds[j]) in t.shardSpool;
    }
  }

  lemma DeliveredAlone(lib: Library, t: State, o: Original, peer: Peer)
    requires Inv(lib, t) && o.mf.fileId in t.files && t.files[o.mf.fileId] == o && peer != o.mf.owner
    requires {o.mf.owner, peer} <= t.online && forall h :: h in t.blocks ==> h.peer == o.mf.owner
    ensures var u := Step(lib, t, EnqueueManifest(o.mf.owner, peer, o.mf));
            var v := Step(lib, Step(lib, u, SendManifest(o.mf.owner, peer, o.mf, true)),
                          DequeueManifest(o.mf.owner, peer, o.mf.fileId));
            Holding(peer, o.mf.fileId) in v.manifests && forall id :: Holding(peer, id) !in v.blocks
  {
    assert Copy(o.mf.owner, o.mf) in t.inHand;
  }

  /** A reachable state, an entry queued there, and two actions after that, as one run. */
  lemma PassRun(lib: Library, t: State, q: Action, a: Action, b: Action)
    returns (states: seq<State>, run: seq<Action>, listed: nat)
    requires Reachable(lib, t)
    ensures IsRun(lib, states, run) && listed + 2 == |run| && run[listed..] == [a, b]
    ensures states[listed] == Step(lib, t, q) && states[|run|] == Step(lib, Step(lib, Step(lib, t, q), a), b)
  {
    states, run :| IsRun(lib, states, run) && t == states[|run|];
    RunLonger(lib, states, run, q);
    states, run := states + [Step(lib, t, q)], run + [q];
    listed := |run|;
    RunLonger(lib, states, run, a);
    states, run := states + [Step(lib, states[|run|], a)], run + [a];
    RunLonger(lib, states, run, b);
    states, run := states + [Step(lib, states[|run|], b)], run + [b];
  }

  lemma {:induction false} AllPassedOver(r: Route, keys: seq<string>)
    ensures Deliveries([], r, keys) && Half([], r, keys, |keys|)
  {
    assert keys[..|keys|] == keys;
    if keys != [] {
      AllPassedOver(r, keys[..|keys| - 1]);
    }
  }
}
