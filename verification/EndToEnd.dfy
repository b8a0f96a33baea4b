/** From an upload to a download: when a file that was just uploaded can be read. */
module EndToEnd {
  import opened Base
  import opened Primitives
  import opened Manifests
  import opened ClusterModel
  import opened Network
  import opened Recovery
  import opened Streams
  import opened Cache
  import opened Reading
  import Upload

  /** Slot j of the committed version is still there for the reader: its owner saw every
      shard of it acknowledged, no repair moved it, and the reader can reach its holder. */
  ghost predicate SlotStands(net: Cluster, s: State, acks: set<Parcel>, reader: Peer, mf: Manifest, j: int) {
    && 0 <= j < |mf.holders| && net.AlwaysUp(reader, mf.holders[j]) && Unmoved(s, mf.fileId, j)
    && forall i :: 0 <= i < |mf.stripes| && j < |mf.stripes[i].shardIds| ==>
         Parcel(mf.owner, mf.holders[j], mf.stripes[i].shardIds[j]) in acks
  }

  /** How many of the first n slots do. */
  ghost function Standing(net: Cluster, s: State, acks: set<Parcel>, reader: Peer, mf: Manifest, n: nat): nat {
    if n == 0 then 0
    else Standing(net, s, acks, reader, mf, n - 1) + (if SlotStands(net, s, acks, reader, mf, n - 1) then 1 else 0)
  }

  /** They are at most what the reader can gather under any version of the manifest. */
  lemma {:induction false} StandingIsAvailable(net: Cluster, acks: set<Parcel>, reader: Peer, mf: Manifest,
                                               found: Manifest, i: nat, n: nat)
    requires net.Valid() && acks <= net.st.acks && Version(net.st, found) && found.fileId == mf.fileId
    requires net.st.files[mf.fileId].mf == mf && (exists p :: Copy(p, found) in net.st.inHand)
    requires i < |mf.stripes| && n <= |found.holders| == |found.stripes[i].shardIds|
    ensures Standing(net, net.st, acks, reader, mf, n) <=
            AvailableCount(net, net.st, reader, found.holders, found.stripes[i].shardIds, -1, Anybody, n)
  {
    if n > 0 {
      StandingIsAvailable(net, acks, reader, mf, found, i, n - 1);
      if SlotStands(net, net.st, acks, reader, mf, n - 1) {
        assert found.stripes == mf.stripes;
        assert found.holders[n - 1] == mf.holders[n - 1];
        AckedIsStored(net, Parcel(mf.owner, mf.holders[n - 1], mf.stripes[i].shardIds[n - 1]));
      }
    }
  }

  lemma AckedIsStored(net: Cluster, q: Parcel)
    requires net.Valid() && q in net.st.acks
    ensures Holding(q.holder, q.id) in net.st.blocks
  {
    net.Sane();
  }

  /** k slots that were acknowledged to the owner, were not moved, and can be reached by the
      reader make every stripe readable, under whatever version the reader found and
      whatever became of the other holders and of the owner. */
  lemma UploadedIsReadable(net: Cluster, acks: set<Parcel>, reader: Peer, mf: Manifest, found: Manifest)
    requires net.Valid() && acks <= net.st.acks && Version(net.st, found) && found.fileId == mf.fileId
    requires net.st.files[mf.fileId].mf == mf && (exists p :: Copy(p, found) in net.st.inHand)
    requires Standing(net, net.st, acks, reader, mf, |mf.holders|) >= mf.k
    ensures AllReadable(net, net.st, reader, found)
  {
    SameShape(net, mf, found);
    forall i | 0 <= i < |found.stripes|
      ensures Readable(net, net.st, reader, found, i)
    {
      StandingIsAvailable(net, acks, reader, mf, found, i, |found.holders|);
    }
  }

  lemma SameShape(net: Cluster, mf: Manifest, found: Manifest)
    requires net.Valid() && Version(net.st, found) && found.fileId == mf.fileId && net.st.files[mf.fileId].mf == mf
    ensures WellFormed(mf) && |mf.holders| == |found.holders|
  {
    net.Sane();
    assert Copy(mf.owner, mf) in net.st.inHand;
  }

  /** Somebody the reader can ask has the manifest: the owner itself, or a holder that
      acknowledged it to the owner. */
  ghost predicate Askable(net: Cluster, told: set<Receipt>, reader: Peer, members: seq<Peer>, mf: Manifest) {
    exists h :: (h == reader || h in members) && net.AlwaysUp(reader, h) &&
        (h == mf.owner || Receipt(mf.owner, h, mf) in told)
  }

  /** Then the reader finds it, with the owner online or not. */
  lemma UploadedIsFindable(net: Cluster, told: set<Receipt>, reader: Peer, members: seq<Peer>, mf: Manifest)
    requires net.Valid() && Holding(mf.owner, mf.fileId) in net.st.manifests && told <= net.st.manifestAcks
    requires net.AlwaysUp(reader, reader) && Askable(net, told, reader, members, mf)
    ensures Findable(net, net.st, reader, members, mf.fileId)
  {
    var h :| (h == reader || h in members) && net.AlwaysUp(reader, h) &&
        (h == mf.owner || Receipt(mf.owner, h, mf) in told);
    if h != mf.owner {
      ReceiptIsStored(net, Receipt(mf.owner, h, mf));
    }
  }

  /** The reader holds the keys that the upload wraps the file key for. */
  ghost predicate MayOpen(lib: Library, svc: Upload.Service, reader: Peer, ring: Keyring, groupId: string,
                          groupKey: Bytes, modeOption: string) {
    && groupId in ring.groups
    && (modeOption != MODE_PRIVATE ==> ring.groups[groupId] == groupKey)
    && (modeOption == MODE_PRIVATE ==>
          reader == svc.self && ring.pub == svc.encPub && |ring.priv| == ENC_KEY_SIZE &&
              lib.boxPair(ring.pub, ring.priv))
  }

  lemma EntitledReader(lib: Library, svc: Upload.Service, reader: Peer, ring: Keyring, groupId: string, groupKey: Bytes,
                       modeOption: string, o: Original)
    requires MayOpen(lib, svc, reader, ring, groupId, groupKey, modeOption)
    requires o.mf.groupId == groupId && o.mf.mode == (if modeOption == "" then MODE_SHARED else modeOption)
    requires o.groupKey == groupKey && o.ownerPub == svc.encPub && o.mf.owner == svc.self
    ensures Entitled(lib, ring, reader, o)
  {
  }

  /** Moves seen by the end of a run were not there before, so what stands at the end stood. */
  lemma {:induction false} StoodBefore(net: Cluster, earlier: seq<State>, acks: set<Parcel>, reader: Peer, mf: Manifest,
                                       n: nat)
    requires net.Since(earlier) && earlier != [] && mf.fileId in earlier[|earlier| - 1].files
    ensures Standing(net, net.st, acks, reader, mf, n) <= Standing(net, earlier[|earlier| - 1], acks, reader, mf, n)
  {
    if n > 0 {
      StoodBefore(net, earlier, acks, reader, mf, n - 1);
      if SlotStands(net, net.st, acks, reader, mf, n - 1) {
        UnmovedBefore(net, earlier, mf.fileId, n - 1);
      }
    }
  }

  lemma UnmovedBefore(net: Cluster, earlier: seq<State>, f: FileId, j: int)
    requires net.Since(earlier) && earlier != [] && f in earlier[|earlier| - 1].files && Unmoved(net.st, f, j)
    ensures Unmoved(earlier[|earlier| - 1], f, j)
  {
    var s := earlier[|earlier| - 1];
    net.Grown(earlier);
    RunKeepsInv(net.lib, net.past, net.trace, |earlier| - 1);
    assert s == net.past[|earlier| - 1];
    forall h | h in s.manifests && s.manifests[h].fileId == f
      ensures SameSlot(s, s.manifests[h], j)
    {
      StoredWasInHand(net.lib, net.past, net.trace, |earlier| - 1, h);
    }
  }

  /** Every manifest in a store is one that somebody had in hand. */
  lemma {:induction false} StoredWasInHand(lib: Library, states: seq<State>, run: seq<Action>, n: nat, h: Holding)
    requires IsRun(lib, states, run) && n < |states| && h in states[n].manifests
    ensures exists p :: Copy(p, states[n].manifests[h]) in states[n].inHand
  {
    if n > 0 {
      RunStepGrows(lib, states, run, n - 1);
      var s, t := states[n - 1], states[n];
      if h in s.manifests && s.manifests[h] == t.manifests[h] {
        StoredWasInHand(lib, states, run, n - 1, h);
        var p :| Copy(p, s.manifests[h]) in s.inHand;
        assert Copy(p, t.manifests[h]) in t.inHand;
      } else {
        StoredIsInHand(lib, s, run[n - 1], h);
      }
    }
  }

  /** What the owner was told by the time the upload returned. */
  datatype Told = Told(shards: set<Parcel>, manifests: set<Receipt>)

  /** Upload a stream on one node, open the file on any node that may, and copy it out. `at`
      is the run when the upload returned, and `told` what the owner had been told by then;
      that includes all holders it could reach throughout. If one of those that took the
      manifest can be asked, the reader finds the file; if k of the slots taken were not
      moved by repairs and can be reached by the reader, it gets back exactly the stream.
      The owner may be gone by then. */
  method UploadThenDownload(net: Cluster, svc: Upload.Service, d: Upload.Draw, members: seq<Peer>,
                            weight: (Peer, FileId) -> int, groupId: string, groupKey: Bytes, modeOption: string,
                            body: Body, reader: Peer, ring: Keyring, cache: StripeCache, bufferSize: nat)
    returns (up: Result<Manifest>, ghost at: seq<State>, ghost told: Told, file: Option<Reader>, out: Bytes, ok: bool)
    requires net.Valid() && Sound(net.lib) && Upload.GoodDraw(d) && svc.stripeSize >= 1
    requires NoDup(members) && d.fileId in net.mine && d.fileId !in net.ours
    requires MayOpen(net.lib, svc, reader, ring, groupId, groupKey, modeOption)
    requires cache.Valid() && CacheTrue(net.lib, net.st, cache.lru) && bufferSize >= 1
    modifies net, body, cache
    ensures net.Since(old(net.past))
    ensures (Upload.CanUpload(svc, |members|, groupKey, modeOption) && old(body.Rest()) != [] &&
             !body.ending.Failing? &&
             Upload.Carried(net, svc, Upload.Chosen(svc, members, weight, d.fileId))) ==> up.Ok?
    ensures up.Ok? ==> up.value.owner == svc.self && forall h :: h in up.value.holders ==> h in members
    ensures old(net.past) <= at <= net.past && at != []
    ensures up.Ok? ==> up.value.fileId in at[|at| - 1].files && at[|at| - 1].files[up.value.fileId].mf == up.value
    ensures up.Ok? ==> told == Told(at[|at| - 1].acks, at[|at| - 1].manifestAcks)
    ensures up.Ok? ==> ToldByAll(net, told, up.value)
    ensures up.Ok? && net.AlwaysUp(reader, reader) && Askable(net, told.manifests, reader, members, up.value) ==>
              file.Some?
    ensures (up.Ok? && file.Some? && CollisionFree(net.lib, net.st.seen) &&
             Standing(net, net.st, told.shards, reader, up.value, |up.value.holders|) >= up.value.k) ==>
              ok && out == old(body.Rest())
  {
    out, ok, file, told := [], false, None, Told({}, {});
    up := UploadHalf(net, svc, d, members, weight, groupId, groupKey, modeOption, body, reader, ring, cache.lru);
    at := net.past;
    if up.Err? {
      return;
    }
    told := Told(net.st.acks, net.st.manifestAcks);
    file, out, ok := Download(net, members, up.value, reader, ring, cache, bufferSize, old(body.Rest()), told);
  }

  /** The first half, and what it leaves for the second. */
  method UploadHalf(net: Cluster, svc: Upload.Service, d: Upload.Draw, members: seq<Peer>,
                    weight: (Peer, FileId) -> int, groupId: string, groupKey: Bytes, modeOption: string, body: Body,
                    ghost reader: Peer, ghost ring: Keyring, ghost lru: seq<Element>)
    returns (up: Result<Manifest>)
    requires net.Valid() && Sound(net.lib) && Upload.GoodDraw(d) && svc.stripeSize >= 1
    requires NoDup(members) && d.fileId in net.mine && d.fileId !in net.ours
    requires MayOpen(net.lib, svc, reader, ring, groupId, groupKey, modeOption) && CacheTrue(net.lib, net.st, lru)
    modifies net, body
    ensures net.Since(old(net.past))
    ensures (Upload.CanUpload(svc, |members|, groupKey, modeOption) && old(body.Rest()) != [] &&
             !body.ending.Failing? &&
             Upload.Carried(net, svc, Upload.Chosen(svc, members, weight, d.fileId))) ==> up.Ok?
    ensures up.Ok? ==> up.value.owner == svc.self && forall h :: h in up.value.holders ==> h in members
    ensures up.Ok? ==> up.value.fileId in net.st.files && net.st.files[up.value.fileId].mf == up.value
    ensures up.Ok? ==> net.st.files[up.value.fileId].plain == old(body.Rest())
    ensures up.Ok? ==> Holding(svc.self, up.value.fileId) in net.st.manifests
    ensures up.Ok? ==> Entitled(net.lib, ring, reader, net.st.files[up.value.fileId]) && CacheTrue(net.lib, net.st, lru)
    ensures up.Ok? ==> ToldByAll(net, Told(net.st.acks, net.st.manifestAcks), up.value)
  {
    ghost var from, plain := net.past, body.Rest();
    up := Upload.Put(net, svc, d, members, weight, groupId, groupKey, modeOption, body);
    if up.Ok? {
      Upload.ChosenDistinct(svc, members, weight, d.fileId);
      Uploaded(net, from, svc, d, groupKey, plain, up.value, reader, ring, modeOption, lru);
    }
  }

  /** Every holder that the owner could reach throughout told it so. */
  ghost predicate ToldByAll(net: Cluster, told: Told, mf: Manifest) {
    && (forall i, j :: 0 <= i < |mf.stripes| && 0 <= j < |mf.holders| && j < |mf.stripes[i].shardIds| &&
                       net.AlwaysUp(mf.owner, mf.holders[j]) ==>
          Parcel(mf.owner, mf.holders[j], mf.stripes[i].shardIds[j]) in told.shards)
    && (forall j :: 0 <= j < |mf.holders| && mf.holders[j] != mf.owner && net.AlwaysUp(mf.owner, mf.holders[j]) ==>
          Receipt(mf.owner, mf.holders[j], mf) in told.manifests)
  }

  lemma TellAll(net: Cluster, self: Peer, mf: Manifest)
    requires net.Valid() && mf.owner == self && Upload.AllTaken(net, net.st, self, mf.holders, mf.stripes)
    requires Replicated(net, net.st, self, mf, |mf.holders|)
    ensures ToldByAll(net, Told(net.st.acks, net.st.manifestAcks), mf)
  {
    forall i, j | 0 <= i < |mf.stripes| && 0 <= j < |mf.holders| && j < |mf.stripes[i].shardIds| &&
                  net.AlwaysUp(mf.owner, mf.holders[j])
      ensures Parcel(mf.owner, mf.holders[j], mf.stripes[i].shardIds[j]) in net.st.acks
    {
      assert Upload.Taken(net, net.st, self, mf.holders, mf.stripes[i].shardIds);
    }
  }

  /** What an upload leaves for the download. */
  lemma Uploaded(net: Cluster, from: seq<State>, svc: Upload.Service, d: Upload.Draw, groupKey: Bytes, plain: Bytes,
                 mf: Manifest, reader: Peer, ring: Keyring, modeOption: string, lru: seq<Element>)
    requires net.Since(from) && from != [] && Upload.Recorded(net, svc, d, groupKey, plain, mf)
    requires mf.mode == (if modeOption == "" then MODE_SHARED else modeOption)
    requires MayOpen(net.lib, svc, reader, ring, mf.groupId, groupKey, modeOption)
    requires CacheTrue(net.lib, from[|from| - 1], lru)
    ensures CacheTrue(net.lib, net.st, lru) && Entitled(net.lib, ring, reader, net.st.files[mf.fileId])
    ensures ToldByAll(net, Told(net.st.acks, net.st.manifestAcks), mf)
  {
    net.Grown(from);
    CacheTrueKept(net.lib, from[|from| - 1], net.st, lru);
    EntitledReader(net.lib, svc, reader, ring, mf.groupId, groupKey, modeOption, net.st.files[mf.fileId]);
    TellAll(net, svc.self, mf);
  }

  lemma StillTold(net: Cluster, earlier: seq<State>, f: FileId, told: Told, lru: seq<Element>)
    requires net.Since(earlier) && earlier != [] && f in earlier[|earlier| - 1].files
    requires told.shards <= earlier[|earlier| - 1].acks && CacheTrue(net.lib, earlier[|earlier| - 1], lru)
    ensures f in net.st.files && net.st.files[f] == earlier[|earlier| - 1].files[f]
    ensures told.shards <= net.st.acks && CacheTrue(net.lib, net.st, lru)
  {
    net.Grown(earlier);
    CacheTrueKept(net.lib, earlier[|earlier| - 1], net.st, lru);
  }

  /** The second half: open and copy. */
  method Download(net: Cluster, members: seq<Peer>, mf: Manifest, reader: Peer, ring: Keyring, cache: StripeCache,
                  bufferSize: nat, ghost plain: Bytes, ghost told: Told)
    returns (file: Option<Reader>, out: Bytes, ok: bool)
    requires net.Valid() && Sound(net.lib) && bufferSize >= 1
    requires mf.fileId in net.st.files && net.st.files[mf.fileId].mf == mf && net.st.files[mf.fileId].plain == plain
    requires Holding(mf.owner, mf.fileId) in net.st.manifests
    requires told.shards <= net.st.acks && told.manifests <= net.st.manifestAcks
    requires Entitled(net.lib, ring, reader, net.st.files[mf.fileId])
    requires cache.Valid() && CacheTrue(net.lib, net.st, cache.lru)
    modifies net`st, net`past, net`trace, net`own, net`places, cache
    ensures net.Since(old(net.past))
    ensures net.AlwaysUp(reader, reader) && Askable(net, told.manifests, reader, members, mf) ==> file.Some?
    ensures (file.Some? && CollisionFree(net.lib, net.st.seen) &&
             Standing(net, net.st, told.shards, reader, mf, |mf.holders|) >= mf.k) ==> ok && out == plain
  {
    ghost var before, lru := net.past, cache.lru;
    out, ok := [], false;
    if net.AlwaysUp(reader, reader) && Askable(net, told.manifests, reader, members, mf) {
      UploadedIsFindable(net, told.manifests, reader, members, mf);
    }
    file := OpenReader(net, reader, members, ring, cache, mf.fileId);
    StillTold(net, before, mf.fileId, told, lru);
    if file.None? {
      return;
    }
    out, ok := CopyOut(file.value, bufferSize, mf, plain, told.shards);
  }

  /** `Get` on an open reader of some version of the file. */
  method CopyOut(r: Reader, bufferSize: nat, ghost mf: Manifest, ghost plain: Bytes, ghost acks: set<Parcel>)
    returns (out: Bytes, ok: bool)
    requires r.Open() && r.CacheGood() && r.pos == 0 && bufferSize >= 1 && r.Plain() == plain
    requires r.mf.fileId == mf.fileId && r.net.st.files[mf.fileId].mf == mf
    requires Copy(r.self, r.mf) in r.net.st.inHand && acks <= r.net.st.acks
    modifies r.net`st, r.net`past, r.net`trace, r.cache, r`pos, r`asked
    ensures r.net.Since(old(r.net.past))
    ensures (CollisionFree(r.net.lib, r.net.st.seen) &&
             Standing(r.net, r.net.st, acks, r.self, mf, |mf.holders|) >= mf.k) ==> ok && out == plain
  {
    ghost var now := r.net.past;
    if Standing(r.net, r.net.st, acks, r.self, mf, |mf.holders|) >= mf.k {
      UploadedIsReadable(r.net, acks, r.self, mf, r.mf);
    }
    out, ok := r.Get(bufferSize);
    r.StillOpen(now);
    StoodBefore(r.net, now, acks, r.self, mf, |mf.holders|);
  }
}
