/** internal/repair: moving an offline holder's slot of a file to a spare member. */
module Repair {
  import opened Base
  import opened Primitives
  import opened Erasure
  import opened Manifests
  import opened ClusterModel
  import opened Network
  import opened Recovery

  method IndexOf(s: seq<Peer>, v: Peer) returns (i: int)
    ensures -1 <= i < |s|
    ensures i == -1 ==> v !in s
    ensures i >= 0 ==> s[i] == v && v !in s[..i]
  {
    for j := 0 to |s|
      invariant v !in s[..j]
    {
      if s[j] == v {
        return j;
      }
    }
    assert s[..|s|] == s;
    return -1;
  }

  function Moved(mf: Manifest, slot: nat, spare: Peer): Manifest
    requires slot < |mf.holders|
  {
    mf.(holders := mf.holders[slot := spare])
  }

  /** Since `before` only shards of that slot were put, and only on the spare. */
  ghost predicate OnlyPuts(before: seq<Action>, now: seq<Action>, self: Peer, mf: Manifest, slot: nat, spare: Peer) {
    before <= now && forall i :: |before| <= i < |now| ==> PutsSlot(now[i], self, mf, slot, spare)
  }

  ghost predicate PutsSlot(a: Action, self: Peer, mf: Manifest, slot: nat, spare: Peer) {
    && a.PutBlock? && a.client == self && a.holder == spare
    && exists idx :: 0 <= idx < |mf.stripes| && slot < |mf.stripes[idx].shardIds| &&
         mf.stripes[idx].shardIds[slot] == a.id
  }

  /** No manifest was written since `before`. */
  ghost predicate NoManifestSent(before: seq<Action>, now: seq<Action>) {
    before <= now && forall i :: |before| <= i < |now| ==> !now[i].SendManifest? && !now[i].Commit?
  }

  /** Since `before` only manifest version `mf` was written, by `self` and nowhere but at itself
      and its holders. */
  ghost predicate OnlySends(before: seq<Action>, now: seq<Action>, self: Peer, mf: Manifest) {
    before <= now && forall i :: |before| <= i < |now| ==>
      now[i].SendManifest? && now[i].mf == mf && now[i].peer == self &&
      (now[i].target == self || now[i].target in mf.holders)
  }

  /** What a repair does: puts of that slot on the spare, then the new holder list, then sends of
      the version that has it. */
  ghost predicate Moves(before: seq<Action>, now: seq<Action>, self: Peer, mf: Manifest, slot: nat, spare: Peer)
    requires slot < |mf.holders|
  {
    || OnlyPuts(before, now, self, mf, slot, spare)
    || exists n: nat ::
         && n < |now| && now[n] == Migrate(self, mf, slot, spare)
         && OnlyPuts(before, now[..n], self, mf, slot, spare)
         && OnlySends(now[..n + 1], now, self, Moved(mf, slot, spare))
  }

  /** Every manifest written since `before` is a version of one of `files` without `gone`
      among its holders, and no upload was committed. */
  ghost predicate WritesWithout(before: seq<Action>, now: seq<Action>, files: seq<FileId>, gone: Peer) {
    && before <= now
    && forall i :: |before| <= i < |now| ==>
         && !now[i].Commit?
         && (now[i].SendManifest? ==> now[i].mf.fileId in files && gone !in now[i].mf.holders)
  }

  /** Rebuild the shard of one slot from what was gathered, and check its hash. */
  method Rebuild(net: Cluster, mf: Manifest, idx: nat, slot: nat, shards: array<Option<Bytes>>)
    returns (r: Option<Bytes>)
    requires net.Valid() && Sound(net.lib) && Version(net.st, mf) && idx < |mf.stripes|
    requires slot < |mf.stripes[idx].shardIds|
    requires Fetched(net.lib, net.st.seen, mf.stripes[idx].shardIds, shards[..])
    modifies shards
    ensures r.Some? ==> net.lib.hash(r.value) == mf.stripes[idx].shardIds[slot]
    ensures CountSome(old(shards[..])) >= mf.k && CollisionFree(net.lib, net.st.seen) ==> r.Some?
  {
    net.Sane();
    VersionTruth(net.lib, net.st, mf, idx);
    if CountSome(shards[..]) >= mf.k && CollisionFree(net.lib, net.st.seen) {
      FetchedDecodes(net.lib, net.st, mf, idx, shards[..]);
    }
    var data := Decode(net.lib, Params(mf.k, mf.m), shards, mf.stripes[idx].ciphertextBytes);
    if data.Err? || shards[slot].None? {
      return None;
    }
    if net.lib.hash(shards[slot].value) != mf.stripes[idx].shardIds[slot] {
      return None;
    }
    return shards[slot];
  }

  /** k other slots of the stripe can be had. */
  ghost predicate Rebuildable(net: Cluster, s: State, self: Peer, mf: Manifest, idx: int, slot: int, asks: Asks) {
    && 0 <= idx < |mf.stripes| && |mf.stripes[idx].shardIds| == |mf.holders|
    && AvailableCount(net, s, self, mf.holders, mf.stripes[idx].shardIds, slot, asks, |mf.holders|) >= mf.k
  }

  /** `migrateStripeShard`: on success the spare acknowledged the slot's shard; it
      succeeds when k other slots can be had and the spare stays up. */
  method MigrateStripe(net: Cluster, self: Peer, mf: Manifest, idx: nat, slot: nat, spare: Peer, asks: Asks)
    returns (ok: bool)
    requires net.Valid() && Sound(net.lib) && Version(net.st, mf) && idx < |mf.stripes| && slot < |mf.holders|
    modifies net`st, net`past, net`trace, net`own, net`places
    ensures net.Since(old(net.past)) && OnlyPuts(old(net.own), net.own, self, mf, slot, spare)
    ensures ok ==> slot < |mf.stripes[idx].shardIds|
    ensures ok ==> Parcel(self, spare, mf.stripes[idx].shardIds[slot]) in net.st.acks
    ensures (CollisionFree(net.lib, net.st.seen) && net.AlwaysUp(self, spare) &&
             Rebuildable(net, old(net.st), self, mf, idx, slot, asks)) ==> ok
  {
    var ids := mf.stripes[idx].shardIds;
    var total := mf.k + mf.m;
    if |ids| != total {
      return false;
    }
    var shards := new Option<Bytes>[total](_ => None);
    ghost var before := net.past;
    var gathered := Gather(net, self, mf.holders, ids, mf.k, slot, asks, shards);
    StillVersion(net, before, mf);
    if gathered < mf.k {
      return false;
    }
    var shard := Rebuild(net, mf, idx, slot, shards);
    if shard.None? || (spare != self && !net.lib.decodes(spare)) {
      StillCollisionFree(net, net.past);
      return false;
    }
    before := net.past;
    ok := net.PutShard(self, spare, ids[slot], shard.value);
    StillCollisionFree(net, before);
  }

  lemma StillVersion(net: Cluster, earlier: seq<State>, mf: Manifest)
    requires net.Since(earlier) && earlier != [] && Version(earlier[|earlier| - 1], mf)
    ensures Version(net.st, mf)
  {
    net.Grown(earlier);
  }

  lemma StillCollisionFree(net: Cluster, earlier: seq<State>)
    requires net.Since(earlier) && earlier != []
    ensures CollisionFree(net.lib, net.st.seen) ==> CollisionFree(net.lib, earlier[|earlier| - 1].seen)
  {
    net.Grown(earlier);
  }

  lemma StillAcked(net: Cluster, earlier: seq<State>)
    requires net.Since(earlier) && earlier != []
    ensures earlier[|earlier| - 1].acks <= net.st.acks && earlier[|earlier| - 1].inHand <= net.st.inHand
  {
    net.Grown(earlier);
  }

  /** Peers that are bound to count as live, or may: the node itself, and those the ledger
      must or may call online. */
  predicate SureLive(self: Peer, asks: Asks, p: Peer) {
    p == self || MustTrust(asks, p)
  }

  predicate MayLive(self: Peer, asks: Asks, p: Peer) {
    p == self || MayTrust(asks, p)
  }

  function SureCount(self: Peer, asks: Asks, holders: seq<Peer>): nat {
    if holders == [] then 0
    else
      SureCount(self, asks, holders[..|holders| - 1]) + (if SureLive(self, asks, holders[|holders| - 1]) then 1 else 0)
  }

  function MayCount(self: Peer, asks: Asks, holders: seq<Peer>): nat {
    if holders == [] then 0
    else
      MayCount(self, asks, holders[..|holders| - 1]) + (if MayLive(self, asks, holders[|holders| - 1]) then 1 else 0)
  }

  /** The holders that count as live: the node itself, and whoever the ledger calls
      online when asked. */
  method CountLive(self: Peer, holders: seq<Peer>, asks: Asks) returns (live: nat)
    ensures SureCount(self, asks, holders) <= live <= MayCount(self, asks, holders)
  {
    live := 0;
    for i := 0 to |holders|
      invariant SureCount(self, asks, holders[..i]) <= live <= MayCount(self, asks, holders[..i])
    {
      assert holders[..i + 1][..i] == holders[..i];
      var online := AskLedger(asks, holders[i]);
      if holders[i] == self || online {
        live := live + 1;
      }
    }
    assert holders[..|holders|] == holders;
  }

  /** A member that holds no slot and may be called online, with nobody before it that holds none
      and is bound to be. */
  ghost predicate FirstFree(self: Peer, holders: seq<Peer>, members: seq<Peer>, asks: Asks, spare: Peer) {
    && spare in members && spare !in holders && MayLive(self, asks, spare)
    && exists i :: 0 <= i < |members| && members[i] == spare &&
         forall p :: p in members[..i] && p !in holders ==> !SureLive(self, asks, p)
  }

  /** The first member that holds no slot and is the node itself or called online. */
  method FindSpare(self: Peer, holders: seq<Peer>, members: seq<Peer>, asks: Asks) returns (spare: Option<Peer>)
    ensures spare.None? ==> forall p :: p in members && p !in holders ==> !SureLive(self, asks, p)
    ensures spare.Some? ==> FirstFree(self, holders, members, asks, spare.value)
  {
    for i := 0 to |members|
      invariant forall p :: p in members[..i] && p !in holders ==> !SureLive(self, asks, p)
    {
      if members[i] in holders {
        continue;
      }
      var online := AskLedger(asks, members[i]);
      if members[i] != self && !online {
        continue;
      }
      return Some(members[i]);
    }
    assert members[..|members|] == members;
    return None;
  }

  /** The node's disks work, the spare stays up, and k other slots of every stripe can be had. */
  ghost predicate AllRebuildable(net: Cluster, s: State, self: Peer, mf: Manifest, slot: int, spare: Peer, asks: Asks) {
    && net.AlwaysUp(self, self) && net.AlwaysUp(self, spare)
    && forall i :: 0 <= i < |mf.stripes| ==> Rebuildable(net, s, self, mf, i, slot, asks)
  }

  lemma StillRebuildable(net: Cluster, earlier: seq<State>, later: seq<State>, self: Peer, mf: Manifest, idx: int,
                         slot: int, asks: Asks)
    requires net.Since(later) && earlier != [] && earlier <= later
    ensures Rebuildable(net, earlier[|earlier| - 1], self, mf, idx, slot, asks) ==>
              Rebuildable(net, later[|later| - 1], self, mf, idx, slot, asks)
  {
    RunGrows(net.lib, net.past, net.trace, |earlier| - 1, |later| - 1);
    if 0 <= idx < |mf.stripes| && |mf.stripes[idx].shardIds| == |mf.holders| {
      AvailableKept(net, earlier[|earlier| - 1], later[|later| - 1], self, mf.holders, mf.stripes[idx].shardIds, slot,
                    asks, |mf.holders|);
    }
  }

  /** One stripe, with the supply of shards as it was when the loop began. */
  method MigrateNext(net: Cluster, self: Peer, mf: Manifest, idx: nat, slot: nat, spare: Peer, asks: Asks,
                     ghost first: seq<State>) returns (ok: bool)
    requires net.Valid() && Sound(net.lib) && Version(net.st, mf) && idx < |mf.stripes| && slot < |mf.holders|
    requires first != [] && net.Since(first)
    modifies net`st, net`past, net`trace, net`own, net`places
    ensures net.Since(first) && net.Since(old(net.past)) && OnlyPuts(old(net.own), net.own, self, mf, slot, spare)
    ensures ok ==> slot < |mf.stripes[idx].shardIds|
    ensures ok ==> Parcel(self, spare, mf.stripes[idx].shardIds[slot]) in net.st.acks
    ensures (CollisionFree(net.lib, net.st.seen) &&
             AllRebuildable(net, first[|first| - 1], self, mf, slot, spare, asks)) ==> ok
  {
    ghost var before := net.past;
    ok := MigrateStripe(net, self, mf, idx, slot, spare, asks);
    StillRebuildable(net, first, before, self, mf, idx, slot, asks);
  }

  /** Migrate the slot of every stripe, stopping at the first that fails. */
  method MigrateStripes(net: Cluster, self: Peer, mf: Manifest, slot: nat, spare: Peer, asks: Asks) returns (ok: bool)
    requires net.Valid() && Sound(net.lib) && Version(net.st, mf) && slot < |mf.holders|
    modifies net`st, net`past, net`trace, net`own, net`places
    ensures net.Since(old(net.past)) && OnlyPuts(old(net.own), net.own, self, mf, slot, spare)
    ensures ok ==> forall i :: 0 <= i < |mf.stripes| ==>
                     slot < |mf.stripes[i].shardIds| && Parcel(self, spare, mf.stripes[i].shardIds[slot]) in net.st.acks
    ensures CollisionFree(net.lib, net.st.seen) && AllRebuildable(net, old(net.st), self, mf, slot, spare, asks) ==> ok
  {
    ghost var first := net.past;
    for i := 0 to |mf.stripes|
      invariant net.Since(first) && OnlyPuts(old(net.own), net.own, self, mf, slot, spare) && Version(net.st, mf)
      invariant forall j :: 0 <= j < i ==>
                  slot < |mf.stripes[j].shardIds| && Parcel(self, spare, mf.stripes[j].shardIds[slot]) in net.st.acks
    {
      ghost var before := net.past;
      ok := MigrateNext(net, self, mf, i, slot, spare, asks, first);
      StillVersion(net, before, mf);
      StillAcked(net, before);
      if !ok {
        return;
      }
    }
    ok := true;
  }

  /** The spare holds that slot of every stripe. */
  ghost predicate HoldsSlot(s: State, spare: Peer, mf: Manifest, slot: int) {
    forall i :: 0 <= i < |mf.stripes| ==>
      0 <= slot < |mf.stripes[i].shardIds| && Holding(spare, mf.stripes[i].shardIds[slot]) in s.blocks
  }

  lemma AckedIsHeld(net: Cluster, self: Peer, mf: Manifest, slot: nat, spare: Peer)
    requires net.Valid()
    requires forall i :: 0 <= i < |mf.stripes| ==>
               slot < |mf.stripes[i].shardIds| && Parcel(self, spare, mf.stripes[i].shardIds[slot]) in net.st.acks
    ensures HoldsSlot(net.st, spare, mf, slot)
  {
    net.Sane();
  }

  datatype Outcome = Headroom | NoSpare | Failed(spare: Peer) | Migrated(spare: Peer)

  /** Store the new version, then offer it to its holders; those that stay up take it. */
  method Publish(net: Cluster, self: Peer, mf: Manifest) returns (ok: bool)
    requires net.Valid() && Copy(self, mf) in net.st.inHand
    modifies net`st, net`past, net`trace, net`own, net`places
    ensures net.Since(old(net.past))
    ensures ok ==> Receipt(self, self, mf) in net.st.manifestAcks && Replicated(net, net.st, self, mf, |mf.holders|)
    ensures !ok ==> net.own == old(net.own)
    ensures OnlySends(old(net.own), net.own, self, mf)
    ensures self in net.disks ==> ok
  {
    ghost var first := net.past;
    ok := net.SendManifest(self, self, mf);
    if !ok {
      return;
    }
    StillPublished(net, first);
    ghost var stored := net.past;
    OfferAll(net, self, mf);
    StillPublished(net, stored);
  }

  method OfferAll(net: Cluster, self: Peer, mf: Manifest)
    requires net.Valid() && Copy(self, mf) in net.st.inHand
    modifies net`st, net`past, net`trace, net`own, net`places
    ensures net.Since(old(net.past)) && Replicated(net, net.st, self, mf, |mf.holders|)
    ensures OnlySends(old(net.own), net.own, self, mf)
  {
    ghost var first := net.past;
    for i := 0 to |mf.holders|
      invariant net.Since(first) && Replicated(net, net.st, self, mf, i) && OnlySends(old(net.own), net.own, self, mf)
    {
      var h := mf.holders[i];
      if h != self && net.lib.decodes(h) {
        StillPublished(net, first);
        ghost var before := net.past;
        var sent := net.SendManifest(self, h, mf);
        ReplicatedKept(net, before, self, mf, i);
      }
    }
  }

  lemma StillPublished(net: Cluster, earlier: seq<State>)
    requires net.Since(earlier) && earlier != []
    ensures earlier[|earlier| - 1].manifestAcks <= net.st.manifestAcks && earlier[|earlier| - 1].inHand <= net.st.inHand
  {
    net.Grown(earlier);
  }

  /** What a finished migration leaves behind. */
  ghost predicate Done(s: State, self: Peer, mf: Manifest, slot: nat, spare: Peer)
    requires slot < |mf.holders|
  {
    && spare !in mf.holders && WellFormed(Moved(mf, slot, spare))
    && Copy(self, Moved(mf, slot, spare)) in s.inHand && Receipt(self, self, Moved(mf, slot, spare)) in s.manifestAcks
    && HoldsSlot(s, spare, mf, slot)
  }

  /** The file is at risk whatever the ledger says of the doubtful, somebody is sure to be
      free, and onto anybody who might be picked every stripe can be rebuilt. */
  ghost predicate MustRepair(net: Cluster, s: State, self: Peer, mf: Manifest, slot: nat, members: seq<Peer>,
                             asks: Asks) {
    && MayCount(self, asks, mf.holders) <= mf.k
    && (exists p :: p in members && p !in mf.holders && SureLive(self, asks, p))
    && (forall p :: p in members && p !in mf.holders && MayLive(self, asks, p) ==>
        AllRebuildable(net, s, self, mf, slot, p, asks))
  }

  /** `repairFile`: all or nothing. Unless every stripe was migrated and the new version
      stored, no manifest is written anywhere. If so, the new version differs in the one
      slot only, its holders are still pairwise distinct and one per slot, the spare holds
      that slot of every stripe, and the holders that stay up have the new version. A file
      with more than k live holders is left alone, one at risk is given up for want of a
      spare only if there is none, and otherwise repaired if it can be. */
  method RepairFile(net: Cluster, self: Peer, mf: Manifest, slot: nat, members: seq<Peer>, asks: Asks)
    returns (out: Outcome)
    requires net.Valid() && Sound(net.lib) && Copy(self, mf) in net.st.inHand && slot < |mf.holders|
    modifies net`st, net`past, net`trace, net`own, net`places
    ensures net.Since(old(net.past))
    ensures SureCount(self, asks, mf.holders) > mf.k ==> out.Headroom?
    ensures out.Headroom? ==> MayCount(self, asks, mf.holders) > mf.k
    ensures out.NoSpare? ==> forall p :: p in members && p !in mf.holders ==> !SureLive(self, asks, p)
    ensures out.Headroom? || out.NoSpare? ==> net.own == old(net.own)
    ensures !out.Migrated? ==> NoManifestSent(old(net.own), net.own)
    ensures WritesWithout(old(net.own), net.own, [mf.fileId], mf.holders[slot])
    ensures out.Failed? && CollisionFree(net.lib, net.st.seen) ==>
              !AllRebuildable(net, old(net.st), self, mf, slot, out.spare, asks)
    ensures out.Failed? || out.Migrated? ==>
              FirstFree(self, mf.holders, members, asks, out.spare) &&
              Moves(old(net.own), net.own, self, mf, slot, out.spare)
    ensures out.Migrated? ==> Done(net.st, self, mf, slot, out.spare)
    ensures out.Migrated? ==> Replicated(net, net.st, self, Moved(mf, slot, out.spare), |mf.holders|)
    ensures CollisionFree(net.lib, net.st.seen) && MustRepair(net, old(net.st), self, mf, slot, members, asks) ==>
              out.Migrated?
  {
    var live := CountLive(self, mf.holders, asks);
    if live > mf.k {
      return Headroom;
    }
    var spare := FindSpare(self, mf.holders, members, asks);
    if spare.None? {
      return NoSpare;
    }
    out := MoveSlot(net, self, mf, slot, spare.value, asks);
  }

  /** A log of that kind, and what it means for the manifests written. */
  lemma MoveLog(start: seq<Action>, put: seq<Action>, sent: seq<Action>, self: Peer, mf: Manifest, slot: nat,
                spare: Peer)
    requires slot < |mf.holders| && NoDup(mf.holders) && spare !in mf.holders
    requires OnlyPuts(start, put, self, mf, slot, spare)
    requires OnlySends(put + [Migrate(self, mf, slot, spare)], sent, self, Moved(mf, slot, spare))
    ensures Moves(start, sent, self, mf, slot, spare)
    ensures WritesWithout(start, sent, [mf.fileId], mf.holders[slot])
  {
    var n := |put|;
    assert sent[..n + 1] == put + [Migrate(self, mf, slot, spare)];
    assert sent[..n] == put && sent[n] == Migrate(self, mf, slot, spare);
    assert start <= sent;
    assert mf.holders[slot] !in Moved(mf, slot, spare).holders;
  }

  /** The migration and commit of `repairFile`. */
  method MoveSlot(net: Cluster, self: Peer, mf: Manifest, slot: nat, spare: Peer, asks: Asks) returns (out: Outcome)
    requires net.Valid() && Sound(net.lib) && Copy(self, mf) in net.st.inHand && slot < |mf.holders|
    requires spare !in mf.holders
    modifies net`st, net`past, net`trace, net`own, net`places
    ensures net.Since(old(net.past))
    ensures out == Failed(spare) || out == Migrated(spare)
    ensures out.Failed? ==> NoManifestSent(old(net.own), net.own)
    ensures Moves(old(net.own), net.own, self, mf, slot, spare)
    ensures WritesWithout(old(net.own), net.own, [mf.fileId], mf.holders[slot])
    ensures CollisionFree(net.lib, net.st.seen) && AllRebuildable(net, old(net.st), self, mf, slot, spare, asks) ==>
              out.Migrated?
    ensures out.Migrated? ==> Done(net.st, self, mf, slot, spare)
    ensures out.Migrated? ==> Replicated(net, net.st, self, Moved(mf, slot, spare), |mf.holders|)
  {
    InHandVersion(net, self, mf);
    ghost var first := net.past;
    var ok := MigrateStripes(net, self, mf, slot, spare, asks);
    if !ok {
      return Failed(spare);
    }
    StillAcked(net, first);
    ghost var migrated, put := net.past, net.own;
    out := CommitMove(net, self, mf, slot, spare);
    StillCollisionFree(net, migrated);
    MoveLog(old(net.own), put, net.own, self, mf, slot, spare);
  }

  /** The second half: put the spare into the manifest in hand and publish it. */
  method CommitMove(net: Cluster, self: Peer, mf: Manifest, slot: nat, spare: Peer) returns (out: Outcome)
    requires net.Valid() && Copy(self, mf) in net.st.inHand && slot < |mf.holders| && spare !in mf.holders
    requires forall i :: 0 <= i < |mf.stripes| ==>
               slot < |mf.stripes[i].shardIds| && Parcel(self, spare, mf.stripes[i].shardIds[slot]) in net.st.acks
    modifies net`st, net`past, net`trace, net`own, net`places
    ensures net.Since(old(net.past))
    ensures out == Failed(spare) || out == Migrated(spare)
    ensures OnlySends(old(net.own) + [Migrate(self, mf, slot, spare)], net.own, self, Moved(mf, slot, spare))
    ensures out.Failed? ==> net.own == old(net.own) + [Migrate(self, mf, slot, spare)]
    ensures out.Migrated? ==> Done(net.st, self, mf, slot, spare)
    ensures out.Migrated? ==> Replicated(net, net.st, self, Moved(mf, slot, spare), |mf.holders|)
    ensures self in net.disks ==> out.Migrated?
  {
    ghost var before := net.past;
    var mf' := net.ReplaceHolder(self, mf, slot, spare);
    ghost var replaced := net.past;
    var ok := Publish(net, self, mf');
    if !ok {
      return Failed(spare);
    }
    StillAcked(net, before);
    AckedIsHeld(net, self, mf, slot, spare);
    StillPublished(net, replaced);
    InHandVersion(net, self, mf');
    return Migrated(spare);
  }

  /** What became of one manifest of a scan. */
  datatype Scanned = Elsewhere | Tried(slot: nat, out: Outcome)

  /** Between the runs `from` and `now` the file was dealt with as its manifest asks for. */
  ghost predicate Handled(net: Cluster, from: seq<State>, now: seq<State>, self: Peer, offline: Peer, mf: Manifest,
                          members: seq<Peer>, asks: Asks, r: Scanned)
    requires from != [] && now != []
  {
    var s, t := from[|from| - 1], now[|now| - 1];
    match r
    case Elsewhere => offline !in mf.holders
    case Tried(slot, out) =>
      && slot < |mf.holders| && mf.holders[slot] == offline
      && (out.Failed? || out.Migrated? ==> FirstFree(self, mf.holders, members, asks, out.spare))
      && (out.Migrated? ==> Done(t, self, mf, slot, out.spare))
      && (CollisionFree(net.lib, t.seen) && MustRepair(net, s, self, mf, slot, members, asks) ==> out.Migrated?)
  }

  lemma AllRebuildableKept(net: Cluster, earlier: seq<State>, later: seq<State>, self: Peer, mf: Manifest, slot: nat,
                           p: Peer, asks: Asks)
    requires net.Since(later) && earlier != [] && earlier <= later
    requires AllRebuildable(net, earlier[|earlier| - 1], self, mf, slot, p, asks)
    ensures AllRebuildable(net, later[|later| - 1], self, mf, slot, p, asks)
  {
    var t := later[|later| - 1];
    forall i | 0 <= i < |mf.stripes|
      ensures Rebuildable(net, t, self, mf, i, slot, asks)
    {
      StillRebuildable(net, earlier, later, self, mf, i, slot, asks);
    }
  }

  lemma MustRepairKept(net: Cluster, earlier: seq<State>, later: seq<State>, self: Peer, mf: Manifest, slot: nat,
                       members: seq<Peer>, asks: Asks)
    requires net.Since(later) && earlier != [] && earlier <= later
    ensures MustRepair(net, earlier[|earlier| - 1], self, mf, slot, members, asks) ==>
              MustRepair(net, later[|later| - 1], self, mf, slot, members, asks)
  {
    var s, t := earlier[|earlier| - 1], later[|later| - 1];
    if MustRepair(net, s, self, mf, slot, members, asks) {
      forall p | p in members && p !in mf.holders && MayLive(self, asks, p)
        ensures AllRebuildable(net, t, self, mf, slot, p, asks)
      {
        AllRebuildableKept(net, earlier, later, self, mf, slot, p, asks);
      }
    }
  }

  lemma DoneKept(net: Cluster, earlier: seq<State>, self: Peer, mf: Manifest, slot: nat, spare: Peer)
    requires net.Since(earlier) && earlier != [] && slot < |mf.holders|
    requires Done(earlier[|earlier| - 1], self, mf, slot, spare)
    ensures Done(net.st, self, mf, slot, spare)
  {
    net.Grown(earlier);
  }

  /** One manifest of the scan. */
  method ScanFile(net: Cluster, self: Peer, offline: Peer, mf: Manifest, members: seq<Peer>, asks: Asks,
                  ghost from: seq<State>)
    returns (r: Scanned)
    requires net.Valid() && Sound(net.lib) && from != [] && net.Since(from) && Copy(self, mf) in net.st.inHand
    modifies net`st, net`past, net`trace, net`own, net`places
    ensures net.Since(from) && net.Since(old(net.past)) && WritesWithout(old(net.own), net.own, [mf.fileId], offline)
    ensures Handled(net, from, net.past, self, offline, mf, members, asks, r)
  {
    var slot := IndexOf(mf.holders, offline);
    if slot < 0 {
      return Elsewhere;
    }
    ghost var before := net.past;
    MustRepairKept(net, from, before, self, mf, slot, members, asks);
    var out := RepairFile(net, self, mf, slot, members, asks);
    return Tried(slot, out);
  }

  lemma HandledKept(net: Cluster, from: seq<State>, earlier: seq<State>, self: Peer, offline: Peer, mf: Manifest,
                    members: seq<Peer>, asks: Asks, r: Scanned)
    requires from != [] && earlier != [] && net.Since(earlier)
    requires Handled(net, from, earlier, self, offline, mf, members, asks, r)
    ensures Handled(net, from, net.past, self, offline, mf, members, asks, r)
  {
    if r.Tried? {
      StillCollisionFree(net, earlier);
      if r.out.Migrated? {
        DoneKept(net, earlier, self, mf, r.slot, r.out.spare);
      }
    }
  }

  function Files(list: seq<Manifest>): (files: seq<FileId>)
    ensures |files| == |list| && forall i :: 0 <= i < |list| ==> files[i] == list[i].fileId
  {
    seq(|list|, i requires 0 <= i < |list| => list[i].fileId)
  }

  /** `ScanForOfflinePeer`: it goes through the manifests that the local store holds at some
      moment of the call. Every one that names the offline peer is tried, and migrated if it
      must and can be; no manifest is written but of those files, and none that still names
      the offline peer. */
  method Scan(net: Cluster, self: Peer, offline: Peer, membersOf: string -> seq<Peer>, asks: Asks)
    returns (list: seq<Manifest>, results: seq<Scanned>, ghost at: seq<State>)
    requires net.Valid() && Sound(net.lib)
    modifies net`st, net`past, net`trace, net`own, net`places
    ensures net.Since(at) && old(net.past) <= at && at != []
    ensures WritesWithout(old(net.own), net.own, Files(list), offline)
    ensures self in net.disks ==> ListsStore(at[|at| - 1], self, list)
    ensures |results| == |list|
    ensures forall i :: 0 <= i < |list| ==>
              Handled(net, at, net.past, self, offline, list[i], membersOf(list[i].groupId), asks, results[i])
  {
    var listing;
    listing, at := net.ListManifests(self);
    results := [];
    if listing.Err? {
      return [], [], at;
    }
    list := listing.value;
    ghost var learned := net.past;
    for i := 0 to |list|
      invariant net.Since(at) && net.Since(learned) && WritesWithout(old(net.own), net.own, Files(list), offline)
      invariant |results| == i
      invariant forall j :: 0 <= j < i ==>
                  Handled(net, at, net.past, self, offline, list[j], membersOf(list[j].groupId), asks, results[j])
    {
      ghost var before, own := net.past, net.own;
      StillAcked(net, learned);
      var r := ScanFile(net, self, offline, list[i], membersOf(list[i].groupId), asks, at);
      WritesMore(old(net.own), own, net.own, Files(list), list[i].fileId, offline);
      forall j | 0 <= j < i {
        HandledKept(net, at, before, self, offline, list[j], membersOf(list[j].groupId), asks, results[j]);
      }
      results := results + [r];
    }
  }

  lemma WritesMore(start: seq<Action>, middle: seq<Action>, end: seq<Action>, files: seq<FileId>, f: FileId, gone: Peer)
    requires WritesWithout(start, middle, files, gone) && WritesWithout(middle, end, [f], gone) && f in files
    ensures WritesWithout(start, end, files, gone)
  {
    forall i | |start| <= i < |end|
      ensures !end[i].Commit? && (end[i].SendManifest? ==> end[i].mf.fileId in files && gone !in end[i].mf.holders)
    {
      if i < |middle| {
        assert end[i] == middle[i];
      }
    }
  }

  // ----- what a repair is worth -----

  /** Slot j of stripe i sits on a peer that is online and has it. */
  predicate Reached(s: State, mf: Manifest, i: nat, j: nat)
    requires i < |mf.stripes| && j < |mf.holders| && j < |mf.stripes[i].shardIds|
  {
    mf.holders[j] in s.online && Holding(mf.holders[j], mf.stripes[i].shardIds[j]) in s.blocks
  }

  function ReachedCount(s: State, mf: Manifest, i: nat, n: nat): nat
    requires i < |mf.stripes| && n <= |mf.holders| == |mf.stripes[i].shardIds|
  {
    if n == 0 then 0 else ReachedCount(s, mf, i, n - 1) + (if Reached(s, mf, i, n - 1) then 1 else 0)
  }

  /** Moving a slot to a spare that is up and has it never lowers the number of reachable
      slots of any stripe, and raises it by one if the old holder was not reachable. */
  lemma {:induction false} MoveNeverLowersReach(s: State, mf: Manifest, slot: nat, spare: Peer, i: nat, n: nat)
    requires i < |mf.stripes| && n <= |mf.holders| == |mf.stripes[i].shardIds| && slot < |mf.holders|
    requires spare in s.online && HoldsSlot(s, spare, mf, slot)
    ensures ReachedCount(s, Moved(mf, slot, spare), i, n) ==
            ReachedCount(s, mf, i, n) + (if slot < n && !Reached(s, mf, i, slot) then 1 else 0)
  {
    if n > 0 {
      MoveNeverLowersReach(s, mf, slot, spare, i, n - 1);
    }
  }
}
