/** internal/spool/worker.go: delivering what was spooled for a peer that is back. */
module SpoolWorker {
  import opened Base
  import opened Primitives
  import opened Manifests
  import opened ClusterModel
  import opened Network

  datatype Sent = Done | Skipped | Refused

  /** The two kinds of entries, and whose they are: `self` delivers to `peer`. */
  datatype Route = Route(self: Peer, peer: Peer, manifests: bool)

  /** `a` puts the entry `key` on the peer, and was acknowledged or not. */
  predicate Puts(a: Action, r: Route, key: string, acked: bool) {
    if r.manifests then a.SendManifest? && a.peer == r.self && a.target == r.peer && a.mf.fileId == key &&
        a.acked == acked
    else a.PutBlock? && a.client == r.self && a.holder == r.peer && a.id == key && a.acked == acked
  }

  function Drop(r: Route, key: string): Action {
    if r.manifests then DequeueManifest(r.self, r.peer, key) else Dequeue(r.self, r.peer, key)
  }

  /** What going through the entries `keys` in order may do: each is passed over, or put
      with an acknowledgement, and then removed right away unless the removal fails. */
  ghost predicate Deliveries(log: seq<Action>, r: Route, keys: seq<string>) {
    if keys == [] then log == []
    else
      var n, rest, key := |log|, keys[..|keys| - 1], keys[|keys| - 1];
      || Deliveries(log, r, rest)
      || (n >= 1 && Puts(log[n - 1], r, key, true) && Deliveries(log[..n - 1], r, rest))
      || (n >= 2 && Puts(log[n - 2], r, key, true) && log[n - 1] == Drop(r, key) && Deliveries(log[..n - 2], r, rest))
  }

  /** One half of a pass: all of `keys`, or the first `handled` and then a refused put. */
  ghost predicate Half(log: seq<Action>, r: Route, keys: seq<string>, handled: nat) {
    && handled <= |keys|
    && (|| Deliveries(log, r, keys[..handled])
        || (handled < |keys| && log != [] && Puts(log[|log| - 1], r, keys[handled], false) &&
            Deliveries(log[..|log| - 1], r, keys[..handled])))
  }

  /** One more entry: passed over, put, or put and removed. */
  ghost predicate OneDelivery(step: seq<Action>, r: Route, key: string) {
    || step == []
    || (|step| == 1 && Puts(step[0], r, key, true))
    || (|step| == 2 && Puts(step[0], r, key, true) && step[1] == Drop(r, key))
  }

  lemma DeliveriesSnoc(log: seq<Action>, step: seq<Action>, r: Route, keys: seq<string>, key: string)
    requires Deliveries(log, r, keys) && OneDelivery(step, r, key)
    ensures Deliveries(log + step, r, keys + [key])
  {
    assert (keys + [key])[..|keys|] == keys;
    if step == [] {
      assert log + step == log;
    } else {
      assert (log + step)[..|log|] == log;
    }
  }

  /** Nothing is removed but what was just delivered, nothing is put but entries listed. */
  lemma {:induction false} RemovedWasDelivered(log: seq<Action>, r: Route, keys: seq<string>, i: nat)
    requires Deliveries(log, r, keys) && i < |log|
    ensures || (exists key :: key in keys && Puts(log[i], r, key, true))
            || (exists key :: key in keys && i > 0 && log[i] == Drop(r, key) && Puts(log[i - 1], r, key, true))
  {
    var n, rest, key := |log|, keys[..|keys| - 1], keys[|keys| - 1];
    assert keys == rest + [key];
    if Deliveries(log, r, rest) {
      RemovedWasDelivered(log, r, rest, i);
    } else if Puts(log[n - 1], r, key, true) && Deliveries(log[..n - 1], r, rest) {
      if i < n - 1 {
        RemovedWasDelivered(log[..n - 1], r, rest, i);
      }
    } else if i < n - 2 {
      RemovedWasDelivered(log[..n - 2], r, rest, i);
    }
  }

  // ----- entries that are gone -----

  predicate Waits(s: State, r: Route, key: string) {
    if r.manifests then Parcel(r.self, r.peer, key) in s.manifestSpool else Parcel(r.self, r.peer, key) in s.shardSpool
  }

  /** At some moment since `before` the entry was not in the spool. */
  ghost predicate WasGone(before: seq<State>, now: seq<State>, r: Route, key: string) {
    exists n :: 0 <= n < |now| && |before| - 1 <= n && !Waits(now[n], r, key)
  }

  /** An entry that can be read has left the spool since `before`, if the disk works. */
  ghost predicate Cleared(net: Cluster, before: seq<State>, now: seq<State>, r: Route, key: string) {
    r.self in net.disks && Parcel(r.self, r.peer, key) in net.readable ==> WasGone(before, now, r, key)
  }

  lemma ClearedKept(net: Cluster, before: seq<State>, now: seq<State>, first: seq<State>, later: seq<State>, r: Route,
                    key: string)
    requires Cleared(net, before, now, r, key) && first <= before && now <= later
    ensures Cleared(net, first, later, r, key)
  {
    if r.self in net.disks && Parcel(r.self, r.peer, key) in net.readable {
      var n :| 0 <= n < |now| && |before| - 1 <= n && !Waits(now[n], r, key);
      assert !Waits(later[n], r, key);
    }
  }

  lemma ClearedNow(net: Cluster, r: Route, key: string)
    requires net.Valid()
    requires r.self in net.disks && Parcel(r.self, r.peer, key) in net.readable ==> !Waits(net.st, r, key)
    ensures forall first :: first <= net.past ==> Cleared(net, first, net.past, r, key)
  {
    assert net.past[|net.past| - 1] == net.st;
  }

  /** `a` queues that entry. */
  predicate Queues(a: Action, r: Route, key: string) {
    if r.manifests then a.EnqueueManifest? && a.peer == r.self && a.target == r.peer && a.mf.fileId == key
    else a.Enqueue? && a.client == r.self && a.holder == r.peer && a.id == key
  }

  lemma NewEntryIsQueued(lib: Library, s: State, a: Action, r: Route, key: string)
    requires !Waits(s, r, key) && Waits(Step(lib, s, a), r, key)
    ensures Queues(a, r, key)
  {
  }

  /** Over all runs: what is gone stays gone until somebody queues it again. */
  lemma {:induction false} StaysGone(lib: Library, states: seq<State>, run: seq<Action>, m: nat, n: nat, r: Route,
                                     key: string)
    requires IsRun(lib, states, run) && m <= n < |states| && !Waits(states[m], r, key)
    requires forall i :: m <= i < n ==> !Queues(run[i], r, key)
    ensures !Waits(states[n], r, key)
  {
    if m < n {
      StaysGone(lib, states, run, m, n - 1, r, key);
      if Waits(states[n], r, key) {
        NewEntryIsQueued(lib, states[n - 1], run[n - 1], r, key);
      }
    }
  }

  lemma StillAcked(net: Cluster, earlier: seq<State>)
    requires net.Since(earlier) && earlier != []
    ensures earlier[|earlier| - 1].acks <= net.st.acks && earlier[|earlier| - 1].manifestAcks <= net.st.manifestAcks
    ensures FilesKept(earlier[|earlier| - 1], net.st)
  {
    net.Grown(earlier);
  }

  // ----- shards -----

  /** A shard entry that was spooled in state s and can be read has been delivered in t. */
  ghost predicate ShardDone(net: Cluster, s: State, t: State, self: Peer, peer: Peer, id: ShardId) {
    Parcel(self, peer, id) in s.shardSpool && Parcel(self, peer, id) in net.readable ==>
        Parcel(self, peer, id) in t.acks
  }

  /** One shard entry: read, send, and only then remove. */
  method FlushShard(net: Cluster, self: Peer, peer: Peer, id: ShardId) returns (r: Sent, ghost step: seq<Action>)
    requires net.Valid()
    modifies net`st, net`past, net`trace, net`own, net`places
    ensures net.Since(old(net.past)) && net.own == old(net.own) + step
    ensures !r.Refused? ==> OneDelivery(step, Route(self, peer, false), id)
    ensures !r.Refused? ==> ShardDone(net, old(net.st), net.st, self, peer, id)
    ensures r.Refused? ==> step == [] || (|step| == 1 && Puts(step[0], Route(self, peer, false), id, false))
    ensures r.Done? ==> Parcel(self, peer, id) in net.st.acks
    ensures net.AlwaysUp(self, peer) ==> !r.Refused?
    ensures !r.Refused? && self in net.disks && Parcel(self, peer, id) in net.readable ==>
              !Waits(net.st, Route(self, peer, false), id)
  {
    var data := net.ReadSpooledShard(self, peer, id);
    if data.None? {
      return Skipped, [];
    }
    ghost var own := net.own;
    var ok := net.PutShard(self, peer, id, data.value);
    step := net.own[|own|..];
    if !ok {
      return Refused, step;
    }
    ghost var before := net.past;
    net.RemoveSpooledShard(self, peer, id);
    step := net.own[|own|..];
    StillAcked(net, before);
    return Done, step;
  }

  lemma ShardDoneKept(net: Cluster, earlier: seq<State>, s: State, self: Peer, peer: Peer, id: ShardId)
    requires net.Since(earlier) && earlier != [] && ShardDone(net, s, earlier[|earlier| - 1], self, peer, id)
    ensures ShardDone(net, s, net.st, self, peer, id)
  {
    StillAcked(net, earlier);
  }

  /** An entry of an earlier listing is still there or was delivered since. */
  lemma ShardDoneSince(net: Cluster, first: seq<State>, before: seq<State>, self: Peer, peer: Peer, id: ShardId)
    requires net.Since(before) && first != [] && first <= before
    requires ShardDone(net, before[|before| - 1], net.st, self, peer, id)
    ensures ShardDone(net, first[|first| - 1], net.st, self, peer, id)
  {
    RunGrows(net.lib, net.past, net.trace, |first| - 1, |before| - 1);
    StillAcked(net, before);
  }

  /** The first n entries were gone through since `first`: each that can be read was delivered,
      and has left the spool if the disk works. */
  ghost predicate ShardsHandled(net: Cluster, first: seq<State>, now: seq<State>, self: Peer, peer: Peer,
                                shards: seq<ShardId>, n: nat)
    requires first != [] && now != [] && n <= |shards|
  {
    forall i :: 0 <= i < n ==>
      && ShardDone(net, first[|first| - 1], now[|now| - 1], self, peer, shards[i])
      && Cleared(net, first, now, Route(self, peer, false), shards[i])
  }

  lemma ShardsHandledKept(net: Cluster, first: seq<State>, earlier: seq<State>, self: Peer, peer: Peer,
                          shards: seq<ShardId>, n: nat)
    requires net.Since(earlier) && first != [] && first <= earlier && n <= |shards|
    requires ShardsHandled(net, first, earlier, self, peer, shards, n)
    ensures ShardsHandled(net, first, net.past, self, peer, shards, n)
  {
    forall i | 0 <= i < n
      ensures ShardDone(net, first[|first| - 1], net.st, self, peer, shards[i])
      ensures Cleared(net, first, net.past, Route(self, peer, false), shards[i])
    {
      ShardDoneKept(net, earlier, first[|first| - 1], self, peer, shards[i]);
      ClearedKept(net, first, earlier, first, net.past, Route(self, peer, false), shards[i]);
    }
  }

  lemma OneMoreShard(net: Cluster, first: seq<State>, before: seq<State>, self: Peer, peer: Peer, shards: seq<ShardId>,
                     n: nat)
    requires net.Since(before) && first != [] && first <= before && n < |shards|
    requires ShardsHandled(net, first, net.past, self, peer, shards, n)
    requires ShardDone(net, before[|before| - 1], net.st, self, peer, shards[n])
    requires self in net.disks && Parcel(self, peer, shards[n]) in net.readable ==>
               !Waits(net.st, Route(self, peer, false), shards[n])
    ensures ShardsHandled(net, first, net.past, self, peer, shards, n + 1)
  {
    ShardDoneSince(net, first, before, self, peer, shards[n]);
    ClearedNow(net, Route(self, peer, false), shards[n]);
  }

  /** The shard half of a pass, in order, up to the first refused put. Every entry before
      that which can be read was delivered and, with a working disk, removed; only delivered entries were removed, and
      nothing after it was touched. */
  method FlushShards(net: Cluster, self: Peer, peer: Peer, shards: seq<ShardId>)
    returns (handled: nat, ghost log: seq<Action>)
    requires net.Valid()
    modifies net`st, net`past, net`trace, net`own, net`places
    ensures net.Since(old(net.past)) && net.own == old(net.own) + log
    ensures Half(log, Route(self, peer, false), shards, handled)
    ensures ShardsHandled(net, old(net.past), net.past, self, peer, shards, handled)
    ensures net.AlwaysUp(self, peer) ==> handled == |shards|
  {
    ghost var first, own := net.past, net.own;
    handled, log := 0, [];
    while handled < |shards|
      invariant handled <= |shards| && net.Since(first) && net.own == own + log
      invariant Deliveries(log, Route(self, peer, false), shards[..handled])
      invariant ShardsHandled(net, first, net.past, self, peer, shards, handled)
    {
      ghost var before, step := net.past, [];
      var r;
      r, step := FlushShard(net, self, peer, shards[handled]);
      ShardsHandledKept(net, first, before, self, peer, shards, handled);
      assert net.own == own + (log + step);
      if r.Refused? {
        assert step != [] ==> (log + step)[..|log|] == log;
        assert step == [] ==> log + step == log;
        return handled, log + step;
      }
      OneMoreShard(net, first, before, self, peer, shards, handled);
      DeliveriesSnoc(log, step, Route(self, peer, false), shards[..handled], shards[handled]);
      assert shards[..handled + 1] == shards[..handled] + [shards[handled]];
      handled, log := handled + 1, log + step;
    }
  }

  /** Every shard of the file that is assigned to `peer` has reached it. */
  ghost predicate ShardsArrived(s: State, peer: Peer, f: FileId) {
    && f in s.files
    && var mf := s.files[f].mf;
       forall i, j :: (0 <= i < |mf.stripes| && 0 <= j < |mf.holders| && j < |mf.stripes[i].shardIds| &&
                       mf.holders[j] == peer) ==>
         Holding(peer, mf.stripes[i].shardIds[j]) in s.blocks
  }

  /** Those shards of the file that are spooled for `peer` can be read. */
  ghost predicate ShardsReadable(net: Cluster, s: State, self: Peer, peer: Peer, f: FileId) {
    f in s.files ==>
      var mf := s.files[f].mf;
      forall i, j :: (0 <= i < |mf.stripes| && 0 <= j < |mf.holders| && j < |mf.stripes[i].shardIds| &&
                      mf.holders[j] == peer) ==>
        var q := Parcel(self, peer, mf.stripes[i].shardIds[j]);
        q in s.shardSpool ==> q in net.readable
  }

  /** A manifest waits in the spool only after its shards were delivered or spooled, so
      once those that can be read were delivered, and all of them can, they have arrived. */
  lemma SpooledShardsArrive(net: Cluster, listed: seq<State>, self: Peer, peer: Peer, f: FileId)
    requires net.Since(listed) && listed != []
    requires Parcel(self, peer, f) in listed[|listed| - 1].manifestSpool
    requires var s := listed[|listed| - 1]; forall id :: ShardDone(net, s, net.st, self, peer, id)
    requires ShardsReadable(net, listed[|listed| - 1], self, peer, f)
    ensures ShardsArrived(net.st, peer, f)
  {
    var s := listed[|listed| - 1];
    RunKeepsInv(net.lib, net.past, net.trace, |listed| - 1);
    assert s == net.past[|listed| - 1];
    net.Grown(listed);
    var mf := s.files[f].mf;
    assert Shipped(net.lib, s, s.files[f]);
    forall i, j | 0 <= i < |mf.stripes| && 0 <= j < |mf.holders| && j < |mf.stripes[i].shardIds| &&
        mf.holders[j] == peer
      ensures Parcel(self, peer, mf.stripes[i].shardIds[j]) in net.st.acks
    {
      assert Delivered(s, self, peer, mf.stripes[i].shardIds[j]);
      assert ShardDone(net, s, net.st, self, peer, mf.stripes[i].shardIds[j]);
    }
    AckedArrived(net, self, peer, f);
  }

  lemma AckedArrived(net: Cluster, self: Peer, peer: Peer, f: FileId)
    requires net.Valid() && f in net.st.files
    requires var mf := net.st.files[f].mf;
             forall i, j :: (0 <= i < |mf.stripes| && 0 <= j < |mf.holders| && j < |mf.stripes[i].shardIds| &&
                             mf.holders[j] == peer) ==>
               Parcel(self, peer, mf.stripes[i].shardIds[j]) in net.st.acks
    ensures ShardsArrived(net.st, peer, f)
  {
    net.Sane();
  }

  // ----- manifests -----

  /** The committed manifest of the file was acknowledged by `peer`. */
  ghost predicate Acknowledged(s: State, self: Peer, peer: Peer, f: FileId) {
    f in s.files && Receipt(self, peer, s.files[f].mf) in s.manifestAcks
  }

  /** A manifest entry that was spooled in state s and can be read has been delivered in t. */
  ghost predicate ManifestDone(net: Cluster, s: State, t: State, self: Peer, peer: Peer, f: FileId) {
    Parcel(self, peer, f) in s.manifestSpool && Parcel(self, peer, f) in net.readable ==> Acknowledged(t, self, peer, f)
  }

  lemma StillAcknowledged(net: Cluster, earlier: seq<State>, self: Peer, peer: Peer, f: FileId)
    requires net.Since(earlier) && earlier != []
    ensures Acknowledged(earlier[|earlier| - 1], self, peer, f) ==> Acknowledged(net.st, self, peer, f)
  {
    StillAcked(net, earlier);
  }

  /** A receipt for a spooled manifest is one for the committed one. */
  lemma SpooledReceipt(net: Cluster, earlier: seq<State>, self: Peer, peer: Peer, f: FileId)
    requires net.Since(earlier) && earlier != []
    ensures var s, q := earlier[|earlier| - 1], Parcel(self, peer, f);
            q in s.manifestSpool && Receipt(self, peer, s.manifestSpool[q]) in net.st.manifestAcks ==>
                Acknowledged(net.st, self, peer, f)
  {
    RunKeepsInv(net.lib, net.past, net.trace, |earlier| - 1);
    assert earlier[|earlier| - 1] == net.past[|earlier| - 1];
    StillAcked(net, earlier);
  }

  /** One manifest entry: read, send, and only then remove. */
  method FlushManifest(net: Cluster, self: Peer, peer: Peer, f: FileId) returns (r: Sent, ghost step: seq<Action>)
    requires net.Valid()
    modifies net`st, net`past, net`trace, net`own, net`places
    ensures net.Since(old(net.past)) && net.own == old(net.own) + step
    ensures !r.Refused? ==> OneDelivery(step, Route(self, peer, true), f)
    ensures !r.Refused? ==> ManifestDone(net, old(net.st), net.st, self, peer, f)
    ensures r.Refused? ==> step == [] || (|step| == 1 && Puts(step[0], Route(self, peer, true), f, false))
    ensures r.Done? ==> Acknowledged(net.st, self, peer, f)
    ensures net.AlwaysUp(self, peer) ==> !r.Refused?
    ensures net.Later(old(net.places), |old(net.past)| - 1)
    ensures !r.Refused? && self in net.disks && Parcel(self, peer, f) in net.readable ==>
              !Waits(net.st, Route(self, peer, true), f)
  {
    var mf := net.ReadSpooledManifest(self, peer, f);
    if mf.None? {
      SpooledReceipt(net, old(net.past), self, peer, f);
      return Skipped, [];
    }
    r, step := SendSpooled(net, self, peer, mf.value);
  }

  method SendSpooled(net: Cluster, self: Peer, peer: Peer, mf: Manifest) returns (r: Sent, ghost step: seq<Action>)
    requires net.Valid() && Copy(self, mf) in net.st.inHand && mf.fileId in net.st.files
    requires net.st.files[mf.fileId].mf == mf
    modifies net`st, net`past, net`trace, net`own, net`places
    ensures net.Since(old(net.past)) && net.own == old(net.own) + step && !r.Skipped?
    ensures r.Done? ==> OneDelivery(step, Route(self, peer, true), mf.fileId)
    ensures r.Done? ==> Acknowledged(net.st, self, peer, mf.fileId)
    ensures r.Refused? ==> step == [] || (|step| == 1 && Puts(step[0], Route(self, peer, true), mf.fileId, false))
    ensures net.Later(old(net.places), |old(net.past)| - 1)
    ensures net.AlwaysUp(self, peer) ==> !r.Refused?
    ensures r.Done? && self in net.disks ==> !Waits(net.st, Route(self, peer, true), mf.fileId)
  {
    ghost var own, before := net.own, net.past;
    var ok := net.SendManifest(self, peer, mf);
    step := net.own[|own|..];
    if !ok {
      return Refused, step;
    }
    StillAcked(net, before);
    before := net.past;
    net.RemoveSpooledManifest(self, peer, mf);
    step := net.own[|own|..];
    StillAcknowledged(net, before, self, peer, mf.fileId);
    return Done, step;
  }

  lemma ManifestDoneSince(net: Cluster, first: seq<State>, before: seq<State>, self: Peer, peer: Peer, f: FileId)
    requires net.Since(before) && first != [] && first <= before
    requires ManifestDone(net, before[|before| - 1], net.st, self, peer, f)
    ensures ManifestDone(net, first[|first| - 1], net.st, self, peer, f)
  {
    RunGrows(net.lib, net.past, net.trace, |first| - 1, |before| - 1);
    StillAcked(net, before);
    SpooledReceipt(net, first, self, peer, f);
  }

  ghost predicate ManifestsHandled(net: Cluster, first: seq<State>, now: seq<State>, self: Peer, peer: Peer,
                                   files: seq<FileId>, n: nat)
    requires first != [] && now != [] && n <= |files|
  {
    forall i :: 0 <= i < n ==>
      && ManifestDone(net, first[|first| - 1], now[|now| - 1], self, peer, files[i])
      && Cleared(net, first, now, Route(self, peer, true), files[i])
  }

  lemma ManifestsHandledKept(net: Cluster, first: seq<State>, earlier: seq<State>, self: Peer, peer: Peer,
                             files: seq<FileId>, n: nat)
    requires net.Since(earlier) && first != [] && first <= earlier && n <= |files|
    requires ManifestsHandled(net, first, earlier, self, peer, files, n)
    ensures ManifestsHandled(net, first, net.past, self, peer, files, n)
  {
    forall i | 0 <= i < n
      ensures ManifestDone(net, first[|first| - 1], net.st, self, peer, files[i])
      ensures Cleared(net, first, net.past, Route(self, peer, true), files[i])
    {
      StillAcknowledged(net, earlier, self, peer, files[i]);
      ClearedKept(net, first, earlier, first, net.past, Route(self, peer, true), files[i]);
    }
  }

  lemma OneMoreManifest(net: Cluster, first: seq<State>, before: seq<State>, self: Peer, peer: Peer,
                        files: seq<FileId>, n: nat)
    requires net.Since(before) && first != [] && first <= before && n < |files|
    requires ManifestsHandled(net, first, net.past, self, peer, files, n)
    requires ManifestDone(net, before[|before| - 1], net.st, self, peer, files[n])
    requires self in net.disks && Parcel(self, peer, files[n]) in net.readable ==>
               !Waits(net.st, Route(self, peer, true), files[n])
    ensures ManifestsHandled(net, first, net.past, self, peer, files, n + 1)
  {
    ManifestDoneSince(net, first, before, self, peer, files[n]);
    ClearedNow(net, Route(self, peer, true), files[n]);
  }

  /** The manifest half of a pass, like the shard half. */
  method FlushManifests(net: Cluster, self: Peer, peer: Peer, files: seq<FileId>)
    returns (handled: nat, ghost log: seq<Action>)
    requires net.Valid()
    modifies net`st, net`past, net`trace, net`own, net`places
    ensures net.Since(old(net.past)) && net.own == old(net.own) + log
    ensures Half(log, Route(self, peer, true), files, handled)
    ensures ManifestsHandled(net, old(net.past), net.past, self, peer, files, handled)
    ensures net.AlwaysUp(self, peer) ==> handled == |files|
    ensures net.Later(old(net.places), |old(net.past)| - 1)
  {
    ghost var first, own := net.past, net.own;
    handled, log := 0, [];
    while handled < |files|
      invariant handled <= |files| && net.Since(first) && net.own == own + log
      invariant Deliveries(log, Route(self, peer, true), files[..handled])
      invariant net.Later(old(net.places), |first| - 1)
      invariant ManifestsHandled(net, first, net.past, self, peer, files, handled)
    {
      ghost var before, step := net.past, [];
      var r;
      r, step := FlushManifest(net, self, peer, files[handled]);
      ManifestsHandledKept(net, first, before, self, peer, files, handled);
      assert net.own == own + (log + step);
      if r.Refused? {
        assert step != [] ==> (log + step)[..|log|] == log;
        assert step == [] ==> log + step == log;
        return handled, log + step;
      }
      OneMoreManifest(net, first, before, self, peer, files, handled);
      DeliveriesSnoc(log, step, Route(self, peer, true), files[..handled], files[handled]);
      assert files[..handled + 1] == files[..handled] + [files[handled]];
      handled, log := handled + 1, log + step;
    }
  }

  // ----- a pass -----

  /** A pass on record: the run when the spool was listed and between the two halves, what
      was listed, how many entries of each kind were gone through, and what was done. */
  datatype Pass = Pass(
    listed: seq<State>, middle: seq<State>, shards: seq<ShardId>, files: seq<FileId>,
    shardsHandled: nat, filesHandled: nat, shardLog: seq<Action>, manifestLog: seq<Action>)

  /** The listing is exact: every entry of the peer, and no other. */
  ghost predicate Exact(s: State, self: Peer, peer: Peer, shards: seq<ShardId>, files: seq<FileId>) {
    && (forall id :: id in shards <==> Parcel(self, peer, id) in s.shardSpool)
    && (forall f :: f in files <==> Parcel(self, peer, f) in s.manifestSpool)
  }

  /** Nothing was queued for the peer from action number `from` on. */
  ghost predicate NothingQueued(run: seq<Action>, from: int, self: Peer, peer: Peer) {
    forall i :: 0 <= i < |run| && from <= i ==>
      && !(run[i].Enqueue? && run[i].client == self && run[i].holder == peer)
      && !(run[i].EnqueueManifest? && run[i].peer == self && run[i].target == peer)
  }

  ghost predicate Emptied(s: State, self: Peer, peer: Peer) {
    (forall id :: Parcel(self, peer, id) !in s.shardSpool) && (forall f :: Parcel(self, peer, f) !in s.manifestSpool)
  }

  lemma EntryIsGone(net: Cluster, listed: seq<State>, r: Route, key: string)
    requires net.Since(listed) && listed != [] && NothingQueued(net.trace, |listed| - 1, r.self, r.peer)
    requires Waits(listed[|listed| - 1], r, key) ==> WasGone(listed, net.past, r, key)
    ensures !Waits(net.st, r, key)
  {
    var n := |listed| - 1;
    if Waits(listed[n], r, key) {
      n :| 0 <= n < |net.past| && |listed| - 1 <= n && !Waits(net.past[n], r, key);
    }
    StaysGone(net.lib, net.past, net.trace, n, |net.past| - 1, r, key);
  }

  /** The disk works, all entries listed can be read, and nothing was queued since the listing. */
  ghost predicate CanEmpty(net: Cluster, run: seq<Action>, pass: Pass, self: Peer, peer: Peer) {
    && self in net.disks && NothingQueued(run, |pass.listed| - 1, self, peer)
    && forall key :: key in pass.shards + pass.files ==> Parcel(self, peer, key) in net.readable
  }

  /** Then a pass through all entries empties the spool of the peer. */
  lemma PassEmpties(net: Cluster, pass: Pass, self: Peer, peer: Peer)
    requires net.Since(pass.listed) && pass.listed != [] && CanEmpty(net, net.trace, pass, self, peer)
    requires Exact(pass.listed[|pass.listed| - 1], self, peer, pass.shards, pass.files)
    requires ShardsHandled(net, pass.listed, net.past, self, peer, pass.shards, |pass.shards|)
    requires ManifestsHandled(net, pass.listed, net.past, self, peer, pass.files, |pass.files|)
    ensures Emptied(net.st, self, peer)
  {
    var listed, shards, files := pass.listed, pass.shards, pass.files;
    forall id
      ensures !Waits(net.st, Route(self, peer, false), id)
    {
      if id in shards {
        var i :| 0 <= i < |shards| && shards[i] == id;
        assert Cleared(net, listed, net.past, Route(self, peer, false), shards[i]);
      }
      EntryIsGone(net, listed, Route(self, peer, false), id);
    }
    forall f
      ensures !Waits(net.st, Route(self, peer, true), f)
    {
      if f in files {
        var i :| 0 <= i < |files| && files[i] == f;
        assert Cleared(net, listed, net.past, Route(self, peer, true), files[i]);
      }
      EntryIsGone(net, listed, Route(self, peer, true), f);
    }
    assert forall id :: Waits(net.st, Route(self, peer, false), id) <==> Parcel(self, peer, id) in net.st.shardSpool;
    assert forall f :: Waits(net.st, Route(self, peer, true), f) <==> Parcel(self, peer, f) in net.st.manifestSpool;
  }

  /** The pass's own actions from number `from` on: those on shards were taken before `middle`,
      those on manifests from then on. */
  ghost predicate InOrder(net: Cluster, pass: Pass, from: nat)
    requires net.Valid() && |net.own| == from + |pass.shardLog| + |pass.manifestLog|
    reads net
  {
    && (forall i :: from <= i < from + |pass.shardLog| ==> net.places[i] < |pass.middle| - 1)
    && (forall i :: from + |pass.shardLog| <= i < |net.own| ==> |pass.middle| - 1 <= net.places[i])
  }

  /** In the state in which the pass sends a manifest, the peer has the file's shards, if those
      that were spooled can be read. */
  ghost predicate ShardsFirst(net: Cluster, pass: Pass, self: Peer, peer: Peer, from: nat)
    requires net.Valid() && pass.listed != []
    reads net
  {
    forall i :: (from <= i < |net.own| && net.own[i].SendManifest? &&
                 ShardsReadable(net, pass.listed[|pass.listed| - 1], self, peer, net.own[i].mf.fileId)) ==>
      ShardsArrived(net.past[net.places[i]], peer, net.own[i].mf.fileId)
  }

  lemma ArrivedLater(net: Cluster, earlier: seq<State>, n: nat, peer: Peer, f: FileId)
    requires net.Since(earlier) && earlier != [] && |earlier| - 1 <= n < |net.past|
    requires ShardsArrived(earlier[|earlier| - 1], peer, f)
    ensures ShardsArrived(net.past[n], peer, f)
  {
    RunGrows(net.lib, net.past, net.trace, |earlier| - 1, n);
    assert earlier[|earlier| - 1] == net.past[|earlier| - 1];
  }

  /** A half over manifests sends only those it goes through. */
  lemma SentWasListed(log: seq<Action>, r: Route, keys: seq<string>, handled: nat, i: nat)
    requires Half(log, r, keys, handled) && i < |log| && log[i].SendManifest? && r.manifests
    ensures log[i].mf.fileId in keys
  {
    if Deliveries(log, r, keys[..handled]) {
      RemovedWasDelivered(log, r, keys[..handled], i);
    } else if i < |log| - 1 {
      RemovedWasDelivered(log[..|log| - 1], r, keys[..handled], i);
    }
  }

  lemma SentAfterShards(net: Cluster, pass: Pass, self: Peer, peer: Peer, from: nat, handled: nat)
    requires net.Since(pass.middle) && pass.middle != [] && pass.listed != []
    requires |net.own| == from + |pass.manifestLog| && net.own[from..] == pass.manifestLog
    requires Half(pass.manifestLog, Route(self, peer, true), pass.files, handled)
    requires forall i :: from <= i < |net.own| ==> |pass.middle| - 1 <= net.places[i]
    requires forall f :: f in pass.files && ShardsReadable(net, pass.listed[|pass.listed| - 1], self, peer, f) ==>
               ShardsArrived(pass.middle[|pass.middle| - 1], peer, f)
    ensures ShardsFirst(net, pass, self, peer, from)
  {
    forall i | (from <= i < |net.own| && net.own[i].SendManifest? &&
                ShardsReadable(net, pass.listed[|pass.listed| - 1], self, peer, net.own[i].mf.fileId))
      ensures ShardsArrived(net.past[net.places[i]], peer, net.own[i].mf.fileId)
    {
      assert net.own[i] == pass.manifestLog[i - from];
      SentWasListed(pass.manifestLog, Route(self, peer, true), pass.files, handled, i - from);
      ArrivedLater(net, pass.middle, net.places[i], peer, net.own[i].mf.fileId);
    }
  }

  /** The first half of a pass: list the spool, deliver the shards. */
  method FlushListed(net: Cluster, self: Peer, peer: Peer) returns (done: bool, files: seq<FileId>, ghost pass: Pass)
    requires net.Valid()
    modifies net`st, net`past, net`trace, net`own, net`places
    ensures net.Since(pass.listed) && old(net.past) <= pass.listed && pass.listed != [] && pass.middle == net.past
    ensures Exact(pass.listed[|pass.listed| - 1], self, peer, pass.shards, files) && pass.files == files
    ensures net.own == old(net.own) + pass.shardLog && pass.manifestLog == [] && pass.filesHandled == 0
    ensures Half(pass.shardLog, Route(self, peer, false), pass.shards, pass.shardsHandled)
    ensures ShardsHandled(net, pass.listed, net.past, self, peer, pass.shards, pass.shardsHandled)
    ensures done <==> pass.shardsHandled == |pass.shards|
    ensures done ==> forall f :: f in files && ShardsReadable(net, pass.listed[|pass.listed| - 1], self, peer, f) ==>
                       ShardsArrived(net.st, peer, f)
    ensures net.AlwaysUp(self, peer) ==> done
  {
    var shards;
    shards, files := net.ListSpool(self, peer);
    ghost var listed, log := net.past, [];
    var handled;
    handled, log := FlushShards(net, self, peer, shards);
    done := handled == |shards|;
    pass := Pass(listed, net.past, shards, files, handled, 0, log, []);
    if done {
      AllShardsArrive(net, listed, self, peer, shards, files);
    }
  }

  lemma AllShardsArrive(net: Cluster, listed: seq<State>, self: Peer, peer: Peer, shards: seq<ShardId>,
                        files: seq<FileId>)
    requires net.Since(listed) && listed != [] && Exact(listed[|listed| - 1], self, peer, shards, files)
    requires ShardsHandled(net, listed, net.past, self, peer, shards, |shards|)
    ensures forall f :: f in files && ShardsReadable(net, listed[|listed| - 1], self, peer, f) ==>
              ShardsArrived(net.st, peer, f)
  {
    var s := listed[|listed| - 1];
    forall f | f in files && ShardsReadable(net, s, self, peer, f)
      ensures ShardsArrived(net.st, peer, f)
    {
      forall id
        ensures ShardDone(net, s, net.st, self, peer, id)
      {
        if id in shards {
          var i :| 0 <= i < |shards| && shards[i] == id;
        }
      }
      SpooledShardsArrive(net, listed, self, peer, f);
    }
  }

  /** `flushPeer`. The pass lists the spool as it is at some moment of the call. What it
      does is one half over the shards and then, if that ended, one over the manifests.
      Every entry gone through that can be read is delivered and, with a working disk, leaves
      the spool; all are gone through while the peer stays up; so a finished pass empties the
      spool unless something is queued meanwhile. In the state in which it sends a manifest the peer has the
      shards of that file, provided those that were spooled can be read. */
  method FlushPeer(net: Cluster, self: Peer, peer: Peer) returns (finished: bool, ghost pass: Pass)
    requires net.Valid()
    modifies net`st, net`past, net`trace, net`own, net`places
    ensures net.Since(pass.middle) && old(net.past) <= pass.listed <= pass.middle && pass.listed != []
    ensures net.lib.decodes(peer) ==> Exact(pass.listed[|pass.listed| - 1], self, peer, pass.shards, pass.files)
    ensures net.own == old(net.own) + pass.shardLog + pass.manifestLog
    ensures Half(pass.shardLog, Route(self, peer, false), pass.shards, pass.shardsHandled)
    ensures Half(pass.manifestLog, Route(self, peer, true), pass.files, pass.filesHandled)
    ensures pass.shardsHandled < |pass.shards| ==> pass.manifestLog == [] && pass.filesHandled == 0
    ensures ShardsHandled(net, pass.listed, net.past, self, peer, pass.shards, pass.shardsHandled)
    ensures ManifestsHandled(net, pass.listed, net.past, self, peer, pass.files, pass.filesHandled)
    ensures InOrder(net, pass, |old(net.own)|)
    ensures ShardsFirst(net, pass, self, peer, |old(net.own)| + |pass.shardLog|)
    ensures finished <==>
              net.lib.decodes(peer) && pass.shardsHandled == |pass.shards| && pass.filesHandled == |pass.files|
    ensures self != peer && net.AlwaysUp(self, peer) ==> finished
    ensures finished && CanEmpty(net, net.trace, pass, self, peer) ==> Emptied(net.st, self, peer)
  {
    if !net.lib.decodes(peer) {
      return false, Pass(net.past, net.past, [], [], 0, 0, [], []);
    }
    var done, files;
    done, files, pass := FlushListed(net, self, peer);
    if !done {
      assert net.own == old(net.own) + pass.shardLog + [];
      return false, pass;
    }
    finished, pass := FlushRest(net, self, peer, files, pass);
  }

  /** The second half of a pass, after all shards: deliver the manifests. */
  method FlushRest(net: Cluster, self: Peer, peer: Peer, files: seq<FileId>, ghost begun: Pass)
    returns (finished: bool, ghost pass: Pass)
    requires net.Valid() && begun.listed != [] && begun.listed <= begun.middle == net.past && begun.files == files
    requires Exact(begun.listed[|begun.listed| - 1], self, peer, begun.shards, files)
    requires begun.shardsHandled == |begun.shards|
    requires ShardsHandled(net, begun.listed, net.past, self, peer, begun.shards, begun.shardsHandled)
    requires forall f :: f in files && ShardsReadable(net, begun.listed[|begun.listed| - 1], self, peer, f) ==>
               ShardsArrived(net.st, peer, f)
    modifies net`st, net`past, net`trace, net`own, net`places
    ensures net.Since(pass.middle) && net.own == old(net.own) + pass.manifestLog
    ensures pass == begun.(filesHandled := pass.filesHandled, manifestLog := pass.manifestLog)
    ensures Half(pass.manifestLog, Route(self, peer, true), files, pass.filesHandled)
    ensures ShardsHandled(net, pass.listed, net.past, self, peer, pass.shards, pass.shardsHandled)
    ensures ManifestsHandled(net, pass.listed, net.past, self, peer, files, pass.filesHandled)
    ensures net.Later(old(net.places), |pass.middle| - 1)
    ensures ShardsFirst(net, pass, self, peer, |old(net.own)|)
    ensures finished <==> pass.filesHandled == |files|
    ensures net.AlwaysUp(self, peer) ==> finished
    ensures finished && CanEmpty(net, net.trace, pass, self, peer) ==> Emptied(net.st, self, peer)
  {
    ghost var log, n := [], |net.own|;
    var handled;
    handled, log := FlushManifests(net, self, peer, files);
    pass := begun.(filesHandled := handled, manifestLog := log);
    SecondHalf(net, pass, self, peer, handled);
    SentAfterShards(net, pass, self, peer, n, handled);
    finished := handled == |files|;
    if finished && CanEmpty(net, net.trace, pass, self, peer) {
      PassEmpties(net, pass, self, peer);
    }
  }

  lemma SecondHalf(net: Cluster, pass: Pass, self: Peer, peer: Peer, handled: nat)
    requires net.Since(pass.middle) && pass.listed != [] && pass.listed <= pass.middle
    requires pass.shardsHandled <= |pass.shards| && handled <= |pass.files|
    requires ShardsHandled(net, pass.listed, pass.middle, self, peer, pass.shards, pass.shardsHandled)
    requires ManifestsHandled(net, pass.middle, net.past, self, peer, pass.files, handled)
    ensures ShardsHandled(net, pass.listed, net.past, self, peer, pass.shards, pass.shardsHandled)
    ensures ManifestsHandled(net, pass.listed, net.past, self, peer, pass.files, handled)
  {
    ShardsHandledKept(net, pass.listed, pass.middle, self, peer, pass.shards, pass.shardsHandled);
    forall i | 0 <= i < handled
      ensures ManifestDone(net, pass.listed[|pass.listed| - 1], net.st, self, peer, pass.files[i])
      ensures Cleared(net, pass.listed, net.past, Route(self, peer, true), pass.files[i])
    {
      ManifestDoneSince(net, pass.listed, pass.middle, self, peer, pass.files[i]);
      ClearedKept(net, pass.middle, net.past, pass.listed, net.past, Route(self, peer, true), pass.files[i]);
    }
  }
}
