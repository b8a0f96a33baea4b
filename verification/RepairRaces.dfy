/** Repairs of one file do not know of each other: scans run as separate goroutines and on
    several nodes (cmd/fnshare/main.go, internal/repair/repair.go), and a manifest that is
    sent replaces whatever version the target stores. What that does to earlier moves. */
module RepairRaces {
  import opened Base
  import opened Primitives
  import opened Erasure
  import opened Manifests
  import opened ClusterModel
  import opened Durability
  import Repair

  // ----- the version a peer stores -----

  /** The version that a step makes the peer store under a file id. */
  ghost function Wrote(lib: Library, s: State, a: Action, h: Holding): Option<Manifest> {
    if !Enabled(lib, s, a) then None
    else if a.Commit? && Holding(a.o.mf.owner, a.o.mf.fileId) == h then Some(a.o.mf)
    else if a.SendManifest? && Holding(a.target, a.mf.fileId) == h then Some(a.mf)
    else None
  }

  /** The last version written there between the states m and n of a run. */
  ghost function LastWrite(lib: Library, states: seq<State>, run: seq<Action>, m: nat, n: nat, h: Holding)
    : Option<Manifest>
    requires m <= n <= |run| < |states|
  {
    if m == n then None
    else
      var w := Wrote(lib, states[n - 1], run[n - 1], h);
      if w.Some? then w else LastWrite(lib, states, run, m, n - 1, h)
  }

  lemma StepOnStore(lib: Library, s: State, a: Action, h: Holding)
    ensures var t := Step(lib, s, a);
            match Wrote(lib, s, a, h)
            case Some(mf) => h in t.manifests && t.manifests[h] == mf
            case None =>
              && (h in t.manifests <==> h in s.manifests)
              && (h in t.manifests ==> t.manifests[h] == s.manifests[h])
  {
  }

  /** Over all runs: a peer stores the last version written there, else what it had. */
  lemma {:induction false} StoredIsLastWrite(lib: Library, states: seq<State>, run: seq<Action>, m: nat, n: nat,
                                             h: Holding)
    requires IsRun(lib, states, run) && m <= n <= |run| && h in states[m].manifests
    ensures h in states[n].manifests
    ensures states[n].manifests[h] ==
            match LastWrite(lib, states, run, m, n, h) case Some(mf) => mf case None => states[m].manifests[h]
  {
    if m < n {
      StoredIsLastWrite(lib, states, run, m, n - 1, h);
      StepOnStore(lib, states[n - 1], run[n - 1], h);
    }
  }

  // ----- when a move persists -----

  predicate HasIn(mf: Manifest, slot: int, p: Peer) {
    0 <= slot < |mf.holders| && mf.holders[slot] == p
  }

  /** Over all runs: a slot that a peer's version has moved to p is still moved there later if
      and only if nothing was written there since, or the last version written has it. */
  lemma MovePersistsExactly(lib: Library, states: seq<State>, run: seq<Action>, m: nat, n: nat, h: Holding, slot: nat,
                            p: Peer)
    requires IsRun(lib, states, run) && m <= n <= |run|
    requires h in states[m].manifests && HasIn(states[m].manifests[h], slot, p)
    ensures h in states[n].manifests
    ensures HasIn(states[n].manifests[h], slot, p) <==>
              match LastWrite(lib, states, run, m, n, h) case Some(mf) => HasIn(mf, slot, p) case None => true
  {
    StoredIsLastWrite(lib, states, run, m, n, h);
  }

  /** A repair that started from version `inHand` and overwrites version `stored` does to it
      what it means to do, namely move its one slot, if and only if the two agree in all
      other slots. So it does if the target stores the version in hand. */
  lemma OverwritesExactly(stored: Manifest, inHand: Manifest, slot: nat, spare: Peer)
    requires SameFile(stored, inHand) && |stored.holders| == |inHand.holders| && slot < |inHand.holders|
    ensures Repair.Moved(inHand, slot, spare) == Repair.Moved(stored, slot, spare) <==>
              forall j :: 0 <= j < |stored.holders| && j != slot ==> stored.holders[j] == inHand.holders[j]
  {
    var a, b := inHand.holders[slot := spare], stored.holders[slot := spare];
    if Repair.Moved(inHand, slot, spare) == Repair.Moved(stored, slot, spare) {
      forall j | 0 <= j < |stored.holders| && j != slot
        ensures stored.holders[j] == inHand.holders[j]
      {
        assert a[j] == b[j];
      }
    } else {
      assert a != b;
    }
  }

  /** Then the slots of every stripe that can be reached become no fewer than under the version
      overwritten, and one more if the slot's old holder could not be reached. */
  lemma OverwriteNeverLowersReach(s: State, stored: Manifest, inHand: Manifest, slot: nat, spare: Peer, i: nat)
    requires SameFile(stored, inHand) && |stored.holders| == |inHand.holders| && slot < |inHand.holders|
    requires forall j :: 0 <= j < |stored.holders| && j != slot ==> stored.holders[j] == inHand.holders[j]
    requires i < |inHand.stripes| && |inHand.holders| == |inHand.stripes[i].shardIds|
    requires spare in s.online && Repair.HoldsSlot(s, spare, inHand, slot)
    ensures Repair.ReachedCount(s, Repair.Moved(inHand, slot, spare), i, |inHand.holders|) ==
            Repair.ReachedCount(s, stored, i, |stored.holders|) + (if Repair.Reached(s, stored, i, slot) then 0 else 1)
  {
    OverwritesExactly(stored, inHand, slot, spare);
    Repair.MoveNeverLowersReach(s, stored, slot, spare, i, |stored.holders|);
  }

  // ----- a move that is lost -----

  /** u is t after more was put and learned: the same files, stores and peers. */
  ghost predicate Onward(t: State, u: State) {
    && u.files == t.files && u.manifests == t.manifests && u.manifestSpool == t.manifestSpool && u.online == t.online
    && t.acks <= u.acks && t.inHand <= u.inHand && t.manifestAcks <= u.manifestAcks && t.blocks.Keys <= u.blocks.Keys
  }

  /** Shards can be put on a peer that is online. */
  lemma {:induction false} PutShards(lib: Library, t: State, client: Peer, spare: Peer, shards: seq<Bytes>)
    returns (u: State)
    requires Reachable(lib, t) && {client, spare} <= t.online
    ensures Reachable(lib, u) && Onward(t, u)
    ensures forall i :: 0 <= i < |shards| ==>
              Parcel(client, spare, lib.hash(shards[i])) in u.acks && Holding(spare, lib.hash(shards[i])) in u.blocks
  {
    if shards == [] {
      return t;
    }
    var n := |shards| - 1;
    var before := PutShards(lib, t, client, spare, shards[..n]);
    u := PutOne(lib, before, client, spare, shards[n]);
    assert forall i :: 0 <= i < n ==> shards[i] == shards[..n][i];
  }

  /** The original shards of one slot, stripe by stripe. */
  lemma {:induction false} SlotShards(lib: Library, o: Original, slot: nat, n: nat) returns (shards: seq<Bytes>)
    requires RsSound(lib) && WellFormed(o.mf) && Describes(lib, o) && n <= |o.cts| && slot < |o.mf.holders|
    ensures |shards| == n && forall i :: 0 <= i < n ==> lib.hash(shards[i]) == o.mf.stripes[i].shardIds[slot]
  {
    if n == 0 {
      return [];
    }
    shards := SlotShards(lib, o, slot, n - 1);
    var shard := SlotShard(lib, o, n - 1, slot);
    shards := shards + [shard];
  }

  lemma SlotShard(lib: Library, o: Original, i: nat, slot: nat) returns (shard: Bytes)
    requires RsSound(lib) && WellFormed(o.mf) && Describes(lib, o) && i < |o.cts| && slot < |o.mf.holders|
    ensures lib.hash(shard) == o.mf.stripes[i].shardIds[slot]
  {
    var p := Params(o.mf.k, o.mf.m);
    assert StripeOf(lib, p, o.key, Chunk(o.plain, o.mf.stripeSize, i), o.cts[i], o.mf.stripes[i], i);
    EncodeShape(lib, p, o.cts[i]);
    shard := Encode(lib, p, o.cts[i]).value[slot];
  }

  lemma PutOne(lib: Library, t: State, client: Peer, spare: Peer, shard: Bytes) returns (u: State)
    requires Reachable(lib, t) && {client, spare} <= t.online
    ensures Reachable(lib, u) && Onward(t, u)
    ensures Parcel(client, spare, lib.hash(shard)) in u.acks && Holding(spare, lib.hash(shard)) in u.blocks
  {
    var a := PutBlock(client, spare, lib.hash(shard), shard, true);
    ReachableStep(lib, t, a);
    u := Step(lib, t, a);
  }

  /** A node moves a slot of the committed version, up to the point where it has the new version
      in hand; the spare holds the slot of every stripe. */
  lemma Prepare(lib: Library, t: State, o: Original, node: Peer, slot: nat, spare: Peer) returns (u: State)
    requires Reachable(lib, t) && RsSound(lib) && WellFormed(o.mf) && Describes(lib, o)
    requires Holding(o.mf.owner, o.mf.fileId) in t.manifests && t.manifests[Holding(o.mf.owner, o.mf.fileId)] == o.mf
    requires {o.mf.owner, node, spare} <= t.online && slot < |o.mf.holders| && spare !in o.mf.holders
    ensures Reachable(lib, u) && Onward(t, u)
    ensures Copy(node, Repair.Moved(o.mf, slot, spare)) in u.inHand && Repair.HoldsSlot(u, spare, o.mf, slot)
  {
    var shards := SlotShards(lib, o, slot, |o.cts|);
    var stocked := PutShards(lib, t, node, spare, shards);
    var loaded := Load(lib, stocked, node, o.mf.owner, o.mf);
    u := Move(lib, loaded, node, o.mf, slot, spare);
  }

  lemma Load(lib: Library, t: State, node: Peer, source: Peer, mf: Manifest) returns (u: State)
    requires Reachable(lib, t) && {node, source} <= t.online
    requires Holding(source, mf.fileId) in t.manifests && t.manifests[Holding(source, mf.fileId)] == mf
    ensures Reachable(lib, u) && Onward(t, u) && Copy(node, mf) in u.inHand
  {
    var a := Learn(node, source, mf.fileId);
    ReachableStep(lib, t, a);
    u := Step(lib, t, a);
  }

  lemma Move(lib: Library, t: State, node: Peer, mf: Manifest, slot: nat, spare: Peer) returns (u: State)
    requires Reachable(lib, t) && Copy(node, mf) in t.inHand && slot < |mf.holders| && spare !in mf.holders
    requires forall i :: 0 <= i < |mf.stripes| ==>
               slot < |mf.stripes[i].shardIds| && Parcel(node, spare, mf.stripes[i].shardIds[slot]) in t.acks
    ensures Reachable(lib, u) && Onward(t, u) && Copy(node, Repair.Moved(mf, slot, spare)) in u.inHand
  {
    var a := Migrate(node, mf, slot, spare);
    ReachableStep(lib, t, a);
    u := Step(lib, t, a);
  }

  lemma Send(lib: Library, t: State, node: Peer, target: Peer, mf: Manifest) returns (u: State)
    requires Reachable(lib, t) && Copy(node, mf) in t.inHand && {node, target} <= t.online
    ensures Reachable(lib, u) && u.manifests == t.manifests[Holding(target, mf.fileId) := mf]
    ensures u.blocks == t.blocks && u.inHand == t.inHand && u.online == t.online && u.files == t.files
    ensures u.manifestSpool == t.manifestSpool
    ensures u.manifestAcks == t.manifestAcks + {Receipt(node, target, mf)}
  {
    var a := SendManifest(node, target, mf, true);
    ReachableStep(lib, t, a);
    u := Step(lib, t, a);
  }

  /** Two repairs from one version undo each other: for every file, any two slots, spares,
      repairing nodes (or one) and target there is a run in which both move their slot and
      see the target acknowledge the result, and in the end the target stores the second
      one's version, with the first slot back at its old holder. */
  lemma LostMove(lib: Library, o: Original, a: Peer, b: Peer, target: Peer, i: nat, p: Peer, j: nat, q: Peer)
    returns (s: State)
    requires Sound(lib) && WellFormed(o.mf) && Describes(lib, o)
    requires i < |o.mf.holders| && j < |o.mf.holders| && i != j && p !in o.mf.holders && q !in o.mf.holders
    ensures Reachable(lib, s) && o.mf.fileId in s.files && s.files[o.mf.fileId] == o
    ensures Receipt(a, target, Repair.Moved(o.mf, i, p)) in s.manifestAcks && Repair.HoldsSlot(s, p, o.mf, i)
    ensures Receipt(b, target, Repair.Moved(o.mf, j, q)) in s.manifestAcks && Repair.HoldsSlot(s, q, o.mf, j)
    ensures Holding(target, o.mf.fileId) in s.manifests
    ensures s.manifests[Holding(target, o.mf.fileId)] == Repair.Moved(o.mf, j, q)
    ensures HasIn(Repair.Moved(o.mf, j, q), i, o.mf.holders[i]) && !HasIn(Repair.Moved(o.mf, j, q), i, p)
  {
    var t := CommitWithoutDelivery(lib, o, {o.mf.owner, a, b, target, p, q});
    t := Prepare(lib, t, o, a, i, p);
    var u := Prepare(lib, t, o, b, j, q);
    HoldsSlotKept(t, u, p, o.mf, i);
    u := Send(lib, u, a, target, Repair.Moved(o.mf, i, p));
    s := Send(lib, u, b, target, Repair.Moved(o.mf, j, q));
  }

  lemma HoldsSlotKept(t: State, u: State, p: Peer, mf: Manifest, slot: nat)
    requires Repair.HoldsSlot(t, p, mf, slot) && t.blocks.Keys <= u.blocks.Keys
    ensures Repair.HoldsSlot(u, p, mf, slot)
  {
  }

  /** So does the committed manifest that the owner has spooled for the target, delivered after
      the repair. */
  lemma SpooledManifestUndoes(lib: Library, o: Original, a: Peer, target: Peer, i: nat, p: Peer) returns (s: State)
    requires Sound(lib) && WellFormed(o.mf) && Describes(lib, o)
    requires i < |o.mf.holders| && p !in o.mf.holders && target != o.mf.owner
    ensures Reachable(lib, s) && o.mf.fileId in s.files && s.files[o.mf.fileId] == o
    ensures s.manifestSpool == map[Parcel(o.mf.owner, target, o.mf.fileId) := o.mf]
    ensures Receipt(a, target, Repair.Moved(o.mf, i, p)) in s.manifestAcks && Repair.HoldsSlot(s, p, o.mf, i)
    ensures Holding(target, o.mf.fileId) in s.manifests && s.manifests[Holding(target, o.mf.fileId)] == o.mf
  {
    var t := CommitWithoutDelivery(lib, o, {o.mf.owner, a, target, p});
    OwnerHasInHand(lib, t, o);
    t := Queue(lib, t, o, target);
    t := Prepare(lib, t, o, a, i, p);
    var u := Send(lib, t, a, target, Repair.Moved(o.mf, i, p));
    s := Send(lib, u, o.mf.owner, target, o.mf);
  }

  lemma OwnerHasInHand(lib: Library, t: State, o: Original)
    requires Reachable(lib, t) && o.mf.fileId in t.files && t.files[o.mf.fileId] == o
    ensures Copy(o.mf.owner, o.mf) in t.inHand
  {
    ReachableInv(lib, t);
  }

  lemma Queue(lib: Library, t: State, o: Original, target: Peer) returns (u: State)
    requires Reachable(lib, t) && o.mf.fileId in t.files && t.files[o.mf.fileId] == o && target != o.mf.owner
    ensures Reachable(lib, u) && u.manifestSpool == t.manifestSpool[Parcel(o.mf.owner, target, o.mf.fileId) := o.mf]
    ensures u.files == t.files && u.manifests == t.manifests && u.online == t.online && u.inHand == t.inHand
  {
    var a := EnqueueManifest(o.mf.owner, target, o.mf);
    ReachableStep(lib, t, a);
    u := Step(lib, t, a);
  }
}
