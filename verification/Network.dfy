/** The running cluster seen from inside one node's code. Between any two actions of
    that code every other goroutine and node may take any number of steps: that is
    `Interfere`, whose contract promises nothing but that the state is still one the
    step machine reaches. Remote calls may fail, and may take effect and lose the
    acknowledgement (internal/node/blocks.go). */
module Network {
  import opened Base
  import opened Primitives
  import opened Manifests
  import opened ClusterModel

  /** What loading a manifest yields; `Unreadable` is every error but "not found". */
  datatype Loaded = Found(mf: Manifest) | Missing | Unreadable

  /** `list` is the peer's manifest store in state s: every manifest in it, each once. */
  ghost predicate ListsStore(s: State, peer: Peer, list: seq<Manifest>) {
    && (forall i, j :: 0 <= i < j < |list| ==> list[i].fileId != list[j].fileId)
    && (forall mf :: mf in list ==>
        Holding(peer, mf.fileId) in s.manifests && s.manifests[Holding(peer, mf.fileId)] == mf)
    && (forall f :: Holding(peer, f) in s.manifests ==> s.manifests[Holding(peer, f)] in list)
  }

  lemma ListingIsStore(s: State, peer: Peer, files: seq<FileId>, list: seq<Manifest>)
    requires NoDup(files) && |list| == |files| && (forall f :: f in files <==> Holding(peer, f) in s.manifests)
    requires forall i :: 0 <= i < |files| ==>
               list[i] == s.manifests[Holding(peer, files[i])] && list[i].fileId == files[i]
    ensures ListsStore(s, peer, list)
  {
    forall f | Holding(peer, f) in s.manifests
      ensures s.manifests[Holding(peer, f)] in list
    {
      var i :| 0 <= i < |files| && files[i] == f;
      assert list[i] == s.manifests[Holding(peer, f)];
    }
  }

  /** At some moment since `before` the peer stored this version. */
  ghost predicate WasStored(before: seq<State>, now: seq<State>, peer: Peer, mf: Manifest) {
    exists n :: |before| - 1 <= n < |now| && n >= 0 && Holding(peer, mf.fileId) in now[n].manifests &&
                now[n].manifests[Holding(peer, mf.fileId)] == mf
  }

  /** Since `before` the code only took manifests in hand. */
  ghost predicate OnlyLearned(before: seq<Action>, now: seq<Action>) {
    before <= now && forall i :: |before| <= i < |now| ==> now[i].Learn?
  }

  class Cluster {
    const lib: Library
    /** Any peers, possibly none, that happen to stay online: calls between them go through. */
    const steady: set<Peer>
    /** Any peers, possibly none and online or not, whose own stores and spool work. */
    const disks: set<Peer>
    /** Any spool entries, possibly none, that can be read while they are there. */
    const readable: set<Parcel>
    /** File ids drawn by the code under study; random, so nobody else draws them. */
    ghost const mine: set<FileId>
    /** Those of them that it has committed. */
    ghost var ours: set<FileId>
    var st: State
    /** The run so far: its states, the last of which is `st`, and its actions. */
    ghost var past: seq<State>
    ghost var trace: seq<Action>
    /** The actions taken by the code under study itself, in order. */
    ghost var own: seq<Action>
    /** Where in the run: own[i] was taken in state past[places[i]]. */
    ghost var places: seq<nat>

    ghost predicate Valid()
      reads this
    {
      && IsRun(lib, past, trace) && st == past[|past| - 1] && steady <= st.online
      && Embeds(places, own, trace)
      && forall f :: f in mine && f in st.files ==> f in ours
    }

    /** The run went on from `earlier`. */
    ghost predicate Since(earlier: seq<State>)
      reads this
    {
      Valid() && earlier <= past
    }

    /** Since the places were `was`, the code acted only in states from number `from` on. */
    ghost predicate Later(was: seq<nat>, from: int)
      reads `places
    {
      was <= places && forall i :: |was| <= i < |places| ==> from <= places[i]
    }

    constructor (lib: Library, steady: set<Peer>, disks: set<Peer>, readable: set<Parcel>, mine: set<FileId>,
                 initial: State)
      requires Initial(initial) && steady <= initial.online
      ensures Valid() && st == initial && ours == {} && own == []
      ensures this.lib == lib && this.steady == steady && this.disks == disks && this.readable == readable
      ensures this.mine == mine
    {
      this.lib, this.steady, this.disks, this.readable, this.mine := lib, steady, disks, readable, mine;
      ours, st, past, trace, own, places := {}, initial, [initial], [], [], [];
    }

    /** What was known or placed then is known or placed now. */
    lemma Grown(earlier: seq<State>)
      requires Since(earlier) && earlier != []
      ensures Grows(earlier[|earlier| - 1], st)
    {
      RunGrows(lib, past, trace, |earlier| - 1, |past| - 1);
    }

    /** Every state of the running cluster satisfies the invariant. */
    lemma Sane()
      requires Valid()
      ensures Inv(lib, st)
    {
      RunKeepsInv(lib, past, trace, |past| - 1);
    }

    lemma BlockHash(h: Holding)
      requires Valid() && h in st.blocks
      ensures lib.hash(st.blocks[h]) == h.id && st.blocks[h] in st.seen
    {
      Sane();
    }

    lemma StoredId(h: Holding)
      requires Valid() && h in st.manifests
      ensures st.manifests[h].fileId == h.id
    {
      Sane();
    }

    /** Other steps happen. The body does nothing; callers know only the contract. */
    method Interfere()
      requires Valid()
      modifies `st, `past, `trace
      ensures Since(old(past))
    {
    }

    /** One step of the machine, taken by the code under study. */
    method Act(a: Action)
      requires Valid() && Enabled(lib, st, a) && !a.GoOffline?
      requires a.Commit? && a.o.mf.fileId in mine ==> a.o.mf.fileId in ours
      modifies `st, `past, `trace, `own, `places
      ensures Since(old(past)) && st == Apply(old(st), a) && own == old(own) + [a]
      ensures places == old(places) + [|old(past)| - 1]
    {
      EmbedsSnoc(places, own, trace, a);
      st := Apply(st, a);
      places := places + [|trace|];
      trace, past, own := trace + [a], past + [st], own + [a];
    }

    /** `manifest.Put` at the end of an upload; a failing store is an error. */
    method CommitFile(o: Original) returns (ok: bool)
      requires Valid() && o.mf.fileId in mine && o.mf.fileId !in ours
      requires WellFormed(o.mf) && Describes(lib, o) && Shipped(lib, st, o)
      modifies this
      ensures Since(old(past)) && ours == old(ours) + (if ok then {o.mf.fileId} else {})
      ensures ok ==> o.mf.fileId in st.files && st.files[o.mf.fileId] == o && Copy(o.mf.owner, o.mf) in st.inHand
      ensures ok ==> Holding(o.mf.owner, o.mf.fileId) in st.manifests
      ensures o.mf.owner in disks ==> ok
      ensures own == old(own) + (if ok then [Commit(o)] else [])
    {
      ghost var before := past;
      Interfere();
      Grown(before);
      ShippedKept(lib, before[|before| - 1], st, o);
      var failed: bool := *;
      ok := !failed || o.mf.owner in disks;
      if ok {
        ours := ours + {o.mf.fileId};
        Act(Commit(o));
      }
    }

    /** `spool.EnqueueManifest`. */
    method QueueManifest(peer: Peer, target: Peer, mf: Manifest) returns (ok: bool)
      requires Valid() && mf.owner == peer && peer != target && mf.fileId in st.files && st.files[mf.fileId].mf == mf
      modifies `st, `past, `trace, `own, `places
      ensures Since(old(past))
      ensures ok ==> Parcel(peer, target, mf.fileId) in st.manifestSpool
      ensures ok ==> st.manifestSpool[Parcel(peer, target, mf.fileId)] == mf
      ensures ok <== peer in disks && target != "" && mf.fileId != ""
      ensures own == old(own) + (if ok then [EnqueueManifest(peer, target, mf)] else [])
    {
      ghost var before := past;
      Interfere();
      Grown(before);
      var full: bool := *;
      if target == "" || mf.fileId == "" || (full && peer !in disks) {
        return false;
      }
      Act(EnqueueManifest(peer, target, mf));
      return true;
    }

    predicate Up(client: Peer, holder: Peer)
      reads this
    {
      client == holder || (client in st.online && holder in st.online && lib.decodes(holder))
    }

    predicate AlwaysUp(client: Peer, holder: Peer) {
      if client == holder then client in disks else client in steady && holder in steady && lib.decodes(holder)
    }

    /** A local `blockstore.Put`, or `PutShardOnPeer` served by `serveBlock`: the payload
        is refused unless it hashes to the id. */
    method PutShard(client: Peer, holder: Peer, id: ShardId, data: Bytes) returns (ok: bool)
      requires Valid()
      modifies `st, `past, `trace, `own, `places
      ensures Since(old(past))
      ensures ok ==> Parcel(client, holder, id) in st.acks && data in st.seen
      ensures lib.hash(data) == id && AlwaysUp(client, holder) ==> ok
      ensures lib.hash(data) != id ==> !ok
      ensures own == old(own) || own == old(own) + [PutBlock(client, holder, id, data, ok)]
      ensures ok ==> own != old(own)
    {
      Interfere();
      if lib.hash(data) != id || !Up(client, holder) {
        return false;
      }
      var lostRequest: bool := *;
      var lostReply: bool := *;
      if lostRequest && !AlwaysUp(client, holder) {
        return false;
      }
      ok := !lostReply || AlwaysUp(client, holder);
      Act(PutBlock(client, holder, id, data, ok));
      ghost var before := past;
      Interfere();
      Grown(before);
    }

    /** A local `blockstore.Get`, or `GetShardFromPeer`. */
    method GetShard(client: Peer, holder: Peer, id: ShardId) returns (r: Option<Bytes>)
      requires Valid()
      modifies `st, `past, `trace
      ensures Since(old(past))
      ensures r.Some? ==> lib.hash(r.value) == id && r.value in st.seen && Holding(holder, id) in st.blocks
      ensures Holding(holder, id) in old(st).blocks && AlwaysUp(client, holder) ==> r.Some?
    {
      ghost var before := past;
      Interfere();
      Grown(before);
      var lost: bool := *;
      if Holding(holder, id) !in st.blocks || !Up(client, holder) || (lost && !AlwaysUp(client, holder)) {
        return None;
      }
      BlockHash(Holding(holder, id));
      r := Some(st.blocks[Holding(holder, id)]);
      before := past;
      Interfere();
      Grown(before);
    }

    /** `spool.EnqueueShard`: refuses empty names, and may fail for want of disk. */
    method EnqueueShard(client: Peer, holder: Peer, id: ShardId, data: Bytes) returns (ok: bool)
      requires Valid() && lib.hash(data) == id && client != holder
      modifies `st, `past, `trace, `own, `places
      ensures Since(old(past))
      ensures ok ==> Parcel(client, holder, id) in st.queued && data in st.seen
      ensures ok <== client in disks && holder != "" && id != ""
      ensures own == old(own) + (if ok then [Enqueue(client, holder, id, data)] else [])
    {
      Interfere();
      var full: bool := *;
      if holder == "" || id == "" || (full && client !in disks) {
        return false;
      }
      Act(Enqueue(client, holder, id, data));
      return true;
    }

    /** `manifest.Get` or one entry of `manifest.List` on the local store, or
        `GetManifestFromPeer`. */
    method LoadManifest(peer: Peer, source: Peer, fileId: FileId) returns (r: Loaded)
      requires Valid()
      modifies `st, `past, `trace, `own, `places
      ensures Since(old(past))
      ensures r.Found? ==> Copy(peer, r.mf) in st.inHand && r.mf.fileId == fileId
      ensures r.Found? ==> WasStored(old(past), past, source, r.mf)
      ensures r.Missing? ==> Holding(source, fileId) !in old(st).manifests
      ensures own == old(own) || own == old(own) + [Learn(peer, source, fileId)]
      ensures AlwaysUp(peer, source) ==> !r.Unreadable?
    {
      ghost var before := past;
      Interfere();
      Grown(before);
      var lost: bool := *;
      if !Up(peer, source) || (lost && !AlwaysUp(peer, source)) {
        return Unreadable;
      }
      if Holding(source, fileId) !in st.manifests {
        return Missing;
      }
      StoredId(Holding(source, fileId));
      r := Found(st.manifests[Holding(source, fileId)]);
      assert past[|past| - 1].manifests[Holding(source, fileId)] == r.mf;
      Act(Learn(peer, source, fileId));
    }

    /** `manifest.List`: the local store as it is at some moment of the call, or an error. */
    method ListManifests(peer: Peer) returns (r: Result<seq<Manifest>>, ghost at: seq<State>)
      requires Valid()
      modifies `st, `past, `trace, `own, `places
      ensures Since(at) && old(past) <= at && at != []
      ensures r.Ok? ==> ListsStore(at[|at| - 1], peer, r.value)
      ensures r.Ok? ==> forall mf :: mf in r.value ==> Copy(peer, mf) in st.inHand
      ensures OnlyLearned(old(own), own)
      ensures peer in disks ==> r.Ok?
    {
      Interfere();
      at := past;
      var broken: bool := *;
      if broken && peer !in disks {
        return Err("list manifests"), at;
      }
      var files := Listed(set h | h in st.manifests && h.peer == peer :: h.id);
      assert forall f :: Holding(peer, f).id == f && Holding(peer, f).peer == peer;
      ghost var s := st;
      var list := LearnAll(peer, files);
      ListingIsStore(s, peer, files, list);
      return Ok(list), at;
    }

    /** Take the manifests of `files` in hand. */
    method LearnAll(peer: Peer, files: seq<FileId>) returns (list: seq<Manifest>)
      requires Valid() && NoDup(files) && forall f :: f in files ==> Holding(peer, f) in st.manifests
      modifies `st, `past, `trace, `own, `places
      ensures Since(old(past)) && OnlyLearned(old(own), own)
      ensures |list| == |files|
      ensures forall i :: 0 <= i < |files| ==>
                list[i] == old(st).manifests[Holding(peer, files[i])] && list[i].fileId == files[i] &&
                    Copy(peer, list[i]) in st.inHand
    {
      list := [];
      for i := 0 to |files|
        invariant Since(old(past)) && OnlyLearned(old(own), own) && st.manifests == old(st).manifests
        invariant |list| == i
        invariant forall j :: 0 <= j < i ==>
                    list[j] == old(st).manifests[Holding(peer, files[j])] && list[j].fileId == files[j] &&
                        Copy(peer, list[j]) in st.inHand
      {
        StoredId(Holding(peer, files[i]));
        list := list + [st.manifests[Holding(peer, files[i])]];
        Act(Learn(peer, peer, files[i]));
      }
    }

    /** `manifest.Put` on the local store, or `PutManifestOnPeer`. */
    method SendManifest(peer: Peer, target: Peer, mf: Manifest) returns (ok: bool)
      requires Valid() && Copy(peer, mf) in st.inHand
      modifies `st, `past, `trace, `own, `places
      ensures Since(old(past))
      ensures ok ==> Receipt(peer, target, mf) in st.manifestAcks
      ensures own == old(own) || own == old(own) + [Action.SendManifest(peer, target, mf, ok)]
      ensures peer == target && !ok ==> own == old(own)
      ensures ok ==> own != old(own)
      ensures Later(old(places), |old(past)| - 1)
      ensures AlwaysUp(peer, target) ==> ok
    {
      ghost var before := past;
      Interfere();
      Grown(before);
      var lostRequest: bool := *;
      var lostReply: bool := *;
      if !Up(peer, target) || (lostRequest && !AlwaysUp(peer, target)) {
        return false;
      }
      ok := !lostReply || peer == target || AlwaysUp(peer, target);
      Act(Action.SendManifest(peer, target, mf, ok));
      before := past;
      Interfere();
      Grown(before);
    }

    /** `m.Holders[slot] = spare` on the manifest in hand. */
    method ReplaceHolder(peer: Peer, mf: Manifest, slot: nat, spare: Peer) returns (mf': Manifest)
      requires Valid() && Enabled(lib, st, Migrate(peer, mf, slot, spare))
      modifies `st, `past, `trace, `own, `places
      ensures Since(old(past)) && mf' == mf.(holders := mf.holders[slot := spare])
      ensures Copy(peer, mf') in st.inHand && own == old(own) + [Migrate(peer, mf, slot, spare)]
    {
      Act(Migrate(peer, mf, slot, spare));
      mf' := mf.(holders := mf.holders[slot := spare]);
    }

    // ----- the node's own spool -----

    /** The keys of the shards, or of the manifests, spooled for `holder`, in any order. */
    method ListSpool(client: Peer, holder: Peer) returns (shards: seq<ShardId>, files: seq<FileId>)
      requires Valid()
      modifies `st, `past, `trace
      ensures Since(old(past))
      ensures forall id :: id in shards <==> Parcel(client, holder, id) in st.shardSpool
      ensures forall f :: f in files <==> Parcel(client, holder, f) in st.manifestSpool
    {
      Interfere();
      shards := Listed(set q | q in st.shardSpool && q.client == client && q.holder == holder :: q.id);
      files := Listed(set q | q in st.manifestSpool && q.client == client && q.holder == holder :: q.id);
      assert forall id :: Parcel(client, holder, id).id == id;
    }

    /** `spool.Read` of a shard entry; a read may fail, and then the entry is skipped. */
    method ReadSpooledShard(client: Peer, holder: Peer, id: ShardId) returns (r: Option<Bytes>)
      requires Valid()
      modifies `st, `past, `trace
      ensures Since(old(past))
      ensures r.Some? ==> lib.hash(r.value) == id
      ensures Parcel(client, holder, id) in old(st).shardSpool && Parcel(client, holder, id) in readable ==>
                r.Some? || Parcel(client, holder, id) in st.acks
      ensures r.None? && Parcel(client, holder, id) in readable ==> Parcel(client, holder, id) !in st.shardSpool
    {
      ghost var before := past;
      Interfere();
      Grown(before);
      var broken: bool := *;
      if (broken && Parcel(client, holder, id) !in readable) || Parcel(client, holder, id) !in st.shardSpool {
        return None;
      }
      SpooledHash(Parcel(client, holder, id));
      return Some(st.shardSpool[Parcel(client, holder, id)]);
    }

    lemma SpooledHash(q: Parcel)
      requires Valid() && q in st.shardSpool
      ensures lib.hash(st.shardSpool[q]) == q.id
    {
      Sane();
    }

    /** `spool.Read` of a manifest entry: what the owner committed. */
    method ReadSpooledManifest(client: Peer, holder: Peer, fileId: FileId) returns (r: Option<Manifest>)
      requires Valid()
      modifies `st, `past, `trace
      ensures Since(old(past))
      ensures r.Some? ==> r.value.fileId == fileId && r.value.owner == client && Copy(client, r.value) in st.inHand
      ensures r.Some? ==> fileId in st.files && st.files[fileId].mf == r.value
      ensures var q := Parcel(client, holder, fileId);
              q in old(st).manifestSpool && q in readable ==>
                r.Some? || Receipt(client, holder, old(st).manifestSpool[q]) in st.manifestAcks
      ensures var q := Parcel(client, holder, fileId); r.None? && q in readable ==> q !in st.manifestSpool
    {
      ghost var before := past;
      Interfere();
      Grown(before);
      var broken: bool := *;
      if (broken && Parcel(client, holder, fileId) !in readable) ||
          Parcel(client, holder, fileId) !in st.manifestSpool {
        return None;
      }
      SpooledManifest(Parcel(client, holder, fileId));
      return Some(st.manifestSpool[Parcel(client, holder, fileId)]);
    }

    lemma SpooledManifest(q: Parcel)
      requires Valid() && q in st.manifestSpool
      ensures var mf := st.manifestSpool[q];
              && mf.fileId == q.id && mf.owner == q.client && Copy(q.client, mf) in st.inHand
              && q.id in st.files && st.files[q.id].mf == mf
    {
      Sane();
    }

    /** `spool.Remove` of a shard entry after its send; the removal fails only if the disk does. */
    method RemoveSpooledShard(client: Peer, holder: Peer, id: ShardId)
      requires Valid() && Parcel(client, holder, id) in st.acks
      modifies `st, `past, `trace, `own, `places
      ensures Since(old(past))
      ensures own == old(own) || own == old(own) + [Dequeue(client, holder, id)]
      ensures client in disks ==> own != old(own) && Parcel(client, holder, id) !in st.shardSpool
    {
      ghost var before := past;
      Interfere();
      Grown(before);
      var failed: bool := *;
      if !failed || client in disks {
        Act(Dequeue(client, holder, id));
      }
    }

    /** `spool.Remove` of a manifest entry after its send. */
    method RemoveSpooledManifest(client: Peer, holder: Peer, mf: Manifest)
      requires Valid() && Receipt(client, holder, mf) in st.manifestAcks
      requires mf.fileId in st.files && st.files[mf.fileId].mf == mf
      modifies `st, `past, `trace, `own, `places
      ensures Since(old(past))
      ensures own == old(own) || own == old(own) + [DequeueManifest(client, holder, mf.fileId)]
      ensures client in disks ==> own != old(own) && Parcel(client, holder, mf.fileId) !in st.manifestSpool
      ensures Later(old(places), |old(past)| - 1)
    {
      ghost var before := past;
      Interfere();
      Grown(before);
      var failed: bool := *;
      if !failed || client in disks {
        if Parcel(client, holder, mf.fileId) in st.manifestSpool {
          SpooledManifest(Parcel(client, holder, mf.fileId));
        }
        Act(DequeueManifest(client, holder, mf.fileId));
      }
    }
  }

  /** The members of a set in some order, each once. */
  method Listed(s: set<string>) returns (q: seq<string>)
    ensures NoDup(q) && forall x :: x in q <==> x in s
  {
    q := [];
    var rest := s;
    while rest != {}
      invariant rest <= s && NoDup(q) && forall x :: x in q <==> x in s - rest
      decreases rest
    {
      var x :| x in rest;
      assert x !in q;
      q, rest := q + [x], rest - {x};
    }
  }
}
