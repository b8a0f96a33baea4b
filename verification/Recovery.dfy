/** From an invariant about where bytes are to bytes in hand: what any k shards fetched
    under a manifest's ids decode to, and the gathering loop shared by the reader and
    the repairer. */
module Recovery {
  import opened Base
  import opened Primitives
  import opened Erasure
  import opened Manifests
  import opened ClusterModel
  import opened Network

  /** What the record of a file says about the stripe that a manifest version lists. */
  ghost predicate StripeTruth(lib: Library, s: State, mf: Manifest, idx: int) {
    && mf.fileId in s.files && 0 <= idx < |mf.stripes|
    && var o := s.files[mf.fileId];
       && mf.stripeSize >= 1 && |o.cts| == |mf.stripes| && |o.plain| == mf.size
       && Covers(|mf.stripes|, mf.stripeSize, mf.size)
       && StripeOf(lib, Params(mf.k, mf.m), o.key, Chunk(o.plain, mf.stripeSize, idx), o.cts[idx], mf.stripes[idx], idx)
       && forall j :: 0 <= j < mf.k + mf.m ==> ShardAt(lib, Params(mf.k, mf.m), o.cts[idx], j) in s.seen
  }

  ghost predicate Version(s: State, mf: Manifest) {
    mf.fileId in s.files && SameFile(mf, s.files[mf.fileId].mf) && WellFormed(mf)
  }

  /** While the invariant holds, each version of a manifest describes its file. */
  lemma VersionTruth(lib: Library, s: State, mf: Manifest, idx: int)
    requires Inv(lib, s) && Version(s, mf) && 0 <= idx < |mf.stripes|
    ensures StripeTruth(lib, s, mf, idx)
  {
    var o := s.files[mf.fileId];
    assert Copy(o.mf.owner, o.mf) in s.inHand;
    assert WellFormed(o.mf);
  }

  lemma InHandVersion(net: Cluster, self: Peer, mf: Manifest)
    requires net.Valid() && Copy(self, mf) in net.st.inHand
    ensures Version(net.st, mf)
  {
    net.Sane();
  }

  /** Every other holder that can be reached throughout has acknowledged the manifest. */
  ghost predicate Replicated(net: Cluster, s: State, self: Peer, mf: Manifest, n: nat)
    requires n <= |mf.holders|
  {
    forall i :: 0 <= i < n && mf.holders[i] != self && net.AlwaysUp(self, mf.holders[i]) ==>
      Receipt(self, mf.holders[i], mf) in s.manifestAcks
  }

  lemma ReplicatedKept(net: Cluster, earlier: seq<State>, self: Peer, mf: Manifest, n: nat)
    requires net.Since(earlier) && earlier != [] && n <= |mf.holders|
    requires Replicated(net, earlier[|earlier| - 1], self, mf, n)
    ensures Replicated(net, net.st, self, mf, n)
  {
    net.Grown(earlier);
  }

  /** Fetched rows: each hashes to its slot's id, and all were stored in this run. */
  ghost predicate Fetched(lib: Library, seen: set<Bytes>, ids: seq<ShardId>, view: seq<Option<Bytes>>) {
    && |view| == |ids|
    && forall i :: 0 <= i < |view| && view[i].Some? ==> lib.hash(view[i].value) == ids[i] && view[i].value in seen
  }

  /** Any k rows fetched by id decode to the original shards and ciphertext, provided
      SHA-256 had no collision among the strings this run stored. */
  lemma FetchedDecodes(lib: Library, s: State, mf: Manifest, idx: int, view: seq<Option<Bytes>>)
    requires RsSound(lib) && StripeTruth(lib, s, mf, idx) && CollisionFree(lib, s.seen)
    requires Fetched(lib, s.seen, mf.stripes[idx].shardIds, view) && CountSome(view) >= mf.k
    ensures var p := Params(mf.k, mf.m);
            var ct := s.files[mf.fileId].cts[idx];
            Decoded(lib, p, view, mf.stripes[idx].ciphertextBytes) == Ok((Encode(lib, p, ct).value, ct))
  {
    var p := Params(mf.k, mf.m);
    var ct := s.files[mf.fileId].cts[idx];
    EncodeShape(lib, p, ct);
    var shards := Encode(lib, p, ct).value;
    forall i | 0 <= i < |view| && view[i].Some?
      ensures view[i].value == shards[i]
    {
      assert ShardAt(lib, p, ct, i) == shards[i];
      assert lib.hash(shards[i]) == mf.stripes[idx].shardIds[i];
    }
    ErasureRoundTrip(lib, p, ct, view);
  }

  /** Whom the gathering loop asks: anybody, or only peers the ledger calls online. The
      ledger may change its mind at any time, except that it calls the `sure` ones online
      and the `down` ones offline throughout. */
  datatype Asks = Anybody | Online(sure: set<Peer>, down: set<Peer>)

  /** The ledger is bound to call p online, or may do so. */
  predicate MustTrust(asks: Asks, p: Peer) {
    asks.Anybody? || p in asks.sure
  }

  predicate MayTrust(asks: Asks, p: Peer) {
    asks.Anybody? || p in asks.sure || p !in asks.down
  }

  /** `ledger.IsOnline`, where it is asked at all. */
  method AskLedger(asks: Asks, p: Peer) returns (online: bool)
    ensures MustTrust(asks, p) ==> online
    ensures online ==> MayTrust(asks, p)
  {
    var says: bool := *;
    return MustTrust(asks, p) || (says && MayTrust(asks, p));
  }

  /** A shard can be had: from the local blockstore, or from a holder that stays up and
      is sure to be asked. */
  predicate Available(net: Cluster, s: State, self: Peer, holder: Peer, id: ShardId, asks: Asks) {
    || (net.AlwaysUp(self, self) && Holding(self, id) in s.blocks)
    || (holder != self && MustTrust(asks, holder) && net.AlwaysUp(self, holder) && Holding(holder, id) in s.blocks)
  }

  /** How many of the first n slots can be had, not counting slot `skip`. */
  function AvailableCount(net: Cluster, s: State, self: Peer, holders: seq<Peer>, ids: seq<ShardId>, skip: int,
                          asks: Asks, n: nat): (c: nat)
    requires n <= |holders| == |ids|
  {
    if n == 0 then 0
    else
      AvailableCount(net, s, self, holders, ids, skip, asks, n - 1)
      + (if n - 1 != skip && Available(net, s, self, holders[n - 1], ids[n - 1], asks) then 1 else 0)
  }

  /** What is stored stays stored. */
  lemma {:induction false} AvailableKept(net: Cluster, s: State, t: State, self: Peer, holders: seq<Peer>,
                                         ids: seq<ShardId>, skip: int, asks: Asks, n: nat)
    requires n <= |holders| == |ids| && s.blocks.Keys <= t.blocks.Keys
    ensures AvailableCount(net, s, self, holders, ids, skip, asks, n) <=
            AvailableCount(net, t, self, holders, ids, skip, asks, n)
  {
    if n > 0 {
      AvailableKept(net, s, t, self, holders, ids, skip, asks, n - 1);
    }
  }

  /** Somebody the loop may turn to has the shard, reachable or not. */
  predicate Held(s: State, self: Peer, holder: Peer, id: ShardId) {
    Holding(self, id) in s.blocks || Holding(holder, id) in s.blocks
  }

  function HeldCount(s: State, self: Peer, holders: seq<Peer>, ids: seq<ShardId>, n: nat): (c: nat)
    requires n <= |holders| == |ids|
  {
    if n == 0 then 0
    else HeldCount(s, self, holders, ids, n - 1) + (if Held(s, self, holders[n - 1], ids[n - 1]) then 1 else 0)
  }

  lemma {:induction false} HeldKept(s: State, t: State, self: Peer, holders: seq<Peer>, ids: seq<ShardId>, m: nat,
                                    n: nat)
    requires m <= n <= |holders| == |ids| && s.blocks.Keys <= t.blocks.Keys
    ensures HeldCount(s, self, holders, ids, m) <= HeldCount(t, self, holders, ids, n)
  {
    if m < n {
      HeldKept(s, t, self, holders, ids, m, n - 1);
    } else if n > 0 {
      HeldKept(s, t, self, holders, ids, n - 1, n - 1);
    }
  }

  lemma StillHeld(net: Cluster, earlier: seq<State>, self: Peer, holders: seq<Peer>, ids: seq<ShardId>, m: nat, n: nat)
    requires net.Since(earlier) && earlier != [] && m <= n <= |holders| == |ids|
    ensures HeldCount(earlier[|earlier| - 1], self, holders, ids, m) <= HeldCount(net.st, self, holders, ids, n)
  {
    net.Grown(earlier);
    HeldKept(earlier[|earlier| - 1], net.st, self, holders, ids, m, n);
  }

  // ----- what was never put cannot be read -----

  /** How many of the first n slots somebody ever put on their holder or on `self`. */
  ghost function PutSlots(run: seq<Action>, self: Peer, holders: seq<Peer>, ids: seq<ShardId>, n: nat): nat
    requires n <= |holders| == |ids|
  {
    if n == 0 then 0
    else PutSlots(run, self, holders, ids, n - 1)
         + (if PutIn(run, Holding(self, ids[n - 1])) || PutIn(run, Holding(holders[n - 1], ids[n - 1])) then 1 else 0)
  }

  /** Over all runs, whatever the versions: no more slots are held than were put. So with
      fewer than k put, nobody reads the stripe. */
  lemma {:induction false} HeldWasPut(lib: Library, states: seq<State>, run: seq<Action>, self: Peer,
                                      holders: seq<Peer>, ids: seq<ShardId>, n: nat)
    requires IsRun(lib, states, run) && n <= |holders| == |ids|
    ensures HeldCount(states[|run|], self, holders, ids, n) <= PutSlots(run, self, holders, ids, n)
  {
    if n > 0 {
      HeldWasPut(lib, states, run, self, holders, ids, n - 1);
      var s := states[|run|];
      assert run[..|run|] == run;
      if Holding(self, ids[n - 1]) in s.blocks {
        BlockComesFromPut(lib, states, run, |run|, Holding(self, ids[n - 1]));
      } else if Holding(holders[n - 1], ids[n - 1]) in s.blocks {
        BlockComesFromPut(lib, states, run, |run|, Holding(holders[n - 1], ids[n - 1]));
      }
    }
  }

  /** One slot of the gathering loop: local first, then the holder. */
  method FetchSlot(net: Cluster, self: Peer, holder: Peer, id: ShardId, asks: Asks) returns (r: Option<Bytes>)
    requires net.Valid()
    modifies net`st, net`past, net`trace
    ensures net.Since(old(net.past))
    ensures r.Some? ==> net.lib.hash(r.value) == id && r.value in net.st.seen && Held(net.st, self, holder, id)
    ensures Available(net, old(net.st), self, holder, id, asks) ==> r.Some?
  {
    ghost var before := net.past;
    r := net.GetShard(self, self, id);
    net.Grown(before);
    if r.Some? || holder == self {
      return;
    }
    var online := AskLedger(asks, holder);
    if !online {
      return;
    }
    r := net.GetShard(self, holder, id);
  }

  lemma FillSlot(lib: Library, seen: set<Bytes>, ids: seq<ShardId>, view: seq<Option<Bytes>>, i: nat, r: Option<Bytes>)
    requires Fetched(lib, seen, ids, view) && i < |view| && view[i].None?
    requires r.Some? ==> lib.hash(r.value) == ids[i] && r.value in seen
    ensures Fetched(lib, seen, ids, view[i := r])
    ensures CountSome(view[i := r]) == CountSome(view) + (if r.Some? then 1 else 0)
  {
    if r.Some? {
      CountSomeFill(view, i, r.value);
    } else {
      assert view[i := r] == view;
    }
  }

  /** Slots from i on, and the skipped one, are still empty. */
  ghost predicate EmptyFrom(view: seq<Option<Bytes>>, i: int, skip: int) {
    forall j :: 0 <= j < |view| && (i <= j || j == skip) ==> view[j].None?
  }

  /** The slots before `stop` were gone through: those that could be had in state s are filled,
      and nothing from `stop` on is. */
  ghost predicate InTurn(net: Cluster, s: State, self: Peer, holders: seq<Peer>, ids: seq<ShardId>, skip: int,
                         asks: Asks, view: seq<Option<Bytes>>, stop: nat)
    requires stop <= |holders| == |ids| == |view|
  {
    && EmptyFrom(view, stop, skip)
    && forall j :: 0 <= j < stop && j != skip && Available(net, s, self, holders[j], ids[j], asks) ==> view[j].Some?
  }

  /** Fetch slot i into the row buffer, unless it is to be skipped. */
  method GatherSlot(net: Cluster, self: Peer, holder: Peer, ids: seq<ShardId>, shards: array<Option<Bytes>>, i: nat,
                    skip: int, asks: Asks)
    returns (got: nat)
    requires net.Valid() && Fetched(net.lib, net.st.seen, ids, shards[..]) && i < |ids|
    requires EmptyFrom(shards[..], i, skip)
    modifies net`st, net`past, net`trace, shards
    ensures net.Since(old(net.past)) && Fetched(net.lib, net.st.seen, ids, shards[..])
    ensures EmptyFrom(shards[..], i + 1, skip)
    ensures CountSome(shards[..]) == old(CountSome(shards[..])) + got && got <= 1
    ensures got == 1 ==> shards[i].Some?
    ensures forall j :: 0 <= j < shards.Length && j != i ==> shards[j] == old(shards[j])
    ensures got == 1 ==> Held(net.st, self, holder, ids[i])
    ensures i != skip && Available(net, old(net.st), self, holder, ids[i], asks) ==> got == 1
  {
    if i == skip {
      return 0;
    }
    ghost var before := net.past;
    var r := FetchSlot(net, self, holder, ids[i], asks);
    net.Grown(before);
    FillSlot(net.lib, net.st.seen, ids, shards[..], i, r);
    ghost var filled := shards[..][i := r];
    shards[i] := r;
    assert shards[..] == filled;
    return if r.Some? then 1 else 0;
  }

  /** The tally so far: at least the slots that could be had when the loop began, at most
      those that somebody has now. */
  ghost predicate Tally(net: Cluster, first: State, self: Peer, holders: seq<Peer>, ids: seq<ShardId>, skip: int,
                        asks: Asks, i: nat, gathered: nat)
    reads net
    requires i <= |holders| == |ids|
  {
    && AvailableCount(net, first, self, holders, ids, skip, asks, i) <= gathered
    && gathered <= HeldCount(net.st, self, holders, ids, i)
  }

  /** One turn of the gathering loop. */
  method GatherNext(net: Cluster, self: Peer, holders: seq<Peer>, ids: seq<ShardId>, shards: array<Option<Bytes>>,
                    i: nat, skip: int, asks: Asks, gathered: nat, ghost first: seq<State>)
    returns (gathered': nat)
    requires net.Valid() && i < |holders| == |ids| && first != [] && net.Since(first)
    requires Fetched(net.lib, net.st.seen, ids, shards[..])
    requires InTurn(net, first[|first| - 1], self, holders, ids, skip, asks, shards[..], i)
    requires gathered == CountSome(shards[..])
    requires Tally(net, first[|first| - 1], self, holders, ids, skip, asks, i, gathered)
    modifies net`st, net`past, net`trace, shards
    ensures net.Since(first)
    ensures Fetched(net.lib, net.st.seen, ids, shards[..])
    ensures InTurn(net, first[|first| - 1], self, holders, ids, skip, asks, shards[..], i + 1)
    ensures gathered' == CountSome(shards[..]) <= gathered + 1
    ensures Tally(net, first[|first| - 1], self, holders, ids, skip, asks, i + 1, gathered')
  {
    net.Grown(first);
    ghost var before := net.past;
    var got := GatherSlot(net, self, holders[i], ids, shards, i, skip, asks);
    StillHeld(net, before, self, holders, ids, i, i);
    gathered' := gathered + got;
  }

  /** The loop: slots in turn until k are in hand. */
  method GatherInTurn(net: Cluster, self: Peer, holders: seq<Peer>, ids: seq<ShardId>, k: nat, skip: int, asks: Asks,
                      shards: array<Option<Bytes>>)
    returns (gathered: nat, i: nat)
    requires net.Valid() && |holders| == |ids| == shards.Length && EmptyFrom(shards[..], 0, skip)
    modifies net`st, net`past, net`trace, shards
    ensures net.Since(old(net.past)) && i <= |ids| && (i < |ids| ==> gathered == k)
    ensures Fetched(net.lib, net.st.seen, ids, shards[..]) && gathered == CountSome(shards[..]) <= k
    ensures InTurn(net, old(net.st), self, holders, ids, skip, asks, shards[..], i)
    ensures Tally(net, old(net.st), self, holders, ids, skip, asks, i, gathered)
  {
    ghost var first := net.past;
    gathered, i := 0, 0;
    CountSomeNone(shards[..]);
    while i < |ids| && gathered < k
      invariant i <= |ids| && net.Since(first)
      invariant Fetched(net.lib, net.st.seen, ids, shards[..])
      invariant InTurn(net, first[|first| - 1], self, holders, ids, skip, asks, shards[..], i)
      invariant gathered == CountSome(shards[..]) <= k
      invariant Tally(net, first[|first| - 1], self, holders, ids, skip, asks, i, gathered)
    {
      gathered := GatherNext(net, self, holders, ids, shards, i, skip, asks, gathered, first);
      i := i + 1;
    }
  }

  /** Fetch slots in order, and no further than until k are in hand, as `fetchAndDecryptStripe`
      (no slot skipped, anybody asked) and `migrateStripeShard` (`skip` = the lost slot) do. */
  method Gather(net: Cluster, self: Peer, holders: seq<Peer>, ids: seq<ShardId>, k: nat, skip: int, asks: Asks,
                shards: array<Option<Bytes>>)
    returns (gathered: nat)
    requires net.Valid() && |holders| == |ids| == shards.Length && EmptyFrom(shards[..], 0, skip)
    modifies net`st, net`past, net`trace, shards
    ensures net.Since(old(net.past))
    ensures Fetched(net.lib, net.st.seen, ids, shards[..]) && EmptyFrom(shards[..], |ids|, skip)
    ensures gathered == CountSome(shards[..]) <= k
    ensures gathered <= HeldCount(net.st, self, holders, ids, |ids|)
    ensures AvailableCount(net, old(net.st), self, holders, ids, skip, asks, |ids|) >= k ==> gathered == k
    ensures exists stop: nat :: stop <= |ids| && (gathered < k ==> stop == |ids|) &&
              InTurn(net, old(net.st), self, holders, ids, skip, asks, shards[..], stop)
  {
    var i;
    gathered, i := GatherInTurn(net, self, holders, ids, k, skip, asks, shards);
    StillHeld(net, net.past, self, holders, ids, i, |ids|);
  }
}
