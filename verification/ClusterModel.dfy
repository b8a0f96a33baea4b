/** The cluster as a step machine: what every node stores, what each node knows, and
    one atomic step per local write or remote call. A step's guard speaks only of what
    the acting node itself knows (its own acknowledgements, its own queue, the manifests
    in its hands); where the bytes really are is a matter of the invariant. */
module ClusterModel {
  import opened Base
  import opened Primitives
  import opened Erasure
  import opened Manifests

  /** Something kept by a peer under a shard id or a file id. */
  datatype Holding = Holding(peer: Peer, id: string)

  /** Something `client` wants `holder` to have. */
  datatype Parcel = Parcel(client: Peer, holder: Peer, id: string)

  datatype Copy = Copy(peer: Peer, mf: Manifest)

  /** A manifest version that `client` put on `holder`. */
  datatype Receipt = Receipt(client: Peer, holder: Peer, mf: Manifest)

  datatype State = State(
    blocks: map<Holding, Bytes>,            // blockstores
    manifests: map<Holding, Manifest>,      // manifest stores
    shardSpool: map<Parcel, Bytes>,         // spool entries of kind "s"
    manifestSpool: map<Parcel, Manifest>,   // spool entries of kind "m"
    acks: set<Parcel>,                      // shard puts the client saw succeed
    queued: set<Parcel>,                    // shards the client ever spooled
    manifestAcks: set<Receipt>,             // manifest puts the client saw succeed
    inHand: set<Copy>,                      // manifests a node ever loaded or made
    files: map<FileId, Original>,           // every committed upload
    seen: set<Bytes>,                       // every shard stored or spooled so far
    online: set<Peer>)

  datatype Action =
    | PutBlock(client: Peer, holder: Peer, id: ShardId, data: Bytes, acked: bool)
    | Enqueue(client: Peer, holder: Peer, id: ShardId, data: Bytes)
    | Dequeue(client: Peer, holder: Peer, id: ShardId)
    | Commit(o: Original)
    | Learn(peer: Peer, source: Peer, fileId: FileId)
    | SendManifest(peer: Peer, target: Peer, mf: Manifest, acked: bool)
    | EnqueueManifest(peer: Peer, target: Peer, mf: Manifest)
    | DequeueManifest(peer: Peer, target: Peer, fileId: FileId)
    | Migrate(peer: Peer, mf: Manifest, slot: nat, spare: Peer)
    | GoOnline(peer: Peer)
    | GoOffline(peer: Peer)

  predicate Reaches(s: State, a: Peer, b: Peer) {
    a == b || (a in s.online && b in s.online)
  }

  /** The client put the shard on the holder and was told so, or queued it; nobody queues
      shards for themselves. */
  predicate Delivered(s: State, client: Peer, holder: Peer, id: ShardId) {
    Parcel(client, holder, id) in s.acks || (client != holder && Parcel(client, holder, id) in s.queued)
  }

  function ShardAt(lib: Library, p: Params, ct: Bytes, j: int): (shard: Bytes) {
    var shards := Encode(lib, p, ct);
    if shards.Ok? && 0 <= j < |shards.value| then shards.value[j] else []
  }

  /** The owner delivered every shard of every stripe to its slot's holder. */
  ghost predicate Shipped(lib: Library, s: State, o: Original) {
    && |o.cts| == |o.mf.stripes|
    && (forall i, j :: 0 <= i < |o.mf.stripes| && 0 <= j < |o.mf.holders| && j < |o.mf.stripes[i].shardIds| ==>
          Delivered(s, o.mf.owner, o.mf.holders[j], o.mf.stripes[i].shardIds[j]))
    && (forall i, j :: 0 <= i < |o.cts| && 0 <= j < |o.mf.holders| ==>
          ShardAt(lib, Params(o.mf.k, o.mf.m), o.cts[i], j) in s.seen)
  }

  ghost predicate Enabled(lib: Library, s: State, a: Action) {
    match a
    case PutBlock(client, holder, id, data, _) => lib.hash(data) == id && Reaches(s, client, holder)
    case Enqueue(client, holder, id, data) => lib.hash(data) == id && client != holder
    case Dequeue(client, holder, id) => Parcel(client, holder, id) in s.acks
    case Commit(o) =>
      o.mf.fileId !in s.files && WellFormed(o.mf) && Describes(lib, o) && Shipped(lib, s, o)
    case Learn(peer, source, fileId) => Holding(source, fileId) in s.manifests && Reaches(s, peer, source)
    case SendManifest(peer, target, mf, _) => Copy(peer, mf) in s.inHand && Reaches(s, peer, target)
    case EnqueueManifest(peer, target, mf) =>
      mf.owner == peer && peer != target && mf.fileId in s.files && s.files[mf.fileId].mf == mf
    case DequeueManifest(peer, target, fileId) =>
      Parcel(peer, target, fileId) in s.manifestSpool ==>
        Receipt(peer, target, s.manifestSpool[Parcel(peer, target, fileId)]) in s.manifestAcks
    case Migrate(peer, mf, slot, spare) =>
      && Copy(peer, mf) in s.inHand && slot < |mf.holders| && spare !in mf.holders
      && forall i :: 0 <= i < |mf.stripes| ==>
           slot < |mf.stripes[i].shardIds| && Parcel(peer, spare, mf.stripes[i].shardIds[slot]) in s.acks
    case GoOnline(_) => true
    case GoOffline(_) => true
  }

  function Apply(s: State, a: Action): State {
    match a
    case PutBlock(client, holder, id, data, acked) =>
      s.(blocks := s.blocks[Holding(holder, id) := data],
         acks := if acked then s.acks + {Parcel(client, holder, id)} else s.acks,
         seen := s.seen + {data})
    case Enqueue(client, holder, id, data) =>
      s.(shardSpool := s.shardSpool[Parcel(client, holder, id) := data],
         queued := s.queued + {Parcel(client, holder, id)},
         seen := s.seen + {data})
    case Dequeue(client, holder, id) => s.(shardSpool := s.shardSpool - {Parcel(client, holder, id)})
    case Commit(o) =>
      s.(files := s.files[o.mf.fileId := o],
         inHand := s.inHand + {Copy(o.mf.owner, o.mf)},
         manifests := s.manifests[Holding(o.mf.owner, o.mf.fileId) := o.mf])
    case Learn(peer, source, fileId) =>
      if Holding(source, fileId) !in s.manifests then s
      else s.(inHand := s.inHand + {Copy(peer, s.manifests[Holding(source, fileId)])})
    case SendManifest(peer, target, mf, acked) =>
      s.(manifests := s.manifests[Holding(target, mf.fileId) := mf],
         manifestAcks := if acked then s.manifestAcks + {Receipt(peer, target, mf)} else s.manifestAcks)
    case EnqueueManifest(peer, target, mf) =>
      s.(manifestSpool := s.manifestSpool[Parcel(peer, target, mf.fileId) := mf])
    case DequeueManifest(peer, target, fileId) =>
      s.(manifestSpool := s.manifestSpool - {Parcel(peer, target, fileId)})
    case Migrate(peer, mf, slot, spare) =>
      if slot >= |mf.holders| then s
      else s.(inHand := s.inHand + {Copy(peer, mf.(holders := mf.holders[slot := spare]))})
    case GoOnline(peer) => s.(online := s.online + {peer})
    case GoOffline(peer) => s.(online := s.online - {peer})
  }

  /** One step; an action whose guard fails changes nothing. */
  ghost function Step(lib: Library, s: State, a: Action): State {
    if Enabled(lib, s, a) then Apply(s, a) else s
  }

  ghost predicate Initial(s: State) {
    && s.blocks == map[] && s.manifests == map[] && s.shardSpool == map[] && s.manifestSpool == map[]
    && s.acks == {} && s.queued == {} && s.manifestAcks == {} && s.inHand == {}
    && s.files == map[] && s.seen == {}
  }

  /** A run: any interleaving of any nodes' actions, with the state after each. */
  ghost predicate IsRun(lib: Library, states: seq<State>, run: seq<Action>) {
    && |states| == |run| + 1 && Initial(states[0])
    && forall i {:trigger run[i]} :: 0 <= i < |run| ==> states[i + 1] == Step(lib, states[i], run[i])
  }

  /** The elements of `part` are those of `whole` at the ascending places `at`. */
  ghost predicate Embeds(at: seq<nat>, part: seq<Action>, whole: seq<Action>) {
    && |at| == |part|
    && (forall i :: 0 <= i < |at| ==> at[i] < |whole| && whole[at[i]] == part[i])
    && (forall i, j :: 0 <= i < j < |at| ==> at[i] < at[j])
  }

  lemma EmbedsSnoc(at: seq<nat>, part: seq<Action>, whole: seq<Action>, a: Action)
    requires Embeds(at, part, whole)
    ensures Embeds(at + [|whole|], part + [a], whole + [a])
  {
  }

  // ----- the invariant -----

  /** The shard is in the holder's blockstore or waits for it in the owner's spool. */
  predicate Placed(s: State, owner: Peer, holder: Peer, id: ShardId) {
    Holding(holder, id) in s.blocks || Parcel(owner, holder, id) in s.shardSpool
  }

  /** A manifest version of a committed file, every slot of which is backed by bytes. */
  ghost predicate Genuine(s: State, mf: Manifest) {
    && mf.fileId in s.files && SameFile(mf, s.files[mf.fileId].mf) && WellFormed(mf)
    && forall i, j :: 0 <= i < |mf.stripes| && 0 <= j < |mf.holders| ==>
         Placed(s, mf.owner, mf.holders[j], mf.stripes[i].shardIds[j])
  }

  ghost predicate BlocksOk(lib: Library, s: State) {
    forall h :: h in s.blocks ==> lib.hash(s.blocks[h]) == h.id && s.blocks[h] in s.seen
  }

  ghost predicate SpoolOk(lib: Library, s: State) {
    forall q :: q in s.shardSpool ==> lib.hash(s.shardSpool[q]) == q.id && s.shardSpool[q] in s.seen
  }

  ghost predicate AcksOk(s: State) {
    forall q :: q in s.acks ==> Holding(q.holder, q.id) in s.blocks
  }

  ghost predicate QueueOk(s: State) {
    forall q :: q in s.queued ==> q in s.shardSpool || q in s.acks
  }

  ghost predicate ReceiptsOk(s: State) {
    forall r :: r in s.manifestAcks ==> Holding(r.holder, r.mf.fileId) in s.manifests
  }

  ghost predicate HandsOk(s: State) {
    forall c :: c in s.inHand ==> Genuine(s, c.mf)
  }

  ghost predicate StoresOk(s: State) {
    forall h :: h in s.manifests ==> h.id == s.manifests[h].fileId && Genuine(s, s.manifests[h])
  }

  ghost predicate FilesOk(lib: Library, s: State) {
    forall f :: f in s.files ==>
      && s.files[f].mf.fileId == f && Copy(s.files[f].mf.owner, s.files[f].mf) in s.inHand
      && Describes(lib, s.files[f]) && Shipped(lib, s, s.files[f])
  }

  ghost predicate ManifestSpoolOk(s: State) {
    forall q :: q in s.manifestSpool ==>
      var mf := s.manifestSpool[q];
      mf.fileId == q.id && mf.owner == q.client && q.id in s.files && s.files[q.id].mf == mf
  }

  ghost predicate Inv(lib: Library, s: State) {
    && BlocksOk(lib, s) && SpoolOk(lib, s) && AcksOk(s) && QueueOk(s)
    && ReceiptsOk(s) && HandsOk(s) && StoresOk(s) && FilesOk(lib, s) && ManifestSpoolOk(s)
  }

  // ----- what every step keeps -----

  ghost predicate FilesKept(s: State, t: State) {
    forall f :: f in s.files ==> f in t.files && t.files[f] == s.files[f]
  }

  ghost predicate PlacesKept(s: State, t: State) {
    forall o, h, id :: Placed(s, o, h, id) ==> Placed(t, o, h, id)
  }

  /** Nothing leaves a spool before its delivery was acknowledged. */
  ghost predicate SpoolsKept(s: State, t: State) {
    && (forall q :: q in s.shardSpool ==> q in t.shardSpool || q in t.acks)
    && (forall q :: q in s.manifestSpool ==>
          || (q in t.manifestSpool && t.manifestSpool[q] == s.manifestSpool[q])
          || Receipt(q.client, q.holder, s.manifestSpool[q]) in t.manifestAcks)
  }

  /** Knowledge and placement only grow. */
  ghost predicate Grows(s: State, t: State) {
    && s.acks <= t.acks && s.queued <= t.queued && s.manifestAcks <= t.manifestAcks
    && s.inHand <= t.inHand && s.seen <= t.seen
    && s.blocks.Keys <= t.blocks.Keys && s.manifests.Keys <= t.manifests.Keys
    && FilesKept(s, t) && PlacesKept(s, t) && SpoolsKept(s, t)
  }

  lemma StepKeepsKnowledge(lib: Library, s: State, a: Action)
    ensures var t := Step(lib, s, a);
            && s.acks <= t.acks && s.queued <= t.queued && s.manifestAcks <= t.manifestAcks && s.inHand <= t.inHand
  {
  }

  lemma StepKeepsStored(lib: Library, s: State, a: Action)
    ensures var t := Step(lib, s, a);
            s.seen <= t.seen && s.blocks.Keys <= t.blocks.Keys && s.manifests.Keys <= t.manifests.Keys
  {
  }

  lemma StepKeepsPlaces(lib: Library, s: State, a: Action)
    requires AcksOk(s)
    ensures PlacesKept(s, Step(lib, s, a))
  {
  }

  lemma StepKeepsShardSpool(lib: Library, s: State, a: Action)
    ensures var t := Step(lib, s, a); forall q :: q in s.shardSpool ==> q in t.shardSpool || q in t.acks
  {
  }

  lemma StepKeepsManifestEntry(lib: Library, s: State, a: Action, q: Parcel)
    requires ManifestSpoolOk(s) && q in s.manifestSpool
    ensures var t := Step(lib, s, a);
            || (q in t.manifestSpool && t.manifestSpool[q] == s.manifestSpool[q])
            || Receipt(q.client, q.holder, s.manifestSpool[q]) in t.manifestAcks
  {
  }

  lemma StepKeepsSpools(lib: Library, s: State, a: Action)
    requires ManifestSpoolOk(s)
    ensures SpoolsKept(s, Step(lib, s, a))
  {
    StepKeepsShardSpool(lib, s, a);
    forall q | q in s.manifestSpool {
      StepKeepsManifestEntry(lib, s, a, q);
    }
  }

  lemma StepGrows(lib: Library, s: State, a: Action)
    requires AcksOk(s) && ManifestSpoolOk(s)
    ensures Grows(s, Step(lib, s, a))
  {
    StepKeepsKnowledge(lib, s, a);
    StepKeepsStored(lib, s, a);
    StepKeepsPlaces(lib, s, a);
    StepKeepsSpools(lib, s, a);
    assert FilesKept(s, Step(lib, s, a));
  }

  lemma GenuineKept(s: State, t: State, mf: Manifest)
    requires Grows(s, t) && Genuine(s, mf)
    ensures Genuine(t, mf)
  {
  }

  lemma ShippedKept(lib: Library, s: State, t: State, o: Original)
    requires Grows(s, t) && Shipped(lib, s, o)
    ensures Shipped(lib, t, o)
  {
  }

  lemma StepKeepsBytes(lib: Library, s: State, a: Action)
    requires BlocksOk(lib, s) && SpoolOk(lib, s)
    ensures var t := Step(lib, s, a); BlocksOk(lib, t) && SpoolOk(lib, t)
  {
  }

  lemma StepKeepsAcks(lib: Library, s: State, a: Action)
    requires AcksOk(s) && QueueOk(s)
    ensures var t := Step(lib, s, a); AcksOk(t) && QueueOk(t)
  {
  }

  lemma StepKeepsContent(lib: Library, s: State, a: Action)
    requires BlocksOk(lib, s) && SpoolOk(lib, s) && AcksOk(s) && QueueOk(s)
    ensures var t := Step(lib, s, a); BlocksOk(lib, t) && SpoolOk(lib, t) && AcksOk(t) && QueueOk(t)
  {
    StepKeepsBytes(lib, s, a);
    StepKeepsAcks(lib, s, a);
  }

  /** A committed upload is genuine: what was delivered is placed. */
  lemma ShippedIsGenuine(lib: Library, s: State, o: Original)
    requires AcksOk(s) && QueueOk(s)
    requires WellFormed(o.mf) && Shipped(lib, s, o)
    requires o.mf.fileId in s.files && s.files[o.mf.fileId] == o
    ensures Genuine(s, o.mf)
  {
    forall i, j | 0 <= i < |o.mf.stripes| && 0 <= j < |o.mf.holders|
      ensures Placed(s, o.mf.owner, o.mf.holders[j], o.mf.stripes[i].shardIds[j])
    {
      assert Delivered(s, o.mf.owner, o.mf.holders[j], o.mf.stripes[i].shardIds[j]);
    }
  }

  /** Replacing one holder by a peer that acknowledged that slot of every stripe keeps
      the manifest genuine. */
  lemma MigrateIsGenuine(s: State, peer: Peer, mf: Manifest, slot: nat, spare: Peer)
    requires AcksOk(s) && Genuine(s, mf)
    requires slot < |mf.holders| && spare !in mf.holders
    requires forall i :: 0 <= i < |mf.stripes| ==>
               slot < |mf.stripes[i].shardIds| && Parcel(peer, spare, mf.stripes[i].shardIds[slot]) in s.acks
    ensures Genuine(s, mf.(holders := mf.holders[slot := spare]))
  {
    var mf' := mf.(holders := mf.holders[slot := spare]);
    forall i, j | 0 <= i < |mf'.stripes| && 0 <= j < |mf'.holders|
      ensures Placed(s, mf'.owner, mf'.holders[j], mf'.stripes[i].shardIds[j])
    {
      if j != slot {
        assert Placed(s, mf.owner, mf.holders[j], mf.stripes[i].shardIds[j]);
      }
    }
  }

  lemma StepKeepsHands(lib: Library, s: State, a: Action)
    requires Inv(lib, s)
    ensures HandsOk(Step(lib, s, a))
  {
    var t := Step(lib, s, a);
    StepGrows(lib, s, a);
    StepKeepsContent(lib, s, a);
    forall c | c in t.inHand
      ensures Genuine(t, c.mf)
    {
      if c in s.inHand {
        GenuineKept(s, t, c.mf);
      } else {
        NewCopyIsGenuine(lib, s, a, c);
      }
    }
  }

  lemma CommittedIsGenuine(lib: Library, s: State, o: Original)
    requires Inv(lib, s) && Enabled(lib, s, Commit(o))
    ensures Genuine(Step(lib, s, Commit(o)), o.mf)
  {
    var t := Step(lib, s, Commit(o));
    StepGrows(lib, s, Commit(o));
    StepKeepsContent(lib, s, Commit(o));
    ShippedKept(lib, s, t, o);
    ShippedIsGenuine(lib, t, o);
  }

  lemma LearnedIsGenuine(lib: Library, s: State, peer: Peer, source: Peer, fileId: FileId)
    requires Inv(lib, s) && Enabled(lib, s, Learn(peer, source, fileId))
    ensures Genuine(Step(lib, s, Learn(peer, source, fileId)), s.manifests[Holding(source, fileId)])
  {
    StepGrows(lib, s, Learn(peer, source, fileId));
    GenuineKept(s, Step(lib, s, Learn(peer, source, fileId)), s.manifests[Holding(source, fileId)]);
  }

  lemma MigratedIsGenuine(lib: Library, s: State, peer: Peer, mf: Manifest, slot: nat, spare: Peer)
    requires Inv(lib, s) && Enabled(lib, s, Migrate(peer, mf, slot, spare))
    ensures Genuine(Step(lib, s, Migrate(peer, mf, slot, spare)), mf.(holders := mf.holders[slot := spare]))
  {
    StepGrows(lib, s, Migrate(peer, mf, slot, spare));
    assert Copy(peer, mf) in s.inHand;
    MigrateIsGenuine(s, peer, mf, slot, spare);
    GenuineKept(s, Step(lib, s, Migrate(peer, mf, slot, spare)), mf.(holders := mf.holders[slot := spare]));
  }

  /** A node gets a manifest in hand by committing, learning or migrating it. */
  lemma NewCopyComesFrom(lib: Library, s: State, a: Action, c: Copy)
    requires c in Step(lib, s, a).inHand && c !in s.inHand
    ensures Enabled(lib, s, a)
    ensures || (a.Commit? && c.mf == a.o.mf)
            || (a.Learn? && c.mf == s.manifests[Holding(a.source, a.fileId)])
            || (a.Migrate? && c.mf == a.mf.(holders := a.mf.holders[a.slot := a.spare]))
  {
  }

  lemma NewCopyIsGenuine(lib: Library, s: State, a: Action, c: Copy)
    requires Inv(lib, s)
    requires c in Step(lib, s, a).inHand && c !in s.inHand
    ensures Genuine(Step(lib, s, a), c.mf)
  {
    NewCopyComesFrom(lib, s, a, c);
    if a.Commit? {
      CommittedIsGenuine(lib, s, a.o);
    } else if a.Learn? {
      LearnedIsGenuine(lib, s, a.peer, a.source, a.fileId);
    } else {
      MigratedIsGenuine(lib, s, a.peer, a.mf, a.slot, a.spare);
    }
  }

  lemma StepKeepsStores(lib: Library, s: State, a: Action)
    requires Inv(lib, s)
    ensures StoresOk(Step(lib, s, a))
  {
    var t := Step(lib, s, a);
    StepGrows(lib, s, a);
    StepKeepsHands(lib, s, a);
    forall h | h in t.manifests
      ensures h.id == t.manifests[h].fileId && Genuine(t, t.manifests[h])
    {
      if h in s.manifests && s.manifests[h] == t.manifests[h] {
        GenuineKept(s, t, s.manifests[h]);
      } else {
        StoredIsInHand(lib, s, a, h);
      }
    }
  }

  /** A node stores only a manifest that it or the sender has in hand. */
  lemma StoredIsInHand(lib: Library, s: State, a: Action, h: Holding)
    requires h in Step(lib, s, a).manifests
    requires !(h in s.manifests && s.manifests[h] == Step(lib, s, a).manifests[h])
    ensures var t := Step(lib, s, a);
            var mf := t.manifests[h];
            h.id == mf.fileId && exists p :: Copy(p, mf) in t.inHand
  {
    match a {
      case Commit(o) => assert Copy(o.mf.owner, o.mf) in Step(lib, s, a).inHand;
      case SendManifest(peer, target, mf, _) => assert Copy(peer, mf) in s.inHand;
      case _ =>
    }
  }

  lemma StepKeepsFiles(lib: Library, s: State, a: Action)
    requires FilesOk(lib, s) && AcksOk(s) && ManifestSpoolOk(s)
    ensures FilesOk(lib, Step(lib, s, a))
  {
    var t := Step(lib, s, a);
    StepGrows(lib, s, a);
    forall f | f in t.files
      ensures t.files[f].mf.fileId == f && Copy(t.files[f].mf.owner, t.files[f].mf) in t.inHand
      ensures Describes(lib, t.files[f]) && Shipped(lib, t, t.files[f])
    {
      if f in s.files {
        assert t.files[f] == s.files[f];
      } else {
        NewFileIsShipped(lib, s, a, f);
      }
      ShippedKept(lib, s, t, t.files[f]);
    }
  }

  /** A file enters the record only through a commit. */
  lemma NewFileIsShipped(lib: Library, s: State, a: Action, f: FileId)
    requires f in Step(lib, s, a).files && f !in s.files
    ensures var t := Step(lib, s, a);
            && t.files[f].mf.fileId == f && Copy(t.files[f].mf.owner, t.files[f].mf) in t.inHand
            && Describes(lib, t.files[f]) && Shipped(lib, s, t.files[f])
  {
    assert a.Commit?;
  }

  lemma StepKeepsManifestSpool(lib: Library, s: State, a: Action)
    requires ManifestSpoolOk(s) && AcksOk(s)
    ensures ManifestSpoolOk(Step(lib, s, a))
  {
    var t := Step(lib, s, a);
    StepGrows(lib, s, a);
    forall q | q in t.manifestSpool
      ensures var mf := t.manifestSpool[q];
              mf.fileId == q.id && mf.owner == q.client && q.id in t.files && t.files[q.id].mf == mf
    {
      if q in s.manifestSpool && s.manifestSpool[q] == t.manifestSpool[q] {
        assert q.id in s.files;
      } else {
        assert a.EnqueueManifest?;
      }
    }
  }

  lemma StepKeepsReceipts(lib: Library, s: State, a: Action)
    requires ReceiptsOk(s)
    ensures ReceiptsOk(Step(lib, s, a))
  {
  }

  /** The invariant is inductive. */
  lemma StepKeepsInv(lib: Library, s: State, a: Action)
    requires Inv(lib, s)
    ensures Inv(lib, Step(lib, s, a)) && Grows(s, Step(lib, s, a))
  {
    StepGrows(lib, s, a);
    StepKeepsContent(lib, s, a);
    StepKeepsHands(lib, s, a);
    StepKeepsStores(lib, s, a);
    StepKeepsFiles(lib, s, a);
    StepKeepsManifestSpool(lib, s, a);
    StepKeepsReceipts(lib, s, a);
  }

  /** Over all runs: the invariant holds in every state of every run. */
  lemma {:induction false} RunKeepsInv(lib: Library, states: seq<State>, run: seq<Action>, n: nat)
    requires IsRun(lib, states, run) && n < |states|
    ensures Inv(lib, states[n])
  {
    if n > 0 {
      RunKeepsInv(lib, states, run, n - 1);
      StepKeepsInv(lib, states[n - 1], run[n - 1]);
    }
  }

  /** Over all runs: later states know and hold at least what earlier ones did. */
  lemma {:induction false} RunGrows(lib: Library, states: seq<State>, run: seq<Action>, m: nat, n: nat)
    requires IsRun(lib, states, run) && m <= n < |states|
    ensures Grows(states[m], states[n])
  {
    if m < n {
      RunGrows(lib, states, run, m, n - 1);
      RunStepGrows(lib, states, run, n - 1);
      GrowsTransitive(states[m], states[n - 1], states[n]);
    }
  }

  lemma RunStepGrows(lib: Library, states: seq<State>, run: seq<Action>, n: nat)
    requires IsRun(lib, states, run) && n < |run|
    ensures Grows(states[n], states[n + 1])
  {
    RunKeepsInv(lib, states, run, n);
    StepGrows(lib, states[n], run[n]);
  }

  lemma GrowsTransitive(s: State, t: State, u: State)
    requires Grows(s, t) && Grows(t, u)
    ensures Grows(s, u)
  {
  }

  /** Somebody put that shard on that peer. */
  ghost predicate PutIn(run: seq<Action>, h: Holding) {
    exists i :: 0 <= i < |run| && run[i].PutBlock? && Holding(run[i].holder, run[i].id) == h
  }

  /** Over all runs: a peer has only what somebody put there. */
  lemma {:induction false} BlockComesFromPut(lib: Library, states: seq<State>, run: seq<Action>, n: nat, h: Holding)
    requires IsRun(lib, states, run) && n <= |run| && h in states[n].blocks
    ensures PutIn(run[..n], h)
  {
    if n > 0 {
      if h in states[n - 1].blocks {
        BlockComesFromPut(lib, states, run, n - 1, h);
        PutInLonger(run[..n - 1], run[..n], h);
      } else {
        NewBlockIsPut(lib, states[n - 1], run[n - 1], h);
        assert run[..n][n - 1] == run[n - 1];
      }
    }
  }

  lemma NewBlockIsPut(lib: Library, s: State, a: Action, h: Holding)
    requires h in Step(lib, s, a).blocks && h !in s.blocks
    ensures a.PutBlock? && Holding(a.holder, a.id) == h
  {
  }

  lemma PutInLonger(run: seq<Action>, longer: seq<Action>, h: Holding)
    requires PutIn(run, h) && run <= longer
    ensures PutIn(longer, h)
  {
    var i :| 0 <= i < |run| && run[i].PutBlock? && Holding(run[i].holder, run[i].id) == h;
    assert longer[i] == run[i];
  }

  // ----- slots that no repair moved -----

  /** No version of the file anywhere has that slot moved. */
  ghost predicate Unmoved(s: State, f: FileId, j: int) {
    && (forall c :: c in s.inHand && c.mf.fileId == f ==> SameSlot(s, c.mf, j))
    && (forall h :: h in s.manifests && s.manifests[h].fileId == f ==> SameSlot(s, s.manifests[h], j))
  }

  /** The version has the committed holder in that slot. */
  predicate SameSlot(s: State, mf: Manifest, j: int) {
    && mf.fileId in s.files && |mf.holders| == |s.files[mf.fileId].mf.holders|
    && (0 <= j < |mf.holders| ==> mf.holders[j] == s.files[mf.fileId].mf.holders[j])
  }

  ghost predicate MovedIn(run: seq<Action>, f: FileId, j: int) {
    exists i :: 0 <= i < |run| && run[i].Migrate? && run[i].mf.fileId == f && run[i].slot == j
  }

  lemma NewCopyIsUnmoved(lib: Library, s: State, a: Action, f: FileId, j: int, c: Copy)
    requires Unmoved(s, f, j) && !(a.Migrate? && a.mf.fileId == f && a.slot == j)
    requires c in Step(lib, s, a).inHand && c !in s.inHand && c.mf.fileId == f
    ensures SameSlot(Step(lib, s, a), c.mf, j)
  {
    NewCopyComesFrom(lib, s, a, c);
    if a.Migrate? {
      assert SameSlot(s, a.mf, j) by {
        assert Copy(a.peer, a.mf) in s.inHand;
      }
    }
  }

  lemma StepKeepsUnmoved(lib: Library, s: State, a: Action, f: FileId, j: int)
    requires Inv(lib, s) && Unmoved(s, f, j)
    requires !(a.Migrate? && a.mf.fileId == f && a.slot == j)
    ensures Unmoved(Step(lib, s, a), f, j)
  {
    var t := Step(lib, s, a);
    StepGrows(lib, s, a);
    forall c | c in t.inHand && c.mf.fileId == f
      ensures SameSlot(t, c.mf, j)
    {
      if c !in s.inHand {
        NewCopyIsUnmoved(lib, s, a, f, j, c);
      }
    }
    forall h | h in t.manifests && t.manifests[h].fileId == f
      ensures SameSlot(t, t.manifests[h], j)
    {
      if !(h in s.manifests && s.manifests[h] == t.manifests[h]) {
        StoredIsInHand(lib, s, a, h);
      }
    }
  }

  /** Over all runs: without a migration of the slot every version keeps its holder. */
  lemma {:induction false} RunKeepsUnmoved(lib: Library, states: seq<State>, run: seq<Action>, n: nat, f: FileId,
                                           j: int)
    requires IsRun(lib, states, run) && n <= |run| && !MovedIn(run, f, j)
    ensures Unmoved(states[n], f, j)
  {
    if n > 0 {
      RunKeepsUnmoved(lib, states, run, n - 1, f, j);
      RunKeepsInv(lib, states, run, n - 1);
      StepKeepsUnmoved(lib, states[n - 1], run[n - 1], f, j);
    }
  }

  /** A state that some run reaches. */
  ghost predicate Reachable(lib: Library, s: State) {
    exists states, run :: IsRun(lib, states, run) && s == states[|run|]
  }

  lemma ReachableInv(lib: Library, s: State)
    requires Reachable(lib, s)
    ensures Inv(lib, s)
  {
    var states, run :| IsRun(lib, states, run) && s == states[|run|];
    RunKeepsInv(lib, states, run, |run|);
  }
}
