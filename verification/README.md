# fnshare, verified

A Dafny model of the storage core of fnshare, an erasure-coded, encrypted, peer-to-peer file
store: uploading a stream as sealed and coded stripes, spooling what cannot be delivered,
repairing slots of holders that went away, reading any range of a file while all of that goes
on, and the accounting that decides whom to trust as online.

`dafny verify dfyconfig.toml` checks everything.

## How it is put together

- **The cluster is a step machine** (`ClusterModel`). A state holds every node's blockstore,
  manifest store and spool, what each node knows (acknowledgements, queued shards, manifests
  in hand), the committed uploads and who is online. A run is any interleaving of any nodes'
  steps. A step's guard speaks only of what the acting node itself knows; where the bytes are
  is a matter of the invariant.
- **The imperative code runs inside that machine** (`Network`, `Upload`, `Recovery`,
  `Reading`, `FlatFile`, `Repair`, `SpoolWorker`, `EndToEnd`). Between any two of its actions
  `Interfere` lets the rest of the cluster take any number of steps: its contract says only
  that the run went on. A remote call may fail, and may take effect with its reply lost.
  A few sets, any of which may be empty, say what happens to go well: `steady` peers, between
  which calls go through (both ends online, messages within the frame limit); `disks`, the
  peers whose own stores and spool work, online or not; `readable` spool entries, which can
  be read while they are there; `lasting` cache keys, which other users of the cache do not
  evict; and the peers that the ledger is `sure` about or calls `down`. Results about success
  mention them; results about safety do not. `own` logs what the code itself did, as a part of
  the run.
- **Library code is one value** (`Primitives.Library`): SHA-256, AES-GCM, the NaCl box,
  Reed-Solomon and peer-id decoding are functions of it, and each assumption is a named
  predicate that a contract asks for where it is used. `CollisionFree` is asked only of the
  strings stored in the run at hand. `Witness` proves that all assumptions can hold at once,
  with a single-parity XOR code for every shape k+1.
- **The rest of the core stands by itself**: the stripe cache, the spool directory, the
  ledger with its liveness machine and its flush race, two-sided traffic accounting,
  rendezvous choice of holders, and member gossip.

Peers are assumed to run this code, file ids to be fresh, and the CBOR encoding of a record
to give the record back.

## Where the code falls short of what is said of it

- An upload succeeds even if no shard reached anybody but its owner, as long as all could be
  spooled (`internal/file/file.go:248-262` reasons with k holders having their shards, but
  nothing counts them). `CommitWithoutDelivery` builds such a run for every file;
  `NothingStoredExactly` says that it can leave nothing stored at all exactly if the owner is
  not among the holders, and `OwnerHoldsItsSlot` that else the owner has its slots. What does
  make a file readable is k slots that were acknowledged to its owner, were not moved by a
  repair, and sit on holders the reader can reach, with the owner online or not
  (`UploadedIsReadable`, `UploadThenDownload`), and with fewer than k slots ever put nobody
  reads the stripe (`HeldWasPut`, `FetchStripe`).
- A stream that breaks off with `io.ErrUnexpectedEOF`, as an HTTP request body that was cut
  short does (`internal/api/server.go:534` hands it in as it is), is taken for one that ended
  (`internal/file/file.go:147,159`), and the part that arrived is committed as the file:
  `UploadCutShort`, for every upload and every cut. `Put` says exactly when a stream is
  refused: it fails with another error, or has no byte.
- `Flush` is called safe from any goroutine. A record made between its swap and its write
  loses events, and so do a failed write and a failed read, which `loadEntry` takes for an
  entry that is not there: `ExactlyWhenEventsSurvive` gives the exact condition,
  `LostUpdate`, `FailedFlushForgets` and `UnreadForgets` examples, and `Book.Flush` whose
  events a failed flush drops. Then a client can have more on record than its server
  (`ClientCanExceed`); `BothSidesAgree` says what each side's losses allow.
- A repair is meant to move one slot. It sends the version it started from with that slot
  changed, and that replaces whatever the target stores: two repairs from one version undo
  each other's move (`LostMove`), and so does a manifest spooled earlier
  (`SpooledManifestUndoes`). `OverwritesExactly` says when a repair does to the version
  overwritten what it means to do, and `MovePersistsExactly` when a move is still there later.
- The heartbeat is meant to start one repair scan per outage, and `IsOnline` and `All` to tell
  what was recorded. While a flush is between its swap and its write they go by the disk: an
  outage can be reported twice (`DoubledReport`), `IsOnline` can answer by older events
  (`AnswerExactly` says exactly when), and `All`, which reads the disk before it takes the
  lock, can miss events recorded before the call even if the flush succeeds
  (`AllMissesFlushed`; `Book.All` and `AllExactly` say exactly when). `OneScanPerOutage` is
  what holds when no record falls into that window and no write or needed read fails.
- The penalty for failed pings is said to grow with the streak; each failure from the third on
  costs the same five points (`FailuresCost`).
- "Shards first" holds for a file whose spooled shards can be read; an entry that cannot be
  read is skipped and manifests follow all the same (`FlushPeer`). `ManifestBeforeShards` is
  such a pass, for every file and every holder but its owner.
- Gossip is said to let everybody eventually learn of a member. A node with an unproven
  record of that member keeps it and stops the proven one: `UnprovenRecordBlocks`.
  `ProvenRecordsSpread` says exactly whom the proof reaches.
- A round of member sync is meant to leave known members alone. If the local members cannot be
  listed, nobody counts as known and any proven record that is offered replaces what is stored
  (`OverwrittenWhenUnlisted`); `SurvivesExactly` says exactly which records survive a round.
- `PendingPeers` is said to return the peers with queued items; a write that broke off can
  leave one with none (`PendingWithNothingQueued`). `PendingExactly` says when, by the
  operations alone.
- `itoa` writes "-" for the least int64, which loses its digits (`WriteItoa`); cache keys
  still never collide.
- The comment heading `internal/ec/ec.go` speaks of a file as a single stripe; the code
  codes each stripe of a file by itself, and so does the model.

## Model

| member | source | states |
|---|---|---|
| `Primitives.SealOpenRoundTrip` | internal/crypto/crypto.go:68-109 | sealing succeeds exactly for 32-byte keys, adds 28 bytes, and opening gives every plaintext back |
| `Primitives.OpensExactly` | internal/crypto/crypto.go:92-109 | opening gives a plaintext if and only if the input is a sealing of it under that key; all else is refused |
| `Erasure.ShardSize` | internal/ec/ec.go:33-39 | the least size such that k shards cover the payload: trimming removes only padding |
| `Erasure.EncodeShape` | internal/ec/ec.go:43-60 | encoding succeeds exactly for supported shapes and non-empty data, and gives k+m shards of one size |
| `Erasure.EncodeIsSystematic` | internal/ec/ec.go:43-60 | the first k shards in order are the payload and zeros, the others their parity |
| `Erasure.ErasureRoundTrip` | internal/ec/ec.go:43-90 | from any k of the k+m shards, decoding rebuilds every shard and, trimmed, the very payload |
| `Erasure.Decode` | internal/ec/ec.go:66-90 | the in-place decoder returns and leaves in the slice what the specification of the round trip says, and fails where that fails |
| `Erasure.DecodedIsWord` | internal/ec/ec.go:66-90 | what decodes is a word of the code, and the data its first bytes, as many as asked for |
| `Witness.XorRecovers` | internal/ec/ec.go:27-29 | for one parity shard (the default shape) XOR is a code from any k rows of which all k+1 come back |
| `Witness.AssumptionsHold` | internal/ec/ec.go:27-29 | every assumption about library code can be met at once, for each k+1 |
| `Manifests.ChunksTile` | internal/file/file.go:141-169 | stripes concatenate to the file, all but the last are full, none is empty |
| `Manifests.SizesAgree` | internal/manifest/manifest.go:28-57 | `Size` is the sum of `PlaintextBytes`, indices count from 0, `CiphertextBytes` is `PlaintextBytes` + 28 |
| `Manifests.WrapEnvelopes` | internal/file/file.go:363-391 | a wrapped file key opens to that key for whoever it was wrapped for |
| `Manifests.UnwrapRecoversKey` | internal/file/file.go:393-411 | unwrapping undoes wrapping for group members, or for the owner alone, under every later version of the manifest |
| `Manifests.UnwrapsExactly` | internal/file/file.go:393-411 | unwrapping gives a key if and only if that was sealed under the group key, or the box opens to it for the owner |
| `Streams.ReadFull` | internal/file/file.go:146-164 | however reads are split: as many bytes as there are; a clean end within the bytes wanted and a stream cut short look the same, a failure does not |
| `Streams.HeaderRoundTrip` | internal/node/blocks.go:230-244 | the four header bytes give every 32-bit length back |
| `Streams.HeaderIsBigEndian` | internal/node/blocks.go:230-244 | the header is the length, most significant byte first |
| `Streams.FrameRoundTrip` | internal/node/blocks.go:222-257 | every payload up to 64 MiB comes back from its frame, whatever follows it |
| `Streams.CutFrameRejected` | internal/node/blocks.go:239-251 | every strict prefix of a frame is rejected |
| `Streams.FramesExactly` | internal/node/blocks.go:222-257 | what is read is a payload if and only if the stream starts with its frame, and exactly the payloads up to 64 MiB have one |
| `Streams.ReadFrame` | internal/node/blocks.go:239-257 | under every split of the reads, the parse of the bytes that the stream holds; what follows the frame is left in the stream |
| `ClusterModel.StepKeepsInv` | internal/node/blocks.go:89-135 | every step of every node keeps the placement invariant |
| `ClusterModel.RunKeepsInv` | internal/file/file.go:141-266 | it holds in every state of every run |
| `ClusterModel.RunGrows` | internal/spool/worker.go:64-119 | over every run acknowledgements, stored shards, files and placements only grow, and spools shed only what was acknowledged |
| `ClusterModel.BlockComesFromPut` | internal/blockstore/blockstore.go:40-63 | over every run a peer has only shards that somebody put there |
| `ClusterModel.MigrateIsGenuine` | internal/repair/repair.go:114-142 | a slot moved after all its shards were acknowledged by the spare gives a manifest every slot of which is backed by bytes |
| `ClusterModel.RunKeepsUnmoved` | internal/repair/repair.go:126-128 | over every run without a migration of a slot, every version of the file anywhere has the committed holder in it |
| `Network.Cluster.PutShard` | internal/node/blocks.go:139-151 | acknowledged only if the holder has the payload, refused unless it hashes to the id |
| `Network.Cluster.GetShard` | internal/node/blocks.go:153-165 | what comes back was stored in this run and hashes to the id |
| `Network.Cluster.EnqueueShard` | internal/spool/spool.go:60-62 | success means the shard is queued for that other holder; it succeeds for non-empty names while the disk works, online or not |
| `Network.Cluster.QueueManifest` | internal/spool/spool.go:65-67 | the same for the committed manifest, which then waits in the spool as it is |
| `Network.Cluster.LoadManifest` | internal/node/blocks.go:188-197 | a manifest that is loaded is one the source stored at a moment of the call; not-found only if it was not there; no other error from a peer that stays up |
| `Network.Cluster.ListManifests` | internal/manifest/manifest.go:100-110 | every manifest that the local store holds at some moment of the call, each once; an error only if the disk fails |
| `Network.Cluster.SendManifest` | internal/node/blocks.go:167-186 | success means a receipt of this very version; a failed local write writes nothing |
| `Network.Cluster.CommitFile` | internal/file/file.go:171-177 | the file's record is the one handed in, and only a failing store prevents it |
| `Network.Cluster.ListSpool` | internal/spool/spool.go:116-147 | exactly the keys spooled for the peer |
| `Network.Cluster.ReadSpooledShard` | internal/spool/spool.go:150-155 | the spooled bytes, which hash to the key; a readable entry is read unless it was delivered meanwhile |
| `Network.Cluster.ReadSpooledManifest` | internal/spool/spool.go:150-155 | the committed manifest; a readable entry is read unless it was acknowledged meanwhile |
| `Network.Cluster.RemoveSpooledShard` | internal/spool/spool.go:158-168 | while the disk works the entry is removed and is gone |
| `Network.Cluster.RemoveSpooledManifest` | internal/spool/spool.go:158-168 | the same for manifests |
| `Durability.EveryShardIsSomewhere` | internal/file/file.go:233-264 | in every reachable state, for every manifest stored, spooled or in hand, every stripe and slot: bytes hashing to the id are with the slot's holder or in the owner's spool for it |
| `Durability.VersionsDifferInHoldersOnly` | internal/repair/repair.go:126-130 | every known version is the committed one but for its holders, which are k+m and pairwise distinct |
| `Durability.StoredShardsAreOriginal` | internal/blockstore/blockstore.go:40-71 | whoever stores or spools something under a shard id of a known file has the original shard |
| `Durability.AnyShardsGiveThePlaintext` | internal/file/reader.go:142-186 | any k shards fetched under any version decode and decrypt to the uploaded bytes of the stripe |
| `Durability.SpoolsLoseNothing` | internal/spool/worker.go:79-115 | over every run a spooled shard stays until its holder has it, a spooled manifest until it was acknowledged |
| `Durability.PutsAreIdempotent` | internal/blockstore/blockstore.go:40-63 | putting a shard twice is putting it once |
| `Durability.CommitWithoutDelivery` | internal/file/file.go:233-264 | every file can be committed with no shard anywhere but with an owner that is its own holder; if it is not, nobody holds a slot of any stripe |
| `Durability.OwnerHoldsItsSlot` | internal/file/file.go:237-243 | in every reachable state an owner among the holders has its slot of every stripe |
| `Durability.NothingStoredExactly` | internal/file/file.go:237-263 | a file can be committed with nothing stored anywhere if and only if its owner is not among its holders |
| `Durability.OneStripeUpload` | internal/file/file.go:217-232 | for all keys, nonces and holders, every non-empty plaintext of one stripe has an upload of that kind |
| `Durability.ManifestBeforeShards` | internal/spool/worker.go:79-115 | for every file and every holder but its owner: a run ending in a pass that lists all its shards, passes them over as unreadable, delivers the manifest, and leaves the holder without a shard |
| `Upload.ShipShard` | internal/file/file.go:234-263 | success means acknowledged or queued; a holder that can be reached throughout acknowledges, and any other decodable one is spooled for while the disk works, even by a node that is cut off; the shard is put at most once, and queued only if that was not acknowledged |
| `Upload.ShipShards` | internal/file/file.go:233-264 | all ids in slot order, each shard delivered to its slot's holder and acknowledged by those that stay up |
| `Upload.UploadStripe` | internal/file/file.go:217-266 | the entry describes the chunk: it opens to it, names its shards by hash, and all were delivered |
| `Upload.UploadNext` | internal/file/file.go:145-164 | one turn uploads exactly the next chunk of the stream, or tells its end or failure; a stream cut short ends |
| `Upload.UploadStripes` | internal/file/file.go:141-165 | for every stream that does not fail, however split, the stripes are those of all its bytes and just cover them, and holders that stay up took their shards |
| `Upload.UploadedDescribes` | internal/file/file.go:126-177 | the manifest built from the loop describes the file, is well-formed and all of it was shipped |
| `Upload.Replicate` | internal/file/file.go:190-208 | every other holder that stays up acknowledges the manifest, and for every other decodable one it is acknowledged or waits in the spool while the disk works |
| `Upload.Put` | internal/file/file.go:82-213 | on success the record is exactly the bytes read, on the chosen holders and in the chosen mode and stripe size, with shards and manifest where they should be, each stripe sealed under a draw of its own; on failure there is no file, and a holder other than the node itself whose id does not decode makes it fail; where everything can be taken or spooled it succeeds if and only if the stream has a byte and does not fail; in any case nothing goes to anybody but the chosen holders, and nothing is queued for those that stay up |
| `Upload.Finish` | internal/file/file.go:166-212 | the manifest is committed with the size and stripes of the stream and then replicated |
| `Upload.UploadCutShort` | internal/file/file.go:145-170 | every upload cut short after at least one byte is committed as the shorter file and reported as success |
| `Recovery.FetchedDecodes` | internal/file/reader.go:177-181 | any k rows that hash to their ids decode to the original shards and ciphertext |
| `Recovery.HeldWasPut` | internal/file/reader.go:142-175 | over every run no more slots of a stripe are held than were put, so fewer than k puts leave it unreadable |
| `Recovery.FetchSlot` | internal/file/reader.go:147-170 | what a slot yields hashes to its id and is held by this node or the holder; an available slot yields |
| `Recovery.Gather` | internal/file/reader.go:142-175 | k rows if k slots were available at the start, never more rows than slots held, the skipped slot left empty; slots in order, every available one up to where it stops, none after that |
| `Cache.WriteItoa` | internal/file/cache.go:100-120 | the text that `ItoaIsCanonical` speaks of, for every int64, within the 20-byte buffer |
| `Cache.ItoaIsCanonical` | internal/file/cache.go:100-120 | the canonical decimal: right value, sign, no leading zero; for the least int64 a bare sign |
| `Cache.ItoaInjective` | internal/file/cache.go:100-120 | different numbers are written differently |
| `Cache.CacheKeyInjective` | internal/file/cache.go:39-42 | equal keys have equal file ids and stripe indices, for all strings and numbers |
| `Cache.StripeCache.Get` | internal/file/cache.go:44-53 | the entry under the key, and the list that the history model gives; list, index and byte total keep agreeing |
| `Cache.StripeCache.Put` | internal/file/cache.go:55-77 | the list is the one the history model gives, within the budget; index and total follow |
| `Cache.StripeCache.Evict` | internal/file/cache.go:79-90 | dropping from the back leaves the longest front part that fits |
| `Cache.FitIsLongestPrefix` | internal/file/cache.go:79-90 | eviction keeps exactly the longest most-recent-first prefix within the budget |
| `Cache.NewestSurvives` | internal/file/cache.go:55-77 | an accepted entry is never evicted by its own insertion |
| `Cache.HitIsLastPut` | internal/file/cache.go:44-90 | over every sequence of calls: keys once each, the budget kept, and a hit is the last accepted put of its key |
| `Cache.ListedByLastUse` | internal/file/cache.go:44-76 | over every sequence of calls: the list is in the order of last use, by a lookup that hit or an accepted put, latest first |
| `Cache.EvictedExactly` | internal/file/cache.go:55-90 | over every sequence of calls: an accepted put keeps another entry if and only if that fits into the budget together with the new one and all others used after it |
| `Cache.ContentsExactly` | internal/file/cache.go:44-90 | over every sequence of calls: exactly what is cached after one more; a miss, a hit and a put over the whole budget leave everything there, an older entry of the same key included |
| `Reading.Reader.FetchStripe` | internal/file/reader.go:131-187 | what it returns is the stripe's plaintext; it succeeds if k slots were available, and only if k are held and were put |
| `Reading.Reader.StripeBytes` | internal/file/reader.go:119-129 | the same through the shared cache, whatever is in it and whoever else uses it; what it returns becomes the latest entry of the cache if it is within the budget; what is cached and not evicted by others is served, whether it could be gathered or not; the log of stripes asked for grows by this one |
| `Reading.Reader.ReadLoop` | internal/file/reader.go:84-110 | the loop ends, writes a right prefix and nothing behind it, and asks for stripes of the range only, in order and each once |
| `Reading.Reader.ReadAt` | internal/file/reader.go:76-115 | the flat slice of the file, min(len, size - offset) bytes, EOF exactly when the range passes the end; a right prefix if a stripe is missing; only overlapping stripes asked for, and on success exactly those, each once, in order; whole if all were available, or all cached and not evicted by others |
| `Reading.Reader.Read` | internal/file/reader.go:47-54 | the bytes at the cursor, which advances by what is returned |
| `Reading.Reader.Seek` | internal/file/reader.go:57-72 | the cursor goes to the offset from the start, the cursor or the end, but never below 0, and that is returned; an unknown whence is an error and leaves it |
| `Reading.Reader.Get` | internal/file/file.go:270-280 | a prefix of the uploaded bytes, all of them on success, and success if all stripes were available |
| `FlatFile.Replay` | internal/file/reader.go:47-115 | every sequence of seeks and reads: the cursor is that of a flat file and never negative, every answer is one the flat file could give there, a read that breaks off included, and if all stripes were available the answers are exactly those of the flat file |
| `FlatFile.ReadTwice` | internal/file/reader.go:119-129 | a range of one stripe that was read can be read again with the same result, whoever holds shards by then, if stripes fit into the cache and nobody else evicts it |
| `Reading.FetchManifest` | internal/file/file.go:428-449 | a version that a member stored during the call, the first in order that has one and stays up; fails only if no other member that stays up stores a manifest of the file |
| `Reading.FindManifest` | internal/file/file.go:286-295 | a version of the very file, the local one if there is one, found if the local store works and this node or a member that stays up has one; then it is in the local store |
| `Reading.OpenReader` | internal/file/file.go:285-309 | whoever the key was wrapped for gets a reader on the uploaded bytes; nobody but the owner opens a private file; the key is the unwrapped one, of a group this node is in |
| `EndToEnd.UploadedIsReadable` | internal/file/reader.go:142-175 | k slots acknowledged to the owner, not moved, and on holders that the reader can reach make every stripe readable under whatever version the reader found, with the owner online or not |
| `EndToEnd.UploadedIsFindable` | internal/file/file.go:428-449 | one holder that acknowledged the manifest and can be asked is enough for a reader to find it, with the owner online or not |
| `EndToEnd.UploadThenDownload` | internal/file/file.go:270-280 | upload, open and copy out: with what the owner had been told when the upload returned, which includes every holder it could reach throughout, if one that took the manifest can be asked the reader finds the file, and if k slots so acknowledged were not moved and can be reached it gets exactly the stream, the owner gone or not |
| `Repair.IndexOf` | internal/repair/repair.go:219-226 | the first index, or -1 exactly if absent |
| `Repair.Rebuild` | internal/repair/repair.go:192-204 | what is rebuilt hashes to the slot's id; k rows suffice |
| `Repair.MigrateStripe` | internal/repair/repair.go:150-215 | success means the spare acknowledged the slot's shard; nothing but that shard is put, and nowhere else; it succeeds when k other slots can be had and the spare stays up |
| `Repair.MigrateStripes` | internal/repair/repair.go:114-124 | the same for every stripe, stopping at the first failure |
| `Repair.CountLive` | internal/repair/repair.go:75-81 | between the holders sure to count (this node, those the ledger must call online) and those that may |
| `Repair.FindSpare` | internal/repair/repair.go:88-107 | a member without a slot that may be online, with none before it that must be; none only if no such member must be |
| `Repair.Publish` | internal/repair/repair.go:126-142 | only this version is written, here and at its holders; a failed local write writes nothing; holders that stay up acknowledge it |
| `Repair.RepairFile` | internal/repair/repair.go:72-146 | all or nothing: shards of the slot go to the spare, then the holder list changes, then that version is sent, and nothing else is done; no manifest written unless every stripe moved; then one slot of the version in hand changed, holders still distinct and k+m, the spare holds that slot of every stripe, and holders that stay up acknowledged the version; left alone when surely more than k are live, and only if they may be; the spare is the first free member; given up for want of one only if nobody sure is free; and migrated whenever it is at risk, somebody sure is free and the stripes can be rebuilt |
| `Repair.Scan` | internal/repair/repair.go:52-70 | goes through exactly the manifests in the local store at a moment of the call; each that names the offline peer is tried, and migrated if it must and can be; only manifests of those files are written, none naming that peer |
| `Repair.MoveNeverLowersReach` | internal/repair/repair.go:126-127 | for every stripe the count of slots reachable under the version rises by one with the move if the old holder was unreachable and else stays |
| `RepairRaces.MovePersistsExactly` | internal/node/blocks.go:108-119 | over every run: a slot moved in the version a peer stores is still moved there later if and only if nothing was written there since or the last version written has it |
| `RepairRaces.OverwritesExactly` | internal/repair/repair.go:126-142 | a repair sent over another version moves its one slot there if and only if that version agrees with the one in hand in all other slots |
| `RepairRaces.OverwriteNeverLowersReach` | internal/repair/repair.go:126-142 | then no stripe has fewer reachable slots than under the version overwritten, and one more if the slot's old holder was unreachable |
| `RepairRaces.LostMove` | internal/repair/repair.go:126-142 | for every file, two slots, spares, repairing nodes and a target: a run in which both moves are acknowledged and the target ends with the first slot back at its old holder |
| `RepairRaces.SpooledManifestUndoes` | internal/spool/worker.go:98-112 | for every file and slot: a run in which the spooled committed manifest, delivered after a repair, undoes its move |
| `SpoolStore.NameRoundTrip` | internal/spool/spool.go:78-140 | every kind and non-empty key comes back from its file name |
| `SpoolStore.NameIsTheItem` | internal/spool/spool.go:126-140 | a name is listed as an item exactly if it is that item's name |
| `SpoolStore.Spool.Write` | internal/spool/spool.go:69-95 | wherever it stops, every disk state on the way shows the queue as it was; success changes that one item in the last step |
| `SpoolStore.Spool.ListEntries` | internal/spool/spool.go:116-147 | exactly the queued items of the peer, each once, never a temporary file |
| `SpoolStore.Spool.Read` | internal/spool/spool.go:150-155 | the queued bytes of a listed item, an error for a missing one |
| `SpoolStore.Spool.Remove` | internal/spool/spool.go:158-168 | clears that item and nothing else, prunes an empty directory, is idempotent; a file that cannot be removed is reported and nothing changes |
| `SpoolStore.Spool.PendingPeers` | internal/spool/spool.go:98-112 | every peer with something queued, each once |
| `SpoolStore.PendingWithNothingQueued` | internal/spool/spool.go:97-112 | for every peer, a first write that stops at its rename leaves it pending with nothing queued |
| `SpoolStore.PendingExactly` | internal/spool/spool.go:69-168 | over every sequence of writes and removals: a peer is pending exactly if something written for it was not removed, or a write once stopped at its rename, or the last thing done was a write that broke off after its mkdir |
| `SpoolWorker.FlushShard` | internal/spool/worker.go:83-113 | an entry is removed only right after its acknowledged send; one that can be read is delivered unless the send is refused, and then is gone from the spool if the disk works |
| `SpoolWorker.FlushShards` | internal/spool/worker.go:79-115 | in order up to the first refusal, nothing after it touched; every entry gone through that can be read is delivered and, with a working disk, leaves the spool, and all are gone through while the peer stays up |
| `SpoolWorker.FlushManifests` | internal/spool/worker.go:79-115 | the same for manifests, each acknowledged in its committed version |
| `SpoolWorker.RemovedWasDelivered` | internal/spool/worker.go:103-113 | in every half pass each removal directly follows the acknowledged send of that entry, and only listed entries are sent |
| `SpoolWorker.StaysGone` | internal/spool/spool.go:158-168 | over every run an entry that is gone stays gone until it is queued again |
| `SpoolWorker.PassEmpties` | internal/spool/worker.go:79-115 | a pass through all entries, all readable and with a working disk, leaves nothing spooled for the peer unless something was queued meanwhile |
| `SpoolWorker.SpooledShardsArrive` | internal/file/file.go:186-208 | a manifest waits only behind its shards: once those that can be read are delivered, and all of the file's can, they have arrived |
| `SpoolWorker.FlushPeer` | internal/spool/worker.go:64-119 | lists exactly what is spooled at a moment of the call; does one half over the shards and, if that ended, one over the manifests, all of it in that order in the run; delivers every entry gone through that can be read, and removes it if the disk works, all of them while the peer stays up, which leaves the spool empty but for what is queued meanwhile; in the state in which it sends a manifest the peer has the file's shards, if those spooled can be read |
| `Ledger.Book.Record` | internal/ledger/ledger.go:88-113 | the merged view stays the fold of each peer's events, with this one added |
| `Ledger.Book.RecordPing` | internal/ledger/ledger.go:127-181 | between flushes, the answer is that of the peer's whole history, which `TransitionsExactly` and `PingTellsState` give in terms of its pings |
| `Ledger.Book.IsOnline` | internal/ledger/ledger.go:184-194 | between flushes, what the fold of the peer's events says, false for the unknown |
| `Ledger.Book.All` | internal/ledger/ledger.go:231-254 | each entry is the fold of some of its peer's first events, and of all that came before the call exactly if the peer was not dirty then or is dirty at the end |
| `Ledger.Book.Flush` | internal/ledger/ledger.go:212-228 | as one step: succeeds exactly if the disk refuses no dirty peer; a dirty peer's events survive exactly if it was written, else the ledger falls back to the disk; no other peer changes |
| `Ledger.FailedFlushForgets` | internal/ledger/ledger.go:212-228 | for every peer and event: recorded on a new ledger, it is gone if the first flush is refused |
| `Liveness.EntryTellsLiveness` | internal/ledger/ledger.go:127-181 | for every history: online iff ever seen with fewer than three failures since; `OfflineSince` is the time of the third, `LastPingAt` and `LastSeenAt` those of the last ping and success; reputation 100 at first, one more per success up to 100, five less per failure from the third straight one on, down to 0 |
| `Liveness.EntryIsDated` | internal/ledger/ledger.go:196-209 | the entry is that of the peer, updated at its last event |
| `Liveness.PingTellsState` | internal/ledger/ledger.go:175-180 | the answer to a ping has the liveness and the reputation that the history with this ping amounts to |
| `Liveness.FailuresCost` | internal/ledger/ledger.go:156-173 | n failures after a success cost 5(n-2) points, down to 0, whatever traffic lies between |
| `Liveness.SuccessesEarn` | internal/ledger/ledger.go:143-155 | n successes earn n points, up to 100 |
| `Liveness.TransitionsExactly` | internal/ledger/ledger.go:175-180 | offline reported exactly at the third straight failure after a success, online exactly at a success while offline that is not the first ping |
| `Liveness.TransitionsAlternate` | internal/ledger/ledger.go:127-181 | over every history the transitions strictly alternate and the last one tells the present state |
| `Liveness.OneReportPerOutage` | internal/ledger/ledger.go:127-181 | over every history exactly one "went offline" per outage |
| `LedgerRace.NewestIsFold` | internal/ledger/ledger.go:196-228 | after every interleaving the newest copy is the fold of the events it kept |
| `LedgerRace.ExactlyWhenEventsSurvive` | internal/ledger/ledger.go:196-228 | all events survive if and only if no record fell between a swap and its write or could not read the entry on disk, and no write failed, else some are gone |
| `LedgerRace.LostUpdate` | internal/ledger/ledger.go:196-228 | a run that loses sixteen bytes |
| `LedgerRace.UnreadForgets` | internal/ledger/ledger.go:256-259 | for all events: a flushed one is forgotten by the next record if that cannot read the disk |
| `LedgerObservers.ReportsAreTransitions` | internal/ledger/ledger.go:127-228 | over every interleaving with flushes that loses no events, what the pings report is the transitions of the history, in order |
| `LedgerObservers.OneScanPerOutage` | internal/heartbeat/heartbeat.go:99-111 | then reports strictly alternate, with exactly one repair scan per outage |
| `LedgerObservers.DoubledReport` | internal/heartbeat/heartbeat.go:99-111 | after every run on the brink of an outage, two failing pings around the swap of a flush are two reports of one outage |
| `LedgerObservers.BrinkIsReached` | internal/ledger/ledger.go:127-181 | such runs exist |
| `LedgerObservers.AnswerExactly` | internal/ledger/ledger.go:184-194 | with nothing lost, `IsOnline` answers by all events if the entry is dirty, else by those on disk, or by none if the read fails, and it is right exactly if the others leave the peer as it was |
| `LedgerObservers.AllExactly` | internal/ledger/ledger.go:231-254 | with nothing lost, the view accounts for first events only, and for all recorded before the call exactly if the peer is dirty at the end or everything was on disk at the beginning |
| `LedgerObservers.AllMissesFlushed` | internal/ledger/ledger.go:231-247 | every event recorded before the call is missing if a whole flush falls between the two reads |
| `Traffic.BothSidesAgree` | internal/node/blocks.go:61-165 | over every run and pair, with both ledgers flushed at any time: lossless ledgers give server = client + replies in flight or lost, puts and gets apart; a lossless server is never exceeded |
| `Traffic.RecordsBalance` | internal/node/blocks.go:73-82 | over every run, what the server recorded is what the client recorded plus replies in flight or lost |
| `Traffic.FoldCounter` | internal/ledger/ledger.go:88-113 | each of the four counters of an entry is the sum of the bytes of its own kind of event |
| `Traffic.ClientCanExceed` | internal/ledger/ledger.go:212-228 | with a failed flush at the server the client has sixteen bytes on record and the server none |
| `Rendezvous.PickIsTop` | internal/holders/holders.go:28-44 | with distinct weights the choice is the one descending list of the n heaviest |
| `Rendezvous.PickDistinct` | internal/holders/holders.go:28-44 | n pairwise different members, whatever the weights |
| `Rendezvous.PickOrderIndependent` | internal/holders/holders.go:12-13 | all nodes agree, in whatever order they list the members |
| `Rendezvous.JoinDisplacesAtMostOne` | internal/holders/holders.go:15-16 | a new member takes one place and pushes out at most the last |
| `Rendezvous.LeaveMovesOne` | internal/holders/holders.go:15-16 | a leaving non-holder changes nothing; a leaving holder is replaced by the next heaviest at the end, the others in order |
| `Rendezvous.IndexOf` | internal/holders/holders.go:49-59 | the first place in the ranking, -1 exactly for non-candidates |
| `Rendezvous.RankIsPlace` | internal/holders/holders.go:46-59 | a rank is below n exactly if the peer is chosen, and then it is its place |
| `Members.SyncRound` | internal/node/protocol.go:227-283 | the table is exactly what the offers, refused writes, joins meanwhile and a failed listing make it, in their order |
| `Members.RoundExactly` | internal/node/protocol.go:237-278 | whatever the order: a record that nothing touches stays, any other is one of the joins or proven offers that touch it |
| `Members.LastTakenWins` | internal/node/protocol.go:248-278 | the record left is that of the last item that takes: a join, or the first proven offer the store took |
| `Members.FirstProvenWins` | internal/node/protocol.go:253-273 | of several proven records about a new peer the first one offered is kept |
| `Members.SurvivesExactly` | internal/node/protocol.go:240-273 | a stored record survives if and only if nobody joins under that id and, unless it counted as known, no proven record of another peer is offered and taken |
| `Members.OverwrittenWhenUnlisted` | internal/node/protocol.go:240-245 | if the members could not be listed, every stored record gives way to any proven one offered; if they could, none does |
| `Members.RoundIsConfluent` | internal/node/protocol.go:237-278 | without mishaps, who is known afterwards depends only on which records were offered |
| `Members.SameOffersSameMembers` | internal/node/protocol.go:248-278 | the same offers, refusals and joins give the same members in every order of peers and lists |
| `Members.ProofSpreadsExactly` | internal/node/protocol.go:253-273 | exactly when a node has a proven record after a sync |
| `Members.ProvenRecordsSpread` | internal/node/protocol.go:215-226 | over every run records persist, none without proof is added, and exactly the nodes that the proof reaches past initially blocked ones have it |
| `Members.UnprovenRecordBlocks` | internal/node/protocol.go:254-256 | an unproven record in between, once stored, stops the proven one |

## Left out

- The insides of AES-GCM, the NaCl box, SHA-256, Ed25519 and Reed-Solomon; only what the named predicates say of them.
- libp2p, dialing, the DHT, address exchange, ping transport, deadlines and contexts: a call goes through, fails, or loses its reply.
- HTTP server and client, sessions, web UI, FUSE, configuration, command line and packaging.
- CBOR: records are values; a record that fails to decode on the local store is not modelled.
- Filenames: encrypting them in private mode, the owner's name index, and `List`.
- `resolveGroup`, group storage and invites: the group's key and members come in as parameters; `VerifyMembership` is a parameter too.
- 64-bit overflow of offsets, sizes and traffic counters; only `itoa` has its int64 edge case.
- `sort.Slice` with equal weights, whose order is unspecified: the ranking is a stable insertion, and results about order ask for distinct weights.
- The ledger that repair asks is not the `Ledger.Book` object: it answers as it likes but for the peers it is sure about or calls down.
- Ledger.Book.Record: reads of the store succeed; failed ones are in `LedgerRace`, `LedgerObservers` and `Traffic`. So for Ledger.Book.RecordPing and Ledger.Book.IsOnline.
- Ledger.Book.Flush: one step; the window between its swap and its writes is `LedgerRace` and `LedgerObservers`, for one peer and one flush at a time.
- Recovery.FetchSlot: that the local store is asked before the holder shows only in traffic, which is not part of the run here.
- Network.Cluster.EnqueueShard: a `Remove` that prunes the peer's directory between the mkdir and the temporary file of a write makes it fail with a working disk (`SpoolStore.PrunedUnderWrite`); that counts as a disk that does not work.
- SpoolStore: peer ids and keys are single path components; directories that cannot be read, and an empty one that cannot be pruned, are not modelled.
- `flushAll` and the tickers: which peers are tried and when; statistics and status displays.
- `blockstore.Delete`, `Has` and `HashStream`, which nothing in the core calls; `HolderForShard`.
- Crashes of a whole node; only the spool directory is modelled state by state.
