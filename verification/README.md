# Verified model of the Propagare messenger core

This project models the stateful components of Propagare, a Go messenger core, in Dafny 4.11 and proves
what each of them keeps over every run. One module, or a pair of modules, stands for one component. A module
named after a component holds its data, its operations and the class whose methods change state; a module
ending in `Runs` (or `AgentNetwork`, `NodeServer`, `MediaRetrieval`, `MediaNetwork`, `Publication`) holds the
theorems about whole runs and interleavings. `SchedulerResults`, `RegistryProvenance`, `AgentRules`, `ClientEviction` and
`GroupRoles` say what the operations mean for single packets, records and members, in terms of their fields and of the
steps of a run alone.

| component | modules | main results |
|---|---|---|
| constant-rate mix scheduler | `Scheduler`, `SchedulerRuns`, `SchedulerResults` | in every interleaving of Enqueue calls with Run: capacity, exactly one result per ticket, no blocking send, fail-closed end, slot cadence, when exactly a packet has left the queue, what each result says about the wire, a failure is final, and a waiting-time bound that some run meets for every position |
| signed node directory | `Directory`, `Admission`, `Registry`, `RegistryRuns`, `RegistryProvenance`, `Publication` | injective signing encodings, every stored lease was signed by the identity it is filed under, the exact condition under which every active record verifies throughout a run, merging is independent of order, snapshots are all or nothing and arrive whole |
| directory agents | `Agents`, `AgentRules`, `AgentNetwork` | across any number of agents and any network every lease of an agent comes from one of its own renewals, and a quorum of seeds that really probed stands behind every unpinned record |
| encrypted client store | `ClientStore`, `ClientEviction` | eviction is the least prefix of the eviction order, expired records first and then the oldest, accounting is exact, opening succeeds if and only if the protected records fit |
| node store | `NodeStore`, `NodeDisk`, `NodeRuns`, `NodeFetch`, `NodeServer` | the indexes agree with the items, a restart after any run restores exactly the unexpired items if and only if no unexpired file of a failed write was left behind, fetch truncation is exact, items leave early only by their delete capability |
| group state | `Group`, `GroupRuns`, `GroupRoles` | every reachable state is valid, exactly which actions are accepted and what they do, who can become owner or admin, no action is accepted twice |
| replicated write | `Work`, `Replication` | what leading zero bits mean, the least nonce, the best group for every map order, receipts between quorum and replicas |
| encrypted files | `Media`, `MediaRoundTrip`, `MediaRetrieval`, `ClientFetch`, `MediaNetwork` | encrypt, store, retrieve gives the same bytes or an error whatever the nodes return, and the exact condition for no error when every chunk is among the answers |
| direct calls | `Calls`, `CallRuns` | the replay cache outlives every offer, slots are counted exactly in every interleaving |
| item encodings | `Bytes`, `Wire`, `Items` | commitments, receipts and proofs are injective |

`Identities`, `Sorting` and `Totals` are shared vocabulary.

## How the model reads the code

* A mutex-protected section is one atomic step. Code between two sections of one call is where any other
  step may happen.
* Times are integers in nanoseconds. The encoders write whole milliseconds, rounded down, and this difference
  is modelled because it matters (see below).
* 64-bit counters wrap (`slots`, the work nonce); other integers are mathematical, with the code's own bounds.
* SHA-256, signatures, AES-GCM, identity checks, base64 checks and JSON sizes are function-valued parameters.
  No lemma assumes that SHA-256 is injective: a lemma that needs distinct digests names the values whose
  digests must differ (`NoCollision`).
* Clock readings, disk and network outcomes, random values and the moment a context is cancelled are
  parameters, so every contract holds for all of them.
* Go's map iteration is an arbitrary choice (`:|`), and `sort.Slice` promises order and contents only.
* A class method is specified by a function on the old state, and the run theorems are about those functions.

## Where a promise of the code fails, and exactly when it holds

* Union of attestations. Digits below the millisecond are in no signature. A record whose expiry is shifted by
  less than a millisecond still verifies and hashes the same, and its union with the stored record then fails
  `VerifyRecord` (`RegistryRuns.SubMillisecondShiftBreaksUnion`); two merges are enough to make a registry report
  an active record that does not verify (`RegistryRuns.ShiftBreaksRun`). A union verifies if and only if the stored
  attestations have the new expiry instant and were not observed too early (`RegistryRuns.CombinedValidIff`), and
  a registry reports only verifying records throughout a run if and only if every union it made did so
  (`RegistryRuns.AlwaysActiveIff`). Leases on whole milliseconds guarantee it
  (`RegistryRuns.AlignedIsUnambiguous`, `RegistryRuns.UnambiguousRunCarries`).
* A seed's own attestation. It verifies if and only if the attested lease ends on a whole millisecond and was
  not issued too far ahead (`Agents.AttestationVerifiesIff`); `Agents.UnalignedAttestationFails` gives
  announcements that are attested without it.
* Slot cadence. Slot `i` of a run is a poll if and only if six divides `i` modulo 2^64 (`SchedulerRuns.SlotCarries`).
  The slots after `q` wrap-arounds all keep the cadence of every sixth slot if and only if three divides `q`
  (`SchedulerRuns.CadenceAfterWrap`).
* Replayed offers. The time of `verifySignal` and the time of `acquire` are two clock readings. An offer that
  passes the first check and then waits can be let through again
  (`CallRuns.LateAcquireReplays`). A call ID is refused as a replay if and only if it was granted less than
  seven minutes before the reading inside `acquire` (`CallRuns.ReplayIff`), so an offer is never let through
  twice at readings before its own expiry (`CallRuns.OfferNotReplayed`).
* Restart of a node. A write that fails in its last sync is reported as failed and leaves its file, which a restart
  brings back as an item (`NodeRuns.StrayComesBack`). Only such writes leave a file without an item
  (`NodeRuns.PerformAll`). A restart restores exactly the unexpired items, for every directory order, if and only if
  every such file has expired (`NodeRuns.RestartExactIff`).
* Retrieval from many nodes. If the first node to answer sends valid items of the requested tags over the byte limit,
  the client's fetch fails, and with it the retrieval, whatever the other nodes hold
  (`MediaNetwork.OversizedAnswerFails`). A file whose chunks are all among the counted answers, where nothing offered
  collides with a chunk, comes back if and only if every batch finds one node that sends only what was asked for and
  the usable items of all nodes within the limits (`MediaNetwork.DeliveredIff`).
* Encrypted files. A manifest made by `EncryptFile` passes `validateManifest` if and only if no route tag and
  no ciphertext digest was drawn twice (`MediaRoundTrip.EncryptionValidIff`).

## Model

| member | source | states |
|---|---|---|
| `Bytes.BigEndianRoundTrip` | protocol/canonical.go:19-30 | reading a big-endian number undoes writing it, for every number that fits the width |
| `Bytes.LessIff` | nodedir/registry.go:147-150 | the string order is lexicographic: the first difference decides, and a proper prefix comes first |
| `Wire.FieldPrefixInjective` | protocol/canonical.go:19-30 | one write can be told apart from any other of its kind at the front of any longer buffer, and what follows it too |
| `Wire.PrefixInjective` | nodedir/types.go:377-399 | two buffers written with the same kinds of writes, followed by anything, agree only if every field and both remainders agree |
| `Wire.Injective` | nodedir/types.go:377-431 | writes of one shape determine their fields |
| `Directory.AnnouncementInjective` | nodedir/types.go:401-412 | announcements are signed over the same bytes exactly when they agree up to the millisecond |
| `Directory.SignatureInjective` | nodedir/types.go:394-399 | a hybrid signature's encoding determines both parts |
| `Directory.PreimageInjective` | nodedir/types.go:229-232 | the unseparated concatenation of announcement and signature that is hashed determines both |
| `Directory.AttestationInjective` | nodedir/types.go:414-422 | attestation encodings agree exactly when the attestations do, up to the millisecond |
| `Directory.ChallengeInjective` | nodedir/types.go:424-431 | challenge encodings agree exactly when the challenges do, up to the millisecond |
| `Directory.RecordInjective` | nodedir/registry.go:191-199 | within a snapshot, one record's bytes followed by anything determine the record, its attestations in order, and what follows |
| `Directory.RecordsInjective` | nodedir/registry.go:191-199 | a record list of known length is determined by its bytes |
| `Directory.SnapshotInjective` | nodedir/registry.go:185-201 | a snapshot signature commits to publisher, time, every record and every nested attestation |
| `Admission.NewPolicy` | nodedir/types.go:118-145 | accepted exactly for 1 to 16 distinct seeds with valid identities and canonical endpoints, a quorum among them and a limit of at most 512 nodes |
| `Admission.VerifyRecordAttestations` | nodedir/types.go:270-303 | succeeds exactly when announcement and every attestation verify and no authority repeats; the count is then the number of distinct trusted authorities |
| `Admission.VerifyRecord` | nodedir/types.go:251-263 | accepts exactly the partially valid records that are pinned or reach the quorum |
| `Admission.AppendIs` | nodedir/types.go:363-375 | after an append one attestation per authority remains, and the new one wins |
| `Admission.UnionIs` | nodedir/registry.go:65-71 | a union keeps all stored attestations, and received ones of other authorities |
| `Admission.UnionAuthorities` | nodedir/registry.go:65-71 | the authorities of a union are those of both sides, none lost |
| `Admission.TrustedBounded` | nodedir/types.go:270-303 | distinct trusted authorities never outnumber the seeds, so never exceed 16 |
| `Admission.ValidUntilExpiry` | nodedir/types.go:213-227 | a verified record keeps verifying until its lease ends |
| `RegistryProvenance.AcceptedIff` | nodedir/types.go:213-303 | a record is accepted exactly if its holder signed the lease, it is running, every attestation is a different seed's own, and the holder is a seed at its endpoint or a quorum of seeds attested |
| `Registry.MergeVerifiedRecord` | nodedir/registry.go:55-76 | the loop over stored attestations computes the merge: full, rollback, conflict, replace, or union |
| `Registry.VerifySnapshotHeader` | nodedir/registry.go:136-154 | accepts exactly a signed, fresh, bounded snapshot of the expected publisher with strictly increasing node IDs |
| `Registry.NodeRegistry.Merge` | nodedir/registry.go:43-53 | verified records merge, any error leaves the registry as it was |
| `Registry.NodeRegistry.MergeSnapshot` | nodedir/registry.go:156-183 | all or nothing: on success the fold of the merge over the records, on any error no change |
| `Registry.NodeRegistry.Active` | nodedir/registry.go:78-94 | exactly the unexpired records, each once, in strict node-ID order |
| `Registry.NodeRegistry.Sweep` | nodedir/registry.go:96-110 | exactly the expired records go, and the returned count is theirs |
| `RegistryProvenance.StoredWasSigned` | nodedir/registry.go:43-110 | over every run, at whatever times, each stored record is filed under the identity whose signature its lease carries, and came with an operation during that lease |
| `RegistryProvenance.SnapshotChanges` | nodedir/registry.go:136-183 | a snapshot changes a registry only if the expected publisher signed it recently over strictly ordered records that are all accepted |
| `RegistryProvenance.SnapshotStored` | nodedir/registry.go:136-183 | and such a snapshot fails only where merging one of its records would |
| `RegistryProvenance.AttestedIsStored` | nodedir/registry.go:43-76 | a signed, running lease attested by a quorum is stored wherever there is room and no later lease is known |
| `RegistryRuns.CombinedValidIff` | nodedir/registry.go:65-71 | the exact condition under which an equal-sequence union still verifies |
| `RegistryRuns.SubMillisecondShiftBreaksUnion` | nodedir/types.go:383-385 | a shift below the millisecond keeps record and hash valid and breaks the union |
| `RegistryRuns.ShiftBreaksRun` | nodedir/registry.go:43-76 | a record and its shifted copy, merged one after the other, leave an active record that does not verify |
| `RegistryRuns.AlignedIsUnambiguous` | nodedir/types.go:191-211 | leases on whole milliseconds without a collision: equal hashes mean equal announcements |
| `RegistryRuns.UnambiguousRunCarries` | nodedir/registry.go:43-110 | where equal hashes mean equal announcements, every union of every run carries |
| `RegistryRuns.MergeSoundIff` | nodedir/registry.go:55-76 | merging a verified record into verified records leaves the stored one valid now exactly when the union, if there is one, carries; then all stay verified and the node limit holds |
| `RegistryRuns.RunIsSound` | nodedir/registry.go:43-110 | over every run of Merge, MergeSnapshot and Sweep under a non-decreasing clock whose unions carried, every stored record was verified and the node limit holds |
| `RegistryRuns.ActiveRecordsVerify` | nodedir/registry.go:78-94 | after every such run each active record passes VerifyRecord at that moment |
| `RegistryRuns.AlwaysActiveIff` | nodedir/registry.go:43-110 | the condition is exact: every prefix of a run reports only verifying records if and only if every union it really made carried; refused records do not count |
| `RegistryRuns.SequenceNeverFalls` | nodedir/registry.go:55-76 | along a successful fold a stored sequence never falls and no node is forgotten |
| `RegistryRuns.StepSequence` | nodedir/registry.go:43-76 | the same for every single operation other than Sweep, failed ones included |
| `RegistryRuns.RunSequence` | nodedir/registry.go:43-76 | over every stretch of a run without a sweep a known node stays known and its sequence never falls |
| `RegistryRuns.MergeEachSummarises` | nodedir/registry.go:55-76 | from a registry that summarises what it was given, merging any list without hash conflicts leaves, per node, the highest lease and all its attesting authorities |
| `RegistryRuns.OrderDoesNotMatter` | nodedir/registry.go:55-76 | any order and any repetition of the same records, conflict-free by the code's own hash test, merged into registries that summarise the same set, ends with the same hash and authorities per node |
| `RegistryRuns.SameLeaseUpToMillis` | nodedir/registry.go:65-68 | entries of one hash agree in every field and in their signature up to the millisecond, unless their preimages collide |
| `RegistryRuns.SnapshotIsFold` | nodedir/registry.go:156-183 | a snapshot that merges into any registry equals merging its records one by one |
| `Publication.SignSnapshot` | nodedir/registry.go:112-134 | a snapshot is signed exactly for a bounded list without a repeated node, over its strictly sorted permutation |
| `Publication.SnapshotTransfers` | nodedir/registry.go:112-183 | a reader with the same policy turns an empty registry into exactly the publisher's unexpired records |
| `Publication.RunTransfers` | nodedir/registry.go:78-183 | the same for the snapshot taken after any run whose unions carried |
| `Agents.RenewedLeaseVerifies` | nodedir/agent.go:84-107 | every lease an agent signs verifies from a clock skew before its issue until it expires, despite truncation |
| `Agents.AttestationVerifiesIff` | nodedir/types.go:234-249 | the exact condition under which a seed's fresh attestation verifies |
| `Agents.UnalignedAttestationFails` | nodedir/agent.go:118-143 | every announcement that verifies and ends on a whole millisecond has a copy that a seed attests with an attestation that does not verify |
| `Agents.RenewalSequence` | nodedir/agent.go:84-107 | every new lease has a strictly higher sequence, at least the clock in milliseconds |
| `Agents.DirectoryAgent.Renew` | nodedir/agent.go:84-107 | a lease is renewed exactly when due and signable; record and sequence advance even if merging a pinned record then fails; success means that the own lease ends later than half its length from now |
| `AgentRules.RenewsIff` | nodedir/agent.go:84-107 | exactly when an agent can renew; a fresh lease is left alone, and after a renewal the lease is fresh, its own, and higher in sequence |
| `AgentRules.RenewalRegisters` | nodedir/agent.go:100-106 | the new lease of a seed enters its own registry unless that merge fails; another agent's registry is not touched |
| `Agents.DirectoryAgent.AcceptRegistration` | nodedir/agent.go:118-143 | an attestation is issued exactly when the source address is the announced one, the probe succeeded, the agent is an authority that can sign and the record is partially valid; it is returned unless a complete record fails to merge |
| `AgentRules.AttestsIff` | nodedir/agent.go:118-143 | a seed attests exactly a running lease signed by its holder, with attestations of seeds only, handed in from its own address and answering the probe |
| `Agents.DirectoryAgent.Adopt` | nodedir/agent.go:158-172 | a seed's answer is folded into the own record exactly when it is for the same announcement and verifies |
| `AgentRules.AdoptsIff` | nodedir/agent.go:158-172 | exactly which answers are taken, and which attestations the own record then holds |
| `AgentNetwork.StepSafe` | nodedir/agent.go:84-172 | no step of any agent, with any message the network can deliver, leaves the safe states |
| `AgentNetwork.RunSafe` | nodedir/agent.go:84-172 | every run of any number of agents stays safe |
| `AgentNetwork.AttestationVouches` | nodedir/agent.go:118-143 | an attestation in a registry by a seed running this code was issued by it over exactly that announcement, after address match and probe |
| `AgentNetwork.QuorumStandsBehindEveryRecord` | nodedir/agent.go:118-143 | after every run an unpinned record carries at least a quorum of distinct pinned seeds, each of which vouched for it |
| `AgentNetwork.LeasesComeFromTheirHolders` | nodedir/agent.go:84-172 | after every run a stored lease of an identity that runs this code was signed, up to the millisecond, by one of its own renewals when due |
| `Scheduler.MixScheduler.Reserve` | mixtransport/scheduler.go:132-143 | the first section of Enqueue: refused after the end of Run or when queue and reservations fill the limit |
| `Scheduler.MixScheduler.Commit` | mixtransport/scheduler.go:165-184 | the reservation becomes a queued packet, or an error if Run ended meanwhile |
| `Scheduler.MixScheduler.Start` | mixtransport/scheduler.go:195-205 | Run passes its guard only if it neither runs nor has ended |
| `Scheduler.MixScheduler.TakeSlot` | mixtransport/scheduler.go:255-269 | the slot counter wraps at 64 bits; the head is taken exactly in carrying slots |
| `SchedulerRuns.StepKeepsInvariant` | mixtransport/scheduler.go:125-313 | every step of every interleaving keeps capacity, results, phases, sizes and order |
| `SchedulerRuns.EveryReachableState` | mixtransport/scheduler.go:125-184 | queue and reservations never exceed the limit; tickets leave first in, first out; every packet on the wire has the fixed size |
| `SchedulerRuns.EveryTicketAnsweredOnce` | mixtransport/scheduler.go:242-313 | no ticket ever gets two results, and once Run has returned each has exactly one |
| `SchedulerRuns.SendNeverBlocks` | mixtransport/scheduler.go:242-313 | whenever a result is sent, its one-place channel is empty |
| `SchedulerResults.FailureEndsRun` | mixtransport/scheduler.go:195-299 | after a failed send, a failed poll or a cancellation nothing is sent, no slot is taken and no other failure follows, in every continuation; Run can return only that error |
| `SchedulerResults.FailureReachesQueue` | mixtransport/scheduler.go:301-313 | every ticket queued at any moment after the failure gets that error as its only result |
| `SchedulerResults.StopsBecause` | mixtransport/scheduler.go:195-240 | Run never ends without a failing step, and ends with the error of one |
| `SchedulerResults.SentIff` | mixtransport/scheduler.go:255-299 | a ticket is told "sent at t" if and only if a slot of time t took its unexpired packet and exactly its data went out without failure, and "failed with e" if and only if that send failed with e |
| `SchedulerResults.ExpiredIff` | mixtransport/scheduler.go:259-268 | a ticket is told that its command expired if and only if a slot took its packet after the expiry |
| `SchedulerResults.RunFailedBecause` | mixtransport/scheduler.go:301-313 | a ticket is told that the run failed only with the error of a step that ended it |
| `SchedulerResults.QueuedWasCommitted` | mixtransport/scheduler.go:160-184 | every packet ever queued carries ticket, expiry and data of one call of Enqueue |
| `SchedulerResults.TicketIff` | mixtransport/scheduler.go:132-184 | a call is turned away exactly if Run has ended or queued packets and preparing calls fill the queue; a prepared packet is queued exactly if Run has not ended |
| `SchedulerRuns.RunStartsOnce` | mixtransport/scheduler.go:195-205 | in a reachable state Run can start exactly if it never started |
| `SchedulerRuns.FailedForever` | mixtransport/scheduler.go:206-215 | after the queue was failed it stays empty for ever, no ticket is issued, and after the return nothing is sent |
| `SchedulerRuns.SlotCounter` | mixtransport/scheduler.go:255-269 | the counter is the number of slots taken, modulo 2^64 |
| `SchedulerRuns.SlotCarries` | mixtransport/scheduler.go:242-299 | in every run slot i is a poll exactly if 6 divides i modulo 2^64, which below 2^64 is i itself; otherwise it carries the unexpired head, else cover |
| `SchedulerRuns.CadenceAfterWrap` | mixtransport/scheduler.go:255-269 | all slots i with i / 2^64 = q are polls exactly if 6 divides i, if and only if 3 divides q |
| `SchedulerRuns.GoneStaysGone` | mixtransport/scheduler.go:255-269 | a ticket that left the queue never returns |
| `SchedulerRuns.LeavesAfter` | mixtransport/scheduler.go:255-269 | a packet is gone once more carrying slots have passed than packets stood before it |
| `SchedulerRuns.StaysUntil` | mixtransport/scheduler.go:255-269 | until then it moves up one place per carrying slot, as long as the queue is not failed |
| `SchedulerRuns.QueuedIff` | mixtransport/scheduler.go:255-269 | in such a run a packet is still queued if and only if no more carrying slots have passed than packets stood before it |
| `SchedulerRuns.WaitingTime` | mixtransport/scheduler.go:242-299 | the packet at position p is taken off within p + 2 + p/5 further slots |
| `SchedulerRuns.WaitingTimeIsTight` | mixtransport/scheduler.go:242-299 | for every queue limit and position there is a reachable state and a run of one slot fewer after which the packet is still queued |
| `ClientStore.ProtectedKinds` | client/store.go:604-644 | a valid record that may be pruned is not group state, and is of a disposable kind or expired |
| `ClientStore.EvictionOrder` | client/store.go:455-465 | the comparison is a strict weak order, so sorting by it is meaningful |
| `ClientEviction.PruningTakesOldest` | client/store.go:445-502 | however pruning ends, a removed record is disposable, and against every disposable one that stays: expired if that one is, else created no later, else with the smaller ID |
| `ClientEviction.NoneTooMany` | client/store.go:466-502 | an undisturbed pruning removes none too many: without its last removal a target would be missed |
| `ClientEviction.PutTakesOldest` | client/store.go:250-296 | a write is refused for lack of room exactly if the records that may not be evicted leave none; what it evicts goes in that order, never the old version, and on success both budgets hold |
| `ClientEviction.ValidIff` | client/store.go:604-668 | exactly which records are valid, kind by kind and policy by policy |
| `ClientEviction.NormalizedIs` | client/store.go:590-602 | exactly the digits below the millisecond go; missing times are filled in or stay missing |
| `ClientEviction.RememberedAs` | client/store.go:590-602 | the entry of a record keeps its ID, kind, policy and truncated times, and is charged its file and four kilobytes |
| `ClientEviction.PutReachesBudgets` | client/store.go:250-275 | a write gets as far as the budgets exactly with a live context, an open store, a valid record and a sealed form within the limit |
| `ClientStore.LeastPrefixUnique` | client/store.go:445-502 | there is only one shortest prefix that meets both targets |
| `ClientStore.CountNeeded` | client/store.go:474-479 | the counting loop stops at the first prefix that meets both needs |
| `ClientStore.LeastCount` | client/store.go:466-479 | where it stops is the least prefix of the eviction order |
| `ClientStore.Choose` | client/store.go:466-482 | nothing is chosen exactly when removing every eligible record would not do |
| `ClientStore.PruningSpares` | client/store.go:674-679 | no outcome removes the excluded record or an unexpired record without PruneOldest |
| `ClientStore.EncryptedStore.DeleteMeta` | client/store.go:504-511 | one removal lowers the usage by exactly that record's charge |
| `ClientStore.EncryptedStore.PruneToLocked` | client/store.go:445-502 | exactly the least prefix goes; a full store is reported if and only if nothing would help, and then nothing goes; an interrupted run removed a prefix |
| `ClientStore.EncryptedStore.Put` | client/store.go:250-296 | a write is refused, makes exactly the room it needs, or fails without the record; usage stays exact and within both budgets |
| `ClientStore.EncryptedStore.Delete` | client/store.go:323-345 | the record goes if and only if its file could be removed, also when the final sync then fails; every error in the code's order |
| `ClientStore.EncryptedStore.PruneTo` | client/store.go:347-362 | pruning on demand keeps the accounting exact in every outcome |
| `ClientStore.EncryptedStore.SetLimit` | client/store.go:364-384 | the new limit takes effect exactly when pruning reached it |
| `ClientStore.EncryptedStore.Open` | client/store.go:157-240 | for every directory order, opening succeeds if and only if the protected records fit both limits alone; the store is then open and all of them survive |
| `ClientEviction.OpenedKeeps` | client/store.go:157-240 | after opening, every record of the directory that may not be evicted is there, and nothing that is not in it |
| `ClientStore.EncryptedStore.Close` | client/store.go:395-413 | a closed store holds nothing and stays consistent |
| `ClientStore.ProtectedFits` | client/store.go:208-235 | a loaded store within its budgets shows that the protected records fit |
| `ClientStore.LoadFails` | client/store.go:208-235 | a load that cannot prune enough shows that the protected records do not fit |
| `Items.CommitmentInjective` | protocol/canonical.go:32-42 | item commitments agree exactly when every committed field does |
| `Items.ReceiptInjective` | protocol/canonical.go:95-103 | storage receipts are signed injectively, up to the millisecond |
| `Items.DeleteReceiptInjective` | protocol/canonical.go:105-111 | delete receipts are signed injectively, up to the millisecond |
| `Items.ProofInjective` | protocol/canonical.go:113-123 | storage proofs are signed injectively, up to the millisecond |
| `Items.HexInjective` | protocol/canonical.go:44-47 | the hexadecimal item ID determines the digest |
| `Items.ItemIdCommits` | protocol/canonical.go:44-47 | items with one ID agree in all committed fields, the delete-token hash included, unless their commitments collide |
| `Items.ValidUntilExpiry` | protocol/canonical.go:57-81 | an accepted item stays acceptable exactly until it expires |
| `NodeStore.AddedIsIndex` | node/store.go:184-194 | updating the four indexes in place gives the indexes of the larger item map |
| `NodeStore.DroppedIsIndex` | node/store.go:301-310 | the same for removal, with no empty route entry left behind |
| `NodeStore.FitsIff` | node/store.go:215-222 | the indexed quota test admits an item exactly when the contents with it are within all four limits |
| `NodeStore.ChargeIs` | node/store.go:171-176 | every stored item is charged its encoding and four kilobytes |
| `NodeStore.SmallerWithinLimits` | node/store.go:84-134 | any part of contents within the limits is within them |
| `NodeDisk.ProtocolCheckStable` | protocol/canonical.go:57-81 | the item check of the protocol meets the stability the store relies on |
| `NodeDisk.DiskStore.Put` | node/store.go:196-232 | every error in the code's order, an item already present changes nothing, the indexes stay exact, and a write that fails in its last sync leaves the file and nothing else |
| `NodeDisk.PutAcceptsIff` | node/store.go:196-232 | an item is taken exactly by an open store if it is valid and already there, or small enough with all four limits kept and a successful write |
| `NodeDisk.AdmitIff` | node/store.go:218-226 | which limit is named when the contents with the new item would break one |
| `NodeDisk.DiskStore.Get` | node/store.go:234-245 | exactly the unexpired items of an open store are found |
| `NodeDisk.DiskStore.Delete` | node/store.go:284-312 | item and file go if and only if the file could be removed, also when the final sync then fails; every index stays exact |
| `NodeDisk.DiskStore.Sweep` | node/store.go:314-348 | exactly the unexpired items and their files remain unless a removal fails, and then no unexpired item is lost; a failed final sync is reported exactly if something was removed |
| `NodeDisk.DiskStore.Restore` | node/store.go:84-134 | one file of the rebuild is kept exactly when readable and within quota |
| `NodeDisk.RestoreFits` | node/store.go:84-134 | in a directory left behind exactly the unexpired files are readable, and if they are within the limits together each fits at its turn |
| `NodeDisk.RebuiltAll` | node/store.go:84-134 | then every directory order brings back exactly the unexpired files |
| `NodeDisk.OpenStore` | node/store.go:49-141 | opening succeeds exactly for sensible limits and gives an open store with those limits, whose directory holds its items and nothing else, and whose items are what the rebuild loop keeps |
| `NodeDisk.Restart` | node/store.go:84-134 | a restart at any later moment brings back exactly the unexpired files if those are within the limits, and exactly the unexpired items if no failed write was left behind, into an open store with the same limits |
| `NodeRuns.PerformAll` | node/store.go:196-348 | over any sequence of Put, Delete and Sweep, failed ones included, the only files without an item are those of writes that failed in their last sync |
| `NodeRuns.RunAndRestart` | node/store.go:84-348 | any calls without such a write and then a restart, for any directory order: exactly the unexpired items come back, into a store from which the same can be done again |
| `NodeRuns.RestartExactIff` | node/store.go:84-134 | a restart restores exactly the unexpired items for every directory order if and only if every file without an item has expired |
| `NodeRuns.StrayComesBack` | node/store.go:223-231 | an item whose write was reported as failed is there after a restart |
| `NodeFetch.CollectRoute` | node/store.go:262-275 | one route adds exactly its unexpired unseen items, or stops at one that overflows |
| `NodeFetch.OverflowExceeds` | node/store.go:266-269 | an item beyond a collected part shows that all matching items together exceed a limit |
| `NodeFetch.FetchLimited` | node/store.go:247-282 | truncation is reported exactly when the matching items exceed a limit in total, whatever the order and repetition of tags; otherwise each comes once, oldest first |
| `NodeServer.RunSound` | node/server.go:243-388 | over every interleaving of store, sweep and the two halves of a delete, each stored item carries its own computed ID, and each pending delete holds a token for the item it looked up |
| `NodeServer.LeavesOnlyByCapability` | node/server.go:353-388 | an accepted item leaves before expiry only by a request whose token hashes to its own delete-token hash, even if it was replaced between lookup and removal |
| `NodeServer.HolderDeletes` | node/server.go:353-388 | whoever holds the token of an unexpired item deletes exactly that item |
| `NodeServer.OthersDoNot` | node/server.go:353-375 | a request without it changes nothing |
| `NodeServer.StoreAndSweep` | node/store.go:196-348 | an admitted valid item is stored and never replaces another; a sweep leaves exactly the unexpired ones |
| `Group.CheckState` | group/state.go:206-238 | the owner-counting walk accepts exactly the valid states |
| `Group.GroupHandle.Apply` | group/state.go:106-204 | an accepted action moves to the next state, a rejected one changes nothing |
| `GroupRoles.AcceptedIff` | group/state.go:106-204 | in a valid state an action is accepted exactly if it continues the state, is authentic, and the ranks of actor and subject permit it; removing and banning only go down the ranks |
| `GroupRoles.SubjectAfter` | group/state.go:132-204 | what an accepted action makes of its subject, kind by kind, and that nobody else changes but the old owner of a transfer |
| `GroupRoles.BannedNeverActs` | group/state.go:106-204 | in every run, who was banned, removed or never in acts again only after an accepted action added them anew |
| `GroupRoles.ValidIff` | group/state.go:206-238 | exactly which states are valid |
| `GroupRuns.GenesisValid` | group/state.go:67-85 | every group starts valid |
| `GroupRuns.OwnersAfter` | group/state.go:132-199 | an accepted edit leaves exactly one owner: the subject of a transfer, or the same as before |
| `GroupRuns.TransitionValid` | group/state.go:106-204 | every accepted action leads to a valid state one epoch later |
| `GroupRuns.RunValid` | group/state.go:106-238 | every reachable state is valid, has one owner and at most 1000 members, and its epoch counts the accepted actions |
| `GroupRuns.OwnershipMoves` | group/state.go:106-204 | ownership moves only by an authentic transfer of the then-owner to an active member; a self-transfer changes no role |
| `GroupRuns.AdminsComeFromOwners` | group/state.go:106-204 | without delegation every admin got the role by an owner's grant or by handing ownership over, and kept it since |
| `GroupRuns.ActionFitsOneState` | group/state.go:106-114 | two replicas that accept one action were in the same state and end in the same state |
| `GroupRuns.NoReplay` | group/state.go:106-114 | an accepted action is refused for ever after |
| `Work.HasLeadingZeroBits` | protocol/pow.go:25-41 | the byte loop accepts exactly when the difficulty is at most the bit length and the big-endian value is below 2^(8n-d) |
| `Work.ZeroByteNeeded` | protocol/pow.go:25-41 | each whole byte of the difficulty demands a zero byte |
| `Work.PartialByteDecides` | protocol/pow.go:25-41 | the last bits are decided by one byte alone |
| `Work.SolveWork` | protocol/pow.go:60-79 | the least solving nonce is returned if one lies among those tried, and nothing is returned only if none does |
| `Work.SolvedWorkVerifies` | protocol/pow.go:43-58 | solved work passes exactly where no more is asked and the epoch number differs by at most one |
| `Work.WorkVerifiesIff` | protocol/pow.go:43-58 | a node accepts work exactly within its bounds, for a neighbouring epoch, if the digest as a number is below 2^(256 - difficulty) |
| `Work.EpochIs` | protocol/pow.go:49-52 | the epoch number counts whole epochs, rounded towards the Unix epoch |
| `Work.WorkKeepsItemId` | protocol/canonical.go:32-47 | attaching work does not change the item ID |
| `Replication.Configure` | client/core.go:47-80 | replica count and quorum defaults, with 1 <= quorum <= replicas <= nodes, and the exact refusals, invalid descriptors included |
| `Replication.GroupByEpoch` | client/core.go:230-243 | each epoch length maps to its suitable answers in arrival order |
| `Replication.GroupCounts` | client/core.go:230-243 | a group has as many nodes as answers of that length whose item limit the payload keeps, and as many below any difficulty |
| `Replication.ThresholdUnique` | client/core.go:258-259 | the quorum-th lowest difficulty is a property of the group, not of its order |
| `Replication.SortedThreshold` | client/core.go:248-258 | in a sorted group the node at the quorum's position is that threshold |
| `Replication.SelectGroup` | client/core.go:244-266 | for every map order a largest group with the lowest threshold is chosen, none only if none reaches the quorum |
| `Replication.BestUnique` | client/core.go:244-266 | size and threshold of the choice do not depend on the map order |
| `Replication.AffordableIs` | client/core.go:267-272 | the usable nodes are exactly those asking no more than the threshold, each once, in order of cost |
| `Replication.WriteReplicas` | client/core.go:285-322 | distinct receipts, as many as the smaller of the replica count and the storing nodes; a shortfall means every usable node was tried |
| `Replication.ChooseNodes` | client/core.go:244-272 | none exactly if no epoch length has a quorum of answers with room for the payload; otherwise a largest such set, the least threshold among those of its size, and all its nodes asking no more |
| `Replication.StoreReplicated` | client/core.go:194-336 | refused exactly for an invalid item or token; no group exactly if no epoch length has a quorum of answers with room for the payload; every receipt is from an answer with room that asks for no more than the solved work and stored the item; between quorum and replicas of them, tried in order, or the quorum is missed because fewer store |
| `Media.BaseNameIdempotent` | media/file.go:62-67 | the stored base name is its own base name, as validation demands |
| `Media.PaddingUndone` | media/file.go:99-105 | length prefix and filler come off exactly |
| `Media.ChunkCountIs` | media/file.go:279-283 | ceiling division counts the rounds of the chunk loop exactly |
| `Media.EncryptFile` | media/file.go:49-130 | accepted exactly for admissible metadata and sizes; every chunk and its metadata encrypt exactly its slice |
| `Media.ValidateManifest` | media/file.go:267-303 | the seen-sets accept exactly valid headers, counts and chunks with distinct tags and digests |
| `Media.DecryptFile` | media/file.go:132-182 | the loop returns the joined plaintexts exactly when every chunk is present, intact, authentic and well padded and the size matches |
| `MediaRoundTrip.EncryptionValidIff` | media/file.go:267-303 | an encrypted file's manifest is valid exactly when tags and digests are distinct, and every payload fits the item limit |
| `MediaRoundTrip.FreshDrawsSuffice` | media/file.go:106-127 | distinct nonces and tags without a digest collision are enough for that |
| `MediaRoundTrip.RoundTrip` | media/file.go:49-182 | decrypting what was encrypted gives back the file, byte for byte |
| `MediaRoundTrip.DecryptionUnique` | media/file.go:132-182 | whatever ciphertexts arrive, a manifest decrypts to at most one file |
| `MediaRetrieval.BatchFits` | media/file.go:228-232 | for every valid manifest the batch size is positive, at most 256, and within 8 MiB of chunks |
| `MediaRetrieval.Gather` | media/file.go:233-248 | every tag is asked for once and in order, in bounded batches, until a fetch fails |
| `MediaRetrieval.AskableAdmitted` | client/core.go:338-351 | every batch of the file's tags passes the argument checks of a fetch |
| `MediaRetrieval.Retrieve` | media/file.go:216-265 | every call passes the argument checks of a fetch and stays within both limits; deletion is asked for only after the file was rebuilt, once per chunk with that chunk's token |
| `MediaRetrieval.RetrievalIsFaithful` | media/file.go:216-265 | whatever nodes return, a retrieval that succeeds returns the stored file |
| `MediaRetrieval.RetrievalSucceeds` | media/file.go:216-265 | if every batch asked for brings its chunks, in any order and among anything else, the file comes back |
| `MediaRetrieval.FailedBatchFails` | media/file.go:233-238 | one failed batch fails the retrieval |
| `MediaRetrieval.EndToEnd` | media/file.go:49-265 | encrypt, store, retrieve: the result is the caller's bytes or an error, and no error if the chunks are served |
| `ClientFetch.CheckTags` | client/core.go:338-351 | the argument loop accepts exactly 1 to 256 valid tags without repetition |
| `ClientFetch.Combine` | client/core.go:352-390 | the loop over the nodes keeps the first item of every ID, and gives up exactly when all usable items together exceed 512 items or 8 MiB |
| `ClientFetch.Fetch` | client/core.go:338-402 | nothing for refused arguments, exceeded limits, or if every node failed or sent something unwanted; otherwise every usable item once, oldest first |
| `MediaNetwork.HonestFits` | media/file.go:228-232 | one batch of the file's stored items never exceeds the combined limits of a fetch |
| `MediaNetwork.HonestBatch` | client/core.go:338-402 | a fetch over nodes that fail or return stored items only, and together hold every one, returns exactly the chunks of the batch |
| `MediaNetwork.HonestNodesDeliver` | media/file.go:216-265 | through the client's own fetch, a file comes back whole if every node fails or returns stored items of the requested tags only, and together they hold every chunk |
| `MediaNetwork.KeptIsChunk` | client/core.go:366-385 | whoever sends it first, what a fetch keeps under a chunk's ID is that chunk, because the ID commits to it |
| `MediaNetwork.DeliveredIff` | client/core.go:338-402 | for arbitrary answers that include every chunk and collide with none, the file comes back if every batch has one clean answer and stays within the combined limits, and otherwise the retrieval fails |
| `MediaNetwork.OversizedAnswerFails` | client/core.go:375-381 | if the first answer holds valid items of requested tags over the byte limit, fetch and retrieval fail, whatever the other nodes send |
| `Calls.LapsesBeforeForgotten` | call/call.go:582-585 | an offer that passes the time window has lapsed when its call ID may be forgotten |
| `Calls.OfferIff` | call/call.go:566-600 | an offer is taken exactly if its signer is its initiator and the receiver its responder, in time and well formed |
| `Calls.AnswerIff` | call/call.go:566-600 | an answer is taken exactly if its signer is the responder and the receiver the initiator |
| `Calls.Endpoint.Expire` | call/call.go:484-488 | the loop over the cache drops exactly the expired call IDs |
| `Calls.Endpoint.Acquire` | call/call.go:480-505 | replay, cache limit and concurrency limit in the code's order; only a grant takes a slot and remembers the ID |
| `Calls.Endpoint.Accept` | call/call.go:277-342 | a session exactly for a verified offer, a grant and a working setup; it then names the remote as initiator and this endpoint as responder; a failed setup gives the slot back but keeps the call ID |
| `Calls.Endpoint.Start` | call/call.go:212-273 | a session exactly for a valid other identity, some medium, a free slot and a working setup, and no slot kept otherwise |
| `Calls.Session.Close` | call/call.go:395-413 | the first Close gives the slot back whatever closing the peer connection reports, every later one does nothing |
| `Calls.Session.ApplyAnswer` | call/call.go:347-367 | an answer is applied exactly if the responder of the own call signed it in time, on an open caller session without one |
| `CallRuns.SlotsAlwaysCounted` | call/call.go:480-513 | in every interleaving the counter is setups in flight plus sessions holding a slot, and within the limit |
| `CallRuns.ReleaseIsExact` | call/call.go:395-413 | no release is lost to the zero guard and none happens twice |
| `CallRuns.AlwaysRemembers` | call/call.go:480-505 | in every interleaving the cache holds exactly the grants of the last seven minutes, each with its expiry, and at most 4096 |
| `CallRuns.ReplayIff` | call/call.go:480-505 | a call ID is refused as a replay exactly when it was granted less than seven minutes ago |
| `CallRuns.GrantsApart` | call/call.go:480-505 | two grants of one call ID lie at least seven minutes apart |
| `CallRuns.OfferNotReplayed` | call/call.go:582-585 | an offer once let through is refused at every later reading before its expiry |
| `CallRuns.LateAcquireReplays` | call/call.go:277-284 | a concrete run in which a delayed acquisition lets the same offer through twice |
| `CallRuns.OneAnswerEach` | call/call.go:347-367 | over every run a session takes at most one answer, and only the caller's |
| `CallRuns.AnswerAppliedIff` | call/call.go:347-367 | an acceptable answer is applied exactly to an open session of the caller without one, and nothing else changes |
| `CallRuns.SetupOpens` | call/call.go:465-478 | a setup that succeeds becomes an open session without an answer and keeps its slot |
| `CallRuns.CloseFreesOne` | call/call.go:395-413 | closing an open session frees exactly one slot, and nothing frees a second one for it |

## Left out

* HTTP clients and servers, JSON decoding, TLS, certificates and the WebRTC, SDP and ICE handling of calls.
* The cryptographic primitives, base64 and base32 text checks and endpoint canonicalisation, which are parameters.
* Account registration, profiles, the message pipeline, reputation scores, configuration files and padding, which are mostly field checks.
* File locks, permissions, temporary files and fsync order; a directory is a map from names to records.
* Wall-clock pacing of the scheduler's Run (timers, lateness, dispatch budget): any slot may be the last.
* `SyncOnce` as one call: its renewal, registration answers and snapshot merges are separate steps of `AgentNetwork`, in any order.
* `Audit`, `AuditAndRepair` and `Delete` of the client core.
* Reading and sealing single records of the client store; sealing failure and file size are parameters of `Put`.
* The contents of the failure map of `StoreReplicated`, and the reputation updates of its and of `Fetch`'s loops.
* The rate limiter of the directory endpoints in node/server.go.
- Registry.NodeRegistry.MergeSnapshot: the copy of the record map is a value, so aliasing between copies is not modelled.
- NodeDisk.DiskStore.Put: the four derived indexes are one field holding four maps and totals, updated together.
- NodeRuns.PerformAll: the calls of a run are given as a list and made one after the other, as the store's lock makes them.
- ClientStore.EncryptedStore.Open: reads a directory without I/O errors, invalid files or failing removals.
- ClientStore.EncryptedStore.Put: the directory is not represented, so neither is the file of a write that failed in its last sync.
- NodeDisk.OpenStore: reading errors, files that cannot be removed and a failing final sync are not represented.
- Scheduler.MixScheduler.Commit: packet bytes are values, so wiping them after use is not modelled.
- Media.EncryptFile: failing random sources and wiping of buffers are not modelled.
- MediaRetrieval.Retrieve: the per-node report of the deletions is not modelled, only the requests and their order.
- Calls.Session.Close: the session timer is not modelled; its firing is a Close at any moment.
- AgentNetwork.RunSafe: signatures are not forged (an attestation or announcement that verifies under an agent's identity was signed by that agent); nothing is assumed about loss, order or repetition of messages.
