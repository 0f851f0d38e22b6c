# Muster: a verified model of its lease store, election, supervisor, promises and codecs

Muster is a container entrypoint. Its replicas elect one bootstrapper through a leased key/value store and then
each supervises its workload. This project models the parts whose correctness depends on what several actors do
at once or over a whole run, and proves what they guarantee. `dafny verify dfyconfig.toml` checks all of it.

**The store** (`lease*`, `memkv`, `dynamo*`, `prefix`, `docid`, `firestore`, `gcs*`). `Lease.Reference` is the contract of
`provider.KVStore` as one atomic operation on one key, with two parameters: which clock judges liveness, and how
a lease is rounded when it is stored. The in-memory, DynamoDB and Firestore stores are classes over a mutable map
whose every method is proved equal to that operation; `LeaseLaws` says what that operation promises in terms of what
its callers see, their arguments and the answers so far, over every run; runs of DynamoDB requests, delayed on their way and mixed with
the service's own TTL deletion, have their theorems in `DynamoRun`. Cloud Storage builds it from separate server requests, so it
is a state machine: one object, a server clock, any number of calls in flight, one request or clock reading per
step, clocks within a skew bound, generations never reused, and the bucket's lifecycle rule. `GcsClient` is the
client code statement by statement, with arbitrary steps of other calls before each request; every method is proved
to make exactly the steps of one call of the machine, so the theorems about runs are theorems about that code;
`GcsAnswers` says for every operation exactly when it answers what.

**The election** (`election*`, `gcs_election`). A machine of any number of replicas of `pd.star` over a store whose
positive answers are atomic, whose negative answers may come for no reason, and whose leases begin and are judged by
clocks within a skew. The script's functions are methods that make exactly the machine's steps. `ElectionStore` proves,
request by request, that for whatever a backend answers the machine has a step with the same answer and effect;
`GcsElection` proves the two main results once more over whole runs of Cloud Storage itself, without the machine.

**The supervisor** (`supervisor_trace`, `supervisor`). An automaton says which events may follow which; theorems
hold of every trace it accepts; the loop of `spawn.go`, as a class with nondeterministic callbacks, exits, `select`
and outside requests, is proved to leave only such traces, whatever the number of passes.

**Promises** (`promise`, `combinators`, `waitloop`). The promise's methods, the interleavings of their critical
sections, the combinator loops for every order of settlement, and the poll loop.

**Codecs** (`docid`, `grpc_health`, `execout`). Document ids, the gRPC health frame, and the transcript fence, each
with its round trip.

## What the proofs found

Where the code and its comments disagree, the model follows the code.

- Cloud Storage, internal/provider/gcp/kv.go:135-138: the comment says an object that cannot be read at its
  generation was "deleted between the two calls". It may also have been overwritten, and a `Get` can so miss a key
  that is live at every instant (`GcsWeakness.GetMissesALiveKey`): it does exactly when the object changed after its
  attribute read (`GcsTheorems.BodyReadMissesIff`).
- A `PutIfAbsent` can be refused though nothing is ever live (`GcsWeakness.DeleteRaceRefusesAClaim`): with nothing
  live during the call, exactly when the entry its create request met is removed before the call is over
  (`GcsTheorems.DeadKeyRefusedIff`).
- Swaps and renewals judge the lease at their read. They are atomic at their write exactly when the lease has not
  lapsed in between (`GcsTheorems.WriteIsAtomicUnlessLapsed`).
- A positive ttl below one millisecond is stored as zero by both Google Cloud stores and reads back as a permanent
  key (`Lease.PositiveTtlIsALease`, `GcsTheorems.LeaseReadsBackIff`).
- The lifecycle rule that `-kv-create` installs deletes objects a day after their last write. It removes permanent
  keys, and leases longer than a day, while they are live (`GcsTheorems.LifecycleRuleSparesLiveLeasesIff`).
- DynamoDB: for the one second in which `expires_at == now`, a key is neither live nor claimable
  (`DynamoKv.ClaimableIffNotLive`). Once the service has reaped a lapsed item, a claim sent long before and delayed on
  its way succeeds: a lease bounds when another claim is served, and when it was sent only as long as the item is
  there (`DynamoRun.DelayedClaimAfterReap`, `DynamoRun.EarlyClaimSucceedsIffReaped`).
- Firestore document ids are reversible for keys of valid UTF-8 only: bytes that are not come to the loop as U+FFFD,
  and keys that differ in nothing else share a document (`DocId.SameDocumentIff`, `DocId.InvalidKeysCollide`).
- pd.star:184-186 calls the release of an abandoned seed conditional on the value judged. `kv_delete` treats
  `if_value = None` as unconditional, and the second `kv_get` of `await_seed` may return `None`; the release then
  ends whoever's epoch is current (`Election.ReleaseEndsAnothersEpochIff`). When it does name an address, the epoch
  it judged has by then always lapsed, and a live epoch, always a later one, is ended exactly when the same address holds it
  (`Election.NamedReleaseEndsALiveEpochIff`, `Election.ReleaseEndsALaterEpochOfTheSameHolder`).
- `spawn()`: the `respawn_count` a script gets is the number of backoffs since the last counter reset, not of all
  respawns (`SupervisorTrace.ReportedCountIsSinceReset`,
  `SupervisorTrace.ExitReportsFewerThanRespawns`); lost health restarts the workload even with respawn
  disabled (`Supervisor.Supervisor.GoRound`).
- A cancel that is recorded after a failed task has looked at the flag does not stop the task's promise from
  rejecting (`Promises.FailedTaskRejectsIffUncancelledWhenItLooked`, `Promises.LateCancelStillRejects`).
- The gRPC parser can go round forever over a length of about 2^64 (`GrpcHealth.OversizedLengthNeverEnds`); it returns
  on every message whose lengths fit in int (`GrpcHealth.TerminatesIfLengthsFit`).

## Model

| member | source | states |
|---|---|---|
| Lease.PositiveTtlIsALease | internal/provider/kv.go:13-14 | a positive ttl records a lease, on the stores that keep milliseconds if and only if it is at least one |
| Lease.PermanentKeyPersists | internal/provider/kv.go:16-25 | over any run, only a delete or a successful swap changes a permanent key: no claim takes it and no renewal turns it into a lease |
| Lease.ExactlyOneWinsTheRace | internal/provider/kv.go:8-11 | of any number of claims of a free key, served in any order while the first winner's lease runs, exactly the first succeeds, and the key holds its value |
| Lease.HeldUntilTaken | internal/provider/kv.go:26-41 | until it is taken, a granted key keeps value and holder over any run, and its expiry is the one its last write (grant or last successful renewal) recorded |
| Lease.NextClaimWaits | internal/provider/kv.go:27-29 | the claim that ends a tenure comes no earlier than last write + lease, less a fast clock's lead and less than one unit of storage; exactly not earlier for whole units |
| LeaseLaws.StoreHoldsItsHistory | internal/provider/kv.go:26-41 | after any calls on an empty store the key holds exactly what the answers said: the last claim or swap granted and not deleted, its owner, and the expiry of its last write |
| LeaseLaws.ClaimLaw | internal/provider/kv.go:27-29 | a claim succeeds if and only if nothing was put there and stands |
| LeaseLaws.SwapLaw | internal/provider/kv.go:30-31 | a swap succeeds if and only if something stands that was put there with the value it names |
| LeaseLaws.GetLaw | internal/provider/kv.go:32-34 | a read finds the value put there last, as long as it stands, and nothing else |
| LeaseLaws.DeleteLaw | internal/provider/kv.go:19-24 | a delete without a value always succeeds; one with a value if and only if that value was put there last, lapsed or not, so never on a missing key |
| LeaseLaws.RenewLaw | internal/provider/kv.go:38-40 | a renewal succeeds if and only if a lease stands and the caller is the one it was granted to |
| LeaseLaws.OnlyYesChanges | internal/provider/kv.go:26-41 | any answer but yes leaves the key as it was |
| LeaseLaws.OneSwapWinsTheRace | internal/provider/kv.go:30-31 | of any number of swaps from one value to others, in any order, exactly the first succeeds, and its value, owner and lease are then there |
| LeaseLaws.TheWinnerHolds | internal/provider/kv.go:30-40 | while that lease runs a read finds that value, and of all callers only the winner can renew it |
| KeyPrefix.SameKeyIff | internal/provider/aws/kv.go:39-44 | under one prefix two keys are one exactly when they are equal |
| KeyPrefix.SharedIff | internal/provider/aws/kv.go:39-44 | stores of different prefixes use one key if and only if one prefix is empty or a path above the other and the keys make up the difference; so never for single names |
| MemKv.KV.WithOwner | internal/provider/memkv/memkv.go:41-43 | another owner's view shares the same map |
| MemKv.KV.PutIfAbsent | internal/provider/memkv/memkv.go:64-73 | answer and new entry are those of the atomic reference; every other key unchanged |
| MemKv.KV.CompareAndSwap | internal/provider/memkv/memkv.go:75-85 | answer and new entry are those of the atomic reference; every other key unchanged |
| MemKv.KV.Get | internal/provider/memkv/memkv.go:87-95 | the live value or not found, as the reference |
| MemKv.KV.Delete | internal/provider/memkv/memkv.go:97-108 | as the reference: the raw value is compared, expiry ignored, a missing key deleted with success |
| MemKv.KV.Renew | internal/provider/memkv/memkv.go:110-128 | as the reference, with its error for a non-positive ttl, and refusal of permanent keys and other owners |
| DynamoKv.ClaimableIffNotLive | internal/provider/aws/kv.go:80 | the claim condition holds if and only if the entry is not live, except in the second expires_at == now |
| DynamoKv.Table.ReapExpired | README.md:381-383 | the service's own, late, TTL deletion removes one expired item and changes nobody's view of what is live |
| DynamoKv.DynamoKV.PutIfAbsent | internal/provider/aws/kv.go:76-92 | the reference in whole seconds, except that it refuses in the one second in limbo |
| DynamoKv.DynamoKV.CompareAndSwap | internal/provider/aws/kv.go:94-111 | the reference in whole seconds |
| DynamoKv.DynamoKV.Get | internal/provider/aws/kv.go:113-135 | the reference in whole seconds |
| DynamoKv.DynamoKV.Delete | internal/provider/aws/kv.go:137-154 | the reference, expiry ignored |
| DynamoKv.DynamoKV.Renew | internal/provider/aws/kv.go:156-181 | the reference in whole seconds: own unexpired leases only |
| DynamoKv.DynamoKV.DistinctKeysDistinctItems | internal/provider/aws/kv.go:39-44 | a change to one key's item changes no other key of the store |
| DynamoKv.SharedItemIff | internal/provider/aws/kv.go:39-44 | when two stores of different prefixes on one table use one item |
| DynamoRun.HeldOrReaped | internal/provider/aws/kv.go:64-84 | over any run of delayed requests and TTL deletions, until somebody takes it a granted key keeps holder, value and the expiry of its last write, or has been reaped after the bound |
| DynamoRun.LeaseExclusivity | internal/provider/aws/kv.go:70-84 | with every clock within delta, no other claim is served before the last write's request was built + whole seconds of ttl - 2 delta, nor sent before unless the key was reaped |
| DynamoRun.PermanentKeyPersists | internal/provider/aws/kv.go:76-111 | over any such run a permanent key stays until deleted or swapped |
| DynamoRun.DelayedClaimAfterReap | internal/provider/aws/kv.go:80 | a run in which a claim sent before the bound is served after the service reaped the key, and succeeds |
| DynamoRun.EarlyClaimSucceedsIffReaped | internal/provider/aws/kv.go:76-92 | a claim sent before the bound, served however late, succeeds if and only if the service has reaped the key by then |
| DocId.DocID | internal/provider/gcp/firestore.go:69-83 | the builder loop computes the prefixed escape of what a range loop sees of the key |
| DocId.UnescapeUndoesEscape | internal/provider/gcp/firestore.go:65-68 | the escaping is reversible, by an independently written inverse, on every text |
| DocId.EscapeIsCharByChar | internal/provider/gcp/firestore.go:72-81 | the escape of a text is that of its characters in turn: %2F, %25, and every other character itself |
| DocId.SameDocumentIff | internal/provider/gcp/firestore.go:65-68 | two keys share a document if and only if a range loop sees the same in both, which for valid UTF-8 means they are equal |
| DocId.InvalidKeysCollide | internal/provider/gcp/firestore.go:72 | two keys of invalid UTF-8 that share a document |
| DocId.IdIsAllowed | internal/provider/gcp/firestore.go:65-68 | an id never contains a slash and is never ".", ".." or of the form \_\_.\*\_\_ |
| FirestoreKv.FirestoreKV.SameIdIff | internal/provider/gcp/firestore.go:85-90 | the same under one prefix |
| FirestoreKv.SharedDocumentIff | internal/provider/gcp/firestore.go:85-90 | when two stores of different prefixes in one collection use one document |
| FirestoreKv.FirestoreKV.PutIfAbsent | internal/provider/gcp/firestore.go:150-171 | the reference in whole milliseconds, judged by the client's clock and anchored at the server's update time; other keys unchanged |
| FirestoreKv.FirestoreKV.CompareAndSwap | internal/provider/gcp/firestore.go:173-195 | the same reference; other keys unchanged |
| FirestoreKv.FirestoreKV.Get | internal/provider/gcp/firestore.go:199-212 | the same reference |
| FirestoreKv.FirestoreKV.Delete | internal/provider/gcp/firestore.go:214-247 | the same reference, expiry ignored; other keys unchanged |
| FirestoreKv.FirestoreKV.Renew | internal/provider/gcp/firestore.go:249-276 | the same reference: own live leases only, re-anchored at the commit; other keys unchanged |
| GcsMachine.StepMovesForward | internal/provider/gcp/kv.go:160-188 | a step never rewrites an object in place: a changed object has a new, larger generation, is stamped now and is live |
| GcsMachine.StepKeepsInv | internal/provider/gcp/kv.go:111-158 | every step of every client keeps: what a call has read agrees with the object as long as the generation is current, and what it decided still follows from it |
| GcsMachine.RunKeepsInv | internal/provider/gcp/kv.go:111-158 | the same at every state of every run |
| GcsHistory.GenerationsNeverReturn | internal/provider/gcp/kv.go:98-105 | once replaced or deleted, a generation never comes back, even after delete and recreate |
| GcsHistory.SameGenerationSameObject | internal/provider/gcp/kv.go:119-120 | one generation at two instants means the object was untouched in between |
| GcsHistory.BodyHistory | internal/provider/gcp/kv.go:125-158 | whatever a call judges was read as attributes at one instant and as a pinned body at a later one, where the whole entry was current |
| GcsTheorems.ClaimIsAtomic | internal/provider/gcp/kv.go:190-223 | in every interleaving a successful PutIfAbsent is the reference at the instant of its write: nothing live was there, by a clock as fast as the skew allows |
| GcsTheorems.OneWinnerPerGeneration | internal/provider/gcp/kv.go:200-204 | two conditional requests that both succeed acted on different generations, in order |
| GcsTheorems.ConditionalRequestActsOnItsRead | internal/provider/gcp/kv.go:225-243 | a successful conditional request acts on the very object its own read returned, unchanged from attribute read to request, and judged in between |
| GcsTheorems.WriteIsAtomicUnlessLapsed | internal/provider/gcp/kv.go:233-238 | a swap or renewal is the reference at its write if and only if the lease is still live there; a delete always is |
| GcsTheorems.WhatReplacesAnObject | internal/provider/gcp/kv.go:298-308 | a renewal keeps value and owner; only a swap replaces a permanent object |
| GcsTheorems.HolderKeeps | internal/provider/gcp/kv.go:290-313 | over any run without a takeover or removal, value and owner stay |
| GcsTheorems.LeaseExclusivity | internal/provider/gcp/kv.go:149-156 | until deleted or swapped a key keeps value and holder, and the next claim commits no earlier than last write + whole milliseconds of lease - skew |
| GcsTheorems.PermanentKeyPersists | internal/provider/gcp/kv.go:298-304 | over any run a permanent key stays until deleted, reaped or swapped |
| GcsTheorems.LifecycleRuleSparesLiveLeasesIff | internal/provider/gcp/kv.go:334-340 | the lifecycle rule never removes a live entry if and only if it carries a lease of at most a day |
| GcsTheorems.LeaseReadsBackIff | internal/provider/gcp/kv.go:163-171 | what is written reads back as a lease if and only if the ttl is at least a millisecond, with the reference's expiry |
| GcsTheorems.GetIsAtomicAtItsBodyRead | internal/provider/gcp/kv.go:248-257 | a Get that returns a value is the reference at its body read: current there, unchanged since the attribute read, and live by a clock as slow as the skew allows |
| GcsTheorems.RefusedClaimMetALiveEntry | internal/provider/gcp/kv.go:200-222 | a refused PutIfAbsent with no delete inside the call met an entry live by a clock as slow as the skew allows, at some instant inside it, whichever way it lost |
| GcsTheorems.DeadKeyRefusedIff | internal/provider/gcp/kv.go:200-222 | with nothing live at any instant of the call, a claim is refused if and only if the entry its create request met is removed before the call is over |
| GcsTheorems.BodyReadMissesIff | internal/provider/gcp/kv.go:135-138 | a Get at its body read answers not found if and only if the object has changed or gone since its attribute read |
| GcsTheorems.JudgedMissesIff | internal/provider/gcp/kv.go:253-255 | a Get past its body read answers not found if and only if the lease it read, on an entry untouched between its two reads, has lapsed by its clock |
| GcsTheorems.LiveKeyNotFoundWasReplaced | internal/provider/gcp/kv.go:248-257 | with clocks not ahead, a Get that misses a key live at its answer read the attributes of an entry that has been replaced since |
| GcsAnswers.DeleteRefusedIff | internal/provider/gcp/kv.go:270-287 | in every interleaving a conditional delete past its attribute read answers no if and only if the value at its body read is not the one given or the object has changed since; expiry does not matter |
| GcsAnswers.SwapRefusedIff | internal/provider/gcp/kv.go:225-243 | a swap answers no if and only if the value it read is not the one expected, or had lapsed by its clock, or the object has changed since its attribute read |
| GcsAnswers.RenewalRefusedIff | internal/provider/gcp/kv.go:294-312 | a renewal answers no if and only if what it read was permanent, somebody else's, or lapsed by its clock, or the object has changed since its attribute read |
| GcsAnswers.ClaimRefusedIff | internal/provider/gcp/kv.go:205-222 | a claim past its attribute read answers no if and only if what it read was live by its clock or the object has changed since |
| GcsAnswers.AttributeReadAnswersIff | internal/provider/gcp/kv.go:127-130 | the attribute read ends a call, negatively, if and only if no object is there |
| GcsAnswers.CreateAnswersIff | internal/provider/gcp/kv.go:192-198 | the create request ends a claim, with yes, if and only if no object is there |
| GcsAnswers.UnconditionalDelete | internal/provider/gcp/kv.go:260-267 | a delete without a value always answers yes and leaves nothing |
| GcsAnswers.WhatYesLeaves | internal/provider/gcp/kv.go:160-188 | what a call that answers yes leaves: its own value for a claim or swap, the same value for a renewal, its own owner, and its lease from now; nothing for a delete |
| GcsWeakness.DeleteRaceRefusesAClaim | internal/provider/gcp/kv.go:209-214 | a run in which a claim is refused although nothing is ever live |
| GcsWeakness.SwapLandsAfterTheLease | internal/provider/gcp/kv.go:233-238 | a run in which a swap succeeds after the lease lapsed |
| GcsWeakness.GetMissesALiveKey | internal/provider/gcp/kv.go:135-138 | a run in which Get answers not found while a live entry is there throughout |
| GcsWeakness.LifecycleRuleReapsAPermanentKey | internal/provider/gcp/kv.go:334-340 | a run in which the lifecycle rule removes a permanent key |
| GcsClient.Bucket.WriteIfAbsent | internal/provider/gcp/kv.go:190-198 | the create request is the machine's step, whatever others did before it |
| GcsClient.Bucket.WriteIfGeneration | internal/provider/gcp/kv.go:163-188 | the conditional write succeeds exactly as the machine's step does, and ends the call |
| GcsClient.Bucket.DeleteIfGeneration | internal/provider/gcp/kv.go:280-287 | the conditional delete is the machine's step, and ends the call |
| GcsClient.Bucket.ReadClock | internal/provider/gcp/kv.go:215-217 | what follows a clock reading is the machine's decision on what was read |
| GcsClient.GcsKV.Read | internal/provider/gcp/kv.go:125-158 | a read that finds nothing ends the call negatively; otherwise the call stands at its decision with exactly what was read |
| GcsClient.GcsKV.PutIfAbsent | internal/provider/gcp/kv.go:190-223 | the code makes exactly the steps of one call; if it returns true, nothing live was there and the bucket now holds value, owner and lease |
| GcsClient.GcsKV.CompareAndSwap | internal/provider/gcp/kv.go:225-243 | the code makes exactly the steps of one call and answers as it does |
| GcsClient.GcsKV.Get | internal/provider/gcp/kv.go:248-257 | the code makes exactly the steps of one call and answers as it does |
| GcsClient.GcsKV.Delete | internal/provider/gcp/kv.go:259-288 | the code makes exactly the steps of one call and answers as it does, expiry ignored |
| GcsClient.GcsKV.Renew | internal/provider/gcp/kv.go:290-313 | an error for a non-positive ttl; otherwise the code makes exactly the steps of one call and answers as it does |
| Election.StepKeepsInv | e2e/tikv/aws/docker/tikv-pd/pd.star:167-249 | every step of every replica keeps: the key, what replicas remember of it, every bootstrap decision and every release agree with the history of epochs |
| Election.RunKeepsInv | e2e/tikv/aws/docker/tikv-pd/pd.star:167-249 | the same at every state of every run |
| Election.OneAddressPerEpoch | e2e/tikv/aws/docker/tikv-pd/pd.star:236-247 | all bootstrap decisions resting on one epoch name the same address |
| Election.BootstrapsAreALeaseApart | e2e/tikv/aws/docker/tikv-pd/pd.star:236-247 | bootstraps of different addresses rest on epochs that began a full lease apart, less skew and the lag between a lease and its claim (none where the store stamps the write), unless a script released the earlier one |
| Election.ReleasesNameTheHolder | e2e/tikv/aws/docker/tikv-pd/pd.star:175-187 | pre_stop ends only its own epochs; a release naming an address ends only epochs of that address, and the one judged only two minutes, less skew, after it lapsed |
| Election.ReleaseEndsAnothersEpochIff | e2e/tikv/aws/docker/tikv-pd/pd.star:184-186 | a release ends an epoch of an address other than the one judged if and only if none was judged and one is held |
| Election.NamedReleaseEndsALiveEpochIff | e2e/tikv/aws/docker/tikv-pd/pd.star:184-186 | at every state of every run, a release naming an address ends an epoch still live if and only if that address holds it; it is then later than the one judged |
| Election.UnnamedReleaseEndsALiveEpoch | starlark_builtins.go:421-429 | a run in which a release that names no one ends the live epoch of a third replica |
| Election.ReleaseEndsALaterEpochOfTheSameHolder | e2e/tikv/aws/docker/tikv-pd/pd.star:184-186 | a run in which a release ends a later, live epoch of the address it judged |
| ElectionStore.ClaimIsServed | e2e/tikv/aws/docker/tikv-pd/pd.star:237 | whatever a store that answers as the reference answers a claim of the seed, the machine has that step with the same answer and effect |
| ElectionStore.PollIsServed | e2e/tikv/aws/docker/tikv-pd/pd.star:169 | the same for the poll: a seed the store shows ends the wait |
| ElectionStore.FetchIsServed | e2e/tikv/aws/docker/tikv-pd/pd.star:171 | the same for kv_get: the address the store returns is the one remembered |
| ElectionStore.ReleaseIsServed | e2e/tikv/aws/docker/tikv-pd/pd.star:186 | the same for the release of an abandoned seed, named or not |
| ElectionStore.PreStopIsServed | e2e/tikv/aws/docker/tikv-pd/pd.star:290 | the same for the release of one's own lease |
| ElectionStore.DynamoClaimIsServed | internal/provider/aws/kv.go:76-92 | a claim on DynamoDB is the machine's, with a lease from the whole second its item was built in |
| ElectionStore.DynamoFetchIsServed | internal/provider/aws/kv.go:113-135 | a read on DynamoDB is the machine's, judged at most a second behind the clock |
| ElectionStore.DynamoPollIsServed | internal/provider/aws/kv.go:113-135 | a read in the poll likewise |
| ElectionStore.DynamoReleaseIsServed | internal/provider/aws/kv.go:137-154 | the release of an abandoned seed on DynamoDB is the machine's |
| ElectionStore.DynamoPreStopIsServed | internal/provider/aws/kv.go:137-154 | the release of one's own lease on DynamoDB is the machine's |
| ElectionStore.DynamoReapIsServed | README.md:381-383 | DynamoDB's TTL deletion is the machine's reaping |
| ElectionStore.GcsClaimIsServed | internal/provider/gcp/kv.go:190-223 | a claim granted by Cloud Storage in any interleaving is the machine's, in the step that writes |
| ElectionStore.GcsFetchIsServed | internal/provider/gcp/kv.go:248-257 | a value got from Cloud Storage is the machine's fetch, in the step that reads the body |
| ElectionStore.GcsPollIsServed | internal/provider/gcp/kv.go:248-257 | a value seen in the poll likewise |
| ElectionStore.GcsReleaseIsServed | internal/provider/gcp/kv.go:259-288 | a delete on Cloud Storage is the machine's release, in the step that deletes |
| ElectionStore.GcsPreStopIsServed | internal/provider/gcp/kv.go:259-288 | the release of one's own lease on Cloud Storage is the machine's, in the step that deletes |
| ElectionStore.GcsRefusalIsServed | internal/provider/gcp/kv.go:209-222 | any other answer of Cloud Storage changes nothing, as the machine's refused steps do not |
| ElectionStore.GcsOnlyAnswersChange | internal/provider/gcp/kv.go:160-188 | every step that changes the object answers yes or is the lifecycle rule |
| ElectionStore.GcsReapIsServed | internal/provider/gcp/kv.go:334-340 | the bucket's lifecycle rule takes a seed only when the machine may reap it |
| GcsElection.OneAddressPerGeneration | e2e/tikv/aws/docker/tikv-pd/pd.star:236-247 | in every interleaving over Cloud Storage, all decisions to bootstrap that rest on one generation of the seed name one address |
| GcsElection.SeedChange | internal/provider/gcp/kv.go:190-223 | a seed is replaced or goes only when its lease is over, by a clock as fast as the skew allows, or by the script's own delete |
| GcsElection.BootstrapsAreALeaseApart | e2e/tikv/aws/docker/tikv-pd/pd.star:236-247 | in every interleaving of the script's requests over Cloud Storage, bootstraps of different addresses rest on objects written a full lease apart, less a fast clock's lead, unless the script deleted the earlier one |
| GcsElection.NamedDeleteEndsItsHolder | e2e/tikv/aws/docker/tikv-pd/pd.star:186 | a delete that names an address only ever removes a seed of that address |
| ElectionScript.Cluster.KvPutIfAbsent | e2e/tikv/aws/docker/tikv-pd/pd.star:237 | the claim is granted exactly when the key is claimable, but for a refusal without reason; winning is a new epoch of our address and the decision to bootstrap that rests on it |
| ElectionScript.Cluster.KvGetSeed | e2e/tikv/aws/docker/tikv-pd/pd.star:171 | returns the holder exactly when the key is visible, but for a blind answer, and that is what the replica remembers |
| ElectionScript.Cluster.KvDeleteSeed | e2e/tikv/aws/docker/tikv-pd/pd.star:186 | the release is the machine's step, and unless refused the key is no longer held by the address named, or by anyone if none is |
| ElectionScript.Cluster.PollForSeed | e2e/tikv/aws/docker/tikv-pd/pd.star:169-170 | the wait for a seed ends, having seen one, or raised with its deadline passed |
| ElectionScript.Cluster.PollForService | e2e/tikv/aws/docker/tikv-pd/pd.star:172 | the wait for the seed to serve ends, having heard from it, or else no sooner than five minutes after the seed was read |
| ElectionScript.Cluster.GiveUp | e2e/tikv/aws/docker/tikv-pd/pd.star:181-187 | a silent seed is released if and only if discovery gives a believable answer without it |
| ElectionScript.Cluster.AwaitService | e2e/tikv/aws/docker/tikv-pd/pd.star:171-187 | returns the address it read from the store once that has answered, or raises having given up on it |
| ElectionScript.Cluster.AwaitSeed | e2e/tikv/aws/docker/tikv-pd/pd.star:167-187 | the same after the poll for a seed, which may raise instead |
| ElectionScript.Cluster.BootstrapOrFollow | e2e/tikv/aws/docker/tikv-pd/pd.star:242-249 | bootstraps if and only if the seed heard from is our own address, and else follows exactly that seed |
| ElectionScript.Cluster.ColdStart | e2e/tikv/aws/docker/tikv-pd/pd.star:236-249 | a follower follows an address it has heard from since the call began, the holder of an epoch begun when it was read |
| ElectionScript.Cluster.ResolvePd | e2e/tikv/aws/docker/tikv-pd/pd.star:190-249 | restarts exactly with a member on disk, joins exactly the live peers if there are any, and else bootstraps by a recorded decision for our address, true of its epoch, or follows a seed it has heard from, never itself |
| ElectionScript.Cluster.PdPreStop | e2e/tikv/aws/docker/tikv-pd/pd.star:284-290 | teardown is the machine's step, and unless refused our address no longer holds the key |
| SupervisorTrace.OneChildAtATime | spawn.go:163-262 | at every point all children started but the running one have been reaped, up and down alternate with them, and none is left at the return |
| SupervisorTrace.AttemptIsOrdered | spawn.go:163-262 | within an attempt every event happens at most once, in order: start, up, post_start, select, pre_stop, SIGTERM, SIGKILL, reap, down, post_stop, reset |
| SupervisorTrace.WhatFollows | spawn.go:230-262 | pre_stop is followed by SIGTERM, a reaped child by its being marked down, and that by post_stop; after select a child that exited is reaped and any other terminated, after a pre_stop that is detached exactly on teardown |
| SupervisorTrace.TerminateFollowsPreStop | spawn.go:232-256 | SIGTERM comes only right after pre_stop, so pre_stop runs exactly when the supervisor ends the attempt |
| SupervisorTrace.WhatAnAttemptLeadsTo | spawn.go:230-289 | lost health is never reported as an exit or a failed run: unless the context ended it backs off or exhausts its retries; a teardown returns with the reason as it stood; an exit is retried only with respawn and a failure or keep_alive, and reported only otherwise |
| SupervisorTrace.ReportedCodeIsTheChilds | spawn.go:258-282 | the code reported after an attempt is the one its child was reaped with |
| SupervisorTrace.WhatAFailedResolveLeadsTo | spawn.go:127-139 | a failed resolve is retried only with respawn enabled and resolve_failure not "fail", and raised only otherwise and while the context lasts |
| SupervisorTrace.FlagsMatchTrace | spawn.go:40-44 | the flags are set exactly when a stop request or the end of the context has happened |
| SupervisorTrace.NothingAfterTheNextTop | spawn.go:108-111 | once the context has ended, after the next top of the loop nothing follows but the return |
| SupervisorTrace.AtMostOneMoreStart | spawn.go:108-111 | once the context has ended at any point, at most one further child is started |
| SupervisorTrace.ReasonsAreTrue | spawn.go:292-297 | "signalled" is reported only after requestStop, "shutdown" only after the context ended |
| SupervisorTrace.ShutdownMeansNoStopThen | spawn.go:292-297 | "shutdown" is reported only if no stop had been requested when the end of the context was seen |
| SupervisorTrace.CountersMatchTrace | spawn.go:88-106 | the counter is the number of backoffs since the last reset, the total that of all backoffs, and the limit is never exceeded |
| SupervisorTrace.TriesFollowBackoffs | spawn.go:108-109 | every pass but the first was preceded by exactly one backoff |
| SupervisorTrace.TriesAreBounded | spawn.go:268-288 | with no attempt up for reset_after there are at most max_retries + 1 passes |
| SupervisorTrace.LongAttemptResets | spawn.go:268-272 | an attempt followed by another, or by its own exit, has reset the counter if and only if it was up for reset_after |
| SupervisorTrace.ReportedCountIsSinceReset | spawn.go:55-61 | the count an exit reports is that of the backoffs since the last reset |
| SupervisorTrace.ExitReportsFewerThanRespawns | spawn.go:268-282 | a trace that respawns once and exits reporting none |
| Supervisor.Supervisor.RequestStop | spawn.go:41-44 | sets the flag and ends the context, and nothing else |
| Supervisor.Supervisor.DoBackoff | spawn.go:90-106 | exhausted if and only if the limit is reached or the backoff stops; otherwise one more backoff is counted and the loop is at its top |
| Supervisor.Supervisor.CheckTop | spawn.go:109-111 | returns an exit if the context has ended, and only then goes on if it has not |
| Supervisor.Supervisor.ResolveCommand | spawn.go:113-145 | a failed resolve is retried only with respawn enabled and resolve_failure not "fail", and raised only otherwise |
| Supervisor.Supervisor.StartChild | spawn.go:147-192 | the child runs, or the loop has returned without one; a pre_start failure is raised only while the context lasts |
| Supervisor.Supervisor.AwaitEnd | spawn.go:230-256 | whatever select picks, the child has been reaped, with the code returned; health triggered if and only if lost health was picked, torn down if and only if the end of the context was, with its true reason |
| Supervisor.Supervisor.Conclude | spawn.go:258-289 | after a stop the loop always returns, with the child's code and the reason; otherwise it goes round only as GoRound says |
| Supervisor.Supervisor.GoRound | spawn.go:274-288 | lost health always retries; an exit retries only with respawn enabled and a failure or keep_alive, and otherwise gives exactly its result |
| Supervisor.Supervisor.Pass | spawn.go:108-289 | a pass begun after the context ended returns an exit; a pass that goes on has backed off exactly once |
| Supervisor.Supervisor.Loop | spawn.go:76-290 | however many passes: every run is a trace, the counter and the total are what it shows, and the loop has returned by pass max_retries + 1 with no attempt up for reset_after |
| Promises.Promise.SettleWith | promise.go:54-66 | the first outcome is kept and closes the channel; later ones change nothing |
| Promises.Promise.Await | promise.go:85-93 | yields the settled outcome, gives up only when the context ended, and blocks exactly while neither is so |
| Promises.Promise.DoCancel | promise.go:98-108 | the composition of its two critical sections: records the cancel, then stops the task or settles with None |
| Promises.Promise.DoSignal | promise.go:112-121 | a spawn promise only asks its supervisor; any other resolves and stops its task |
| Promises.Promise.DoReject | promise.go:123-132 | a spawn promise only asks its supervisor; any other rejects and stops its task |
| Promises.Promise.FinishTask | starlark_engine.go:128-141 | settles with the task's result, or None instead of its error if a cancel was recorded |
| Promises.StepKeepsInv | promise.go:54-66 | every step of everyone acting on a promise keeps: closed once if settled, and every awaiter has the outcome |
| Promises.FirstSettleWins | promise.go:54-66 | in every interleaving the first settle fixes the outcome forever and the channel is closed exactly once |
| Promises.AwaitersAgree | promise.go:83-93 | whoever awaits, and whenever, sees the same outcome |
| Promises.FailedTaskRejectsIffUncancelledWhenItLooked | starlark_engine.go:131-139 | a failed task that settles its promise rejects if and only if no cancel was recorded when it looked |
| Promises.WhatItSettlesWith | starlark_engine.go:128-141 | a task without an error settles with exactly the value of its own return step, one with an error with that or None; a signal with its value, a reject with its reason, a supervisor with what it returned, a cancel with None |
| Promises.AwaitersGetWhatSettled | promise.go:83-93 | whoever awaits gets what the settling step gave |
| Promises.CancelTakesEffect | promise.go:98-108 | a cancel that is over has cancelled the task's context, or settled a promise without a task |
| Promises.SignalTakesEffect | promise.go:112-132 | a signal or reject that is over has asked the supervisor to stop, or settled the promise and cancelled its task's context |
| Promises.MarksHaveCauses | promise.go:98-132 | the task's context is cancelled if and only if a cancel, signal or reject got that far, and a cancel recorded if and only if one was called |
| Promises.LateCancelStillRejects | starlark_engine.go:131-136 | a run in which the task rejects after a cancel has been recorded |
| Promises.OnlyItsOwnSettles | spawn.go:46-53 | a spawn promise is settled by its supervisor and nobody else; one nobody can signal by its task, or without one by a cancel (a script's, or the harness's at shutdown), with None |
| Combinators.Join | async.go:99-120 | values in argument order, bare for a single argument, or the first rejection in argument order, for every order of settlement; an error without arguments |
| Combinators.Select | async.go:123-143 | an argument that has settled, rejected or not; waits only if none ever does; an error without arguments |
| Combinators.AnyTrue | async.go:150-190 | True means some argument resolved truthy, False all resolved falsy (and conversely while the context lasts), an error that some argument rejected or the context ended; and which arguments are cancelled; terminates |
| WaitLoop.Wait | starlark_builtins.go:89-113 | for every timeout and interval at least one check and at most ceil(timeout / interval) + 1; between two checks one sleep for exactly the interval (half a second and jitter without one) or up to the deadline; false only after a check that came back false with the deadline passed |
| GrpcHealth.UvarintFits | main.go:377 | a decoded varint fits in 64 bits |
| GrpcHealth.UvarintIsBase128 | main.go:377 | decoding succeeds exactly on the varints of the encoding specification, of at most 64 bits, and gives their value in base 128 |
| GrpcHealth.VarintRoundTrip | main.go:319 | decoding undoes encoding for every 64-bit value, whatever follows |
| GrpcHealth.BigEndianRoundTrip | main.go:324 | the frame length survives its four bytes |
| GrpcHealth.BigEndianIsBase256 | main.go:371 | the frame length is read in network byte order |
| GrpcHealth.NextField | main.go:377-405 | the loop body with its running index is one round of the specification |
| GrpcHealth.ParseFromIsTheLoop | main.go:376-406 | the specification tells the loop's fate: its result after some number of rounds, or that no number of rounds ends it |
| GrpcHealth.ParseGRPCHealthStatus | main.go:367-408 | the loop is the parser of the message the frame carries, with its two frame errors and the panic where 5+n wraps |
| GrpcHealth.RoundOverField | main.go:376-406 | one round reads or skips exactly one well-formed field, in any varint encoding |
| GrpcHealth.WhatARoundDoes | main.go:376-406 | on any bytes: which error a round returns and why, the value it returns for field 1, and the index it goes on at |
| GrpcHealth.ParsesEveryMessage | main.go:365-408 | for every sequence of well-formed fields in a frame short of 4 GiB the result is the first field-1 varint, or 0 |
| GrpcHealth.RoundAdvancesIff | main.go:395-400 | a round goes on at a later index if and only if it is not over a length that leads back or out of int |
| GrpcHealth.TerminatesIfLengthsFit | main.go:376-406 | on every message, well formed or not, all of whose lengths fit, the loop returns and does not panic |
| GrpcHealth.TerminatesIfLengthsAreSmall | main.go:376-406 | so on every message in which no length is 2^62 or more |
| GrpcHealth.OversizedLengthNeverEnds | main.go:395-400 | a message over which the loop goes round forever |
| GrpcHealth.RequestIsOneFrame | main.go:322-325 | the request is one uncompressed frame, whole, carrying its message |
| GrpcHealth.RequestCarriesTheService | main.go:314-321 | that message is the service name as field 1, or empty for the default |
| ExecOut.CarriageReturnsDoNotMatter | e2e/internal/execout/execout.go:45-47 | transcripts equal up to carriage returns parse the same |
| ExecOut.NoneLeft | e2e/internal/execout/execout.go:45-47 | no carriage return is left |
| ExecOut.InsertedCarriageReturn | e2e/internal/execout/execout.go:45-47 | a carriage return inserted anywhere changes nothing |
| ExecOut.TrimSpaceIs | e2e/internal/execout/execout.go:69 | trimming cuts off blanks at both ends only, and leaves none there |
| ExecOut.LineIsFoundFirst | e2e/internal/execout/execout.go:49-53 | after any text without the begin line, the begin line is found where it was printed |
| ExecOut.WordIsFoundAfterLines | e2e/internal/execout/execout.go:54-58 | the end marker is found behind the body and status line, and not across their ends |
| ExecOut.MarkerIsFoundLast | e2e/internal/execout/execout.go:60-65 | the last status marker is the real one, whatever markers the body contains |
| ExecOut.StatusIsScanned | e2e/internal/execout/execout.go:66-68 | the printed status reads back |
| ExecOut.DecimalNotation | e2e/internal/execout/execout.go:36-37 | the status is printed in decimal |
| ExecOut.ParsesCleanTranscript | e2e/internal/execout/execout.go:44-70 | a transcript that is, up to carriage returns, the fence between any texts gives its body and status |
| ExecOut.TranscriptRoundTrip | e2e/internal/execout/execout.go:34-70 | for every text around the fence, every body without the end marker and every status, parsing what Script prints gives the trimmed body without carriage returns, and the status |

## Left out

- Cloud SDK calls, their errors, retries and lost responses: each server request is one step with an immediate
  answer; an error return is a call that never finishes.
- Object and key naming on Cloud Storage: the machine has one object, since requests on different objects do not
  interact.
- FirestoreKv: a transaction is one atomic step; the client library's retries, and documents that do not decode,
  are not modelled.
- DynamoKv.DynamoKV.Renew: `ttl.Seconds()` is a float in the source; its rounding for very long ttls is not modelled.
- Provision, the provider registry and identity mapping: wiring; of Provision only the lifecycle rule is modelled.
- The Starlark interpreter and exec: callbacks, commands and child exits are arbitrary outcomes.
- Backoff delays, jitter, the hook timeouts, logging, and the health and backoff fields of workloadState: they
  decide no branch of the loop. NextBackOff returning Stop is kept as a separate outcome.
- Supervisor.Supervisor.Loop: takes the number of passes to look at, so that runs that never end are covered by their
  finite parts.
- reportIfUnobserved: it only logs.
- ElectionScript.Cluster.ResolvePd: the discovery answer and the peers' answers are parameters, `lineup` is left out; the
  argv common to all branches, the removal of stale members, store-pruning guards and the Google Cloud copies of the scripts are not modelled.
- Progress of branch (D) of `resolve_pd` when the seed is our own address: safety only.
- ElectionStore: states request by request, not over whole runs, that the backends serve the machine; for Cloud Storage
  GcsElection has the main results over whole runs. Of the script it has what a decision to bootstrap rests on, not
  the order of a replica's requests. A TTL policy on the
  Firestore collection, which the source mentions and does not install, would reap by the writers' clocks.
- ExecOut.TranscriptRoundTrip: strings are ASCII (Unicode blanks in TrimSpace and %d are not modelled), and of Script
  only the lines its echo commands print are.
- HTTP and TCP probing, the control socket, discovery, registration and Cloud Run: I/O and easy members.
