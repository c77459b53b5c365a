# SporeDB, verified model

SporeDB is a Byzantine-tolerant key-value store. Clients submit *spores* (signed lists of
operations under a policy); nodes *endorse* them, and a spore is applied once a quorum of the
policy's endorsers has promised not to endorse anything that conflicts with it.

This project models the parts of SporeDB where that promise is kept or broken, and proves what
they guarantee over every input, every run and every reachable state. `dafny verify
dfyconfig.toml` checks everything.

## Layout

| file | what it models |
|---|---|
| `Prelude`, `Uint64` | shared types and finite sums; the 8-byte little-endian integers of `db/encoding` |
| `EncodedSet` | the length-prefixed set buffer with its index of offsets, updated in place |
| `Values` | the operation runners and the `Value` object with its cached number and set |
| `Operations`, `Execution` | the conflict table; the loop that runs a spore's operations on cached values |
| `Confluence` | compatible spores give the same content in any order |
| `Node` | one node as a state machine: endorsing, promoting, both lock regions of `AddEndorsement`, spawned applications, the gc pass, cleaning, the clock |
| `Database` | the same node as an object with mutable fields; every method is proved against the state machine |
| `Staging`, `History`, `Endorsements`, `AtMostOnce`, `Accounting`, `Versions` | what every run of a node keeps |
| `Provenance`, `Conduct`, `Progress` | what a node keeps and does, written on the fields of its state and configuration rather than with the predicates of the state machine: who signed and what the policy allows, the exact effect and error of each step, and that nothing is forgotten |
| `Books` | exactly when a batch that writes usage keys itself leaves the recorded usages right |
| `Replicas` | two nodes that apply the same compatible spores converge |
| `Quorum` | the quorum bound, and safety of every run of many nodes with f faulty endorsers |
| `TrustWeb`, `KeyRing` | the greedy web-of-trust search and the lazily rebuilt key ring |
| `Recovery` | recovery of a key from the answers of peers |
| `Framing` | the wire format of the mycelium protocol |

A Go pointer to a `dbTrigger` is an index into a list of triggers that only grows, so the sharing
of a trigger between `staging`, a running `AddEndorsement` and a spawned `Apply` is kept. The
iteration order of every Go map is left open: it is a parameter of the state machine and a ghost
result of the methods. Cryptography, regular expressions and number formatting are function
parameters; what is assumed of them is written in the contracts that need it.

## Where the code departs from its own comments

The model does what the code does. Each departure has a lemma that exhibits it, and the exact
condition under which the intended property holds.

* A requirement whose version differs makes `CanEndorse` return a nil error and skips every
  later check (`Versions.MismatchSkipsTheChecks`; exactly then: `Staging.EveryRunFreeIff` for
  conflicts in staging, `Versions.InternalKeyIff`, `Accounting.UnvettedIff`). The run theorems
  record such spores in the flag `bypass`. A spore that writes usage keys that way can break the
  books (`Books.OverwrittenUsageIff`, `Books.ForeignUsageShifts`; exactly then:
  `Books.BatchBooksIff`).
* `Clean` forgets spores whose death is still ahead, not those whose grace period is over
  (`AtMostOnce.CleanAsWrittenAppliesTwice`; exactly then: `AtMostOnce.CleanAsWrittenIff`).
* Endorsements collected while a spore waits are lost on promotion (`Staging.PromotionForgets`).
* A spore received twice can be in `staging` and in `waiting` (exactly then:
  `Staging.TwiceReceived`).
* `effectiveTrust >= trust` fails for unnamed levels between HIGH and ULTIMATE. For one addition
  `TrustWeb.AddLowersIff` says exactly when; for the whole search `TrustWeb.EndSearch` does: where
  no trusted key has signed at the ultimate level, the inequality holds if and only if the level
  is a named one (or below HIGH) or no trusted key has signed.
* An endorsement with an empty emitter is checked against the local key, so the local node can be
  counted twice (`Endorsements.EmptyEmitterIsTheLocalKey`; exactly then:
  `Endorsements.DistinctEndorsersIff`).
* The cached forms of a value go wrong when numeric and set operations are mixed, and when SREM
  meets an element that is stored twice (`Values.MixingBreaksTheCache`,
  `EncodedSet.DuplicateRecordsComeBack`; exactly then: `Values.CoherentAfter` for one operation,
  `Values.SequencesIff` for sequences).

## Model

| member | source | states |
|---|---|---|
| `Quorum.QuorumSafety` | db/endorsement.go:88-208 | Over every run of any number of honest nodes, with quorum at least 1+(n+f)/2 and at least 2 and at most f faulty endorsers: if two conflicting spores of a policy both gather a quorum, in whatever triggers of whatever nodes, applied or not, some honest endorser signed both, the later one only after the earlier one had left its staging by deadline or quorum, or by way of a requirement mismatch |
| `Quorum.NeverBothWhileStaged` | db/endorsement.go:88-208 | Two conflicting spores never both gather a quorum while both stay staged at every honest endorser and neither was let in by a mismatch |
| `Quorum.SentHasGathered` | db/endorsement.go:224-232 | In every run, a spore sent to Apply has gathered a quorum, exactly unless the local key was counted under both of its names |
| `Quorum.AcceptedIffQuorumsMeet` | cmd/policy.go:64-75 | For every n and f, `policy create` accepts a quorum if and only if any two sets of that many endorsers share more than f of them |
| `Quorum.EveryRunIsFine` | db/endorsement.go:156-295 | In every run of the system, every honest endorsement found in a trigger of any node was really signed by its owner, and every node keeps its own invariants |
| `Quorum.BothSigned` | db/endorsement.go:156-208 | A node that signed two conflicting spores dropped the first from staging before it signed the second, or let one through by a mismatch |
| `History.StepKeeps` | db/endorsement.go:88-235 | Every step keeps the chronicle: a staged spore is in staging until its departure is on record, and a spore staged after a conflicting one came after that one's departure |
| `Staging.EveryRunStaysApart` | db/endorsement.go:84-99 | In every run, two spores staged under different uuids conflict only if one was let in by a requirement mismatch; every entry of staging and waiting refers to a spore of its own uuid |
| `Staging.EndorseFreeIff` | db/endorsement.go:31-154 | Endorse keeps staging free of conflicts if and only if it does not stage a clashing spore by way of a requirement mismatch |
| `Staging.ReconsiderFreeIff` | db/db.go:131-139 | An iteration of the promotion loop does so under the same condition on the waiting spore |
| `Staging.PassFreeIff` | db/db.go:121-142 | A whole pass is free of conflicts throughout if and only if no iteration promotes such a spore |
| `Staging.EveryRunFreeIff` | db/endorsement.go:31-154 | Staging is free of conflicts at every moment of a run if and only if no step of it, on reception or in a gc pass, promotes by way of a mismatch a spore that clashes |
| `Staging.EveryGcPassIsMaximal` | db/db.go:121-142 | After a gc pass at the end of any run, with policies that stage, every spore left in waiting would be refused again, in whatever order its requirements are looked at, and not for its deadline: the promoted set is maximal for every visiting order |
| `Staging.GcPassIsMaximal` | db/db.go:131-139 | The same from any state whose waiting spores have a known policy and stored requirement keys, as all reachable ones have |
| `Staging.PromotionForgets` | db/db.go:131-139 | A promoted spore gets a new trigger holding at most the node's own endorsement, whatever it had collected while waiting |
| `Staging.TwiceReceived` | db/endorsement.go:135-154 | A spore received twice is in both maps if and only if it conflicts with itself |
| `Provenance.EverySporeIsEmitted` | db/endorsement.go:121-139 | In every run, every spore kept in a trigger or written carries a signature that the key ring verifies for its emitter, the local node under the empty identity |
| `Provenance.ForgedIsRefused` | db/endorsement.go:135-139 | Receiving a spore without such a signature changes nothing and is an error, and only then is that error returned |
| `Provenance.EverySporeIsPermitted` | db/policy.go:37-67 | In every run, for every spore kept or written that did not skip the checks: its policy is known, none of its keys is reserved, each key matches a specification, and every specification that matches allows the operation |
| `Conduct.CheckVerdicts` | db/policy.go:37-67 | When the policy check accepts, and when it gives each of its errors |
| `Conduct.DryRunIff` | db/endorsement.go:52-75 | The dry run passes if and only if every operation succeeds after those before it, is permitted and leaves a value of allowed size |
| `Conduct.EndorsableIff` | db/endorsement.go:31-99 | The exact conditions under which CanEndorse accepts, reports an expired deadline, a missing key or a conflict |
| `Conduct.QuotaIff` | db/policy.go:86-99 | The quota check passes if and only if the recorded usage is a number and the usage with the new values does not exceed MaxSize |
| `Conduct.AppliesIff` | db/db.go:163-207 | When Apply succeeds, and when it reports an expired grace period or a duplicate |
| `Conduct.ApplyDoes` | db/db.go:163-238 | A successful application writes each value with its hash, the usage, the entry in the applied list, and no other key; any other changes nothing |
| `Conduct.PromoteDoes` | db/endorsement.go:156-208 | Applied at once, staged with or without an own endorsement, or dropped, by quorum, endorser list and key |
| `Conduct.PromoteLogs` | db/endorsement.go:167-184 | The node signs exactly as an endorser of a policy with a quorum, with its key unlocked |
| `Conduct.EndorseDoes` | db/endorsement.go:135-154 | Promoted if signed and accepted, put on the waiting list if signed and in conflict, otherwise nothing |
| `Conduct.EndorseReturns` | db/endorsement.go:135-154 | The error of Endorse in each case, panics included |
| `Conduct.WelcomeIff` | db/endorsement.go:247-293 | An endorsement is accepted if and only if its emitter is new to the trigger, known and listed, and its signature verifies |
| `Conduct.Unwelcome` | db/endorsement.go:247-291 | Which error an unaccepted endorsement gets |
| `Conduct.RegisterDoes` | db/endorsement.go:212-221 | Which trigger an accepted endorsement joins, staged before waiting, and that nothing else changes |
| `Conduct.RegisterReturns` | db/endorsement.go:212-221 | What the first region returns |
| `Conduct.CommitDoes` | db/endorsement.go:224-232 | The spore leaves staging and Apply is spawned if and only if the endorsements are at least the quorum |
| `Conduct.CompletedIff` | db/endorsement.go:211-235 | The endorsement of a staged spore that is accepted as the quorum-th or later takes the spore out of staging and spawns Apply; an earlier one leaves it staged |
| `Progress.EveryQuorumIsTaken` | db/endorsement.go:211-235 | In every run, a staged spore with as many endorsements as its policy asks for has been sent, or the call that completed its quorum has still to run its second region |
| `Progress.CollectDoes` | db/db.go:122-142 | After a gc pass the expired spore is staged only under a new trigger, other staged spores are still there, and a waiting spore has left its list only for an expired deadline, by promotion, or because the node's key is locked |
| `Progress.CleanDoes` | db/db.go:241-253 | Clean as written forgets exactly the spores whose end lies in the future |
| `AtMostOnce.EveryRunWritesOnce` | db/db.go:163-253 | In every interleaved run no uuid is written twice, if cleaning forgets only spores past their grace period; the comparison as written may run only when it has nothing to delete |
| `AtMostOnce.CleanAsWrittenIff` | db/db.go:241-253 | The comparison as written makes some applied spore applicable again if and only if it deletes anything |
| `AtMostOnce.CleanAsWrittenAppliesTwice` | db/db.go:241-253 | Receive, clean, receive again: a three-step run that writes a spore twice |
| `Endorsements.EverySentSporeIsEndorsed` | db/endorsement.go:192-295 | In every run, each spore sent to Apply from staging carries at least Quorum endorsements by different emitters, each by a listed endorser and verified or signed by the node itself |
| `Endorsements.DistinctEndorsersIff` | db/endorsement.go:247-280 | With an injective key ring these come from as many different keys if and only if the local key was not counted under both of its names |
| `Endorsements.EmptyEmitterIsTheLocalKey` | db/endorsement.go:247-293 | The local signature sent back with an empty emitter is accepted as a further endorsement |
| `Confluence.AnyOrder` | db/operation.go:22-75 | Any list of pairwise non-conflicting spores of one policy, run from one store in any two orders, leaves the same keys with the same bytes and versions, or, on keys used as sets, the same records |
| `Confluence.SameSuccesses` | db/db.go:187-220 | In every such order each spore succeeds exactly when it would succeed alone |
| `Confluence.SameContentSameMembers` | db/encoding/set.go:100-126 | Two such set buffers decode to the same set and have the same length |
| `Confluence.RunsExchange` | db/operation.go:46-75 | On one key, two non-conflicting sequences of operations succeed independently of each other and can be exchanged |
| `Confluence.SuccessIsStable` | db/operation.go:46-75 | Whether a spore succeeds does not change when a compatible one is applied first |
| `Confluence.IntegersAreExact` | db/operation.go:24-25 | Some arithmetic satisfies all the laws asked for, in `Confluence` and in `Values`: integers do |
| `Confluence.PoliciesDoNotExclude` | db/spore.go:32-46 | Spores of different policies never conflict and need not commute |
| `Replicas.ReplicasConverge` | db/db.go:163-238 | Two nodes with the same content that apply the same compatible spores through Apply, in different orders and each at moments of its own, end with the same content, the same applied spores and the same recorded usages |
| `Replicas.RunsConverge` | db/db.go:109-253 | Any two whole runs of two nodes whose writes differ only in the order of a final group of compatible spores end with the same content and the same recorded usages |
| `Replicas.EveryStoreIsReplayed` | db/db.go:187-238 | In every run in which no written spore names a usage key, the store, usages aside, is what the recorded writes leave one after the other |
| `Replicas.StagedSporesCommute` | db/endorsement.go:88-99 | At every moment of every run, the checked spores of one policy staged by a node may be applied in any order |
| `Execution.Projection` | db/db.go:187-207 | Running a spore's operations succeeds exactly when each key's own run does, and leaves on each key what that run leaves |
| `Operations.ConflictMeans` | db/operation.go:22-75 | The table, its flags and its missing entries amount to the relation said without the table |
| `Operations.ConflictSymmetric` | db/spore.go:32-46 | Conflict between spores is symmetric |
| `Operations.CheckConflict` | db/spore.go:32-46 | The two loops find a conflict if and only if there is one |
| `Operations.ConcatConflictsWithItself` | db/operation.go:52-54 | Every spore with a CONCAT conflicts with itself |
| `Accounting.EveryRunIsAccounted` | db/policy.go:69-99 | In every run from an empty store in which each key is written under one policy, whatever else is received and refused, every recorded usage equals the bytes owned, unless a spore let in by a mismatch overwrote a usage; a policy that applies at once stays within MaxSize and MaxOpSize unless one of its own spores was let in by a mismatch |
| `Books.BatchBooksIff` | db/policy.go:77-84 | After any batch whose data keys belong to its policy, the books are right if and only if every usage it writes itself reads as the bytes owned afterwards and, unless it writes that of its own policy, the usage texts it writes are as long in total as those they replace |
| `Books.ApplyBooksIff` | db/db.go:187-227 | The same for every application of a spore |
| `Books.OverwrittenUsageIff` | db/db.go:209-227 | After a spore let in by a mismatch sets the usage of its own policy, the books are right if and only if it wrote the number of bytes owned |
| `Books.ForeignUsageShifts` | db/db.go:190-222 | A spore let in by a mismatch that sets another policy's usage in a text of another length breaks the books, whatever the figure |
| `Accounting.NoWrap` | db/policy.go:77-84 | The unsigned usage - oldSize + newSize does not wrap and is the number of bytes owned afterwards |
| `Accounting.DryRunIsTheRun` | db/endorsement.go:52-75 | A dry run that passes leaves exactly the values Apply writes from the same store |
| `Accounting.DryRunIsShort` | db/policy.go:47-51 | Every value that survives the dry run respects MaxOpSize |
| `Accounting.UnvettedIff` | db/endorsement.go:39-86 | A spore beyond its policy's limits is let through if and only if a requirement does not match |
| `Versions.EveryMixedRunIsNeat` | db/db.go:209-227 | In every run mixing spores and recovery, each value outside the internal keys carries the hash of its data, and a written spore names an internal key only if it was let in by a mismatch |
| `Versions.InternalKeyIff` | db/policy.go:43-45 | A spore naming an internal key is let through if and only if a requirement does not match |
| `Versions.MismatchSkipsTheChecks` | db/endorsement.go:39-50 | A SET with an outdated requirement is applied under a policy without quorum whatever key it names, internal ones included |
| `Versions.EveryRunIsNeat` | db/db.go:209-227 | The same as `EveryMixedRunIsNeat` for every run of consensus alone |
| `Database.ScanRequirements` | db/endorsement.go:39-50 | The requirement loop, for every map order, gives one of the verdicts the state machine allows |
| `Database.Fetch` | db/endorsement.go:56-62 | A key is loaded and its old size added the first time it is met, and only then |
| `Database.CheckOperation` | db/policy.go:37-67 | Verdict of the policy check: unknown policy, internal key, size, forbidden operation at a matching specification, no matching specification |
| `Database.Simulate` | db/endorsement.go:52-75 | The dry run and the sum of the old sizes of the keys met |
| `Database.Execute` | db/db.go:187-207 | The operation loop of Apply and the sum of the old sizes |
| `Database.ExecuteOnValues` | db/db.go:187-207 | The same loop on Value objects with their caches, one per key: the error, or objects that stand for the values of the specification and share nothing |
| `Database.RunObject` | db/db.go:203-206 | One operation on the object of its key leaves every other object alone |
| `Database.FetchObject` | db/db.go:191-201 | A key met for the first time gets an object of its own |
| `Database.TotalSize` | db/policy.go:89-92 | The sum of the lengths of the values, for every map order |
| `Database.Prepare` | db/db.go:187-222 | The batch of Apply: every value with its hash, and the usage entry |
| `Database.EndorsedBy` | db/endorsement.go:247-252 | Whether an emitter has endorsed already |
| `Database.DB.constructor` | db/db.go:79-94 | A new database is the initial state |
| `Database.DB.CheckConflictWithStaging` | db/endorsement.go:88-99 | Finds a conflict if and only if a staged spore conflicts |
| `Database.DB.CanEndorse` | db/endorsement.go:31-86 | The verdict of the state machine, mismatch included, for every map order |
| `Database.DB.MayApply` | db/db.go:170-185 | The grace-period and duplicate checks |
| `Database.DB.Apply` | db/db.go:163-238 | The error and the whole new state of an application |
| `Database.DB.ExecuteEndorsement` | db/endorsement.go:156-208 | The whole new state of a promotion: applied at once, staged with or without an own endorsement, or dropped; and whether it panics, for an unknown policy or an unreadable usage |
| `Database.DB.ApplyAtOnce` | db/endorsement.go:158-161 | The whole new state of a promotion that bypasses staging, and whether Apply panics |
| `Database.DB.Endorse` | db/endorsement.go:135-154 | The error returned and the whole new state: promoted, put on the waiting list or unchanged |
| `Database.DB.VetEndorsement` | db/endorsement.go:237-291 | The outcome of the checks on an endorsement, in their order |
| `Database.DB.RegisterEndorsement` | db/endorsement.go:212-221 | The first lock region: which trigger, staged or waiting, the endorsement joins, which one the call goes on with, and the error returned |
| `Database.DB.CommitEndorsement` | db/endorsement.go:224-232 | The second lock region: the spore leaves staging and is sent to Apply if and only if its quorum is reached |
| `Database.DB.Unlist` | db/endorsement.go:230-230 | The spore leaves staging, and the departure is recorded if it was there |
| `Database.DB.AddEndorsement` | db/endorsement.go:211-235 | The error returned and the whole new state; the second region runs if and only if the endorsement joined a staged spore |
| `Database.DB.ReconsiderOne` | db/db.go:131-139 | One iteration of the promotion loop |
| `Database.DB.CollectGarbage` | db/db.go:122-142 | A whole gc pass visits the waiting spores once each, in some order, and leaves the state of the machine's pass in that order |
| `Database.DB.CleanApplied` | db/db.go:241-253 | Exactly the entries with a death after both the epoch and now are deleted |
| `EncodedSet.Drive` | db/encoding/set.go:34-126 | A Set object driven by any sequence of Add and Remove calls from empty: the buffer is the encoding of distinct non-empty records, every stored offset points at its own record, the index holds exactly the mathematical set, Contains agrees with it, and a second object that parses the buffer has the same offsets |
| `EncodedSet.UpdateAll` | db/encoding/set.go:44-89 | The contents of an object after any sequence of calls |
| `EncodedSet.UpdateOne` | db/encoding/set.go:44-89 | The contents after one call |
| `EncodedSet.AskAll` | db/encoding/set.go:34-41 | The answers of Contains |
| `EncodedSet.Reload` | db/encoding/set.go:102-126 | Parsing the buffer of a reachable set into a new object gives the same offsets |
| `EncodedSet.EveryRunIsWellFormed` | db/encoding/set.go:34-89 | The records such a sequence leaves are distinct and non-empty and are the mathematical set |
| `EncodedSet.ReloadRebuildsIndex` | db/encoding/set.go:91-126 | Parsing a marshalled reachable set rebuilds the very same element-to-offset map |
| `EncodedSet.ParseEncode` | db/encoding/set.go:102-126 | Reading a buffer gives back the records written |
| `EncodedSet.EncodeParse` | db/encoding/set.go:102-126 | A buffer is accepted only if it is the encoding of the records read |
| `EncodedSet.TruncationDetected` | db/encoding/set.go:108-117 | A cut buffer is accepted if and only if the cut falls between two records, and never panics |
| `EncodedSet.ParseStep` | db/encoding/set.go:109-122 | The loop body in wrapping 64-bit arithmetic accepts, rejects or panics exactly as the specification of the format says |
| `EncodedSet.PlaceAfterCut` | db/encoding/set.go:78-85 | Removing a record moves exactly the offsets behind it, by its length |
| `EncodedSet.RecordLayout` | db/encoding/set.go:55-57 | A record is eight little-endian bytes of length and the element |
| `EncodedSet.AddAppends` | db/encoding/set.go:55-57 | A new element goes to the end of the buffer, a known one leaves it alone |
| `EncodedSet.DuplicateRecordsComeBack` | db/encoding/set.go:62-89 | An element stored twice and removed once is gone from the index and found again by parsing |
| `EncodedSet.Set.constructor` | db/encoding/set.go:26-30 | A new set is empty |
| `EncodedSet.Set.Contains` | db/encoding/set.go:34-41 | True exactly for non-empty indexed elements |
| `EncodedSet.Set.Add` | db/encoding/set.go:44-60 | New contents, result and error; every offset still points at its own record |
| `EncodedSet.Set.Remove` | db/encoding/set.go:63-89 | New contents, result and error; every offset still points at its own record |
| `EncodedSet.Set.Rebase` | db/encoding/set.go:81-85 | Exactly the offsets beyond the removed record move |
| `EncodedSet.Set.MarshalBinary` | db/encoding/set.go:92-98 | The buffer is the encoding of the contents |
| `EncodedSet.Set.UnmarshalBinary` | db/encoding/set.go:102-126 | The loop ends; accepted, rejected or panicking as the format says; an accepted buffer is indexed |
| `Uint64.EncodeDecode` | db/encoding/uint64.go:8-19 | Every uint64 survives the trip through its bytes, whatever follows them |
| `Uint64.DecodeEncode` | db/encoding/uint64.go:8-19 | Every eight bytes are the encoding of the number they decode to |
| `Uint64.LittleEndian` | db/encoding/uint64.go:6-12 | Byte i is the digit of weight 256 to the power i |
| `Values.InvisibleIffCoherent` | db/operations/value.go:20-55 | The cached forms go unnoticed by every operation if and only if they are what the bytes decode to |
| `Values.CoherentAfter` | db/operations/set.go:3-20 | An operation keeps the caches right if and only if, before it: for ADD and MUL no set is cached, for SADD no number is cached, for SREM the element is not stored twice |
| `Values.SequencesIff` | db/operations/value.go:20-55 | For every sequence on a new value, no operation at any point could tell the caches from the bytes if and only if no numeric operation follows a set operation, and no SADD a numeric one, without a SET or CONCAT in between, and no SREM meets an element stored twice; and then the run gives what fresh parsing gives |
| `Values.BytesMean` | db/operations/raw.go:3-15 | SET replaces the bytes and CONCAT appends to them, whatever was cached |
| `Values.NumbersMean` | db/operations/float.go:5-21 | ADD and MUL succeed on two numbers, with no bytes for zero, and leave the text of their sum or product |
| `Values.SetsMean` | db/operations/set.go:3-20 | SADD and SREM succeed on the bytes of a set and a non-empty element, and which records they leave |
| `Values.SetsHoldZeroBytes` | db/encoding/set.go:55-57 | Every non-empty set buffer shorter than 2^56 bytes has a zero byte in its first length, which no number text has |
| `Values.CachedRunIsFreshRun` | db/operations/value.go:26-55 | For every unmixed sequence, running through the caches gives the same bytes or error as parsing afresh before each step |
| `Values.MixingBreaksTheCache` | db/operations/float.go:13-19 | An empty set, then ADD: a later operation sees the stale set |
| `Values.Value.constructor` | db/operations/value.go:16-18 | A new value has no caches |
| `Values.Value.Reset` | db/operations/value.go:20-23 | Both caches are dropped, the bytes stay |
| `Values.Value.Float` | db/operations/value.go:26-39 | The cached or parsed number; the cache is filled only on success |
| `Values.Value.LoadSet` | db/operations/value.go:42-55 | The cached or parsed set; the cache is filled only on success |
| `Values.Value.FloatGeneric` | db/operations/float.go:5-21 | New bytes and cache, or an error and the same bytes |
| `Values.Value.SetGeneric` | db/operations/set.go:3-20 | New bytes and cache, or an error and the same bytes |
| `Values.Value.Run` | db/operation.go:78-85 | The runner of every operation, on the object's fields |
| `TrustWeb.AddMeans` | myc/sec/keys.go:62-72 | The capped addition is exact below the threshold and reaches it exactly when the sum does |
| `TrustWeb.AddLowersIff` | myc/sec/keys.go:62-72 | An addition lowers a level exactly when that level lies strictly between HIGH and ULTIMATE and nothing ultimate is added |
| `TrustWeb.TrustedIsLeast` | myc/sec/ed25519_trust.go:158-166 | There is a least set containing everyone it supports |
| `TrustWeb.LeastIsFixedPoint` | myc/sec/ed25519_trust.go:158-166 | A key is in it if and only if its own trust plus what its members signed for it reaches the threshold |
| `TrustWeb.SpreadOne` | myc/sec/ed25519_trust.go:187-211 | Crediting one signature keeps the search invariant: accumulated trust, signers, queue and necessity |
| `TrustWeb.EndSearch` | myc/sec/ed25519_trust.go:167-215 | When the queue is empty, effective trust reaches the threshold exactly on the least set, signedBy lists exactly its signers, once each, and effective trust falls below the user's trust exactly for unnamed levels that a trusted key has signed, where no such signature is ultimate |
| `TrustWeb.VisitUltimate` | myc/sec/ed25519_trust.go:198-201 | A signer gives no more trust than it has: ultimate trust is the user's own or handed on by a key that has it |
| `KeyRing.TrustedIff` | myc/sec/keys.go:74-75 | A key is trusted if and only if its own trust plus what the trusted keys signed for it is at least three |
| `KeyRing.SigningMakesTrusted` | myc/sec/ed25519_trust.go:32-69 | Once a trusted key has signed for an identity at the threshold, that identity and everyone trusted before are trusted |
| `KeyRing.SignAndAsk` | myc/sec/ed25519_trust.go:32-69 | The same on the object: AddSignature and then Trusted answer without error |
| `KeyRing.SignatureIsFiled` | myc/sec/ed25519_trust.go:32-69 | The signature is filed with the signer about the signee, at the stated level or, for a local one, at the signee's own trust; no other pair, public key or own trust changes |
| `KeyRing.KeyRingEd25519.BuildTrustWeb` | myc/sec/ed25519_trust.go:167-215 | For every map order the search ends, dequeues each key at most once, dequeues exactly the least trusted set and settles on it |
| `KeyRing.KeyRingEd25519.Populate` | myc/sec/ed25519_trust.go:171-181 | For every map order the initial loop establishes the search invariant |
| `KeyRing.KeyRingEd25519.Spread` | myc/sec/ed25519_trust.go:187-211 | The inner loop visits each signature of the current key once |
| `KeyRing.KeyRingEd25519.Credit` | myc/sec/ed25519_trust.go:189-210 | The effect of one signature |
| `KeyRing.KeyRingEd25519.WaitForStaleCleared` | myc/sec/ed25519_trust.go:136-146 | The cached web is that of the current keys afterwards |
| `KeyRing.KeyRingEd25519.IsTrusted` | myc/sec/ed25519_trust.go:121-132 | No error exactly for known keys in the least fixed point of the current keys, unknown identities reported as such |
| `KeyRing.KeyRingEd25519.GetSignatures` | myc/sec/ed25519_trust.go:7-24 | Exactly the signatures of the trusted signers |
| `KeyRing.CopySignatures` | myc/sec/ed25519_trust.go:17-21 | The copying loop: exactly the listed signers, each with its signature |
| `KeyRing.KeyRingEd25519.AddPublic` | myc/sec/ed25519.go:115-143 | The errors; on success the key has the given bytes and trust, and keeps its signatures if and only if the bytes are the same, other keys unchanged; the cache stays honest |
| `KeyRing.KeyRingEd25519.RemovePublic` | myc/sec/ed25519.go:182-191 | The key is gone unless it is the local one; the cache stays honest |
| `KeyRing.KeyRingEd25519.AddSignature` | myc/sec/ed25519_trust.go:32-69 | The errors; on success the signer has filed the signature about the signee and nothing else changes, on failure nothing changes; the cache stays honest |
| `KeyRing.KeyRingEd25519.ImportUnsafe` | myc/sec/ed25519.go:270-317 | The errors; under which identity and with which trust a public key is stored, other keys unchanged; the cache stays honest, on failure too |
| `KeyRing.KeyRingEd25519.constructor` | myc/sec/ed25519.go:49-59 | The web filled in by hand is the right one |
| `KeyRing.ServeAll` | myc/sec/ed25519_trust.go:121-146 | Over any sequence of requests, failing ones included, every answer is the one a ring without cache would give |
| `KeyRing.Serve` | myc/sec/ed25519.go:115-191 | One request: the new keys, the reply, and a cache that stays honest |
| `Recovery.EveryStoreIsDecided` | myc/recovery.go:90-147 | Over every sequence of answers handled one at a time, the store is the initial one with the decided entries written over it, and each decision rests on quorum distinct identities whose checked answers arrived and report its version |
| `Recovery.EveryDecisionIsJustified` | myc/recovery.go:138-146 | Every decision has quorum distinct identities reporting its version, which is that of the answer just arrived, and no running recovery has a winner |
| `Recovery.EveryRecoveryIsHonest` | myc/recovery.go:90-147 | Over every such sequence, if each recovery of a non-internal key asks for more answers than there are faulty identities and the hash is injective, the key keeps its value or gets one that an honest identity reported under its signature |
| `Recovery.EveryDecisionIsInTime` | myc/recovery.go:105-147 | In every run, each decision was taken on an answer that came at most sixty seconds after the start of its own recovery, which had run since, and with the quorum it was started with |
| `Recovery.LateAnswerStops` | myc/recovery.go:105-114 | A later answer from a trusted peer stops the recovery and stores and decides nothing |
| `Recovery.AnswerDoes` | myc/recovery.go:90-147 | What an answer does: it completes a quorum for its version and an entry of that version is stored, or it is filed, or it ends an expired recovery, or nothing |
| `Recovery.StartDoes` | myc/recovery.go:239-259 | A recovery starts without answers, for sixty seconds, unless one is running for the key |
| `Recovery.StrayAnswer` | myc/recovery.go:91-100 | Answers from untrusted peers or to no recovery change nothing |
| `Recovery.OnlyTheArrivedWins` | myc/recovery.go:138-146 | If nothing had won before, only the version just arrived can win, whatever the map order |
| `Recovery.RecoveredDataIsHonest` | myc/recovery.go:116-146 | The same for one decision, whose data is also that of the answer just arrived |
| `Recovery.Tally` | myc/recovery.go:176-182 | The counting loop, for every map order |
| `Recovery.CheckQuorum` | myc/recovery.go:175-191 | Picks an answer whose version has a quorum of reporters, if and only if there is one |
| `Recovery.Reached` | myc/recovery.go:184-188 | The second loop finds a version with a quorum of answers, if and only if there is one |
| `Recovery.Mycelium.constructor` | myc/recovery.go:239-259 | No recovery is running at first |
| `Recovery.Mycelium.StartRecovery` | myc/recovery.go:239-259 | A recovery of a minute starts unless one is running for the key |
| `Recovery.Mycelium.StopRecovery` | myc/recovery.go:262-278 | The recovery of that key is dropped, no other |
| `Recovery.Mycelium.HandleRaw` | myc/recovery.go:90-147 | The whole new state after an answer: ignored, expired, refused, filed, or filed and decided |
| `Framing.StreamRoundTrip` | myc/protocol/protocol.go:71-128 | Frames with known functions and payloads within the limit, packed back to back, are unpacked in order with nothing left over |
| `Framing.UnpackPackIff` | myc/protocol/protocol.go:71-128 | A packed frame comes back, the rest of the stream untouched, if and only if its function code is one of the eight and its payload at most 2^30 bytes |
| `Framing.TruncationDetected` | myc/protocol/protocol.go:95-128 | A frame cut anywhere is reported |
| `Framing.ReadWritten` | myc/protocol/protocol.go:108-112 | Reading back a written varint (Base 128 Varints section of the Protocol Buffers encoding specification), whatever follows it |
| `Framing.VarintShape` | myc/protocol/protocol.go:81-81 | The written form: base-128 digits, least significant first, the high bit on every byte but the last, no longer than needed |
| `Framing.FrameLayout` | myc/protocol/protocol.go:78-85 | A frame is its function code, the length and the payload |
| `Framing.PutUvarint` | myc/protocol/protocol.go:81-81 | The loop writes the base-128 digits |
| `Framing.InputStream.ReadUvarint` | myc/protocol/protocol.go:108-112 | The loop reads a varint, with its overflow and end-of-input cases |
| `Framing.Call.PackCall` | myc/protocol/protocol.go:71-86 | The packed form of the call |
| `Framing.Call.UnpackCall` | myc/protocol/protocol.go:95-138 | The call or the error, and in both cases what is left of the stream |

## Left out

- Cryptography: signing, verification and hashing are function parameters; `Quorum` assumes that what verifies under an honest key was signed by its owner, `Recovery.RecoveredDataIsHonest` that the hash is injective.
- Numbers: `db/encoding/float.go` is a record of functions; only printing without loss and zero as neutral element are assumed, and that operands can be exchanged where confluence needs it. Rounding, NaN, infinities and negative zero (zero is not neutral for it) are not part of this model, and real Floats round, so confluence of ADD and MUL is a statement about exact arithmetic.
- Regular expressions and their compilation: a specification is a predicate on keys.
- The key ring of a node is fixed during a run of `Node`; the ring's own changes are in `KeyRing`.
- The LRU cache of spore hashes: a hash is a function of the spore, and a uuid stands for one spore.
- Storage drivers: the store is a map with an atomic batch that does not fail.
- Clocks count whole seconds and do not go back; timers may fire at any moment, so no run depends on a timer being punctual.
- Interleavings inside `Endorse` and inside one iteration of the gc pass: each is one step, although the code takes its locks one after the other.
- Slice aliasing between stored buffers and `Set.raw`, and between messages: values are copied.
- Nil maps and pointers: an imported key without a signature map, a nil version, a nil peer session.
- Policy changes at run time, `Submit`, the catalogue and full state transfer, membership, peers, transport, handshake, clients, servers, drivers and generated code: not part of this model.
- Quorum.QuorumSafety: a trigger has gathered a quorum when it has enough endorsements without counting the local key under both of its names, because the code lets that key be counted twice.
- Accounting.EveryRunIsAccounted: assumes that each policy's bytes stay at most 2^53, the range in which a Float is exact.
- Books.BatchBooksIff: assumes that the bytes owned stay below 2^53 and that larger figures are not rounded below it; total lengths are compared modulo 2^64, as the code computes.
- Replicas.ReplicasConverge: assumes the same range, and does not compare the versions of keys used as sets, because the bytes of a set depend on the order of insertion.
- Confluence.AnyOrder: compares set keys by their records and not by bytes or version, for the same reason.
- Values.CachedRunIsFreshRun: leaves out SREM of an element that the buffer holds twice, besides mixed sequences, because the code does differ there.
- Values.CoherentAfter: assumes that numbers are printed as non-empty texts and that no non-empty set buffer reads as a number; for buffers of 2^56 bytes and more the second is not true of every text.
- Database.DB.Apply: the operation loop works on the fields of values rather than on `Value` objects; `Database.ExecuteOnValues` proves the same loop on the objects, for values that fit in memory.
- Recovery.Mycelium.HandleRaw: answers are handled one at a time, so the `stale` mark, which only late concurrent answers see, is not modelled.
- Framing.Call.UnpackCall: the payload is bytes; protobuf marshalling is not part of this model.
- TrustWeb.EndSearch: says nothing about the exact effective trust of a key with an unnamed level and an ultimate signature, because it depends on the order of the map iterations.
- KeyRing.KeyRingEd25519.AddSignature: the two lock regions are one step, and the result of the signature check is a parameter.
