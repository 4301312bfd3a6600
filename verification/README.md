# Replicated state, its signal, its group and its node

A Dafny model of the peer-to-peer state stack: the CRDT core (`noeta-crdt`), the synced signal that moves
states over a topic (`noeta-para-p2p`), the choreography of an encrypted group and the polling of its
payloads (`noeta-para-p2p-net`), and the registry that gives one directory one live node.
`dafny verify dfyconfig.toml` checks all of it.

## What is modelled

**Replicated values.** `Orders`, `BTrees` and `Clock` are the comparison, the ordered collections and the
bounded, saturating Lamport stamp. `CrdtValues` is the total order on nested data; `FloatOrder` shows that its
comparison of floats, which are bit patterns here, is totalOrder of IEEE 754-2008, section 5.10. `ValueOrder`
says of every two values which comes first. `Lattice` is the algebra of merges; `Counters`, `LwwRegisters` and
`OrSets` are the five native types, with their in-place loops as methods, and `Convergence` instantiates the
algebra at all five, for any states whatever.

**Runs of replicas.** `Replication` is a system of nodes, each owning one replica id (as
`crates/noeta-crdt/src/clock.rs:14-16` and `crates/noeta-crdt/src/lib.rs:378-380` require), that update
their own state or merge any state any node has ever held: late, repeated, reordered. Beside each state runs
its causal history, the set of updates it has absorbed. `OrSetRuns`, `LwwRuns` and `CounterRuns` prove that
the small states refine that history: observed-remove membership, the greatest write, exact counts. Counters
stay 64-bit and saturating throughout; where saturation breaks a promise, the exact condition is proved, with
a concrete input that fails.

**Synced signals.** `SyncedSignals` is the handle object over a shared log, generic in a join-semilattice
with a wire form; `SyncRuns` interleaves any number of handles, with `merge` split into its two effects and
foreign bytes arriving at any time. `EncryptedSignals` is the handle over an encrypted group instead. In both
creation, a publish or a poll may fail.

**Encrypted groups.** `EncryptedGroups` is the group object. Group encryption itself is an interface with three
parts: key-bundle events; membership as a function of the control operations processed; application data that
surfaces at once to a member, is held back for a node not yet welcomed and surfaces with its welcome, and fails
for a node that was removed. Any of its calls may fail; `GroupFaults` is about what that does to the members,
`GroupRemovals` about removed members, and `GroupBuffering` about what it, and latest-wins buffering, do to the
states handed in. `GroupBookkeeping` is about any sequence of fault-free calls on one object, `Handshake` about
a whole group, also without failing calls: members open it with listings of their own, in which one member
elects itself, are declared later too, and read one another over one first-in-first-out queue per author and
reader. `GroupPolling` is the node's open, publish and poll, for any group whatsoever, over a transport that may
refuse any operation, and `PollRuns` any turns of one topic, opened again and polled by several subscriptions.
`EncryptedRuns` puts a cell beside each member of a `Handshake` and proves that quiet signals agree;
`NestedMerges` is the run where they do not.

**The registry.** `Paths` is directory naming against a filesystem, which is a resolve function with two
laws: a result resolves to itself, and a child resolves through its parent's result. `Registry` is the node
map; every request of a run comes with a filesystem of its own.

**The value seam.** `ValueSeam` turns language values into stored data and back.

## Where the code and its documentation part

- `crates/noeta-para-p2p/src/provider.rs:233-235` says that asking for two data directories yields two
  nodes. Across filesystem changes it need not. A known name answers with the node it was first served with,
  wherever it leads by then: `Registry.AStaleNameKeepsItsNode`. And a name kept as an alias answers for a
  directory that later takes that name, under any other spelling too:
  `Registry.AnAliasCapturesALaterDirectory`. `Registry.ServedByItsOwnNodeIff` says, for every request,
  exactly when the node is the directory's own.
- `crates/noeta-para-p2p/src/synced.rs:360-362` says that a drain wakes dependents once if the value changed.
  When a poll fails in the middle it keeps what it merged and wakes nobody, and no later drain makes up for
  it: `SyncedSignals.SyncedSignal.Sync`, `EncryptedSignals.EncryptedSignal.Sync`,
  `EncryptedSignals.AFailedDrainIsSilent`.
- `crates/noeta-para-p2p-net/src/p2p_node.rs:676-678` says that a poll buffers decrypted payloads and returns
  them one per call. Opening a topic again replaces its inbox, so payloads waiting there are lost
  (`PollRuns.ReopeningLosesAPayload`); and a reaction that fails after decrypting, at
  `crates/noeta-para-p2p-net/src/p2p_crypto.rs:558-564`, discards what it had decrypted
  (`PollRuns.AFailureDiscardsPayloads`). These are the only ways: `PollRuns.NothingIsLostIff`.
- `crates/noeta-para-p2p-net/src/p2p_crypto.rs:463` and `:598` say that a member is added exactly once. One
  listed twice is added twice in one round, if the library accepts the second addition, which
  `crates/noeta-para-p2p-net/src/p2p_crypto.rs:323-346` may refuse: `GroupBookkeeping.DuplicateIsWelcomedTwice`
  and, exactly, `GroupBookkeeping.AddsOnceIff`. If it refuses, the peer itself is on the books without a
  welcome ever sent, and so is every peer added earlier in the round: `GroupFaults.ADuplicateIsStranded`,
  `GroupFaults.RoundStrandsIff`, `GroupFaults.StrandedUntilRemoved`.
- `crates/noeta-para-p2p-net/src/p2p_crypto.rs:469-470` calls latest-wins buffering safe because the latest
  state subsumes earlier ones. It is safe exactly if every state handed in over a waiting one is above it:
  `GroupBuffering.LatestWinsIsSafeIff`. States handed over in the order the cell took them are
  (`EncryptedRuns.InOrderGrows`). But a merge made from inside the wake of another publishes first
  (`crates/noeta-para-p2p/src/synced.rs:344-357`): `NestedMerges.ANestedMergeIsLost`.
- `crates/noeta-para-p2p-net/src/p2p_crypto.rs:469` says that the waiting state is flushed when welcomed. It is
  taken before it is encrypted (`:563-564`), so if that fails it is gone, and no later welcome brings it back:
  `GroupBuffering.AFailedFlushLosesAState` and, exactly, `GroupBuffering.NothingHandedIsLostIff`.
- `crates/noeta-para-p2p-net/src/p2p_crypto.rs:585` calls a removal a no-op away from the creator. The code
  still drops the member from the local lists, and so does the model.
- `crates/noeta-crdt/src/orset.rs:124-125` says that a tag is never reissued, and
  `crates/noeta-crdt/src/clock.rs:45-47` that saturation only stops the clock. At the ceiling tags are
  reissued and writes lost: `OrSets.ReAddIsLostAtCeiling`, `LwwRegisters.WriteCanBeLostAtCeiling`. The exact
  conditions are `OrSetRuns.TagsUniqueIff`, `OrSetRuns.RuleHoldsIffGuarded`, `LwwRuns.CausalityIffGuarded` and
  `LwwRuns.RegisterHoldsLatestIff`; 2^64 updates by one owner meet them: `OrSetRuns.TheCeilingIsReached`,
  `LwwRuns.TheCeilingIsReached`.

## Model

| member | source | states |
|---|---|---|
| `Clock.CmpDotLaws` | crates/noeta-crdt/src/clock.rs:22-31 | stamps, counter first and replica id second, are totally ordered |
| `Clock.NextAfterPasses` | crates/noeta-crdt/src/clock.rs:42-50 | a new stamp outranks everything up to the counter seen, exactly while the counter has room to tick |
| `CrdtValues.CmpLaws` | crates/noeta-crdt/src/value.rs:79-110 | on arbitrarily nested data the comparison is antisymmetric and transitive, and ties only on structurally identical values |
| `CrdtValues.CmpIsTotalOrder` | crates/noeta-crdt/src/value.rs:79-112 | so it is a lawful total order, whose equality is the data type's own (which order it is, `ValueOrder.CmpIsPrecedes` says) |
| `FloatOrder.SizeGrows` | crates/noeta-crdt/src/value.rs:85-88 | the numbers a binary format encodes grow with their patterns, across subnormals and every binade |
| `FloatOrder.TotalCmpIsTotalOrder` | crates/noeta-crdt/src/value.rs:85-88 | comparing patterns as signed integers is totalOrder: numbers by value, -0 below +0, NaNs outermost by payload |
| `FloatOrder.FloatsCompareByTotalOrder` | crates/noeta-crdt/src/value.rs:85-88 | both stored float widths compare so, and tie only with themselves |
| `Orders.CmpStringIsPrecedes` | crates/noeta-crdt/src/value.rs:89 | of two strings the lesser is the one with the lesser code point at the first difference, or the proper prefix |
| `ValueOrder.CmpIsPrecedes` | crates/noeta-crdt/src/value.rs:80-97 | for every two values at any depth which comes first: by kind in the written order; integers by value, false before true, floats by totalOrder; strings, bytes and lists by their first difference, a proper prefix first; maps so by key and then value |
| `ValueOrder.NumbersCompare` | crates/noeta-crdt/src/value.rs:82-88 | over all signed 64-bit integers and all 64-bit and 32-bit patterns |
| `Lattice.MergeIsLub` | crates/noeta-crdt/src/lib.rs:76-79 | a lawful merge is the least upper bound under the order it induces |
| `Lattice.TreeIsLub` | crates/noeta-crdt/src/laws.rs:29-57 | a merge tree of any shape evaluates to the least upper bound of its leaves |
| `Lattice.MergeTreesAgree` | crates/noeta-crdt/src/laws.rs:41-66 | two trees over one set of states agree, whatever the order, grouping and redelivery |
| `Convergence.EveryNativeTypeConverges` | crates/noeta-crdt/src/laws.rs:19-69 | all five native types reconcile any states, reachable or not, to one least upper bound |
| `Counters.GCounter.Increment` | crates/noeta-crdt/src/lib.rs:116-121 | raises one replica's count, saturating at 2^64-1, and no other |
| `Counters.GCounter.Merge` | crates/noeta-crdt/src/lib.rs:131-142 | the loop leaves the maximum at every replica of either counter |
| `Counters.GCounterIsLattice` | crates/noeta-crdt/src/lib.rs:131-142 | that merge is commutative, associative and idempotent |
| `Counters.PnCounterIsLattice` | crates/noeta-crdt/src/lib.rs:185-194 | the product of the two halves is a lattice |
| `Counters.GSet.Members` | crates/noeta-crdt/src/lib.rs:235-238 | lists exactly the members, ascending, each once |
| `Counters.GSetIsLattice` | crates/noeta-crdt/src/lib.rs:241-248 | union obeys the merge laws |
| `Counters.MembersOfUpdates` | crates/noeta-crdt/src/lib.rs:214-248 | an insertion adds that element and no other; a merge has what either set has |
| `Counters.UpdatesAreInflationary` | crates/noeta-crdt/src/lib.rs:114-218 | merging a counter or grow-only set with an update computed from it, saturating or not, yields the update |
| `LwwRegisters.LwwIsLattice` | crates/noeta-crdt/src/lww.rs:79-92 | the register's merge is a lattice on all states, reused replica ids included, because the value breaks ties |
| `LwwRegisters.BelowIsOrder` | crates/noeta-crdt/src/lww.rs:83-91 | the order merges induce is the order on stamp and value |
| `LwwRegisters.MergeKeepsTheNewer` | crates/noeta-crdt/src/lww.rs:79-92 | a merge keeps the register with the later counter, then the greater id, then the greater value, where no value is the least |
| `LwwRegisters.WriteIsInflationaryIff` | crates/noeta-crdt/src/lww.rs:59-66 | a write survives a merge with what it was computed from exactly below the ceiling, or when its id, then its value, wins the tie |
| `LwwRegisters.WriteCanBeLostAtCeiling` | crates/noeta-crdt/src/lww.rs:61-66 | a register at the ceiling whose next write is lost |
| `OrSets.OrSet.HighestCounter` | crates/noeta-crdt/src/orset.rs:123-134 | bounds the counter of every tag, tombstones included, and is one of them or zero |
| `OrSets.Highest` | crates/noeta-crdt/src/orset.rs:126-134 | the scan finds that bound |
| `OrSets.Insert` | crates/noeta-crdt/src/orset.rs:69-77 | adds one tag, past everything seen, to one element |
| `OrSets.Remove` | crates/noeta-crdt/src/orset.rs:83-92 | tombstones exactly the element's visible tags; it is gone, and elements with other tags stay as they were |
| `OrSets.Merge` | crates/noeta-crdt/src/orset.rs:141-154 | the loop unites tags element by element, and tombstones |
| `OrSets.Members` | crates/noeta-crdt/src/orset.rs:113-121 | lists exactly the members, ascending, each once |
| `OrSets.OrSetIsLattice` | crates/noeta-crdt/src/orset.rs:137-155 | the merge obeys the three laws on all states |
| `OrSets.UpdatesAreInflationary` | crates/noeta-crdt/src/orset.rs:63-92 | merging a set with an insertion or removal computed from it yields that update |
| `OrSets.InsertLandsIff` | crates/noeta-crdt/src/orset.rs:63-77 | an inserted element is a member, except exactly at the ceiling with its tag already tombstoned |
| `OrSets.ReAddIsLostAtCeiling` | crates/noeta-crdt/src/orset.rs:69-91 | a set whose re-add is swallowed |
| `Replication.LogIsMade` | crates/noeta-crdt/src/lib.rs:66-79 | the log of any run of any replicated type is the updates its steps make, in order, each under its author's id |
| `Replication.HearsAll` | crates/noeta-crdt/src/lib.rs:66-79 | a node that has merged the current state of every node has absorbed every update made |
| `OrSetRuns.RunKeepsInv` | crates/noeta-crdt/src/orset.rs:69-154 | in every run every state ever held is determined, tag for tag, by its causal history |
| `OrSetRuns.CountersNeverOutrunInsertions` | crates/noeta-crdt/src/orset.rs:69-70 | no tag counter anywhere exceeds the number of insertions made |
| `OrSetRuns.TagsUniqueIff` | crates/noeta-crdt/src/orset.rs:123-134 | no two insertions share a tag exactly when each found room to tick or had not stamped the ceiling itself |
| `OrSetRuns.FewInsertionsAreGuarded` | crates/noeta-crdt/src/clock.rs:45-50 | fewer than 2^64 insertions never reach that case |
| `OrSetRuns.MembershipIsObservedRemove` | crates/noeta-crdt/src/orset.rs:69-99 | an element is a member exactly when the history has an insertion of it that no removal of it there had seen; tags are unique |
| `OrSetRuns.SameHistorySameState` | crates/noeta-crdt/src/orset.rs:141-154 | nodes that absorbed the same updates hold the same state |
| `OrSetRuns.ExchangeReachesAll` | crates/noeta-crdt/src/orset.rs:141-154 | after it has merged the current state of every node, a node's members are those some insertion put in and no removal anywhere had seen |
| `OrSetRuns.TombstonesNameAdds` | crates/noeta-crdt/src/orset.rs:83-92 | every tombstone of a reachable state names a tag still among the added |
| `OrSetRuns.StaleMergeNeverResurrects` | crates/noeta-crdt/src/orset.rs:141-154 | merging a state whose insertions were all seen or removed brings nothing back |
| `OrSetRuns.ConcurrentAddWins` | crates/noeta-crdt/src/orset.rs:63-99 | an insertion no removal had seen is a member after the merge that brings it |
| `OrSetRuns.ReAddSurvives` | crates/noeta-crdt/src/orset.rs:63-92 | a re-add after a removal takes, and no state held before undoes it |
| `OrSetRuns.UnguardedBreaksRule` | crates/noeta-crdt/src/orset.rs:69-99 | a reused tag has a five-step, insertion-free future that denies a present element |
| `OrSetRuns.RuleHoldsIffGuarded` | crates/noeta-crdt/src/orset.rs:69-99 | the observed-remove rule holds in all insertion-free futures exactly when no tag was reused |
| `OrSetRuns.TheCeilingIsReached` | crates/noeta-crdt/src/clock.rs:45-50 | the bound is tight: 2^64 insertions by one owner are a run whose last reuses a tag and whose future breaks the rule |
| `LwwRuns.RunKeepsInv` | crates/noeta-crdt/src/lww.rs:61-91 | in every run a register invents nothing, and is above all it has absorbed while writes were guarded |
| `LwwRuns.CausalityIffGuarded` | crates/noeta-crdt/src/clock.rs:4-10 | every write outranks every write it had seen exactly when each found room to tick or outranked by id |
| `LwwRuns.FewWritesAreGuarded` | crates/noeta-crdt/src/clock.rs:45-50 | fewer than 2^64 writes always do |
| `LwwRuns.RegisterHoldsLatestIff` | crates/noeta-crdt/src/lww.rs:53-91 | every state ever held reads what the write with strictly the greatest stamp of its history, which none there had seen, wrote, under its author's id, and reads empty without one, exactly when every write found room to tick or outranked by id |
| `LwwRuns.RegisterHoldsLatest` | crates/noeta-crdt/src/clock.rs:45-50 | so it is with fewer than 2^64 writes |
| `LwwRuns.TheCeilingIsReached` | crates/noeta-crdt/src/clock.rs:45-50 | the bound is tight: 2^64 writes by one owner are a run where some state is not |
| `LwwRuns.SameHistorySameState` | crates/noeta-crdt/src/lww.rs:83-91 | nodes that absorbed the same writes hold the same register |
| `LwwRuns.ExchangeReachesAll` | crates/noeta-crdt/src/lww.rs:83-91 | after it has merged the current state of every node, a register reads the latest of all writes |
| `CounterRuns.RunKeepsInv` | crates/noeta-crdt/src/lib.rs:116-194 | in every run each replica's count is that owner's updates in the history, saturated |
| `CounterRuns.JoinedShare` | crates/noeta-crdt/src/lib.rs:131-142 | because owners' updates nest, an owner's share of two histories together is the larger of the two shares |
| `CounterRuns.ValueCounts` | crates/noeta-crdt/src/lib.rs:123-128 | the saturating fold is the saturated sum of the amounts in the history |
| `CounterRuns.ValuesNeverFall` | crates/noeta-crdt/src/lib.rs:94-99 | no step lowers either total of any node |
| `CounterRuns.ReconciledCountIsExact` | crates/noeta-crdt/src/lib.rs:377-398 | merging all nodes, with stale states and in any tree, counts every amount exactly once, each total up to 2^64-1; the signed value is their difference, clamped to the signed 64-bit range |
| `CounterRuns.NodeCountsItsHistory` | crates/noeta-crdt/src/lib.rs:123-128 | each state counts exactly its history, so never more than everything |
| `CounterRuns.ExchangeReachesAll` | crates/noeta-crdt/src/lib.rs:131-194 | after it has merged the current state of every node, a counter counts every amount ever counted |
| `SyncedSignals.SyncedSignal.Create` | crates/noeta-para-p2p/src/synced.rs:288-317 | the plaintext signal subscribes at the log start and announces the initial state; if either fails there is no signal and nothing was announced |
| `SyncedSignals.SyncedSignal.Merge` | crates/noeta-para-p2p/src/synced.rs:337-359 | joins the delta in, wakes once, publishes the new state; a publish that fails leaves the cell converged and the dependents woken |
| `SyncedSignals.MergePeerBytes` | crates/noeta-para-p2p/src/synced.rs:485-498 | a peer's state merged in, or nothing for bytes that do not decode |
| `SyncedSignals.ChangesAddUp` | crates/noeta-para-p2p/src/synced.rs:365-387 | the flag is sound: a drain that changed the value at any message ends with another value |
| `SyncedSignals.SyncedSignal.Poll` | crates/noeta-para-p2p/src/synced.rs:367-373 | the next message under the cursor, or none at the end |
| `SyncedSignals.SyncedSignal.Sync` | crates/noeta-para-p2p/src/synced.rs:360-393 | merges everything pending up to the poll that fails, if one does, skipping undecodable bytes; wakes once if and only if none failed and the value ended up different |
| `SyncRuns.CellsAreJoins` | crates/noeta-para-p2p/src/synced.rs:284-393 | in every interleaving each cell is the join of its initial state, its deltas and what its cursor has passed |
| `SyncRuns.QuiescentCellsAgree` | crates/noeta-para-p2p/src/synced.rs:339-393 | with nothing outstanding and all cursors at the end, every cell is the join of the whole log |
| `SyncRuns.PollsAreDrain` | crates/noeta-para-p2p/src/synced.rs:363-392 | one `sync` is a run of single polls |
| `SyncRuns.RunTakesSteps` | crates/noeta-para-p2p/src/synced.rs:284-359 | the states a handle was given are its initial one and its deltas; announced states and foreign bytes are in the log |
| `SyncRuns.QuiescentOrSetsAgree` | crates/noeta-para-p2p/src/synced.rs:487-498 | quiet handles on observed-remove sets have the same members |
| `EncryptedSignals.EncryptedSignal.Create` | crates/noeta-para-p2p/src/synced.rs:288-317 | the encrypted signal opens the group and announces the initial state through it; opening, subscribing, encrypting and every broadcast may fail, and then there is no signal, but what got out is out, and a failed announcement leaves the group open |
| `EncryptedSignals.EncryptedSignal.Merge` | crates/noeta-para-p2p/src/synced.rs:337-359 | joins the delta in, wakes once, hands the new state to the group; with no group open, or when encrypting or broadcasting fails, it fails and the cell stays converged |
| `EncryptedSignals.EncryptedSignal.Sync` | crates/noeta-para-p2p/src/synced.rs:360-393 | merges in order all that waits and all the pending messages decrypt to, up to the first that fails or has an answer refused, whose payloads then still wait; answers what they call for; wakes once if and only if none failed and the value ended up different |
| `EncryptedSignals.AFailedDrainIsSilent` | crates/noeta-para-p2p/src/synced.rs:367-391 | pending messages whose drain changes the value, fails and wakes nobody |
| `EncryptedGroups.EncryptedGroup.Open` | crates/noeta-para-p2p-net/src/p2p_crypto.rs:478-517 | the least member, and only it, creates the space and starts welcomed; all announce their bundle; if either library call fails there is no group |
| `EncryptedGroups.EncryptedGroup.Publish` | crates/noeta-para-p2p-net/src/p2p_crypto.rs:521-529 | encrypts once welcomed, else replaces what waits; a failed encryption changes nothing |
| `EncryptedGroups.EncryptedGroup.CollectEligible` | crates/noeta-para-p2p-net/src/p2p_crypto.rs:603-608 | the declared peers with a known bundle and not yet added, in order |
| `EncryptedGroups.EncryptedGroup.Welcome` | crates/noeta-para-p2p-net/src/p2p_crypto.rs:599-621 | the creator adds each of them to the space and to its books; at the addition refused, whichever of the round it is, it stops, keeps those added and returns nothing of what it built |
| `EncryptedGroups.EncryptedGroup.Receive` | crates/noeta-para-p2p-net/src/p2p_crypto.rs:534-570 | the whole reaction, with every early return: unreadable ciphertext skipped, bundles kept, payloads handed on, welcomes, then the flush |
| `EncryptedGroups.EncryptedGroup.AddMember` | crates/noeta-para-p2p-net/src/p2p_crypto.rs:576-581 | declares the peer once and runs a welcome round, which may fail |
| `EncryptedGroups.EncryptedGroup.RemoveMember` | crates/noeta-para-p2p-net/src/p2p_crypto.rs:586-595 | forgets every occurrence of the peer everywhere, even if the creator's removal of it from the space then fails |
| `EncryptedGroups.FaultlessCalls` | crates/noeta-para-p2p-net/src/p2p_crypto.rs:521-621 | with no library call failing, the calls are the plain ones the run results are about |
| `GroupFaults.ReactionFailsIff` | crates/noeta-para-p2p-net/src/p2p_crypto.rs:534-570 | exactly when a reaction fails, what it leaves then, and that unreadable application data is skipped without failing |
| `GroupFaults.CallsFailIff` | crates/noeta-para-p2p-net/src/p2p_crypto.rs:521-621 | exactly when publishing, adding and removing fail; a failed publish changes nothing |
| `GroupFaults.LogIsWellFormed` | crates/noeta-para-p2p-net/src/p2p_crypto.rs:478-621 | over any calls and failures a log is the key bundle, at the creator the creation, then data, and at the creator whole additions and removals, each on the authorisation and then on the space |
| `GroupBookkeeping.CreatorBookkeeping` | crates/noeta-para-p2p-net/src/p2p_crypto.rs:534-621 | after any calls, whatever the list, the creator has added exactly the declared peers with a known bundle, whichever came first |
| `GroupBookkeeping.AddsOnceIff` | crates/noeta-para-p2p-net/src/p2p_crypto.rs:597-621 | over all calls two additions of one peer have a removal of it between them exactly when an elected creator was opened with no other member listed twice |
| `GroupBookkeeping.WelcomesPerDeclaration` | crates/noeta-para-p2p-net/src/p2p_crypto.rs:603-619 | with no assumption on the list, a round adds a peer as often as it is listed |
| `GroupBookkeeping.DuplicateIsWelcomedTwice` | crates/noeta-para-p2p-net/src/p2p_crypto.rs:603-619 | for any creator and any peer listed more than once, the one call that brings its bundle adds it that often, with no removal |
| `GroupBookkeeping.OutgoingIsTail` | crates/noeta-para-p2p-net/src/p2p_crypto.rs:521-567 | what was broadcast or waits is a tail of what was handed in, whole and in order; before the welcome nothing has left; the welcome flushes one state once |
| `GroupBuffering.NothingHandedIsLostIff` | crates/noeta-para-p2p-net/src/p2p_crypto.rs:521-567 | over any calls and any failures, at every point each state handed in is contained in one that left or waits, exactly when every publish over a waiting state was above it, every failed publish handed in nothing new, and no welcome came with encryption failing while a state waited |
| `GroupBuffering.LatestWinsIsSafeIff` | crates/noeta-para-p2p-net/src/p2p_crypto.rs:469-471 | so without failures buffering is safe exactly when every publish over a waiting state is above it |
| `GroupBuffering.BufferingLosesNothing` | crates/noeta-para-p2p-net/src/p2p_crypto.rs:469-471 | then the states broadcast and the waiting one have the join of all handed in; nothing waits once welcomed |
| `GroupBuffering.AFailedFlushLosesAState` | crates/noeta-para-p2p-net/src/p2p_crypto.rs:563-564 | a member that handed in a state and cannot encrypt with its welcome has neither broadcast it nor kept it |
| `GroupBuffering.OverwrittenSurvivesIff` | crates/noeta-para-p2p-net/src/p2p_crypto.rs:525-527 | of any two states handed in before the welcome the first survives exactly when it is below the second |
| `GroupFaults.RoundStrandsIff` | crates/noeta-para-p2p-net/src/p2p_crypto.rs:610-619 | a welcome round strands exactly the peers added in it before the addition refused, the refused peer itself included if it is listed twice |
| `GroupFaults.StrandedUntilRemoved` | crates/noeta-para-p2p-net/src/p2p_crypto.rs:597-621 | whatever is called and whatever fails afterwards, a stranded peer is never welcomed until it is removed |
| `GroupFaults.APeerIsStranded` | crates/noeta-para-p2p-net/src/p2p_crypto.rs:610-619 | two calls on an opened group that strand a peer |
| `GroupFaults.ADuplicateIsStranded` | crates/noeta-para-p2p-net/src/p2p_crypto.rs:610-619 | one call that strands a peer listed twice, its second addition being refused |
| `GroupRemovals.RemovalForgets` | crates/noeta-para-p2p-net/src/p2p_crypto.rs:586-595 | over any state a removal drops the peer from the declared, the added and the known, keeps every other peer in order, and at the creator alone takes it out of the space and sends the two operations, unless the library refuses |
| `GroupRemovals.WelcomedAgainIff` | crates/noeta-para-p2p-net/src/p2p_crypto.rs:586-621 | over any calls a removed peer is welcomed again exactly if it is declared again and its bundle arrives again, in either order |
| `GroupRemovals.DecryptsIff` | crates/noeta-para-p2p-net/src/p2p_crypto.rs:534-553 | after any calls a node decrypts application data on arrival exactly if the last operation it read about itself let it in, keeps it for later exactly if it was neither let in nor put out last, and otherwise skips it |
| `GroupRemovals.RemovedReadsNothing` | crates/noeta-para-p2p-net/src/p2p_crypto.rs:583-595 | a node that has read its removal decrypts nothing until it reads an addition of itself |
| `Handshake.HandshakeIsSafe` | crates/noeta-para-p2p-net/src/p2p_crypto.rs:478-621 | in every reachable state the leader alone is creator, only members it declared are welcomed, nobody sent or decrypted data before reading its own welcome, and logs are bounded by members declared and states handed in |
| `Handshake.DeclaredAreNamed` | crates/noeta-para-p2p-net/src/p2p_crypto.rs:576-581 | those the leader has declared are its listing and whom it added at runtime |
| `Handshake.HandedIsGiven` | crates/noeta-para-p2p-net/src/p2p_crypto.rs:521-529 | what a member was handed is what the moves hand it, in order |
| `Handshake.OneSetElectsOne` | crates/noeta-para-p2p-net/src/p2p_crypto.rs:485-487 | listings of one set, in any order, elect its least member and no other |
| `Handshake.HandshakeCompletes` | crates/noeta-para-p2p-net/src/p2p_crypto.rs:450-454 | when the queues are empty exactly those the leader declared, at its opening or at runtime, are welcomed, with nothing waiting; each of them decrypted every plaintext any other broadcast; the others decrypted and broadcast nothing |
| `Handshake.DecryptsOnlyBroadcasts` | crates/noeta-para-p2p-net/src/p2p_crypto.rs:534-553 | nothing is decrypted that another member did not broadcast |
| `Handshake.EveryStateArrives` | crates/noeta-para-p2p-net/src/p2p_crypto.rs:469-471 | end to end, if what a declared member hands in over a waiting state is above it, every state it handed in is contained in one each other declared member decrypted, buffered and overwritten ones included |
| `Handshake.DeliveriesAreBounded` | crates/noeta-para-p2p-net/src/p2p_crypto.rs:597-621 | no delivery order goes on for ever |
| `EncryptedRuns.RunKeepsInv` | crates/noeta-para-p2p/src/synced.rs:337-393 | in every run of encrypted signals over the group a cell is the join of what its member was given and has merged, is above all it handed over or is about to, and is below the join of what it and the welcomed members were given |
| `EncryptedRuns.OwnIsGiven` | crates/noeta-para-p2p/src/synced.rs:284-359 | the states a member was given are its initial one and its deltas |
| `EncryptedRuns.InOrderGrows` | crates/noeta-para-p2p/src/synced.rs:337-357 | if cells hand their states over in the order they took them, every state handed in over a waiting one is above it |
| `EncryptedRuns.QuietSignalsAgree` | crates/noeta-para-p2p-net/src/p2p_crypto.rs:469-471 | end to end: once the group is quiet and all is merged, if every state handed in over a waiting one was above it, every declared member's value is the join of everything any of them was ever given, and any other's of what it was itself given |
| `NestedMerges.ANestedMergeIsLost` | crates/noeta-para-p2p/src/synced.rs:344-357 | a complete run, quiet at its end, of two members that disagree, because the inner of two nested merges published first and was overwritten |
| `GroupPolling.GroupNode.GroupOpen` | crates/noeta-para-p2p-net/src/p2p_node.rs:634-658 | installs the group over any of that topic with an empty inbox, under a new subscription; the old ones stay; a failing opening or subscription changes nothing, and a broadcast refused midway leaves what got out but no group |
| `GroupPolling.GroupNode.PublishAll` | crates/noeta-para-p2p-net/src/p2p_node.rs:670-672 | publishes the operations in order up to the first the transport refuses |
| `GroupPolling.AiredIff` | crates/noeta-para-p2p-net/src/p2p_node.rs:670-672 | all of them get out exactly if the transport takes as many attempts as there are operations |
| `GroupPolling.GroupNode.PollSub` | crates/noeta-para-p2p-net/src/p2p_node.rs:694-697 | takes the front of the queue, or nothing |
| `GroupPolling.GroupNode.TakeOne` | crates/noeta-para-p2p-net/src/p2p_node.rs:694-709 | one message through the group: payloads to the inbox, answers to the topic up to the first refused, other topics untouched |
| `GroupPolling.GroupNode.PollOpen` | crates/noeta-para-p2p-net/src/p2p_node.rs:684-710 | takes no more messages than it needs; what waited and what surfaced is what is returned and what waits, in order; none means all is empty; it fails exactly on the first message whose reaction fails, then with nothing waiting, or has an answer refused, then with its payloads waiting |
| `GroupPolling.GroupNode.GroupPoll` | crates/noeta-para-p2p-net/src/p2p_node.rs:679-711 | the same behind the lookups: an unknown subscription reads as empty, and a message for a group not open is an error that costs the message |
| `GroupPolling.GroupNode.GroupPublish` | crates/noeta-para-p2p-net/src/p2p_node.rs:660-674 | broadcasts what the group makes of the data, up to the first operation refused, and leaves the inbox; a failing encryption broadcasts nothing; no open group is an error that changes nothing |
| `PollRuns.EveryPayloadHasOneFate` | crates/noeta-para-p2p-net/src/p2p_node.rs:634-711 | over any arrivals, polls by any subscription of the topic, openings of it and other calls, and whatever fails, each message is taken once in order, and each payload it decrypts to is returned to one subscription, dropped by an opening, discarded by the failing reaction that decrypted it, or waits, in order |
| `PollRuns.DeskKeepsTurns` | crates/noeta-para-p2p-net/src/p2p_node.rs:676-711 | what arrived at a subscription and what was returned to it are what the turns brought it and its polls handed back, in order |
| `PollRuns.NothingIsLostIff` | crates/noeta-para-p2p-net/src/p2p_node.rs:646-706 | nothing is lost exactly when every opening of the topic finds its inbox empty and no reaction fails after decrypting something |
| `PollRuns.ReaderGetsAllIff` | crates/noeta-para-p2p-net/src/p2p_node.rs:676-693 | one subscription gets every payload, once and in order, exactly when in addition no other is handed one |
| `PollRuns.ReopeningLosesAPayload` | crates/noeta-para-p2p-net/src/p2p_node.rs:646-652 | a real history of a group whose second payload is lost to a second opening |
| `PollRuns.AFailureDiscardsPayloads` | crates/noeta-para-p2p-net/src/p2p_crypto.rs:545-567 | a real history of a group whose two payloads are both lost because the flush that comes with the welcome fails |
| `Paths.CanonicalDir` | crates/noeta-para-p2p/src/provider.rs:152-174 | the loop terminates on every path with the name the recursive definition gives |
| `Paths.NameCases` | crates/noeta-para-p2p/src/provider.rs:121-133 | a name is the longest existing ancestor's resolution with the rest as spelled, or the absolute path when stripping meets the root or `..` first |
| `Paths.ExistingIsMetFirst` | crates/noeta-para-p2p/src/provider.rs:162-172 | the second case never hides an ancestor that exists |
| `Paths.SpellingsAgree` | crates/noeta-para-p2p/src/provider.rs:119-129 | spellings whose longest existing ancestors resolve alike, with one tail, are one name |
| `Paths.RelativeIsUnderWorkingDirectory` | crates/noeta-para-p2p/src/provider.rs:152-154 | a relative spelling has the name of the same path under the working directory |
| `Paths.RootedIsTriedAsItStands` | crates/noeta-para-p2p/src/provider.rs:152-174 | a rooted one is resolved from the longest existing ancestor of itself |
| `Paths.CanonicalIsIdempotent` | crates/noeta-para-p2p/src/provider.rs:329-334 | on one filesystem a name names itself |
| `Registry.Registrar.CreateBackend` | crates/noeta-para-p2p/src/provider.rs:363-378 | a new node for the key, unless the transport refuses; the broker never does |
| `Registry.Registrar.BackendIn` | crates/noeta-para-p2p/src/provider.rs:299-323 | known key, known settled key, or a new node entered under both; a failed start enters nothing |
| `Registry.EntriesNeverRebind` | crates/noeta-para-p2p/src/provider.rs:276-283 | over any run and any filesystem changes entries, their settled keys and the nodes stay, and no later node is made for a key already entered |
| `Registry.OneKeyOneNode` | crates/noeta-para-p2p/src/provider.rs:265-278 | no two nodes were made for one settled key, and keys that settled alike when first served share a node |
| `Registry.OneBroker` | crates/noeta-para-p2p/src/provider.rs:342-359 | requests that name no node, or that the host or the build keeps off the network, are always answered, all by one broker |
| `Registry.BrokerIff` | crates/noeta-para-p2p/src/provider.rs:342-359 | and only they are: any other request never gets the broker |
| `Registry.NodesAreMadeOnRequest` | crates/noeta-para-p2p/src/provider.rs:325-359 | every node but the broker was made on an earlier request that host and build allow, for its own app id and its own directory as named at that moment |
| `Registry.UnansweredIff` | crates/noeta-para-p2p/src/provider.rs:299-323 | a request fails exactly if it would need a node of its own that neither name leads to and the transport refuses; then nothing is entered |
| `Registry.SettlingIsIdempotent` | crates/noeta-para-p2p/src/provider.rs:325-340 | on one filesystem a settled key settles onto itself |
| `Registry.SteadyIsOneDirectoryOneNode` | crates/noeta-para-p2p/src/provider.rs:251-254 | while the filesystem stands still two entries are one node exactly when they settle alike |
| `Registry.ServedByItsOwnNodeIff` | crates/noeta-para-p2p/src/provider.rs:233-323 | any request, known or not, gets the node made for the directory it names now exactly when that name is no alias and, if the asked key is already entered, leads to the same node; a node is made only for a settled key that led nowhere |
| `Registry.AnAliasCapturesALaterDirectory` | crates/noeta-para-p2p/src/provider.rs:280-283 | a run, on lawful filesystems, where a new spelling of a directory gets another directory's node |
| `Registry.AStaleNameKeepsItsNode` | crates/noeta-para-p2p/src/provider.rs:304-307 | the stale spelling itself keeps its node when it has become a directory of its own, and when it points to a third one |
| `ValueSeam.Read` | crates/noeta-para-p2p/src/values.rs:31-64 | the loops compute the recursive reading, error for error |
| `ValueSeam.StoredIffAllData` | crates/noeta-para-p2p/src/values.rs:54-62 | reading succeeds exactly when nothing at any depth is unstorable, and else names the first such thing |
| `ValueSeam.StoredDenotes` | crates/noeta-para-p2p/src/values.rs:45-53 | what comes back is the input with every map sorted and later duplicate keys winning |
| `ValueSeam.OutIsAlike` | crates/noeta-para-p2p/src/values.rs:67-84 | what is handed out is the stored value, kind by kind and item by item |
| `ValueSeam.DenotesOne` | crates/noeta-para-p2p/src/values.rs:67-84 | that description fits one value only |
| `ValueSeam.StoredSurvives` | crates/noeta-para-p2p/src/values.rs:100-103 | every stored value survives the way out and back |
| `ValueSeam.StoringTwiceIsStoringOnce` | crates/noeta-para-p2p/src/values.rs:31-84 | storing what was read back stores the same |

## Left out

- Group encryption: the p2panda-spaces library is not part of this model; key rotation, access levels and
  signatures are not claimed. Creating a space takes any number of operations, adding or removing a peer two.
- Library calls that fail half-way: one that fails is taken to have changed nothing.
- Failing calls in `Handshake`, `EncryptedRuns` and `GroupBookkeeping`: they are about fault-free calls, which
  `EncryptedGroups.FaultlessCalls` identifies.
- Handshakes with removals: `Handshake` declares members at runtime but removes none; removals are covered
  object by object in `GroupRemovals`. Nor does its leader list another member twice.
- User types with `Syncable` methods: the signal's value is any lattice with a codec, and the wire form any
  partial decoding that undoes encoding. Bytes of another type may decode.
- Errors of the engine's cells and of encoding a state.
- Grow-only counter runs: they are the positive half of `CounterRuns`, whose other half they leave alone.
- Grow-only set runs: membership is union, which the merge laws already settle.
- Element types: registers and observed-remove sets are instantiated at the stored data the language uses.
- The document type over Automerge, whose equality is by history.
- Durable logs across restarts: sequence numbers restart per topic and process, so no gapless author log is
  claimed.
- Delivery of a node's own operations back to it: in `Handshake` each member reads the logs of the others.
- Variant payloads, instance fields and handles: all are refused unread, so only their type names are kept.
- Two handles forking one value under one replica id: only the merge laws speak of that.
- Networking, storage, tasks, dispatch tables, display, the choice of default directories, and other
  processes racing on one directory.
