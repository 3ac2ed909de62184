# The FVM's data structures and execution core, in Dafny

A model of the Filecoin virtual machine (`ref-fvm`) in Dafny 4.11, with proofs of what the
repository relies on: that content-addressed maps and arrays depend on nothing but their contents,
that no run of any actors creates tokens, leaves state dangling or writes through a read-only call,
that none destroys tokens unless the burnt-funds actor burns its own balance, the init actor changes
its state or creates an actor, or actor IDs and addresses were mixed up before (the exact condition is
under "Choices", and runs that break it and lose tokens are shown), that what runs wrote can always be
flushed, that gas is accounted for to the last unit, and that the engines sharing a pool of instances
neither run out nor block each other.

`dafny verify dfyconfig.toml` checks all of it.

## How it is organised

| modules | what they model |
|---|---|
| `BitStrings` | reading keys bit by bit, for both tries |
| `HamtForm`, `HamtNode`, `Hamt`, `HamtIter` | the HAMT: canonical form and its uniqueness, set, delete, flush, resumable iteration |
| `KamtExt`, `KamtNode`, `KamtDelete`, `Kamt` | the KAMT: bit-packed extensions, matching, splitting and merging, canonical form, set, get and delete |
| `AmtForm`, `Amt`, `AmtIter`, `AmtDiff`, `AmtCodec` | the AMT: canonical form, growth and collapse, stack iterator, structural diff, bitmap encoding |
| `CborGrammar`, `CborScan`, `IpldScan` | DAG-CBOR as a recursive grammar, and the kernel's counter loop over it |
| `BufferedStore`, `Dag` | the second scanner, the flush of the reachable blocks, and that both scanners see the same links |
| `HistoryMap`, `StateTree`, `StateTreeRuns`, `AccessTracker` | nested transactions by undo logs over caches |
| `Gas` | nested limits, the Wasm counter, settlement |
| `Blocks`, `Events`, `CallManager`, `Kernel` | the block registry, event entries, the call manager, the syscalls |
| `SyscallTrees`, `Semantics`, `TreeLaws` | actors as syscall trees, what each of them does as a big-step relation, and what all of them keep |
| `Execution`, `Losses`, `Executor` | running them as the call manager and the kernel do, runs that lose funds, messages |
| `InstancePool` | the engine instance pool as steps of a concurrent protocol |

## Choices

- A CID is the block, node or tree that it is the digest of: digests are injective. In the call
  manager, the kernel and the flush, CIDs are codec, hash code and digest, and the digest of a block
  is an arbitrary function that keeps its codec, so nothing there depends on injectivity.
- Keys, values and the order and hash of keys are arbitrary. HAMT keys may share hashes: which maps
  can be stored is then exactly `HamtForm.Storable`. KAMT keys have distinct 256-bit hashed keys.
- What an actor's code does is an arbitrary finite tree of syscalls (`SyscallTrees.Invocation`). The
  Wasm engine, and the syscalls that only read the outside world, do not appear in it except as the
  gas they use (`Execute`).
- Prices are arbitrary natural numbers or functions of the sizes that the price list looks at.
- The state tree has two forms. `StateTree.Tree` is a map with a stack of copies; the class with
  caches and undo logs is proved to implement it operation by operation and run by run. The call
  manager works on the simple form, and on that of the access tracker.
- Funds can vanish in two ways: an actor created by a send is given an ID that is taken, or the
  burnt-funds actor itself self-destructs. Both are recorded, with the amount, as a
  `CallManager.Mishap`, and balances plus recorded losses are kept by everything. When they can not
  happen is a condition on what is about to run and on the actors before, checked in advance.
  - On what runs, `SyscallTrees.TameTarget`: the burnt-funds actor (99) does not burn its balance; the
    init actor (1) neither sets its state root nor creates an actor under an ID that was not given out
    before. All other actors, constructors of new accounts among them, may do anything. A tree that
    sends nothing to those two by their IDs is tame (`SyscallTrees.ShunsIsTame`).
  - On the actors, `SyscallTrees.Begins`: all IDs are below the init actor's next one (`Fresh`), which is
    above 99, and no address that is remembered or known to the init actor leads to those two (`Clear`).
    Without `Clear` the same is proved for trees in which also the actors found by an address keep to
    what those two must not do (`Law.clear`).

  Under it `Execution.TransactCall` and `Executor.ExecuteMessage` keep the sum of balances exactly, and
  the condition on the actors, so `Executor.ExecuteAll` does over any sequence of messages. `Losses` has
  a run for each way in which only one part of the condition is missing and the sum does drop;
  `Losses.PlaygroundExists` shows that the machines that all this is about exist.
- What a syscall tree does is said in `Semantics`, without gas, undo logs, call depth or transactions: a
  call that does not succeed has not happened, but for the blocks that it stored. `Execution` has all of
  these, and every operation there hands out a ghost log of what it did, proved to be one that the
  semantics gives the tree. That balances add up and that tame trees lose nothing is proved of the logs,
  in `TreeLaws`, under every `Law`, which says which of the two losses are to be ruled out and from
  which conditions.
- Gas decides whether a syscall comes about, not what it does: an error of a syscall that runs nobody else
  is never for lack of gas, which ends the run, and means that it is not allowed (`Semantics.May`).
- The errors of the modelled operations are modelled, except failures of the store. `or_fatal` makes any
  error fatal, also running out of gas.
- 64-bit saturation and overflow checks are written out where they can matter: gas, the CBOR counter,
  the spans and keys of the AMT.

## Where the code does not do what one might expect

- `diff` of two AMTs is wrong exactly when the higher tree has no entry that fits under the lower
  height (and neither is empty): the lower tree's entries are then not reported. `AmtDiff.Diff`
  states this as an equivalence and `AmtDiff.MovedEntryIsMissed` gives an input.
- Iterating over an AMT from an index that lies strictly inside a missing sub-tree yields the later
  entries under wrong indices, off by the start's position in that sub-tree, and loses those that would
  be moved beyond the largest index. `AmtIter.CollectFrom` states exactly when it is right.
- An AMT link node without links is read back as a leaf (`AmtCodec.RoundTrip`). Canonical trees have
  none.
- The instance pool is capped at 48 * 1024. With a larger call depth an engine within its limit can
  find it empty (`InstancePool.ShortPoolRunsOut`); up to the cap it cannot.
- A failed constructor of an account that a send creates does not undo the creation
  (`Execution.CreateAccountFromSend`), and an upgrade drops the actor's delegated address
  (`Execution.ReplaceCode`).
- With a minimum data depth beyond the number of levels, every set into a HAMT or KAMT fails.

## Model

| member | source | states |
|---|---|---|
| BitStrings.HashBits.Next | ipld/kamt/src/hash_bits.rs:53-64 | the next `i` bits, or what is left of them, as the number that they write most significant bit first; which error exactly when; the cursor moves by what was read |
| BitStrings.HashBits.NextBits | ipld/kamt/src/hash_bits.rs:66-95 | masking and shifting across byte borders reads the same number as bit by bit |
| BitStrings.AgreeWhole | ipld/hamt/src/hash_bits.rs:40-83 | two keys that agree on every digit read are the same key |
| HamtNode.LoadNode | ipld/hamt/src/node.rs:68-147 | a block is loaded exactly when it is `Loadable`: as many pointers as bits, no more than the bit width allows, none only at the root, buckets of allowed size where data may be; loading keeps what it stores |
| HamtNode.LoadableAscends | ipld/hamt/src/node.rs:119-128 | comparing neighbours is enough: the keys of a bucket that loads ascend throughout and none is there twice |
| HamtNode.CanonicalLoads | ipld/hamt/src/node.rs:68-147 | every canonical block passes the checks of loading at its depth |
| HamtNode.GetValue | ipld/hamt/src/node.rs:229-266 | a lookup answers what the map says, through links, caches and buckets |
| HamtNode.ModifyValue | ipld/hamt/src/node.rs:269-390 | the tree after a set is the canonical tree of the new map; the answer is the replaced value and whether the map changed; it fails only if that map has no tree |
| HamtNode.ModifyBucket | ipld/hamt/src/node.rs:322-388 | a bucket is replaced in, inserted into in order, or pushed down when full, and stays canonical |
| HamtNode.PushDown | ipld/hamt/src/node.rs:343-378 | a full bucket and the new pair become the canonical node of all of them |
| HamtNode.InsertChild | ipld/hamt/src/node.rs:284-295 | a set into a free slot makes a bucket, or links down to the minimum data depth |
| HamtNode.InsertSorted | ipld/hamt/src/node.rs:380-387 | the bucket stays sorted and gains exactly the new pair |
| HamtNode.RmValue | ipld/hamt/src/node.rs:393-461 | the tree after a delete is the canonical tree of the map without the key; the answer is the removed pair |
| HamtNode.RmFromBucket | ipld/hamt/src/node.rs:441-459 | removing from a bucket, with its slot if it was the last pair, keeps the tree canonical |
| HamtNode.Clean | ipld/hamt/src/node.rs:512-520 | after a delete a child is removed exactly when it is empty, which happens only above the minimum data depth |
| HamtNode.CleanPointer | ipld/hamt/src/pointer.rs:199-262 | a child that fits in a bucket is pulled up sorted, all others stay: the canonical slot of what is left |
| HamtNode.CollectValues | ipld/hamt/src/pointer.rs:220-246 | the pairs of a node are collected exactly when they all lie in buckets and fit in one |
| HamtNode.SortByKey | ipld/hamt/src/pointer.rs:248-255 | the collected pairs in key order, none lost |
| HamtNode.Flush | ipld/hamt/src/node.rs:463-481 | flushing replaces every dirty child by its CID and changes nothing that is stored |
| HamtForm.OnesMonotone | ipld/hamt/src/node.rs:522-527 | the rank of a slot among the set bits is below the number of pointers and grows with the slot |
| HamtForm.SortedUnique | ipld/hamt/src/node.rs:380-387 | a set of pairs has one sorted bucket |
| HamtForm.CanonicalUnique | ipld/hamt/src/pointer.rs:199-262 | a map has at most one canonical tree at a depth |
| HamtForm.CanonicalStorable | ipld/hamt/src/node.rs:282-295 | a map has a canonical tree only if data can lie at the minimum depth and no more keys than fit in a bucket share a hash |
| Hamt.Hamt.Set | ipld/hamt/src/hamt.rs:172-185 | a set succeeds exactly when the new map can be stored; the contents and the old value |
| Hamt.Hamt.SetIfAbsent | ipld/hamt/src/hamt.rs:213-227 | sets only an absent key and says so |
| Hamt.Hamt.Get | ipld/hamt/src/hamt.rs:249-259 | the value in the map |
| Hamt.Hamt.Delete | ipld/hamt/src/hamt.rs:309-321 | removes the key and returns the pair; never fails |
| Hamt.Hamt.Flush | ipld/hamt/src/hamt.rs:324-332 | the CID, remembered or not, is that of the canonical tree of the contents |
| Hamt.Replay | ipld/hamt/src/hamt.rs:172-332 | any history of sets, conditional sets, deletes and flushes from empty succeeds exactly when every map on the way can be stored, and ends with the canonical tree of the final map |
| Hamt.SameCidSameContents | ipld/hamt/src/hamt.rs:324-332 | two HAMTs have the same CID if and only if they have the same contents |
| HamtIter.Iter.Next | ipld/hamt/src/iter.rs:97-126 | yields the first of what is left and leaves the rest |
| HamtIter.Collect | ipld/hamt/src/iter.rs:37-45 | iteration ends and yields every pair of the map exactly once |
| HamtIter.ItemsHold | ipld/hamt/src/iter.rs:97-126 | the pairs of a canonical tree, in iteration order, are the pairs of the map, each once |
| HamtIter.IterFrom | ipld/hamt/src/iter.rs:46-95 | starting at a key succeeds exactly when the key is there, and then yields the suffix of the whole iteration that begins with it |
| CborGrammar.FlatIsGrammar | fvm/src/ipld/cbor.rs:47-137 | reading with a counter of items to go accepts exactly the encodings of the recursive grammar, with the same links, fields and CIDs in document order |
| CborGrammar.FlatTakesBytes | fvm/src/ipld/cbor.rs:111-127 | no more items are read than there are bytes, so counter overflow never loses a valid block |
| CborScan.LinkVisitor.ChargeGas | fvm/src/ipld/mod.rs:56-63 | a charge that does not fit empties the remaining gas |
| CborScan.LinkVisitor.VisitCid | fvm/src/ipld/mod.rs:70-111 | which CIDs are ignored, reported, scanned in place or rejected |
| CborScan.LinkVisitor.Scan | fvm/src/ipld/cbor.rs:47-137 | succeeds exactly when the buffer is one item that the gas can pay for; reports its links and charges its exact cost |
| CborScan.LinkVisitor.ScanField | fvm/src/ipld/cbor.rs:49-130 | one turn of the counter loop is one step of the reader |
| CborScan.SkipField | fvm/src/ipld/cbor.rs:53-127 | what follows a field that is no link, and how many items then come, as the reader says; an error, overflow of the counter among them, means that nothing can be read |
| CborScan.LinkVisitor.ScanLink | fvm/src/ipld/cbor.rs:74-110 | a tag 42 is accepted exactly when a zero byte and one whole visitable CID follow |
| CborScan.TakeLink | fvm/src/ipld/cbor.rs:75-106 | the CID in the byte string of a tag 42 and what follows, exactly if there is one |
| CborScan.CostIs | fvm/src/ipld/cbor.rs:51-74 | the charge is fields times the price of a field plus CIDs times the price of a CID |
| CborScan.ScanBlock | fvm/src/ipld/mod.rs:114-137 | for every codec: accepted if and only if the block is of the grammar and affordable; links and gas are exact; an error other than out of gas means that it is not of the grammar |
| IpldScan.Rfc7049Valid | fvm/src/ipld/cbor.rs:19-45 | the header reader reads exactly the headers of section 2.1 of RFC 7049, in front of anything |
| IpldScan.ScanForReachableLinks | fvm/src/ipld/mod.rs:123-137 | the scanner over RFC 7049 headers |
| BufferedStore.ScanForLinks | fvm/src/blockstore/buffered.rs:84-136 | the flush scanner succeeds exactly on what its own reader accepts and appends its links in order |
| BufferedStore.KernelBlocksFlush | fvm/src/blockstore/buffered.rs:84-136 | every block that the kernel accepts is scanned by the flush scanner without error or counter overflow |
| BufferedStore.CountIsUnfolded | fvm/src/ipld/mod.rs:65-111 | the links that the kernel scanner reports are, in order, the CIDs that the flush's own reader finds in the item and in the inline blocks below it, without those that are no links to stored blocks; CIDs and fields are counted exactly |
| BufferedStore.LinksAreMentioned | fvm/src/ipld/mod.rs:65-111 | so a CID is a link of a block if and only if the block mentions it, directly or in inline blocks, and it is one of an allowed codec with a BLAKE2b-256 hash |
| BufferedStore.Process | fvm/src/blockstore/buffered.rs:153-196 | one popped CID: what is taken, what is pushed, and a smaller cache or less to scan |
| BufferedStore.TakeReachable | fvm/src/blockstore/buffered.rs:139-199 | the taken blocks are those reachable from the root through cached DAG-CBOR blocks and inline CIDs, each once; all others stay; it ends, and without error on kernel-accepted blocks |
| BufferedStore.BufferedBlockstore.Flush | fvm/src/blockstore/buffered.rs:46-49 | the reachable blocks move to the base store and every lookup answers as before |
| BufferedStore.BufferedBlockstore.Get | fvm/src/blockstore/buffered.rs:205-211 | the cached block, else the one of the base store |
| BufferedStore.BufferedBlockstore.PutKeyed | fvm/src/blockstore/buffered.rs:213-216 | the block is found afterwards and no other answer changes |
| Dag.WalkIsReachable | fvm/src/blockstore/buffered.rs:139-199 | wherever the kernel's links lead, the flush gets |
| Dag.ReachableIsLinked | fvm/src/blockstore/buffered.rs:139-199 | in a store of scanned blocks, a block is reached by the flush if and only if the kernel's links lead to it |
| Dag.NothingIsMissing | fvm/src/kernel/default.rs:319-341 | no dangling state, by the flush's own notion: in a closed store of scanned blocks every block that can be reached from a stored root is there |
| HistoryMap.HistoryMap.Insert | fvm/src/history_map.rs:44-58 | sets the key; every earlier point of the history is as it was |
| HistoryMap.HistoryMap.GetOrTryInsertWith | fvm/src/history_map.rs:71-83 | the present value, or the new one if it is not an error, inserted; history kept |
| HistoryMap.HistoryMap.Rollback | fvm/src/history_map.rs:86-96 | restores the exact map of that point of the history; a future point is no change |
| HistoryMap.HistoryMap.DiscardHistory | fvm/src/history_map.rs:104-106 | keeps the map and drops the history |
| StateTree.StateTree.GetActor | fvm/src/state_tree.rs:163-180 | the actor that readers see; filling the cache changes nothing |
| StateTree.StateTree.SetActor | fvm/src/state_tree.rs:183-191 | the simple form with the actor set; clean cache entries stay equal to the stored ones |
| StateTree.StateTree.DeleteActor | fvm/src/state_tree.rs:216-226 | the simple form without the actor |
| StateTree.StateTree.LookupId | fvm/src/state_tree.rs:194-213 | what the simple form looks up, with the resolution remembered |
| StateTree.StateTree.RegisterNewAddress | fvm/src/state_tree.rs:262-277 | what the simple form registers: next ID, new init state and its blocks, remembered resolution |
| StateTree.StateTree.BeginTransaction | fvm/src/state_tree.rs:280-285 | saves what is seen and remembered |
| StateTree.StateTree.EndTransaction | fvm/src/state_tree.rs:288-308 | a reverted layer leaves what was saved, a committed one what is there; without a transaction it is an error |
| StateTree.StateTree.Flush | fvm/src/state_tree.rs:316-360 | outside of transactions, writing only the dirty entries makes the stored actors equal to all that readers see |
| StateTree.LookupIsRight | fvm/src/state_tree.rs:194-213 | a resolution, remembered or not, is the one of the init actor now |
| StateTree.RegisterIsRight | fvm/src/init_actor.rs:90-104 | registering a new address keeps all remembered resolutions right, and it resolves to its ID |
| StateTreeRuns.Replay | fvm/src/state_tree.rs:163-360 | any sequence of operations on caches and undo logs is the same sequence on a map with a stack of copies |
| StateTreeRuns.TransactionEffect | fvm/src/state_tree.rs:280-308 | whatever balanced operations a transaction holds, reverting it restores the actors and resolutions exactly, and committing keeps them |
| StateTreeRuns.AlwaysResolvesRight | fvm/src/state_tree.rs:194-213 | if the init actor's map only grows, every remembered resolution is right at every point of every run, across rollbacks |
| AccessTracker.StateAccessTracker.BeginTransaction | fvm/src/call_manager/state_access_tracker.rs:47-53 | saves what was charged for |
| AccessTracker.StateAccessTracker.EndTransaction | fvm/src/call_manager/state_access_tracker.rs:56-67 | reverting forgets exactly the accesses made inside |
| AccessTracker.StateAccessTracker.RecordActorRead | fvm/src/call_manager/state_access_tracker.rs:75-80 | a read is recorded and does not lower an update |
| AccessTracker.StateAccessTracker.RecordActorUpdate | fvm/src/call_manager/state_access_tracker.rs:83-87 | an update is recorded |
| AccessTracker.StateAccessTracker.GetAddressLookupState | fvm/src/call_manager/state_access_tracker.rs:90-92 | ID addresses and recorded addresses are free |
| AccessTracker.StateAccessTracker.RecordLookupAddress | fvm/src/call_manager/state_access_tracker.rs:95-100 | other addresses are recorded |
| Gas.GasTracker.ChargeGas | fvm/src/gas/mod.rs:192-203 | fits exactly if it is at most what is available; otherwise the limit is used up; use never exceeds the limit at any level |
| Gas.GasTracker.PushLimit | fvm/src/gas/mod.rs:235-243 | the new limit is the smaller of what is available and what is asked |
| Gas.GasTracker.PopLimit | fvm/src/gas/mod.rs:246-255 | adds exactly the inner use to the outer one, without saturation and within the outer limit |
| Gas.RoundedUseFits | fvm/src/gas/mod.rs:283-292 | the rounded use of a message never exceeds its limit |
| Gas.RoundUpIs | fvm/src/gas/mod.rs:74-78 | the least whole gas that covers the milligas |
| Gas.WasmCounter.UpdateGasAvailable | fvm/src/syscalls/mod.rs:74-100 | the counter is set to what the tracker has available; it always fits |
| Gas.WasmCounter.ChargeForExec | fvm/src/syscalls/mod.rs:104-172 | charges the drop of the counter, however it splits into execution and memory; ends with the tracker at the counter or zero; out of gas exactly when the counter is negative |
| Gas.ComputeGasOverestimationBurn | fvm/src/gas/outputs.rs:62-91 | used, refunded and burned gas add up to the limit; nothing is burned up to 110% of the use, all that is unused from about 210% on, and in between the unused gas times the share of it above 110%, rounded down, as two inequalities |
| Gas.HigherLimitBurnsMore | fvm/src/gas/outputs.rs:76-88 | a higher limit never burns less |
| Gas.ComputeOutputs | fvm/src/gas/outputs.rs:20-59 | every output is determined: base fee up to the cap, premium up to what the cap leaves, the burned share of the unused gas; no part is negative, they add up to fee cap times limit, and with the penalty they cover the base fee |
| Blocks.BlockRegistry.PutInner | fvm/src/kernel/blocks.rs:127-146 | a block is registered exactly when there is room and, if checked, all its links are reachable; which CIDs become reachable |
| Blocks.BlockRegistry.Get | fvm/src/kernel/blocks.rs:149-157 | handles from one to the number of blocks are valid |
| Blocks.PutKeepsOk | fvm/src/kernel/blocks.rs:127-146 | registering a block whose links are in the store leaves nothing dangling |
| Blocks.ClosedAdd | fvm/src/kernel/default.rs:460-489 | writing a block whose links are there keeps the store closed under links |
| Blocks.WholeDagPresent | fvm/src/kernel/default.rs:319-341 | in a closed store the whole DAG below a stored root is there |
| CallManager.CallManager.GetActor | fvm/src/call_manager/default.rs:438-447 | the actor seen; the exact charge, for the first time only; out of gas is the only failure |
| CallManager.CallManager.SetActor | fvm/src/call_manager/default.rs:449-462 | the exact charge before anything changes, and the record of it |
| CallManager.CallManager.DeleteActor | fvm/src/call_manager/default.rs:464-477 | the exact charge before it deletes, and the record of it |
| CallManager.ChargedOnce | fvm/src/call_manager/default.rs:438-477 | an actor is charged for once when it is looked up and once when it is changed, until a rollback; others are not concerned |
| CallManager.CallManager.Transfer | fvm/src/call_manager/default.rs:479-515 | on success the payer has the value less and the payee has it more, and no other field and no other actor changes; which error exactly; only running out of gas can leave a change behind |
| CallManager.TransferMoves | fvm/src/call_manager/default.rs:506-507 | the transfer moves the value and nothing else |
| CallManager.TransferConserves | fvm/src/call_manager/default.rs:479-515 | a transfer keeps the sum of all balances |
| CallManager.CallManager.CreateActor | fvm/src/call_manager/default.rs:356-411 | an actor is created where there is none, or from a placeholder with the same delegated address, keeping its balance, state and sequence; exactly when it may be |
| CallManager.CreateConserves | fvm/src/call_manager/default.rs:356-411 | creation keeps the sum of all balances |
| CallManager.CallManager.ResolveAddress | fvm/src/call_manager/default.rs:423-436 | the resolution of the state tree, charged for the first time only; actors unchanged |
| CallManager.CallManager.RegisterAddress | fvm/src/call_manager/default.rs:538-542 | the registration of the state tree, charged; the store stays closed |
| CallManager.CallManager.Locate | fvm/src/call_manager/default.rs:423-436 | the ID that an address has, remembered or from the init actor; actors unchanged |
| CallManager.RegisterAssigns | fvm/src/init_actor.rs:90-104 | registering gives out the next ID and changes nothing but the init actor's state |
| CallManager.CallManager.CreateActorFromSend | fvm/src/call_manager/default.rs:538-549 | the new actor is at the init actor's next ID, which grows by one; nothing else changes; what an actor on that ID held is the only loss, and is accounted for |
| CallManager.CallManager.BeginTransaction | fvm/src/call_manager/default.rs:245-251 | opens a layer of the tree, the events and the access records together |
| CallManager.CallManager.EndTransaction | fvm/src/call_manager/default.rs:253-262 | closes the layer in all three; reverting restores actors, resolutions, events and access records |
| CallManager.LostGrows | fvm/src/call_manager/default.rs:538-549 | recorded losses never bring funds back, so the sum of balances never grows |
| Kernel.Kernel.Root | fvm/src/kernel/default.rs:300-317 | the state root of the actor, which becomes reachable; the only error but gas is that the actor is gone |
| Kernel.Kernel.SetRoot | fvm/src/kernel/default.rs:319-341 | only a reachable root is set, it is in the store, and never when read-only; which error exactly when |
| Kernel.Kernel.CurrentBalance | fvm/src/kernel/default.rs:343-350 | the balance, zero for a deleted actor |
| Kernel.Kernel.SelfDestruct | fvm/src/kernel/default.rs:352-384 | the balance goes to the burnt-funds actor and the actor is gone, and nothing else changes; a syscall error changes nothing and means read-only or an unspent balance that is not to be burnt; only the burnt-funds actor itself can lose funds this way |
| Kernel.DestroyAccounts | fvm/src/kernel/default.rs:352-384 | self-destruction keeps balances plus recorded losses |
| Kernel.DestroyedIsGone | fvm/src/kernel/default.rs:352-384 | after self-destruction the actor is not there, the burnt-funds actor has what it held, and everybody else is as before |
| Kernel.Kernel.BlockOpen | fvm/src/kernel/default.rs:391-431 | a reachable block is never missing; it is registered with its links, which become reachable; an error but gas means that it is not reachable, not well formed, or that there is no room |
| Kernel.Kernel.BlockCreate | fvm/src/kernel/default.rs:433-458 | only a well-formed block that links to reachable blocks is registered, with its links; nothing becomes reachable; an error but gas means that it is not such a block, or that there is no room |
| Kernel.Kernel.BlockLink | fvm/src/kernel/default.rs:460-490 | the block is stored under its CID, which becomes reachable; the store stays closed; an error but gas means a wrong handle or hash |
| Kernel.Kernel.ScanLinks | fvm/src/ipld/mod.rs:123-137 | accepted if and only if well formed and affordable, and then exactly the cost is charged; a failed scan charges too, all that there was if it ran out; a syscall error means malformed |
| Kernel.Kernel.CreateActor | fvm/src/kernel/default.rs:850-879 | only the init actor, and not read-only; exactly which actor comes about, and exactly when it does not |
| Kernel.Kernel.ResolveAddress | fvm/src/kernel/default.rs:823-832 | the ID that the address has, or not found exactly if it has none; changes no actor |
| Kernel.Kernel.BalanceOfActor | fvm/src/kernel/default.rs:929-937 | the balance of an existing actor |
| Kernel.Kernel.EmitEvent | fvm/src/kernel/default.rs:1017-1143 | an event with exactly the entries that the buffers stand for is appended on success only; a syscall error means read-only or that they stand for none; the exact charge |
| Events.ReadEntries | fvm/src/kernel/default.rs:1043-1130 | succeeds if and only if the headers cut both buffers into entries within all limits, each key UTF-8 by itself, with nothing left over; and yields those entries |
| Events.NextIsReadable | fvm/src/kernel/default.rs:1056-1114 | if the buffers stand for entries, every check of the loop passes |
| Events.CutBetween | fvm/src/kernel/default.rs:1047-1080 | checking all keys at once is enough: UTF-8 cut between characters is UTF-8 |
| Events.Joined | fvm/src/kernel/default.rs:1047-1080 | keys that are UTF-8 one by one are so together, and meet between characters |
| SyscallTrees.EnrolledAbides | fvm/src/call_manager/default.rs:538-549 | if all IDs in use are below the init actor's next one, an actor created by a send overwrites nothing, and they still are; no address comes to lead to the init or the burnt-funds actor |
| SyscallTrees.TameForEach | fvm/src/call_manager/default.rs:606-649 | what is tame for all actors that the receiver could be is tame for the one it is |
| SyscallTrees.ShunsIsTame | fvm/src/call_manager/default.rs:606-649 | a tree that sends nothing to the init actor and the burnt-funds actor by ID is tame for everyone else, whatever it does |
| SyscallTrees.DestroyAbides | fvm/src/kernel/default.rs:352-384 | self-destruction loses nothing unless the burnt-funds actor burns its own balance, and keeps IDs fresh |
| TreeLaws.RunsLaw | fvm/src/call_manager/default.rs:748-800 | every run that the semantics gives a tree keeps balances plus losses, and if the tree is tame under a law, none of the losses that the law names happens and IDs stay fresh; by induction on the tree |
| TreeLaws.StepsLaw | fvm/src/kernel/default.rs:126-490 | the same for one syscall with all that it runs |
| TreeLaws.CallsLaw | fvm/src/call_manager/default.rs:606-693 | the same for a call, with the receiver that it creates on the way |
| TreeLaws.ArrivesLaw | fvm/src/call_manager/default.rs:606-649 | finding or creating the receiver; with clear addresses only an ID address leads to the init or the burnt-funds actor |
| TreeLaws.FoundsLaw | fvm/src/call_manager/default.rs:555-594 | a new account whose constructor is tame for a new actor, such as one that sets its state root, loses nothing |
| TreeLaws.LeafLaw | fvm/src/kernel/default.rs:300-490 | syscalls that run nobody else: what each does keeps balances plus losses and, where tame, IDs fresh |
| Execution.Run | fvm/src/call_manager/default.rs:748-800 | a run that ends is one that the semantics gives its tree, syscall by syscall; so balances plus losses are kept, and under any law that the tree is tame for none of the named losses happens; nothing dangles, open transactions, limits and the call stack are as before, and a read-only actor changes neither actors nor events |
| Execution.Step | fvm/src/kernel/default.rs:126-490 | for each syscall exactly what it does to actors, resolutions, store, events and open blocks (`Semantics.Steps`): a state root is set, an event appended, an actor created, a block stored; an error but gas means that it was not allowed and changed nothing; and the same as for a run |
| Execution.LeafStep | fvm/src/kernel/default.rs:300-490 | each syscall that runs nobody else does what `Semantics.Leaf` says of it, and fails, but for gas, only if it may not succeed |
| Execution.RootStep | fvm/src/kernel/default.rs:319-341 | success sets the root of the executing actor, which was reachable, and changes nothing else; an error means read-only, not reachable or no actor |
| Execution.CreateStep | fvm/src/kernel/default.rs:850-879 | success puts exactly the created actor at the ID; an error means that it may not be put there |
| Execution.DestructStep | fvm/src/kernel/default.rs:352-384 | success burns the balance and removes the actor, recording what is lost; an error means read-only or a balance not to be burnt |
| Execution.EmitStep | fvm/src/kernel/default.rs:1017-1143 | success appends the event with the entries that the buffers stand for |
| Execution.LinkStep | fvm/src/kernel/default.rs:460-490 | success stores the open block under its CID, which becomes reachable |
| Execution.MakeStep | fvm/src/kernel/default.rs:433-458 | success opens a block with the data and its links, all of them reachable |
| Execution.OpenStep | fvm/src/kernel/default.rs:391-431 | success opens the stored block with its links, which become reachable |
| Execution.SendMessage | fvm/src/kernel/default.rs:126-198 | read-only is inherited; no value moves when read-only; a call that succeeds did what the semantics says of it, from this actor with its value and parameters, any other left everything as it was but blocks; the reason of a refusal; the returned block is opened |
| Execution.SenderPays | fvm/src/call_manager/default.rs:664-687 | for every method and receiver: before the receiver runs, the executing actor has paid it the value, and nothing else has changed |
| Execution.PlainSend | fvm/src/kernel/default.rs:126-198 | a plain send to an ID moves exactly the value from this actor, or changes no actor |
| Execution.SentMoves | fvm/src/call_manager/default.rs:664-687 | what a payment is: the payer had the value and has it less, the payee has it more, and nothing else changed |
| Execution.StoreReturn | fvm/src/kernel/default.rs:167-197 | there is always room for the returned block, which is opened after the others |
| Execution.TransactCall | fvm/src/call_manager/default.rs:245-263 | success is a call that the semantics gives the tree; anything else leaves actors, resolutions, events and access records as they were; after any outcome balances plus losses are what they were; conservation: from fresh IDs and clear addresses, a tree in which actor 99 does not burn itself and actor 1 neither changes its state nor creates beyond the IDs given out leaves exactly the sum of balances |
| Execution.BeginCall | fvm/src/call_manager/default.rs:245-252 | the call inside its open transaction |
| Execution.Conclude | fvm/src/call_manager/default.rs:253-262 | ending the transaction never fails |
| Execution.CallActor | fvm/src/call_manager/default.rs:172-243 | running out of a gas limit is an exit code unless the caller has no gas left either; call depth; success is a call of the semantics |
| Execution.WithGasLimit | fvm/src/call_manager/default.rs:202-214 | the gas limit bounds what the call uses, and the outer limit is as before |
| Execution.WithStackFrame | fvm/src/call_manager/default.rs:937-956 | the depth limit, and the depth as before afterwards |
| Execution.CallActorUnchecked | fvm/src/call_manager/default.rs:606-649 | finds the receiver and enters it as the semantics says; the call stack is as before afterwards |
| Execution.FindReceiver | fvm/src/call_manager/default.rs:619-642 | the ID that the address has; key addresses and those of the EAM's namespace without one get the next ID and an actor; all others are not found; nothing is created when read-only |
| Execution.MakeReceiver | fvm/src/call_manager/default.rs:621-636 | an actor at the next ID, by the kind of address |
| Execution.CreatePlaceholder | fvm/src/call_manager/default.rs:598-602 | exactly a placeholder at the next ID |
| Execution.CreateAccountFromSend | fvm/src/call_manager/default.rs:555-594 | the zero key is refused; an account at the next ID, whose constructor then runs; whatever exit code it ends with, the account and what the constructor did stay |
| Execution.CallActorResolved | fvm/src/call_manager/default.rs:652-693 | the value is paid and then the receiver runs its tree, or nothing for a plain send; the result is how its code ended; where gas is free, payment and a short tree happen exactly |
| Execution.Pay | fvm/src/call_manager/default.rs:664-687 | the transfer exactly if the receiver exists and the sender has the funds, up to gas |
| Execution.ChargeReturn | fvm/src/call_manager/default.rs:802-885 | the charge for a returned block; out of gas is the only change to the result |
| Execution.RunActor | fvm/src/call_manager/default.rs:731-811 | an engine instance is held while the actor runs: never more instances than the call depth |
| Execution.NewKernel | fvm/src/call_manager/default.rs:705-743 | the new actor has its parameters open, and the old code CID in an upgrade; it can reach what the parameters link to, and nothing else |
| Execution.Finish | fvm/src/call_manager/default.rs:802-885 | how the end of the code becomes a result: which block and which exit code; a missing block is an exit code of its own for a return and fatal for an abort |
| Execution.CheckUpgrade | fvm/src/kernel/default.rs:212-229 | allowed exactly if above a frame that invokes the actor there are only its own upgrades |
| Execution.UpgradeActor | fvm/src/kernel/default.rs:205-293 | refused when read-only or when the actor is on the call stack below others; success ran the new code's upgrade entry point with the new code in place; the reason of a refusal |
| Execution.TransactUpgrade | fvm/src/kernel/default.rs:243-277 | where the new code runs no syscall, success leaves exactly the old actor with the new code and no delegated address; otherwise that is where its run begins; a failed upgrade leaves everything as it was; a tame one keeps the sum of balances exactly |
| Losses.DestroyBurntFunds | fvm/src/kernel/default.rs:352-384 | a run after which the sum of balances has dropped: the burnt-funds actor destroys itself, with an init actor, fresh IDs and clear addresses, so that only the tree is not tame |
| Losses.OverwriteActor | fvm/src/call_manager/default.rs:538-549 | a run after which the sum of balances has dropped: a send to a new address puts a placeholder on a taken ID, with a tame tree and clear addresses, so that only the IDs are not fresh |
| Losses.SelfDestructionOnlyBurns | fvm/src/kernel/default.rs:352-384 | a tree that just self-destructs is tame for every actor but the burnt-funds actor, and for whoever is found by an address |
| Execution.ReplaceCode | fvm/src/kernel/default.rs:244-263 | new code, same state, sequence and balance; the delegated address is dropped |
| Executor.Executor.Preflight | fvm/src/executor/default.rs:332-463 | the sender, which is who the message's from address resolves to, pays fee cap times gas limit and its sequence grows by one; or nothing changes, with exactly the exit code (7, 1 or 2) and penalty of the first check that fails |
| Executor.SenderIs | fvm/src/executor/default.rs:401-430 | who may send: accounts, and placeholders of the EAM's namespace that never sent, whose code, and nothing else, becomes that of an Ethereum account |
| Executor.Executor.CallTop | fvm/src/executor/default.rs:144-253 | the receipt reports the milligas charged, rounded up, or the limit after a fatal error; the top-level call in its transaction is one of the semantics or leaves everything as it was but blocks; losses as in the tree |
| Executor.Executor.Apply | fvm/src/executor/default.rs:97-174 | the price of inclusion is charged first, exactly if it fits; the receipt is for all that was charged; balances plus losses are kept, and a tame tree abides by the law; a message that does not succeed changes no actor and emits nothing |
| Executor.InclusionIsPaid | fvm/src/executor/default.rs:115-166 | the gas that a receipt reports is what was charged, rounded up, or the limit after a fatal error; it covers the price of inclusion and is within the limit |
| Executor.OnlySuccessSucceeds | fvm/src/executor/default.rs:185-253 | the receipt says success exactly for success, and never more gas than the limit |
| Executor.ReceiptTells | fvm/src/executor/default.rs:185-253 | exit code and return data of the call; exit code 7 for out of gas, 6 for lack of funds, 5 for no receiver, 10 otherwise; gas used, or the limit after a fatal error |
| Executor.Executor.FinishMessage | fvm/src/executor/default.rs:466-533 | exactly the fees for the gas used are paid out; it fails exactly if an actor to be credited is missing, and then what was deposited until there is known; the sum check and the negative-amount check never fail |
| Executor.SettlementIs | fvm/src/executor/default.rs:493-514 | who gets what: the burnt-funds actor both burns, the reward actor the tip, the sender the refund; nothing else changes |
| Executor.Executor.ExecuteMessage | fvm/src/executor/default.rs:61-285 | for every message, every syscall tree and every outcome: balances, losses and what an executor error left undeposited add up to the balances before; under both laws there is no loss, and the sum is exactly kept; the sender is who the from address resolves to, pays in advance, and is settled with by exactly the fees for the gas charged, which the receipt reports and which covers inclusion; success did what the semantics says of the call; a message that fails changes nothing else; why a message is refused, and when the executor fails |
| Executor.Executor.ExecuteAll | fvm/src/executor/default.rs:61-285 | the same over every sequence of messages: the sum, fresh IDs, clear addresses and the closed store are kept from one message to the next |
| Executor.BufferFlushes | fvm/src/machine/default.rs:160-164 | after any messages the write buffer holds only blocks that the kernel's scanner reads, and over the store below it gives what is seen |
| Executor.Flush | fvm/src/machine/default.rs:160-164 | so flushing what any run wrote never fails, moves all that is reachable and changes no lookup |
| Kernel.Kernel.StoreBlock | fvm/src/kernel/default.rs:476-489 | the block goes to the write buffer, which still holds only blocks that the scanner reads; the store stays closed |
| CallManager.RegisterOverlays | fvm/src/init_actor.rs:90-104 | so do the blocks of the init actor's new state |
| InstancePool.InstancePool.Put | fvm/src/engine/instance_pool.rs:44-53 | one step of the protocol, keeping its invariant |
| InstancePool.InstancePool.Attempt | fvm/src/engine/instance_pool.rs:59-81 | one attempt to take: whoever is admitted finds an instance, so the assertion holds |
| InstancePool.InitialInv | fvm/src/engine/mod.rs:59-68 | the pool is large enough exactly if the call depth is from one to the cap of 48 * 1024 |
| InstancePool.StepKeeps | fvm/src/engine/instance_pool.rs:44-81 | locked exactly when fewer than the limit are available; the holder and the pool together have the limit; no sleeping engine without a pending wake-up while unlocked |
| InstancePool.EveryRunIsSafe | fvm/src/engine/instance_pool.rs:44-81 | all that in every state of every interleaving of any engines |
| InstancePool.RunConserves | fvm/src/engine/instance_pool.rs:44-81 | in every interleaving, the instances that are available and those that engines hold are as many as at the start |
| InstancePool.ExpectedUseNeverWaits | fvm/src/engine/mod.rs:59-68 | what the size is for: while all engines together hold no more than the expected depth for each that may run, nobody waits |
| InstancePool.NoDeadlock | fvm/src/engine/instance_pool.rs:59-81 | while an engine waits: the engine that holds the lock can return an instance; without a lock some engines are awake, and the next attempt of each takes an instance |
| InstancePool.NoRunDeadlocks | fvm/src/engine/instance_pool.rs:44-81 | so in every state of every interleaving of any engines |
| InstancePool.ShortPoolRunsOut | fvm/src/engine/mod.rs:59-68 | beyond the cap an engine within its limit can find the pool empty |
| AmtForm.SaturationIsHarmless | ipld/amt/src/lib.rs:32-38 | for every index up to 2^64 - 2, comparing with, dividing by and taking the remainder of the saturated span is that of the true power |
| AmtForm.ShapeUnique | ipld/amt/src/node.rs:348-421 | nodes of one height with the same contents are the same |
| AmtForm.CanonicalUnique | ipld/amt/src/amt.rs:275-390 | trees with the same contents have the same height and the same nodes |
| Amt.NodeGet | ipld/amt/src/node.rs:233-273 | the value at the index |
| Amt.NodeSet | ipld/amt/src/node.rs:275-332 | exactly that index changes; no empty node comes about; the previous value |
| Amt.NodeDelete | ipld/amt/src/node.rs:348-421 | exactly that index is cleared; a child that becomes empty is unlinked; the deleted value |
| Amt.NodeFlush | ipld/amt/src/node.rs:184-206 | every dirty link becomes the CID of its node |
| Amt.Amt.Get | ipld/amt/src/amt.rs:260-272 | the entry of the array, or an error beyond the largest index |
| Amt.Amt.Grow | ipld/amt/src/amt.rs:280-302 | the root is raised until the index fits, which ends in spite of saturation; the array is unchanged |
| Amt.Amt.Set | ipld/amt/src/amt.rs:275-317 | the array with the entry set; the count is its size; the tree stays canonical |
| Amt.Amt.Delete | ipld/amt/src/amt.rs:329-390 | the array without the entry; the count is its size; the tree stays canonical |
| Amt.Amt.Lower | ipld/amt/src/amt.rs:352-387 | collapsing keeps the array and ends at the least height |
| Amt.Amt.Flush | ipld/amt/src/amt.rs:417-425 | the CID, remembered or not, is that of the tree |
| Amt.Replay | ipld/amt/src/amt.rs:275-390 | any history gives the canonical tree of the array that it makes |
| Amt.SameArraySameCid | ipld/amt/src/amt.rs:417-425 | the same array has the same CID, whatever its history |
| Amt.HeightIsLeast | ipld/amt/src/amt.rs:352-387 | every index fits under the height, and would not all fit under a lower one |
| AmtCodec.Collapse | ipld/amt/src/node.rs:85-118 | the bitmap marks exactly the occupied slots and the items are theirs in order |
| AmtCodec.Expand | ipld/amt/src/node.rs:124-170 | succeeds exactly if the bitmap has the right length and as many bits as there are items, and inverts writing |
| AmtCodec.ReadNode | ipld/amt/src/node.rs:124-170 | links and values together are refused; a node without links is read as a leaf |
| AmtCodec.RoundTrip | ipld/amt/src/node.rs:85-170 | a node written and read is the same exactly if it is a leaf or has a link |
| AmtIter.Iter.Next | ipld/amt/src/iter.rs:207-273 | yields the first pair that is left; the running key is the true index of the next slot, plus the drift that the start gave it (none from the beginning), or the 64-bit maximum when that is beyond |
| AmtIter.Iter.ScanLeaf | ipld/amt/src/iter.rs:212-226 | the inner loop over a leaf |
| AmtIter.Iter.ScanLink | ipld/amt/src/iter.rs:227-267 | entering, skipping and leaving keep what is left |
| AmtIter.ItemsOrdered | ipld/amt/src/iter.rs:207-273 | keys come strictly ascending |
| AmtIter.ItemsExact | ipld/amt/src/iter.rs:207-273 | an index is listed exactly if it holds something, with its value |
| AmtIter.CollectAll | ipld/amt/src/iter.rs:44-52 | iteration ends and yields exactly the stored pairs, in ascending order |
| AmtIter.Drain | ipld/amt/src/iter.rs:207-273 | an iterator yields all that is left, each under its index plus a constant drift, until keys would exceed the largest |
| AmtIter.IterFrom | ipld/amt/src/iter.rs:76-151 | what is left is what has the start's index or a later one; the drift is the start's position inside the first missing sub-tree on its path |
| AmtIter.CollectFrom | ipld/amt/src/iter.rs:76-151 | the entries from the start on are yielded with the drift added to their indices, so exactly if and only if there is no drift or there are none |
| AmtIter.MisplacedStart | ipld/amt/src/iter.rs:119-124 | an array, built from nothing with its only entry at index 3, yields that entry under index 4 when iterated from index 1 |
| AmtDiff.OneSided | ipld/amt/src/diff.rs:100-148 | all entries as added, or as removed |
| AmtDiff.DiffLeaves | ipld/amt/src/diff.rs:150-204 | exactly the differing slots |
| AmtDiff.DiffNode | ipld/amt/src/diff.rs:206-394 | of a lower tree everything is compared if the higher one has its spine and nothing otherwise; what is compared is reported exactly, in ascending order and without no-ops |
| AmtDiff.DiffSlot | ipld/amt/src/diff.rs:292-384 | links with the same CID are passed over without loss |
| AmtDiff.Diff | ipld/amt/src/diff.rs:67-98 | the diff is exact if and only if the higher tree has an entry that fits under the lower height, or one is empty, or the heights are the same |
| AmtDiff.SpineReaches | ipld/amt/src/diff.rs:228-244 | the spine exists exactly if the array has such an entry |
| AmtDiff.PatchGivesNew | ipld/amt/src/diff.rs:67-98 | applying an exact diff to the old array gives the new one |
| AmtDiff.MovedEntryIsMissed | ipld/amt/src/diff.rs:228-244 | two arrays, built from nothing, whose diff is wrong |
| KamtExt.ExtensionBuilder.Add | ipld/kamt/src/ext.rs:181-205 | appends exactly the given bits, across byte borders |
| KamtExt.ExtensionBuilder.Build | ipld/kamt/src/ext.rs:208-213 | the bytes hold exactly the bits added, padded with zeros |
| KamtExt.ExtUnique | ipld/kamt/src/ext.rs:16-31 | a well-formed extension is determined by its bits |
| KamtExt.FromBits | ipld/kamt/src/ext.rs:145-154 | takes exactly the next bits; an extension of the length asked for also when the last bits are cut short; an error with no bits left |
| KamtExt.Split | ipld/kamt/src/ext.rs:110-116 | succeeds exactly if slot and split point lie within the extension; the three parts are the bits before, at and after the split |
| KamtExt.Unsplit | ipld/kamt/src/ext.rs:119-141 | the bits of the three parts, one after the other |
| KamtExt.SplitAndUnsplit | ipld/kamt/src/ext.rs:110-141 | putting together what was split gives back the same extension, byte for byte |
| KamtExt.LongestMatch | ipld/kamt/src/ext.rs:56-70 | as many whole slots as match are consumed; the next one differs |
| KamtExt.LongestCommonPrefix | ipld/kamt/src/ext.rs:76-105 | all keys have the bits of the extension, and some key has another next slot |
| KamtNode.MatchExtension | ipld/kamt/src/node.rs:678-697 | full match exactly if the key has the bits of the extension |
| KamtNode.FindInTrie | ipld/kamt/src/node.rs:276-315 | a lookup answers what the map says |
| KamtNode.ModifyTrie | ipld/kamt/src/node.rs:324-493 | the tree after a set holds the new map: every key under a link has its slot and extension bits, lengths are multiples of the bit width; the answer; it fails only if the minimum data depth is out of reach |
| KamtNode.SplitExtension | ipld/kamt/src/node.rs:621-650 | a key that parts from an extension gets a node in between, with nothing lost |
| KamtNode.SplitPartial | ipld/kamt/src/node.rs:716-721 | the parts of the extension and the slot between them |
| KamtNode.ModifyPairs | ipld/kamt/src/node.rs:418-492 | updates, inserts in order, or pushes down a full bucket |
| KamtNode.PushDown | ipld/kamt/src/node.rs:439-481 | a full bucket moves below the longest common extension |
| Kamt.Kamt.Set | ipld/kamt/src/kamt.rs:175-188 | succeeds exactly if data can be stored at the minimum depth; the contents and the old value |
| Kamt.Kamt.SetIfAbsent | ipld/kamt/src/kamt.rs:216-230 | sets only an absent key and says so |
| Kamt.Kamt.Get | ipld/kamt/src/kamt.rs:252-263 | the last value set |
| KamtNode.TreeUnique | ipld/kamt/src/node.rs:324-493 | a map has one tree, with the longest possible extensions, however it came about |
| KamtNode.FindLongestExtension | ipld/kamt/src/node.rs:666-672 | all that the key and those of the bucket have in common, slot by slot |
| KamtDelete.RmTrie | ipld/kamt/src/node.rs:496-579 | the tree without the key is the one tree of the map without it; the answer is the removed value |
| KamtDelete.RmPair | ipld/kamt/src/node.rs:559-577 | removing from a bucket; with its last pair the slot becomes free |
| KamtDelete.CleanDown | ipld/kamt/src/pointer.rs:127-221 | after a delete a link becomes a bucket exactly when the keys fit in one, is merged with the link below when nothing branches between them, and is removed when nothing is left; the error for an empty node at data depth never happens |
| KamtDelete.PullUp | ipld/kamt/src/pointer.rs:139-178 | a single bucket moves up; two links become one with the slot between them in the extension |
| KamtDelete.UnsplitExt | ipld/kamt/src/pointer.rs:225-238 | the bits of both extensions with the slot between them |
| KamtDelete.SurveyNode | ipld/kamt/src/pointer.rs:179-205 | how many slots are taken, and the pairs if there are only buckets |
| Kamt.Kamt.Delete | ipld/kamt/src/kamt.rs:314-327 | removes the key and returns its value; never fails |
| Kamt.Replay | ipld/kamt/src/kamt.rs:175-327 | any history of sets, conditional sets and deletes gives the tree of the map that it makes, or the empty tree if the minimum data depth is out of reach |
| Kamt.SameMapSameTree | ipld/kamt/src/kamt.rs:175-327 | two histories that make the same map make the same tree |

## Left out

- Wasmtime, module loading, instrumentation, linking and the memory limiter: foreign code.
- The early return of a syscall for lack of space for its return value, which skips the update of the
  Wasm counter (fvm/src/syscalls/linker.rs:200-205).
- KAMT iteration, flush, loading and `set_root`; the HAMT's are modelled.
- Kamt.Kamt.Set: the bitfield that packs a KAMT node's pointers is not modelled again, because it is
  the HAMT's, which is.
- KamtExt.Split: where the slot is cut short the code subtracts below zero; the model wraps around as
  a release build does, while a debug build panics.
- HamtNode.LoadNode: that links are DAG-CBOR is not checked, because a CID is the block itself.
- The words of the 256-bit bitfield (ipld/hamt/src/bitfield.rs): the model has a sequence of bits and
  counts the ones below a slot.
- AMT `for_each_while_mut` and the batch operations; AMT nodes are values, so loading a node cannot fail.
- AmtIter.Iter.Next: the stack is a list of nodes instead of a vector.
- Failures of the blockstore, and trees in a store that are not canonical.
- Kernel.Kernel.ScanLinks: a block is less than 2^64 - 1 bytes long; what a scan that fails for another
  reason than gas has charged until then is not stated.
- The syscalls for cryptography, randomness, network context and debugging, `block_read` and
  `block_stat`, `install_actor` and the lookups of code CIDs: they change nothing that is modelled but
  gas.
- Backtraces, execution traces, timers and the events root.
- Execution.Run: an actor's tree is finite and given in advance; that Wasm code stops is not modelled.
- The semaphore that bounds concurrent engines and numbers them (fvm/src/engine/concurrency.rs): engine
  IDs are distinct by being keys of a map.
- InstancePool.EveryRunIsSafe: fairness of the condition variable is not modelled, so that a waiting
  engine is eventually served is not claimed, only that it can always be.
- SyscallTrees.EnrolledAbides: runs in which the init actor itself assigns IDs, by setting its state,
  are outside of the condition under which no ID is given out twice: what its code writes there, and
  whether it goes on after an error, is not modelled. Their losses are accounted for all the same.
- Executor.Flush: the nodes of the actors HAMT that the state tree writes before the buffer is flushed
  are a parameter.
- Bitfields with run-length encoding, CAR files, the SDK and the encoders.
