# Verified model of the Consistent Block Encrypter

The Consistent Block Encrypter (CBE) keeps an encrypted, copy-on-write block device whose metadata lives in
hash trees.  This project models four of its components in Dafny and proves what a client of each relies on.

1. **Meta tree allocator** (`CBE.Meta_Tree`): a depth-first walk over an on-disk hash tree that exchanges block
   addresses between leaf entries, tree nodes and the requester, and writes the touched path back child first.
   The transition function is `MetaTreeSpec`; `MetaTree` is the module in its imperative form, every method
   proved equal to the function; `MetaTreeDriver.Allocate` runs a whole request on a block map, and `AllocateAll`
   the requests of a generation.  `MetaTreeAccess` traces the block accesses of a request, `MetaTreeSuccess` says
   when it succeeds, `MetaTreeOrder` who gets which address, `MetaTreeAllocation` is what a client of a whole request
   relies on.  All this is about stored trees; `MetaTreeHash` (with `MetaTreeVisits`) says what the hash check
   guarantees for requests on any device.
2. **Free tree extension** (`CBE.FT_Resizing`): reads the path to the first unused leaf, possibly adds a root
   level, builds a branch from a contingent of fresh addresses, exchanges the addresses of old path nodes with
   the meta tree, and writes the path back.  `FtSpec` is the transition function, `FtResizing` the imperative
   module, `FtDriver.ExtendStep` a whole step on a block map on which the meta tree lives, too, with one meta tree
   request for every address the step asks for (`FtSupply`, `FtJoint`); `FtHashCheck` is about steps on any device;
   `TreeIndex` holds the shift and mask arithmetic and `FreeTree` the view of the tree as a sequence of leaves.
3. **Write-back block cache** (`CBE.Cache`, joined to the device as in `CBE.Library`): slots and jobs as
   asynchronous state machines.  `CacheSpec` is the transition function, `CacheSystem` adds device and clients,
   `CacheSubmit` says which submissions are accepted, `CacheEffects` what executing a job does, `BlockCache` is the
   imperative module.
4. **Byte file** (`Vfs_cbe::Wrapper` in vfs.cc): unaligned access through helper requests.  `VfsSpec` is the
   transition function, with the requests that the volume accepted and completed as a history, `Vfs` the imperative
   form with whole calls and ranges.

`NodeCodec` holds the node records and the block format, `NodeBytes` what it means for every byte of a block,
`HashTree` the hash trees on a block map, `Iteration` runs of a step function.  The hash function is uninterpreted.  Slot and job counts, degrees, heights
and addresses are parameters.  A raised exception is a state (`HashMismatch`, `Raised`, `ProgramError`, `Thrown`)
or a `false` result, never a precondition that hides it.

What the proofs found out about the code:

- `FtTheorems.StepAppends` with `FtTheorems.Finishes` says exactly when an extension step completes.  A full tree
  of degree 64 and height 5 already holds the highest possible number of leaves, so a step that adds a root level
  and a leaf raises after writing the new root (`FtTheorems.LargestTreeRaises`, `FtTheorems.LargestTreeRunRaises`);
  a tree of degree 64 and height 6 raises on every step (`FtTheorems.HighestAddressInRange`).
- The library hands the extension step whatever address the meta tree holds after a request, without looking at
  the request's success.  A request fails exactly if the nodes of the meta tree leave no usable entry
  (`MetaTreeSuccess.SucceedsIff`); then the address is a stale one, and the addresses of both trees are conserved
  only if it happens to be the address to be given away (`FtJoint.ConservedIff`).  If it was handed out in the
  same step, two nodes of the path would go to one address (`FtJoint.StaleIsShared`).
- `TreeIndex.ChildIndexIsDigit`: shift and mask compute the digits of an address exactly for degrees that are
  powers of two; the extension is therefore stated for those.
- `VfsTheorems.CoveredIff`: the block count is converted to 32 bits, so an aligned request of 2**44 bytes or more
  reports more bytes than it transfers; all other requests transfer what they report.  An aligned read of exactly
  2**44 bytes completes at once, successful, without a transfer (`VfsTheorems.HugeReadTransfersNothing`).
- `VfsTheorems.CompletedFlag`: the success flag of a completed call is right except that an unaligned write never
  sets it.  The source's read(), write() and sync() report OK for every complete request without looking at the
  flag: a sync that failed at the volume is reported as done, and a failed read reports all its bytes
  (`VfsTheorems.SyncCarriedOutIff`, `VfsTheorems.FailedCallIsComplete`).
- The extension step hashes the entries that it decoded and encoded again, not the block that it read.  For blocks
  whose padding is zero, and only for those, that is the same (`NodeBytes.T1RewrittenIff`,
  `FtHashCheck.PaddedIsChecked`); a block that was changed in its padding only is accepted
  (`FtHashCheck.PaddingIsNotChecked`), where the meta tree, which hashes the block, stops
  (`MetaTreeVisits.ReadIsChecked`).
- `FtOutcome.NewLeafUsableIff`: the free tree can hand out every new leaf at once, except a leaf with the address
  2**64 - 1, which a contingent may hold but the free tree takes for the invalid one.
- The flag `Node_Volatile` of the meta tree is set for nodes that are not of the current generation, and a child's
  flag is computed from its parent.  It is modelled as written; conservation, distinctness and hash consistency do
  not depend on it.

## Model

| member | source | states |
|---|---|---|
| NodeCodec.T1RoundTrip | src/lib/cbe_common/cbe.adb:393-404 | a type 1 node record reads back as written |
| NodeCodec.T2RoundTrip | src/lib/cbe_common/cbe.adb:422-442 | a type 2 node record reads back as written |
| NodeCodec.T1BlockRoundTrip | src/lib/cbe_common/cbe.adb:409-417 | a block of 64 type 1 nodes reads back as written |
| NodeCodec.T2BlockRoundTrip | src/lib/cbe_common/cbe.adb:447-455 | a block of 64 type 2 nodes reads back as written |
| NodeBytes.T1Byte | src/lib/cbe_common/cbe.adb:393-404 | every byte of a type 1 record: byte k of the address is address / 256**k % 256, the generation follows at 8, the hash at 16, zeros at 48 |
| NodeBytes.T2Byte | src/lib/cbe_common/cbe.adb:422-442 | every byte of a type 2 record: address, last virtual address, generations of allocation and freeing, last key, flag (0 or 1) at 0, 8, 16, 24, 32, 36, lowest byte first, then zeros |
| NodeBytes.T1BlockByte | src/lib/cbe_common/cbe.adb:409-417 | record i of a type 1 block lies at byte 64 * i, with these bytes |
| NodeBytes.T2BlockByte | src/lib/cbe_common/cbe.adb:447-455 | record i of a type 2 block lies at byte 64 * i, with these bytes |
| NodeBytes.T1RewrittenIff | src/lib/cbe/cbe-ft_resizing.adb:91-109 | decoding and encoding gives any block back as it was if and only if its padding bytes are zero |
| NodeBytes.T2RewrittenIff | src/lib/cbe/cbe-ft_resizing.adb:114-132 | the same for type 2 blocks, whose flags have to be 0 or 1 as well |
| HashTree.StoredUnique | src/lib/cbe/cbe-meta_tree.adb:743-757 | a root node and a device determine one hash-consistent tree |
| HashTree.StoredFrame | src/lib/cbe/cbe-meta_tree.adb:743-757 | writing a block the tree does not use leaves it hash-consistent |
| MetaTreeTheorems.SubmitEstablishesInv | src/lib/cbe/cbe-meta_tree.adb:97-126 | a submitted request starts in the invariant, with bounded work ahead |
| MetaTreeSteps.LoadNEffect | src/lib/cbe/cbe-meta_tree.adb:264-335 | the block read for an inner node passes the hash check of its parent entry, and the node is loaded with exactly the stored entries |
| MetaTreeSteps.Load1Effect | src/lib/cbe/cbe-meta_tree.adb:264-335 | the same for the lowest node and its leaf entries |
| MetaTreeSteps.LoadNKeepsInv | src/lib/cbe/cbe-meta_tree.adb:304-335 | loading an inner node keeps the invariant |
| MetaTreeSteps.Load1KeepsInv | src/lib/cbe/cbe-meta_tree.adb:304-335 | loading the lowest node keeps the invariant |
| MetaTreeDescend.Enter | src/lib/cbe/cbe-meta_tree.adb:592-634 | going down to a child keeps the tree accounted for: every address is in the frames, the hole or the subtrees |
| MetaTreeExchange.ExchangeKeepsScan | src/lib/cbe/cbe-meta_tree.adb:385-454 | exchanging an entry with the level 1 node, an inner node or the requester loses and duplicates no address |
| MetaTreeExchange.Exchange | src/lib/cbe/cbe-meta_tree.adb:456-500 | the whole scan of the leaf entries keeps the invariant |
| MetaTreeWriteBack.WriteBack | src/lib/cbe/cbe-meta_tree.adb:640-672 | writing a node back puts its hash, generation and address into the parent and keeps everything else stored |
| MetaTreeAscend.Ascend | src/lib/cbe/cbe-meta_tree.adb:674-690 | the finished subtree, stored and of the same shape, takes the hole in its parent |
| MetaTreeRun.Round | src/lib/cbe/cbe-meta_tree.adb:502-711 | every round keeps the invariant and strictly lowers the work ahead, or completes the request |
| MetaTreeTheorems.RunEnds | src/lib/cbe/cbe-meta_tree.adb:131-150 | every run ends within the bound and never leaves the invariant before |
| MetaTreeTheorems.RequestKeepsHashTree | src/lib/cbe/cbe-meta_tree.adb:264-335 | over every run: no hash mismatch, completion within a bound, and then a hash-consistent tree with the same nodes, each as it was or of the current generation, and the same leaf entries, each as it was or, if it was usable, with another address, both generations the current one, not reserved and with its last address and key; the addresses plus the new address are the old ones plus the old address |
| MetaTreeTheorems.WriteCompletesSubtree | src/lib/cbe/cbe-meta_tree.adb:635-711 | whenever a block is written all its children are on the device: the written node is the root of a stored subtree |
| MetaTreeTheorems.OutcomeServes | src/lib/cbe/cbe-meta_tree.adb:385-500 | an address that a complete request handed out was usable before and is neither usable nor held afterwards, and the addresses of the new tree with the new address are pairwise distinct |
| MetaTreeVisits.ReadIsChecked | src/lib/cbe/cbe-meta_tree.adb:289-317 | a block that was read sets the hash mismatch if and only if its hash is not the one of the node at the requested level; then nothing is loaded, otherwise exactly its entries are |
| MetaTreeHash.RequestFollowsHashes | src/lib/cbe/cbe-meta_tree.adb:264-335 | on any device, stored or not: every node that is read is the root or an entry of a block read before one level up; all blocks read match their nodes, except possibly the last one, and the request stops with a hash mismatch if and only if that one differs; no array bound is violated, and after a bounded number of rounds the request is done or stopped |
| MetaTreeHash.MismatchHasNoEffect | src/lib/cbe/cbe-meta_tree.adb:131-150 | the device is left as it was before the block that does not match was read, and but for that block as any other device that differs in it only |
| MetaTreeOrder.ScanPairs | src/lib/cbe/cbe-meta_tree.adb:456-500 | the j-th usable leaf entry exchanges its address with the j-th of those who want one: the level 1 node, the inner nodes from below, the requester last; nothing else changes |
| MetaTreeOrder.RoundPairs | src/lib/cbe/cbe-meta_tree.adb:502-569 | the next round does that for the loaded entries, and the request is served if and only if there are as many usable entries as takers |
| MetaTreeFlags.GoesDownIff | src/lib/cbe/cbe-meta_tree.adb:592-634 | an inner node is left for its next child if and only if there is one and the request is not served; the child takes part in exchanges only if the node above is of the current generation; otherwise the node is written if and only if it was changed |
| MetaTreeFlags.StartsAtRoot | src/lib/cbe/cbe-meta_tree.adb:97-126 | a request starts at the root alone, which takes part in exchanges only if it is of the current generation |
| MetaTreeFlags.RootChangesIff | src/lib/cbe/cbe-meta_tree.adb:636-645 | the root changes, and is marked as changed, exactly in the round that writes its block: it then holds hash, address and current generation |
| MetaTreeFlags.WriteUpdatesParent | src/lib/cbe/cbe-meta_tree.adb:646-660 | writing a node back sends its entries to its address and puts hash, address and current generation into the entry above |
| MetaTreeAccess.RequestAccessesOnce | src/lib/cbe/cbe-meta_tree.adb:502-711 | in every run two accesses to one address are a read followed by a write: no node is read twice, read after its write, or written twice; reads are of nodes of the old tree, writes of a complete run of nodes of the new one |
| MetaTreeAccess.OnlyWritesChange | src/lib/cbe/cbe-meta_tree.adb:264-335 | a block that the trace of a run does not write is unchanged |
| MetaTreeAccess.OnlyReadsMatter | src/lib/cbe/cbe-meta_tree.adb:264-335 | on every device with the same blocks where the trace reads, the run is the same, and the devices agree afterwards wherever they agreed before |
| MetaTreeSuccess.SucceedsIff | src/lib/cbe/cbe-meta_tree.adb:385-500 | a complete request has succeeded if and only if the nodes that take part in exchanges leave a usable leaf entry for it |
| MetaTreeSuccess.ScanKeepsFlow | src/lib/cbe/cbe-meta_tree.adb:456-500 | scanning leaf entries keeps the number of entries left for the requester, until it serves the requester from them |
| MetaTreeSuccess.FirstSucceedsIff | src/lib/cbe/cbe-meta_tree.adb:725-729 | on a gap-free tree of older generations a request succeeds if and only if some leaf entry is usable |
| MetaTreeAllocation.RunAllocates | src/lib/cbe/cbe-library.adb:1018-1040 | a complete request leaves a stored tree of the same nodes and entries, conserves addresses, changes blocks of nodes only, succeeds exactly as predicted, and on a failure leaves the new address of an earlier request behind |
| MetaTreeTheorems.UsableOnlyShrinks | src/lib/cbe/cbe-meta_tree.adb:725-729 | within a generation the entries that may still be handed out only become fewer |
| MetaTreeTheorems.UnusableIsNeverHandedOut | src/lib/cbe/cbe-meta_tree.adb:725-729 | an address that is not in a usable entry is not handed out in this generation |
| MetaTreeTheorems.NoDoubleAllocation | src/lib/cbe/cbe-meta_tree.adb:385-500 | over any sequence of requests of one generation new addresses are pairwise distinct, and no address given back is handed out again |
| MetaTree.MetaTree.constructor | src/lib/cbe/cbe-meta_tree.adb:61-85 | the initial value of every field |
| MetaTree.MetaTree.SubmitPrimitive | src/lib/cbe/cbe-meta_tree.adb:97-126 | submitting sets the whole record; it raises unless the module is idle |
| MetaTree.MetaTree.DropGeneratedCachePrimitive | src/lib/cbe/cbe-meta_tree.adb:247-259 | dropping marks the request as in progress, or raises |
| MetaTree.MetaTree.MarkGeneratedCachePrimitiveComplete | src/lib/cbe/cbe-meta_tree.adb:264-335 | a completed read is hash-checked against the node at the requested level: on a mismatch nothing but the state changes, otherwise the entries are loaded; a completed write is recorded |
| MetaTree.MetaTree.DropCompletedPrimitive | src/lib/cbe/cbe-meta_tree.adb:202-214 | dropping a completed request makes the module idle |
| MetaTree.MetaTree.ExchangeNvLevel1Node | src/lib/cbe/cbe-meta_tree.adb:385-406 | the loop body's first exchange does what the transition function says: the entry gets the node's address, both generations current, not reserved, last address and key kept |
| MetaTree.MetaTree.ExchangeNvInnerNodes | src/lib/cbe/cbe-meta_tree.adb:408-439 | the search over the inner nodes finds the lowest one that takes part and exchanges with it |
| MetaTree.MetaTree.ExchangeRequestPba | src/lib/cbe/cbe-meta_tree.adb:441-454 | the last exchange serves the requester |
| MetaTree.MetaTree.HandleLevel0Nodes | src/lib/cbe/cbe-meta_tree.adb:456-500 | the loop over the leaf entries equals the recursive specification, including its early exit |
| MetaTree.MetaTree.HandleLevel1Node | src/lib/cbe/cbe-meta_tree.adb:502-569 | the level 1 handler equals its specification |
| MetaTree.MetaTree.HandleLevelNNodes | src/lib/cbe/cbe-meta_tree.adb:571-694 | the loop handles exactly the lowest active level |
| MetaTree.MetaTree.UpdateParent | src/lib/cbe/cbe-meta_tree.adb:713-723 | the entry describes the block: on every device with that block at that address the hash check against the entry holds |
| MetaTree.MetaTree.Execute | src/lib/cbe/cbe-meta_tree.adb:131-150 | one execution is one transition, and reports progress exactly if some level is under work and no block request is |
| MetaTreeDriver.Allocate | src/lib/cbe/cbe-library.adb:1806-1830 | a whole allocation on a block device: terminates with what RunAllocates states |
| MetaTreeDriver.AllocateAll | src/lib/cbe/cbe-library.adb:1806-1830 | any number of allocations of one generation on one device: each works on the tree the last one left, all new addresses are pairwise distinct, and none is an address that was given back before |
| TreeIndex.FindLog2 | src/lib/cbe/cbe-ft_resizing.adb:137-154 | the search from bit 31 down finds the highest bit; it raises for zero only |
| TreeIndex.AndMask | src/lib/cbe/cbe-ft_resizing.adb:495-508 | masking the low bits is taking the remainder |
| TreeIndex.ChildIndexIsDigit | src/lib/cbe/cbe-ft_resizing.adb:489-509 | shift and mask give the base-degree digit for all addresses if and only if the degree is a power of two |
| TreeIndex.LowestChildIndex | src/lib/cbe/cbe-ft_resizing.adb:514-529 | the index without shift is the index of level 1 |
| TreeIndex.PathOfAddress | src/lib/cbe/cbe-ft_resizing.adb:489-529 | up to the highest address, the path of an address is a path of the tree and determines the address |
| TreeIndex.AddressOfPath | src/lib/cbe/cbe-ft_resizing.adb:979-984 | every path of the tree is the path of an address not above the highest one |
| FreeTree.LeafAtIsLeaf | src/lib/cbe/cbe-ft_resizing.adb:832-841 | in a left-packed tree with n leaves the child indices of address v lead to leaf number v |
| FreeTree.PackedCount | src/lib/cbe/cbe-ft_resizing.adb:1047-1061 | a left-packed tree has the claimed number of leaves, at most degree to the power of the height |
| FreeTree.GraftAppends | src/lib/cbe/cbe-ft_resizing.adb:1199-1223 | when the child on the path to the first unused leaf grows by k leaves, so does the node, which stays left-packed |
| FtBuild.FillLeavesFills | src/lib/cbe/cbe-ft_resizing.adb:711-760 | filling leaf entries appends consecutive addresses and uses each once |
| FtBuild.FilledEntry | src/lib/cbe/cbe-ft_resizing.adb:726-735 | each filled entry holds the next address, generations 0, no virtual address, no key, and is not reserved |
| FtBuild.AddBranchBuilds | src/lib/cbe/cbe-ft_resizing.adb:618-771 | building a branch changes one entry per level, stops when the contingent is used up or the node is full, and every address taken is a node or a leaf |
| FtRead.HashMatches | src/lib/cbe/cbe-ft_resizing.adb:788-818 | on a stored tree no read raises |
| FtHashCheck.ReadIsChecked | src/lib/cbe/cbe-ft_resizing.adb:776-974 | on any device: after a read the step raises if and only if the hash of the entries differs from the one in the entry above, or the leaf entry is in use; device and history have not changed |
| FtHashCheck.BadBlockStopsStep | src/lib/cbe/cbe-ft_resizing.adb:776-974 | on any device: if the path to the first unused leaf meets a block that does not match, no run writes anything or asks for an address, and the step has raised within height + 1 rounds |
| FtHashCheck.PaddedIsChecked | src/lib/cbe/cbe-ft_resizing.adb:91-132 | for a block with zero padding the step hashes the block itself |
| FtHashCheck.PaddingIsNotChecked | src/lib/cbe/cbe-ft_resizing.adb:788-818 | a block changed in its padding only has the same effect as the original one |
| FtRead.Descends | src/lib/cbe/cbe-ft_resizing.adb:820-858 | reading a child keeps the invariant, one level further down |
| FtMount.ZeroBelowMount | src/lib/cbe/cbe-ft_resizing.adb:666-713 | below the mount point all child indices of the address are 0, the index used when the branch is built |
| FtMount.ReadingMounts | src/lib/cbe/cbe-ft_resizing.adb:860-880 | a missing child on the path is where a branch can be mounted |
| FtPlaces.Mounts | src/lib/cbe/cbe-ft_resizing.adb:866-880 | after mounting every address of tree and contingent is planned for exactly one place |
| FtPlaces.PathNodeWritable | src/lib/cbe/cbe-ft_resizing.adb:882-890 | a path node of the current generation may keep its address: no old node lives there |
| FtAlloc.Keep | src/lib/cbe/cbe-ft_resizing.adb:1145-1160 | keeping the address of a current node keeps the plan |
| FtAlloc.Take | src/lib/cbe/cbe-ft_resizing.adb:1844-1877 | an address from the meta tree takes the place of the one given away |
| FtWrite.FirstWrite | src/lib/cbe/cbe-ft_resizing.adb:1175-1190 | writing the lowest new node stores the new subtree there |
| FtWrite.NextWrite | src/lib/cbe/cbe-ft_resizing.adb:1193-1290 | writing the next node up stores the new subtree there: its hash, generation and address land in the entry of that child |
| FtRoot.FullPath | src/lib/cbe/cbe-ft_resizing.adb:1092-1117 | the first address behind a full tree has top digit 1 and position equal to itself |
| FtRoot.StartsRoot | src/lib/cbe/cbe-ft_resizing.adb:1092-1130 | adding a root level mounts the branch as its child 1 and writes the lowest new node |
| FtRoot.RootLeaves | src/lib/cbe/cbe-ft_resizing.adb:1092-1117 | leaves are added exactly if addresses are left behind the new root and one node per level |
| FtTheorems.Round | src/lib/cbe/cbe-ft_resizing.adb:1039-1334 | every round keeps the invariant and lowers the rounds to come, or ends the step |
| FtTheorems.StepAppends | src/lib/cbe/cbe-ft_resizing.adb:1039-1334 | every run ends after 3 * height + 3 rounds, or waits for an address that was not supplied; it completes if and only if Finishes holds at the start, and then the new root is the root of a stored, left-packed tree with the old leaves followed by the new ones |
| FtTheorems.NeverWaits | src/lib/cbe/cbe-ft_resizing.adb:1145-1170 | one address for every level suffices for a step |
| FtTheorems.OldNodesUntouched | src/lib/cbe/cbe-ft_resizing.adb:880-968 | copy on write: in every state of every run no block of a node of another generation has changed |
| FtTheorems.LargestTreeRaises | src/lib/cbe/cbe-ft_resizing.adb:1311-1318 | adding a leaf beyond degree 64 and height 5 leaves the range of leaf counts |
| FtTheorems.LargestTreeRunRaises | src/lib/cbe/cbe-ft_resizing.adb:1311-1318 | every run of such a step raises, with the old nodes untouched |
| FtTheorems.HighestAddressInRange | src/lib/cbe/cbe-ft_resizing.adb:979-984 | the highest address leaves its type's range if and only if degree and height are 64 and 6 |
| FtOutcome.AddressesKeepLeaves | src/lib/cbe/cbe-ft_resizing.adb:832-841 | after a step every old address leads to its leaf, the new ones to consecutive contingent addresses |
| FtOutcome.NewLeafFields | src/lib/cbe/cbe-ft_resizing.adb:726-735 | each address behind the old ones leads to an entry with the next address of the contingent, never 0, both generations 0, not reserved, the invalid virtual address 64**5 and key 0 |
| FtOutcome.NewLeafUsableIff | src/lib/cbe/cbe-new_free_tree.adb:560-602 | the free tree's test accepts that entry, whatever snapshots, rekeying and last secured generation, if and only if its address is not 2**64 - 1 |
| FtOutcome.NewLeavesUsable | src/lib/cbe/cbe-new_free_tree.adb:560-602 | with a contingent that ends before that address, every new leaf can be handed out at once |
| FtOutcome.EachAddressOnce | src/lib/cbe/cbe-ft_resizing.adb:534-771 | every address consumed or obtained is used exactly once, one given away is not used any more, all others as before |
| FtOutcome.ContingentConserved | src/lib/cbe/cbe-ft_resizing.adb:534-549 | first address plus number of addresses stays constant |
| FtOutcome.OldTreeSurvives | src/lib/cbe/cbe-ft_resizing.adb:880-1034 | if no node is younger than its parent and the root is old, the old root reads the old tree in every state of every run |
| FtOutcome.PublishedTreeSurvives | src/lib/cbe/cbe-ft_resizing.adb:880-1034 | the new root is of the generation of the step, and the tree that it published is still read by it in every state of every run of the next step of a later generation |
| FtOutcome.OutcomeIsRequest | src/lib/cbe/cbe-library.adb:1900-1925 | the result of a step can be submitted again |
| FtOutcome.ExtensionTerminates | src/lib/cbe/cbe-ft_resizing.adb:655-767 | repeated steps use up the contingent or reach the height limit within as many steps as there are addresses; leaves are only appended |
| FtResizing.T1ChildIdx | src/lib/cbe/cbe-ft_resizing.adb:489-509 | the imperative computation gives the child index |
| FtResizing.T2ChildIdx | src/lib/cbe/cbe-ft_resizing.adb:514-529 | likewise for the lowest level |
| FtResizing.Resizing.constructor | src/lib/cbe/cbe-ft_resizing.adb:159-188 | the initial value of every field of the job |
| FtResizing.Resizing.SubmitPrimitive | src/lib/cbe/cbe-ft_resizing.adb:199-243 | submitting sets the job; it raises if there is one |
| FtResizing.Resizing.AllocPba | src/lib/cbe/cbe-ft_resizing.adb:534-549 | takes the first address of the contingent, or raises if there is none |
| FtResizing.Resizing.FillEntries | src/lib/cbe/cbe-ft_resizing.adb:711-760 | the loop over the entries equals its specification, including the early exit; each new entry has generations 0, no virtual address, no key, and is not reserved |
| FtResizing.Resizing.BuildLevels | src/lib/cbe/cbe-ft_resizing.adb:655-767 | the loop down the levels equals its specification, including both early exits |
| FtResizing.Resizing.AddBranchAt | src/lib/cbe/cbe-ft_resizing.adb:618-771 | the whole procedure equals its specification |
| FtResizing.Resizing.AddRootLevel | src/lib/cbe/cbe-ft_resizing.adb:554-613 | the new root holds the old one as child 0; raises at the highest level or without an address |
| FtResizing.Resizing.ExecuteReadCompleted | src/lib/cbe/cbe-ft_resizing.adb:776-974 | hash check, then descend, mount or raise |
| FtResizing.Resizing.SetArgsForWriteBack | src/lib/cbe/cbe-ft_resizing.adb:989-1034 | chooses inner or root write, raises outside of the levels |
| FtResizing.Resizing.Execute | src/lib/cbe/cbe-ft_resizing.adb:1039-1361 | one execution is one transition, and reports progress exactly in the states that are executed |
| FtResizing.Resizing.PeekGeneratedBlkData | src/lib/cbe/cbe-ft_resizing.adb:1604-1660 | the entries of the level under work read back from the block; raises unless a write is pending |
| FtResizing.Resizing.DropGeneratedPrimitive | src/lib/cbe/cbe-ft_resizing.adb:1665-1729 | pending becomes in progress, or raises |
| FtResizing.Resizing.MarkCompletedBlkData | src/lib/cbe/cbe-ft_resizing.adb:1734-1795 | a block that was read is loaded at its level |
| FtResizing.Resizing.MarkCompleted | src/lib/cbe/cbe-ft_resizing.adb:1800-1839 | a completed write is recorded |
| FtResizing.Resizing.MarkCompletedNewPba | src/lib/cbe/cbe-ft_resizing.adb:1844-1877 | the address from the meta tree is recorded |
| FtResizing.Resizing.DropCompletedPrimitive | src/lib/cbe/cbe-ft_resizing.adb:460-484 | dropping a completed step frees the job |
| FtSupply.WaitEnds | src/lib/cbe/cbe-ft_resizing.adb:1844-1877 | a step that waits, once it has its address, is in the state that it reaches on the device as the meta tree left it, with that address in its supply |
| FtJoint.AskedIsOutside | src/lib/cbe/cbe-library.adb:1806-1830 | the address that a waiting step gives away is not in the meta tree, which may therefore take it |
| FtJoint.AllocationJoins | src/lib/cbe/cbe-library.adb:1031-1037 | after a successful request both trees are stored and share no address, and the step goes on with the new one |
| FtJoint.RoundKeepsMeta | src/lib/cbe/cbe-library.adb:1862-1898 | no block that the step writes is one of the meta tree |
| FtJoint.OutcomeIsJoint | src/lib/cbe/cbe-library.adb:1793-1935 | a completed step conserves the addresses of both trees together, apart from those taken from the contingent, and no address is held twice |
| FtJoint.ConservedIff | src/lib/cbe/cbe-library.adb:1031-1037 | handing over the meta tree's address conserves the addresses if and only if the request succeeded or the stale address is the one to be given away |
| FtJoint.StaleIsShared | src/lib/cbe/cbe-library.adb:1031-1037 | a stale address that the step already uses is then planned for two nodes |
| FtDriver.ExtendStep | src/lib/cbe/cbe-library.adb:1793-1935 | a whole step with the meta tree on the same device: terminates; if all allocations succeed it returns false exactly where the source raises, and otherwise both trees have the promised outcome; it stops where the meta tree has no address left |
| CacheJobs.DirtySlotExists | src/lib/cbe/cbe-cache.adb:262-288 | whenever a job finds no match, no room and no write back under way there is a dirty slot, so writing one back never raises |
| CacheJobs.ReadGood | src/lib/cbe/cbe-cache.adb:340-427 | executing a read job refines a read of the block map |
| CacheJobs.WriteGood | src/lib/cbe/cbe-cache.adb:432-519 | executing a write job refines a write of the block map |
| CacheJobs.FlushGood | src/lib/cbe/cbe-cache.adb:293-320 | flushing changes nothing that clients see |
| CacheJobs.SyncDoneGood | src/lib/cbe/cbe-cache.adb:321-335 | a sync completes only when the device equals the block map at every address |
| CacheJobs.ExecuteStepsEveryJob | src/lib/cbe/cbe-cache.adb:558-575 | one Execute call is one step of each job in turn and never raises |
| CacheSteps.SubmitGood | src/lib/cbe/cbe-cache.adb:143-226 | an accepted submission keeps the invariant |
| CacheSubmit.AcceptedIff | src/lib/cbe/cbe-cache.adb:75-226 | a submission is accepted if and only if the primitive is valid and unsuccessful, some job is free, and no job under work conflicts: for a write no sync and no work on its block, for a read or sync no write of that block |
| CacheSubmit.AcceptedTakesFirstFree | src/lib/cbe/cbe-cache.adb:143-226 | the first free job takes the primitive, all other jobs, the slots and all data stay as they are |
| CacheSubmit.AcceptedTakesData | src/lib/cbe/cbe-cache.adb:165-226 | the client's data goes to that job and to no other |
| CacheSubmit.ReadsAndSyncsAreAccepted | src/lib/cbe/cbe-cache.adb:109-138 | any number of reads and syncs is accepted one after the other, as long as jobs are free and no write of these blocks is under work |
| CacheSubmit.ReadsWhileSyncWaits | src/lib/cbe/cbe-cache.adb:109-138 | while a sync waits one block can be read by as many jobs as are free |
| CacheEffects.ReadHit | src/lib/cbe/cbe-cache.adb:340-375 | a read takes the data of the slot that holds its block and completes, or waits while that slot is being read |
| CacheEffects.ReadMiss | src/lib/cbe/cbe-cache.adb:376-427 | a read of another block asks the device for it, in the first slot that is unused, or clean with no job, of whatever state, on its block |
| CacheEffects.WriteHit | src/lib/cbe/cbe-cache.adb:432-471 | a write stores its data in the slot that holds its block and completes, or waits while that slot is read or written back |
| CacheEffects.WriteMiss | src/lib/cbe/cbe-cache.adb:473-519 | a write of another block stores its data in the first replaceable slot |
| CacheEffects.NoRoom | src/lib/cbe/cbe-cache.adb:262-288 | without a replaceable slot a job waits for a write back, and starts that of the first dirty slot if there is none |
| CacheEffects.SyncEffect | src/lib/cbe/cbe-cache.adb:293-335 | a sync starts the write back of exactly the dirty slots, and completes exactly if none is dirty or being written back |
| CacheProgress.ExecuteReportsProgress | src/lib/cbe/cbe-cache.adb:558-575 | an Execute call reports progress if and only if it has changed something |
| CacheSteps.IssueGood | src/lib/cbe/cbe-library.adb:1407-1433 | handing a generated primitive to the device keeps the invariant; written data is frozen |
| CacheSteps.TransferGood | src/lib/cbe/cbe-library.adb:3245-3258 | the device carries out a read or write at any time |
| CacheSteps.FinishGood | src/lib/cbe/cbe-cache.adb:678-698 | a completion makes the slot clean and equal to the device |
| CacheTheorems.CacheRefinesBlockMap | src/lib/cbe/cbe-cache.adb:340-519 | over every interleaving nothing raises and every completed read, write and sync is explained by a block map |
| CacheTheorems.AcknowledgedDataIsCurrent | src/lib/cbe/cbe-cache.adb:580-620 | what a client takes from a completed job is still current |
| CacheTheorems.SlotsAgreeWithDevice | src/lib/cbe/cbe-cache.adb:657-698 | clean slots equal the device, data under write back is frozen |
| CacheProgress.ProgressDrains | src/lib/cbe/cbe-cache.adb:293-575 | every step that reports progress lowers a measure |
| CacheProgress.SubmittedJobMoves | src/lib/cbe/cbe-cache.adb:524-575 | with a submitted job, execution progresses or a device operation is outstanding |
| CacheProgress.DrainIsBounded | src/lib/cbe/cbe-cache.adb:558-575 | without submissions the number of progressing steps is bounded |
| CacheProgress.DrainCompletesEveryJob | src/lib/cbe/cbe-cache.adb:524-575 | where nothing can progress any more, every job is complete |
| CacheSync.NoWriteAccepted | src/lib/cbe/cbe-cache.adb:75-104 | while a sync waits no write is accepted |
| CacheSync.DebtOnlyFalls | src/lib/cbe/cbe-cache.adb:143-160 | while a sync waits the writes missing on the device only become fewer, whatever reads arrive |
| CacheSync.SyncIsNotStarved | src/lib/cbe/cbe-cache.adb:293-335 | there is always a step that brings a missing write closer to the device, or the sync completes next |
| CacheSync.SyncCompletesWithin | src/lib/cbe/cbe-cache.adb:293-335 | whatever steps a run consists of, and whatever reads arrive: if more of its steps help than writes are missing, the waiting sync is completed by one of them |
| BlockCache.BlockCache.PrimitiveAcceptable | src/lib/cbe/cbe-cache.adb:68-73 | some job is free |
| BlockCache.BlockCache.NotAffectedByAnyJob | src/lib/cbe/cbe-cache.adb:75-104 | the loop decides whether any job affects the block: one that is not free and is a sync or works on it |
| BlockCache.BlockCache.NotWrittenByAnyJob | src/lib/cbe/cbe-cache.adb:109-138 | the loop decides whether any job writes the block: one that is not free, a write, and works on it |
| BlockCache.BlockCache.SubmitPrimitive | src/lib/cbe/cbe-cache.adb:165-226 | the first free job takes the primitive, which is accepted if and only if it is valid, unsuccessful and admissible and some job is free |
| BlockCache.BlockCache.CleanSlotEvictable | src/lib/cbe/cbe-cache.adb:231-257 | a clean slot may be evicted unless a job uses its block |
| BlockCache.BlockCache.WriteBackOneDirtySlot | src/lib/cbe/cbe-cache.adb:262-288 | the first dirty slot starts its write back |
| BlockCache.BlockCache.JobExecuteSync | src/lib/cbe/cbe-cache.adb:293-335 | both loops together equal the specification of a sync |
| BlockCache.BlockCache.JobExecuteRead | src/lib/cbe/cbe-cache.adb:340-427 | the loops with early return equal the specification of a read |
| BlockCache.BlockCache.JobExecuteWrite | src/lib/cbe/cbe-cache.adb:432-519 | the loops with early return equal the specification of a write |
| BlockCache.BlockCache.Execute | src/lib/cbe/cbe-cache.adb:558-575 | all jobs in turn |
| BlockCache.BlockCache.PeekCompletedPrimitive | src/lib/cbe/cbe-cache.adb:580-604 | finds the first completed job, if there is one |
| BlockCache.BlockCache.DropCompletedPrimitive | src/lib/cbe/cbe-cache.adb:609-620 | frees a completed job |
| BlockCache.BlockCache.PeekGeneratedPrimitive | src/lib/cbe/cbe-cache.adb:625-652 | finds the first slot with a generated primitive, if there is one |
| BlockCache.BlockCache.DropGeneratedPrimitive | src/lib/cbe/cbe-cache.adb:657-673 | generated becomes in progress, or raises |
| BlockCache.BlockCache.MarkGeneratedPrimitiveComplete | src/lib/cbe/cbe-cache.adb:678-698 | the slot becomes clean, or raises |
| VfsTheorems.SubmitStarts | src/lib/vfs/cbe/vfs.cc:332-428 | a submitted call starts in the invariant |
| VfsTheorems.StepKeeps | src/lib/vfs/cbe/vfs.cc:459-755 | every step of loop and volume keeps the invariant, whatever their order |
| VfsTheorems.OneRequestInFlight | src/lib/vfs/cbe/vfs.cc:459-510 | at most one request is at the volume, nothing is thrown, no copy leaves its buffer |
| VfsTheorems.ReadRefinesBytes | src/lib/vfs/cbe/vfs.cc:600-625 | a completed read put exactly the reported number of file bytes at the offset into memory, nothing else changed |
| VfsTheorems.WriteRefinesBytes | src/lib/vfs/cbe/vfs.cc:626-672 | a completed write replaced exactly the reported number of bytes at the offset |
| VfsTheorems.RejectedTransfersNothing | src/lib/vfs/cbe/vfs.cc:484-503 | a rejected call transfers nothing, and is aligned and beyond the end |
| VfsTheorems.InRangeIsServed | src/lib/vfs/cbe/vfs.cc:352-382 | a call within the file is never rejected and reports between one and the wanted number of bytes |
| VfsTheorems.ReportsAllItCan | src/lib/vfs/cbe/vfs.cc:352-382 | an unaligned call reports all it wants or up to the end of its block, an aligned one all whole blocks |
| VfsTheorems.StartsIff | src/lib/vfs/cbe/vfs.cc:477-509 | a pending request goes to the volume, unchanged, if and only if its first block exists and none lies beyond the end |
| VfsTheorems.SyncReachesVolume | src/lib/vfs/cbe/vfs.cc:503-506 | over every run: a complete sync without a failure made the volume accept exactly one request since its submission, a sync, and complete it; a failed one was accepted only |
| VfsTheorems.SyncCarriedOutIff | src/lib/vfs/cbe/vfs.cc:1212-1251 | a complete sync was carried out if and only if its success flag is set |
| VfsTheorems.FailedCallIsComplete | src/lib/vfs/cbe/vfs.cc:571-579 | a sync or read that failed at the volume is complete all the same, the read with all its bytes reported |
| VfsTheorems.CallReachesVolume | src/lib/vfs/cbe/vfs.cc:459-510 | over every run: the requests that a completed read or write made the volume complete, and no others |
| VfsTheorems.CoveredIff | src/lib/vfs/cbe/vfs.cc:389-396 | the transferred blocks cover the reported bytes exactly below 2**44 bytes or for unaligned calls |
| VfsTheorems.HugeReadTransfersNothing | src/lib/vfs/cbe/vfs.cc:389-396 | an aligned read of 2**44 bytes on any nonempty volume is accepted, completes successfully, reports all bytes and transfers none |
| VfsTheorems.CompletedFlag | src/lib/vfs/cbe/vfs.cc:571-672 | what the success flag says, and that even a failed call touches only its own blocks |
| VfsProgress.StepLowersRank | src/lib/vfs/cbe/vfs.cc:865-893 | every step brings the call closer to its end |
| VfsProgress.CallEnds | src/lib/vfs/cbe/vfs.cc:865-893 | no call takes more steps than its rank |
| VfsProgress.NeverStuck | src/lib/vfs/cbe/vfs.cc:459-755 | a call that is not final can go on without a failure |
| Vfs.Wrapper.SubmitFrontendRequest | src/lib/vfs/cbe/vfs.cc:332-428 | refuses a second request, else sets up the aligned, unaligned or sync request |
| Vfs.Wrapper.StartHelperRead | src/lib/vfs/cbe/vfs.cc:461-467 | a pending helper read goes to the volume if it accepts a request |
| Vfs.Wrapper.StartHelperWrite | src/lib/vfs/cbe/vfs.cc:469-475 | a pending helper write goes to the volume if it accepts a request |
| Vfs.Wrapper.StartFrontend | src/lib/vfs/cbe/vfs.cc:477-509 | range checks, then the request goes to the volume, which notes it as accepted |
| Vfs.Wrapper.Attribute | src/lib/vfs/cbe/vfs.cc:571-597 | a completion belongs to helper read, helper write or request, in this order |
| Vfs.Wrapper.FinishHelperRead | src/lib/vfs/cbe/vfs.cc:600-660 | copies the wanted bytes out, or patches the block to be written back |
| Vfs.Wrapper.FinishHelperWrite | src/lib/vfs/cbe/vfs.cc:662-673 | completes the unaligned write |
| Vfs.Wrapper.DataReady | src/lib/vfs/cbe/vfs.cc:676-712 | a block that was read goes to the helper, else to the caller's memory |
| Vfs.Wrapper.DataRequired | src/lib/vfs/cbe/vfs.cc:715-750 | a block to write comes from the helper, else from the caller's memory |
| Vfs.Wrapper.AckFrontendRequest | src/lib/vfs/cbe/vfs.cc:324-330 | the request slot is free again |
| Vfs.Call | src/lib/vfs/cbe/vfs.cc:1110-1160 | a whole call terminates in a completed or rejected request; a sync is completed by the volume exactly if there is one block at least |
| Vfs.ReadRange | src/lib/vfs/cbe/vfs.cc:1110-1160 | repeated reads advanced by the reported counts yield any range of the file |
| Vfs.WriteRange | src/lib/vfs/cbe/vfs.cc:1162-1212 | repeated writes advanced by the reported counts write any range of the file |

## Left out

- FtDriver.ExtendStep: ends where an allocation fails.  The library goes on with the stale address instead; FtJoint.ConservedIff and FtJoint.StaleIsShared say what that does to the addresses, the rounds after it are not followed.
- FtTheorems.StepAppends: waits where the supply of addresses is used up; FtDriver.ExtendStep replaces the supply by the meta tree.
- FtTheorems.StepAppends: trees of degree 1 are excluded, because a new root mounts the branch at child index 1; degrees that are no powers of two are excluded, because of TreeIndex.ChildIndexIsDigit.
- FtOutcome.ExtensionTerminates: the superblock control that repeats the steps is not part of this model; the repetition itself is.
- FtHashCheck.BadBlockStopsStep: is about steps that read a path; a step that adds a root level reads no block.
- MetaTreeHash.MismatchHasNoEffect: says nothing about a block that the request had read before as the block of another node that does have its hash.
- Vfs.Call: the volume in this method always succeeds; failing requests are covered by VfsTheorems, where the volume may fail at any time.
- VfsProgress.NeverStuck: an unaligned request is not range checked by the wrapper; beyond the end of the volume the model lets its helper request fail only.
- CacheTheorems.CacheRefinesBlockMap: the I/O queue between cache and device is one operation per slot in any order, which includes the source's queue of one entry.
- MetaTree.MetaTree.DropGeneratedCachePrimitive: does not compare the primitive with the generated one, and neither do MarkGeneratedCachePrimitiveComplete and DropCompletedPrimitive: requests are matched by position, a mismatch cannot be expressed.
- MetaTree.MetaTree.MarkGeneratedCachePrimitiveComplete: a failed primitive and a sync are not modelled, because the cache completes every primitive successfully and the module never generates a sync.
- FtResizing.Resizing.SubmitPrimitive: does not check the tag, and the Drop and Mark methods do not compare primitives, for the same reason.
- FtResizing.Resizing.Execute: one job, as the source's array of jobs has one element.
- Vfs.ReadRange: the range of exactly 2**44 bytes is excluded, and so it is in Vfs.WriteRange; it is the only range within a file for which VfsTheorems.CoveredIff fails.
- The state pair Extend_MT_By_One_Leaf of the free tree extension and the whole meta tree resizing: nothing enters these states.
- The failure path of a completed cache primitive in the meta tree, in the free tree extension and in the cache: the cache reports success only.
- Several handles that share the one request of the byte file: one client repeats its call until it returns.
- Decoding of values outside of Ada's ranges, such as a last virtual address above 64**5, which raises in the source.
- The generic index queue and the crypto module: a ring buffer and a one-item state machine, which would only add easy members.
- Virtual block device, write-back of the superblock, snapshots, rekeying, superblock control: dispatch that depends on parts not modelled here.
- Debug output, XML configuration, Genode sessions and command line tools.
