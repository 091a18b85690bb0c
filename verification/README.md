# Pod CIDR allocation: a verified model

The controller hands out IPv4 pod CIDRs to Kubernetes nodes. Its two layers are modelled here and
their properties proved:

- **The block allocator** (`pkg/ipam/cidrset/cidrset.go`). A cluster CIDR is cut into
  2^(node mask - cluster mask) equal blocks; a bitmap, a count and a circular candidate pointer
  say which blocks are taken, and bit operations on 32-bit and 64-bit words convert between a block
  number and an address.
- **The assignment protocol** (`pkg/ipam/cidr_allocator.go`, wired up at `main.go:169-197`). Add
  and delete handlers, the reconcile loop, 30 workers, the API server, a set of names in
  processing, a bounded work queue and a one-way gate interleave freely.

## How the project is laid out

| module | what it holds |
|---|---|
| `Words` | machine words as naturals: bitwise operations, truncating shifts, and the bridges to arithmetic |
| `Networks` | CIDR values, masks, membership, intersection, the 64-bit halves of an IPv6 address |
| `Blocks` | the blocks of a cluster CIDR as plain arithmetic: they tile it, they are disjoint, lookup inverts construction |
| `CidrIndex` | the word-level methods of the allocator, proved equal to that arithmetic |
| `NextFit` | the state of the allocator as a value, its three operations, theorems over every sequence of them |
| `CidrSets` | the class `CidrSet` over a bit array, proved against `NextFit` and `Blocks` |
| `SetRuns` | address-level theorems over every sequence of calls |
| `Protocol` | the state machine: 21 kinds of atomic steps, runs, reachability |
| `Ownership` | exclusive ownership of names, the bound on the queue |
| `Ledger`, `Accounting` | who holds which block; exact accounting over every run once the gate is open |
| `Gate`, `Opening`, `Restart` | from the start of the controller to the opening of the gate: what is marked then, when the opening is safe, when it is exact, what a restart rebuilds |
| `Assigned` | which list of CIDRs reaches a node |
| `Orphans` | items whose node is gone |
| `Counterexamples` | a concrete run for each way in which the accounting breaks |
| `CidrAllocators` | the class `CidrAllocator`, proved against result functions |
| `Refinement` | each uninterrupted call of that class is a run of the protocol |

`dfyconfig.toml` names all files: `dafny verify dfyconfig.toml`.

## The steps of the protocol

Each step is what one thread does between two points where another thread can interfere:
`HandlerStart` (`cidr_allocator.go:334-339`), `HandlerOccupy` (`:297-325`), `HandlerCancel` (`:352`),
`HandlerAllocate` (`:351`, `:366-374`), `HandlerEnqueue` (`:378`), `HandlerUnmark` (`:291`, `:353`, `:369`),
`DeleteHandler` (`:383-406`), `ReconcileList`, `ReconcileError`, `ReconcileNode`, `OpenGate` (`:212-215`, `:227-250`),
`WorkerTake` (`:255`), `WorkerGet` and `WorkerGetError` (`:418-422`), `WorkerDecide` (`:428-472`),
`WorkerPatch` (`:475-481`), `WorkerGiveUp` (`:482-496`), `WorkerRequeue` (`:260-263`), `WorkerUnmark`
(`:438`, `:451`, `:478`), and `ApiCreate` and `ApiDelete` of the API server. Get and Patch are separate
steps, so a worker acts on an old snapshot. A patch attempt is acknowledged, rejected, or applied with
its acknowledgement lost.

## Hypotheses

Stated in `Protocol.Enabled`, `Protocol.Params`, `Gate.Started` and in the theorems themselves:

- one IPv4 cluster CIDR, mode ipv4 or dual-stack, fewer than 32 index bits;
- the API server admits at most one CIDR of each family on a node, and only the controller writes them;
- an Add event that carries CIDRs belongs to a node whose deletion has not been handled; Add events
  without CIDRs may be stale; each deletion delivers one delete event with the last CIDRs of the node,
  after the occupying Add handlers of that node have returned;
- at the start the CIDRs of nodes and of pending deletions touch pairwise disjoint blocks. What a
  restart rebuilds (`Restart.RestartRebuildsBitmap`) is proved without this one.

The accounting claim has no hypothesis on failures. It is proved as an
equivalence (`Restart.ExactFromOpeningIff`): from the opening of the gate on the books are exact if and
only if none of the following happens, and for each of them there is a concrete run:

| event | run |
|---|---|
| a worker gives up after its last attempt | `Counterexamples.TwoNodesShareABlock` |
| a worker patches a node again that was deleted and created anew after an attempt had reached it unseen | `Counterexamples.PatchedAnewSharesABlock` |
| a deletion is pending at the List call, no Add handler has occupied the CIDRs of its node, and it is still pending when the gate opens | `Counterexamples.LateDeletionSharesABlock` |
| a deletion created after the List call is handled before the reconcile loop comes to its node | `Counterexamples.BlockLeaksAtRestart` |

Exact books may still hold a block for good: the item of a node that is gone is requeued for ever
(`Orphans.OrphanKeepsItsBlock`).

## Where the code and its comments disagree

The model follows the code.

- `cidr_allocator.go:485-487` and `main.go:177-179` say that a patch that timed out keeps its blocks
  reserved. The error is turned into plain text at `pkg/node/node.go:72`, so `IsServerTimeout` at
  `cidr_allocator.go:488` cannot recognise it, and the blocks are always released.
- `cidr_allocator.go:84` says that an update is dropped after its retries. It goes back to the queue
  (`:260-263`) with blocks that are free by then. `Counterexamples.TwoNodesShareABlock` is the outcome.
- `cidr_allocator.go:225` says that the reconciled state is consistent with the cluster. A deletion
  handled between the List call and the turn of its node leaves that node's block marked for good, and
  a deletion handled only after the opening frees a block that may be a new node's by then;
  `Restart.RunOpensExactlyIff` says exactly when.
- `cidrset.go:282` says that the block count is below 2^32. It is equal to 2^32 for an IPv4 /0
  cut into /32 blocks, and then every index lookup fails (`Blocks.NotLookupableIff`).

## Model

| member | source | states |
|---|---|---|
| Words.BitwiseIsPointwise | pkg/ipam/cidrset/cidrset.go:111-140 | the word operations used by the index code act on each bit separately: bit k of the result is the operation on bits k |
| Words.OrDisjointIsAdd | pkg/ipam/cidrset/cidrset.go:111-140 | OR of words with no bit in common is addition |
| Words.XorWithPrefix | pkg/ipam/cidrset/cidrset.go:281-290 | XOR with a prefix is below 2^k exactly when the other word has the prefix, and is then its low k bits |
| Words.ShlTruncates | pkg/ipam/cidrset/cidrset.go:110-140 | a left shift in a register keeps exactly the low bits that still fit |
| Networks.ContainsIsHas | pkg/ipam/cidrset/cidrset.go:190 | comparing masked addresses is comparing leading bits |
| Networks.Laminar | pkg/ipam/cidrset/cidrset.go:190-194 | two CIDRs intersect exactly when the wider one has the first address of the narrower one, and exactly when it includes it |
| Networks.OrNotMaskIsLast | pkg/ipam/cidrset/cidrset.go:208-217 | OR with the inverted mask is the last address of an aligned CIDR |
| Blocks.BlocksTile | pkg/ipam/cidrset/cidrset.go:105-150 | an address is in the cluster exactly when it is in some block, and that block is the one with its index and no other |
| Blocks.BlocksDisjoint | pkg/ipam/cidrset/cidrset.go:105-150 | two distinct blocks share no address |
| Blocks.BlocksOfBlock | pkg/ipam/cidrset/cidrset.go:231-250 | releasing or occupying a block's own CIDR concerns that one bit |
| Blocks.BlocksOfEmpty | pkg/ipam/cidrset/cidrset.go:190-192 | a CIDR intersects the cluster exactly when it touches a block |
| Blocks.RangeIsExact | pkg/ipam/cidrset/cidrset.go:194-226 | a block meets a CIDR exactly when its index is between those of the CIDR's first and last address |
| Blocks.WideTouchesAll | pkg/ipam/cidrset/cidrset.go:185-227 | a CIDR as wide as the cluster that meets it touches every block |
| Blocks.IndexIsLowBits | pkg/ipam/cidrset/cidrset.go:279-297 | an address is in the cluster exactly when its index is in range, and then the index is the low bits of its block number |
| Blocks.NotLookupableIff | pkg/ipam/cidrset/cidrset.go:282-285 | the 32-bit block count is zero for one configuration only |
| Blocks.AcceptsMeans | pkg/ipam/cidrset/cidrset.go:190-227 | what acceptance is, by addresses, for both families and every width |
| CidrIndex.IndexToCIDRBlock | pkg/ipam/cidrset/cidrset.go:105-150 | for every index and both families the words give cluster address + index * block size with the node mask |
| CidrIndex.IndexToIPv4 | pkg/ipam/cidrset/cidrset.go:108-114 | the 32-bit OR of a shifted index is addition |
| CidrIndex.IndexToIPv6 | pkg/ipam/cidrset/cidrset.go:115-144 | the two 64-bit words together are 128-bit addition, whether the index goes left, right, or straddles bit 64 |
| CidrIndex.StraddlingIndex | pkg/ipam/cidrset/cidrset.go:130-140 | the upper index bits carried to the left word and the truncated rest in the right word add up to the offset |
| CidrIndex.GetIndexForIP | pkg/ipam/cidrset/cidrset.go:279-301 | IPv4: the addresses of the cluster are found, except in the one configuration, and no other; IPv6: found exactly when the low 64 bits of the block numbers agree above the index bits; in the cluster the answer is the index |
| CidrIndex.LookupFindsIndex | pkg/ipam/cidrset/cidrset.go:279-301 | the answer of the lookup for an address of the cluster is its index, or an error for the one configuration |
| CidrIndex.LookupIsPrefixTest | pkg/ipam/cidrset/cidrset.go:281-294 | the truncated XOR-and-shift value is below the block count exactly when the visible prefixes agree |
| CidrIndex.GuardedLookupIsExact | pkg/ipam/cidrset/cidrset.go:190-226 | for an address of the cluster the untruncated value is already the index and in range, so the out-of-range branches are not reached |
| CidrIndex.UnguardedLookupAliases | pkg/ipam/cidrset/cidrset.go:288-296 | without the guard the truncation confuses two addresses: a concrete one |
| CidrIndex.GuardIsIntersects | pkg/ipam/cidrset/cidrset.go:190-192 | the containment guard passes exactly the CIDRs that share an address with the cluster |
| CidrIndex.LastAddress | pkg/ipam/cidrset/cidrset.go:207-218 | the words give the last address of the CIDR |
| CidrIndex.NodeMaskKeepsBlock | pkg/ipam/cidrset/cidrset.go:200-222 | clearing the bits below the node mask changes neither block nor membership |
| CidrIndex.GetBeginningAndEndIndices | pkg/ipam/cidrset/cidrset.go:181-228 | for every width and both families: succeeds exactly when the CIDR shares an address with the cluster (in the one configuration, when it is the whole of IPv4); then an index is in the range exactly when its block shares an address with the CIDR |
| NextFit.Bitmap.NextFree | pkg/ipam/cidrset/cidrset.go:161-168 | a set that is not full has a first free position in circular order |
| NextFit.FullIsCount | pkg/ipam/cidrset/cidrset.go:158-160 | comparing the count with the number of blocks decides whether all are used |
| NextFit.PointerStopsAtFree | pkg/ipam/cidrset/cidrset.go:161-171 | while a position stays free the candidate pointer does not pass it, whatever calls interleave |
| NextFit.NoEarlyReuse | pkg/ipam/cidrset/cidrset.go:161-171 | between two returns of a block every other block was in use at some moment |
| NextFit.WaitingShrinks | pkg/ipam/cidrset/cidrset.go:158-171 | every call that does not return a free block brings the pointer nearer to it |
| NextFit.BoundedWait | pkg/ipam/cidrset/cidrset.go:158-171 | a free block that nobody occupies is returned within distance + 1 calls, all of which succeed |
| NextFit.DrainCounts | pkg/ipam/cidrset/cidrset.go:154-179 | as many calls succeed as there are free blocks, each taking one more |
| NextFit.DrainOrder | pkg/ipam/cidrset/cidrset.go:161-171 | results of consecutive calls come in circular order from where they started |
| NextFit.DrainReturnsFree | pkg/ipam/cidrset/cidrset.go:154-179 | a drain returns exactly the free blocks, each once, in circular order, and the next call fails |
| NextFit.OrderIsUnique | pkg/ipam/cidrset/cidrset.go:161-171 | a set of positions has one circular listing only |
| NextFit.RedrainRepeats | pkg/ipam/cidrset/cidrset.go:154-250 | releasing the drained blocks in any order and draining again returns the same sequence |
| CidrSets.CidrSet.constructor | pkg/ipam/cidrset/cidrset.go:94-102 | a new set is empty with the pointer at zero |
| CidrSets.CidrSet.New | pkg/ipam/cidrset/cidrset.go:82-103 | refuses exactly the IPv6 sets whose node mask exceeds the cluster mask by more than 16; an IPv6 set has at most 65536 blocks, and 16 index bits give 65536 |
| CidrSets.CidrSet.Scan | pkg/ipam/cidrset/cidrset.go:161-168 | the loop ends at the first free block, never by running out, after the circular distance in tries |
| CidrSets.CidrSet.AllocateNext | pkg/ipam/cidrset/cidrset.go:154-179 | the whole new state, over bitmaps and again over the fields: failure exactly when every block is used, the block at the recorded number of tries from the pointer, all blocks passed over used |
| CidrSets.CidrSet.Occupy | pkg/ipam/cidrset/cidrset.go:254-273 | accepts exactly the CIDRs that share an address with the cluster; sets exactly the bits of blocks that share one with the CIDR, counting only those that were clear; a refused CIDR changes nothing |
| CidrSets.CidrSet.Release | pkg/ipam/cidrset/cidrset.go:231-250 | accepts the same CIDRs; clears exactly the bits of blocks that share an address with the CIDR, counting only those that were set; a refused CIDR changes nothing |
| CidrSets.CidrSet.ViewIsValid | pkg/ipam/cidrset/cidrset.go:47-53 | with the count equal to the set bits and to sets minus clears, no bit lies beyond the last block and the count test is the fullness test |
| SetRuns.CallsByAddress | pkg/ipam/cidrset/cidrset.go:231-273 | the calls of a run concern exactly the blocks that share an address with the CIDR |
| SetRuns.TakenStaysUsed | pkg/ipam/cidrset/cidrset.go:154-273 | the blocks of an allocated or occupied CIDR stay used until a Release touches one |
| SetRuns.AddressSafety | pkg/ipam/cidrset/cidrset.go:154-273 | a block from AllocateNext lies in the cluster and shares no address with any CIDR taken earlier and not touched by a Release since |
| SetRuns.ReleaseUndoesAllocate | pkg/ipam/cidrset/cidrset.go:154-250 | a block from AllocateNext is accepted by Release exactly when lookups succeed at all; then the Release call restores the bitmap, and otherwise it changes nothing |
| SetRuns.IndexRoundTrip | pkg/ipam/cidrset/cidrset.go:105-301 | getIndexForIP of a block's address answers its index, and the block of the answer for an address has the address; both fail for the one configuration, and only for it |
| Ownership.OwnershipPreserved | pkg/ipam/cidr_allocator.go:252-497 | every step, failures included, keeps: a name in processing has one owner, any other has none |
| Ownership.OwnershipAlways | pkg/ipam/cidr_allocator.go:252-497 | the same in every state of every run |
| Ownership.MarksAreRemovedByTheirOwner | pkg/ipam/cidr_allocator.go:282-293 | a name leaves the set only by the thread that holds it, and nobody owns it afterwards |
| Ownership.OneOwner | pkg/ipam/cidr_allocator.go:271-288 | any two threads or queue entries hold different names |
| Ownership.QueueBound | pkg/ipam/cidr_allocator.go:252-269 | queued items and busy workers are at most as many as names in processing |
| Ownership.RequeueNeverBlocks | pkg/ipam/cidr_allocator.go:260-263 | a worker with a failed item finds fewer than 5000 items queued, and so room, while at most 5000 names are in processing |
| Ownership.QueueTakesItems | pkg/ipam/cidr_allocator.go:176 | the queue takes an item exactly while it holds fewer than 5000 |
| Ownership.NobodyIsStuck | pkg/ipam/cidr_allocator.go:252-497 | deadlock freedom: with at most 5000 names in processing every call and every worker that has not finished can take a step of its own |
| Ownership.AnyAnswerMayCome | pkg/ipam/cidr_allocator.go:418-481 | requests may fail at any time, and an attempt on a node that is there may be acknowledged or applied unseen |
| Protocol.PodCIDRsMeans | pkg/ipam/cidr_allocator.go:455-464 | a node is patched with the reserved CIDR, in dual-stack with the fetched prefix too and the primary family first |
| Protocol.SpecBlocksMeans | pkg/ipam/cidr_allocator.go:301-322 | a list of CIDRs concerns the blocks that share an address with its first IPv4 entry |
| Protocol.OutOfRangeMeans | pkg/ipam/cidr_allocator.go:318-320 | a list is refused exactly when its first IPv4 entry shares no address with the cluster |
| Ledger.SpecOfBlock | pkg/ipam/cidr_allocator.go:301-322 | a node patched with a reserved block holds that block in either order of the families |
| Ledger.Reserved | pkg/ipam/cidr_allocator.go:366-374 | reserving a free block keeps holders disjoint, covered and free of leaks |
| Ledger.GivenBack | pkg/ipam/cidr_allocator.go:388-403 | so does freeing what one owner stops holding |
| Ledger.Passed | pkg/ipam/cidr_allocator.go:475-481 | so does passing a holding on to an owner that had none |
| Ledger.Marked | pkg/ipam/cidr_allocator.go:301-322 | so does marking blocks that somebody holds |
| Accounting.GetIsNotAssigned | pkg/ipam/cidr_allocator.go:424-441 | on safe books a Get never shows the block that is still only reserved |
| Accounting.ThreadsKept | pkg/ipam/cidr_allocator.go:252-497 | every step keeps what is known of items, snapshots and pending patches |
| Accounting.SafetyPreserved | pkg/ipam/cidr_allocator.go:330-497 | no step but a fault gives a block a second holder or frees one that is held |
| Accounting.SafeUpTo | pkg/ipam/cidr_allocator.go:330-497 | the same over every run |
| Accounting.ExactnessPreserved | pkg/ipam/cidr_allocator.go:330-497 | no step but a fault makes the used bits differ from the disjoint union of all holdings |
| Accounting.GivingUpBreaks | pkg/ipam/cidr_allocator.go:482-496 | giving up always leaves a requeued item that claims a free block |
| Accounting.RepatchBreaks | pkg/ipam/cidr_allocator.go:475-481 | patching a node created anew after an unseen success always gives it a block that is free or held elsewhere |
| Accounting.StepIsExactIff | pkg/ipam/cidr_allocator.go:330-497 | a step from an exact state leads to an exact state if and only if it is no fault |
| Accounting.RunIsExactIff | pkg/ipam/cidr_allocator.go:330-497 | over every run: exact in all states if and only if no step is a fault |
| Accounting.NodesShareNoAddress | pkg/ipam/cidr_allocator.go:330-497 | in a safe state two nodes share no address of the cluster |
| Accounting.NoneRemainingIffAllHeld | pkg/ipam/cidr_allocator.go:367-372 | the error that no CIDR remains occurs exactly when nodes, reservations and pending deletions hold every block |
| Gate.ShutUpTo | pkg/ipam/cidr_allocator.go:343-358 | in every interleaving, and whatever blocks the nodes hold, nothing has been allocated before the gate opens |
| Gate.GateCoversListedNodes | pkg/ipam/cidr_allocator.go:227-250 | when the gate opens all blocks of a listed node whose own deletion was not handled since are marked |
| Opening.PendingIsMarkedIff | pkg/ipam/cidr_allocator.go:209-250 | when the gate opens, the blocks of a deletion still pending are marked if and only if it concerns none, was created after the List call, or an Add handler had occupied the CIDRs of that node |
| Opening.LiveIsUnique | pkg/ipam/cidr_allocator.go:227-250 | on disjoint books a block has one node or pending deletion |
| Opening.RunOpensSafelyIff | pkg/ipam/cidr_allocator.go:209-250 | from the start of the controller, in every interleaving, the gate opens on a safe state if and only if each deletion then pending is of those three kinds; so always when none was pending at the List call |
| Gate.NeverOpens | pkg/ipam/cidr_allocator.go:212-215 | after a failed List call or a CIDR out of range the gate never opens, and nothing is allocated or taken from the queue |
| Gate.FailedListNeverOpens | pkg/ipam/cidr_allocator.go:228-231 | in no run that contains a failed List call is the gate ever open |
| Restart.RunOpensExactlyIff | pkg/ipam/cidr_allocator.go:209-250 | the gate opens on exact books if and only if no delete handler overtook the reconcile loop and each deletion then pending is of those three kinds |
| Restart.ExactFromOpeningIff | pkg/ipam/cidr_allocator.go:209-497 | from the start of the controller to the end of any run: exact in every state after the opening if and only if, besides, no later step is a fault |
| Restart.RestartRebuildsBitmap | pkg/ipam/cidr_allocator.go:227-325 | without deletions on the way the set of used bits is the union of the blocks that the nodes' IPv4 CIDRs touch, for any CIDRs, shared or overlapping ones included, and for every order, repetition and place of IPv6 entries |
| Restart.OvertakingLoses | pkg/ipam/cidr_allocator.go:227-250 | a deletion that overtakes the loop leaves a block that nobody holds and the loop will mark |
| Counterexamples.TwoNodesShareABlock | pkg/ipam/cidr_allocator.go:482-496 | a run from an exact state in which, after a terminal patch failure, two nodes get the same block |
| Counterexamples.PatchedAnewSharesABlock | pkg/ipam/cidr_allocator.go:475-481 | a run without any fault from an exact state to one where the second fault can happen, which gives two nodes the same block although no worker gives up |
| Counterexamples.LateDeletionSharesABlock | pkg/ipam/cidr_allocator.go:209-250 | a run without any fault in which a late deletion makes the opening unsafe and two nodes get the same block |
| Counterexamples.BlockLeaksAtRestart | pkg/ipam/cidr_allocator.go:227-250 | a run from the start after which the gate is open, all blocks are used, and there is neither node, reservation nor deletion |
| Assigned.PatchWritesFullList | pkg/ipam/cidr_allocator.go:474-481 | from an exact state: a patch that reaches the node gives it the reserved CIDR, in dual-stack with an IPv6 prefix, the primary family first |
| Assigned.FetchedPrefixIsWritten | pkg/ipam/cidr_allocator.go:455-481 | over every run: that prefix is the one the worker fetched for its last decision |
| Orphans.ItemStays | pkg/ipam/cidr_allocator.go:418-481 | an item leaves the flight only when a worker has seen CIDRs on its node or patches the node |
| Orphans.OrphanKeepsItsBlock | pkg/ipam/cidr_allocator.go:260-422 | over every run without a fault: once its node is gone, and until one of that name is created, an item stays in flight, its block marked, and its name in processing |
| CidrAllocators.CidrAllocator.InsertNodeToProcessing | pkg/ipam/cidr_allocator.go:271-280 | refuses exactly the names in processing |
| CidrAllocators.CidrAllocator.RemoveNodeFromProcessing | pkg/ipam/cidr_allocator.go:282-288 | takes out one name |
| CidrAllocators.CidrAllocator.OccupyCIDRsWithoutRemoval | pkg/ipam/cidr_allocator.go:297-325 | sets exactly the bits of blocks that share an address with the first IPv4 entry, wherever IPv6 entries stand; an error exactly when that entry shares none with the cluster; a panic for a second one |
| CidrAllocators.CidrAllocator.OccupyCIDRs | pkg/ipam/cidr_allocator.go:290-293 | the same, and the name is removed however it ends |
| CidrAllocators.CidrAllocator.ReleaseCIDR | pkg/ipam/cidr_allocator.go:383-406 | clears exactly those bits, with the same errors |
| CidrAllocators.CidrAllocator.ReconcileState | pkg/ipam/cidr_allocator.go:227-250 | succeeds exactly when every node is in range, and has then marked the union of their blocks; else those of the nodes before the first failure |
| CidrAllocators.CidrAllocator.Start | pkg/ipam/cidr_allocator.go:196-223 | the gate opens exactly when listing and reconciling succeed; the bitmap in every case |
| CidrAllocators.CidrAllocator.AllocateOrOccupyCIDR | pkg/ipam/cidr_allocator.go:330-380 | over the fields: a name in processing changes nothing, no name that was there is removed, CIDRs of a node are occupied with an error exactly for one outside the cluster, and a node without CIDRs fails exactly when cancelled or when no block is left |
| CidrAllocators.CidrAllocator.OccupyNodeCIDRs | pkg/ipam/cidr_allocator.go:339-341 | the branch of a node with CIDRs |
| CidrAllocators.CidrAllocator.AllocateCIDR | pkg/ipam/cidr_allocator.go:349-379 | the branch of a node without CIDRs |
| CidrAllocators.CidrAllocator.AllocateAfterGate | pkg/ipam/cidr_allocator.go:360-379 | an error if and only if every block was used, and then the name is given back; else one free block is marked and its item queued, or held when 5000 are queued |
| CidrAllocators.CidrAllocator.MatchesProposed | pkg/ipam/cidr_allocator.go:428-435 | the loop decides whether the node carries exactly the proposed list |
| CidrAllocators.CidrAllocator.UpdateCIDRsAllocation | pkg/ipam/cidr_allocator.go:409-497 | over the fields: when it fails, that only then the name stays, which bits are cleared, and which CIDRs the node gets: the reserved one and in dual-stack the fetched prefix, primary family first |
| CidrAllocators.CidrAllocator.AssignCIDRs | pkg/ipam/cidr_allocator.go:455-496 | the part of that call for a node without CIDRs |
| CidrAllocators.CidrAllocator.PrimaryFirst | pkg/node/node.go:43-55 | the sort keeps the entries and puts the primary family first |
| CidrAllocators.CidrAllocator.PatchPodCIDRs | pkg/ipam/cidr_allocator.go:474-496 | fails exactly when no attempt is acknowledged, and then frees the block, whether or not an attempt reached the node |
| CidrAllocators.CidrAllocator.ReleaseReservation | pkg/ipam/cidr_allocator.go:490-494 | clears exactly the blocks of the reservation; a refused release is only logged |
| CidrAllocators.CidrAllocator.WorkerTurn | pkg/ipam/cidr_allocator.go:252-269 | takes the oldest item; puts it at the end of the queue and keeps its name exactly when the update failed |
| Refinement.CallIsRun | pkg/ipam/cidr_allocator.go:330-380 | an uninterrupted call, up to its end or to where it blocks, is a run of the protocol with the same outcome; for a name in processing it is no step and no error |
| Refinement.AttemptsAreRun | pkg/ipam/cidr_allocator.go:474-497 | so is the retry loop, for every sequence of acknowledged, lost and rejected attempts |
| Refinement.UpdateIsRun | pkg/ipam/cidr_allocator.go:409-497 | so is a worker's update of a node |
| Refinement.TurnIsRun | pkg/ipam/cidr_allocator.go:252-269 | so is one turn of the worker loop, with room to requeue |
| Refinement.ReconcileIsRun | pkg/ipam/cidr_allocator.go:227-250 | so is the reconcile loop: it opens the gate with all listed blocks marked, or stops for good at the first CIDR out of range with those before it marked |
| Refinement.StartIsRun | pkg/ipam/cidr_allocator.go:212-231 | so is the start with its List call, failed or not |
| Refinement.DeletionIsRun | pkg/ipam/cidr_allocator.go:383-406 | so is the handling of a delete event |

## Left out

- Mode ipv6, several cluster CIDRs, and IPv6 cluster CIDRs at the controller: the occupy and release loops count IPv4 entries only, so exact accounting is not what the code aims at there. IPv6 is in scope inside the allocator.
- An IPv4 /0 cluster with /32 nodes at the controller: no lookup succeeds there. The allocator methods keep that case.
- Parsing and printing of CIDR text: CIDRs are structured values; a malformed string, a nil CIDR and a nil node do not occur.
- 16-byte forms of IPv4 addresses, IPv6 clusters in the IPv4-mapped range, CIDRs with host bits set, and arguments of the other family: a CIDR carries its family and is aligned to its mask, as CIDR notation in section 3.1 of RFC 4632 and section 2.3 of RFC 4291 has it.
- `big.Int` for the bitmap and for the 128-bit XOR: a bit array and unbounded naturals.
- The usage gauge in pkg/ipam/cidrset/metrics.go; the counters and the tries are kept as fields.
- The mutexes: a method of `CidrSet` is one atomic step, since the index computations outside the lock read immutable fields only.
- AWS calls and IPv6 prefix fetching: an optional IPv6 CIDR that a worker receives or not. `changeNetmask` is part of the fetched prefix.
- Kubernetes clients, informers, events, leader election, tickers and logging: Get, Patch, List and event delivery are steps.
- Ending of the workers when the context is cancelled: a worker that has ended is one that takes no further step.
- Other components that write pod CIDRs, and nodes with two CIDRs of one family: outside the hypotheses of the protocol; the class methods handle the latter by the panic outcome.
- Delivery and fairness: nothing says that a step is ever taken; the bounds on waiting count calls, not time.
- AllocateOrOccupyCIDR: a call that has to wait ends in an outcome that says where it blocks; what happens after the wait is `AllocateAfterGate` and the protocol steps.
