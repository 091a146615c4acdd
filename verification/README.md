# Verified models of five Cranelift and Pulley components

A Dafny model of the parts of this repository whose correctness is hardest to see, with proofs.
`dafny verify dfyconfig.toml` checks all of it.

**Redundant-load elimination** (`clif*.dfy`, `alias_*.dfy`). A small model of the intermediate
representation (typed SSA values, blocks with parameters, region-labelled loads and stores of any width,
fences that may do anything to memory, branches) has a small-step semantics over byte memory. The analysis
and the pass are classes with the worklist, the table and the alias map of the source. Proved: the
worklist terminates after at most five visits per block; its result is true of every path, and exact
wherever all paths agree; every removed load would have read the current value of what replaces it, on
every run, loops and redefinitions included; the rewritten function has the same runs as the original; and
within a block every repeated access with no write in between is found.

**The B+-tree forest** (`bforest_*.dfy`). A tree is seen level by level: each level lists the entries of
the level above, and the last level is the contents. Paths, splitting, rebalancing with cousins, root
collapse and iteration are methods over one node pool with its free list. Proved for every tree and
position: the invariant that `verify_tree` checks, agreement with a sorted sequence and a finite map,
where the path ends up, a height bound, and that maps sharing a pool neither touch each other nor leak
nodes.

**Quadratic probing** (`bits.dfy`, `constant_hash.dfy`). All slots are visited, and probing is a lookup.

**Pulley** (`pulley_*.dfy`). One table of operations drives encoder, decoder and interpreter. The proofs
are generic in the table; `pulley_ops.dfy` holds the real one. Proved: both round trips, and that the
interpreter on bytes and the list of operations have the same runs. The formats of operands and operations
and the effect of each operation on registers and control are stated from literal values.

**Bitsets** (`bits.dfy`, `scalar_bitset.dfy`, `compound_bitset.dfy`). Words and arrays of words with a
cached maximum refine finite sets.

## What the proofs brought to light

- In the meet of the analysis, both operands are packed options that are wrapped once more before being
  matched, so the two arms for an absent operand are never taken
  (cranelift/codegen/src/alias_analysis.rs:128-137). The effective meet is "equal, or else the block's
  own token", and that is what is modelled. With an absent operand giving way to the other one, the
  equations of a storing loop would have a solution that claims the store before it has happened
  (`EagerMeetMisleads`).
- The table key does not contain the byte order of an access. Forwarding is right if and only if the byte
  orders of the two accesses agree or the access is one byte wide (`ByteOrderMatters`); a function with
  mixed orders returns something else after the pass (`MixedOrdersMiscompiled`). The preservation theorem
  therefore asks for agreement on the forwarded pairs, which holds in any function that uses one byte order
  throughout.
- The pass relies on all code being reachable, which the compilation pipeline sees to first
  (cranelift/codegen/src/context.rs:188-189). A new alias makes a loop exactly if the value is to stand for
  itself (`AliasLoops`), and in unreachable code, where a use need not follow its definition, that happens
  (`DeadBlockLoops`). Reachable code rules it out (`SourceAvailable`).
- The bytecode documentation gives 255 as the opcode of extended operations (pulley/README.md:98-102).
  The code uses the first number after the ordinary opcodes (pulley/src/opcode.rs:24-30); the model
  follows the code.
- `from_range` documents a panic only for bounds out of order or beyond the capacity. With `lo` at the
  capacity its shift is out of range: unless overflow checks stop it, the empty range comes out as the full
  set (`FromRangeAtCapacity`). This is the only failing case (`FromRangeSpec`).
- The comment on `MAX_PATH` (cranelift/bforest/src/lib.rs:42-49) is right about 2^32 entries; that is the
  bound proved, and the bound on the number of entries that insertion asks for.

## Model

| member | source | states |
|---|---|---|
| LastStore.MeetProgress | cranelift/codegen/src/alias_analysis.rs:128-143 | The meet absorbs the incoming state, still absorbs whatever it absorbed before, and settles at least one more region whenever it changes anything. |
| LastStore.StateDescribesPath | cranelift/codegen/src/alias_analysis.rs:206-250 | On every path to a point, for the token recorded for a region, an event of that token (its write, or entry into the block it begins) occurs and nothing after it may write the region; no token means nothing on the path may have written it. |
| LastStorePrecision.StateIsExact | cranelift/codegen/src/alias_analysis.rs:206-250 | Conversely, if all paths to a point agree on the last instruction that may have written a region, the state names exactly that instruction (or none). |
| LastStorePrecision.ExactFlow | cranelift/codegen/src/alias_analysis.rs:231-247 | Meeting an exact outgoing state into a successor keeps all block inputs exact; this is what carries the previous row through the worklist. |
| AliasAnalysis.Analysis.VisitSucc | cranelift/codegen/src/alias_analysis.rs:231-247 | One successor: the state is met into its input, or becomes its input, and the successor is queued exactly if that changed it. |
| AliasAnalysis.Analysis.FlowBlock | cranelift/codegen/src/alias_analysis.rs:213-248 | One turn of the worklist leaves every unqueued block with all outgoing edges accounted for, inputs exact, and everyone within the visit budget. |
| AliasAnalysis.Analysis.ComputeBlockInputStates | cranelift/codegen/src/alias_analysis.rs:206-250 | The worklist terminates with a solution of the dataflow equations that is exact where paths agree; no block is dequeued more than five times. |
| AliasAnalysis.Analysis.constructor | cranelift/codegen/src/alias_analysis.rs:194-204 | The analysis starts with the solved block inputs and an empty table. |
| AliasAnalysis.Dfg.ResolveAliases | cranelift/codegen/src/ir/dfg.rs:263-283 | The bounded walk along aliases ends at the original value; it never gives up on a loop-free alias map. |
| AliasAnalysis.Dfg.ChangeToAlias | cranelift/codegen/src/ir/dfg.rs:507-530 | The value becomes an alias of the original of the source, and no other alias changes. |
| MemoryValues.AddAlias | cranelift/codegen/src/ir/dfg.rs:507-530 | Aliasing an original value to another original creates no loop and redirects exactly the values that stood for it. |
| AliasAnalysis.Analysis.ProcessInst | cranelift/codegen/src/alias_analysis.rs:265-372 | Returns a value exactly if the instruction is a load whose key, built from the resolved address, is in the table, known since an instruction that dominates it, and then that table value; such a load is justified by an access to the same location in the same version of memory. Any other access is recorded. |
| MemoryValues.KeysAgree | cranelift/codegen/src/alias_analysis.rs:280-311 | Two accesses have one table key if and only if their addresses have one original, offset, type and extending opcode agree, and they see the same version of memory. |
| MemoryValues.LocationOfLoad | cranelift/codegen/src/alias_analysis.rs:396-402 | A load has the location of an earlier load if and only if original address, offset, type and opcode agree, and that of an earlier store only if, besides, both are plain. |
| MemoryValues.HitForwards | cranelift/codegen/src/alias_analysis.rs:324-352 | A table hit whose defining instruction dominates the load justifies forwarding. |
| MemoryValues.RemoveLoad | cranelift/codegen/src/alias_analysis.rs:385-389 | Removing a forwarded load in favour of the original of the known value keeps the whole pass invariant: aliases, removed loads and table. |
| MemoryValues.SourceAvailable | cranelift/codegen/src/alias_analysis.rs:329-336 | In reachable code in SSA form, what stands for a forwarded load is available at the load, so it is not the load itself. |
| AliasAnalysis.Analysis.Replace | cranelift/codegen/src/alias_analysis.rs:385-389 | The result becomes an alias of the original of the replacing value, the load is removed, and the pass invariant is kept. |
| AliasAnalysis.Analysis.ProcessAt | cranelift/codegen/src/alias_analysis.rs:384-391 | One instruction of the layout is exactly one step of the pass. |
| AliasAnalysis.Analysis.ProcessBlock | cranelift/codegen/src/alias_analysis.rs:382-391 | Every instruction of a block is one step of the pass, in order. |
| AliasAnalysis.Analysis.ComputeAndUpdateAliases | cranelift/codegen/src/alias_analysis.rs:379-393 | The pass takes one step per instruction, in layout order, with nothing skipped, and keeps its invariant. |
| AliasAnalysis.RemovedAreRedundant | cranelift/codegen/src/alias_analysis.rs:379-393 | Exactly the loads that were redundant when the pass came to them are removed. |
| AliasAnalysis.RepeatedAccess | cranelift/codegen/src/alias_analysis.rs:265-393 | A load is redundant if, up to the aliases known when it is reached, it accesses the location and version of an earlier access, provided that everything processed since dominates it and the earlier address still has the same original. |
| RepeatedAccesses.LayoutHas | cranelift/codegen/src/alias_analysis.rs:374-378 | The pass comes to every instruction, block by block and in block order. |
| RepeatedAccesses.LayoutDistinct | cranelift/codegen/src/alias_analysis.rs:374-378 | It comes to no instruction twice. |
| RepeatedAccesses.PassInvariant | cranelift/codegen/src/alias_analysis.rs:265-393 | Along every log of the pass over a function in SSA form, aliases, removed loads and table entries are sound. |
| RepeatedAccesses.OriginalStays | cranelift/codegen/src/alias_analysis.rs:379-393 | A value keeps its original as long as the load that defines the original is not processed. |
| RepeatedAccesses.RepeatRemoved | cranelift/codegen/src/alias_analysis.rs:260-393 | A load that repeats an earlier access, up to the aliases known by then, is removed, if what stands between them in the layout dominates the load and does not dominate the access. |
| RepeatedAccesses.RepeatInBlock | cranelift/codegen/src/alias_analysis.rs:260-393 | Within a block, a load is removed whenever it accesses, up to the aliases known by then (so also through the result of a removed load), the location of an earlier access of its region and no fence or store of that region stands in between. |
| ClifPaths.NoReentry | cranelift/codegen/src/alias_analysis.rs:324-336 | Between the last visit of a point and a point it dominates, nothing that strictly dominates it is visited again. |
| LoadElimination.TokenDominates | cranelift/codegen/src/alias_analysis.rs:329-332 | The instruction recorded for a region dominates the point where it is recorded. |
| LoadElimination.SameVersionNoWrites | cranelift/codegen/src/alias_analysis.rs:146-155 | If an access dominates a later one and both see the same version of a region, nothing writes the region between the last execution of the first and the second, loops included. |
| LoadElimination.StoreVersionNoWrites | cranelift/codegen/src/alias_analysis.rs:146-155 | If the version seen is the one made by a store, nothing writes the region after the last execution of that store. |
| LoadElimination.ForwardedBytes | cranelift/codegen/src/alias_analysis.rs:265-372 | On every run that respects the region discipline, a forwarded load finds at its location the very bytes the source access left there, and they are accessible. |
| LoadElimination.ForwardedValue | cranelift/codegen/src/alias_analysis.rs:265-372 | The value a forwarded load makes of those bytes is the current value of what the source access knows. |
| LoadElimination.RemovedLoadReadsRoot | cranelift/codegen/src/alias_analysis.rs:265-372 | Soundness: at every execution of a removed load, in every loop iteration, the load would not have trapped and would have read the current value of the value that replaces it, through chains of aliases. |
| LoadElimination.AvailableHoldsRoot | cranelift/codegen/src/alias_analysis.rs:374-393 | Wherever a value may be used, it equals the original value it is an alias of. |
| LoadRewrite.RemovedStep | cranelift/codegen/src/alias_analysis.rs:385-389 | A removed load is matched by no step of the rewritten function. |
| LoadRewrite.KeptStep | cranelift/codegen/src/alias_analysis.rs:374-393 | A kept instruction does the same in both functions: same memory, same events, same traps, same values. |
| LoadRewrite.RewritePreservesRuns | cranelift/codegen/src/alias_analysis.rs:374-393 | The rewrite preserves meaning: after any number of steps of the original, the rewritten function, having taken the kept steps only, has the same memory, event trace and values, and halts with the same outcome if and only if the original has. |
| LoadRewrite.KeptStepsReach | cranelift/codegen/src/alias_analysis.rs:374-393 | Every step count of the rewritten function is reached by some step count of the original, so no run of it is left unmatched. |
| RedundantLoads.ReplaceRedundantLoads | cranelift/codegen/src/alias_analysis.rs:379-393 | The whole pass on a function in SSA form: the step-by-step log of what it did, a sound alias map, and, when all accesses use one byte order, everything the preservation theorem needs. |
| RedundantLoads.ByteOrderMatters | cranelift/codegen/src/alias_analysis.rs:146-174 | The table key has no byte order. A load makes of every content of its location what an access at the same location knows about it if and only if their byte orders agree or the location is one byte wide; what a store knows is what it stored. |
| AliasLimits.MixedOrdersAccepted | cranelift/codegen/src/alias_analysis.rs:146-174 | The function `store little; load big; return` is one the pass accepts: in SSA form, all of it reachable. |
| AliasLimits.MixedOrdersForwarded | cranelift/codegen/src/alias_analysis.rs:324-352 | Its load qualifies for the value of the store: dominated, same location, same version of memory. |
| AliasLimits.MixedOrdersPass | cranelift/codegen/src/alias_analysis.rs:379-393 | Whatever the analysis has found out, the pass on it ends with the load removed and its result an alias of the stored value. |
| AliasLimits.MixedOrdersMiscompiled | cranelift/codegen/src/alias_analysis.rs:379-393 | From every state that stores two different bytes, the original returns them in reverse and the rewritten function returns them as stored, with the same memory and events. |
| AliasLimits.MixedStartExists | cranelift/codegen/src/alias_analysis.rs:379-393 | There are such states. |
| MemoryValues.AliasLoops | cranelift/codegen/src/ir/dfg.rs:507-530 | Making an original value an alias of what another value stands for creates a loop if and only if that is the value itself. |
| AliasLimits.DeadBlockLoops | cranelift/codegen/src/alias_analysis.rs:379-393 | In a function in SSA form with an unreachable block the pass does make a load an alias of itself. |
| AliasLimits.EagerMeetMisleads | cranelift/codegen/src/alias_analysis.rs:128-137 | With the meet the arms seem to describe, the equations have a solution that claims, on entry to a loop, a store that has not happened. |
| BForestSlices.SliceInsert | cranelift/bforest/src/lib.rs:116-121 | In place, the slice holds its old contents but the last, with the new element at its index. |
| BForestSlices.SliceShift | cranelift/bforest/src/lib.rs:124-128 | In place, the elements move to the left; the last ones stay. |
| BForestNode.InnerInsertExpands | cranelift/bforest/src/node.rs:168-190 | Entering a sub-tree splits one entry of the node in two, at the new key; it fails exactly if the node is full. |
| BForestNode.LeafInsertExpands | cranelift/bforest/src/node.rs:194-218 | The pair is entered at its index; insertion fails exactly if the leaf is full. |
| BForestNode.SplitConserves | cranelift/bforest/src/node.rs:225-301 | A split conserves the entries in order, with the critical key as the bound between the halves; the left half has the promised number of entries. |
| BForestNode.InnerRemoveExpands | cranelift/bforest/src/node.rs:310-330 | Exactly one entry is gone; its left neighbour takes over its bound. |
| BForestNode.LeafRemoveExpands | cranelift/bforest/src/node.rs:335-352 | Exactly one entry is gone, and the status says how full the leaf is. |
| BForestNode.BalanceConserves | cranelift/bforest/src/node.rs:364-464 | Balancing conserves the entries of both siblings in order. Either everything is in the right one and the left is empty, or both are at least half full around the new critical key. |
| BForestNode.BalanceIsEven | cranelift/bforest/src/node.rs:356-363 | Everything goes to the right node exactly if it fits there; otherwise the split is even, with a bias to the left. |
| BForestGrow.GrowLeafSpec | cranelift/bforest/src/path.rs:292-341 | After a leaf split and the retried insertion both halves are at least half full, together hold the old entries with the new one in place, and the critical key is the first key of the right half, also when the new pair is that first entry. |
| BForestGrow.GrownIsEven | cranelift/bforest/src/node.rs:467-481 | After the retried insertion the halves of a leaf are equal if the capacity is odd, and one apart if it is even. |
| BForestGrow.GrowInnerSpec | cranelift/bforest/src/path.rs:292-341 | The same for inner nodes: the entry on the path is split in two, and the path stays where it was. |
| BForestPool.Pool.AllocNode | cranelift/bforest/src/pool.rs:33-50 | The node taken is the head of the free list, or a new one if no node is free; no other node changes, and the free list stays acyclic and lists exactly the free nodes. |
| BForestPool.Pool.FreeNode | cranelift/bforest/src/pool.rs:53-60 | The node goes to the front of the free list; no other node changes and the free list stays exact. |
| BForestPool.Pool.Clear | cranelift/bforest/src/pool.rs:27-30 | The pool is empty. |
| BForestFree.FreeTree | cranelift/bforest/src/pool.rs:63-74 | Exactly the nodes below the given one become free. |
| BForestFree.FreedTree | cranelift/bforest/src/pool.rs:63-74 | Freeing from the root frees all nodes of the tree and touches no other node. |
| BForestCursor.Path.RightSiblingBranchLevel | cranelift/bforest/src/path.rs:585-590 | The deepest level above where the path does not go through the last sub-tree. |
| BForestCursor.Path.LeftSiblingBranchLevel | cranelift/bforest/src/path.rs:593-595 | The deepest level above where the path does not go through the first sub-tree. |
| BForestCursor.Path.RightSibling | cranelift/bforest/src/path.rs:599-620 | The next node of the level, wherever in the tree it hangs, with the key that separates the two; none exactly for the last node. |
| BForestCursor.Path.CurrentCritKey | cranelift/bforest/src/path.rs:387-393 | The bound between the node on the path and its left neighbour; none exactly for the first node. |
| BForestCursor.Path.NextNode | cranelift/bforest/src/path.rs:165-187 | The path moves to the next node of the level, at entry 0, or off the end if there is none. |
| BForestCursor.Path.UpdateRightCritKey | cranelift/bforest/src/path.rs:623-633 | Exactly the bound between the node on the path and its right neighbour changes, on all levels where it shows. |
| BForestCursor.Path.UpdateCritKey | cranelift/bforest/src/path.rs:396-417 | Exactly the bound left of the leaf on the path becomes its first key; nothing changes for the first leaf. |
| BForestRemove.HealLevel | cranelift/bforest/src/path.rs:475-491 | Repairing a level keeps the entries below it, its order and its separators, leaves every node but the last half full, frees every node that is gone from the tree, and keeps the path at the same entry or off the end. |
| BForestRemove.UnderflowedNode | cranelift/bforest/src/path.rs:499-541 | The same for a node below half, balanced with its right neighbour even under another parent. |
| BForestRemove.BalanceSiblings | cranelift/bforest/src/path.rs:499-541 | The two neighbours hold the balanced contents, and only the bound between them changes. |
| BForestRemove.DropFromParent | cranelift/bforest/src/path.rs:561-564 | The parent loses the sub-tree and is repaired, or goes with its only sub-tree; the levels above lead down to the rest of the level, and so does the path. |
| BForestRemove.EmptyNode | cranelift/bforest/src/path.rs:551-577 | The level loses exactly the empty node, which becomes free; the parents are repaired up to the root; the path goes on with the right neighbour or off the end. |
| BForestRemoval.RefreshCritKey | cranelift/bforest/src/path.rs:424-430 | If the first entry of a leaf has gone, the bound to its left is its new first key, and the separators are in order again. |
| BForestRemoval.FindRoot | cranelift/bforest/src/path.rs:439-447 | Steps down to the first root that has several sub-trees or is a leaf. |
| BForestRemoval.CollapseRoot | cranelift/bforest/src/path.rs:439-466 | Roots with a single sub-tree are freed; the tree below is proper and the path points where it pointed. |
| BForestRemoval.BalanceNodes | cranelift/bforest/src/path.rs:423-467 | After the entry has left the leaf: the tree is proper again, or empty. |
| BForestRemoval.Remove | cranelift/bforest/src/path.rs:368-379 | For every proper tree and position: the tree stays proper, the contents lose exactly that entry, the path is at its successor or off the end, the result is none exactly if that was the last entry, nodes outside the tree are untouched, and every node that has left the tree is free. |
| BForestInsert.HeightBound | cranelift/bforest/src/lib.rs:42-49 | A proper tree of h >= 2 levels of nodes holds more than 4^(h-1) entries, although rightmost nodes may be nearly empty; so with at most 2^32 entries no path is longer than MAX_PATH. |
| BForestInsert.SplitLeaf | cranelift/bforest/src/path.rs:292-341 | The full leaf is split, the pair is in one of the halves, and the new leaf still has to be entered above. |
| BForestInsert.SplitInner | cranelift/bforest/src/path.rs:292-341 | The full inner node is split, the new sub-tree is entered in one of the halves, and the climb goes on one level up. |
| BForestInsert.GrowRoot | cranelift/bforest/src/path.rs:355-361 | A new root above the two halves of the old one completes the tree. |
| BForestInsert.SplitAndInsert | cranelift/bforest/src/path.rs:285-362 | Splits cascade as far as needed: the tree is proper, including half-full nodes, the contents gain exactly the pair, the path points at it, and every node taken from the pool is in the tree. |
| BForestInsert.Insert | cranelift/bforest/src/path.rs:263-281 | The same for insertion in general, whether the leaf has room or not. |
| BForestOrder.BoundIsKey | cranelift/bforest/src/pool.rs:121-174 | Every bound in an inner node is the smallest key to its right. |
| BForestOrder.VerifyTree | cranelift/bforest/src/pool.rs:80-204 | Every node of a proper tree passes all checks of the consistency test, with the bounds the test computes. |
| BForestOrder.VerifyRoot | cranelift/bforest/src/pool.rs:89-93 | An inner root has at least two sub-trees. |
| BForestSearch.Search | cranelift/bforest/src/lib.rs:70-72 | Binary search finds the key, or the only place where it keeps the order. |
| BForestSearch.Find | cranelift/bforest/src/path.rs:47-88 | A hit points at the entry and returns its value. A miss points at the place between the two neighbours of the key, and at entry 0 only in the first leaf, which insertion relies on. |
| BForestSearch.First | cranelift/bforest/src/path.rs:91-104 | The path points at the first entry. |
| BForestSearch.Next | cranelift/bforest/src/path.rs:107-125 | The path moves to the next entry, across leaves and sub-trees, or off the end. |
| BForestSearch.Prev | cranelift/bforest/src/path.rs:132-158 | The path moves to the previous entry, or from off the end to the last one; at the first entry nothing changes. |
| BForestSearch.GotoSubtreeLast | cranelift/bforest/src/path.rs:204-222 | The path points at the last entry below the given node. |
| BForestSearch.Normalize | cranelift/bforest/src/path.rs:637-644 | A path that stands behind the last entry of a leaf moves to the first entry of the next leaf. |
| BForestSearch.PathUnique | cranelift/bforest/src/path.rs:650-682 | There is only one path to an entry. |
| BForestSearch.NextThenPrev | cranelift/bforest/src/path.rs:107-158 | Moving to the next entry and back restores the path, node by node and entry by entry. |
| BForestMapCursor.Map.IsEmpty | cranelift/bforest/src/map.rs:94-96 | Whether the map has no entries. |
| BForestMapCursor.Map.Get | cranelift/bforest/src/map.rs:99-103 | The value of the key in the finite map, if any. |
| BForestMapCursor.Map.GetOrLess | cranelift/bforest/src/map.rs:112-125 | The entry with the greatest key not above the argument; none exactly if all keys are above. |
| BForestMapCursor.Map.Insert | cranelift/bforest/src/map.rs:128-136 | The finite map is updated at the key; the old value is returned. |
| BForestMapCursor.Map.Remove | cranelift/bforest/src/map.rs:139-151 | The finite map loses the key; its value is returned. |
| BForestMapCursor.Map.Retain | cranelift/bforest/src/map.rs:165-184 | The predicate is called once per entry in key order, each call in the state that the one before left, and the last state is returned. A key stays in the map if and only if its call says so, with the value the call gave it, and no key is new; although removals rebalance the tree underneath. |
| BForestMapCursor.KeepAll | cranelift/bforest/src/map.rs:160-184 | A predicate that keeps every entry as it is leaves the map unchanged. |
| BForestMapCursor.Map.Clear | cranelift/bforest/src/map.rs:154-158 | The map is empty, exactly its nodes are free, and no other node is touched. |
| BForestMapCursor.MapCursor.Next | cranelift/bforest/src/map.rs:287-289 | The index into the sorted contents goes up by one, unless the cursor is off the end. |
| BForestMapCursor.MapCursor.Prev | cranelift/bforest/src/map.rs:294-298 | The index goes down by one; none at the first entry. |
| BForestMapCursor.MapCursor.Key | cranelift/bforest/src/map.rs:301-305 | The key at the index, none off the end. |
| BForestMapCursor.MapCursor.Value | cranelift/bforest/src/map.rs:308-312 | The value at the index, none off the end. |
| BForestMapCursor.MapCursor.Goto | cranelift/bforest/src/map.rs:327-335 | The index of the first key not below the argument, and its value if it is the argument. |
| BForestMapCursor.MapCursor.GotoFirst | cranelift/bforest/src/map.rs:338-340 | The index is 0. |
| BForestMapCursor.MapCursor.Insert | cranelift/bforest/src/map.rs:347-366 | The finite map is updated, the old value returned, and the cursor is at the pair. |
| BForestMapCursor.MapCursor.Remove | cranelift/bforest/src/map.rs:370-376 | The entry at the index is gone and its value returned; the index is unchanged, so at the successor. |
| BForestIter.MapIter.Next | cranelift/bforest/src/map.rs:397-405 | The entries in order, one per call, and then none however often it is called. |
| BForestIter.Collect | cranelift/bforest/src/map.rs:197-203 | Iteration yields every entry exactly once, in strictly increasing order of keys. |
| BForestFree.OthersSurvive | cranelift/bforest/src/map.rs:154-158 | Whatever is done to one tree, every tree disjoint from it stays proper, with the same contents, and disjoint. |
| BForestIter.NewForest | cranelift/bforest/src/map.rs:48-52 | A new forest with any number of empty maps is a proper one. |
| BForestIter.ForestStep | cranelift/bforest/src/map.rs:35-59 | Over any operation on one map, the maps of a forest stay proper and disjoint, the others keep their contents, and together they own all nodes in use: no node leaks. |
| BForestIter.ForestLive | cranelift/bforest/src/pool.rs:33-74 | No tree of a forest reaches a free node, and no node belongs to two trees. |
| ConstantHash.PositionsDiffer | cranelift/codegen/src/constant_hash.rs:50-61 | In a table of 2^n slots the first 2^n probe positions are pairwise different, from any hash. |
| ConstantHash.EverySlotVisited | cranelift/codegen/src/constant_hash.rs:50-61 | Every slot is visited within 2^n steps, as the comment in the code claims. |
| ConstantHash.Probe | cranelift/codegen/src/constant_hash.rs:33-62 | With one vacant slot, probing ends in fewer steps than there are slots, at the key or at the first vacant slot of its probe sequence. |
| ConstantHash.ProbeFinds | cranelift/codegen/src/constant_hash.rs:26-62 | In a table whose keys are reachable along their own probe sequences, probing succeeds if and only if the key is present. |
| ConstantHash.FillKeeps | cranelift/codegen/meta/src/constant_hash.rs:26-40 | Filling the vacant slot a search ended at keeps all keys reachable and adds exactly one occurrence of the key. |
| ConstantHash.GenerateTable | cranelift/codegen/meta/src/constant_hash.rs:15-42 | For any items, equal ones included, the length of the generated table is the least power of two above 12/10 of their number; it has a vacant slot, holds every item as often as it was given, and finds exactly the given ones. |
| ScalarBitSet.ContainsSpec | cranelift/bitset/src/scalar.rs:236-239 | The shift-and-mask test is membership. |
| ScalarBitSet.InsertSpec | cranelift/bitset/src/scalar.rs:284-288 | The word stays in range and gains exactly the member. |
| ScalarBitSet.RemoveSpec | cranelift/bitset/src/scalar.rs:325-329 | The word loses exactly the member. |
| ScalarBitSet.EmptySpec | cranelift/bitset/src/scalar.rs:202-204 | The word is 0 exactly for the empty set. |
| ScalarBitSet.FromRangeSpec | cranelift/bitset/src/scalar.rs:128-144 | For all bounds the function accepts, no intermediate result overflows the word, and the members are exactly lo up to hi if and only if lo is below the width. |
| ScalarBitSet.FromRangeAtCapacity | cranelift/bitset/src/scalar.rs:128-144 | With lo and hi at the width, the shift wraps and the result is the full set instead of the empty one. |
| ScalarBitSet.CountSpec | cranelift/bitset/src/scalar.rs:182-184 | The population count is the number of members. |
| ScalarBitSet.MinSpec | cranelift/bitset/src/scalar.rs:428-434 | The least member, none exactly for the empty set. |
| ScalarBitSet.MaxSpec | cranelift/bitset/src/scalar.rs:457-464 | The greatest member, none exactly for the empty set. |
| ScalarBitSet.Iter.Next | cranelift/bitset/src/scalar.rs:593-595 | Takes the least member left. |
| ScalarBitSet.Iter.NextBack | cranelift/bitset/src/scalar.rs:603-605 | Takes the greatest member left. |
| ScalarBitSet.Iter.Len | cranelift/bitset/src/scalar.rs:613-615 | How many are left. |
| CompoundBitSets.CompoundBitSet.Contains | cranelift/bitset/src/compound.rs:206-213 | Membership, also beyond the capacity. |
| CompoundBitSets.CompoundBitSet.Len | cranelift/bitset/src/compound.rs:119-121 | The cardinality of the set. |
| CompoundBitSets.CompoundBitSet.EnsureCapacity | cranelift/bitset/src/compound.rs:243-264 | There is room for the element, the set is unchanged, and nothing happens if there was room; otherwise the words grow at least threefold, and by four. |
| CompoundBitSets.CompoundBitSet.Insert | cranelift/bitset/src/compound.rs:295-305 | The set gains exactly the element, the result says whether it is new, and the cached maximum is the maximum. |
| CompoundBitSets.CompoundBitSet.Remove | cranelift/bitset/src/compound.rs:328-340 | The set loses exactly the element, the result says whether it was there, and the cached maximum is the maximum. |
| CompoundBitSets.CompoundBitSet.UpdateMax | cranelift/bitset/src/compound.rs:343-353 | Searching down from a word with nothing above it restores the cached maximum. |
| CompoundBitSets.CompoundBitSet.Pop | cranelift/bitset/src/compound.rs:404-408 | Takes out the maximum, none exactly for the empty set. |
| CompoundBitSets.CompoundBitSet.Clear | cranelift/bitset/src/compound.rs:428-439 | The set is empty although only the words up to the cached maximum are touched. |
| CompoundBitSets.Iter.Next | cranelift/bitset/src/compound.rs:495-507 | Takes the least element left, across words. |
| CompoundBitSets.Collect | cranelift/bitset/src/compound.rs:464-470 | Iteration yields exactly the elements, each once, in increasing order. |
| PulleyFields.DecodeEncoded | pulley/src/decode.rs:264-404 | For every operand type, decoding the encoding of a value returns it, whatever follows. What the encoding is, byte by byte, is stated by FieldFormat and PackedFormat. |
| PulleyFields.FieldFormat | pulley/src/encode.rs:13-136 | Registers take one byte and are below 32, immediates take 1, 2, 4 or 8 bytes and have exactly the values of signed words of that size, offsets and register sets take 4; byte i of the encoding is digit i to base 256 of the value modulo 256 to the number of bytes. |
| PulleyFields.PackedFormat | pulley/src/regs.rs:182-187 | Packed registers take two bytes: the destination in the lowest five bits, then the first and the second source. |
| PulleyFields.FieldErrors | pulley/src/decode.rs:159-185 | A truncated operand is reported with the position where it starts, a byte that is no register with that byte and the position behind it, and nothing else fails. |
| PulleyFields.EncodeDecoded | pulley/src/encode.rs:8-136 | Whatever decodes re-encodes to the same bytes, but for the ignored bit of packed registers. |
| PulleyFields.UnpackPacked | pulley/src/regs.rs:182-196 | Unpacking three packed registers returns them. |
| PulleyFields.PackUnpacked | pulley/src/regs.rs:182-196 | Packing what was unpacked from a word returns the word without its topmost bit. |
| PulleyCodec.OneRoundTrip | pulley/src/encode.rs:139-198 | Decoding an encoded operation returns it, whatever follows, and its length is the declared size; for every table of operations. |
| PulleyCodec.OpcodeBytes | pulley/src/encode.rs:153-192 | The first byte is the opcode; an extended operation starts with the number of ordinary operations and its own opcode, low byte first. |
| PulleyCodec.OperandBytes | pulley/src/encode.rs:153-192 | The operands follow in order, each where the ones before it end. |
| PulleyCodec.DecodeErrors | pulley/src/decode.rs:479-513 | No bytes, an opcode too large, a truncated or unknown extended opcode and a bad operand are each reported with their position and code. |
| PulleyCodec.OperandErrors | pulley/src/decode.rs:479-513 | The error of an operand list is that of its first bad operand, at its position. |
| PulleyCodec.OneReencode | pulley/src/decode.rs:479-513 | Encoding a decoded operation returns its bytes, but for the ignored bits. |
| PulleyCodec.RoundTrip | pulley/src/decode.rs:429-441 | Decoding the concatenated encodings of any list of operations returns that list. |
| PulleyCodec.Reencode | pulley/src/decode.rs:429-441 | Any byte string that decodes re-encodes to itself with the ignored bits cleared. |
| PulleyCodec.ClearedOnlyTops | pulley/src/regs.rs:190-196 | Clearing the ignored bits changes nothing but topmost bits of bytes. |
| PulleyCodec.SafeBytecodeStream.Read | pulley/src/decode.rs:149-157 | Takes the next bytes and advances the position; at the end of the stream nothing is taken and the error carries the position. |
| PulleyCodec.SafeBytecodeStream.DecodeOp | pulley/src/decode.rs:479-513 | One operation or the first error, with its position; the stream is left behind the operation. |
| PulleyCodec.SafeBytecodeStream.DecodeRest | pulley/src/decode.rs:429-441 | The loop returns what the specification of a whole stream says: all operations, or the first error. |
| PulleyCodec.Sink.Put | pulley/src/encode.rs:139-198 | The encoding is appended and nothing else changes. |
| PulleyOps.PulleyTable | pulley/src/lib.rs:15-183 | 61 ordinary operations, so that 61 announces an extended one, and three extended operations. |
| PulleyOps.PulleyBranches | pulley/src/lib.rs:15-50 | The real table has the control transfers and trap where the interpreter expects them. |
| PulleyOps.Sizes | pulley/src/lib.rs:15-183 | The encoded size of each of the 64 operations. |
| PulleyInterp.WrittenSizes | pulley/src/interp.rs:633-719 | The instruction sizes 5, 6 and 7 written into the interpreter, and the 3 of trap, are the encoded sizes. |
| PulleyInterp.StartUnique | pulley/src/interp.rs:605-609 | At most one operation starts at an address. |
| PulleyInterp.ByteStepAt | pulley/src/interp.rs:122-147 | At an operation boundary the interpreter executes exactly that operation. |
| PulleyInterp.StepIntended | pulley/src/interp.rs:605-719 | At an operation boundary the interpreter does what the operation means: a taken branch goes to its own start plus its offset, wherever that is, a call saves the address of the following operation, a trap reports its own. Operation by operation this is stated in PulleyMeaning. |
| PulleyMeaning.Ret | pulley/src/interp.rs:622-631 | ret goes to the address in register 28, or returns to the host if that is 2^64 - 1. |
| PulleyMeaning.Call | pulley/src/interp.rs:633-637 | call goes to its own start plus the offset and leaves the address five bytes behind its start in register 28. |
| PulleyMeaning.Jump | pulley/src/interp.rs:639-641 | jump goes to its own start plus the offset. |
| PulleyMeaning.BrIf | pulley/src/interp.rs:643-650 | br_if goes to its own start plus the offset if the whole register is not zero, and otherwise six bytes on. |
| PulleyMeaning.BrIfNot | pulley/src/interp.rs:652-659 | br_if_not does so if the register is zero. |
| PulleyMeaning.BrIfCompare | pulley/src/interp.rs:661-719 | The six comparing branches: equal, not equal, less and less or equal of the low halves as two's complement integers, then as unsigned integers; otherwise seven bytes on. |
| PulleyMeaning.XMov | pulley/src/interp.rs:721-725 | xmov copies one register and changes nothing else. |
| PulleyMeaning.XConst | pulley/src/interp.rs:739-757 | The constants of all four widths are sign-extended to 64 bits. |
| PulleyMeaning.XAdd32 | pulley/src/interp.rs:759-764 | xadd32 puts the sum modulo 2^32 into the low half of the destination and leaves its high half alone. |
| PulleyMeaning.XAdd64 | pulley/src/interp.rs:766-771 | xadd64 adds modulo 2^64. |
| PulleyMeaning.XCompare64 | pulley/src/interp.rs:773-813 | The six comparisons of whole registers, signed and unsigned order stated on integers: the destination becomes one or zero. |
| PulleyMeaning.XCompare32 | pulley/src/interp.rs:815-855 | The six comparisons of low halves: the whole destination becomes one or zero. |
| PulleyMeaning.TrapStep | pulley/src/interp.rs:1104-1106 | trap stops at its own address. |
| PulleyMeaning.Nop | pulley/src/interp.rs:1100-1102 | nop goes on and changes nothing. |
| PulleyMeaning.GetSp | pulley/src/interp.rs:1108-1112 | get_sp copies register 27. |
| PulleyMeaning.OtherStep | pulley/src/interp.rs:857-1096 | Every other operation goes on to the next one. |
| PulleyInterp.StepSimulated | pulley/src/interp.rs:605-719 | Every step of the operation list, which knows operations and no sizes, is a step of the interpreter. |
| PulleyInterp.StepReflected | pulley/src/interp.rs:605-719 | Every step of the interpreter that stays on boundaries is a step of the operation list. |
| PulleyInterp.RunsAgree | pulley/src/interp.rs:122-163 | A sequence of operations and states is a run of the operation list if and only if its image is a run of the interpreter. |
| PulleyInterp.StepStays | pulley/src/interp.rs:605-719 | In code whose branches go to operations and which does not run off its end, a step stays on boundaries, provided returns do. |
| PulleyInterp.RunReflected | pulley/src/interp.rs:122-163 | So every run over such code is the image of a run of the operation list. |
| PulleyInterp.Interpreter.Step | pulley/src/interp.rs:122-147 | The machine that updates registers and program counter in place takes exactly the step of the specification, whose meaning is stated operation by operation in PulleyMeaning. |

## Left out

- Atomic accesses in the alias analysis, whose token for a block's first instruction would coincide with their own write; vector extending loads; wrap-around of addresses; stores without memory flags, which act as fences.
- The opcode lists behind `inst_addr_offset_type`, `inst_store_data` and `has_memory_fence_semantics` (cranelift/codegen/src/inst_predicates.rs:110-156): instructions of the model are loads, stores, fences or pure operations from the start.
- Construction of the dominator tree: the pass takes an oracle that may say "dominates" only where every path passes through.
- That the pass finds all redundancies: the table keeps one entry per key, so it does not; RepeatedAccess, RepeatRemoved and RepeatInBlock say when a redundancy is found.
- The egraph pass, which calls the same analysis one instruction at a time.
- Node arrays: nodes are sequences of exactly the entries in use; the stale tails of the fixed arrays are not modelled. SliceInsert and SliceShift are proved on arrays.
- Leaf capacity is a parameter, at least 7 for insertion: 7 for maps, 15 for sets. The set front end `cranelift/bforest/src/set.rs` is the same code over the other capacity and is not modelled again. Keys are integers with their usual order.
- BForestInsert.Insert: asks for fewer than 2^32 entries, since node references are 32 bits wide and the path arrays have 16 levels.
- ConstantHash.GenerateTable: the size is 12/10 of the number of items in integers, without the rounding of the floating-point product; the hash function is a parameter.
- ScalarBitSet.FromRangeSpec: shifts are taken modulo the width, as without overflow checks; the panic of a build with them is not modelled.
- CompoundBitSets.CompoundBitSet.Insert: elements are below 2^32, the range of the cached maximum.
- Equality of compound bitsets, which compares backing storage.
- Pulley operations on memory, the stack, and float and vector registers appear in the interpreter as one unspecified function of the operation and the state; host calls and disassembly are left out.
- PulleyInterp.Interpreter.Step: asks that an operation can be decoded at the program counter; the interpreter takes that for granted when it unwraps the result of decoding.
- The interpreter's endless loop is modelled by its runs, step by step.
