# Models of kernel data structures and protocols

This project models the parts of a small Linux kernel tree whose correctness is hardest to see from the code, and
proves what they promise. The configuration is that of a 32-bit x86 machine: a word has 32 bits, a radix-tree node 16
slots.

| files | source | what is proved |
|---|---|---|
| Machine | | sizes of the machine's integers |
| RbShape, RbErase, RbRenumber, RbTree, RbBalance | `lib/rbtree.c` and its headers | insertion and removal on the heap keep a red-black tree and the in-order sequence; no way down is longer than twice the logarithm |
| RadixShape, RadixSteps, Idr | `lib/radix-tree.c`, `lib/idr.c` | what the free tags mean; allocation gives the lowest free id |
| Pid, PidMeaning | `kernel/pid.c` | a pid gets a number in every namespace of its line, or none changes; exactly when, and why not |
| Namei, NameiMeaning | `fs/namei.c` | the walk with an explicit stack refines recursive resolution, which gives exactly what steps over the list of components lead to |
| Dcache, DcacheReturns | `fs/dcache.c` | parallel lookups never make two dentries of one name, and get the same one |
| TaskWork, TaskReturns | `kernel/task_work.c` | every work runs once or is returned by one cancel; when the list is closed for good |
| HeapOrder, Sort | `lib/sort.c` | heapsort in byte offsets sorts and permutes |
| FindBit, FdTable | `lib/find_bit.c`, `fs/file.c` | the descriptor table with its two-level bitmap refines a set and a map |
| CpioFormat, CpioSpec, CpioStream, CpioPieces, CpioArchive, CpioMeaning, CpioTrouble, Cpio | `init/initramfs.c` | an archive cut into any pieces unpacks to what the format says its entries stand for; what is reported |
| ResourceShape, ResourcePaths, ResourceInsert, ResourceTree | `kernel/resource.c` | the tree of address ranges stays nested and in order; when a request is refused |
| Decimal, PrintSpec, PrintWidths, Vsprintf | `lib/vsprintf.c` | formatting into a bounded buffer; when widths are kept |
| PrintFormat, PrintTexts, PrintDecode, PrintYields, PrintMeaning | `lib/vsprintf.c` | what a format prints is what its conversions stand for |
| Kstrtox, KstrtoxMeaning | `lib/kstrtox.c` | exact overflow detection; which texts are accepted, and for which number |
| RoundTrip, TypedRoundTrip | both | what is printed, in every base and type, parses back |

Code that updates objects in place is a class with an invariant; its methods are proved against functions of the old
state. The two protocols are state machines over atomic steps, and their theorems are about every run of any number of
threads. Loops are loops.

What a model computes is tied to a definition that does not use it. CpioFormat and PrintFormat define archives and
formats by their parts and what the parts stand for, without a parser; NameiMeaning defines resolution as a relation
over lists of components, and KstrtoxMeaning defines numerals as a relation between texts and numbers.

Predicates whose parts are not meant to be proved one by one are written `true == (...)`. The verifier then takes the
body as one fact instead of splitting it into one obligation per conjunct, which keeps the proofs short; the meaning is
that of the plain conjunction.

## Model

| member | source | states |
|---|---|---|
| `RbTree.Root.Add` | minified/include/linux/rbtree.h:113-130 | the tree stays red-black with a black root and correct parent links; its in-order sequence is the old one with the node put in before the first node it is less than |
| `RbTree.AddAscending` | minified/include/linux/rbtree.h:113-130 | with a strict weak order and a sorted tree the requirement of `Add` holds, and the sequence it leaves is sorted |
| `RbTree.Root.Descend` | minified/include/linux/rbtree.h:113-130 | the walk down ends in the empty place whose in-order position is that of the first node greater than the new one |
| `RbTree.Root.LinkNode` | minified/include/linux/rbtree.h:46-53 | the red leaf is the only thing that can be wrong in the tree afterwards, and its position is the one asked for |
| `RbTree.Root.InsertColor` | minified/lib/rbtree.c:26-118 | from a tree in which only the new red node may have a red parent: a red-black tree with the same nodes in the same order; it terminates |
| `RbTree.Root.Resolve` | minified/lib/rbtree.c:44-117 | one round recolours and moves the trouble two levels up, or rotates and leaves a sound tree |
| `RbTree.Root.InsertRight` | minified/lib/rbtree.c:58-80 | the one or two rotations on the left side make exactly the link changes of `FixedRight`, and no other field of any node changes |
| `RbTree.Root.InsertLeft` | minified/lib/rbtree.c:93-115 | the same for the right side |
| `RbTree.Root.Erase` | minified/lib/rbtree.c:260-266 | the tree stays red-black; its in-order sequence is the old one without the node |
| `RbTree.Root.Unlink` | minified/include/linux/rbtree_augmented.h:135-208 | the node is out and the others keep their order; either the tree is sound or exactly the empty place below the node returned is one black node short |
| `RbTree.Root.UnlinkTwo` | minified/include/linux/rbtree_augmented.h:162-204 | a node with two children: its in-order successor takes its place and colour, all links around both being right afterwards |
| `RbTree.Root.FindSuccessor` | minified/include/linux/rbtree_augmented.h:163-179 | the walk down the left spine of the right subtree ends at the in-order successor |
| `RbTree.Root.EraseColor` | minified/lib/rbtree.c:120-236 | from a tree with one empty place a black node short: a red-black tree with the same nodes in the same order; it terminates |
| `RbTree.Root.Round` | minified/lib/rbtree.c:126-234 | one round of the loop either ends with a sound tree or has moved the shortage one level up |
| `RbTree.Root.LeftBlack` | minified/lib/rbtree.c:141-180 | cases 2 to 4 with a black right sibling |
| `RbTree.Root.RightBlack` | minified/lib/rbtree.c:194-233 | cases 2 to 4 with a black left sibling |
| `RbTree.Root.ChangeChild` | minified/include/linux/rbtree_augmented.h:119-130 | exactly the one link that led to the old node leads to the new one |
| `RbTree.Root.RotateSetParents` | minified/lib/rbtree.c:16-24 | the new node takes over place and colour of the old one and becomes its parent; nothing else changes |
| `RbTree.Root.Next` | minified/lib/rbtree.c:276-296 | the in-order successor; nothing for the last node and for a node that is in no tree |
| `RbBalance.Balanced` | minified/lib/rbtree.c:26-236 | in every tree that the operations leave, of n nodes, no way from the root down has more than 2 log2(n + 1) nodes |
| `RbShape.OuterRight` | minified/lib/rbtree.c:74-80 | the last rotation of the insertion repairs the one red-red edge |
| `RbShape.Recolor` | minified/lib/rbtree.c:46-56 | recolouring moves the red-red edge up to the grandparent and nothing else |
| `RbErase.RaiseLeft` | minified/lib/rbtree.c:130-140 | case 1: a red sibling rotated up leaves a black sibling and the same shortage |
| `RbErase.PaintLeft` | minified/lib/rbtree.c:141-157 | case 2: a sibling painted red ends the shortage below a red parent and moves it up from a black one |
| `RbErase.LeanLeft` | minified/lib/rbtree.c:159-169 | case 3 leads to case 4 |
| `RbRenumber.TakeOutTwo` | minified/include/linux/rbtree_augmented.h:162-204 | putting the successor into the place of the node is, for shape and black heights, taking the successor out of its own place |
| `RadixShape.TagMeaning` | minified/lib/radix-tree.c:627-644 | in every sound tree the free tag of a slot is set exactly if some id below the slot is free |
| `RadixShape.RootTagMeaning` | minified/lib/radix-tree.c:841-911 | the root tag is set exactly if some id within the reach of the tree is free |
| `Idr.Root.LoadRoot` | minified/lib/radix-tree.c:265-280 | height and largest index in reach |
| `Idr.Root.Extend` | minified/lib/radix-tree.c:282-332 | levels are added until the index is in reach; the map of ids is the same and every tag right |
| `Idr.Root.GetFree` | minified/lib/radix-tree.c:841-911 | the least free index from `start` to `max`, with the path to its leaf complete; or none, and then all are taken |
| `Idr.Root.Pass` | minified/lib/radix-tree.c:864-900 | one pass from the root finds the index, or goes back to grow the tree, or proves that nothing is free |
| `Idr.Root.NodeTagClear` | minified/lib/radix-tree.c:627-644 | with one tag wrong before, every tag on the way to the root is right afterwards, clearing stopping where something else is free |
| `Idr.Root.NodeTagSet` | minified/lib/radix-tree.c:610-624 | the same for a slot that has become free |
| `Idr.Root.ShrinkTree` | minified/lib/radix-tree.c:334-373 | the tree is lower, its ids and the meaning of its tags the same |
| `Idr.Root.DeleteNode` | minified/lib/radix-tree.c:375-409 | empty nodes go, up to the first that is in use; the ids stay |
| `Idr.Root.WriteSlot` | minified/lib/radix-tree.c:585-601 | the slot holds the new item, the counts are right, and only the tag of this slot can be wrong |
| `Idr.Root.Lookup` | minified/lib/radix-tree.c:501-533 | ends at the leaf slot of the index, or at a slot above it with nothing below |
| `Idr.Root.Find` | minified/lib/radix-tree.c:545-548 | what the map of ids holds |
| `Idr.Root.TagGet` | minified/lib/radix-tree.c:653-679 | set exactly if the index is in reach and free |
| `Idr.Root.Delete` | minified/lib/radix-tree.c:802-822 | the id is gone from the map, its item is returned, the tree stays sound |
| `Idr.Root.AllocIndex` | minified/lib/idr.c:20-31 | takes the least free index of the range and no other, or nothing is free and nothing changes |
| `Idr.Table.AllocU32` | minified/lib/idr.c:9-32 | the first free index from that of `nextid` to that of `max` is taken and no other, or none is free and nothing changes; with `max` from the base on that is the lowest free id from `nextid` to `max`, below the base exactly if no index is free |
| `Idr.Table.GivenLowest` | minified/lib/idr.c:15-31 | what is taken is the lowest free id of the range, if `max` is not below the base; if it is, exactly if nothing is taken |
| `Idr.Table.BelowBase` | minified/lib/idr.c:15-31 | in an empty table with `max` below the base the base itself is taken, which is beyond `max` |
| `Idr.Table.Alloc` | minified/lib/idr.c:34-47 | the same with `end` for `max`, if `start` is not negative, which is refused; the lowest free id of the range, if its end is not below the base |
| `Idr.Table.AllocCyclic` | minified/lib/idr.c:49-67 | an attempt from the cursor on and, if no index is free there and the cursor is beyond `start` as an unsigned number, one from `start` on; the cursor moves behind the id |
| `Idr.Table.CyclicLowest` | minified/lib/idr.c:49-67 | the lowest free id from the cursor on, else from `start` on; with a negative `start` from the cursor on only |
| `Idr.Table.OneAttempt` | minified/lib/idr.c:54-61 | with a negative `start` there is no room exactly if all ids from the cursor on are used |
| `Idr.Table.ZeroFree` | minified/lib/idr.c:54-61 | with the cursor at 1 and only 1 in use of the ids up to 1 a negative `start` finds no room, though 0 is free |
| `Idr.Table.Find` | minified/lib/idr.c:74-77 | what was stored under the id |
| `Idr.Table.Remove` | minified/lib/idr.c:69-72 | the id is free again and what was stored is returned |
| `Idr.Table.Replace` | minified/lib/idr.c:79-94 | exchanges the pointer of an id in use; otherwise nothing changes |
| `Idr.Table.constructor` | minified/include/linux/idr.h:52-57 | an empty table that is sound |
| `Pid.Namespace.AllocPid` | minified/kernel/pid.c:104-219 | a pid is given exactly if `set_tid` is not too long, the namespace still admits pids and every level agrees: with an entry of `set_tid`, if the number is in range and free, the caller capable, and a reaper there or the number 1; without one, if a number is free. The pid is then found under one formerly free number in every namespace of the line, and each count is one higher; otherwise no namespace has changed and the error is that of the first level to refuse |
| `PidMeaning.AgreedMeans` | minified/kernel/pid.c:125-173 | all levels agree exactly if each level with an entry of `set_tid` finds it at least 1 and less than `pid_max`, unused, asked for by a capable caller, and 1 or with a reaper there, and each other level has an unused number |
| `PidMeaning.VerdictMeans` | minified/kernel/pid.c:125-173 | each error exactly in its case |
| `Pid.Namespace.Reserve` | minified/kernel/pid.c:125-173 | the numbers set aside, level by level, and at which level and why it stopped |
| `Pid.Namespace.RollBack` | minified/kernel/pid.c:204-209 | every number set aside is given back: all namespaces are as before |
| `Pid.Namespace.PublishAll` | minified/kernel/pid.c:187-196 | the pid stands under all its numbers, and each count is one higher |
| `Pid.Namespace.Take` | minified/kernel/pid.c:146-168 | the number asked for, refused exactly if it is in use; without one the next free number from the cursor on, else from the least on, refused exactly if there is none |
| `Pid.Namespace.Withdraw` | minified/kernel/pid.c:82-97 | one number less in the namespace; the last pid but one of a namespace that admits no more closes the count |
| `Pid.Namespace.FreePid` | minified/kernel/pid.c:74-102 | the pid is gone from every namespace of its line and nothing else has changed |
| `Pid.Namespace.FindPid` | minified/kernel/pid.c:221-224 | the pid published under the number |
| `Namei.NameiData.PathLookupAt` | minified/fs/namei.c:1402-1433 | the iterative walk with its stack of links answers what `Lookup` answers, for every file system, path, flag and number of links followed before, which `LookupMeans` says in terms of components; afterwards no link is held |
| `Namei.NameiData.LinkPathWalk` | minified/fs/namei.c:1220-1317 | ends in the parent that the recursive walk ends in, with the same last component and count of links, or with the same error; it terminates |
| `Namei.NameiData.LookupLast` | minified/fs/namei.c:1386-1392 | the last component answers what is still wanted, or leaves a link body to be resolved |
| `Namei.NameiData.LookupLoop` | minified/fs/namei.c:1413-1416 | following trailing links ends with what resolution gives |
| `Namei.NameiData.WalkComponent` | minified/fs/namei.c:1150-1172 | takes one component as `Walked` says and leaves the names on the stack alone |
| `Namei.NameiData.StepInto` | minified/fs/namei.c:1000-1031 | goes on to the node, or into its link body, or fails |
| `Namei.NameiData.PickLink` | minified/fs/namei.c:928-998 | records the link unless the limit is reached, and starts at the root for an absolute body |
| `Namei.NameiData.ReserveStack` | minified/fs/namei.c:900-924 | there is room for one more link after it |
| `Namei.NameiData.HandleDots` | minified/fs/namei.c:1110-1148 | `.` stays and `..` takes the step that `EntryOf` says: to the parent, or nowhere at the root of the process and at the top; `DownAndUp` and `UpAtRoot` say so of whole lookups, `ResolveMeans` in general |
| `Namei.NameiData.ReadComponent` | minified/fs/namei.c:1248-1284 | splits off the first component, classifies it, and skips the slashes behind it |
| `Namei.NameiData.TerminateWalk` | minified/fs/namei.c:393-412 | every link still held is let go |
| `Namei.ResolveAppend` | minified/fs/namei.c:1220-1317 | resolving `p/q` is resolving `p`, which must give a directory, and then `q` from there, the count of links going on |
| `Namei.LinksBefore` | minified/fs/namei.c:900-903 | links followed before matter only through the limit: without them the outcome is the same unless it was `ELOOP` |
| `Namei.ParentThenLast` | minified/fs/namei.c:1402-1433 | resolution is the walk to the parent followed by one last component |
| `Namei.TrailingSlash` | minified/fs/namei.c:1386-1392 | a slash behind the last component asks for a directory and follows a link |
| `Namei.WalkedFirst` | minified/fs/namei.c:1150-1172 | what `walk_component` does agrees with what the first component resolves to |
| `NameiMeaning.ResolveMeans` | minified/fs/namei.c:1220-1317 | `Resolve` gives an outcome exactly if the steps over the list of components end in it: a name leads to the entry, a dot nowhere, two dots to the parent unless at the root or the top, a link to its body, from the root if it begins with a slash and else from the directory of the link, 40 links at most |
| `NameiMeaning.LookupMeans` | minified/fs/namei.c:1402-1433 | an answer of `Lookup` is exactly what those steps say, the lookup starting at the root for a path that begins with a slash, and a directory being asked for by flag or by a slash at the end |
| `NameiMeaning.DownAndUp` | minified/fs/namei.c:1094-1134 | down into a subdirectory and `..` leads back, for every directory that is neither the root nor the top |
| `NameiMeaning.UpAtRoot` | minified/fs/namei.c:1110-1148 | `..` at the root of the process and at the top stays there |
| `NameiMeaning.LinkIsBody` | minified/fs/namei.c:928-998 | a link resolves as its body does, from the root or from the directory of the link, with one more link counted; at 40 it gives `ELOOP` |
| `NameiMeaning.ChainEnds` | minified/fs/namei.c:900-924 | a chain of links is followed to its end if it has 40 links at most, those followed before included, and gives `ELOOP` if it has more |
| `Dcache.OneDentryPerName` | minified/fs/dcache.c:1117-1210 | in every state of every run of any number of threads there is at most one dentry per parent and name in the in-lookup table and the primary hash together, and none in both; which dentries the lookups hand out is said by `HandedOut` and `SameDentry` |
| `Dcache.StepKeeps` | minified/fs/dcache.c:1087-1259 | every step of every thread keeps the invariant |
| `Dcache.CheckKeeps` | minified/fs/dcache.c:1155-1165 | an unchanged even sequence number means that no one stands between leaving the in-lookup table and entering the hash |
| `Dcache.LeaveStep` | minified/fs/dcache.c:1212-1224 | taking a dentry out of the in-lookup table, within `__d_add` or without, keeps the invariant |
| `Dcache.RehashStep` | minified/fs/dcache.c:1226-1250 | between the tables the name belongs to nobody else, so entering the hash keeps names unique |
| `Dcache.NobodyLooks` | minified/fs/dcache.c:1117-1210 | under the exclusive directory lock no lookup in the directory is under way |
| `DcacheReturns.HandedOut` | minified/fs/dcache.c:1117-1210 | in every run the dentry with which a lookup ends has the parent and name looked up and is in the primary hash, or it is the own dentry of a lookup that gave up |
| `DcacheReturns.SameDentry` | minified/fs/dcache.c:1117-1210 | in every run two lookups of one name that both end with a hashed dentry, by whatever way, get the same one, unless it was dropped in between |
| `DcacheReturns.FindsHashed` | minified/fs/dcache.c:1131-1149 | undisturbed, a lookup of a hashed name gets the dentry that is hashed and none is made |
| `DcacheReturns.MakesNew` | minified/fs/dcache.c:1117-1210 | undisturbed, a lookup of a name that is nowhere puts its own dentry into the in-lookup table |
| `DcacheReturns.AddsOwn` | minified/fs/dcache.c:1226-1250 | adding it moves it from that table to the hash and leaves the sequence number even again |
| `DcacheReturns.WaitsForOwner` | minified/fs/dcache.c:1167-1184 | undisturbed, a lookup of a name that another thread is looking up comes to wait for that dentry |
| `DcacheReturns.WaitsAndGets` | minified/fs/dcache.c:1183-1198 | it waits as long as the dentry is in the in-lookup table and gets that dentry once it is hashed |
| `TaskWork.StepKeeps` | minified/kernel/task_work.c:7-108 | every atomic step of every adder, canceller and of the runner keeps the invariant |
| `TaskWork.ExactlyOnce` | minified/kernel/task_work.c:7-108 | in every run every work is executed, cancelled or still waiting exactly as often as it was added, and no list holds a work twice; that what is cancelled is what the cancellers return is said by `NoneLost` and `ReturnsTaken` |
| `TaskWork.ClosedStep` | minified/kernel/task_work.c:15-20 | with the sentinel in place no step adds a work; the sentinel goes exactly when a canceller whose matcher accepted it succeeds |
| `TaskWork.ClosedForGood` | minified/kernel/task_work.c:77-108 | as long as no matcher accepts the sentinel it stays, nothing waits and nothing is added |
| `TaskWork.ClosedAfterExit` | minified/kernel/task_work.c:77-108 | the same from the start of a run: once the sentinel is in place all that was ever added has been executed or cancelled |
| `TaskWork.SentinelTaken` | minified/kernel/task_work.c:42-64 | a matcher that accepts the sentinel gets it as a cancelled work, and a work can be added again |
| `TaskWork.SentinelShown` | minified/kernel/task_work.c:42-64 | a run from the initial state in which a canceller is shown the sentinel |
| `TaskWork.Revived` | minified/kernel/task_work.c:42-64 | a run from the initial state in which the task exits, its list is closed, and a work is added after all |
| `TaskWork.RunAgain` | minified/kernel/task_work.c:84-96 | entered with the sentinel in place, `task_work_run` would take it off |
| `TaskWork.UnlinkWork` | minified/kernel/task_work.c:54-63 | the successful compare-and-exchange of a canceller keeps the invariant: the lists stay linked and disjoint, and the work is accounted for as cancelled once |
| `TaskWork.Detach` | minified/kernel/task_work.c:84-96 | the compare-and-exchange by which the runner takes the whole list keeps the invariant |
| `TaskWork.RunLocks` | minified/kernel/task_work.c:98-99 | taking and giving back the lock keeps the invariant; afterwards no canceller stands on the list that the runner took |
| `TaskReturns.NoneLost` | minified/kernel/task_work.c:7-108 | in every run from the start the calls that granted a work are as many as the calls of its function, the cancels that returned it, those about to return it, and its places in the lists |
| `TaskReturns.ReturnsTaken` | minified/kernel/task_work.c:42-64 | whatever the others do, a cancel returns the work that it took off the list, which its matcher accepted last; it returns nothing exactly if it took nothing off |
| `TaskReturns.CancelAlone` | minified/kernel/task_work.c:42-64 | undisturbed, it takes off and returns the first element that the matcher accepts, and NULL exactly if there is none; the others stay in order |
| `TaskReturns.AddAlone` | minified/kernel/task_work.c:7-40 | undisturbed, an add succeeds and puts the work at the head |
| `TaskReturns.AddRefused` | minified/kernel/task_work.c:7-40 | with the sentinel in place it fails and changes nothing |
| `TaskReturns.RunAlone` | minified/kernel/task_work.c:77-108 | undisturbed, the runner calls the works in the order of the list, each once, and leaves the list empty, or closed for an exiting task |
| `Sort.SortR` | minified/lib/sort.c:93-144 | the elements are permuted, whatever the comparison, and sorted if it is a total preorder, for every array in which the descent can tell leaves (`LeafTest`) |
| `Sort.ParentIs` | minified/lib/sort.c:86-91 | the branch-free computation gives the parent in the heap for every element size |
| `Sort.Sift` | minified/lib/sort.c:130-142 | one round sinks an element so that a heap from the next element on becomes a heap from it on, the sorted part staying sorted |
| `Sort.Descend` | minified/lib/sort.c:130-133 | the first inner loop goes down over greatest children to a leaf |
| `Sort.Climb` | minified/lib/sort.c:136-137 | the second goes back up to where the element belongs |
| `Sort.Shift` | minified/lib/sort.c:138-142 | the third moves the path up one place and the element into its end |
| `Sort.DoSwap` | minified/lib/sort.c:59-74 | whatever routine the alignment picks, two elements are exchanged and nothing else changes |
| `Sort.SwapWords32` | minified/lib/sort.c:17-24 | exchanges two stretches of bytes, four at a time |
| `Sort.SwapWords64` | minified/lib/sort.c:26-38 | exchanges two stretches of bytes, eight at a time |
| `Sort.SwapBytes` | minified/lib/sort.c:40-47 | exchanges two stretches of bytes, one at a time |
| `Sort.LeafTest` | minified/lib/sort.c:130-131 | wherever the descent looks for children its two tests are right, exactly if the offset of the second child at the last such element is less than 2^32 |
| `Sort.Overrun` | minified/lib/sort.c:130-133 | three elements of 2^30 bytes: from the first child the descent compares beyond the array, and from the second it comes back to itself |
| `HeapOrder.RotateHeap` | minified/lib/sort.c:130-142 | moving the path of greatest children up to the place where the element belongs makes a heap |
| `HeapOrder.TakeRoot` | minified/lib/sort.c:122-127 | exchanging the root with the last element of the heap extends the sorted part |
| `FdTable.Files.AllocFd` | minified/fs/file.c:395-445 | the lowest unused descriptor from `start` on, below `end`, with its close-on-exec flag as asked; failure only if all below `end` and the limit are in use, and then nothing changes |
| `FdTable.Files.FindNextFd` | minified/fs/file.c:381-393 | the first unused descriptor, found over the summary bitmap of full words |
| `FdTable.Files.ExpandFiles` | minified/fs/file.c:146-179 | the table is large enough afterwards with the same content, or the limit is in the way |
| `FdTable.Files.ExpandFdtable` | minified/fs/file.c:114-144 | a larger table with the same descriptors, files and flags |
| `FdTable.Files.SetOpenFd` | minified/fs/file.c:192-198 | the descriptor is in use, and the summary bits are right |
| `FdTable.Files.ClearOpenFd` | minified/fs/file.c:200-204 | the descriptor is unused, and the summary bits are right |
| `FdTable.Files.PutUnusedFd` | minified/fs/file.c:457-463 | the descriptor is free and everything below `next_fd` is still in use |
| `FdTable.Files.Install` | minified/fs/file.c:475-497 | the file stands under the descriptor |
| `FdTable.Files.PickFile` | minified/fs/file.c:500-514 | the file is returned and descriptor and file are gone from the table |
| `FdTable.Files.DoDup2` | minified/fs/file.c:696-725 | the file stands under the descriptor with its flag as asked, unless the descriptor is reserved without a file |
| `FdTable.Files.Dup3` | minified/fs/file.c:728-760 | each outcome exactly in its case, and the table after each |
| `FdTable.Files.DoCloseOnExec` | minified/fs/file.c:536-570 | exactly the flagged files are closed, and all flags are gone |
| `FdTable.Files.CountOpenFiles` | minified/fs/file.c:206-218 | no descriptor from the count on is in use |
| `FdTable.Files.DupFd` | minified/fs/file.c:230-313 | the copy has the same files under the same descriptors, with the same flags, and no reserved descriptor; it fails exactly if a descriptor in use is beyond the first table and beyond the largest that the limit admits |
| `FdTable.SizeEnough` | minified/fs/file.c:70-112 | a table for the first `count` descriptors holds them exactly if the largest table that the limit admits does |
| `FindBit.FindNext` | minified/lib/find_bit.c:12-50 | the least index from `start` on whose bit differs from `invert`, or the size |
| `CpioArchive.Streams` | minified/init/initramfs.c:410-431 | a well-formed archive, with NULs between its entries and behind the last, cut anywhere into any number of pieces, leaves the world that its entries leave one after the other, without an error, if the file system has room for them; `ArchiveMeans` says which objects these are |
| `CpioArchive.ArchiveRuns` | minified/init/initramfs.c:193-431 | a well-formed archive in one piece is eaten to its end and leaves the world that its entries leave one after the other (see `EntryMeans`) |
| `CpioArchive.HeaderRead` | minified/init/initramfs.c:141-164 | reading the header that encodes an entry, eight hexadecimal digits a field, gives back its twelve fields |
| `CpioMeaning.ArchiveMeans` | minified/init/initramfs.c:410-431 | a well-formed archive, cut into any pieces, makes exactly the objects that the format says its entries stand for: a directory for a directory, a node for a device, FIFO or socket, a file with its whole body, a symbolic link with its target, and a link to the first name for a further name of a file |
| `CpioMeaning.EntryMeans` | minified/init/initramfs.c:311-387 | one entry makes what the format says, by its type bits, number of links and the entries before it since the last trailer |
| `CpioMeaning.TableStep` | minified/init/initramfs.c:85-111 | the table of `find_link` holds for each file with several names the first name since the last trailer |
| `CpioTrouble.NoHeader` | minified/init/initramfs.c:229-260 | what is not a header is reported, the old format by its own message, and nothing is made of it |
| `CpioTrouble.NoEntry` | minified/init/initramfs.c:274-431 | bytes between entries that are neither NULs nor the start of a header, or stand where none may begin, are reported, and nothing is made of them |
| `CpioTrouble.WrongSum` | minified/init/initramfs.c:355-375 | a file whose bytes do not have the checksum of its header is written and reported |
| `CpioPieces.AnyPieces` | minified/init/initramfs.c:410-431 | input that gives no trouble in one piece leaves the unpacker in the same state however it is cut |
| `CpioPieces.Pieces` | minified/init/initramfs.c:410-431 | the same for input with errors, as long as no cut is behind an error or in the header of an entry that is passed over |
| `CpioPieces.Split` | minified/init/initramfs.c:400-408 | the same for one cut, from every state of the unpacker |
| `CpioPieces.HeaderCut` | minified/init/initramfs.c:229-260 | a cut in a header does no harm exactly if the entry is not passed over, whatever follows |
| `CpioPieces.ZeroHeaderCut` | minified/init/initramfs.c:229-260 | a header of zeros is passed over, so every cut in it shows |
| `CpioPieces.NameCut` | minified/init/initramfs.c:193-205 | where a name is read does not matter, for every content of memory, exactly if the name has a NUL |
| `CpioPieces.StrayName` | minified/init/initramfs.c:311-353 | a name "ab" without NUL before a body "cdef" is read as "abcdef" in place and as "ab" through a buffer of zeros |
| `Cpio.Unpacker.Unpack` | minified/init/initramfs.c:410-431 | the unpacker fed with the pieces of a well-formed archive has made the objects that the format says its entries stand for |
| `Cpio.Unpacker.FlushBuffer` | minified/init/initramfs.c:410-431 | the method ends in the state that the function `Flush` gives, and returns -1 after an earlier error and the length otherwise |
| `Cpio.Unpacker.WriteBuffer` | minified/init/initramfs.c:400-408 | ends for every input, in the state and with the bytes left that the recursive function gives |
| `Cpio.Unpacker.DoCollect` | minified/init/initramfs.c:215-227 | goes to the state that the function `CpioSpec.DoCollect` gives, of which the streaming lemmas speak: bytes are collected as far as the input goes |
| `Cpio.Unpacker.DoHeader` | minified/init/initramfs.c:229-260 | the next state for each kind of header, and the complaint about one that is none |
| `Cpio.Unpacker.DoName` | minified/init/initramfs.c:311-353 | goes to the state of the function `CpioSpec.DoName`: what is made for each kind of entry, and where the unpacker goes next; `EntryMeans` says what that is by type |
| `Cpio.Unpacker.MaybeLink` | minified/init/initramfs.c:296-306 | a further name of a file that was met before becomes a link to it, unless the link fails |
| `Cpio.Unpacker.DoCopy` | minified/init/initramfs.c:355-375 | the body goes to the file as far as the input and the room go, the checksum is that of all bytes written, and a short write and, at the end, a wrong checksum are reported |
| `Cpio.Unpacker.DoSymlink` | minified/init/initramfs.c:377-387 | the symbolic link has the name and the target that were collected |
| `Cpio.Unpacker.DoSkip` | minified/init/initramfs.c:262-272 | skips to the next header as far as the input goes |
| `Cpio.Unpacker.DoReset` | minified/init/initramfs.c:274-281 | skips NULs; input that is not aligned then is reported |
| `Cpio.Unpacker.XWrite` | minified/init/initramfs.c:21-50 | however the writes are split, bytes are written in order until a write fails; those and no others are summed and counted |
| `CpioPieces.AppendTwice` | minified/init/initramfs.c:21-50 | writing in two parts leaves what writing in one leaves, short writes and their report included |
| `ResourceTree.Tree.Insert` | minified/kernel/resource.c:241-288 | the tree keeps its shape: children inside their parents, apart from each other and in order; the new node is below the innermost node that holds it and above the children that it holds. It fails, nothing having changed, exactly if the range is empty, not within the root, or crossed by a node |
| `ResourceTree.Tree.Request` | minified/kernel/resource.c:73-99 | links a leaf into the gap, or returns the first child that is in the way, or the parent if the range does not fit it |
| `ResourceTree.Tree.RequestRegion` | minified/kernel/resource.c:316-384 | a busy region of n addresses from `start`, with the flags asked for, is put in below the innermost free node; it fails, nothing having changed, exactly if the range is empty, not within the root, or blocked, and then asks to wait exactly if it is to share what is in its way |
| `ResourceTree.Tree.ReleaseRegion` | minified/kernel/resource.c:386-424 | takes out the region of exactly this range, with what is below it, if there is one |
| `ResourceTree.Tree.FindRegion` | minified/kernel/resource.c:392-416 | the search ends at the region of exactly this range that can be reached through nodes that are not busy, or there is none |
| `ResourceTree.Tree.RequestAndRelease` | minified/kernel/resource.c:361-424 | a region is granted exactly if its range is not empty, within the root and not blocked; granted and released it leaves the tree as it was |
| `ResourceTree.Tree.RequestTwo` | minified/kernel/resource.c:316-384 | two adjacent regions of n and k addresses are both granted where n + k addresses are free |
| `ResourceTree.Tree.Wrap` | minified/kernel/resource.c:271-286 | the run of children is handed over to the new node, which takes its place |
| `ResourceShape.LinksDetermined` | minified/kernel/resource.c:241-288 | in a tree of that shape ranges and parents determine the child and sibling links |
| `Decimal.PutDec` | minified/lib/vsprintf.c:208-239 | writes the decimal digits of every 64-bit number, lowest first and without superfluous zeros |
| `Decimal.PutDecTrunc8` | minified/lib/vsprintf.c:105-143 | the same for numbers of up to eight digits, by multiplication instead of division |
| `Decimal.PutDecFull4` | minified/lib/vsprintf.c:186-197 | exactly four digits |
| `Decimal.PutDecHelper4` | minified/lib/vsprintf.c:200-206 | the lowest four digits, and the quotient |
| `Decimal.Groups` | minified/lib/vsprintf.c:216-231 | the sums of multiples of the 16-bit parts give the decimal groups of four digits |
| `Vsprintf.Vsnprintf` | minified/lib/vsprintf.c:1085-1228 | for every size, format and argument list: the buffer gets as much of `Output` as fits and a NUL, nothing beyond is touched, and the length of the whole output comes back as an `int`; `FormatMeans` says what the output is |
| `Vsprintf.Sink.Number` | minified/lib/vsprintf.c:290-407 | sign, prefix, precision, width and filling as the specification says, in the buffer as far as it reaches |
| `Vsprintf.Sink.WidenString` | minified/lib/vsprintf.c:442-460 | the text already written, widened on either side |
| `Vsprintf.Sink.MoveRight` | minified/lib/vsprintf.c:423-439 | shifts text within the buffer as far as it reaches |
| `Vsprintf.Sink.StringNocheck` | minified/lib/vsprintf.c:462-478 | the characters before the NUL, up to the precision, widened |
| `Vsprintf.Sink.Character` | minified/lib/vsprintf.c:1130-1151 | the character between the spaces that the loops over the 24-bit width leave, on either side |
| `Vsprintf.Sink.Step` | minified/lib/vsprintf.c:1104-1215 | one conversion appends its piece of the output; `ItemMeans` says what that is |
| `PrintSpec.AsInt` | minified/lib/vsprintf.c:1225-1226 | an `int` holds the length exactly if it is at most INT_MAX |
| `PrintMeaning.FormatMeans` | minified/lib/vsprintf.c:1085-1228 | a format of literal text and conversions, flags, widths and precisions written or by argument, with arguments to suit, prints what each conversion stands for, one after the other |
| `PrintMeaning.ItemMeans` | minified/lib/vsprintf.c:894-1065 | the same for one conversion and whatever follows it, its arguments and no others being used up |
| `PrintTexts.NumberMeans` | minified/lib/vsprintf.c:290-407 | the value reduced to the type of the conversion; sign, prefix, zeros up to the precision and digits; filled with zeros between prefix and digits or with spaces on the side that the flags ask for |
| `PrintTexts.StringMeans` | minified/lib/vsprintf.c:462-478 | the characters before the NUL, no more than the precision, with spaces before or, for the flag, behind |
| `PrintTexts.CharMeans` | minified/lib/vsprintf.c:1130-1151 | the character with spaces before or behind it |
| `PrintWidths.WrittenWidth` | minified/lib/vsprintf.c:952-956 | a width written in the format is kept exactly if it is less than 2^23 |
| `PrintWidths.WrittenPrecision` | minified/lib/vsprintf.c:963-971 | a precision written in the format is kept exactly if it is less than 2^15 |
| `PrintWidths.ArgumentWidth` | minified/lib/vsprintf.c:1067-1074 | an `int` argument n is used as a width of min(n, 2^23 - 1) in absolute value, negative ones to the left, exactly if it is not -2^23 |
| `PrintWidths.ArgumentPrecision` | minified/lib/vsprintf.c:1076-1083 | an `int` argument is used as a precision, brought between 0 and 2^15 - 1 |
| `PrintWidths.NumberLength` | minified/lib/vsprintf.c:290-407 | a number is as long as its width, or as long as it is without one |
| `PrintWidths.WidenedLength` | minified/lib/vsprintf.c:442-460 | the same for a string |
| `PrintWidths.CharLength` | minified/lib/vsprintf.c:1130-1151 | the same for a character exactly if the field does not hold -2^23, nor -2^23 + 1 without the flag for the left |
| `PrintWidths.WrittenFilled` | minified/lib/vsprintf.c:1085-1228 | a conversion with a written width n prints exactly as much as n and its own text ask for if and only if n is less than 2^23, or the string is at least that long, or n is 2^23 for a character |
| `PrintWidths.ArgumentFilled` | minified/lib/vsprintf.c:1085-1228 | the same for a width argument, which is -2^23 in no other case than that of a string of that length |
| `PrintWidths.WrittenLost` | minified/lib/vsprintf.c:952-956 | with a width of 2^23 a zero prints as "0" and an empty string as nothing; with one more a character stands before 2^23 - 1 spaces |
| `PrintWidths.PrecisionLost` | minified/lib/vsprintf.c:963-971 | with a precision of 2^15 a zero prints as "0" |
| `PrintWidths.ArgumentLost` | minified/lib/vsprintf.c:1067-1074 | with a width argument of -2^23 a zero prints as "0" and a character before 2^23 - 1 spaces |
| `PrintWidths.TooLong` | minified/lib/vsprintf.c:1225-1226 | 257 numbers with the greatest width make 2155871999 characters, and what comes back is negative |
| `Kstrtox.ParseIntegerLimit` | minified/lib/kstrtox.c:29-62 | in any base, for any limit: the number of digits, the low 64 bits of their value, and the overflow flag, which in the bases up to 16 is set exactly if the value does not fit |
| `Kstrtox.FlagExact` | minified/lib/kstrtox.c:51-56 | in the bases up to 16 the test has fired exactly if the value does not fit 64 bits |
| `Kstrtox.WideBase` | minified/lib/kstrtox.c:51-56 | in base 17 a number of sixteen digits does not fit and the test does not fire |
| `Kstrtox.Exceeds` | minified/lib/kstrtox.c:52-55 | the test for overflow before the multiplication is exact |
| `Kstrtox.ParseUnsigned` | minified/lib/kstrtox.c:70-88 | gives what `Unsigned` gives, in the bases up to 16, which `UnsignedReads`, `OutOfRange` and `Invalid` say of the text |
| `Kstrtox.ParseKstrtoull` | minified/lib/kstrtox.c:91-96 | the same after an optional plus sign |
| `Kstrtox.ParseKstrtoll` | minified/lib/kstrtox.c:99-120 | the signed number, the least one included; out of range exactly when it does not fit |
| `KstrtoxMeaning.UnsignedReads` | minified/lib/kstrtox.c:70-88 | a text is accepted for v exactly if it is a prefix that fits the base, digits of value v, perhaps a newline, and the end, and v is less than 2^64 |
| `KstrtoxMeaning.OutOfRange` | minified/lib/kstrtox.c:70-88 | it is out of range exactly if it begins with a prefix and digits of 2^64 or more, whatever follows |
| `KstrtoxMeaning.Invalid` | minified/lib/kstrtox.c:70-88 | it is invalid exactly if it is neither |
| `KstrtoxMeaning.KstrtoullReads` | minified/lib/kstrtox.c:91-96 | a text is accepted for v exactly if it is that after an optional plus sign |
| `KstrtoxMeaning.KstrtollReads` | minified/lib/kstrtox.c:99-120 | a text is accepted for v exactly if it is that after an optional sign, v having the sign and lying between -2^63 and 2^63 - 1 |
| `RoundTrip.DecimalRoundTrip` | minified/lib/kstrtox.c:91-96 | what `%llu` prints of any 64-bit number parses back to it |
| `RoundTrip.OctalRoundTrip` | minified/lib/kstrtox.c:12-26 | what `%#llo` prints parses back, the base taken from the prefix |
| `RoundTrip.HexRoundTrip` | minified/lib/kstrtox.c:12-26 | what `%#llx` and `%#llX` print parses back, the base taken from the prefix |
| `RoundTrip.SignedRoundTrip` | minified/lib/kstrtox.c:99-120 | what `%lld` prints of any signed 64-bit number parses back to it |
| `RoundTrip.Formats` | minified/lib/vsprintf.c:894-1065 | the format strings of the round trips decode to those conversions |
| `TypedRoundTrip.SignedTrip` | minified/lib/vsprintf.c:1175-1213 | what `%d` and `%i` print of any argument, with every size from hh to ll, z and t, parses back to the argument reduced to that type |
| `TypedRoundTrip.UnsignedTrip` | minified/lib/vsprintf.c:1175-1213 | the same for `%u` |
| `TypedRoundTrip.OctalTrip` | minified/lib/vsprintf.c:1175-1213 | the same for `%#o`, the base taken from the prefix |
| `TypedRoundTrip.HexTrip` | minified/lib/vsprintf.c:1175-1213 | the same for `%#x` and `%#X` |
| `TypedRoundTrip.TypedKeeps` | minified/lib/vsprintf.c:1175-1213 | an argument in the range of the type is not changed, except that `%tu` takes a signed one |

## Findings

Where the code does not have a property that one would expect of it, the project keeps the code as it is, names an
input, and says exactly when the property holds.

- `task_work_cancel_match` shows the sentinel of an exiting task to the matcher like any work. A matcher that accepts
  it takes it off the list and gets it as a cancelled work; works can then be added to the dead task
  (`TaskWork.SentinelTaken`; `task_work_cancel` with a null function has such a matcher). `TaskWork.Revived` is such a
  run from the initial state. The sentinel is removed exactly by such a canceller (`TaskWork.ClosedStep`), and the
  list stays closed as long as no matcher accepts it (`TaskWork.ClosedAfterExit`).
- `task_work_run` entered once more after it has put the sentinel in place takes the sentinel off as if it were a work
  (`TaskWork.RunAgain`). The steps of the model leave this entry out.
- A cut in the header of a cpio entry that is passed over loses the state after the skipped bytes: the header is met
  again. It does no harm exactly if the entry is not passed over (`CpioPieces.HeaderCut`); the header of all zeros is
  passed over (`CpioPieces.ZeroHeaderCut`).
- A cpio name without a NUL is read on into the bytes behind it, which are those of the input when the name lies in
  the chunk and old contents of a buffer when it was collected (`CpioPieces.StrayName`). Where it is cut makes no
  difference exactly if it has a NUL (`CpioPieces.NameCut`).
- `idr_alloc_u32` with a `max` below the base of the table computes a bound that wraps around. In an empty table it
  then allocates the base, beyond `max` (`Idr.Table.BelowBase`). It does what it should exactly if no index up to the
  wrapped bound is free (`Idr.Table.GivenLowest`).
- `idr_alloc_cyclic` with a negative `start` compares it as unsigned on its second attempt, so there is none: with the
  cursor at 1 and only 1 in use of the ids up to 1 it finds no room (`Idr.Table.ZeroFree`). It finds room exactly if
  an id from the cursor on is free (`Idr.Table.OneAttempt`).
- The width of a conversion is kept in 24 bits and its precision in 16, both signed. What is written in the format is
  cut to that without a warning, so it is kept exactly below 2^23 and 2^15 (`PrintWidths.WrittenWidth`,
  `WrittenPrecision`). An argument is clamped, and used rightly exactly if it is not -2^23, which stays negative when
  it is negated (`PrintWidths.ArgumentWidth`). `%c` counts down in the field itself, which wraps around from its least
  value, so a character is then filled up too far or on the wrong side (`PrintWidths.CharLength`).
  `PrintWidths.WrittenFilled` and `ArgumentFilled` say exactly when the output of a conversion is as long as the width
  asks for; `WrittenLost`, `PrecisionLost` and `ArgumentLost` are inputs at which it is not, such as `%8388608d`,
  `%8388608s`, `%8388609c`, `%.32768d`, and `%*d` and `%*c` with -8388608.
- `vsnprintf` returns the length of the output as an `int`, which is the length exactly if that is at most INT_MAX
  (`PrintSpec.AsInt`). 257 times `%8388607d` is longer (`PrintWidths.TooLong`).
- `sort_r` tells leaves by a sum that wraps around. With three elements of 2^30 bytes each the descent compares beyond
  the array or stays where it is for ever (`Sort.Overrun`). Its tests are right exactly if the offset of the last
  second child that it computes is less than 2^32 (`Sort.LeafTest`), which is what `Sort.SortR` requires.

## Left out

- Everything else in the tree: drivers, memory management, scheduling, file systems and the rest, which are not part
  of this model.
- Locks, RCU, reference counts, preloading and failing allocations, except where a protocol is the subject (Dcache,
  TaskWork) or the source gives back what it took (Pid).
- RbTree: augmented callbacks, cached leftmost nodes, `rb_replace_node` and the iteration macros other than `rb_next`.
- RbTree.Root.Add: requires that the nodes the new one is less than follow all others, which every sorted tree and
  strict weak order satisfy (`AddAscending`).
- Idr: roots that are not those of an IDR, entries in the head of the tree, tags other than the free tag,
  `ida_alloc_range` and the iterators.
- Pid: tasks attached to a pid, pidfds, the waking of the reaper, the credentials behind the capability test, which is
  a parameter, and `pid_max` above PID_MAX_LIMIT.
- Namei: RCU mode and its retries, mounts other than one, permission checks, automounts, revalidation, magic links,
  the flags LOOKUP_DOWN, LOOKUP_MOUNTPOINT and those that scope a lookup, names longer than a component may be, and
  opening, creating or renaming. A file system is a value that does not change during a lookup.
- Dcache: renames and the wait queue of a lookup in progress beyond the waiting itself. The directory sequence number
  is an unbounded number, so a wrap-around of the 32-bit `i_dir_seq` between the reading and the check is not
  modelled. A dentry is not dropped while `__d_add` holds its lock.
- TaskWork: the ways of notifying the task. A work is added by its owner only, as the interface demands; adding a work
  that is still in a list is not modelled.
- Sort: swap functions of the caller, the wrapper of `sort`, and `cond_resched`.
- Sort.SortR: requires an array whose size is less than 2^32 bytes and in which the descent can tell leaves;
  `LeafTest` and `Overrun` say why.
- FdTable: `close_range`, descriptor passing, the concurrent readers of the table, and copies that a bound on the
  descriptors truncates.
- Cpio: decompression, `unpack_to_rootfs`, the initrd fallback, times of directories, and writes that are interrupted
  and tried again. Whether an open or a link succeeds and how much of a file can be written are parameters; the hash
  table of `find_link` is a map.
- CpioMeaning.ArchiveMeans: speaks of archives whose entries are well-formed: names with their NUL and of at most 4096
  bytes, bodies for regular files and symbolic links only, right checksums. What is done with others is said by
  `CpioTrouble`, `HeaderCut` and `NameCut` in part.
- ResourceTree: allocation failure, walking and printing the tree, `release_resource`.
- ResourceTree.Tree.RequestRegion: a muxed request that has to wait comes back saying so; what it does when it is
  woken up is a request of its own.
- ResourceTree.Tree.Insert: requires a node that is not in the tree; the warning about one that is cannot be reached
  then.
- Vsprintf: what `%p` prints is a parameter, and so are the arguments, a sequence in place of `va_list`. A buffer that
  reaches the end of the address space is left out, and so is an output so long that the address of the buffer plus
  its length passes 2^32, as 129 times `%8388607d` does with a buffer at 0xc0000000.
- PrintMeaning.FormatMeans: speaks of literal text, `%%` and the conversions d, i, u, o, x, X, c and s with widths and
  precisions that their fields hold; for others see `PrintWidths`. `%p` and conversions that `vsnprintf` does not know
  are left out.
- Kstrtox: the variants for narrower types and `kstrtobool`. Digits end at `f`, so bases above 16 are of no use; there
  the overflow flag is what `Flagged` says, which can miss an overflow (`WideBase`).
- Kstrtox.ParseIntegerLimit: says nothing of the count and the flag if there are more than INT_MAX digits, where the
  count runs into the flag.
