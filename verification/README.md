# The dispatch core of libobjc2

libobjc2 is an Objective-C runtime. A message is dispatched through a table that maps selector indices to
methods. Each class has a table of its own, built over a 256-way trie whose nodes are shared copy-on-write
between classes. The runtime keeps these tables in step with the method lists of the classes while methods are
added, classes are loaded, made at run time and initialized by several threads, hierarchies are relinked and tables grow.

The project models that machinery and proves what it is for:

- **Dispatch is inheritance.** For every class with a table and every selector, the table answers exactly what
  a walk over the class's own method lists, front to back, and then up the superclass chain answers. For each
  operation in `Operations` it is proved that it keeps this, or exactly when it does.
- **Copy-on-write.** Writing one table changes no answer of any other, reference counts are exact, and
  destroying a table frees exactly the nodes that no other table reaches.
- **`+initialize`.** Over all interleavings of threads, each class is sent `+initialize` at most once, by the time its
  tables are installed exactly if its metaclass answers it, and not before its superclass's tables are installed unless
  the same thread is inside the superclass's `+initialize`; the `abort` and the assertion on the way are never reached.
  A thread is held up by nothing but a lock, and a call that is left alone can return with its class initialized. Which
  classes a call sends it to is told from the method lists before the call.
- **Links.** The link fields of a class are a doubly linked list until it is resolved and a subclass forest
  afterwards, and the metaclass square closes, for classes that are loaded and for pairs made at run time.
- **Hopscotch tables**, instance variable layout, block trampolines and deferred categories.

Pointers are modelled as numbers into explicit stores, so that sharing, aliasing and freeing are visible: the
trie nodes are a map from addresses to cells, allocation takes a fresh address, `free` removes one. Fields that
the source updates in place are fields of Dafny classes. `abort`, failed assertions and unreachable code are
obligations that the proofs discharge.

## Where the promise fails

Several things that one would expect of the code are false. For each there is the exact condition under which the
code is right, or a concrete input for which it is not, or both.

- `installMethodInDtable` treats a method with the implementation of the one it replaces as already installed
  (dtable.c:306). An override that repeats the inherited implementation therefore never enters the table, and a
  method added later to a class in between takes its place: `Building.OverrideLost`. Agreement is kept exactly
  when no such repetition arises: `Installing.AddExact`, `Building.CreateExact`, and the contracts of
  `Operations.AddMethod`, `Operations.AddCategory`, `Operations.SendInitialize` and `Operations.SetSuperclass`.
- A category that adds a selector which the class itself already provides is not effective once the class has a
  table (dtable.c:295), and of two methods for one selector in a list the table takes the last and the walk the
  first. Both are part of the condition in `Installing.AddExact`.
- `SparseArrayNext` does not visit index 0, stops at index 0xFF00 at depth 16 and never ends at depth 8 when index
  255 is used. At depth 24 and 32 it reports entries under wrong indices as soon as it leaves an allocated child:
  `DeepEnumeration.EnumerationExact` has the exact condition for all depths, `Enumeration.NeverEnds` and
  `Enumeration.DepthTwentyFourSkips` have inputs. Its comment (sarray2.h:131-137) describes another function; the
  model follows the code.
- Method lists are installed by such an enumeration, so a method whose selector is not visited is in the lists and
  never in a table: `Installing.Unreached`, and part of the condition in `Installing.AddExact`.
- `class_setSuperclass` does not update `isa` of the metaclasses below the class it moves. The metaclass square
  survives exactly when the root stays the same or no resolved class is below: `Moving.MovedMetaRoots`,
  `Moving.SquareLost`. On a metaclass it survives exactly when nothing moves:
  `ClassTables.ClassTable.SetMetaSuperclass`.
- `objc_resolve_class` on a class that is not on the unresolved list does not leave a list of the classes that still
  wait, unless none does: `ClassTables.UnlinkExact`.
- Indices into a hopscotch table are computed in 32 bits. The cells after a base cell are its neighbours for every
  hash exactly when the size divides 2^32: `Hopscotch.WrapExact`. Every table in the runtime has such a size.
- Rebalancing a hopscotch table can make `_insert` lose a bucket: if it empties the base cell of the value that is to be
  inserted, the value goes there and the hops of the cell are cleared (hash_table.h:283), so that no other value of
  that base is found any more. `Rebalancing.BucketLost` has a table of 64 cells for which this happens;
  `Rebalancing.InsertExact` has the exact condition. For all but the last 63 hashes it takes two values with the same
  32-bit hash, so with different such hashes every value stays to be found, even if the table grows:
  `HashTables.Table.Insert`.
- Growing the dispatch tables passes by classes that are not in the class table, such as a pair that is allocated and
  not registered yet. Their `dtable` is then a node of the table that all classes without one share, and passes for
  a table of their own (dtable.h:44-47). The invariant holds afterwards exactly when all classes are in the class
  table: `Resizing.Resize`, `Operations.ResizeTables`, `Operations.RegisterSelector`, and `Operations.PairForgotten`
  for the pair.
- `_remove` returns with the lock held when the key is missing (hash_table.h:393): `HashTables.Table.Remove`.
- Releasing a block trampoline that is already free leaves no well-formed free list: `Trampolines.ReleaseExact`.
- A bitfield in the storage of another variable is placed from the position before padding, so it keeps its place in
  the storage exactly when that needs none: `Ivars.SharedExact`, `Ivars.SharedLost`.

## Model

| member | source | states |
|---|---|---|
| Trie.UnrolledIsWalk | GNUstep/libobjc2/sarray2.h:70-106 | The lookup that is unrolled by depth returns what the level-by-level loop returns, for every trie and every 32-bit index. |
| SparseArrays.Arena.New | GNUstep/libobjc2/sarray2.c:47-54 | A new, empty table of the given depth; no other table changes. |
| SparseArrays.Arena.Insert | GNUstep/libobjc2/sarray2.c:143-182 | The table holds the value at the index and its old answers elsewhere; no other table changes, however many nodes they share; all reference counts stay exact; what is allocated grows by the way to the index and by nothing else. |
| SparseArrays.Arena.InsertNode | GNUstep/libobjc2/sarray2.c:143-182 | The same below any node that one pointer reaches, with the set of nodes written; nothing outside that set is written. |
| SparseArrays.Arena.OwnKid | GNUstep/libobjc2/sarray2.c:147-175 | The child on the path exists, the parent's slot is the only pointer to it, and every lookup through the parent answers as before. |
| SparseArrays.Arena.Adopt | GNUstep/libobjc2/sarray2.c:169-175 | A slot takes over a copy and gives back the reference to the shared node it replaces. |
| SparseArrays.Arena.Copy | GNUstep/libobjc2/sarray2.c:184-207 | A second table with the same entries, and no other table changes; what both reach is counted once more, so every reference count is exact again. |
| SparseArrays.Arena.CopyNode | GNUstep/libobjc2/sarray2.c:184-207 | The copy differs from the original in its reference count alone; no other node changes but in its count, and only nodes below the original do. |
| SparseArrays.Arena.Release | GNUstep/libobjc2/sarray2.c:209-229 | One reference is given back. When others remain only the count changes; when it was the last, what is left is a part of the old heap with every count exact. |
| SparseArrays.Arena.Destroy | GNUstep/libobjc2/sarray2.c:209-229 | The table is gone, all others are unchanged, and a node is freed exactly when no remaining table reaches it. |
| SparseArrays.Arena.Expand | GNUstep/libobjc2/sarray2.c:60-82 | Given its own shift as the new depth the table stays; given any other it is replaced by one that is a level deeper and has the same entries. No other table changes, and the assertion on the reference count holds. |
| SparseArrays.Arena.Read | GNUstep/libobjc2/sarray2.h:70-106 | The unrolled lookup on the nodes answers the entry of the abstract table. |
| SparseArrays.Arena.Next | GNUstep/libobjc2/sarray2.c:137-141 | The least used index after the given one among those that the scan reports, and its value, or none when there is none, at all four depths. Above depth 16 only one table of depth 16 is allocated. |
| SparseArrays.Arena.FindFrom | GNUstep/libobjc2/sarray2.c:84-135 | The recursive loop on the nodes computes `Find`, at every depth; the lemmas of `Enumeration` say what `Find` finds. |
| Sharing.OutsideSame | GNUstep/libobjc2/sarray2.c:169-176 | A trie that does not contain the nodes written answers every index as before. |
| Sharing.StoreUp | GNUstep/libobjc2/sarray2.c:147-181 | Storing below a child stores below its parent: this index, and no other, changes. |
| Garbage.NoLeak | GNUstep/libobjc2/sarray2.c:209-229 | Every allocated node is reached from some handle. |
| Garbage.FreedExactly | GNUstep/libobjc2/sarray2.c:209-229 | When nodes have been freed and all counts are exact, the nodes left are exactly those that the remaining handles reach. |
| Enumeration.NextFirst | GNUstep/libobjc2/sarray2.c:84-141 | One call returns the first entry after the index, within the range that the code scans. |
| DeepEnumeration.EnumerationExact | GNUstep/libobjc2/sarray2.c:84-141 | At every depth, repeated calls from 0 visit every entry once in increasing order and stop, if and only if: at depth 8 all entries lie from 1 to 254; at depth 16 from 1 to 0xFEFF; at depth 24 all lie below the first child that is allocated, there with the last two bytes from 1 to 0xFEFF, and this is not child 255; at depth 32 all lie below child 0, which is such a table. |
| DeepEnumeration.ScanBlocks | GNUstep/libobjc2/sarray2.c:97-132 | At depth 24, when the index lags behind the child that is scanned, what is reported lags behind the child where the entry is, and stays among the indices of the table. |
| DeepEnumeration.FindHit | GNUstep/libobjc2/sarray2.c:84-135 | At every depth, what the scan finds is in the table, though perhaps at another index. |
| Enumeration.NeverEnds | GNUstep/libobjc2/sarray2.c:84-141 | At depth 8 with an entry at 255, no run of calls comes to an end, wherever it starts. |
| Enumeration.DepthTwentyFourSkips | GNUstep/libobjc2/sarray2.c:104-119 | A table of depth 24 with a single entry, at 0x10000: lookup finds it and enumeration from 0 finds nothing. |
| ClassTables.ClassTable.Insert | GNUstep/libobjc2/class_table.c:110-126 | An unresolved class goes to the front of the list of unresolved classes and a resolved one does not; no subclass list changes. |
| ClassTables.ClassTable.Load | GNUstep/libobjc2/class_table.c:409-467 | An unresolved class that is not in the table yet joins the list at the front, and the metaclass of a root gets the root as its superclass at once; nothing else changes but links of unresolved classes; forest and square hold; if everything unresolved above listed classes was listed, it still is. |
| ClassTables.ClassTable.Admit | GNUstep/libobjc2/runtime.c:751-780 | A class and a metaclass at unused addresses, linked upwards before they are resolved, whatever links the metaclass has till then; every other structure stays and all invariants hold. |
| ClassTables.ClassTable.RegisterPair | GNUstep/libobjc2/runtime.c:845-847 | The pair is resolved, no resolved class changes its place, exactly the classes that are now resolved have left the list, all of them on the way up, and all invariants hold. |
| ClassTables.ClassTable.Resolve | GNUstep/libobjc2/class_table.c:150-281 | The class is resolved, with everything above it; exactly the classes that are now resolved have left the list, all of them on the way up; forest and metaclass square hold. |
| ClassTables.ClassTable.ResolveSelf | GNUstep/libobjc2/class_table.c:190-258 | With its superclass resolved, one class is resolved together with its metaclass and leaves the list; forest and metaclass square hold. |
| ClassTables.ClassTable.Unlink | GNUstep/libobjc2/class_table.c:190-206 | The doubly linked list without the class, in order, whichever place it had. |
| ClassTables.ClassTable.MetaLinks | GNUstep/libobjc2/class_table.c:208-243 | The two links that close the square: the superclass of the metaclass, and the root's metaclass as its isa, found by walking up. |
| ClassTables.ClassTable.Attach | GNUstep/libobjc2/class_table.c:245-254 | The class becomes the first subclass of its superclass; it and its metaclass, and no others, become resolved; forest and square hold. |
| ClassTables.ClassTable.ResolvePass | GNUstep/libobjc2/class_table.c:289-311 | One pass: the assertion holds, and something is resolved unless the list is empty. |
| ClassTables.ClassTable.ResolveLinks | GNUstep/libobjc2/class_table.c:283-313 | The passes end with an empty list, every class that waited is resolved, and the square is kept. |
| ClassTables.ClassTable.SafeRemove | GNUstep/libobjc2/runtime.c:682-703 | The class leaves its superclass's list; the others stay on it in order, and no other list changes. |
| ClassTables.ClassTable.SetSuperclass | GNUstep/libobjc2/runtime.c:513-558 | Class and metaclass hang below the new superclass; exactly the classes that this resolves leave the list, all on the way up from the new superclass; all shapes are kept; the square is kept if and only if the root stays the same or no resolved class lies below. |
| ClassTables.ClassTable.SetMetaSuperclass | GNUstep/libobjc2/runtime.c:513-540 | On a metaclass: it hangs below the new superclass with that one's isa and nothing else moves; all lists stay in order; the metaclass square survives if and only if nothing moves. |
| ClassTables.UnlinkExact | GNUstep/libobjc2/class_table.c:190-206 | What is left is a well-formed list of exactly the other classes, if and only if the class was on the list or the list is empty. |
| Moving.MetaDesc | GNUstep/libobjc2/class_table.c:208-243 | What a metaclass descends from is either a root class or the metaclass of a class that its own class descends from. |
| Moving.MovedMetaRoots | GNUstep/libobjc2/runtime.c:541-558 | The square after a move, if and only if the root is the same or nothing resolved is below. |
| Moving.SquareLost | GNUstep/libobjc2/runtime.c:541-558 | Two roots and a class with a subclass, for which the move breaks the square. |
| MethodLookup.WalkOwner | GNUstep/libobjc2/runtime.c:403-408 | What the walk finds has the selector and belongs to a class on the way up. |
| MethodLookup.InheritsExactly | GNUstep/libobjc2/runtime.c:403-408 | When no method has two owners, a class below another finds the same method exactly when no class from it up to the other provides one. |
| Installing.HitInherits | GNUstep/libobjc2/dtable.c:333-347 | With tables that agree, the recursion over subclasses reaches exactly the classes that inherit the entry. |
| Installing.AddExact | GNUstep/libobjc2/dtable.c:284-377 | After a list is installed in a class, all tables agree with the lists if and only if the class itself provided none of the selectors, the first and last methods for each in the list are one, none repeats the inherited implementation, and the enumeration of the list's table comes to all of them. |
| Installing.ListMeans | GNUstep/libobjc2/dtable.c:284-377 | What installing a list does to tables that agree, whether or not they do afterwards: the last method for a selector enters the tables of the class and of exactly those that inherit the selector from it, if the enumeration comes to it, the class provided none and it does not have the inherited implementation; every other entry stays. |
| Installing.Unreached | GNUstep/libobjc2/dtable.c:356-377 | A method to which the enumeration does not come changes no table at its selector, though the lists now answer it. |
| Building.OverlayAt | GNUstep/libobjc2/dtable.c:526-543 | A new table holds the class's first method for a selector if and only if that does not repeat the inherited implementation; for other selectors it holds the inherited entry, and it never holds anything but own and inherited methods. |
| Building.CreateExact | GNUstep/libobjc2/dtable.c:490-546 | A new table agrees with the walk if and only if no method of the class repeats the implementation it overrides. |
| Building.OverrideLost | GNUstep/libobjc2/dtable.c:305-309 | Three classes for which a later addition makes the lowest dispatch to a method that its own list overrides. |
| Building.RebasedAgrees | GNUstep/libobjc2/dtable.c:397-457 | Once every table below a class is rebased on its superclass's, each agrees with the walk over the new hierarchy. |
| Spreading.SpreadDone | GNUstep/libobjc2/dtable.c:333-347 | When the loop over subclasses has ended, the method is in exactly the tables that the recursion reaches, and all others are untouched. |
| Caching.InstallCached | GNUstep/libobjc2/dtable.c:348-352 | If the version is the same after an installation, every slot that was found before is still the answer; a slot not found may have become one. |
| Dispatch.Runtime.constructor | GNUstep/libobjc2/dtable.c:195-202 | A runtime in which no class has a table. |
| Dispatch.Runtime.DtableForClass | GNUstep/libobjc2/dtable.h:58-104 | The installed table, or the one on the look-aside list, or the uninstalled one exactly when the class has neither. |
| Dispatch.Runtime.Install | GNUstep/libobjc2/dtable.c:284-354 | Whether the method is installed is decided by the entry it meets. If it is, it enters exactly the tables that the recursion through equal entries reaches, and the version rises if it replaced an entry; if not, nothing changes. |
| Dispatch.Runtime.Create | GNUstep/libobjc2/dtable.c:490-546 | A new table with the class's methods over the inherited ones; other tables change at most below the class and at most in entries that equal the inherited ones; `abort` is not reached. |
| Dispatch.Runtime.CollectList | GNUstep/libobjc2/dtable.c:178-192 | A table of the methods in a list, the last one for each selector, with nothing allocated but the ways to them. |
| Dispatch.Runtime.InstallBatch | GNUstep/libobjc2/dtable.c:356-377 | All methods to which the enumeration of the batch comes are installed, although the batch itself is changed meanwhile; tables of no class are untouched. |
| Dispatch.Runtime.AddMethodList | GNUstep/libobjc2/dtable.c:472-488 | The part of the list to which the enumeration comes is installed against the superclass's table; afterwards there are exactly the tables there were before. |
| Dispatch.Runtime.RegisterMethods | GNUstep/libobjc2/category_loader.c:13-27 | The list is first in the class's lists. If the class has a table, the tables hold what `Installing.ListMeans` says, addable list or not, and otherwise none changes. All tables agree if and only if the class has no table, or the list is addable and the enumeration comes to all of it. |
| Dispatch.Runtime.OwnMethod | GNUstep/libobjc2/runtime.c:81-96 | The first method for the selector in the class's lists. |
| Dispatch.Runtime.AddMethod | GNUstep/libobjc2/runtime.c:154-191 | Refused exactly when the class itself has a method for the selector, and then nothing changes; otherwise the tables are those of `Dispatch.Runtime.RegisterMethods` for this method, and all agree if and only if the class has no table, or the inherited implementation is another and the enumeration comes to the selector. |
| Dispatch.Runtime.Dispatched | GNUstep/libobjc2/sendmsg2.c:357-396 | While tables agree, an installed table answers what the walk over the lists answers. |
| Settling.JoinedHeld | GNUstep/libobjc2/dtable.c:490-546 | Making a table disturbs nothing outside the classes that wait to be rebuilt, and no own method inside them. |
| Settling.JoinedAgrees | GNUstep/libobjc2/dtable.c:490-546 | It keeps agreement elsewhere if and only if the class repeats no implementation it overrides. |
| Settling.JoinedMade | GNUstep/libobjc2/dtable.c:490-546 | Making a table adds just that table, the class's methods over the superclass's entries, and leaves every other as it is, outside the classes that wait to be rebuilt. |
| Starting.MakeTables | GNUstep/libobjc2/dtable.c:732-733 | The tables of a class and its metaclass, each with its own methods over the entries above; a root metaclass starts from the class's table. |
| Starting.Register | GNUstep/libobjc2/dtable.c:749-779 | Both tables are installed if the class answers no `+initialize`, and otherwise put on the look-aside list; either way `dtable_for_class` finds them. |
| Starting.RemoveDtable | GNUstep/libobjc2/dtable.c:637-659 | Both tables are installed and leave the list, wherever the pair stands on it; the others stay in order and every class keeps the table it had. |
| Starting.Begin | GNUstep/libobjc2/dtable.c:711-779 | The class and its metaclass, and no others, get flags and tables, each with its own methods over the entries above; no other table changes but those that wait to be rebuilt. `+initialize` is to be sent exactly if the metaclass's new table has an entry for its selector; then both stand first on the look-aside list, and otherwise they are installed. Agreement is kept if and only if both are distinctive. |
| Starting.Finish | GNUstep/libobjc2/dtable.c:637-659 | When `+initialize` returns, from any place on the list, both tables are installed and no other class's is, the rest of the list keeps its order and the invariant holds. |
| Starting.SendInitialize | GNUstep/libobjc2/dtable.c:664-789 | The class gets a table and only classes on the way up from it or its metaclass do with it, superclasses first, each with its own methods over the entries above, and no other table changes but those that wait to be rebuilt. Exactly those are sent `+initialize`, in this order, whose metaclass's new table has an entry for it. Agreement is kept if and only if all of them are distinctive; the look-aside list is as before. |
| Rebasing.CollectOwn | GNUstep/libobjc2/dtable.c:400-415 | The first method of each selector in the class's lists. |
| Rebasing.FillFrom | GNUstep/libobjc2/dtable.c:418-430 | By enumerating the parent, each of its entries is copied exactly where the class provides no method. |
| Rebasing.Prune | GNUstep/libobjc2/dtable.c:431-442 | Exactly the entries that were not marked as own or the parent's are removed, while the table itself is enumerated. |
| Rebasing.RebaseTable | GNUstep/libobjc2/dtable.c:397-443 | Own entries stay, all others are the parent's; the scratch table is freed. |
| Relocating.RebaseRecursive | GNUstep/libobjc2/dtable.c:397-457 | Exactly the tables from the class down are rebased, each on its superclass's new one. |
| Rebuilding.UpdateForNewSuperclass | GNUstep/libobjc2/dtable.c:459-470 | Exactly the tables from the class down are rebased, and the version rises, so that no cached slot survives. |
| Rebuilding.HeldMoved | GNUstep/libobjc2/runtime.c:523-558 | After the links have moved, tables outside the moved subtrees agree over the new hierarchy and own methods inside them are in place. |
| Rebuilding.RebuildOnce | GNUstep/libobjc2/dtable.c:397-457 | Rebasing a subtree brings it back into agreement, if and only if the rest was. |
| Rebuilding.RebuiltShifted | GNUstep/libobjc2/dtable.c:397-457 | After both rebuilds, each table from the class or its metaclass down is its own methods over the superclass's new table, and every other is the same. |
| Rebuilding.SetSuperclass | GNUstep/libobjc2/runtime.c:513-570 | All tables agree over the new hierarchy, if and only if no class that gets a table on the way repeats an implementation it overrides. These are the new superclass and those above it, if the class had a table, and otherwise none. Tables from the class or its metaclass down are their own methods over the superclass's new table, and every other is as after initializing the new superclass; who is sent `+initialize` is given too. |
| Resizing.ExpandAside | GNUstep/libobjc2/dtable.c:569-572 | Every table on the look-aside list is replaced by one a level deeper with the same entries, and the list names the same classes in the same order. |
| Resizing.SwitchPair | GNUstep/libobjc2/dtable.c:579-592 | A class and its metaclass get the new uninstalled table, or their own tables one level deeper. |
| Resizing.Resize | GNUstep/libobjc2/dtable.c:551-594 | When the selectors outgrow the tables, every class in the class table has a table or none as before, and if it has one, that has the same entries one level deeper. What a class outside it has in its structure stays, so that a table of its own is too shallow, and the table of the classes without one is the first child of the new one and counts as its own. The invariant holds afterwards if and only if all classes are in the class table. Otherwise nothing changes. |
| Foreseeing.MetaWalkIs | GNUstep/libobjc2/class_table.c:208-240 | What a metaclass answers once it is resolved can be told before, from the classes above its class alone. |
| Foreseeing.WayIs | GNUstep/libobjc2/dtable.c:664-789 | That no class or metaclass that has got a table repeats an implementation it overrides is, in the same state, a condition on the way up from the class. |
| Foreseeing.SendsIs | GNUstep/libobjc2/dtable.c:732-779 | Whom a call sends `+initialize` to, which the code decides by the tables it makes on the way, is told before from the method lists: the classes on the way up without a table whose metaclass will answer it, superclasses first. |
| Foreseeing.MadeGood | GNUstep/libobjc2/dtable.c:490-546 | The tables made on the way up have an entry exactly where the walk finds a method, even where they repeat implementations. |
| Operations.NewRuntime | GNUstep/libobjc2/dtable.c:195-202 | A runtime over the given classes and method lists, with the depth and number of selectors given: no class has a table, none is initialized, none is on the look-aside list, and the invariant of all operations holds. |
| Operations.AddMethod | GNUstep/libobjc2/runtime.c:154-191 | The invariant is kept if and only if the class has no table, or the method does not repeat the inherited implementation and the enumeration comes to its selector; either way every entry of every table is given, as in `Installing.ListMeans`; cached slots are sound while the version stands. |
| Operations.AddCategory | GNUstep/libobjc2/category_loader.c:13-27 | The invariant is kept if and only if the class has no table, or the list is addable and the enumeration comes to all of it; either way every entry of every table is given, as in `Installing.ListMeans`. |
| Operations.ResolveClass | GNUstep/libobjc2/class_table.c:150-281 | The class is resolved, no resolved class changes its place, exactly the classes that are now resolved have left the list, all of them on the way up, the square is kept if it held, and so is the invariant. |
| Operations.ResolveLinks | GNUstep/libobjc2/class_table.c:283-313 | Every class that waited is resolved, none waits, no resolved class changes its place, the square is kept if it held, and so is the invariant. |
| Operations.SendInitialize | GNUstep/libobjc2/dtable.c:664-789 | Exactly the classes on the way up from the class and its metaclass get tables, each with its own methods over the entries above, and no other table changes; sent `+initialize` are, superclasses first, exactly those of these classes whose metaclass answers it in the hierarchy before the call. The invariant is kept if and only if, in that hierarchy, no class on the way up without a table, nor its metaclass, repeats an implementation it overrides. |
| Operations.BeginInitialize | GNUstep/libobjc2/dtable.c:711-779 | The class and its metaclass get tables, each with its own methods over the entries above, and no other changes. `+initialize` is to be called exactly if the walk from the metaclass finds it; then both stand first on the look-aside list, and otherwise both are installed. The invariant is kept, with the call running, if and only if neither repeats an implementation it overrides. |
| Operations.FinishInitialize | GNUstep/libobjc2/dtable.c:637-659 | From any state of the invariant in which the call is running, wherever it stands on the list: both tables are installed and no other class's is, the rest of the list keeps its order and the invariant holds. |
| Operations.GetSuperclass | GNUstep/libobjc2/class_table.c:533-541 | The superclass, with the class resolved as in `Operations.ResolveClass`; the invariant is kept. |
| Operations.GetInstanceMethod | GNUstep/libobjc2/runtime.c:383-409 | The dispatch table and the lists give one answer, that of the walk before the call, although classes on the way up are resolved, and no others; the invariant is kept. |
| Operations.SetSuperclass | GNUstep/libobjc2/runtime.c:513-570 | The invariant is kept over the new hierarchy if and only if nothing moves, the class has no table, or, in the hierarchy before the call, no class from the new superclass up without a table, nor its metaclass, repeats an implementation it overrides. Tables and the list of unresolved classes become what `Rebuilding.SetSuperclass` and `ClassTables.ClassTable.SetSuperclass` say; sent `+initialize` are exactly the classes that get tables and whose metaclass answers it in the hierarchy before the call. Running initializers stay where they are on the list. |
| Operations.ResizeTables | GNUstep/libobjc2/dtable.c:551-594 | The invariant is kept if and only if nothing grows or all classes are in the class table, and then every class answers as before; what becomes of each class, as `Resizing.Resize` has it; the look-aside list names the same classes in the same order. |
| Operations.RegisterSelector | GNUstep/libobjc2/selector_table.c:319-362 | A new selector gets the next index, and there is room for another one after it. The invariant is kept if and only if the tables did not have to grow or all classes are in the class table. |
| Operations.PairForgotten | GNUstep/libobjc2/runtime.c:736-789 | For every state of the invariant and every pair: if the tables grow after it is allocated and before it is registered, the invariant is lost, and the pair seems to have a table, which is the first child of the one that all classes without a table share. |
| Operations.LoadClass | GNUstep/libobjc2/class_table.c:409-467 | A class from a program image and its metaclass come in with their method lists and without tables; the class has the given superclass and its metaclass as isa, waits to be resolved in front of all others, and a root's metaclass has the root as its superclass at once. Superclass and isa of every other class, and all resolved classes, stay; the invariant is kept. |
| Operations.AllocatePair | GNUstep/libobjc2/runtime.c:736-789 | A pair with no methods and no tables, the class with its metaclass as isa, linked upwards and not resolved; every other class stays as it is; the invariant is kept. |
| Operations.RegisterPair | GNUstep/libobjc2/runtime.c:834-848 | The pair is resolved, no resolved class changes its place, exactly the classes that are now resolved have left the list, all of them on the way up, and the invariant is kept. |
| Protocol.StepKeeps | GNUstep/libobjc2/dtable.c:664-789 | Every step of every thread keeps the invariant of locks, flags, tables and look-aside list. |
| Protocol.NeverFails | GNUstep/libobjc2/dtable.c:664-789 | In no run does making a table abort for want of the superclass's table, nor the assertion of line 707 fail: wherever a thread is about to make tables those of the superclass are there, and wherever it is about to assert that its class has a table it has one. |
| Protocol.SentOnce | GNUstep/libobjc2/dtable.c:727-730 | In no run is a class sent `+initialize` twice. |
| Protocol.SentExact | GNUstep/libobjc2/dtable.c:749-779 | In every run, a class whose tables are installed has been sent `+initialize` exactly if its metaclass answers it; none that does not answer is ever sent it. |
| Protocol.SuperclassFirst | GNUstep/libobjc2/dtable.c:680-684 | When a class is sent `+initialize`, the superclass's tables are installed or the same thread is inside the superclass's `+initialize`. |
| Protocol.ReturnsSettled | GNUstep/libobjc2/dtable.c:696-709 | `objc_send_initialize` returns only when the class's tables are installed, or when the same thread is inside its `+initialize`. |
| Protocol.OneInitializer | GNUstep/libobjc2/dtable.c:711-730 | At most one activation, over all threads, initializes a class. |
| Protocol.TemporaryExact | GNUstep/libobjc2/dtable.c:637-659 | The look-aside list is exactly the metaclass and class pairs whose `+initialize` is being called, each once and none installed. |
| Protocol.SecondTestFails | GNUstep/libobjc2/dtable.c:713-719 | The second test of the flag never finds it set, and the metaclass is never skipped. |
| Protocol.UnlinkPair | GNUstep/libobjc2/dtable.c:643-657 | Removing a class from the look-aside list takes out its two entries and no others. |
| Completing.StepExact | GNUstep/libobjc2/dtable.c:664-789 | In every run, a thread can take a step if and only if it does not wait for a lock that is taken. |
| Completing.Completes | GNUstep/libobjc2/dtable.c:664-789 | In every run, whenever no other thread holds a lock, a call can return without another thread's doing, with its class's tables installed or the class's `+initialize` running further out, and all locks as they were. |
| Completing.Reenters | GNUstep/libobjc2/dtable.c:696-709 | The same for a call, of any class, that a running `+initialize` makes: it can return, and the class whose `+initialize` makes it is not initialized yet. |
| Completing.Unwinds | GNUstep/libobjc2/dtable.c:632-659 | In every run, an exception out of `+initialize` can end the call and every call that awaits it, up to an outer `+initialize` or out of the runtime, with the lock given back; the tables of the class are in place by then. |
| Hopscotch.WrapExact | GNUstep/libobjc2/hash_table.h:215-220 | Indices computed in 32 bits are neighbours of the base cell for every hash, if and only if the size divides 2^32. |
| Hopscotch.StoreLinked | GNUstep/libobjc2/hash_table.h:281-302 | A value that goes into its base cell or a cell nearby is one more value, none goes, and all hops still lead to values of their base, even in a table that is not well formed. |
| Hopscotch.StoreExact | GNUstep/libobjc2/hash_table.h:281-302 | In a table where every value is where its base cell says, storing a value makes the table well formed if and only if no other empty cell has hops and, when the value goes into its base cell, that has none either. |
| Hopscotch.PullMovesHole | GNUstep/libobjc2/hash_table.h:369-387 | Pulling a displaced value into a hole moves the hole and changes no contents. |
| Hopscotch.ForgetMakesHole | GNUstep/libobjc2/hash_table.h:395-409 | Clearing the hop to a value leaves a table with one hole at its cell, whose other contents are the old ones less that value. |
| Hopscotch.MapInsert | GNUstep/libobjc2/hash_table.h:274-302 | Seen as a map, adding a value under a new key adds its entry. |
| Hopscotch.MapRemove | GNUstep/libobjc2/hash_table.h:389-423 | Seen as a map, removal deletes the entry and no other. |
| Hopscotch.MapGet | GNUstep/libobjc2/hash_table.h:431-448 | Seen as a map, what is stored under a key is its entry, and nothing is where there is none. |
| HashTables.Table.GetCell | GNUstep/libobjc2/hash_table.h:335-366 | A cell with the key, if and only if there is one. |
| HashTables.Table.Get | GNUstep/libobjc2/hash_table.h:431-448 | The entry of the map that the cells represent, or nothing where it has none. |
| HashTables.Table.TryInsert | GNUstep/libobjc2/hash_table.h:280-302 | The value goes into the first empty cell of the base cell and the next 32, if and only if there is one; otherwise nothing changes. |
| HashTables.Table.MoveGap | GNUstep/libobjc2/hash_table.h:222-259 | The loop and the recursion, in 32-bit arithmetic, compute `Shift`; the lemmas of `Rebalancing` say what that does. |
| HashTables.Table.Rebalance | GNUstep/libobjc2/hash_table.h:260-272 | The same from the first empty cell out of reach. |
| HashTables.Table.MoveSecond | GNUstep/libobjc2/hash_table.h:369-387 | The shuffle ends, since hops run out, with a well-formed table and the same other values. |
| HashTables.Table.Remove | GNUstep/libobjc2/hash_table.h:389-423 | Exactly one value with the key goes if there is one, and otherwise nothing changes: the map loses its entry. The lock stays held exactly when there was none. |
| HashTables.Table.Resize | GNUstep/libobjc2/hash_table.h:167-205 | Exactly twice the size unless some value finds all cells within its reach full, and at least that, unless there is no memory; the same values, count and map, unless there is no memory for growing again on the way. The new table is well formed if all hashes are different and none is one of the last 63, and otherwise unless some value finds all cells within its reach full. |
| HashTables.Table.Insert | GNUstep/libobjc2/hash_table.h:275-333 | If the value is inserted, exactly it is added, whether or not the table was rebalanced or grew, and a new key gets its entry in the map. While at most 80% of the cells are full, or one within reach is empty, the new table is the one that `Rebalancing.InsertExact` is about, or a larger one if there is none; otherwise it doubles, or more if some value finds all cells within its reach full. A well-formed table stays so if all hashes are different and none is one of the last 63, and otherwise unless some value finds all cells within its reach full. Only lack of memory prevents insertion. |
| HashTables.Table.Next | GNUstep/libobjc2/hash_table.h:467-506 | The next value in cell order, or nothing exactly at the last; the position and the number of values passed stay in step. |
| HashTables.Table.Enumerate | GNUstep/libobjc2/hash_table.h:467-519 | An enumeration yields every stored value as often as it is stored. |
| Rebalancing.MovedGap | GNUstep/libobjc2/hash_table.h:228-256 | Both moves hand the gap on: one value goes into it and nothing else moves, hops stay right, values stay where their base cells say, and if no empty cell but the gap had hops then none but the new gap has. |
| Rebalancing.ShiftKeeps | GNUstep/libobjc2/hash_table.h:222-259 | The recursion, whether or not it succeeds, loses no value, keeps hops right and values where their base cells say, and leaves a gap. |
| Rebalancing.ShiftCloser | GNUstep/libobjc2/hash_table.h:222-259 | For all but the last 63 hashes: when it succeeds, the gap is closer, everything before it is full and no other empty cell has got hops; and it is the base cell only if that held a value with the very same 32-bit hash. |
| Rebalancing.ShiftLighter | GNUstep/libobjc2/hash_table.h:222-272 | When it succeeds, the empty cells weigh less, so that repeated attempts come to an end, even where the hashes wrap round. |
| Rebalancing.InsertExact | GNUstep/libobjc2/hash_table.h:275-321 | An insertion that does not grow the table adds exactly the value; the table is well formed afterwards if and only if rebalancing leaves it tidy, which for all but the last 63 hashes is so if and only if it does not empty the base cell of the value. It empties it only if the base cell holds a value with the same 32-bit hash and the cell 32 places on one with the hash 32 places on, and then no other key of that base is found any more. |
| Rebalancing.BucketLost | GNUstep/libobjc2/hash_table.h:222-302 | A table of 64 cells with 32 values of hash 0 and one of hash 32: when one more of hash 0 is inserted, all are stored, but none of hash 0 is found any more except perhaps the new one. |
| Rebalancing.ShiftStorable | GNUstep/libobjc2/hash_table.h:222-272 | If all hashes are different and not among the last 63, rebalancing keeps the table such that the value can be stored and the table is well formed. |
| Ivars.PlaceAll | GNUstep/libobjc2/ivar.c:65-109 | Storage is at the first aligned place after the storage before, in memory where 8 bytes of reference count come before the object, and the size is the end of the last; a `_Bool` recorded with size 0 has one byte; a variable in the storage of another is put where that would be without padding. |
| Ivars.PointerAndVector | GNUstep/libobjc2/ivar.c:85-109 | A pointer and a 16-byte vector after `isa`: the offsets are 8 and 24 and the size is 40. |
| Ivars.BoolsApart | GNUstep/libobjc2/ivar.c:70-84 | Two `_Bool` variables recorded with size 0 have a byte each. |
| Ivars.SharedExact | GNUstep/libobjc2/ivar.c:85-108 | A variable in the storage of another keeps its place in it if and only if that storage needs no padding, which is told from the declarations and the start alone. |
| Ivars.SharedLost | GNUstep/libobjc2/ivar.c:85-108 | Two bitfields in one word after a byte: the second is put at the byte after that byte and not into the word. |
| Ivars.Layouts.Compute | GNUstep/libobjc2/ivar.c:15-109 | On a class marked resolved whose superclasses are settled: it is laid out and nothing else changes; a class that was laid out, or came with its layout, stays as it is. |
| Ivars.Layouts.Resolve | GNUstep/libobjc2/class_table.c:150-262 | The class is resolved, superclasses first, and every resolved class that did not come with its layout is laid out; what was resolved and what is not above the class does not change. |
| Ivars.Layouts.GetSuperclass | GNUstep/libobjc2/class_table.c:533-541 | The superclass, with the class resolved as `Ivars.Layouts.Resolve` does it. |
| Ivars.ResolvedExact | GNUstep/libobjc2/class_table.c:256-262 | A resolved class and everything above it is laid out, if and only if the layouts that classes came with fit; so without such, always. |
| Ivars.Ordered | GNUstep/libobjc2/ivar.c:70-109 | Storage of one class is in order and disjoint. |
| Ivars.ChainDisjoint | GNUstep/libobjc2/ivar.c:15-109 | Storage of different classes of a chain is disjoint, the inherited first. |
| Trampolines.ReleaseExact | GNUstep/libobjc2/block_to_imp.c:287-291 | Releasing a slot keeps the free list acyclic and complementary to the slots in use, if and only if the slot was in use. |
| Trampolines.Pool.constructor | GNUstep/libobjc2/block_to_imp.c:163-182 | All 256 slots are on the free list. |
| Trampolines.Pool.Implement | GNUstep/libobjc2/block_to_imp.c:217-237 | A slot off the free list is taken if and only if there is one, and the address is 16 times its number; it holds the block and no other slot changes. |
| Trampolines.Pool.GetBlock | GNUstep/libobjc2/block_to_imp.c:256-271 | What the slot holds in which the address lies, so at the address that `Implement` returns the block; nothing for addresses beyond the page. |
| Trampolines.Pool.RemoveBlock | GNUstep/libobjc2/block_to_imp.c:273-293 | Refused exactly for addresses beyond the page of 4096 bytes; otherwise the slot becomes the first free one and no other slot changes. The pool stays in order if and only if the slot was in use. |
| Categories.SelectSplits | GNUstep/libobjc2/category_loader.c:78-99 | Every waiting category is attached or goes on waiting, once, and none that goes on waiting has its class loaded. |
| Categories.Loader.Set | GNUstep/libobjc2/buffer.h:14-37 | One slot is written, across 128 inline ones and overflow storage that starts with 128 and doubles until there is room, and no other changes. |
| Categories.Loader.Compact | GNUstep/libobjc2/buffer.h:48-62 | The categories that wait stay, in order, and no slot below the count is empty. |
| Categories.Loader.Offer | GNUstep/libobjc2/category_loader.c:70-76 | A category is attached, or waits behind all others. |
| Categories.Loader.LoadBuffered | GNUstep/libobjc2/category_loader.c:78-99 | The categories whose class is loaded are attached in order, the others wait in order. |

## Left out

- HashTables.Table.Insert: with equal hashes, and a value that finds no room within reach while the table grows, it is not stated whether the table is well formed. When there is no memory, nothing is stated of the values that are dropped while the table grows, nor of the endless attempts to grow it.
- HashTables.Table.Resize: the same. Allocation fails exactly above a size that is fixed in advance.
- Rebalancing.ShiftCloser: not for the last 63 of the 32-bit hashes, where the gap may wrap round; `Rebalancing.InsertExact` covers them with a condition on the rebalanced table.
- Rebalancing: an empty cell has no hash; the source applies the hash function to the placeholder.
- HashTables: hops are sets of distances, not bit masks.
- `_table_set` on a missing key (it writes through a null pointer after inserting) and concurrent readers of a table that is being resized.
- Starting.SendInitialize: who is sent `+initialize` is given, but the method itself does nothing here; `Operations.BeginInitialize` and `Operations.FinishInitialize` are the two halves, with any operations in between, and `Protocol` covers the calls of `objc_send_initialize` that other threads may make.
- Operations.SendInitialize: the same.
- Completing.Completes: for a thread that the others leave alone. Two classes whose initializers wait for each other can wait for ever, and `dtable_for_class` waiting on an object lock is not a step.
- Protocol: the hierarchy, and which metaclasses answer `+initialize`, are fixed during a run; locks that user code takes on metaclass objects, and callers that already hold the runtime lock, are not modelled.
- ClassTables.ClassTable.SetSuperclass: the class is resolved, not a metaclass and not a root, and the new superclass is not a metaclass and not below it; for metaclasses see `ClassTables.ClassTable.SetMetaSuperclass`.
- ClassTables.ClassTable.SetMetaSuperclass: the new superclass is resolved, and the tables of the metaclass are not rebuilt.
- ClassTables.ClassTable.Resolve: the class and the unresolved classes above it are on the list, as `objc_load_class` leaves them; `ClassTables.UnlinkExact` is the statement for classes off the list. Superclasses given by name in the old ABI, the only ones for which the source returns NO, are not modelled.
- ClassTables.ClassTable.Load: the class is not in the table yet; reloading one is not modelled.
- ClassTables.ClassTable.Admit: names, flags and sizes.
- Operations.LoadClass: the structure is new, and that of the superclass is known already; for structures that are all known beforehand see `ClassTables.ClassTable.Load`.
- Operations.RegisterPair: the unresolved classes above the pair are on the list.
- Operations.RegisterSelector: the names and types of selectors.
- Resizing.Resize: the class table is any list of classes. Tables of depth 32 do not grow further, and one thread only; a resize while another thread is between making and registering tables is not modelled.
- SparseArrays.Arena.Next: above depth 16 only one table of depth 16 is allocated; `DeepEnumeration.EnumerationExact` is the statement for all tables.
- Enumeration.NextFirst: depth 8 and 16.
- Dispatch.Runtime.AddMethodList: at depth 8 no selector is 255, where the source does not end; at depth 24 and 32 the selectors of the list are in one table of depth 16, and at depth 32 below the first child, since with several the indices it gets are wrong, so that it may clear entries of other methods from the batch or not end; some such lists it installs all the same.
- Dispatch.Runtime.InstallBatch: the same.
- Dispatch.Runtime.RegisterMethods: the same, and the methods are in no list yet.
- Dispatch.Runtime.AddMethod: the same.
- Operations.AddMethod: the same.
- Operations.AddCategory: the same.
- Rebasing.FillFrom: whole tables are enumerated, so depth is 8 or 16 and all selectors are in the range that is scanned.
- Rebasing.Prune: the same range.
- Rebasing.RebaseTable: the same range.
- Relocating.RebaseRecursive: the same range.
- Rebuilding.UpdateForNewSuperclass: the same range.
- Rebuilding.SetSuperclass: the same range, and the arguments of `ClassTables.ClassTable.SetSuperclass`.
- Operations.SetSuperclass: as `Rebuilding.SetSuperclass`.
- Operations.GetInstanceMethod: an unresolved metaclass, which the source would resolve as if it were a class.
- Trampolines.Pool.Implement: answers none on a full page, where the source reaches code marked unreachable.
- Trampolines: the pool for large return values, whose index the source computes and drops, and the machine code on the pages.
- Ivars.PlaceAll: the garbage-collected layout without a reference count.
- Ivars.Layouts.Compute: the same, ivar lists of another structure size, on which the source aborts, and variables added by `class_addIvar`.
- Categories.Loader: the protocols and properties of a category; `Operations.AddCategory` is the effect of its methods.
- Type-dependent dispatch, `objc_update_dtable_for_class`, class reloading in developer mode, disposal of classes, C++ constructors, `checkARCAccessors`, tracing, `+load`, memory exhaustion, deletion of selectors, and the encoding, exception and property code.
- Selectors are indices from 1 to below `selectorCount`, and methods carry the index of their selector.
