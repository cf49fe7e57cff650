# Riva: proofs about its tables, lists, linker, streams and ciphers

This project models the parts of the Riva run-time whose correctness is hardest to see from
the code, and proves what they are for:

- the AVL table of `Table.c` and its cursor, which repairs itself after insertions and
  deletions (`AvlTree`, `TableSpec`, `Table`, `Cursor`, `Runs`);
- the list of `List.c` with its lookup cache and index array, and its two in-place merge sorts
  (`Chain`, `List`, `Sort`, `Sort2`);
- the linker `rlink` and the loader `riva`: which sections an image gets, how relocations are
  split between link time and load time, what is written and read back, and the re-entrant
  fixups (`Closure`, `Relocate`, `ImageFormat`, `ImageWriter`, `ImageReader`, `Fixup`, `Words`);
- the buffered reader of `Buffered.c` (`Buffered`);
- the bcrypt code of `crypt_blowfish.c` (`Feistel`, `KeySetup`, `Radix64`, `Bcrypt`);
- the multi-limb loops of `gmp.h` (`Limbs`).

Code that works in place is modelled in place, on objects and arrays. What a class means is a
ghost value beside its fields: the tree that the links of a table spell out, the nodes of a list
in order, the bytes that a stream has still to give. Methods are proved against functions of
that value, and the promises of the code are lemmas about the functions.

Everything is checked by `dafny verify dfyconfig.toml` (Dafny 4.11). Nothing was executed.

## Findings

Where the code does not meet a promise, the model keeps the code, a lemma or method gives the
input, and a condition that a caller can check says exactly when the promise holds.

| what fails | input | exactly when it holds |
|---|---|---|
| after `pop` the index array of a list is wrong, and lookups find nodes that have left the list | `Lists.PopEmptiedArray`: five entries looked up until the array is built, pulled off, one put and popped, five put | `Lists.List.Pop`, `Lists.List.Delete`: the array's `Upper` was not 0, or there was no array |
| `insert` of several values at position 1 puts them in reverse | `Lists.InsertReverses` | `Lists.InsertKeepsOrder`: the position is above 1, or the values read the same backwards |
| a cursor whose key is deleted and put back visits the key again | `TableRuns.VisitsAgain` | `Traverser.NextIsLeastGreater`: the cursor's node is in the table, or its key is not |
| a cursor on the least key cannot find its place once that key is deleted: the search has no node to stop at | `TableRuns.NoSmallerKey` | `Traverser.NoStop`: a smaller key remains |
| an image with an export that has no section cannot be read: the header counts it | `ImageReader.ExportLost` | `ImageReader.ImageBack`: every export has a section |
| a pc-relative word of a `.ctors` section is off by the distance it is moved | `Relocation.CtorsWord` | `Relocation.CtorsMeans`: the word is absolute, or is the middle one |

## Model

| member | source | states |
|---|---|---|
| AvlTree.MinNodes | dev/src/lib/Agg/Table.c:19-22 | a tree with balances in -1..1 and height h has at least F(h+2) - 1 nodes |
| AvlTree.HeightBound | dev/src/lib/Agg/Table.c:19-22 | below F(34) - 1 nodes the height is at most 31, so the 32 slots of `da`, `pa` and `Stack` are enough |
| TableSpec.LookupMeaning | dev/src/lib/Agg/Table.c:132-148 | a lookup finds exactly the node whose hash and key agree |
| TableSpec.SuccessorMeaning | dev/src/lib/Agg/Table.c:456-482 | the successor of a key is the least node that compares greater, for any total order |
| TableSpec.LookupInserted | dev/src/lib/Agg/Table.c:158-261 | after an insertion the new key leads to the new node, and every other key to where it led |
| TableSpec.LookupRemoved | dev/src/lib/Agg/Table.c:265-397 | after a removal the key leads nowhere, and every other key where it led |
| TableSpec.OrderMeans | dev/src/lib/Agg/Table.c:174-190 | of two nodes in table order the first has the smaller hash, or an equal hash and the key that compares less |
| TableSpec.FoundMeans | dev/src/lib/Agg/Table.c:132-148 | in those terms, what a lookup finds and a removal takes out, and when there is nothing |
| TableSpec.AfterMeans | dev/src/lib/Agg/Table.c:456-482 | in those terms, the successor of a key is the least of the nodes behind it |
| TableSpec.BeforeMeans | dev/src/lib/Agg/Table.c:399-434 | and the node before a key is the greatest of the nodes before it |
| Table.Table.Find | dev/src/lib/Agg/Table.c:132-148 | avl_find returns the node with the hash and a key that compares equal; null means that no node has both |
| Table.Table.InOrder | dev/src/lib/Agg/Table.c:158-397 | so the nodes of a table, after any operation, ascend by hash and then by key |
| Table.Table.Descend | dev/src/lib/Agg/Table.c:165-196 | the descent of avl_probe finds the key or the empty link where it belongs, remembers the last unbalanced node on the way, and caches the directions from there within 32 slots |
| Table.Table.CountNew | dev/src/lib/Agg/Table.c:211-219 | every node from the last unbalanced one to the new one, and no other, has its balance moved towards the new node by one |
| Table.Table.LookUpBalances | dev/src/lib/Agg/Table.c:221-253 | the balance table gives every node of a double rotation its exact balance |
| Table.Table.Rebalance | dev/src/lib/Agg/Table.c:221-261 | at most one single or double rotation restores exact balances and the height from before |
| Table.Table.Probe | dev/src/lib/Agg/Table.c:158-261 | a key that is there changes nothing and gives its node; one that is not is put in its place in the order, all balances exact, only the path below the last unbalanced node touched, and the generation moves if and only if a rotation did |
| Table.Table.Locate | dev/src/lib/Agg/Table.c:275-290 | the search of avl_delete stacks exactly the nodes and directions of the path, table header first, within 32 slots |
| Table.Table.Splice | dev/src/lib/Agg/Table.c:291-324 | each of the three ways to unlink a node leaves the order of all the others, and the stack names the path along which heights shrank |
| Table.Table.Settle | dev/src/lib/Agg/Table.c:325-392 | one round of the loop back restores exact balances at its node, and stops if and only if the height there is as before |
| Table.Table.Delete | dev/src/lib/Agg/Table.c:265-397 | the sequence of nodes is the old one without the key's, all balances exact; the old value is returned, the count drops and the generation moves by one; an absent key changes nothing |
| Traverser.Cursor.First | dev/src/lib/Agg/Table.c:439-454 | avl_t_first goes to the node whose hash is the smallest, and whose key is the least among equal hashes, and stacks the path to it |
| Traverser.Cursor.Refresh | dev/src/lib/Agg/Table.c:399-434 | the cursor is on its node again with the path to it on the stack, or, if its node is gone, on the node with the greatest smaller hash and key |
| Traverser.Cursor.Next | dev/src/lib/Agg/Table.c:456-482 | avl_t_next goes to the next node in the current tree, whatever the table went through, and is in step with it afterwards; unless the key of the cursor was put back by another node, that is the least node with a greater hash, or an equal hash and a greater key |
| Traverser.RunInStep | dev/src/lib/Agg/Table.c:255-259 | over any run, an unchanged generation means that the stack still is the path to the cursor's node |
| Traverser.NextIsLeastGreater | dev/src/lib/Agg/Table.c:456-482 | that node is the one with the least greater key if and only if the cursor's node is in the table or its key is not |
| Traverser.NoStop | dev/src/lib/Agg/Table.c:419-431 | the pop loop of trav_refresh has no node to stop at if and only if no smaller key remains |
| TableRuns.Perform | dev/src/lib/Agg/Table.c:158-397 | after any sequence of avl_probe and avl_delete a key is present if and only if the last operation on it put it there, a node stays unless its key was deleted, and a cursor that was ready still is |
| TableRuns.PresentMeans | dev/src/lib/Agg/Table.c:158-397 | what the last operation on a key is, by position in the run, hash and key |
| TableRuns.PerformAndNext | dev/src/lib/Agg/Table.c:399-482 | after any such sequence avl_t_next can be called if the cursor's node was spared, no key is left or a smaller one is, and goes to the next node of the new tree |
| TableRuns.NextIsLeastPresent | dev/src/lib/Agg/Table.c:456-482 | that node has the least key greater than the cursor's among those that the run has left present; null means there is none |
| TableRuns.VisitsAgain | dev/src/lib/Agg/Table.c:399-482 | a run in which the key 2 under the cursor is deleted and put back and is then the next entry again |
| TableRuns.NoSmallerKey | dev/src/lib/Agg/Table.c:399-437 | a run after which a cursor has no smaller key to resume from |
| Lists.List.Push | dev/src/lib/Agg/List.c:540-552 | a new first entry; cache and index array stay right |
| Lists.List.Put | dev/src/lib/Agg/List.c:554-565 | a new last entry; cache and index array stay right |
| Lists.List.Pop | dev/src/lib/Agg/List.c:567-584 | the first entry goes; the index array stays right if and only if its upper bound was not 0 |
| Lists.List.Pull | dev/src/lib/Agg/List.c:586-602 | the last entry goes; cache and index array stay right |
| Lists.List.BuildIndexArray | dev/src/lib/Agg/List.c:604-612 | the index array holds every node, in order |
| Lists.List.FindNode | dev/src/lib/Agg/List.c:697-732 | all seven routes give the node that counting gives; which of cache, access counter and index array changes, and how; the fourth walk builds the array |
| Lists.List.DeleteNode | dev/src/lib/Agg/List.c:1067-1078 | exactly the node goes, the cache moves to the next one, the array is dropped |
| Lists.List.Delete | dev/src/lib/Agg/List.c:1080-1176 | exactly the entry at the index goes, counted from the end if not positive; outside the list nothing changes; when the index array stays right, if and only if |
| Lists.List.Insert | dev/src/lib/Agg/List.c:1178-1302 | where each value goes, at every position, and that everything is in order afterwards |
| Lists.InsertedValues | dev/src/lib/Agg/List.c:1192-1302 | the values of the list after `insert` are the old ones with the new ones at the position, reversed if it is the first |
| Lists.InsertKeepsOrder | dev/src/lib/Agg/List.c:1206-1215 | the values arrive in the given order if and only if the position is above 1 or they read the same backwards |
| Lists.InsertReverses | dev/src/lib/Agg/List.c:1206-1215 | two values that change places |
| Lists.Walked | dev/src/lib/Agg/List.c:697-712 | a run of lookups that builds the index array |
| Lists.PopEmptiedArray | dev/src/lib/Agg/List.c:567-584 | a run after which a lookup finds a node that is not in the list |
| Sorting.MergeRuns | dev/src/lib/Agg/List.c:3309-3338 | two runs become one merged run behind what was put out, nothing lost and nothing else touched |
| Sorting.Pass | dev/src/lib/Agg/List.c:3295-3341 | one pass keeps the nodes, turns sorted runs into sorted runs of twice the length, and counts at most one merge if and only if the list is sorted by it |
| Sorting.Sort | dev/src/lib/Agg/List.c:3279-3355 | the list is a permutation of the same nodes, well linked, in order, with cache and array right, after the least number k of passes with 2^k at least the length |
| Sorting.BothSortable | dev/src/lib/Agg/List.c:3465-3542 | a strict weak order and a total preorder are both tests that `sort` can work with |
| Sorting.StrictMeans | dev/src/lib/Agg/List.c:3309-3338 | with a strict weak order values ascend, and equal ones are in the reverse of their old order |
| Sorting.PreorderMeans | dev/src/lib/Agg/List.c:3465-3542 | with a test that succeeds on ties the sort is stable |
| Sorting.OneArrangement | dev/src/lib/Agg/List.c:3279-3355 | there is only one arrangement of the nodes in that order |
| TapeSorting.Tape.Move | dev/src/lib/Agg/List.c:3248-3257 | the head of one tape becomes the end of another |
| TapeSorting.MergeBlock | dev/src/lib/Agg/List.c:3218-3258 | the first run of each tape goes to the output as one merged run |
| TapeSorting.TapePass | dev/src/lib/Agg/List.c:3213-3259 | a pass conserves the nodes, doubles the length of sorted runs, and leaves the first tape with as many runs as the second or one more |
| TapeSorting.Distribute | dev/src/lib/Agg/List.c:3194-3207 | the nodes are dealt to two tapes, none lost |
| TapeSorting.DealtRuns | dev/src/lib/Agg/List.c:3194-3217 | the first tape has as many runs as the second, or one more |
| TapeSorting.OrderedMeans | dev/src/lib/Agg/List.c:3357-3463 | both kinds of comparison will do, and give the usual order |
| TapeSorting.RisingMeans | dev/src/lib/Agg/List.c:3172-3277 | of two entries of the sorted list the later one is not less than the earlier one |
| TapeSorting.Sort2 | dev/src/lib/Agg/List.c:3172-3277 | the loop ends with everything on one tape, and the list is a sorted permutation of the same nodes, well linked |
| Words.FieldStored | dev/src/riva/riva.c:113-156 | a field that is stored is read back modulo its width |
| Words.FieldBytes | dev/src/riva/riva.c:126-156 | a field is its bytes, the lowest first |
| Words.StoredBytes | dev/src/riva/riva.c:126-156 | storing a word stores its four bytes in that order, and nothing elsewhere |
| Fixups.PatchText | dev/src/riva/riva.c:113-156 | what one relocation of a text section does to bytes and links, with its kind and width |
| Fixups.PatchData | dev/src/riva/riva.c:227-252 | what one relocation of a data section does |
| Fixups.Fixup | dev/src/riva/riva.c:109-160 | terminates on any graph, and in between any two states of a re-entrant call every relocation taken up has been applied, once |
| Fixups.FixupText | dev/src/riva/riva.c:109-160 | the same for the loop over a text section, which calls back into half-finished sections |
| Fixups.FixupData | dev/src/riva/riva.c:224-256 | the same for a data section |
| Fixups.LoadedQuiet | dev/src/riva/riva.c:460-520 | sections that have just been loaded are a start from which this can be said |
| Fixups.ReachedApplied | dev/src/riva/riva.c:109-160 | once nothing is under way, every section on any path from a finished one has had each relocation applied exactly once |
| Fixups.PlayedSettles | dev/src/riva/riva.c:113-156 | in whatever order disjoint relocations are applied, each field holds what its relocation asks for and every other byte what was loaded |
| Fixups.FinalBytes | dev/src/riva/riva.c:109-160 | so the bytes and links of a finished section are those of the image plus target minus place |
| Fixups.FinishedField | dev/src/riva/riva.c:109-256 | field by field: absolute, relative to the section, through the link table (whose address the field gets, while the link gets target plus what was in the field) and through the offset table, in text and in data, modulo the width |
| Fixups.FinishedElsewhere | dev/src/riva/riva.c:145-156 | every byte outside these fields is as it was loaded |
| Fixups.ApartFields | dev/src/riva/riva.c:113-156 | when the fields of a section lie apart |
| Fixups.PathMore | dev/src/riva/riva.c:109-160 | what a section at the end of a path refers to is reached as well |
| Fixups.FixupOutermost | dev/src/riva/riva.c:636-652 | an outermost call leaves every section that it reaches finished, on any finite graph, cyclic or not, and nothing under way |
| Relocation.Edit | dev/src/rlink/rlink.c:686-738 | what rlink does to a field for one relocation |
| Relocation.Setup | dev/src/rlink/rlink.c:668-741 | the edits of all relocations, from the last to the first, and the records left to the loader: position, size and flags of each |
| Relocation.SetupCtors | dev/src/rlink/rlink.c:583-666 | for `.ctors` the same, then the words of the section reversed, and positions turned with them |
| Relocation.EditedField | dev/src/rlink/rlink.c:668-741 | disjoint fields do not disturb each other |
| Relocation.RelocationMeans | dev/src/rlink/rlink.c:686-738 | for every placement of sections, the edits of rlink and then what riva does for the record it was left give S + A for R_386_32 and S + A - P for R_386_PC32, modulo 2^32 (chapter 4 of the System V ABI, Intel386 supplement) |
| Relocation.LoadedMeans | dev/src/rlink/rlink.c:668-741 | for every kind of relocation, the final field and link of the loaded section in terms of the input code: an indirect one gets the address of its link, and the link the target plus what the code held |
| Relocation.SymbolMeans | dev/src/rlink/rlink.c:495-513 | a relocation against a symbol object gives the object plus the offset |
| Relocation.FieldTurned | dev/src/rlink/rlink.c:659-666 | reversing the words of a section moves a word to the mirror position |
| Relocation.CtorsMeans | dev/src/rlink/rlink.c:583-666 | in `.ctors` a relocation means what it should if and only if it is absolute or its word is the middle one |
| Relocation.CtorsWord | dev/src/rlink/rlink.c:583-666 | a section of two words whose first is pc-relative: it holds 0 instead of -4 |
| Closure.Linker.Append | dev/src/rlink/rlink.c:174-185 | a section gets the next number and the last place |
| Closure.Linker.Require | dev/src/rlink/rlink.c:174-186 | terminates on cyclic graphs; afterwards the section is listed and whatever it refers to is listed or being set up |
| Closure.Linker.SetupBlock | dev/src/rlink/rlink.c:573-741 | every relocation of a block is bound to the section it refers to |
| Closure.Linker.Gather | dev/src/rlink/rlink.c:2241-2276 | after the passes of main, exports with a section and the special sections are listed, and roots are nothing else |
| Closure.Linker.Complete | dev/src/rlink/rlink.c:212-215 | whatever a listed section refers to is listed |
| Closure.Linker.CompleteMeans | dev/src/rlink/rlink.c:573-741 | reference by reference: the section itself or the section of the symbol is listed, and each relocation is bound to exactly that one |
| Closure.Linker.AskedMeans | dev/src/rlink/rlink.c:2241-2276 | each entry is a special section, or an export stands for it, or an earlier entry refers to it |
| Closure.Linker.Once | dev/src/rlink/rlink.c:174-186 | each section is listed once, under its number, and the links lead along the list |
| Closure.Linker.Reached | dev/src/rlink/rlink.c:2241-2276 | every listed section can be reached from a root |
| Closure.Linker.StartSound | dev/src/rlink/rlink.c:800-825 | sections that nobody has numbered are a sound start |
| Closure.Collect | dev/src/rlink/rlink.c:2241-2276 | the whole of it from a fresh start: the list is closed, numbered by position, and holds exactly what was asked for directly or through an earlier entry |
| ImageWriter.Output.WriteSection | dev/src/rlink/rlink.c:188-190 | each kind of section is written as its record, byte by byte |
| ImageWriter.SectionSpelled | dev/src/rlink/rlink.c:273-1511 | the bytes of every kind of section: kind number, flags, then its own fields, in the order in which they are written |
| ImageWriter.RelocBytesAt | dev/src/rlink/rlink.c:779-800 | a relocation is ten bytes: size, flags, position, number of the section |
| ImageWriter.SectionBytesMore | dev/src/rlink/rlink.c:2300 | the sections follow each other in the order of the list |
| ImageWriter.ExportBytesMore | dev/src/rlink/rlink.c:2301-2310 | the bytes of an export that has a section; one that has none leaves nothing |
| ImageWriter.RequireBytesMore | dev/src/rlink/rlink.c:2311-2315 | the bytes of a requirement |
| ImageWriter.ImageIs | dev/src/rlink/rlink.c:2289-2316 | the magic number, version 3, the counts, and then sections, exports and requirements |
| ImageWriter.Output.WriteGroup | dev/src/rlink/rlink.c:983-1001 | methods, typed functions and initial blocks become one section, with 0xFFFFFFFF at the end and each block's relocations moved |
| ImageWriter.GroupSize | dev/src/rlink/rlink.c:963-981 | the size and relocation count of such a section |
| ImageWriter.CodesMeans | dev/src/rlink/rlink.c:983-1001 | the blocks follow each other in order |
| ImageWriter.SizeWritten | dev/src/rlink/rlink.c:265-271 | each size function gives the number of bytes that its writer writes |
| ImageWriter.WriteImage | dev/src/rlink/rlink.c:2289-2316 | the bytes of a whole image |
| ImageFormat.WordMeans | dev/src/rlink/rlink.c:2295-2299 | a word is written lowest byte first |
| ImageFormat.RecordBack | dev/src/riva/riva.c:450-608 | parsing a section record undoes writing it |
| ImageReader.Input.ReadBody | dev/src/riva/riva.c:450-608 | the loader's switch reads what the format says, for every kind |
| ImageReader.Input.Load | dev/src/riva/riva.c:427-630 | the loader gives the records that the bytes say |
| ImageReader.ImageBack | dev/src/riva/riva.c:435-630 | reading what rlink wrote gives back every section, relocation, export and requirement, if and only if every export has a section |
| ImageReader.ExportLost | dev/src/rlink/rlink.c:156-172 | an image with one export without a section does not parse |
| ImageReader.GroupRelocsAt | dev/src/rlink/rlink.c:988-1000 | the relocations of a block are moved by the code before it |
| ImageReader.GroupField | dev/src/rlink/rlink.c:983-1001 | so they name the same bytes after the blocks are joined |
| Buffered.Stream.Rest | dev/src/lib/IO/Buffered.c:252-291 | everything that is left, whatever the chunks |
| Buffered.Stream.Reads | dev/src/lib/IO/Buffered.c:350-417 | the first Max bytes, or what is left |
| Buffered.Stream.CharsxNoLimit | dev/src/lib/IO/Buffered.c:521-589 | the bytes before the first terminator, which is consumed, or what is left |
| Buffered.Stream.Readx | dev/src/lib/IO/Buffered.c:591-715 | the same within Max bytes |
| Buffered.Stream.Readl | dev/src/lib/IO/Buffered.c:1512-1578 | a line |
| Buffered.Stream.Read | dev/src/lib/IO/Buffered.c:191-212 | as many bytes as asked for, or what is left |
| Buffered.Stream.Perform | dev/src/lib/IO/Buffered.c:191-715 | any sequence of these reads returns consecutive pieces that depend on the bytes of the base stream only, never on chunks or buffers |
| Buffered.ReadxMeans | dev/src/lib/IO/Buffered.c:591-715 | the three ways a read ends, each with its condition: at the first terminator within the limit, at the limit, with the stream |
| Buffered.OutcomeMeans | dev/src/lib/IO/Buffered.c:191-715 | what each kind of read takes from the stream: `readl` ends at byte 10, `reads` of 0 takes everything, no byte is lost but the terminator |
| Limbs.ValInjective | dev/inc/gcc/gmp.h:2043-2063 | limb arrays of one length with the same value are the same |
| Limbs.Aors1 | dev/inc/gcc/gmp.h:1954-1989 | carry and borrow run as far as they must and the rest is copied, in place or not |
| Limbs.Add1 | dev/inc/gcc/gmp.h:2119-2127 | val(dst) + carry * B^n = val(src) + v |
| Limbs.Sub1 | dev/inc/gcc/gmp.h:2158-2166 | val(dst) - borrow * B^n = val(src) - v |
| Limbs.AddThenSub | dev/inc/gcc/gmp.h:2119-2166 | subtracting undoes adding, limb by limb, with the borrow equal to the carry |
| Limbs.Aors | dev/inc/gcc/gmp.h:1887-1919 | what holds for equal sizes extends to unequal ones, in place or not |
| Limbs.Add | dev/inc/gcc/gmp.h:2106-2114 | the sum of two numbers of unequal size |
| Limbs.Sub | dev/inc/gcc/gmp.h:2145-2153 | the difference |
| Limbs.Cmp | dev/inc/gcc/gmp.h:2043-2063 | the sign of the difference of the values |
| Limbs.Neg | dev/inc/gcc/gmp.h:2171-2181 | carry * B^n - val(src), with the carry saying that src is not zero |
| Feistel.Round | dev/src/lib/Alg/crypt_blowfish.c:455-471 | one round, through the four boxes |
| Feistel.MixMeans | dev/src/lib/Alg/crypt_blowfish.c:455-471 | which byte of a word goes through which box, and how the four results are put together |
| Feistel.PlusWraps | dev/src/lib/Alg/crypt_blowfish.c:455-471 | the addition in a round wraps around at 2^32, and the other operation is exclusive or |
| Feistel.Encrypt | dev/src/lib/Alg/crypt_blowfish.c:499-518 | the sixteen unrolled rounds are the Feistel network with whitening at both ends |
| Feistel.EncryptedMeans | dev/src/lib/Alg/crypt_blowfish.c:499-518 | the cipher round by round, with the subkey that each one takes |
| Feistel.DecryptEncrypt | dev/src/lib/Alg/crypt_blowfish.c:499-518 | encryption with the subkeys reversed undoes encryption, for all subkeys and boxes |
| Feistel.EncryptBijective | dev/src/lib/Alg/crypt_blowfish.c:499-518 | encryption is a bijection on pairs of words |
| KeySetup.SameWord | dev/src/lib/Alg/crypt_blowfish.c:589-608 | sign extension changes a word unless every byte before a sign-extended one is 0xFF |
| KeySetup.FoldWord | dev/src/lib/Alg/crypt_blowfish.c:589-608 | the inner loop makes both words and keeps the pointer and the sign flag |
| KeySetup.TailMeans | dev/src/lib/Alg/crypt_blowfish.c:624-628 | the branch-free tail gives bit 16 if and only if there was no difference, a sign, and the safety flag |
| KeySetup.SetKey | dev/src/lib/Alg/crypt_blowfish.c:543-642 | both keys, with the bug or without; bit 16 of the first word flipped if and only if safety is asked for, the two expansions agree on all 18 words and some byte past the first of its word has its top bit set |
| KeySetup.ExpandedBytes | dev/src/lib/Alg/crypt_blowfish.c:587-613 | without the bug, byte m of the expanded key is byte m mod (len + 1) of the key and its NUL |
| KeySetup.CyclicMeans | dev/src/lib/Alg/crypt_blowfish.c:587-613 | which byte that is: of the key, or the 0 behind it |
| KeySetup.ByteMeans | dev/src/lib/Alg/crypt_blowfish.c:587-613 | byte 0 of a word is its highest |
| KeySetup.BuggyBytes | dev/src/lib/Alg/crypt_blowfish.c:589-608 | with the bug, a byte is 0xFF if a later byte of its word has its top bit set |
| KeySetup.FlagsMean | dev/src/lib/Alg/crypt_blowfish.c:624-628 | what flags 1, 2 and 4 ask for: the bug, the safety measure, neither |
| KeySetup.DeviatesMeans | dev/src/lib/Alg/crypt_blowfish.c:615-642 | the condition of the flip in terms of the bytes of the key |
| KeySetup.DeviatesOnlyOnOnes | dev/src/lib/Alg/crypt_blowfish.c:547-561 | only keys with a byte 0xFF are affected |
| Radix64.TablesInverse | dev/src/lib/Alg/crypt_blowfish.c:364-374 | the two tables are inverse |
| Radix64.GroupMeans | dev/src/lib/Alg/crypt_blowfish.c:408-439 | three bytes and their four digits are the same 24-bit number |
| Radix64.DigitsMean | dev/src/lib/Alg/crypt_blowfish.c:408-439 | the digits of any bytes, three bytes at a time, and of the one or two left at the end |
| Radix64.DigitsInOrder | dev/src/lib/Alg/crypt_blowfish.c:364 | the 64 digits |
| Radix64.Encode | dev/src/lib/Alg/crypt_blowfish.c:408-439 | the loop writes exactly the digits of the bytes, and nothing else |
| Radix64.Decode | dev/src/lib/Alg/crypt_blowfish.c:385-406 | it succeeds if and only if all the digits it needs are digits, never reads past the NUL, and then gives their bytes |
| Radix64.BytesBack | dev/src/lib/Alg/crypt_blowfish.c:385-439 | decoding undoes encoding, for every string of bytes |
| Radix64.DigitsBack | dev/src/lib/Alg/crypt_blowfish.c:385-439 | encoding what was decoded gives the digits back up to the spare bits of the last |
| Bcrypt.Crypt | dev/src/lib/Alg/crypt_blowfish.c:644-776 | when a setting is accepted, if and only if; which error otherwise; the whole output |
| Bcrypt.AcceptedMeans | dev/src/lib/Alg/crypt_blowfish.c:673-700 | when a setting is accepted, character by character |
| Bcrypt.Rounds | dev/src/lib/Alg/crypt_blowfish.c:698 | one more in the cost is twice the count |
| Bcrypt.HashMeans | dev/src/lib/Alg/crypt_blowfish.c:687-768 | the digest in a hash is that of the key, the salt bytes, the flags and the cost of the setting, in that order |
| Bcrypt.HashOfGenerated | dev/src/lib/Alg/crypt_blowfish.c:687-768 | so for a setting made from 16 bytes it is that of the key, these bytes, flags 2, 1 or 4 for a, x or y, and the cost; the rest of the hash is the setting |
| Bcrypt.HashKeepsSalt | dev/src/lib/Alg/crypt_blowfish.c:766-768 | the salt text of a hash is that of the setting with the last digit masked by 0x30, and decodes to the same salt |
| Bcrypt.HashAgain | dev/src/lib/Alg/crypt_blowfish.c:673-776 | hashing with a produced hash as setting gives that hash |
| Bcrypt.Gensalt | dev/src/lib/Alg/crypt_blowfish.c:876-902 | which arguments are accepted, which error otherwise, and the whole output |
| Bcrypt.GeneratedAccepted | dev/src/lib/Alg/crypt_blowfish.c:876-902 | a generated setting is accepted if and only if the least count is not above its own, and decodes to the subtype, cost and salt it was made from |
| Bcrypt.GeneratedSuffices | dev/src/lib/Alg/crypt_blowfish.c:832 | so it passes the least count of 16 |

## Left out

General:

- Allocation failure, locks, threads and the entry points in assembly.
- Counters and indices are unbounded where they cannot come near the limit of a word (generation, count, lengths);
  words are bounded where the code lets them wrap: relocated fields, image fields, limbs, cipher words, the bounds
  and the access counter of the list.
- Methods that only dispatch, and the methods of these classes that build on the ones above (map, fold, find and so on).

Tables:

- The table header as a pseudo-node is the root slot; `null` on a stack stands for it.
- A comparison function is a total order on objects and does not touch the table.
- `empty` during a traversal, which sets the generation back to 0.

Lists:

- `shift`, `splice`, `split` and `separate`, which do not restore cache and index array.
- A comparison that answers with a message in the middle of a sort; the test is a function.
- The allocation of an index array is a new block; its pointer moved by `pop` is a field of its own.
- Lists.List.FindNode: with an index array that is wrong already, the entry must lie in the block; the code reads
  whatever memory is there.

Linker and loader:

- The BFD library, gzip, file search, scripts and the Windows branches.
- Libraries, imports, symbols and constants as targets of fixups: a target has a base address, and that is all. Their
  own calls out of the loader are not part of the exactly-once claim.
- Delayed linking, thread-local data and global offset table sections.
- Closure.Linker.Require: a block of a methods, typed function or initial section is not a section of its own here. In
  rlink a relocation against such a block lists the block as well and sets it up again (rlink.c:1293-1338).
- ImageReader.Input.Load: on input that ends too early it gives nothing. riva_load does not look at what gzread returns,
  and goes on with whatever its variables hold (riva.c:435-630).
- Effects of loading beyond the records: the tables of exports, loading required modules, running initial functions.

Streams:

- The methods that build Riva strings, the case-insensitive forms, seeking and writing.
- Failing base streams (-1) and `readc` at the end.
- Buffered.Stream.Readx: terminators are below 128; the code indexes its table with a signed char.
- The four places in the code that gather buffers are one method here, with and without a limit.

bcrypt:

- The values of the S and P tables, the self-test and clearing of memory.
- The key schedule and the cost loop behind BF_set_key are one function of key, salt, flags and cost.
- Shifts and masks of bytes in the base 64 code are written as division and remainder, and its tables as ranges of
  characters.

Limbs:

- `mpn_add_n` and `mpn_sub_n` are only declared in gmp.h; `Limbs.AorsN` stands for them.
- Arrays that overlap partly, which the header rules out.
