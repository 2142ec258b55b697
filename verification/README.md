# XSB emulator core: a verified model

This project models the parts of the XSB Prolog emulator whose correctness rests on invariants over
linked code, counters and several threads, and proves what the emulator needs of them.

* **Dynamic clause index** (`Chains`, `IndexShape`, `IndexTree`, `IndexChange`, `IndexJoin`, `ClauseStore`,
  `IndexOrder`, `IndexSmooth`, `ClauseWalk`, `IndexSelect`). Asserted clauses lie on try/retry/trust chains whose opcodes encode position, below a
  tree of hash records. The class `DynPred` holds words, predicate records, slots and records as the C code does and
  changes them in place. Its ghost shape says which chain every word is on. Insertion and deletion refine append, cons and
  removal on the clause list. A record that a deletion empties while a choice point needs it stays on its chain with
  opcode fail; such failed records are part of every state. The indexed walk returns the right sublist of the clause
  list if and only if they do not take it off the chains.
* **Retract beside live choice points** (`RetractSafety`, `RetractCalls`, `FailedRecords`). Choice points are words
  that may be resumed. The mark phase and the neighbour checks are proved to allow only deletions that change no choice
  point's future, for the predicate as a whole and for the key of each call, and asserts keep it as well. A run shows
  what becomes of records that had to stay.
* **Assert-time compiler** (`Registers`, `InstQueue`, `Moves`, `MovesLimit`, `HeadCode`, `HeadRegisters`,
  `HeadCompiler`). The register allocator, the ring of pending instructions, the scheduler of argument moves and
  the compiler of heads are methods over arrays and queues. Emitted code is run by a small model of the emulator.
* **Incremental call graph** (`Reach`, `SccSpec`, `SccProof`, `Scc`, `Invalidate`, `NoChange`, `IncrGraph`, `LazyCalls`,
  `CallEdges`). Components, invalidation and its withdrawal, the order of lazy updates, and the two sides of the edges.
* **Concurrent completion and deadlock** (`DepLists`, `UpdateDeps`, `ConcCompletion`, `Deadlock`). A stretch of code
  that holds the completion mutex is one method; threads interleave between methods.
* **Trail and cut** (`TrailSpec`, `TrailCut`). Heap and environments with their tops, choice points, and the trail.
* **Excess variables** (`FreeVariables`, `ExcessVars`). The builtin behind setof and term_variables, which collects
  variables by binding and unbinding heap cells.

## Where code and expectation differ

* `db_genmvs` scans its ring from bottom to top only. Once top has wrapped the scans see nothing. The scheduler is
  right for every list of n moves if and only if n is at most 123 (`MovesLimit.LimitIs123`), although 255 arguments
  are allowed.
* The branch of `xsb_compute_scc` for a call without outedges gives it a number but leaves it on the stack, so an
  older call may overwrite the number. The numbering is right if and only if no such call is listed after a call that
  reaches it (`Scc.GetIncrSccs`, `Scc.SinkAfterCaller`).
* `get_incr_sccs` makes room for the calls its hash table does not recognise and then fills in one node for every list
  element. The first call is stored with position 0, which reads as not found, so that its first repetition is counted
  again; a repetition of any other call is not and runs over the room (`Scc.CountCalls`). The numbering is modelled for
  lists without repetitions.
* `propagate_no_change` does not restore everything when the affected calls depend on each other in a cycle. The
  exact condition is `NoChange.RestoredExactly`, an instance `NoChange.RingStays`, and `NoChange.SweepDone` says in
  general whom it restores.
* `falsecount` and `outcount` have 14 bits. A call with 16384 invalidated predecessors ends up with count 0 and is
  then taken for valid (`NoChange.AffectedExactly`, `NoChange.WideOverflows`), although it stays marked for good
  (`NoChange.WideStays`).
* `get_incr_sccs` looks outedges up in a table of positions in which a call that is not listed reads as position 0, the
  first call listed (`Scc.NumberedEdges`).
* `RETURN_LAZY_CALL_LIST` is documented to return calls in postorder. The list has them in reverse postorder, callers
  first, and `lazy_reeval_trap` reverses it (`LazyCalls.DependenciesLast`).
* Physical deletion may empty a record that a choice point still needs. The code then says that it deletes an improper
  record and leaves it with opcode fail on its chain, although the clause is deleted all the same
  (biassert.c:2885-2893). It keeps four words of the record: size, link back, try instruction and link forward. The opcode
  that says fail is in the fifth word, behind the try instruction (biassert.c:1221, 1264), and is given back with the rest.
  * Every walk that passes a failed record reads that word (1837, 1861, 1896, and the argument number in 1814-1815), and
    a choice point that comes to one executes it. `ClauseWalk.Enumerate` and `RetractSafety.RetractClause` say exactly
    when. As long as the word keeps its value no choice point loses anything and the conditions below are exact; beyond
    that nothing is promised about such reads.
  * The loops that skip failed records (1859-1861, 1896-1898) do not look for the end of the chain, and where the walk
    goes down to a first record it does not look at its opcode. Enumeration is right if and only if no chain it walks ends
    in a failed record or begins with one entered unseen (`ClauseWalk.Enumerate`, `IndexSmooth.Walkable`).
  * `db_addbuff_i` reads the size and the pointers of the record at the near end, which have been given back if that one
    has failed. Assert is right if and only if there is none on its way (`ClauseStore.DynPred.DbAddBuffI`).
  * `previous_clref` does not look at the opcode either and goes into a failed record by a pointer that has been given
    back (`ClauseWalk.PrevWild`).
  `FailedRecords.FailedRun` leads to a state in which all of this happens.
* `EXCESS_VARS` accepts a start list that ends in one of its own elements, because that element reads as [] by then. A
  type error leaves the start variables read before it bound to [], as only the local trail knows them.
* `make_ground` reads argument 0 of a structure without arguments, that is, its functor cell (`ExcessVars.ArgumentZero`).
  The limit that the code tests does not count the variables of the template, so that they may run over the local trail.
  Apart from that the answer is right: `ExcessVars.Tame` is the exact condition.
* A thread that becomes the leader of a broken cycle keeps the value of `waiting_for_tid` from an earlier round of
  its wait loop. The recorded waits stay free of cycles all the same; what `would_deadlock` answers is exact for the
  recorded waits, which may contain that stale one.

## Model

| member | source | states |
|---|---|---|
| `ClauseStore.DynPred.constructor` | XSB/emu/biassert.c:1770-1801 | A new predicate has no clause and meets the invariant of the whole structure |
| `ClauseStore.DynPred.PrefixToChain` | XSB/emu/biassert.c:1482-1501 | Putting a clause word or index record in front of a chain is cons on the chain: links stay mutually inverse and every opcode again says only, first, middle or last |
| `ClauseStore.DynPred.AppendToChain` | XSB/emu/biassert.c:1504-1524 | Putting it behind a chain is append, with the same guarantees |
| `ClauseStore.DynPred.DeleteFromChain` | XSB/emu/biassert.c:1980-2024 | The macro that takes an element out of a chain is sequence removal; the neighbours get the opcodes of their new positions and nothing else is written |
| `Chains.DroppedChain` | XSB/emu/biassert.c:1980-2024 | The words written by a deletion turn a well formed chain into a well formed chain of the remaining elements, wherever the element was |
| `ClauseStore.DynPred.DbAddBuff` | XSB/emu/biassert.c:1527-1551 | Adding to a predicate or record chain at either end keeps first and last pointers and the entry opcode right and leaves every other chain alone |
| `ClauseStore.DynPred.AddToAllChain` | XSB/emu/biassert.c:1741-1767 | A clause joins the chain of all clauses of a leaf record at the chosen end |
| `ClauseStore.DynPred.AddToHashChain` | XSB/emu/biassert.c:1701-1739 | A clause word joins its bucket at the chosen end; the slot points to the head, and the record's count goes up exactly when the bucket was empty |
| `ClauseStore.DynPred.DeleteFromAllChain` | XSB/emu/biassert.c:2047-2070 | Removal from the chain of all clauses repairs the head and tail pointers of the owner |
| `ClauseStore.DynPred.DeleteFromSobChain` | XSB/emu/biassert.c:2076-2104 | Removal of an index record from its chain repairs the head and tail pointers of the owner |
| `ClauseStore.DynPred.DeleteFromHashChain` | XSB/emu/biassert.c:2028-2043 | Removal from a bucket repairs the slot; the record's count goes down exactly when the bucket becomes empty |
| `ClauseStore.HashResize` | XSB/emu/biassert.c:1558-1586 | The table size is kept while at most three quarters of the buckets are used, and is the least bigger one of the list, or two more beyond the list, when more are; it is never smaller than the caller's wish; a predicate without clauses gets the least size of the list that is not smaller |
| `ClauseStore.PickSize` | XSB/emu/biassert.c:1573-1585 | The least size of the list that passes the test, or the last one |
| `ClauseStore.SmallTables` | XSB/emu/biassert.c:1553-1586 | The sizes at the edges: 17 for a new predicate, 17 with 12 buckets used, 389 with 13, and two more at the end of the list |
| `ClauseStore.FirstLevel` | XSB/emu/biassert.c:1770-1792 | At the first level a bound argument joins the record at the near end if at most three quarters of its buckets are used and no bigger table is wished for, and starts one of the next size otherwise; a variable joins a record with one slot and starts one otherwise |
| `ClauseStore.DynPred.NewSobBlock` | XSB/emu/biassert.c:1672-1699 | A new index record has the asked number of slots, all of them failing, and count 0, and touches nothing that exists |
| `ClauseStore.DynPred.ChooseSob` | XSB/emu/biassert.c:1770-1801 | One level of insertion reuses the record at the chosen end when size and index fit and starts a new one otherwise; the clause tree stays well formed; words of a released record are read exactly when the record at that end has failed |
| `ClauseStore.DynPred.AddAtLevel` | XSB/emu/biassert.c:1770-1801 | One level of insertion puts the clause into the bucket that its argument hashes to, goes down into that record, and leaves what is in the way further down as it is |
| `ClauseStore.DynPred.DbAddBuffI` | XSB/emu/biassert.c:1770-1801 | assert: unless a failed record is at the near end of a chain on its way, the clause list grows by the new clause at the chosen end, every clause is again on one bucket per level of a single path and on the leaf's chain of all clauses, every chain has only gained elements at that end, on each level the record at the near end is joined if and only if it fits, the records of the clause have the table size of their level, and no other record changes or fails; if one is in the way, and only then, the code reads words that have been given back |
| `IndexJoin.JoinNext` | XSB/emu/biassert.c:1780-1800 | Level by level: the clause joins the record at the near end below the one of the level above if size and argument fit, and starts a new one at that end otherwise |
| `IndexChange.BlockedNext` | XSB/emu/biassert.c:1770-1801 | Whether a failed record is in the way of an assert is decided level by level: at this one, or below the record that is reused |
| `IndexChange.ExtendedLinked` | XSB/emu/biassert.c:1482-1524 | Linking an element in makes its chain longer at the chosen end and no other chain or element changes place |
| `ClauseStore.DynPred.SobSafeToDelete` | XSB/emu/biassert.c:2914-2925 | Safe is answered exactly when the record is not marked and no marked record would become first on its chain |
| `IndexChange.OpeningRecord` | XSB/emu/biassert.c:2914-2925 | The opcode and the next word of a record header tell whether dropping it would make a marked record the first of its chain |
| `ClauseStore.DynPred.RemoveAtLevel` | XSB/emu/biassert.c:2846-2911 | One level of physical deletion takes the clause out of its bucket; a record that this empties is unlinked when that is safe, and otherwise stays on its chain and fails; every other record is as it was |
| `ClauseStore.DynPred.DropSob` | XSB/emu/biassert.c:2846-2911 | Unlinking an empty record keeps the invariant and the order of all clauses, and changes no other chain |
| `ClauseStore.DynPred.ReallyDeleteClause` | XSB/emu/biassert.c:2846-2911 | Physical deletion, records that may not go included: the clause list loses exactly that clause, the invariant holds again with failed records on their chains, every chain has lost nothing but the clause and records that were safe to drop, and only records that were not safe have newly failed |
| `IndexTree.DescendTree` | XSB/emu/biassert.c:1770-1801 | Linking the clause word into the bucket moves the one pending insertion a level down and breaks no part of the tree invariant |
| `IndexTree.AscendTree` | XSB/emu/biassert.c:2846-2911 | Unlinking the clause word from its bucket moves the one pending deletion a level up |
| `IndexTree.FlagTree` | XSB/emu/biassert.c:2876-2890 | A record with nothing below it may be marked as failed and stay on its chain: the tree invariant holds and no clause had its path through it |
| `IndexTree.UnchainTree` | XSB/emu/biassert.c:2876-2898 | A failed record may be unlinked: the tree invariant holds and the clause list is the same |
| `IndexTree.FinishTree` | XSB/emu/biassert.c:1770-1801 | After the last level the tree is settled and its clause list has the new clause at the chosen end |
| `IndexTree.FinishRemoving` | XSB/emu/biassert.c:2846-2911 | After the last level the tree is settled without the clause |
| `IndexShape.LinkStorage` | XSB/emu/biassert.c:1701-1739 | Linking into any chain keeps all other chains, slots, heads and counts of the store right |
| `IndexShape.UnlinkStorage` | XSB/emu/biassert.c:1980-2104 | Unlinking from any chain keeps all other chains, slots, heads and counts of the store right |
| `IndexOrder.NoneMissed` | XSB/emu/biassert.c:1588-1670 | A clause whose argument is a variable or matches the argument of the call is among the candidates of the call key, so indexing misses no clause |
| `IndexOrder.BucketIsCands` | XSB/emu/biassert.c:1701-1739 | In every record of the chosen level the bucket of the key holds exactly the candidates below that record, in clause order |
| `IndexOrder.NextSibling` | XSB/emu/biassert.c:1853-1868 | The record after s on its chain has exactly the clauses that follow those below s and precede everything else |
| `ClauseWalk.FindUsableIndex` | XSB/emu/biassert.c:1807-1824 | Picks the first index of the specification that the call instantiates, or none, and goes down to its record; it leaves the records only if the index cannot be walked from there, and reads a released word exactly when it stops at a failed record |
| `ClauseWalk.SkipFailed` | XSB/emu/biassert.c:1859-1862 | The loop that steps over failed records ends at a record that has not failed without passing a clause, or runs off the end of a chain whose last record has failed; it reads a released opcode exactly when it passes a failed record |
| `ClauseWalk.NextSob` | XSB/emu/biassert.c:1853-1868 | Steps to the next record of the chosen level across parents and over failed records, so that no candidate lies in between; tells exactly when a failed record takes it out of the index, and exactly when it has read a word of a failed record that was given back |
| `ClauseWalk.FirstClauseSob` | XSB/emu/biassert.c:1873-1883 | Finds the first candidate in a record or after it, or reports that there is none; leaves the records only if what comes before that cannot be walked, and reads a released word exactly when it passes a failed record |
| `ClauseWalk.FirstClref` | XSB/emu/biassert.c:1885-1908 | Returns the first candidate in clause order, or none exactly when there is no candidate, with failed records anywhere; it leaves the records only if the index is not walkable, and reads a released word exactly when there are fewer failed records ahead afterwards than at the beginning |
| `ClauseWalk.NextClref` | XSB/emu/biassert.c:1910-1969 | From a candidate, returns the next candidate in clause order, or none exactly when it was the last, with failed records anywhere; it leaves the records only if what follows the clause is not walkable, and reads a released word exactly when it passes a failed record |
| `ClauseWalk.Enumerate` | XSB/emu/biassert.c:1885-1969 | In every state that asserts and deletions can leave, failed records included, the two together enumerate, in clause order and without repetition, exactly the clauses of the unindexed list whose bucket equals the key's hash in their own record, as long as released opcodes keep their value, if and only if no chain that is walked ends in a failed record or begins with one that is entered unseen; they read released words if and only if a failed record lies on a chain that the walk passes |
| `IndexSelect.SelectedExactly` | XSB/emu/builtin.c:680-695 | A clause is enumerated if and only if its argument is a variable, in a table with one slot, or the 64 bit words of the two arguments leave the same remainder when divided by the size of the clause's table: integers modulo 2 to the 64, addresses of atoms and functors, 0 for [], one address for all lists |
| `IndexSelect.SelectedIntegers` | XSB/emu/biassert.c:1597-1604 | An integer key enumerates an integer argument if and only if the two are congruent modulo the size of the table, so that two different ones below that size never meet, and [] as if it were 0 |
| `IndexSmooth.SmoothNext` | XSB/emu/biassert.c:1860-1862 | Stepping to the next record: what follows can be walked if and only if it can be from there, and a failed record needs another one behind it |
| `IndexSmooth.SmoothDown` | XSB/emu/biassert.c:1807-1824 | Stepping down to the first record below: that one must not have failed where its opcode is not looked at |
| `IndexSmooth.CountIs` | XSB/emu/biassert.c:1859-1862 | The count of failed records on the way from the beginning is positive exactly when a failed record lies on a chain that the walk passes |
| `IndexSmooth.CleanWalkable` | XSB/emu/biassert.c:1859-1908 | Without such a record the index can be walked, and no released word is read |
| `ClauseWalk.PreviousClref` | XSB/emu/biassert.c:3077-3107 | Walks the list of all clauses backwards across records; it leaves the records if and only if the clause is the first of its leaf and a failed record comes before it on the way back |
| `ClauseWalk.SobToPrref` | XSB/emu/biassert.c:3470-3486 | Climbing from any record reaches the predicate |
| `ClauseWalk.ClrefToPrref` | XSB/emu/biassert.c:3490-3503 | Climbing from any clause reaches the predicate that owns it |
| `RetractSafety.ResumableOp` | XSB/emu/biassert.c:2140-2142 | A word can be the next alternative of a choice point exactly when its opcode says middle or last |
| `RetractSafety.Backtrack` | XSB/emu/biassert.c:2110-2132 | Resuming a choice point at an alternative tries exactly the clauses from there to the end of the chain, in order, and pushes no second choice point for the goal; it executes a released instruction exactly when a failed record is among them |
| `RetractSafety.MarkCpstackRetract` | XSB/emu/biassert.c:2185-2227 | The mark phase answers whether a choice point holds the clause itself and otherwise marks exactly the clauses that choice points hold |
| `RetractSafety.DetermineIfSafeToDelete` | XSB/emu/biassert.c:2928-2954 | Safe is answered exactly when no neighbour of the clause on any of its chains is marked |
| `RetractSafety.AlternativeKept` | XSB/emu/biassert.c:2846-2954 | After a deletion whose clause words were found safe, whether its records could be dropped or were left to fail, every alternative of every choice point is a word with a resumable opcode, and its remaining clauses are the same but for the deleted one |
| `RetractSafety.HazardExactly` | XSB/emu/biassert.c:2116-2124 | For a choice point at the clause after the deleted one, deletion makes it push a second choice point exactly when the deleted clause was the first of the chain |
| `RetractSafety.GoneRecord` | XSB/emu/biassert.c:2846-2911 | A record that disappears has lost its only clause, so no other clause loses its place |
| `RetractSafety.RecordsAre` | XSB/emu/biassert.c:2876-2898 | Exactly the records that held nothing but the clause are dropped or fail: dropped if neither they nor a record that would become first is marked, failed otherwise |
| `RetractSafety.FailedRest` | XSB/emu/biassert.c:2876-2898 | Which choice points come to a failed record after a deletion |
| `RetractSafety.RetractClause` | XSB/emu/biassert.c:3000-3033 | The clause is removed physically if and only if no choice point rests on it and none rests on the clause that stands right behind it where it is the first of a chain; then every choice point on the stack tries what it would have tried before, the clause excepted, and a record that only held the clause is dropped if that is safe and left to fail if it is not; exactly those choice points come to a failed record, and execute a released instruction, that did before or that come to a record on which a choice point rests and which only held the clause |
| `RetractSafety.RefusedExactly` | XSB/emu/biassert.c:2928-2954 | The tests by marks refuse exactly when some choice point rests on what stands right behind the clause on one of its chains; it may rest on a word of that clause on another chain |
| `RetractSafety.AlternativeGrows` | XSB/emu/biassert.c:1770-1801 | After an assert every alternative of a choice point is resumable still and tries what it would have tried, with at most new words behind that, and none for asserta |
| `RetractSafety.AssertClause` | XSB/emu/biassert.c:1770-1801 | assert beside live choice points: all of them stay resumable, so that a retract may follow, and none comes to a failed record that did not before |
| `RetractCalls.EnteredIs` | XSB/emu/emuloop.c:2963-2991 | Resuming at records of any level, a call with a key enters exactly the candidates of the key among the clauses the records hold: buckets at the level of its index, chains above |
| `RetractCalls.CallKept` | XSB/emu/biassert.c:2110-2132 | A resumed call with a key enters after a safe deletion what it would have entered, in order, the deleted clause excepted |
| `FailedRecords.FailsInPlace` | XSB/emu/biassert.c:2876-2890 | A record that held only the deleted clause and on which a choice point rests, or before a record on which one rests, fails in its place |
| `FailedRecords.FailedLast` | XSB/emu/biassert.c:1860-1862 | With a failed record at the end of the predicate's chain the index is not walkable for any key and every assertz reads released words |
| `FailedRecords.FailedBefore` | XSB/emu/biassert.c:3077-3107 | Going back from the first clause of a leaf behind a failed record reads released words |
| `FailedRecords.NothingBlocks` | XSB/emu/biassert.c:1770-1801 | As long as no record has failed no assert meets one |
| `FailedRecords.FailedRun` | XSB/emu/biassert.c:2846-2911 | Three asserts and two retracts beside two choice points on index records: afterwards no enumeration, no assert at either end and no step back is right, and both choice points come to a failed record |
| `Registers.GetIsFree` | XSB/emu/biassert.c:610-626 | A register is handed out exactly when one is left; it was not in use, all others keep their status, and its number fits a byte |
| `Registers.ReleaseFrees` | XSB/emu/biassert.c:628-643 | Releasing frees that register if its status allows it and no other |
| `Registers.Allocator.constructor` | XSB/emu/biassert.c:600-607 | After initialisation the argument registers and register 0 are permanently in use |
| `Registers.Allocator.RegGet` | XSB/emu/biassert.c:610-626 | The free list threaded through the status array is advanced as the specification says, or the error is reported |
| `Registers.Allocator.RegRelease` | XSB/emu/biassert.c:628-643 | The register is put in front of the threaded free list |
| `InstQueue.Queue.Push` | XSB/emu/biassert.c:529-538 | Appends at the top of the ring, and fails exactly when it is full |
| `InstQueue.Queue.Pop` | XSB/emu/biassert.c:540-548 | Takes the newest entry |
| `InstQueue.Queue.Rem` | XSB/emu/biassert.c:550-557 | Takes the oldest entry |
| `InstQueue.Queue.Add` | XSB/emu/biassert.c:559-570 | Prepends at the bottom, and fails exactly when the ring is full |
| `InstQueue.Queue.Rotate` | XSB/emu/biassert.c:572-579 | The entries added at the bottom end up on top, first added on top of all |
| `Moves.TargetIsNotSource` | XSB/emu/biassert.c:1042-1051 | Answers for the part of the queue between bottom and top only, so for nothing once top has wrapped |
| `Moves.SourceIsNotTarget` | XSB/emu/biassert.c:1053-1061 | The same for targets |
| `Moves.StepSound` | XSB/emu/biassert.c:1072-1115 | Before the ring wraps every turn keeps what is still to be loaded loadable; an original move goes back at most once, the last one never, and a move that went back is carried out |
| `Moves.RunIsParallel` | XSB/emu/biassert.c:1063-1115 | For at most 123 moves the emitted instructions, from any register contents, load every target with the old value of its source and change no other lasting register |
| `Moves.DbGenmvs` | XSB/emu/biassert.c:1072-1115 | The scheduler terminates; its instructions are equivalent to the simultaneous assignment, and it succeeds whenever one temporary per move is available |
| `MovesLimit.CycleFails` | XSB/emu/biassert.c:1042-1061 | With 124 or more argument registers a cycle of 124 is loaded wrongly, because the ring has wrapped and the scans see nothing |
| `MovesLimit.LimitIs123` | XSB/emu/biassert.c:457-469 | With n argument registers every list of n moves is carried out as if at once if and only if n is at most 123 |
| `MovesLimit.Frozen` | XSB/emu/biassert.c:1072-1115 | A target that has been loaded keeps its value to the end, wrapped or not |
| `HeadCode.ReduceList` | XSB/emu/emuloop.c:644-650 | getlist leaves the matching problem of the two parts, on every machine state |
| `HeadCode.ReduceStr` | XSB/emu/emuloop.c:636-642 | getstr leaves the matching problem of the arguments |
| `HeadCode.ReduceConstant` | XSB/emu/emuloop.c:613-634 | getcon, getnil and getnumcon decide an argument that is a constant |
| `HeadCode.ReduceSeen` | XSB/emu/emuloop.c:605-611 | gettval decides an argument that is a variable met before |
| `HeadCode.FreezeItem` | XSB/emu/biassert.c:681-686 | A variable argument met for the first time needs no code: the argument register is its register |
| `HeadCode.ReduceTVarTVar` | XSB/emu/emuloop.c:1087-1120 | The fused list instruction with two new variables solves the list problem completely |
| `HeadCode.UniConstant` | XSB/emu/emuloop.c:785-823 | unicon, uninil and uninumcon decide the next cell of a block |
| `HeadCode.UniSeen` | XSB/emu/emuloop.c:771-783 | unitval decides a cell that is a variable met before |
| `HeadCode.UniFresh` | XSB/emu/emuloop.c:718-729 | unitvar gives a new variable its register |
| `HeadCode.UniLater` | XSB/emu/emuloop.c:718-729 | unitvar keeps a compound cell for later without changing the problem |
| `HeadCode.UniNumList` | XSB/emu/emuloop.c:731-759 | The instruction that reads a cell, takes the list in it apart and checks a 16 bit number stands for the three it replaces |
| `HeadRegisters.LiveGet` | XSB/emu/biassert.c:610-626 | No register that a half compiled head depends on is ever handed out |
| `HeadRegisters.ArgsFixedGet` | XSB/emu/biassert.c:600-626 | No argument register is ever handed out |
| `HeadRegisters.LiveRelease` | XSB/emu/biassert.c:628-635 | Giving back the register of an item that has been taken apart frees nothing that is still needed |
| `HeadCompiler.Compiler.DbGenTopInst` | XSB/emu/biassert.c:803-838 | The code for one argument leaves exactly the matching problem of the arguments that follow; it succeeds whenever the registers left are as many as the symbols of the argument below its own, and fails only with no register left |
| `HeadCompiler.Compiler.DbGenTerms` | XSB/emu/biassert.c:841-897 | Taking the queued terms apart terminates and leaves an equivalent problem with nothing queued; it succeeds whenever enough registers are left for the terms queued, and fails only with no register left |
| `HeadCompiler.Compiler.DbGenBlock` | XSB/emu/biassert.c:871-887 | The cells of a structure are emitted in order and its compound cells are queued so that the first is taken apart next; the ring is never full before the registers are used up |
| `HeadCompiler.Compiler.DbGenInst` | XSB/emu/biassert.c:899-983 | The code for one cell leaves an equivalent problem, the fused list loop included; it succeeds whenever the registers left are as many as the symbols of the term |
| `HeadCompiler.Compiler.CompileHead` | XSB/emu/biassert.c:768-771 | Compiling all arguments yields code that matches exactly; it succeeds whenever the symbols below the arguments' own are no more than the registers left, for a fresh compiler whenever the arguments have at most 255 symbols together, and fails only with no register left |
| `HeadCompiler.LeftBound` | XSB/emu/biassert.c:600-626 | Never more than 255 registers less the number of arguments are left, so that the ring of 256 instructions cannot fill up first |
| `HeadCompiler.HeadExact` | XSB/emu/biassert.c:803-983 | On every ground call the code succeeds if and only if the head matches, and then every variable's register holds the subterm it matched |
| `HeadCompiler.Determined` | XSB/emu/biassert.c:803-983 | The matched subterms are unique |
| `Scc.SccSearch.XsbComputeScc` | XSB/emu/call_graph_xsb.c:1434-1477 | A recursive call numbers exactly what it newly reaches, leaves everything visited before alone, and completes components exactly when low equals dfn |
| `SccProof.LowerInv` | XSB/emu/call_graph_xsb.c:1459-1467 | Lowering low keeps it the number of a live node that is reachable |
| `SccProof.FinishLive` | XSB/emu/call_graph_xsb.c:1468-1476 | A node whose low is smaller is left to an older call in progress |
| `SccProof.PopInv` | XSB/emu/call_graph_xsb.c:1468-1474 | The nodes popped together are exactly one class of mutual reachability, edge-free nodes among them excepted |
| `SccProof.PopClass` | XSB/emu/call_graph_xsb.c:1468-1474 | What is popped together gets a number above those of all it reaches outside |
| `SccProof.PoppedCaller` | XSB/emu/call_graph_xsb.c:1468-1476 | An edge-free node that is popped with others was entered by one of them |
| `SccProof.StackRoom` | XSB/emu/call_graph_xsb.c:1446-1449 | The search stack never overflows |
| `Scc.GetIncrSccs` | XSB/emu/call_graph_xsb.c:1358-1431 | Nodes with edges are always classified exactly, every node is entered once, and the whole numbering is right if and only if no edge-free call is listed after a call that reaches it; what a call with edges reaches has a lower number unless the two reach each other; numbers are positive and, if the numbering is right, 1, 2 and so on; an edge-free call listed after a call that reaches it has the number of a call with an edge to it, and any other a number of its own |
| `Scc.Classified` | XSB/emu/call_graph_xsb.c:1434-1477 | The same about any state in which the whole list has been dealt with |
| `Scc.SinkAfterCaller` | XSB/emu/call_graph_xsb.c:1476 | A call listed before an edge-free call that it reaches: the two get the same number although they do not reach each other |
| `Scc.NumberedEdges` | XSB/emu/call_graph_xsb.c:1366-1386 | The table of positions carries exactly the edges of the calls, except that a call that is not listed reads as position 0 |
| `Scc.CountCalls` | XSB/emu/call_graph_xsb.c:1370-1402 | More nodes are filled in than there is room for if and only if the list has a call again that the hash table recognises; every repeated call but the first is recognised, the first one only by an entry with a position other than 0 |
| `Invalidate.ClosedOpen` | XSB/emu/call_graph_xsb.c:617-707 | When what depends on a deleted call is deleted too, the calls passed are the reachable valid ones |
| `Invalidate.FinishOk` | XSB/emu/call_graph_xsb.c:633-707 | When the stack is empty the search has passed exactly the calls reachable through valid calls and counted each of their edges once |
| `IncrGraph.CallGraph.DfsOutedges` | XSB/emu/call_graph_xsb.c:633-707 | The iterative search terminates, marks exactly the calls passed, a fact start excepted, and adds to each count, modulo 16384, the number of its predecessors passed; it fails only at a call passed whose table is not complete |
| `IncrGraph.CallGraph.InvalidateCall` | XSB/emu/call_graph_xsb.c:897-907 | Does nothing for a call that is deleted already, and otherwise the same with one more for the start |
| `IncrGraph.CallGraph.PropagateNoChange` | XSB/emu/call_graph_xsb.c:459-479 | Terminates on every graph, never raises a count, and revives a call only when its count reaches 0; begun by a call with any counts and marks, every edge of a call told is followed once and every call told has told on |
| `NoChange.SweepDone` | XSB/emu/call_graph_xsb.c:440-479 | Whatever the counts and marks were, the calls told are the least set closed under hearing as often as their count says; every count has gone down by what was heard, not below 0, and exactly the calls told have lost their mark |
| `NoChange.FollowTell` | XSB/emu/call_graph_xsb.c:470-474 | One step of a propagation in progress: the call whose count comes down to 0 is told once and has heard often enough from calls told before it |
| `NoChange.AffectedExactly` | XSB/emu/call_graph_xsb.c:617-707 | After an invalidation of a valid graph a call that was reached counts as affected if and only if the number of its predecessors reached, the start's own one included, is not a multiple of 16384 |
| `NoChange.WideOverflows` | XSB/emu/tries.h:665 | Sixteen thousand three hundred and eighty-four calls between a start and a last call: the last one is invalidated and its count is 0 |
| `NoChange.WideStays` | XSB/emu/call_graph_xsb.c:470-474 | In that graph the propagation never brings the last count down to 0: the call stays invalid though nothing has changed and there is no cycle |
| `NoChange.RestoredTold` | XSB/emu/call_graph_xsb.c:440-458 | With or without overflow everyone but the start is restored if and only if everyone but the start is told |
| `NoChange.RestoredExactly` | XSB/emu/call_graph_xsb.c:440-458 | When no count overflows, all calls but the start become valid again if and only if they affect each other in no cycle that avoids the start |
| `NoChange.RingStays` | XSB/emu/call_graph_xsb.c:440-458 | A call that affects two calls which affect each other: the two stay invalid although nothing has changed |
| `IncrGraph.CallGraph.UpdateUnchanged` | XSB/emu/call_graph_xsb.c:440-479 | Invalidation followed by propagation: whatever the counts, the calls restored are the least set closed under hearing often enough; without overflow everyone but the start is restored if and only if no such cycle exists |
| `CallEdges.CallGraphEdges.MakeCallNode` | XSB/emu/call_graph_xsb.c:178-203 | A new call has a fresh id and no edges; tables, lists and counts stay exact |
| `CallEdges.CallGraphEdges.AddCallEdge` | XSB/emu/call_graph_xsb.c:500-526 | Adds exactly that edge, on both sides, or nothing when it exists; tables and lists stay duals and all counts exact |
| `CallEdges.CallGraphEdges.DeleteOutedges` | XSB/emu/call_graph_xsb.c:285-339 | Takes the call out of the inedge lists of its targets, itself excepted, and counts every edge once |
| `CallEdges.CallGraphEdges.DeleteInedges` | XSB/emu/call_graph_xsb.c:239-280 | Exactly the table entries of the inedges, the call's own one excepted, are gone and counted; a missing one is reported if and only if some inedge lacks its counterpart |
| `CallEdges.CallGraphEdges.DeleteCallNode` | XSB/emu/call_graph_xsb.c:371-385 | Frees the call if and only if its count of outedges is 0 |
| `CallEdges.CallGraphEdges.Detach` | XSB/emu/tr_utils.c:4777-4779 | The three together reach neither of their two errors and leave the graph induced on the other calls, with duals and counts exact, even if the call has an edge to itself |
| `CallEdges.ShorterDual` | XSB/emu/call_graph_xsb.c:239-339 | Tables and lists without a call are duals again |
| `CallEdges.PairsGone` | XSB/emu/call_graph_xsb.c:239-339 | The number of edges lost is the number of outedges plus the number of inedges from other calls |
| `CallEdges.CountsGone` | XSB/emu/call_graph_xsb.c:239-339 | The 14 bit counts of outedges are exact again, and that of the call itself is 0 |
| `LazyCalls.Scheduler.DfsInedges` | XSB/emu/call_graph_xsb.c:847-894 | Terminates on cyclic graphs, keeps the list sorted and without duplicates, and puts the call in front of all it needs |
| `LazyCalls.Scheduler.CreateLazyList` | XSB/emu/call_graph_xsb.c:847-894 | The list has exactly the calls, facts excepted, that the root needs by way of affected calls not yet scheduled; these and no others become scheduled, choice points are taken off exactly the tables met on the way, and an error is reported if and only if a table is met that is not completed |
| `LazyCalls.LeaveLazy` | XSB/emu/call_graph_xsb.c:889-892 | A finished call goes in front of every call it needs, unless the two need each other |
| `LazyCalls.WantedDone` | XSB/emu/call_graph_xsb.c:872-888 | Nothing that is needed is left out |
| `LazyCalls.MetExactly` | XSB/emu/call_graph_xsb.c:858-866 | The tables that nobody reads any more are those of the root and of the affected calls that the calls scheduled depend on; all others are read as before |
| `LazyCalls.DependenciesLast` | XSB/emu/call_graph_xsb.c:482-489 | A call on the list that does not depend on a caller of its own comes after all its callers, so that the reversed list has dependencies first |
| `FreeVariables.UnscopedExactly` | XSB/emu/builtin.c:981-1035 | The variables collected are those with an occurrence that no scope on its path hides |
| `FreeVariables.UnscopedPlain` | XSB/emu/builtin.c:1001-1009 | Without existential scoping all variables are collected |
| `FreeVariables.FirstsOrdered` | XSB/emu/builtin.c:987-994 | They are listed in the order of their first occurrences |
| `FreeVariables.StartExactly` | XSB/emu/builtin.c:2501-2525 | The start list is accepted if and only if its elements are distinct variables and it ends in [] or in one of its own elements |
| `ExcessVars.Engine.Deref` | XSB/emu/deref.h:42-47 | Follows references to the end, where a variable bound for the moment reads as [] |
| `ExcessVars.Engine.UndoLtrailBindings` | XSB/emu/builtin.c:846-850 | Unbinds exactly the variables trailed after the mark |
| `ExcessVars.Engine.CountVariableOccurrences` | XSB/emu/builtin.c:915-945 | Counts the variable occurrences of a term |
| `ExcessVars.Engine.MakeGround` | XSB/emu/builtin.c:949-978 | Binds the variables of the term to [] and trails those that were free, in the order of their first occurrences; a cell that is no argument is read if and only if the term holds a structure without arguments |
| `ExcessVars.Engine.ExcessVars` | XSB/emu/builtin.c:981-1035 | Appends to the list under construction exactly the variables neither hidden nor listed, in the order of their first occurrences, and leaves hidden variables as it found them; fails to do so if and only if a hiding first argument holds a structure without arguments |
| `ExcessVars.Engine.ScopedVars` | XSB/emu/builtin.c:1001-1018 | The variables of the first argument of ^, setof and bagof are hidden from the others and free again afterwards, with the same exception |
| `ExcessVars.LeaveScope` | XSB/emu/builtin.c:1006-1016 | Undoing the scope's trail frees what the scope alone had bound, and keeps bound what is listed |
| `ExcessVars.Engine.StartVars` | XSB/emu/builtin.c:2500-2525 | Lists and binds the start variables, or stops at the first element that is not a new variable |
| `ExcessVars.Engine.ExcessVarsBuiltin` | XSB/emu/builtin.c:2487-2531 | An answer is a proper list of the excess variables and leaves every cell of the heap as it was; a type error is reported exactly for start lists that are not accepted, and leaves the start variables read so far bound; otherwise there is an answer if and only if no structure without arguments is grounded and the variables fit the local trail |
| `ExcessVars.ArgumentZero` | XSB/emu/builtin.c:949-978 | What is read as argument of a structure without arguments is its functor cell, which is no term |
| `ExcessVars.ExcessExactly` | XSB/emu/builtin.c:2487-2531 | The result is the start list followed by the variables with an unhidden occurrence that are neither in the template nor in the start list, each once, ordered by first occurrence |
| `DepLists.FindTid` | XSB/emu/conc_compl.c:22-31 | Finds the entry of a thread, or none exactly when it is not listed |
| `DepLists.CheckInsSubg` | XSB/emu/conc_compl.c:42-63 | The list covers the subgoal afterwards, keeps one entry per thread and everything it covered, and reports a change exactly when the subgoal was not covered; it fails exactly when a new thread does not fit |
| `DepLists.PropagateDeps` | XSB/emu/conc_compl.c:109-130 | All uncompleted dependencies of the blocked thread are accounted for: own ones by the leader, others by the list; it fails only at a dependency on a new thread that does not fit |
| `UpdateDeps.HandleDep` | XSB/emu/conc_compl.c:158-173 | One entry is inserted, its counter set and, for a blocked thread, its dependencies propagated; what was settled stays settled; it fails only if there are more threads than a list has room for |
| `UpdateDeps.UpdateDeps` | XSB/emu/conc_compl.c:144-177 | Terminates with one entry per thread, covering all original entries and closed under the uncompleted dependencies of every blocked thread listed; busy exactly when some listed thread is not blocked; the leader is as old as every own subgoal reached, and nothing is listed without a reason; it fails only if there are more threads than a list has room for |
| `UpdateDeps.TooMany` | XSB/emu/conc_compl.c:48-53 | A list of one entry per thread that is full lists that many threads besides the new one |
| `ConcCompletion.Completion.MayHaveAnswers` | XSB/emu/conc_compl.c:188-212 | Answers whether some member of the set has recorded a counter that is out of date |
| `ConcCompletion.Completion.CheckForSCC` | XSB/emu/conc_compl.c:226-257 | Answers whether every listed thread has a leader old enough and lists the same threads |
| `ConcCompletion.Completion.CompleteOtherThreads` | XSB/emu/conc_compl.c:259-274 | Completes the parts of the stacks of the listed threads, from their leaders on, all of them and nothing else, and flags exactly these threads |
| `ConcCompletion.Completion.CheckComplete` | XSB/emu/complete_xsb_i.h:74-131 | One round of the protocol: in every reachable state, when the set is completed all others in it are blocked, their dependencies stay inside, their leaders cover what is depended on, all counters are current, and exactly the own subgoals from the leader on and the parts of the others are completed; the set is completed if and only if nobody listed is busy and the checks pass, and the thread blocks in exactly the other cases; too many dependencies are reported only if there are more threads than a list has room for |
| `ConcCompletion.Completion.CompleteSet` | XSB/emu/complete_xsb_i.h:105-116 | If and only if no counter is out of date and every listed thread has a leader old enough and the same list, exactly the subgoals of the thread from its leader on and those in the parts of the listed threads are completed; otherwise nothing changes |
| `ConcCompletion.ChecksPassed` | XSB/emu/complete_xsb_i.h:105-116 | The three checks together imply that the set may be completed |
| `ConcCompletion.AllSettled` | XSB/emu/conc_compl.c:259-325 | After completion no subgoal that any member of the set depends on is left incomplete |
| `ConcCompletion.Completion.SchedExternal` | XSB/emu/conc_compl.c:331-344 | A running thread that meets an incomplete subgoal of another thread lists it and changes nothing else, and fails to only if there are more than 256 threads |
| `ConcCompletion.Completion.Wake` | XSB/emu/complete_xsb_i.h:124-130 | A thread that wakes up learns whether it was completed by another |
| `TrailCut.Machine.PushFrame` | XSB/emu/binding.h:72-119 | A frame pushed before a protected cell is overwritten keeps every choice point restorable |
| `TrailCut.Machine.Bind` | XSB/emu/binding.h:121-130 | A free cell is bound; a frame is pushed if and only if the cell was there when the newest choice point was made |
| `TrailCut.Machine.BindPreImage` | XSB/emu/binding.h:96-130 | The same for a cell that may hold something, with a frame that keeps what it held |
| `TrailCut.Machine.PushChoicePoint` | XSB/emu/choice.h:80-92 | A choice point protects all cells there are: the heap below its top and the environments from the top one up |
| `TrailCut.Machine.NewHeapCell` | XSB/emu/binding.h:120-121 | A new heap cell belongs to no choice point, and all of them can be restored as before |
| `TrailCut.Machine.Deallocate` | XSB/emu/binding.h:120-121 | Environments newer than the newest choice point may be given up; no frame is for one of their cells |
| `TrailCut.Machine.Backtrack` | XSB/emu/sw_envs.h:93-101 | Undoing the trail to the newest choice point gives exactly the cells that there were when it was made, each with what it held, after any run of the other operations |
| `TrailCut.Machine.UnwindTrail` | XSB/emu/cut_xsb.h:191-206 | In place: the frames up to the bound are kept, and above it exactly the conditional ones, in order |
| `TrailCut.Machine.Cut` | XSB/emu/cut_xsb.h:122-151 | A cut changes no cell and keeps, in order, the frames at or below the cut point and those above it for cells that were there when its choice point was made; every remaining choice point can still be restored |
| `TrailCut.TestIs` | XSB/emu/binding.h:120-121 | For a cell of the two stacks the trail test tells whether it was there when the choice point was made |
| `TrailCut.FramesThere` | XSB/emu/binding.h:120-126 | Every frame on the trail is for a cell that was there when the choice point below it was made, so none for a cell newer than all of them |
| `TrailCut.CutRestores` | XSB/emu/cut_xsb.h:186-206 | Dropped frames belong to cells that no remaining choice point protects |
| `TrailSpec.UndoFiltered` | XSB/emu/binding.h:219-231 | Frames that do not belong to a cell can be left out without changing what undoing gives it |
| `TrailCut.CutExactly` | XSB/emu/cut_xsb.h:122-151 | Frames between the two choice points are conditional for the lower one already |
| `Deadlock.WaitTable.WouldDeadlock` | XSB/emu/deadlock.c:22-36 | The walk ends in every reachable state and answers true exactly when the new wait would close a cycle |
| `Deadlock.WaitTable.NeedTable` | XSB/emu/bineg_xsb_i.h:139-163 | The recorded waits never form a cycle: a thread waits only when that closes none, and otherwise leads |
| `Deadlock.WaitTable.ResetOtherThreads` | XSB/emu/deadlock.c:118-140 | After a reset every other thread of the would-be cycle waits directly for the leader and nobody else is touched |
| `Deadlock.NoCycle` | XSB/emu/deadlock.c:22-36 | Waits that go down in rank have no cycle |
| `Deadlock.RaisedRanks` | XSB/emu/bineg_xsb_i.h:147-155 | A wait that closes no cycle leaves the waits rankable |
| `Deadlock.CompressedRanks` | XSB/emu/deadlock.c:118-140 | Breaking a cycle leaves the waits rankable, even if the leader's own record is stale |

## Left out

- RetractSafety.RetractClause: logical deletion is left out. The code first makes the clause's entry fail (mark_for_deletion, biassert.c:3005), so that it is never executed again, and when the clause cannot be removed it inserts a DelCF frame for a later collection; the model says only when the clause is removed and what chains, words and choice points are then. The flag for clause garbage collection, the bound on the size of the choice point stack, incomplete tables and shared predicates, all of which postpone the removal, are left out as well.
- ClauseStore.DynPred.ReallyDeleteClause: a record that has been unlinked and given back is kept in the map of records, marked as failed; it is on no chain and never read.
- ClauseStore.DynPred.DbAddBuff: adds index records only; the same function adds clauses that are not indexed, which the model leaves out.
- ClauseStore.DynPred.DeleteFromSobChain: removes index records only, for the same reason.
- ClauseWalk.NextClref: from an indexed clause; clauses that are not indexed are left out.
- Moves.RunIsParallel: for lists that keep the ring from wrapping; for longer ones see MovesLimit.LimitIs123.
- Moves.DbGenmvs: the same.
- HeadCompiler.Compiler.CompileHead: a variable that occurs a million times in a head is not modelled, because freeze_var counts down from 1000000.
- ConcCompletion.Completion.CheckComplete: signals are not modelled, a blocked thread may wake at any time; what batched completion does when there are no dependencies is not part of this model.
- TrailCut.Machine.PushChoicePoint: the environment register of a choice point is the lowest environment cell in use; how the engine finds that cell from the current environment is not modelled.
- TrailCut.Machine.Cut: choice points of tabled predicates and attributed variable interrupts during a cut are not modelled.
- Joint and deep indexes, floats, interned terms and attributed variables: they add cases to the hash function and the compiler without changing the arguments.
- Predicates that mix indexed and unindexed clauses, trie-asserted clauses and tables: one list of single-argument indexes per predicate is assumed, as the table size is recomputed after hashing otherwise.
- Byte layout of clauses, buffer growth, structure managers, profiling and mutex macros; words and records are maps from addresses.
- The high bit that marks a clause is a set of marked clauses; choice points of other predicates are not on the modelled stack.
- Clause garbage collection through DelCF frames and retractall.
- Body compilation (db_genaput and the bld instructions); only the moves at its end are modelled. WRITE mode of the uni instructions, which runs only for calls that are not ground.
- LazyCalls.Scheduler.DfsInedges: find_the_visitors is modelled only as setting the number of visitors to 0; its work on choice points depends on code that is not part of this model.
- CallEdges.CallGraphEdges.DeleteOutedges: a hash table is a set, in no particular order; the search and invalidation modules take its order as given and its edges as fixed. deallocate_previous_call is left out.
- ExcessVars.Engine.ExcessVarsBuiltin: what happens after a cell that is no term has been read or a local trail has run over; the trail for hidden variables is not bounded; the unification of the answer with the last argument, attributed variables and floats.
- Frozen stack segments (`trfreg`, `hfreg`, `efreg`) and overflow of the trail.
- Restoring the stacks of a reset thread; only the waits are modelled.
- The list builders of the call graph and the other builtins.
