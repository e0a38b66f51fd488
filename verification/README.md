# The power arbiter, modelled and proved in Dafny

The power arbiter is a daemon that gives each user id (UID) an energy reserve.
It keeps one record a UID in an intrusive hash table, moves removed records to a
dead list, has a reaper thread put the reserves of dead records, and answers
clients over a stream socket. This project models its three layers.

**The hash table** (`BucketTable`, `ChainPolicy`, `Bloom`, `UtHash`, `HashRuns`,
`HashFsck`, `HashSort`, `StableMerge`, `Jenkins`, `JenkinsValues`, with arithmetic in
`Words`). Elements are objects that carry both kinds of links, the table is a class
over an array of buckets, and the hash function is an arbitrary function of the key.
`UtHash.Hash.Valid` is the invariant of every operation. `HashFsck` is the table's
own integrity check, over arbitrary heaps.

**The database and the life cycle of a reserve** (`CircularList`, `Dbase`,
`Controller`, `Arbiter` on objects; `ArbiterSpec`, `ArbiterInvariant`,
`ArbiterRuns`, `ReaperPass`, `WrittenRuns`, `ReserveLog`, `Interference`, `TapSource`,
`UidMap` on values). `Database` joins the hash table, the dead list and the records.
Each of its methods is proved to do to the objects what `ArbiterSpec` says of values,
and the properties of whole runs are proved about those values. `Arbiter.RunAll` is
where the two meet.

**The threads and the protocol** (`Concurrency`, `Shutdown`, `Session`, `Frames`,
`Protocol`). Clients and reaper interleave one step at a time under the two mutexes;
the reaper and the shutdown thread interleave in `Shutdown`; `Session` takes requests
from a stream that the socket cuts as it likes, `Frames` says which bytes are which
request, and `Protocol` what the answers, byte by byte, tell a client.

## What is assumed

- Kernel calls are parameters: each takes a reply, and a call whose reply is an
  error changes nothing. New ids are ones the kernel is not using. Other processes
  cannot touch a reserve only the arbiter uses, nor a tap into a reserve it uses
  (`ArbiterRuns.Environment`), and may otherwise move at any time, also between the
  calls of one request (`Interference`). User counts are true where
  `ArbiterInvariant.CountsTrue` says so.
- The comparison given to the sort is a pure function of the elements.
- The code waits for clients on a counter that nothing increments (init.c:77-87).
  `Shutdown` has a flag for whether the wait waits; the clean-shutdown theorems do
  not use it, and say instead how late a client may add a record.

## Where the code falls short of its intent

- `reserveDataDBClearUnused` never unlinks the records it destroys
  (dbase.c:209-227). The model unlinks them, as the comment at dbase.c:173-175 and
  the test at dbase.c:229 intend. `ReaperPass` and `WrittenRuns` say what the loop
  as it is does. A record without a reserve is destroyed anew by every pass. A
  created one is put again by every pass that lets it go, which a true count does
  only when its reserve id is in use again (`NotAnew`). If that use is a live
  record's, the pass takes the live record's reserve (`ReissuedIsTaken`,
  `LiveReserveTaken`); short of that, reserves are conserved (`WrittenConserves`).
- The reaper leaves on any error of its last pass (main.c:73-75), which trips the
  assertion of the final destroy. `Shutdown.CleanWithoutLateAdds` says exactly when
  the shutdown is clean.
- The error of a pass is that of its last user count; earlier errors are
  overwritten (dbase.c:219). `ReaperPass.PassFails` says exactly when a pass fails,
  and `ReaperPass.EarlierErrorLost` is a failure it forgets.
- A tap value is 64 bits wide but the kernel call takes a 32-bit `long` on the
  ARM target (syscall.c:16-20). `ArbiterRuns.TapCoherence` gives the exact
  condition under which the tap has the recorded rate.
- `reserveRecordDestroy` puts the reserve but does not delete the tap
  (dbase.c:170-191): `ReaperPass.TapsOutliveRecords`.
- A client told PA_UID_NOT_FOUND or PA_BAD_PERMISSIONS by a set may be seeing the
  kernel's refusal of a rate (client.c:157-172). `Protocol.SetAnswered` says
  exactly when, for any reply.
- Through the wrappers of syscall.c a refused call returns -1, which is -EPERM, and
  the call for the root reserve never reports an error (syscall.c:57-66). So the
  error path for the root reserve (controller.c:17-22) is modelled but not reached,
  and some replies the model allows do not occur: `Protocol.Wrapped`,
  `SetAnsweredWrapped`, `RootRefusedIsAnswered`.
- `reserveDataDBEmpty` takes no mutex (dbase.c:27-43). In `Shutdown` it moves one
  record a step, between steps of the reaper.
- `reserveDataDBReadLock` and the comments about a write mode suggest a
  readers-writer lock; there is one mutex (dbase.c:240-246), and the model has one.

## Model

| member | source | states |
|---|---|---|
| BucketTable.Table.constructor | CinderUserspace/PowerArbiter/uthash.h:128-145 | A new table has 32 empty buckets, no items, no expansion behind it, an empty Bloom filter when one is configured, and satisfies the whole table invariant. |
| BucketTable.PushFront | CinderUserspace/PowerArbiter/uthash.h:650-656 | Pushing a handle puts it at the front of its own chain with both link directions right, and leaves every other bucket, chain and back-off multiplier alone. |
| BucketTable.DeleteInBucket | CinderUserspace/PowerArbiter/uthash.h:664-674 | Unlinking removes exactly that handle from its chain, wherever it stands in it, and leaves every other bucket and chain alone. |
| BucketTable.Table.ToBucket | CinderUserspace/PowerArbiter/uthash.h:175-178 | The masked hash value is the hash value modulo the number of buckets. |
| BucketTable.IdealLength | CinderUserspace/PowerArbiter/uthash.h:687-703 | The shift-and-mask form is the least integer not below items / (2 * buckets), and is positive, so the divisions by it are safe. |
| Words.ShiftCeilIsCeiling | CinderUserspace/PowerArbiter/uthash.h:716-718 | The same, for every item count and every power of two. |
| BucketTable.SplitMembers | CinderUserspace/PowerArbiter/uthash.h:720-738 | What a new bucket receives from an old chain is exactly the elements of that chain that hash to it. |
| BucketTable.RedistributedStep | CinderUserspace/PowerArbiter/uthash.h:723-737 | Moving one more handle extends the redistribution by that handle and breaks nothing moved before. |
| BucketTable.LocatedAfter | CinderUserspace/PowerArbiter/uthash.h:705-743 | After a redistribution every element is in the chain its hash value selects: none is lost. |
| BucketTable.MoveOne | CinderUserspace/PowerArbiter/uthash.h:728-737 | One handle joins its new bucket; count, multiplier (count / ideal when over, else 0) and links are right, and the over-ideal test is reported. |
| BucketTable.MoveStep | CinderUserspace/PowerArbiter/uthash.h:725-738 | One turn of the inner loop keeps the links of everything still to be moved. |
| BucketTable.MoveChain | CinderUserspace/PowerArbiter/uthash.h:723-739 | The inner loop moves one whole old chain, following the links it overwrites. |
| BucketTable.Redistribute | CinderUserspace/PowerArbiter/uthash.h:705-740 | New chain j is the reverse of the part of old chain (j mod n) that hashes to j among 2n; total count, excess over the ideal length and every multiplier are exact. |
| BucketTable.HistoryStep | CinderUserspace/PowerArbiter/uthash.h:744-749 | One more expansion keeps: expansion is off exactly when the last two were both ineffective. |
| BucketTable.Table.Install | CinderUserspace/PowerArbiter/uthash.h:741-749 | The final assignments double the bucket count, step its logarithm, and keep the history of ineffective expansions exact. |
| BucketTable.Table.Expand | CinderUserspace/PowerArbiter/uthash.h:705-751 | An expansion redistributes every chain exactly, sets the ideal length to the ceiling, counts the non-ideal items exactly and records whether it was ineffective. |
| BucketTable.Table.PushToBucket | CinderUserspace/PowerArbiter/uthash.h:651-656 | Before the test for an expansion: the chain of the bucket grows at the front by the new handle, and only it. |
| BucketTable.Table.AddToBucket | CinderUserspace/PowerArbiter/uthash.h:650-661 | Adding expands exactly when the bucket is due and expansion is allowed, and keeps the bucket invariant, the history and the chain-length bound either way. |
| BucketTable.Table.Insert | CinderUserspace/PowerArbiter/uthash.h:160-170 | From the counting of the item on, HASH_ADD keeps the whole table invariant for the elements with the new one. |
| BucketTable.Table.DropFromBucket | CinderUserspace/PowerArbiter/uthash.h:664-674 | Deletion drops the element from the one chain it is in. |
| BucketTable.Table.Remove | CinderUserspace/PowerArbiter/uthash.h:219-221 | The bucket half of HASH_DELETE keeps the whole table invariant for the elements without the deleted one. |
| BucketTable.Table.Lookup | CinderUserspace/PowerArbiter/uthash.h:636-647 | The bucket search finds the element under the key if the table has one, and NULL exactly when it has none. |
| ChainPolicy.RoomAfterExpand | CinderUserspace/PowerArbiter/uthash.h:728-732 | A redistributed bucket meets the bound count <= 10 * (mult + 1), and its room beyond 9 is paid for by its items. |
| ChainPolicy.BackOffBudget | CinderUserspace/PowerArbiter/uthash.h:728-732 | The multipliers an expansion grants, plus the buckets that are full without one, number at most the buckets. |
| ChainPolicy.ExpandRestoresBound | CinderUserspace/PowerArbiter/uthash.h:728-749 | Every expansion re-establishes the potential bound: room over all buckets at most 19 per bucket. |
| ChainPolicy.PushKeepsBound | CinderUserspace/PowerArbiter/uthash.h:652-660 | An addition that does not expand keeps the bound. |
| ChainPolicy.DropKeepsBound | CinderUserspace/PowerArbiter/uthash.h:664-665 | A deletion keeps the bound. |
| ChainPolicy.ItemsBounded | CinderUserspace/PowerArbiter/uthash.h:650-661 | Under the bound there are at most 19 items per bucket. |
| ChainPolicy.IdealBounded | CinderUserspace/PowerArbiter/uthash.h:716-718 | The ideal chain length of any expansion is between 1 and 10. |
| UtHash.Hash.ChainsBounded | CinderUserspace/PowerArbiter/uthash.h:676-682 | While expansion is allowed no chain of any valid hash is longer than 10 * (mult + 1) and there are at most 19 items a bucket; the ideal length never exceeds 10. |
| Bloom.SetBitAt | CinderUserspace/PowerArbiter/uthash.h:112-113 | Setting one bit of the byte vector changes that bit and no other. |
| Bloom.Filter.constructor | CinderUserspace/PowerArbiter/uthash.h:98-105 | A new filter answers no for every hash value. |
| Bloom.Filter.Add | CinderUserspace/PowerArbiter/uthash.h:115-116 | After an addition the filter answers yes for exactly the old yeses and the values that share the added bit; every index is inside the vector. |
| Bloom.Filter.Test | CinderUserspace/PowerArbiter/uthash.h:118-119 | The test answers whether the bit is set. |
| UtHash.LinkLast | CinderUserspace/PowerArbiter/uthash.h:161-163 | Linking after the tail extends the application order by one at the end. |
| UtHash.Unlink | CinderUserspace/PowerArbiter/uthash.h:203-218 | The patch-up of the application order removes one element, with head, tail and both neighbours right in every position. |
| UtHash.Hash.Append | CinderUserspace/PowerArbiter/uthash.h:150-164 | The application-order half of HASH_ADD, from a NULL head too. |
| UtHash.Hash.Find | CinderUserspace/PowerArbiter/uthash.h:82-93 | HASH_FIND returns the element under the key, or NULL exactly when there is none, for any hash function and with or without a Bloom filter. |
| UtHash.Hash.Add | CinderUserspace/PowerArbiter/uthash.h:150-173 | HASH_ADD appends the element to the application order and keeps every invariant, across any expansion it triggers. |
| UtHash.Hash.Delete | CinderUserspace/PowerArbiter/uthash.h:192-225 | HASH_DELETE removes exactly the element from the application order, keeps every invariant, and leaves a NULL head exactly when it was the last. |
| HashRuns.Perform | CinderUserspace/PowerArbiter/uthash.h:82-93 | Each operation acts on the content as one map operation, and answers what the map holds. |
| HashRuns.Run | CinderUserspace/PowerArbiter/uthash.h:147-225 | Every sequence of finds, fresh-key additions and deletions from a NULL head, across any number of expansions, answers as the map from keys to elements does. |
| HashFsck.WalkChain | CinderUserspace/PowerArbiter/uthash.h:257-270 | The walk of a chain ends on every finite heap, corrupt or cyclic, and says whether a well-linked chain starts there. |
| HashFsck.WalkApp | CinderUserspace/PowerArbiter/uthash.h:281-294 | The same for the application order. |
| HashFsck.CheckBuckets | CinderUserspace/PowerArbiter/uthash.h:256-280 | The bucket half of the check accepts exactly the heaps that meet its clauses. |
| HashFsck.Fsck | CinderUserspace/PowerArbiter/uthash.h:249-299 | The executable check accepts exactly the heaps for which some chains and some order meet all its clauses. |
| HashFsck.ValidPasses | CinderUserspace/PowerArbiter/uthash.h:249-299 | Every hash that the operations can build meets all clauses of the check. |
| HashFsck.ValidClosed | CinderUserspace/PowerArbiter/uthash.h:249-299 | The pointers of such a hash stay among its elements, as the check needs. |
| HashFsck.CheckHash | CinderUserspace/PowerArbiter/uthash.h:249-299 | So the executable check answers yes on every hash that the operations can build. |
| HashSort.MergeRuns | CinderUserspace/PowerArbiter/uthash.h:788-822 | The inner merge emits, in place, the merge of two adjacent runs, left first on ties. |
| HashSort.Advance | CinderUserspace/PowerArbiter/uthash.h:780-787 | Stepping off a run counts it and finds the next one, or the end of the list. |
| HashSort.SortPass | CinderUserspace/PowerArbiter/uthash.h:771-824 | One pass merges the runs pairwise and rebuilds prev and next of every element. |
| HashSort.SortList | CinderUserspace/PowerArbiter/uthash.h:764-831 | The outer loop ends, with the list relinked as the passes of doubling run length leave it. |
| HashSort.Sort | CinderUserspace/PowerArbiter/uthash.h:758-835 | HASH_SRT under any total preorder leaves a valid hash whose application order is a sorted and stable permutation of the old one; a NULL head stays NULL. |
| StableMerge.MergeStable | CinderUserspace/PowerArbiter/uthash.h:803-814 | Merging two sorted runs keeps the elements equivalent to any given one in their order. |
| StableMerge.PassesSort | CinderUserspace/PowerArbiter/uthash.h:767-831 | From runs of any length, the passes sort stably. |
| StableMerge.SortIsStable | CinderUserspace/PowerArbiter/uthash.h:758-835 | From runs of one, the passes give a sorted stable permutation. |
| StableMerge.StableSortUnique | CinderUserspace/PowerArbiter/uthash.h:758-835 | There is only one sorted stable permutation, so the sort is determined by its specification. |
| Jenkins.LineUndone | CinderUserspace/PowerArbiter/uthash.h:376-378 | Each line of HASH_JEN_MIX can be undone, given the other two words. |
| Jenkins.MixWords | CinderUserspace/PowerArbiter/uthash.h:374-385 | The assignments of HASH_JEN_MIX, in their order and with their shifts, compute the composition of three rounds that the proofs are about. |
| Jenkins.MixInvertible | CinderUserspace/PowerArbiter/uthash.h:374-385 | HASH_JEN_MIX is a bijection on triples of 32-bit words, with the inverse given. |
| Jenkins.MixInjective | CinderUserspace/PowerArbiter/uthash.h:374-385 | Different triples stay different through the mix. |
| Jenkins.PackInjective | CinderUserspace/PowerArbiter/uthash.h:395-403 | Four key bytes packed into a word, signed or unsigned, determine the bytes. |
| Jenkins.SumTail | CinderUserspace/PowerArbiter/uthash.h:410-423 | The fall-through switch adds exactly the remaining bytes, in place, for every length from 0 to 11. |
| Jenkins.HashJen | CinderUserspace/PowerArbiter/uthash.h:387-426 | The loop computes the recursive definition of the hash state, for keys of any length; the rows of JenkinsValues fix what that definition gives. |
| Jenkins.AbsorbInjective | CinderUserspace/PowerArbiter/uthash.h:394-405 | A block leads two different (state, block) pairs with one component equal to different states. |
| Jenkins.TailInjective | CinderUserspace/PowerArbiter/uthash.h:410-423 | The same for the tail. |
| Jenkins.FinalInjective | CinderUserspace/PowerArbiter/uthash.h:394-424 | What is still to be read never merges two different states. |
| Jenkins.OneBlockDifferenceSurvives | CinderUserspace/PowerArbiter/uthash.h:387-426 | From any state, keys of one length that differ in one 12-byte block, or only in the tail, end in different states. |
| Jenkins.HashesDiffer | CinderUserspace/PowerArbiter/uthash.h:387-426 | HASH_JEN itself leaves different (_hj_i, _hj_j, hashv) on such keys. |
| JenkinsValues.ElevenBytes | CinderUserspace/PowerArbiter/uthash.h:387-426 | The three words, as numbers, that a key of eleven bytes ends in: seeds, tail bytes, length and shifts all count. |
| JenkinsValues.ThirteenBytes | CinderUserspace/PowerArbiter/uthash.h:387-426 | The same for a key of one block and one more byte. |
| JenkinsValues.HighByte | CinderUserspace/PowerArbiter/uthash.h:419-423 | A byte with its top bit set counts as negative exactly where char is signed. |
| JenkinsValues.ZeroBytesDiffer | CinderUserspace/PowerArbiter/uthash.h:410 | A key, and the same key with zero bytes added inside its last block, end in different states, for every key and either signedness: the length counts. |
| CircularList.Init | CinderUserspace/PowerArbiter/list.h:29-31 | An initialised head is an empty ring. |
| CircularList.Add | CinderUserspace/PowerArbiter/list.h:57-60 | list_add puts the entry in front. |
| CircularList.AddTail | CinderUserspace/PowerArbiter/list.h:70-73 | list_add_tail puts the entry at the end. |
| CircularList.Del | CinderUserspace/PowerArbiter/list.h:93-98 | list_del removes exactly the entry and clears its links. |
| CircularList.DelInit | CinderUserspace/PowerArbiter/list.h:104-108 | list_del_init removes the entry and makes it an empty ring of its own. |
| CircularList.Move | CinderUserspace/PowerArbiter/list.h:115-119 | list_move takes the entry from its ring, the same or another, to the front. |
| CircularList.MoveTail | CinderUserspace/PowerArbiter/list.h:126-131 | list_move_tail takes it to the end. |
| CircularList.Empty | CinderUserspace/PowerArbiter/list.h:137-140 | list_empty answers whether the ring is empty. |
| CircularList.Splice | CinderUserspace/PowerArbiter/list.h:142-165 | Splicing puts all entries of one ring in front of another in order; the head spliced from is left as it was. |
| CircularList.SpliceInit | CinderUserspace/PowerArbiter/list.h:174-181 | list_splice_init also leaves the spliced head an empty ring. |
| CircularList.ForEachSafe | CinderUserspace/PowerArbiter/list.h:237-241 | The safe iteration visits each original entry once, in order, though its body may unlink the entry it is at, and what is left is the entries kept, in order. |
| Dbase.UidKeyInjective | CinderUserspace/PowerArbiter/dbase.c:84 | The bytes of a UID as hash key determine the UID. |
| Dbase.Database.constructor | CinderUserspace/PowerArbiter/dbase.c:3-25 | A new database has an empty hash, an empty dead ring and no records. |
| Dbase.Database.Lookup | CinderUserspace/PowerArbiter/dbase.c:248-263 | The lookup returns the one active record of the UID, or none exactly when there is none. |
| Dbase.Database.AddEntry | CinderUserspace/PowerArbiter/dbase.c:66-102 | An entry is refused with -EEXIST exactly when the UID is active; otherwise a new unmade record joins the active ones at the end. Hash, ring and records stay consistent. |
| Dbase.Database.Retire | CinderUserspace/PowerArbiter/dbase.c:122-124 | HASH_DELETE and list_add_tail together move one record from the hash to the end of the dead ring. |
| Dbase.Database.RemoveEntry | CinderUserspace/PowerArbiter/dbase.c:104-137 | Removal is refused with -ENOENT exactly when the UID is not active; otherwise exactly its record moves to the end of the dead list. |
| Dbase.Database.RetireEach | CinderUserspace/PowerArbiter/uthash.h:895-897 | The HASH_ITER that deletes what it visits ends, visiting each element once in application order. |
| Dbase.Database.Empty | CinderUserspace/PowerArbiter/dbase.c:27-43 | The hash ends NULL and the dead list is the old one followed by all active records in application order. |
| Dbase.Database.Unhook | CinderUserspace/PowerArbiter/list.h:93-98 | list_del on a record's dead link takes exactly that record off the dead ring; that the reaper calls it is the declared repair. |
| Dbase.Database.DestroyRecord | CinderUserspace/PowerArbiter/dbase.c:170-191 | Destroying a record puts its reserve when it was created. |
| Dbase.Database.ClearUnused | CinderUserspace/PowerArbiter/dbase.c:193-238 | The reaper's loop over the ring, with the declared unlinking, is the repaired pass on values; exactly the records that had to go are gone and logged, in order; emptiness is reported exactly, and the error is that of the last created record's count. |
| Dbase.Database.ClearUnusedAsWritten | CinderUserspace/PowerArbiter/dbase.c:193-238 | The same loop as it is written, without the unlinking, is the pass as written on values; the ring stays as it was. |
| Controller.MakeReserve | CinderUserspace/PowerArbiter/controller.c:53-128 | The creation sequence with its rollbacks leaves kernel and records as the value-level step does, on every path. |
| Controller.StatReserve | CinderUserspace/PowerArbiter/controller.c:3-151 | statReserve as a whole does what the value-level request does, every error path included. |
| Controller.GetTapParams | CinderUserspace/PowerArbiter/controller.c:153-200 | getTapParams returns the parameters of the active record, or -ENOENT exactly when there is none. |
| Controller.SetTapParams | CinderUserspace/PowerArbiter/controller.c:202-271 | setTapParams does what the value-level request does: nothing on any error, rate and record together otherwise. It is refused with PA_INVALID_INPUT exactly for a type other than 1 and 2, a negative value, or a value over 100 of type 2. |
| Controller.AddReserveParams | CinderUserspace/PowerArbiter/controller.c:273-302 | addReserveParamsForUID refuses exactly the same parameters before touching the database, and otherwise adds the entry. |
| Arbiter.Handle | CinderUserspace/PowerArbiter/client.c:318-384 | One event on the database of hash table, ring and records is that event on values; a pass appends to the log exactly the records that have to go, one a call, and no event brings a record back. |
| Arbiter.RunAll | CinderUserspace/PowerArbiter/controller.c:3-311 | After every run from start-up the real structures are consistent, stand for exactly the state the requests lead to, and that state satisfies the arbiter's invariant. The database's log of destroyed records is, in order, that of the calls of reserveRecordDestroy the run makes; no record is in it twice and none in it is still in the database. |
| ArbiterInvariant.AddKeeps | CinderUserspace/PowerArbiter/controller.c:273-302 | Adding keeps: one active record a UID, parameters legal, own reserve and tap for each made record, tap rates as recorded, reserves held exactly those of the records and the leaked ones. |
| ArbiterInvariant.RemoveKeeps | CinderUserspace/PowerArbiter/controller.c:304-311 | Removing keeps the same, and all records: one moves from the active to the dead. |
| ArbiterInvariant.SetKeeps | CinderUserspace/PowerArbiter/controller.c:202-271 | Setting keeps the same, whatever the kernel replies. |
| ArbiterInvariant.MakeKeeps | CinderUserspace/PowerArbiter/controller.c:53-128 | Creating a reserve and a tap keeps the same on every path. |
| ArbiterInvariant.StatKeeps | CinderUserspace/PowerArbiter/controller.c:3-151 | A stat keeps the same, whatever the kernel replies. |
| ArbiterInvariant.EmptyKeeps | CinderUserspace/PowerArbiter/dbase.c:27-43 | Emptying keeps the same, and all records. |
| ArbiterInvariant.FailedMakeRestores | CinderUserspace/PowerArbiter/controller.c:65-122 | A failed creation leaves the whole state as it was exactly when every undo call it needed went through. |
| ArbiterInvariant.FailedExposeKeeps | CinderUserspace/PowerArbiter/controller.c:130-136 | A refused expose keeps the new reserve and tap, on record and held. |
| ArbiterInvariant.PutOnlySoleUse | CinderUserspace/PowerArbiter/dbase.c:215-226 | A reserve is put by the reaper only when the arbiter is its one user. |
| ReaperPass.SweepSparesSharedReserves | CinderUserspace/PowerArbiter/dbase.c:208-227 | In a kernel that stands still during the pass and counts users truly, a pass takes nothing from any reserve that another process uses; Interference.SweepAmidKeeps is the statement for a kernel that moves. |
| ArbiterInvariant.SweepKeeps | CinderUserspace/PowerArbiter/dbase.c:193-238 | A pass of the reaper keeps the invariant. |
| ReaperPass.SweepDead | CinderUserspace/PowerArbiter/dbase.c:208-232 | A pass removes every destroyable record and keeps the rest in order. |
| ReaperPass.SweepDestroysExactly | CinderUserspace/PowerArbiter/dbase.c:208-227 | A pass is exactly one call of reserveRecordDestroy for each destroyable record, in order, and the unlinking of those records; nothing else happens to kernel or records. |
| ReaperPass.DestroyedOnce | CinderUserspace/PowerArbiter/dbase.c:193-238 | Over any number of passes each dead record is still on the list or was destroyed by exactly one call, and those calls account for everything done to the kernel. |
| ReaperPass.TapsOutliveRecords | CinderUserspace/PowerArbiter/dbase.c:170-191 | A pass deletes no tap: the tap of every record it destroys is still in the kernel. |
| ReaperPass.ErrorExactly | CinderUserspace/PowerArbiter/dbase.c:218-220 | The error a pass returns is that of the count for the last created record on the list, and 0 when no record is created. |
| ReaperPass.PassFails | CinderUserspace/PowerArbiter/dbase.c:218-237 | A pass returns an error exactly when that last count failed. |
| ReaperPass.EarlierErrorLost | CinderUserspace/PowerArbiter/dbase.c:218-220 | A pass over two records whose first count fails, with any error, returns 0 and keeps both. |
| ReaperPass.AsWrittenKeepsDead | CinderUserspace/PowerArbiter/dbase.c:208-227 | The pass as written never shortens the dead list. |
| ReaperPass.AsWrittenNeverEmpties | CinderUserspace/PowerArbiter/dbase.c:229-232 | So however many passes, a dead list that was not empty is never found empty. |
| ReaperPass.AsWrittenCalls | CinderUserspace/PowerArbiter/dbase.c:208-227 | Passes as written do exactly the calls of reserveRecordDestroy that their replies ask for, over the same list every time. |
| ReaperPass.AsWrittenDestroysAgain | CinderUserspace/PowerArbiter/dbase.c:208-227 | Among those calls a record is destroyed at least once for every pass, if every pass lets it go; a record without a reserve is let go by every pass. |
| ReaperPass.AsWrittenExactly | CinderUserspace/PowerArbiter/dbase.c:208-227 | Exactly: a record that occurs once on the list is destroyed by as many calls as passes let it go. |
| ReaperPass.AsWrittenAtMostOnce | CinderUserspace/PowerArbiter/dbase.c:208-227 | So it is destroyed at most once if and only if no two passes let it go. |
| WrittenRuns.PassIsWritten | CinderUserspace/PowerArbiter/dbase.c:208-227 | A pass with marks for the reserves it has put is the pass as written, and a mark is set exactly when the pass lets a created record go. |
| WrittenRuns.WrittenHeld | CinderUserspace/PowerArbiter/dbase.c:208-227 | A pass as written leaves held exactly the reserves held before but those of the created records on its list that it lets go, whoever has them now. |
| WrittenRuns.LiveReserveTaken | CinderUserspace/PowerArbiter/dbase.c:208-227 | So an active record loses its reserve to such a pass if and only if the pass lets go a dead record with the same reserve. |
| WrittenRuns.WrittenConserves | CinderUserspace/PowerArbiter/dbase.c:193-238 | In whole runs with the loop as written, the reserves held are exactly those of the active records and of the dead ones not yet put, all distinct, as long as puts go through and no record gets the reserve id of one on the dead list; counts may be wrong. |
| WrittenRuns.NotAnew | CinderUserspace/PowerArbiter/dbase.c:218-226 | A true count never lets go a record whose reserve id is not in use. |
| WrittenRuns.WrittenPutsOnce | CinderUserspace/PowerArbiter/dbase.c:170-191 | In such runs with true counts, and no reserve id of a dead record in use again in any hands, every put answers a creation not yet answered. |
| WrittenRuns.ReissuedIsTaken | CinderUserspace/PowerArbiter/dbase.c:208-227 | A run as written, with true counts, fresh ids and no refused put, after which a live record has no reserve: the id of a dead one, put before, was issued to it. |
| ArbiterRuns.WorldKeeps | CinderUserspace/PowerArbiter/syscall.c:16-44 | The assumed moves of other processes, of which the source shows only the arbiter's own calls, keep the invariant. |
| Interference.MakeAmidKeeps | CinderUserspace/PowerArbiter/controller.c:65-122 | Creation keeps the invariant on every path though other processes move before every one of its calls. |
| Interference.FailedMakeAmidRestores | CinderUserspace/PowerArbiter/controller.c:65-122 | A failed creation amid such moves leaves records and held reserves as they were when the put it needs goes through, and else leaks exactly the new reserve. |
| Interference.StatAmidKeeps | CinderUserspace/PowerArbiter/controller.c:3-151 | A whole stat amid such moves keeps the invariant. |
| Interference.SweepAmidKeeps | CinderUserspace/PowerArbiter/dbase.c:208-227 | A pass amid such moves keeps the invariant, whatever its counts say; when they are true, at every count the arbiter is a user, so the assertion on the count holds, and at every put it is the only one. |
| Interference.StillStat | CinderUserspace/PowerArbiter/controller.c:3-151 | A stat in a kernel that stands still is one of these, and does what the stat does. |
| Interference.StillSweep | CinderUserspace/PowerArbiter/dbase.c:208-227 | So is a pass in a kernel that stands still. |
| Interference.EveryLeadInv | CinderUserspace/PowerArbiter/controller.c:3-311 | Every run of such requests and passes keeps the invariant. |
| Interference.EveryScheduleInv | CinderUserspace/PowerArbiter/controller.c:24-150 | Under every schedule of clients and reaper, with other processes moving before any call, the free database and the kernel satisfy the invariant: the reserves held are those of the records and the leaked ones. |
| ArbiterRuns.StepKeeps | CinderUserspace/PowerArbiter/controller.c:3-311 | Every event keeps the invariant. |
| ArbiterRuns.EveryRunInv | CinderUserspace/PowerArbiter/controller.c:3-311 | Every run keeps the invariant. |
| ArbiterRuns.ReservesConserved | CinderUserspace/PowerArbiter/controller.c:53-136 | With the declared unlinking, after any run in which puts are not refused, the reserves held are exactly those of the records; each record with a reserve occurs once, and no two share a reserve or a tap. |
| ReserveLog.PutOnce | CinderUserspace/PowerArbiter/dbase.c:208-227 | With the declared unlinking, in the log of all creations and puts of any run from start-up, every put answers a creation not yet answered, and the reserves held and not leaked are exactly those created and not put back. |
| ReserveLog.NotPutTwice | CinderUserspace/PowerArbiter/dbase.c:170-191 | With the declared unlinking, no reserve id is put twice in any run unless it is created again in between. |
| ArbiterRuns.TapCoherence | CinderUserspace/PowerArbiter/controller.c:96-127 | After any run, each made record has its tap, to its own reserve and of its type; the tap's rate is the record's value modulo 2^32 as a signed number, and the value itself exactly when that is below 2^31. The type is 1 or 2, the value not negative, and at most 100 for type 2. |
| ArbiterRuns.TruncatedRate | CinderUserspace/PowerArbiter/syscall.c:16-20 | A run from start-up, in any kernel with two unused ids, after which a record says 2^32 and the rate of its tap is 0. |
| TapSource.MadeTap | CinderUserspace/PowerArbiter/controller.c:65-127 | A creation that goes through leaves the new reserve with the arbiter as its only user, a tap from the root reserve into it at the recorded type and rate, both on the record, and nothing else changed. |
| TapSource.GrantedUsers | CinderUserspace/PowerArbiter/controller.c:130-143 | A granted stat adds the asking process to the users of the granted reserve and touches the users of no other. |
| TapSource.TapDrawsFromRoot | CinderUserspace/PowerArbiter/controller.c:17-76 | After any run, each made record has the reserve and the tap of the stat that made it, for its UID, and the tap still draws from the root reserve that the kernel named in that stat. |
| TapSource.MadeTapAmid | CinderUserspace/PowerArbiter/controller.c:65-127 | A creation amid moves of other processes leaves the same tap, and the kernel otherwise as its last call found it. |
| TapSource.GrantedUsersAmid | CinderUserspace/PowerArbiter/controller.c:130-143 | A granted stat amid such moves leaves process and arbiter among the users of the granted reserve, which is on the record, and the kernel otherwise as its last call found it. |
| TapSource.TapDrawsFromRootAmid | CinderUserspace/PowerArbiter/controller.c:17-76 | After any run with other processes moving before any call, each tap draws from the root reserve named in the stat that made it. |
| UidMap.AddIsMapAdd | CinderUserspace/PowerArbiter/controller.c:273-302 | Seen through the map from UID to parameters, add is insertion of a fresh key, with each refusal exactly when due. |
| UidMap.GetIsMapGet | CinderUserspace/PowerArbiter/controller.c:153-200 | Get is map lookup. |
| UidMap.RemoveIsMapRemove | CinderUserspace/PowerArbiter/controller.c:304-311 | Remove is map removal, or -ENOENT exactly when the UID is absent. |
| UidMap.SetIsMapUpdate | CinderUserspace/PowerArbiter/controller.c:202-271 | Set is map update, with each refusal exactly when due. |
| UidMap.StatKeepsMap | CinderUserspace/PowerArbiter/controller.c:3-151 | Stat never changes the map, and answers "use the root reserve" exactly for absent UIDs once the root reserve is known. |
| UidMap.GrantIsUsable | CinderUserspace/PowerArbiter/controller.c:130-143 | A granted reserve is used by both the asking process and the arbiter, and is the one on the UID's record. |
| Concurrency.StepSafe | CinderUserspace/PowerArbiter/controller.c:24-150 | Every step of every thread keeps the lock and atomicity invariant. |
| Concurrency.Linearizable | CinderUserspace/PowerArbiter/controller.c:24-150 | Under every schedule of clients and reaper, each result is that of an atomic operation at its place in one sequential history, and the free database is what that history leaves. |
| Concurrency.AtomicIsRequest | CinderUserspace/PowerArbiter/controller.c:3-311 | Those atomic operations, database and result, are the arbiter's requests and passes, whatever else the kernel holds. |
| Concurrency.LockDiscipline | CinderUserspace/PowerArbiter/controller.c:168-199 | At most one thread holds the database mutex, and record mutexes are held only by it, for the record it found. |
| Concurrency.Releases | CinderUserspace/PowerArbiter/controller.c:145-150 | Wherever any schedule stops, the thread that holds the database mutex releases every mutex within a bounded number of its own turns, on every path and whatever the kernel replies. |
| Concurrency.AllReleased | CinderUserspace/PowerArbiter/controller.c:145-150 | When the database mutex is free, so is every record mutex. |
| Concurrency.RecordMutexFree | CinderUserspace/PowerArbiter/controller.c:45-50 | The second mutex is always free when it is asked for, so the order cannot deadlock. |
| Concurrency.ClientsLeaveTheDead | CinderUserspace/PowerArbiter/dbase.c:210-211 | No client step changes a record on the dead list; it can only add one at the end. |
| Concurrency.ClientsTouchActiveRecords | CinderUserspace/PowerArbiter/controller.c:229-270 | A record a client works on is the active record of its UID. |
| Shutdown.StepKeeps | CinderUserspace/PowerArbiter/main.c:54-92 | Every step of reaper, shutdown thread and clients keeps what the reaper may conclude from its flag and its pass. |
| Shutdown.PassIsSweep | CinderUserspace/PowerArbiter/main.c:60-87 | Left alone, the reaper's steps from the top of its loop are one pass: the dead list and the error are those of the pass on values, emptiness is exact, nothing else changes, whether or not it is to quit, and then it leaves or sleeps as the loop says. |
| Shutdown.EmptyingIsEmpty | CinderUserspace/PowerArbiter/dbase.c:27-43 | Left alone, the steps of the emptying move exactly what the emptying on values moves, in its order. |
| Shutdown.ClientsRequest | CinderUserspace/PowerArbiter/controller.c:273-311 | The steps of clients are the requests to add and to remove on values. |
| Shutdown.CleanWithoutLateAdds | CinderUserspace/PowerArbiter/init.c:155-178 | In every run in which no client adds a record once the emptying is over, staying or not, the wait waiting or not, the assertions of the final destroy hold exactly when the reaper left through is_empty. |
| Shutdown.CleanShutdown | CinderUserspace/PowerArbiter/init.c:155-178 | In particular in every run in which the clients leave before the emptying is over, or after it with nothing active. |
| Shutdown.CleanIfWaited | CinderUserspace/PowerArbiter/init.c:72-90 | Had the wait for clients waited, that would be every run that gets to the destroy. |
| Shutdown.DestroyAfterReaper | CinderUserspace/PowerArbiter/init.c:168-178 | The destroy comes only after the reaper has left. |
| Shutdown.ReaperLeaves | CinderUserspace/PowerArbiter/main.c:60-91 | Once told to leave, the reaper leaves through is_empty with nothing dead, within a bounded number of its own steps, when every count answers one user, unless a count had already failed in its last pass. |
| Shutdown.ErrorExitIsUnclean | CinderUserspace/PowerArbiter/main.c:73-75 | A schedule in which the reaper leaves by error and the destroy trips its assertion. |
| Shutdown.UnwaitedClientIsUnclean | CinderUserspace/PowerArbiter/init.c:72-90 | A schedule, with the wait as it is, in which the reaper leaves through is_empty and the destroy still trips its assertion. |
| Session.Socket.Read | CinderUserspace/PowerArbiter/sock.c:99-131 | The read loop ends and returns the next bytes of the stream, all asked for or all there are, however recv cuts them; when recv fails, what was read so far is a prefix. |
| Session.Socket.SendAll | CinderUserspace/PowerArbiter/sock.c:133-159 | The send loop ends and sends exactly the bytes given, however send cuts them; when send fails, a prefix of them. |
| Session.HandleClient | CinderUserspace/PowerArbiter/client.c:318-384 | However the socket cuts the stream, the operations applied, the bytes sent and the thread's result are those of the session as a function of the bytes received. When a transfer fails they are a beginning of it, with an error as result: only the last operation applied may be without its full answer. |
| Session.RunContinues | CinderUserspace/PowerArbiter/client.c:318-384 | After whole frames a session goes on as one that starts there. |
| Session.TruncatedFrameIgnored | CinderUserspace/PowerArbiter/client.c:295-316 | A frame cut short by the end of the stream changes no state and gets no response. |
| Protocol.AddAnswered | CinderUserspace/PowerArbiter/client.c:185-243 | An add is answered by the bytes 3 0 0 0 exactly for a type other than 1 and 2, a negative value, or a value over 100 of type 2; else by 5 0 0 0 exactly for a UID in the map; and else by 0 0 0 0, with the map extended. |
| Protocol.RemoveAnswered | CinderUserspace/PowerArbiter/client.c:245-293 | A remove is answered by 0 0 0 0 exactly for a UID in the map, which it takes out, and by 2 0 0 0 otherwise. |
| Protocol.GetAnswered | CinderUserspace/PowerArbiter/client.c:57-123 | A get is answered, byte by byte, with the map's parameters and error 0, or zeros and error 2 exactly when the UID is absent. |
| Protocol.SetAnswered | CinderUserspace/PowerArbiter/client.c:125-183 | The bytes that answer a set, for every reply of the kernel: code 3 exactly for illegal parameters, 2 for an absent UID, 1, 2 or 4 when the kernel refuses the rate of a made record with -1, -2 or anything else, and 0 otherwise. The map changes exactly on 0. |
| Protocol.SetAnsweredWrapped | CinderUserspace/PowerArbiter/syscall.c:16-20 | With the replies the wrappers can give, -1 for any refusal, a refused rate is always answered PA_BAD_PERMISSIONS and PA_UID_NOT_FOUND means an absent UID. |
| Protocol.StatAnswered | CinderUserspace/PowerArbiter/client.c:3-55 | A stat is answered, byte by byte, with error 4 exactly when a kernel call that it needs fails; else with flags 2 and the root reserve for a UID without an entry, and with flags 1 and a reserve that client and arbiter both use for any other. |
| Protocol.RootRefusedIsAnswered | CinderUserspace/PowerArbiter/syscall.c:57-66 | When the root reserve cannot be had the wrapper still reports success, and a client without an entry is sent reserve -1 with flags 2 and error 0. |
| Protocol.ResponseReadBack | CinderUserspace/PowerArbiter/protocol.h:36-77 | A client that reads the response structure gets back every field the server wrote, whatever the padding holds. |
| Session.DecodeEncode | CinderUserspace/PowerArbiter/protocol.h:28-30 | Encoding then decoding an integer of a frame gives it back. |
| Session.EncodeDecode | CinderUserspace/PowerArbiter/protocol.h:28-30 | Decoding then encoding gives the bytes back. |
| Session.ParseBody | CinderUserspace/PowerArbiter/protocol.h:54-68 | The server reads every field the client wrote, in the order of each structure, but for the high half of the UID. |
| Session.FrameServed | CinderUserspace/PowerArbiter/client.c:318-384 | A framed request is served as written, then the session goes on with the rest. |
| Frames.FirstWord | CinderUserspace/PowerArbiter/client.c:328-376 | What each first word does, by its number and the bytes after it: 1 to 5 serve stat, get, set, add and remove with their fields at fixed offsets, low byte first; 6 ends the session with 0, any other with -22, a short frame with -71, and these change nothing and send nothing. |
| Frames.StatBytes | CinderUserspace/PowerArbiter/protocol.h:36-40 | The twelve bytes of a stat response: reserve id, flags and error, each low byte first. |
| Frames.GetBytes | CinderUserspace/PowerArbiter/protocol.h:48-52 | The twenty-four bytes of a get response: type, value, error and padding. |

## Left out

- Unsigned wrap-around of item, bucket and run-length counters: natural numbers stand for them, so the doubling of the bucket count is assumed to fit.
- HASH_SELECT, HASH_CLEAR, HASH_CNT, HASH_EMIT_KEY and the hash functions other than HASH_JEN.
- The offset arithmetic between a handle and its element (`hho`, `list_entry`): handles and records are objects, and maps lead from a handle to its record.
- `malloc` failure, `uthash_fatal`, and failures of mutexes and semaphores.
- Null-argument checks: contexts and records are assumed to be there.
- Socket creation, peer credentials, logging, signals and the receiver thread that accepts clients.
- The permission checks that the protocol has a code for and the code does not make.
- Persistence of the database, which is a stub in the source; the interactive controller, the validation experiments and the build tools.
- Freed memory is not modelled: a deleted table or record stays an object that nothing reaches.
- Dbase.Database.Unhook: models the list_del that the source leaves out, because the reaper's intent cannot be stated without it; the loop as written is Dbase.Database.ClearUnusedAsWritten.
- ReserveLog.PutOnce: is about the repaired pass; WrittenRuns.WrittenPutsOnce gives the condition for the loop as written.
- ReserveLog.NotPutTwice: is about the repaired pass; WrittenRuns.WrittenPutsOnce gives the condition for the loop as written.
- Dbase.Database.ClearUnused: a successful count below one, at which the assertion in the code would stop the daemon, only keeps the record, because no true count is one (Interference.SweepAmidKeeps).
- Concurrency.Linearizable: the threads share the records and the leaked reserves, not the kernel, because a kernel call is one atomic step whose reply the schedule gives; Interference.EveryScheduleInv brings the kernel in.
- ArbiterRuns.ReservesConserved: is about the repaired pass, WrittenRuns.WrittenConserves about the loop as written. Neither covers a run in which the kernel refuses a put, because such a reserve leaks; EveryRunInv and ReserveLog.PutOnce account for it in the leaked set.
- ArbiterRuns.WorldKeeps: what other processes may do to the kernel is an assumption, because the source has only the arbiter's own system calls.
- Shutdown.CleanWithoutLateAdds: each step of emptying moves a whole record, because the links inside one move are those of Dbase.Database.Retire; a reaper that reads a half-linked entry is not modelled.
- Session.HandleClient: the four padding bytes of a get response, which the code never sets, are a parameter.
