# librcd in Dafny

A model of five parts of librcd, with proofs of what they promise:

* the page journal of the ACID memory database (`src/acid.c`),
* multiple-precision integers and the decimal digits of a double (`src/dtoa.c`),
* the AVL tree with parent pointers, subtree counts and cached ends (`src/avl.c`),
* the hash map whose buckets are rings threaded through the slot array (`include/hmap.h`),
* the base64, base32 and 128-bit number codecs (`src/fstring.c`, `src/arithmetic.c`).

`dafny verify dfyconfig.toml` verifies everything. Paths below are relative to the root of the repository.

## The ACID journal

A data file is mapped privately. The first store to a page faults; the handler marks the page dirty and, if the
running commit has not written the page yet, copies it first. The sync thread write-protects everything (that is
the snapshot), writes the snapshot's dirty pages and a hashed index to a journal file, syncs it, copies it to the
data file, maps clean pages anew, syncs the data file and truncates the journal. Opening a database verifies the
journal and, if it is good, copies it to the data file.

`AcidJournal` has the layout of the journal word by word, the verifier and the replay. `AcidProtocol` is a state
machine whose steps are the critical sections, system calls and loop passes of all threads, the kernel's write-back
of single pages, crashes, and recovery. A file has a cached and a durable copy of every page; the kernel may write
any cached page at any time and a crash keeps the durable copies only, so that it keeps an arbitrary subset of the
writes that were not synced. `AcidInvariant` is the invariant, `AcidFrames`, `AcidSteps`, `AcidCommitSteps` and
`AcidDiskSteps` prove that each step keeps it, and `AcidTheorems` draws the conclusions for all runs. `AcidOutcome`
says which snapshot a crash leaves, `AcidLeftBehind` has a run with a surprising one, and `AcidProgress` proves that
whoever waits is served in every run that is fair to the sync thread, from the request on. `AcidKernel` proves that the
kernel of the model is as free as said, `AcidFibers` that a fiber is released for the one thing it was registered for,
and `AcidPrivate` which pages keep memory of their own. `AcidHandle` is the handle as an object: its
methods do the sections of the program on its fields in place, each is proved to be the step of the protocol that it
stands for, and a write, a request, a whole commit, a whole opening, and a write that is followed by a sync are put
together from them.

SHA-1 is ideal: a hash word is a value that names the text that was hashed. Red-black trees are finite sets and maps,
a section under a spin lock is one step. Four things the proofs brought out:

* The journal header holds the revision before it is incremented (`src/acid.c:376`, `src/acid.c:430`,
  `src/acid.c:635`). So the first commit of a session always has the revision of the last header that reached the disk
  before it (`RevisionRepeats`).
* A commit that crashed after its header reached the disk, but before all its pages did, is rejected at the next open,
  but truncation keeps its header. It comes back at a later open exactly if a later session crashes with the very
  journal of that commit on disk (`CrashOutcome`). `LeftBehindHappens` is such a run: one session changes page 0 and
  crashes, the next finds both pages blank and changes page 1, crashes too, and recovery gives the image of the first.
  If no such journal is on disk, a crash leaves the durable snapshot, or the one whose journal was being synced.
* `journ_verify` computes sizes modulo 2^64. The checks are exact but for one that is missing, that the header counts
  fewer pages than the file has (`SizesExact`, `SizesWrap`). A header that passes without it counts more than 2^51
  pages, which is more than any file has, so that none of a commit does.
* `acid_fsync_async` reads the sync phase under `ctrl.lock` while the sync thread clears it without the lock
  (`src/acid.c:484`). `NoLostRequest` holds all the same.

A waiter's release is bounded by turns: steps of the sync thread, or of those who have to wake it while it sleeps
(`ServedInTime`). That the sync thread gets its turns is the scheduler's part, and that of the spin lock `ilock`, which
fault handlers that never stop could keep from it.

## Decimal digits

`Words` has the value of little-endian 32-bit words and the carry and borrow loops as functions, `Bigints` the class
of numbers and the routines on them, in place on arrays, with 64-bit intermediates. `Digits` says what the digit loops
and the rounding labels compute on integers, and proves what those digits are: shortest output is a decimal inside the
rounding interval such that no decimal with fewer significant digits lies in it, the nearest of those, with a rule for
ties (`ShortestTies`), and fixed output is the nearest decimal of so many digits, ties to even (roundTiesToEven, section 4.3.1 of IEEE 754-2008). `Dtoa` has the loops
themselves over numbers of class `Bigint`, proved against `Digits`, and the shifts that lead up to them. `Arith` has
the powers and laws of arithmetic that these and other modules share.

Zero has two forms, one zero word and no word at all; `quorem` leaves the second when the divisor has one word
(`src/dtoa.c:2199-2203`), and `cmp` then finds it less than a zero of one word. The model keeps that: see `HighCmp`.

## The AVL tree

`AvlShape` has the class of nodes. The fields of a set of nodes are read off into maps; a shape is the tree that the
links spell out, a path is what surrounds one of its subtrees, and what links, parents, balances and counts must be
are predicates over shapes, paths and maps. `AvlMoves` and `AvlSplice` prove what rotations, counting and balancing
along a path, and splicing out a node do to them. `AvlSearch` has the order of the keys and the steps to the next and
the previous node, `AvlSteps` the parts of insertion and removal that need no tree object, and `Avl` the class of trees.
Keys are integers, as the comparison functions that `include/avl.h:45-56` declares compare a numeric field. A
balance has a field of its own; it shares three bits with the parent in the source, and the preconditions of
`IncBalance` and `DecBalance`, which hold at every call, say that it never leaves them.

## The hash map

`HmapTable` has the slots as a sequence and the rings: every used slot is on exactly one ring, at the front of which is
the home slot of all keys on the ring. `HmapMoves` proves what insertion, eviction, and the three kinds of deletion do
to the rings and to the finite map that the slots hold. `Hmap` is the class, on an array of slots in place. The hash
function and the salts are arbitrary; a new table has at least twice the slots and an arbitrary fill limit, cut to one
less than the number of slots. A salted hash that agrees with the comparison of keys is assumed: equal keys are one
value here.

## The codecs

`Numbers` has the number parser and printer with the checked 128-bit arithmetic they rest on. A number that does not fit
its buffer makes `fstr_serial_uint` return a slice that starts one byte before the buffer (`src/fstring.c:178-182`),
where `include/fstring.h:224-230` promises a slice of the buffer: `SerialUint` says exactly when, `TenInOneByte` is an
example, and `RoundTrip` holds because `fstr_from_uint_pad` measures first. `Base64` and `Base32` the
two encodings of sections 4 and 6 of RFC 4648. Masks and shifts are written as remainders and quotients; the base32
accumulator keeps 32 bits. What is written and read is stated against the alphabets themselves, as strings, and against
the bits of the bytes: `Field` in `Arith` is the number that so many bits of a sequence denote.

## Model

| member | source | states |
|---|---|---|
| AcidJournal.WriteIndexCompletes | src/acid.c:374-421 | writing the index over the first words of a journal whose pages are in place gives the complete image of the commit |
| AcidJournal.JournalLayout | src/acid.c:95-114 | the complete image word by word: hash, magic number, revision, address, page offset and page count at their places, the page ids, then the pages; the hash is of the pages and the index without it |
| AcidJournal.CompleteAccepted | src/acid.c:277-310 | the verifier accepts every complete image a commit left, and reads back exactly its page ids and contents |
| AcidJournal.AcceptedIsCommit | src/acid.c:297-307 | whatever the verifier accepts under a commit's header is that commit's complete image: all ids and all pages agree |
| AcidJournal.TruncatedRejected | src/acid.c:481 | the one page that truncation leaves of a commit's journal is never accepted |
| AcidJournal.ReplayPlaces | src/acid.c:261-268 | replay puts each page of the journal in its place, the last one where an id occurs again, and leaves every other page |
| AcidJournal.ReplayTwice | src/acid.c:261-268 | replaying twice is replaying once |
| AcidJournal.ReplayForgets | src/acid.c:261-268 | a replay begun and broken off does not show after a full one |
| AcidJournal.ReplayImage | src/acid.c:261-268 | replaying a snapshot's pages over a file that agrees with it elsewhere gives the snapshot |
| AcidJournal.JournCommit | src/acid.c:261-268 | the loop over the mapped journal makes of the data file what replay says |
| AcidJournal.SizesExact | src/acid.c:270-289 | the size checks modulo 2^64, together with a check that is missing, that the header counts fewer pages than the file has, are the checks in unbounded arithmetic; without it only headers of more than 2^51 pages pass them besides |
| AcidJournal.SizesWrap | src/acid.c:270-294 | there is a file of one page that passes them with 2^61 pages in its header, and with no id that would stop the loop: `JournVerify` runs off it |
| AcidJournal.JournVerify | src/acid.c:277-310 | the checks, in their order, accept exactly the journals that are complete and in bounds; the loop over the ids runs off the file exactly if the sizes wrapped around and all ids in the file are in bounds |
| AcidTheorems.StepInv | src/acid.c:312-595 | every step of every thread, of the kernel, of a crash and of recovery keeps the invariant |
| AcidTheorems.RunInv | src/acid.c:312-595 | so does every run |
| AcidTheorems.CrashSafe | src/acid.c:320-481 | whatever subset of unsynced writes is on disk when the crash comes, recovery gives one whole snapshot, not older than the last whose journal sync returned |
| AcidTheorems.RunCrashSafe | src/acid.c:610-646 | the same from the first opening on, over any number of crashes, in the middle of recoveries too; the image that is mapped after an opening is that snapshot |
| AcidTheorems.StepDurable | src/acid.c:426-433 | no step forgets a snapshot or moves the durable one back |
| AcidTheorems.RunDurable | src/acid.c:426-433 | nor does any run |
| AcidTheorems.SyncedSurvives | src/acid.c:426 | after the journal sync has returned, every later crash recovers that snapshot or a newer one |
| AcidTheorems.JournalIsSnapshot | src/acid.c:390-421 | in every interleaving the finished journal holds, for exactly the dirty pages, their content at the instant of the snapshot, and is accepted |
| AcidTheorems.JournalVerified | src/acid.c:437 | the assertion that the journal verifies never fails |
| AcidTheorems.NewPageSafe | src/acid.c:535-551 | each new page is in the journal, or has a copy with the snapshot's content, or is still protected with unchanged memory |
| AcidTheorems.OnlyStoresChangeMemory | src/acid.c:438-475 | what the program reads changes by stores only, not by faults, by copying into the mapped file or by mapping pages anew |
| AcidTheorems.DirtyPageIsOpen | src/acid.c:552-593 | a fault on a page that is dirty already finds it open for writing |
| AcidTheorems.CommitWaiterSafe | src/acid.c:435 | when a commit waiter is released, all writes that were complete when it registered are in the durable snapshot |
| AcidTheorems.SyncWaiterSafe | src/acid.c:486 | when a sync waiter is released, they are in the snapshot the data file was last synced to |
| AcidTheorems.SnapshotWaiterSafe | src/acid.c:357 | when a snapshot waiter is released, they are in the last snapshot taken |
| AcidTheorems.NoLostRequest | src/acid.c:493-511 | a registered fiber has a commit ordered; a sync thread that sleeps while one is ordered has a wake-up coming |
| AcidOutcome.RecoveredExactly | src/acid.c:634-642 | recovery gives the snapshot of the header on disk if the journal on disk is accepted, and the durable one if not |
| AcidOutcome.AcceptedIsComplete | src/acid.c:277-310 | an accepted journal is, word for word, the complete journal of the commit that its header is of |
| AcidOutcome.ReopenTakes | src/acid.c:634-642 | from every state, a crash and the check at the next open make that snapshot the durable one |
| AcidOutcome.CrashOutcome | src/acid.c:320-481 | a snapshot from before this session, other than the durable one, comes back exactly if the complete journal of an earlier session's unfinished commit is on disk; else the durable one does, or the last one while its journal is being synced |
| AcidOutcome.RunOutcome | src/acid.c:610-646 | the same after every run from the first opening on |
| AcidOutcome.RevisionRepeats | src/acid.c:635 | until the first commit of a session is synced, its revision is that of the header found at open |
| AcidLeftBehind.LeftBehindHappens | src/acid.c:644 | a run from a new database at whose end a commit is recovered that the open before had rejected, and that the session since had never seen |
| AcidKernel.AnyMixtureSurvives | src/acid.c:421-481 | from every state, for every set of pages of the two files, and with or without the new length of the journal, some run leaves exactly the cached content of those pages on disk and stops the machine |
| AcidFibers.FiberStep | src/acid.c:312-512 | every step keeps this: registered fibers differ, and a fiber that the sync thread has taken along, or released, is or was for one thing |
| AcidFibers.ReleasedForOne | src/acid.c:341-486 | after every run from the first opening on, a fiber was released for at most one of snapshot, commit and sync, and a registered one for none |
| AcidPrivate.PrivStep | src/acid.c:453-471 | every step keeps this: a page has private memory only if it is dirty, about to be, or in a commit that has not mapped it anew |
| AcidPrivate.PrivateIsNeeded | src/acid.c:453-471 | so it is after every run from the first opening on |
| AcidPrivate.NothingPrivate | src/acid.c:453-471 | at rest, with nothing dirty, no page has private memory |
| AcidProgress.Progress | src/acid.c:489-513 | the database sleeps with nothing ordered, or the next handler, waker or the sync thread can go on |
| AcidProgress.Serve | src/acid.c:312-512 | from every state in which a fiber is registered, or taken along and not yet cancelled, a run of steps of the handlers, wakers and the sync thread alone cancels it |
| AcidProgress.TurnStep | src/acid.c:312-595 | whatever step the program, the handlers or the kernel take, a waiting fiber is released or waits for no more turns than before, and for one less after each turn |
| AcidProgress.ServedInTime | src/acid.c:312-512 | in every interleaving without a crash, more turns than the bound on those left have released the fiber |
| AcidProgress.WishInTime | src/acid.c:712-810 | and then the writes that were complete when a waiter last registered with it are in the last snapshot, the durable one, or the one the data file was synced to, as the fiber is one for snapshots, commits or the data file |
| AcidProgress.CommitInTime | src/acid.c:718-758 | the same written out for a commit: the durable snapshot |
| AcidProgress.AskedInTime | src/acid.c:718-814 | from a request on, asynchronous ones outside the sync phase included: the caller gets a fiber, more turns than are left release it, and all that was written before the request is where it was asked for |
| AcidProgress.CommitIsMade | src/acid.c:718-758 | for a registered commit waiter such a run ends with all writes that were complete when it registered in the durable snapshot |
| AcidHandle.Handle.constructor | src/acid.c:610-646 | a database opened for the first time is in the initial state, which is valid |
| AcidHandle.Handle.Store | src/acid.c:552-576 | a store to an open page changes that page of the image and no other |
| AcidHandle.Handle.FaultCopy | src/acid.c:535-551 | the handler's first section is the protocol's step: it copies a page exactly when the running commit still needs it |
| AcidHandle.Handle.FaultMap | src/acid.c:552-576 | ... the dirty index lookup and the opening of the page, or the start over when the kernel is out of memory |
| AcidHandle.Handle.FaultIndex | src/acid.c:577-594 | ... and the indexing of the page as dirty |
| AcidHandle.Handle.Fsync | src/acid.c:721-746 | the locked section orders a commit, shares the commit and the sync fiber or starts new ones, two different ones, registers all writes so far with both, and tells whether to wake the sync thread; nothing else changes |
| AcidHandle.Handle.FsyncAsync | src/acid.c:771-800 | in the sync phase nothing changes and no fiber is returned; else a commit is ordered, and the caller shares or starts the snapshot and the sync fiber, two different ones, with all writes so far registered; the commit fiber stays |
| AcidHandle.Handle.SetFutex | src/acid.c:748-751 | the futex word is set before the wake-up |
| AcidHandle.Handle.WakeSleeper | src/acid.c:748-751 | the wake-up brings a sleeping sync thread back to the order, and no other |
| AcidHandle.Handle.Wait | src/acid.c:500-502 | the sync thread sleeps unless the futex word is set |
| AcidHandle.Handle.Consume | src/acid.c:495-505 | the sync thread clears the futex word and takes the operation in one section |
| AcidHandle.Handle.TakeIlock | src/acid.c:320-322 | the snapshot begins when no handler is inside its section |
| AcidHandle.Handle.Protect | src/acid.c:323-328 | write-protecting the range takes the snapshot of the memory |
| AcidHandle.Handle.SwapIndexes | src/acid.c:330-333 | the dirty pages become the new pages, none written or copied yet |
| AcidHandle.Handle.TakeOrder | src/acid.c:341-355 | the order and the waiters that came with it are taken in the section that ends the snapshot |
| AcidHandle.Handle.TruncateJournal | src/acid.c:380-390 | the journal is made exactly as long as index and pages need |
| AcidHandle.Handle.CheckCow | src/acid.c:397-400 | the unlocked test for a copy: the copy is hashed, or the page lock is next |
| AcidHandle.Handle.LockPage | src/acid.c:403-412 | the test again under the page lock: the copy is hashed, or the memory |
| AcidHandle.Handle.WriteCow | src/acid.c:401 | the copy goes to the page's place in the journal |
| AcidHandle.Handle.WriteMemory | src/acid.c:413-414 | the memory goes there, and the page is marked as buffered |
| AcidHandle.Handle.Detach | src/acid.c:429-433 | the revision goes up by one, modulo 2^64, and the new pages are let go |
| AcidHandle.Handle.Remap | src/acid.c:453-471 | a page gives up its private memory unless it is dirty again |
| AcidHandle.Handle.EndSync | src/acid.c:484 | the sync phase ends |
| AcidHandle.Handle.ReleaseSnap | src/acid.c:357 | the waiters for the snapshot are released |
| AcidHandle.Handle.ReleaseIdle | src/acid.c:359-363 | without changes all other waiters are |
| AcidHandle.Handle.WriteIndex | src/acid.c:419-421 | the index with its hash is written over the start of the journal |
| AcidHandle.Handle.SyncJournal | src/acid.c:426 | the last snapshot is durable |
| AcidHandle.Handle.ReleaseCommit | src/acid.c:435 | the waiters for the commit are released |
| AcidHandle.Handle.CopyPage | src/acid.c:438 | a page of the journal goes to its place in the data file |
| AcidHandle.Handle.SyncData | src/acid.c:479 | the data file on disk is the durable snapshot |
| AcidHandle.Handle.CutJournal | src/acid.c:481 | the journal keeps its first page |
| AcidHandle.Handle.ReleaseSync | src/acid.c:486 | the waiters for the data file are released |
| AcidHandle.Handle.VerifyJournal | src/acid.c:634-637 | the revision comes from the header, and the snapshot of an accepted journal is the durable one |
| AcidHandle.Handle.MapFile | src/acid.c:654-659 | the handle starts with the data file as memory, and nothing dirty, ordered or waited for |
| AcidHandle.Handle.Write | src/acid.c:523-595 | a write, through the fault handler or not and whatever the sync thread is doing, changes its page of the image and no other |
| AcidHandle.Handle.Request | src/acid.c:718-758 | a request gets two fibers and wakes the sleeping sync thread, which takes the order up |
| AcidHandle.Handle.WriteSynced | src/acid.c:312-758 | a write and a sync from rest to rest: the data file on disk is the old image with the new page, and both fibers of the request are released |
| AcidHandle.Handle.Snapshot | src/acid.c:768-814 | an asynchronous request from rest: it comes back true, its fiber released, when all that the program has stored is in the last snapshot |
| AcidHandle.Handle.SyncCommit | src/acid.c:312-487 | a commit that nothing comes in between leaves exactly the memory in the data file on disk, nothing dirty, no page with private memory, a journal of one page, and releases all its waiters; without changes it touches no file |
| AcidHandle.Handle.Open | src/acid.c:610-672 | opening after a crash ends with what recovery gives in the memory and on disk, which is the snapshot that `RecoveredExactly` names, with the revision of the header found, a journal of one page, and nothing dirty, private, ordered or waited for |
| Words.MulAddVal | src/dtoa.c:630-649 | the multiplication with carry is exact |
| Words.RowVal | src/dtoa.c:844-851 | one row of schoolbook multiplication adds exactly the product with one word |
| Words.SubMulVal | src/dtoa.c:2169-2198 | subtracting a multiple with carry and borrow is exact up to what is owed at the top |
| Words.SubMulExact | src/dtoa.c:2169-2198 | nothing is owed when the multiple is not larger |
| Bigints.MultAdd | src/dtoa.c:607-661 | the value is b m + a, in place or in a larger object, with no leading zero word |
| Bigints.Mult | src/dtoa.c:800-907 | the product is exact, in a number of words that its capacity holds |
| Bigints.LShift | src/dtoa.c:969-1026 | the value is b 2^k |
| Bigints.CmpMeaning | src/dtoa.c:1029-1060 | the sign is that of the difference, except that a zero of no words is less than one of one word |
| Bigints.Cmp | src/dtoa.c:1029-1060 | the loop from the top word down finds that sign |
| Bigints.Diff | src/dtoa.c:1063-1154 | the absolute difference, and the sign of the difference |
| Bigints.PowerCache.Node | src/dtoa.c:928-963 | the cache holds 625^(2^i) at its i-th node, over all calls, and only grows |
| Bigints.PowerCache.Pow5Mult | src/dtoa.c:912-966 | the value is b 5^k for every k |
| Bigints.Hi0Bits | src/dtoa.c:702-733 | the number of leading zero bits of a word |
| Bigints.DShift | src/dtoa.c:2114-2125 | shifting the divisor by the result more leaves it four leading zero bits, whatever it was shifted by before |
| Bigints.GuessClose | src/dtoa.c:2157 | the guess from the top words never exceeds the quotient digit and is short by at most one |
| Bigints.QuoRem | src/dtoa.c:2128-2249 | for every divisor with four leading zero bits and b < 10 S: the quotient is returned and the remainder left, without leading zero words |
| Digits.BoundedValue | src/dtoa.c:4203-4290 | the digits of the loop denote a decimal inside the rounding interval, or the truncated value if a digit limit cuts them off |
| Digits.FewerPlacesMiss | src/dtoa.c:4203-4290 | no decimal with fewer places lies in the interval |
| Digits.ShortestOutput | src/dtoa.c:4203-4336 | shortest output: digits of a decimal inside the interval (closed or open), such that no decimal with fewer significant digits, of any exponent, lies in it |
| Digits.ShortestClosest | src/dtoa.c:4203-4336 | of all decimals in the interval with as few digits the output is nearest, exactly if it is not a ten that is printed at the upper end of a closed interval although nine is inside and nearer |
| Digits.TenForNineHappens | src/dtoa.c:4213-4217 | numbers with which it is |
| Digits.ShortestTies | src/dtoa.c:4213-4275 | if another decimal of as many places in the interval is exactly as near, the even one is printed; but if the larger of the two is the upper end of a closed interval it is the smaller one, or the ten if that end is ten |
| Digits.UnlimitedNotCut | src/dtoa.c:4203-4290 | without a digit limit the loop ends by its tests |
| Digits.DigitsInRange | src/dtoa.c:4203-4290 | every digit is 0 to 9 and the first is not 0; a ten can come as the only digit |
| Digits.RoundoffValue | src/dtoa.c:4321-4329 | rounding up adds one unit in the last place; the exponent goes up exactly when all digits are nines |
| Digits.StripValue | src/dtoa.c:4330-4336 | taking off trailing zeros keeps the number |
| Digits.RoundedNearest | src/dtoa.c:4313-4320 | the test of the doubled remainder rounds to the nearest digit string, ties to even |
| Digits.CutOutput | src/dtoa.c:4305-4336 | a digit string that was cut off ends as the nearest decimal of at most so many digits, without trailing zeros |
| Digits.FixedOutput | src/dtoa.c:4292-4336 | output without error bounds is b / S rounded to at most the limit of digits, ties to even |
| Digits.LimitedOutput | src/dtoa.c:4279-4336 | output with error bounds that reaches the limit is rounded the same way |
| Digits.NoPlaceLeft | src/dtoa.c:4176-4187 | with no digit left the number rounds to ten or to nothing, the tie to nothing |
| Digits.ShortestScale | src/dtoa.c:4159-4167 | a common factor of all numbers does not matter |
| Dtoa.TestDigit | src/dtoa.c:4208-4275 | the tests after a quotient digit stop, with that digit or the next, or go on, exactly as on integers |
| Dtoa.BoundedDigits | src/dtoa.c:4203-4336 | the loop with error bounds and its rounding, on numbers in place, computes what `Digits` says |
| Dtoa.ExactDigits | src/dtoa.c:4292-4336 | and so does the loop without error bounds |
| Dtoa.FixedDigits | src/dtoa.c:4292-4336 | fixed-digit output, stated on the numbers given: nearest decimal of at most ilim digits, ties to even, exponent raised exactly at the next power of ten |
| Dtoa.RoundoffDigits | src/dtoa.c:4321-4329 | the loop back over the nines |
| Dtoa.StripZeros | src/dtoa.c:4330-4336 | the loop back over the zeros |
| Dtoa.FewDigits | src/dtoa.c:4176-4187 | a one is printed exactly when the limit is zero and b > 5 S |
| Dtoa.AlignBoth | src/dtoa.c:4159-4166 | the divisor gets its four leading zero bits and the quotient stays |
| Dtoa.CheckEstimate | src/dtoa.c:4167-4175 | an estimate of the exponent that was one too high is mended by a factor of ten, for the error bound too where there is one, and by the other limit of digits |
| Dtoa.ErrorBounds | src/dtoa.c:4188-4201 | the error bounds, the upper one doubled for a power of two |
| Dtoa.Prepare | src/dtoa.c:4159-4201 | together they put the numbers into the form the loops ask for |
| Dtoa.ShortestDigits | src/dtoa.c:4159-4336 | from the numbers that dtoa has prepared and a good or one too high estimate: the shortest digits inside the rounding interval, and the nearest of those but for a ten for a nine, with ties decided as `ShortestTies` says |
| Dtoa.FixedFormat | src/dtoa.c:4159-4187 | without error bounds, from the numbers that dtoa has prepared and a good or one too high estimate: the nearest decimal of at most so many digits, ties to even; with no digit left, a one or nothing |
| AvlShape.Node.IncBalance | src/avl.c:43-45 | a balance goes up by one and stays in its three bits |
| AvlShape.Node.DecBalance | src/avl.c:47-49 | and down by one |
| AvlMoves.RotatedSame | src/avl.c:115-161 | a rotation keeps the nodes and their order |
| AvlMoves.RotatedDown | src/avl.c:115-161 | after a rotation the child links are those of the rotated shape, wherever in the tree it was |
| AvlMoves.RotatedUp | src/avl.c:115-161 | and so are the parent links |
| AvlMoves.RotatedCnt | src/avl.c:115-161 | and so are the counts, which a rotation recomputes for two nodes |
| AvlMoves.SingleBal | src/avl.c:309-311 | a heavy side that leans outwards: one rotation makes both nodes even and the tree one level lower |
| AvlMoves.EvenBal | src/avl.c:478-483 | a heavy side that is even: one rotation keeps the height |
| AvlMoves.DoubleBal | src/avl.c:313-331 | a heavy side that leans inwards: the balances set from the inner node are right after two rotations |
| AvlMoves.Retrace | src/avl.c:278-297 | changing the balances from a new node up to the last uneven node leaves all others right |
| AvlMoves.CountedCnt | src/avl.c:285-296 | counting one more or one less along a path makes all counts right |
| AvlMoves.HeightBound | src/avl.c:109-112 | a tree of height h has at least as many nodes as the sparsest one, which grow as the Fibonacci numbers |
| AvlSearch.Next | src/avl.c:87-96 | the node after a given one in the order, or null |
| AvlSearch.Prev | src/avl.c:98-107 | the node before it, or null |
| AvlSearch.GetFirst | src/avl.c:63-67 | the first node of a subtree |
| AvlSearch.GetLast | src/avl.c:69-73 | the last node of a subtree |
| AvlSplice.OneLinks | src/avl.c:380-438 | a node with at most one subtree is replaced by it: links and parents of the rest are right |
| AvlSplice.OneCounts | src/avl.c:387-401 | and the counts |
| AvlSplice.TwoDown | src/avl.c:403-431 | the successor takes the place of a node with two subtrees: child links of the spliced shape |
| AvlSplice.TwoUp | src/avl.c:403-438 | parent links |
| AvlSplice.TwoFields | src/avl.c:387-431 | counts, and balances that are right but for one lower place |
| AvlSplice.TwoOrder | src/avl.c:380-431 | the order is the old one without the node |
| Avl.AvlTree.constructor | src/avl.c:574-581 | an empty tree, of height -1 |
| Avl.AvlTree.KeysAscend | include/avl.h:45-56 | keys ascend in the order of a tree, strictly with a unique index |
| Avl.AvlTree.Count | src/avl.c:75-77 | the number of nodes |
| Avl.AvlTree.First | src/avl.c:79-81 | the cached first node is the first in order |
| Avl.AvlTree.Last | src/avl.c:83-85 | the cached last node is the last in order |
| Avl.AvlTree.Next | src/avl.c:87-96 | the next node of a node of the tree |
| Avl.AvlTree.Prev | src/avl.c:98-107 | the previous one |
| Avl.AvlTree.LookupIndex | src/avl.c:163-184 | the i-th node in order, or null past the end |
| Avl.AvlTree.ClosestLookup | src/avl.c:186-208 | the first node not below the key, or the last not above it, among duplicates too |
| Avl.AvlTree.Lookup | src/avl.c:210-219 | a node with the key, or null exactly when no node has it |
| Avl.AvlTree.RotateLeft | src/avl.c:115-137 | the pointer surgery keeps links, parents and counts, and rotates the shape |
| Avl.AvlTree.RotateRight | src/avl.c:139-161 | the same to the other side |
| Avl.AvlTree.HeavyRight | src/avl.c:305-333 | a node whose right side is two levels higher gets the shape of one rotation, or of two if that side leans inwards, and all is right one level lower |
| Avl.AvlTree.HeavyLeft | src/avl.c:334-362 | the same to the other side |
| Avl.AvlTree.FindPlace | src/avl.c:231-258 | where a key belongs, the last uneven node on the way, or the equal node of a unique index |
| AvlSteps.RetraceUp | src/avl.c:278-297 | the loops set the balances up to the last uneven node and the counts up to the root |
| Avl.AvlTree.RestoreInsert | src/avl.c:299-363 | at the last uneven node the height grows, nothing happens, or at most two rotations even it out |
| Avl.AvlTree.Insert | src/avl.c:230-365 | the node goes in at its place in the order, with links, parents, balances, counts, ends and height right; or the equal node of a unique index is returned and nothing at all changes |
| Avl.AvlTree.SpliceOne | src/avl.c:380-438 | taking out a node with at most one subtree leaves all right but for one lower place |
| Avl.AvlTree.SpliceTwo | src/avl.c:380-438 | and so does taking out one with two |
| Avl.AvlTree.LowerLeft | src/avl.c:469-507 | one step of the rebalancing when the left side got lower: done, or one level further up |
| Avl.AvlTree.LowerRight | src/avl.c:508-547 | the same for the right side |
| Avl.AvlTree.Rebalance | src/avl.c:464-549 | the climb ends early, at a height that did not change, or at the root with the height field less by one |
| Avl.AvlTree.MoveEnds | src/avl.c:375-378 | a removed end is replaced by its neighbour |
| Avl.AvlTree.Remove | src/avl.c:368-550 | exactly the given node leaves the order, and links, parents, balances, counts, ends and height are right, on every early return and on the climb to the root |
| HmapTable.RootIsHome | include/hmap.h:142-151 | the root of a ring is in the home slot of its keys, and a used slot is a root exactly if its own key belongs there |
| HmapTable.OnOneRing | include/hmap.h:142-151 | a slot is on one ring only, and there once |
| HmapTable.LinksInverse | include/hmap.h:142-151 | prev and next undo each other, among keys of one home slot |
| HmapTable.HomeHolds | include/hmap.h:245-249 | the home slot of a key is the one on whose bytes the salted hash falls, modulo the bytes of all slots |
| HmapMoves.NewRoot | include/hmap.h:349-353 | a key whose home slot is free becomes the root of a ring of its own |
| HmapMoves.AppendedTable | include/hmap.h:355-365 | a key whose home slot is a root joins its ring in a free slot |
| HmapMoves.EvictedTable | include/hmap.h:366-377 | a foreign element moves to a free slot and keeps its place on its ring |
| HmapMoves.OnlyOneTable | include/hmap.h:425-427 | deleting the only element of a ring |
| HmapMoves.RootFilledTable | include/hmap.h:428-440 | deleting a root moves the next element into it |
| HmapMoves.UnlinkedTable | include/hmap.h:441-448 | deleting another element takes it off its ring |
| Hmap.Hmap.constructor | include/hmap.h:210-230 | a new map is empty |
| Hmap.Hmap.Lookup | include/hmap.h:294-316 | a key that may exist is found exactly if the map holds it, with its value; else its home slot is returned |
| Hmap.Hmap.ScanFreeSlot | include/hmap.h:320-340 | ends with a free slot nearest around the array, the one ahead if two are equally near |
| Hmap.Hmap.InsertUnsafe | include/hmap.h:345-382 | with a free slot, the map gains the key, in all three cases |
| Hmap.Hmap.Insert | include/hmap.h:385-419 | the map gains the key, and a free slot is left; it grows exactly when the fill limit is reached, to at least twice the slots and with a new salt |
| Hmap.Hmap.Rebuild | include/hmap.h:387-417 | growth keeps the map, and takes the new salt and fill limit |
| Hmap.Hmap.CopyInto | include/hmap.h:393-411 | every element is inserted in the new map, as a key that is not there yet |
| Hmap.Hmap.Delete | include/hmap.h:422-450 | the map loses exactly the key of the slot, in all three cases |
| Hmap.Hmap.Replace | include/hmap.h:453-465 | the key of the slot has the new value |
| Hmap.Hmap.CountIsKeys | include/hmap.h:89-91 | the count is the size of the map |
| Hmap.Hmap.Run | include/hmap.h:294-465 | over any run of lookups, insertions, deletions and replacements the map is the one a finite map would be |
| Numbers.SafeAdd | src/arithmetic.c:18-25 | fails exactly when the sum does not fit |
| Numbers.SafeMul | src/arithmetic.c:72-81 | fails exactly when the product does not fit or the second factor is zero |
| Numbers.LimitIs | src/arithmetic.c:18-25 | the limit is 2^128 |
| Numbers.NumeralIs | src/fstring.c:42-46 | numerals are printed as the characters of "0123456789abcdefghijklmnopqrstuvwxyz" |
| Numbers.DigitIs | src/fstring.c:34-40 | a character counts v exactly if it is character v of that string or of the one with capitals |
| Numbers.CountsIs | src/fstring.c:112-117 | the digits of a base are the first so many characters of either string |
| Numbers.ValueNext | src/fstring.c:104-137 | the number that a text denotes, character by character: a digit of either case is put behind the number before it, any other character changes nothing |
| Numbers.CaseIgnored | src/fstring.c:34-40 | texts that differ in the case of letters only denote the same number |
| Numbers.UnserialUint | src/fstring.c:104-137 | succeeds exactly when the base is from 2 to 36 and the number that the digits denote is less than 2^128, and returns it |
| Numbers.NumeralsValue | src/fstring.c:172-181 | the digits printed denote the number, without leading zeros |
| Numbers.PaddedValue | src/fstring.c:183-184 | padding with zeros does not change it |
| Numbers.NumeralsLength | src/fstring.c:172-181 | a number has at most n digits exactly if it is less than the n-th power of the base |
| Numbers.NumeralsAt | src/fstring.c:172-181 | character k of the digits printed is the numeral of the digit at its place |
| Numbers.PrintedAt | src/fstring.c:166-186 | so is byte k of a whole buffer, zeros before the number and the last digits of one that does not fit included |
| Numbers.SerialUint | src/fstring.c:166-186 | the buffer holds zeros and the digits, or the last digits that fit; the slice returned is the number without padding if the number is less than the power of the base with as many zeros as the buffer has bytes, and starts one byte before the buffer if it is not |
| Numbers.TenInOneByte | src/fstring.c:178-182 | ten in one byte gives a slice of two bytes from one byte before the buffer |
| Numbers.Measure | src/fstring.c:205-214 | the number of digits, in every base for which the loop ends |
| Numbers.FromUintPad | src/fstring.c:228-233 | prints the number in at least the padded length; with a base above 36 the text is never written |
| Numbers.RoundTrip | src/fstring.c:104-233 | parsing what was printed gives the number back, for every number and base |
| Base64.SameBits | src/fstring.c:843-846 | three bytes and their four groups are the same 24 bits, and joining undoes splitting |
| Base64.LetterIs | src/fstring.c:48 | letter v is character v of the alphabet "A-Za-z0-9+/", written out as a string |
| Base64.LetterValueIs | src/fstring.c:50-60 | a character has a value exactly if it is in the alphabet, and the value is its place there |
| Base64.EncodedAt | src/fstring.c:817-853 | character k of the encoding is the one of the alphabet that bits 6 k to 6 k + 5 choose, zeros at the end, and an equals sign after the last bit |
| Base64.DecodedAt | src/fstring.c:855-899 | byte k of the decoding is bits 8 k to 8 k + 7 of the values, and an incomplete byte at the end is dropped |
| Base64.PassedOver | src/fstring.c:862-871 | a character outside the alphabet, an equals sign too, changes nothing wherever it stands |
| Base64.Encode | src/fstring.c:817-853 | the loop writes the encoding, within the buffer it allocated |
| Base64.Decode | src/fstring.c:855-899 | the loop decodes the letters, four at a time, passing over all other characters, with one or two bytes for a group that is not full |
| Base64.RoundTrip | src/fstring.c:817-899 | every sequence of bytes comes back as it was |
| Base32.PushLow | src/fstring.c:913-919 | shifting into the 32-bit accumulator keeps the bits it still holds |
| Base32.Oldest | src/fstring.c:922 | the mask of the shifted accumulator is its oldest five, or eight, bits |
| Base32.LetterIs | src/fstring.c:904 | letter v is character v of "ABCDEFGHIJKLMNOPQRSTUVWXYZ234567" |
| Base32.LetterValueIs | src/fstring.c:940-954 | exactly the letters of both cases, 2 to 7, and 0, 1 and 8 have a value: their place in the alphabet, and the three that of O, L and B |
| Base32.SkippedIs | src/fstring.c:936-937 | exactly blanks, tabs, returns, newlines and dashes are passed over |
| Base32.ReadNext | src/fstring.c:934-955 | after readable text, a letter gives its value, a character passed over nothing, and any other ends the text |
| Base32.EncodedAt | src/fstring.c:901-928 | character k of the encoding is the one of the alphabet that bits 5 k to 5 k + 4 choose, zeros at the end, and an equals sign after the last bit, up to eight characters for every five bytes |
| Base32.DecodedAt | src/fstring.c:930-962 | byte k of the decoding is bits 8 k to 8 k + 7 of the values read, and an incomplete byte at the end is dropped |
| Base32.Encode | src/fstring.c:901-928 | the loop writes five bits a letter, zeros at the end, and padding; nothing for more than 2^28 bytes |
| Base32.Decode | src/fstring.c:930-962 | the loop decodes up to the first character that is no letter, within its buffer |
| Base32.RoundTrip | src/fstring.c:901-962 | up to 2^28 bytes come back as they were |

## Left out

- System calls fail in no way but one: `mprotect` without memory in the fault handler. All other errors throw in the source.
- `acid_expand`, the resize in `acid_open`, `acid_close` and the quit operation are not modelled: the length of a database is fixed.
- AcidJournal.JournVerify: only for files of at most 2^35 pages, as the file is mapped into 47-bit addresses; the verdict `Beyond` ends the model of such a call.
- `journ_verify` in the protocol is what it accepts, sizes unbounded; a file with a commit's header has no sizes that wrap around.
- A store, a page fault section, and the copying of one page are single steps; torn page writes are covered only as pages that were not written.
- AcidHandle.Handle.Protect: one step, while `mprotect` of a range with many mappings takes time; a store that meets it half way is ordered before or after it.
- Thread start and stop, stacks, heaps, fibers and signals of `src/acid.c` appear only by their effect on the steps.
- The floating-point parts of `src/dtoa.c` are not modelled: the quick path, the path for small integers, the estimate of the exponent, `strtod`, `bigcomp` and `gethex`. The digit loops start from integers, with an estimate that is right or one too high.
- `dtoa` with other roundings, 16-bit words or without 64-bit integers: branches that this configuration leaves out.
- Bigints.Mult: both factors have at least one word, as for `lshift` and `diff`; the source reads outside the numbers otherwise, and no caller does that.
- Bigints.PowerCache.Pow5Mult: one thread at a time; the double-checked locking around the cache is not modelled.
- `Balloc` free lists: a number is a fresh object with arbitrary words and a capacity that is a power of two.
- `avltree_replace` is not modelled; it copies all fields of a node into another one.
- AvlShape.Node.IncBalance: the balance is a field of its own, not three bits of the parent word; that it stays in those bits is proved.
- Comparison functions that look at several fields, or at anything but an integer key, are not modelled.
- Hmap.Hmap.Insert: memory lengths are counted in slots; that twice the bytes hold at least twice the slots is assumed of the allocator.
- Hash functions, random salts, float fill ratios and the bytes of keys and values of `include/hmap.h` are arbitrary values.
- A lookup that is kept across another change of the map is out of its contract, as in the source.
- Numbers.Measure: not for base zero, which divides by zero, nor for base one and a number other than zero, for which the loop never ends.
- Signed numbers (`fstr_unserial_int`, `fstr_serial_int`) and the signed checked arithmetic would add only cases.
- Base64.Encode: the nested loop over three bytes is written out, and that of the decoder over four letters is one loop with a group.
- Everything else in librcd: fibers, virtual memory, I/O, JSON, REST, and text functions.
