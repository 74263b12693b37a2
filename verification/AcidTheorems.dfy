/** What the commit protocol guarantees, over all runs. */
module AcidTheorems {
  import opened AcidJournal
  import opened AcidProtocol
  import opened AcidInvariant
  import opened AcidSteps
  import opened AcidCommitSteps
  import opened AcidDiskSteps

  /** Every step, of every thread, of the kernel and of recovery, keeps the invariant. */
  lemma StepInv(s: Db, a: Step)
    requires Inv(s) && Enabled(s, a)
    ensures Inv(Do(s, a))
  {
    hide Inv, Enabled, Do;
    if a.Store? || ByProgram(a) {
      ProgramInv(s, a);
    } else if ByCommit(a) {
      CommitInv(s, a);
    } else if BySync(a) {
      SyncInv(s, a);
    } else {
      KernelInv(s, a);
    }
  }

  /** Steps of application threads and requesters. */
  predicate ByProgram(a: Step) {
    a.FaultCopy? || a.FaultMap? || a.FaultIndex? || a.Fsync? || a.FsyncAsync? || a.FutexSet? || a.FutexWake?
  }

  /** Steps up to the journal loop, and in it. */
  predicate ByCommit(a: Step) {
    || a.SConsume? || a.SWait? || a.SSpurious? || a.STakeIlock? || a.SProtect? || a.SSwap? || a.SSection?
    || a.SWakeSnap? || a.SWakeIdle? || a.STruncate? || a.SCheck? || a.SLock? || a.SCowWrite? || a.SMemWrite?
  }

  /** Steps from the index of the journal to the end of the commit. */
  predicate BySync(a: Step) {
    || a.SWriteIndex? || a.SJournalSync? || a.SDetach? || a.SWakeCommit? || a.SDataCommit? || a.SDataCommitted?
    || a.SRemap? || a.SRemapped? || a.SDataSync? || a.STruncateEnd? || a.SEndSync? || a.SWakeSync?
  }

  // ----- what the steps do, one by one

  lemma DoesProgram(s: Db, a: Step)
    requires Enabled(s, a) && (a.Store? || ByProgram(a))
    ensures match a
      case Store(p, v) => Running(s) && p < |s.data.cache| && Do(s, a) == DoStore(s, p, v)
      case FaultCopy(p) => p < |s.data.cache| && Do(s, a) == DoFaultCopy(s, p)
      case FaultMap(enomem) => s.mem.ilock.Copied? && Do(s, a) == DoFaultMap(s, enomem)
      case FaultIndex => s.mem.ilock.Mapped? && Do(s, a) == DoFaultIndex(s)
      case Fsync => Running(s) && s.h.stores != [] && Do(s, a) == DoFsync(s)
      case FsyncAsync => Running(s) && s.h.stores != [] && Do(s, a) == DoFsyncAsync(s)
      case FutexSet => s.ctrl.toSet > 0 && Do(s, a) == DoFutexSet(s)
      case FutexWake => s.ctrl.toWake > 0 && Do(s, a) == DoFutexWake(s)
  {
    hide DoStore, DoFaultCopy, DoFaultMap, DoFaultIndex, DoFsync, DoFsyncAsync, DoFutexSet, DoFutexWake;
  }

  lemma DoesCommit(s: Db, a: Step)
    requires Enabled(s, a) && ByCommit(a)
    ensures match a
      case SConsume => s.sync.pc.Consume? && Do(s, a) == DoConsume(s)
      case SWait => s.sync.pc.AboutToWait? && Do(s, a) == Goto(s, if s.ctrl.futex then Consume else Asleep)
      case SSpurious => s.sync.pc.Asleep? && Do(s, a) == Goto(s, Consume)
      case STakeIlock => s.sync.pc.TakeIlock? && Do(s, a) == DoTakeIlock(s)
      case SProtect => s.sync.pc.Protect? && s.h.stores != [] && Do(s, a) == DoProtect(s)
      case SSwap => s.sync.pc.Swap? && Do(s, a) == DoSwap(s)
      case SSection => s.sync.pc.Section? && Do(s, a) == DoSection(s)
      case SWakeSnap => s.sync.pc.WakeSnap? && Do(s, a) == DoWakeSnap(s)
      case SWakeIdle => s.sync.pc.WakeIdle? && Do(s, a) == DoWakeIdle(s)
      case STruncate(ids) => s.sync.pc.Truncate? && Do(s, a) == DoTruncate(s, ids)
      case SCheck => s.sync.pc.Check? && AtNewPage(s) && Do(s, a) == DoCheck(s)
      case SLock => s.sync.pc.Lock? && AtNewPage(s) && Do(s, a) == DoLock(s)
      case SCowWrite => s.sync.pc.CowHashed? && AtNewPage(s) && JournalRoom(s)
                        && s.mem.npages[s.sync.ids[s.sync.i]].cow.Some? && Do(s, a) == DoCowWrite(s)
      case SMemWrite => s.sync.pc.MemHashed? && AtNewPage(s) && JournalRoom(s) && Do(s, a) == DoMemWrite(s)
  {
    hide DoConsume, DoTakeIlock, DoProtect, DoSwap, DoSection, DoWakeSnap, DoWakeIdle, DoTruncate, DoCheck, DoLock,
         DoCowWrite, DoMemWrite;
  }

  lemma DoesSync(s: Db, a: Step)
    requires Enabled(s, a) && BySync(a)
    ensures match a
      case SWriteIndex => s.sync.pc.Check? && AtIndex(s) && Do(s, a) == DoWriteIndex(s)
      case SJournalSync => s.sync.pc.JournalSync? && s.z.snaps != [] && Do(s, a) == DoJournalSync(s)
      case SDetach => s.sync.pc.Detach? && Do(s, a) == DoDetach(s)
      case SWakeCommit => s.sync.pc.WakeCommit? && Do(s, a) == DoWakeCommit(s)
      case SDataCommit => s.sync.pc.DataCommit? && AtJournalPage(s) && Do(s, a) == DoCopyPage(s)
      case SDataCommitted => s.sync.pc.DataCommit? && Do(s, a) == s.(sync := s.sync.(pc := Pc.Remap, i := 0))
      case SRemap => s.sync.pc.Remap? && s.sync.i < |s.sync.ids| && Do(s, a) == DoRemap(s)
      case SRemapped => s.sync.pc.Remap? && Do(s, a) == Goto(s, DataSync)
      case SDataSync => s.sync.pc.DataSync? && Do(s, a) == DoDataSync(s)
      case STruncateEnd => s.sync.pc.TruncateEnd? && |s.journal.cache| >= 1 && Do(s, a) == DoTruncateEnd(s)
      case SEndSync => s.sync.pc.EndSync? && Do(s, a) == DoEndSync(s)
      case SWakeSync => s.sync.pc.WakeSync? && Do(s, a) == DoWakeSync(s)
  {
    hide DoWriteIndex, DoJournalSync, DoDetach, DoWakeCommit, DoCopyPage, DoRemap, DoDataSync, DoTruncateEnd, DoEndSync,
         DoWakeSync, AtIndex, AtJournalPage;
  }

  /** The steps of an opening. */
  predicate ByOpening(a: Step) {
    a.RReopen? || a.RReplay? || a.RReplayed? || a.RSync? || a.RTruncate? || a.ROpenMap?
  }

  lemma DoesOpening(s: Db, a: Step)
    requires Enabled(s, a) && ByOpening(a)
    ensures match a
      case RReopen => |s.journal.cache| >= 1 && Do(s, a) == DoReopen(s)
      case RReplay => AtJournalPage(s) && Do(s, a) == DoCopyPage(s)
      case RReplayed => Do(s, a) == Goto(s, ReplaySync)
      case RSync => Do(s, a) == DoReplaySync(s)
      case RTruncate => |s.journal.cache| >= 1 && Do(s, a) == DoReopenTruncate(s)
      case ROpenMap => Do(s, a) == DoOpenMap(s)
  {
    hide DoReopen, DoCopyPage, DoReplaySync, DoReopenTruncate, DoOpenMap, AtJournalPage;
  }

  // ----- the invariant, step by step

  lemma ProgramInv(s: Db, a: Step)
    requires Inv(s) && Enabled(s, a) && (a.Store? || ByProgram(a))
    ensures Inv(Do(s, a))
  {
    hide Inv, Memory;
    match a
    case Store(p, v) => StoreEnabled(s, p, v); StoreInv(s, p, v);
    case FaultCopy(p) => FaultCopyInv(s, p);
    case FaultMap(enomem) => FaultMapInv(s, enomem);
    case FaultIndex => FaultIndexInv(s);
    case Fsync => FsyncInv(s);
    case FsyncAsync => FsyncAsyncInv(s);
    case FutexSet => FutexInv(s, a);
    case FutexWake => FutexInv(s, a);
  }

  lemma CommitInv(s: Db, a: Step)
    requires Inv(s) && Enabled(s, a) && ByCommit(a)
    ensures Inv(Do(s, a))
  {
    hide Inv, Memory, Resize, PageAt;
    match a
    case SConsume => WaitInv(s, a);
    case SWait => WaitInv(s, a);
    case SSpurious => WaitInv(s, a);
    case STakeIlock => TakeIlockInv(s);
    case SProtect => ProtectInv(s);
    case SSwap => SwapInv(s);
    case SSection => SectionInv(s);
    case SWakeSnap => WakeSnapInv(s);
    case SWakeIdle => WakeIdleInv(s);
    case STruncate(ids) => TruncateInv(s, ids);
    case SCheck => CheckInv(s);
    case SLock => LockInv(s);
    case SCowWrite => CowWriteInv(s);
    case SMemWrite => MemWriteInv(s);
  }

  lemma SyncInv(s: Db, a: Step)
    requires Inv(s) && Enabled(s, a) && BySync(a)
    ensures Inv(Do(s, a))
  {
    hide Inv, AtIndex, AtJournalPage;
    match a
    case SWriteIndex => WriteIndexInv(s);
    case SJournalSync => JournalSyncInv(s);
    case SDetach => DetachInv(s);
    case SWakeCommit => WakeCommitInv(s);
    case SDataCommit => DataCommitInv(s);
    case SDataCommitted => DataCommittedInv(s);
    case SRemap => RemapInv(s);
    case SRemapped => RemappedInv(s);
    case SDataSync => DataSyncInv(s);
    case STruncateEnd => TruncateEndInv(s);
    case SEndSync => EndSyncInv(s);
    case SWakeSync => WakeSyncInv(s);
  }

  lemma KernelInv(s: Db, a: Step)
    requires Inv(s) && Enabled(s, a) && !a.Store? && !ByProgram(a) && !ByCommit(a) && !BySync(a)
    ensures Inv(Do(s, a))
  {
    hide Inv, AtJournalPage;
    match a
    case WritebackData(p) => WritebackDataInv(s, p);
    case WritebackJournal(i) => WritebackJournalInv(s, i);
    case WritebackLength(ext) => WritebackLengthInv(s, ext);
    case Crash => CrashInv(s);
    case RReopen => ReopenInv(s);
    case RReplay => ReplayInv(s);
    case RReplayed => ReplayedInv(s);
    case RSync => RSyncInv(s);
    case RTruncate => RTruncateInv(s);
    case ROpenMap => ROpenMapInv(s);
  }

  lemma StoreEnabled(s: Db, p: nat, v: Page)
    requires Inv(s) && Enabled(s, Store(p, v))
    ensures p < s.n
  {
    hide LiveInv, DiskInv, CacheInv;
  }

  /** ... and so does every run. */
  lemma {:induction false} RunInv(s: Db, run: seq<Step>)
    requires Inv(s) && Possible(s, run)
    ensures Inv(After(s, run))
    decreases |run|
  {
    hide Inv, Enabled, Do;
    if run != [] {
      StepInv(s, run[0]);
      RunInv(Do(s, run[0]), run[1..]);
    }
  }

  // ----- crash safety

  /** What acid_open makes of the files a crash leaves. */
  ghost function Recovered(data: seq<Page>, journal: seq<Page>): seq<Page>
    requires |journal| >= 1
  {
    if Accepted(journal, |data|) then Replay(data, Ids(journal), DataPages(journal)) else data
  }

  ghost predicate WholeSnapshot(s: Db, image: Image) {
    exists k :: s.z.durable <= k < |s.z.snaps| && s.z.snaps[k] == image
  }

  /** Whatever the kernel has written back when the crash comes, recovery gives the image of one whole
      snapshot, and not an older one than the last whose journal fsync returned. */
  lemma CrashSafe(s: Db)
    requires Inv(s)
    ensures |s.journal.disk| >= 1 && WholeSnapshot(s, Recovered(s.data.disk, s.journal.disk))
  {
    hide LiveInv, CacheInv, Ids, DataPages, Accepted;
    if Accepted(s.journal.disk, s.n) {
      AcceptedHeader(s.n, s.journal.disk, s.z.diskHdr, s.z);
      var a := s.z.diskHdr.value;
      AcceptedReplays(s, a);
    }
  }

  lemma AcceptedReplays(s: Db, a: Attempt)
    requires Shape(s) && DiskInv(s.n, s.data, s.journal, s.sync, s.z)
    requires Accepted(s.journal.disk, s.n) && s.z.diskHdr == Some(a)
    requires Ids(s.journal.disk) == a.c.ids && DataPages(s.journal.disk) == a.c.pages
    ensures Recovered(s.data.disk, s.journal.disk) == s.z.snaps[a.snap]
    ensures s.z.durable <= a.snap < |s.z.snaps|
  {
    hide Accepted, RawIndex, Ids, DataPages;
    assert AttemptInv(s.n, a, s.z);
    forall p | 0 <= p < s.n && p !in a.c.ids ensures s.data.disk[p] == s.z.snaps[a.snap][p] {
    }
    ReplayImage(s.data.disk, s.z.snaps[a.snap], a.c.ids, a.c.pages);
  }

  /** ... for every run from the first opening of a database, however often it crashed and recovered before,
      in the middle of recoveries too. */
  lemma RunCrashSafe(image: Image, addr: nat, run: seq<Step>)
    requires 1 <= |image| <= MAX_PAGES && addr < MAX64
    requires Possible(Init(image, addr), run)
    ensures var s := After(Init(image, addr), run);
      && |s.journal.disk| >= 1 && WholeSnapshot(s, Recovered(s.data.disk, s.journal.disk))
      && (s.sync.pc.OpenMap? ==>
            s.data.cache == s.data.disk && s.z.durable < |s.z.snaps| && s.data.disk == s.z.snaps[s.z.durable])
  {
    var s := After(Init(image, addr), run);
    InitInv(image, addr);
    RunInv(Init(image, addr), run);
    hide After, Possible;
    CrashSafe(s);
    if s.sync.pc.OpenMap? {
      hide LiveInv;
      OpenMapCache(s);
    }
  }

  /** Snapshots are never forgotten, and the durable one only moves forward. */
  lemma StepDurable(s: Db, a: Step)
    requires Inv(s) && Enabled(s, a)
    ensures s.z.snaps <= Do(s, a).z.snaps && s.z.durable <= Do(s, a).z.durable
  {
    hide LiveInv, CacheInv, DiskInv, Enabled, Do;
    if a.Store? {
      StoreHistory(s, a);
    } else if a.RReopen? {
      ReopenDurable(s);
    } else if ByProgram(a) {
      ProgramHistory(s, a);
    } else if ByCommit(a) {
      CommitHistory(s, a);
    } else {
      RestHistory(s, a);
    }
  }

  lemma StoreHistory(s: Db, a: Step)
    requires Enabled(s, a) && a.Store?
    ensures Do(s, a).z == s.z
  {
    hide Memory;
  }

  lemma ReopenDurable(s: Db)
    requires Inv(s) && Enabled(s, RReopen)
    ensures s.z.snaps <= Do(s, RReopen).z.snaps && s.z.durable <= Do(s, RReopen).z.durable
  {
    hide LiveInv, CacheInv, Accepted, RawIndex;
    if s.z.cacheHdr.Some? {
      assert AttemptInv(s.n, s.z.cacheHdr.value, s.z);
    }
  }

  lemma {:induction false} RunDurable(s: Db, run: seq<Step>)
    requires Inv(s) && Possible(s, run)
    ensures s.z.snaps <= After(s, run).z.snaps && s.z.durable <= After(s, run).z.durable
    decreases |run|
  {
    hide Inv, Enabled, Do;
    if run != [] {
      StepInv(s, run[0]);
      StepDurable(s, run[0]);
      RunDurable(Do(s, run[0]), run[1..]);
    }
  }

  /** Once the fsync of the journal has returned, every later crash recovers that snapshot or a newer one. */
  lemma SyncedSurvives(s: Db, run: seq<Step>)
    requires Inv(s) && Enabled(s, SJournalSync) && Possible(Do(s, SJournalSync), run)
    ensures var t := After(Do(s, SJournalSync), run);
      exists k :: |s.z.snaps| - 1 <= k < |t.z.snaps| && |t.journal.disk| >= 1
                  && t.z.snaps[k] == Recovered(t.data.disk, t.journal.disk)
  {
    hide Inv, Do, Enabled, After, Possible, WholeSnapshot;
    var u := Do(s, SJournalSync);
    JournalSyncMarks(s);
    StepInv(s, SJournalSync);
    RunInv(u, run);
    RunDurable(u, run);
    var t := After(u, run);
    CrashSafe(t);
    var k := SnapshotNumber(t, Recovered(t.data.disk, t.journal.disk));
  }

  lemma JournalSyncMarks(s: Db)
    requires Enabled(s, SJournalSync)
    ensures Do(s, SJournalSync).z.durable == |s.z.snaps| - 1
  {
  }

  lemma SnapshotNumber(s: Db, image: Image) returns (k: nat)
    requires WholeSnapshot(s, image)
    ensures s.z.durable <= k < |s.z.snaps| && s.z.snaps[k] == image
  {
    k :| s.z.durable <= k < |s.z.snaps| && s.z.snaps[k] == image;
  }

  // ----- the snapshot and the journal

  /** In every interleaving the finished journal holds, for exactly the pages that were dirty, their content
      at the instant of the snapshot; all other pages were the same as in the data file. */
  lemma JournalIsSnapshot(s: Db)
    requires Inv(s) && s.sync.pc.JournalSync?
    ensures var j := s.journal.cache;
      && |j| >= 1 && Accepted(j, s.n) && s.z.snaps != [] && s.z.snaps[|s.z.snaps| - 1] == s.h.snapImage
      && Ids(j) == s.sync.ids && (forall id | id in Ids(j) :: id < s.n)
      && (forall k | 0 <= k < NPages(j) :: DataPages(j)[k] == s.h.snapImage[Ids(j)[k]])
      && (forall p | 0 <= p < s.n && p !in Ids(j) :: s.data.disk[p] == s.h.snapImage[p])
  {
    hide MemInv, NewInv, CacheInv, CtrlInv, FidInv, Complete, Accepted, Ids, DataPages, HeaderInv;
    var c := s.z.cacheHdr.value.c;
    CompleteAccepted(s.journal.cache, c, s.n);
  }

  /** The assertion after the journal fsync never fails. */
  lemma JournalVerified(s: Db)
    requires Inv(s) && (s.sync.pc.WakeCommit? || s.sync.pc.DataCommit?)
    ensures |s.journal.cache| >= 1 && Accepted(s.journal.cache, s.n)
  {
    hide MemInv, NewInv, JobInv, SnapInv, DiskInv, CacheInv, FidInv, CtrlInv;
    JournalReads(s);
  }

  /** Each new page, while the loop runs: buffered, or copied with the snapshot's content, or still write
      protected with memory unchanged since the snapshot. */
  lemma NewPageSafe(s: Db, p: nat)
    requires Inv(s) && Running(s) && p in s.mem.npages
    ensures p < s.n && var e := s.mem.npages[p];
      || e.jbuffered
      || (e.cow.Some? && e.cow.value == s.h.snapImage[p])
      || (p !in s.mem.writable && PageAt(s.mem, s.data.cache, p) == s.h.snapImage[p])
  {
    hide JobInv, SnapInv, DiskInv, CacheInv, FidInv, CtrlInv;
    NewPageContent(s, p);
    assert NewPageInv(s.mem, s.h.snapImage, p);
  }

  // ----- what the program sees

  /** No step but a store changes what the program reads: not the copying into the file under its mapping,
      not the remapping, not a fault. */
  lemma OnlyStoresChangeMemory(s: Db, a: Step)
    requires Inv(s) && Running(s) && Enabled(s, a) && !a.Store? && !a.Crash?
    ensures Memory(Do(s, a).mem, Do(s, a).data.cache) == Memory(s.mem, s.data.cache)
  {
    hide Do, Enabled, NewInv, JobInv, SnapInv, DiskInv, CacheInv, CtrlInv, FidInv, Bounded, Memory;
    StepInv(s, a);
    var t := Do(s, a);
    SameStores(s, a);
    assert s.h.stores[|s.h.stores| - 1] == Memory(s.mem, s.data.cache);
    assert t.h.stores[|t.h.stores| - 1] == Memory(t.mem, t.data.cache);
  }

  lemma SameStores(s: Db, a: Step)
    requires Running(s) && Enabled(s, a) && !a.Store? && !a.Crash?
    ensures Running(Do(s, a)) && Do(s, a).h.stores == s.h.stores
  {
    hide Enabled, Do;
    if ByProgram(a) {
      ProgramHistory(s, a);
    } else if ByCommit(a) {
      CommitHistory(s, a);
    } else {
      RestHistory(s, a);
    }
  }

  lemma ProgramHistory(s: Db, a: Step)
    requires Enabled(s, a) && ByProgram(a)
    ensures Running(s) ==> Running(Do(s, a)) && Do(s, a).h.stores == s.h.stores
    ensures Do(s, a).z == s.z
  {
    hide Memory, PageAt;
  }

  lemma CommitHistory(s: Db, a: Step)
    requires Enabled(s, a) && ByCommit(a)
    ensures Running(Do(s, a)) && Do(s, a).h.stores == s.h.stores
    ensures s.z.snaps <= Do(s, a).z.snaps && Do(s, a).z.durable == s.z.durable
  {
    hide Enabled, Do;
    if a.STruncate? || a.SCheck? || a.SLock? || a.SCowWrite? || a.SMemWrite? {
      LoopHistory(s, a);
    } else {
      BeforeLoopHistory(s, a);
    }
  }

  lemma BeforeLoopHistory(s: Db, a: Step)
    requires Enabled(s, a) && ByCommit(a)
    requires !a.STruncate? && !a.SCheck? && !a.SLock? && !a.SCowWrite? && !a.SMemWrite?
    ensures Running(Do(s, a)) && Do(s, a).h.stores == s.h.stores
    ensures s.z.snaps <= Do(s, a).z.snaps && Do(s, a).z.durable == s.z.durable
  {
    hide Memory, PageAt, Resize, Unwritten, IndexPages;
  }

  lemma LoopHistory(s: Db, a: Step)
    requires Enabled(s, a) && (a.STruncate? || a.SCheck? || a.SLock? || a.SCowWrite? || a.SMemWrite?)
    ensures Running(Do(s, a)) && Do(s, a).h.stores == s.h.stores
    ensures s.z.snaps <= Do(s, a).z.snaps && Do(s, a).z.durable == s.z.durable
  {
    hide Memory, PageAt, Resize, Unwritten, IndexPages;
  }

  lemma RestHistory(s: Db, a: Step)
    requires Enabled(s, a) && !ByProgram(a) && !ByCommit(a) && !a.Store?
    ensures Running(s) && !a.Crash? ==> Running(Do(s, a)) && Do(s, a).h.stores == s.h.stores
    ensures s.z.snaps <= Do(s, a).z.snaps
    ensures !a.SJournalSync? && !a.RReopen? ==> Do(s, a).z.durable == s.z.durable
    ensures a.SJournalSync? ==> Do(s, a).z.durable == |s.z.snaps| - 1
  {
    hide Memory, PageAt, WriteStart, RawIndex, Ids, DataPages, SizesAgree, Accepted, IndexPages;
  }

  /** A fault on a page that is dirty already finds it open: the faulting store succeeds when retried. */
  lemma DirtyPageIsOpen(s: Db)
    requires Inv(s) && Running(s) && s.mem.ilock.Copied? && s.mem.ilock.page in s.mem.dpages
    ensures s.mem.ilock.page in s.mem.writable
  {
    hide NewInv, JobInv, SnapInv, DiskInv, CacheInv, CtrlInv, FidInv;
  }

  // ----- waiters

  /** A released commit waiter: all writes that were complete when it registered are in the durable snapshot. */
  lemma CommitWaiterSafe(s: Db, f: nat)
    requires Inv(s) && Running(s) && f != 0 && f in s.w.commit
    ensures f in s.w.regs && exists k :: s.w.regs[f] <= k < |s.h.stores| && s.h.stores[k] == s.z.snaps[s.z.durable]
  {
    hide MemInv, NewInv, JobInv, DiskInv, CacheInv, CtrlInv;
    assert Covered(s.ctrl, s.w, f, s.h.durStores);
    assert s.h.stores[s.h.durStores] == s.z.snaps[s.z.durable];
  }

  /** A released sync waiter: they are in the snapshot the data file was last synced to, too. */
  lemma SyncWaiterSafe(s: Db, f: nat)
    requires Inv(s) && Running(s) && f != 0 && f in s.w.sync
    ensures f in s.w.regs && exists k :: s.w.regs[f] <= k < |s.h.stores| && s.h.stores[k] == s.z.snaps[s.z.base]
    ensures !Persisted(s.sync) ==> s.data.disk == s.z.snaps[s.z.base]
  {
    hide MemInv, NewInv, JobInv, CacheInv, CtrlInv, HeaderInv, Accepted;
    assert Covered(s.ctrl, s.w, f, s.h.baseStores);
    assert s.h.stores[s.h.baseStores] == s.z.snaps[s.z.base];
  }

  /** A released snapshot waiter: they are in the last snapshot taken. */
  lemma SnapshotWaiterSafe(s: Db, f: nat)
    requires Inv(s) && Running(s) && f != 0 && f in s.w.snap
    ensures f in s.w.regs && exists k :: s.w.regs[f] <= k < |s.h.stores| && s.h.stores[k] == s.h.snapImage
  {
    hide NewInv, JobInv, DiskInv, CacheInv, CtrlInv, SnapInv, Bounded;
    assert Covered(s.ctrl, s.w, f, s.h.snapStores);
    assert s.h.stores[s.h.snapStores] == s.h.snapImage;
  }

  /** No request is lost: a registered fiber has a commit ordered for it, and a sync thread that sleeps on an
      ordered commit has a wake-up coming. */
  lemma NoLostRequest(s: Db)
    requires Inv(s) && Running(s)
    ensures s.ctrl.fids != NO_FIDS ==> s.ctrl.op.OpCommit?
    ensures s.sync.pc.Asleep? && s.ctrl.op.OpCommit? ==> s.ctrl.toSet > 0 || s.ctrl.toWake > 0
    ensures s.ctrl.inSyncPhase <==> InSync(s.sync)
  {
    hide MemInv, NewInv, JobInv, SnapInv, DiskInv, CacheInv, FidInv;
  }
}
