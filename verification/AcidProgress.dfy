/** The protocol never gets stuck, and whoever waits for a commit can be served without help from outside. */
module AcidProgress {
  import opened AcidJournal
  import opened AcidProtocol
  import opened AcidInvariant
  import opened AcidCommitSteps
  import opened AcidDiskSteps
  import opened AcidTheorems

  /** A step that needs no application thread to move and no crash. */
  predicate Internal(a: Step) {
    !a.Store? && !a.FaultCopy? && !a.Fsync? && !a.FsyncAsync? && !a.Crash? && !a.SSpurious?
    && !a.WritebackData? && !a.WritebackJournal? && !a.WritebackLength?
  }

  /** The pages below n of a set, in ascending order. */
  function Sorted(pages: set<nat>, n: nat): (ids: seq<nat>)
    ensures Ascending(ids) && Below(ids, n)
    ensures (forall p | p in pages :: p < n) ==> Lists(ids, pages)
    ensures forall p | p in ids :: p in pages
  {
    if n == 0 then [] else
      var rest := Sorted(pages - {n - 1}, n - 1);
      if n - 1 in pages then rest + [n - 1] else rest
  }

  /** The step to take next: a fault handler's first, then the sync thread's, or that of whoever must wake it. */
  ghost function Choice(s: Db): (a: Step)
    ensures Internal(a)
  {
    if Running(s) && s.mem.ilock.Copied? then FaultMap(false)
    else if Running(s) && s.mem.ilock.Mapped? then FaultIndex
    else
      match s.sync.pc
      case Consume => SConsume
      case AboutToWait => SWait
      case Asleep => if s.ctrl.toSet > 0 then FutexSet else FutexWake
      case TakeIlock => STakeIlock
      case Protect => SProtect
      case Swap => SSwap
      case Section => SSection
      case WakeSnap => SWakeSnap
      case WakeIdle => SWakeIdle
      case Truncate => STruncate(Sorted(s.mem.npages.Keys, s.n))
      case Check => if s.sync.i < |s.sync.ids| then SCheck else SWriteIndex
      case Lock => SLock
      case CowHashed => SCowWrite
      case MemHashed => SMemWrite
      case JournalSync => SJournalSync
      case Detach => SDetach
      case WakeCommit => SWakeCommit
      case DataCommit => if s.sync.i < |s.sync.ids| then SDataCommit else SDataCommitted
      case Remap => if s.sync.i < |s.sync.ids| then SRemap else SRemapped
      case DataSync => SDataSync
      case TruncateEnd => STruncateEnd
      case EndSync => SEndSync
      case WakeSync => SWakeSync
      case Reopen => RReopen
      case ReplayPage => if |s.journal.cache| >= 1 && s.sync.i < NPages(s.journal.cache) then RReplay else RReplayed
      case ReplaySync => RSync
      case ReopenTruncate => RTruncate
      case OpenMap => ROpenMap
  }

  predicate Idle(s: Db) {
    s.sync.pc.Asleep? && s.ctrl.op.OpNone? && s.mem.ilock.Free?
  }

  /** The database never gets stuck: it sleeps with nothing ordered, or some handler, waker, or the sync
      thread (or recovery) can take its next step. */
  lemma Progress(s: Db)
    requires Inv(s)
    ensures Idle(s) || Enabled(s, Choice(s))
  {
    hide Inv, Enabled, Choice;
    if Running(s) && (s.mem.ilock.Copied? || s.mem.ilock.Mapped?) {
      NextHandler(s);
    } else if s.sync.pc.Consume? || s.sync.pc.AboutToWait? || s.sync.pc.Asleep? || s.sync.pc.TakeIlock? {
      NextWait(s);
    } else if Settled(s.sync) || s.sync.pc.Swap? || s.sync.pc.Section? || s.sync.pc.WakeSnap? {
      NextOutside(s);
    } else if s.sync.pc.Truncate? || Looping(s.sync) || s.sync.pc.JournalSync? {
      NextJournal(s);
    } else if Persisted(s.sync) {
      NextData(s);
    } else {
      NextReopen(s);
    }
  }

  lemma NextHandler(s: Db)
    requires Running(s) && (s.mem.ilock.Copied? || s.mem.ilock.Mapped?)
    ensures Enabled(s, Choice(s))
  {
  }

  lemma NextWait(s: Db)
    requires Inv(s) && !s.mem.ilock.Copied? && !s.mem.ilock.Mapped?
    requires s.sync.pc.Consume? || s.sync.pc.AboutToWait? || s.sync.pc.Asleep? || s.sync.pc.TakeIlock?
    ensures Idle(s) || Enabled(s, Choice(s))
  {
    hide NewInv, JobInv, SnapInv, DiskInv, CacheInv, FidInv, Bounded, Memory;
  }

  lemma NextOutside(s: Db)
    requires Inv(s) && !s.mem.ilock.Copied? && !s.mem.ilock.Mapped?
    requires Settled(s.sync) || s.sync.pc.Swap? || s.sync.pc.Section? || s.sync.pc.WakeSnap?
    requires !(s.sync.pc.Consume? || s.sync.pc.AboutToWait? || s.sync.pc.Asleep? || s.sync.pc.TakeIlock?)
    ensures Enabled(s, Choice(s))
  {
    hide NewInv, JobInv, SnapInv, DiskInv, CacheInv, FidInv, Bounded, Memory;
  }

  lemma NextJournal(s: Db)
    requires Inv(s) && !s.mem.ilock.Copied? && !s.mem.ilock.Mapped?
    requires s.sync.pc.Truncate? || Looping(s.sync) || s.sync.pc.JournalSync?
    ensures Enabled(s, Choice(s))
  {
    hide MemInv, SnapInv, DiskInv, CacheInv, FidInv, CtrlInv, WrittenInv, NewInv, JobInv;
    if s.sync.pc.Truncate? {
      BoundedPages(s);
    } else if !s.sync.pc.JournalSync? {
      LoopGuards(s.n, s.mem.npages, s.sync, s.journal.cache, s.h.snapImage, s.z, s.rev, s.addr);
    }
  }

  lemma BoundedPages(s: Db)
    requires Shape(s) && NewInv(s.n, s.mem, s.sync, s.h.snapImage)
    ensures forall p | p in s.mem.npages.Keys :: p < s.n
  {
  }

  /** What the journal loop needs for its next step is always there. */
  lemma LoopGuards(n: nat, npages: map<nat, NewPage>, y: Sync, jcache: seq<Page>, image: Image, z: Snapshots,
                   rev: nat, addr: nat)
    requires |image| == n && n <= MAX_PAGES && Looping(y) && JobInv(n, npages, y, jcache, image, z)
    requires rev < MAX64 && addr < MAX64
    ensures y.i <= |y.ids| && (!y.pc.Check? ==> y.i < |y.ids|)
    ensures y.i < |y.ids| ==>
      && y.ids[y.i] in npages && y.ids[y.i] < n
      && (y.pc.CowHashed? ==> npages[y.ids[y.i]].cow.Some?)
      && IndexPages(|y.ids|) + y.i < |jcache|
    ensures y.pc.Check? && y.i == |y.ids| ==>
      && Commit(rev, addr, y.ids, y.hashed).Valid()
      && HEADER_WORDS + 2 * |y.ids| <= PAGE_WORDS * |jcache|
  {
    assert LoopInv(n, y, jcache, image) && TodoInv(npages, y);
    hide WrittenInv;
  }

  lemma NextData(s: Db)
    requires Inv(s) && Persisted(s.sync) && !s.mem.ilock.Copied? && !s.mem.ilock.Mapped?
    ensures Enabled(s, Choice(s))
  {
    hide NewInv, SnapInv, DiskInv, FidInv, CtrlInv, JobInv, MemInv, Ids, DataPages, AttemptInv, Accepted;
    JournalReads(s);
    AcceptedSizes(s.journal.cache, s.n);
    HolderOf(s);
  }

  lemma AcceptedSizes(j: seq<Page>, n: nat)
    requires |j| >= 1 && Accepted(j, n)
    ensures SizesAgree(j) && Below(Ids(j), n)
  {
  }

  lemma HolderOf(s: Db)
    requires Shape(s) && MemInv(s.n, s.mem, s.data.cache, s.sync, s.h) && Persisted(s.sync)
    ensures !s.mem.ilock.SyncHolds?
  {
  }

  lemma NextReopen(s: Db)
    requires Inv(s) && !Running(s)
    ensures Enabled(s, Choice(s))
  {
    hide LiveInv, Ids, DataPages, DiskInv, AttemptInv, Accepted;
    if Replaying(s.sync) {
      ReplayReads(s);
      AcceptedSizes(s.journal.cache, s.n);
      AttemptSizes(s.n, s.z.diskHdr.value, s.z);
    }
  }

  // ----- waiters are served

  /** The three things a fiber may wait for. */
  datatype Wish = ForSnapshot | ForCommit | ForSync

  function FidOf(fs: Fids, k: Wish): nat {
    match k
    case ForSnapshot => fs.snap
    case ForCommit => fs.commit
    case ForSync => fs.sync
  }

  function Served(w: Waiters, k: Wish): set<nat> {
    match k
    case ForSnapshot => w.snap
    case ForCommit => w.commit
    case ForSync => w.sync
  }

  /** Before the place where waiters for the commit are released. */
  predicate BeforeWake(y: Sync) {
    || y.pc.WakeSnap? || y.pc.WakeIdle? || y.pc.Truncate? || Looping(y) || y.pc.JournalSync? || y.pc.Detach?
    || y.pc.WakeCommit?
  }

  /** The sync thread took the fiber along and has not come to the place where it cancels it. */
  predicate Owes(y: Sync, k: Wish) {
    match k
    case ForSnapshot => y.pc.WakeSnap?
    case ForCommit => Taken(y) && BeforeWake(y)
    case ForSync => Taken(y)
  }

  predicate Waiting(s: Db, k: Wish, f: nat) {
    f != 0 && (f == FidOf(s.ctrl.fids, k) || (f == FidOf(s.sync.fids, k) && Owes(s.sync, k)))
  }

  function Left(y: Sync): nat {
    if y.i <= |y.ids| then |y.ids| - y.i else 0
  }

  /** At most so many steps of the sync thread are left to the end of the section in which it takes the fibers. */
  function Ahead(n: nat, y: Sync): nat {
    match y.pc
    case WakeSnap => 21 + 6 * n
    case Truncate => 20 + 6 * n
    case Check => 16 + 2 * n + 4 * Left(y) + 3
    case Lock => 16 + 2 * n + 4 * Left(y) + 2
    case CowHashed => 16 + 2 * n + 4 * Left(y) + 1
    case MemHashed => 16 + 2 * n + 4 * Left(y) + 1
    case JournalSync => 16 + 2 * n
    case Detach => 15 + 2 * n
    case WakeCommit => 14 + 2 * n
    case DataCommit => 13 + n + Left(y)
    case Remap => 12 + Left(y)
    case DataSync => 11
    case TruncateEnd => 10
    case EndSync => 9
    case WakeSync => 8
    case WakeIdle => 8
    case AboutToWait => 7
    case Asleep => 6
    case Consume => 5
    case TakeIlock => 4
    case Protect => 3
    case Swap => 2
    case Section => 1
    case _ => 0
  }

  /** At most so many turns are left until the fiber is released: a fiber that is still registered waits for the
      commit that is running, for the requesters that owe a wake-up, and for its own commit. */
  function Turns(s: Db, k: Wish, f: nat): nat {
    Ahead(s.n, s.sync)
    + if f == FidOf(s.ctrl.fids, k) then 22 + 6 * s.n + 2 * s.ctrl.toSet + s.ctrl.toWake else 0
  }

  /** A step of the sync thread, or one of a requester that has to wake it while it sleeps. */
  predicate IsTurn(s: Db, a: Step) {
    ByCommit(a) || BySync(a) || (s.sync.pc.Asleep? && (a.FutexSet? || a.FutexWake?))
  }

  /** What holds while a fiber waits. */
  predicate Patient(s: Db, k: Wish, f: nat) {
    && Running(s) && Waiting(s, k, f) && f < s.ctrl.nextFid
    && (f == FidOf(s.ctrl.fids, k) ==> s.ctrl.op.OpCommit?)
    && (HasIds(s.sync) ==> |s.sync.ids| <= s.n)
    && (s.sync.pc.DataCommit? ==> |s.journal.cache| >= 1 && NPages(s.journal.cache) == |s.sync.ids|)
  }

  lemma IsPatient(s: Db, k: Wish, f: nat)
    requires Inv(s) && Running(s) && Waiting(s, k, f)
    ensures Patient(s, k, f)
  {
    hide MemInv, NewInv, SnapInv, DiskInv, CacheInv, JobInv, Ids, DataPages, Accepted;
    WaitingFids(s, k, f);
    if HasIds(s.sync) {
      IdsShort(s);
    }
    if Persisted(s.sync) {
      JournalReads(s);
    }
  }

  lemma WaitingFids(s: Db, k: Wish, f: nat)
    requires FidInv(s.ctrl, s.sync, s.h, s.w) && CtrlInv(s.ctrl, s.sync) && Waiting(s, k, f)
    ensures f < s.ctrl.nextFid && (f == FidOf(s.ctrl.fids, k) ==> s.ctrl.op.OpCommit?)
  {
  }

  lemma IdsShort(s: Db)
    requires Shape(s) && HasIds(s.sync)
    requires JobInv(s.n, s.mem.npages, s.sync, s.journal.cache, s.h.snapImage, s.z)
    ensures |s.sync.ids| <= s.n
  {
    hide LoopInv, TodoInv, WrittenInv;
  }

  /** The fiber is released, or it waits on, and a turn has been used. */
  predicate Advanced(s: Db, t: Db, k: Wish, f: nat, turn: bool) {
    && Running(t) && Served(s.w, k) <= Served(t.w, k)
    && (f in Served(t.w, k) || (Waiting(t, k, f) && Turns(t, k, f) + (if turn then 1 else 0) <= Turns(s, k, f)))
  }

  /** Only requests register, only stores are recorded. */
  predicate SameRequests(s: Db, t: Db, a: Step) {
    && (a.Fsync? || a.FsyncAsync? || t.w.regs == s.w.regs)
    && (a.Store? || t.h.stores == s.h.stores)
  }

  /** Whatever steps the program and the kernel take, a waiting fiber waits for no more turns than before, and for one
      less after each turn. */
  lemma TurnStep(s: Db, a: Step, k: Wish, f: nat)
    requires Inv(s) && Running(s) && Waiting(s, k, f) && Enabled(s, a) && !a.Crash?
    ensures Advanced(s, Do(s, a), k, f, IsTurn(s, a)) && SameRequests(s, Do(s, a), a)
  {
    IsPatient(s, k, f);
    hide Inv, Enabled, Do, Advanced, SameRequests, Patient, Waiting;
    if a.Store? || ByProgram(a) {
      ProgramTurn(s, a, k, f);
    } else if a.STruncate? {
      TruncateShort(s, a.ids);
      TruncateTurn(s, a.ids, k, f);
    } else if ByCommit(a) {
      CommitTurn(s, a, k, f);
    } else if BySync(a) {
      SyncTurn(s, a, k, f);
    } else {
      KernelTurn(s, a, k, f);
    }
  }

  lemma ProgramTurn(s: Db, a: Step, k: Wish, f: nat)
    requires Patient(s, k, f) && Enabled(s, a) && (a.Store? || ByProgram(a))
    ensures Advanced(s, Do(s, a), k, f, IsTurn(s, a)) && SameRequests(s, Do(s, a), a)
  {
    hide Enabled, Do, Advanced, SameRequests, Patient;
    if a.Fsync? || a.FsyncAsync? || a.FutexSet? || a.FutexWake? {
      AskTurn(s, a, k, f);
    } else {
      StoreTurn(s, a, k, f);
    }
  }

  lemma AskTurn(s: Db, a: Step, k: Wish, f: nat)
    requires Patient(s, k, f) && Enabled(s, a) && (a.Fsync? || a.FsyncAsync? || a.FutexSet? || a.FutexWake?)
    ensures Advanced(s, Do(s, a), k, f, IsTurn(s, a)) && SameRequests(s, Do(s, a), a)
  {
    hide Enabled, Do, Advanced, SameRequests, Patient, DoFsync, DoFsyncAsync, DoFutexWake, DoFutexSet;
    DoesProgram(s, a);
    if a.Fsync? || a.FsyncAsync? {
      RequestTurn(s, a, k, f);
    } else {
      FutexTurn(s, a, k, f);
    }
  }

  lemma StoreTurn(s: Db, a: Step, k: Wish, f: nat)
    requires Patient(s, k, f) && Enabled(s, a) && (a.Store? || a.FaultCopy? || a.FaultMap? || a.FaultIndex?)
    ensures Advanced(s, Do(s, a), k, f, IsTurn(s, a)) && SameRequests(s, Do(s, a), a)
  {
    hide Enabled, Do, Advanced, SameRequests, Patient, DoStore, DoFaultCopy, DoFaultMap, DoFaultIndex;
    DoesProgram(s, a);
    HandlerOnly(s, a);
    HandlerTurn(s, Do(s, a), a, k, f);
  }

  lemma HandlerOnly(s: Db, a: Step)
    requires match a
      case Store(p, v) => p < |s.data.cache|
      case FaultCopy(p) => p < |s.data.cache|
      case FaultMap(enomem) => s.mem.ilock.Copied?
      case FaultIndex => s.mem.ilock.Mapped?
      case _ => false
    ensures match a
      case Store(p, v) => var t := DoStore(s, p, v); t == s.(mem := t.mem, h := t.h)
      case FaultCopy(p) => var t := DoFaultCopy(s, p); t == s.(mem := t.mem)
      case FaultMap(enomem) => var t := DoFaultMap(s, enomem); t == s.(mem := t.mem)
      case FaultIndex => var t := DoFaultIndex(s); t == s.(mem := t.mem)
      case _ => true
  {
    hide Memory, PageAt;
  }

  lemma HandlerTurn(s: Db, t: Db, a: Step, k: Wish, f: nat)
    requires Patient(s, k, f) && t == s.(mem := t.mem, h := t.h) && (a.Store? || t.h == s.h)
    ensures Advanced(s, t, k, f, false) && SameRequests(s, t, a)
  {
    hide Ahead;
  }

  lemma RequestTurn(s: Db, a: Step, k: Wish, f: nat)
    requires Patient(s, k, f) && s.h.stores != [] && (a.Fsync? || a.FsyncAsync?)
    ensures Advanced(s, if a.Fsync? then DoFsync(s) else DoFsyncAsync(s), k, f, false)
    ensures SameRequests(s, if a.Fsync? then DoFsync(s) else DoFsyncAsync(s), a)
  {
    hide Ahead;
  }

  lemma FutexTurn(s: Db, a: Step, k: Wish, f: nat)
    requires Patient(s, k, f) && (if a.FutexSet? then s.ctrl.toSet > 0 else a.FutexWake? && s.ctrl.toWake > 0)
    ensures Advanced(s, if a.FutexSet? then DoFutexSet(s) else DoFutexWake(s), k, f, s.sync.pc.Asleep?)
    ensures SameRequests(s, if a.FutexSet? then DoFutexSet(s) else DoFutexWake(s), a)
  {
  }

  lemma TruncateShort(s: Db, ids: seq<nat>)
    requires Inv(s) && Running(s) && Enabled(s, STruncate(ids))
    ensures |ids| <= s.n
  {
    hide MemInv, SnapInv, DiskInv, CacheInv, JobInv, CtrlInv, FidInv, NewInv;
    BoundedPages(s);
    AscendingSize(ids, s.n);
  }

  lemma TruncateTurn(s: Db, ids: seq<nat>, k: Wish, f: nat)
    requires Patient(s, k, f) && Enabled(s, STruncate(ids)) && |ids| <= s.n
    ensures Advanced(s, Do(s, STruncate(ids)), k, f, true) && SameRequests(s, Do(s, STruncate(ids)), STruncate(ids))
  {
    hide Enabled, Do, Resize, IndexPages;
    DoesCommit(s, STruncate(ids));
  }

  /** The sync thread goes on, and takes and releases no one. */
  predicate Onward(s: Db, t: Db) {
    && t.n == s.n && Running(t) && t.w == s.w && t.h.stores == s.h.stores
    && t.ctrl == s.ctrl.(futex := t.ctrl.futex, inSyncPhase := t.ctrl.inSyncPhase)
    && t.sync.fids == s.sync.fids && Ahead(t.n, t.sync) < Ahead(s.n, s.sync)
    && (Taken(s.sync) ==> Taken(t.sync)) && (BeforeWake(s.sync) ==> BeforeWake(t.sync)) && !s.sync.pc.WakeSnap?
  }

  lemma OnwardTurn(s: Db, t: Db, a: Step, k: Wish, f: nat)
    requires Patient(s, k, f) && Onward(s, t) && !a.Fsync? && !a.FsyncAsync? && !a.Store?
    ensures Advanced(s, t, k, f, true) && SameRequests(s, t, a)
  {
    hide Ahead, BeforeWake, Taken, HasIds;
  }

  lemma CommitTurn(s: Db, a: Step, k: Wish, f: nat)
    requires Patient(s, k, f) && Enabled(s, a) && ByCommit(a) && !a.STruncate?
    ensures Advanced(s, Do(s, a), k, f, true) && SameRequests(s, Do(s, a), a)
  {
    hide Enabled, Do, Advanced, SameRequests, Patient, Onward, AtNewPage, JournalRoom;
    hide DoConsume, DoTakeIlock, DoProtect, DoSwap, DoSection, DoWakeSnap, DoWakeIdle, DoCheck, DoLock, DoCowWrite,
         DoMemWrite;
    DoesCommit(s, a);
    if a.SSection? {
      SectionTurn(s, a, k, f);
    } else if a.SWakeSnap? || a.SWakeIdle? {
      WakeTurn(s, a, k, f);
    } else if a.SConsume? || a.SWait? || a.SSpurious? {
      WaitOnward(s, a, k, f);
      OnwardTurn(s, Do(s, a), a, k, f);
    } else if a.STakeIlock? || a.SProtect? || a.SSwap? {
      SnapshotOnward(s, a);
      OnwardTurn(s, Do(s, a), a, k, f);
    } else {
      PageOnward(s, a);
      OnwardTurn(s, Do(s, a), a, k, f);
    }
  }

  lemma SectionTurn(s: Db, a: Step, k: Wish, f: nat)
    requires Patient(s, k, f) && s.sync.pc.Section? && a.SSection?
    ensures Advanced(s, DoSection(s), k, f, true) && SameRequests(s, DoSection(s), a)
  {
  }

  lemma WakeTurn(s: Db, a: Step, k: Wish, f: nat)
    requires Patient(s, k, f) && ((a.SWakeSnap? && s.sync.pc.WakeSnap?) || (a.SWakeIdle? && s.sync.pc.WakeIdle?))
    ensures var t := if a.SWakeSnap? then DoWakeSnap(s) else DoWakeIdle(s);
      Advanced(s, t, k, f, true) && SameRequests(s, t, a)
  {
  }

  lemma WaitOnward(s: Db, a: Step, k: Wish, f: nat)
    requires Patient(s, k, f)
    requires (a.SConsume? && s.sync.pc.Consume?) || (a.SWait? && s.sync.pc.AboutToWait?)
             || (a.SSpurious? && s.sync.pc.Asleep?)
    ensures Onward(s, if a.SConsume? then DoConsume(s)
                      else Goto(s, if a.SWait? && !s.ctrl.futex then Asleep else Consume))
  {
  }

  lemma SnapshotOnward(s: Db, a: Step)
    requires a.SProtect? ==> s.h.stores != []
    requires (a.STakeIlock? && s.sync.pc.TakeIlock?) || (a.SProtect? && s.sync.pc.Protect?)
             || (a.SSwap? && s.sync.pc.Swap?)
    ensures Onward(s, if a.STakeIlock? then DoTakeIlock(s) else if a.SProtect? then DoProtect(s) else DoSwap(s))
  {
    hide Memory, Unwritten;
  }

  lemma PageOnward(s: Db, a: Step)
    requires AtNewPage(s) && (a.SCowWrite? || a.SMemWrite? ==> JournalRoom(s))
    requires (a.SCheck? && s.sync.pc.Check?) || (a.SLock? && s.sync.pc.Lock?) || (a.SMemWrite? && s.sync.pc.MemHashed?)
             || (a.SCowWrite? && s.sync.pc.CowHashed? && s.mem.npages[s.sync.ids[s.sync.i]].cow.Some?)
    ensures Onward(s, match a
                      case SCheck => DoCheck(s)
                      case SLock => DoLock(s)
                      case SCowWrite => DoCowWrite(s)
                      case _ => DoMemWrite(s))
  {
    hide PageAt, IndexPages;
  }

  lemma SyncTurn(s: Db, a: Step, k: Wish, f: nat)
    requires Patient(s, k, f) && Enabled(s, a) && BySync(a)
    ensures Advanced(s, Do(s, a), k, f, true) && SameRequests(s, Do(s, a), a)
  {
    hide Enabled, Do, Advanced, SameRequests, Patient, Onward, AtIndex, AtJournalPage;
    hide DoWriteIndex, DoJournalSync, DoDetach, DoWakeCommit, DoCopyPage, DoRemap, DoDataSync, DoTruncateEnd, DoEndSync,
         DoWakeSync;
    DoesSync(s, a);
    if a.SWakeCommit? || a.SWakeSync? {
      ReleaseTurn(s, a, k, f);
    } else if a.SDataCommit? || a.SDataCommitted? || a.SRemap? || a.SRemapped? {
      CopyOnward(s, a, k, f);
      OnwardTurn(s, Do(s, a), a, k, f);
    } else if a.SWriteIndex? || a.SJournalSync? {
      JournalOnward(s, a);
      OnwardTurn(s, Do(s, a), a, k, f);
    } else if a.STruncateEnd? || a.SEndSync? {
      EndOnward(s, a);
      OnwardTurn(s, Do(s, a), a, k, f);
    } else {
      EdgeOnward(s, a);
      OnwardTurn(s, Do(s, a), a, k, f);
    }
  }

  lemma ReleaseTurn(s: Db, a: Step, k: Wish, f: nat)
    requires Patient(s, k, f)
    requires (a.SWakeCommit? && s.sync.pc.WakeCommit?) || (a.SWakeSync? && s.sync.pc.WakeSync?)
    ensures var t := if a.SWakeCommit? then DoWakeCommit(s) else DoWakeSync(s);
      Advanced(s, t, k, f, true) && SameRequests(s, t, a)
  {
  }

  lemma CopyOnward(s: Db, a: Step, k: Wish, f: nat)
    requires Patient(s, k, f)
    requires (a.SDataCommit? && s.sync.pc.DataCommit? && AtJournalPage(s))
             || (a.SDataCommitted? && s.sync.pc.DataCommit?)
             || (a.SRemap? && s.sync.pc.Remap? && s.sync.i < |s.sync.ids|) || (a.SRemapped? && s.sync.pc.Remap?)
    ensures Onward(s, match a
                      case SDataCommit => DoCopyPage(s)
                      case SDataCommitted => s.(sync := s.sync.(pc := Remap, i := 0))
                      case SRemap => DoRemap(s)
                      case _ => Goto(s, DataSync))
  {
    hide Ids, DataPages, SizesAgree, Waiting;
  }

  lemma JournalOnward(s: Db, a: Step)
    requires (a.SWriteIndex? && s.sync.pc.Check? && AtIndex(s))
             || (a.SJournalSync? && s.sync.pc.JournalSync? && s.z.snaps != [])
    ensures Onward(s, if a.SWriteIndex? then DoWriteIndex(s) else DoJournalSync(s))
  {
    hide WriteStart, RawIndex;
  }

  lemma EdgeOnward(s: Db, a: Step)
    requires (a.SDetach? && s.sync.pc.Detach?) || (a.SDataSync? && s.sync.pc.DataSync?)
    ensures Onward(s, if a.SDetach? then DoDetach(s) else DoDataSync(s))
  {
  }

  lemma EndOnward(s: Db, a: Step)
    requires (a.STruncateEnd? && s.sync.pc.TruncateEnd? && |s.journal.cache| >= 1)
             || (a.SEndSync? && s.sync.pc.EndSync?)
    ensures Onward(s, if a.STruncateEnd? then DoTruncateEnd(s) else DoEndSync(s))
  {
  }

  lemma KernelTurn(s: Db, a: Step, k: Wish, f: nat)
    requires Patient(s, k, f) && Enabled(s, a)
    requires !a.Store? && !ByProgram(a) && !ByCommit(a) && !BySync(a) && !a.Crash?
    ensures Advanced(s, Do(s, a), k, f, false) && SameRequests(s, Do(s, a), a)
  {
  }

  // ----- every fair run

  /** How many turns a run has. */
  ghost function TurnsTaken(s: Db, run: seq<Step>): nat
    requires Possible(s, run)
    decreases |run|
  {
    if run == [] then 0 else (if IsTurn(s, run[0]) then 1 else 0) + TurnsTaken(Do(s, run[0]), run[1..])
  }

  /** Whatever the program does, in every interleaving: a run without a crash that gives the sync thread, and those who
      have to wake it, more turns than are left has released the fiber. */
  lemma {:induction false} ServedInTime(s: Db, run: seq<Step>, k: Wish, f: nat)
    requires Inv(s) && Running(s) && Waiting(s, k, f)
    requires Possible(s, run) && forall a | a in run :: !a.Crash?
    requires TurnsTaken(s, run) > Turns(s, k, f)
    ensures Running(After(s, run)) && f in Served(After(s, run).w, k)
    decreases |run|
  {
    hide Inv, Enabled, Do, Waiting, Turns, Served, IsTurn, Running;
    assert run != [];
    var a, t := run[0], Do(s, run[0]);
    TurnStep(s, a, k, f);
    StepInv(s, a);
    if f in Served(t.w, k) {
      StaysServed(t, run[1..], k, f);
    } else {
      ServedInTime(t, run[1..], k, f);
    }
  }

  /** What a fiber of each kind waits to be filled with the writes of the program. */
  ghost function Target(s: Db, k: Wish): Image
    requires s.z.durable < |s.z.snaps| && s.z.base < |s.z.snaps|
  {
    match k
    case ForSnapshot => s.h.snapImage
    case ForCommit => s.z.snaps[s.z.durable]
    case ForSync => s.z.snaps[s.z.base]
  }

  /** The target holds, at least, the first n writes of the session. */
  ghost predicate HoldsWrites(s: Db, image: Image, n: nat) {
    exists k :: n <= k < |s.h.stores| && s.h.stores[k] == image
  }

  /** For a fiber of each kind: when it has waited for more turns than were left, it is released, and the writes that
      were complete when it was registered are where its waiters want them. */
  lemma WishInTime(s: Db, run: seq<Step>, k: Wish, f: nat)
    requires Inv(s) && Running(s) && Waiting(s, k, f)
    requires Possible(s, run) && forall a | a in run :: !a.Crash?
    requires TurnsTaken(s, run) > Turns(s, k, f)
    ensures f in s.w.regs && var t := After(s, run);
      && f in Served(t.w, k) && f in t.w.regs && s.w.regs[f] <= t.w.regs[f]
      && t.z.durable < |t.z.snaps| && t.z.base < |t.z.snaps| && HoldsWrites(t, Target(t, k), t.w.regs[f])
  {
    hide Inv, After, Possible, TurnsTaken, Turns;
    ServedInTime(s, run, k, f);
    RunInv(s, run);
    WaitingRegistered(s, k, f);
    RegsGrow(s, run, f);
    hide Running, Waiting;
    var t := After(s, run);
    BaseBounds(t);
    match k {
      case ForSnapshot => SnapshotWaiterSafe(t, f);
      case ForCommit => CommitWaiterSafe(t, f);
      case ForSync => SyncWaiterSafe(t, f);
    }
  }

  /** Written out for a commit: the writes that were complete when a waiter last registered with its fiber are in the
      durable snapshot. */
  lemma CommitInTime(s: Db, run: seq<Step>, f: nat)
    requires Inv(s) && Running(s) && Waiting(s, ForCommit, f)
    requires Possible(s, run) && forall a | a in run :: !a.Crash?
    requires TurnsTaken(s, run) > Turns(s, ForCommit, f)
    ensures var t := After(s, run);
      && f in t.w.commit && f in t.w.regs && t.z.durable < |t.z.snaps|
      && exists k :: t.w.regs[f] <= k < |t.h.stores| && t.h.stores[k] == t.z.snaps[t.z.durable]
  {
    hide Inv, After, Possible, TurnsTaken, Turns, Running, Waiting;
    WishInTime(s, run, ForCommit, f);
  }

  /** The request that hands out a fiber of this kind: a full sync does for commits and the data file, and an
      asynchronous one, outside the sync phase, for the snapshot and the data file. */
  predicate AsksFor(s: Db, a: Step, k: Wish) {
    (a.Fsync? && !k.ForSnapshot?) || (a.FsyncAsync? && !k.ForCommit? && !s.ctrl.inSyncPhase)
  }

  /** From the request on: the caller gets a fiber, more turns than are left then release it, and every write that was
      complete at the request is in the last snapshot, in the durable one or in the data file, as was asked for. */
  lemma AskedInTime(s: Db, a: Step, run: seq<Step>, k: Wish)
    requires Inv(s) && Enabled(s, a) && AsksFor(s, a, k) && Possible(Do(s, a), run) && forall b | b in run :: !b.Crash?
    requires TurnsTaken(Do(s, a), run) > Turns(Do(s, a), k, FidOf(Do(s, a).ctrl.fids, k))
    ensures var f, t := FidOf(Do(s, a).ctrl.fids, k), After(Do(s, a), run);
      && f != 0 && f in Served(t.w, k) && s.h.stores != [] && t.z.durable < |t.z.snaps| && t.z.base < |t.z.snaps|
      && HoldsWrites(t, Target(t, k), |s.h.stores| - 1)
  {
    hide Inv, After, Possible, TurnsTaken, Turns, Enabled, Do, Target;
    Asked(s, a, k);
    StepInv(s, a);
    WishInTime(Do(s, a), run, k, FidOf(Do(s, a).ctrl.fids, k));
  }

  lemma Asked(s: Db, a: Step, k: Wish)
    requires Inv(s) && Enabled(s, a) && AsksFor(s, a, k)
    ensures var u := Do(s, a);
      Running(u) && Waiting(u, k, FidOf(u.ctrl.fids, k)) && s.h.stores != []
      && FidOf(u.ctrl.fids, k) in u.w.regs && u.w.regs[FidOf(u.ctrl.fids, k)] == |s.h.stores| - 1
  {
    FirstFid(s, a);
    hide Inv, Enabled, Do, DoFsync, DoFsyncAsync, Running, Waiting, FidOf;
    DoesProgram(s, a);
    if a.Fsync? {
      AskedSync(s, k);
    } else {
      AskedAsync(s, k);
    }
  }

  /** The fiber is registered, with all that was written so far. */
  predicate Registers(s: Db, u: Db, k: Wish, f: nat) {
    Running(u) && Waiting(u, k, f) && f in u.w.regs && u.w.regs[f] == |s.h.stores| - 1
  }

  lemma AskedSync(s: Db, k: Wish)
    requires Running(s) && s.ctrl.nextFid >= 1 && s.h.stores != [] && !k.ForSnapshot?
    ensures Registers(s, DoFsync(s), k, FidOf(DoFsync(s).ctrl.fids, k))
  {
  }

  lemma AskedAsync(s: Db, k: Wish)
    requires Running(s) && s.ctrl.nextFid >= 1 && s.h.stores != [] && !k.ForCommit? && !s.ctrl.inSyncPhase
    ensures Registers(s, DoFsyncAsync(s), k, FidOf(DoFsyncAsync(s).ctrl.fids, k))
  {
  }

  lemma FirstFid(s: Db, a: Step)
    requires Inv(s) && Enabled(s, a) && (a.Fsync? || a.FsyncAsync?)
    ensures Running(s) && s.ctrl.nextFid >= 1
  {
    hide MemInv, NewInv, JobInv, SnapInv, DiskInv, CacheInv, CtrlInv;
  }

  lemma BaseBounds(s: Db)
    requires Inv(s)
    ensures s.z.durable < |s.z.snaps| && s.z.base < |s.z.snaps|
  {
    hide LiveInv, DiskInv, CacheInv;
  }

  lemma WaitingRegistered(s: Db, k: Wish, f: nat)
    requires Inv(s) && Running(s) && Waiting(s, k, f)
    ensures f < s.ctrl.nextFid && f in s.w.regs
  {
    hide MemInv, NewInv, JobInv, SnapInv, DiskInv, CacheInv, CtrlInv;
  }

  /** A fiber that waiters join later is released no earlier for that. */
  lemma {:induction false} RegsGrow(s: Db, run: seq<Step>, f: nat)
    requires Inv(s) && Running(s) && f < s.ctrl.nextFid && f in s.w.regs
    requires Possible(s, run) && forall a | a in run :: !a.Crash?
    ensures f in After(s, run).w.regs && s.w.regs[f] <= After(s, run).w.regs[f]
    decreases |run|
  {
    hide Inv, Enabled, Do, Running;
    if run != [] {
      RegsStep(s, run[0], f);
      StepInv(s, run[0]);
      RegsGrow(Do(s, run[0]), run[1..], f);
    }
  }

  predicate RegsGrown(s: Db, t: Db, f: nat) {
    Running(t) && s.ctrl.nextFid <= t.ctrl.nextFid && f in s.w.regs && f in t.w.regs && s.w.regs[f] <= t.w.regs[f]
  }

  lemma RegsStep(s: Db, a: Step, f: nat)
    requires Inv(s) && Running(s) && f < s.ctrl.nextFid && f in s.w.regs && Enabled(s, a) && !a.Crash?
    ensures RegsGrown(s, Do(s, a), f)
  {
    hide Inv, Enabled, Do, RegsGrown;
    if a.Fsync? || a.FsyncAsync? {
      RequestRegs(s, a, f);
    } else if a.Store? || ByProgram(a) {
      ProgramRegs(s, a, f);
    } else if ByCommit(a) {
      CommitRegs(s, a, f);
    } else {
      RestRegs(s, a, f);
    }
  }

  lemma RequestRegs(s: Db, a: Step, f: nat)
    requires Inv(s) && Running(s) && f < s.ctrl.nextFid && f in s.w.regs && Enabled(s, a) && (a.Fsync? || a.FsyncAsync?)
    ensures RegsGrown(s, Do(s, a), f)
  {
    RegisteredBefore(s);
    hide Inv, Enabled, Do;
    DoesProgram(s, a);
  }

  lemma RegisteredBefore(s: Db)
    requires Inv(s) && Running(s)
    ensures Covered(s.ctrl, s.w, s.ctrl.fids.snap, |s.h.stores| - 1)
    ensures Covered(s.ctrl, s.w, s.ctrl.fids.commit, |s.h.stores| - 1)
    ensures Covered(s.ctrl, s.w, s.ctrl.fids.sync, |s.h.stores| - 1)
  {
    hide MemInv, NewInv, JobInv, SnapInv, DiskInv, CacheInv, CtrlInv, Covered;
  }

  lemma ProgramRegs(s: Db, a: Step, f: nat)
    requires Running(s) && f in s.w.regs && Enabled(s, a) && (a.Store? || ByProgram(a)) && !a.Fsync? && !a.FsyncAsync?
    ensures RegsGrown(s, Do(s, a), f)
  {
    hide Enabled, Do, Memory, PageAt;
    DoesProgram(s, a);
  }

  lemma CommitRegs(s: Db, a: Step, f: nat)
    requires f in s.w.regs && Enabled(s, a) && ByCommit(a)
    ensures RegsGrown(s, Do(s, a), f)
  {
    hide Enabled, Do, Memory, PageAt, Unwritten, IndexPages, Resize;
    DoesCommit(s, a);
  }

  lemma RestRegs(s: Db, a: Step, f: nat)
    requires Running(s) && f in s.w.regs && Enabled(s, a) && !a.Store? && !ByProgram(a) && !ByCommit(a) && !a.Crash?
    ensures RegsGrown(s, Do(s, a), f)
  {
    hide WriteStart, RawIndex, Ids, DataPages, SizesAgree, IndexPages, Accepted;
  }

  /** A fiber that was released stays so until a crash. */
  lemma {:induction false} StaysServed(s: Db, run: seq<Step>, k: Wish, f: nat)
    requires Running(s) && Possible(s, run) && f in Served(s.w, k) && forall a | a in run :: !a.Crash?
    ensures Running(After(s, run)) && f in Served(After(s, run).w, k)
    decreases |run|
  {
    hide Enabled, Do, Served, Running;
    if run != [] {
      ServedGrows(s, run[0], k);
      StaysServed(Do(s, run[0]), run[1..], k, f);
    }
  }

  lemma ServedGrows(s: Db, a: Step, k: Wish)
    requires Running(s) && Enabled(s, a) && !a.Crash?
    ensures Running(Do(s, a)) && Served(s.w, k) <= Served(Do(s, a).w, k)
  {
    hide Enabled, Do;
    if a.Store? || ByProgram(a) {
      ProgramGrows(s, a);
    } else if ByCommit(a) {
      CommitGrows(s, a);
    } else {
      RestGrows(s, a);
    }
  }

  predicate Grown(w: Waiters, w': Waiters) {
    w.snap <= w'.snap && w.commit <= w'.commit && w.sync <= w'.sync
  }

  lemma ProgramGrows(s: Db, a: Step)
    requires Running(s) && Enabled(s, a) && (a.Store? || ByProgram(a))
    ensures Running(Do(s, a)) && Grown(s.w, Do(s, a).w)
  {
    hide Enabled, Do, Memory;
    DoesProgram(s, a);
  }

  lemma CommitGrows(s: Db, a: Step)
    requires Enabled(s, a) && ByCommit(a)
    ensures Running(Do(s, a)) && Grown(s.w, Do(s, a).w)
  {
    hide Enabled, Do, Memory, PageAt, Unwritten, IndexPages, Resize;
    DoesCommit(s, a);
  }

  lemma RestGrows(s: Db, a: Step)
    requires Running(s) && Enabled(s, a) && !a.Store? && !ByProgram(a) && !ByCommit(a) && !a.Crash?
    ensures Running(Do(s, a)) && Grown(s.w, Do(s, a).w)
  {
    hide WriteStart, RawIndex, Ids, DataPages, SizesAgree, IndexPages;
  }

  // ----- some run of internal steps

  function Holder(l: ILock): nat {
    match l
    case Copied(_) => 2
    case Mapped(_) => 1
    case _ => 0
  }

  /** The step that is chosen is a turn, or brings a handler nearer to its end. */
  lemma ChoiceServes(s: Db, k: Wish, f: nat)
    requires Inv(s) && Running(s) && Waiting(s, k, f)
    ensures Enabled(s, Choice(s)) && !Choice(s).Store? && !Choice(s).Fsync? && !Choice(s).FsyncAsync?
    ensures !Choice(s).Crash? && (IsTurn(s, Choice(s)) || Holder(Do(s, Choice(s)).mem.ilock) < Holder(s.mem.ilock))
  {
    hide Inv, Enabled, Do, Sorted;
    Progress(s);
    IsPatient(s, k, f);
    if s.mem.ilock.Copied? || s.mem.ilock.Mapped? {
      DoesProgram(s, Choice(s));
    }
  }

  /** No waiter waits for ever: from every state in which a fiber is registered, or was taken along and not
      cancelled, some run of internal steps cancels it. */
  lemma Serve(s: Db, k: Wish, f: nat) returns (run: seq<Step>)
    requires Inv(s) && Running(s) && Waiting(s, k, f)
    ensures Possible(s, run) && forall a | a in run :: Internal(a)
    ensures var t := After(s, run);
      Inv(t) && Running(t) && f in Served(t.w, k) && t.w.regs == s.w.regs && t.h.stores == s.h.stores
    decreases Turns(s, k, f), Holder(s.mem.ilock)
  {
    hide Inv, Enabled, Do, Choice, Waiting, Running, Turns, Holder, IsTurn;
    var a := Choice(s);
    ChoiceServes(s, k, f);
    TurnStep(s, a, k, f);
    StepInv(s, a);
    var t := Do(s, a);
    var rest := [];
    if f !in Served(t.w, k) {
      rest := Serve(t, k, f);
    }
    run := [a] + rest;
    assert run[0] == a && run[1..] == rest;
  }

  /** A commit that is asked for is made: some run of internal steps ends in a state whose durable snapshot has all
      the writes that were complete when the waiter registered. */
  lemma CommitIsMade(s: Db, f: nat) returns (run: seq<Step>)
    requires Inv(s) && Running(s) && f != 0 && f == s.ctrl.fids.commit
    ensures f in s.w.regs && Possible(s, run) && forall a | a in run :: Internal(a)
    ensures var t := After(s, run);
      && f in t.w.commit && t.z.durable < |t.z.snaps|
      && exists k :: s.w.regs[f] <= k < |s.h.stores| && s.h.stores[k] == t.z.snaps[t.z.durable]
  {
    hide Inv, After, Possible, Running;
    run := Serve(s, ForCommit, f);
    CommitWaiterSafe(After(s, run), f);
    InBounds(After(s, run));
  }

  lemma InBounds(s: Db)
    requires Inv(s)
    ensures s.z.durable < |s.z.snaps|
  {
    hide LiveInv, DiskInv, CacheInv;
  }
}
