/** The commit protocol of src/acid.c as a state machine: application threads that write mapped pages,
    the write fault handler, requesters, the sync thread, the kernel's write-back, crash and recovery.

    One step is one critical section, one system call, or one pass of a loop. The kernel may write any
    cached file page to disk at any time; a crash keeps what is on disk and nothing else, so it keeps an
    arbitrary subset of the writes that were not synced. */
module AcidProtocol {
  import opened AcidJournal

  datatype Option<T> = None | Some(value: T)

  type Image = seq<Page>

  /** What reads of the file see, and what survives a crash. */
  datatype File = File(cache: seq<Page>, disk: seq<Page>)

  /** acid_page_t of the new page index. */
  datatype NewPage = NewPage(jbuffered: bool, cow: Option<Page>)

  /** Who holds `ilock`; a fault handler that holds it has passed the new page section, or mprotect. */
  datatype ILock = Free | Copied(page: nat) | Mapped(page: nat) | SyncHolds

  /** The private mapping (pages with private memory, pages open for writing) and the two page indexes. */
  datatype Mem = Mem(priv: map<nat, Page>, writable: set<nat>, dpages: set<nat>, npages: map<nat, NewPage>,
                     ilock: ILock)

  datatype Op = OpNone | OpCommit

  datatype Fids = Fids(snap: nat, commit: nat, sync: nat)

  /** `ctrl`, plus the requesters that set `op` and still have to set the futex word, or to wake it. */
  datatype Ctrl = Ctrl(op: Op, futex: bool, inSyncPhase: bool, fids: Fids, nextFid: nat, toSet: nat, toWake: nat)

  datatype Pc =
    | Consume | AboutToWait | Asleep
    | TakeIlock | Protect | Swap | Section | WakeSnap | WakeIdle
    | Truncate | Check | Lock | CowHashed | MemHashed | JournalSync | Detach | WakeCommit
    | DataCommit | Remap | DataSync | TruncateEnd | EndSync | WakeSync
    | Reopen | ReplayPage | ReplaySync | ReopenTruncate | OpenMap

  /** The sync thread: where it is, and the locals of acid_sync_commit. */
  datatype Sync = Sync(pc: Pc, hasChanges: bool, fids: Fids, ids: seq<nat>, i: nat, hashed: seq<Page>)

  /** A commit whose header was written, the number of the snapshot it holds, and the opening it was made in. */
  datatype Attempt = Attempt(c: Commit, snap: nat, opening: nat)

  /** History, for stating properties only: the session, the snapshots, the waiters.

      `stores[k]` is the memory after k page writes of this session; `snapImage` is the last snapshot (or the
      image the session started from) and `snapStores`, `durStores`, `baseStores` say how many of the writes
      the last, the durable and the base snapshot contain. */
  datatype Session = Session(stores: seq<Image>, snapImage: Image, snapStores: nat, durStores: nat, baseStores: nat)

  /** All snapshots ever taken; a database starts with one. `snaps[durable]` is the newest one known to survive
      a crash and `snaps[base]` the one the data file holds. The headers are those of the journal's first
      page, cached and on disk. The database was opened `openings` times, and the last time there were
      `atOpen` snapshots. */
  datatype Snapshots = Snapshots(snaps: seq<Image>, durable: nat, base: nat,
                                 cacheHdr: Option<Attempt>, diskHdr: Option<Attempt>, openings: nat, atOpen: nat)

  /** `regs[f]` is the number of writes that were complete when a waiter last registered with fiber f; the
      sets hold the fibers that were cancelled, that is, whose waiters were released. */
  datatype Waiters = Waiters(regs: map<nat, nat>, snap: set<nat>, commit: set<nat>, sync: set<nat>)

  datatype Db = Db(n: nat, addr: nat, rev: nat, mem: Mem, data: File, journal: File, ctrl: Ctrl, sync: Sync,
                   h: Session, z: Snapshots, w: Waiters)

  const MAX_PAGES: nat := 0x10_0000_0000_0000
  const NO_FIDS := Fids(0, 0, 0)
  const NO_MEM := Mem(map[], {}, {}, map[], Free)
  const NO_CTRL := Ctrl(OpNone, false, false, NO_FIDS, 1, 0, 0)
  const NO_WAITERS := Waiters(map[], {}, {}, {})
  const NO_SYNC := Sync(Reopen, false, NO_FIDS, [], 0, [])

  /** What a read of page p sees. */
  function PageAt(m: Mem, cache: seq<Page>, p: nat): Page
    requires p < |cache|
  {
    if p in m.priv then m.priv[p] else cache[p]
  }

  function Memory(m: Mem, cache: seq<Page>): (image: Image)
    ensures |image| == |cache|
  {
    seq(|cache|, p requires 0 <= p < |cache| => PageAt(m, cache, p))
  }

  /** The commit record the sync thread builds from its locals. */
  function TheCommit(s: Db): Commit {
    Commit(s.rev, s.addr, s.sync.ids, s.sync.hashed)
  }

  function Resize(j: seq<Page>, len: nat): (j': seq<Page>)
    ensures |j'| == len
  {
    if len <= |j| then j[..len] else j + seq(len - |j|, _ => Blank())
  }

  function Goto(s: Db, pc: Pc): Db {
    s.(sync := s.sync.(pc := pc))
  }

  /** The order in which the index tree is walked. */
  predicate Ascending(ids: seq<nat>) {
    forall i, j | 0 <= i < j < |ids| :: ids[i] < ids[j]
  }

  predicate Lists(ids: seq<nat>, pages: set<nat>) {
    && (forall i | 0 <= i < |ids| :: ids[i] in pages)
    && (forall p | p in pages :: p in ids)
  }

  datatype Step =
    // application threads
    | Store(p: nat, v: Page) | FaultCopy(p: nat) | FaultMap(enomem: bool) | FaultIndex
    // requesters
    | Fsync | FsyncAsync | FutexSet | FutexWake
    // the sync thread
    | SConsume | SWait | SSpurious | STakeIlock | SProtect | SSwap | SSection | SWakeSnap | SWakeIdle
    | STruncate(ids: seq<nat>) | SCheck | SLock | SCowWrite | SMemWrite | SWriteIndex | SJournalSync
    | SDetach | SWakeCommit | SDataCommit | SDataCommitted | SRemap | SRemapped | SDataSync | STruncateEnd
    | SEndSync | SWakeSync
    // the kernel
    | WritebackData(p: nat) | WritebackJournal(i: nat) | WritebackLength(ext: seq<Page>) | Crash
    // acid_open
    | RReopen | RReplay | RReplayed | RSync | RTruncate | ROpenMap

  predicate Running(s: Db) {
    !(s.sync.pc.Reopen? || s.sync.pc.ReplayPage? || s.sync.pc.ReplaySync? || s.sync.pc.ReopenTruncate?
      || s.sync.pc.OpenMap?)
  }

  /** `plock` of page p is held by the sync thread while it writes the page from memory. */
  predicate PlockHeld(s: Db, p: nat) {
    s.sync.pc.MemHashed? && s.sync.i < |s.sync.ids| && s.sync.ids[s.sync.i] == p
  }

  /** The new page the journal loop is at. */
  predicate AtNewPage(s: Db) {
    s.sync.i < |s.sync.ids| && s.sync.ids[s.sync.i] in s.mem.npages && s.sync.ids[s.sync.i] < |s.data.cache|
  }

  /** The place of that page in the journal. */
  predicate JournalRoom(s: Db) {
    IndexPages(|s.sync.ids|) + s.sync.i < |s.journal.cache|
  }

  /** All new pages are in the journal, its index is next. */
  ghost predicate AtIndex(s: Db) {
    && s.sync.i == |s.sync.ids| && TheCommit(s).Valid() && s.z.snaps != []
    && HEADER_WORDS + 2 * |s.sync.ids| <= PAGE_WORDS * |s.journal.cache|
  }

  /** The page of the mapped journal that the copying loop is at. */
  predicate AtJournalPage(s: Db) {
    && |s.journal.cache| >= 1 && SizesAgree(s.journal.cache)
    && s.sync.i < NPages(s.journal.cache) && Ids(s.journal.cache)[s.sync.i] < |s.data.cache|
  }

  ghost predicate Enabled(s: Db, a: Step) {
    match a
    case Store(p, v) => Running(s) && p in s.mem.writable && p < |s.data.cache| && s.h.stores != []
    case FaultCopy(p) => Running(s) && s.mem.ilock.Free? && p < s.n && p < |s.data.cache| && !PlockHeld(s, p)
    case FaultMap(enomem) => Running(s) && s.mem.ilock.Copied?
    case FaultIndex => Running(s) && s.mem.ilock.Mapped?
    case Fsync => Running(s) && s.h.stores != []
    case FsyncAsync => Running(s) && s.h.stores != []
    case FutexSet => Running(s) && s.ctrl.toSet > 0
    case FutexWake => Running(s) && s.ctrl.toWake > 0
    case SConsume => s.sync.pc.Consume?
    case SWait => s.sync.pc.AboutToWait?
    case SSpurious => s.sync.pc.Asleep?
    case STakeIlock => s.sync.pc.TakeIlock? && s.mem.ilock.Free?
    case SProtect => s.sync.pc.Protect? && s.h.stores != []
    case SSwap => s.sync.pc.Swap?
    case SSection => s.sync.pc.Section?
    case SWakeSnap => s.sync.pc.WakeSnap?
    case SWakeIdle => s.sync.pc.WakeIdle?
    case STruncate(ids) => s.sync.pc.Truncate? && Lists(ids, s.mem.npages.Keys) && Ascending(ids)
    case SCheck => s.sync.pc.Check? && AtNewPage(s)
    case SLock => s.sync.pc.Lock? && AtNewPage(s)
    case SCowWrite => s.sync.pc.CowHashed? && AtNewPage(s) && s.mem.npages[s.sync.ids[s.sync.i]].cow.Some?
        && JournalRoom(s)
    case SMemWrite => s.sync.pc.MemHashed? && AtNewPage(s) && JournalRoom(s)
    case SWriteIndex => s.sync.pc.Check? && AtIndex(s)
    case SJournalSync => s.sync.pc.JournalSync? && s.z.snaps != []
    case SDetach => s.sync.pc.Detach? && s.mem.ilock.Free?
    case SWakeCommit => s.sync.pc.WakeCommit?
    case SDataCommit => s.sync.pc.DataCommit? && AtJournalPage(s)
    case SDataCommitted => s.sync.pc.DataCommit? && |s.journal.cache| >= 1 && s.sync.i == NPages(s.journal.cache)
    case SRemap => s.sync.pc.Remap? && s.mem.ilock.Free? && s.sync.i < |s.sync.ids|
    case SRemapped => s.sync.pc.Remap? && s.sync.i == |s.sync.ids|
    case SDataSync => s.sync.pc.DataSync?
    case STruncateEnd => s.sync.pc.TruncateEnd? && |s.journal.cache| >= 1
    case SEndSync => s.sync.pc.EndSync?
    case SWakeSync => s.sync.pc.WakeSync?
    case WritebackData(p) => p < |s.data.cache| && p < |s.data.disk|
    case WritebackJournal(i) => i < |s.journal.cache| && i < |s.journal.disk|
    case WritebackLength(ext) => |s.journal.cache| <= |s.journal.disk| + |ext|
    case Crash => true
    case RReopen => s.sync.pc.Reopen? && |s.journal.cache| >= 1
    case RReplay => s.sync.pc.ReplayPage? && AtJournalPage(s)
    case RReplayed => s.sync.pc.ReplayPage? && |s.journal.cache| >= 1 && s.sync.i == NPages(s.journal.cache)
    case RSync => s.sync.pc.ReplaySync?
    case RTruncate => s.sync.pc.ReopenTruncate? && |s.journal.cache| >= 1
    case ROpenMap => s.sync.pc.OpenMap?
  }

  ghost function Do(s: Db, a: Step): Db
    requires Enabled(s, a)
  {
    match a
    case Store(p, v) => DoStore(s, p, v)
    case FaultCopy(p) => DoFaultCopy(s, p)
    case FaultMap(enomem) => DoFaultMap(s, enomem)
    case FaultIndex => DoFaultIndex(s)
    case Fsync => DoFsync(s)
    case FsyncAsync => DoFsyncAsync(s)
    case FutexSet => DoFutexSet(s)
    case FutexWake => DoFutexWake(s)
    case SConsume => DoConsume(s)
    case SWait => Goto(s, if s.ctrl.futex then Consume else Asleep)
    case SSpurious => Goto(s, Consume)
    case STakeIlock => DoTakeIlock(s)
    case SProtect => DoProtect(s)
    case SSwap => DoSwap(s)
    case SSection => DoSection(s)
    case SWakeSnap => DoWakeSnap(s)
    case SWakeIdle => DoWakeIdle(s)
    case STruncate(ids) => DoTruncate(s, ids)
    case SCheck => DoCheck(s)
    case SLock => DoLock(s)
    case SCowWrite => DoCowWrite(s)
    case SMemWrite => DoMemWrite(s)
    case SWriteIndex => DoWriteIndex(s)
    case SJournalSync => DoJournalSync(s)
    case SDetach => DoDetach(s)
    case SWakeCommit => DoWakeCommit(s)
    case SDataCommit => DoCopyPage(s)
    case SDataCommitted => s.(sync := s.sync.(pc := Remap, i := 0))
    case SRemap => DoRemap(s)
    case SRemapped => Goto(s, DataSync)
    case SDataSync => DoDataSync(s)
    case STruncateEnd => DoTruncateEnd(s)
    case SEndSync => DoEndSync(s)
    case SWakeSync => DoWakeSync(s)
    case WritebackData(p) => DoWritebackData(s, p)
    case WritebackJournal(i) => DoWritebackJournal(s, i)
    case WritebackLength(ext) => DoWritebackLength(s, ext)
    case Crash => DoCrash(s)
    case RReopen => DoReopen(s)
    case RReplay => DoCopyPage(s)
    case RReplayed => Goto(s, ReplaySync)
    case RSync => DoReplaySync(s)
    case RTruncate => DoReopenTruncate(s)
    case ROpenMap => DoOpenMap(s)
  }

  // ----- application threads

  /** The MMU stores to a page that is open for writing; the first store gives it private memory. */
  function DoStore(s: Db, p: nat, v: Page): Db
    requires p < |s.data.cache|
  {
    var s' := s.(mem := s.mem.(priv := s.mem.priv[p := v]));
    s'.(h := s'.h.(stores := s'.h.stores + [Memory(s'.mem, s.data.cache)]))
  }

  /** acid_rsig_segv up to the end of the new page section. */
  function DoFaultCopy(s: Db, p: nat): Db
    requires p < |s.data.cache|
  {
    var m := s.mem.(ilock := Copied(p));
    if p in m.npages && !m.npages[p].jbuffered && m.npages[p].cow.None? then
      s.(mem := m.(npages := m.npages[p := m.npages[p].(cow := Some(PageAt(s.mem, s.data.cache, p)))]))
    else
      s.(mem := m)
  }

  /** ... the dirty index lookup and mprotect, which may run out of memory and start the handler over. */
  function DoFaultMap(s: Db, enomem: bool): Db
    requires s.mem.ilock.Copied?
  {
    var p := s.mem.ilock.page;
    if p in s.mem.dpages || enomem then s.(mem := s.mem.(ilock := Free))
    else s.(mem := s.mem.(ilock := Mapped(p), writable := s.mem.writable + {p}))
  }

  /** ... and the insertion in the dirty index. */
  function DoFaultIndex(s: Db): Db
    requires s.mem.ilock.Mapped?
  {
    s.(mem := s.mem.(ilock := Free, dpages := s.mem.dpages + {s.mem.ilock.page}))
  }

  // ----- requesters

  function OrderCommit(c: Ctrl): Ctrl {
    if c.op.OpNone? then c.(op := OpCommit, toSet := c.toSet + 1) else c
  }

  /** The fiber registered already, or the next free one. */
  function FidOr(registered: nat, next: nat): nat {
    if registered == 0 then next else registered
  }

  /** The locked section of acid_fsync_inner. */
  function DoFsync(s: Db): Db
    requires s.h.stores != []
  {
    var c := OrderCommit(s.ctrl);
    var f := c.fids.(commit := FidOr(c.fids.commit, c.nextFid), sync := FidOr(c.fids.sync, c.nextFid + 1));
    var written := |s.h.stores| - 1;
    s.(ctrl := c.(fids := f, nextFid := c.nextFid + 2),
       w := s.w.(regs := s.w.regs[f.commit := written][f.sync := written]))
  }

  /** The locked section of acid_fsync_async: no effect during the sync phase. */
  function DoFsyncAsync(s: Db): Db
    requires s.h.stores != []
  {
    if s.ctrl.inSyncPhase then s else
      var c := OrderCommit(s.ctrl);
      var f := c.fids.(snap := FidOr(c.fids.snap, c.nextFid), sync := FidOr(c.fids.sync, c.nextFid + 1));
      var written := |s.h.stores| - 1;
      s.(ctrl := c.(fids := f, nextFid := c.nextFid + 2),
         w := s.w.(regs := s.w.regs[f.snap := written][f.sync := written]))
  }

  function DoFutexSet(s: Db): Db
    requires s.ctrl.toSet > 0
  {
    s.(ctrl := s.ctrl.(futex := true, toSet := s.ctrl.toSet - 1, toWake := s.ctrl.toWake + 1))
  }

  function DoFutexWake(s: Db): Db
    requires s.ctrl.toWake > 0
  {
    var s' := s.(ctrl := s.ctrl.(toWake := s.ctrl.toWake - 1));
    if s.sync.pc.Asleep? then Goto(s', Consume) else s'
  }

  // ----- the sync thread

  function DoConsume(s: Db): Db {
    Goto(s.(ctrl := s.ctrl.(futex := false)), if s.ctrl.op.OpNone? then AboutToWait else TakeIlock)
  }

  function DoTakeIlock(s: Db): Db {
    var has := s.mem.dpages != {};
    s.(mem := s.mem.(ilock := SyncHolds),
       sync := s.sync.(pc := if has then Protect else Section, hasChanges := has))
  }

  /** mprotect of the whole range: the snapshot. */
  function DoProtect(s: Db): Db
    requires s.h.stores != []
  {
    var image := Memory(s.mem, s.data.cache);
    Goto(s.(mem := s.mem.(writable := {}),
            z := s.z.(snaps := s.z.snaps + [image]),
            h := s.h.(snapImage := image, snapStores := |s.h.stores| - 1)), Swap)
  }

  function Unwritten(pages: set<nat>): map<nat, NewPage> {
    map p: nat | p in pages :: NewPage(false, None)
  }

  function DoSwap(s: Db): Db {
    Goto(s.(mem := s.mem.(npages := Unwritten(s.mem.dpages), dpages := {})), Section)
  }

  /** The section under ctrl.lock, and the release of ilock. */
  function DoSection(s: Db): Db {
    s.(mem := s.mem.(ilock := Free),
       ctrl := s.ctrl.(op := OpNone, inSyncPhase := s.sync.hasChanges, fids := NO_FIDS),
       sync := s.sync.(pc := WakeSnap, fids := s.ctrl.fids))
  }

  /** Without changes the commit is over but for its waiters. */
  function DoWakeSnap(s: Db): Db {
    Goto(s.(w := s.w.(snap := s.w.snap + {s.sync.fids.snap})), if s.sync.hasChanges then Truncate else WakeIdle)
  }

  function DoWakeIdle(s: Db): Db {
    Goto(s.(w := s.w.(commit := s.w.commit + {s.sync.fids.commit}, sync := s.w.sync + {s.sync.fids.sync})), Consume)
  }

  function DoTruncate(s: Db, ids: seq<nat>): Db {
    s.(journal := s.journal.(cache := Resize(s.journal.cache, IndexPages(|ids|) + |ids|)),
       sync := s.sync.(pc := Check, ids := ids, i := 0, hashed := []))
  }

  /** The unlocked test of new_page_cow. */
  function DoCheck(s: Db): Db
    requires AtNewPage(s)
  {
    var e := s.mem.npages[s.sync.ids[s.sync.i]];
    if e.cow.Some? then s.(sync := s.sync.(pc := CowHashed, hashed := s.sync.hashed + [e.cow.value]))
    else Goto(s, Lock)
  }

  /** Taking the page lock and testing again. */
  function DoLock(s: Db): Db
    requires AtNewPage(s)
  {
    var p := s.sync.ids[s.sync.i];
    var e := s.mem.npages[p];
    if e.cow.Some? then s.(sync := s.sync.(pc := CowHashed, hashed := s.sync.hashed + [e.cow.value]))
    else s.(sync := s.sync.(pc := MemHashed, hashed := s.sync.hashed + [PageAt(s.mem, s.data.cache, p)]))
  }

  function JournalPage(s: Db, v: Page): Db
    requires JournalRoom(s)
  {
    s.(journal := s.journal.(cache := s.journal.cache[IndexPages(|s.sync.ids|) + s.sync.i := v]),
       sync := s.sync.(pc := Check, i := s.sync.i + 1))
  }

  function DoCowWrite(s: Db): Db
    requires AtNewPage(s) && s.mem.npages[s.sync.ids[s.sync.i]].cow.Some?
    requires JournalRoom(s)
  {
    JournalPage(s, s.mem.npages[s.sync.ids[s.sync.i]].cow.value)
  }

  function DoMemWrite(s: Db): Db
    requires AtNewPage(s) && JournalRoom(s)
  {
    var p := s.sync.ids[s.sync.i];
    JournalPage(s.(mem := s.mem.(npages := s.mem.npages[p := s.mem.npages[p].(jbuffered := true)])),
                PageAt(s.mem, s.data.cache, p))
  }

  ghost function DoWriteIndex(s: Db): Db
    requires AtIndex(s)
  {
    var c := TheCommit(s);
    Goto(s.(journal := s.journal.(cache := WriteStart(s.journal.cache, RawIndex(c))),
            z := s.z.(cacheHdr := Some(Attempt(c, |s.z.snaps| - 1, s.z.openings)))), JournalSync)
  }

  /** fsync of the journal: the snapshot is durable. */
  function DoJournalSync(s: Db): Db
    requires s.z.snaps != []
  {
    Goto(s.(journal := File(s.journal.cache, s.journal.cache),
            z := s.z.(diskHdr := s.z.cacheHdr, durable := |s.z.snaps| - 1),
            h := s.h.(durStores := s.h.snapStores)), Detach)
  }

  /** The next revision; the new pages are let go. */
  function DoDetach(s: Db): Db {
    Goto(s.(rev := (s.rev + 1) % MAX64, mem := s.mem.(npages := map[])), WakeCommit)
  }

  function DoWakeCommit(s: Db): Db {
    s.(w := s.w.(commit := s.w.commit + {s.sync.fids.commit}), sync := s.sync.(pc := DataCommit, i := 0))
  }

  /** One pass of journ_commit, by the sync thread or at open. */
  function DoCopyPage(s: Db): Db
    requires AtJournalPage(s)
  {
    var id, page := Ids(s.journal.cache)[s.sync.i], DataPages(s.journal.cache)[s.sync.i];
    s.(data := s.data.(cache := s.data.cache[id := page]), sync := s.sync.(i := s.sync.i + 1))
  }

  /** A page that is not dirty again gives up its private memory. */
  function DoRemap(s: Db): Db
    requires s.sync.i < |s.sync.ids|
  {
    var p := s.sync.ids[s.sync.i];
    var m := if p in s.mem.dpages then s.mem
             else s.mem.(priv := s.mem.priv - {p}, writable := s.mem.writable - {p});
    s.(mem := m, sync := s.sync.(i := s.sync.i + 1))
  }

  /** fsync of the data file: it holds the durable snapshot. */
  function DoDataSync(s: Db): Db {
    Goto(s.(data := File(s.data.cache, s.data.cache),
            z := s.z.(base := s.z.durable), h := s.h.(baseStores := s.h.durStores)), TruncateEnd)
  }

  /** The journal is cut off after its first page. */
  function DoTruncateEnd(s: Db): Db
    requires |s.journal.cache| >= 1
  {
    Goto(s.(journal := s.journal.(cache := s.journal.cache[..1])), EndSync)
  }

  function DoEndSync(s: Db): Db {
    Goto(s.(ctrl := s.ctrl.(inSyncPhase := false)), WakeSync)
  }

  function DoWakeSync(s: Db): Db {
    Goto(s.(w := s.w.(sync := s.w.sync + {s.sync.fids.sync})), Consume)
  }

  // ----- the kernel

  function DoWritebackData(s: Db, p: nat): Db
    requires p < |s.data.cache| && p < |s.data.disk|
  {
    s.(data := s.data.(disk := s.data.disk[p := s.data.cache[p]]))
  }

  /** The new length of the journal; pages that it gained hold whatever they held before. */
  function DoWritebackLength(s: Db, ext: seq<Page>): Db
    requires |s.journal.cache| <= |s.journal.disk| + |ext|
  {
    s.(journal := s.journal.(disk := (s.journal.disk + ext)[..|s.journal.cache|]))
  }

  function DoWritebackJournal(s: Db, i: nat): Db
    requires i < |s.journal.cache| && i < |s.journal.disk|
  {
    s.(journal := s.journal.(disk := s.journal.disk[i := s.journal.cache[i]]),
       z := if i == 0 then s.z.(diskHdr := s.z.cacheHdr) else s.z)
  }

  function DoCrash(s: Db): Db {
    s.(mem := NO_MEM, ctrl := NO_CTRL, sync := NO_SYNC,
       data := File(s.data.disk, s.data.disk), journal := File(s.journal.disk, s.journal.disk),
       z := s.z.(cacheHdr := s.z.diskHdr))
  }

  // ----- acid_open

  ghost function DoReopen(s: Db): Db
    requires |s.journal.cache| >= 1
  {
    var s' := s.(rev := Read64(s.journal.cache[0], 7) % MAX64,
                 z := s.z.(openings := s.z.openings + 1, atOpen := |s.z.snaps|));
    if Accepted(s.journal.cache, s.n) then
      var survivor := if s.z.cacheHdr.Some? then s.z.cacheHdr.value.snap else s.z.durable;
      s'.(sync := s.sync.(pc := ReplayPage, i := 0), z := s'.z.(durable := survivor))
    else
      Goto(s', ReopenTruncate)
  }

  function DoReplaySync(s: Db): Db {
    Goto(s.(data := File(s.data.cache, s.data.cache), z := s.z.(base := s.z.durable)), ReopenTruncate)
  }

  function DoReopenTruncate(s: Db): Db
    requires |s.journal.cache| >= 1
  {
    Goto(s.(journal := s.journal.(cache := s.journal.cache[..1])), OpenMap)
  }

  /** The private mapping, and everything else of a new handle. */
  function DoOpenMap(s: Db): Db {
    s.(mem := NO_MEM, ctrl := NO_CTRL, sync := NO_SYNC.(pc := Consume),
       h := Session([s.data.cache], s.data.cache, 0, 0, 0), w := NO_WAITERS)
  }

  // ----- runs

  /** Opening an existing data file with a fresh, blank journal. */
  function Init(image: Image, addr: nat): Db {
    Db(|image|, addr, 0, NO_MEM, File(image, image), File([Blank()], [Blank()]), NO_CTRL, NO_SYNC,
       Session([], image, 0, 0, 0), Snapshots([image], 0, 0, None, None, 0, 1), NO_WAITERS)
  }

  ghost predicate Possible(s: Db, run: seq<Step>)
    decreases |run|
  {
    run == [] || (Enabled(s, run[0]) && Possible(Do(s, run[0]), run[1..]))
  }

  ghost function After(s: Db, run: seq<Step>): Db
    requires Possible(s, run)
    decreases |run|
  {
    if run == [] then s else After(Do(s, run[0]), run[1..])
  }
}
