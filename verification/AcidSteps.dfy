/** Every step of the protocol keeps the invariant. */
module AcidSteps {
  import opened AcidJournal
  import opened AcidProtocol
  import opened AcidInvariant
  import opened AcidFrames

  lemma InitInv(image: Image, addr: nat)
    requires 1 <= |image| <= MAX_PAGES && addr < MAX64
    ensures Inv(Init(image, addr))
  {
  }

  // ----- application threads

  lemma StoreInv(s: Db, p: nat, v: Page)
    requires Inv(s) && Running(s) && p in s.mem.writable && p < s.n
    ensures Inv(DoStore(s, p, v))
  {
    hide MemInv, NewInv, JobInv, DiskInv, CacheInv, CtrlInv, FidInv, SnapInv, DoStore, Bounded, Images, Memory, Running;
    var t := DoStore(s, p, v);
    StoreMem(s, p, v);
    StoreNew(s.n, s.mem, t.mem, s.sync, s.h.snapImage);
    StoreSnap(s.n, s.mem, t.mem, s.sync, s.h, t.h, s.z);
    FidLater(s.ctrl, s.sync, s.h, t.h, s.w);
  }

  lemma StoreMem(s: Db, p: nat, v: Page)
    requires Shape(s) && p < s.n && p in s.mem.writable && MemInv(s.n, s.mem, s.data.cache, s.sync, s.h)
    ensures var t := DoStore(s, p, v);
      && MemInv(s.n, t.mem, s.data.cache, s.sync, t.h) && Bounded(s.n, t.mem)
      && t == s.(mem := s.mem.(priv := t.mem.priv), h := s.h.(stores := t.h.stores)) && s.h.stores <= t.h.stores
  {
    var t := DoStore(s, p, v);
    assert t.mem.writable == Open(t.mem, s.sync);
  }

  lemma StoreNew(n: nat, m: Mem, m': Mem, y: Sync, image: Image)
    requires |image| == n && NewInv(n, m, y, image)
    requires m' == m.(priv := m'.priv) && Bounded(n, m')
    ensures NewInv(n, m', y, image)
  {
  }

  lemma StoreSnap(n: nat, m: Mem, m': Mem, y: Sync, h: Session, h': Session, z: Snapshots)
    requires |h.snapImage| == n && z.base < |z.snaps| && z.durable < |z.snaps| && Images(n, z.snaps)
    requires SnapInv(n, m, y, h, z)
    requires m' == m.(priv := m'.priv)
    requires h' == h.(stores := h'.stores) && h.stores <= h'.stores
    ensures SnapInv(n, m', y, h', z)
  {
  }

  lemma FaultCopyInv(s: Db, p: nat)
    requires Inv(s) && Running(s) && s.mem.ilock.Free? && p < s.n && !PlockHeld(s, p)
    ensures Inv(DoFaultCopy(s, p))
  {
    var t := DoFaultCopy(s, p);
    hide MemInv, JobInv, DiskInv, CacheInv, CtrlInv, FidInv, SnapInv, NewInv, DoFaultCopy;
    FaultCopyMem(s, p);
    FaultCopyNew(s, p);
    FaultCopyJob(s.n, s.mem, t.mem, p, s.sync, s.journal.cache, s.h.snapImage, s.z);
    SnapMove(s.n, s.mem, t.mem, s.sync, s.sync, s.h, s.z);
  }

  /** At most the copy of page p is new. */
  ghost predicate OnlyCow(a: map<nat, NewPage>, b: map<nat, NewPage>, p: nat) {
    && b.Keys == a.Keys
    && (forall q | q in a :: b[q].jbuffered == a[q].jbuffered)
    && (forall q | q in a && q != p :: b[q] == a[q])
    && (p in a ==> b[p] == a[p] || b[p].cow.Some?)
  }

  lemma FaultCopyMem(s: Db, p: nat)
    requires Shape(s) && p < s.n && s.mem.ilock.Free? && MemInv(s.n, s.mem, s.data.cache, s.sync, s.h)
    ensures var t := DoFaultCopy(s, p);
      && MemInv(s.n, t.mem, s.data.cache, s.sync, s.h)
      && t == s.(mem := t.mem) && t.mem.dpages == s.mem.dpages && OnlyCow(s.mem.npages, t.mem.npages, p)
  {
    var t := DoFaultCopy(s, p);
    assert t.mem.npages.Keys == s.mem.npages.Keys;
    assert Memory(t.mem, s.data.cache) == Memory(s.mem, s.data.cache);
    assert t.mem.writable == Open(t.mem, s.sync);
  }

  lemma FaultCopyNew(s: Db, p: nat)
    requires Shape(s) && p < s.n
    requires MemInv(s.n, s.mem, s.data.cache, s.sync, s.h) && NewInv(s.n, s.mem, s.sync, s.h.snapImage)
    ensures NewInv(s.n, DoFaultCopy(s, p).mem, s.sync, s.h.snapImage)
  {
    var m, m' := s.mem, DoFaultCopy(s, p).mem;
    assert m'.npages.Keys == m.npages.Keys;
    forall q | q in m'.npages ensures NewPageInv(m', s.h.snapImage, q) {
      assert NewPageInv(m, s.h.snapImage, q);
    }
  }

  lemma FaultCopyJob(n: nat, m: Mem, m': Mem, p: nat, y: Sync, jcache: seq<Page>, image: Image, z: Snapshots)
    requires |image| == n && JobInv(n, m.npages, y, jcache, image, z)
    requires OnlyCow(m.npages, m'.npages, p)
    requires !(y.pc.MemHashed? && y.i < |y.ids| && y.ids[y.i] == p)
    ensures JobInv(n, m'.npages, y, jcache, image, z)
  {
  }

  lemma FaultMapInv(s: Db, enomem: bool)
    requires Inv(s) && Running(s) && s.mem.ilock.Copied?
    ensures Inv(DoFaultMap(s, enomem))
  {
    hide MemInv, JobInv, DiskInv, CacheInv, CtrlInv, FidInv, SnapInv, NewInv, DoFaultMap;
    var t := DoFaultMap(s, enomem);
    FaultMapMem(s, enomem);
    FaultMapNew(s, enomem);
    SnapMove(s.n, s.mem, t.mem, s.sync, s.sync, s.h, s.z);
  }

  lemma FaultMapNew(s: Db, enomem: bool)
    requires Shape(s) && s.mem.ilock.Copied? && NewInv(s.n, s.mem, s.sync, s.h.snapImage)
    ensures NewInv(s.n, DoFaultMap(s, enomem).mem, s.sync, s.h.snapImage)
  {
    var m, m' := s.mem, DoFaultMap(s, enomem).mem;
    forall q | q in m'.npages ensures NewPageInv(m', s.h.snapImage, q) {
      assert NewPageInv(m, s.h.snapImage, q);
    }
  }

  lemma FaultMapMem(s: Db, enomem: bool)
    requires Shape(s) && s.mem.ilock.Copied? && MemInv(s.n, s.mem, s.data.cache, s.sync, s.h)
    ensures var t := DoFaultMap(s, enomem);
      && MemInv(s.n, t.mem, s.data.cache, s.sync, s.h)
      && t == s.(mem := t.mem) && t.mem.dpages == s.mem.dpages && t.mem.npages == s.mem.npages
  {
    var m' := DoFaultMap(s, enomem).mem;
    assert Memory(m', s.data.cache) == Memory(s.mem, s.data.cache);
    assert m'.writable == Open(m', s.sync);
  }

  lemma FaultIndexInv(s: Db)
    requires Inv(s) && Running(s) && s.mem.ilock.Mapped?
    ensures Inv(DoFaultIndex(s))
  {
    hide JobInv, DiskInv, CacheInv, CtrlInv, FidInv, SnapInv, NewInv, MemInv;
    var t := DoFaultIndex(s);
    FaultIndexMem(s);
    SnapMove(s.n, s.mem, t.mem, s.sync, s.sync, s.h, s.z);
  }

  lemma FaultIndexMem(s: Db)
    requires Shape(s) && s.mem.ilock.Mapped?
    requires MemInv(s.n, s.mem, s.data.cache, s.sync, s.h) && NewInv(s.n, s.mem, s.sync, s.h.snapImage)
    ensures MemInv(s.n, DoFaultIndex(s).mem, s.data.cache, s.sync, s.h)
    ensures NewInv(s.n, DoFaultIndex(s).mem, s.sync, s.h.snapImage)
  {
    var m' := DoFaultIndex(s).mem;
    assert Memory(m', s.data.cache) == Memory(s.mem, s.data.cache);
    assert m'.writable == Open(m', s.sync);
    forall q | q in m'.npages ensures NewPageInv(m', s.h.snapImage, q) {
      assert NewPageInv(s.mem, s.h.snapImage, q);
    }
  }

  // ----- requesters

  lemma FsyncInv(s: Db)
    requires Inv(s) && Running(s) && s.h.stores != []
    ensures Inv(DoFsync(s))
  {
    hide MemInv, JobInv, DiskInv, CacheInv, SnapInv, NewInv, FidInv, CtrlInv, DoFsync;
    FsyncFids(s);
  }

  lemma FsyncFids(s: Db)
    requires FidInv(s.ctrl, s.sync, s.h, s.w) && CtrlInv(s.ctrl, s.sync) && s.h.stores != []
    ensures var t := DoFsync(s);
      t == s.(ctrl := t.ctrl, w := t.w) && FidInv(t.ctrl, t.sync, t.h, t.w) && CtrlInv(t.ctrl, t.sync)
  {
    hide FidInv;
    var t := DoFsync(s);
    RegisterFids(s.ctrl, t.ctrl, s.sync, s.h, s.w, t.w, [t.ctrl.fids.commit, t.ctrl.fids.sync]);
  }

  lemma FsyncAsyncInv(s: Db)
    requires Inv(s) && Running(s) && s.h.stores != []
    ensures Inv(DoFsyncAsync(s))
  {
    hide MemInv, JobInv, DiskInv, CacheInv, SnapInv, NewInv, FidInv, CtrlInv, DoFsyncAsync;
    FsyncAsyncFids(s);
  }

  lemma FsyncAsyncFids(s: Db)
    requires FidInv(s.ctrl, s.sync, s.h, s.w) && CtrlInv(s.ctrl, s.sync) && s.h.stores != []
    ensures var t := DoFsyncAsync(s);
      t == s.(ctrl := t.ctrl, w := t.w) && FidInv(t.ctrl, t.sync, t.h, t.w) && CtrlInv(t.ctrl, t.sync)
  {
    hide FidInv;
    var t := DoFsyncAsync(s);
    if !s.ctrl.inSyncPhase {
      RegisterFids(s.ctrl, t.ctrl, s.sync, s.h, s.w, t.w, [t.ctrl.fids.snap, t.ctrl.fids.sync]);
    }
  }

  /** Registering with fibers that are new or still registered disturbs no other fiber. */
  lemma RegisterFids(c: Ctrl, c': Ctrl, y: Sync, h: Session, w: Waiters, w': Waiters, fs: seq<nat>)
    requires FidInv(c, y, h, w) && |h.stores| >= 1
    requires c'.nextFid == c.nextFid + 2
    requires NewOrKept(c, c', c.fids.snap, c'.fids.snap, fs)
    requires NewOrKept(c, c', c.fids.commit, c'.fids.commit, fs)
    requires NewOrKept(c, c', c.fids.sync, c'.fids.sync, fs)
    requires forall f | f in fs :: f == c'.fids.snap || f == c'.fids.commit || f == c'.fids.sync
    requires w' == w.(regs := w'.regs)
    requires forall f | f in w.regs :: f in w'.regs && (f !in fs ==> w'.regs[f] == w.regs[f])
    requires forall f | f in fs :: f in w'.regs && w'.regs[f] == |h.stores| - 1
    ensures FidInv(c', y, h, w')
  {
    hide FidInv;
    RegisterOne(c, c', y, h, w, w', fs, c.fids.snap, c'.fids.snap);
    RegisterOne(c, c', y, h, w, w', fs, c.fids.commit, c'.fids.commit);
    RegisterOne(c, c', y, h, w, w', fs, c.fids.sync, c'.fids.sync);
    hide NewOrKept, Registered;
    RegisterRest(c, c', y, h, w, w', fs);
  }

  lemma RegisterRest(c: Ctrl, c': Ctrl, y: Sync, h: Session, w: Waiters, w': Waiters, fs: seq<nat>)
    requires FidInv(c, y, h, w) && c'.nextFid == c.nextFid + 2
    requires Registered(c', y, h, w', c'.fids.snap) && Registered(c', y, h, w', c'.fids.commit)
    requires Registered(c', y, h, w', c'.fids.sync)
    requires forall f | f in fs :: f != 0 ==> Unused(y, w, f)
    requires w' == w.(regs := w'.regs)
    requires forall f | f in w.regs :: f in w'.regs && (f !in fs ==> w'.regs[f] == w.regs[f])
    ensures FidInv(c', y, h, w')
  {
    hide Registered;
    forall f, k | Covered(c, w, f, k) && f !in fs ensures Covered(c', w', f, k) {
    }
  }

  ghost predicate NewOrKept(c: Ctrl, c': Ctrl, f: nat, f': nat, fs: seq<nat>) {
    f' == f || (f == 0 && c.nextFid <= f' < c'.nextFid && f' in fs)
  }

  lemma RegisterOne(c: Ctrl, c': Ctrl, y: Sync, h: Session, w: Waiters, w': Waiters, fs: seq<nat>, f: nat, f': nat)
    requires FidInv(c, y, h, w) && |h.stores| >= 1 && c.nextFid <= c'.nextFid
    requires (f == c.fids.snap || f == c.fids.commit || f == c.fids.sync) && NewOrKept(c, c', f, f', fs)
    requires w' == w.(regs := w'.regs)
    requires forall g | g in w.regs :: g in w'.regs && (g !in fs ==> w'.regs[g] == w.regs[g])
    requires forall g | g in fs :: g in w'.regs && w'.regs[g] == |h.stores| - 1
    ensures Registered(c', y, h, w', f') && Unused(y, w, f')
  {
    if f' != f {
      NewFid(c, y, h, w, f');
    }
  }

  lemma NewFid(c: Ctrl, y: Sync, h: Session, w: Waiters, f: nat)
    requires FidInv(c, y, h, w) && f >= c.nextFid
    ensures f !in w.snap && f !in w.commit && f !in w.sync
  {
    assert !Covered(c, w, f, h.snapStores) && !Covered(c, w, f, h.durStores) && !Covered(c, w, f, h.baseStores);
  }

  lemma FutexInv(s: Db, a: Step)
    requires Inv(s) && (a.FutexSet? || a.FutexWake?) && Enabled(s, a)
    ensures Inv(Do(s, a))
  {
    hide MemInv, JobInv, DiskInv, CacheInv, SnapInv, NewInv, FidInv;
    var t := Do(s, a);
    if a.FutexWake? && s.sync.pc.Asleep? {
      Quiet(s, t);
    } else {
      assert t == s.(ctrl := t.ctrl);
      FidMove(s.ctrl, t.ctrl, s.sync, s.sync, s.h, s.w);
    }
  }

  // ----- the sync thread, outside a commit

  lemma WaitInv(s: Db, a: Step)
    requires Inv(s) && (a.SConsume? || a.SWait? || a.SSpurious?) && Enabled(s, a)
    ensures Inv(Do(s, a))
  {
    hide MemInv, JobInv, DiskInv, CacheInv, SnapInv, NewInv, FidInv;
    var t := Do(s, a);
    Quiet(s, t);
  }

  /** The sync thread moves on while no snapshot is pending; nothing but control words and its place changes. */
  lemma Quiet(s: Db, t: Db)
    requires Inv(s) && Running(s) && Running(t)
    requires t == s.(sync := t.sync, ctrl := t.ctrl, w := t.w)
    requires t.sync == s.sync.(pc := t.sync.pc)
    requires Settled(s.sync) && Settled(t.sync)
    requires !s.sync.pc.Protect? && !s.sync.pc.Section? && !t.sync.pc.Protect? && !t.sync.pc.Section?
    requires (t.w == s.w && (Taken(t.sync) ==> Taken(s.sync)))
             || FidInv(t.ctrl, t.sync, s.h, t.w)
    requires t.ctrl.fids == s.ctrl.fids && t.ctrl.nextFid == s.ctrl.nextFid
    requires CtrlInv(t.ctrl, t.sync)
    ensures Inv(t)
  {
    hide MemInv, NewInv, JobInv, SnapInv, DiskInv, CacheInv, CtrlInv, FidInv;
    var y, y' := s.sync, t.sync;
    MemMove(s.n, s.mem, s.data.cache, y, y', s.h);
    NewMove(s.n, s.mem, y, y', s.h.snapImage);
    JobMove(s.n, s.mem.npages, y, y', s.journal.cache, s.h.snapImage, s.z);
    SnapMove(s.n, s.mem, s.mem, y, y', s.h, s.z);
    DiskMove(s.n, s.data, s.journal, y, y', s.z);
    CacheMove(s.n, s.data.cache, y, y', s.h.snapImage, s.h.snapImage, s.z);
    if t.w == s.w && (Taken(t.sync) ==> Taken(s.sync)) {
      FidMove(s.ctrl, t.ctrl, y, y', s.h, s.w);
    }
  }

  lemma TakeIlockInv(s: Db)
    requires Inv(s) && s.sync.pc.TakeIlock? && s.mem.ilock.Free?
    ensures Inv(DoTakeIlock(s))
  {
    hide MemInv, NewInv, JobInv, SnapInv, DiskInv, CacheInv, FidInv;
    var t := DoTakeIlock(s);
    var y, y' := s.sync, t.sync;
    TakeIlockMem(s);
    JobMove(s.n, s.mem.npages, y, y', s.journal.cache, s.h.snapImage, s.z);
    SnapMove(s.n, s.mem, t.mem, y, y', s.h, s.z);
    DiskMove(s.n, s.data, s.journal, y, y', s.z);
    CacheMove(s.n, s.data.cache, y, y', s.h.snapImage, s.h.snapImage, s.z);
    FidMove(s.ctrl, t.ctrl, y, y', s.h, s.w);
  }

  lemma TakeIlockMem(s: Db)
    requires Shape(s) && s.mem.ilock.Free? && s.sync.pc.TakeIlock?
    requires MemInv(s.n, s.mem, s.data.cache, s.sync, s.h) && NewInv(s.n, s.mem, s.sync, s.h.snapImage)
    ensures var t := DoTakeIlock(s);
      MemInv(s.n, t.mem, s.data.cache, t.sync, s.h) && NewInv(s.n, t.mem, t.sync, s.h.snapImage)
  {
    var t := DoTakeIlock(s);
    assert Memory(t.mem, s.data.cache) == Memory(s.mem, s.data.cache);
    assert t.mem.writable == Open(t.mem, t.sync);
    assert t.mem.npages == map[];
  }

  lemma ProtectInv(s: Db)
    requires Inv(s) && s.sync.pc.Protect? && s.h.stores != []
    ensures Inv(DoProtect(s))
  {
    hide MemInv, NewInv, JobInv, SnapInv, DiskInv, CacheInv, FidInv, Memory;
    var t := DoProtect(s);
    var y, y' := s.sync, t.sync;
    ProtectMem(s);
    JobIdle(s.n, s.mem.npages, y', s.journal.cache, t.h.snapImage, t.z);
    ProtectSnap(s);
    DiskMove(s.n, s.data, s.journal, y, y', s.z);
    ProtectDisk(s.n, s.data, s.journal, y', s.z, t.z);
    CacheMove(s.n, s.data.cache, y, y', s.h.snapImage, t.h.snapImage, s.z);
    ProtectCache(s.n, s.data.cache, y', t.h.snapImage, s.z, t.z);
    ProtectLater(s);
    FidLater(s.ctrl, y, s.h, t.h, s.w);
    FidMove(s.ctrl, t.ctrl, y, y', t.h, s.w);
  }

  lemma ProtectLater(s: Db)
    requires Shape(s) && s.sync.pc.Protect? && MemInv(s.n, s.mem, s.data.cache, s.sync, s.h)
    ensures |s.h.stores| >= 1 && s.h.snapStores <= |s.h.stores| - 1
  {
  }

  lemma ProtectMem(s: Db)
    requires Shape(s) && s.sync.pc.Protect? && s.h.stores != []
    requires MemInv(s.n, s.mem, s.data.cache, s.sync, s.h) && NewInv(s.n, s.mem, s.sync, s.h.snapImage)
    ensures var t := DoProtect(s);
      MemInv(s.n, t.mem, s.data.cache, t.sync, t.h) && NewInv(s.n, t.mem, t.sync, t.h.snapImage)
  {
    var t := DoProtect(s);
    assert Memory(t.mem, s.data.cache) == Memory(s.mem, s.data.cache);
    assert t.mem.npages == map[];
  }

  lemma ProtectSnap(s: Db)
    requires Shape(s) && s.sync.pc.Protect? && s.h.stores != []
    requires MemInv(s.n, s.mem, s.data.cache, s.sync, s.h)
    requires SnapInv(s.n, s.mem, s.sync, s.h, s.z)
    ensures var t := DoProtect(s); Images(s.n, t.z.snaps) && SnapInv(s.n, t.mem, t.sync, t.h, t.z)
  {
    var t := DoProtect(s);
    forall p | 0 <= p < s.n && p !in s.mem.dpages ensures s.z.snaps[s.z.base][p] == t.h.snapImage[p] {
      assert PageAt(s.mem, s.data.cache, p) == s.h.snapImage[p];
    }
  }

  lemma ProtectDisk(n: nat, data: File, journal: File, y: Sync, z: Snapshots, z': Snapshots)
    requires |data.disk| == n && |journal.cache| >= 1 && |journal.disk| >= 1
    requires z.base < |z.snaps| && Images(n, z.snaps) && Images(n, z'.snaps)
    requires y.pc.Swap? && DiskInv(n, data, journal, y, z)
    requires z' == z.(snaps := z'.snaps) && z.snaps <= z'.snaps
    ensures DiskInv(n, data, journal, y, z')
  {
    HeaderLater(n, journal.cache[0], z.cacheHdr, z, z');
    HeaderLater(n, journal.disk[0], z.diskHdr, z, z');
  }

  lemma ProtectCache(n: nat, cache: seq<Page>, y: Sync, image: Image, z: Snapshots, z': Snapshots)
    requires |cache| == |image| == n && z.base < |z.snaps| && z.durable < |z.snaps|
    requires Images(n, z.snaps) && Images(n, z'.snaps)
    requires y.pc.Swap? && CacheInv(n, cache, y, image, z)
    requires z' == z.(snaps := z'.snaps) && z.snaps <= z'.snaps
    ensures CacheInv(n, cache, y, image, z')
  {
  }

  lemma SwapInv(s: Db)
    requires Inv(s) && s.sync.pc.Swap?
    ensures Inv(DoSwap(s))
  {
    hide MemInv, NewInv, JobInv, SnapInv, DiskInv, CacheInv, FidInv;
    var t := DoSwap(s);
    var y, y' := s.sync, t.sync;
    SwapMem(s);
    SwapJob(s.n, s.mem.dpages, y', s.journal.cache, s.h.snapImage, s.z);
    SnapMove(s.n, s.mem, t.mem, y, y', s.h, s.z);
    DiskMove(s.n, s.data, s.journal, y, y', s.z);
    CacheMove(s.n, s.data.cache, y, y', s.h.snapImage, s.h.snapImage, s.z);
    FidMove(s.ctrl, t.ctrl, y, y', s.h, s.w);
  }

  lemma SwapJob(n: nat, dpages: set<nat>, y: Sync, jcache: seq<Page>, image: Image, z: Snapshots)
    requires |image| == n && y.pc.Section?
    ensures JobInv(n, Unwritten(dpages), y, jcache, image, z)
  {
  }

  lemma SwapMem(s: Db)
    requires Shape(s) && s.sync.pc.Swap?
    requires MemInv(s.n, s.mem, s.data.cache, s.sync, s.h) && NewInv(s.n, s.mem, s.sync, s.h.snapImage)
    ensures var t := DoSwap(s);
      MemInv(s.n, t.mem, s.data.cache, t.sync, s.h) && NewInv(s.n, t.mem, t.sync, s.h.snapImage)
      && s.sync.hasChanges
  {
    var t := DoSwap(s);
    assert Memory(t.mem, s.data.cache) == Memory(s.mem, s.data.cache);
    assert t.mem.writable == Open(t.mem, t.sync);
    var p :| p in s.mem.dpages;
    assert p in t.mem.npages;
  }

  lemma SectionInv(s: Db)
    requires Inv(s) && s.sync.pc.Section?
    ensures Inv(DoSection(s))
  {
    hide MemInv, NewInv, JobInv, SnapInv, DiskInv, CacheInv, FidInv;
    var t := DoSection(s);
    var y, y' := s.sync, t.sync;
    SectionMem(s);
    JobMove(s.n, t.mem.npages, y, y', s.journal.cache, s.h.snapImage, s.z);
    SnapMove(s.n, s.mem, t.mem, y, y', s.h, s.z);
    DiskMove(s.n, s.data, s.journal, y, y', s.z);
    CacheMove(s.n, s.data.cache, y, y', s.h.snapImage, s.h.snapImage, s.z);
    SectionFids(s);
  }

  lemma SectionMem(s: Db)
    requires Shape(s) && s.sync.pc.Section?
    requires MemInv(s.n, s.mem, s.data.cache, s.sync, s.h) && NewInv(s.n, s.mem, s.sync, s.h.snapImage)
    ensures var t := DoSection(s);
      && MemInv(s.n, t.mem, s.data.cache, t.sync, s.h) && NewInv(s.n, t.mem, t.sync, s.h.snapImage)
      && s.h.snapStores == |s.h.stores| - 1
  {
    var t := DoSection(s);
    assert Memory(t.mem, s.data.cache) == Memory(s.mem, s.data.cache);
    assert t.mem.writable == Open(t.mem, t.sync);
    forall q | q in t.mem.npages ensures NewPageInv(t.mem, s.h.snapImage, q) {
      assert NewPageInv(s.mem, s.h.snapImage, q);
    }
  }

  /** The fibers taken in the locked section: no page was written since the snapshot, so they all count no
      more writes than the snapshot holds - whenever their waiters registered. */
  lemma SectionFids(s: Db)
    requires s.sync.pc.Section? && FidInv(s.ctrl, s.sync, s.h, s.w)
    requires s.h.snapStores == |s.h.stores| - 1
    ensures var t := DoSection(s); FidInv(t.ctrl, t.sync, t.h, t.w)
  {
  }

  // ----- releasing waiters

  lemma WakeSnapInv(s: Db)
    requires Inv(s) && s.sync.pc.WakeSnap?
    ensures Inv(DoWakeSnap(s))
  {
    hide MemInv, NewInv, JobInv, SnapInv, DiskInv, CacheInv, FidInv;
    var t := DoWakeSnap(s);
    var y, y' := s.sync, t.sync;
    ReleaseSnap(s.ctrl, y, y', s.h, s.w);
    MemMove(s.n, s.mem, s.data.cache, y, y', s.h);
    NewMove(s.n, s.mem, y, y', s.h.snapImage);
    JobMove(s.n, t.mem.npages, y, y', s.journal.cache, s.h.snapImage, s.z);
    SnapMove(s.n, s.mem, t.mem, y, y', s.h, s.z);
    DiskMove(s.n, s.data, s.journal, y, y', s.z);
    CacheMove(s.n, s.data.cache, y, y', s.h.snapImage, s.h.snapImage, s.z);
  }

  lemma ReleaseSnap(c: Ctrl, y: Sync, y': Sync, h: Session, w: Waiters)
    requires FidInv(c, y, h, w) && Taken(y) && y'.fids == y.fids
    ensures FidInv(c, y', h, w.(snap := w.snap + {y.fids.snap}))
  {
  }

  lemma ReleaseCommit(c: Ctrl, y: Sync, y': Sync, h: Session, w: Waiters)
    requires FidInv(c, y, h, w) && Taken(y) && y'.fids == y.fids && h.durStores == h.snapStores
    ensures FidInv(c, y', h, w.(commit := w.commit + {y.fids.commit}))
  {
  }

  lemma ReleaseSync(c: Ctrl, y: Sync, y': Sync, h: Session, w: Waiters)
    requires FidInv(c, y, h, w) && Taken(y) && y'.fids == y.fids && h.baseStores == h.snapStores
    ensures FidInv(c, y', h, w.(sync := w.sync + {y.fids.sync}))
  {
  }

  /** A commit that found no changes: every write made so far is in the durable snapshot already. */
  lemma WakeIdleInv(s: Db)
    requires Inv(s) && s.sync.pc.WakeIdle?
    ensures Inv(DoWakeIdle(s))
  {
    hide MemInv, NewInv, JobInv, DiskInv, CacheInv, FidInv, SnapInv;
    var t := DoWakeIdle(s);
    SettledCounts(s);
    ReleaseCommit(s.ctrl, s.sync, s.sync, s.h, s.w);
    ReleaseSync(s.ctrl, s.sync, t.sync, s.h, s.w.(commit := s.w.commit + {s.sync.fids.commit}));
    Quiet(s, t);
  }

  lemma SettledCounts(s: Db)
    requires Shape(s) && SnapInv(s.n, s.mem, s.sync, s.h, s.z)
    ensures Settled(s.sync) ==> s.h.durStores == s.h.snapStores == s.h.baseStores
    ensures Persisted(s.sync) ==> s.h.durStores == s.h.snapStores
  {
  }

  lemma WakeSyncInv(s: Db)
    requires Inv(s) && s.sync.pc.WakeSync?
    ensures Inv(DoWakeSync(s))
  {
    hide MemInv, NewInv, JobInv, DiskInv, CacheInv, FidInv, SnapInv;
    var t := DoWakeSync(s);
    SettledCounts(s);
    ReleaseSync(s.ctrl, s.sync, t.sync, s.h, s.w);
    Quiet(s, t);
  }

  lemma WakeCommitInv(s: Db)
    requires Inv(s) && s.sync.pc.WakeCommit?
    ensures Inv(DoWakeCommit(s))
  {
    hide MemInv, NewInv, JobInv, DiskInv, CacheInv, FidInv, SnapInv;
    var t := DoWakeCommit(s);
    var y, y' := s.sync, t.sync;
    SettledCounts(s);
    ReleaseCommit(s.ctrl, y, y', s.h, s.w);
    MemMove(s.n, s.mem, s.data.cache, y, y', s.h);
    NewMove(s.n, s.mem, y, y', s.h.snapImage);
    JobMove(s.n, s.mem.npages, y, y', s.journal.cache, s.h.snapImage, s.z);
    SnapMove(s.n, s.mem, s.mem, y, y', s.h, s.z);
    DiskMove(s.n, s.data, s.journal, y, y', s.z);
    WakeCommitCache(s.n, s.data.cache, y, y', s.h.snapImage, s.z);
  }

  lemma WakeCommitCache(n: nat, cache: seq<Page>, y: Sync, y': Sync, image: Image, z: Snapshots)
    requires |cache| == |image| == n && z.base < |z.snaps| && z.durable < |z.snaps| && Images(n, z.snaps)
    requires y.pc.WakeCommit? && CacheInv(n, cache, y, image, z)
    requires y' == y.(pc := DataCommit, i := 0)
    ensures CacheInv(n, cache, y', image, z)
  {
  }
}
