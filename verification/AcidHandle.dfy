/** The handle of src/acid.c as an object: each method is one critical section, system call or loop pass of the
    program, done on the fields in place, and is the step of the protocol that it is named after. `SyncCommit` and
    `Open` are made of them: a whole commit that nobody comes in between, and an opening. */
module AcidHandle {
  import opened AcidJournal
  import opened AcidProtocol
  import opened AcidInvariant
  import opened AcidSteps
  import opened AcidDiskSteps
  import opened AcidTheorems
  import opened AcidOutcome
  import opened AcidProgress
  import opened AcidFibers
  import opened AcidPrivate

  // ----- what a commit and an opening end in

  /** When nothing is dirty and no commit is running, the memory is what is in the data file, on disk too. */
  lemma SettledFile(s: Db)
    requires Inv(s) && s.sync.pc.Consume? && s.mem.dpages == {} && s.mem.ilock.Free?
    ensures s.h.stores != [] && s.data.cache == s.data.disk == s.h.stores[|s.h.stores| - 1]
    ensures s.z.durable == s.z.base < |s.z.snaps| && s.data.disk == s.z.snaps[s.z.durable]
    ensures s.mem.npages == map[]
  {
    hide JobInv, CtrlInv, FidInv, Bounded, Memory;
    assert Open(s.mem, s.sync) == {};
  }

  /** The last entry of the history of stores is what the program reads. */
  lemma LastStore(s: Db)
    requires Inv(s) && Running(s)
    ensures s.h.stores != [] && s.h.stores[|s.h.stores| - 1] == Memory(s.mem, s.data.cache)
  {
    hide NewInv, JobInv, SnapInv, DiskInv, CacheInv, CtrlInv, FidInv, Bounded, Memory;
  }

  lemma MemWriteParts(s: Db)
    requires Enabled(s, SMemWrite)
    ensures var y, place := s.sync, IndexPages(|s.sync.ids|) + s.sync.i;
      && y.i < |y.ids| && y.ids[y.i] in s.mem.npages && y.ids[y.i] < |s.data.cache| && place < |s.journal.cache|
      && var p := y.ids[y.i]; var v := if p in s.mem.priv then s.mem.priv[p] else s.data.cache[p];
         Do(s, SMemWrite) == s.(mem := s.mem.(npages := s.mem.npages[p := s.mem.npages[p].(jbuffered := true)]),
                                journal := s.journal.(cache := s.journal.cache[place := v]),
                                sync := y.(pc := Check, i := y.i + 1))
  {
    hide Enabled, Do;
    DoesCommit(s, SMemWrite);
  }

  /** The snapshot that a crash leaves becomes the durable one. */
  lemma ReopenSurvivor(s: Db)
    requires Inv(s) && s.sync.pc.Reopen? && |s.journal.cache| >= 1
    ensures |s.journal.disk| >= 1 && DoReopen(s).z.durable == Survivor(s) && DoReopen(s).z.snaps == s.z.snaps
  {
    hide LiveInv, CacheInv, HeaderInv, DataWhole, JournalWhole, Accepted;
    RecoveredExactly(s);
  }

  /** After a crash there is nothing in the cache that is not on disk. */
  lemma SameJournal(s: Db)
    requires Inv(s) && s.sync.pc.Reopen?
    ensures s.journal.cache == s.journal.disk
  {
    hide LiveInv, CacheInv, HeaderInv, DataWhole, JournalWhole;
  }

  lemma OpenedFile(s: Db)
    requires Inv(s) && s.sync.pc.OpenMap?
    ensures s.z.durable < |s.z.snaps| && s.data.cache == s.data.disk == s.z.snaps[s.z.durable]
  {
    hide LiveInv, CacheInv, DiskInv;
    OpenMapCache(s);
  }

  /** A store to an open page changes that page of the image, and no other. */
  lemma StoreImage(s: Db, p: nat, v: Page)
    requires Inv(s) && Running(s) && p < |s.data.cache|
    ensures s.h.stores != [] && p < |s.h.stores[|s.h.stores| - 1]|
    ensures DoStore(s, p, v).h.stores == s.h.stores + [s.h.stores[|s.h.stores| - 1][p := v]]
  {
    hide Inv;
    LastStore(s);
    var m := s.mem.(priv := s.mem.priv[p := v]);
    assert Memory(m, s.data.cache) == Memory(s.mem, s.data.cache)[p := v];
  }

  /** With no handler at work, dirty pages are the open ones. */
  lemma OpenPages(s: Db)
    requires Inv(s) && Running(s)
    ensures s.mem.ilock.Free? ==> s.mem.writable == s.mem.dpages
    ensures s.mem.ilock.Copied? && s.mem.ilock.page in s.mem.dpages ==> s.mem.ilock.page in s.mem.writable
    ensures |s.data.cache| == s.n && (forall p | p in s.mem.writable :: p < s.n)
  {
    hide NewInv, JobInv, SnapInv, DiskInv, CacheInv, FidInv, CtrlInv, Memory;
    assert s.mem.writable == Open(s.mem, s.sync);
  }

  /** What else holds of fibers and private memory. */
  ghost predicate Sides(s: Db) {
    FiberInv(s.ctrl, s.sync, s.w) && PrivInv(s.mem, s.sync)
  }

  lemma InitSides(image: Image, addr: nat)
    ensures Sides(Init(image, addr))
  {
    InitFibers(image, addr);
    InitPriv(image, addr);
  }

  lemma SidesStep(s: Db, a: Step)
    requires Inv(s) && Sides(s) && Enabled(s, a)
    ensures Sides(Do(s, a))
  {
    hide Inv, Enabled, Do, FiberInv, PrivInv;
    FiberStep(s, a);
    PrivStep(s, a);
  }

  /** The fibers that are registered, and the next one, when a request comes. */
  lemma FibersAtRequest(s: Db)
    requires Inv(s) && Sides(s) && Running(s)
    ensures var c := s.ctrl;
      Apart(c.fids) && 1 <= c.nextFid && c.fids.snap < c.nextFid && c.fids.commit < c.nextFid && c.fids.sync < c.nextFid
  {
    hide MemInv, NewInv, JobInv, SnapInv, DiskInv, CacheInv, PrivInv;
  }

  lemma NoPrivatePages(s: Db)
    requires Sides(s) && s.mem.dpages == {} && s.mem.npages == map[] && s.mem.ilock.Free? && s.sync.pc.Consume?
    ensures s.mem.priv == map[]
  {
    hide FiberInv, PrivInv;
    NothingPrivate(s);
  }

  class Handle {
    const n: nat
    const addr: nat
    var rev: nat
    // The mapping and the page indexes.
    var priv: map<nat, Page>
    var writable: set<nat>
    var dpages: set<nat>
    var npages: map<nat, NewPage>
    var ilock: ILock
    var data: File
    var journal: File
    // What ctrl.lock protects.
    var ctrl: Ctrl
    // The sync thread's place and the locals of acid_sync_commit.
    var pc: Pc
    var hasChanges: bool
    var taken: Fids
    var ids: seq<nat>
    var i: nat
    var hashed: seq<Page>
    // History.
    ghost var h: Session
    ghost var z: Snapshots
    ghost var w: Waiters

    /** A database is opened for the first time, with a blank journal. */
    constructor (image: Image, addr: nat)
      requires 1 <= |image| <= MAX_PAGES && addr < MAX64
      ensures State() == Init(image, addr) && Valid()
    {
      hide Inv, Sides, Memory;
      this.n, this.addr := |image|, addr;
      rev, ctrl := 0, NO_CTRL;
      priv, writable, dpages, npages, ilock := map[], {}, {}, map[], Free;
      data, journal := File(image, image), File([Blank()], [Blank()]);
      pc, hasChanges, taken, ids, i, hashed := Reopen, false, NO_FIDS, [], 0, [];
      h, z, w := Session([], image, 0, 0, 0), Snapshots([image], 0, 0, None, None, 0, 1), NO_WAITERS;
      new;
      InitInv(image, addr);
      InitSides(image, addr);
    }

    ghost function State(): Db
      reads this
    {
      Db(n, addr, rev, Mem(priv, writable, dpages, npages, ilock), data, journal, ctrl,
         Sync(pc, hasChanges, taken, ids, i, hashed), h, z, w)
    }

    /** The protocol step a was taken: in a valid state, to a valid state. */
    twostate predicate Took(a: Step)
      reads this
    {
      Enabled(old(State()), a) && State() == Do(old(State()), a)
    }

    /** What holds between any two critical sections. */
    ghost predicate Valid()
      reads this
    {
      Inv(State()) && Sides(State())
    }

    twostate lemma Keeps(a: Step)
      requires old(Valid()) && Took(a)
      ensures Valid()
    {
      hide Inv, Sides, Do, Enabled;
      StepInv(old(State()), a);
      SidesStep(old(State()), a);
    }

    /** What a read of page p sees. */
    function Read(p: nat): Page
      requires p < |data.cache|
      reads this
    {
      if p in priv then priv[p] else data.cache[p]
    }

    // ----- stores, and acid_rsig_segv

    /** The program stores to a page that is open for writing. */
    method Store(p: nat, v: Page)
      requires Valid() && Enabled(State(), Step.Store(p, v))
      modifies `priv, `h
      ensures Took(Step.Store(p, v)) && Valid() && priv == old(priv)[p := v]
      ensures old(h).stores != [] && p < |old(h).stores[|old(h).stores| - 1]|
      ensures h.stores == old(h).stores + [old(h).stores[|old(h).stores| - 1][p := v]]
    {
      hide Inv, Sides, Do, Enabled, Memory, Resize;
      DoesProgram(State(), Step.Store(p, v));
      StoreImage(State(), p, v);
      priv := priv[p := v];
      h := h.(stores := h.stores + [Memory(Mem(priv, writable, dpages, npages, ilock), data.cache)]);
      Keeps(Step.Store(p, v));
    }

    /** The handler takes `ilock` and copies a page that the running commit still needs. */
    method FaultCopy(p: nat)
      requires Valid() && Enabled(State(), Step.FaultCopy(p))
      modifies `ilock, `npages
      ensures Took(Step.FaultCopy(p)) && Valid()
      ensures ilock == Copied(p) && p < |data.cache|
      ensures npages == if p in old(npages) && !old(npages)[p].jbuffered && old(npages)[p].cow.None?
        then old(npages)[p := NewPage(false, Some(Read(p)))] else old(npages)
    {
      hide Inv, Sides, Do, Enabled, Memory, Resize;
      DoesProgram(State(), Step.FaultCopy(p));
      ilock := Copied(p);
      if p in npages {
        if !npages[p].jbuffered && npages[p].cow.None? {
          npages := npages[p := npages[p].(cow := Some(Read(p)))];
        }
      }
      Keeps(Step.FaultCopy(p));
    }

    /** It opens a page that is not dirty for writing; without kernel memory it lets go and starts over. */
    method FaultMap(enomem: bool)
      requires Valid() && Enabled(State(), Step.FaultMap(enomem))
      modifies `ilock, `writable
      ensures Took(Step.FaultMap(enomem)) && Valid()
      ensures old(ilock).Copied?
      ensures if old(ilock).page in dpages || enomem then ilock == Free && writable == old(writable)
        else ilock == Mapped(old(ilock).page) && writable == old(writable) + {old(ilock).page}
    {
      hide Inv, Sides, Do, Enabled, Memory, Resize;
      DoesProgram(State(), Step.FaultMap(enomem));
      var p := ilock.page;
      if p in dpages || enomem {
        ilock := Free;
      } else {
        writable := writable + {p};
        ilock := Mapped(p);
      }
      Keeps(Step.FaultMap(enomem));
    }

    /** It indexes the page as dirty and releases `ilock`. */
    method FaultIndex()
      requires Valid() && Enabled(State(), Step.FaultIndex)
      modifies `ilock, `dpages
      ensures Took(Step.FaultIndex) && Valid()
      ensures old(ilock).Mapped? && ilock == Free && dpages == old(dpages) + {old(ilock).page}
    {
      hide Inv, Sides, Do, Enabled, Memory, Resize;
      DoesProgram(State(), Step.FaultIndex);
      dpages := dpages + {ilock.page};
      ilock := Free;
      Keeps(Step.FaultIndex);
    }

    // ----- requesters

    /** A fiber that is registered is shared; else it is one that was never handed out. */
    static predicate HandedOut(f: nat, registered: nat, next: nat, next': nat) {
      if registered != 0 then f == registered else next <= f < next'
    }

    /** A commit is ordered, unless it was already. */
    method Order() returns (wake: bool)
      modifies `ctrl
      ensures ctrl == OrderCommit(old(ctrl)) && wake == old(ctrl).op.OpNone?
    {
      wake := false;
      if ctrl.op.OpNone? {
        ctrl := ctrl.(op := OpCommit, toSet := ctrl.toSet + 1);
        wake := true;
      }
    }

    /** The fiber that waiters share, or one that is started for them. */
    static method WaitFiber(registered: nat, next: nat) returns (f: nat)
      ensures f == FidOr(registered, next)
    {
      f := registered;
      if f == 0 {
        f := next;
      }
    }

    /** The locked section of acid_fsync_inner: a commit is ordered, and the caller gets the fibers to wait for. */
    method Fsync() returns (commit: nat, sync: nat, wake: bool)
      requires Valid() && Enabled(State(), Step.Fsync)
      modifies `ctrl, `w
      ensures Took(Step.Fsync) && Valid() && commit != 0 && sync != 0 && commit != sync
      ensures wake == old(ctrl).op.OpNone?
      ensures ctrl == old(ctrl).(op := OpCommit, fids := Fids(old(ctrl).fids.snap, commit, sync),
                                 nextFid := ctrl.nextFid, toSet := old(ctrl).toSet + if wake then 1 else 0)
      ensures HandedOut(commit, old(ctrl).fids.commit, old(ctrl).nextFid, ctrl.nextFid)
      ensures HandedOut(sync, old(ctrl).fids.sync, old(ctrl).nextFid, ctrl.nextFid)
      ensures old(h).stores != [] && w == old(w).(regs := w.regs)
      ensures w.regs == old(w).regs[commit := |old(h).stores| - 1][sync := |old(h).stores| - 1]
    {
      hide Inv, Sides, Do, Enabled, Memory, Resize;
      DoesProgram(State(), Step.Fsync);
      FibersAtRequest(State());
      wake := Order();
      commit := WaitFiber(ctrl.fids.commit, ctrl.nextFid);
      sync := WaitFiber(ctrl.fids.sync, ctrl.nextFid + 1);
      ctrl := ctrl.(fids := ctrl.fids.(commit := commit, sync := sync), nextFid := ctrl.nextFid + 2);
      w := w.(regs := w.regs[commit := |h.stores| - 1][sync := |h.stores| - 1]);
      Keeps(Step.Fsync);
    }

    /** The locked section of acid_fsync_async: nothing in the sync phase, else like a full sync, but the caller
        waits for the snapshot. */
    method FsyncAsync() returns (snap: nat, sync: nat, wake: bool)
      requires Valid() && Enabled(State(), Step.FsyncAsync)
      modifies `ctrl, `w
      ensures Took(Step.FsyncAsync) && Valid()
      ensures old(ctrl).inSyncPhase ==> snap == 0 && sync == 0 && !wake && ctrl == old(ctrl) && w == old(w)
      ensures !old(ctrl).inSyncPhase ==>
        && snap != 0 && sync != 0 && snap != sync && wake == old(ctrl).op.OpNone?
        && ctrl == old(ctrl).(op := OpCommit, fids := Fids(snap, old(ctrl).fids.commit, sync),
                              nextFid := ctrl.nextFid, toSet := old(ctrl).toSet + if wake then 1 else 0)
        && HandedOut(snap, old(ctrl).fids.snap, old(ctrl).nextFid, ctrl.nextFid)
        && HandedOut(sync, old(ctrl).fids.sync, old(ctrl).nextFid, ctrl.nextFid)
        && old(h).stores != [] && w == old(w).(regs := w.regs)
        && w.regs == old(w).regs[snap := |old(h).stores| - 1][sync := |old(h).stores| - 1]
    {
      hide Inv, Sides, Do, Enabled, Memory, Resize;
      DoesProgram(State(), Step.FsyncAsync);
      FibersAtRequest(State());
      snap, sync, wake := 0, 0, false;
      if ctrl.inSyncPhase {
        Keeps(Step.FsyncAsync);
        return;
      }
      wake := Order();
      snap := WaitFiber(ctrl.fids.snap, ctrl.nextFid);
      sync := WaitFiber(ctrl.fids.sync, ctrl.nextFid + 1);
      ctrl := ctrl.(fids := ctrl.fids.(snap := snap, sync := sync), nextFid := ctrl.nextFid + 2);
      w := w.(regs := w.regs[snap := |h.stores| - 1][sync := |h.stores| - 1]);
      Keeps(Step.FsyncAsync);
    }

    /** The first half of a wake-up: the futex word. */
    method SetFutex()
      requires Valid() && Enabled(State(), FutexSet)
      modifies `ctrl
      ensures Took(FutexSet) && Valid()
      ensures ctrl == old(ctrl).(futex := true, toSet := ctrl.toSet, toWake := old(ctrl).toWake + 1)
    {
      hide Inv, Sides, Do, Enabled, Memory, Resize;
      DoesProgram(State(), FutexSet);
      ctrl := ctrl.(futex := true, toSet := ctrl.toSet - 1, toWake := ctrl.toWake + 1);
      Keeps(FutexSet);
    }

    /** ... and the second: the sleeper, if there is one. */
    method WakeSleeper()
      requires Valid() && Enabled(State(), FutexWake)
      modifies `ctrl, `pc
      ensures Took(FutexWake) && Valid()
      ensures ctrl == old(ctrl).(toWake := ctrl.toWake) && pc == if old(pc).Asleep? then Pc.Consume else old(pc)
    {
      hide Inv, Sides, Do, Enabled, Memory, Resize;
      DoesProgram(State(), FutexWake);
      ctrl := ctrl.(toWake := ctrl.toWake - 1);
      if pc.Asleep? {
        pc := Pc.Consume;
      }
      Keeps(FutexWake);
    }

    // ----- acid_sync_thread and acid_sync_commit

    /** The sync thread consumes the futex word and looks for an operation. */
    method Consume()
      requires Valid() && Enabled(State(), SConsume)
      modifies `ctrl, `pc
      ensures Took(SConsume) && Valid()
      ensures ctrl == old(ctrl).(futex := false) && pc == if ctrl.op.OpNone? then AboutToWait else Pc.TakeIlock
    {
      hide Inv, Sides, Do, Enabled, Memory, Resize;
      DoesCommit(State(), SConsume);
      ctrl := ctrl.(futex := false);
      pc := if ctrl.op.OpNone? then AboutToWait else Pc.TakeIlock;
      Keeps(SConsume);
    }

    /** It sleeps, unless the futex word was set meanwhile. */
    method Wait()
      requires Valid() && Enabled(State(), SWait)
      modifies `pc
      ensures Took(SWait) && Valid()
      ensures pc == if ctrl.futex then Pc.Consume else Asleep
    {
      hide Inv, Sides, Do, Enabled, Memory, Resize;
      DoesCommit(State(), SWait);
      pc := if ctrl.futex then Pc.Consume else Asleep;
      Keeps(SWait);
    }

    /** `ilock` for the snapshot. */
    method TakeIlock()
      requires Valid() && Enabled(State(), STakeIlock)
      modifies `ilock, `hasChanges, `pc
      ensures Took(STakeIlock) && Valid()
      ensures ilock == SyncHolds && hasChanges == (dpages != {}) && pc == if hasChanges then Pc.Protect else Section
    {
      hide Inv, Sides, Do, Enabled, Memory, Resize;
      DoesCommit(State(), STakeIlock);
      ilock := SyncHolds;
      hasChanges := dpages != {};
      pc := if hasChanges then Pc.Protect else Section;
      Keeps(STakeIlock);
    }

    /** mprotect of the whole range: from here on the memory is the snapshot. */
    method Protect()
      requires Valid() && Enabled(State(), SProtect)
      modifies `writable, `pc, `z, `h
      ensures Took(SProtect) && Valid()
      ensures pc == Swap && writable == {} && old(h).stores != []
      ensures h == old(h).(snapImage := h.stores[|h.stores| - 1], snapStores := |h.stores| - 1)
      ensures z == old(z).(snaps := old(z).snaps + [h.snapImage])
    {
      hide Inv, Sides, Do, Enabled, Memory, Resize;
      DoesCommit(State(), SProtect);
      LastHere();
      writable := {};
      pc := Swap;
      ghost var image := Memory(Mem(priv, writable, dpages, npages, ilock), data.cache);
      MemoryAgain(image);
      z := z.(snaps := z.snaps + [image]);
      h := h.(snapImage := image, snapStores := |h.stores| - 1);
      Keeps(SProtect);
    }

    twostate lemma MemoryAgain(image: Image)
      requires priv == old(priv) && data == old(data)
      requires image == Memory(Mem(priv, writable, dpages, npages, ilock), data.cache)
      ensures image == Memory(old(State()).mem, old(data).cache)
    {
      assert forall p | 0 <= p < |image| :: image[p] == Memory(old(State()).mem, old(data).cache)[p];
    }

    /** The dirty pages become the new pages. */
    method SwapIndexes()
      requires Valid() && Enabled(State(), SSwap)
      modifies `npages, `dpages, `pc
      ensures Took(SSwap) && Valid()
      ensures pc == Section && dpages == {} && npages == Unwritten(old(dpages))
    {
      hide Inv, Sides, Do, Enabled, Memory, Resize;
      DoesCommit(State(), SSwap);
      npages := map p: nat | p in dpages :: NewPage(false, None);
      dpages := {};
      pc := Section;
      Keeps(SSwap);
    }

    /** The section under ctrl.lock: the order is taken, and the waiters that came with it. */
    method TakeOrder()
      requires Valid() && Enabled(State(), SSection)
      modifies `ilock, `ctrl, `taken, `pc
      ensures Took(SSection) && Valid()
      ensures pc == WakeSnap && ilock == Free && taken == old(ctrl).fids
      ensures ctrl == old(ctrl).(op := OpNone, inSyncPhase := hasChanges, fids := NO_FIDS)
    {
      hide Inv, Sides, Do, Enabled, Memory, Resize;
      DoesCommit(State(), SSection);
      if ctrl.op.OpCommit? {
        ctrl := ctrl.(op := OpNone);
      }
      taken := ctrl.fids;
      ctrl := ctrl.(inSyncPhase := hasChanges, fids := NO_FIDS);
      ilock := Free;
      pc := WakeSnap;
      Keeps(SSection);
    }

    /** Those who wait for the snapshot go on. */
    method ReleaseSnap()
      requires Valid() && Enabled(State(), SWakeSnap)
      modifies `w, `pc
      ensures Took(SWakeSnap) && Valid()
      ensures pc == if hasChanges then Truncate else WakeIdle
      ensures w == old(w).(snap := old(w).snap + {taken.snap})
    {
      hide Inv, Sides, Do, Enabled, Memory, Resize;
      DoesCommit(State(), SWakeSnap);
      w := w.(snap := w.snap + {taken.snap});
      pc := if hasChanges then Truncate else WakeIdle;
      Keeps(SWakeSnap);
    }

    /** Without changes, all others go on too. */
    method ReleaseIdle()
      requires Valid() && Enabled(State(), SWakeIdle)
      modifies `w, `pc
      ensures Took(SWakeIdle) && Valid()
      ensures pc == Pc.Consume
      ensures w == old(w).(commit := old(w).commit + {taken.commit}, sync := old(w).sync + {taken.sync})
    {
      hide Inv, Sides, Do, Enabled, Memory, Resize;
      DoesCommit(State(), SWakeIdle);
      w := w.(commit := w.commit + {taken.commit}, sync := w.sync + {taken.sync});
      pc := Pc.Consume;
      Keeps(SWakeIdle);
    }

    /** The journal is made as long as index and pages need. */
    method TruncateJournal(order: seq<nat>)
      requires Valid() && Enabled(State(), STruncate(order))
      modifies `journal, `ids, `i, `hashed, `pc
      ensures Took(STruncate(order)) && Valid()
      ensures pc == Check && i == 0 && ids == order && hashed == []
      ensures journal == File(Resize(old(journal).cache, IndexPages(|order|) + |order|), old(journal).disk)
    {
      hide Inv, Sides, Do, Enabled, Memory, Resize;
      DoesCommit(State(), STruncate(order));
      journal := journal.(cache := Resize(journal.cache, IndexPages(|order|) + |order|));
      ids, i, hashed := order, 0, [];
      pc := Check;
      Keeps(STruncate(order));
    }

    /** The unlocked test for a copy, and its hashing. */
    method CheckCow()
      requires Valid() && Enabled(State(), SCheck)
      modifies `hashed, `pc
      ensures Took(SCheck) && Valid()
      ensures i < |ids| && ids[i] in npages
      ensures if npages[ids[i]].cow.Some? then pc == CowHashed && hashed == old(hashed) + [npages[ids[i]].cow.value]
        else pc == Lock && hashed == old(hashed)
    {
      hide Inv, Sides, Do, Enabled, Memory, Resize;
      DoesCommit(State(), SCheck);
      var page := npages[ids[i]];
      if page.cow.Some? {
        hashed := hashed + [page.cow.value];
        pc := CowHashed;
      } else {
        pc := Lock;
      }
      Keeps(SCheck);
    }

    /** The test again under the page lock; without a copy the memory itself is hashed. */
    method LockPage()
      requires Valid() && Enabled(State(), SLock)
      modifies `hashed, `pc
      ensures Took(SLock) && Valid()
      ensures i < |ids| && ids[i] in npages && ids[i] < |data.cache|
      ensures if npages[ids[i]].cow.Some? then pc == CowHashed && hashed == old(hashed) + [npages[ids[i]].cow.value]
        else pc == MemHashed && hashed == old(hashed) + [Read(ids[i])]
    {
      hide Inv, Sides, Do, Enabled, Memory, Resize;
      DoesCommit(State(), SLock);
      var page := npages[ids[i]];
      if page.cow.Some? {
        hashed := hashed + [page.cow.value];
        pc := CowHashed;
      } else {
        hashed := hashed + [Read(ids[i])];
        pc := MemHashed;
      }
      Keeps(SLock);
    }

    /** The copy goes to the journal. */
    method WriteCow()
      requires Valid() && Enabled(State(), SCowWrite)
      modifies `journal, `i, `pc
      ensures Took(SCowWrite) && Valid()
      ensures pc == Check && i == old(i) + 1 <= |ids| && ids[i - 1] in npages && npages[ids[i - 1]].cow.Some?
      ensures IndexPages(|ids|) + i - 1 < |old(journal).cache|
      ensures journal.cache == old(journal).cache[IndexPages(|ids|) + i - 1 := npages[ids[i - 1]].cow.value]
      ensures journal.disk == old(journal).disk
    {
      hide Inv, Sides, Do, Enabled, Memory, Resize, IndexPages, PageAt, Running;
      DoesCommit(State(), SCowWrite);
      journal := journal.(cache := journal.cache[IndexPages(|ids|) + i := npages[ids[i]].cow.value]);
      i := i + 1;
      pc := Check;
      Keeps(SCowWrite);
    }

    /** The memory goes to the journal, and the page is marked as buffered there. */
    method WriteMemory()
      requires Valid() && Enabled(State(), SMemWrite)
      modifies `journal, `npages, `i, `pc
      ensures Took(SMemWrite) && Valid()
      ensures pc == Check && i == old(i) + 1 <= |ids| && ids[i - 1] in old(npages) && ids[i - 1] < |data.cache|
      ensures IndexPages(|ids|) + i - 1 < |old(journal).cache|
      ensures journal.cache == old(journal).cache[IndexPages(|ids|) + i - 1 := Read(ids[i - 1])]
      ensures journal.disk == old(journal).disk
      ensures npages == old(npages)[ids[i - 1] := old(npages)[ids[i - 1]].(jbuffered := true)]
    {
      hide Inv, Sides, Do, Enabled, Memory, Resize, DoMemWrite, AtNewPage, JournalRoom, PageAt;
      MemWriteParts(State());
      journal := journal.(cache := journal.cache[IndexPages(|ids|) + i := Read(ids[i])]);
      npages := npages[ids[i] := npages[ids[i]].(jbuffered := true)];
      i := i + 1;
      pc := Check;
      Keeps(SMemWrite);
    }

    /** The index, with the hash of all, goes to the start of the journal. */
    method WriteIndex()
      requires Valid() && Enabled(State(), SWriteIndex)
      modifies `journal, `z, `pc
      ensures Took(SWriteIndex) && Valid()
      ensures pc == JournalSync && old(z).snaps != []
      ensures z == old(z).(cacheHdr := Some(Attempt(Commit(rev, addr, ids, hashed), |z.snaps| - 1, z.openings)))
    {
      hide Inv, Sides, Do, Enabled, Memory, Resize, WriteStart, RawIndex;
      DoesSync(State(), SWriteIndex);
      var c := Commit(rev, addr, ids, hashed);
      journal := journal.(cache := WriteStart(journal.cache, RawIndex(c)));
      z := z.(cacheHdr := Some(Attempt(c, |z.snaps| - 1, z.openings)));
      pc := JournalSync;
      Keeps(SWriteIndex);
    }

    /** fsync of the journal: from here on the snapshot survives. */
    method SyncJournal()
      requires Valid() && Enabled(State(), SJournalSync)
      modifies `journal, `z, `h, `pc
      ensures Took(SJournalSync) && Valid()
      ensures pc == Pc.Detach && h.stores == old(h).stores && old(z).snaps != []
      ensures journal.cache == journal.disk == old(journal).cache
      ensures z == old(z).(diskHdr := z.cacheHdr, durable := |z.snaps| - 1)
    {
      hide Inv, Sides, Do, Enabled, Memory, Resize;
      DoesSync(State(), SJournalSync);
      journal := File(journal.cache, journal.cache);
      z := z.(diskHdr := z.cacheHdr, durable := |z.snaps| - 1);
      h := h.(durStores := h.snapStores);
      pc := Pc.Detach;
      Keeps(SJournalSync);
    }

    /** After the fsync of the journal: the next revision, and the new pages are let go. */
    method Detach()
      requires Valid() && Enabled(State(), SDetach)
      modifies `rev, `npages, `pc
      ensures Took(SDetach) && Valid()
      ensures pc == WakeCommit && rev == (old(rev) + 1) % 0x1_0000_0000_0000_0000 && npages == map[]
    {
      hide Inv, Sides, Do, Enabled, Memory, Resize;
      DoesSync(State(), SDetach);
      rev := (rev + 1) % MAX64;
      npages := map[];
      pc := WakeCommit;
      Keeps(SDetach);
    }

    /** Those who wait for the commit go on. */
    method ReleaseCommit()
      requires Valid() && Enabled(State(), SWakeCommit)
      modifies `w, `pc, `i
      ensures Took(SWakeCommit) && Valid()
      ensures pc == DataCommit && i == 0
      ensures w == old(w).(commit := old(w).commit + {taken.commit})
    {
      hide Inv, Sides, Do, Enabled, Memory, Resize;
      DoesSync(State(), SWakeCommit);
      w := w.(commit := w.commit + {taken.commit});
      pc, i := DataCommit, 0;
      Keeps(SWakeCommit);
    }

    /** Page k of a journal was written to its place in a file, and nothing else was. */
    static predicate PageCopied(j: seq<Page>, k: nat, file: seq<Page>, file': seq<Page>) {
      && |j| >= 1 && SizesAgree(j) && k < NPages(j) && Ids(j)[k] < |file|
      && file' == file[Ids(j)[k] := DataPages(j)[k]]
    }

    /** A page of the journal goes to the data file, under the eyes of the program. */
    method CopyPage()
      requires Valid() && Enabled(State(), SDataCommit)
      modifies `data, `i
      ensures Took(SDataCommit) && Valid()
      ensures i == old(i) + 1 && data.disk == old(data).disk
      ensures PageCopied(journal.cache, old(i), old(data).cache, data.cache)
    {
      hide Inv, Sides, Do, Enabled, Memory, Resize, Ids, DataPages;
      DoesSync(State(), SDataCommit);
      data := data.(cache := data.cache[Ids(journal.cache)[i] := DataPages(journal.cache)[i]]);
      i := i + 1;
      Keeps(SDataCommit);
    }

    /** All pages are copied. */
    method EndCopy()
      requires Valid() && Enabled(State(), SDataCommitted)
      modifies `pc, `i
      ensures Took(SDataCommitted) && Valid()
      ensures pc == Pc.Remap && i == 0
    {
      hide Inv, Sides, Do, Enabled, Memory, Resize;
      DoesSync(State(), SDataCommitted);
      pc, i := Pc.Remap, 0;
      Keeps(SDataCommitted);
    }

    /** A page that is not dirty again is mapped to the file anew. */
    method Remap()
      requires Valid() && Enabled(State(), SRemap)
      modifies `priv, `writable, `i
      ensures Took(SRemap) && Valid()
      ensures i == old(i) + 1 <= |ids|
      ensures if ids[i - 1] in dpages then priv == old(priv) && writable == old(writable)
        else priv == old(priv) - {ids[i - 1]} && writable == old(writable) - {ids[i - 1]}
    {
      hide Inv, Sides, Do, Enabled, Memory, Resize;
      DoesSync(State(), SRemap);
      var p := ids[i];
      if p !in dpages {
        priv := priv - {p};
        writable := writable - {p};
      }
      i := i + 1;
      Keeps(SRemap);
    }

    /** All clean pages are mapped anew. */
    method EndRemap()
      requires Valid() && Enabled(State(), SRemapped)
      modifies `pc
      ensures Took(SRemapped) && Valid()
      ensures pc == DataSync
    {
      hide Inv, Sides, Do, Enabled, Memory, Resize;
      DoesSync(State(), SRemapped);
      pc := DataSync;
      Keeps(SRemapped);
    }

    /** fsync of the data file. */
    method SyncData()
      requires Valid() && Enabled(State(), SDataSync)
      modifies `data, `z, `h, `pc
      ensures Took(SDataSync) && Valid()
      ensures pc == TruncateEnd && h.stores == old(h).stores
      ensures data.disk == data.cache == old(data).cache && z == old(z).(base := z.durable)
    {
      hide Inv, Sides, Do, Enabled, Memory, Resize;
      DoesSync(State(), SDataSync);
      data := File(data.cache, data.cache);
      z := z.(base := z.durable);
      h := h.(baseStores := h.durStores);
      pc := TruncateEnd;
      Keeps(SDataSync);
    }

    /** The journal is cut off after its first page. */
    method CutJournal()
      requires Valid() && Enabled(State(), STruncateEnd)
      modifies `journal, `pc
      ensures Took(STruncateEnd) && Valid()
      ensures pc == Pc.EndSync && |old(journal).cache| >= 1
      ensures journal.cache == old(journal).cache[..1] && journal.disk == old(journal).disk
    {
      hide Inv, Sides, Do, Enabled, Memory, Resize;
      DoesSync(State(), STruncateEnd);
      journal := journal.(cache := journal.cache[..1]);
      pc := Pc.EndSync;
      Keeps(STruncateEnd);
    }

    /** The end of the sync phase. */
    method EndSync()
      requires Valid() && Enabled(State(), SEndSync)
      modifies `ctrl, `pc
      ensures Took(SEndSync) && Valid()
      ensures pc == WakeSync && ctrl == old(ctrl).(inSyncPhase := false)
    {
      hide Inv, Sides, Do, Enabled, Memory, Resize;
      DoesSync(State(), SEndSync);
      ctrl := ctrl.(inSyncPhase := false);
      pc := WakeSync;
      Keeps(SEndSync);
    }

    /** Those who wait for the data file go on. */
    method ReleaseSync()
      requires Valid() && Enabled(State(), SWakeSync)
      modifies `w, `pc
      ensures Took(SWakeSync) && Valid()
      ensures pc == Pc.Consume
      ensures w == old(w).(sync := old(w).sync + {taken.sync})
    {
      hide Inv, Sides, Do, Enabled, Memory, Resize;
      DoesSync(State(), SWakeSync);
      w := w.(sync := w.sync + {taken.sync});
      pc := Pc.Consume;
      Keeps(SWakeSync);
    }

    // ----- acid_open

    /** The revision is read, and the journal is verified. */
    method VerifyJournal() returns (ok: bool)
      requires Valid() && Enabled(State(), RReopen)
      modifies `rev, `pc, `i, `z
      ensures Took(RReopen) && Valid()
      ensures |journal.cache| >= 1 && ok == Accepted(journal.cache, n)
      ensures rev == Read64(journal.cache[0], 7) % MAX64
      ensures z == old(z).(openings := old(z).openings + 1, atOpen := |z.snaps|, durable := z.durable)
      ensures !ok ==> z.durable == old(z).durable
      ensures pc == if ok then Pc.ReplayPage else ReopenTruncate
    {
      hide Inv, Sides, Do, Enabled, Memory, Resize, Accepted;
      DoesOpening(State(), RReopen);
      ok := Accepted(journal.cache, n);
      rev := Read64(journal.cache[0], 7) % MAX64;
      z := z.(openings := z.openings + 1, atOpen := |z.snaps|);
      if ok {
        z := z.(durable := if z.cacheHdr.Some? then z.cacheHdr.value.snap else z.durable);
        pc, i := Pc.ReplayPage, 0;
      } else {
        pc := ReopenTruncate;
      }
      Keeps(RReopen);
    }

    /** A page of the journal goes to the data file. */
    method ReplayPage()
      requires Valid() && Enabled(State(), RReplay)
      modifies `data, `i
      ensures Took(RReplay) && Valid()
      ensures i == old(i) + 1 && data.disk == old(data).disk
      ensures PageCopied(journal.cache, old(i), old(data).cache, data.cache)
    {
      hide Inv, Sides, Do, Enabled, Memory, Resize, Ids, DataPages;
      DoesOpening(State(), RReplay);
      data := data.(cache := data.cache[Ids(journal.cache)[i] := DataPages(journal.cache)[i]]);
      i := i + 1;
      Keeps(RReplay);
    }

    /** All of them are copied. */
    method EndReplay()
      requires Valid() && Enabled(State(), RReplayed)
      modifies `pc
      ensures Took(RReplayed) && Valid()
      ensures pc == ReplaySync
    {
      hide Inv, Sides, Do, Enabled, Memory, Resize;
      DoesOpening(State(), RReplayed);
      pc := ReplaySync;
      Keeps(RReplayed);
    }

    /** fsync of the data file. */
    method SyncReplayed()
      requires Valid() && Enabled(State(), RSync)
      modifies `data, `z, `pc
      ensures Took(RSync) && Valid()
      ensures pc == ReopenTruncate && z == old(z).(base := z.durable)
      ensures data.disk == data.cache == old(data).cache
    {
      hide Inv, Sides, Do, Enabled, Memory, Resize;
      DoesOpening(State(), RSync);
      data := File(data.cache, data.cache);
      z := z.(base := z.durable);
      pc := ReopenTruncate;
      Keeps(RSync);
    }

    /** The journal is cut off after its first page. */
    method CutOldJournal()
      requires Valid() && Enabled(State(), RTruncate)
      modifies `journal, `pc
      ensures Took(RTruncate) && Valid()
      ensures pc == OpenMap && |old(journal).cache| >= 1
      ensures journal == File(old(journal).cache[..1], old(journal).disk)
    {
      hide Inv, Sides, Do, Enabled, Memory, Resize;
      DoesOpening(State(), RTruncate);
      journal := journal.(cache := journal.cache[..1]);
      pc := OpenMap;
      Keeps(RTruncate);
    }

    method ClearMapping()
      modifies `priv, `writable, `dpages, `npages, `ilock
      ensures priv == map[] && writable == {} && dpages == {} && npages == map[] && ilock == Free
    {
      hide *;
      priv, writable, dpages, npages, ilock := map[], {}, {}, map[], Free;
    }

    method ClearLocals()
      modifies `pc, `hasChanges, `taken, `ids, `i, `hashed
      ensures pc == Pc.Consume && !hasChanges && taken == NO_FIDS && ids == [] && i == 0 && hashed == []
    {
      hide *;
      pc, hasChanges, taken, ids, i, hashed := Pc.Consume, false, NO_FIDS, [], 0, [];
    }

    /** The data file is mapped, and nobody has stored, asked or waited yet. */
    method MapFile()
      requires Valid() && Enabled(State(), ROpenMap)
      modifies this
      ensures Took(ROpenMap) && Valid()
      ensures pc == Pc.Consume && ilock == Free && dpages == {} && h.stores == [data.cache]
      ensures priv == map[] && writable == {} && npages == map[] && ctrl == NO_CTRL && w == NO_WAITERS
      ensures data == old(data) && z == old(z) && rev == old(rev) && journal == old(journal)
    {
      hide *;
      ClearMapping();
      ClearLocals();
      ctrl, h, w := NO_CTRL, Session([data.cache], data.cache, 0, 0, 0), NO_WAITERS;
      FileMapped();
      Keeps(ROpenMap);
    }

    twostate lemma FileMapped()
      requires old(Enabled(State(), ROpenMap))
      requires rev == old(rev) && data == old(data) && journal == old(journal) && z == old(z)
      requires priv == map[] && writable == {} && dpages == {} && npages == map[] && ilock == Free && ctrl == NO_CTRL
      requires pc == Pc.Consume && !hasChanges && taken == NO_FIDS && ids == [] && i == 0 && hashed == []
      requires h == Session([data.cache], data.cache, 0, 0, 0) && w == NO_WAITERS
      ensures Took(ROpenMap)
    {
      hide Enabled, Do, Inv, Sides;
      DoesOpening(old(State()), ROpenMap);
    }

    // ----- the two of them from end to end

    /** The step that comes next, when no fault handler is at work. */
    lemma Next()
      requires Valid() && !ilock.Copied? && !ilock.Mapped?
      ensures match pc
        case TakeIlock => Enabled(State(), STakeIlock)
        case Protect => Enabled(State(), SProtect)
        case Swap => Enabled(State(), SSwap)
        case Section => Enabled(State(), SSection)
        case WakeSnap => Enabled(State(), SWakeSnap)
        case WakeIdle => Enabled(State(), SWakeIdle)
        case Truncate => Enabled(State(), STruncate(Sorted(npages.Keys, n)))
        case Check => Enabled(State(), if i < |ids| then SCheck else SWriteIndex)
        case Lock => Enabled(State(), SLock)
        case CowHashed => Enabled(State(), SCowWrite)
        case MemHashed => Enabled(State(), SMemWrite)
        case JournalSync => Enabled(State(), SJournalSync)
        case Detach => Enabled(State(), SDetach)
        case WakeCommit => Enabled(State(), SWakeCommit)
        case DataCommit => Enabled(State(), if i < |ids| then SDataCommit else SDataCommitted)
        case Remap => Enabled(State(), if i < |ids| then SRemap else SRemapped)
        case DataSync => Enabled(State(), SDataSync)
        case TruncateEnd => Enabled(State(), STruncateEnd)
        case EndSync => Enabled(State(), SEndSync)
        case WakeSync => Enabled(State(), SWakeSync)
        case _ => true
    {
      hide Inv, Sides, Enabled, Sorted;
      Progress(State());
    }

    /** The same for an opening. */
    lemma NextOpening()
      requires Valid()
      ensures match pc
        case Reopen => Enabled(State(), RReopen)
        case ReplayPage =>
          Enabled(State(), if |journal.cache| >= 1 && i < NPages(journal.cache) then RReplay else RReplayed)
        case ReplaySync => Enabled(State(), RSync)
        case ReopenTruncate => Enabled(State(), RTruncate)
        case OpenMap => Enabled(State(), ROpenMap)
        case _ => true
    {
      hide Inv, Sides, Enabled, Sorted, NPages;
      Progress(State());
    }

    /** The steps of the program and of requesters that can be taken. */
    lemma NextProgram(p: nat, v: Page, enomem: bool)
      requires Valid() && Running(State())
      ensures h.stores != []
      ensures p < n && ilock.Free? && !PlockHeld(State(), p) ==> Enabled(State(), Step.FaultCopy(p))
      ensures ilock.Copied? ==> Enabled(State(), Step.FaultMap(enomem))
      ensures ilock.Copied? && ilock.page in dpages ==> ilock.page in writable
      ensures ilock.Mapped? ==> Enabled(State(), Step.FaultIndex)
      ensures p in writable ==> p < n && Enabled(State(), Step.Store(p, v))
      ensures p in writable && ilock.Free? ==> p in dpages
      ensures Enabled(State(), Step.Fsync) && Enabled(State(), Step.FsyncAsync)
      ensures ctrl.toSet > 0 ==> Enabled(State(), FutexSet)
      ensures ctrl.toWake > 0 ==> Enabled(State(), FutexWake)
    {
      hide Sides, NewInv, JobInv, SnapInv, DiskInv, CacheInv, FidInv, CtrlInv, Memory, Bounded;
      LastStore(State());
      OpenPages(State());
    }

    lemma NextConsume()
      requires Valid() && (pc == Pc.Consume || pc == AboutToWait)
      ensures Enabled(State(), if pc == Pc.Consume then SConsume else SWait)
    {
      hide Inv, Sides;
    }

    /** While the sync thread sleeps there is no sync phase. */
    lemma NoSyncPhase()
      requires Valid() && pc == Asleep
      ensures !ctrl.inSyncPhase
    {
      hide Sides, MemInv, NewInv, JobInv, SnapInv, DiskInv, CacheInv, FidInv;
    }

    /** Once nothing is dirty, what the program reads is the last snapshot. */
    lemma SnapshotHere()
      requires Valid() && (pc == Truncate || pc == WakeIdle) && ilock == Free && dpages == {}
      ensures h.stores != [] && h.snapImage == h.stores[|h.stores| - 1]
    {
      hide Sides, NewInv, JobInv, SnapInv, DiskInv, CacheInv, FidInv, CtrlInv, Memory, Bounded;
      OpenPages(State());
    }

    /** What the last entry of the history of stores is. */
    lemma LastHere()
      requires Valid() && (pc == Pc.TakeIlock || pc == Pc.Protect)
      ensures h.stores != [] && h.stores[|h.stores| - 1] == Memory(State().mem, data.cache)
    {
      hide Inv, Sides, Memory;
      LastStore(State());
    }

    lemma SettledHere()
      requires Valid() && pc == Pc.Consume && ilock == Free && dpages == {}
      ensures npages == map[] && h.stores != [] && data.cache == data.disk == h.stores[|h.stores| - 1]
      ensures z.durable == z.base < |z.snaps| && z.snaps[z.durable] == data.disk
      ensures priv == map[] && writable == {}
    {
      hide Inv, Sides;
      SettledFile(State());
      OpenPages(State());
      NoPrivatePages(State());
    }

    lemma OpenedHere()
      requires Valid() && pc == OpenMap
      ensures z.durable < |z.snaps| && data.cache == data.disk == z.snaps[z.durable]
    {
      hide Inv, Sides;
      OpenedFile(State());
    }

    /** What the check of the journal will find. */
    lemma SurvivorHere()
      requires Valid() && pc == Reopen
      ensures |journal.disk| >= 1 && Survivor(State()) < |z.snaps| && journal.cache == journal.disk
      ensures Recovered(data.disk, journal.disk) == z.snaps[Survivor(State())]
    {
      hide Inv, Sides, Recovered, Survivor;
      SameJournal(State());
      RecoveredExactly(State());
    }

    /** ... it has found, and made durable. */
    twostate lemma SurvivorTaken()
      requires old(Valid()) && old(pc) == Reopen && Took(RReopen)
      ensures z.snaps == old(z).snaps && old(|journal.disk|) >= 1 && z.durable == Survivor(old(State()))
    {
      hide Inv, Sides, Do, DoReopen, Enabled, Survivor;
      DoesOpening(old(State()), RReopen);
      ReopenSurvivor(old(State()));
    }

    /** The image is taken. */
    method TakeImage()
      requires Valid() && pc == Pc.TakeIlock && ilock == Free
      modifies `ilock, `hasChanges, `pc, `writable, `z, `h, `npages, `dpages
      ensures Valid() && pc == Section && ilock == SyncHolds && dpages == {} && hasChanges == (old(dpages) != {})
      ensures h.stores == old(h).stores != []
      ensures if hasChanges then z.snaps == old(z).snaps + [h.stores[|h.stores| - 1]] else z == old(z)
    {
      hide *;
      LastHere();
      Next();
      TakeIlock();
      if hasChanges {
        Next();
        Protect();
        Next();
        SwapIndexes();
      }
    }

    /** The snapshot is taken, and so is the order with those who wait for it. */
    method TakeSnapshot()
      requires Valid() && pc == Pc.TakeIlock && ilock == Free
      modifies `ilock, `hasChanges, `pc, `writable, `z, `h, `npages, `dpages, `ctrl, `taken, `w
      ensures Valid() && ilock == Free && dpages == {} && hasChanges == (old(dpages) != {})
      ensures h.stores == old(h).stores != []
      ensures pc == if hasChanges then Truncate else WakeIdle
      ensures if hasChanges then z.snaps == old(z).snaps + [h.stores[|h.stores| - 1]] else z == old(z)
      ensures ctrl.op.OpNone? && ctrl.fids == NO_FIDS && taken == old(ctrl).fids
      ensures w == old(w).(snap := old(w).snap + {taken.snap})
    {
      hide *;
      TakeImage();
      Next();
      TakeOrder();
      Next();
      ReleaseSnap();
    }

    /** One page goes to the journal, from its copy or from memory. */
    method BufferPage()
      requires Valid() && pc == Check && i < |ids| && ilock == Free
      modifies `npages, `journal, `i, `hashed, `pc
      ensures Valid() && pc == Check && i == old(i) + 1
    {
      hide *;
      Next();
      CheckCow();
      Next();
      if pc == Lock {
        LockPage();
      }
      Next();
      if pc == CowHashed {
        WriteCow();
      } else {
        WriteMemory();
      }
    }

    /** The journal loop, and what makes the snapshot durable. */
    method WriteJournal()
      requires Valid() && pc == Truncate && ilock == Free
      modifies `npages, `journal, `ids, `i, `hashed, `pc, `z, `h
      ensures Valid() && pc == Pc.Detach && h.stores == old(h).stores && z.snaps == old(z).snaps
    {
      hide *;
      Next();
      TruncateJournal(Sorted(npages.Keys, n));
      while i < |ids|
        invariant Valid() && pc == Check && h == old(h) && z == old(z)
      {
        BufferPage();
      }
      Next();
      WriteIndex();
      Next();
      SyncJournal();
    }

    /** The snapshot is durable: it goes to the data file. */
    method CopyJournal()
      requires Valid() && pc == Pc.Detach && ilock == Free
      modifies `rev, `npages, `pc, `w, `i, `data
      ensures Valid() && pc == Pc.Remap && i == 0 && rev == (old(rev) + 1) % 0x1_0000_0000_0000_0000
      ensures w == old(w).(commit := old(w).commit + {taken.commit})
    {
      hide *;
      Next();
      Detach();
      Next();
      ReleaseCommit();
      ghost var w', rev' := w, rev;
      while i < |ids|
        invariant Valid() && pc == DataCommit && w == w' && rev == rev'
      {
        Next();
        CopyPage();
      }
      Next();
      EndCopy();
    }

    /** Clean pages are mapped anew, and the data file is synced. */
    method RemapPages()
      requires Valid() && pc == Pc.Remap && ilock == Free
      modifies `pc, `i, `data, `priv, `writable, `z, `h
      ensures Valid() && pc == TruncateEnd && h.stores == old(h).stores && z.snaps == old(z).snaps
    {
      hide *;
      while i < |ids|
        invariant Valid() && pc == Pc.Remap && h == old(h) && z == old(z)
      {
        Next();
        Remap();
      }
      Next();
      EndRemap();
      Next();
      SyncData();
    }

    /** The journal is cut off, and the sync phase ends. */
    method EndCommit()
      requires Valid() && pc == TruncateEnd && ilock == Free
      modifies `pc, `w, `journal, `ctrl
      ensures Valid() && pc == Pc.Consume
      ensures |journal.cache| == 1 && ctrl == old(ctrl).(inSyncPhase := false)
      ensures w == old(w).(sync := old(w).sync + {taken.sync})
    {
      hide *;
      Next();
      CutJournal();
      Next();
      EndSync();
      Next();
      ReleaseSync();
    }

    /** All of it, when there are changes. */
    method CommitChanges()
      requires Valid() && pc == Truncate && ilock == Free
      modifies `rev, `npages, `journal, `ids, `i, `hashed, `pc, `z, `h, `w, `data, `priv, `writable, `ctrl
      ensures Valid() && pc == Pc.Consume && h.stores == old(h).stores && z.snaps == old(z).snaps
      ensures rev == (old(rev) + 1) % 0x1_0000_0000_0000_0000 && |journal.cache| == 1
      ensures ctrl == old(ctrl).(inSyncPhase := false)
      ensures w == old(w).(commit := old(w).commit + {taken.commit}, sync := old(w).sync + {taken.sync})
    {
      hide *;
      WriteJournal();
      CopyJournal();
      RemapPages();
      EndCommit();
    }

    /** acid_sync_commit, undisturbed: all that the program has stored is in the data file, on disk, and all who
        waited go on. */
    method SyncCommit()
      requires Valid() && pc == Pc.TakeIlock && ilock == Free
      modifies this
      ensures Valid() && pc == Pc.Consume && ilock == Free && dpages == {} && npages == map[]
      ensures priv == map[] && writable == {}
      ensures ctrl.op.OpNone? && ctrl.fids == NO_FIDS && h.stores == old(h).stores != []
      ensures data.cache == data.disk == h.stores[|h.stores| - 1]
      ensures z.durable == z.base < |z.snaps| && z.snaps[z.durable] == data.disk
      ensures w == old(w).(snap := old(w).snap + {old(ctrl).fids.snap},
                           commit := old(w).commit + {old(ctrl).fids.commit},
                           sync := old(w).sync + {old(ctrl).fids.sync})
      ensures if old(dpages) == {} then z == old(z) && rev == old(rev) && journal == old(journal) && data == old(data)
        else && z.snaps == old(z).snaps + [data.disk] && |journal.cache| == 1
             && rev == (old(rev) + 1) % 0x1_0000_0000_0000_0000
    {
      hide *;
      TakeSnapshot();
      if hasChanges {
        CommitChanges();
      } else {
        Next();
        ReleaseIdle();
      }
      SettledHere();
    }

    /** The fault handler opens a page, undisturbed. */
    method OpenPage(p: nat)
      requires Valid() && Running(State()) && p < n && ilock == Free && !PlockHeld(State(), p) && p !in writable
      modifies `writable, `dpages, `npages, `ilock
      ensures Valid() && ilock == Free && p in writable && p in dpages
    {
      hide Inv, Sides, Do, Enabled, Valid, Took, Memory, Resize;
      NextProgram(p, Blank(), false);
      FaultCopy(p);
      NextProgram(p, Blank(), false);
      FaultMap(false);
      NextProgram(p, Blank(), false);
      FaultIndex();
    }

    /** The program writes to a page, through the fault handler if the page is not open: the image it reads changes in
        that page, and in no other. */
    method Write(p: nat, v: Page)
      requires Valid() && Running(State()) && p < n && ilock == Free && !PlockHeld(State(), p)
      modifies `priv, `writable, `dpages, `npages, `ilock, `h
      ensures Valid() && ilock == Free && p in dpages
      ensures old(h).stores != [] && p < |old(h).stores[|old(h).stores| - 1]|
      ensures h.stores == old(h).stores + [old(h).stores[|old(h).stores| - 1][p := v]]
    {
      hide Inv, Sides, Do, Enabled, Valid, Took, Memory, Resize;
      NextProgram(p, v, false);
      if p !in writable {
        OpenPage(p);
      }
      NextProgram(p, v, false);
      Store(p, v);
    }

    /** A request wakes the sleeping sync thread. */
    method Request() returns (commit: nat, sync: nat)
      requires Valid() && pc == Asleep && ctrl.op.OpNone?
      modifies `ctrl, `w, `pc
      ensures Valid() && pc == Pc.TakeIlock && commit != 0 && sync != 0
      ensures commit == ctrl.fids.commit && sync == ctrl.fids.sync && !ctrl.futex
    {
      hide Inv, Sides, Do, Enabled, Valid, Took, Memory, Resize;
      NextProgram(0, Blank(), false);
      var wake;
      commit, sync, wake := Fsync();
      NextProgram(0, Blank(), false);
      SetFutex();
      NextProgram(0, Blank(), false);
      WakeSleeper();
      NextConsume();
      Consume();
    }

    /** An asynchronous request does the same. */
    method RequestAsync() returns (snap: nat, sync: nat)
      requires Valid() && pc == Asleep && ctrl.op.OpNone?
      modifies `ctrl, `w, `pc
      ensures Valid() && pc == Pc.TakeIlock && snap != 0 && sync != 0 && snap != sync
      ensures snap == ctrl.fids.snap && sync == ctrl.fids.sync
    {
      hide Inv, Sides, Do, Enabled, Valid, Took, Memory, Resize;
      NextProgram(0, Blank(), false);
      NoSyncPhase();
      var wake;
      snap, sync, wake := FsyncAsync();
      NextProgram(0, Blank(), false);
      SetFutex();
      NextProgram(0, Blank(), false);
      WakeSleeper();
      NextConsume();
      Consume();
    }

    /** acid_snapshot, with the sync thread at rest: it comes back when all that the program has stored is in the last
        snapshot, and says so; the data file is not written yet. */
    method Snapshot() returns (ok: bool, snap: nat)
      requires Valid() && pc == Asleep && ctrl.op.OpNone? && ilock == Free
      modifies `ctrl, `w, `pc, `ilock, `hasChanges, `writable, `z, `h, `npages, `dpages, `taken
      ensures Valid() && ilock == Free && pc == if old(dpages) == {} then WakeIdle else Truncate
      ensures ok && snap != 0 && snap in w.snap && ctrl.op.OpNone?
      ensures h.stores == old(h).stores != [] && h.snapImage == h.stores[|h.stores| - 1]
      ensures z.snaps == old(z).snaps + if old(dpages) == {} then [] else [h.snapImage]
    {
      hide Inv, Sides, Do, Enabled, Valid, Took, Memory, Resize;
      var sync;
      snap, sync := RequestAsync();
      TakeSnapshot();
      SnapshotHere();
      ok := sync != 0;
    }

    /** Write, sync, and all that follows until the sync thread sleeps again: the write is in the data file, on disk,
        and the waiters are released. */
    method WriteSynced(p: nat, v: Page) returns (commit: nat, sync: nat)
      requires Valid() && pc == Asleep && ctrl.op.OpNone? && ilock == Free && p < n
      modifies this
      ensures Valid() && pc == Asleep && ctrl.op.OpNone? && ilock == Free && dpages == {} && priv == map[]
      ensures old(h).stores != [] && p < |old(h).stores[|old(h).stores| - 1]|
      ensures data.disk == data.cache == old(h).stores[|old(h).stores| - 1][p := v]
      ensures commit != 0 && commit in w.commit && sync != 0 && sync in w.sync
    {
      hide Inv, Sides, Do, Enabled, Valid, Took, Memory, Resize;
      Write(p, v);
      commit, sync := Request();
      SyncCommit();
      NextConsume();
      Consume();
      NextConsume();
      Wait();
    }

    /** A good journal is copied to the data file. */
    method Replay()
      requires Valid() && pc == Pc.ReplayPage && |journal.cache| >= 1
      modifies `data, `i, `pc, `z
      ensures Valid() && pc == ReopenTruncate && z == old(z).(base := z.base)
    {
      hide *;
      while i < NPages(journal.cache)
        invariant Valid() && pc == Pc.ReplayPage && z == old(z)
      {
        NextOpening();
        ReplayPage();
      }
      NextOpening();
      EndReplay();
      NextOpening();
      SyncReplayed();
    }

    /** acid_open after a crash: the program finds the image that recovery gives, which is a snapshot. */
    method Open()
      requires Valid() && pc == Reopen
      modifies this
      ensures Valid() && pc == Pc.Consume && ilock == Free && dpages == {} && h.stores == [data.cache]
      ensures |old(journal).disk| >= 1 && data.cache == data.disk == Recovered(old(data).disk, old(journal).disk)
      ensures |journal.cache| == 1 && rev == Read64(old(journal).disk[0], 7) % MAX64
      ensures priv == map[] && writable == {} && npages == map[] && ctrl == NO_CTRL && w == NO_WAITERS
      ensures Survivor(old(State())) < |z.snaps| && data.disk == z.snaps[Survivor(old(State()))]
    {
      hide *;
      SurvivorHere();
      NextOpening();
      var ok := VerifyJournal();
      SurvivorTaken();
      if ok {
        Replay();
      }
      NextOpening();
      CutOldJournal();
      OpenedHere();
      NextOpening();
      MapFile();
    }
  }
}
