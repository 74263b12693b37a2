/** A fiber is released for the one thing it was registered for. */
module AcidFibers {
  import opened AcidJournal
  import opened AcidProtocol
  import opened AcidInvariant
  import opened AcidSteps
  import opened AcidTheorems

  /** No fiber is registered for two things. */
  predicate Apart(f: Fids) {
    && (f.snap != 0 ==> f.snap != f.commit && f.snap != f.sync)
    && (f.commit != 0 ==> f.commit != f.sync)
  }

  ghost predicate OnlyIn(f: nat, others: set<nat>) {
    f != 0 ==> f !in others
  }

  /** Registered fibers differ, and so do those that the sync thread has taken along; none of the latter was released
      for another thing, and none at all was released for two. */
  ghost predicate FiberInv(c: Ctrl, y: Sync, w: Waiters) {
    && Apart(c.fids)
    && (Taken(y) ==> && Apart(y.fids) && OnlyIn(y.fids.snap, w.commit + w.sync)
                     && OnlyIn(y.fids.commit, w.snap + w.sync) && OnlyIn(y.fids.sync, w.snap + w.commit))
    && (forall f | f in w.snap :: OnlyIn(f, w.commit + w.sync))
    && (forall f | f in w.commit :: OnlyIn(f, w.sync))
  }

  lemma InitFibers(image: Image, addr: nat)
    ensures var s := Init(image, addr); FiberInv(s.ctrl, s.sync, s.w)
  {
  }

  /** Every step keeps this. */
  lemma FiberStep(s: Db, a: Step)
    requires Inv(s) && FiberInv(s.ctrl, s.sync, s.w) && Enabled(s, a)
    ensures var t := Do(s, a); FiberInv(t.ctrl, t.sync, t.w)
  {
    hide Inv, Enabled, Do, FiberInv;
    if a.Fsync? || a.FsyncAsync? {
      RequestFibers(s, a);
    } else if a.SSection? || a.SWakeSnap? || a.SWakeIdle? || a.SWakeCommit? || a.SWakeSync? {
      ReleaseFibers(s, a);
    } else if a.Store? || ByProgram(a) {
      ProgramFibers(s, a);
    } else if ByCommit(a) {
      CommitFibers(s, a);
    } else {
      RestFibers(s, a);
    }
  }

  // ----- requests

  lemma RequestFibers(s: Db, a: Step)
    requires Inv(s) && FiberInv(s.ctrl, s.sync, s.w) && Enabled(s, a) && (a.Fsync? || a.FsyncAsync?)
    ensures var t := Do(s, a); FiberInv(t.ctrl, t.sync, t.w)
  {
    hide Enabled, Do, DoFsync, DoFsyncAsync, Inv, FiberInv;
    DoesProgram(s, a);
    KnownFibers(s, a);
    if a.Fsync? {
      FsyncFibers(s);
    } else {
      FsyncAsyncFibers(s);
    }
  }

  lemma KnownFibers(s: Db, a: Step)
    requires Inv(s) && Enabled(s, a) && (a.Fsync? || a.FsyncAsync?)
    ensures var c := s.ctrl;
      1 <= c.nextFid && c.fids.snap < c.nextFid && c.fids.commit < c.nextFid && c.fids.sync < c.nextFid
  {
    hide MemInv, NewInv, JobInv, SnapInv, DiskInv, CacheInv, CtrlInv;
  }

  lemma FsyncFibers(s: Db)
    requires s.h.stores != [] && FiberInv(s.ctrl, s.sync, s.w)
    requires var c := s.ctrl;
      1 <= c.nextFid && c.fids.snap < c.nextFid && c.fids.commit < c.nextFid && c.fids.sync < c.nextFid
    ensures var t := DoFsync(s); FiberInv(t.ctrl, t.sync, t.w)
  {
  }

  lemma FsyncAsyncFibers(s: Db)
    requires s.h.stores != [] && FiberInv(s.ctrl, s.sync, s.w)
    requires var c := s.ctrl;
      1 <= c.nextFid && c.fids.snap < c.nextFid && c.fids.commit < c.nextFid && c.fids.sync < c.nextFid
    ensures var t := DoFsyncAsync(s); FiberInv(t.ctrl, t.sync, t.w)
  {
  }

  // ----- the sync thread takes and releases

  lemma ReleaseFibers(s: Db, a: Step)
    requires Inv(s) && FiberInv(s.ctrl, s.sync, s.w) && Enabled(s, a)
    requires a.SSection? || a.SWakeSnap? || a.SWakeIdle? || a.SWakeCommit? || a.SWakeSync?
    ensures var t := Do(s, a); FiberInv(t.ctrl, t.sync, t.w)
  {
    hide Enabled, Do, DoSection, DoWakeSnap, DoWakeIdle, DoWakeCommit, DoWakeSync, Inv, FiberInv;
    if a.SSection? {
      DoesCommit(s, a);
      SectionFibers(s);
    } else if a.SWakeSnap? || a.SWakeIdle? {
      DoesCommit(s, a);
      SnapFibers(s, a);
    } else {
      DoesSync(s, a);
      SyncFibers(s, a);
    }
  }

  /** What is registered was never released. */
  lemma SectionFibers(s: Db)
    requires Inv(s) && FiberInv(s.ctrl, s.sync, s.w) && s.sync.pc.Section?
    ensures var t := DoSection(s); FiberInv(t.ctrl, t.sync, t.w)
  {
    hide MemInv, NewInv, JobInv, SnapInv, DiskInv, CacheInv, CtrlInv;
  }

  lemma SnapFibers(s: Db, a: Step)
    requires FiberInv(s.ctrl, s.sync, s.w)
    requires (a.SWakeSnap? && s.sync.pc.WakeSnap?) || (a.SWakeIdle? && s.sync.pc.WakeIdle?)
    ensures var t := if a.SWakeSnap? then DoWakeSnap(s) else DoWakeIdle(s); FiberInv(t.ctrl, t.sync, t.w)
  {
  }

  lemma SyncFibers(s: Db, a: Step)
    requires FiberInv(s.ctrl, s.sync, s.w)
    requires (a.SWakeCommit? && s.sync.pc.WakeCommit?) || (a.SWakeSync? && s.sync.pc.WakeSync?)
    ensures var t := if a.SWakeCommit? then DoWakeCommit(s) else DoWakeSync(s); FiberInv(t.ctrl, t.sync, t.w)
  {
  }

  // ----- all others

  /** No fiber is registered, taken or released; all may be forgotten. */
  predicate SameFibers(s: Db, t: Db) {
    && (t.w == s.w || t.w == NO_WAITERS) && (t.ctrl.fids == s.ctrl.fids || t.ctrl.fids == NO_FIDS)
    && (Taken(t.sync) ==> Taken(s.sync) && t.sync.fids == s.sync.fids)
  }

  lemma FibersKept(s: Db, t: Db)
    requires FiberInv(s.ctrl, s.sync, s.w) && SameFibers(s, t)
    ensures FiberInv(t.ctrl, t.sync, t.w)
  {
    hide Taken;
  }

  lemma ProgramFibers(s: Db, a: Step)
    requires FiberInv(s.ctrl, s.sync, s.w) && Enabled(s, a) && (a.Store? || ByProgram(a)) && !a.Fsync? && !a.FsyncAsync?
    ensures var t := Do(s, a); FiberInv(t.ctrl, t.sync, t.w)
  {
    hide Enabled, Do, Memory, PageAt, FiberInv;
    DoesProgram(s, a);
    FibersKept(s, Do(s, a));
  }

  lemma CommitFibers(s: Db, a: Step)
    requires FiberInv(s.ctrl, s.sync, s.w) && Enabled(s, a) && ByCommit(a)
    requires !a.SSection? && !a.SWakeSnap? && !a.SWakeIdle?
    ensures var t := Do(s, a); FiberInv(t.ctrl, t.sync, t.w)
  {
    hide Enabled, Do, Memory, PageAt, Unwritten, IndexPages, Resize, FiberInv;
    DoesCommit(s, a);
    FibersKept(s, Do(s, a));
  }

  lemma RestFibers(s: Db, a: Step)
    requires FiberInv(s.ctrl, s.sync, s.w) && Enabled(s, a) && !a.Store? && !ByProgram(a) && !ByCommit(a)
    requires !a.SWakeCommit? && !a.SWakeSync?
    ensures var t := Do(s, a); FiberInv(t.ctrl, t.sync, t.w)
  {
    hide WriteStart, RawIndex, Ids, DataPages, SizesAgree, IndexPages, Accepted, FiberInv;
    FibersKept(s, Do(s, a));
  }

  lemma {:induction false} RunFibers(s: Db, run: seq<Step>)
    requires Inv(s) && FiberInv(s.ctrl, s.sync, s.w) && Possible(s, run)
    ensures var t := After(s, run); Inv(t) && FiberInv(t.ctrl, t.sync, t.w)
    decreases |run|
  {
    hide Inv, Enabled, Do, FiberInv;
    if run != [] {
      StepInv(s, run[0]);
      FiberStep(s, run[0]);
      RunFibers(Do(s, run[0]), run[1..]);
    }
  }

  /** After every run from the first opening on, a fiber was released for one thing at most, and one that is registered
      is registered for one thing and was not released at all. */
  lemma ReleasedForOne(image: Image, addr: nat, run: seq<Step>, f: nat)
    requires 1 <= |image| <= MAX_PAGES && addr < MAX64 && Possible(Init(image, addr), run) && f != 0
    ensures var t := After(Init(image, addr), run); var fs := t.ctrl.fids;
      && !(f in t.w.snap && f in t.w.commit) && !(f in t.w.snap && f in t.w.sync) && !(f in t.w.commit && f in t.w.sync)
      && (Running(t) && (f == fs.snap || f == fs.commit || f == fs.sync) ==>
            f !in t.w.snap && f !in t.w.commit && f !in t.w.sync && Apart(fs))
  {
    hide Inv, FiberInv, After, Possible;
    InitInv(image, addr);
    InitFibers(image, addr);
    RunFibers(Init(image, addr), run);
    var t := After(Init(image, addr), run);
    OneRelease(t, f);
    if Running(t) {
      UnusedFibers(t);
    }
  }

  lemma OneRelease(s: Db, f: nat)
    requires FiberInv(s.ctrl, s.sync, s.w) && f != 0
    ensures Apart(s.ctrl.fids)
    ensures !(f in s.w.snap && f in s.w.commit) && !(f in s.w.snap && f in s.w.sync)
    ensures !(f in s.w.commit && f in s.w.sync)
  {
  }

  lemma UnusedFibers(s: Db)
    requires Inv(s) && Running(s)
    ensures Unused(s.sync, s.w, s.ctrl.fids.snap) && Unused(s.sync, s.w, s.ctrl.fids.commit)
    ensures Unused(s.sync, s.w, s.ctrl.fids.sync)
  {
    hide MemInv, NewInv, JobInv, SnapInv, DiskInv, CacheInv, CtrlInv;
  }
}
