/** Which pages of the mapping have memory of their own. */
module AcidPrivate {
  import opened AcidJournal
  import opened AcidProtocol
  import opened AcidInvariant
  import opened AcidSteps
  import opened AcidTheorems

  /** A page that may have private memory: it is dirty, or about to be indexed as dirty, or its commit has not come to
      mapping it anew. */
  predicate Needed(m: Mem, y: Sync, p: nat) {
    || p in m.dpages || m.ilock == Mapped(p) || p in m.npages
    || ((y.pc.WakeCommit? || y.pc.DataCommit?) && p in y.ids)
    || (y.pc.Remap? && y.i <= |y.ids| && p in y.ids[y.i..])
  }

  ghost predicate PrivInv(m: Mem, y: Sync) {
    forall p | p in m.priv :: Needed(m, y, p)
  }

  lemma InitPriv(image: Image, addr: nat)
    ensures var s := Init(image, addr); PrivInv(s.mem, s.sync)
  {
  }

  /** Every step keeps this. */
  lemma PrivStep(s: Db, a: Step)
    requires Inv(s) && PrivInv(s.mem, s.sync) && Enabled(s, a)
    ensures var t := Do(s, a); PrivInv(t.mem, t.sync)
  {
    hide Inv, Enabled, Do, PrivInv;
    if a.Store? || a.FaultCopy? || a.FaultMap? || a.FaultIndex? {
      ProgramPriv(s, a);
    } else if a.STakeIlock? || a.SSwap? || a.SMemWrite? {
      SwapPriv(s, a);
    } else if a.SDetach? || a.SWakeCommit? || a.SDataCommit? || a.SDataCommitted? || a.SRemap? || a.SRemapped? {
      RemapPriv(s, a);
    } else {
      RestPriv(s, a);
    }
  }

  // ----- application threads

  lemma ProgramPriv(s: Db, a: Step)
    requires Inv(s) && PrivInv(s.mem, s.sync) && Enabled(s, a)
    requires a.Store? || a.FaultCopy? || a.FaultMap? || a.FaultIndex?
    ensures var t := Do(s, a); PrivInv(t.mem, t.sync)
  {
    hide Enabled, Do, Memory, PageAt, Inv;
    DoesProgram(s, a);
    HandlerGuards(s, a);
  }

  /** A store hits a dirty page, or one that is about to be indexed. */
  lemma HandlerGuards(s: Db, a: Step)
    requires Inv(s) && Enabled(s, a)
    ensures a.Store? ==> a.p in s.mem.dpages || s.mem.ilock == Mapped(a.p)
    ensures a.FaultCopy? || a.STakeIlock? ==> s.mem.ilock.Free?
  {
    hide NewInv, JobInv, SnapInv, DiskInv, CacheInv, FidInv, CtrlInv, Memory, Bounded;
  }

  // ----- the snapshot

  lemma SwapPriv(s: Db, a: Step)
    requires Inv(s) && PrivInv(s.mem, s.sync) && Enabled(s, a) && (a.STakeIlock? || a.SSwap? || a.SMemWrite?)
    ensures var t := Do(s, a); PrivInv(t.mem, t.sync)
  {
    hide Enabled, Do, Memory, PageAt, IndexPages, Inv, DoMemWrite, DoSwap, DoTakeIlock;
    DoesCommit(s, a);
    if a.STakeIlock? {
      HandlerGuards(s, a);
      TakeIlockPriv(s);
    } else if a.SSwap? {
      SwappedPriv(s);
    } else {
      MemWritePriv(s);
    }
  }

  lemma TakeIlockPriv(s: Db)
    requires PrivInv(s.mem, s.sync) && s.sync.pc.TakeIlock? && s.mem.ilock.Free?
    ensures var t := DoTakeIlock(s); PrivInv(t.mem, t.sync)
  {
  }

  lemma SwappedPriv(s: Db)
    requires Inv(s) && PrivInv(s.mem, s.sync) && s.sync.pc.Swap?
    ensures var t := DoSwap(s); PrivInv(t.mem, t.sync)
  {
    NoNewPages(s);
    hide Inv;
  }

  lemma NoNewPages(s: Db)
    requires Inv(s) && s.sync.pc.Swap?
    ensures s.mem.npages == map[]
  {
    hide MemInv, JobInv, SnapInv, DiskInv, CacheInv, FidInv, CtrlInv, Memory, Bounded;
  }

  lemma MemWritePriv(s: Db)
    requires PrivInv(s.mem, s.sync) && s.sync.pc.MemHashed? && AtNewPage(s) && JournalRoom(s)
    ensures var t := DoMemWrite(s); PrivInv(t.mem, t.sync)
  {
    hide PageAt, IndexPages;
  }

  // ----- the remapping

  lemma RemapPriv(s: Db, a: Step)
    requires Inv(s) && PrivInv(s.mem, s.sync) && Enabled(s, a)
    requires a.SDetach? || a.SWakeCommit? || a.SDataCommit? || a.SDataCommitted? || a.SRemap? || a.SRemapped?
    ensures var t := Do(s, a); PrivInv(t.mem, t.sync)
  {
    hide Enabled, Do, Inv, AtJournalPage, Ids, DataPages, DoRemap, PrivInv;
    DoesSync(s, a);
    if a.SRemap? {
      RemappedPriv(s);
    } else {
      ListedPriv(s, a);
    }
  }

  lemma RemappedPriv(s: Db)
    requires PrivInv(s.mem, s.sync) && s.sync.pc.Remap? && s.sync.i < |s.sync.ids|
    ensures var t := DoRemap(s); PrivInv(t.mem, t.sync)
  {
    var ids, i, t := s.sync.ids, s.sync.i, DoRemap(s);
    forall p | p in t.mem.priv
      ensures Needed(t.mem, t.sync, p)
    {
      assert Needed(s.mem, s.sync, p);
      assert ids[i..] == [ids[i]] + ids[i + 1..];
    }
  }

  lemma ListedPriv(s: Db, a: Step)
    requires Inv(s) && PrivInv(s.mem, s.sync) && Enabled(s, a)
    requires a.SDetach? || a.SWakeCommit? || a.SDataCommit? || a.SDataCommitted? || a.SRemapped?
    ensures var t := Do(s, a); PrivInv(t.mem, t.sync)
  {
    hide Enabled, Do, Inv, AtJournalPage, Ids, DataPages;
    DoesSync(s, a);
    if a.SDetach? {
      AllListed(s);
    }
    assert s.sync.ids[0..] == s.sync.ids;
    if a.SRemapped? {
      AllRemapped(s);
    }
  }

  lemma AllListed(s: Db)
    requires Inv(s) && s.sync.pc.Detach?
    ensures forall p | p in s.mem.npages :: p in s.sync.ids
  {
    hide MemInv, NewInv, SnapInv, DiskInv, CacheInv, FidInv, CtrlInv, WrittenInv;
  }

  lemma AllRemapped(s: Db)
    requires Enabled(s, SRemapped)
    ensures s.sync.i == |s.sync.ids| && s.sync.ids[s.sync.i..] == []
  {
  }

  // ----- all others

  /** The mapping and the indexes are the same, or forgotten. */
  predicate SamePriv(s: Db, t: Db) {
    && t.mem.priv.Keys <= s.mem.priv.Keys
    && (t.mem == NO_MEM || (t.mem.dpages == s.mem.dpages && t.mem.npages == s.mem.npages
                            && (s.mem.ilock.Mapped? ==> t.mem.ilock == s.mem.ilock)))
    && (t.mem == NO_MEM || !(s.sync.pc.WakeCommit? || s.sync.pc.DataCommit? || s.sync.pc.Remap?) || t.sync == s.sync)
  }

  lemma PrivKept(s: Db, t: Db)
    requires PrivInv(s.mem, s.sync) && SamePriv(s, t)
    ensures PrivInv(t.mem, t.sync)
  {
    assert forall p | p in t.mem.priv :: p in t.mem.priv.Keys && p in s.mem.priv;
  }

  lemma RestPriv(s: Db, a: Step)
    requires Inv(s) && PrivInv(s.mem, s.sync) && Enabled(s, a)
    requires !a.Store? && !a.FaultCopy? && !a.FaultMap? && !a.FaultIndex?
    requires !a.STakeIlock? && !a.SSwap? && !a.SMemWrite?
    requires !a.SDetach? && !a.SWakeCommit? && !a.SDataCommit? && !a.SDataCommitted? && !a.SRemap? && !a.SRemapped?
    ensures var t := Do(s, a); PrivInv(t.mem, t.sync)
  {
    hide Inv, PrivInv, Enabled, Do;
    if ByProgram(a) {
      RequestPriv(s, a);
    } else if ByCommit(a) {
      CommitPriv(s, a);
    } else {
      DiskPriv(s, a);
    }
    PrivKept(s, Do(s, a));
  }

  lemma RequestPriv(s: Db, a: Step)
    requires Enabled(s, a) && (a.Fsync? || a.FsyncAsync? || a.FutexSet? || a.FutexWake?)
    ensures SamePriv(s, Do(s, a))
  {
    hide Enabled, Do;
    DoesProgram(s, a);
  }

  lemma CommitPriv(s: Db, a: Step)
    requires Inv(s) && Enabled(s, a) && ByCommit(a) && !a.STakeIlock? && !a.SSwap? && !a.SMemWrite?
    ensures SamePriv(s, Do(s, a))
  {
    hide Enabled, Do, Memory, PageAt, Resize, IndexPages, Inv;
    DoesCommit(s, a);
    if a.SSection? {
      SectionHolds(s);
    }
  }

  lemma SectionHolds(s: Db)
    requires Inv(s) && s.sync.pc.Section?
    ensures !s.mem.ilock.Mapped?
  {
    hide NewInv, JobInv, SnapInv, DiskInv, CacheInv, FidInv, CtrlInv, Memory, Bounded;
  }

  lemma DiskPriv(s: Db, a: Step)
    requires Enabled(s, a) && !ByProgram(a) && !ByCommit(a) && !a.Store?
    requires !a.SDetach? && !a.SWakeCommit? && !a.SDataCommit? && !a.SDataCommitted? && !a.SRemap? && !a.SRemapped?
    ensures SamePriv(s, Do(s, a))
  {
    hide WriteStart, RawIndex, Ids, DataPages, SizesAgree, IndexPages, Accepted;
  }

  lemma {:induction false} RunPriv(s: Db, run: seq<Step>)
    requires Inv(s) && PrivInv(s.mem, s.sync) && Possible(s, run)
    ensures var t := After(s, run); Inv(t) && PrivInv(t.mem, t.sync)
    decreases |run|
  {
    hide Inv, Enabled, Do, PrivInv;
    if run != [] {
      StepInv(s, run[0]);
      PrivStep(s, run[0]);
      RunPriv(Do(s, run[0]), run[1..]);
    }
  }

  /** After every run from the first opening on, a page has private memory only while it is needed. */
  lemma PrivateIsNeeded(image: Image, addr: nat, run: seq<Step>, p: nat)
    requires 1 <= |image| <= MAX_PAGES && addr < MAX64 && Possible(Init(image, addr), run)
    ensures var t := After(Init(image, addr), run); p in t.mem.priv ==> Needed(t.mem, t.sync, p)
  {
    hide Inv, After, Possible;
    InitInv(image, addr);
    InitPriv(image, addr);
    RunPriv(Init(image, addr), run);
  }

  /** When the database is at rest with nothing dirty, no page has private memory: every commit has given up all that
      its pages had. */
  lemma NothingPrivate(s: Db)
    requires PrivInv(s.mem, s.sync) && s.mem.dpages == {} && s.mem.npages == map[] && s.mem.ilock.Free?
    requires s.sync.pc.Consume? || s.sync.pc.AboutToWait? || s.sync.pc.Asleep?
    ensures s.mem.priv == map[]
  {
    assert forall p | p in s.mem.priv :: Needed(s.mem, s.sync, p);
    assert s.mem.priv.Keys == {};
  }
}
