/** The steps of acid_sync_commit between the snapshot and the end of the sync phase keep the invariant. */
module AcidCommitSteps {
  import opened AcidJournal
  import opened AcidProtocol
  import opened AcidInvariant
  import opened AcidFrames

  lemma AscendingSize(ids: seq<nat>, n: nat)
    requires Ascending(ids) && Below(ids, n)
    ensures |ids| <= n
  {
    if |ids| > 0 {
      AscendingSize(ids[..|ids| - 1], ids[|ids| - 1]);
    }
  }

  // ----- the journal loop

  lemma TruncateInv(s: Db, ids: seq<nat>)
    requires Inv(s) && s.sync.pc.Truncate? && Lists(ids, s.mem.npages.Keys) && Ascending(ids)
    ensures Inv(DoTruncate(s, ids))
  {
    hide MemInv, NewInv, JobInv, SnapInv, DiskInv, CacheInv, FidInv, Images, Resize;
    var t := DoTruncate(s, ids);
    var y, y' := s.sync, t.sync;
    MemMove(s.n, s.mem, s.data.cache, y, y', s.h);
    NewMove(s.n, s.mem, y, y', s.h.snapImage);
    TruncateJob(s, ids);
    SnapMove(s.n, s.mem, s.mem, y, y', s.h, s.z);
    DiskMove(s.n, s.data, s.journal, y, y', s.z);
    ResizeKeeps(s.journal.cache, ids);
    JournalTail(s.n, s.data, s.journal, t.journal, y', s.z);
    CacheMove(s.n, s.data.cache, y, y', s.h.snapImage, s.h.snapImage, s.z);
    FidMove(s.ctrl, t.ctrl, y, y', s.h, s.w);
  }

  lemma ResizeKeeps(j: seq<Page>, ids: seq<nat>)
    requires |j| >= 1
    ensures var j' := Resize(j, IndexPages(|ids|) + |ids|); |j'| >= 1 && j'[0] == j[0]
  {
  }

  lemma TruncateJob(s: Db, ids: seq<nat>)
    requires Shape(s) && s.sync.pc.Truncate? && Lists(ids, s.mem.npages.Keys) && Ascending(ids)
    requires NewInv(s.n, s.mem, s.sync, s.h.snapImage)
    requires JobInv(s.n, s.mem.npages, s.sync, s.journal.cache, s.h.snapImage, s.z)
    ensures var t := DoTruncate(s, ids);
      JobInv(s.n, t.mem.npages, t.sync, t.journal.cache, t.h.snapImage, t.z)
  {
    AscendingSize(ids, s.n);
    var p :| p in s.mem.npages;
    assert p in ids;
  }

  /** While the data file is whole, only the first page of the cached journal matters. */
  lemma JournalTail(n: nat, data: File, journal: File, journal': File, y: Sync, z: Snapshots)
    requires |data.disk| == n && |journal.cache| >= 1 && |journal.disk| >= 1
    requires z.base < |z.snaps| && Images(n, z.snaps)
    requires DiskInv(n, data, journal, y, z)
    requires !Persisted(y) && !Replaying(y) && !y.pc.Reopen?
    requires journal'.disk == journal.disk && |journal'.cache| >= 1 && journal'.cache[0] == journal.cache[0]
    ensures DiskInv(n, data, journal', y, z)
  {
  }

  lemma CheckInv(s: Db)
    requires Inv(s) && s.sync.pc.Check? && AtNewPage(s)
    ensures Inv(DoCheck(s))
  {
    hide MemInv, NewInv, JobInv, SnapInv, DiskInv, CacheInv, FidInv, DoCheck;
    var t := DoCheck(s);
    CheckJob(s, SCheck);
    HashRest(s, t);
  }

  lemma LockInv(s: Db)
    requires Inv(s) && s.sync.pc.Lock? && AtNewPage(s)
    ensures Inv(DoLock(s))
  {
    hide MemInv, NewInv, JobInv, SnapInv, DiskInv, CacheInv, FidInv, DoLock;
    var t := DoLock(s);
    CheckJob(s, SLock);
    HashRest(s, t);
  }

  lemma HashRest(s: Db, t: Db)
    requires Inv(s) && Looping(s.sync) && Looping(t.sync)
    requires t == s.(sync := t.sync) && t.sync == s.sync.(pc := t.sync.pc, hashed := t.sync.hashed)
    requires JobInv(s.n, s.mem.npages, t.sync, s.journal.cache, s.h.snapImage, s.z)
    ensures Inv(t)
  {
    hide MemInv, NewInv, JobInv, SnapInv, DiskInv, CacheInv, FidInv;
    var y, y' := s.sync, t.sync;
    MemMove(s.n, s.mem, s.data.cache, y, y', s.h);
    NewMove(s.n, s.mem, y, y', s.h.snapImage);
    SnapMove(s.n, s.mem, s.mem, y, y', s.h, s.z);
    DiskMove(s.n, s.data, s.journal, y, y', s.z);
    CacheMove(s.n, s.data.cache, y, y', s.h.snapImage, s.h.snapImage, s.z);
    FidMove(s.ctrl, t.ctrl, y, y', s.h, s.w);
  }

  /** Copied or still in memory, the page hashed is the page of the snapshot. */
  lemma CheckJob(s: Db, a: Step)
    requires Shape(s) && AtNewPage(s)
    requires (a.SCheck? && s.sync.pc.Check?) || (a.SLock? && s.sync.pc.Lock?)
    requires MemInv(s.n, s.mem, s.data.cache, s.sync, s.h) && NewInv(s.n, s.mem, s.sync, s.h.snapImage)
    requires JobInv(s.n, s.mem.npages, s.sync, s.journal.cache, s.h.snapImage, s.z)
    ensures var t := if a.SCheck? then DoCheck(s) else DoLock(s);
      && JobInv(s.n, t.mem.npages, t.sync, t.journal.cache, t.h.snapImage, t.z)
      && t == s.(sync := s.sync.(pc := t.sync.pc, hashed := t.sync.hashed)) && Looping(t.sync)
  {
    hide MemInv, NewInv, JobInv;
    var p := s.sync.ids[s.sync.i];
    NewPageContent(s, p);
    CheckJobParts(s.n, s.mem.npages, s.sync, s.journal.cache, s.h.snapImage, s.z, PageAt(s.mem, s.data.cache, p),
                  a.SCheck?);
  }

  lemma CheckJobParts(n: nat, npages: map<nat, NewPage>, y: Sync, jcache: seq<Page>, image: Image, z: Snapshots,
                      inMemory: Page, check: bool)
    requires |image| == n && (if check then y.pc.Check? else y.pc.Lock?)
    requires JobInv(n, npages, y, jcache, image, z)
    requires y.i < |y.ids| && y.ids[y.i] in npages && y.ids[y.i] < n
    requires var e := npages[y.ids[y.i]];
      && (e.cow.Some? ==> e.cow.value == image[y.ids[y.i]])
      && (!e.jbuffered && e.cow.None? ==> inMemory == image[y.ids[y.i]])
    ensures var e := npages[y.ids[y.i]];
      JobInv(n, npages,
             if e.cow.Some? then y.(pc := CowHashed, hashed := y.hashed + [e.cow.value])
             else if check then y.(pc := Lock)
             else y.(pc := MemHashed, hashed := y.hashed + [inMemory]), jcache, image, z)
  {
    hide WrittenInv, LoopInv;
    var e := npages[y.ids[y.i]];
    assert TodoInv(npages, y) && !e.jbuffered;
    hide TodoInv;
    var y' := if e.cow.Some? then y.(pc := CowHashed, hashed := y.hashed + [e.cow.value])
              else if check then y.(pc := Lock)
              else y.(pc := MemHashed, hashed := y.hashed + [inMemory]);
    assert LoopInv(n, y, jcache, image);
    CheckLoop(n, npages, y, y', jcache, image);
  }

  lemma CheckLoop(n: nat, npages: map<nat, NewPage>, y: Sync, y': Sync, jcache: seq<Page>, image: Image)
    requires |image| == n && Below(y.ids, n) && (y.pc.Check? || y.pc.Lock?) && Looping(y')
    requires y.i < |y.ids| && y.ids[y.i] in npages
    requires LoopInv(n, y, jcache, image) && TodoInv(npages, y)
    requires y' == y.(pc := y'.pc, hashed := y'.hashed)
    requires if Done(y') == y.i then y'.hashed == y.hashed else y'.hashed == y.hashed + [image[y.ids[y.i]]]
    requires y'.pc.CowHashed? ==> npages[y.ids[y.i]].cow.Some?
    requires y'.pc.MemHashed? ==> npages[y.ids[y.i]].cow.None?
    ensures LoopInv(n, y', jcache, image) && TodoInv(npages, y')
  {
  }

  /** A new page that is not buffered: its copy, or else memory itself, holds the snapshot's content. */
  lemma NewPageContent(s: Db, p: nat)
    requires Shape(s) && p in s.mem.npages && p < s.n
    requires MemInv(s.n, s.mem, s.data.cache, s.sync, s.h) && NewInv(s.n, s.mem, s.sync, s.h.snapImage)
    ensures var e := s.mem.npages[p];
      && (e.cow.Some? ==> e.cow.value == s.h.snapImage[p])
      && (!e.jbuffered && e.cow.None? ==> PageAt(s.mem, s.data.cache, p) == s.h.snapImage[p])
  {
    assert NewPageInv(s.mem, s.h.snapImage, p);
  }

  lemma CowWriteInv(s: Db)
    requires Inv(s) && s.sync.pc.CowHashed? && AtNewPage(s) && JournalRoom(s)
    requires s.mem.npages[s.sync.ids[s.sync.i]].cow.Some?
    ensures Inv(DoCowWrite(s))
  {
    hide MemInv, NewInv, JobInv, SnapInv, DiskInv, CacheInv, FidInv;
    var t := DoCowWrite(s);
    NewPageContent(s, s.sync.ids[s.sync.i]);
    JournalPageJob(s, s.mem.npages, s.mem.npages[s.sync.ids[s.sync.i]].cow.value);
    MemMove(s.n, s.mem, s.data.cache, s.sync, t.sync, s.h);
    NewMove(s.n, s.mem, s.sync, t.sync, s.h.snapImage);
    JournalPageRest(s, t);
  }

  lemma MemWriteInv(s: Db)
    requires Inv(s) && s.sync.pc.MemHashed? && AtNewPage(s) && JournalRoom(s)
    ensures Inv(DoMemWrite(s))
  {
    hide MemInv, NewInv, JobInv, SnapInv, DiskInv, CacheInv, FidInv;
    var t := DoMemWrite(s);
    MemWriteContent(s);
    JournalPageJob(s, t.mem.npages, PageAt(s.mem, s.data.cache, s.sync.ids[s.sync.i]));
    MemWriteMem(s);
    JournalPageRest(s, t);
  }

  /** While the sync thread holds the page lock, memory of the page stays as hashed. */
  lemma MemWriteContent(s: Db)
    requires Shape(s) && s.sync.pc.MemHashed? && AtNewPage(s)
    requires MemInv(s.n, s.mem, s.data.cache, s.sync, s.h) && NewInv(s.n, s.mem, s.sync, s.h.snapImage)
    requires JobInv(s.n, s.mem.npages, s.sync, s.journal.cache, s.h.snapImage, s.z)
    ensures PageAt(s.mem, s.data.cache, s.sync.ids[s.sync.i]) == s.h.snapImage[s.sync.ids[s.sync.i]]
  {
    NewPageContent(s, s.sync.ids[s.sync.i]);
  }

  lemma MemWriteMem(s: Db)
    requires Shape(s) && s.sync.pc.MemHashed? && AtNewPage(s)
    requires JournalRoom(s)
    requires MemInv(s.n, s.mem, s.data.cache, s.sync, s.h) && NewInv(s.n, s.mem, s.sync, s.h.snapImage)
    ensures var t := DoMemWrite(s);
      && MemInv(s.n, t.mem, s.data.cache, t.sync, s.h) && NewInv(s.n, t.mem, t.sync, s.h.snapImage)
      && t.mem.npages.Keys == s.mem.npages.Keys
  {
    var t := DoMemWrite(s);
    assert t.mem.npages.Keys == s.mem.npages.Keys;
    assert Memory(t.mem, s.data.cache) == Memory(s.mem, s.data.cache);
    assert t.mem.writable == Open(t.mem, t.sync);
    forall q | q in t.mem.npages ensures NewPageInv(t.mem, s.h.snapImage, q) {
      assert NewPageInv(s.mem, s.h.snapImage, q);
    }
  }

  lemma JournalPageJob(s: Db, npages: map<nat, NewPage>, v: Page)
    requires Shape(s) && AtNewPage(s) && (s.sync.pc.CowHashed? || s.sync.pc.MemHashed?)
    requires JournalRoom(s)
    requires JobInv(s.n, s.mem.npages, s.sync, s.journal.cache, s.h.snapImage, s.z)
    requires v == s.h.snapImage[s.sync.ids[s.sync.i]]
    requires npages.Keys == s.mem.npages.Keys
    requires forall q | q in npages && q != s.sync.ids[s.sync.i] :: npages[q] == s.mem.npages[q]
    ensures var t := JournalPage(s, v);
      JobInv(s.n, npages, t.sync, t.journal.cache, t.h.snapImage, t.z)
  {
    var y := s.sync;
    hide WrittenInv, LoopInv, TodoInv;
    assert IdsInv(s.n, s.mem.npages, y);
    JournalPageLoop(s.n, y, s.journal.cache, s.h.snapImage, v);
    JournalPageTodo(s.mem.npages, npages, y, s.n);
  }

  lemma JournalPageLoop(n: nat, y: Sync, jcache: seq<Page>, image: Image, v: Page)
    requires |image| == n && Below(y.ids, n) && (y.pc.CowHashed? || y.pc.MemHashed?)
    requires LoopInv(n, y, jcache, image) && v == image[y.ids[y.i]]
    ensures Done(y) <= |y.ids|
    ensures LoopInv(n, y.(pc := Check, i := y.i + 1), jcache[IndexPages(|y.ids|) + y.i := v], image)
  {
  }

  lemma JournalPageTodo(npages: map<nat, NewPage>, npages': map<nat, NewPage>, y: Sync, n: nat)
    requires IdsInv(n, npages, y) && (y.pc.CowHashed? || y.pc.MemHashed?)
    requires Done(y) <= |y.ids| && TodoInv(npages, y)
    requires npages'.Keys == npages.Keys
    requires forall q | q in npages' && q != y.ids[y.i] :: npages'[q] == npages[q]
    ensures IdsInv(n, npages', y.(pc := Check, i := y.i + 1))
    ensures TodoInv(npages', y.(pc := Check, i := y.i + 1))
  {
  }

  lemma JournalPageRest(s: Db, t: Db)
    requires Inv(s) && (s.sync.pc.CowHashed? || s.sync.pc.MemHashed?)
    requires t == s.(mem := t.mem, journal := t.journal, sync := t.sync)
    requires t.mem.npages.Keys == s.mem.npages.Keys && t.mem.dpages == s.mem.dpages
    requires t.sync == s.sync.(pc := Check, i := t.sync.i)
    requires t.journal.disk == s.journal.disk && |t.journal.cache| >= 1 && t.journal.cache[0] == s.journal.cache[0]
    requires MemInv(s.n, t.mem, s.data.cache, t.sync, s.h) && NewInv(s.n, t.mem, t.sync, s.h.snapImage)
    requires JobInv(s.n, t.mem.npages, t.sync, t.journal.cache, s.h.snapImage, s.z)
    ensures Inv(t)
  {
    hide MemInv, NewInv, JobInv, SnapInv, DiskInv, CacheInv, FidInv;
    var y, y' := s.sync, t.sync;
    SnapMove(s.n, s.mem, t.mem, y, y', s.h, s.z);
    DiskMove(s.n, s.data, s.journal, y, y', s.z);
    JournalTail(s.n, s.data, s.journal, t.journal, y', s.z);
    CacheMove(s.n, s.data.cache, y, y', s.h.snapImage, s.h.snapImage, s.z);
    FidMove(s.ctrl, t.ctrl, y, y', s.h, s.w);
  }

  // ----- index, fsync, detach

  lemma WriteIndexInv(s: Db)
    requires Inv(s) && s.sync.pc.Check? && AtIndex(s)
    ensures Inv(DoWriteIndex(s))
  {
    hide MemInv, NewInv, JobInv, SnapInv, DiskInv, CacheInv, FidInv, RawIndex, WriteStart;
    var t := DoWriteIndex(s);
    var y, y' := s.sync, t.sync;
    WriteIndexJob(s);
    MemMove(s.n, s.mem, s.data.cache, y, y', s.h);
    NewMove(s.n, s.mem, y, y', s.h.snapImage);
    SnapMove(s.n, s.mem, s.mem, y, y', s.h, s.z);
    SnapHeaders(s.n, s.mem, y', s.h, s.z, t.z);
    DiskMove(s.n, s.data, s.journal, y, y', s.z);
    WriteIndexDisk(s);
    CacheMove(s.n, s.data.cache, y, y', s.h.snapImage, s.h.snapImage, s.z);
    CacheHeaders(s.n, s.data.cache, y', s.h.snapImage, s.z, t.z);
    FidMove(s.ctrl, t.ctrl, y, y', s.h, s.w);
  }

  lemma SnapHeaders(n: nat, m: Mem, y: Sync, h: Session, z: Snapshots, z': Snapshots)
    requires |h.snapImage| == n && z.base < |z.snaps| && z.durable < |z.snaps| && Images(n, z.snaps)
    requires SnapInv(n, m, y, h, z) && z' == z.(cacheHdr := z'.cacheHdr, diskHdr := z'.diskHdr)
    ensures SnapInv(n, m, y, h, z')
  {
  }

  lemma CacheHeaders(n: nat, cache: seq<Page>, y: Sync, image: Image, z: Snapshots, z': Snapshots)
    requires |cache| == |image| == n && z.base < |z.snaps| && z.durable < |z.snaps| && Images(n, z.snaps)
    requires CacheInv(n, cache, y, image, z) && !Replaying(y)
    requires z' == z.(cacheHdr := z'.cacheHdr, diskHdr := z'.diskHdr)
    ensures CacheInv(n, cache, y, image, z')
  {
  }

  lemma LoopFinished(n: nat, y: Sync, jcache: seq<Page>, image: Image)
    requires |image| == n && Below(y.ids, n) && y.pc.Check? && y.i == |y.ids|
    requires LoopInv(n, y, jcache, image)
    ensures var p0 := IndexPages(|y.ids|);
      && |jcache| == p0 + |y.ids| && jcache[p0..] == y.hashed
      && (forall k | 0 <= k < |y.ids| :: y.hashed[k] == image[y.ids[k]])
  {
  }

  lemma WriteIndexWritten(s: Db)
    requires s.sync.pc.Check? && AtIndex(s) && |s.h.snapImage| == s.n && Below(s.sync.ids, s.n)
    requires Complete(DoWriteIndex(s).journal.cache, TheCommit(s))
    requires |s.sync.hashed| == |s.sync.ids|
    requires forall k | 0 <= k < |s.sync.ids| :: s.sync.hashed[k] == s.h.snapImage[s.sync.ids[k]]
    ensures var t := DoWriteIndex(s); WrittenInv(s.n, t.sync, t.journal.cache, t.h.snapImage, t.z)
  {
    hide RawIndex, WriteStart, Complete;
  }

  lemma WriteIndexJob(s: Db)
    requires Shape(s) && s.sync.pc.Check? && AtIndex(s)
    requires JobInv(s.n, s.mem.npages, s.sync, s.journal.cache, s.h.snapImage, s.z)
    ensures var t := DoWriteIndex(s);
      && s.sync.i == |s.sync.ids|
      && JobInv(s.n, t.mem.npages, t.sync, t.journal.cache, t.h.snapImage, t.z)
      && Complete(t.journal.cache, TheCommit(s)) && Ascending(s.sync.ids) && Below(s.sync.ids, s.n)
      && 1 <= |s.sync.ids|
      && (forall k | 0 <= k < |s.sync.ids| :: s.sync.hashed[k] == s.h.snapImage[s.sync.ids[k]])
  {
    hide RawIndex, WriteStart, Complete, WrittenInv, TodoInv;
    LoopFinished(s.n, s.sync, s.journal.cache, s.h.snapImage);
    hide LoopInv;
    WriteIndexCompletes(s.journal.cache, TheCommit(s));
    WriteIndexWritten(s);
  }

  lemma WriteIndexDisk(s: Db)
    requires Shape(s) && s.sync.pc.Check? && AtIndex(s)
    requires SnapInv(s.n, s.mem, s.sync, s.h, s.z)
    requires DiskInv(s.n, s.data, s.journal, s.sync.(pc := JournalSync), s.z)
    requires Complete(DoWriteIndex(s).journal.cache, TheCommit(s)) && 1 <= |s.sync.ids|
    requires Ascending(s.sync.ids) && Below(s.sync.ids, s.n)
    requires forall k | 0 <= k < |s.sync.ids| :: s.sync.hashed[k] == s.h.snapImage[s.sync.ids[k]]
    ensures var t := DoWriteIndex(s); DiskInv(s.n, t.data, t.journal, t.sync, t.z)
  {
    hide RawIndex, WriteStart, Complete;
    var t := DoWriteIndex(s);
    CompleteHeader(t.journal.cache, TheCommit(s));
    assert AttemptInv(s.n, t.z.cacheHdr.value, t.z);
    HeaderLater(s.n, s.journal.disk[0], s.z.diskHdr, s.z, t.z);
  }

  lemma JournalSyncInv(s: Db)
    requires Inv(s) && s.sync.pc.JournalSync? && s.z.snaps != []
    ensures Inv(DoJournalSync(s))
  {
    hide MemInv, NewInv, JobInv, SnapInv, DiskInv, CacheInv, FidInv;
    var t := DoJournalSync(s);
    var y, y' := s.sync, t.sync;
    MemMove(s.n, s.mem, s.data.cache, y, y', s.h);
    JournalSyncMem(s.n, s.mem, s.data.cache, y', s.h, t.h);
    NewMove(s.n, s.mem, y, y', s.h.snapImage);
    JournalSyncJob(s);
    JournalSyncSnap(s);
    JournalSyncDisk(s);
    JournalSyncCache(s);
    FidLater(s.ctrl, y, s.h, t.h, s.w);
    FidMove(s.ctrl, t.ctrl, y, y', t.h, s.w);
  }

  lemma JournalSyncMem(n: nat, m: Mem, cache: seq<Page>, y: Sync, h: Session, h': Session)
    requires |cache| == n && |h.snapImage| == n && MemInv(n, m, cache, y, h)
    requires h' == h.(durStores := h'.durStores, baseStores := h'.baseStores)
    ensures MemInv(n, m, cache, y, h')
  {
  }

  lemma JournalSyncJob(s: Db)
    requires Shape(s) && s.sync.pc.JournalSync? && s.z.snaps != []
    requires JobInv(s.n, s.mem.npages, s.sync, s.journal.cache, s.h.snapImage, s.z)
    ensures var t := DoJournalSync(s); JobInv(s.n, t.mem.npages, t.sync, t.journal.cache, t.h.snapImage, t.z)
  {
    hide Complete;
  }

  lemma JournalSyncSnap(s: Db)
    requires Shape(s) && s.sync.pc.JournalSync? && s.z.snaps != []
    requires MemInv(s.n, s.mem, s.data.cache, s.sync, s.h)
    requires SnapInv(s.n, s.mem, s.sync, s.h, s.z)
    ensures var t := DoJournalSync(s); SnapInv(s.n, t.mem, t.sync, t.h, t.z) && s.h.durStores <= t.h.durStores
  {
  }

  /** The journal fsync makes the snapshot durable: the journal alone brings the data file to it. */
  lemma JournalSyncDisk(s: Db)
    requires Shape(s) && s.sync.pc.JournalSync? && s.z.snaps != []
    requires JobInv(s.n, s.mem.npages, s.sync, s.journal.cache, s.h.snapImage, s.z)
    requires DiskInv(s.n, s.data, s.journal, s.sync, s.z)
    ensures var t := DoJournalSync(s); DiskInv(s.n, t.data, t.journal, t.sync, t.z)
  {
    hide RawIndex, Complete, Accepted;
    var t := DoJournalSync(s);
    var a := s.z.cacheHdr.value;
    CompleteAccepted(s.journal.cache, a.c, s.n);
    assert AttemptInv(s.n, a, t.z);
  }

  lemma JournalSyncCache(s: Db)
    requires Shape(s) && s.sync.pc.JournalSync? && s.z.snaps != []
    requires CacheInv(s.n, s.data.cache, s.sync, s.h.snapImage, s.z)
    ensures var t := DoJournalSync(s); CacheInv(s.n, t.data.cache, t.sync, t.h.snapImage, t.z)
  {
  }

  lemma DetachInv(s: Db)
    requires Inv(s) && s.sync.pc.Detach? && s.mem.ilock.Free?
    ensures Inv(DoDetach(s))
  {
    hide MemInv, NewInv, JobInv, SnapInv, DiskInv, CacheInv, FidInv;
    var t := DoDetach(s);
    var y, y' := s.sync, t.sync;
    DetachMem(s);
    JobMove(s.n, s.mem.npages, y, y', s.journal.cache, s.h.snapImage, s.z);
    DetachJob(s.n, s.mem.npages, y', s.journal.cache, s.h.snapImage, s.z);
    SnapMove(s.n, s.mem, t.mem, y, y', s.h, s.z);
    DiskMove(s.n, s.data, s.journal, y, y', s.z);
    CacheMove(s.n, s.data.cache, y, y', s.h.snapImage, s.h.snapImage, s.z);
    FidMove(s.ctrl, t.ctrl, y, y', s.h, s.w);
  }

  lemma DetachMem(s: Db)
    requires Shape(s) && s.sync.pc.Detach?
    requires MemInv(s.n, s.mem, s.data.cache, s.sync, s.h) && NewInv(s.n, s.mem, s.sync, s.h.snapImage)
    ensures var m, y := s.mem.(npages := map[]), s.sync.(pc := WakeCommit);
      MemInv(s.n, m, s.data.cache, y, s.h) && NewInv(s.n, m, y, s.h.snapImage)
  {
    var m := s.mem.(npages := map[]);
    assert Memory(m, s.data.cache) == Memory(s.mem, s.data.cache);
    assert m.writable == Open(m, s.sync.(pc := WakeCommit));
  }

  lemma DetachJob(n: nat, npages: map<nat, NewPage>, y: Sync, jcache: seq<Page>, image: Image, z: Snapshots)
    requires |image| == n && JobInv(n, npages, y, jcache, image, z) && !NewLive(y)
    ensures JobInv(n, map[], y, jcache, image, z)
  {
  }

  // ----- copying to the data file

  /** What journ_commit reads from the mapped journal: exactly the pages of the snapshot. */
  lemma JournalReads(s: Db)
    requires Shape(s) && Persisted(s.sync)
    requires JobInv(s.n, s.mem.npages, s.sync, s.journal.cache, s.h.snapImage, s.z)
    ensures var j := s.journal.cache;
      && Accepted(j, s.n) && Ids(j) == s.sync.ids && NPages(j) == |s.sync.ids|
      && Ascending(s.sync.ids) && Below(s.sync.ids, s.n)
      && (forall k | 0 <= k < |s.sync.ids| :: DataPages(j)[k] == s.h.snapImage[s.sync.ids[k]])
  {
    hide Complete, RawIndex, Accepted;
    CompleteAccepted(s.journal.cache, s.z.cacheHdr.value.c, s.n);
  }

  lemma DataCommitInv(s: Db)
    requires Inv(s) && s.sync.pc.DataCommit? && AtJournalPage(s)
    ensures Inv(DoCopyPage(s))
  {
    hide MemInv, NewInv, JobInv, SnapInv, DiskInv, CacheInv, FidInv, Accepted, Ids, DataPages;
    var t := DoCopyPage(s);
    var y, y' := s.sync, t.sync;
    JournalReads(s);
    CopyMem(s.n, s.mem, s.data.cache, t.data.cache, y, s.h, y.ids[y.i]);
    MemMove(s.n, s.mem, t.data.cache, y, y', s.h);
    NewMove(s.n, s.mem, y, y', s.h.snapImage);
    JobMove(s.n, s.mem.npages, y, y', s.journal.cache, s.h.snapImage, s.z);
    SnapMove(s.n, s.mem, s.mem, y, y', s.h, s.z);
    DiskMove(s.n, s.data, s.journal, y, y', s.z);
    CopyDisk(s.n, s.data, t.data, s.journal, y', s.z);
    CopyCache(s.n, s.data.cache, y, y', s.h.snapImage, s.z);
    FidMove(s.ctrl, t.ctrl, y, y', s.h, s.w);
  }

  /** Copying a snapshot page under a running program: what the program reads does not change. */
  lemma CopyMem(n: nat, m: Mem, cache: seq<Page>, cache': seq<Page>, y: Sync, h: Session, id: nat)
    requires |cache| == n && |h.snapImage| == n && id < n
    requires MemInv(n, m, cache, y, h)
    requires cache' == cache[id := h.snapImage[id]]
    ensures MemInv(n, m, cache', y, h) && Memory(m, cache') == Memory(m, cache)
  {
    assert forall p | 0 <= p < n :: PageAt(m, cache', p) == PageAt(m, cache, p);
    assert Memory(m, cache') == Memory(m, cache);
  }

  lemma CopyDisk(n: nat, data: File, data': File, journal: File, y: Sync, z: Snapshots)
    requires |data.disk| == n && |journal.cache| >= 1 && |journal.disk| >= 1
    requires z.base < |z.snaps| && Images(n, z.snaps)
    requires DiskInv(n, data, journal, y, z) && !y.pc.Reopen?
    requires data'.disk == data.disk
    ensures DiskInv(n, data', journal, y, z)
  {
  }

  lemma CopyCache(n: nat, cache: seq<Page>, y: Sync, y': Sync, image: Image, z: Snapshots)
    requires |cache| == |image| == n && z.base < |z.snaps| && z.durable < |z.snaps| && Images(n, z.snaps)
    requires y.pc.DataCommit? && CacheInv(n, cache, y, image, z)
    requires y.i < |y.ids| && Below(y.ids, n) && y' == y.(i := y.i + 1)
    ensures CacheInv(n, cache[y.ids[y.i] := image[y.ids[y.i]]], y', image, z)
  {
    var cache' := cache[y.ids[y.i] := image[y.ids[y.i]]];
    assert Copying(n, cache, y.i, y.ids, z.snaps[z.base], image);
    assert Copying(n, cache', y.i + 1, y.ids, z.snaps[z.base], image);
  }

  lemma DataCommittedInv(s: Db)
    requires Inv(s) && s.sync.pc.DataCommit? && |s.journal.cache| >= 1 && s.sync.i == NPages(s.journal.cache)
    ensures Inv(s.(sync := s.sync.(pc := Remap, i := 0)))
  {
    hide MemInv, NewInv, JobInv, SnapInv, DiskInv, CacheInv, FidInv, Accepted, Ids, DataPages;
    var t := s.(sync := s.sync.(pc := Remap, i := 0));
    var y, y' := s.sync, t.sync;
    JournalReads(s);
    MemMove(s.n, s.mem, s.data.cache, y, y', s.h);
    NewMove(s.n, s.mem, y, y', s.h.snapImage);
    JobMove(s.n, s.mem.npages, y, y', s.journal.cache, s.h.snapImage, s.z);
    SnapMove(s.n, s.mem, s.mem, y, y', s.h, s.z);
    DiskMove(s.n, s.data, s.journal, y, y', s.z);
    DataCommittedCache(s);
    FidMove(s.ctrl, t.ctrl, y, y', s.h, s.w);
  }

  lemma DataCommittedCache(s: Db)
    requires Shape(s) && s.sync.pc.DataCommit? && s.sync.i == |s.sync.ids|
    requires SnapInv(s.n, s.mem, s.sync, s.h, s.z)
    requires CacheInv(s.n, s.data.cache, s.sync, s.h.snapImage, s.z)
    ensures CacheInv(s.n, s.data.cache, s.sync.(pc := Remap, i := 0), s.h.snapImage, s.z)
  {
    AllCopied(s.n, s.data.cache, s.sync.i, s.sync.ids, s.z.snaps[s.z.base], s.h.snapImage);
  }

  lemma AllCopied(n: nat, cache: seq<Page>, i: nat, ids: seq<nat>, base: Image, image: Image)
    requires |cache| == |base| == |image| == n && i == |ids|
    requires Copying(n, cache, i, ids, base, image)
    requires forall p | 0 <= p < n && p !in ids :: base[p] == image[p]
    ensures cache == image
  {
    forall p | 0 <= p < n ensures cache[p] == image[p] {
      if p in ids {
        var k :| 0 <= k < |ids| && ids[k] == p;
      }
    }
  }

  lemma RemapInv(s: Db)
    requires Inv(s) && s.sync.pc.Remap? && s.mem.ilock.Free? && s.sync.i < |s.sync.ids|
    ensures Inv(DoRemap(s))
  {
    hide MemInv, NewInv, JobInv, SnapInv, DiskInv, CacheInv, FidInv;
    var t := DoRemap(s);
    var y, y' := s.sync, t.sync;
    RemapMem(s);
    JobMove(s.n, s.mem.npages, y, y', s.journal.cache, s.h.snapImage, s.z);
    SnapMove(s.n, s.mem, t.mem, y, y', s.h, s.z);
    DiskMove(s.n, s.data, s.journal, y, y', s.z);
    RemapCache(s.n, s.data.cache, y, y', s.h.snapImage, s.z);
    FidMove(s.ctrl, t.ctrl, y, y', s.h, s.w);
  }

  /** Giving up private memory of a clean page: the file holds the same content. */
  lemma RemapMem(s: Db)
    requires Shape(s) && s.sync.pc.Remap? && s.mem.ilock.Free? && s.sync.i < |s.sync.ids|
    requires MemInv(s.n, s.mem, s.data.cache, s.sync, s.h) && NewInv(s.n, s.mem, s.sync, s.h.snapImage)
    requires CacheInv(s.n, s.data.cache, s.sync, s.h.snapImage, s.z)
    ensures var t := DoRemap(s);
      && MemInv(s.n, t.mem, s.data.cache, t.sync, s.h) && NewInv(s.n, t.mem, t.sync, s.h.snapImage)
      && Memory(t.mem, s.data.cache) == Memory(s.mem, s.data.cache)
  {
    var t := DoRemap(s);
    assert forall p | 0 <= p < s.n :: PageAt(t.mem, s.data.cache, p) == PageAt(s.mem, s.data.cache, p);
    assert Memory(t.mem, s.data.cache) == Memory(s.mem, s.data.cache);
    assert t.mem.writable == Open(t.mem, t.sync);
  }

  lemma RemapCache(n: nat, cache: seq<Page>, y: Sync, y': Sync, image: Image, z: Snapshots)
    requires |cache| == |image| == n && z.base < |z.snaps| && z.durable < |z.snaps| && Images(n, z.snaps)
    requires y.pc.Remap? && y.i < |y.ids| && CacheInv(n, cache, y, image, z)
    requires y' == y.(i := y.i + 1)
    ensures CacheInv(n, cache, y', image, z)
  {
  }

  lemma RemappedInv(s: Db)
    requires Inv(s) && s.sync.pc.Remap? && s.sync.i == |s.sync.ids|
    ensures Inv(Goto(s, DataSync))
  {
    hide MemInv, NewInv, JobInv, SnapInv, DiskInv, CacheInv, FidInv;
    var t := Goto(s, DataSync);
    var y, y' := s.sync, t.sync;
    MemMove(s.n, s.mem, s.data.cache, y, y', s.h);
    NewMove(s.n, s.mem, y, y', s.h.snapImage);
    JobMove(s.n, s.mem.npages, y, y', s.journal.cache, s.h.snapImage, s.z);
    SnapMove(s.n, s.mem, s.mem, y, y', s.h, s.z);
    DiskMove(s.n, s.data, s.journal, y, y', s.z);
    RemappedCache(s.n, s.data.cache, y, s.h.snapImage, s.z);
    FidMove(s.ctrl, t.ctrl, y, y', s.h, s.w);
  }

  lemma RemappedCache(n: nat, cache: seq<Page>, y: Sync, image: Image, z: Snapshots)
    requires |cache| == |image| == n && z.base < |z.snaps| && z.durable < |z.snaps| && Images(n, z.snaps)
    requires y.pc.Remap? && CacheInv(n, cache, y, image, z)
    ensures CacheInv(n, cache, y.(pc := DataSync), image, z)
  {
  }

  // ----- the end of the sync phase

  lemma DataSyncInv(s: Db)
    requires Inv(s) && s.sync.pc.DataSync?
    ensures Inv(DoDataSync(s))
  {
    hide MemInv, NewInv, JobInv, SnapInv, DiskInv, CacheInv, FidInv;
    var t := DoDataSync(s);
    var y, y' := s.sync, t.sync;
    MemMove(s.n, s.mem, s.data.cache, y, y', s.h);
    JournalSyncMem(s.n, s.mem, s.data.cache, y', s.h, t.h);
    NewMove(s.n, s.mem, y, y', s.h.snapImage);
    JobIdle(s.n, s.mem.npages, y', s.journal.cache, s.h.snapImage, t.z);
    DataSyncSnap(s);
    DataSyncDisk(s);
    FidLater(s.ctrl, y, s.h, t.h, s.w);
    FidMove(s.ctrl, t.ctrl, y, y', t.h, s.w);
  }

  lemma DataSyncSnap(s: Db)
    requires Shape(s) && s.sync.pc.DataSync?
    requires SnapInv(s.n, s.mem, s.sync, s.h, s.z) && CacheInv(s.n, s.data.cache, s.sync, s.h.snapImage, s.z)
    ensures var t := DoDataSync(s);
      && SnapInv(s.n, t.mem, t.sync, t.h, t.z) && CacheInv(s.n, t.data.cache, t.sync, t.h.snapImage, t.z)
      && s.h.baseStores <= t.h.baseStores && s.data.cache == s.z.snaps[s.z.durable]
  {
  }

  lemma DataSyncDisk(s: Db)
    requires Shape(s) && (s.sync.pc.DataSync? || s.sync.pc.ReplaySync?)
    requires DiskInv(s.n, s.data, s.journal, s.sync, s.z)
    requires s.data.cache == s.z.snaps[s.z.durable]
    ensures var z := s.z.(base := s.z.durable);
      forall y: Sync | !Persisted(y) && !Replaying(y) && !y.pc.Reopen? ::
        DiskInv(s.n, File(s.data.cache, s.data.cache), s.journal, y, z)
  {
    hide Accepted, RawIndex;
    var z := s.z.(base := s.z.durable);
    assert AttemptInv(s.n, s.z.diskHdr.value, z);
  }

  lemma TruncateEndInv(s: Db)
    requires Inv(s) && s.sync.pc.TruncateEnd? && |s.journal.cache| >= 1
    ensures Inv(DoTruncateEnd(s))
  {
    hide MemInv, NewInv, JobInv, SnapInv, DiskInv, CacheInv, FidInv;
    var t := DoTruncateEnd(s);
    var y, y' := s.sync, t.sync;
    MemMove(s.n, s.mem, s.data.cache, y, y', s.h);
    NewMove(s.n, s.mem, y, y', s.h.snapImage);
    JobIdle(s.n, s.mem.npages, y', t.journal.cache, s.h.snapImage, t.z);
    SnapMove(s.n, s.mem, s.mem, y, y', s.h, s.z);
    DiskMove(s.n, s.data, s.journal, y, y', s.z);
    JournalTail(s.n, s.data, s.journal, t.journal, y', s.z);
    CacheMove(s.n, s.data.cache, y, y', s.h.snapImage, s.h.snapImage, s.z);
    FidMove(s.ctrl, t.ctrl, y, y', s.h, s.w);
  }

  lemma EndSyncInv(s: Db)
    requires Inv(s) && s.sync.pc.EndSync?
    ensures Inv(DoEndSync(s))
  {
    hide MemInv, NewInv, JobInv, SnapInv, DiskInv, CacheInv, FidInv;
    var t := DoEndSync(s);
    var y, y' := s.sync, t.sync;
    MemMove(s.n, s.mem, s.data.cache, y, y', s.h);
    NewMove(s.n, s.mem, y, y', s.h.snapImage);
    JobIdle(s.n, s.mem.npages, y', s.journal.cache, s.h.snapImage, s.z);
    SnapMove(s.n, s.mem, s.mem, y, y', s.h, s.z);
    DiskMove(s.n, s.data, s.journal, y, y', s.z);
    CacheMove(s.n, s.data.cache, y, y', s.h.snapImage, s.h.snapImage, s.z);
    FidMove(s.ctrl, t.ctrl, y, y', s.h, s.w);
  }
}
