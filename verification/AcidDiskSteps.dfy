/** Write-back by the kernel, crashes, and recovery in acid_open keep the invariant. */
module AcidDiskSteps {
  import opened AcidJournal
  import opened AcidProtocol
  import opened AcidInvariant
  import opened AcidFrames
  import opened AcidCommitSteps

  // ----- the kernel

  lemma WritebackDataInv(s: Db, p: nat)
    requires Inv(s) && p < |s.data.cache| && p < |s.data.disk|
    ensures Inv(DoWritebackData(s, p))
  {
    hide MemInv, NewInv, JobInv, SnapInv, DiskInv, CacheInv, FidInv, CtrlInv;
    if Persisted(s.sync) {
      OffList(s);
    }
    WritebackDataDisk(s, p);
  }

  /** Pages that are not in the journal are the same in the snapshot and in the base. */
  lemma OffList(s: Db)
    requires Shape(s) && Persisted(s.sync)
    requires JobInv(s.n, s.mem.npages, s.sync, s.journal.cache, s.h.snapImage, s.z)
    requires SnapInv(s.n, s.mem, s.sync, s.h, s.z)
    ensures s.z.cacheHdr.Some? && s.z.cacheHdr.value.c.ids == s.sync.ids
    ensures forall p | 0 <= p < s.n && p !in s.sync.ids :: s.z.snaps[s.z.base][p] == s.h.snapImage[p]
  {
    hide Complete;
  }

  lemma WritebackDataDisk(s: Db, p: nat)
    requires Shape(s) && p < s.n
    requires DiskInv(s.n, s.data, s.journal, s.sync, s.z)
    requires CacheInv(s.n, s.data.cache, s.sync, s.h.snapImage, s.z)
    requires Persisted(s.sync) ==>
      && s.z.cacheHdr.Some? && s.z.cacheHdr.value.c.ids == s.sync.ids
      && (forall q | 0 <= q < s.n && q !in s.sync.ids :: s.z.snaps[s.z.base][q] == s.h.snapImage[q])
    ensures DiskInv(s.n, s.data.(disk := s.data.disk[p := s.data.cache[p]]), s.journal, s.sync, s.z)
  {
    hide Accepted, RawIndex;
    var disk' := s.data.disk[p := s.data.cache[p]];
    if Persisted(s.sync) || Replaying(s.sync) {
      assert JournalWhole(s.n, disk', s.journal.disk, s.z);
    } else {
      assert disk' == s.data.disk;
    }
  }

  lemma WritebackJournalInv(s: Db, i: nat)
    requires Inv(s) && i < |s.journal.cache| && i < |s.journal.disk|
    ensures Inv(DoWritebackJournal(s, i))
  {
    hide MemInv, NewInv, JobInv, SnapInv, DiskInv, CacheInv, FidInv, CtrlInv;
    var t := DoWritebackJournal(s, i);
    WritebackJournalDisk(s, i);
    if Running(s) {
      SnapHeaders(s.n, s.mem, s.sync, s.h, s.z, t.z);
      JobHeaders(s.n, s.mem.npages, s.sync, s.journal.cache, s.h.snapImage, s.z, t.z);
    }
  }

  lemma JobHeaders(n: nat, npages: map<nat, NewPage>, y: Sync, jcache: seq<Page>, image: Image,
                   z: Snapshots, z': Snapshots)
    requires |image| == n && JobInv(n, npages, y, jcache, image, z)
    requires z' == z.(diskHdr := z'.diskHdr)
    ensures JobInv(n, npages, y, jcache, image, z')
  {
  }

  lemma WritebackJournalDisk(s: Db, i: nat)
    requires Shape(s) && i < |s.journal.cache| && i < |s.journal.disk|
    requires DiskInv(s.n, s.data, s.journal, s.sync, s.z)
    requires CacheInv(s.n, s.data.cache, s.sync, s.h.snapImage, s.z)
    ensures var t := DoWritebackJournal(s, i);
      && DiskInv(s.n, t.data, t.journal, t.sync, t.z)
      && CacheInv(s.n, t.data.cache, t.sync, t.h.snapImage, t.z)
  {
    hide Accepted, RawIndex;
    var t := DoWritebackJournal(s, i);
    if Persisted(s.sync) || Replaying(s.sync) || s.sync.pc.Reopen? {
      assert t.journal.disk == s.journal.disk && t.z == s.z;
    } else {
      hide AttemptInv;
      assert HeaderInv(s.n, t.journal.cache[0], t.z.cacheHdr, t.z);
      assert HeaderInv(s.n, t.journal.disk[0], t.z.diskHdr, t.z);
    }
  }

  lemma WritebackLengthInv(s: Db, ext: seq<Page>)
    requires Inv(s) && |s.journal.cache| <= |s.journal.disk| + |ext|
    ensures Inv(DoWritebackLength(s, ext))
  {
    hide MemInv, NewInv, JobInv, SnapInv, DiskInv, CacheInv, FidInv, CtrlInv;
    WritebackLengthDisk(s, ext);
  }

  lemma WritebackLengthDisk(s: Db, ext: seq<Page>)
    requires Shape(s) && |s.journal.cache| <= |s.journal.disk| + |ext|
    requires DiskInv(s.n, s.data, s.journal, s.sync, s.z)
    ensures DiskInv(s.n, s.data, s.journal.(disk := (s.journal.disk + ext)[..|s.journal.cache|]), s.sync, s.z)
  {
    hide Accepted, RawIndex, AttemptInv;
    var disk' := (s.journal.disk + ext)[..|s.journal.cache|];
    if Persisted(s.sync) || Replaying(s.sync) || s.sync.pc.Reopen? {
      assert disk' == s.journal.disk;
    } else {
      assert disk'[0] == s.journal.disk[0];
    }
  }

  lemma CrashInv(s: Db)
    requires Inv(s)
    ensures Inv(DoCrash(s))
  {
    hide MemInv, NewInv, JobInv, SnapInv, DiskInv, FidInv, CtrlInv;
    CrashDisk(s);
  }

  lemma CrashDisk(s: Db)
    requires Shape(s) && DiskInv(s.n, s.data, s.journal, s.sync, s.z)
    ensures var t := DoCrash(s); DiskInv(s.n, t.data, t.journal, t.sync, t.z)
  {
    hide Accepted, RawIndex;
    var t := DoCrash(s);
    if s.z.diskHdr.Some? {
      assert AttemptInv(s.n, s.z.diskHdr.value, t.z);
    }
    if Persisted(s.sync) || Replaying(s.sync) {
      assert JournalWhole(s.n, t.data.disk, t.journal.disk, t.z);
    } else if s.sync.pc.Reopen? {
      if JournalWhole(s.n, s.data.disk, s.journal.disk, s.z) {
        assert JournalWhole(s.n, t.data.disk, t.journal.disk, t.z);
      }
    }
  }

  // ----- recovery

  /** An accepted journal holds the commit of the header on record. */
  lemma AcceptedHeader(n: nat, j: seq<Page>, hdr: Option<Attempt>, z: Snapshots)
    requires |j| >= 1 && z.base < |z.snaps| && Images(n, z.snaps)
    requires HeaderInv(n, j[0], hdr, z) && Accepted(j, n)
    ensures hdr.Some? && hdr.value.c.Valid() && Ids(j) == hdr.value.c.ids && DataPages(j) == hdr.value.c.pages
    ensures AttemptInv(n, hdr.value, z)
  {
    var c := hdr.value.c;
    hide RawIndex, Ids, DataPages, Flat;
    HeaderFields(j[0], c);
    AcceptedIsCommit(j, c, n);
  }

  lemma ReopenInv(s: Db)
    requires Inv(s) && s.sync.pc.Reopen?
    ensures Inv(DoReopen(s))
  {
    hide DiskInv, CacheInv, Accepted, LiveInv;
    var t := DoReopen(s);
    ReopenDisk(s);
  }

  lemma ReopenDisk(s: Db)
    requires Shape(s) && s.sync.pc.Reopen?
    requires DiskInv(s.n, s.data, s.journal, s.sync, s.z)
    ensures var t := DoReopen(s);
      && t.z.durable < |s.z.snaps|
      && DiskInv(s.n, t.data, t.journal, t.sync, t.z)
      && CacheInv(s.n, t.data.cache, t.sync, t.h.snapImage, t.z)
  {
    hide Accepted, RawIndex, Ids, DataPages;
    var t := DoReopen(s);
    if Accepted(s.journal.cache, s.n) {
      AcceptedHeader(s.n, s.journal.cache, s.z.cacheHdr, s.z);
      assert AttemptInv(s.n, s.z.cacheHdr.value, t.z);
      assert JournalWhole(s.n, t.data.disk, t.journal.disk, t.z);
    }
  }

  lemma ReplayInv(s: Db)
    requires Inv(s) && s.sync.pc.ReplayPage? && AtJournalPage(s)
    ensures Inv(DoCopyPage(s))
  {
    hide DiskInv, CacheInv, Ids, DataPages, Accepted, LiveInv, AttemptInv;
    var t := DoCopyPage(s);
    ReplayReads(s);
    AttemptSizes(s.n, s.z.diskHdr.value, s.z);
    CopyDisk(s.n, s.data, t.data, s.journal, s.sync, s.z);
    DiskMove(s.n, t.data, s.journal, s.sync, t.sync, s.z);
    ReplayCache(s, Ids(s.journal.cache)[s.sync.i], DataPages(s.journal.cache)[s.sync.i]);
  }

  /** What recovery reads: the pages of the snapshot that is about to survive. */
  lemma ReplayReads(s: Db)
    requires Shape(s) && Replaying(s.sync) && DiskInv(s.n, s.data, s.journal, s.sync, s.z)
    ensures var j := s.journal.cache;
      && s.z.diskHdr.Some? && s.z.diskHdr.value.snap == s.z.durable && Accepted(j, s.n)
      && AttemptInv(s.n, s.z.diskHdr.value, s.z)
      && Ids(j) == s.z.diskHdr.value.c.ids && DataPages(j) == s.z.diskHdr.value.c.pages
  {
    hide Ids, DataPages, Accepted;
    AcceptedHeader(s.n, s.journal.cache, s.z.cacheHdr, s.z);
  }

  lemma AttemptSizes(n: nat, a: Attempt, z: Snapshots)
    requires z.base < |z.snaps| && Images(n, z.snaps) && AttemptInv(n, a, z)
    ensures |a.c.ids| == |a.c.pages| && Below(a.c.ids, n)
  {
  }

  lemma ReplayCache(s: Db, id: nat, page: Page)
    requires Shape(s) && s.sync.pc.ReplayPage? && s.z.diskHdr.Some? && s.z.diskHdr.value.snap == s.z.durable
    requires AttemptInv(s.n, s.z.diskHdr.value, s.z)
    requires var c := s.z.diskHdr.value.c;
      s.sync.i < |c.ids| && |c.ids| == |c.pages| && id == c.ids[s.sync.i] && page == c.pages[s.sync.i]
    requires CacheInv(s.n, s.data.cache, s.sync, s.h.snapImage, s.z)
    ensures CacheInv(s.n, s.data.cache[id := page], s.sync.(i := s.sync.i + 1), s.h.snapImage, s.z)
  {
    var ids := s.z.diskHdr.value.c.ids;
    var base, image := s.z.snaps[s.z.base], s.z.snaps[s.z.durable];
    assert Copying(s.n, s.data.cache, s.sync.i, ids, base, image);
    assert Copying(s.n, s.data.cache[id := page], s.sync.i + 1, ids, base, image);
  }

  lemma ReplayedInv(s: Db)
    requires Inv(s) && s.sync.pc.ReplayPage? && |s.journal.cache| >= 1 && s.sync.i == NPages(s.journal.cache)
    ensures Inv(Goto(s, ReplaySync))
  {
    hide DiskInv, CacheInv, Ids, DataPages, Accepted, LiveInv, AttemptInv;
    var t := Goto(s, ReplaySync);
    ReplayReads(s);
    AttemptSizes(s.n, s.z.diskHdr.value, s.z);
    DiskMove(s.n, s.data, s.journal, s.sync, t.sync, s.z);
    ReplayedCache(s);
  }

  lemma ReplayedCache(s: Db)
    requires Shape(s) && s.sync.pc.ReplayPage? && s.z.diskHdr.Some? && s.z.diskHdr.value.snap == s.z.durable
    requires AttemptInv(s.n, s.z.diskHdr.value, s.z)
    requires s.sync.i == |s.z.diskHdr.value.c.ids|
    requires CacheInv(s.n, s.data.cache, s.sync, s.h.snapImage, s.z)
    ensures CacheInv(s.n, s.data.cache, s.sync.(pc := ReplaySync), s.h.snapImage, s.z)
  {
    AllCopied(s.n, s.data.cache, s.sync.i, s.z.diskHdr.value.c.ids, s.z.snaps[s.z.base], s.z.snaps[s.z.durable]);
  }

  lemma RSyncInv(s: Db)
    requires Inv(s) && s.sync.pc.ReplaySync?
    ensures Inv(DoReplaySync(s))
  {
    hide DiskInv, CacheInv, LiveInv;
    ReplaySyncCache(s.n, s.data.cache, s.sync, s.h.snapImage, s.z);
    DataSyncDisk(s);
  }

  lemma ReplaySyncCache(n: nat, cache: seq<Page>, y: Sync, image: Image, z: Snapshots)
    requires |cache| == |image| == n && z.base < |z.snaps| && z.durable < |z.snaps| && Images(n, z.snaps)
    requires y.pc.ReplaySync? && CacheInv(n, cache, y, image, z)
    ensures cache == z.snaps[z.durable]
    ensures CacheInv(n, cache, y.(pc := ReopenTruncate), image, z.(base := z.durable))
  {
  }

  lemma RTruncateInv(s: Db)
    requires Inv(s) && s.sync.pc.ReopenTruncate? && |s.journal.cache| >= 1
    ensures Inv(DoReopenTruncate(s))
  {
    hide DiskInv, CacheInv, LiveInv;
    var t := DoReopenTruncate(s);
    DiskMove(s.n, s.data, s.journal, s.sync, t.sync, s.z);
    JournalTail(s.n, s.data, s.journal, t.journal, t.sync, s.z);
    CacheMove(s.n, s.data.cache, s.sync, t.sync, s.h.snapImage, s.h.snapImage, s.z);
  }

  lemma ROpenMapInv(s: Db)
    requires Inv(s) && s.sync.pc.OpenMap?
    ensures Inv(DoOpenMap(s))
  {
    hide DiskInv, CacheInv, MemInv, NewInv, JobInv, SnapInv, FidInv, CtrlInv;
    var t := DoOpenMap(s);
    DiskMove(s.n, s.data, s.journal, s.sync, t.sync, s.z);
    OpenMapCache(s);
    CacheMove(s.n, s.data.cache, s.sync, t.sync, s.h.snapImage, t.h.snapImage, s.z);
    OpenMapLive(s.n, s.data.cache, t.sync, s.z);
    JobIdle(s.n, map[], t.sync, s.journal.cache, t.h.snapImage, s.z);
  }

  lemma OpenMapCache(s: Db)
    requires Shape(s) && s.sync.pc.OpenMap?
    requires CacheInv(s.n, s.data.cache, s.sync, s.h.snapImage, s.z)
    requires DiskInv(s.n, s.data, s.journal, s.sync, s.z)
    ensures s.data.cache == s.data.disk == s.z.snaps[s.z.durable] && s.z.durable == s.z.base
  {
  }

  lemma OpenMapLive(n: nat, cache: seq<Page>, y: Sync, z: Snapshots)
    requires |cache| == n && z.base < |z.snaps| && z.durable < |z.snaps| && Images(n, z.snaps)
    requires cache == z.snaps[z.durable] && z.durable == z.base
    requires y.pc.Consume?
    ensures var h := Session([cache], cache, 0, 0, 0);
      && MemInv(n, NO_MEM, cache, y, h) && NewInv(n, NO_MEM, y, cache) && SnapInv(n, NO_MEM, y, h, z)
      && CtrlInv(NO_CTRL, y) && FidInv(NO_CTRL, y, h, NO_WAITERS)
  {
    assert Memory(NO_MEM, cache) == cache;
    assert NO_MEM.writable == Open(NO_MEM, y);
  }
}
