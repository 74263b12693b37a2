/** The inductive invariant of the commit protocol, in parts: what memory holds, what the journal loop has
    written, what the disk holds, who waits for what. Each part names the pieces of state it speaks of. */
module AcidInvariant {
  import opened AcidJournal
  import opened AcidProtocol

  // ----- phases of the sync thread

  /** The last snapshot (or the recovered image) is the one in the data file. */
  predicate Settled(y: Sync) {
    || y.pc.Consume? || y.pc.AboutToWait? || y.pc.Asleep? || y.pc.TakeIlock? || y.pc.Protect? || y.pc.WakeIdle?
    || ((y.pc.Section? || y.pc.WakeSnap?) && !y.hasChanges)
    || y.pc.TruncateEnd? || y.pc.EndSync? || y.pc.WakeSync?
  }

  /** The loop that writes the new pages. */
  predicate Looping(y: Sync) {
    y.pc.Check? || y.pc.Lock? || y.pc.CowHashed? || y.pc.MemHashed?
  }

  /** The snapshot is taken and its new pages are indexed, the journal loop has not started. */
  predicate Indexed(y: Sync) {
    ((y.pc.Section? || y.pc.WakeSnap?) && y.hasChanges) || y.pc.Truncate?
  }

  /** A snapshot was taken that is not known to be durable. */
  predicate Pending(y: Sync) {
    y.pc.Swap? || Indexed(y) || Looping(y) || y.pc.JournalSync?
  }

  /** The snapshot is durable in the journal, the data file is not synced. */
  predicate Persisted(y: Sync) {
    y.pc.Detach? || y.pc.WakeCommit? || y.pc.DataCommit? || y.pc.Remap? || y.pc.DataSync?
  }

  predicate Replaying(y: Sync) {
    y.pc.ReplayPage? || y.pc.ReplaySync?
  }

  /** The new page index has entries. */
  predicate NewLive(y: Sync) {
    Indexed(y) || Looping(y) || y.pc.JournalSync? || y.pc.Detach?
  }

  /** The list of page ids is set up. */
  predicate HasIds(y: Sync) {
    Looping(y) || y.pc.JournalSync? || Persisted(y)
  }

  /** The sync thread runs a commit that has changes and has taken its wait fibers. */
  predicate InSync(y: Sync) {
    || (y.pc.WakeSnap? && y.hasChanges) || y.pc.Truncate? || Looping(y) || y.pc.JournalSync? || Persisted(y)
    || y.pc.TruncateEnd? || y.pc.EndSync?
  }

  /** The sync thread holds wait fibers it still has to cancel. */
  predicate Taken(y: Sync) {
    y.pc.WakeSnap? || y.pc.WakeIdle? || InSync(y) || y.pc.WakeSync?
  }

  /** The cached data file matches the base snapshot. */
  predicate Clean(y: Sync) {
    Settled(y) || Pending(y) || y.pc.Detach? || y.pc.WakeCommit? || y.pc.ReopenTruncate? || y.pc.OpenMap?
  }

  // ----- the parts

  ghost predicate Images(n: nat, images: seq<Image>) {
    forall k | 0 <= k < |images| :: |images[k]| == n
  }

  ghost predicate Shape(s: Db) {
    && 1 <= s.n <= MAX_PAGES && s.addr < MAX64 && s.rev < MAX64
    && |s.data.cache| == |s.data.disk| == s.n
    && |s.journal.cache| >= 1 && |s.journal.disk| >= 1
    && s.z.base < |s.z.snaps| && s.z.durable < |s.z.snaps| && Images(s.n, s.z.snaps)
    && |s.h.snapImage| == s.n
  }

  ghost predicate Bounded(n: nat, m: Mem) {
    && (forall p | p in m.priv :: p < n)
    && (forall p | p in m.writable :: p < n)
    && (forall p | p in m.dpages :: p < n)
    && (forall p | p in m.npages :: p < n)
    && ((m.ilock.Copied? || m.ilock.Mapped?) ==> m.ilock.page < n)
  }

  /** Pages that may be stored to: dirty ones, and the one a fault handler is about to index. */
  function Open(m: Mem, y: Sync): set<nat> {
    if y.pc.Swap? then {} else m.dpages + (if m.ilock.Mapped? then {m.ilock.page} else {})
  }

  ghost predicate MemInv(n: nat, m: Mem, cache: seq<Page>, y: Sync, h: Session)
    requires |cache| == n && |h.snapImage| == n
  {
    && Bounded(n, m)
    && m.writable == Open(m, y)
    && h.snapStores < |h.stores|
    && h.stores[|h.stores| - 1] == Memory(m, cache)
    && h.stores[h.snapStores] == h.snapImage
    && (m.writable == {} ==> h.snapStores == |h.stores| - 1)
    && (forall p | 0 <= p < n && p !in m.writable :: PageAt(m, cache, p) == h.snapImage[p])
    && (forall p | 0 <= p < n && p !in m.priv :: cache[p] == h.snapImage[p])
    && (m.ilock.SyncHolds? <==> y.pc.Protect? || y.pc.Swap? || y.pc.Section?)
    && (y.pc.Section? ==> m.dpages == {})
    && (y.pc.Protect? || y.pc.Swap? ==> m.dpages != {} && y.hasChanges)
  }

  /** A new page is buffered in the journal, or copied, or still write protected. */
  ghost predicate NewPageInv(m: Mem, image: Image, p: nat)
    requires p in m.npages && p < |image|
  {
    var e := m.npages[p];
    && (e.cow.Some? ==> e.cow.value == image[p])
    && (!e.jbuffered && e.cow.None? ==> p !in m.writable && m.ilock != Copied(p))
  }

  ghost predicate NewInv(n: nat, m: Mem, y: Sync, image: Image)
    requires |image| == n
  {
    && Bounded(n, m)
    && (NewLive(y) <==> m.npages != map[])
    && (forall p | p in m.npages :: NewPageInv(m, image, p))
  }

  ghost predicate IdsInv(n: nat, npages: map<nat, NewPage>, y: Sync) {
    && 1 <= |y.ids| <= n && Ascending(y.ids) && Below(y.ids, n)
    && (NewLive(y) ==> Lists(y.ids, npages.Keys))
  }

  function Done(y: Sync): nat {
    if y.pc.CowHashed? || y.pc.MemHashed? then y.i + 1 else y.i
  }

  /** Pages up to `Done` are hashed, pages up to i are in the journal. */
  ghost predicate LoopInv(n: nat, y: Sync, jcache: seq<Page>, image: Image)
    requires |image| == n && Below(y.ids, n)
  {
    && Done(y) <= |y.ids|
    && (y.pc.Lock? ==> y.i < |y.ids|)
    && |jcache| == IndexPages(|y.ids|) + |y.ids|
    && |y.hashed| == Done(y)
    && (forall k | 0 <= k < Done(y) :: y.hashed[k] == image[y.ids[k]])
    && (forall k | 0 <= k < y.i :: jcache[IndexPages(|y.ids|) + k] == y.hashed[k])
  }

  /** Pages from i on are not buffered; the one being written is, or is not, copied. */
  ghost predicate TodoInv(npages: map<nat, NewPage>, y: Sync)
    requires Done(y) <= |y.ids|
  {
    && (forall k | y.i <= k < |y.ids| && y.ids[k] in npages :: !npages[y.ids[k]].jbuffered)
    && (y.pc.CowHashed? && y.ids[y.i] in npages ==> npages[y.ids[y.i]].cow.Some?)
    && (y.pc.MemHashed? && y.ids[y.i] in npages ==> npages[y.ids[y.i]].cow.None?)
  }

  /** The journal in the page cache is the finished journal of the snapshot, under the header on record. */
  ghost predicate WrittenInv(n: nat, y: Sync, jcache: seq<Page>, image: Image, z: Snapshots)
    requires |image| == n && Below(y.ids, n)
  {
    && z.cacheHdr.Some?
    && var c := z.cacheHdr.value.c;
      && c.Valid() && Complete(jcache, c)
      && z.cacheHdr.value.snap == |z.snaps| - 1
      && c.ids == y.ids
      && (forall k | 0 <= k < |c.ids| :: c.pages[k] == image[c.ids[k]])
  }

  ghost predicate JobInv(n: nat, npages: map<nat, NewPage>, y: Sync, jcache: seq<Page>, image: Image, z: Snapshots)
    requires |image| == n
  {
    && (Indexed(y) ==> forall p | p in npages :: !npages[p].jbuffered)
    && (HasIds(y) ==> IdsInv(n, npages, y))
    && (Looping(y) ==> LoopInv(n, y, jcache, image) && TodoInv(npages, y))
    && (y.pc.JournalSync? || Persisted(y) ==> WrittenInv(n, y, jcache, image, z))
  }

  /** Pages in which the last snapshot may differ from the data file. */
  predicate Changed(m: Mem, y: Sync, p: nat) {
    if y.pc.Swap? then p in m.dpages
    else if HasIds(y) then p in y.ids
    else p in m.npages
  }

  ghost predicate SnapInv(n: nat, m: Mem, y: Sync, h: Session, z: Snapshots)
    requires |h.snapImage| == n && z.base < |z.snaps| && z.durable < |z.snaps| && Images(n, z.snaps)
  {
    && h.durStores < |h.stores| && h.baseStores < |h.stores|
    && h.stores[h.durStores] == z.snaps[z.durable]
    && h.stores[h.baseStores] == z.snaps[z.base]
    && (Settled(y) ==> z.durable == z.base && z.snaps[z.base] == h.snapImage
                       && h.durStores == h.snapStores == h.baseStores)
    && (Pending(y) ==> z.durable == z.base && h.durStores == h.baseStores)
    && (Persisted(y) ==> z.durable == |z.snaps| - 1 && h.durStores == h.snapStores)
    && h.baseStores <= h.durStores <= h.snapStores
    && (Pending(y) || Persisted(y) ==>
          && z.snaps[|z.snaps| - 1] == h.snapImage
          && (forall p | 0 <= p < n && !Changed(m, y, p) :: z.snaps[z.base][p] == h.snapImage[p]))
  }

  /** A header that may be read back after a crash belongs to a commit whose pages turn the data file into
      one whole snapshot, not older than the durable one. */
  ghost predicate AttemptInv(n: nat, a: Attempt, z: Snapshots)
    requires z.base < |z.snaps| && Images(n, z.snaps)
  {
    && a.c.Valid() && 1 <= |a.c.ids| && Below(a.c.ids, n) && Ascending(a.c.ids)
    && z.durable <= a.snap < |z.snaps|
    && (forall k | 0 <= k < |a.c.ids| :: a.c.pages[k] == z.snaps[a.snap][a.c.ids[k]])
    && (forall p | 0 <= p < n && p !in a.c.ids :: z.snaps[z.base][p] == z.snaps[a.snap][p])
  }

  ghost predicate HeaderInv(n: nat, page: Page, hdr: Option<Attempt>, z: Snapshots)
    requires z.base < |z.snaps| && Images(n, z.snaps)
  {
    && (hdr.None? ==> Read64(page, 5) != MAGIC)
    && (hdr.Some? ==> AttemptInv(n, hdr.value, z)
                      && page[..HEADER_WORDS] == RawIndex(hdr.value.c)[..HEADER_WORDS])
  }

  /** The data file on disk is the durable snapshot. */
  ghost predicate DataWhole(disk: seq<Page>, z: Snapshots)
    requires z.base < |z.snaps|
  {
    z.durable == z.base && disk == z.snaps[z.base]
  }

  /** The journal on disk is complete and the data file differs from the base snapshot in its pages only. */
  ghost predicate JournalWhole(n: nat, disk: seq<Page>, jdisk: seq<Page>, z: Snapshots)
    requires |disk| == n && |jdisk| >= 1 && z.base < |z.snaps| && Images(n, z.snaps)
  {
    && z.diskHdr.Some?
    && z.diskHdr.value.snap == z.durable
    && Accepted(jdisk, n)
    && (forall p | 0 <= p < n && p !in z.diskHdr.value.c.ids :: disk[p] == z.snaps[z.base][p])
  }

  ghost predicate DiskInv(n: nat, data: File, journal: File, y: Sync, z: Snapshots)
    requires |data.disk| == n && |journal.cache| >= 1 && |journal.disk| >= 1
    requires z.base < |z.snaps| && Images(n, z.snaps)
  {
    && HeaderInv(n, journal.cache[0], z.cacheHdr, z)
    && HeaderInv(n, journal.disk[0], z.diskHdr, z)
    && (Persisted(y) || Replaying(y) ==>
          JournalWhole(n, data.disk, journal.disk, z) && journal.cache == journal.disk && z.cacheHdr == z.diskHdr)
    && (y.pc.Reopen? ==>
          && (DataWhole(data.disk, z) || JournalWhole(n, data.disk, journal.disk, z))
          && journal.cache == journal.disk && z.cacheHdr == z.diskHdr && data.cache == data.disk)
    && (!Persisted(y) && !Replaying(y) && !y.pc.Reopen? ==> DataWhole(data.disk, z))
  }

  /** The first i pages are copied to the cached data file, pages that are not listed are as in the base. */
  ghost predicate Copying(n: nat, cache: seq<Page>, i: nat, ids: seq<nat>, base: Image, image: Image)
    requires |cache| == |base| == |image| == n
  {
    && i <= |ids|
    && (forall k | 0 <= k < i :: ids[k] < n && cache[ids[k]] == image[ids[k]])
    && (forall p | 0 <= p < n && p !in ids :: cache[p] == base[p])
  }

  ghost predicate CacheInv(n: nat, cache: seq<Page>, y: Sync, image: Image, z: Snapshots)
    requires |cache| == |image| == n && z.base < |z.snaps| && z.durable < |z.snaps| && Images(n, z.snaps)
  {
    && (Clean(y) ==> cache == z.snaps[z.base])
    && (y.pc.DataCommit? ==> Copying(n, cache, y.i, y.ids, z.snaps[z.base], image))
    && (y.pc.Remap? ==> cache == image && y.i <= |y.ids|)
    && (y.pc.DataSync? ==> cache == image)
    && (y.pc.ReplayPage? ==>
          z.diskHdr.Some? && Copying(n, cache, y.i, z.diskHdr.value.c.ids, z.snaps[z.base], z.snaps[z.durable]))
    && (y.pc.ReplaySync? ==> cache == z.snaps[z.durable])
  }

  ghost predicate CtrlInv(c: Ctrl, y: Sync) {
    && (c.fids != NO_FIDS ==> c.op.OpCommit?)
    && (y.pc.AboutToWait? && c.op.OpCommit? ==> c.futex || c.toSet > 0)
    && (y.pc.Asleep? && c.op.OpCommit? ==> c.toSet > 0 || c.toWake > 0)
    && (c.inSyncPhase <==> InSync(y))
  }

  /** Fiber f exists, and its last waiter registered after at most k writes. */
  ghost predicate Covered(c: Ctrl, w: Waiters, f: nat, k: int) {
    f != 0 ==> f < c.nextFid && f in w.regs && w.regs[f] <= k
  }

  /** A registered fiber was not taken or cancelled before. */
  ghost predicate Unused(y: Sync, w: Waiters, f: nat) {
    f != 0 ==>
      && f !in w.snap && f !in w.commit && f !in w.sync
      && (Taken(y) ==> f != y.fids.snap && f != y.fids.commit && f != y.fids.sync)
  }

  ghost predicate Registered(c: Ctrl, y: Sync, h: Session, w: Waiters, f: nat) {
    Covered(c, w, f, |h.stores| - 1) && Unused(y, w, f)
  }

  ghost predicate FidInv(c: Ctrl, y: Sync, h: Session, w: Waiters) {
    && c.nextFid >= 1
    && Registered(c, y, h, w, c.fids.snap)
    && Registered(c, y, h, w, c.fids.commit)
    && Registered(c, y, h, w, c.fids.sync)
    && (Taken(y) ==> && Covered(c, w, y.fids.snap, h.snapStores)
                     && Covered(c, w, y.fids.commit, h.snapStores)
                     && Covered(c, w, y.fids.sync, h.snapStores))
    && (forall f | f in w.snap :: Covered(c, w, f, h.snapStores))
    && (forall f | f in w.commit :: Covered(c, w, f, h.durStores))
    && (forall f | f in w.sync :: Covered(c, w, f, h.baseStores))
  }

  /** What holds while a session runs. */
  ghost predicate LiveInv(s: Db)
    requires Shape(s)
  {
    && MemInv(s.n, s.mem, s.data.cache, s.sync, s.h)
    && NewInv(s.n, s.mem, s.sync, s.h.snapImage)
    && JobInv(s.n, s.mem.npages, s.sync, s.journal.cache, s.h.snapImage, s.z)
    && SnapInv(s.n, s.mem, s.sync, s.h, s.z)
    && CtrlInv(s.ctrl, s.sync)
    && FidInv(s.ctrl, s.sync, s.h, s.w)
  }

  ghost predicate Inv(s: Db) {
    && Shape(s)
    && DiskInv(s.n, s.data, s.journal, s.sync, s.z)
    && CacheInv(s.n, s.data.cache, s.sync, s.h.snapImage, s.z)
    && (Running(s) ==> LiveInv(s))
  }
}
