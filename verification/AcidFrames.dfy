/** How the parts of the invariant carry over when only some of their inputs change. */
module AcidFrames {
  import opened AcidJournal
  import opened AcidProtocol
  import opened AcidInvariant

  lemma MemMove(n: nat, m: Mem, cache: seq<Page>, y: Sync, y': Sync, h: Session)
    requires |cache| == n && |h.snapImage| == n && MemInv(n, m, cache, y, h)
    requires y.pc.Swap? <==> y'.pc.Swap?
    requires y.pc.Protect? <==> y'.pc.Protect?
    requires y.pc.Section? <==> y'.pc.Section?
    requires y.hasChanges == y'.hasChanges
    ensures MemInv(n, m, cache, y', h)
  {
    assert Open(m, y) == Open(m, y');
  }

  lemma NewMove(n: nat, m: Mem, y: Sync, y': Sync, image: Image)
    requires |image| == n && NewInv(n, m, y, image)
    requires NewLive(y) <==> NewLive(y')
    ensures NewInv(n, m, y', image)
  {
  }

  lemma JobMove(n: nat, npages: map<nat, NewPage>, y: Sync, y': Sync, jcache: seq<Page>, image: Image, z: Snapshots)
    requires |image| == n && JobInv(n, npages, y, jcache, image, z)
    requires HasIds(y') ==> HasIds(y) && y.ids == y'.ids && (NewLive(y') ==> NewLive(y))
    requires !Looping(y') && (Indexed(y') ==> Indexed(y))
    requires y'.pc.JournalSync? || Persisted(y') ==> y.pc.JournalSync? || Persisted(y)
    ensures JobInv(n, npages, y', jcache, image, z)
  {
  }

  /** Outside a commit there is no job. */
  lemma JobIdle(n: nat, npages: map<nat, NewPage>, y: Sync, jcache: seq<Page>, image: Image, z: Snapshots)
    requires |image| == n && !HasIds(y) && !Indexed(y)
    ensures JobInv(n, npages, y, jcache, image, z)
  {
  }

  lemma SnapMove(n: nat, m: Mem, m': Mem, y: Sync, y': Sync, h: Session, z: Snapshots)
    requires |h.snapImage| == n && z.base < |z.snaps| && z.durable < |z.snaps| && Images(n, z.snaps)
    requires SnapInv(n, m, y, h, z)
    requires Settled(y') ==> Settled(y)
    requires Pending(y') ==> Pending(y)
    requires Persisted(y') ==> Persisted(y)
    requires Pending(y') || Persisted(y') ==> forall p | Changed(m, y, p) :: Changed(m', y', p)
    ensures SnapInv(n, m', y', h, z)
  {
  }

  lemma DiskMove(n: nat, data: File, journal: File, y: Sync, y': Sync, z: Snapshots)
    requires |data.disk| == n && |journal.cache| >= 1 && |journal.disk| >= 1
    requires z.base < |z.snaps| && Images(n, z.snaps)
    requires DiskInv(n, data, journal, y, z)
    requires Persisted(y) || Replaying(y) <==> Persisted(y') || Replaying(y')
    requires !y.pc.Reopen? && !y'.pc.Reopen?
    ensures DiskInv(n, data, journal, y', z)
  {
  }

  lemma CacheMove(n: nat, cache: seq<Page>, y: Sync, y': Sync, image: Image, image': Image, z: Snapshots)
    requires |cache| == |image| == |image'| == n
    requires z.base < |z.snaps| && z.durable < |z.snaps| && Images(n, z.snaps)
    requires CacheInv(n, cache, y, image, z)
    requires Clean(y) && Clean(y')
    ensures CacheInv(n, cache, y', image', z)
  {
  }

  lemma FidMove(c: Ctrl, c': Ctrl, y: Sync, y': Sync, h: Session, w: Waiters)
    requires FidInv(c, y, h, w)
    requires c'.fids == c.fids && c'.nextFid == c.nextFid
    requires Taken(y') ==> Taken(y) && y.fids == y'.fids
    ensures FidInv(c', y', h, w)
  {
  }

  /** The session goes on: more stores, later snapshots. */
  lemma FidLater(c: Ctrl, y: Sync, h: Session, h': Session, w: Waiters)
    requires FidInv(c, y, h, w)
    requires |h.stores| <= |h'.stores| && h.snapStores <= h'.snapStores
    requires h.durStores <= h'.durStores && h.baseStores <= h'.baseStores
    ensures FidInv(c, y, h', w)
  {
  }

  /** The header record stays true when snapshots are added, and when the durable and base snapshots stay. */
  lemma HeaderLater(n: nat, page: Page, hdr: Option<Attempt>, z: Snapshots, z': Snapshots)
    requires z.base < |z.snaps| && Images(n, z.snaps) && Images(n, z'.snaps)
    requires HeaderInv(n, page, hdr, z)
    requires z.snaps <= z'.snaps && z'.base == z.base && z'.durable == z.durable
    ensures HeaderInv(n, page, hdr, z')
  {
  }
}
