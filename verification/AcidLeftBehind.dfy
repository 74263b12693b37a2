/** A run at whose end a commit comes back that an earlier opening of the database had rejected. */
module AcidLeftBehind {
  import opened AcidJournal
  import opened AcidProtocol
  import opened AcidTheorems
  import opened AcidOutcome

  // ----- runs, one after the other

  ghost predicate Leads(s: Db, t: Db) {
    exists run :: Possible(s, run) && After(s, run) == t
  }

  lemma LeadsBy(s: Db, a: Step)
    requires Enabled(s, a)
    ensures Leads(s, Do(s, a))
  {
    hide Enabled, Do;
    var t := Do(s, a);
    assert Possible(t, []) && After(t, []) == t;
    assert [a][0] == a && [a][1..] == [];
    assert Possible(s, [a]) && After(s, [a]) == t;
  }

  lemma {:induction false} RunOn(s: Db, run: seq<Step>, more: seq<Step>)
    requires Possible(s, run) && Possible(After(s, run), more)
    ensures Possible(s, run + more) && After(s, run + more) == After(After(s, run), more)
    decreases |run|
  {
    hide Enabled, Do;
    if run == [] {
      assert run + more == more;
    } else {
      RunOn(Do(s, run[0]), run[1..], more);
      assert (run + more)[1..] == run[1..] + more;
    }
  }

  lemma LeadsOn(s: Db, t: Db, u: Db)
    requires Leads(s, t) && Leads(t, u)
    ensures Leads(s, u)
  {
    hide After, Possible;
    var run :| Possible(s, run) && After(s, run) == t;
    var more :| Possible(t, more) && After(t, more) == u;
    RunOn(s, run, more);
  }

  lemma ThenBy(s: Db, t: Db, a: Step)
    requires Leads(s, t) && Enabled(t, a)
    ensures Leads(s, Do(t, a))
  {
    hide Leads, Enabled, Do;
    LeadsBy(t, a);
    LeadsOn(s, t, Do(t, a));
  }

  // ----- one session, step by step

  /** A database is opened whose journal is rejected. */
  lemma Opens(s: Db) returns (t: Db)
    requires s.sync.pc.Reopen? && |s.journal.cache| >= 1 && !Accepted(s.journal.cache, s.n)
    ensures Leads(s, t)
    ensures t == s.(rev := Read64(s.journal.cache[0], 7) % MAX64,
                    mem := NO_MEM, ctrl := NO_CTRL, sync := NO_SYNC.(pc := Consume),
                    journal := s.journal.(cache := s.journal.cache[..1]),
                    h := Session([s.data.cache], s.data.cache, 0, 0, 0), w := NO_WAITERS,
                    z := s.z.(openings := s.z.openings + 1, atOpen := |s.z.snaps|))
  {
    hide Leads, Accepted, Memory;
    LeadsBy(s, RReopen);
    t := Do(s, RReopen);
    t := OpensRest(s, t);
  }

  lemma OpensRest(s: Db, r: Db) returns (t: Db)
    requires Leads(s, r) && r.sync.pc.ReopenTruncate? && |r.journal.cache| >= 1
    ensures Leads(s, t)
    ensures t == r.(mem := NO_MEM, ctrl := NO_CTRL, sync := NO_SYNC.(pc := Consume),
                    journal := r.journal.(cache := r.journal.cache[..1]),
                    h := Session([r.data.cache], r.data.cache, 0, 0, 0), w := NO_WAITERS)
  {
    hide Leads, Memory;
    ThenBy(s, r, RTruncate);
    t := Do(r, RTruncate);
    ThenBy(s, t, ROpenMap);
    t := Do(t, ROpenMap);
  }

  /** The program writes to page p. */
  lemma Writes(s: Db, p: nat, v: Page) returns (t: Db)
    requires s.sync.pc.Consume? && s.mem == NO_MEM && p < s.n == |s.data.cache| && s.h.stores != []
    ensures Leads(s, t)
    ensures t == s.(mem := Mem(map[p := v], {p}, {p}, map[], Free),
                    h := s.h.(stores := s.h.stores + [s.data.cache[p := v]]))
  {
    hide Leads, Memory;
    LeadsBy(s, FaultCopy(p));
    t := Do(s, FaultCopy(p));
    ThenBy(s, t, FaultMap(false));
    t := Do(t, FaultMap(false));
    ThenBy(s, t, FaultIndex);
    t := Do(t, FaultIndex);
    var m := Mem(map[p := v], {p}, {p}, map[], Free);
    assert t == s.(mem := m.(priv := map[]));
    ThenBy(s, t, Store(p, v));
    t := Do(t, Store(p, v));
    OnePage(m, s.data.cache, p, v);
  }

  lemma OnePage(m: Mem, cache: seq<Page>, p: nat, v: Page)
    requires m.priv == map[p := v] && p < |cache|
    ensures Memory(m, cache) == cache[p := v]
  {
  }

  /** It asks for a commit, and the sync thread takes the snapshot. */
  lemma Snaps(s: Db, p: nat, v: Page) returns (t: Db)
    requires s.sync == NO_SYNC.(pc := Consume) && s.ctrl == NO_CTRL && s.h.stores != []
    requires s.mem == Mem(map[p := v], {p}, {p}, map[], Free) && p < |s.data.cache|
    ensures Leads(s, t)
    ensures t == s.(mem := Mem(map[p := v], {}, {p}, map[], SyncHolds), ctrl := t.ctrl, w := t.w,
                    h := t.h, z := s.z.(snaps := s.z.snaps + [s.data.cache[p := v]]),
                    sync := NO_SYNC.(pc := Swap, hasChanges := true))
    ensures t.h.stores == s.h.stores
  {
    hide Leads, Memory;
    LeadsBy(s, Fsync);
    t := Do(s, Fsync);
    ThenBy(s, t, SConsume);
    t := Do(t, SConsume);
    assert t.sync == NO_SYNC.(pc := TakeIlock);
    ThenBy(s, t, STakeIlock);
    t := Do(t, STakeIlock);
    assert p in t.mem.dpages;
    OnePage(t.mem, s.data.cache, p, v);
    ThenBy(s, t, SProtect);
    t := Do(t, SProtect);
  }

  /** The sync thread indexes the page, and releases those who wait for the snapshot. */
  lemma Indexes(s: Db, p: nat) returns (t: Db)
    requires s.sync == NO_SYNC.(pc := Swap, hasChanges := true) && s.mem.dpages == {p}
    ensures Leads(s, t)
    ensures t == s.(mem := s.mem.(npages := map[p := NewPage(false, None)], dpages := {}, ilock := Free),
                    ctrl := t.ctrl, w := t.w, sync := t.sync)
    ensures t.sync == NO_SYNC.(pc := Truncate, hasChanges := true, fids := t.sync.fids)
  {
    hide Leads, Memory;
    LeadsBy(s, SSwap);
    t := Do(s, SSwap);
    assert t.mem.npages == map[p := NewPage(false, None)];
    ThenBy(s, t, SSection);
    t := Do(t, SSection);
    ThenBy(s, t, SWakeSnap);
    t := Do(t, SWakeSnap);
  }

  /** It makes the journal as long as it must be. */
  lemma Lengthens(s: Db, p: nat) returns (t: Db)
    requires s.sync == NO_SYNC.(pc := Truncate, hasChanges := true, fids := s.sync.fids)
    requires s.mem.npages == map[p := NewPage(false, None)]
    ensures Leads(s, t)
    ensures t == s.(journal := s.journal.(cache := Resize(s.journal.cache, 2)),
                    sync := Sync(Check, true, s.sync.fids, [p], 0, []))
  {
    hide Leads, Memory, Resize;
    assert [p][0] == p;
    assert s.mem.npages.Keys == {p};
    LeadsBy(s, STruncate([p]));
    t := Do(s, STruncate([p]));
  }

  /** It writes the page to the journal. */
  lemma Buffers(s: Db, p: nat, v: Page) returns (t: Db)
    requires s.sync == Sync(Check, true, s.sync.fids, [p], 0, []) && s.mem.npages == map[p := NewPage(false, None)]
    requires p < |s.data.cache| && s.mem.priv == map[p := v] && |s.journal.cache| == 2
    ensures Leads(s, t)
    ensures t == s.(mem := t.mem, sync := t.sync, journal := s.journal.(cache := s.journal.cache[1 := v]))
    ensures t.sync == Sync(Check, true, s.sync.fids, [p], 1, [v])
  {
    hide Leads, Memory;
    LeadsBy(s, SCheck);
    t := Do(s, SCheck);
    ThenBy(s, t, SLock);
    t := Do(t, SLock);
    ThenBy(s, t, SMemWrite);
    t := Do(t, SMemWrite);
  }

  /** All of it: from an opening whose journal is rejected to the instant before the index is written. */
  lemma Works(s: Db, p: nat, v: Page) returns (t: Db)
    requires s.sync.pc.Reopen? && |s.journal.cache| == 1 && !Accepted(s.journal.cache, s.n)
    requires p < s.n == |s.data.cache|
    ensures Leads(s, t)
    ensures t.n == s.n && t.addr == s.addr && t.rev == Read64(s.journal.cache[0], 7) % MAX64 && t.data == s.data
    ensures t.sync == Sync(Check, true, t.sync.fids, [p], 1, [v])
    ensures t.journal == File([s.journal.cache[0], v], s.journal.disk)
    ensures t.h.stores == [s.data.cache, s.data.cache[p := v]]
    ensures t.z == s.z.(openings := s.z.openings + 1, atOpen := |s.z.snaps|,
                        snaps := s.z.snaps + [s.data.cache[p := v]])
  {
    hide Leads, Accepted, Memory;
    t := Opens(s);
    var u := Writes(t, p, v);
    LeadsOn(s, t, u);
    t := Snaps(u, p, v);
    LeadsOn(s, u, t);
    u := Indexes(t, p);
    LeadsOn(s, t, u);
    t := Lengthens(u, p);
    LeadsOn(s, u, t);
    u := Buffers(t, p, v);
    LeadsOn(s, t, u);
    t := u;
  }

  // ----- the witness

  function Marked(): Page {
    seq(PAGE_WORDS, _ => Bits(1))
  }

  /** The commit of a session that changed page 0 only. */
  function First(): Commit {
    Commit(0, 0, [0], [Marked()])
  }

  /** Two blank pages; the first session marks page 0, and crashes when only the header of its commit is on disk. */
  lemma Begins() returns (r: Db)
    ensures Leads(Init([Blank(), Blank()], 0), r) && r.sync.pc.Reopen? && r.n == 2
    ensures r.data == File([Blank(), Blank()], [Blank(), Blank()])
    ensures First().Valid() && |RawIndex(First())| == 17
    ensures var j := [WriteStart([Blank(), Marked()], RawIndex(First()))[0]]; r.journal == File(j, j)
    ensures r.z == Snapshots([[Blank(), Blank()], [Marked(), Blank()]], 0, 0,
                             Some(Attempt(First(), 1, 1)), Some(Attempt(First(), 1, 1)), 1, 1)
  {
    hide Leads, Accepted, WriteStart, RawIndex;
    var s := Init([Blank(), Blank()], 0);
    assert !Accepted(s.journal.cache, 2) by { BlankRejected(); }
    var t := Works(s, 0, Marked());
    assert [Blank(), Blank()][0 := Marked()] == [Marked(), Blank()];
    assert TheCommit(t) == First();
    assert t.journal.cache == [Blank(), Marked()];
    r := Crashes(s, t);
  }

  lemma BlankRejected()
    ensures !Accepted([Blank()], 2)
  {
  }

  /** The index is written, the kernel writes back the page it is on, and the system crashes. */
  lemma Crashes(s: Db, t: Db) returns (r: Db)
    requires Leads(s, t) && Enabled(t, SWriteIndex) && |t.journal.disk| == 1
    ensures Leads(s, r)
    ensures var j := [WriteStart(t.journal.cache, RawIndex(TheCommit(t)))[0]];
            var a := Some(Attempt(TheCommit(t), |t.z.snaps| - 1, t.z.openings));
      r == t.(mem := NO_MEM, ctrl := NO_CTRL, sync := NO_SYNC, data := File(t.data.disk, t.data.disk),
              journal := File(j, j), z := t.z.(cacheHdr := a, diskHdr := a))
  {
    hide Leads, RawIndex, WriteStart;
    ThenBy(s, t, SWriteIndex);
    r := Do(t, SWriteIndex);
    ThenBy(s, r, WritebackJournal(0));
    r := Do(r, WritebackJournal(0));
    ThenBy(s, r, Crash);
    r := Do(r, Crash);
  }

  lemma FirstIsComplete()
    ensures First().Valid() && |RawIndex(First())| == 17
    ensures var w := WriteStart([Blank(), Marked()], RawIndex(First()));
      && w[1] == Marked() && Complete(w, First()) && Read64(w[0], 7) == 0
      && w[0][..HEADER_WORDS] == RawIndex(First())[..HEADER_WORDS]
  {
    hide RawIndex, Complete;
    var j, c := [Blank(), Marked()], First();
    assert j[1..] == c.pages;
    WriteIndexCompletes(j, c);
    var w := WriteStart(j, RawIndex(c));
    CompleteHeader(w, c);
    CompleteAccepted(w, c, 2);
    assert w[1] == Marked();
  }

  /** The kernel writes back the length of the journal, and its second page. */
  lemma WritesBack(s: Db, t: Db) returns (u: Db)
    requires Leads(s, t) && |t.journal.cache| == 2 && |t.journal.disk| == 1
    ensures Leads(s, u)
    ensures u == t.(journal := t.journal.(disk := [t.journal.disk[0], t.journal.cache[1]]))
  {
    hide Leads;
    ThenBy(s, t, WritebackLength([Blank()]));
    u := Do(t, WritebackLength([Blank()]));
    assert u.journal.disk == [t.journal.disk[0], Blank()];
    ThenBy(s, u, WritebackJournal(1));
    u := Do(u, WritebackJournal(1));
  }

  lemma Replays()
    ensures Replay([Blank(), Blank()], [0], [Marked()]) == [Marked(), Blank()]
  {
    assert Replay([Blank(), Blank()], [], []) == [Blank(), Blank()];
  }

  /** The journal is rejected. The second session marks page 1; when its page is in the journal, but its index is
      not, what is on disk is the complete journal of the first. */
  lemma LeftBehindHappens() returns (r: Db, u: Db)
    ensures Leads(Init([Blank(), Blank()], 0), r) && Leads(r, u)
    ensures Enabled(r, RReopen) && r.z.diskHdr.Some? && !Accepted(r.journal.cache, r.n)
    ensures |u.journal.disk| >= 1 && u.z.snaps != [] && u.z.diskHdr == r.z.diskHdr && LeftBehind(u)
    ensures Recovered(u.data.disk, u.journal.disk) == [Marked(), Blank()]
    ensures u.z.durable == 0 && u.z.snaps[0] == [Blank(), Blank()]
    ensures u.h.stores == [[Blank(), Blank()], [Blank(), Marked()]]
  {
    hide Leads, Accepted, WriteStart, RawIndex, Complete;
    r := Begins();
    var w := WriteStart([Blank(), Marked()], RawIndex(First()));
    FirstIsComplete();
    TruncatedRejected(r.journal.cache, First(), 2);
    var t := Works(r, 1, Marked());
    assert [Blank(), Blank()][1 := Marked()] == [Blank(), Marked()];
    u := WritesBack(r, t);
    assert u.journal.disk == w;
    CompleteAccepted(w, First(), 2);
    hide LeftBehind;
    Replays();
  }
}
