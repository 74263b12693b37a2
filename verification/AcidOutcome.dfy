/** Which snapshot comes back after a crash: the durable one, the one that was being committed, or one that an
    earlier session gave up. */
module AcidOutcome {
  import opened AcidJournal
  import opened AcidProtocol
  import opened AcidInvariant
  import opened AcidSteps
  import opened AcidDiskSteps
  import opened AcidTheorems

  /** The number of the snapshot that recovery from the disk gives. */
  ghost function Survivor(s: Db): nat
    requires |s.journal.disk| >= 1
  {
    if Accepted(s.journal.disk, s.n) && s.z.diskHdr.Some? then s.z.diskHdr.value.snap else s.z.durable
  }

  /** What comes back is the snapshot of the header on disk if the journal on disk is accepted, and the durable
      one if it is not. */
  lemma RecoveredExactly(s: Db)
    requires Inv(s)
    ensures |s.journal.disk| >= 1 && s.z.durable <= Survivor(s) < |s.z.snaps|
    ensures Recovered(s.data.disk, s.journal.disk) == s.z.snaps[Survivor(s)]
    ensures Accepted(s.journal.disk, s.n) ==> s.z.diskHdr.Some? && Survivor(s) == s.z.diskHdr.value.snap
    ensures !Accepted(s.journal.disk, s.n) ==> Survivor(s) == s.z.durable
  {
    hide LiveInv, CacheInv, Ids, DataPages, Accepted;
    if Accepted(s.journal.disk, s.n) {
      AcceptedHeader(s.n, s.journal.disk, s.z.diskHdr, s.z);
      AcceptedReplays(s, s.z.diskHdr.value);
    }
  }

  /** An accepted journal is, word for word, the complete journal of the commit that its header is of. */
  lemma AcceptedIsComplete(s: Db)
    requires Inv(s) && s.z.diskHdr.Some?
    ensures |s.journal.disk| >= 1 && s.z.diskHdr.value.c.Valid()
    ensures Accepted(s.journal.disk, s.n) <==> Complete(s.journal.disk, s.z.diskHdr.value.c)
  {
    hide LiveInv, CacheInv, Ids, DataPages, Accepted, Complete;
    var j, c := s.journal.disk, s.z.diskHdr.value.c;
    assert AttemptInv(s.n, s.z.diskHdr.value, s.z);
    if Accepted(j, s.n) {
      HeaderFields(j[0], c);
      AcceptedCompletes(j, c, s.n);
    }
    if Complete(j, c) {
      CompleteAccepted(j, c, s.n);
    }
  }

  lemma AcceptedCompletes(j: seq<Page>, c: Commit, nData: nat)
    requires |j| >= 1 && Accepted(j, nData) && c.Valid() && j[0][..HASH_WORDS] == Sha1(Hashed(c))
    ensures Complete(j, c)
  {
    hide Flat, Body;
    AcceptedIsCommit(j, c, nData);
    var ws := IndexWords(j);
    assert Sha1(Flat(DataPages(j)) + ws[HASH_WORDS..])[0] == Sha1(Hashed(c))[0];
    SameTextSameParts(DataPages(j), ws[HASH_WORDS..], c);
    FlatHead(j[..IndexPages(NPages(j))], HASH_WORDS);
    assert ws[..HASH_WORDS] == j[0][..HASH_WORDS];
    assert ws == ws[..HASH_WORDS] + ws[HASH_WORDS..];
  }

  /** A crash and the check at the next opening make that snapshot the durable one. */
  lemma ReopenTakes(s: Db)
    requires Inv(s)
    ensures Enabled(s, Crash) && Enabled(Do(s, Crash), RReopen)
    ensures |s.journal.disk| >= 1 && Do(Do(s, Crash), RReopen).z.durable == Survivor(s)
  {
    hide LiveInv, CacheInv, Accepted, DiskInv;
    RecoveredExactly(s);
  }

  // ----- sessions

  /** A header was written in this session exactly if its snapshot was taken in it; if it is of this session and
      not known to be durable, its snapshot is the last, and the sync thread, or a crash, is right behind it. */
  ghost predicate HeaderSession(hdr: Option<Attempt>, z: Snapshots, pc: Pc) {
    hdr.Some? ==>
      var a := hdr.value;
      && a.snap < |z.snaps|
      && a.opening <= z.openings
      && (a.opening < z.openings <==> a.snap < z.atOpen)
      && (a.opening == z.openings && a.snap > z.durable ==> a.snap == |z.snaps| - 1 && (pc.JournalSync? || pc.Reopen?))
  }

  ghost predicate SessionInv(s: Db) {
    && s.z.atOpen <= |s.z.snaps|
    && (Pending(s.sync) ==> s.z.atOpen < |s.z.snaps|)
    && HeaderSession(s.z.cacheHdr, s.z, s.sync.pc)
    && HeaderSession(s.z.diskHdr, s.z, s.sync.pc)
  }

  /** The steps that change the history of snapshots. */
  predicate Marks(a: Step) {
    || a.SProtect? || a.SWriteIndex? || a.SJournalSync? || a.SDataSync? || a.WritebackJournal? || a.Crash?
    || a.RReopen? || a.RSync?
  }

  lemma SessionStep(s: Db, a: Step)
    requires Inv(s) && SessionInv(s) && Enabled(s, a)
    ensures SessionInv(Do(s, a))
  {
    hide Inv, Do, Enabled;
    if a.Store? {
      UnmarkedStore(s, a);
    } else if ByProgram(a) {
      UnmarkedProgram(s, a);
    } else if !Marks(a) && ByCommit(a) {
      UnmarkedCommit(s, a);
    } else if !Marks(a) {
      UnmarkedRest(s, a);
    } else {
      MarkedStep(s, a);
    }
  }

  /** Nothing that `SessionInv` speaks of changes for the worse. */
  predicate Unmarked(s: Db, t: Db) {
    && t.z == s.z && (Pending(t.sync) ==> Pending(s.sync))
    && (s.sync.pc.JournalSync? || s.sync.pc.Reopen? ==> t.sync.pc == s.sync.pc)
  }

  lemma UnmarkedStore(s: Db, a: Step)
    requires Enabled(s, a) && a.Store?
    ensures Unmarked(s, Do(s, a)) && (a.SDetach? || Do(s, a).rev == s.rev)
  {
    hide Memory;
  }

  lemma UnmarkedProgram(s: Db, a: Step)
    requires Enabled(s, a) && ByProgram(a)
    ensures Unmarked(s, Do(s, a)) && (a.SDetach? || Do(s, a).rev == s.rev)
  {
    hide Memory, PageAt;
  }

  lemma UnmarkedCommit(s: Db, a: Step)
    requires Enabled(s, a) && ByCommit(a) && !a.SProtect?
    ensures Unmarked(s, Do(s, a)) && (a.SDetach? || Do(s, a).rev == s.rev)
  {
    hide Enabled, Do;
    if a.STruncate? || a.SCheck? || a.SLock? || a.SCowWrite? || a.SMemWrite? {
      UnmarkedLoop(s, a);
    } else {
      UnmarkedBefore(s, a);
    }
  }

  lemma UnmarkedLoop(s: Db, a: Step)
    requires Enabled(s, a) && (a.STruncate? || a.SCheck? || a.SLock? || a.SCowWrite? || a.SMemWrite?)
    ensures Unmarked(s, Do(s, a)) && Do(s, a).rev == s.rev
  {
    hide Memory, PageAt, Resize, Unwritten, IndexPages;
  }

  lemma UnmarkedBefore(s: Db, a: Step)
    requires Enabled(s, a) && ByCommit(a) && !a.SProtect?
    requires !(a.STruncate? || a.SCheck? || a.SLock? || a.SCowWrite? || a.SMemWrite?)
    ensures Unmarked(s, Do(s, a)) && Do(s, a).rev == s.rev
  {
    hide Memory, PageAt, Resize, Unwritten, IndexPages;
  }

  lemma UnmarkedRest(s: Db, a: Step)
    requires Enabled(s, a) && !Marks(a) && !ByCommit(a) && !ByProgram(a) && !a.Store?
    ensures Unmarked(s, Do(s, a)) && (a.SDetach? || Do(s, a).rev == s.rev)
  {
    hide Memory, PageAt, WriteStart, RawIndex, Ids, DataPages, SizesAgree, Accepted, IndexPages;
  }

  lemma MarkedStep(s: Db, a: Step)
    requires Inv(s) && SessionInv(s) && Enabled(s, a) && Marks(a)
    ensures SessionInv(Do(s, a))
  {
    hide Inv, Enabled, Do;
    if a.SProtect? || a.SWriteIndex? || a.SJournalSync? {
      MarkedCommit(s, a);
    } else {
      MarkedDisk(s, a);
    }
  }

  lemma MarkedCommit(s: Db, a: Step)
    requires SessionInv(s) && Enabled(s, a) && (a.SProtect? || a.SWriteIndex? || a.SJournalSync?)
    ensures SessionInv(Do(s, a)) && Do(s, a).rev == s.rev
  {
    hide Memory, PageAt, WriteStart, RawIndex;
  }

  lemma MarkedDisk(s: Db, a: Step)
    requires SessionInv(s) && Enabled(s, a) && Marks(a) && !(a.SProtect? || a.SWriteIndex? || a.SJournalSync?)
    ensures SessionInv(Do(s, a)) && (a.RReopen? || Do(s, a).rev == s.rev)
  {
    hide DoReopen, SessionInv, DoWritebackJournal, Do;
    if a.RReopen? {
      MarkedReopen(s);
      DoesReopen(s);
    } else if a.WritebackJournal? || a.Crash? {
      MarkedKernel(s, a);
    } else {
      MarkedSync(s, a);
    }
  }

  lemma DoesReopen(s: Db)
    requires Enabled(s, RReopen)
    ensures Do(s, RReopen) == DoReopen(s)
  {
    hide DoReopen;
  }

  lemma MarkedKernel(s: Db, a: Step)
    requires SessionInv(s) && Enabled(s, a) && (a.WritebackJournal? || a.Crash?)
    ensures SessionInv(Do(s, a)) && Do(s, a).rev == s.rev
  {
  }

  lemma MarkedSync(s: Db, a: Step)
    requires SessionInv(s) && Enabled(s, a) && (a.SDataSync? || a.RSync?)
    ensures SessionInv(Do(s, a)) && Do(s, a).rev == s.rev
  {
  }

  lemma MarkedReopen(s: Db)
    requires SessionInv(s) && s.sync.pc.Reopen? && |s.journal.cache| >= 1
    ensures SessionInv(DoReopen(s))
  {
    hide Accepted;
  }

  lemma {:induction false} RunSessions(s: Db, run: seq<Step>)
    requires Inv(s) && SessionInv(s) && Possible(s, run)
    ensures Inv(After(s, run)) && SessionInv(After(s, run))
    decreases |run|
  {
    hide Inv, SessionInv, Enabled, Do;
    if run != [] {
      StepInv(s, run[0]);
      SessionStep(s, run[0]);
      RunSessions(Do(s, run[0]), run[1..]);
    }
  }

  // ----- the outcome of a crash

  /** The journal on disk is, to the word, that of a commit which an earlier session began and did not finish. */
  ghost predicate LeftBehind(s: Db)
    requires |s.journal.disk| >= 1
  {
    && s.z.diskHdr.Some? && s.z.diskHdr.value.c.Valid()
    && var a := s.z.diskHdr.value;
      Complete(s.journal.disk, a.c) && s.z.durable < a.snap && a.opening < s.z.openings
  }

  /** The three outcomes of a crash. A snapshot from before this session other than the durable one comes back
      exactly if such a journal is on disk; if none is, the durable snapshot does, or the last one, and the last one
      only while its journal is being synced. */
  lemma CrashOutcome(s: Db)
    requires Inv(s) && SessionInv(s)
    ensures |s.journal.disk| >= 1 && Recovered(s.data.disk, s.journal.disk) == s.z.snaps[Survivor(s)]
    ensures s.z.durable < Survivor(s) < s.z.atOpen <==> LeftBehind(s)
    ensures !LeftBehind(s) ==>
      || Survivor(s) == s.z.durable
      || (Survivor(s) == |s.z.snaps| - 1 >= s.z.atOpen && (s.sync.pc.JournalSync? || s.sync.pc.Reopen?))
  {
    hide Inv, Accepted, Complete, HeaderInv;
    RecoveredExactly(s);
    if s.z.diskHdr.Some? {
      AcceptedIsComplete(s);
    }
  }

  /** ... after every run from the first opening of a database on. */
  lemma RunOutcome(image: Image, addr: nat, run: seq<Step>)
    requires 1 <= |image| <= MAX_PAGES && addr < MAX64
    requires Possible(Init(image, addr), run)
    ensures var s := After(Init(image, addr), run);
      && |s.journal.disk| >= 1 && Survivor(s) < |s.z.snaps|
      && Recovered(s.data.disk, s.journal.disk) == s.z.snaps[Survivor(s)]
      && (s.z.durable < Survivor(s) < s.z.atOpen <==> LeftBehind(s))
      && (!LeftBehind(s) ==> Survivor(s) == s.z.durable || Survivor(s) == |s.z.snaps| - 1 >= s.z.atOpen)
  {
    hide Survivor, LeftBehind, After, Possible;
    InitInv(image, addr);
    RunSessions(Init(image, addr), run);
    hide Inv, SessionInv;
    var s := After(Init(image, addr), run);
    RecoveredExactly(s);
    CrashOutcome(s);
  }

  // ----- revisions

  /** Until the first commit of a session is synced, and while it is open, the revision is the one that was in the
      header at opening. */
  lemma {:induction false} RevisionStays(s: Db, run: seq<Step>)
    requires Inv(s) && SessionInv(s)
    requires Possible(s, run) && forall k | 0 <= k < |run| :: !run[k].SDetach? && !run[k].RReopen?
    ensures After(s, run).rev == s.rev
    decreases |run|
  {
    hide Inv, SessionInv, Do, Enabled;
    if run != [] {
      RevisionStep(s, run[0]);
      StepInv(s, run[0]);
      SessionStep(s, run[0]);
      RevisionStays(Do(s, run[0]), run[1..]);
    }
  }

  lemma RevisionStep(s: Db, a: Step)
    requires Inv(s) && SessionInv(s) && Enabled(s, a) && !a.SDetach? && !a.RReopen?
    ensures Do(s, a).rev == s.rev
  {
    hide Inv, SessionInv, Enabled, Do;
    if a.Store? {
      UnmarkedStore(s, a);
    } else if ByProgram(a) {
      UnmarkedProgram(s, a);
    } else if !Marks(a) && ByCommit(a) {
      UnmarkedCommit(s, a);
    } else if !Marks(a) {
      UnmarkedRest(s, a);
    } else if a.SProtect? || a.SWriteIndex? || a.SJournalSync? {
      MarkedCommit(s, a);
    } else {
      MarkedDisk(s, a);
    }
  }

  /** The first commit of a session has the revision of the last header that reached the disk before it, whether
      that commit was finished or not: revisions repeat. */
  lemma RevisionRepeats(s: Db, run: seq<Step>)
    requires Inv(s) && SessionInv(s) && Enabled(s, RReopen) && s.z.cacheHdr.Some?
    requires Possible(Do(s, RReopen), run) && forall k | 0 <= k < |run| :: !run[k].SDetach? && !run[k].RReopen?
    ensures TheCommit(After(Do(s, RReopen), run)).rev == s.z.cacheHdr.value.c.rev
  {
    hide Inv, SessionInv, After, Possible, Accepted;
    ReopenRevision(s);
    StepInv(s, RReopen);
    SessionStep(s, RReopen);
    RevisionStays(Do(s, RReopen), run);
  }

  lemma ReopenRevision(s: Db)
    requires Inv(s) && s.z.cacheHdr.Some?
    ensures DoReopen(s).rev == s.z.cacheHdr.value.c.rev
  {
    hide LiveInv, CacheInv, Accepted, RawIndex;
    assert AttemptInv(s.n, s.z.cacheHdr.value, s.z);
    HeaderFields(s.journal.cache[0], s.z.cacheHdr.value.c);
  }
}
