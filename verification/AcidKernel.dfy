/** What the kernel may do to the files: when a crash comes, any set of cached pages may be on disk. */
module AcidKernel {
  import opened AcidJournal
  import opened AcidProtocol
  import opened AcidLeftBehind

  /** What is on disk after some of the cached pages of a file were written back. */
  predicate Mixed(cache: seq<Page>, disk: seq<Page>, pages: seq<nat>, disk': seq<Page>) {
    && |disk'| == |disk|
    && forall p | 0 <= p < |disk| :: disk'[p] == if p in pages && p < |cache| then cache[p] else disk[p]
  }

  predicate InBoth(pages: seq<nat>, f: File) {
    forall p | p in pages :: p < |f.cache| && p < |f.disk|
  }

  lemma {:induction false} WriteBackData(s: Db, pages: seq<nat>) returns (run: seq<Step>)
    requires InBoth(pages, s.data)
    ensures Possible(s, run)
    ensures var t := After(s, run);
      t == s.(data := File(s.data.cache, t.data.disk)) && Mixed(s.data.cache, s.data.disk, pages, t.data.disk)
    decreases |pages|
  {
    if pages == [] {
      run := [];
    } else {
      assert pages == [pages[0]] + pages[1..] && pages[0] in pages;
      var a := WritebackData(pages[0]);
      WrittenData(s, pages[0]);
      hide Do, Enabled;
      assert forall p | p in pages[1..] :: p in pages;
      var rest := WriteBackData(Do(s, a), pages[1..]);
      run := [a] + rest;
      assert run[0] == a && run[1..] == rest;
    }
  }

  lemma WrittenData(s: Db, p: nat)
    requires p < |s.data.cache| && p < |s.data.disk|
    ensures Enabled(s, WritebackData(p))
    ensures Do(s, WritebackData(p)) == s.(data := File(s.data.cache, s.data.disk[p := s.data.cache[p]]))
  {
  }

  lemma {:induction false} WriteBackJournal(s: Db, pages: seq<nat>) returns (run: seq<Step>)
    requires InBoth(pages, s.journal)
    ensures Possible(s, run)
    ensures var t := After(s, run);
      && t == s.(journal := File(s.journal.cache, t.journal.disk), z := t.z)
      && Mixed(s.journal.cache, s.journal.disk, pages, t.journal.disk)
    decreases |pages|
  {
    if pages == [] {
      run := [];
    } else {
      assert pages == [pages[0]] + pages[1..] && pages[0] in pages;
      var a := WritebackJournal(pages[0]);
      WrittenJournal(s, pages[0]);
      hide Do, Enabled;
      assert forall p | p in pages[1..] :: p in pages;
      var rest := WriteBackJournal(Do(s, a), pages[1..]);
      run := [a] + rest;
      assert run[0] == a && run[1..] == rest;
    }
  }

  lemma WrittenJournal(s: Db, i: nat)
    requires i < |s.journal.cache| && i < |s.journal.disk|
    ensures Enabled(s, WritebackJournal(i))
    ensures var t := Do(s, WritebackJournal(i));
      t == s.(journal := File(s.journal.cache, s.journal.disk[i := s.journal.cache[i]]), z := t.z)
  {
  }

  /** Whatever pages of the two files one names, and whether the new length of the journal is among what was written or
      not: from every state the kernel can write back just these, and then the machine can stop. The pages that the
      journal gained hold what was there before. */
  lemma AnyMixtureSurvives(s: Db, pages: seq<nat>, jpages: seq<nat>, resized: bool, before: seq<Page>)
    returns (run: seq<Step>)
    requires |s.journal.cache| <= |s.journal.disk| + |before|
    requires InBoth(pages, s.data)
    requires var disk := if resized then (s.journal.disk + before)[..|s.journal.cache|] else s.journal.disk;
      InBoth(jpages, File(s.journal.cache, disk))
    ensures Possible(s, run)
    ensures var t := After(s, run);
      var disk := if resized then (s.journal.disk + before)[..|s.journal.cache|] else s.journal.disk;
      && t.sync.pc.Reopen? && t.data.cache == t.data.disk && t.journal.cache == t.journal.disk
      && Mixed(s.data.cache, s.data.disk, pages, t.data.disk) && Mixed(s.journal.cache, disk, jpages, t.journal.disk)
  {
    hide Possible, After, Mixed, InBoth;
    run := if resized then [WritebackLength(before)] else [];
    LengthWritten(s, resized, before);
    var u := After(s, run);
    var more := WriteBackData(u, pages);
    RunOn(s, run, more);
    run, u := run + more, After(u, more);
    more := WriteBackJournal(u, jpages);
    RunOn(s, run, more);
    run, u := run + more, After(u, more);
    Stops(u);
    RunOn(s, run, [Crash]);
    run := run + [Crash];
  }

  lemma LengthWritten(s: Db, resized: bool, before: seq<Page>)
    requires |s.journal.cache| <= |s.journal.disk| + |before|
    ensures var run := if resized then [WritebackLength(before)] else [];
      var disk := if resized then (s.journal.disk + before)[..|s.journal.cache|] else s.journal.disk;
      Possible(s, run) && After(s, run) == s.(journal := File(s.journal.cache, disk))
  {
    if resized {
      var a := WritebackLength(before);
      assert [a][1..] == [];
      var u := Do(s, a);
      assert Possible(u, []) && After(u, []) == u;
    } else {
      assert s.(journal := File(s.journal.cache, s.journal.disk)) == s;
    }
  }

  lemma Stops(s: Db)
    ensures Possible(s, [Crash])
    ensures var t := After(s, [Crash]);
      && t.sync.pc.Reopen? && t.data == File(s.data.disk, s.data.disk)
      && t.journal == File(s.journal.disk, s.journal.disk)
  {
    assert [Crash][1..] == [];
    var u := Do(s, Crash);
    assert Possible(u, []) && After(u, []) == u;
  }
}
