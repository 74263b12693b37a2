/** The commit journal of src/acid.c: its layout on disk, the writer that fills it, the verifier that
    accepts it at open, and the replay that copies it into the data file.

    Memory is counted in 32-bit words. SHA-1 is idealised symbolically: a hash word is a value of its own
    that names the exact text that was hashed, so equal hashes mean equal texts. */
module AcidJournal {

  type U32 = x: nat | x < 0x1_0000_0000

  /** A 32-bit memory word: ordinary bits, or word number `part` of the hash of `input`. */
  datatype Word = Bits(value: U32) | Digest(part: nat, input: seq<Word>)

  const PAGE_WORDS: nat := 1024
  const HASH_WORDS: nat := 5
  const HEADER_WORDS: nat := 15
  const MAGIC: nat := 0xaa2a_c040_aeac_5945
  const MAX64: nat := 0x1_0000_0000_0000_0000

  type Page = p: seq<Word> | |p| == PAGE_WORDS witness seq(PAGE_WORDS, _ => Bits(0))

  function Blank(): Page {
    seq(PAGE_WORDS, _ => Bits(0))
  }

  /** The number a word holds. The bits of a hash word are unknown; nothing below depends on them. */
  function Num(w: Word): U32 {
    if w.Bits? then w.value else 0
  }

  function Read64(ws: seq<Word>, at: nat): nat
    requires at + 2 <= |ws|
  {
    Num(ws[at]) + 0x1_0000_0000 * Num(ws[at + 1])
  }

  function Enc64(x: nat): (ws: seq<Word>)
    requires x < MAX64
    ensures |ws| == 2 && Read64(ws, 0) == x
  {
    [Bits(x % 0x1_0000_0000), Bits(x / 0x1_0000_0000)]
  }

  predicate Below(ids: seq<nat>, n: nat) {
    forall i | 0 <= i < |ids| :: ids[i] < n
  }

  function EncIds(ids: seq<nat>): (ws: seq<Word>)
    requires Below(ids, MAX64)
    ensures |ws| == 2 * |ids|
    ensures forall i | 0 <= i < |ids| :: Read64(ws, 2 * i) == ids[i]
  {
    if ids == [] then [] else EncIds(ids[..|ids| - 1]) + Enc64(ids[|ids| - 1])
  }

  function Sha1(input: seq<Word>): (h: seq<Word>)
    ensures |h| == HASH_WORDS
  {
    seq(HASH_WORDS, k requires 0 <= k < HASH_WORDS => Digest(k, input))
  }

  /** `get_jidx_size`: whole pages taken by an index of n entries. */
  function IndexPages(n: nat): nat {
    (HEADER_WORDS + 2 * n + PAGE_WORDS - 1) / PAGE_WORDS
  }

  /** The words of consecutive pages, laid end to end. */
  function Flat(pages: seq<Page>): (ws: seq<Word>)
    ensures |ws| == PAGE_WORDS * |pages|
  {
    if pages == [] then [] else Flat(pages[..|pages| - 1]) + pages[|pages| - 1]
  }

  /** What one commit puts in the journal: its revision and address fields, and the (page id, content) pairs. */
  datatype Commit = Commit(rev: nat, addr: nat, ids: seq<nat>, pages: seq<Page>) {
    ghost predicate Valid() {
      && rev < MAX64 && addr < MAX64
      && |ids| == |pages| < MAX64
      && IndexPages(|ids|) < MAX64
      && Below(ids, MAX64)
    }
  }

  /** The index without its hash: magic, commit_rev, data_addr, page0_offs, n_pages, page ids. */
  function Body(c: Commit): (ws: seq<Word>)
    requires c.Valid()
    ensures |ws| == HEADER_WORDS - HASH_WORDS + 2 * |c.ids|
  {
    Enc64(MAGIC) + Enc64(c.rev) + Enc64(c.addr) + Enc64(IndexPages(|c.ids|)) + Enc64(|c.ids|) + EncIds(c.ids)
  }

  function Hashed(c: Commit): seq<Word>
    requires c.Valid()
  {
    Flat(c.pages) + Body(c)
  }

  function RawIndex(c: Commit): (ws: seq<Word>)
    requires c.Valid()
    ensures |ws| == HEADER_WORDS + 2 * |c.ids|
  {
    Sha1(Hashed(c)) + Body(c)
  }

  /** pwrite of `raw` at offset 0: the words of the pages behind it stay. */
  function WriteStart(j: seq<Page>, raw: seq<Word>): (j': seq<Page>)
    requires |raw| <= PAGE_WORDS * |j|
    ensures |j'| == |j|
  {
    seq(|j|, i requires 0 <= i < |j| =>
      seq(PAGE_WORDS, k requires 0 <= k < PAGE_WORDS =>
        if PAGE_WORDS * i + k < |raw| then raw[PAGE_WORDS * i + k] else j[i][k]))
  }

  // ----- reading a journal file

  function NPages(j: seq<Page>): nat
    requires |j| >= 1
  {
    Read64(j[0], 13)
  }

  /** The index region as words, when the file is long enough to hold it. */
  predicate SizesAgree(j: seq<Page>)
    requires |j| >= 1
  {
    && Read64(j[0], 11) == IndexPages(NPages(j))
    && |j| == IndexPages(NPages(j)) + NPages(j)
  }

  function IndexWords(j: seq<Page>): (ws: seq<Word>)
    requires |j| >= 1 && SizesAgree(j)
    ensures |ws| == HEADER_WORDS + 2 * NPages(j)
  {
    Flat(j[..IndexPages(NPages(j))])[..HEADER_WORDS + 2 * NPages(j)]
  }

  function Ids(j: seq<Page>): (ids: seq<nat>)
    requires |j| >= 1 && SizesAgree(j)
    ensures |ids| == NPages(j)
  {
    var ws := IndexWords(j);
    seq(NPages(j), i requires 0 <= i < NPages(j) => Read64(ws, HEADER_WORDS + 2 * i))
  }

  function DataPages(j: seq<Page>): (pages: seq<Page>)
    requires |j| >= 1 && SizesAgree(j)
    ensures |pages| == NPages(j)
  {
    j[IndexPages(NPages(j))..]
  }

  /** `journ_verify`: what it accepts. */
  predicate Accepted(j: seq<Page>, nData: nat)
    requires |j| >= 1
  {
    && Read64(j[0], 5) == MAGIC
    && SizesAgree(j)
    && Below(Ids(j), nData)
    && j[0][..HASH_WORDS] == Sha1(Flat(DataPages(j)) + IndexWords(j)[HASH_WORDS..])
  }

  /** `journ_commit`: the pages of the journal copied over the data file, in journal order. */
  function Replay(data: seq<Page>, ids: seq<nat>, pages: seq<Page>): (out: seq<Page>)
    requires |ids| == |pages| && Below(ids, |data|)
    ensures |out| == |data|
  {
    if ids == [] then data
    else Replay(data, ids[..|ids| - 1], pages[..|ids| - 1])[ids[|ids| - 1] := pages[|ids| - 1]]
  }

  // ----- the writer's image is read back

  /** The journal a commit leaves: raw index at the start, then the data pages. */
  ghost predicate Complete(j: seq<Page>, c: Commit)
    requires c.Valid()
  {
    && |j| == IndexPages(|c.ids|) + |c.ids|
    && Flat(j[..IndexPages(|c.ids|)])[..HEADER_WORDS + 2 * |c.ids|] == RawIndex(c)
    && j[IndexPages(|c.ids|)..] == c.pages
  }

  lemma {:induction false} FlatAt(pages: seq<Page>, i: nat, k: nat)
    requires i < |pages| && k < PAGE_WORDS
    ensures Flat(pages)[1024 * i + k] == pages[i][k]
  {
    if i < |pages| - 1 {
      FlatAt(pages[..|pages| - 1], i, k);
    }
  }

  /** The first words of a file are the first words of its first page. */
  lemma FlatHead(j: seq<Page>, n: nat)
    requires |j| >= 1 && n <= PAGE_WORDS
    ensures Flat(j)[..n] == j[0][..n]
  {
    assert Flat(j)[..n] == j[0][..n] by {
      forall k | 0 <= k < n ensures Flat(j)[k] == j[0][k] {
        FlatAt(j, 0, k);
      }
    }
  }

  lemma WriteStartReads(j: seq<Page>, raw: seq<Word>)
    requires |raw| <= PAGE_WORDS * |j|
    ensures Flat(WriteStart(j, raw))[..|raw|] == raw
  {
    var j' := WriteStart(j, raw);
    forall w | 0 <= w < |raw| ensures Flat(j')[w] == raw[w] {
      var i, k := w / PAGE_WORDS, w % PAGE_WORDS;
      FlatAt(j', i, k);
    }
  }

  /** Writing the raw index over a file of the right length whose data pages are in place completes it. */
  lemma WriteIndexCompletes(j: seq<Page>, c: Commit)
    requires c.Valid()
    requires |j| == IndexPages(|c.ids|) + |c.ids|
    requires j[IndexPages(|c.ids|)..] == c.pages
    ensures Complete(WriteStart(j, RawIndex(c)), c)
  {
    var p0 := IndexPages(|c.ids|);
    var raw := RawIndex(c);
    var j' := WriteStart(j, raw);
    assert |raw| <= PAGE_WORDS * p0;
    assert j'[..p0] == WriteStart(j[..p0], raw);
    WriteStartReads(j[..p0], raw);
    forall i | p0 <= i < |j| ensures j'[i] == j[i] {
      assert j'[i] == j[i];
    }
    assert j'[p0..] == j[p0..];
  }

  /** The fields of a raw index sit where the reader looks for them. */
  lemma RawFields(c: Commit)
    requires c.Valid()
    ensures var raw := RawIndex(c);
      && raw[..HASH_WORDS] == Sha1(Hashed(c))
      && raw[HASH_WORDS..] == Body(c)
      && Read64(raw, 5) == MAGIC
      && Read64(raw, 7) == c.rev
      && Read64(raw, 9) == c.addr
      && Read64(raw, 11) == IndexPages(|c.ids|)
      && Read64(raw, 13) == |c.ids|
      && (forall i | 0 <= i < |c.ids| :: Read64(raw, HEADER_WORDS + 2 * i) == c.ids[i])
  {
    var raw := RawIndex(c);
    var e := EncIds(c.ids);
    forall i | 0 <= i < |c.ids| ensures Read64(raw, HEADER_WORDS + 2 * i) == c.ids[i] {
      assert raw[HEADER_WORDS + 2 * i] == e[2 * i];
      assert raw[HEADER_WORDS + 2 * i + 1] == e[2 * i + 1];
      assert Read64(e, 2 * i) == c.ids[i];
    }
    assert raw[5..7] == Enc64(MAGIC);
    assert raw[7..9] == Enc64(c.rev);
    assert raw[9..11] == Enc64(c.addr);
    assert raw[11..13] == Enc64(IndexPages(|c.ids|));
    assert raw[13..15] == Enc64(|c.ids|);
  }

  /** The first page of a complete journal starts with the header of its commit. */
  lemma CompleteHeader(j: seq<Page>, c: Commit)
    requires c.Valid() && Complete(j, c)
    ensures |j| >= 1 && j[0][..HEADER_WORDS] == RawIndex(c)[..HEADER_WORDS]
  {
    var p0 := IndexPages(|c.ids|);
    FlatHead(j[..p0], HEADER_WORDS);
    assert Flat(j[..p0])[..HEADER_WORDS] == RawIndex(c)[..HEADER_WORDS] by {
      assert Flat(j[..p0])[..HEADER_WORDS + 2 * |c.ids|][..HEADER_WORDS] == Flat(j[..p0])[..HEADER_WORDS];
    }
  }

  lemma HeaderFields(page: Page, c: Commit)
    requires c.Valid() && page[..HEADER_WORDS] == RawIndex(c)[..HEADER_WORDS]
    ensures page[..HASH_WORDS] == Sha1(Hashed(c))
    ensures Read64(page, 5) == MAGIC && Read64(page, 7) == c.rev
    ensures Read64(page, 11) == IndexPages(|c.ids|) && Read64(page, 13) == |c.ids|
  {
    RawFields(c);
    var h := page[..HEADER_WORDS];
    assert forall k | 0 <= k < HEADER_WORDS :: page[k] == h[k] == RawIndex(c)[k];
    assert page[..HASH_WORDS] == h[..HASH_WORDS] == RawIndex(c)[..HASH_WORDS];
  }

  /** A complete journal is accepted, and gives back exactly the pairs that were committed. */
  lemma CompleteAccepted(j: seq<Page>, c: Commit, nData: nat)
    requires c.Valid() && Complete(j, c) && Below(c.ids, nData)
    ensures |j| >= 1 && Accepted(j, nData) && Ids(j) == c.ids && DataPages(j) == c.pages
    ensures Read64(j[0], 7) == c.rev
  {
    CompleteHeader(j, c);
    HeaderFields(j[0], c);
    RawFields(c);
    assert IndexWords(j) == RawIndex(c);
    assert Ids(j) == c.ids;
  }

  /** Word number w of a file. */
  function WordAt(j: seq<Page>, w: nat): U32
    requires w < 1024 * |j|
  {
    Num(j[w / 1024][w % 1024])
  }

  /** A number of 64 bits, the lower half in the first word; it may lie on a page boundary. */
  function LongAt(j: seq<Page>, w: nat): nat
    requires w + 1 < 1024 * |j|
  {
    WordAt(j, w) + 0x1_0000_0000 * WordAt(j, w + 1)
  }

  /** The file that a commit leaves, word by word: the hash in 20 bytes, then magic number, revision, address, offset of
      the first data page and number of pages in eight bytes each, then the page ids; the data pages from the next page
      boundary on. The hash is of the data pages followed by the index without it. */
  lemma JournalLayout(j: seq<Page>, c: Commit)
    requires c.Valid() && Complete(j, c)
    ensures var n := |c.ids|; var p0 := (60 + 8 * n + 4095) / 4096;
      && |j| == p0 + n && 15 + 2 * n <= 1024 * p0
      && LongAt(j, 5) == 0xaa2a_c040_aeac_5945 && LongAt(j, 7) == c.rev && LongAt(j, 9) == c.addr
      && LongAt(j, 11) == p0 && LongAt(j, 13) == n
      && (forall i | 0 <= i < n :: LongAt(j, 15 + 2 * i) == c.ids[i] && j[p0 + i] == c.pages[i])
      && j[0][..5] == Sha1(Flat(c.pages) + Flat(j[..p0])[5..15 + 2 * n])
  {
    hide Body, Hashed, RawIndex, Sha1;
    var n := |c.ids|;
    var p0 := (60 + 8 * n + 4095) / 4096;
    assert p0 == IndexPages(n);
    RawFields(c);
    CompleteHeader(j, c);
    HeaderFields(j[0], c);
    RawWords(j, c);
    hide Complete;
    var f := Flat(j[..p0]);
    forall w | 0 <= w < 14 + 2 * n
      ensures LongAt(j, w) == Read64(RawIndex(c), w)
    {
      WordsAgree(j, f, p0, w);
      WordsAgree(j, f, p0, w + 1);
    }
    assert RawIndex(c)[5..] == f[5..15 + 2 * n];
    DataAgree(j, c);
    HashedIs(c);
  }

  lemma HashedIs(c: Commit)
    requires c.Valid()
    ensures Hashed(c) == Flat(c.pages) + Body(c)
  {
    hide Flat, Body;
  }

  lemma RawWords(j: seq<Page>, c: Commit)
    requires c.Valid() && Complete(j, c)
    ensures 15 + 2 * |c.ids| <= PAGE_WORDS * IndexPages(|c.ids|) && |j| == IndexPages(|c.ids|) + |c.ids|
    ensures RawIndex(c) == Flat(j[..IndexPages(|c.ids|)])[..15 + 2 * |c.ids|]
  {
  }

  lemma DataAgree(j: seq<Page>, c: Commit)
    requires c.Valid() && Complete(j, c)
    ensures forall i | 0 <= i < |c.ids| :: j[IndexPages(|c.ids|) + i] == c.pages[i]
  {
    var p0 := IndexPages(|c.ids|);
    assert forall i | 0 <= i < |c.ids| :: j[p0..][i] == j[p0 + i];
  }

  lemma WordsAgree(j: seq<Page>, f: seq<Word>, p0: nat, w: nat)
    requires p0 <= |j| && f == Flat(j[..p0]) && w < PAGE_WORDS * p0
    ensures WordAt(j, w) == Num(f[w])
  {
    FlatAt(j[..p0], w / 1024, w % 1024);
  }

  /** Ideal hashing: a journal that is accepted under the header hash of a commit holds that commit's
      pairs, whatever mixture of old and new pages the file is made of. */
  lemma AcceptedIsCommit(j: seq<Page>, c: Commit, nData: nat)
    requires |j| >= 1 && Accepted(j, nData)
    requires c.Valid() && j[0][..HASH_WORDS] == Sha1(Hashed(c))
    ensures Ids(j) == c.ids && DataPages(j) == c.pages
  {
    hide Flat, Body, RawIndex, IndexPages;
    var ws := IndexWords(j);
    var input := Flat(DataPages(j)) + ws[HASH_WORDS..];
    assert Sha1(input)[0] == Sha1(Hashed(c))[0];
    SameTextSameParts(DataPages(j), ws[HASH_WORDS..], c);
    FlatInjective(DataPages(j), c.pages);
    SameBodySameIds(ws, c);
  }

  /** The hashed text falls apart in one way: its length gives the number of pages. */
  lemma SameTextSameParts(pages: seq<Page>, body: seq<Word>, c: Commit)
    requires c.Valid() && |body| == 10 + 2 * |pages|
    requires Flat(pages) + body == Hashed(c)
    ensures |pages| == |c.pages| && Flat(pages) == Flat(c.pages) && body == Body(c)
  {
    hide Flat, Body;
    var input := Flat(pages) + body;
    assert |input| == 1026 * |pages| + 10;
    assert |Hashed(c)| == 1026 * |c.ids| + 10;
    assert Flat(pages) == input[..PAGE_WORDS * |pages|];
    assert Flat(c.pages) == Hashed(c)[..PAGE_WORDS * |pages|];
    assert body == input[PAGE_WORDS * |pages|..];
    assert Body(c) == Hashed(c)[PAGE_WORDS * |pages|..];
  }

  lemma SameBodySameIds(ws: seq<Word>, c: Commit)
    requires c.Valid() && |ws| == HEADER_WORDS + 2 * |c.ids| && ws[HASH_WORDS..] == Body(c)
    ensures forall i | 0 <= i < |c.ids| :: Read64(ws, HEADER_WORDS + 2 * i) == c.ids[i]
  {
    RawFields(c);
    var raw := RawIndex(c);
    forall i | 0 <= i < |c.ids| ensures Read64(ws, HEADER_WORDS + 2 * i) == c.ids[i] {
      assert ws[HEADER_WORDS + 2 * i] == ws[HASH_WORDS..][10 + 2 * i] == raw[HASH_WORDS..][10 + 2 * i];
      assert ws[HEADER_WORDS + 2 * i + 1] == ws[HASH_WORDS..][11 + 2 * i] == raw[HASH_WORDS..][11 + 2 * i];
      assert Read64(raw, HEADER_WORDS + 2 * i) == c.ids[i];
    }
  }

  lemma FlatInjective(a: seq<Page>, b: seq<Page>)
    requires |a| == |b| && Flat(a) == Flat(b)
    ensures a == b
  {
    forall i | 0 <= i < |a| ensures a[i] == b[i] {
      forall k | 0 <= k < PAGE_WORDS ensures a[i][k] == b[i][k] {
        FlatAt(a, i, k);
        FlatAt(b, i, k);
      }
    }
  }

  /** What truncation leaves behind - one page that still carries the last header - is always rejected. */
  lemma TruncatedRejected(j: seq<Page>, c: Commit, nData: nat)
    requires |j| == 1 && c.Valid() && |c.ids| >= 1
    requires j[0][..HEADER_WORDS] == RawIndex(c)[..HEADER_WORDS]
    ensures !Accepted(j, nData)
  {
    HeaderFields(j[0], c);
  }

  // ----- replay

  /** Replay puts each page of the journal in its place, the last one where an id occurs again, and leaves every
      other page as it is. */
  lemma {:induction false} ReplayPlaces(data: seq<Page>, ids: seq<nat>, pages: seq<Page>)
    requires |ids| == |pages| && Below(ids, |data|)
    ensures forall k | 0 <= k < |ids| && ids[k] !in ids[k + 1..] :: Replay(data, ids, pages)[ids[k]] == pages[k]
    ensures forall p | 0 <= p < |data| && p !in ids :: Replay(data, ids, pages)[p] == data[p]
  {
    if ids != [] {
      var n := |ids| - 1;
      ReplayPlaces(data, ids[..n], pages[..n]);
      forall k | 0 <= k < n && ids[k] !in ids[k + 1..] ensures Replay(data, ids, pages)[ids[k]] == pages[k] {
        assert ids[k + 1..] == ids[..n][k + 1..] + [ids[n]];
      }
    }
  }

  /** Replay forgets what the replayed pages held before: any two files that agree elsewhere become equal.
      In particular a replay cut short and started over gives the same file. */
  lemma ReplayForgets(d1: seq<Page>, d2: seq<Page>, ids: seq<nat>, pages: seq<Page>)
    requires |ids| == |pages| && |d1| == |d2| && Below(ids, |d1|)
    requires forall p | 0 <= p < |d1| && p !in ids :: d1[p] == d2[p]
    ensures Replay(d1, ids, pages) == Replay(d2, ids, pages)
  {
    if ids == [] {
      assert d1 == d2;
    } else {
      var n := |ids| - 1;
      var id, page := ids[n], pages[n];
      var e1 := d1[id := page];
      assert ids == ids[..n] + [id];
      var r1, r2 := Replay(d1, ids[..n], pages[..n]), Replay(d2, ids[..n], pages[..n]);
      forall p | 0 <= p < |d1| && p != id ensures r1[p] == r2[p] {
        ReplayPointwise(d1, d2, ids[..n], pages[..n], p);
      }
      assert r1[id := page] == r2[id := page];
    }
  }

  lemma ReplayPointwise(d1: seq<Page>, d2: seq<Page>, ids: seq<nat>, pages: seq<Page>, p: nat)
    requires |ids| == |pages| && |d1| == |d2| && Below(ids, |d1|) && p < |d1|
    requires p !in ids ==> d1[p] == d2[p]
    ensures Replay(d1, ids, pages)[p] == Replay(d2, ids, pages)[p]
  {
    if ids != [] {
      var n := |ids| - 1;
      assert ids == ids[..n] + [ids[n]];
      if p != ids[n] {
        ReplayPointwise(d1, d2, ids[..n], pages[..n], p);
      }
    }
  }

  /** Replaying twice equals replaying once. */
  lemma ReplayTwice(data: seq<Page>, ids: seq<nat>, pages: seq<Page>)
    requires |ids| == |pages| && Below(ids, |data|)
    ensures Replay(Replay(data, ids, pages), ids, pages) == Replay(data, ids, pages)
  {
    ReplayPlaces(data, ids, pages);
    ReplayForgets(Replay(data, ids, pages), data, ids, pages);
  }

  /** Replaying the pages of an image over a file that agrees with it elsewhere gives the image. */
  lemma ReplayImage(data: seq<Page>, image: seq<Page>, ids: seq<nat>, pages: seq<Page>)
    requires |ids| == |pages| && |data| == |image| && Below(ids, |data|)
    requires forall k | 0 <= k < |ids| :: pages[k] == image[ids[k]]
    requires forall p | 0 <= p < |data| && p !in ids :: data[p] == image[p]
    ensures Replay(data, ids, pages) == image
  {
    ReplayKeeps(image, ids, pages);
    ReplayForgets(data, image, ids, pages);
  }

  lemma ReplayKeeps(image: seq<Page>, ids: seq<nat>, pages: seq<Page>)
    requires |ids| == |pages| && Below(ids, |image|)
    requires forall k | 0 <= k < |ids| :: pages[k] == image[ids[k]]
    ensures Replay(image, ids, pages) == image
  {
    if ids != [] {
      ReplayKeeps(image, ids[..|ids| - 1], pages[..|ids| - 1]);
    }
  }

  // ----- the loop over the mapped journal

  /** `journ_commit`. */
  method JournCommit(data: array<Page>, j: seq<Page>)
    requires |j| >= 1 && SizesAgree(j) && Below(Ids(j), data.Length)
    modifies data
    ensures data[..] == Replay(old(data[..]), Ids(j), DataPages(j))
  {
    ghost var before := data[..];
    var ids, joffs := Ids(j), IndexPages(NPages(j));
    var i := 0;
    while i < |ids|
      invariant 0 <= i <= |ids|
      invariant data[..] == Replay(before, ids[..i], DataPages(j)[..i])
    {
      assert ids[..i + 1][..i] == ids[..i] && DataPages(j)[..i + 1][..i] == DataPages(j)[..i];
      data[ids[i]] := j[joffs + i];
      i := i + 1;
    }
    assert ids[..i] == ids && DataPages(j)[..i] == DataPages(j);
  }

  // ----- the checks in 64-bit arithmetic

  /** A file that is mapped: no more pages than 47-bit addresses have room for. */
  const MAX_MAPPED: nat := 0x8_0000_0000

  /** `get_jidx_size` as it is computed: bytes, modulo 2^64. */
  function IndexPages64(n: nat): nat {
    ((60 + 8 * n) % MAX64 + 4095) % MAX64 / 4096
  }

  /** The checks of the index size and of the total size. */
  predicate SizesAgree64(j: seq<Page>)
    requires |j| >= 1
  {
    && Read64(j[0], 11) == IndexPages64(NPages(j))
    && 4096 * |j| == (IndexPages64(NPages(j)) + NPages(j)) * 4096 % MAX64
  }

  /** The checks are exact but for one thing: they do not see that a number of pages is too large for the file when
      the sizes wrap around. */
  lemma SizesExact(j: seq<Page>)
    requires 1 <= |j| <= MAX_MAPPED
    ensures SizesAgree(j) <==> SizesAgree64(j) && NPages(j) < |j|
    ensures SizesAgree64(j) && NPages(j) >= |j| ==> NPages(j) > 0x8_0000_0000_0000
    ensures SizesAgree(j) ==> HEADER_WORDS + 2 * NPages(j) <= PAGE_WORDS * |j|
  {
    var n := NPages(j);
    if n < 0x10_0000_0000_0000 {
      NoWrap(n);
      assert IndexPages(n) + n < 0x20_0000_0000_0000;
      assert (IndexPages(n) + n) * 4096 % MAX64 == (IndexPages(n) + n) % 0x10_0000_0000_0000 * 4096 by {
        WrapPages(IndexPages(n) + n);
      }
    }
  }

  lemma NoWrap(n: nat)
    requires n < 0x10_0000_0000_0000
    ensures IndexPages64(n) == IndexPages(n) <= 0x1000_0000_0000
  {
  }

  lemma WrapPages(x: nat)
    ensures x * 4096 % MAX64 == x % 0x10_0000_0000_0000 * 4096
  {
    var q, r := x / 0x10_0000_0000_0000, x % 0x10_0000_0000_0000;
    assert x * 4096 == q * MAX64 + r * 4096;
  }

  /** What becomes of a journal; `Beyond`: the loop over the page ids runs off the end of the file. */
  datatype Verdict = Good | Bad | Beyond

  /** The page ids that are in the file, whatever number of them the header says there is. */
  function FileId(j: seq<Page>, i: nat): nat
    requires HEADER_WORDS + 2 * i + 2 <= PAGE_WORDS * |j|
  {
    Read64(Flat(j), HEADER_WORDS + 2 * i)
  }

  /** There is a file that the loop over the ids runs off: one page, whose header says there are 2^61 pages, and no id
      in it that would stop the loop. */
  lemma SizesWrap() returns (j: seq<Page>)
    ensures |j| == 1 && Read64(j[0], 5) == MAGIC && SizesAgree64(j) && !SizesAgree(j) && |j| <= NPages(j)
    ensures forall i | 0 <= i && HEADER_WORDS + 2 * i + 2 <= PAGE_WORDS * |j| :: FileId(j, i) == 0
  {
    var n := 0x2000_0000_0000_0000;
    var page: Page := seq(5, _ => Bits(0)) + Enc64(MAGIC) + seq(4, _ => Bits(0)) + Enc64(1) + Enc64(n)
                      + seq(PAGE_WORDS - HEADER_WORDS, _ => Bits(0));
    assert page[5..7] == Enc64(MAGIC) && page[11..13] == Enc64(1) && page[13..15] == Enc64(n);
    j := [page];
    assert NPages(j) == n && IndexPages64(n) == 1;
    forall i | 0 <= i && HEADER_WORDS + 2 * i + 2 <= PAGE_WORDS * |j| ensures FileId(j, i) == 0 {
      FlatAt(j, 0, HEADER_WORDS + 2 * i);
      FlatAt(j, 0, HEADER_WORDS + 2 * i + 1);
    }
  }

  /** The ids lie in the index where they lie in the file. */
  lemma FileIds(j: seq<Page>, i: nat)
    requires |j| >= 1 && SizesAgree(j) && i < NPages(j)
    ensures HEADER_WORDS + 2 * i + 2 <= PAGE_WORDS * |j| && FileId(j, i) == Ids(j)[i]
  {
    var p0 := IndexPages(NPages(j));
    forall w | HEADER_WORDS + 2 * i <= w < HEADER_WORDS + 2 * i + 2 ensures Flat(j)[w] == Flat(j[..p0])[w] {
      FlatAt(j, w / PAGE_WORDS, w % PAGE_WORDS);
      FlatAt(j[..p0], w / PAGE_WORDS, w % PAGE_WORDS);
    }
  }

  /** The loop over the ids of a file whose sizes passed the checks. */
  method VerifyIds(j: seq<Page>, nData: nat) returns (verdict: Verdict)
    requires 1 <= |j| <= MAX_MAPPED && nData >= 1 && SizesAgree64(j)
    ensures verdict.Good? <==> SizesAgree(j) && Below(Ids(j), nData)
    ensures verdict.Beyond? <==>
      |j| <= NPages(j) && forall i | 0 <= i && HEADER_WORDS + 2 * i + 2 <= PAGE_WORDS * |j| :: FileId(j, i) < nData
  {
    hide Flat, FileId, Ids, NPages, SizesAgree64, SizesAgree;
    SizesExact(j);
    var lastPageId := nData - 1;
    for i := 0 to NPages(j)
      invariant i > 0 ==> HEADER_WORDS + 2 * i <= PAGE_WORDS * |j|
      invariant forall k | 0 <= k < i :: HEADER_WORDS + 2 * k + 2 <= PAGE_WORDS * |j| && FileId(j, k) < nData
    {
      if HEADER_WORDS + 2 * i + 2 > PAGE_WORDS * |j| {
        return Beyond;
      }
      if FileId(j, i) > lastPageId {
        if SizesAgree(j) {
          FileIds(j, i);
        }
        return Bad;
      }
    }
    assert SizesAgree(j);
    forall i | 0 <= i < NPages(j) ensures Ids(j)[i] < nData {
      FileIds(j, i);
    }
    return Good;
  }

  /** `journ_verify`: magic, index size, total size, ids in bounds, hash. A file whose sizes wrap around is rejected for
      its ids, or read beyond its end. */
  method JournVerify(j: seq<Page>, nData: nat) returns (verdict: Verdict)
    requires 1 <= |j| <= MAX_MAPPED && nData >= 1
    ensures verdict.Good? <==> Accepted(j, nData)
    ensures verdict.Beyond? <==>
      && Read64(j[0], 5) == MAGIC && SizesAgree64(j) && |j| <= NPages(j)
      && forall i | 0 <= i && HEADER_WORDS + 2 * i + 2 <= PAGE_WORDS * |j| :: FileId(j, i) < nData
  {
    hide Flat, FileId, Ids, SizesAgree, DataPages, IndexWords, IndexPages64, Sha1;
    SizesExact(j);
    if Read64(j[0], 5) != MAGIC {
      return Bad;
    }
    var nIndexPages := IndexPages64(NPages(j));
    if Read64(j[0], 11) != nIndexPages {
      return Bad;
    }
    if 4096 * |j| != (nIndexPages + NPages(j)) * 4096 % MAX64 {
      return Bad;
    }
    verdict := VerifyIds(j, nData);
    if verdict.Good? {
      var actual := Sha1(Flat(DataPages(j)) + IndexWords(j)[HASH_WORDS..]);
      if actual != j[0][..HASH_WORDS] {
        verdict := Bad;
      }
    }
  }
}
