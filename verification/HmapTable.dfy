/** The slots of the hash map in include/hmap.h, as a sequence, and the rings that thread through them. */
module HmapTable {
  /** A free slot, or one that holds an element and its place on a ring. The root bit shares the word of prev. */
  datatype Slot<K, V> = Free | Used(prev: nat, isRoot: bool, next: nat, key: K, value: V)

  /** Where keys belong: the salted hash, reduced to the bytes of the slots, and rounded down to a slot. */
  datatype Homes<!K> = Homes(hash: (K, nat) -> nat, salt: nat, slots: nat, elemLen: nat) {
    predicate Valid() {
      slots >= 1 && elemLen >= 1
    }

    function Of(k: K): (h: nat)
      requires Valid()
      ensures h < slots
    {
      InSlots(hash(k, salt), slots, elemLen);
      (hash(k, salt) % (slots * elemLen)) / elemLen
    }
  }

  /** The home slot is the one whose bytes the hash falls on, taken modulo the bytes of all slots. */
  lemma HomeHolds<K>(hm: Homes<K>, k: K)
    requires hm.Valid()
    ensures var bytes := hm.slots * hm.elemLen; var start := hm.elemLen * hm.Of(k);
      && bytes >= 1 && 0 <= start <= hm.hash(k, hm.salt) % bytes < start + hm.elemLen
      && start + hm.elemLen <= bytes
  {
    var e, h := hm.elemLen, hm.Of(k);
    InSlots(hm.hash(k, hm.salt), hm.slots, e);
    var r := hm.hash(k, hm.salt) % (hm.slots * e);
    assert r == e * (r / e) + r % e;
    assert e * hm.slots == e * h + e * (hm.slots - h);
    AtLeastOne(e, hm.slots - h);
  }

  lemma AtLeastOne(e: nat, d: nat)
    requires d >= 1
    ensures e * d >= e
  {
  }

  lemma InSlots(hash: nat, n: nat, e: nat)
    requires n >= 1 && e >= 1
    ensures n * e >= 1 && 0 <= hash % (n * e) / e < n
  {
    Product(n, e);
    DivBelow(hash % (n * e), n, e);
  }

  lemma Product(n: nat, e: nat)
    requires n >= 1 && e >= 1
    ensures n * e >= 1
  {
  }

  lemma DivBelow(r: nat, n: nat, e: nat)
    requires e >= 1 && r < n * e
    ensures 0 <= r / e < n
  {
    var q := r / e;
    var d := q - n;
    assert e * q <= r;
    assert e * q == e * n + e * d;
  }

  // ----- the elements

  ghost function UsedCount<K, V>(s: seq<Slot<K, V>>): (c: nat)
    ensures c <= |s|
  {
    if s == [] then 0 else UsedCount(s[..|s| - 1]) + if s[|s| - 1].Used? then 1 else 0
  }

  /** The finite map that the slots hold. */
  ghost function Model<K, V>(s: seq<Slot<K, V>>): map<K, V> {
    if s == [] then map[]
    else
      var m, e := Model(s[..|s| - 1]), s[|s| - 1];
      if e.Used? then m[e.key := e.value] else m
  }

  ghost predicate DistinctKeys<K, V>(s: seq<Slot<K, V>>) {
    forall i, j | 0 <= i < j < |s| && s[i].Used? && s[j].Used? :: s[i].key != s[j].key
  }

  ghost predicate NoKey<K, V>(s: seq<Slot<K, V>>, k: K) {
    forall i | 0 <= i < |s| && s[i].Used? :: s[i].key != k
  }

  lemma {:induction false} NoKeyModel<K, V>(s: seq<Slot<K, V>>, k: K)
    requires NoKey(s, k)
    ensures k !in Model(s)
  {
    if s != [] {
      var p := s[..|s| - 1];
      assert forall i | 0 <= i < |p| :: p[i] == s[i];
      NoKeyModel(p, k);
    }
  }

  lemma {:induction false} ModelAt<K, V>(s: seq<Slot<K, V>>, j: nat)
    requires DistinctKeys(s) && j < |s| && s[j].Used?
    ensures s[j].key in Model(s) && Model(s)[s[j].key] == s[j].value
  {
    var n := |s| - 1;
    if j < n {
      var p := s[..n];
      assert forall i | 0 <= i < |p| :: p[i] == s[i];
      ModelAt(p, j);
      assert p[j] == s[j];
    }
  }

  /** A slot is rewritten: what that does to the map and to the number of elements. */
  lemma {:induction false} Rewrite<K, V>(s: seq<Slot<K, V>>, j: nat, x: Slot<K, V>)
    requires DistinctKeys(s) && j < |s|
    requires x.Used? ==> DistinctKeys(s[j := x])
    ensures var t, m := s[j := x], if s[j].Used? then Model(s) - {s[j].key} else Model(s);
      && Model(t) == (if x.Used? then m[x.key := x.value] else m)
      && UsedCount(t) == UsedCount(s) - (if s[j].Used? then 1 else 0) + (if x.Used? then 1 else 0)
      && DistinctKeys(t)
  {
    var n := |s| - 1;
    var t := s[j := x];
    var p := s[..n];
    assert forall i | 0 <= i < |p| :: p[i] == s[i];
    if j == n {
      assert t[..n] == p;
      if s[n].Used? {
        NoKeyModel(p, s[n].key);
      }
      if x.Used? {
        assert forall i | 0 <= i < n && p[i].Used? :: t[i] == p[i] && p[i].key != t[n].key;
        NoKeyModel(p, x.key);
      }
    } else {
      assert t[..n] == p[j := x];
      if x.Used? {
        assert forall i | 0 <= i < n :: t[i] == p[j := x][i];
      }
      Rewrite(p, j, x);
      if s[n].Used? {
        assert p[j].Used? ==> s[j].key != s[n].key;
        assert x.Used? ==> t[j] == x && t[n] == s[n];
      }
    }
  }

  lemma {:induction false} FreeSlot<K, V>(s: seq<Slot<K, V>>) returns (f: nat)
    requires UsedCount(s) < |s|
    ensures f < |s| && s[f].Free?
  {
    var n := |s| - 1;
    if s[n].Free? {
      f := n;
    } else {
      f := FreeSlot(s[..n]);
    }
  }

  lemma {:induction false} CountIsSize<K, V>(s: seq<Slot<K, V>>)
    requires DistinctKeys(s)
    ensures |Model(s)| == UsedCount(s)
  {
    if s != [] {
      var p := s[..|s| - 1];
      assert forall i | 0 <= i < |p| :: p[i] == s[i];
      CountIsSize(p);
      if s[|s| - 1].Used? {
        NoKeyModel(p, s[|s| - 1].key);
      }
    }
  }

  // ----- rings

  /** The slots of a bucket in the order of their next links, the root first. */
  type Ring = seq<nat>

  function NextOn(ring: Ring, i: nat): nat
    requires i < |ring|
  {
    if i + 1 < |ring| then ring[i + 1] else ring[0]
  }

  function PrevOn(ring: Ring, i: nat): nat
    requires i < |ring|
  {
    if i > 0 then ring[i - 1] else ring[|ring| - 1]
  }

  ghost predicate PlaceOk<K, V>(s: seq<Slot<K, V>>, h: nat, ring: Ring, i: nat, hm: Homes<K>)
    requires i < |ring| && hm.Valid()
  {
    var j := ring[i];
    && j < |s| && s[j].Used? && s[j].next == NextOn(ring, i) && s[j].prev == PrevOn(ring, i)
    && (s[j].isRoot <==> i == 0) && hm.Of(s[j].key) == h
  }

  predicate NoRepeat(ring: Ring) {
    forall i, j | 0 <= i < j < |ring| :: ring[i] != ring[j]
  }

  /** The ring of the bucket h: empty, or rooted at slot h. */
  ghost predicate RingOk<K, V>(s: seq<Slot<K, V>>, h: nat, ring: Ring, hm: Homes<K>)
    requires hm.Valid()
  {
    && (ring != [] ==> ring[0] == h) && NoRepeat(ring)
    && (forall i | 0 <= i < |ring| :: PlaceOk(s, h, ring, i, hm))
  }

  /** Every slot in use is on the ring of its key's home slot, and nothing else is on a ring. */
  ghost predicate Table<K, V>(s: seq<Slot<K, V>>, rings: seq<Ring>, hm: Homes<K>) {
    && hm.Valid() && |rings| == |s| == hm.slots && DistinctKeys(s)
    && (forall h | 0 <= h < |rings| :: RingOk(s, h, rings[h], hm))
    && (forall j | 0 <= j < |s| && s[j].Used? :: j in rings[hm.Of(s[j].key)])
  }

  /** The place of a slot on its ring. */
  lemma PlaceOf<K, V>(s: seq<Slot<K, V>>, rings: seq<Ring>, hm: Homes<K>, j: nat) returns (h: nat, i: nat)
    requires Table(s, rings, hm) && j < |s| && s[j].Used?
    ensures h == hm.Of(s[j].key) && h < |rings| && i < |rings[h]| && rings[h][i] == j
    ensures RingOk(s, h, rings[h], hm) && PlaceOk(s, h, rings[h], i, hm)
  {
    h := hm.Of(s[j].key);
    i :| 0 <= i < |rings[h]| && rings[h][i] == j;
  }

  /** Roots are the used slots that hold a key of their own. */
  lemma RootIsHome<K, V>(s: seq<Slot<K, V>>, rings: seq<Ring>, hm: Homes<K>, j: nat)
    requires Table(s, rings, hm) && j < |s| && s[j].Used?
    ensures s[j].isRoot <==> hm.Of(s[j].key) == j
    ensures rings[j] != [] <==> s[j].isRoot
  {
    var h, i := PlaceOf(s, rings, hm, j);
    if rings[j] != [] {
      assert RingOk(s, j, rings[j], hm) && PlaceOk(s, j, rings[j], 0, hm);
    }
  }

  /** A slot is on one ring only, and there only once. */
  lemma OnOneRing<K, V>(s: seq<Slot<K, V>>, rings: seq<Ring>, hm: Homes<K>, h: nat, i: nat, g: nat, j: nat)
    requires Table(s, rings, hm) && h < |rings| && i < |rings[h]| && g < |rings| && j < |rings[g]|
    requires rings[h][i] == rings[g][j]
    ensures h == g && i == j
  {
    assert RingOk(s, h, rings[h], hm) && PlaceOk(s, h, rings[h], i, hm);
    assert RingOk(s, g, rings[g], hm) && PlaceOk(s, g, rings[g], j, hm);
  }

  /** Following next and prev, in either order, comes back; and next stays among the keys of one home slot. */
  lemma LinksInverse<K, V>(s: seq<Slot<K, V>>, rings: seq<Ring>, hm: Homes<K>, j: nat)
    requires Table(s, rings, hm) && j < |s| && s[j].Used?
    ensures s[j].next < |s| && s[s[j].next].Used? && s[s[j].next].prev == j
    ensures s[j].prev < |s| && s[s[j].prev].Used? && s[s[j].prev].next == j
    ensures hm.Of(s[s[j].next].key) == hm.Of(s[j].key)
  {
    var h, i := PlaceOf(s, rings, hm, j);
    var r := rings[h];
    var n, p := if i + 1 < |r| then i + 1 else 0, if i > 0 then i - 1 else |r| - 1;
    assert PlaceOk(s, h, r, n, hm) && PlaceOk(s, h, r, p, hm);
  }

  lemma FreeHasNoRing<K, V>(s: seq<Slot<K, V>>, rings: seq<Ring>, hm: Homes<K>, j: nat)
    requires Table(s, rings, hm) && j < |s| && s[j].Free?
    ensures rings[j] == []
    ensures forall h, i | 0 <= h < |rings| && 0 <= i < |rings[h]| :: rings[h][i] != j
  {
    forall h, i | 0 <= h < |rings| && 0 <= i < |rings[h]|
      ensures rings[h][i] != j
    {
      assert RingOk(s, h, rings[h], hm) && PlaceOk(s, h, rings[h], i, hm);
    }
    assert RingOk(s, j, rings[j], hm);
  }

  /** Only the ring h changes, and it takes no slot from another ring. */
  ghost predicate OnlyRing<K, V>(s: seq<Slot<K, V>>, t: seq<Slot<K, V>>, was: Ring, ring: Ring) {
    && |s| == |t|
    && (forall j | 0 <= j < |s| && j !in was && j !in ring :: t[j] == s[j])
    && (forall j | 0 <= j < |s| && j in ring && j !in was :: s[j].Free?)
    && (forall j | 0 <= j < |s| && j in was && j !in ring :: t[j].Free?)
  }

  lemma OneRing<K, V>(s: seq<Slot<K, V>>, t: seq<Slot<K, V>>, rings: seq<Ring>, hm: Homes<K>, h: nat, ring: Ring)
    requires Table(s, rings, hm) && h < |rings| && DistinctKeys(t) && RingOk(t, h, ring, hm)
    requires OnlyRing(s, t, rings[h], ring)
    ensures Table(t, rings[h := ring], hm)
  {
    var rs := rings[h := ring];
    forall g | 0 <= g < |rs|
      ensures RingOk(t, g, rs[g], hm)
    {
      assert RingOk(s, g, rings[g], hm) && RingOk(s, h, rings[h], hm);
      if g != h {
        OtherRing(s, t, g, rings[g], h, rings[h], ring, hm);
      }
    }
    forall j | 0 <= j < |t| && t[j].Used?
      ensures j in rs[hm.Of(t[j].key)]
    {
      if j in ring {
        var i :| 0 <= i < |ring| && ring[i] == j;
        assert PlaceOk(t, h, ring, i, hm);
      } else {
        assert j !in rings[h];
      }
    }
  }

  lemma OtherRing<K, V>(s: seq<Slot<K, V>>, t: seq<Slot<K, V>>, g: nat, other: Ring, h: nat, was: Ring, ring: Ring,
                        hm: Homes<K>)
    requires hm.Valid() && g != h && RingOk(s, g, other, hm) && RingOk(s, h, was, hm) && OnlyRing(s, t, was, ring)
    ensures RingOk(t, g, other, hm)
  {
    forall i | 0 <= i < |other|
      ensures PlaceOk(t, g, other, i, hm)
    {
      assert PlaceOk(s, g, other, i, hm);
      var j := other[i];
      forall k | 0 <= k < |was|
        ensures was[k] != j
      {
        assert PlaceOk(s, h, was, k, hm);
      }
      assert t[j] == s[j];
    }
  }
}
