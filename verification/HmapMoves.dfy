/** What inserting and deleting does to the rings of the hash map in include/hmap.h and to the map it holds. */
module HmapMoves {
  import opened HmapTable

  // ----- the same elements in the same slots, whatever the links

  ghost predicate SameElements<K, V>(s: seq<Slot<K, V>>, t: seq<Slot<K, V>>) {
    && |s| == |t|
    && (forall j | 0 <= j < |s| :: s[j].Used? == t[j].Used?)
    && (forall j | 0 <= j < |s| && s[j].Used? :: s[j].key == t[j].key && s[j].value == t[j].value)
  }

  lemma {:induction false} SameModel<K, V>(s: seq<Slot<K, V>>, t: seq<Slot<K, V>>)
    requires SameElements(s, t)
    ensures Model(s) == Model(t) && UsedCount(s) == UsedCount(t) && (DistinctKeys(s) ==> DistinctKeys(t))
  {
    if s != [] {
      var n := |s| - 1;
      assert forall i | 0 <= i < n :: s[..n][i] == s[i] && t[..n][i] == t[i];
      SameModel(s[..n], t[..n]);
      assert s[n].Used? == t[n].Used?;
    }
  }

  /** An element written into a slot, with links to be made. */
  function Elem<K, V>(k: K, v: V): Slot<K, V> {
    Used(0, false, 0, k, v)
  }

  lemma AddElement<K, V>(s: seq<Slot<K, V>>, t: seq<Slot<K, V>>, f: nat, k: K, v: V)
    requires DistinctKeys(s) && f < |s| && s[f].Free? && NoKey(s, k) && SameElements(s[f := Elem(k, v)], t)
    ensures Model(t) == Model(s)[k := v] && UsedCount(t) == UsedCount(s) + 1 && DistinctKeys(t)
  {
    Rewrite(s, f, Elem(k, v));
    SameModel(s[f := Elem(k, v)], t);
  }

  lemma DropElement<K, V>(s: seq<Slot<K, V>>, t: seq<Slot<K, V>>, j: nat)
    requires DistinctKeys(s) && j < |s| && s[j].Used? && SameElements(s[j := Free], t)
    ensures Model(t) == Model(s) - {s[j].key} && UsedCount(t) == UsedCount(s) - 1 && DistinctKeys(t)
  {
    Rewrite(s, j, Free);
    SameModel(s[j := Free], t);
  }

  lemma MoveElement<K, V>(s: seq<Slot<K, V>>, t: seq<Slot<K, V>>, j: nat, f: nat)
    requires DistinctKeys(s) && j < |s| && f < |s| && s[j].Used? && s[f].Free?
    requires SameElements(s[j := Free][f := Elem(s[j].key, s[j].value)], t)
    ensures Model(t) == Model(s) && UsedCount(t) == UsedCount(s) && DistinctKeys(t)
  {
    Rewrite(s, j, Free);
    ModelAt(s, j);
    Rewrite(s[j := Free], f, Elem(s[j].key, s[j].value));
    SameModel(s[j := Free][f := Elem(s[j].key, s[j].value)], t);
    assert (Model(s) - {s[j].key})[s[j].key := s[j].value] == Model(s);
  }

  // ----- links

  function SetNext<K, V>(s: seq<Slot<K, V>>, j: nat, next: nat): seq<Slot<K, V>>
    requires j < |s| && s[j].Used?
  {
    s[j := s[j].(next := next)]
  }

  /** Writing prev writes the root bit too. */
  function SetPrev<K, V>(s: seq<Slot<K, V>>, j: nat, prev: nat, root: bool): seq<Slot<K, V>>
    requires j < |s| && s[j].Used?
  {
    s[j := s[j].(prev := prev, isRoot := root)]
  }

  // ----- insertion

  lemma NewRoot<K, V>(s: seq<Slot<K, V>>, rings: seq<Ring>, hm: Homes<K>, h: nat, k: K, v: V)
    requires Table(s, rings, hm) && h < |s| && s[h].Free? && hm.Of(k) == h && NoKey(s, k)
    ensures var t := s[h := Used(h, true, h, k, v)];
      Table(t, rings[h := [h]], hm) && Model(t) == Model(s)[k := v] && UsedCount(t) == UsedCount(s) + 1
  {
    var t := s[h := Used(h, true, h, k, v)];
    FreeHasNoRing(s, rings, hm, h);
    AddElement(s, t, h, k, v);
    assert PlaceOk(t, h, [h], 0, hm);
    OneRing(s, t, rings, hm, h, [h]);
  }

  /** The slot is used, and so is the next one. */
  predicate CanAppend<K, V>(s: seq<Slot<K, V>>, h: nat) {
    h < |s| && s[h].Used? && s[h].next < |s| && s[s[h].next].Used?
  }

  /** The slot is a root: the new element goes to a free slot, right after the root on its ring. */
  function Appended<K, V>(s: seq<Slot<K, V>>, h: nat, f: nat, k: K, v: V): seq<Slot<K, V>>
    requires CanAppend(s, h) && f < |s| && f != h
  {
    var a := s[h].next;
    var s1 := s[f := Used(h, false, a, k, v)];
    var s2 := SetPrev(s1, a, f, false);
    var s3 := SetNext(s2, h, f);
    SetPrev(s3, h, s3[h].prev, true)
  }

  lemma AppendedPlace<K, V>(s: seq<Slot<K, V>>, hm: Homes<K>, h: nat, r: Ring, f: nat, k: K, v: V, j: nat)
    requires hm.Valid() && RingOk(s, h, r, hm) && r != [] && f < |s| && s[f].Free? && hm.Of(k) == h
    requires j <= |r|
    ensures CanAppend(s, h) && f != h
    ensures PlaceOk(Appended(s, h, f, k, v), h, [h, f] + r[1..], j, hm)
  {
    assert PlaceOk(s, h, r, 0, hm);
    if |r| > 1 {
      assert PlaceOk(s, h, r, 1, hm);
    }
    if j >= 2 {
      assert PlaceOk(s, h, r, j - 1, hm);
    }
  }

  lemma AppendedRing<K, V>(s: seq<Slot<K, V>>, hm: Homes<K>, h: nat, r: Ring, f: nat, k: K, v: V)
    requires hm.Valid() && RingOk(s, h, r, hm) && r != [] && f < |s| && s[f].Free? && hm.Of(k) == h
    ensures CanAppend(s, h) && f != h
    ensures RingOk(Appended(s, h, f, k, v), h, [h, f] + r[1..], hm)
  {
    hide PlaceOk, Appended, CanAppend;
    AppendedPlace(s, hm, h, r, f, k, v, 0);
    var t, ring := Appended(s, h, f, k, v), [h, f] + r[1..];
    forall j | 0 <= j < |ring|
      ensures PlaceOk(t, h, ring, j, hm)
    {
      AppendedPlace(s, hm, h, r, f, k, v, j);
    }
    OffRing(s, hm, h, r, f);
  }

  lemma OffRing<K, V>(s: seq<Slot<K, V>>, hm: Homes<K>, h: nat, r: Ring, f: nat)
    requires hm.Valid() && RingOk(s, h, r, hm) && f < |s| && s[f].Free?
    ensures forall i | 0 <= i < |r| :: r[i] != f
  {
    forall i | 0 <= i < |r|
      ensures r[i] != f
    {
      assert PlaceOk(s, h, r, i, hm);
    }
  }

  /** A slot and its neighbours on the ring. */
  lemma Neighbours<K, V>(s: seq<Slot<K, V>>, hm: Homes<K>, h: nat, r: Ring, i: nat)
    requires hm.Valid() && RingOk(s, h, r, hm) && i < |r|
    ensures CanUnlink(s, r[i]) && s[r[i]].prev in r && s[r[i]].next in r
    ensures |r| > 1 ==> s[r[i]].prev != r[i] && s[r[i]].next != r[i]
    ensures |r| == 1 ==> s[r[i]].next == r[i]
  {
    var n, p := if i + 1 < |r| then i + 1 else 0, if i > 0 then i - 1 else |r| - 1;
    assert PlaceOk(s, h, r, i, hm) && PlaceOk(s, h, r, n, hm) && PlaceOk(s, h, r, p, hm);
    assert s[r[i]].next == r[n] && s[r[i]].prev == r[p];
  }

  lemma AppendedOnly<K, V>(s: seq<Slot<K, V>>, hm: Homes<K>, h: nat, r: Ring, f: nat, k: K, v: V)
    requires hm.Valid() && RingOk(s, h, r, hm) && r != [] && f < |s| && s[f].Free?
    ensures CanAppend(s, h) && f != h
    ensures var t := Appended(s, h, f, k, v);
      OnlyRing(s, t, r, [h, f] + r[1..]) && SameElements(s[f := Elem(k, v)], t)
  {
    hide RingOk;
    RootFirst(s, h, r, hm);
    Neighbours(s, hm, h, r, 0);
    OffRing(s, hm, h, r, f);
    assert r == [h] + r[1..];
  }

  lemma RootFirst<K, V>(s: seq<Slot<K, V>>, h: nat, r: Ring, hm: Homes<K>)
    requires hm.Valid() && RingOk(s, h, r, hm)
    ensures (r != [] ==> r[0] == h) && NoRepeat(r)
  {
  }

  lemma AppendedTable<K, V>(s: seq<Slot<K, V>>, rings: seq<Ring>, hm: Homes<K>, h: nat, f: nat, k: K, v: V)
    returns (ring: Ring)
    requires Table(s, rings, hm) && h < |s| && f < |s| && s[h].Used? && s[h].isRoot && s[f].Free?
    requires hm.Of(k) == h && NoKey(s, k)
    ensures CanAppend(s, h)
    ensures var t := Appended(s, h, f, k, v);
      Table(t, rings[h := ring], hm) && Model(t) == Model(s)[k := v] && UsedCount(t) == UsedCount(s) + 1
  {
    hide RingOk, PlaceOk, OnlyRing, SameElements, Model, UsedCount, Appended;
    RootIsHome(s, rings, hm, h);
    AppendedRing(s, hm, h, rings[h], f, k, v);
    AppendedOnly(s, hm, h, rings[h], f, k, v);
    var t := Appended(s, h, f, k, v);
    ring := [h, f] + rings[h][1..];
    AddElement(s, t, f, k, v);
    OneRing(s, t, rings, hm, h, ring);
  }

  /** The slot is used, and so are its neighbours. */
  predicate CanUnlink<K, V>(s: seq<Slot<K, V>>, j: nat) {
    && j < |s| && s[j].Used?
    && s[j].prev < |s| && s[s[j].prev].Used? && s[j].next < |s| && s[s[j].next].Used?
  }

  /** The slot holds a foreign element: it moves to a free slot and is linked there in its place. */
  function Evicted<K, V>(s: seq<Slot<K, V>>, h: nat, f: nat): (t: seq<Slot<K, V>>)
    requires CanUnlink(s, h) && f < |s| && f != h
    ensures |t| == |s|
  {
    var p, x := s[h].prev, s[h].next;
    var s1 := s[f := Used(p, false, x, s[h].key, s[h].value)];
    var s2 := SetNext(s1, p, f);
    SetPrev(s2, x, f, s2[x].isRoot)
  }

  lemma EvictedPlace<K, V>(s: seq<Slot<K, V>>, hm: Homes<K>, g: nat, r: Ring, i: nat, f: nat, j: nat)
    requires hm.Valid() && RingOk(s, g, r, hm) && 1 <= i < |r| && f < |s| && s[f].Free? && j < |r|
    ensures CanUnlink(s, r[i]) && f != r[i]
    ensures PlaceOk(Evicted(s, r[i], f)[r[i] := Free], g, r[i := f], j, hm)
  {
    var m := |r|;
    assert PlaceOk(s, g, r, i, hm) && PlaceOk(s, g, r, i - 1, hm);
    assert PlaceOk(s, g, r, if i + 1 < m then i + 1 else 0, hm);
    assert PlaceOk(s, g, r, j, hm);
  }

  lemma EvictedRing<K, V>(s: seq<Slot<K, V>>, hm: Homes<K>, g: nat, r: Ring, i: nat, f: nat)
    requires hm.Valid() && RingOk(s, g, r, hm) && 1 <= i < |r| && f < |s| && s[f].Free?
    ensures CanUnlink(s, r[i]) && f != r[i]
    ensures RingOk(Evicted(s, r[i], f)[r[i] := Free], g, r[i := f], hm)
  {
    hide PlaceOk, Evicted, CanUnlink;
    EvictedPlace(s, hm, g, r, i, f, 0);
    var t, ring := Evicted(s, r[i], f)[r[i] := Free], r[i := f];
    forall j | 0 <= j < |ring|
      ensures PlaceOk(t, g, ring, j, hm)
    {
      EvictedPlace(s, hm, g, r, i, f, j);
    }
    OffRing(s, hm, g, r, f);
  }

  lemma EvictedOnly<K, V>(s: seq<Slot<K, V>>, hm: Homes<K>, g: nat, r: Ring, i: nat, f: nat)
    requires hm.Valid() && RingOk(s, g, r, hm) && 1 <= i < |r| && f < |s| && s[f].Free?
    ensures CanUnlink(s, r[i]) && f != r[i]
    ensures var h := r[i]; var t := Evicted(s, h, f)[h := Free];
      OnlyRing(s, t, r, r[i := f]) && SameElements(s[h := Free][f := Elem(s[h].key, s[h].value)], t)
  {
    hide RingOk;
    RootFirst(s, g, r, hm);
    Neighbours(s, hm, g, r, i);
    OffRing(s, hm, g, r, f);
    var ring := r[i := f];
    assert ring[i] == f;
    assert forall j | 0 <= j < |r| && j != i :: ring[j] == r[j];
  }

  lemma EvictedTable<K, V>(s: seq<Slot<K, V>>, rings: seq<Ring>, hm: Homes<K>, h: nat, f: nat)
    returns (g: nat, ring: Ring)
    requires Table(s, rings, hm) && h < |s| && f < |s| && s[h].Used? && !s[h].isRoot && s[f].Free?
    ensures CanUnlink(s, h) && g < |rings| && g != h
    ensures var t := Evicted(s, h, f)[h := Free];
      Table(t, rings[g := ring], hm) && Model(t) == Model(s) && UsedCount(t) == UsedCount(s)
  {
    hide RingOk, OnlyRing, SameElements, Model, UsedCount, Evicted, CanUnlink;
    var i;
    g, i := PlaceOf(s, rings, hm, h);
    RootIsHome(s, rings, hm, h);
    EvictedRing(s, hm, g, rings[g], i, f);
    EvictedOnly(s, hm, g, rings[g], i, f);
    var t := Evicted(s, h, f)[h := Free];
    ring := rings[g][i := f];
    MoveElement(s, t, h, f);
    OneRing(s, t, rings, hm, g, ring);
  }

  // ----- deletion

  lemma OnlyOneTable<K, V>(s: seq<Slot<K, V>>, rings: seq<Ring>, hm: Homes<K>, j: nat)
    requires Table(s, rings, hm) && j < |s| && s[j].Used? && s[j].next == j
    ensures var t := s[j := Free];
      && Table(t, rings[j := []], hm) && Model(t) == Model(s) - {s[j].key} && UsedCount(t) == UsedCount(s) - 1
  {
    var t := s[j := Free];
    var h, i := PlaceOf(s, rings, hm, j);
    assert |rings[h]| == 1;
    DropElement(s, t, j);
    OneRing(s, t, rings, hm, h, []);
  }

  /** The slot is used and not alone, and so are the next two on its ring. */
  predicate CanFill<K, V>(s: seq<Slot<K, V>>, h: nat) {
    && h < |s| && s[h].Used? && s[h].next < |s| && s[h].next != h
    && s[s[h].next].Used? && s[s[h].next].next < |s| && s[s[s[h].next].next].Used?
  }

  /** The slot is a root with others on its ring: the next element moves into it. */
  function RootFilled<K, V>(s: seq<Slot<K, V>>, h: nat): seq<Slot<K, V>>
    requires CanFill(s, h)
  {
    var x := s[h].next;
    var y := s[x].next;
    var s1 := SetNext(s, h, y);
    var s2 := if y == h then SetPrev(s1, h, h, true) else SetPrev(s1, y, h, false);
    s2[h := s2[h].(key := s[x].key, value := s[x].value)][x := Free]
  }

  lemma RootFilledPlace<K, V>(s: seq<Slot<K, V>>, hm: Homes<K>, h: nat, r: Ring, j: nat)
    requires hm.Valid() && RingOk(s, h, r, hm) && |r| > 1 && j + 1 < |r|
    ensures CanFill(s, h)
    ensures PlaceOk(RootFilled(s, h), h, [h] + r[2..], j, hm)
  {
    var m := |r|;
    assert PlaceOk(s, h, r, 0, hm) && PlaceOk(s, h, r, 1, hm) && PlaceOk(s, h, r, m - 1, hm);
    if m > 2 {
      assert PlaceOk(s, h, r, 2, hm);
    }
    assert PlaceOk(s, h, r, j + 1, hm);
  }

  lemma RootFilledRing<K, V>(s: seq<Slot<K, V>>, hm: Homes<K>, h: nat, r: Ring)
    requires hm.Valid() && RingOk(s, h, r, hm) && |r| > 1
    ensures CanFill(s, h) && RingOk(RootFilled(s, h), h, [h] + r[2..], hm)
  {
    hide PlaceOk, RootFilled, CanFill;
    RootFilledPlace(s, hm, h, r, 0);
    var t, ring := RootFilled(s, h), [h] + r[2..];
    forall j | 0 <= j < |ring|
      ensures PlaceOk(t, h, ring, j, hm)
    {
      RootFilledPlace(s, hm, h, r, j);
    }
  }

  lemma RootFilledFrame<K, V>(s: seq<Slot<K, V>>, h: nat)
    requires CanFill(s, h) && s[s[h].next].next != s[h].next
    ensures var t, x := RootFilled(s, h), s[h].next;
      && |t| == |s| && t[x].Free? && (forall j | 0 <= j < |s| && j != h && j != x && j != s[x].next :: t[j] == s[j])
      && SameElements(s[x := Free][h := Elem(s[x].key, s[x].value)], t)
  {
  }

  lemma RootFilledOnly<K, V>(s: seq<Slot<K, V>>, hm: Homes<K>, h: nat, r: Ring)
    requires hm.Valid() && RingOk(s, h, r, hm) && |r| > 1
    ensures CanFill(s, h)
    ensures var x := s[h].next; var t := RootFilled(s, h);
      x != h && OnlyRing(s, t, r, [h] + r[2..]) && SameElements(s[x := Free][h := Elem(s[x].key, s[x].value)], t)
  {
    hide RingOk, PlaceOk, RootFilled, SameElements;
    RootFirst(s, h, r, hm);
    SecondIs(s, hm, h, r);
    Neighbours(s, hm, h, r, 0);
    Neighbours(s, hm, h, r, 1);
    RootFilledFrame(s, h);
    assert r == [h, r[1]] + r[2..];
  }

  lemma SecondIs<K, V>(s: seq<Slot<K, V>>, hm: Homes<K>, h: nat, r: Ring)
    requires hm.Valid() && RingOk(s, h, r, hm) && |r| > 1
    ensures h < |s| && s[h].Used? && s[h].next == r[1]
  {
    assert PlaceOk(s, h, r, 0, hm);
  }

  lemma RootFilledTable<K, V>(s: seq<Slot<K, V>>, rings: seq<Ring>, hm: Homes<K>, h: nat) returns (ring: Ring)
    requires Table(s, rings, hm) && h < |s| && s[h].Used? && s[h].isRoot && s[h].next != h
    ensures CanFill(s, h)
    ensures var t := RootFilled(s, h);
      Table(t, rings[h := ring], hm) && Model(t) == Model(s) - {s[h].key} && UsedCount(t) == UsedCount(s) - 1
  {
    hide RingOk, OnlyRing, SameElements, Model, UsedCount, RootFilled;
    RootIsHome(s, rings, hm, h);
    var g, i := PlaceOf(s, rings, hm, h);
    assert PlaceOk(s, h, rings[h], i, hm);
    RootFilledRing(s, hm, h, rings[h]);
    RootFilledOnly(s, hm, h, rings[h]);
    var t := RootFilled(s, h);
    ring := [h] + rings[h][2..];
    RootFilledModel(s, t, h, s[h].next);
    OneRing(s, t, rings, hm, h, ring);
  }

  lemma RootFilledModel<K, V>(s: seq<Slot<K, V>>, t: seq<Slot<K, V>>, h: nat, x: nat)
    requires DistinctKeys(s) && h < |s| && x < |s| && h != x && s[h].Used? && s[x].Used?
    requires SameElements(s[x := Free][h := Elem(s[x].key, s[x].value)], t)
    ensures Model(t) == Model(s) - {s[h].key} && UsedCount(t) == UsedCount(s) - 1 && DistinctKeys(t)
  {
    var s1 := s[x := Free];
    Rewrite(s, x, Free);
    ModelAt(s, x);
    Rewrite(s1, h, Elem(s[x].key, s[x].value));
    SameModel(s1[h := Elem(s[x].key, s[x].value)], t);
    assert (Model(s) - {s[x].key} - {s[h].key})[s[x].key := s[x].value] == Model(s) - {s[h].key};
  }

  /** The slot is not a root: it leaves its ring. */
  function Unlinked<K, V>(s: seq<Slot<K, V>>, j: nat): seq<Slot<K, V>>
    requires CanUnlink(s, j)
  {
    var p, x := s[j].prev, s[j].next;
    var s1 := SetNext(s, p, x);
    SetPrev(s1, x, p, s1[x].isRoot)[j := Free]
  }

  /** What unlinking changes in another used slot: a link that led to the slot leads past it. */
  lemma UnlinkedSlot<K, V>(s: seq<Slot<K, V>>, j: nat, q: nat)
    requires CanUnlink(s, j) && q < |s| && q != j && s[q].Used?
    ensures |Unlinked(s, j)| == |s| && Unlinked(s, j)[q] ==
      s[q].(next := if q == s[j].prev then s[j].next else s[q].next,
            prev := if q == s[j].next then s[j].prev else s[q].prev)
  {
  }

  lemma UnlinkedPlace<K, V>(s: seq<Slot<K, V>>, hm: Homes<K>, g: nat, r: Ring, i: nat, k: nat)
    requires hm.Valid() && RingOk(s, g, r, hm) && 1 <= i < |r| && k + 1 < |r|
    ensures CanUnlink(s, r[i])
    ensures PlaceOk(Unlinked(s, r[i]), g, r[..i] + r[i + 1..], k, hm)
  {
    hide Unlinked;
    var m, o := |r|, if k < i then k else k + 1;
    assert PlaceOk(s, g, r, i, hm) && PlaceOk(s, g, r, i - 1, hm);
    assert PlaceOk(s, g, r, if i + 1 < m then i + 1 else 0, hm);
    assert PlaceOk(s, g, r, o, hm);
    assert r[o] != r[i];
    UnlinkedSlot(s, r[i], r[o]);
  }

  lemma UnlinkedRing<K, V>(s: seq<Slot<K, V>>, hm: Homes<K>, g: nat, r: Ring, i: nat)
    requires hm.Valid() && RingOk(s, g, r, hm) && 1 <= i < |r|
    ensures CanUnlink(s, r[i]) && RingOk(Unlinked(s, r[i]), g, r[..i] + r[i + 1..], hm)
  {
    hide PlaceOk, Unlinked, CanUnlink;
    UnlinkedPlace(s, hm, g, r, i, 0);
    var t, ring := Unlinked(s, r[i]), r[..i] + r[i + 1..];
    forall k | 0 <= k < |ring|
      ensures PlaceOk(t, g, ring, k, hm)
    {
      UnlinkedPlace(s, hm, g, r, i, k);
    }
  }

  lemma UnlinkedOnly<K, V>(s: seq<Slot<K, V>>, hm: Homes<K>, g: nat, r: Ring, i: nat)
    requires hm.Valid() && RingOk(s, g, r, hm) && 1 <= i < |r|
    ensures CanUnlink(s, r[i])
    ensures var t := Unlinked(s, r[i]);
      OnlyRing(s, t, r, r[..i] + r[i + 1..]) && SameElements(s[r[i] := Free], t)
  {
    hide RingOk;
    RootFirst(s, g, r, hm);
    Neighbours(s, hm, g, r, i);
    var ring := r[..i] + r[i + 1..];
    assert forall j | 0 <= j < i :: ring[j] == r[j];
    assert forall j | i < j < |r| :: ring[j - 1] == r[j];
  }

  lemma UnlinkedTable<K, V>(s: seq<Slot<K, V>>, rings: seq<Ring>, hm: Homes<K>, j: nat) returns (g: nat, ring: Ring)
    requires Table(s, rings, hm) && j < |s| && s[j].Used? && !s[j].isRoot
    ensures CanUnlink(s, j) && g < |rings|
    ensures var t := Unlinked(s, j);
      Table(t, rings[g := ring], hm) && Model(t) == Model(s) - {s[j].key} && UsedCount(t) == UsedCount(s) - 1
  {
    hide RingOk, OnlyRing, SameElements, Model, UsedCount, Unlinked, CanUnlink;
    var i;
    g, i := PlaceOf(s, rings, hm, j);
    RootIsHome(s, rings, hm, j);
    UnlinkedRing(s, hm, g, rings[g], i);
    UnlinkedOnly(s, hm, g, rings[g], i);
    var t := Unlinked(s, j);
    ring := rings[g][..i] + rings[g][i + 1..];
    DropElement(s, t, j);
    OneRing(s, t, rings, hm, g, ring);
  }
}
