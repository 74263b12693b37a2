/** The hash map of include/hmap.h: rings of elements threaded through one array of slots. */
module Hmap {
  import opened HmapTable
  import opened HmapMoves

  /** The slot t steps ahead of another, and t steps behind, around the end of the array. */
  function Ahead(ref: nat, t: nat, n: nat): (j: nat)
    requires ref < n && t < n
    ensures j < n
  {
    if ref + t < n then ref + t else ref + t - n
  }

  function Behind(ref: nat, t: nat, n: nat): (j: nat)
    requires ref < n && t < n
    ensures j < n
  {
    if ref >= t then ref - t else ref + n - t
  }

  /** The distance of two slots around the array, the shorter way. */
  function Distance(a: nat, b: nat, n: nat): nat
    requires a < n && b < n
  {
    var d := if a <= b then b - a else a - b;
    if d <= n - d then d else n - d
  }

  lemma Reached(ref: nat, j: nat, n: nat)
    requires ref < n && j < n && ref != j
    ensures var d := Distance(ref, j, n); 1 <= d && 2 * d <= n && (Ahead(ref, d, n) == j || Behind(ref, d, n) == j)
  {
  }

  /** What an operation that may have to grow the map gets from outside: spare slots, the fill limit, a salt. */
  datatype Growth = Growth(extra: nat, fill: nat, salt: nat)

  class Hmap<K(==), V> {
    const hash: (K, nat) -> nat
    const elemLen: nat
    var slots: array<Slot<K, V>>
    var count: nat
    var maxCount: nat
    var salt: nat
    ghost var rings: seq<Ring>

    ghost predicate Sound()
      reads this, slots
    {
      Table(slots[..], rings, Where()) && count == UsedCount(slots[..]) && maxCount < slots.Length
    }

    ghost predicate Valid()
      reads this, slots
    {
      Sound() && count < slots.Length
    }

    function Where(): Homes<K>
      reads this
    {
      Homes(hash, salt, slots.Length, elemLen)
    }

    ghost function Contents(): map<K, V>
      reads this, slots
    {
      Model(slots[..])
    }

    /** `hmap_init_len`: n slots, all free. */
    constructor (hash: (K, nat) -> nat, elemLen: nat, n: nat, fill: nat, salt: nat)
      requires elemLen >= 1 && n >= 1
      ensures Valid() && Contents() == map[] && count == 0 && slots.Length == n && fresh(slots)
      ensures this.hash == hash && this.elemLen == elemLen && this.salt == salt
      ensures maxCount == if fill < n - 1 then fill else n - 1
    {
      this.hash := hash;
      this.elemLen := elemLen;
      this.salt := salt;
      slots := new Slot<K, V>[n](_ => Free);
      count := 0;
      maxCount := if fill < n - 1 then fill else n - 1;
      rings := seq(n, _ => []);
      new;
      NothingUsed(slots[..]);
    }

    static lemma {:induction false} NothingUsed(s: seq<Slot<K, V>>)
      requires forall i | 0 <= i < |s| :: s[i].Free?
      ensures Model(s) == map[] && UsedCount(s) == 0
    {
      if s != [] {
        NothingUsed(s[..|s| - 1]);
      }
    }

    lemma NotHeld(key: K)
      requires Sound()
      ensures key !in Contents() <==> NoKey(slots[..], key)
    {
      var s := slots[..];
      if key !in Contents() {
        forall i | 0 <= i < |s| && s[i].Used?
          ensures s[i].key != key
        {
          ModelAt(s, i);
        }
      } else if NoKey(s, key) {
        NoKeyModel(s, key);
      }
    }

    /** The count field is the number of keys. */
    lemma CountIsKeys()
      requires Sound()
      ensures count == |Contents()|
    {
      CountIsSize(slots[..]);
    }

    /** `hmap_lookup`: the slot that holds the key, or else the slot where it belongs. */
    method Lookup(key: K, mayExist: bool) returns (found: bool, slot: nat)
      requires Sound()
      ensures slot < slots.Length
      ensures found ==>
        && slots[slot].Used? && slots[slot].key == key && key in Contents() && Contents()[key] == slots[slot].value
      ensures !found ==> slot == Where().Of(key)
      ensures if mayExist then found <==> key in Contents() else !found
    {
      hide Model, UsedCount, Table;
      slot := Home(key);
      found := false;
      if mayExist {
        if slots[slot].Used? && slots[slot].isRoot {
          found, slot := SearchRing(key, slot);
        } else {
          NoRoot(key, slot);
        }
      }
      if found {
        HeldAt(slot);
      } else {
        NotHeld(key);
      }
    }

    /** `hmap_hash_to_slot_ptr`. */
    method Home(key: K) returns (slot: nat)
      requires Sound()
      ensures slot < slots.Length && slot == Where().Of(key)
    {
      slot := Where().Of(key);
    }

    lemma HeldAt(slot: nat)
      requires Sound() && slot < slots.Length && slots[slot].Used?
      ensures slots[slot].key in Contents() && Contents()[slots[slot].key] == slots[slot].value
    {
      ModelAt(slots[..], slot);
    }

    /** Around the ring of a root, comparing keys. */
    method SearchRing(key: K, home: nat) returns (found: bool, slot: nat)
      requires Sound() && home < slots.Length && home == Where().Of(key) && slots[home].Used? && slots[home].isRoot
      ensures slot < slots.Length
      ensures if found then slots[slot].Used? && slots[slot].key == key else slot == home && NoKey(slots[..], key)
    {
      hide *;
      ghost var i := 0;
      OnRing(home, 0);
      slot := home;
      while true
        invariant 0 <= i < |rings[home]| && slot == rings[home][i] && slot < slots.Length && slots[slot].Used?
        invariant forall k | 0 <= k < i :: KeyDiffers(rings[home][k], key)
        decreases |rings[home]| - i
      {
        OnRing(home, i);
        if slots[slot].key == key {
          return true, slot;
        }
        Differs(slot, key);
        OnRing(home, i + 1);
        slot := slots[slot].next;
        if slot == home {
          break;
        }
        i := i + 1;
      }
      NotOnRing(key, home);
      return false, home;
    }

    ghost predicate KeyDiffers(j: nat, key: K)
      reads this, slots
    {
      j < slots.Length && slots[j].Used? && slots[j].key != key
    }

    lemma Differs(j: nat, key: K)
      requires j < slots.Length && slots[j].Used? && slots[j].key != key
      ensures KeyDiffers(j, key)
    {
    }

    /** The slot at a place of the ring of a root. */
    lemma OnRing(home: nat, i: nat)
      requires Sound() && home < slots.Length && slots[home].Used? && slots[home].isRoot && i <= |rings[home]|
      ensures |rings| == slots.Length && |rings[home]| > 0 && rings[home][0] == home
      ensures i < |rings[home]| ==>
        var j := rings[home][i];
        j < slots.Length && slots[j].Used? && (j == home ==> i == 0)
        && slots[j].next == if i + 1 < |rings[home]| then rings[home][i + 1] else home
    {
      RootIsHome(slots[..], rings, Where(), home);
      assert RingOk(slots[..], home, rings[home], Where());
      if i < |rings[home]| {
        assert PlaceOk(slots[..], home, rings[home], i, Where());
      }
    }

    /** The whole ring of the home slot was passed without finding the key. */
    lemma NotOnRing(key: K, home: nat)
      requires Sound() && home == Where().Of(key)
      requires forall k | 0 <= k < |rings[home]| :: KeyDiffers(rings[home][k], key)
      ensures NoKey(slots[..], key)
    {
      var s := slots[..];
      forall j | 0 <= j < |s| && s[j].Used?
        ensures s[j].key != key
      {
        var h, i := PlaceOf(s, rings, Where(), j);
      }
    }

    /** The home slot is free, or holds a foreign element. */
    lemma NoRoot(key: K, home: nat)
      requires Sound() && home == Where().Of(key) && !(slots[home].Used? && slots[home].isRoot)
      ensures NoKey(slots[..], key)
    {
      var s := slots[..];
      forall j | 0 <= j < |s| && s[j].Used?
        ensures s[j].key != key
      {
        var h, i := PlaceOf(s, rings, Where(), j);
        assert PlaceOk(s, h, rings[h], 0, Where());
      }
    }

    /** `hmap_scan_free_slot`: the nearest free slot around the array; ahead, if two are equally near. */
    method ScanFreeSlot(ref: nat) returns (free: nat)
      requires ref < slots.Length && slots[ref].Used? && exists f | 0 <= f < slots.Length :: slots[f].Free?
      ensures free < slots.Length && slots[free].Free?
      ensures forall f | 0 <= f < slots.Length && slots[f].Free? ::
                Distance(ref, free, slots.Length) <= Distance(ref, f, slots.Length)
      ensures var d := Distance(ref, free, slots.Length);
        free == Ahead(ref, d, slots.Length) || slots[Ahead(ref, d, slots.Length)].Used?
    {
      var n := slots.Length;
      var fwd, rev := ref, ref;
      ghost var t := 0;
      ghost var f :| 0 <= f < n && slots[f].Free?;
      Reached(ref, f, n);
      while true
        invariant 0 <= t < n && fwd == Ahead(ref, t, n) && rev == Behind(ref, t, n)
        invariant forall u | 0 <= u <= t :: slots[Ahead(ref, u, n)].Used? && slots[Behind(ref, u, n)].Used?
        invariant t < Distance(ref, f, n)
        decreases n - t
      {
        t := t + 1;
        fwd := if fwd + 1 >= n then 0 else fwd + 1;
        if slots[fwd].Free? {
          Nearest(ref, t, fwd);
          return fwd;
        }
        rev := (if rev > 0 then rev else n) - 1;
        if slots[rev].Free? {
          Nearest(ref, t, rev);
          return rev;
        }
      }
    }

    /** A free slot found after t steps is nearest if every slot fewer steps away is in use. */
    lemma Nearest(ref: nat, t: nat, free: nat)
      requires ref < slots.Length && free < slots.Length && 1 <= t && 2 * t <= slots.Length
      requires free == Ahead(ref, t, slots.Length) || free == Behind(ref, t, slots.Length)
      requires forall u | 0 <= u < t ::
                 slots[Ahead(ref, u, slots.Length)].Used? && slots[Behind(ref, u, slots.Length)].Used?
      ensures Distance(ref, free, slots.Length) == t
      ensures forall f | 0 <= f < slots.Length && slots[f].Free? :: t <= Distance(ref, f, slots.Length)
    {
      assert slots[Ahead(ref, 0, slots.Length)].Used?;
      forall f | 0 <= f < slots.Length && slots[f].Free?
        ensures t <= Distance(ref, f, slots.Length)
      {
        if f != ref {
          Reached(ref, f, slots.Length);
        }
      }
    }

    // ----- insertion

    /** The new element goes to a free slot and on the ring of the root h, right after it. */
    method AppendAfter(h: nat, f: nat, key: K, value: V)
      requires CanAppend(slots[..], h) && f < slots.Length && f != h
      modifies slots
      ensures slots[..] == Appended(old(slots[..]), h, f, key, value)
    {
      slots[f] := Used(h, false, slots[h].next, key, value);
      var a := slots[h].next;
      slots[a] := slots[a].(prev := f, isRoot := false);
      slots[h] := slots[h].(next := f);
      // Writing prev of the next slot takes the root bit of h away if h was alone.
      slots[h] := slots[h].(isRoot := true);
    }

    /** The foreign element in slot h moves to the free slot f and is linked there. */
    method Evict(h: nat, f: nat)
      requires CanUnlink(slots[..], h) && f < slots.Length && f != h
      modifies slots
      ensures slots[..] == Evicted(old(slots[..]), h, f)
    {
      var p, x := slots[h].prev, slots[h].next;
      slots[f] := Used(p, false, x, slots[h].key, slots[h].value);
      slots[p] := slots[p].(next := f);
      slots[x] := slots[x].(prev := f);
    }

    /** `hmap_insert_unsafe`: there must be a free slot. */
    method InsertUnsafe(slot: nat, key: K, value: V)
      requires Valid() && slot < slots.Length && slot == Where().Of(key) && NoKey(slots[..], key)
      modifies this`count, this`rings, slots
      ensures Sound() && Contents() == old(Contents())[key := value] && count == old(count) + 1
    {
      hide Model, UsedCount, Table, NoKey, Appended, Evicted, CanAppend, CanUnlink;
      ghost var s, hm := slots[..], Where();
      TableParts();
      if slots[slot].Free? {
        NewRoot(s, rings, hm, slot, key, value);
        slots[slot] := Used(slot, true, slot, key, value);
        rings := rings[slot := [slot]];
        assert slots[..] == s[slot := Used(slot, true, slot, key, value)];
      } else {
        ghost var f0 := FreeSlot(s);
        assert slots[f0].Free?;
        var free := ScanFreeSlot(slot);
        if slots[slot].isRoot {
          ghost var ring := AppendedTable(s, rings, hm, slot, free, key, value);
          AppendAfter(slot, free, key, value);
          rings := rings[slot := ring];
        } else {
          ghost var g, ring := EvictedTable(s, rings, hm, slot, free);
          Evict(slot, free);
          ghost var t := Evicted(s, slot, free)[slot := Free];
          StillNoKey(s, t, key, rings, rings[g := ring], hm);
          NewRoot(t, rings[g := ring], hm, slot, key, value);
          slots[slot] := Used(slot, true, slot, key, value);
          rings := rings[g := ring][slot := [slot]];
          assert slots[..] == t[slot := Used(slot, true, slot, key, value)];
        }
      }
      count := count + 1;
    }

    lemma TableParts()
      requires Sound()
      ensures |rings| == slots.Length && DistinctKeys(slots[..]) && count == UsedCount(slots[..])
    {
    }

    /** Moving elements about does not add a key. */
    static lemma StillNoKey(s: seq<Slot<K, V>>, t: seq<Slot<K, V>>, key: K, rs: seq<Ring>, rt: seq<Ring>, hm: Homes<K>)
      requires Table(s, rs, hm) && Table(t, rt, hm) && Model(s) == Model(t) && NoKey(s, key)
      ensures NoKey(t, key)
    {
      NoKeyModel(s, key);
      forall i | 0 <= i < |t| && t[i].Used?
        ensures t[i].key != key
      {
        ModelAt(t, i);
      }
    }

    // ----- deletion

    /** `hmap_delete`: the element in a slot, which a lookup found. */
    method Delete(slot: nat)
      requires Valid() && slot < slots.Length && slots[slot].Used?
      modifies this`count, this`rings, slots
      ensures Valid() && Contents() == old(Contents()) - {old(slots[slot].key)} && count == old(count) - 1
    {
      hide Model, UsedCount, Table, RootFilled, Unlinked, CanFill, CanUnlink;
      ghost var s, hm := slots[..], Where();
      TableParts();
      if slots[slot].next == slot {
        OnlyOneTable(s, rings, hm, slot);
        slots[slot] := Free;
        rings := rings[slot := []];
        assert slots[..] == s[slot := Free];
      } else if slots[slot].isRoot {
        ghost var ring := RootFilledTable(s, rings, hm, slot);
        FillRoot(slot);
        rings := rings[slot := ring];
      } else {
        ghost var g, ring := UnlinkedTable(s, rings, hm, slot);
        Unlink(slot);
        rings := rings[g := ring];
      }
      count := count - 1;
    }

    /** The next element on the ring moves into the root slot. */
    method FillRoot(h: nat)
      requires CanFill(slots[..], h)
      modifies slots
      ensures slots[..] == RootFilled(old(slots[..]), h)
    {
      var x := slots[h].next;
      var y := slots[x].next;
      slots[h] := slots[h].(next := y);
      if y == h {
        slots[h] := slots[h].(prev := h, isRoot := true);
      } else {
        slots[y] := slots[y].(prev := h, isRoot := false);
      }
      slots[h] := slots[h].(key := slots[x].key, value := slots[x].value);
      slots[x] := Free;
    }

    /** The element in a slot that is no root leaves its ring. */
    method Unlink(j: nat)
      requires CanUnlink(slots[..], j)
      modifies slots
      ensures slots[..] == Unlinked(old(slots[..]), j)
    {
      var p, x := slots[j].prev, slots[j].next;
      slots[p] := slots[p].(next := x);
      slots[x] := slots[x].(prev := p);
      slots[j] := Free;
    }

    // ----- replacing

    /** `hmap_replace` and `hmap_replace_kv`: a new value for the element in a slot; the new key must equal the old. */
    method Replace(slot: nat, key: K, value: V)
      requires Valid() && slot < slots.Length && slots[slot].Used? && slots[slot].key == key
      modifies slots
      ensures Valid() && Contents() == old(Contents())[key := value]
    {
      hide Model, UsedCount, Table;
      Rewritten(slots[..], rings, Where(), slot, value);
      ghost var s := slots[..];
      slots[slot] := slots[slot].(key := key, value := value);
      assert slots[..] == s[slot := s[slot].(value := value)];
    }

    static lemma Rewritten(s: seq<Slot<K, V>>, rs: seq<Ring>, hm: Homes<K>, j: nat, v: V)
      requires Table(s, rs, hm) && j < |s| && s[j].Used?
      ensures var t := s[j := s[j].(value := v)];
        Table(t, rs, hm) && Model(t) == Model(s)[s[j].key := v] && UsedCount(t) == UsedCount(s)
    {
      var t := s[j := s[j].(value := v)];
      Rewrite(s, j, t[j]);
      assert (Model(s) - {s[j].key})[s[j].key := v] == Model(s)[s[j].key := v];
      forall h | 0 <= h < |rs|
        ensures RingOk(t, h, rs[h], hm)
      {
        assert RingOk(s, h, rs[h], hm);
        assert forall i | 0 <= i < |rs[h]| :: PlaceOk(s, h, rs[h], i, hm) ==> PlaceOk(t, h, rs[h], i, hm);
      }
    }

    // ----- growth

    /** `hmap_insert`: a key that is not in the map yet, and the slot where a lookup said it belongs. A full map is
        first rebuilt with at least twice the slots and a new salt. */
    method Insert(slot: nat, key: K, value: V, growth: Growth)
      requires Valid() && slot < slots.Length && slot == Where().Of(key) && key !in Contents()
      modifies this, slots
      ensures Valid() && Contents() == old(Contents())[key := value] && count == old(count) + 1
      ensures if old(count) < old(maxCount) then slots == old(slots) && salt == old(salt) && maxCount == old(maxCount)
        else && fresh(slots) && slots.Length == 2 * old(slots).Length + growth.extra && salt == growth.salt
             && maxCount == if growth.fill < slots.Length - 1 then growth.fill else slots.Length - 1
    {
      hide Model, UsedCount, Table, NoKey;
      if count >= maxCount {
        Rebuild(2 * slots.Length + growth.extra, growth.fill, growth.salt);
        var found, home := Lookup(key, false);
        NotHeld(key);
        InsertUnsafe(home, key, value);
      } else {
        NotHeld(key);
        InsertUnsafe(slot, key, value);
      }
    }

    /** All elements move to a new array of slots, with a new salt. */
    method Rebuild(n: nat, fill: nat, newSalt: nat)
      requires Valid() && n >= 2 * slots.Length
      modifies this
      ensures Valid() && Contents() == old(Contents()) && count == old(count) && fresh(slots)
      ensures slots.Length == n && count + 1 < n && salt == newSalt
      ensures maxCount == if fill < n - 1 then fill else n - 1
    {
      hide Model, UsedCount, Table, NoKey;
      ghost var s := slots[..];
      TableBasics();
      var grown := new Hmap<K, V>(hash, elemLen, n, fill, newSalt);
      CopyInto(grown);
      slots, count, maxCount, salt := grown.slots, grown.count, grown.maxCount, newSalt;
      rings := grown.rings;
      assert s[..|s|] == s;
    }

    lemma TableBasics()
      requires Sound()
      ensures |rings| == slots.Length && DistinctKeys(slots[..]) && elemLen >= 1 && slots.Length >= 1
    {
    }

    /** Every used slot is looked up in the new map, as a key that cannot be there, and inserted. */
    method CopyInto(grown: Hmap<K, V>)
      requires Valid() && grown.Valid() && grown.Contents() == map[] && grown.count == 0
      requires grown != this && grown.slots != slots && grown.slots.Length > slots.Length
      modifies grown`count, grown`rings, grown.slots
      ensures grown.Valid() && grown.Contents() == Contents() && grown.count == count
    {
      hide Model, UsedCount, Table, NoKey;
      ghost var s := slots[..];
      TableBasics();
      NothingYet(s);
      var i := 0;
      while i < slots.Length
        invariant 0 <= i <= slots.Length && slots[..] == s
        invariant grown.Valid() && grown.Contents() == Model(s[..i]) && grown.count == UsedCount(s[..i])
      {
        CopyStep(s, i);
        if slots[i].Used? {
          var found, home := grown.Lookup(slots[i].key, false);
          grown.NotHeld(slots[i].key);
          grown.InsertUnsafe(home, slots[i].key, slots[i].value);
        }
        i := i + 1;
      }
      assert s[..|s|] == s;
    }

    static lemma NothingYet(s: seq<Slot<K, V>>)
      ensures Model(s[..0]) == map[] && UsedCount(s[..0]) == 0
    {
    }

    static lemma CopyStep(s: seq<Slot<K, V>>, i: nat)
      requires DistinctKeys(s) && i < |s|
      ensures s[i].Free? ==> Model(s[..i + 1]) == Model(s[..i]) && UsedCount(s[..i + 1]) == UsedCount(s[..i])
      ensures s[i].Used? ==>
        && Model(s[..i + 1]) == Model(s[..i])[s[i].key := s[i].value] && UsedCount(s[..i + 1]) == UsedCount(s[..i]) + 1
        && s[i].key !in Model(s[..i])
      ensures UsedCount(s[..i]) <= i
    {
      assert s[..i + 1][..i] == s[..i];
      if s[i].Used? {
        NoKeyModel(s[..i], s[i].key);
      }
    }

    // ----- runs

    /** One call of the interface: look a key up and insert or replace it; or look it up and delete it if it is
        there. */
    method Apply(op: Op<K, V>)
      requires Valid()
      modifies this, slots
      ensures Valid() && Contents() == Meaning(op, old(Contents()))
      ensures slots == old(slots) || fresh(slots)
    {
      hide Model, UsedCount, Table;
      var found, slot := Lookup(op.key, true);
      match op
      case Put(key, value, growth) =>
        if found {
          Replace(slot, key, value);
        } else {
          Insert(slot, key, value, growth);
        }
      case Drop(key) =>
        if found {
          Delete(slot);
        }
    }

    /** A whole run keeps the map that it should keep, whatever rings, evictions and growth came on the way. */
    method Run(ops: seq<Op<K, V>>)
      requires Valid()
      modifies this, slots
      ensures Valid() && Contents() == MeaningOf(ops, old(Contents()))
    {
      hide Valid, Contents;
      var i := 0;
      while i < |ops|
        invariant 0 <= i <= |ops| && Valid() && Contents() == MeaningOf(ops[..i], old(Contents()))
        invariant slots == old(slots) || fresh(slots)
      {
        Apply(ops[i]);
        assert ops[..i + 1][..i] == ops[..i];
        i := i + 1;
      }
      assert ops[..i] == ops;
    }
  }

  datatype Op<K, V> = Put(key: K, value: V, growth: Growth) | Drop(key: K)

  /** What an operation does to a finite map. */
  ghost function Meaning<K, V>(op: Op<K, V>, m: map<K, V>): map<K, V> {
    match op
    case Put(key, value, _) => m[key := value]
    case Drop(key) => m - {key}
  }

  ghost function MeaningOf<K, V>(ops: seq<Op<K, V>>, m: map<K, V>): map<K, V> {
    if ops == [] then m else Meaning(ops[|ops| - 1], MeaningOf(ops[..|ops| - 1], m))
  }
}
