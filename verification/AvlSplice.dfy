/** Taking a node out of a shape: its only subtree takes its place, or else the first node of its right subtree
    does. */
module AvlSplice {
  import opened AvlShape
  import opened AvlMoves
  import opened AvlSearch

  // ----- paths inside paths

  function Joined(inner: Path, outer: Path): Path {
    if inner.Whole? then outer else In(Joined(inner.up, outer), inner.onLeft, inner.node, inner.other)
  }

  lemma {:induction false} JoinedPlug(inner: Path, outer: Path, t: Tree)
    ensures Plug(Joined(inner, outer), t) == Plug(outer, Plug(inner, t))
  {
    if inner.In? {
      JoinedPlug(inner.up, outer, Fork(inner.onLeft, t, inner.node, inner.other));
    }
  }

  lemma {:induction false} JoinedBal(inner: Path, outer: Path, h: nat, bal: map<Node, int>)
    ensures PathBal(Joined(inner, outer), h, bal)
      <==> PathBal(inner, h, bal) && PathBal(outer, PathHeight(inner, h), bal)
    ensures PathHeight(Joined(inner, outer), h) == PathHeight(outer, PathHeight(inner, h))
  {
    hide Bal, Height, Taller, Tilt;
    if inner.In? {
      JoinedBal(inner.up, outer, Taller(h, Height(inner.other)), bal);
    }
  }

  // ----- a node with at most one subtree

  predicate OnlyChild(l: Tree, r: Tree, s: Tree) {
    (l.Leaf? && s == r) || (r.Leaf? && s == l)
  }

  function Reparented(s: Tree, above: Node?, par: Link): Link {
    if s.Br? then par[s.node := above] else par
  }

  lemma OneLinks(path: Path, l: Tree, n: Node, r: Tree, s: Tree, k: Kids, par: Link)
    requires OnlyChild(l, r, s) && Apart(Plug(path, Br(l, n, r)))
    requires Down(Plug(path, Br(l, n, r)), k) && Up(Plug(path, Br(l, n, r)), null, par)
    ensures Apart(Plug(path, s)) && Nodes(Plug(path, s)) == Nodes(Plug(path, Br(l, n, r))) - {n}
    ensures Down(Plug(path, s), Attach(path, RootOf(s), k))
    ensures Up(Plug(path, s), null, Reparented(s, Above(path, null), par))
  {
    hide Plug, PathDown, PathUp, PathApart, PathNodes, Attach;
    var t := Br(l, n, r);
    PlugNodes(path, t);
    PlugNodes(path, s);
    PlugDown(path, t, k);
    PlugUp(path, t, null, par);
    AttachPath(path, n, RootOf(s), k);
    AttachTree(path, s, RootOf(s), k);
    PlugDown(path, s, Attach(path, RootOf(s), k));
    UpReroot(s, n, Above(path, null), par);
    if s.Br? {
      PathUpSet(path, null, par, s.node, Above(path, null));
    }
    PlugUp(path, s, null, Reparented(s, Above(path, null), par));
  }

  lemma OneCounts(path: Path, l: Tree, n: Node, r: Tree, s: Tree, cnt: map<Node, nat>)
    requires OnlyChild(l, r, s) && Apart(Plug(path, Br(l, n, r))) && Cnt(Plug(path, Br(l, n, r)), cnt)
    ensures n in cnt && cnt[n] == Size(s)
    ensures Cnt(Plug(path, s), Counted(path, false, cnt))
    ensures s.Br? ==> Cnt(Plug(path, s), Counted(path, false, cnt)[s.node := Size(s) - 1])
  {
    hide Plug, PathCnt, PathApart, PathNodes, Counted, Cnt, Size;
    var t := Br(l, n, r);
    PlugNodes(path, t);
    PlugCnt(path, t, cnt);
    BrCnt(l, n, r, cnt);
    CountedCnt(path, Size(t), false, cnt);
    CountedOff(path, false, cnt, s);
    PlugCnt(path, s, Counted(path, false, cnt));
    SameCount(s, Counted(path, false, cnt));
  }

  lemma SameCount(s: Tree, cnt: map<Node, nat>)
    requires Cnt(s, cnt)
    ensures s.Br? ==> cnt[s.node := Size(s) - 1] == cnt
  {
  }

  lemma OneBalances(path: Path, l: Tree, n: Node, r: Tree, s: Tree, bal: map<Node, int>)
    requires OnlyChild(l, r, s) && Bal(Plug(path, Br(l, n, r)), bal)
    ensures Bal(s, bal) && PathBal(path, Height(s) + 1, bal)
    ensures Height(Plug(path, Br(l, n, r))) == PathHeight(path, Height(s) + 1)
  {
    hide Plug, PathBal, PathHeight, Bal, Height, Tilt;
    PlugBal(path, Br(l, n, r), bal);
    PlugHeight(path, Br(l, n, r));
    BrBal(l, n, r, bal);
    TreeHeight(Leaf);
  }

  // ----- a node with two subtrees: its successor x, the first node of the right one, takes its place

  /** The right subtree is x, all the way to the left, with what hangs below x. */
  predicate Successor(r: Tree, p: Path, x: Node, rest: Tree) {
    r == Plug(p, Br(Leaf, x, rest)) && AllLeft(p)
  }

  function Spliced(path: Path, l: Tree, p: Path, x: Node, rest: Tree): Tree {
    Plug(path, Br(l, x, Plug(p, rest)))
  }

  function TwoKids(path: Path, l: Tree, r: Tree, p: Path, x: Node, rest: Tree, k: Kids): Kids {
    PlacedKids(l, r, p, x, rest, Attach(path, x, k))
  }

  function PlacedKids(l: Tree, r: Tree, p: Path, x: Node, rest: Tree, k: Kids): Kids {
    var k2 := k.Set(true, x, RootOf(l));
    if p.Whole? then k2 else k2.Set(true, p.node, RootOf(rest)).Set(false, x, RootOf(r))
  }

  function TwoParents(path: Path, l: Tree, r: Tree, p: Path, x: Node, rest: Tree, par: Link): Link {
    var par2 := Reparented(l, x, par)[x := Above(path, null)];
    var par3 := if p.Whole? then par2 else Reparented(r, x, par2);
    Reparented(rest, Above(p, x), par3)
  }

  function TwoCounts(path: Path, n: Node, p: Path, x: Node, cnt: map<Node, nat>): map<Node, nat>
    requires n in cnt && cnt[n] >= 1
  {
    Counted(p, false, Counted(path, false, cnt)[x := cnt[n] - 1])
  }

  /** The parts of a node with two subtrees are apart. */
  lemma TwoApart(path: Path, l: Tree, n: Node, r: Tree, p: Path, x: Node, rest: Tree)
    requires Apart(Plug(path, Br(l, n, r))) && Successor(r, p, x, rest)
    ensures Apart(l) && Apart(rest) && Apart(r) && PathApart(p) && PathApart(path) && x != n
    ensures x in Nodes(r) && x !in Nodes(l) && x !in Nodes(rest) && x !in PathNodes(p) && x !in PathNodes(path)
    ensures n !in Nodes(l) && n !in Nodes(rest) && n !in PathNodes(p) && n !in PathNodes(path)
    ensures PathNodes(path) !! PathNodes(p) && PathNodes(path) !! Nodes(l) && PathNodes(path) !! Nodes(rest)
    ensures PathNodes(p) !! Nodes(l) && PathNodes(p) !! Nodes(rest) && Nodes(l) !! Nodes(rest)
    ensures Nodes(r) == PathNodes(p) + {x} + Nodes(rest)
    ensures Apart(Spliced(path, l, p, x, rest))
    ensures Nodes(Spliced(path, l, p, x, rest)) == Nodes(Plug(path, Br(l, n, r))) - {n}
  {
    hide Plug, PathApart, PathNodes, AllLeft;
    PlugNodes(path, Br(l, n, r));
    PlugNodes(p, Br(Leaf, x, rest));
    PlugNodes(p, rest);
    PlugNodes(path, Br(l, x, Plug(p, rest)));
  }

  lemma TwoDown(path: Path, l: Tree, n: Node, r: Tree, p: Path, x: Node, rest: Tree, k: Kids)
    requires Apart(Plug(path, Br(l, n, r))) && Successor(r, p, x, rest) && Down(Plug(path, Br(l, n, r)), k)
    ensures Down(Spliced(path, l, p, x, rest), TwoKids(path, l, r, p, x, rest, k))
  {
    hide Plug, PathApart, PathNodes, PathDown, Apart, Nodes;
    TwoApart(path, l, n, r, p, x, rest);
    PlugDown(path, Br(l, n, r), k);
    PlugDown(p, Br(Leaf, x, rest), k);
    var k1 := Attach(path, x, k);
    var k2 := k1.Set(true, x, RootOf(l));
    PathNodeIn(p);
    AttachPath(path, n, x, k);
    AttachTree(path, l, x, k);
    AttachTree(path, rest, x, k);
    AttachPathOff(path, p, x, x, k);
    DownSet(l, k1, true, x, RootOf(l));
    DownSet(rest, k1, true, x, RootOf(l));
    PathDownSet(path, x, k1, true, x, RootOf(l));
    PathDownSet(p, x, k1, true, x, RootOf(l));
    if p.In? {
      TwoDownIn(path, l, r, p, x, rest, k2);
    }
    var k4 := TwoKids(path, l, r, p, x, rest, k);
    WholeDown(p, RootOf(rest), k4);
    RootPlug(p, rest, Br(Leaf, x, rest));
    AttachAt(path, x, k);
    PlugDown(p, rest, k4);
    PlugDown(path, Br(l, x, Plug(p, rest)), k4);
  }

  lemma WholeDown(p: Path, c: Node?, k: Kids)
    ensures p.Whole? ==> PathDown(p, c, k)
  {
  }

  lemma AttachAt(path: Path, x: Node, k: Kids)
    requires x !in PathNodes(path) && x in k.left && x in k.right
    ensures var k1 := Attach(path, x, k);
      x in k1.left && x in k1.right && k1.left[x] == k.left[x] && k1.right[x] == k.right[x]
  {
  }

  lemma AttachPathOff(path: Path, p: Path, a: Node?, c: Node?, k: Kids)
    requires PathDown(p, a, k) && PathNodes(p) !! PathNodes(path)
    ensures PathDown(p, a, Attach(path, c, k))
  {
    if path.In? {
      PathDownSet(p, a, k, path.onLeft, path.node, c);
    }
  }

  lemma TwoDownIn(path: Path, l: Tree, r: Tree, p: Path, x: Node, rest: Tree, k2: Kids)
    requires p.In? && p.onLeft && PathApart(p) && PathDown(p, x, k2) && Down(l, k2) && Down(rest, k2)
    requires PathDown(path, x, k2) && PathNodes(path) !! PathNodes(p)
    requires PathNodes(p) !! Nodes(l) && PathNodes(p) !! Nodes(rest)
    requires x !in Nodes(l) && x !in Nodes(rest) && x !in PathNodes(p) && x !in PathNodes(path)
    ensures var k4 := k2.Set(true, p.node, RootOf(rest)).Set(false, x, RootOf(r));
      Down(l, k4) && Down(rest, k4) && PathDown(path, x, k4) && PathDown(p, RootOf(rest), k4)
  {
    hide Down, PathDown, PathApart, Nodes;
    var k3 := k2.Set(true, p.node, RootOf(rest));
    assert k3 == Attach(p, RootOf(rest), k2);
    AttachPath(p, x, RootOf(rest), k2);
    DownSet(l, k2, true, p.node, RootOf(rest));
    DownSet(rest, k2, true, p.node, RootOf(rest));
    PathDownSet(path, x, k2, true, p.node, RootOf(rest));
    DownSet(l, k3, false, x, RootOf(r));
    DownSet(rest, k3, false, x, RootOf(r));
    PathDownSet(path, x, k3, false, x, RootOf(r));
    PathDownSet(p, RootOf(rest), k3, false, x, RootOf(r));
  }

  lemma TwoUp(path: Path, l: Tree, n: Node, r: Tree, p: Path, x: Node, rest: Tree, par: Link)
    requires Apart(Plug(path, Br(l, n, r))) && Successor(r, p, x, rest) && Up(Plug(path, Br(l, n, r)), null, par)
    ensures Up(Spliced(path, l, p, x, rest), null, TwoParents(path, l, r, p, x, rest, par))
  {
    hide Plug, PathApart, PathNodes, PathUp, Apart, AllLeft;
    TwoApart(path, l, n, r, p, x, rest);
    PlugUp(path, Br(l, n, r), null, par);
    var above := Above(path, null);
    var par1 := Reparented(l, x, par);
    var par2 := par1[x := above];
    UpReroot(l, n, x, par);
    UpSet(l, x, par1, x, above);
    OtherReparented(path, l, x, par);
    PathUpSet(path, null, par1, x, above);
    RightUp(l, n, r, p, x, rest, above, par);
    var par3 := if p.Whole? then par2 else Reparented(r, x, par2);
    if p.In? {
      TreeReparented(l, x, r, x, par2);
      OtherReparented(path, r, x, par2);
    }
    var par4 := Reparented(rest, Above(p, x), par3);
    TreeReparented(l, x, rest, Above(p, x), par3);
    OtherReparented(path, rest, Above(p, x), par3);
    assert par4[x] == above by {
      assert rest.Br? ==> rest.node in Nodes(rest);
    }
    PlugUp(path, Br(l, x, Plug(p, rest)), null, par4);
  }

  /** The right subtree without x, below x. */
  lemma RightUp(l: Tree, n: Node, r: Tree, p: Path, x: Node, rest: Tree, above: Node?, par: Link)
    requires Successor(r, p, x, rest) && Up(r, n, par) && Apart(r) && Apart(rest) && Nodes(l) !! Nodes(r)
    requires PathApart(p) && PathNodes(p) !! Nodes(rest) && x !in PathNodes(p) && x !in Nodes(rest)
    requires Nodes(r) == PathNodes(p) + {x} + Nodes(rest)
    ensures var par2 := Reparented(l, x, par)[x := above];
      var par3 := if p.Whole? then par2 else Reparented(r, x, par2);
      && Up(Plug(p, rest), x, Reparented(rest, Above(p, x), par3)) && x in par3 && par3[x] == above
  {
    hide Plug, PathApart, PathNodes, PathUp, Apart, AllLeft;
    var par1 := Reparented(l, x, par);
    var par2 := par1[x := above];
    var par3 := if p.Whole? then par2 else Reparented(r, x, par2);
    TreeReparented(r, n, l, x, par);
    PlugUp(p, Br(Leaf, x, rest), n, par1);
    UpSet(rest, x, par1, x, above);
    if p.In? {
      PlugUp(p, Br(Leaf, x, rest), n, par1);
      InnerUp(r, n, p, x, rest, above, par1);
    }
    WholePath(p);
    UpReroot(rest, x, Above(p, x), par3);
    OtherPathReparented(p, x, rest, Above(p, x), par3);
    PlugUp(p, rest, x, Reparented(rest, Above(p, x), par3));
  }

  lemma WholePath(p: Path)
    ensures p.Whole? ==> forall base: Node?, par: Link :: PathUp(p, base, par)
  {
  }

  lemma InnerUp(r: Tree, n: Node, p: Path, x: Node, rest: Tree, above: Node?, par: Link)
    requires p.In? && Successor(r, p, x, rest) && Up(r, n, par) && Apart(r)
    requires x !in PathNodes(p) && x !in Nodes(rest) && Nodes(r) == PathNodes(p) + {x} + Nodes(rest)
    ensures var par3 := Reparented(r, x, par[x := above]);
      PathUp(p, x, par3) && Up(rest, x, par3) && x in par3 && par3[x] == above
  {
    hide Plug, PathApart, PathUp, Apart, AllLeft;
    var up := Reparented(r, x, par);
    UpReroot(r, n, x, par);
    PlugUp(p, Br(Leaf, x, rest), x, up);
    PathUpSet(p, x, up, x, above);
    UpSet(rest, x, up, x, above);
    RootOnPath(p, Br(Leaf, x, rest));
    assert Reparented(r, x, par[x := above]) == up[x := above];
  }

  lemma {:induction false} RootOnPath(p: Path, t: Tree)
    requires p.In?
    ensures Plug(p, t).Br? && Plug(p, t).node in PathNodes(p)
  {
    if p.up.In? {
      RootOnPath(p.up, Fork(p.onLeft, t, p.node, p.other));
    }
  }

  /** Changing the parent of a tree's root leaves what lies apart from it. */
  lemma TreeReparented(t: Tree, a: Node?, s: Tree, above: Node?, par: Link)
    requires Up(t, a, par) && (s.Br? ==> s.node !in Nodes(t))
    ensures Up(t, a, Reparented(s, above, par))
  {
    if s.Br? {
      UpSet(t, a, par, s.node, above);
    }
  }

  lemma OtherReparented(p: Path, s: Tree, above: Node?, par: Link)
    requires PathUp(p, null, par) && (s.Br? ==> s.node !in PathNodes(p))
    ensures PathUp(p, null, Reparented(s, above, par))
  {
    if s.Br? {
      PathUpSet(p, null, par, s.node, above);
    }
  }

  lemma OtherPathReparented(p: Path, base: Node?, s: Tree, above: Node?, par: Link)
    requires PathUp(p, base, par) && PathNodes(p) !! Nodes(s)
    ensures PathUp(p, base, Reparented(s, above, par))
  {
    if s.Br? {
      PathUpSet(p, base, par, s.node, above);
    }
  }

  lemma TwoFields(path: Path, l: Tree, n: Node, r: Tree, p: Path, x: Node, rest: Tree, bal: map<Node, int>,
                  cnt: map<Node, nat>)
    requires Apart(Plug(path, Br(l, n, r))) && Successor(r, p, x, rest)
    requires Cnt(Plug(path, Br(l, n, r)), cnt) && Bal(Plug(path, Br(l, n, r)), bal)
    ensures n in cnt && cnt[n] >= 1 && n in bal
    ensures Cnt(Spliced(path, l, p, x, rest), TwoCounts(path, n, p, x, cnt))
    ensures Bal(rest, bal[x := bal[n]])
    ensures PathBal(Joined(p, In(path, false, x, l)), Height(rest) + 1, bal[x := bal[n]])
    ensures Height(Plug(path, Br(l, n, r))) == PathHeight(Joined(p, In(path, false, x, l)), Height(rest) + 1)
  {
    hide Plug, PathApart, PathNodes, PathCnt, PathBal, Counted, PathHeight, Apart, Nodes, AllLeft, Joined, TwoCounts,
      Height, Cnt, Bal, Spliced, Taller;
    TwoApart(path, l, n, r, p, x, rest);
    TwoCnt(path, l, n, r, p, x, rest, cnt);
    TwoBal(path, l, n, r, p, x, rest, bal);
  }

  lemma TwoCnt(path: Path, l: Tree, n: Node, r: Tree, p: Path, x: Node, rest: Tree, cnt: map<Node, nat>)
    requires Apart(Plug(path, Br(l, n, r))) && Successor(r, p, x, rest) && Cnt(Plug(path, Br(l, n, r)), cnt)
    ensures n in cnt && cnt[n] >= 1
    ensures Cnt(Spliced(path, l, p, x, rest), TwoCounts(path, n, p, x, cnt))
  {
    hide Plug, PathApart, PathNodes, PathCnt, Counted, Apart, Nodes, AllLeft, Cnt, Size;
    TwoApart(path, l, n, r, p, x, rest);
    var t := Br(l, n, r);
    PlugCnt(path, t, cnt);
    BrCnt(l, n, r, cnt);
    PlugCnt(p, Br(Leaf, x, rest), cnt);
    BrCnt(Leaf, x, rest, cnt);
    PlugSize(p, rest, Br(Leaf, x, rest));
    var c1 := Counted(path, false, cnt);
    CountedCnt(path, Size(t), false, cnt);
    CountedOff(path, false, cnt, l);
    CountedOff(path, false, cnt, rest);
    CountedPathOff(path, false, cnt, p, Size(rest) + 1);
    var c2 := c1[x := cnt[n] - 1];
    CntSet(l, c1, x, cnt[n] - 1);
    CntSet(rest, c1, x, cnt[n] - 1);
    PathCntSet(path, Size(t) - 1, c1, x, cnt[n] - 1);
    PathCntSet(p, Size(rest) + 1, c1, x, cnt[n] - 1);
    var c3 := Counted(p, false, c2);
    CountedCnt(p, Size(rest) + 1, false, c2);
    CountedOff(p, false, c2, l);
    CountedOff(p, false, c2, rest);
    CountedPathOff(p, false, c2, path, Size(t) - 1);
    CountedAt(p, false, c2, x);
    PlugCnt(p, rest, c3);
    BrCnt(l, x, Plug(p, rest), c3);
    PlugCnt(path, Br(l, x, Plug(p, rest)), c3);
  }

  lemma BrCnt(l: Tree, n: Node, r: Tree, cnt: map<Node, nat>)
    ensures Cnt(Br(l, n, r), cnt) <==> n in cnt && cnt[n] == Size(l) + Size(r) && Cnt(l, cnt) && Cnt(r, cnt)
    ensures Size(Br(l, n, r)) == Size(l) + 1 + Size(r) && Size(Leaf) == 0
    ensures r.Br? ==> Size(r) >= 1
  {
  }

  lemma {:induction false} PlugSize(p: Path, t: Tree, u: Tree)
    ensures Size(Plug(p, t)) - Size(t) == Size(Plug(p, u)) - Size(u)
    ensures t.Br? ==> Plug(p, t).Br?
  {
    if p.In? {
      PlugSize(p.up, Fork(p.onLeft, t, p.node, p.other), Fork(p.onLeft, u, p.node, p.other));
    }
  }

  lemma {:induction false} CountedPathOff(p: Path, more: bool, cnt: map<Node, nat>, q: Path, n: nat)
    requires PathCnt(q, n, cnt) && PathNodes(q) !! PathNodes(p)
    ensures PathCnt(q, n, Counted(p, more, cnt))
  {
    if p.In? && p.node in cnt {
      PathCntSet(q, n, cnt, p.node, CountedOnce(p.node, more, cnt)[p.node]);
      CountedPathOff(p.up, more, CountedOnce(p.node, more, cnt), q, n);
    }
  }

  lemma TwoBal(path: Path, l: Tree, n: Node, r: Tree, p: Path, x: Node, rest: Tree, bal: map<Node, int>)
    requires Apart(Plug(path, Br(l, n, r))) && Successor(r, p, x, rest) && Bal(Plug(path, Br(l, n, r)), bal)
    ensures n in bal && -1 <= bal[n] <= 1 && Bal(rest, bal[x := bal[n]])
    ensures PathBal(Joined(p, In(path, false, x, l)), Height(rest) + 1, bal[x := bal[n]])
    ensures Height(Plug(path, Br(l, n, r))) == PathHeight(Joined(p, In(path, false, x, l)), Height(rest) + 1)
  {
    hide Plug, PathApart, PathNodes, Apart, Nodes, AllLeft, Bal, Height, Joined, PathBal, PathHeight, Taller, Tilt;
    TwoApart(path, l, n, r, p, x, rest);
    TwoHeights(path, l, n, r, p, x, rest, bal);
    var h := Height(Br(l, n, r));
    var b := bal[x := bal[n]];
    BalSet(l, bal, x, bal[n]);
    BalSet(rest, bal, x, bal[n]);
    PathBalSet(p, Height(rest) + 1, bal, x, bal[n]);
    PathBalSet(path, h, bal, x, bal[n]);
    InAgain(path, l, n, r, x, b);
    JoinedBal(p, In(path, false, x, l), Height(rest) + 1, b);
  }

  /** What the balances say around the node and its successor. */
  lemma TwoHeights(path: Path, l: Tree, n: Node, r: Tree, p: Path, x: Node, rest: Tree, bal: map<Node, int>)
    requires Successor(r, p, x, rest) && Bal(Plug(path, Br(l, n, r)), bal)
    ensures n in bal && -1 <= bal[n] <= 1 && bal[n] == Tilt(true, Height(l), Height(r))
    ensures Bal(l, bal) && Bal(rest, bal) && PathBal(p, Height(rest) + 1, bal)
    ensures PathBal(path, Height(Br(l, n, r)), bal)
    ensures Height(Br(l, n, r)) == Taller(Height(l), Height(r)) && Height(r) == PathHeight(p, Height(rest) + 1)
    ensures Height(Plug(path, Br(l, n, r))) == PathHeight(path, Height(Br(l, n, r)))
  {
    hide Plug, AllLeft, Bal, Height, PathBal, PathHeight, Tilt, Nodes, Apart, Size;
    PlugBal(path, Br(l, n, r), bal);
    PlugHeight(path, Br(l, n, r));
    BrBal(l, n, r, bal);
    PlugBal(p, Br(Leaf, x, rest), bal);
    PlugHeight(p, Br(Leaf, x, rest));
    BrBal(Leaf, x, rest, bal);
    TreeHeight(Leaf);
  }

  lemma BrBal(l: Tree, n: Node, r: Tree, bal: map<Node, int>)
    ensures Height(Br(l, n, r)) == Taller(Height(l), Height(r))
    ensures Bal(Br(l, n, r), bal) ==>
      n in bal && -1 <= bal[n] <= 1 && bal[n] == Tilt(true, Height(l), Height(r)) && Bal(l, bal) && Bal(r, bal)
  {
  }

  /** The successor stands on the path as the node did. */
  lemma InAgain(path: Path, l: Tree, n: Node, r: Tree, x: Node, bal: map<Node, int>)
    requires x in bal && bal[x] == Tilt(true, Height(l), Height(r)) && -1 <= bal[x] <= 1 && Bal(l, bal)
    requires Height(Br(l, n, r)) == Taller(Height(l), Height(r)) && PathBal(path, Height(Br(l, n, r)), bal)
    ensures PathBal(In(path, false, x, l), Height(r), bal)
    ensures PathHeight(In(path, false, x, l), Height(r)) == PathHeight(path, Height(Br(l, n, r)))
  {
    hide Bal, Height;
  }

  // ----- order

  lemma TwoOrder(path: Path, l: Tree, n: Node, r: Tree, p: Path, x: Node, rest: Tree)
    requires Successor(r, p, x, rest)
    ensures InOrder(Spliced(path, l, p, x, rest)) == Before(path) + InOrder(l) + InOrder(r) + After(path)
  {
    hide Plug, InOrder, Before, After;
    PlugInOrder(path, Br(l, x, Plug(p, rest)));
    PlugInOrder(p, rest);
    PlugInOrder(p, Br(Leaf, x, rest));
    LeafFirst(x, rest);
    LeftmostIsFirst(p);
    ForkOrder(true, l, x, Plug(p, rest));
    assert Fork(true, l, x, Plug(p, rest)) == Br(l, x, Plug(p, rest));
  }

  lemma OneOrder(path: Path, l: Tree, r: Tree, s: Tree)
    requires OnlyChild(l, r, s)
    ensures InOrder(Plug(path, s)) == Before(path) + InOrder(l) + InOrder(r) + After(path)
  {
    PlugInOrder(path, s);
  }

  // ----- the topmost node of a path

  function TopOf(p: Path): Node
    requires p.In?
  {
    if p.up.Whole? then p.node else TopOf(p.up)
  }

  lemma {:induction false} TopIn(p: Path, t: Tree)
    requires p.In?
    ensures TopOf(p) in PathNodes(p) && RootOf(Plug(p, t)) == TopOf(p)
  {
    if p.up.In? {
      TopIn(p.up, Fork(p.onLeft, t, p.node, p.other));
    }
  }

  lemma TopReached(p: Path)
    requires p.In? && PathApart(p)
    ensures p.node == TopOf(p) <==> p.up.Whole?
  {
    if p.up.In? {
      TopIn(p.up, Leaf);
    }
  }
}
