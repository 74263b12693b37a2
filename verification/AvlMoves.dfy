/** What rotations, and the changes of balances and counts along a path, do to the predicates over shapes. */
module AvlMoves {
  import opened AvlShape

  // ----- hanging another subtree into a path

  /** The link that leads into the hole of a path is set to c (for the whole tree: the root pointer, not here). */
  function Attach(p: Path, c: Node?, k: Kids): Kids {
    if p.Whole? then k else k.Set(p.onLeft, p.node, c)
  }

  lemma AttachPath(p: Path, c0: Node?, c: Node?, k: Kids)
    requires PathApart(p) && PathDown(p, c0, k)
    ensures PathDown(p, c, Attach(p, c, k))
  {
    if p.In? {
      DownSet(p.other, k, p.onLeft, p.node, c);
      PathDownSet(p.up, p.node, k, p.onLeft, p.node, c);
    }
  }

  lemma AttachTree(p: Path, t: Tree, c: Node?, k: Kids)
    requires Down(t, k) && Nodes(t) !! PathNodes(p)
    ensures Down(t, Attach(p, c, k))
  {
    if p.In? {
      DownSet(t, k, p.onLeft, p.node, c);
    }
  }

  lemma UpReroot(t: Tree, a: Node?, b: Node?, par: Link)
    requires Up(t, a, par) && Apart(t)
    ensures Up(t, b, if t.Br? then par[t.node := b] else par)
  {
    if t.Br? {
      UpSet(t.left, t.node, par, t.node, b);
      UpSet(t.right, t.node, par, t.node, b);
    }
  }

  // ----- rotations; "side" is the side of the subtree that sinks, so a left rotation sinks on the left

  function Unrotated(side: bool, a: Tree, p: Node, b: Tree, q: Node, c: Tree): Tree {
    Fork(side, a, p, Fork(side, b, q, c))
  }

  function Rotated(side: bool, a: Tree, p: Node, b: Tree, q: Node, c: Tree): Tree {
    Fork(side, Fork(side, a, p, b), q, c)
  }

  lemma RotatedSame(side: bool, a: Tree, p: Node, b: Tree, q: Node, c: Tree)
    ensures var u, r := Unrotated(side, a, p, b, q, c), Rotated(side, a, p, b, q, c);
      InOrder(u) == InOrder(r) && Nodes(u) == Nodes(r) && (Apart(u) <==> Apart(r))
  {
    hide InOrder, Nodes, Apart, Fork, Size, Height;
    ForkParts(side, b, q, c);
    ForkParts(side, a, p, Fork(side, b, q, c));
    ForkParts(side, a, p, b);
    ForkParts(side, Fork(side, a, p, b), q, c);
    ForkOrder(side, b, q, c);
    ForkOrder(side, a, p, Fork(side, b, q, c));
    ForkOrder(side, a, p, b);
    ForkOrder(side, Fork(side, a, p, b), q, c);
  }

  /** The child links after a rotation. */
  function RotatedKids(side: bool, path: Path, p: Node, b: Tree, q: Node, k: Kids): Kids {
    Attach(path, q, k).Set(!side, p, RootOf(b)).Set(side, q, p)
  }

  function RotatedParents(path: Path, p: Node, b: Tree, q: Node, par: Link): Link {
    var par1 := par[q := Above(path, null)][p := q];
    if b.Br? then par1[b.node := p] else par1
  }

  function RotatedCounts(a: Tree, p: Node, b: Tree, q: Node, c: Tree, cnt: map<Node, nat>): map<Node, nat> {
    cnt[p := Size(a) + Size(b)][q := Size(a) + Size(b) + 1 + Size(c)]
  }

  lemma RotationParts(side: bool, a: Tree, p: Node, b: Tree, q: Node, c: Tree)
    requires Apart(Unrotated(side, a, p, b, q, c))
    ensures RootOf(Unrotated(side, a, p, b, q, c)) == RootOf(Fork(side, a, p, b)) == p
    ensures RootOf(Rotated(side, a, p, b, q, c)) == RootOf(Fork(side, b, q, c)) == q
    ensures Nodes(Unrotated(side, a, p, b, q, c)) == Nodes(a) + {p} + Nodes(b) + {q} + Nodes(c)
    ensures p != q && p !in Nodes(a) + Nodes(b) + Nodes(c) && q !in Nodes(a) + Nodes(b) + Nodes(c)
    ensures Nodes(a) !! Nodes(b) && Nodes(a) !! Nodes(c) && Nodes(b) !! Nodes(c)
    ensures Apart(a) && Apart(b) && Apart(c)
    ensures Size(Unrotated(side, a, p, b, q, c)) == Size(a) + Size(b) + Size(c) + 2
    ensures Size(Rotated(side, a, p, b, q, c)) == Size(a) + Size(b) + Size(c) + 2
  {
    hide Apart, Nodes, Fork, Size, Height;
    ForkParts(side, b, q, c);
    ForkParts(side, a, p, Fork(side, b, q, c));
    ForkParts(side, a, p, b);
    ForkParts(side, Fork(side, a, p, b), q, c);
  }

  lemma RotatedDown(side: bool, path: Path, a: Tree, p: Node, b: Tree, q: Node, c: Tree, k: Kids)
    requires var u := Unrotated(side, a, p, b, q, c); Apart(Plug(path, u)) && Down(Plug(path, u), k)
    ensures Down(Plug(path, Rotated(side, a, p, b, q, c)), RotatedKids(side, path, p, b, q, k))
  {
    hide Down, PathDown, Apart, PathApart, Nodes, Fork, Plug;
    var u, r := Unrotated(side, a, p, b, q, c), Rotated(side, a, p, b, q, c);
    PlugNodes(path, u);
    RotationParts(side, a, p, b, q, c);
    PlugDown(path, u, k);
    ForkDown(side, a, p, Fork(side, b, q, c), k);
    ForkDown(side, b, q, c, k);
    var k1 := Attach(path, q, k);
    var k2 := k1.Set(!side, p, RootOf(b));
    var k3 := k2.Set(side, q, p);
    AttachPath(path, p, q, k);
    PathDownSet(path, q, k1, !side, p, RootOf(b));
    PathDownSet(path, q, k2, side, q, p);
    StillDown(path, a, p, RootOf(b), q, side, k);
    StillDown(path, b, p, RootOf(b), q, side, k);
    StillDown(path, c, p, RootOf(b), q, side, k);
    ForkDown(side, a, p, b, k3);
    ForkDown(side, Fork(side, a, p, b), q, c, k3);
    PlugDown(path, r, k3);
  }

  lemma StillDown(path: Path, t: Tree, p: Node, b: Node?, q: Node, side: bool, k: Kids)
    requires Down(t, k) && Nodes(t) !! PathNodes(path) && p !in Nodes(t) && q !in Nodes(t)
    ensures Down(t, Attach(path, q, k).Set(!side, p, b).Set(side, q, p))
  {
    var k1 := Attach(path, q, k);
    AttachTree(path, t, q, k);
    DownSet(t, k1, !side, p, b);
    DownSet(t, k1.Set(!side, p, b), side, q, p);
  }

  lemma RotatedUp(side: bool, path: Path, a: Tree, p: Node, b: Tree, q: Node, c: Tree, par: Link)
    requires var u := Unrotated(side, a, p, b, q, c); Apart(Plug(path, u)) && Up(Plug(path, u), null, par)
    ensures Up(Plug(path, Rotated(side, a, p, b, q, c)), null, RotatedParents(path, p, b, q, par))
  {
    var u, r := Unrotated(side, a, p, b, q, c), Rotated(side, a, p, b, q, c);
    PlugNodes(path, u);
    PlugUp(path, u, null, par);
    var par1 := par[q := Above(path, null)];
    var par2 := par1[p := q];
    UpSet(a, p, par, q, Above(path, null));
    UpSet(a, p, par1, p, q);
    UpSet(b, q, par, q, Above(path, null));
    UpSet(b, q, par1, p, q);
    UpSet(c, q, par, q, Above(path, null));
    UpSet(c, q, par1, p, q);
    PathUpSet(path, null, par, q, Above(path, null));
    PathUpSet(path, null, par1, p, q);
    UpReroot(b, q, p, par2);
    if b.Br? {
      UpSet(a, p, par2, b.node, p);
      UpSet(c, q, par2, b.node, p);
      PathUpSet(path, null, par2, b.node, p);
    }
    PlugUp(path, r, null, RotatedParents(path, p, b, q, par));
  }

  lemma RotatedCnt(side: bool, path: Path, a: Tree, p: Node, b: Tree, q: Node, c: Tree, cnt: map<Node, nat>)
    requires var u := Unrotated(side, a, p, b, q, c); Apart(Plug(path, u)) && Cnt(Plug(path, u), cnt)
    ensures Cnt(Plug(path, Rotated(side, a, p, b, q, c)), RotatedCounts(a, p, b, q, c, cnt))
  {
    hide Cnt, PathCnt, Apart, PathApart, Nodes, PathNodes, Fork, Plug, Size;
    var u, r := Unrotated(side, a, p, b, q, c), Rotated(side, a, p, b, q, c);
    PlugNodes(path, u);
    RotationParts(side, a, p, b, q, c);
    PlugCnt(path, u, cnt);
    ForkCnt(side, a, p, Fork(side, b, q, c), cnt);
    ForkCnt(side, b, q, c, cnt);
    var x := Size(a) + Size(b);
    var cnt1 := cnt[p := x];
    StillCnt(a, p, x, q, x + 1 + Size(c), cnt);
    StillCnt(b, p, x, q, x + 1 + Size(c), cnt);
    StillCnt(c, p, x, q, x + 1 + Size(c), cnt);
    PathCntSet(path, Size(u), cnt, p, x);
    PathCntSet(path, Size(u), cnt1, q, x + 1 + Size(c));
    var cnt2 := RotatedCounts(a, p, b, q, c, cnt);
    ForkCnt(side, a, p, b, cnt2);
    ForkParts(side, a, p, b);
    ForkCnt(side, Fork(side, a, p, b), q, c, cnt2);
    PlugCnt(path, r, cnt2);
  }

  lemma StillCnt(t: Tree, p: Node, x: nat, q: Node, y: nat, cnt: map<Node, nat>)
    requires Cnt(t, cnt) && p !in Nodes(t) && q !in Nodes(t)
    ensures Cnt(t, cnt[p := x][q := y])
  {
    CntSet(t, cnt, p, x);
    CntSet(t, cnt[p := x], q, y);
  }

  // ----- the balances that a rotation restores

  /** The heavy side leans outwards: one rotation, both nodes even, one level shorter. */
  lemma SingleBal(side: bool, a: Tree, p: Node, b: Tree, q: Node, c: Tree, bal: map<Node, int>)
    requires Apart(Unrotated(side, a, p, b, q, c)) && Bal(a, bal) && Bal(b, bal) && Bal(c, bal)
    requires Height(b) == Height(a) && Height(c) == Height(a) + 1
    ensures Bal(Rotated(side, a, p, b, q, c), bal[p := 0][q := 0])
    ensures Height(Rotated(side, a, p, b, q, c)) == Height(a) + 2
  {
    StillBal(a, p, 0, q, 0, bal);
    StillBal(b, p, 0, q, 0, bal);
    StillBal(c, p, 0, q, 0, bal);
  }

  /** The heavy side is even: one rotation, and the height stays. */
  lemma EvenBal(side: bool, a: Tree, p: Node, b: Tree, q: Node, c: Tree, bal: map<Node, int>)
    requires Apart(Unrotated(side, a, p, b, q, c)) && Bal(a, bal) && Bal(b, bal) && Bal(c, bal)
    requires Height(b) == Height(c) == Height(a) + 1
    ensures Bal(Rotated(side, a, p, b, q, c), bal[p := Tilt(side, 0, 1)][q := Tilt(side, 1, 0)])
    ensures Height(Rotated(side, a, p, b, q, c)) == Height(a) + 3
  {
    StillBal(a, p, Tilt(side, 0, 1), q, Tilt(side, 1, 0), bal);
    StillBal(b, p, Tilt(side, 0, 1), q, Tilt(side, 1, 0), bal);
    StillBal(c, p, Tilt(side, 0, 1), q, Tilt(side, 1, 0), bal);
  }

  lemma StillBal(t: Tree, p: Node, x: int, q: Node, y: int, bal: map<Node, int>)
    requires Bal(t, bal) && p !in Nodes(t) && q !in Nodes(t)
    ensures Bal(t, bal[p := x][q := y])
  {
    BalSet(t, bal, p, x);
    BalSet(t, bal[p := x], q, y);
  }

  /** New balances of the two outer nodes of a double rotation, from that of the middle one. */
  function OuterBal(side: bool, v: int): int {
    if side then (if v == 1 then -1 else 0) else (if v == -1 then 1 else 0)
  }

  function InnerBal(side: bool, v: int): int {
    if side then (if v == -1 then 1 else 0) else (if v == 1 then -1 else 0)
  }

  /** The heavy side leans inwards: two rotations, one level shorter. */
  lemma DoubleBal(side: bool, a: Tree, p: Node, b: Tree, m: Node, c: Tree, q: Node, d: Tree, bal: map<Node, int>)
    requires Apart(Unrotated(side, a, p, Fork(side, b, m, c), q, d))
    requires Bal(a, bal) && Bal(Fork(side, b, m, c), bal) && Bal(d, bal)
    requires Height(a) == Height(d) && Height(Fork(side, b, m, c)) == Height(a) + 1
    ensures var r := Rotated(side, a, p, b, m, Fork(side, c, q, d));
      && Bal(r, bal[p := OuterBal(side, bal[m])][q := InnerBal(side, bal[m])][m := 0])
      && Height(r) == Height(a) + 2
  {
    hide Bal, Apart, Nodes, Fork, Height;
    var M, X := Fork(side, b, m, c), Fork(side, Fork(side, b, m, c), q, d);
    ForkParts(side, b, m, c);
    ForkParts(side, M, q, d);
    ForkParts(side, a, p, X);
    ForkBal(side, b, m, c, bal);
    var x, y := OuterBal(side, bal[m]), InnerBal(side, bal[m]);
    var bal3 := bal[p := x][q := y][m := 0];
    ThreeBal(a, p, x, q, y, m, bal);
    ThreeBal(b, p, x, q, y, m, bal);
    ThreeBal(c, p, x, q, y, m, bal);
    ThreeBal(d, p, x, q, y, m, bal);
    ForkBal(side, a, p, b, bal3);
    ForkBal(side, c, q, d, bal3);
    ForkParts(side, a, p, b);
    ForkParts(side, c, q, d);
    ForkBal(side, Fork(side, a, p, b), m, Fork(side, c, q, d), bal3);
    ForkParts(side, Fork(side, a, p, b), m, Fork(side, c, q, d));
  }

  lemma ThreeBal(t: Tree, p: Node, x: int, q: Node, y: int, m: Node, bal: map<Node, int>)
    requires Bal(t, bal) && p !in Nodes(t) && q !in Nodes(t) && m !in Nodes(t)
    ensures Bal(t, bal[p := x][q := y][m := 0])
  {
    StillBal(t, p, x, q, y, bal);
    BalSet(t, bal[p := x][q := y], m, 0);
  }

  // ----- insertion: balances change from the new node up to the last uneven node

  /** u is the lowest node on the path whose balance is not zero, or the root if there is none. */
  predicate LastUneven(p: Path, u: Node?, bal: map<Node, int>) {
    && p.In? && p.node in bal
    && if p.node == u then bal[p.node] != 0 || p.up.Whole? else bal[p.node] == 0 && LastUneven(p.up, u, bal)
  }

  function Leaned(p: Path, bal: map<Node, int>): map<Node, int>
    requires p.In? && p.node in bal
  {
    bal[p.node := bal[p.node] + if p.onLeft then -1 else 1]
  }

  function Retraced(p: Path, u: Node, bal: map<Node, int>): map<Node, int> {
    if p.Whole? || p.node !in bal then bal
    else if p.node == u then Leaned(p, bal)
    else Retraced(p.up, u, Leaned(p, bal))
  }

  /** The place of u on the path, and the subtree that hangs there. */
  function PlaceOf(p: Path, u: Node): Path {
    if p.Whole? || p.node == u then p else PlaceOf(p.up, u)
  }

  function GrownAt(p: Path, t: Tree, u: Node): Tree {
    if p.Whole? || p.node == u then t else GrownAt(p.up, Fork(p.onLeft, t, p.node, p.other), u)
  }

  /** A subtree that grew by one level: new, or not even at its root. */
  predicate Grown(t: Tree, bal: map<Node, int>) {
    t.Br? && Bal(t, bal) && (Height(t) == 1 || bal[t.node] != 0)
  }

  /** The place s, its grown subtree c, and balances that are right everywhere else. */
  predicate RetracedTo(s: Path, c: Tree, bal: map<Node, int>) {
    && s.In? && s.node in bal && Grown(c, bal) && Bal(s.other, bal)
    && bal[s.node] == Tilt(s.onLeft, Height(c), Height(s.other))
    && -1 <= Tilt(s.onLeft, Height(c) - 1, Height(s.other)) <= 1
    && (Tilt(s.onLeft, Height(c) - 1, Height(s.other)) != 0 || s.up.Whole?)
    && PathBal(s.up, Taller(Height(c) - 1, Height(s.other)), bal)
  }

  lemma {:induction false} LastUnevenSet(p: Path, u: Node, bal: map<Node, int>, n: Node, b: int)
    requires LastUneven(p, u, bal) && n !in PathNodes(p)
    ensures LastUneven(p, u, bal[n := b])
  {
    if p.node != u {
      LastUnevenSet(p.up, u, bal, n, b);
    }
  }

  lemma TreeHeight(t: Tree)
    ensures if t.Br? then Height(t) >= 1 && t.node in Nodes(t) else Height(t) == 0
  {
  }

  lemma {:induction false} Retrace(p: Path, t: Tree, u: Node, bal: map<Node, int>)
    requires Grown(t, bal) && PathBal(p, Height(t) - 1, bal)
    requires PathApart(p) && Nodes(t) !! PathNodes(p) && LastUneven(p, u, bal)
    ensures var s, c := PlaceOf(p, u), GrownAt(p, t, u);
      && RetracedTo(s, c, Retraced(p, u, bal)) && s.node == u
      && Plug(p, t) == Plug(s.up, Fork(s.onLeft, c, u, s.other))
      && PathHeight(p, Height(t) - 1) == PathHeight(s.up, Taller(Height(c) - 1, Height(s.other)))
  {
    hide Bal, Apart, Nodes, Fork, Height;
    TreeHeight(t);
    var b := Leaned(p, bal);
    BalSet(t, bal, p.node, b[p.node]);
    BalSet(p.other, bal, p.node, b[p.node]);
    PathBalSet(p.up, Taller(Height(t) - 1, Height(p.other)), bal, p.node, b[p.node]);
    if p.node != u {
      ForkParts(p.onLeft, t, p.node, p.other);
      ForkBal(p.onLeft, t, p.node, p.other, b);
      LastUnevenSet(p.up, u, bal, p.node, b[p.node]);
      Retrace(p.up, Fork(p.onLeft, t, p.node, p.other), u, b);
    }
  }

  // ----- counts along a path

  /** One more, or one less, below every node of a path. */
  function Counted(p: Path, more: bool, cnt: map<Node, nat>): map<Node, nat> {
    if p.Whole? || p.node !in cnt then cnt else Counted(p.up, more, CountedOnce(p.node, more, cnt))
  }

  function CountedOnce(n: Node, more: bool, cnt: map<Node, nat>): map<Node, nat>
    requires n in cnt
  {
    cnt[n := if more then cnt[n] + 1 else if cnt[n] == 0 then 0 else cnt[n] - 1]
  }

  lemma {:induction false} CountedOff(p: Path, more: bool, cnt: map<Node, nat>, t: Tree)
    requires Cnt(t, cnt) && Nodes(t) !! PathNodes(p)
    ensures Cnt(t, Counted(p, more, cnt))
  {
    if p.In? && p.node in cnt {
      var cnt1 := CountedOnce(p.node, more, cnt);
      CntSet(t, cnt, p.node, cnt1[p.node]);
      CountedOff(p.up, more, cnt1, t);
    }
  }

  lemma {:induction false} CountedAt(p: Path, more: bool, cnt: map<Node, nat>, n: Node)
    requires n in cnt && n !in PathNodes(p)
    ensures n in Counted(p, more, cnt) && Counted(p, more, cnt)[n] == cnt[n]
  {
    if p.In? && p.node in cnt {
      CountedAt(p.up, more, CountedOnce(p.node, more, cnt), n);
    }
  }

  lemma {:induction false} CountedCnt(p: Path, n: nat, more: bool, cnt: map<Node, nat>)
    requires PathCnt(p, n, cnt) && PathApart(p) && (more || n >= 1)
    ensures PathCnt(p, if more then n + 1 else n - 1, Counted(p, more, cnt))
  {
    if p.In? {
      var cnt1 := CountedOnce(p.node, more, cnt);
      CntSet(p.other, cnt, p.node, cnt1[p.node]);
      PathCntSet(p.up, n + Size(p.other) + 1, cnt, p.node, cnt1[p.node]);
      CountedOff(p.up, more, cnt1, p.other);
      CountedAt(p.up, more, cnt1, p.node);
      CountedCnt(p.up, n + Size(p.other) + 1, more, cnt1);
    }
  }

  // ----- what the balances are for

  function Fib(n: nat): nat {
    if n < 2 then n else Fib(n - 1) + Fib(n - 2)
  }

  /** A tree of height h with right balances has at least as many nodes as the sparsest one, so that a search
      takes a number of steps logarithmic in the number of nodes. */
  lemma {:induction false} HeightBound(t: Tree, bal: map<Node, int>)
    requires Bal(t, bal)
    ensures Size(t) + 1 >= Fib(Height(t) + 2)
  {
    hide Fib, Bal, Height, Size;
    TreeParts(t, bal);
    if t.Leaf? {
      SparsestStep(0, 0);
    } else {
      HeightBound(t.left, bal);
      HeightBound(t.right, bal);
      var l, r := Height(t.left), Height(t.right);
      SparsestStep(if l > r then r else l, if l > r then l else r);
    }
  }

  lemma TreeParts(t: Tree, bal: map<Node, int>)
    requires Bal(t, bal)
    ensures t.Leaf? ==> Height(t) == 0 && Size(t) == 0
    ensures t.Br? ==>
      && Bal(t.left, bal) && Bal(t.right, bal) && Size(t) == Size(t.left) + 1 + Size(t.right)
      && Height(t) == Taller(Height(t.left), Height(t.right))
      && -1 <= Height(t.right) - Height(t.left) <= 1
  {
  }

  lemma SparsestStep(lower: nat, higher: nat)
    requires lower <= higher <= lower + 1
    ensures Fib(lower + 2) + Fib(higher + 2) >= Fib(higher + 3) && Fib(2) == 1
  {
    FibGrows(lower + 1);
  }

  lemma FibGrows(n: nat)
    ensures Fib(n) <= Fib(n + 1)
  {
  }
}
