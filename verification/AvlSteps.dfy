/** The steps of insertion and removal in src/avl.c that need no tree object: what they do to the fields of nodes, and
    why that is right. */
module AvlSteps {
  import opened AvlShape
  import opened AvlMoves
  import opened AvlSearch
  import opened AvlSplice

  lemma ContentIn(t: Tree, node: Node)
    requires node in InOrder(t)
    ensures node in Nodes(t)
  {
    InOrderNodes(t);
  }

  /** The number of nodes of a subtree, from the count field of its root. */
  function SizeField(node: Node?): nat
    reads node
  {
    if node != null then 1 + node.count else 0
  }

  lemma SizeFieldIs(node: Node?, t: Tree, ns: set<Node>)
    requires RootOf(t) == node && Nodes(t) <= ns && Cnt(t, Counts(ns))
    ensures SizeField(node) == Size(t)
  {
    RootIn(t);
  }

  /** The sign that a comparison of two keys returns. */
  function Cmp(a: int, b: int): int {
    if a > b then 1 else if a < b then -1 else 0
  }

  lemma CmpIs(a: int, b: int)
    ensures Cmp(a, b) > 0 <==> a > b
    ensures Cmp(a, b) < 0 <==> a < b
    ensures forall strict: bool :: a < b ==> Precedes(strict, a, b)
    ensures forall strict: bool :: a > b ==> Precedes(strict, b, a)
    ensures a == b ==> Precedes(false, a, b) && Precedes(false, b, a)
  {
  }

  lemma WholeIs(t: Tree)
    ensures Plug(Whole, t) == t
  {
  }

  ghost function Obj(n: Node?): set<Node> {
    if n == null then {} else {n}
  }

  lemma RootOfIn(t: Tree)
    ensures if t.Br? then RootOf(t) == t.node && t.node in Nodes(t) else RootOf(t) == null
  {
  }

  lemma UnrotatedRoot(side: bool, a: Tree, p: Node, b: Tree, q: Node, c: Tree)
    ensures var u := Unrotated(side, a, p, b, q, c); u.Br? && u.node == p
  {
  }

  lemma UnrotatedDown(side: bool, a: Tree, p: Node, b: Tree, q: Node, c: Tree, k: Kids)
    requires Down(Unrotated(side, a, p, b, q, c), k)
    ensures p in k.left && p in k.right && q in k.left && q in k.right
    ensures (if side then k.left[p] else k.right[p]) == RootOf(a) && (if side then k.right[p] else k.left[p]) == q
    ensures (if side then k.left[q] else k.right[q]) == RootOf(b)
    ensures (if side then k.right[q] else k.left[q]) == RootOf(c)
  {
    hide Down, Fork;
    ForkParts(side, b, q, c);
    ForkDown(side, a, p, Fork(side, b, q, c), k);
    ForkDown(side, b, q, c, k);
  }

  lemma UnrotatedCnt(side: bool, a: Tree, p: Node, b: Tree, q: Node, c: Tree, cnt: map<Node, nat>)
    requires Cnt(Unrotated(side, a, p, b, q, c), cnt)
    ensures Cnt(a, cnt) && Cnt(b, cnt) && Cnt(c, cnt)
  {
    hide Cnt, Fork;
    ForkCnt(side, a, p, Fork(side, b, q, c), cnt);
    ForkCnt(side, b, q, c, cnt);
  }

  lemma UpRoot(u: Tree, above: Node?, ns: set<Node>)
    requires Up(u, above, Parents(ns)) && u.Br? && u.node in ns
    ensures u.node.parent == above
  {
  }

  lemma LinkedParts(t: Tree, root: Node?, ns: set<Node>)
    requires Linked(t, root, ns)
    ensures Apart(t) && Nodes(t) <= ns && root == RootOf(t) && Down(t, KidsOf(ns)) && Up(t, null, Parents(ns))
  {
  }

  /** The maps after a rotation make the links and counts of the rotated shape. */
  lemma RotatedLinked(side: bool, path: Path, a: Tree, p: Node, b: Tree, q: Node, c: Tree, k: Kids, par: Link,
                      cnt: map<Node, nat>, root: Node?, ns: set<Node>)
    requires var u := Plug(path, Unrotated(side, a, p, b, q, c));
      && Apart(u) && Nodes(u) <= ns && Down(u, k) && Up(u, null, par) && Cnt(u, cnt)
      && root == (if path.Whole? then q else RootOf(u))
    requires KidsOf(ns) == RotatedKids(side, path, p, b, q, k)
    requires Parents(ns) == RotatedParents(path, p, b, q, par) && Counts(ns) == RotatedCounts(a, p, b, q, c, cnt)
    ensures Linked(Plug(path, Rotated(side, a, p, b, q, c)), root, ns)
    ensures Cnt(Plug(path, Rotated(side, a, p, b, q, c)), Counts(ns))
  {
    hide Down, Up, Apart, Nodes, Plug, Cnt, RotatedKids, RotatedParents, RotatedCounts, Fork;
    var u, r := Unrotated(side, a, p, b, q, c), Rotated(side, a, p, b, q, c);
    RotatedDown(side, path, a, p, b, q, c, k);
    RotatedUp(side, path, a, p, b, q, c, par);
    RotatedCnt(side, path, a, p, b, q, c, cnt);
    RotatedSame(side, a, p, b, q, c);
    PlugNodes(path, u);
    PlugNodes(path, r);
    RotationParts(side, a, p, b, q, c);
    RootPlug(path, r, u);
  }

  /** The shape after a double rotation. */
  function DoubleRotated(side: bool, a: Tree, p: Node, b: Tree, m: Node, c: Tree, q: Node, d: Tree): Tree {
    Rotated(side, a, p, b, m, Fork(side, c, q, d))
  }

  /** What at most two rotations make of a node p with subtrees a and x, x on the side that is too high. */
  predicate TurnedUp(side: bool, a: Tree, p: Node, x: Tree, once: bool, r: Tree) {
    && x.Br?
    && var b, c := if side then x.left else x.right, if side then x.right else x.left;
      if once then r == Rotated(side, a, p, b, x.node, c)
      else b.Br? && r == if side then DoubleRotated(side, a, p, b.left, b.node, b.right, x.node, c)
                         else DoubleRotated(side, a, p, b.right, b.node, b.left, x.node, c)
  }

  lemma DoubleShapes(side: bool, path: Path, a: Tree, p: Node, b: Tree, m: Node, c: Tree, q: Node, d: Tree)
    ensures Plug(In(path, !side, p, a), Unrotated(!side, d, q, c, m, b))
      == Plug(path, Unrotated(side, a, p, Fork(side, b, m, c), q, d))
    ensures Plug(In(path, !side, p, a), Rotated(!side, d, q, c, m, b))
      == Plug(path, Unrotated(side, a, p, b, m, Fork(side, c, q, d)))
  {
  }

  lemma DoublePath(path: Path, h: nat, bal: map<Node, int>, p: Node, x: int, q: Node, y: int, m: Node)
    requires PathBal(path, h, bal) && p !in PathNodes(path) && q !in PathNodes(path) && m !in PathNodes(path)
    ensures PathBal(path, h, bal[p := x][q := y][m := 0])
  {
    PathBalSet(path, h, bal, p, x);
    PathBalSet(path, h, bal[p := x], q, y);
    PathBalSet(path, h, bal[p := x][q := y], m, 0);
  }

  /** The last uneven node, one node further down. */
  lemma UnevenStep(path: Path, cur: Tree, u: Node?, ns: set<Node>)
    requires Nodes(Plug(path, cur)) <= ns && Apart(Plug(path, cur)) && cur.Br?
    requires path.Whole? ==> u == RootOf(cur)
    requires path.In? ==> LastUneven(path, u, Balances(ns))
    ensures forall onLeft: bool, other: Tree ::
      LastUneven(In(path, onLeft, cur.node, other), if cur.node.balance != 0 then cur.node else u, Balances(ns))
  {
    hide Plug, Apart, PathApart;
    PlugNodes(path, cur);
    RootIn(cur);
    if path.In? {
      UnevenIn(path, u, Balances(ns));
    }
  }

  lemma {:induction false} UnevenIn(path: Path, u: Node?, bal: map<Node, int>)
    requires LastUneven(path, u, bal)
    ensures u != null && u in PathNodes(path)
  {
    if path.node != u {
      UnevenIn(path.up, u, bal);
    }
  }

  /** `INIT_NODE`, and the maps of a tree's nodes widened by the node. */
  method InitNode(node: Node, ghost ns: set<Node>)
    requires node !in ns
    modifies node
    ensures KidsOf(ns + {node}) == old(KidsOf(ns)).Set(true, node, null).Set(false, node, null)
    ensures Parents(ns + {node}) == old(Parents(ns))[node := null]
    ensures Balances(ns + {node}) == old(Balances(ns))[node := 0]
    ensures Counts(ns + {node}) == old(Counts(ns))[node := 0]
    ensures node.left == null && node.right == null && node.parent == null && node.balance == 0 && node.count == 0
  {
    hide KidsOf, Parents, Balances, Counts;
    node.left, node.right, node.parent, node.balance, node.count := null, null, null, 0, 0;
    WiderKids(node, ns);
    WiderMaps(node, ns);
    WiderCounts(node, ns);
  }

  lemma WiderKids(node: Node, ns: set<Node>)
    requires node !in ns
    ensures KidsOf(ns + {node}) == KidsOf(ns).Set(true, node, node.left).Set(false, node, node.right)
  {
    assert KidsOf(ns + {node}).left == KidsOf(ns).left[node := node.left];
    assert KidsOf(ns + {node}).right == KidsOf(ns).right[node := node.right];
  }

  lemma WiderMaps(node: Node, ns: set<Node>)
    requires node !in ns
    ensures Parents(ns + {node}) == Parents(ns)[node := node.parent]
    ensures Balances(ns + {node}) == Balances(ns)[node := node.balance]
  {
  }

  lemma WiderCounts(node: Node, ns: set<Node>)
    requires node !in ns
    ensures Counts(ns + {node}) == Counts(ns)[node := node.count]
  {
  }

  /** The fields of a new leaf below a node of the tree. */
  method HangLeaf(node: Node, parent: Node, isLeft: bool, ghost ns: set<Node>)
    requires node !in ns && parent in ns
    modifies node, parent`left, parent`right
    ensures KidsOf(ns + {node})
      == old(KidsOf(ns)).Set(true, node, null).Set(false, node, null).Set(isLeft, parent, node)
    ensures Parents(ns + {node}) == old(Parents(ns))[node := null][node := parent]
    ensures Balances(ns + {node}) == old(Balances(ns))[node := 0]
    ensures Counts(ns + {node}) == old(Counts(ns))[node := 0]
    ensures node.parent == parent && node.count == 0
  {
    hide KidsOf, Parents, Balances, Counts;
    InitNode(node, ns);
    node.SetParent(parent, ns + {node});
    if isLeft {
      parent.SetLeft(node, ns + {node});
    } else {
      parent.SetRight(node, ns + {node});
    }
  }

  function NewLeaf(node: Node): (t: Tree)
    ensures t.Br? && t.node == node && Height(t) == 1 && Size(t) == 1
    ensures Nodes(t) == {node} && Apart(t) && InOrder(t) == [node]
  {
    Br(Leaf, node, Leaf)
  }

  lemma MakeLinked(t: Tree, root: Node?, ns: set<Node>)
    requires Apart(t) && Nodes(t) <= ns && root == RootOf(t) && Down(t, KidsOf(ns)) && Up(t, null, Parents(ns))
    ensures Linked(t, root, ns)
  {
  }

  lemma LeafLinks(path: Path, node: Node, k: Kids, par: Link)
    requires path.In? && node !in PathNodes(path)
    requires Apart(Plug(path, Leaf)) && Down(Plug(path, Leaf), k) && Up(Plug(path, Leaf), null, par)
    ensures var k3 := Attach(path, node, k.Set(true, node, null).Set(false, node, null));
      Down(Plug(path, NewLeaf(node)), k3)
    ensures Up(Plug(path, NewLeaf(node)), null, par[node := null][node := path.node])
  {
    hide Plug, PathDown, PathUp, PathApart;
    PlugNodes(path, Leaf);
    PlugDown(path, Leaf, k);
    PlugUp(path, Leaf, null, par);
    PathNodeIn(path);
    var k1 := k.Set(true, node, null);
    var k2 := k1.Set(false, node, null);
    PathDownSet(path, null, k, true, node, null);
    PathDownSet(path, null, k1, false, node, null);
    AttachPath(path, null, node, k2);
    PathUpSet(path, null, par, node, null);
    PathUpSet(path, null, par[node := null], node, path.node);
    PlugDown(path, NewLeaf(node), Attach(path, node, k2));
    PlugUp(path, NewLeaf(node), null, par[node := null][node := path.node]);
  }

  lemma LeafFields(path: Path, node: Node, bal: map<Node, int>, cnt: map<Node, nat>)
    requires node !in PathNodes(path) && Cnt(Plug(path, Leaf), cnt) && Bal(Plug(path, Leaf), bal)
    ensures Cnt(NewLeaf(node), cnt[node := 0]) && PathCnt(path, 0, cnt[node := 0])
    ensures Bal(NewLeaf(node), bal[node := 0]) && PathBal(path, 0, bal[node := 0])
  {
    hide Plug, PathCnt, PathBal;
    PlugCnt(path, Leaf, cnt);
    PlugBal(path, Leaf, bal);
    PathCntSet(path, 0, cnt, node, 0);
    PathBalSet(path, 0, bal, node, 0);
  }

  /** One more node is counted from a node up to the root. */
  method CountUp(start: Node, ghost path: Path, ghost ns: set<Node>)
    requires path.In? && start == path.node && PathNodes(path) <= ns
    requires PathUp(path, null, Parents(ns))
    modifies ns`count
    ensures Counts(ns) == Counted(path, true, old(Counts(ns)))
  {
    var node := start;
    ghost var p := path;
    while true
      invariant p.In? && node == p.node && PathNodes(p) <= ns && PathUp(p, null, Parents(ns))
      invariant Counted(p, true, Counts(ns)) == Counted(path, true, old(Counts(ns)))
      decreases p
    {
      node.SetCount(node.count + 1, ns);
      p := p.up;
      if node.parent == null {
        break;
      }
      node := node.parent;
    }
  }

  /** On the way up: the node just left, and the path above it. */
  ghost predicate Climbing(p: Path, node: Node, ns: set<Node>, k: Kids, par: Link) {
    PathNodes(p) <= ns && node !in PathNodes(p) && PathApart(p) && PathDown(p, node, k) && PathUp(p, null, par)
  }

  /** The balances above are still those of a subtree of height h, and u is the last uneven node. */
  ghost predicate BalancesAbove(p: Path, u: Node, h: nat, bal: map<Node, int>) {
    p.In? && PathBal(p, h, bal) && LastUneven(p, u, bal)
  }

  /** What one step of the way up meets. */
  lemma RetraceStep(p: Path, node: Node, u: Node, h: nat, ns: set<Node>)
    requires Climbing(p, node, ns, KidsOf(ns), Parents(ns)) && BalancesAbove(p, u, h, Balances(ns))
    ensures p.In? && p.node in ns && (p.node.left == node <==> p.onLeft) && p.node.parent == Above(p.up, null)
    ensures p.node in Balances(ns) && Balances(ns)[p.node] == p.node.balance && -1 <= p.node.balance <= 1
    ensures p.node in Counts(ns) && Counts(ns)[p.node] == p.node.count
    ensures p.node == u ==> Retraced(p, u, Balances(ns)) == Leaned(p, Balances(ns))
    ensures Climbing(p.up, p.node, ns, KidsOf(ns), Parents(ns))
  {
    WhichSide(p, node, ns);
  }

  lemma RetraceOn(p: Path, u: Node, h: nat, bal: map<Node, int>, b: int, cnt: map<Node, nat>)
    requires BalancesAbove(p, u, h, bal) && p.node != u && PathApart(p) && p.node in bal && p.node in cnt
    requires b == Leaned(p, bal)[p.node]
    ensures BalancesAbove(p.up, u, Taller(h, Height(p.other)), bal[p.node := b])
    ensures Retraced(p, u, bal) == Retraced(p.up, u, bal[p.node := b])
    ensures Counted(p, true, cnt) == Counted(p.up, true, cnt[p.node := cnt[p.node] + 1])
  {
    PathBalSet(p.up, Taller(h, Height(p.other)), bal, p.node, b);
    LastUnevenSet(p.up, u, bal, p.node, b);
  }

  lemma ClimbingParts(p: Path, node: Node, ns: set<Node>, k: Kids, par: Link)
    requires Climbing(p, node, ns, k, par)
    ensures PathNodes(p) <= ns && PathApart(p) && PathUp(p, null, par)
  {
  }

  /** From a new node up: balances up to the last uneven node, counts up to the root. */
  method RetraceUp(start: Node, unbalanced: Node, ghost path: Path, ghost h: nat, ghost ns: set<Node>)
    requires Climbing(path, start, ns, KidsOf(ns), Parents(ns)) && start.parent == Above(path, null)
    requires BalancesAbove(path, unbalanced, h, Balances(ns))
    modifies ns`balance, ns`count
    ensures Balances(ns) == Retraced(path, unbalanced, old(Balances(ns)))
    ensures Counts(ns) == Counted(path, true, old(Counts(ns)))
  {
    hide Retraced, Counted, KidsOf, Parents, Counts, Balances, Climbing, BalancesAbove, PathApart, Height, Taller,
      Nodes;
    var node: Node := start;
    var parent := node.parent;
    ghost var p, k := path, h;
    RetraceStep(p, node, unbalanced, k, ns);
    while true
      invariant p.In? && parent == p.node && Climbing(p, node, ns, KidsOf(ns), Parents(ns))
      invariant BalancesAbove(p, unbalanced, k, Balances(ns))
      invariant Retraced(p, unbalanced, Balances(ns)) == Retraced(path, unbalanced, old(Balances(ns)))
      invariant Counted(p, true, Counts(ns)) == Counted(path, true, old(Counts(ns)))
      decreases p
    {
      ghost var bal, cnt := Balances(ns), Counts(ns);
      RetraceStep(p, node, unbalanced, k, ns);
      ClimbingParts(p, node, ns, KidsOf(ns), Parents(ns));
      var b;
      if parent.left == node {
        b := parent.DecBalance(ns);
      } else {
        b := parent.IncBalance(ns);
      }
      if parent == unbalanced {
        CountUp(parent, p, ns);
        break;
      }
      RetraceOn(p, unbalanced, k, bal, b, cnt);
      k := Taller(k, Height(p.other));
      node := parent;
      node.SetCount(node.count + 1, ns);
      parent := node.parent;
      p := p.up;
      AboveStarts(p, unbalanced, k, Balances(ns));
    }
  }

  lemma AboveStarts(p: Path, u: Node, h: nat, bal: map<Node, int>)
    requires BalancesAbove(p, u, h, bal)
    ensures p.In?
  {
  }

  /** A subtree two levels higher than its neighbour, and not even itself. */
  predicate TwoHigher(x: Tree, a: Tree, bal: map<Node, int>) {
    && x.Br? && Bal(a, bal) && Bal(x, bal) && Height(x) == Height(a) + 2
    && x.node in bal && bal[x.node] != 0
  }

  /** What the balance of the last uneven node says once the way up has passed it: c, the subtree the way came
      from, is one level higher than it was. */
  lemma RetraceCases(s: Path, c: Tree, bal: map<Node, int>)
    requires RetracedTo(s, c, bal)
    ensures -2 <= bal[s.node] <= 2 && Height(c) >= 1
    ensures var f, h := Fork(s.onLeft, c, s.node, s.other), Taller(Height(c) - 1, Height(s.other));
      match bal[s.node]
      case 0 => Bal(f, bal) && Height(f) == h
      case 1 => s.up.Whole? && Bal(f, bal) && Height(f) == h + 1
      case -1 => s.up.Whole? && Bal(f, bal) && Height(f) == h + 1
      case v => (if v == 2 then !s.onLeft else s.onLeft) && TwoHigher(c, s.other, bal) && h == Height(c)
  {
    hide Bal, Fork, PathBal, Height;
    TreeHeight(c);
    ForkBal(s.onLeft, c, s.node, s.other, bal);
    ForkParts(s.onLeft, c, s.node, s.other);
    BalRoot(c, bal);
  }

  lemma BalRoot(t: Tree, bal: map<Node, int>)
    requires Bal(t, bal) && t.Br?
    ensures t.node in bal && -1 <= bal[t.node] <= 1 && bal[t.node] == Height(t.right) - Height(t.left)
    ensures Bal(t.left, bal) && Bal(t.right, bal) && Height(t) == Taller(Height(t.left), Height(t.right))
  {
  }

  lemma LinkedApartIn(path: Path, t: Tree, root: Node?, ns: set<Node>)
    requires Linked(Plug(path, t), root, ns)
    ensures Apart(t)
  {
    hide Apart, Nodes;
    PlugNodes(path, t);
  }

  lemma DoubleHeights(side: bool, path: Path, a: Tree, p: Node, b: Tree, m: Node, c: Tree, q: Node, d: Tree,
                             bal: map<Node, int>, root: Node?, ns: set<Node>)
    requires Linked(Plug(path, Unrotated(side, a, p, Fork(side, b, m, c), q, d)), root, ns)
    requires bal == Balances(ns)
    requires Bal(a, bal) && Bal(Fork(side, b, m, c), bal) && Bal(d, bal)
    requires Height(a) == Height(d) && Height(Fork(side, b, m, c)) == Height(a) + 1
    ensures Apart(Unrotated(side, a, p, Fork(side, b, m, c), q, d))
    ensures Height(DoubleRotated(side, a, p, b, m, c, q, d)) == Height(a) + 2
  {
    hide Bal, Height, Fork, Apart, Linked;
    LinkedApartIn(path, Unrotated(side, a, p, Fork(side, b, m, c), q, d), root, ns);
    DoubleBal(side, a, p, b, m, c, q, d, bal);
  }

  lemma DoubleSame(side: bool, a: Tree, p: Node, b: Tree, m: Node, c: Tree, q: Node, d: Tree)
    ensures var u, r := Unrotated(side, a, p, Fork(side, b, m, c), q, d), DoubleRotated(side, a, p, b, m, c, q, d);
      InOrder(r) == InOrder(u) && Nodes(r) == Nodes(u)
  {
    hide InOrder, Nodes, Height, Size, Fork, Apart;
    var x, y := Fork(side, Fork(side, b, m, c), q, d), Fork(side, b, m, Fork(side, c, q, d));
    RotatedSame(side, b, m, c, q, d);
    RotatedSame(side, a, p, b, m, Fork(side, c, q, d));
    ForkOrder(side, a, p, x);
    ForkOrder(side, a, p, y);
    ForkParts(side, a, p, x);
    ForkParts(side, a, p, y);
  }

  lemma HighIs(x: Tree, a: Tree, bal: map<Node, int>)
    requires TwoHigher(x, a, bal)
    ensures Height(x) == Height(a) + 2
  {
  }

  lemma SpareAbove(s: Path, c: Tree, bal: map<Node, int>)
    requires RetracedTo(s, c, bal)
    ensures Height(c) >= 1 && PathBal(s.up, Taller(Height(c) - 1, Height(s.other)), bal)
    ensures s.up.Whole? ==> forall h: nat :: PathBal(s.up, h, bal)
  {
  }

  lemma PlaceFree(path: Path, node: Node, root: Node?, ns: set<Node>)
    requires Linked(Plug(path, Leaf), root, ns) && node !in ns
    ensures PathNodes(path) <= ns && node !in PathNodes(path) && PathApart(path) && Nodes(Leaf) == {}
    ensures Height(Leaf) == 0
  {
    hide Plug, PathNodes, PathApart, Apart, Down, Up;
    PlugNodes(path, Leaf);
  }

  lemma ReadyToClimb(path: Path, node: Node, u: Node, root: Node?, ns: set<Node>)
    requires Linked(Plug(path, NewLeaf(node)), root, ns) && path.In?
    requires PathBal(path, 0, Balances(ns)) && LastUneven(path, u, Balances(ns))
    ensures Climbing(path, node, ns, KidsOf(ns), Parents(ns)) && BalancesAbove(path, u, 0, Balances(ns))
    ensures u in ns
  {
    hide Linked, Plug, PathDown, PathUp, PathApart, PathNodes, Down, Up, PathBal, LastUneven, Balances, KidsOf, Parents;
    Around(Plug(path, NewLeaf(node)), root, ns, path, NewLeaf(node));
    UnevenIn(path, u, Balances(ns));
  }

  lemma CountsClimbed(path: Path, node: Node, cnt: map<Node, nat>)
    requires PathApart(path) && node !in PathNodes(path) && PathCnt(path, 0, cnt) && Cnt(NewLeaf(node), cnt)
    ensures Cnt(Plug(path, NewLeaf(node)), Counted(path, true, cnt))
  {
    hide Plug, PathApart, PathNodes, PathCnt, Cnt, Counted;
    CountedCnt(path, 0, true, cnt);
    CountedOff(path, true, cnt, NewLeaf(node));
    PlugCnt(path, NewLeaf(node), Counted(path, true, cnt));
  }

  lemma BalancesClimbed(path: Path, node: Node, u: Node, bal: map<Node, int>)
    requires PathApart(path) && node !in PathNodes(path) && PathBal(path, 0, bal) && Bal(NewLeaf(node), bal)
    requires LastUneven(path, u, bal)
    ensures var s, c := PlaceOf(path, u), GrownAt(path, NewLeaf(node), u);
      && RetracedTo(s, c, Retraced(path, u, bal)) && s.node == u && Height(c) >= 1
      && Plug(path, NewLeaf(node)) == Plug(s.up, Fork(s.onLeft, c, u, s.other))
      && PathHeight(path, 0) == PathHeight(s.up, Taller(Height(c) - 1, Height(s.other)))
  {
    hide Plug, PathApart, PathNodes, PathBal, Retraced, LastUneven, PathHeight, Bal, Height, PlaceOf, GrownAt,
      RetracedTo;
    Retrace(path, NewLeaf(node), u, bal);
    SpareAbove(PlaceOf(path, u), GrownAt(path, NewLeaf(node), u), Retraced(path, u, bal));
  }

  /** Order after an insertion. */
  lemma InsertOrder(p: Path, node: Node, unique: bool)
    requires Sorted(Before(p) + After(p), unique) && Fits(p, node.key, unique, unique)
    ensures Sorted(Before(p) + [node] + After(p), unique)
  {
    var b, a := Before(p), After(p);
    var s, t := b + a, b + [node] + a;
    forall i, j | 0 <= i < j < |t|
      ensures Precedes(unique, t[i].key, t[j].key)
    {
      if i != |b| && j != |b| {
        var x, y := if i < |b| then i else i - 1, if j < |b| then j else j - 1;
        assert t[i] == s[x] && t[j] == s[y];
      }
    }
  }

  lemma EndsAfterInsert(p: Path, node: Node)
    ensures var s, t := Before(p) + After(p), Before(p) + [node] + After(p);
      && FirstOf(t) == (if Before(p) == [] then node else FirstOf(s))
      && LastOf(t) == (if After(p) == [] then node else LastOf(s))
  {
  }

  /** A leaf hung from the first node on its left is the new first node, and the same at the other end. */
  lemma EndsAt(p: Path)
    requires p.In? && Apart(Plug(p, Leaf))
    ensures var s := InOrder(Plug(p, Leaf));
      && (if p.onLeft then Before(p) == [] <==> FirstOf(s) == p.node else Before(p) != [])
      && (if p.onLeft then After(p) != [] else After(p) == [] <==> LastOf(s) == p.node)
      && s == Before(p) + After(p) && s != []
  {
    hide Plug, Apart;
    PlugInOrder(p, Leaf);
    InOrderUnrepeated(Plug(p, Leaf));
    var s, b := InOrder(Plug(p, Leaf)), Before(p);
    if p.onLeft {
      assert s[|b|] == p.node;
    } else {
      assert s[|b| - 1] == p.node;
    }
  }

  lemma NotHeld(p: Path, key: int, unique: bool)
    requires Fits(p, key, unique, unique)
    ensures var s := Before(p) + After(p); unique ==> forall i | 0 <= i < |s| :: s[i].key != key
  {
  }

  lemma OneNode(node: Node)
    requires node.left == null && node.right == null && node.parent == null && node.balance == 0 && node.count == 0
    ensures var ns := {node}; var t := NewLeaf(node);
      Linked(t, node, ns) && Cnt(t, Counts(ns)) && Bal(t, Balances(ns))
  {
  }

  /** The counts above are still those of a subtree of n nodes. */
  ghost predicate CountsAbove(p: Path, base: Node?, n: nat, ns: set<Node>, par: Link, cnt: map<Node, nat>) {
    PathNodes(p) <= ns && PathApart(p) && PathUp(p, base, par) && PathCnt(p, n, cnt) && n >= 1
  }

  lemma CountStep(p: Path, base: Node?, n: nat, ns: set<Node>)
    requires CountsAbove(p, base, n, ns, Parents(ns), Counts(ns)) && p.In?
    ensures p.node in ns && p.node.count >= 1 && p.node.parent == Above(p.up, base)
    ensures var cnt := Counts(ns)[p.node := p.node.count - 1];
      && CountsAbove(p.up, base, n + Size(p.other) + 1, ns, Parents(ns), cnt)
      && Counted(p, false, Counts(ns)) == Counted(p.up, false, cnt)
    ensures p.node == TopOf(p) <==> p.up.Whole?
  {
    PathCntSet(p.up, n + Size(p.other) + 1, Counts(ns), p.node, p.node.count - 1);
    TopReached(p);
  }

  lemma NothingAbove(p: Path, cnt: map<Node, nat>)
    ensures p.Whole? ==> Counted(p, false, cnt) == cnt
  {
  }

  /** One node fewer is counted from a node up to the root. */
  method CountDown(start: Node, ghost path: Path, ghost n: nat, ghost ns: set<Node>)
    requires path.In? && start == path.node && CountsAbove(path, null, n, ns, Parents(ns), Counts(ns))
    modifies ns`count
    ensures Counts(ns) == Counted(path, false, old(Counts(ns)))
  {
    hide CountsAbove, Counted, Parents, Counts, PathNodes, TopOf;
    var node: Node := start;
    ghost var p := path;
    ghost var m: nat := n;
    CountStep(p, null, m, ns);
    while true
      invariant p.In? && node == p.node && node in ns && CountsAbove(p, null, m, ns, Parents(ns), Counts(ns))
      invariant Counted(p, false, Counts(ns)) == Counted(path, false, old(Counts(ns)))
      decreases p
    {
      CountStep(p, null, m, ns);
      node.SetCount(node.count - 1, ns);
      m := m + Size(p.other) + 1;
      p := p.up;
      NothingAbove(p, Counts(ns));
      if node.parent == null {
        break;
      }
      node := node.parent;
      CountStep(p, null, m, ns);
    }
  }

  /** One node fewer is counted from a node up to the node stop. */
  method CountDownTo(start: Node, stop: Node, ghost path: Path, ghost base: Node?, ghost n: nat,
                            ghost ns: set<Node>)
    requires path.In? && start == path.node && stop == TopOf(path)
    requires CountsAbove(path, base, n, ns, Parents(ns), Counts(ns))
    modifies ns`count
    ensures Counts(ns) == Counted(path, false, old(Counts(ns)))
  {
    hide CountsAbove, Counted, Parents, Counts, PathNodes;
    var node: Node := start;
    ghost var p := path;
    ghost var m: nat := n;
    CountStep(p, base, m, ns);
    while true
      invariant p.In? && node == p.node && node in ns && stop == TopOf(p)
      invariant CountsAbove(p, base, m, ns, Parents(ns), Counts(ns))
      invariant Counted(p, false, Counts(ns)) == Counted(path, false, old(Counts(ns)))
      decreases p
    {
      CountStep(p, base, m, ns);
      node.SetCount(node.count - 1, ns);
      m := m + Size(p.other) + 1;
      p := p.up;
      NothingAbove(p, Counts(ns));
      if node == stop {
        break;
      }
      node := node.parent;
      CountStep(p, base, m, ns);
    }
  }

  lemma CountAt(node: Node, ns: set<Node>)
    requires node in ns
    ensures node in Counts(ns) && Counts(ns)[node] == node.count
  {
  }

  ghost function Recounted(path: Path, next: Node?, count: nat, cnt: map<Node, nat>): map<Node, nat>
    requires next != null ==> count >= 1
  {
    var c := Counted(path, false, cnt);
    if next == null then c else c[next := count - 1]
  }

  lemma SuccessorLinks(l: Tree, n: Node, r: Tree, p: Path, x: Node, rest: Tree, ns: set<Node>)
    requires Successor(r, p, x, rest) && Down(r, KidsOf(ns)) && Up(r, n, Parents(ns)) && Nodes(r) <= ns
    requires Nodes(r) == PathNodes(p) + {x} + Nodes(rest) && x !in PathNodes(p)
    ensures x in ns && r.Br? && (p.In? <==> r.node != x) && x.right == RootOf(rest)
    ensures p.In? ==> x.parent == p.node && r.node == TopOf(p) && r.node in PathNodes(p)
  {
    hide PathDown, PathUp, AllLeft, Plug, Nodes, PathNodes;
    PlugDown(p, Br(Leaf, x, rest), KidsOf(ns));
    PlugUp(p, Br(Leaf, x, rest), n, Parents(ns));
    if p.In? {
      TopIn(p, Br(Leaf, x, rest));
    } else {
      WholeIs(Br(Leaf, x, rest));
    }
  }

  /** The parents once the successor x has its new place, except that of what hung below it. */
  ghost function RightParents(path: Path, l: Tree, r: Tree, x: Node, par: Link): Link {
    Reparented(r, x, Reparented(l, x, par)[x := Above(path, null)])
  }

  /** The counts inside the right subtree, after those above the node and that of the successor were changed. */
  lemma CountsInside(path: Path, l: Tree, n: Node, r: Tree, p: Path, x: Node, rest: Tree, count: nat,
                            cnt: map<Node, nat>, root: Node?, ns: set<Node>)
    requires Linked(Plug(path, Br(l, n, r)), root, ns) && Successor(r, p, x, rest) && p.In? && l.Br?
    requires Cnt(Plug(path, Br(l, n, r)), cnt) && count >= 1
    ensures CountsAbove(p, x, Size(rest) + 1, ns, RightParents(path, l, r, x, Parents(ns)),
                        Recounted(path, x, count, cnt))
  {
    hide Linked, Cnt, Plug, PathUp, PathApart, PathNodes, AllLeft, Apart, Nodes, PathCnt, Counted, KidsOf, Size;
    var t := Br(l, n, r);
    var par := Parents(ns);
    Around(Plug(path, t), root, ns, path, t);
    LinkedParts(Plug(path, t), root, ns);
    TwoApart(path, l, n, r, p, x, rest);
    SubtreesIn(t);
    PlugCnt(path, t, cnt);
    BrCnt(l, n, r, cnt);
    PlugCnt(p, Br(Leaf, x, rest), cnt);
    BrCnt(Leaf, x, rest, cnt);
    CountedPathOff(path, false, cnt, p, Size(rest) + 1);
    PathCntSet(p, Size(rest) + 1, Counted(path, false, cnt), x, count - 1);
    RootIn(l);
    LeftApart(path, l, n, r);
    TreeReparented(r, n, l, x, par);
    InnerUp(r, n, p, x, rest, Above(path, null), Reparented(l, x, par));
  }

  lemma LeftApart(path: Path, l: Tree, n: Node, r: Tree)
    requires Apart(Plug(path, Br(l, n, r)))
    ensures Nodes(l) !! Nodes(r)
  {
    PlugNodes(path, Br(l, n, r));
  }

  /** The second part of a removal, for a node with two subtrees: the successor takes over its balance and its
      subtrees, and what hung below the successor moves up. */
  method TakePlace(node: Node, next: Node, left: Node, right: Node, above: Node?, ghost path: Path,
                          ghost l: Tree, ghost r: Tree, ghost p: Path, ghost rest: Tree, ghost ns: set<Node>)
    returns (parent: Node, isLeft: bool)
    requires node in ns && next in ns && left in ns && right in ns && -2 <= node.balance <= 2
    requires above == node.parent == Above(path, null) && left == RootOf(l) && right == RootOf(r)
    requires next != node && next != left && left != right && node != left && node != right
    requires p.In? <==> right != next
    requires next.right == RootOf(rest) && (p.In? ==> next.parent == p.node && p.node in ns && p.node != next)
    requires p.In? ==> right == TopOf(p)
    requires p.In? ==>
      CountsAbove(p, next, Size(rest) + 1, ns, RightParents(path, l, r, next, Parents(ns)), Counts(ns))
    requires rest.Br? ==> rest.node in ns && rest.node != next && rest.node != left && rest.node != right
    requires AllLeft(p)
    modifies ns`left, ns`right, ns`parent, ns`balance, ns`count
    ensures parent == Above(p, next) && isLeft == p.In?
    ensures KidsOf(ns) == PlacedKids(l, r, p, next, rest, old(KidsOf(ns)))
    ensures Parents(ns) == TwoParents(path, l, r, p, next, rest, old(Parents(ns)))
    ensures Counts(ns) == Counted(p, false, old(Counts(ns)))
    ensures Balances(ns) == old(Balances(ns))[next := old(node.balance)]
  {
    hide KidsOf, Parents, Counts, Balances, Counted, CountsAbove, PathNodes, TopOf, AllLeft, Size;
    NothingAbove(p, Counts(ns));
    next.SetBalance(node.balance, ns);
    next.SetLeft(left, ns);
    left.SetParent(next, ns);
    var below: Node?;
    if next != right {
      parent, below := TakeRight(node, next, right, path, l, r, p, rest, ns);
      isLeft := true;
    } else {
      next.SetParent(above, ns);
      parent := next;
      below := parent.right;
      isLeft := false;
    }
    if below != null {
      below.SetParent(parent, ns);
    }
  }

  /** The successor was not the root of the right subtree: that subtree goes below it. */
  method TakeRight(node: Node, next: Node, right: Node, ghost path: Path, ghost l: Tree, ghost r: Tree,
                          ghost p: Path, ghost rest: Tree, ghost ns: set<Node>)
    returns (parent: Node, below: Node?)
    requires next in ns && right in ns && node.parent == Above(path, null) && right == RootOf(r)
    requires next != right && next != node && next.right == RootOf(rest)
    requires p.In? && next.parent == p.node && p.node in ns && p.node != next && right == TopOf(p)
    requires var par := Reparented(r, next, Parents(ns)[next := Above(path, null)]);
      CountsAbove(p, next, Size(rest) + 1, ns, par, Counts(ns))
    modifies ns`left, ns`right, ns`parent, ns`count
    ensures parent == p.node && below == RootOf(rest)
    ensures KidsOf(ns) == old(KidsOf(ns)).Set(true, p.node, RootOf(rest)).Set(false, next, right)
    ensures Parents(ns) == Reparented(r, next, old(Parents(ns))[next := Above(path, null)])
    ensures Counts(ns) == Counted(p, false, old(Counts(ns)))
  {
    hide KidsOf, Parents, Counts, Counted, CountsAbove, PathNodes, TopOf, Size;
    parent := next.parent;
    next.SetParent(node.parent, ns);
    below := next.right;
    parent.SetLeft(below, ns);
    next.SetRight(right, ns);
    right.SetParent(next, ns);
    CountDownTo(parent, right, p, next, Size(rest) + 1, ns);
  }

  lemma NextIn(path: Path, s: Tree, t: Tree, n: Node)
    requires Nodes(Plug(path, s)) == Nodes(t) - {n}
    ensures s.Br? ==> s.node in Nodes(t) && s.node != n
  {
    PlugNodes(path, s);
  }

  lemma BalanceAt(n: Node, ns: set<Node>)
    requires n in ns
    ensures n in Balances(ns) && Balances(ns)[n] == n.balance
  {
  }

  lemma SuccessorLeft(r: Tree, p: Path, x: Node, rest: Tree)
    requires Successor(r, p, x, rest)
    ensures AllLeft(p)
  {
  }

  lemma SplicedRoot(path: Path, l: Tree, n: Node, r: Tree, p: Path, x: Node, rest: Tree)
    ensures RootOf(Spliced(path, l, p, x, rest)) == if path.Whole? then x else RootOf(Plug(path, Br(l, n, r)))
  {
    RootPlug(path, Br(l, x, Plug(p, rest)), Br(l, n, r));
  }

  lemma JoinedIn(path: Path, l: Tree, p: Path, x: Node, rest: Tree)
    ensures Plug(Joined(p, In(path, false, x, l)), rest) == Spliced(path, l, p, x, rest)
  {
    JoinedPlug(p, In(path, false, x, l), rest);
  }

  lemma JoinedTop(p2: Path, path: Path, x: Node, l: Tree)
    requires AllLeft(p2)
    ensures var p := Joined(p2, In(path, false, x, l)); p.In? && p.node == Above(p2, x) && p.onLeft == p2.In?
  {
  }

  lemma PlugIn(p: Path, t: Tree)
    requires p.In?
    ensures Plug(p, t) == Plug(p.up, Fork(p.onLeft, t, p.node, p.other))
    ensures PathHeight(p, Height(t) + 1) == PathHeight(p.up, Taller(Height(t) + 1, Height(p.other)))
  {
  }

  /** What the balance says once the lower side was taken into account. */
  lemma LowerCases(p: Path, hole: Tree, bal: map<Node, int>)
    requires p.In? && Apart(Fork(p.onLeft, hole, p.node, p.other))
    requires Bal(hole, bal) && PathBal(p, Height(hole) + 1, bal) && PathNodesApart(p)
    ensures p.node in bal && -1 <= bal[p.node] <= 1
    ensures var b := bal[p.node] + if p.onLeft then 1 else -1;
      var f, bal2 := Fork(p.onLeft, hole, p.node, p.other), bal[p.node := b];
      var h := Taller(Height(hole) + 1, Height(p.other));
      && Bal(hole, bal2) && Bal(p.other, bal2) && PathBal(p.up, h, bal2)
      && (b == 0 ==> Bal(f, bal2) && h == Height(f) + 1)
      && (b == (if p.onLeft then 1 else -1) ==> Bal(f, bal2) && h == Height(f))
      && (b == (if p.onLeft then 2 else -2) ==> Height(p.other) == Height(hole) + 2 && h == Height(hole) + 3)
      && (b == 0 || b == (if p.onLeft then 1 else -1) || b == (if p.onLeft then 2 else -2))
  {
    hide Bal, Height, Apart, Nodes, Fork;
    var b := bal[p.node] + if p.onLeft then 1 else -1;
    ForkParts(p.onLeft, hole, p.node, p.other);
    BalSet(hole, bal, p.node, b);
    BalSet(p.other, bal, p.node, b);
    PathBalSet(p.up, Taller(Height(hole) + 1, Height(p.other)), bal, p.node, b);
    ForkBal(p.onLeft, hole, p.node, p.other, bal[p.node := b]);
  }

  ghost predicate PathNodesApart(p: Path) {
    p.In? ==> p.node !in PathNodes(p.up)
  }

  lemma MakeTwoHigher(x: Tree, a: Tree, bal: map<Node, int>)
    requires Bal(a, bal) && Bal(x, bal) && Height(x) == Height(a) + 2 && (x.Br? && x.node in bal ==> bal[x.node] != 0)
    ensures TwoHigher(x, a, bal)
  {
  }

  /** The higher side is even: one rotation, and the tree is as high as before. */
  lemma EvenCase(side: bool, path: Path, a: Tree, p: Node, x: Tree, root: Node?, ns: set<Node>)
    requires Linked(Plug(path, Fork(side, a, p, x)), root, ns) && x.Br? && x.node in Balances(ns)
    requires Bal(a, Balances(ns)) && Bal(x, Balances(ns)) && Height(x) == Height(a) + 2 && Balances(ns)[x.node] == 0
    ensures var b, c := if side then x.left else x.right, if side then x.right else x.left;
      && Fork(side, a, p, x) == Unrotated(side, a, p, b, x.node, c)
      && Bal(Rotated(side, a, p, b, x.node, c), Balances(ns)[p := Tilt(side, 0, 1)][x.node := Tilt(side, 1, 0)])
      && Height(Rotated(side, a, p, b, x.node, c)) == Height(a) + 3
      && InOrder(Rotated(side, a, p, b, x.node, c)) == InOrder(Fork(side, a, p, x))
      && Nodes(Rotated(side, a, p, b, x.node, c)) == Nodes(Fork(side, a, p, x))
  {
    hide Linked, Plug, Bal, Height, Balances, InOrder, Nodes, Apart, Rotated;
    var b, c := if side then x.left else x.right, if side then x.right else x.left;
    BalRoot(x, Balances(ns));
    LinkedApartIn(path, Fork(side, a, p, x), root, ns);
    EvenBal(side, a, p, b, x.node, c, Balances(ns));
    RotatedSame(side, a, p, b, x.node, c);
  }

  /** The same nodes in the same order. */
  predicate SameNodes(t: Tree, u: Tree) {
    InOrder(t) == InOrder(u) && Nodes(t) == Nodes(u)
  }

  lemma SameTrans(t: Tree, u: Tree, v: Tree)
    requires SameNodes(t, u) && SameNodes(u, v)
    ensures SameNodes(t, v)
  {
  }

  lemma AboveIs(p: Path)
    ensures Above(p, null) == if p.Whole? then null else p.node
  {
  }

  lemma SameSelf(t: Tree)
    ensures SameNodes(t, t)
  {
  }

  lemma SameAround(p: Path, hole: Tree, hole2: Tree)
    requires p.In?
    requires InOrder(hole2) == InOrder(Fork(p.onLeft, hole, p.node, p.other))
    requires Nodes(hole2) == Nodes(Fork(p.onLeft, hole, p.node, p.other))
    ensures SameNodes(Plug(p.up, hole2), Plug(p, hole))
  {
    hide InOrder, Nodes, Fork, Plug;
    var f := Fork(p.onLeft, hole, p.node, p.other);
    PlugIn(p, hole);
    PlugInOrder(p.up, hole2);
    PlugInOrder(p.up, f);
    PlugNodes(p.up, hole2);
    PlugNodes(p.up, f);
  }

  /** Order and ends once the node at an index is gone. */
  lemma RemoveOrder(s: seq<Node>, i: nat, unique: bool)
    requires i < |s| && Sorted(s, unique) && Unrepeated(s)
    ensures var t := s[..i] + s[i + 1..];
      && Sorted(t, unique)
      && FirstOf(t) == (if FirstOf(s) == s[i] then AfterIndex(s, i) else FirstOf(s))
      && LastOf(t) == (if LastOf(s) == s[i] then BeforeIndex(s, i) else LastOf(s))
  {
    var t := s[..i] + s[i + 1..];
    forall x, y | 0 <= x < y < |t|
      ensures Precedes(unique, t[x].key, t[y].key)
    {
      assert t[x] == s[if x < i then x else x + 1] && t[y] == s[if y < i then y else y + 1];
    }
  }
}
