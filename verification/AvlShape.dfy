/** The nodes of the AVL tree in src/avl.c and the shapes they form.

    A shape is the tree that the links of the nodes spell out; a path is what surrounds one of its subtrees. The
    fields of a set of nodes are read off into maps, so that what the links, parents, balances and counts must be
    are plain predicates over a shape and the maps. */
module AvlShape {
  class Node {
    const key: int
    var left: Node?
    var right: Node?
    var parent: Node?
    var balance: int
    var count: nat

    constructor (key: int)
      ensures this.key == key
    {
      this.key := key;
      left, right, parent, balance, count := null, null, null, 0, 0;
    }

    method SetLeft(child: Node?, ghost ns: set<Node>)
      requires this in ns
      modifies this`left
      ensures left == child && KidsOf(ns) == old(KidsOf(ns)).Set(true, this, child)
    {
      left := child;
    }

    method SetRight(child: Node?, ghost ns: set<Node>)
      requires this in ns
      modifies this`right
      ensures right == child && KidsOf(ns) == old(KidsOf(ns)).Set(false, this, child)
    {
      right := child;
    }

    method SetParent(p: Node?, ghost ns: set<Node>)
      requires this in ns
      modifies this`parent
      ensures parent == p && Parents(ns) == old(Parents(ns))[this := p]
    {
      parent := p;
    }

    /** The balance shares a word with the parent: three bits that hold a value from -2 to 2. */
    method SetBalance(b: int, ghost ns: set<Node>)
      requires this in ns && -2 <= b <= 2
      modifies this`balance
      ensures balance == b && Balances(ns) == old(Balances(ns))[this := b]
    {
      balance := b;
    }

    method IncBalance(ghost ns: set<Node>) returns (b: int)
      requires this in ns && -2 <= balance <= 1
      modifies this`balance
      ensures b == balance == old(balance) + 1 && Balances(ns) == old(Balances(ns))[this := b]
    {
      balance := balance + 1;
      b := balance;
    }

    method DecBalance(ghost ns: set<Node>) returns (b: int)
      requires this in ns && -1 <= balance <= 2
      modifies this`balance
      ensures b == balance == old(balance) - 1 && Balances(ns) == old(Balances(ns))[this := b]
    {
      balance := balance - 1;
      b := balance;
    }

    method SetCount(c: nat, ghost ns: set<Node>)
      requires this in ns
      modifies this`count
      ensures count == c && Counts(ns) == old(Counts(ns))[this := c]
    {
      count := c;
    }
  }

  // ----- the fields of a set of nodes

  type Link = map<Node, Node?>

  datatype Kids = Kids(left: Link, right: Link) {
    function Set(onLeft: bool, n: Node, child: Node?): Kids {
      if onLeft then this.(left := left[n := child]) else this.(right := right[n := child])
    }
  }

  ghost function KidsOf(ns: set<Node>): Kids
    reads ns`left, ns`right
  {
    Kids(map n: Node | n in ns :: n.left, map n: Node | n in ns :: n.right)
  }

  ghost function Parents(ns: set<Node>): Link
    reads ns`parent
  {
    map n: Node | n in ns :: n.parent
  }

  ghost function Balances(ns: set<Node>): map<Node, int>
    reads ns`balance
  {
    map n: Node | n in ns :: n.balance
  }

  ghost function Counts(ns: set<Node>): map<Node, nat>
    reads ns`count
  {
    map n: Node | n in ns :: n.count
  }

  // ----- shapes

  datatype Tree = Leaf | Br(left: Tree, node: Node, right: Tree)

  /** What surrounds a subtree: the node above it, on which side it hangs, and the subtree on the other side. */
  datatype Path = Whole | In(up: Path, onLeft: bool, node: Node, other: Tree)

  function RootOf(t: Tree): Node? {
    if t.Leaf? then null else t.node
  }

  /** The node above the hole; base is the one above the whole. */
  function Above(p: Path, base: Node?): Node? {
    if p.Whole? then base else p.node
  }

  function Height(t: Tree): nat {
    if t.Leaf? then 0
    else 1 + if Height(t.left) > Height(t.right) then Height(t.left) else Height(t.right)
  }

  function Size(t: Tree): nat {
    if t.Leaf? then 0 else Size(t.left) + 1 + Size(t.right)
  }

  function InOrder(t: Tree): seq<Node> {
    if t.Leaf? then [] else InOrder(t.left) + [t.node] + InOrder(t.right)
  }

  function Nodes(t: Tree): set<Node> {
    if t.Leaf? then {} else Nodes(t.left) + {t.node} + Nodes(t.right)
  }

  function PathNodes(p: Path): set<Node> {
    if p.Whole? then {} else PathNodes(p.up) + {p.node} + Nodes(p.other)
  }

  lemma PathNodeIn(p: Path)
    ensures p.In? ==> p.node in PathNodes(p)
  {
  }

  /** A node with t on the named side and o on the other. */
  function Fork(onLeft: bool, t: Tree, n: Node, o: Tree): Tree {
    if onLeft then Br(t, n, o) else Br(o, n, t)
  }

  function Plug(p: Path, t: Tree): Tree {
    if p.Whole? then t else Plug(p.up, Fork(p.onLeft, t, p.node, p.other))
  }

  function Before(p: Path): seq<Node> {
    if p.Whole? then []
    else if p.onLeft then Before(p.up)
    else Before(p.up) + InOrder(p.other) + [p.node]
  }

  function After(p: Path): seq<Node> {
    if p.Whole? then []
    else if p.onLeft then [p.node] + InOrder(p.other) + After(p.up)
    else After(p.up)
  }

  // ----- what the fields must be

  /** No node occurs twice. */
  predicate Apart(t: Tree) {
    t.Br? ==>
      && Apart(t.left) && Apart(t.right) && Nodes(t.left) !! Nodes(t.right)
      && t.node !in Nodes(t.left) && t.node !in Nodes(t.right)
  }

  predicate PathApart(p: Path) {
    p.In? ==>
      && PathApart(p.up) && Apart(p.other) && PathNodes(p.up) !! Nodes(p.other)
      && p.node !in PathNodes(p.up) && p.node !in Nodes(p.other)
  }

  predicate Down(t: Tree, k: Kids) {
    t.Br? ==>
      && t.node in k.left && k.left[t.node] == RootOf(t.left) && Down(t.left, k)
      && t.node in k.right && k.right[t.node] == RootOf(t.right) && Down(t.right, k)
  }

  predicate PathDown(p: Path, c: Node?, k: Kids) {
    p.In? ==>
      && p.node in k.left && k.left[p.node] == (if p.onLeft then c else RootOf(p.other))
      && p.node in k.right && k.right[p.node] == (if p.onLeft then RootOf(p.other) else c)
      && Down(p.other, k) && PathDown(p.up, p.node, k)
  }

  predicate Up(t: Tree, above: Node?, par: Link) {
    t.Br? ==> t.node in par && par[t.node] == above && Up(t.left, t.node, par) && Up(t.right, t.node, par)
  }

  predicate PathUp(p: Path, base: Node?, par: Link) {
    p.In? ==>
      p.node in par && par[p.node] == Above(p.up, base) && Up(p.other, p.node, par) && PathUp(p.up, base, par)
  }

  /** The balance of a node is the height of its right subtree less the height of its left one, at most one
      either way. */
  predicate Bal(t: Tree, bal: map<Node, int>) {
    t.Br? ==>
      && t.node in bal && -1 <= bal[t.node] <= 1 && bal[t.node] == Height(t.right) - Height(t.left)
      && Bal(t.left, bal) && Bal(t.right, bal)
  }

  /** The difference of heights as a balance, for a subtree of height h on the named side. */
  function Tilt(onLeft: bool, h: int, other: int): int {
    if onLeft then other - h else h - other
  }

  /** How high the whole is, around a subtree of height h. */
  function PathHeight(p: Path, h: nat): nat {
    if p.Whole? then h else PathHeight(p.up, Taller(h, Height(p.other)))
  }

  function Taller(h: nat, other: nat): nat {
    1 + if h > other then h else other
  }

  /** The balances around a subtree of height h. */
  predicate PathBal(p: Path, h: nat, bal: map<Node, int>) {
    p.In? ==>
      && p.node in bal && -1 <= bal[p.node] <= 1 && bal[p.node] == Tilt(p.onLeft, h, Height(p.other))
      && Bal(p.other, bal) && PathBal(p.up, Taller(h, Height(p.other)), bal)
  }

  /** The count of a node is the number of nodes below it. */
  predicate Cnt(t: Tree, cnt: map<Node, nat>) {
    t.Br? ==> t.node in cnt && cnt[t.node] + 1 == Size(t) && Cnt(t.left, cnt) && Cnt(t.right, cnt)
  }

  /** The counts around a subtree of n nodes. */
  predicate PathCnt(p: Path, n: nat, cnt: map<Node, nat>) {
    p.In? ==>
      && p.node in cnt && cnt[p.node] == n + Size(p.other)
      && Cnt(p.other, cnt) && PathCnt(p.up, n + Size(p.other) + 1, cnt)
  }

  // ----- the predicates at a fork

  lemma ForkParts(onLeft: bool, t: Tree, n: Node, o: Tree)
    ensures var f := Fork(onLeft, t, n, o);
      && f.Br? && f.node == n && RootOf(f) == n
      && Nodes(f) == Nodes(t) + {n} + Nodes(o)
      && (Apart(f) <==> Apart(t) && Apart(o) && Nodes(t) !! Nodes(o) && n !in Nodes(t) && n !in Nodes(o))
      && Size(f) == Size(t) + 1 + Size(o) && Height(f) == Taller(Height(t), Height(o))
  {
  }

  lemma ForkOrder(onLeft: bool, t: Tree, n: Node, o: Tree)
    ensures InOrder(Fork(onLeft, t, n, o))
      == if onLeft then InOrder(t) + [n] + InOrder(o) else InOrder(o) + [n] + InOrder(t)
  {
  }

  lemma ForkDown(onLeft: bool, t: Tree, n: Node, o: Tree, k: Kids)
    ensures Down(Fork(onLeft, t, n, o), k) <==>
      && n in k.left && k.left[n] == (if onLeft then RootOf(t) else RootOf(o))
      && n in k.right && k.right[n] == (if onLeft then RootOf(o) else RootOf(t))
      && Down(t, k) && Down(o, k)
  {
  }

  lemma ForkBal(onLeft: bool, t: Tree, n: Node, o: Tree, bal: map<Node, int>)
    ensures Bal(Fork(onLeft, t, n, o), bal) <==>
      && n in bal && -1 <= bal[n] <= 1 && bal[n] == Tilt(onLeft, Height(t), Height(o)) && Bal(t, bal) && Bal(o, bal)
  {
  }

  lemma ForkCnt(onLeft: bool, t: Tree, n: Node, o: Tree, cnt: map<Node, nat>)
    ensures Cnt(Fork(onLeft, t, n, o), cnt) <==>
      n in cnt && cnt[n] == Size(t) + Size(o) && Cnt(t, cnt) && Cnt(o, cnt)
  {
  }

  // ----- a subtree and its surroundings make the whole

  lemma {:induction false} PlugNodes(p: Path, t: Tree)
    ensures Nodes(Plug(p, t)) == Nodes(t) + PathNodes(p)
    ensures Apart(Plug(p, t)) <==> Apart(t) && PathApart(p) && Nodes(t) !! PathNodes(p)
  {
    if p.In? {
      PlugNodes(p.up, Fork(p.onLeft, t, p.node, p.other));
    }
  }

  lemma Regroup(b: seq<Node>, t: seq<Node>, n: Node, o: seq<Node>, a: seq<Node>)
    ensures b + (t + [n] + o) + a == b + t + ([n] + o + a)
    ensures b + (o + [n] + t) + a == (b + o + [n]) + t + a
  {
  }

  lemma {:induction false} PlugInOrder(p: Path, t: Tree)
    ensures InOrder(Plug(p, t)) == Before(p) + InOrder(t) + After(p)
  {
    hide InOrder, Fork;
    if p.In? {
      ForkOrder(p.onLeft, t, p.node, p.other);
      Regroup(Before(p.up), InOrder(t), p.node, InOrder(p.other), After(p.up));
      PlugInOrder(p.up, Fork(p.onLeft, t, p.node, p.other));
    }
  }

  lemma {:induction false} PlugDown(p: Path, t: Tree, k: Kids)
    ensures Down(Plug(p, t), k) <==> Down(t, k) && PathDown(p, RootOf(t), k)
  {
    if p.In? {
      PlugDown(p.up, Fork(p.onLeft, t, p.node, p.other), k);
    }
  }

  lemma {:induction false} PlugUp(p: Path, t: Tree, base: Node?, par: Link)
    ensures Up(Plug(p, t), base, par) <==> Up(t, Above(p, base), par) && PathUp(p, base, par)
  {
    if p.In? {
      PlugUp(p.up, Fork(p.onLeft, t, p.node, p.other), base, par);
    }
  }

  /** What hangs in a path does not change the root above it. */
  lemma {:induction false} RootPlug(p: Path, t: Tree, u: Tree)
    ensures RootOf(Plug(p, t)) == if p.Whole? then RootOf(t) else RootOf(Plug(p, u))
  {
    if p.In? {
      RootPlug(p.up, Fork(p.onLeft, t, p.node, p.other), Fork(p.onLeft, u, p.node, p.other));
    }
  }

  lemma {:induction false} PlugHeight(p: Path, t: Tree)
    ensures Height(Plug(p, t)) == PathHeight(p, Height(t))
  {
    hide Height, Fork;
    if p.In? {
      ForkParts(p.onLeft, t, p.node, p.other);
      PlugHeight(p.up, Fork(p.onLeft, t, p.node, p.other));
    }
  }

  lemma {:induction false} PlugBal(p: Path, t: Tree, bal: map<Node, int>)
    ensures Bal(Plug(p, t), bal) <==> Bal(t, bal) && PathBal(p, Height(t), bal)
  {
    hide Height, Fork, Bal;
    if p.In? {
      ForkParts(p.onLeft, t, p.node, p.other);
      ForkBal(p.onLeft, t, p.node, p.other, bal);
      PlugBal(p.up, Fork(p.onLeft, t, p.node, p.other), bal);
    }
  }

  lemma {:induction false} PlugCnt(p: Path, t: Tree, cnt: map<Node, nat>)
    ensures Cnt(Plug(p, t), cnt) <==> Cnt(t, cnt) && PathCnt(p, Size(t), cnt)
  {
    if p.In? {
      PlugCnt(p.up, Fork(p.onLeft, t, p.node, p.other), cnt);
    }
  }

  // ----- changing a field of another node

  lemma {:induction false} DownSet(t: Tree, k: Kids, onLeft: bool, n: Node, c: Node?)
    requires Down(t, k) && n !in Nodes(t)
    ensures Down(t, k.Set(onLeft, n, c))
  {
    if t.Br? {
      DownSet(t.left, k, onLeft, n, c);
      DownSet(t.right, k, onLeft, n, c);
    }
  }

  lemma {:induction false} PathDownSet(p: Path, a: Node?, k: Kids, onLeft: bool, n: Node, c: Node?)
    requires PathDown(p, a, k) && n !in PathNodes(p)
    ensures PathDown(p, a, k.Set(onLeft, n, c))
  {
    if p.In? {
      DownSet(p.other, k, onLeft, n, c);
      PathDownSet(p.up, p.node, k, onLeft, n, c);
    }
  }

  lemma {:induction false} UpSet(t: Tree, a: Node?, par: Link, n: Node, v: Node?)
    requires Up(t, a, par) && n !in Nodes(t)
    ensures Up(t, a, par[n := v])
  {
    if t.Br? {
      UpSet(t.left, t.node, par, n, v);
      UpSet(t.right, t.node, par, n, v);
    }
  }

  lemma {:induction false} PathUpSet(p: Path, base: Node?, par: Link, n: Node, v: Node?)
    requires PathUp(p, base, par) && n !in PathNodes(p)
    ensures PathUp(p, base, par[n := v])
  {
    if p.In? {
      UpSet(p.other, p.node, par, n, v);
      PathUpSet(p.up, base, par, n, v);
    }
  }

  lemma {:induction false} BalSet(t: Tree, bal: map<Node, int>, n: Node, b: int)
    requires Bal(t, bal) && n !in Nodes(t)
    ensures Bal(t, bal[n := b])
  {
    if t.Br? {
      BalSet(t.left, bal, n, b);
      BalSet(t.right, bal, n, b);
    }
  }

  lemma {:induction false} PathBalSet(p: Path, h: nat, bal: map<Node, int>, n: Node, b: int)
    requires PathBal(p, h, bal) && n !in PathNodes(p)
    ensures PathBal(p, h, bal[n := b])
  {
    if p.In? {
      BalSet(p.other, bal, n, b);
      PathBalSet(p.up, Taller(h, Height(p.other)), bal, n, b);
    }
  }

  lemma {:induction false} CntSet(t: Tree, cnt: map<Node, nat>, n: Node, c: nat)
    requires Cnt(t, cnt) && n !in Nodes(t)
    ensures Cnt(t, cnt[n := c])
  {
    if t.Br? {
      CntSet(t.left, cnt, n, c);
      CntSet(t.right, cnt, n, c);
    }
  }

  lemma {:induction false} PathCntSet(p: Path, s: nat, cnt: map<Node, nat>, n: Node, c: nat)
    requires PathCnt(p, s, cnt) && n !in PathNodes(p)
    ensures PathCnt(p, s, cnt[n := c])
  {
    if p.In? {
      CntSet(p.other, cnt, n, c);
      PathCntSet(p.up, s + Size(p.other) + 1, cnt, n, c);
    }
  }

  // ----- order

  lemma {:induction false} InOrderNodes(t: Tree)
    ensures |InOrder(t)| == Size(t)
    ensures forall i | 0 <= i < |InOrder(t)| :: InOrder(t)[i] in Nodes(t)
  {
    if t.Br? {
      InOrderNodes(t.left);
      InOrderNodes(t.right);
    }
  }

  predicate Unrepeated(s: seq<Node>) {
    forall i, j | 0 <= i < j < |s| :: s[i] != s[j]
  }

  lemma UnrepeatedJoin(l: seq<Node>, n: Node, r: seq<Node>)
    requires Unrepeated(l) && Unrepeated(r)
    requires (forall i | 0 <= i < |l| :: l[i] != n) && (forall j | 0 <= j < |r| :: r[j] != n)
    requires forall i, j | 0 <= i < |l| && 0 <= j < |r| :: l[i] != r[j]
    ensures Unrepeated(l + [n] + r)
  {
  }

  lemma {:induction false} InOrderUnrepeated(t: Tree)
    requires Apart(t)
    ensures Unrepeated(InOrder(t))
  {
    if t.Br? {
      InOrderUnrepeated(t.left);
      InOrderUnrepeated(t.right);
      InOrderNodes(t.left);
      InOrderNodes(t.right);
      var l, r := InOrder(t.left), InOrder(t.right);
      UnrepeatedJoin(l, t.node, r);
    }
  }

  lemma {:induction false} PathOrderNodes(p: Path)
    ensures forall i | 0 <= i < |Before(p)| :: Before(p)[i] in PathNodes(p)
    ensures forall i | 0 <= i < |After(p)| :: After(p)[i] in PathNodes(p)
  {
    if p.In? {
      PathOrderNodes(p.up);
      InOrderNodes(p.other);
    }
  }

  /** The way down to a node. */
  ghost function PathTo(t: Tree, n: Node, up: Path): (p: Path)
    requires n in Nodes(t)
  {
    if n == t.node then up
    else if n in Nodes(t.left) then PathTo(t.left, n, In(up, true, t.node, t.right))
    else PathTo(t.right, n, In(up, false, t.node, t.left))
  }

  ghost function SubtreeAt(t: Tree, n: Node): (s: Tree)
    requires n in Nodes(t)
    ensures s.Br? && s.node == n
  {
    if n == t.node then t
    else if n in Nodes(t.left) then SubtreeAt(t.left, n)
    else SubtreeAt(t.right, n)
  }

  lemma {:induction false} PathToPlugs(t: Tree, n: Node, up: Path)
    requires n in Nodes(t)
    ensures Plug(PathTo(t, n, up), SubtreeAt(t, n)) == Plug(up, t)
  {
    if n == t.node {
    } else if n in Nodes(t.left) {
      PathToPlugs(t.left, n, In(up, true, t.node, t.right));
    } else {
      PathToPlugs(t.right, n, In(up, false, t.node, t.left));
    }
  }
}
