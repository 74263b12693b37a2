/** Reading the AVL tree of src/avl.c: where the links lead, the order of the keys, and the searches. */
module AvlSearch {
  import opened AvlShape

  /** The links of the nodes ns spell out the shape t. */
  ghost predicate Linked(t: Tree, root: Node?, ns: set<Node>)
    reads ns`left, ns`right, ns`parent
  {
    Nodes(t) <= ns && Apart(t) && root == RootOf(t) && Down(t, KidsOf(ns)) && Up(t, null, Parents(ns))
  }

  /** What the links of a node inside the tree lead to. */
  lemma Here(t: Tree, root: Node?, ns: set<Node>, path: Path, cur: Tree)
    requires Linked(t, root, ns) && Plug(path, cur) == t && cur.Br?
    ensures cur.node in Nodes(t) && cur.node in ns
    ensures cur.node.left == RootOf(cur.left) && cur.node.right == RootOf(cur.right)
    ensures cur.node.parent == Above(path, null)
    ensures Plug(In(path, true, cur.node, cur.right), cur.left) == t
    ensures Plug(In(path, false, cur.node, cur.left), cur.right) == t
  {
    hide PathDown, PathUp, PathApart, PathNodes;
    PlugNodes(path, cur);
    PlugDown(path, cur, KidsOf(ns));
    PlugUp(path, cur, null, Parents(ns));
  }

  /** What surrounds a subtree. */
  lemma Around(t: Tree, root: Node?, ns: set<Node>, path: Path, cur: Tree)
    requires Linked(t, root, ns) && Plug(path, cur) == t
    ensures PathDown(path, RootOf(cur), KidsOf(ns)) && PathUp(path, null, Parents(ns)) && PathApart(path)
    ensures PathNodes(path) <= ns && PathNodes(path) !! Nodes(cur) && Nodes(cur) <= ns && Apart(cur)
    ensures Down(cur, KidsOf(ns)) && Up(cur, Above(path, null), Parents(ns))
  {
    hide PathDown, PathUp, PathApart, PathNodes, Down, Up, Apart, Nodes, Plug;
    PlugNodes(path, cur);
    PlugDown(path, cur, KidsOf(ns));
    PlugUp(path, cur, null, Parents(ns));
  }

  lemma WhichSide(p: Path, c: Node, ns: set<Node>)
    requires p.In? && PathNodes(p) <= ns && PathDown(p, c, KidsOf(ns)) && c !in PathNodes(p)
    ensures p.node in ns && (p.node.left == c <==> p.onLeft) && (p.node.right == c <==> !p.onLeft)
  {
    assert p.other.Br? ==> p.other.node in PathNodes(p);
  }

  // ----- order

  /** Keys that may follow one another: a tree with a unique index holds no key twice. */
  predicate Precedes(unique: bool, a: int, b: int) {
    a < b || (!unique && a == b)
  }

  predicate Sorted(s: seq<Node>, unique: bool) {
    forall i, j | 0 <= i < j < |s| :: Precedes(unique, s[i].key, s[j].key)
  }

  function FirstOf(s: seq<Node>): Node? {
    if s == [] then null else s[0]
  }

  function LastOf(s: seq<Node>): Node? {
    if s == [] then null else s[|s| - 1]
  }

  /** The node after the one at index i, if any. */
  function AfterIndex(s: seq<Node>, i: nat): Node? {
    if i + 1 < |s| then s[i + 1] else null
  }

  function BeforeIndex(s: seq<Node>, i: nat): Node? {
    if 0 < i <= |s| then s[i - 1] else null
  }

  /** The key lies where the path has its hole; strictly, on a side where keys may not be equal. */
  predicate Fits(p: Path, key: int, below: bool, above: bool) {
    && (forall i | 0 <= i < |Before(p)| :: Precedes(below, Before(p)[i].key, key))
    && (forall i | 0 <= i < |After(p)| :: Precedes(above, key, After(p)[i].key))
  }

  lemma BrOrder(t: Tree)
    requires t.Br?
    ensures InOrder(t) == InOrder(t.left) + [t.node] + InOrder(t.right)
    ensures Size(t) == Size(t.left) + 1 + Size(t.right)
  {
  }

  lemma FitsLeft(p: Path, t: Tree, key: int, below: bool, above: bool, unique: bool)
    requires t.Br? && Fits(p, key, below, above) && Sorted(InOrder(Plug(p, t)), unique)
    requires Precedes(above, key, t.node.key)
    ensures Fits(In(p, true, t.node, t.right), key, below, above)
  {
    hide Plug, InOrder, Sorted;
    PlugInOrder(p, t);
    BrOrder(t);
    var s, i := InOrder(Plug(p, t)), |Before(p)| + |InOrder(t.left)|;
    assert s[i] == t.node && s[i..] == After(In(p, true, t.node, t.right));
    FromIndex(s, i, After(In(p, true, t.node, t.right)), unique);
  }

  lemma FitsRight(p: Path, t: Tree, key: int, below: bool, above: bool, unique: bool)
    requires t.Br? && Fits(p, key, below, above) && Sorted(InOrder(Plug(p, t)), unique)
    requires Precedes(below, t.node.key, key)
    ensures Fits(In(p, false, t.node, t.left), key, below, above)
  {
    hide Plug, InOrder, Sorted;
    PlugInOrder(p, t);
    BrOrder(t);
    var s, i := InOrder(Plug(p, t)), |Before(p)| + |InOrder(t.left)|;
    assert s[i] == t.node && s[..i + 1] == Before(In(p, false, t.node, t.left));
    UpToIndex(s, i, Before(In(p, false, t.node, t.left)), unique);
  }

  lemma FromIndex(s: seq<Node>, i: nat, t: seq<Node>, unique: bool)
    requires Sorted(s, unique) && i < |s| && t == s[i..]
    ensures forall j | 0 <= j < |t| :: s[i].key <= t[j].key
  {
  }

  lemma UpToIndex(s: seq<Node>, i: nat, t: seq<Node>, unique: bool)
    requires Sorted(s, unique) && i < |s| && t == s[..i + 1]
    ensures forall j | 0 <= j < |t| :: t[j].key <= s[i].key
  {
  }

  predicate AllLeft(p: Path) {
    p.In? ==> p.onLeft && AllLeft(p.up)
  }

  predicate AllRight(p: Path) {
    p.In? ==> !p.onLeft && AllRight(p.up)
  }

  lemma {:induction false} LeftmostIsFirst(p: Path)
    ensures AllLeft(p) ==> Before(p) == []
    ensures AllRight(p) ==> After(p) == []
  {
    if p.In? {
      LeftmostIsFirst(p.up);
    }
  }

  /** `get_first`: down the left links. */
  method GetFirst(node: Node, ghost t: Tree, ghost ns: set<Node>)
    returns (first: Node, ghost p: Path, ghost rest: Tree)
    requires t.Br? && t.node == node && Nodes(t) <= ns && Down(t, KidsOf(ns))
    ensures t == Plug(p, Br(Leaf, first, rest)) && AllLeft(p)
    ensures FirstOf(InOrder(t)) == first
  {
    hide InOrder, Nodes;
    first, p := node, Whole;
    ghost var cur := t;
    assert node in ns by {
      PlugNodes(Whole, t);
      RootIn(t);
    }
    while first.left != null
      invariant cur.Br? && cur.node == first && first in ns && Nodes(cur) <= ns
      invariant Down(cur, KidsOf(ns)) && Plug(p, cur) == t && AllLeft(p)
      decreases cur
    {
      SubtreesIn(cur);
      RootIn(cur.left);
      p := In(p, true, cur.node, cur.right);
      first := first.left;
      cur := cur.left;
    }
    rest := cur.right;
    PlugInOrder(p, cur);
    LeftmostIsFirst(p);
    LeafFirst(first, rest);
  }

  lemma LeafFirst(n: Node, rest: Tree)
    ensures InOrder(Br(Leaf, n, rest)) == [n] + InOrder(rest)
    ensures InOrder(Br(rest, n, Leaf)) == InOrder(rest) + [n]
  {
  }

  lemma RootIn(t: Tree)
    ensures t.Br? ==> t.node in Nodes(t)
  {
  }

  lemma SubtreesIn(t: Tree)
    ensures t.Br? ==> Nodes(t.left) <= Nodes(t) && Nodes(t.right) <= Nodes(t)
  {
  }

  /** `get_last`: down the right links. */
  method GetLast(node: Node, ghost t: Tree, ghost ns: set<Node>) returns (last: Node)
    requires t.Br? && t.node == node && Nodes(t) <= ns && Down(t, KidsOf(ns))
    ensures LastOf(InOrder(t)) == last
  {
    hide InOrder, Nodes;
    last := node;
    ghost var p, cur := Whole, t;
    RootIn(t);
    while last.right != null
      invariant cur.Br? && cur.node == last && last in ns && Nodes(cur) <= ns
      invariant Down(cur, KidsOf(ns)) && Plug(p, cur) == t && AllRight(p)
      decreases cur
    {
      SubtreesIn(cur);
      RootIn(cur.right);
      p := In(p, false, cur.node, cur.left);
      last := last.right;
      cur := cur.right;
    }
    PlugInOrder(p, cur);
    LeftmostIsFirst(p);
    LeafFirst(last, cur.left);
  }

  // ----- stepping through the nodes

  /** Where a node stands in the order. */
  lemma IndexOf(t: Tree, path: Path, cur: Tree)
    requires Apart(t) && Plug(path, cur) == t && cur.Br?
    ensures var s, i := InOrder(t), |Before(path)| + |InOrder(cur.left)|;
      && i < |s| && s[i] == cur.node && (forall j | 0 <= j < |s| && s[j] == cur.node :: j == i)
      && s[i + 1..] == InOrder(cur.right) + After(path) && s[..i] == Before(path) + InOrder(cur.left)
  {
    hide Apart, Plug, Before, After, InOrder;
    PlugInOrder(path, cur);
    BrOrder(cur);
    Position(Before(path), InOrder(cur.left), cur.node, InOrder(cur.right), After(path));
    InOrderUnrepeated(t);
  }

  lemma Position(b: seq<Node>, l: seq<Node>, n: Node, r: seq<Node>, a: seq<Node>)
    ensures var s, i := b + (l + [n] + r) + a, |b| + |l|;
      i < |s| && s[i] == n && s[i + 1..] == r + a && s[..i] == b + l
  {
  }

  /** `avltree_next`. */
  method Next(node: Node, ghost t: Tree, ghost root: Node?, ghost ns: set<Node>) returns (next: Node?)
    requires Linked(t, root, ns) && node in Nodes(t)
    ensures forall i | 0 <= i < |InOrder(t)| && InOrder(t)[i] == node :: next == AfterIndex(InOrder(t), i)
  {
    hide Linked, Apart, Down, Up, Nodes, InOrder, PathDown, PathUp, PathNodes, PathApart, PathTo, SubtreeAt;
    ghost var path, cur := PathTo(t, node, Whole), SubtreeAt(t, node);
    PathToPlugs(t, node, Whole);
    Here(t, root, ns, path, cur);
    Around(t, root, ns, path, cur);
    RootIn(cur);
    assert Apart(t) by {
      LinkedApart(t, root, ns);
    }
    IndexOf(t, path, cur);
    if node.right != null {
      Around(t, root, ns, In(path, false, cur.node, cur.left), cur.right);
      ghost var p, rest;
      next, p, rest := GetFirst(node.right, cur.right, ns);
      return;
    }
    LeafOrder(cur.right);
    next := ClimbNext(node, cur, path, ns);
  }

  lemma LinkedApart(t: Tree, root: Node?, ns: set<Node>)
    requires Linked(t, root, ns)
    ensures Apart(t) && Nodes(t) <= ns && RootOf(t) == root
  {
  }

  lemma LeafOrder(t: Tree)
    ensures t.Leaf? ==> InOrder(t) == []
  {
  }

  /** Up from the right subtrees, to the first node above that is not left yet. */
  method ClimbNext(node: Node, ghost cur: Tree, ghost path: Path, ghost ns: set<Node>) returns (parent: Node?)
    requires node in ns && node.parent == Above(path, null) && PathNodes(path) <= ns && node !in PathNodes(path)
    requires PathDown(path, node, KidsOf(ns)) && PathUp(path, null, Parents(ns)) && PathApart(path)
    ensures parent == FirstOf(After(path))
  {
    parent := node.parent;
    var n: Node := node;
    ghost var p := path;
    while parent != null && parent.right == n
      invariant parent == Above(p, null) && PathNodes(p) <= ns && n !in PathNodes(p)
      invariant PathDown(p, n, KidsOf(ns)) && PathUp(p, null, Parents(ns)) && PathApart(p)
      invariant After(p) == After(path)
      decreases p
    {
      WhichSide(p, n, ns);
      n := parent;
      p := p.up;
      parent := n.parent;
    }
    if p.In? {
      WhichSide(p, n, ns);
    }
  }

  method ClimbPrev(node: Node, ghost cur: Tree, ghost path: Path, ghost ns: set<Node>) returns (parent: Node?)
    requires node in ns && node.parent == Above(path, null) && PathNodes(path) <= ns && node !in PathNodes(path)
    requires PathDown(path, node, KidsOf(ns)) && PathUp(path, null, Parents(ns)) && PathApart(path)
    ensures parent == LastOf(Before(path))
  {
    parent := node.parent;
    var n: Node := node;
    ghost var p := path;
    while parent != null && parent.left == n
      invariant parent == Above(p, null) && PathNodes(p) <= ns && n !in PathNodes(p)
      invariant PathDown(p, n, KidsOf(ns)) && PathUp(p, null, Parents(ns)) && PathApart(p)
      invariant Before(p) == Before(path)
      decreases p
    {
      WhichSide(p, n, ns);
      n := parent;
      p := p.up;
      parent := n.parent;
    }
    if p.In? {
      WhichSide(p, n, ns);
    }
  }

  /** `avltree_prev`. */
  method Prev(node: Node, ghost t: Tree, ghost root: Node?, ghost ns: set<Node>) returns (prev: Node?)
    requires Linked(t, root, ns) && node in Nodes(t)
    ensures forall i | 0 <= i < |InOrder(t)| && InOrder(t)[i] == node :: prev == BeforeIndex(InOrder(t), i)
  {
    hide Linked, Apart, Down, Up, Nodes, InOrder, PathDown, PathUp, PathNodes, PathApart, PathTo, SubtreeAt;
    ghost var path, cur := PathTo(t, node, Whole), SubtreeAt(t, node);
    PathToPlugs(t, node, Whole);
    Here(t, root, ns, path, cur);
    Around(t, root, ns, path, cur);
    RootIn(cur);
    LinkedApart(t, root, ns);
    IndexOf(t, path, cur);
    if node.left != null {
      Around(t, root, ns, In(path, true, cur.node, cur.right), cur.left);
      prev := GetLast(node.left, cur.left, ns);
      return;
    }
    LeafOrder(cur.left);
    prev := ClimbPrev(node, cur, path, ns);
  }
}
