/** The AVL tree of src/avl.c: lookups, insertion and removal. */
module Avl {
  import opened AvlShape
  import opened AvlMoves
  import opened AvlSearch
  import opened AvlSplice
  import opened AvlSteps

  class AvlTree {
    const unique: bool
    var root: Node?
    var height: int
    var first: Node?
    var last: Node?
    ghost var shape: Tree

    constructor (unique: bool)
      ensures Valid() && Contents() == [] && this.unique == unique && height == -1
    {
      this.unique := unique;
      root, height, first, last := null, -1, null, null;
      shape := Leaf;
    }

    ghost function Contents(): seq<Node>
      reads `shape
    {
      InOrder(shape)
    }

    /** A shape whose links, counts, balances and height field are right. */
    ghost predicate Sound(t: Tree, ns: set<Node>)
      reads `root, `height, ns
    {
      Linked(t, root, ns) && Cnt(t, Counts(ns)) && Bal(t, Balances(ns)) && height + 1 == Height(t)
    }

    ghost predicate Valid()
      reads this, Nodes(shape)
    {
      && Sound(shape, Nodes(shape))
      && first == FirstOf(Contents()) && last == LastOf(Contents()) && Sorted(Contents(), unique)
    }

    /** Every field of the tree and of its nodes. */
    ghost function State(): (Tree, (Node?, int, Node?, Node?), (Kids, Link, map<Node, int>, map<Node, nat>))
      reads this, Nodes(shape)
    {
      var ns := Nodes(shape);
      (shape, (root, height, first, last), (KidsOf(ns), Parents(ns), Balances(ns), Counts(ns)))
    }

    // ----- lookups

    method Count() returns (n: nat)
      requires Valid()
      ensures n == |Contents()|
    {
      hide Down, Up, Apart, Bal;
      InOrderNodes(shape);
      RootIn(shape);
      n := if root != null then root.count + 1 else 0;
    }

    method First() returns (node: Node?)
      requires Valid()
      ensures node == if Contents() == [] then null else Contents()[0]
    {
      node := first;
    }

    method Last() returns (node: Node?)
      requires Valid()
      ensures node == if Contents() == [] then null else Contents()[|Contents()| - 1]
    {
      node := last;
    }

    method Next(node: Node) returns (next: Node?)
      requires Valid() && node in Contents()
      ensures forall i | 0 <= i < |Contents()| && Contents()[i] == node ::
                next == if i + 1 < |Contents()| then Contents()[i + 1] else null
    {
      hide Linked, Cnt, Bal;
      ContentIn(shape, node);
      next := AvlSearch.Next(node, shape, root, Nodes(shape));
    }

    method Prev(node: Node) returns (prev: Node?)
      requires Valid() && node in Contents()
      ensures forall i | 0 <= i < |Contents()| && Contents()[i] == node ::
                prev == if i > 0 then Contents()[i - 1] else null
    {
      hide Linked, Cnt, Bal;
      ContentIn(shape, node);
      prev := AvlSearch.Prev(node, shape, root, Nodes(shape));
    }

    /** The node at an index in the order, or null past the end. */
    method LookupIndex(index: nat) returns (node: Node?)
      requires Valid()
      ensures node == if index < |Contents()| then Contents()[index] else null
    {
      hide Linked, Cnt, Bal, InOrder, Nodes, Sorted, Plug;
      InOrderNodes(shape);
      node := root;
      LinkedApart(shape, root, Nodes(shape));
      LeafOrder(shape);
      if node == null {
        return;
      }
      ghost var cur, path := shape, Whole;
      WholeIs(cur);
      SubCounts(path, cur);
      var curIndex := SizeField(node.left);
      while true
        invariant Valid() && cur.Br? && node == cur.node && Plug(path, cur) == shape
        invariant curIndex == |Before(path)| + Size(cur.left) && |Before(path)| <= index
        invariant After(path) != [] ==> index < |Before(path)| + Size(cur)
        decreases cur
      {
        SubCounts(path, cur);
        PlugInOrder(path, cur);
        InOrderNodes(cur.left);
        InOrderNodes(cur.right);
        BrOrder(cur);
        if curIndex == index {
          break;
        }
        if curIndex > index {
          node := node.left;
          path, cur := In(path, true, cur.node, cur.right), cur.left;
          if node == null {
            break;
          }
          SubCounts(path, cur);
          curIndex := curIndex - (1 + SizeField(node.right));
        } else {
          node := node.right;
          path, cur := In(path, false, cur.node, cur.left), cur.right;
          if node == null {
            break;
          }
          SubCounts(path, cur);
          curIndex := curIndex + 1 + SizeField(node.left);
        }
      }
    }

    /** `do_closest_lookup`: the nodes before index `at` lie below the key and those from it on above; equal
        ones count as above or below as the caller asked. */
    method ClosestLookup(key: int, closestGreater: bool) returns (closest: Node?, ghost at: nat)
      requires Valid()
      ensures at <= |Contents()|
      ensures forall i | 0 <= i < at :: if closestGreater then Contents()[i].key < key else Contents()[i].key <= key
      ensures forall i | at <= i < |Contents()| ::
                if closestGreater then key <= Contents()[i].key else key < Contents()[i].key
      ensures closestGreater ==> closest == if at < |Contents()| then Contents()[at] else null
      ensures !closestGreater ==> closest == if at > 0 then Contents()[at - 1] else null
    {
      hide Linked, Cnt, Bal, InOrder, Nodes, Sorted, Plug, Precedes;
      var node := root;
      closest := null;
      ghost var cur, path := shape, Whole;
      WholeIs(cur);
      LinkedApart(shape, root, Nodes(shape));
      while node != null
        invariant Valid() && node == RootOf(cur) && Plug(path, cur) == shape
        invariant Fits(path, key, closestGreater, !closestGreater)
        invariant closest == if closestGreater then FirstOf(After(path)) else LastOf(Before(path))
        decreases cur
      {
        SubCounts(path, cur);
        var c := Cmp(node.key, key);
        CmpIs(node.key, key);
        var goLeft;
        if c == 0 {
          closest := node;
          goLeft := closestGreater;
        } else {
          if (closestGreater && c > 0) || (!closestGreater && c < 0) {
            closest := node;
          }
          goLeft := c > 0;
        }
        if goLeft {
          FitsLeft(path, cur, key, closestGreater, !closestGreater, unique);
          node := node.left;
          path, cur := In(path, true, cur.node, cur.right), cur.left;
        } else {
          FitsRight(path, cur, key, closestGreater, !closestGreater, unique);
          node := node.right;
          path, cur := In(path, false, cur.node, cur.left), cur.right;
        }
      }
      at := |Before(path)|;
      PlugInOrder(path, Leaf);
      LeafOrder(Leaf);
      assert Contents()[at..] == After(path) && Contents()[..at] == Before(path);
      FitsMeans(path, key, closestGreater);
    }

    static lemma FitsMeans(p: Path, key: int, below: bool)
      requires Fits(p, key, below, !below)
      ensures forall i | 0 <= i < |Before(p)| :: if below then Before(p)[i].key < key else Before(p)[i].key <= key
      ensures forall i | 0 <= i < |After(p)| :: if below then key <= After(p)[i].key else key < After(p)[i].key
    {
    }

    /** The order is by ascending keys, and a unique index holds no key twice. */
    lemma KeysAscend(i: nat, j: nat)
      requires Valid() && i < j < |Contents()|
      ensures Contents()[i].key <= Contents()[j].key && (unique ==> Contents()[i].key != Contents()[j].key)
    {
      hide Linked, Cnt, Bal, Nodes, InOrder;
      assert Precedes(unique, Contents()[i].key, Contents()[j].key);
    }

    /** `avltree_lookup`. */
    method Lookup(key: int) returns (node: Node?)
      requires Valid()
      ensures node != null ==> node.key == key && exists i | 0 <= i < |Contents()| :: Contents()[i] == node
      ensures node == null ==> forall i | 0 <= i < |Contents()| :: Contents()[i].key != key
    {
      hide Linked, Cnt, Bal, InOrder, Nodes, Sorted, Plug;
      node := root;
      ghost var cur, path := shape, Whole;
      WholeIs(cur);
      LinkedApart(shape, root, Nodes(shape));
      while node != null
        invariant Valid() && node == RootOf(cur) && Plug(path, cur) == shape && Fits(path, key, true, true)
        decreases cur
      {
        SubCounts(path, cur);
        var c := Cmp(node.key, key);
        if c == 0 {
          PlugInOrder(path, cur);
          BrOrder(cur);
          assert Contents()[|Before(path)| + |InOrder(cur.left)|] == node;
          return;
        }
        if c > 0 {
          FitsLeft(path, cur, key, true, true, unique);
          node := node.left;
          path, cur := In(path, true, cur.node, cur.right), cur.left;
        } else {
          FitsRight(path, cur, key, true, true, unique);
          node := node.right;
          path, cur := In(path, false, cur.node, cur.left), cur.right;
        }
      }
      PlugInOrder(path, Leaf);
      LeafOrder(Leaf);
    }

    /** The links and counts at a node of the tree. */
    lemma SubCounts(path: Path, cur: Tree)
      requires Valid() && Plug(path, cur) == shape && cur.Br?
      ensures cur.node in Nodes(shape) && cur.node.left == RootOf(cur.left) && cur.node.right == RootOf(cur.right)
      ensures SizeField(cur.node.left) == Size(cur.left) && SizeField(cur.node.right) == Size(cur.right)
      ensures Plug(In(path, true, cur.node, cur.right), cur.left) == shape
      ensures Plug(In(path, false, cur.node, cur.left), cur.right) == shape
    {
      hide Linked, Bal, InOrder, Sorted, Plug, PathCnt;
      Here(shape, root, Nodes(shape), path, cur);
      PlugNodes(path, cur);
      PlugCnt(path, cur, Counts(Nodes(shape)));
      SizeFieldIs(cur.node.left, cur.left, Nodes(shape));
      SizeFieldIs(cur.node.right, cur.right, Nodes(shape));
    }

    // ----- rotations

    /** The link that led to a node, from its parent or from the root field, now leads to another. */
    method ReplaceChild(parent: Node?, node: Node, child: Node?, ghost path: Path, ghost ns: set<Node>)
      requires parent == Above(path, null) && PathNodes(path) <= ns && node !in PathNodes(path)
      requires PathDown(path, node, KidsOf(ns))
      modifies `root, Obj(parent)`left, Obj(parent)`right
      ensures KidsOf(ns) == Attach(path, child, old(KidsOf(ns)))
      ensures root == if path.Whole? then child else old(root)
    {
      if parent != null {
        WhichSide(path, node, ns);
        if parent.left == node {
          parent.SetLeft(child, ns);
        } else {
          parent.SetRight(child, ns);
        }
      } else {
        root := child;
      }
    }

    method RotateLeftLinks(p: Node, ghost path: Path, ghost a: Tree, ghost b: Tree, ghost c: Tree, ghost ns: set<Node>)
      returns (q: Node)
      requires p in ns && p.right != null && p.right in ns && PathNodes(path) <= ns && Nodes(b) <= ns
      requires p !in PathNodes(path) && p.right !in PathNodes(path) && p != p.right
      requires PathDown(path, p, KidsOf(ns)) && p.parent == Above(path, null)
      requires p.right.left == RootOf(b) && p.right.right == RootOf(c) && p.left == RootOf(a)
      modifies `root, ns`left, ns`right, ns`parent
      ensures q == old(p.right) && KidsOf(ns) == RotatedKids(true, path, p, b, q, old(KidsOf(ns)))
      ensures Parents(ns) == RotatedParents(path, p, b, q, old(Parents(ns)))
      ensures root == if path.Whole? then q else old(root)
      ensures p.left == RootOf(a) && p.right == RootOf(b) && q.left == p && q.right == RootOf(c)
    {
      hide PathDown, KidsOf, Parents, PathNodes, RootOf, Nodes;
      PathNodeIn(path);
      q := p.right;
      var parent := p.parent;
      RootOfIn(b);
      ReplaceChild(parent, p, q, path, ns);
      q.SetParent(parent, ns);
      p.SetParent(q, ns);
      p.SetRight(q.left, ns);
      if p.right != null {
        p.right.SetParent(p, ns);
      }
      q.SetLeft(p, ns);
    }

    method RotateRightLinks(p: Node, ghost path: Path, ghost a: Tree, ghost b: Tree, ghost c: Tree, ghost ns: set<Node>)
      returns (q: Node)
      requires p in ns && p.left != null && p.left in ns && PathNodes(path) <= ns && Nodes(b) <= ns
      requires p !in PathNodes(path) && p.left !in PathNodes(path) && p != p.left
      requires PathDown(path, p, KidsOf(ns)) && p.parent == Above(path, null)
      requires p.left.right == RootOf(b) && p.left.left == RootOf(c) && p.right == RootOf(a)
      modifies `root, ns`left, ns`right, ns`parent
      ensures q == old(p.left) && KidsOf(ns) == RotatedKids(false, path, p, b, q, old(KidsOf(ns)))
      ensures Parents(ns) == RotatedParents(path, p, b, q, old(Parents(ns)))
      ensures root == if path.Whole? then q else old(root)
      ensures p.right == RootOf(a) && p.left == RootOf(b) && q.right == p && q.left == RootOf(c)
    {
      hide PathDown, KidsOf, Parents, PathNodes, RootOf, Nodes;
      PathNodeIn(path);
      q := p.left;
      var parent := p.parent;
      RootOfIn(b);
      ReplaceChild(parent, p, q, path, ns);
      q.SetParent(parent, ns);
      p.SetParent(q, ns);
      p.SetLeft(q.right, ns);
      if p.left != null {
        p.left.SetParent(p, ns);
      }
      q.SetRight(p, ns);
    }

    /** What a rotation needs to know of the nodes around it. */
    lemma RotationSite(side: bool, path: Path, a: Tree, p: Node, b: Tree, q: Node, c: Tree, ns: set<Node>)
      requires Linked(Plug(path, Unrotated(side, a, p, b, q, c)), root, ns)
      requires Cnt(Plug(path, Unrotated(side, a, p, b, q, c)), Counts(ns))
      ensures p in ns && q in ns && p != q && PathNodes(path) <= ns && p !in PathNodes(path) && q !in PathNodes(path)
      ensures Nodes(a) <= ns && Nodes(b) <= ns && Nodes(c) <= ns && p !in Nodes(c) && PathDown(path, p, KidsOf(ns))
      ensures p.parent == Above(path, null)
      ensures (if side then p.left else p.right) == RootOf(a) && (if side then p.right else p.left) == q
      ensures (if side then q.left else q.right) == RootOf(b) && (if side then q.right else q.left) == RootOf(c)
      ensures Cnt(a, Counts(ns)) && Cnt(b, Counts(ns)) && Cnt(c, Counts(ns))
    {
      hide Linked, PathDown, PathUp, PathApart, PathNodes, Down, Up, Apart, Nodes, Plug, Cnt, PathCnt, Fork, Size,
        Unrotated, Rotated, Counts, Parents;
      var u := Unrotated(side, a, p, b, q, c);
      Around(Plug(path, u), root, ns, path, u);
      RotationParts(side, a, p, b, q, c);
      UnrotatedDown(side, a, p, b, q, c, KidsOf(ns));
      PlugCnt(path, u, Counts(ns));
      UnrotatedCnt(side, a, p, b, q, c, Counts(ns));
      UnrotatedRoot(side, a, p, b, q, c);
      UpRoot(u, Above(path, null), ns);
    }

    /** `rotate_left`: p sinks below its right child q. */
    method RotateLeft(p: Node, ghost path: Path, ghost a: Tree, ghost b: Tree, ghost q0: Node, ghost c: Tree,
                      ghost ns: set<Node>)
      requires Linked(Plug(path, Unrotated(true, a, p, b, q0, c)), root, ns)
      requires Cnt(Plug(path, Unrotated(true, a, p, b, q0, c)), Counts(ns))
      modifies `root, ns`left, ns`right, ns`parent, ns`count
      ensures Linked(Plug(path, Rotated(true, a, p, b, q0, c)), root, ns)
      ensures Cnt(Plug(path, Rotated(true, a, p, b, q0, c)), Counts(ns))
    {
      hide Linked, PathDown, PathNodes, Down, Up, Apart, Nodes, Plug, Cnt, Size, Unrotated, Rotated, RotatedKids,
        RotatedParents, KidsOf, Parents, Counts;
      RotationSite(true, path, a, p, b, q0, c, ns);
      LinkedParts(Plug(path, Unrotated(true, a, p, b, q0, c)), root, ns);
      var q := RotateLeftLinks(p, path, a, b, c, ns);
      SizeFieldIs(p.left, a, ns);
      SizeFieldIs(p.right, b, ns);
      SizeFieldIs(q.right, c, ns);
      RootIn(c);
      p.SetCount(SizeField(p.left) + SizeField(p.right), ns);
      q.SetCount(1 + p.count + SizeField(q.right), ns);
      RotatedLinked(true, path, a, p, b, q, c, old(KidsOf(ns)), old(Parents(ns)), old(Counts(ns)), root, ns);
    }

    /** `rotate_right`: p sinks below its left child q. */
    method RotateRight(p: Node, ghost path: Path, ghost a: Tree, ghost b: Tree, ghost q0: Node, ghost c: Tree,
                       ghost ns: set<Node>)
      requires Linked(Plug(path, Unrotated(false, a, p, b, q0, c)), root, ns)
      requires Cnt(Plug(path, Unrotated(false, a, p, b, q0, c)), Counts(ns))
      modifies `root, ns`left, ns`right, ns`parent, ns`count
      ensures Linked(Plug(path, Rotated(false, a, p, b, q0, c)), root, ns)
      ensures Cnt(Plug(path, Rotated(false, a, p, b, q0, c)), Counts(ns))
    {
      hide Linked, PathDown, PathNodes, Down, Up, Apart, Nodes, Plug, Cnt, Size, Unrotated, Rotated, RotatedKids,
        RotatedParents, KidsOf, Parents, Counts;
      RotationSite(false, path, a, p, b, q0, c, ns);
      LinkedParts(Plug(path, Unrotated(false, a, p, b, q0, c)), root, ns);
      var q := RotateRightLinks(p, path, a, b, c, ns);
      SizeFieldIs(p.right, a, ns);
      SizeFieldIs(p.left, b, ns);
      SizeFieldIs(q.left, c, ns);
      RootIn(c);
      p.SetCount(SizeField(p.left) + SizeField(p.right), ns);
      q.SetCount(SizeField(q.left) + (1 + p.count), ns);
      RotatedLinked(false, path, a, p, b, q, c, old(KidsOf(ns)), old(Parents(ns)), old(Counts(ns)), root, ns);
    }

    // ----- restoring the balance of a node whose subtrees differ by two levels

    /** Both balances are set and the rotation is done. */
    method RotateLeftWith(p: Node, x: int, q: Node, y: int, ghost path: Path, ghost a: Tree, ghost b: Tree,
                          ghost c: Tree, ghost h: nat, ghost ns: set<Node>)
      requires Linked(Plug(path, Unrotated(true, a, p, b, q, c)), root, ns)
      requires Cnt(Plug(path, Unrotated(true, a, p, b, q, c)), Counts(ns))
      requires -2 <= x <= 2 && -2 <= y <= 2 && PathBal(path, h, Balances(ns))
      requires Bal(Rotated(true, a, p, b, q, c), Balances(ns)[p := x][q := y])
      modifies `root, ns`left, ns`right, ns`parent, ns`count, ns`balance
      ensures Linked(Plug(path, Rotated(true, a, p, b, q, c)), root, ns)
      ensures Cnt(Plug(path, Rotated(true, a, p, b, q, c)), Counts(ns))
      ensures Bal(Rotated(true, a, p, b, q, c), Balances(ns)) && PathBal(path, h, Balances(ns))
    {
      hide Linked, PathDown, PathNodes, Plug, Cnt, Unrotated, Rotated, KidsOf, Parents, Counts, Balances, Bal, PathBal;
      RotationSite(true, path, a, p, b, q, c, ns);
      PathBalSet(path, h, Balances(ns), p, x);
      PathBalSet(path, h, Balances(ns)[p := x], q, y);
      p.SetBalance(x, ns);
      q.SetBalance(y, ns);
      RotateLeft(p, path, a, b, q, c, ns);
    }

    /** The balances before a double rotation, from that of the inner node. */
    method LevelLeft(p: Node, q: Node, m: Node, ghost ns: set<Node>)
      requires p in ns && q in ns && m in ns && p != q && p != m && q != m && q.left == m && -1 <= m.balance <= 1
      modifies p`balance, q`balance, m`balance
      ensures Balances(ns)
        == old(Balances(ns))[p := OuterBal(true, old(m.balance))][q := InnerBal(true, old(m.balance))][m := 0]
    {
      hide Balances;
      if m.balance == 1 {
        p.SetBalance(-1, ns);
        q.SetBalance(0, ns);
      } else if m.balance == 0 {
        p.SetBalance(0, ns);
        q.SetBalance(0, ns);
      } else {
        p.SetBalance(0, ns);
        q.SetBalance(1, ns);
      }
      m.SetBalance(0, ns);
    }

    /** The heavy side leans inwards: two rotations. */
    method DoubleLeft(p: Node, q: Node, m: Node, ghost path: Path, ghost a: Tree, ghost b: Tree, ghost c: Tree,
                      ghost d: Tree, ghost h: nat, ghost ns: set<Node>)
      requires var u := Plug(path, Unrotated(true, a, p, Fork(true, b, m, c), q, d));
        Linked(u, root, ns) && Cnt(u, Counts(ns))
      requires Bal(a, Balances(ns)) && Bal(Fork(true, b, m, c), Balances(ns)) && Bal(d, Balances(ns))
      requires Height(a) == Height(d) && Height(Fork(true, b, m, c)) == Height(a) + 1
      requires PathBal(path, h, Balances(ns))
      modifies `root, ns`left, ns`right, ns`parent, ns`count, ns`balance
      ensures var r := DoubleRotated(true, a, p, b, m, c, q, d);
        Linked(Plug(path, r), root, ns) && Cnt(Plug(path, r), Counts(ns)) && Bal(r, Balances(ns))
      ensures PathBal(path, h, Balances(ns))
    {
      hide Linked, PathDown, PathNodes, Plug, Cnt, Unrotated, Rotated, KidsOf, Parents, Counts, Balances, Bal, PathBal,
        Fork, Apart, Nodes, Height;
      DoubleSite(true, path, a, p, b, m, c, q, d, ns);
      DoubleBal(true, a, p, b, m, c, q, d, Balances(ns));
      DoublePath(path, h, Balances(ns), p, OuterBal(true, m.balance), q, InnerBal(true, m.balance), m);
      LevelLeft(p, q, m, ns);
      DoubleShapes(true, path, a, p, b, m, c, q, d);
      RotateRight(q, In(path, false, p, a), d, c, m, b, ns);
      RotateLeft(p, path, a, b, m, Fork(true, c, q, d), ns);
    }

    /** Both balances are set and the rotation is done. */
    method RotateRightWith(p: Node, x: int, q: Node, y: int, ghost path: Path, ghost a: Tree, ghost b: Tree,
                          ghost c: Tree, ghost h: nat, ghost ns: set<Node>)
      requires Linked(Plug(path, Unrotated(false, a, p, b, q, c)), root, ns)
      requires Cnt(Plug(path, Unrotated(false, a, p, b, q, c)), Counts(ns))
      requires -2 <= x <= 2 && -2 <= y <= 2 && PathBal(path, h, Balances(ns))
      requires Bal(Rotated(false, a, p, b, q, c), Balances(ns)[p := x][q := y])
      modifies `root, ns`left, ns`right, ns`parent, ns`count, ns`balance
      ensures Linked(Plug(path, Rotated(false, a, p, b, q, c)), root, ns)
      ensures Cnt(Plug(path, Rotated(false, a, p, b, q, c)), Counts(ns))
      ensures Bal(Rotated(false, a, p, b, q, c), Balances(ns)) && PathBal(path, h, Balances(ns))
    {
      hide Linked, PathDown, PathNodes, Plug, Cnt, Unrotated, Rotated, KidsOf, Parents, Counts, Balances, Bal, PathBal;
      RotationSite(false, path, a, p, b, q, c, ns);
      PathBalSet(path, h, Balances(ns), p, x);
      PathBalSet(path, h, Balances(ns)[p := x], q, y);
      p.SetBalance(x, ns);
      q.SetBalance(y, ns);
      RotateRight(p, path, a, b, q, c, ns);
    }

    /** The balances before a double rotation, from that of the inner node. */
    method LevelRight(p: Node, q: Node, m: Node, ghost ns: set<Node>)
      requires p in ns && q in ns && m in ns && p != q && p != m && q != m && q.right == m && -1 <= m.balance <= 1
      modifies p`balance, q`balance, m`balance
      ensures Balances(ns)
        == old(Balances(ns))[p := OuterBal(false, old(m.balance))][q := InnerBal(false, old(m.balance))][m := 0]
    {
      hide Balances;
      if m.balance == 1 {
        p.SetBalance(0, ns);
        q.SetBalance(-1, ns);
      } else if m.balance == 0 {
        p.SetBalance(0, ns);
        q.SetBalance(0, ns);
      } else {
        p.SetBalance(1, ns);
        q.SetBalance(0, ns);
      }
      m.SetBalance(0, ns);
    }

    /** The heavy side leans inwards: two rotations. */
    method DoubleRight(p: Node, q: Node, m: Node, ghost path: Path, ghost a: Tree, ghost b: Tree, ghost c: Tree,
                      ghost d: Tree, ghost h: nat, ghost ns: set<Node>)
      requires var u := Plug(path, Unrotated(false, a, p, Fork(false, b, m, c), q, d));
        Linked(u, root, ns) && Cnt(u, Counts(ns))
      requires Bal(a, Balances(ns)) && Bal(Fork(false, b, m, c), Balances(ns)) && Bal(d, Balances(ns))
      requires Height(a) == Height(d) && Height(Fork(false, b, m, c)) == Height(a) + 1
      requires PathBal(path, h, Balances(ns))
      modifies `root, ns`left, ns`right, ns`parent, ns`count, ns`balance
      ensures var r := DoubleRotated(false, a, p, b, m, c, q, d);
        Linked(Plug(path, r), root, ns) && Cnt(Plug(path, r), Counts(ns)) && Bal(r, Balances(ns))
      ensures PathBal(path, h, Balances(ns))
    {
      hide Linked, PathDown, PathNodes, Plug, Cnt, Unrotated, Rotated, KidsOf, Parents, Counts, Balances, Bal, PathBal,
        Fork, Apart, Nodes, Height;
      DoubleSite(false, path, a, p, b, m, c, q, d, ns);
      DoubleBal(false, a, p, b, m, c, q, d, Balances(ns));
      DoublePath(path, h, Balances(ns), p, OuterBal(false, m.balance), q, InnerBal(false, m.balance), m);
      LevelRight(p, q, m, ns);
      DoubleShapes(false, path, a, p, b, m, c, q, d);
      RotateLeft(q, In(path, true, p, a), d, c, m, b, ns);
      RotateRight(p, path, a, b, m, Fork(false, c, q, d), ns);
    }

    lemma DoubleSite(side: bool, path: Path, a: Tree, p: Node, b: Tree, m: Node, c: Tree, q: Node, d: Tree,
                     ns: set<Node>)
      requires var u := Plug(path, Unrotated(side, a, p, Fork(side, b, m, c), q, d));
        Linked(u, root, ns) && Cnt(u, Counts(ns))
      requires Bal(Fork(side, b, m, c), Balances(ns))
      ensures Apart(Unrotated(side, a, p, Fork(side, b, m, c), q, d))
      ensures p in ns && q in ns && m in ns && p != q && p != m && q != m
      ensures p !in PathNodes(path) && q !in PathNodes(path) && m !in PathNodes(path)
      ensures m == (if side then q.left else q.right) && Balances(ns)[m] == m.balance && -1 <= m.balance <= 1
    {
      hide Linked, PathDown, PathNodes, Plug, Cnt, Unrotated, KidsOf, Parents, Counts, Bal, Fork, Apart, Nodes, Height;
      RotationSite(side, path, a, p, Fork(side, b, m, c), q, d, ns);
      var u := Unrotated(side, a, p, Fork(side, b, m, c), q, d);
      Around(Plug(path, u), root, ns, path, u);
      RotationParts(side, a, p, Fork(side, b, m, c), q, d);
      ForkParts(side, b, m, c);
      ForkBal(side, b, m, c, Balances(ns));
    }

    // ----- insertion

    /** Where a new key belongs: the node it hangs from, on which side, and the last uneven node above it; or, with
        a unique index, the node that holds the key already. */
    method FindPlace(key: int)
      returns (found: Node?, parent: Node?, isLeft: bool, unbalanced: Node?, ghost path: Path)
      requires Valid()
      ensures Valid() && State() == old(State())
      ensures found != null ==> unique && found.key == key && exists i | 0 <= i < |Contents()| :: Contents()[i] == found
      ensures found == null ==>
        && Plug(path, Leaf) == shape && Fits(path, key, unique, unique) && parent == Above(path, null)
        && (path.In? ==> isLeft == path.onLeft && LastUneven(path, unbalanced, Balances(Nodes(shape))))
    {
      hide Linked, Cnt, Bal, InOrder, Sorted, Plug, Precedes, LastUneven, Balances;
      found, parent, isLeft, unbalanced := null, null, false, root;
      var nextParent := root;
      path := Whole;
      ghost var cur := shape;
      WholeIs(cur);
      LinkedApart(shape, root, Nodes(shape));
      while nextParent != null
        invariant Valid() && State() == old(State())
        invariant nextParent == RootOf(cur) && parent == Above(path, null) && Plug(path, cur) == shape
        invariant found == null && Fits(path, key, unique, unique)
        invariant if path.Whole? then unbalanced == root == RootOf(cur)
          else LastUneven(path, unbalanced, Balances(Nodes(shape)))
        invariant path.In? && nextParent == null ==> isLeft == path.onLeft
        decreases cur
      {
        SubCounts(path, cur);
        ghost var down;
        parent := nextParent;
        UnevenStep(path, cur, unbalanced, Nodes(shape));
        if parent.balance != 0 {
          unbalanced := parent;
        }
        var c := Cmp(parent.key, key);
        CmpIs(parent.key, key);
        if c == 0 {
          if unique {
            PlugInOrder(path, cur);
            BrOrder(cur);
            assert Contents()[|Before(path)| + |InOrder(cur.left)|] == parent;
            found := parent;
            return;
          }
          if parent.left == null {
            isLeft := true;
            FitsLeft(path, cur, key, unique, unique, unique);
            path, cur := In(path, true, cur.node, cur.right), cur.left;
            break;
          } else if parent.right == null {
            isLeft := false;
            FitsRight(path, cur, key, unique, unique, unique);
            path, cur := In(path, false, cur.node, cur.left), cur.right;
            break;
          }
          // Both subtrees are there: go to the lower one.
          nextParent := if parent.balance <= 0 then parent.left else parent.right;
          down := parent.balance <= 0;
        } else {
          isLeft := c > 0;
          nextParent := if isLeft then parent.left else parent.right;
          down := isLeft;
        }
        if down {
          FitsLeft(path, cur, key, unique, unique, unique);
          path, cur := In(path, true, cur.node, cur.right), cur.left;
        } else {
          FitsRight(path, cur, key, unique, unique, unique);
          path, cur := In(path, false, cur.node, cur.left), cur.right;
        }
      }
    }

    /** A new leaf hung into the tree; the counts and balances above it are still those without it. */
    method LinkLeaf(node: Node, parent: Node, isLeft: bool, ghost path: Path, ghost ns: set<Node>)
      requires Linked(Plug(path, Leaf), root, ns) && node !in ns
      requires path.In? && parent == path.node && isLeft == path.onLeft
      requires Cnt(Plug(path, Leaf), Counts(ns)) && Bal(Plug(path, Leaf), Balances(ns))
      modifies node, parent`left, parent`right
      ensures Linked(Plug(path, NewLeaf(node)), root, ns + {node})
      ensures Cnt(NewLeaf(node), Counts(ns + {node})) && PathCnt(path, 0, Counts(ns + {node}))
      ensures Bal(NewLeaf(node), Balances(ns + {node})) && PathBal(path, 0, Balances(ns + {node}))
      ensures Balances(ns + {node}) == old(Balances(ns))[node := 0]
      ensures node.parent == parent && node.count == 0
    {
      hide Linked, Cnt, Bal, Plug, PathDown, PathUp, PathBal, PathCnt, PathApart, KidsOf, Parents, Balances, Counts,
        Apart, PathNodes, NewLeaf;
      LinkedParts(Plug(path, Leaf), root, ns);
      PlugNodes(path, Leaf);
      PathNodeIn(path);
      ghost var k, par, bal, cnt := KidsOf(ns), Parents(ns), Balances(ns), Counts(ns);
      HangLeaf(node, parent, isLeft, ns);
      LeafLinks(path, node, k, par);
      LeafFields(path, node, bal, cnt);
      RootPlug(path, NewLeaf(node), Leaf);
      PlugNodes(path, NewLeaf(node));
      MakeLinked(Plug(path, NewLeaf(node)), root, ns + {node});
    }

    /** A node whose right subtree is two levels higher and not even: one or two rotations, one level lower. */
    method HeavyRight(p: Node, ghost path: Path, ghost a: Tree, ghost x: Tree, ghost h: nat, ghost ns: set<Node>)
      returns (ghost r: Tree)
      requires Linked(Plug(path, Br(a, p, x)), root, ns) && Cnt(Plug(path, Br(a, p, x)), Counts(ns))
      requires TwoHigher(x, a, Balances(ns)) && PathBal(path, h, Balances(ns))
      modifies `root, ns`left, ns`right, ns`parent, ns`count, ns`balance
      ensures Linked(Plug(path, r), root, ns) && Cnt(Plug(path, r), Counts(ns))
      ensures Bal(r, Balances(ns)) && PathBal(path, h, Balances(ns)) && Height(r) == Height(a) + 2
      ensures InOrder(r) == InOrder(Br(a, p, x)) && Nodes(r) == Nodes(Br(a, p, x))
      ensures x.Br? && TurnedUp(true, a, p, x, old(x.node.balance) == 1, r)
    {
      hide Linked, Cnt, Bal, PathBal, Plug, Height, KidsOf, Parents, Counts, Apart, Nodes, InOrder;
      ghost var b, q0, c := x.left, x.node, x.right;
      BalRoot(x, Balances(ns));
      TreeHeight(b);
      assert Br(a, p, x) == Unrotated(true, a, p, b, q0, c);
      RotationSite(true, path, a, p, b, q0, c, ns);
      var q := p.right;
      if q.balance == 1 {
        LinkedApartIn(path, Unrotated(true, a, p, b, q0, c), root, ns);
        SingleBal(true, a, p, b, q0, c, Balances(ns));
        RotateLeftWith(p, 0, q, 0, path, a, b, c, h, ns);
        r := Rotated(true, a, p, b, q0, c);
        RotatedSame(true, a, p, b, q0, c);
      } else {
        ghost var m := b.node;
        assert b == Fork(true, b.left, m, b.right);
        DoubleHeights(true, path, a, p, b.left, m, b.right, q0, c, Balances(ns), root, ns);
        DoubleLeft(p, q, q.left, path, a, b.left, b.right, c, h, ns);
        r := DoubleRotated(true, a, p, b.left, m, b.right, q0, c);
        DoubleSame(true, a, p, b.left, m, b.right, q0, c);
      }
    }

    /** A node whose left subtree is two levels higher and not even. */
    method HeavyLeft(p: Node, ghost path: Path, ghost a: Tree, ghost x: Tree, ghost h: nat, ghost ns: set<Node>)
      returns (ghost r: Tree)
      requires Linked(Plug(path, Br(x, p, a)), root, ns) && Cnt(Plug(path, Br(x, p, a)), Counts(ns))
      requires TwoHigher(x, a, Balances(ns)) && PathBal(path, h, Balances(ns))
      modifies `root, ns`left, ns`right, ns`parent, ns`count, ns`balance
      ensures Linked(Plug(path, r), root, ns) && Cnt(Plug(path, r), Counts(ns))
      ensures Bal(r, Balances(ns)) && PathBal(path, h, Balances(ns)) && Height(r) == Height(a) + 2
      ensures InOrder(r) == InOrder(Br(x, p, a)) && Nodes(r) == Nodes(Br(x, p, a))
      ensures x.Br? && TurnedUp(false, a, p, x, old(x.node.balance) == -1, r)
    {
      hide Linked, Cnt, Bal, PathBal, Plug, Height, KidsOf, Parents, Counts, Apart, Nodes, InOrder;
      ghost var b, q0, c := x.right, x.node, x.left;
      BalRoot(x, Balances(ns));
      TreeHeight(b);
      assert Br(x, p, a) == Unrotated(false, a, p, b, q0, c);
      RotationSite(false, path, a, p, b, q0, c, ns);
      var q := p.left;
      if q.balance == -1 {
        LinkedApartIn(path, Unrotated(false, a, p, b, q0, c), root, ns);
        SingleBal(false, a, p, b, q0, c, Balances(ns));
        RotateRightWith(p, 0, q, 0, path, a, b, c, h, ns);
        r := Rotated(false, a, p, b, q0, c);
        RotatedSame(false, a, p, b, q0, c);
      } else {
        ghost var m := b.node;
        assert b == Fork(false, b.right, m, b.left);
        DoubleHeights(false, path, a, p, b.right, m, b.left, q0, c, Balances(ns), root, ns);
        DoubleRight(p, q, q.right, path, a, b.right, b.left, c, h, ns);
        r := DoubleRotated(false, a, p, b.right, m, b.left, q0, c);
        DoubleSame(false, a, p, b.right, m, b.left, q0, c);
      }
    }

    /** The end of an insertion: at the last uneven node, the height grows, nothing happens, or one or two rotations
        even it out. */
    method RestoreInsert(u: Node, ghost s: Path, ghost c: Tree, ghost ns: set<Node>)
      returns (ghost t: Tree, ghost r: Tree)
      requires RetracedTo(s, c, Balances(ns)) && s.node == u && u in ns
      requires var w := Plug(s.up, Fork(s.onLeft, c, u, s.other)); Linked(w, root, ns) && Cnt(w, Counts(ns))
      requires height + 1 == PathHeight(s.up, Taller(Height(c) - 1, Height(s.other)))
      modifies `root, `height, ns`left, ns`right, ns`parent, ns`count, ns`balance
      ensures Sound(t, ns)
      ensures InOrder(t) == InOrder(Plug(s.up, Fork(s.onLeft, c, u, s.other)))
      ensures Nodes(t) == Nodes(Plug(s.up, Fork(s.onLeft, c, u, s.other)))
      ensures t == Plug(s.up, r)
      ensures match old(u.balance)
        case 2 => c.Br? && TurnedUp(true, s.other, u, c, old(c.node.balance) == 1, r)
        case -2 => c.Br? && TurnedUp(false, s.other, u, c, old(c.node.balance) == -1, r)
        case _ => r == Fork(s.onLeft, c, u, s.other)
    {
      hide Linked, Cnt, Bal, PathBal, Plug, Height, KidsOf, Parents, Counts, Apart, Nodes, InOrder, TwoHigher;
      RetraceCases(s, c, Balances(ns));
      ghost var f := Fork(s.onLeft, c, u, s.other);
      ghost var h := Taller(Height(c) - 1, Height(s.other));
      SpareAbove(s, c, Balances(ns));
      r := f;
      if u.balance == 1 || u.balance == -1 {
        height := height + 1;
        WholeIs(f);
      } else if u.balance == 2 {
        r := HeavyRight(u, s.up, s.other, c, h, ns);
        HighIs(c, s.other, old(Balances(ns)));
      } else if u.balance == -2 {
        r := HeavyLeft(u, s.up, s.other, c, h, ns);
        HighIs(c, s.other, old(Balances(ns)));
      }
      t := Plug(s.up, r);
      PlugBal(s.up, r, Balances(ns));
      PlugHeight(s.up, r);
      PlugInOrder(s.up, r);
      PlugInOrder(s.up, f);
      PlugNodes(s.up, r);
      PlugNodes(s.up, f);
    }

    /** Links, counts, balances and height after hanging a new leaf into its place. */
    method Grow(node: Node, parent: Node, isLeft: bool, unbalanced: Node, ghost path: Path, ghost ns: set<Node>)
      returns (ghost t: Tree)
      requires Sound(Plug(path, Leaf), ns) && node !in ns
      requires path.In? && parent == path.node && isLeft == path.onLeft && LastUneven(path, unbalanced, Balances(ns))
      modifies `root, `height, node, ns`left, ns`right, ns`parent, ns`count, ns`balance
      ensures Sound(t, ns + {node})
      ensures InOrder(t) == Before(path) + [node] + After(path)
      ensures Nodes(t) == Nodes(Plug(path, Leaf)) + {node}
    {
      hide Linked, Cnt, Bal, PathBal, PathCnt, Plug, Height, KidsOf, Parents, Counts, Balances, Apart, Nodes, InOrder,
        Climbing, BalancesAbove, PathApart, PathNodes, PathUp, PathDown, NewLeaf, Retraced, LastUneven, RetracedTo,
        PathHeight, Counted;
      ghost var all := ns + {node};
      PlaceFree(path, node, root, ns);
      PathNodeIn(path);
      PlugHeight(path, Leaf);
      LinkLeaf(node, parent, isLeft, path, ns);
      LastUnevenSet(path, unbalanced, old(Balances(ns)), node, 0);
      ReadyToClimb(path, node, unbalanced, root, all);
      ghost var bal, cnt := Balances(all), Counts(all);
      RetraceUp(node, unbalanced, path, 0, all);
      CountsClimbed(path, node, cnt);
      BalancesClimbed(path, node, unbalanced, bal);
      ghost var s, c := PlaceOf(path, unbalanced), GrownAt(path, NewLeaf(node), unbalanced);
      ghost var turned;
      t, turned := RestoreInsert(unbalanced, s, c, all);
      PlugInOrder(path, NewLeaf(node));
      PlugNodes(path, NewLeaf(node));
      PlugNodes(path, Leaf);
    }

    /** `avltree_insert`: the node goes in at index `at` and null is returned; with a unique index, a node that holds
        its key already is returned and nothing changes. */
    method Insert(node: Node) returns (existing: Node?, ghost at: nat)
      requires Valid() && node !in Nodes(shape)
      modifies this, Nodes(shape), node
      ensures Valid()
      ensures existing != null ==>
        && unique && existing.key == node.key && exists i | 0 <= i < |Contents()| :: Contents()[i] == existing
      ensures existing != null ==> State() == old(State()) && unchanged(node)
      ensures existing == null ==>
        at <= |old(Contents())| && Contents() == old(Contents())[..at] + [node] + old(Contents())[at..]
      ensures existing == null && unique ==> forall i | 0 <= i < |old(Contents())| :: old(Contents())[i].key != node.key
    {
      hide Valid, State, Plug, Nodes, LastUneven, Sorted, Fits, Precedes, Before, After;
      ghost var path;
      var parent, isLeft, unbalanced;
      existing, parent, isLeft, unbalanced, path := FindPlace(node.key);
      at := |Before(path)|;
      if existing == null {
        InsertPlace(path, node);
        if parent == null {
          PlantRoot(node, path);
        } else {
          UnevenIn(path, unbalanced, Balances(Nodes(shape)));
          InsertAt(node, parent, isLeft, unbalanced, path);
        }
      }
    }

    /** What a place that fits a key means for the order. */
    lemma InsertPlace(path: Path, node: Node)
      requires Valid() && Plug(path, Leaf) == shape && Fits(path, node.key, unique, unique)
      ensures var s := Contents(); var at := |Before(path)|;
        && at <= |s| && s[..at] + [node] + s[at..] == Before(path) + [node] + After(path)
        && (unique ==> forall i | 0 <= i < |s| :: s[i].key != node.key)
      ensures Sorted(Before(path) + [node] + After(path), unique)
    {
      hide Linked, Cnt, Bal, Plug, Height, InOrder, Sorted, Fits, Precedes, Before, After;
      PlugInOrder(path, Leaf);
      LeafOrder(Leaf);
      assert Contents() == Before(path) + After(path);
      var at := |Before(path)|;
      assert Contents()[..at] == Before(path) && Contents()[at..] == After(path);
      InsertOrder(path, node, unique);
      NotHeld(path, node.key, unique);
    }

    /** A node goes into a tree that is not empty. */
    method InsertAt(node: Node, parent: Node, isLeft: bool, unbalanced: Node, ghost path: Path)
      requires Valid() && node !in Nodes(shape) && Plug(path, Leaf) == shape
      requires path.In? && parent == path.node && isLeft == path.onLeft
      requires LastUneven(path, unbalanced, Balances(Nodes(shape)))
      requires Sorted(Before(path) + [node] + After(path), unique)
      modifies this, Nodes(shape), node
      ensures Valid() && Contents() == Before(path) + [node] + After(path)
    {
      hide Linked, Cnt, Bal, Plug, Height, KidsOf, Parents, Counts, Balances, Apart, Nodes, InOrder, LastUneven, Sorted;
      LinkedApart(shape, root, Nodes(shape));
      EndsAt(path);
      EndsAfterInsert(path, node);
      if isLeft {
        if parent == first {
          first := node;
        }
      } else {
        if parent == last {
          last := node;
        }
      }
      shape := Grow(node, parent, isLeft, unbalanced, path, Nodes(shape));
    }

    /** The first node of an empty tree. */
    method PlantRoot(node: Node, ghost path: Path)
      requires Valid() && path.Whole? && Plug(path, Leaf) == shape
      modifies this, node
      ensures Valid() && Contents() == Before(path) + [node] + After(path)
    {
      InitNode(node, {});
      root := node;
      first, last := node, node;
      height := height + 1;
      shape := NewLeaf(node);
      OneNode(node);
    }

    // ----- removal

    /** The first part of a removal: the link to the node leads to the one that replaces it, and the counts above
        the node and of the replacement go down. */
    method Unhook(node: Node, next: Node?, ghost path: Path, ghost n: nat, ghost ns: set<Node>)
      returns (parent: Node?, isLeft: bool)
      requires node in ns && (next != null ==> next in ns && node.count >= 1)
      requires Climbing(path, node, ns, KidsOf(ns), Parents(ns)) && node.parent == Above(path, null)
      requires CountsAbove(path, null, n, ns, Parents(ns), Counts(ns))
      modifies `root, ns`left, ns`right, ns`count
      ensures parent == Above(path, null) && (path.In? ==> isLeft == path.onLeft)
      ensures KidsOf(ns) == Attach(path, next, old(KidsOf(ns))) && root == if path.Whole? then next else old(root)
      ensures Counts(ns) == Recounted(path, next, old(node.count), old(Counts(ns)))
      ensures next != null && next !in PathNodes(path) ==> next.right == old(next.right)
    {
      hide KidsOf, Parents, Counts, Counted, PathDown, PathUp, PathApart, PathCnt, PathNodes, CountsAbove;
      NothingAbove(path, Counts(ns));
      parent := node.parent;
      isLeft := false;
      if parent != null {
        WhichSide(path, node, ns);
        isLeft := parent.left == node;
      }
      PathNodeIn(path);
      ReplaceChild(parent, node, next, path, ns);
      if parent != null {
        CountAt(node, ns);
        CountedAt(path, false, Counts(ns), node);
        CountDown(parent, path, n, ns);
        CountAt(node, ns);
      }
      if next != null {
        next.SetCount(node.count - 1, ns);
      }
    }

    /** What a removal meets around a node with two subtrees. */
    lemma SuccessorSite(path: Path, l: Tree, n: Node, r: Tree, p: Path, x: Node, rest: Tree, ns: set<Node>)
      requires Linked(Plug(path, Br(l, n, r)), root, ns) && Successor(r, p, x, rest) && l.Br?
      requires Cnt(Plug(path, Br(l, n, r)), Counts(ns)) && Bal(Plug(path, Br(l, n, r)), Balances(ns))
      ensures x in ns && RootOf(l) in ns && RootOf(r) in ns && x != n && x != RootOf(l) && RootOf(l) != RootOf(r)
      ensures n != RootOf(l) && n != RootOf(r)
      ensures p.In? <==> RootOf(r) != x
      ensures x.right == RootOf(rest) && (p.In? ==> x.parent == p.node && p.node in ns && p.node != x)
      ensures p.In? ==> RootOf(r) == TopOf(p)
      ensures rest.Br? ==> rest.node in ns && rest.node != x && rest.node != RootOf(l) && rest.node != RootOf(r)
      ensures -1 <= n.balance <= 1
    {
      hide Linked, Cnt, Bal, Plug, PathDown, PathUp, PathApart, PathNodes, AllLeft, Apart, Nodes;
      var t := Br(l, n, r);
      Around(Plug(path, t), root, ns, path, t);
      LinkedParts(Plug(path, t), root, ns);
      TwoApart(path, l, n, r, p, x, rest);
      SubtreesIn(t);
      RootIn(l);
      RootIn(rest);
      RootIn(r);
      PathNodeIn(p);
      SuccessorLinks(l, n, r, p, x, rest, ns);
      PlugBal(path, t, Balances(ns));
      ForkBal(true, l, n, r, Balances(ns));
    }

    /** A hole whose subtree is one level lower than the balances above it say; all else is right. */
    ghost predicate Lowered(p: Path, hole: Tree, ns: set<Node>)
      reads `root, `height, ns
    {
      && Linked(Plug(p, hole), root, ns) && Cnt(Plug(p, hole), Counts(ns))
      && Bal(hole, Balances(ns)) && PathBal(p, Height(hole) + 1, Balances(ns))
      && height + 1 == PathHeight(p, Height(hole) + 1)
    }

    /** What the first part of a removal needs. */
    lemma UnhookSite(path: Path, l: Tree, n: Node, r: Tree, ns: set<Node>)
      requires Linked(Plug(path, Br(l, n, r)), root, ns) && Cnt(Plug(path, Br(l, n, r)), Counts(ns))
      ensures n in ns && Climbing(path, n, ns, KidsOf(ns), Parents(ns)) && n.parent == Above(path, null)
      ensures CountsAbove(path, null, Size(Br(l, n, r)), ns, Parents(ns), Counts(ns))
      ensures n.count == Size(l) + Size(r) && Counts(ns)[n] == n.count
      ensures n.left == RootOf(l) && n.right == RootOf(r) && Nodes(r) <= ns && Down(r, KidsOf(ns))
      ensures l.Br? || r.Br? ==> n.count >= 1
    {
      hide Linked, Cnt, Plug, PathUp, PathDown, PathApart, PathNodes, Apart, PathCnt, KidsOf, Parents, Size;
      var t := Br(l, n, r);
      Around(Plug(path, t), root, ns, path, t);
      Here(Plug(path, t), root, ns, path, t);
      PlugCnt(path, t, Counts(ns));
      BrCnt(l, n, r, Counts(ns));
      BrCnt(r, n, l, Counts(ns));
    }

    /** A node with at most one subtree, s, is taken out. */
    method SpliceOne(node: Node, next: Node?, ghost path: Path, ghost l: Tree, ghost r: Tree, ghost s: Tree,
                     ghost ns: set<Node>)
      returns (parent: Node?, isLeft: bool)
      requires Sound(Plug(path, Br(l, node, r)), ns) && OnlyChild(l, r, s) && next == RootOf(s)
      modifies `root, ns`left, ns`right, ns`parent, ns`count
      ensures parent == Above(path, null) && (path.In? ==> isLeft == path.onLeft)
      ensures Lowered(path, s, ns) && Nodes(Plug(path, s)) == Nodes(Plug(path, Br(l, node, r))) - {node}
    {
      hide Linked, Cnt, Bal, PathBal, PathCnt, Plug, Height, KidsOf, Parents, Counts, Balances, Apart, Nodes, Climbing,
        CountsAbove, PathApart, PathNodes, PathUp, PathDown, Counted, PathHeight, Down, Up, Attach, Size;
      ghost var t := Plug(path, Br(l, node, r));
      ghost var k, par, cnt, bal := KidsOf(ns), Parents(ns), Counts(ns), Balances(ns);
      LinkedParts(t, root, ns);
      UnhookSite(path, l, node, r, ns);
      OneLinks(path, l, node, r, s, k, par);
      OneCounts(path, l, node, r, s, cnt);
      OneBalances(path, l, node, r, s, bal);
      RootPlug(path, s, Br(l, node, r));
      NextIn(path, s, t, node);
      parent, isLeft := Unhook(node, next, path, Size(Br(l, node, r)), ns);
      if next != null {
        next.SetParent(parent, ns);
      }
      MakeLinked(Plug(path, s), root, ns);
    }

    /** A node with two subtrees is taken out; next is the first node of the right one. */
    method SpliceTwo(node: Node, next: Node, left: Node, right: Node, ghost path: Path, ghost l: Tree, ghost r: Tree,
                     ghost p: Path, ghost rest: Tree, ghost ns: set<Node>)
      returns (parent: Node, isLeft: bool)
      requires Sound(Plug(path, Br(l, node, r)), ns) && Successor(r, p, next, rest)
      requires left == RootOf(l) && right == RootOf(r)
      modifies `root, ns`left, ns`right, ns`parent, ns`count, ns`balance
      ensures parent == Above(p, next) && isLeft == p.In?
      ensures Lowered(Joined(p, In(path, false, next, l)), rest, ns)
      ensures Nodes(Spliced(path, l, p, next, rest)) == Nodes(Plug(path, Br(l, node, r))) - {node}
    {
      hide Linked, Cnt, Bal, PathBal, PathCnt, Plug, Height, KidsOf, Parents, Counts, Balances, Apart, Nodes, Climbing,
        CountsAbove, PathApart, PathNodes, PathUp, PathDown, Counted, PathHeight, Down, Up, Attach, Size, Joined,
        PlacedKids, TwoParents, TopOf, Successor, Spliced, RightParents;
      ghost var t := Plug(path, Br(l, node, r));
      ghost var k, par, cnt, bal := KidsOf(ns), Parents(ns), Counts(ns), Balances(ns);
      LinkedParts(t, root, ns);
      UnhookSite(path, l, node, r, ns);
      SuccessorSite(path, l, node, r, p, next, rest, ns);
      TwoApart(path, l, node, r, p, next, rest);
      TwoDown(path, l, node, r, p, next, rest, k);
      TwoUp(path, l, node, r, p, next, rest, par);
      TwoFields(path, l, node, r, p, next, rest, bal, cnt);
      if p.In? {
        CountsInside(path, l, node, r, p, next, rest, node.count, cnt, root, ns);
      }
      BalanceAt(node, ns);
      SuccessorLeft(r, p, next, rest);
      SplicedRoot(path, l, node, r, p, next, rest);
      var above, wasLeft := Unhook(node, next, path, Size(Br(l, node, r)), ns);
      parent, isLeft := TakePlace(node, next, left, right, above, path, l, r, p, rest, ns);
      MakeLinked(Spliced(path, l, p, next, rest), root, ns);
      JoinedIn(path, l, p, next, rest);
    }

    lemma UnhookParts(path: Path, l: Tree, n: Node, r: Tree, ns: set<Node>)
      requires Sound(Plug(path, Br(l, n, r)), ns)
      ensures n.left == RootOf(l) && n.right == RootOf(r) && Nodes(r) <= ns && Down(r, KidsOf(ns))
    {
      hide Linked, Cnt, Plug, Bal, Nodes;
      UnhookSite(path, l, n, r, ns);
    }

    /** Every removal up to the rebalancing: the place that got lower, and what hangs there. */
    method Splice(node: Node, ghost path: Path, ghost l: Tree, ghost r: Tree, ghost ns: set<Node>)
      returns (parent: Node?, isLeft: bool, ghost p: Path, ghost hole: Tree)
      requires Sound(Plug(path, Br(l, node, r)), ns)
      modifies `root, ns`left, ns`right, ns`parent, ns`count, ns`balance
      ensures Lowered(p, hole, ns) && parent == Above(p, null) && (p.In? ==> isLeft == p.onLeft)
      ensures InOrder(Plug(p, hole)) == Before(path) + InOrder(l) + InOrder(r) + After(path)
      ensures Nodes(Plug(p, hole)) == Nodes(Plug(path, Br(l, node, r))) - {node}
    {
      hide Sound, Lowered, Plug, Nodes, InOrder, Before, After, Joined, Down, AllLeft;
      UnhookParts(path, l, node, r, ns);
      var left, right := node.left, node.right;
      if left == null {
        p, hole := path, r;
        parent, isLeft := SpliceOne(node, right, path, l, r, r, ns);
        OneOrder(path, l, r, r);
      } else if right == null {
        p, hole := path, l;
        parent, isLeft := SpliceOne(node, left, path, l, r, l, ns);
        OneOrder(path, l, r, l);
      } else {
        var next;
        ghost var p2;
        next, p2, hole := GetFirst(right, r, ns);
        parent, isLeft := SpliceTwo(node, next, left, right, path, l, r, p2, hole, ns);
        p := Joined(p2, In(path, false, next, l));
        TwoOrder(path, l, node, r, p2, next, hole);
        JoinedIn(path, l, p2, next, hole);
        JoinedTop(p2, path, next, l);
      }
    }

    lemma LoweredNode(p: Path, hole: Tree, ns: set<Node>)
      requires p.In? && Lowered(p, hole, ns)
      ensures p.node in ns && Balances(ns)[p.node] == p.node.balance && p.node in Balances(ns)
      ensures Apart(Fork(p.onLeft, hole, p.node, p.other)) && PathNodesApart(p)
    {
      hide Linked, Cnt, Bal, PathBal, Plug, KidsOf, Parents, Counts, Apart, PathHeight, Fork;
      PlugIn(p, hole);
      var f := Fork(p.onLeft, hole, p.node, p.other);
      Around(Plug(p, hole), root, ns, p.up, f);
      ForkParts(p.onLeft, hole, p.node, p.other);
    }

    /** The higher side of a node, and the links to it. */
    lemma HeavySite(side: bool, path: Path, a: Tree, p: Node, x: Tree, ns: set<Node>)
      requires Linked(Plug(path, Fork(side, a, p, x)), root, ns) && Height(x) >= 2
      ensures x.Br? && (if side then p.right else p.left) == x.node && x.node in ns && x.node != p
      ensures x == Fork(side, if side then x.left else x.right, x.node, if side then x.right else x.left)
      ensures x.node in Balances(ns) && Balances(ns)[x.node] == x.node.balance
    {
      hide Linked, Plug, KidsOf, Parents, Apart, Nodes, Down, Up;
      TreeHeight(x);
      Here(Plug(path, Fork(side, a, p, x)), root, ns, path, Fork(side, a, p, x));
      Around(Plug(path, Fork(side, a, p, x)), root, ns, path, Fork(side, a, p, x));
      ForkParts(side, a, p, x);
    }

    /** One step of the rebalancing, when the left subtree got lower. */
    method LowerLeft(node: Node, ghost p: Path, ghost hole: Tree, ghost ns: set<Node>)
      returns (done: bool, ghost hole2: Tree)
      requires p.In? && p.node == node && p.onLeft && Lowered(p, hole, ns)
      modifies `root, ns`left, ns`right, ns`parent, ns`count, ns`balance
      ensures if done then Sound(Plug(p.up, hole2), ns) else Lowered(p.up, hole2, ns)
      ensures InOrder(hole2) == InOrder(Fork(true, hole, node, p.other))
      ensures Nodes(hole2) == Nodes(Fork(true, hole, node, p.other))
    {
      hide Linked, Cnt, Bal, PathBal, Plug, Height, KidsOf, Parents, Counts, Balances, Apart, Nodes, InOrder,
        PathHeight, TwoHigher, Unrotated, Rotated, Taller;
      ghost var x, h := p.other, Taller(Height(hole) + 1, Height(p.other));
      ghost var bal := Balances(ns);
      PlugIn(p, hole);
      LoweredNode(p, hole, ns);
      LowerCases(p, hole, bal);
      hole2 := Br(hole, node, x);
      assert hole2 == Fork(true, hole, node, x);
      var balance := node.IncBalance(ns);
      if balance == 0 {
        done := false;
        return;
      }
      if balance == 1 {
        done := true;
        PlugBal(p.up, hole2, Balances(ns));
        PlugHeight(p.up, hole2);
        return;
      }
      HeavySite(true, p.up, hole, node, x, ns);
      var right := node.right;
      if right.balance == 0 {
        done := true;
        EvenCase(true, p.up, hole, node, x, root, ns);
        RotateLeftWith(node, 1, right, -1, p.up, hole, x.left, x.right, h, ns);
        hole2 := Rotated(true, hole, node, x.left, x.node, x.right);
        PlugBal(p.up, hole2, Balances(ns));
        PlugHeight(p.up, hole2);
      } else {
        done := false;
        MakeTwoHigher(x, hole, Balances(ns));
        hole2 := HeavyRight(node, p.up, hole, x, h, ns);
      }
    }

    /** One step of the rebalancing, when the right subtree got lower. */
    method LowerRight(node: Node, ghost p: Path, ghost hole: Tree, ghost ns: set<Node>)
      returns (done: bool, ghost hole2: Tree)
      requires p.In? && p.node == node && !p.onLeft && Lowered(p, hole, ns)
      modifies `root, ns`left, ns`right, ns`parent, ns`count, ns`balance
      ensures if done then Sound(Plug(p.up, hole2), ns) else Lowered(p.up, hole2, ns)
      ensures InOrder(hole2) == InOrder(Fork(false, hole, node, p.other))
      ensures Nodes(hole2) == Nodes(Fork(false, hole, node, p.other))
    {
      hide Linked, Cnt, Bal, PathBal, Plug, Height, KidsOf, Parents, Counts, Balances, Apart, Nodes, InOrder,
        PathHeight, TwoHigher, Unrotated, Rotated, Taller;
      ghost var x, h := p.other, Taller(Height(hole) + 1, Height(p.other));
      ghost var bal := Balances(ns);
      PlugIn(p, hole);
      LoweredNode(p, hole, ns);
      LowerCases(p, hole, bal);
      hole2 := Br(x, node, hole);
      assert hole2 == Fork(false, hole, node, x);
      var balance := node.DecBalance(ns);
      if balance == 0 {
        done := false;
        return;
      }
      if balance == -1 {
        done := true;
        PlugBal(p.up, hole2, Balances(ns));
        PlugHeight(p.up, hole2);
        return;
      }
      HeavySite(false, p.up, hole, node, x, ns);
      var left := node.left;
      if left.balance == 0 {
        done := true;
        EvenCase(false, p.up, hole, node, x, root, ns);
        RotateRightWith(node, -1, left, 1, p.up, hole, x.right, x.left, h, ns);
        hole2 := Rotated(false, hole, node, x.right, x.node, x.left);
        PlugBal(p.up, hole2, Balances(ns));
        PlugHeight(p.up, hole2);
      } else {
        done := false;
        MakeTwoHigher(x, hole, Balances(ns));
        hole2 := HeavyLeft(node, p.up, hole, x, h, ns);
      }
    }

    /** One step of the rebalancing: the subtree at node gets right, and may itself be lower than it was. */
    method LowerOnce(node: Node, isLeft: bool, ghost p: Path, ghost hole: Tree, ghost ns: set<Node>)
      returns (done: bool, ghost hole2: Tree)
      requires p.In? && p.node == node && isLeft == p.onLeft && Lowered(p, hole, ns)
      modifies `root, ns`left, ns`right, ns`parent, ns`count, ns`balance
      ensures if done then Sound(Plug(p.up, hole2), ns) else Lowered(p.up, hole2, ns)
      ensures SameNodes(Plug(p.up, hole2), Plug(p, hole))
    {
      hide Lowered, Sound, Plug, Nodes, InOrder;
      if isLeft {
        done, hole2 := LowerLeft(node, p, hole, ns);
      } else {
        done, hole2 := LowerRight(node, p, hole, ns);
      }
      SameAround(p, hole, hole2);
    }

    /** The end of a removal: up from the place that got lower, until the height of a subtree is what it was. */
    method Rebalance(parent0: Node?, isLeft0: bool, ghost p0: Path, ghost hole0: Tree, ghost ns: set<Node>)
      returns (ghost t: Tree)
      requires Lowered(p0, hole0, ns) && parent0 == Above(p0, null) && (p0.In? ==> isLeft0 == p0.onLeft)
      modifies `root, `height, ns`left, ns`right, ns`parent, ns`count, ns`balance
      ensures Sound(t, ns) && SameNodes(t, Plug(p0, hole0))
    {
      hide *;
      var parent, isLeft := parent0, isLeft0;
      ghost var p, hole := p0, hole0;
      SameSelf(Plug(p, hole));
      while parent != null
        invariant parent == Above(p, null) && (p.In? ==> isLeft == p.onLeft) && Lowered(p, hole, ns)
        invariant SameNodes(Plug(p, hole), Plug(p0, hole0))
        decreases p
      {
        AboveIs(p);
        AboveIs(p.up);
        var node: Node := parent;
        var onLeft := isLeft;
        LoweredAbove(p, hole, ns);
        parent := node.parent;
        isLeft := parent != null && parent.left == node;
        var done;
        ghost var hole2;
        done, hole2 := LowerOnce(node, onLeft, p, hole, ns);
        SameTrans(Plug(p.up, hole2), Plug(p, hole), Plug(p0, hole0));
        p, hole := p.up, hole2;
        if done {
          t := Plug(p, hole);
          return;
        }
      }
      AboveIs(p);
      t := Plug(p, hole);
      LoweredRoot(p, hole, ns);
      height := height - 1;
      RootSound(p, hole, ns);
    }

    /** The parent of a node on the path, and the side it hangs on. */
    lemma LoweredAbove(p: Path, hole: Tree, ns: set<Node>)
      requires p.In? && Lowered(p, hole, ns)
      ensures p.node in ns && p.node.parent == Above(p.up, null)
      ensures p.up.In? ==> p.up.node in ns && (p.up.node.left == p.node <==> p.up.onLeft)
    {
      hide Linked, Cnt, Bal, PathBal, Plug, KidsOf, Parents, Counts, Apart, PathHeight;
      PlugIn(p, hole);
      var f := Fork(p.onLeft, hole, p.node, p.other);
      Around(Plug(p, hole), root, ns, p.up, f);
      Here(Plug(p, hole), root, ns, p.up, f);
      RootIn(f);
      if p.up.In? {
        WhichSide(p.up, p.node, ns);
      }
    }

    lemma LoweredRoot(p: Path, hole: Tree, ns: set<Node>)
      requires p.Whole? && Lowered(p, hole, ns)
      ensures Linked(hole, root, ns) && Cnt(hole, Counts(ns)) && Bal(hole, Balances(ns)) && height == Height(hole)
      ensures Plug(p, hole) == hole
    {
    }

    lemma RootSound(p: Path, hole: Tree, ns: set<Node>)
      requires Linked(hole, root, ns) && Cnt(hole, Counts(ns)) && Bal(hole, Balances(ns)) && height + 1 == Height(hole)
      ensures Sound(hole, ns)
    {
    }

    /** The nodes that left the tree do not matter to it. */
    lemma {:induction false} Narrow(t: Tree, above: Node?, ns: set<Node>, ms: set<Node>)
      requires Nodes(t) <= ms <= ns && Down(t, KidsOf(ns)) && Up(t, above, Parents(ns))
      requires Cnt(t, Counts(ns)) && Bal(t, Balances(ns))
      ensures Down(t, KidsOf(ms)) && Up(t, above, Parents(ms)) && Cnt(t, Counts(ms)) && Bal(t, Balances(ms))
    {
      if t.Br? {
        Narrow(t.left, t.node, ns, ms);
        Narrow(t.right, t.node, ns, ms);
      }
    }

    lemma SoundNarrow(t: Tree, ns: set<Node>)
      requires Sound(t, ns)
      ensures Sound(t, Nodes(t))
    {
      hide Down, Up, Cnt, Bal, Apart, KidsOf, Parents, Counts, Balances;
      Narrow(t, null, ns, Nodes(t));
    }

    /** If the node is the first or the last one, the cached end moves on. */
    method MoveEnds(node: Node, ghost at: nat, ghost ns: set<Node>)
      requires Valid() && ns == Nodes(shape) && at < |Contents()| && Contents()[at] == node && node in ns
      modifies `first, `last
      ensures Sound(shape, ns) && Sorted(Contents(), unique)
      ensures var t := Contents()[..at] + Contents()[at + 1..];
        first == FirstOf(t) && last == LastOf(t) && Sorted(t, unique)
    {
      hide Linked, Cnt, Bal, Nodes, Apart, InOrder, Sorted, AfterIndex, BeforeIndex, FirstOf, LastOf, Height;
      LinkedApart(shape, root, ns);
      InOrderUnrepeated(shape);
      RemoveOrder(Contents(), at, unique);
      if node == first {
        first := AvlSearch.Next(node, shape, root, ns);
      }
      if node == last {
        last := AvlSearch.Prev(node, shape, root, ns);
      }
    }

    /** `avltree_remove`: the node at index `at`, the given one, is taken out. */
    method Remove(node: Node) returns (ghost at: nat)
      requires Valid() && node in Contents()
      modifies this, Nodes(shape)
      ensures Valid() && at < |old(Contents())| && old(Contents())[at] == node
      ensures Contents() == old(Contents())[..at] + old(Contents())[at + 1..]
    {
      ContentIn(shape, node);
      ghost var path, cur := PathTo(shape, node, Whole), SubtreeAt(shape, node);
      PathToPlugs(shape, node, Whole);
      WholeIs(shape);
      at := |Before(path)| + |InOrder(cur.left)|;
      RemoveAt(node, path, cur.left, cur.right, at, Nodes(shape));
    }

    method RemoveAt(node: Node, ghost path: Path, ghost l: Tree, ghost r: Tree, ghost at: nat, ghost ns: set<Node>)
      requires Valid() && ns == Nodes(shape) && Plug(path, Br(l, node, r)) == shape
      requires at == |Before(path)| + |InOrder(l)|
      modifies this, ns
      ensures Valid() && at < |old(Contents())| && old(Contents())[at] == node
      ensures Contents() == old(Contents())[..at] + old(Contents())[at + 1..]
    {
      hide Sound, Linked, Cnt, Bal, Plug, Nodes, Apart, InOrder, Sorted, Before, After, FirstOf, LastOf, Height,
        Lowered;
      ghost var s := Contents();
      RemovePlace(path, l, node, r);
      MoveEnds(node, at, ns);
      var parent, isLeft;
      ghost var p, hole;
      parent, isLeft, p, hole := Splice(node, path, l, r, ns);
      assert InOrder(Plug(p, hole)) == s[..at] + s[at + 1..];
      shape := Rebalance(parent, isLeft, p, hole, ns);
      SoundNarrow(shape, ns);
    }

    lemma RemovePlace(path: Path, l: Tree, n: Node, r: Tree)
      requires Valid() && Plug(path, Br(l, n, r)) == shape
      ensures var s, at := Contents(), |Before(path)| + |InOrder(l)|;
        && at < |s| && s[at] == n && n in Nodes(shape)
        && s[..at] + s[at + 1..] == Before(path) + InOrder(l) + InOrder(r) + After(path)
    {
      hide Cnt, Bal, Plug, Nodes, Sorted, Height, InOrder, Before, After;
      IndexOf(shape, path, Br(l, n, r));
      InOrderNodes(shape);
      assert Contents()[|Before(path)| + |InOrder(l)|] in Nodes(shape);
    }
  }
}
