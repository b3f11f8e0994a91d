/** The red-black tree of tree.h: nodes with left, right and parent pointers and a colour, updated in place. */
module RbTree {
  import opened Sequences

  /** An element with its embedded RB_ENTRY. */
  class Node {
    const key: int
    var left: Node?
    var right: Node?
    var parent: Node?
    var red: bool

    constructor (key: int)
      ensures this.key == key
    {
      this.key := key;
      left, right, parent, red := null, null, null, false;
    }
  }

  /** The shape of a subtree: which nodes, where, in which colour. */
  datatype Tree = Leaf | Fork(l: Tree, n: Node, red: bool, r: Tree)

  /** The shape of everything around a subtree, from its parent up to the root. */
  datatype Context =
    | Top
    | InLeft(up: Context, n: Node, red: bool, r: Tree)
    | InRight(up: Context, l: Tree, n: Node, red: bool)

  // ---------- Shapes and their nodes ----------

  ghost function Nodes(t: Tree): set<Node> {
    match t
    case Leaf => {}
    case Fork(l, n, _, r) => Nodes(l) + {n} + Nodes(r)
  }

  ghost function Around(c: Context): set<Node> {
    match c
    case Top => {}
    case InLeft(up, n, _, r) => Around(up) + {n} + Nodes(r)
    case InRight(up, l, n, _) => Around(up) + {n} + Nodes(l)
  }

  ghost function Ptr(t: Tree): Node? { if t.Leaf? then null else t.n }

  ghost function Parent(c: Context): Node? { if c.Top? then null else c.n }

  ghost function Plug(c: Context, t: Tree): Tree
    decreases c
  {
    match c
    case Top => t
    case InLeft(up, n, red, r) => Plug(up, Fork(t, n, red, r))
    case InRight(up, l, n, red) => Plug(up, Fork(l, n, red, t))
  }

  /** The heap holds shape `t` under pointer `p`, with parent links consistent and no node twice. */
  ghost predicate Held(t: Tree, p: Node?, par: Node?)
    reads Nodes(t)
  {
    match t
    case Leaf => p == null
    case Fork(l, n, red, r) =>
      && p == n && n.parent == par && n.red == red
      && Held(l, n.left, n) && Held(r, n.right, n)
      && n !in Nodes(l) && n !in Nodes(r) && Nodes(l) !! Nodes(r)
  }

  /** The heap holds context `c` between the root pointer and the hole, in which `hole` is linked. */
  ghost predicate HeldAround(c: Context, root: Node?, hole: Node?)
    reads Around(c)
  {
    match c
    case Top => root == hole
    case InLeft(up, n, red, r) =>
      && n.left == hole && n.red == red && n.parent == Parent(up)
      && Held(r, n.right, n) && HeldAround(up, root, n)
      && n !in Around(up) && n !in Nodes(r) && Nodes(r) !! Around(up)
    case InRight(up, l, n, red) =>
      && n.right == hole && n.red == red && n.parent == Parent(up)
      && Held(l, n.left, n) && HeldAround(up, root, n)
      && n !in Around(up) && n !in Nodes(l) && Nodes(l) !! Around(up)
  }

  /** The whole tree, seen from a subtree. */
  ghost predicate Full(root: Node?, c: Context, t: Tree)
    reads Around(c), Nodes(t)
  {
    HeldAround(c, root, Ptr(t)) && Held(t, Ptr(t), Parent(c)) && Around(c) !! Nodes(t)
  }

  /** Moving the focus from a left child to its parent and back. */
  lemma UpLeft(root: Node?, up: Context, t: Tree, n: Node, red: bool, r: Tree)
    ensures Full(root, InLeft(up, n, red, r), t) <==> Full(root, up, Fork(t, n, red, r))
  {
    var c, f := InLeft(up, n, red, r), Fork(t, n, red, r);
    HeldPtr(t, n.left, n);
    assert Around(c) == Around(up) + {n} + Nodes(r) && Nodes(f) == Nodes(t) + {n} + Nodes(r);
    assert Ptr(f) == n && Parent(c) == n;
    assert Held(f, n, Parent(up)) <==>
        (&& n.parent == Parent(up) && n.red == red && Held(t, n.left, n) && Held(r, n.right, n)
         && n !in Nodes(t) && n !in Nodes(r) && Nodes(t) !! Nodes(r));
  }

  lemma HeldPtr(t: Tree, p: Node?, par: Node?)
    ensures Held(t, p, par) ==> p == Ptr(t)
  {}

  lemma UpRight(root: Node?, up: Context, l: Tree, n: Node, red: bool, t: Tree)
    ensures Full(root, InRight(up, l, n, red), t) <==> Full(root, up, Fork(l, n, red, t))
  {
    var c, f := InRight(up, l, n, red), Fork(l, n, red, t);
    HeldPtr(t, n.right, n);
    assert Around(c) == Around(up) + {n} + Nodes(l) && Nodes(f) == Nodes(l) + {n} + Nodes(t);
    assert Ptr(f) == n && Parent(c) == n;
    assert Held(f, n, Parent(up)) <==>
        (&& n.parent == Parent(up) && n.red == red && Held(l, n.left, n) && Held(t, n.right, n)
         && n !in Nodes(l) && n !in Nodes(t) && Nodes(l) !! Nodes(t));
  }

  /** The focus does not matter. */
  lemma {:induction false} Refocus(root: Node?, c: Context, t: Tree)
    ensures Full(root, c, t) <==> Full(root, Top, Plug(c, t))
    decreases c
  {
    hide Full;
    match c {
      case Top =>
      case InLeft(up, n, red, r) =>
        UpLeft(root, up, t, n, red, r);
        Refocus(root, up, Fork(t, n, red, r));
      case InRight(up, l, n, red) =>
        UpRight(root, up, l, n, red, t);
        Refocus(root, up, Fork(l, n, red, t));
    }
  }

  lemma {:induction false} PlugNodes(c: Context, t: Tree)
    ensures Nodes(Plug(c, t)) == Around(c) + Nodes(t)
    decreases c
  {
    match c {
      case Top =>
      case InLeft(up, n, red, r) => PlugNodes(up, Fork(t, n, red, r));
      case InRight(up, l, n, red) => PlugNodes(up, Fork(l, n, red, t));
    }
  }

  // ---------- In-order contents ----------

  ghost function Inorder(t: Tree): seq<Node> {
    match t
    case Leaf => []
    case Fork(l, n, _, r) => Inorder(l) + [n] + Inorder(r)
  }

  /** What comes before the hole, and after it. */
  ghost function Before(c: Context): seq<Node> {
    match c
    case Top => []
    case InLeft(up, _, _, _) => Before(up)
    case InRight(up, l, n, _) => Before(up) + Inorder(l) + [n]
  }

  ghost function After(c: Context): seq<Node> {
    match c
    case Top => []
    case InLeft(up, n, _, r) => [n] + Inorder(r) + After(up)
    case InRight(up, _, _, _) => After(up)
  }

  /** The in-order listing of the whole tree, seen from a subtree. */
  ghost function Listing(c: Context, t: Tree): seq<Node> { Before(c) + Inorder(t) + After(c) }

  lemma {:induction false} PlugInorder(c: Context, t: Tree)
    ensures Inorder(Plug(c, t)) == Listing(c, t)
    decreases c
  {
    match c {
      case Top =>
      case InLeft(up, n, red, r) =>
        PlugInorder(up, Fork(t, n, red, r));
        GroupLeft(Before(up), Inorder(t), n, Inorder(r), After(up));
      case InRight(up, l, n, red) =>
        PlugInorder(up, Fork(l, n, red, t));
        GroupRight(Before(up), Inorder(l), n, Inorder(t), After(up));
    }
  }

  lemma GroupLeft<T>(a: seq<T>, b: seq<T>, x: T, d: seq<T>, e: seq<T>)
    ensures a + (b + [x] + d) + e == a + b + ([x] + d + e)
  {}

  lemma GroupRight<T>(a: seq<T>, b: seq<T>, x: T, d: seq<T>, e: seq<T>)
    ensures a + (b + [x] + d) + e == (a + b + [x]) + d + e
  {}

  lemma ListingUpLeft(up: Context, t: Tree, n: Node, red: bool, r: Tree)
    ensures Listing(InLeft(up, n, red, r), t) == Listing(up, Fork(t, n, red, r))
  {
    PlugInorder(InLeft(up, n, red, r), t);
    PlugInorder(up, Fork(t, n, red, r));
  }

  lemma ListingUpRight(up: Context, l: Tree, n: Node, red: bool, t: Tree)
    ensures Listing(InRight(up, l, n, red), t) == Listing(up, Fork(l, n, red, t))
  {
    PlugInorder(InRight(up, l, n, red), t);
    PlugInorder(up, Fork(l, n, red, t));
  }

  ghost predicate Ascending(s: seq<Node>) {
    forall i, j :: 0 <= i < j < |s| ==> s[i].key < s[j].key
  }

  // ---------- Balance ----------

  predicate Red(t: Tree) { t.Fork? && t.red }

  /** No red node has a red child, and every path down from the root passes `h` black nodes. */
  ghost predicate Balanced(t: Tree, h: nat) {
    match t
    case Leaf => h == 0
    case Fork(l, n, red, r) =>
      if red then Balanced(l, h) && Balanced(r, h) && !Red(l) && !Red(r)
      else h > 0 && Balanced(l, h - 1) && Balanced(r, h - 1)
  }

  predicate RedAround(c: Context) { !c.Top? && c.red }

  /** A balanced black-rooted subtree of black height `h` in this context makes a balanced tree with a black root. */
  ghost predicate Fitting(c: Context, h: nat) {
    match c
    case Top => true
    case InLeft(up, n, red, r) =>
      if red then Balanced(r, h) && !Red(r) && !RedAround(up) && !up.Top? && Fitting(up, h)
      else Balanced(r, h) && Fitting(up, h + 1)
    case InRight(up, l, n, red) =>
      if red then Balanced(l, h) && !Red(l) && !RedAround(up) && !up.Top? && Fitting(up, h)
      else Balanced(l, h) && Fitting(up, h + 1)
  }

  ghost predicate RedBlack(t: Tree) { !Red(t) && exists h: nat :: Balanced(t, h) }

  lemma {:induction false} PlugBalanced(c: Context, t: Tree, h: nat)
    requires Fitting(c, h) && Balanced(t, h) && (c.Top? || RedAround(c) ==> !Red(t))
    ensures RedBlack(Plug(c, t))
    decreases c
  {
    match c {
      case Top =>
      case InLeft(up, n, red, r) => PlugBalanced(up, Fork(t, n, red, r), if red then h else h + 1);
      case InRight(up, l, n, red) => PlugBalanced(up, Fork(l, n, red, t), if red then h else h + 1);
    }
  }

  /** The converse: a subtree of a red-black tree is balanced and its context fits. */
  lemma {:induction false} Unplug(c: Context, t: Tree) returns (h: nat)
    requires RedBlack(Plug(c, t))
    ensures Fitting(c, h) && Balanced(t, h) && (c.Top? || RedAround(c) ==> !Red(t))
    decreases c
  {
    match c {
      case Top => h :| Balanced(t, h);
      case InLeft(up, n, red, r) =>
        h := Unplug(up, Fork(t, n, red, r));
        if !red { h := h - 1; }
      case InRight(up, l, n, red) =>
        h := Unplug(up, Fork(l, n, red, t));
        if !red { h := h - 1; }
    }
  }

  // ---------- Pointer updates ----------

  lemma {:induction false} NodesAllocated(t: Tree)
    ensures forall o :: o in Nodes(t) ==> allocated(o)
    decreases t
  {
    if t.Fork? {
      NodesAllocated(t.l);
      NodesAllocated(t.r);
    }
  }

  lemma {:induction false} AroundAllocated(c: Context)
    ensures forall o :: o in Around(c) ==> allocated(o)
    decreases c
  {
    match c {
      case Top =>
      case InLeft(up, _, _, r) => AroundAllocated(up); NodesAllocated(r);
      case InRight(up, l, _, _) => AroundAllocated(up); NodesAllocated(l);
    }
  }

  /** What it means that the heap holds a node with two subtrees. */
  lemma HeldFork(l: Tree, n: Node, red: bool, r: Tree, par: Node?)
    ensures Held(Fork(l, n, red, r), n, par) <==>
      (&& n.parent == par && n.red == red && Held(l, n.left, n) && Held(r, n.right, n)
       && n !in Nodes(l) && n !in Nodes(r) && Nodes(l) !! Nodes(r))
    ensures Nodes(Fork(l, n, red, r)) == Nodes(l) + {n} + Nodes(r)
    ensures Held(l, n.left, n) ==> n.left == Ptr(l) && (n.left != null ==> n.left in Nodes(l))
    ensures Held(r, n.right, n) ==> n.right == Ptr(r) && (n.right != null ==> n.right in Nodes(r))
  {
    HeldPtr(l, n.left, n);
    HeldPtr(r, n.right, n);
  }

  lemma PtrInside(t: Tree)
    ensures Ptr(t) != null ==> Ptr(t) in Nodes(t)
  {}

  lemma ParentAround(c: Context)
    ensures Parent(c) != null ==> Parent(c) in Around(c)
  {}

  /** The pieces of a rotated subtree, and how they must hang together. */
  ghost predicate Disjoint(c: Context, a: Tree, x: Node, b: Tree, y: Node, d: Tree) {
    && x != y && x !in Around(c) && y !in Around(c)
    && x !in Nodes(a) && x !in Nodes(b) && x !in Nodes(d) && y !in Nodes(a) && y !in Nodes(b) && y !in Nodes(d)
    && Nodes(a) !! Nodes(b) && Nodes(a) !! Nodes(d) && Nodes(b) !! Nodes(d)
    && Around(c) !! Nodes(a) && Around(c) !! Nodes(b) && Around(c) !! Nodes(d)
  }

  /** `x` under `y`, leaning left. */
  lemma LeanLeft(root: Node?, c: Context, a: Tree, x: Node, cx: bool, b: Tree, y: Node, cy: bool, d: Tree)
    ensures Full(root, c, Fork(Fork(a, x, cx, b), y, cy, d)) <==>
      (&& HeldAround(c, root, y) && Held(a, x.left, x) && Held(b, x.right, x) && Held(d, y.right, y)
       && y.left == x && x.parent == y && y.parent == Parent(c) && x.red == cx && y.red == cy
       && Disjoint(c, a, x, b, y, d))
  {
    hide Held, HeldAround;
    HeldFork(a, x, cx, b, y);
    HeldFork(Fork(a, x, cx, b), y, cy, d, Parent(c));
  }

  /** `y` under `x`, leaning right. */
  lemma LeanRight(root: Node?, c: Context, a: Tree, x: Node, cx: bool, b: Tree, y: Node, cy: bool, d: Tree)
    ensures Full(root, c, Fork(a, x, cx, Fork(b, y, cy, d))) <==>
      (&& HeldAround(c, root, x) && Held(a, x.left, x) && Held(b, y.left, y) && Held(d, y.right, y)
       && x.right == y && y.parent == x && x.parent == Parent(c) && x.red == cx && y.red == cy
       && Disjoint(c, a, x, b, y, d))
  {
    hide Held, HeldAround;
    HeldFork(b, y, cy, d, x);
    HeldFork(a, x, cx, Fork(b, y, cy, d), Parent(c));
  }

  /** RB_PARENT(p) = par, when there is a `p`. */
  method Adopt(p: Node?, par: Node?, ghost t: Tree, ghost was: Node?)
    requires Held(t, p, was)
    modifies if p == null then {} else {p}
    ensures Held(t, p, par)
    ensures p != null ==> p.left == old(p.left) && p.right == old(p.right) && p.red == old(p.red)
  {
    if p != null {
      p.parent := par;
    }
  }

  /** What the pointers near the focus are. */
  lemma Look(root: Node?, c: Context, t: Tree)
    requires Full(root, c, t)
    ensures t.Fork? ==> t.n.parent == Parent(c) && t.n.red == t.red && t.n.left == Ptr(t.l) && t.n.right == Ptr(t.r)
    ensures c.Top? ==> root == Ptr(t)
    ensures c.InLeft? ==> c.n.left == Ptr(t) && c.n.right == Ptr(c.r) && (t.Fork? ==> c.n.right != Ptr(t))
    ensures c.InRight? ==> c.n.right == Ptr(t) && c.n.left == Ptr(c.l) && (t.Fork? ==> c.n.left != Ptr(t))
    ensures !c.Top? ==> c.n.parent == Parent(c.up) && c.n.red == c.red && c.n in Around(c)
    ensures t.Fork? ==> t.n in Nodes(t)
  {
    if t.Fork? {
      HeldFork(t.l, t.n, t.red, t.r, Parent(c));
    }
    match c {
      case Top =>
      case InLeft(up, n, red, r) => HeldPtr(r, n.right, n); PtrInside(r);
      case InRight(up, l, n, red) => HeldPtr(l, n.left, n); PtrInside(l);
    }
  }

  /** RB_HEAD. */
  class Head {
    var root: Node?
    ghost var tree: Tree

    /** The pointers form the red-black search tree `tree`. */
    ghost predicate Valid()
      reads this, Nodes(tree)
    {
      Full(root, Top, tree) && RedBlack(tree) && Ascending(Inorder(tree))
    }

    constructor ()
      ensures Valid() && tree == Leaf
    {
      root, tree := null, Leaf;
      new;
      assert Balanced(Leaf, 0);
    }

    /** Put `new` where the parent, or the head, points to `elm`. */
    method Relink(elm: Node, new': Node?, par: Node?, ghost c: Context)
      requires HeldAround(c, root, elm) && par == Parent(c) && elm !in Around(c)
      modifies this, if par == null then {} else {par}
      ensures HeldAround(c, root, new')
      ensures par != null ==> par.parent == old(par.parent) && par.red == old(par.red)
    {
      if par != null {
        if par.left == elm {
          par.left := new';
        } else {
          par.right := new';
        }
      } else {
        root := new';
      }
    }

    /** The first half of RB_ROTATE_LEFT: the middle subtree changes sides. */
    method ShiftLeft(x: Node, y: Node, ghost c: Context, ghost a: Tree, ghost b: Tree, ghost d: Tree)
      requires Disjoint(c, a, x, b, y, d)
      requires HeldAround(c, root, x) && Held(a, x.left, x) && Held(b, y.left, y) && Held(d, y.right, y)
      modifies x, y, Nodes(b)
      ensures HeldAround(c, root, x) && Held(a, x.left, x) && Held(b, x.right, x) && Held(d, y.right, y)
      ensures y.parent == old(x.parent) == x.parent && x.red == old(x.red) && y.red == old(y.red)
    {
      hide Held, HeldAround, Around, Nodes;
      NodesAllocated(a); NodesAllocated(b); NodesAllocated(d); AroundAllocated(c);
      HeldPtr(b, y.left, y);
      PtrInside(b);
      x.right := y.left;
      Adopt(y.left, x, b, y);
      y.parent := x.parent;
    }

    method ShiftRight(y: Node, x: Node, ghost c: Context, ghost a: Tree, ghost b: Tree, ghost d: Tree)
      requires Disjoint(c, a, x, b, y, d)
      requires HeldAround(c, root, y) && Held(a, x.left, x) && Held(b, x.right, x) && Held(d, y.right, y)
      modifies x, y, Nodes(b)
      ensures HeldAround(c, root, y) && Held(a, x.left, x) && Held(b, y.left, y) && Held(d, y.right, y)
      ensures x.parent == old(y.parent) == y.parent && x.red == old(x.red) && y.red == old(y.red)
    {
      hide Held, HeldAround, Around, Nodes;
      NodesAllocated(a); NodesAllocated(b); NodesAllocated(d); AroundAllocated(c);
      HeldPtr(b, x.right, x);
      PtrInside(b);
      y.left := x.right;
      Adopt(x.right, y, b, x);
      x.parent := y.parent;
    }

    /** RB_ROTATE_LEFT at the focus. */
    method RotateLeft(x: Node, ghost c: Context, ghost a: Tree, ghost cx: bool, ghost b: Tree, ghost y: Node, ghost cy: bool, ghost d: Tree)
      requires Full(root, c, Fork(a, x, cx, Fork(b, y, cy, d)))
      modifies this, Around(c), Nodes(a), Nodes(b), Nodes(d), {x, y}
      ensures Full(root, c, Fork(Fork(a, x, cx, b), y, cy, d))
    {
      hide Held, HeldAround, Around, Nodes, Full;
      NodesAllocated(a); NodesAllocated(b); NodesAllocated(d); AroundAllocated(c);
      LeanRight(root, c, a, x, cx, b, y, cy, d);
      ParentAround(c);
      var tmp := x.right;
      ShiftLeft(x, tmp, c, a, b, d);
      Relink(x, tmp, tmp.parent, c);
      tmp.left := x;
      x.parent := tmp;
      LeanLeft(root, c, a, x, cx, b, y, cy, d);
    }

    /** RB_ROTATE_RIGHT at the focus. */
    method RotateRight(y: Node, ghost c: Context, ghost a: Tree, ghost x: Node, ghost cx: bool, ghost b: Tree, ghost cy: bool, ghost d: Tree)
      requires Full(root, c, Fork(Fork(a, x, cx, b), y, cy, d))
      modifies this, Around(c), Nodes(a), Nodes(b), Nodes(d), {x, y}
      ensures Full(root, c, Fork(a, x, cx, Fork(b, y, cy, d)))
    {
      hide Held, HeldAround, Around, Nodes, Full;
      NodesAllocated(a); NodesAllocated(b); NodesAllocated(d); AroundAllocated(c);
      LeanLeft(root, c, a, x, cx, b, y, cy, d);
      ParentAround(c);
      var tmp := y.left;
      ShiftRight(y, tmp, c, a, b, d);
      Relink(y, tmp, tmp.parent, c);
      tmp.right := y;
      y.parent := tmp;
      LeanRight(root, c, a, x, cx, b, y, cy, d);
    }

    /** RB_COLOR(n) = red, at the focus. */
    method Paint(n: Node, red: bool, ghost c: Context, ghost l: Tree, ghost was: bool, ghost r: Tree)
      requires Full(root, c, Fork(l, n, was, r))
      modifies n
      ensures Full(root, c, Fork(l, n, red, r))
    {
      hide Held, HeldAround;
      HeldFork(l, n, was, r, Parent(c));
      n.red := red;
      HeldFork(l, n, red, r, Parent(c));
    }

    /** Two red nodes in a row on the left of a black one with a black other child: recolour and rotate right. */
    method LiftLeft(parent: Node, gparent: Node, ghost up: Context, ghost x: Tree, ghost y: Tree, ghost u: Tree)
      requires Full(root, up, Fork(Fork(x, parent, true, y), gparent, false, u))
      modifies this, Around(up), Nodes(x), Nodes(y), Nodes(u), {parent, gparent}
      ensures Full(root, up, Fork(x, parent, false, Fork(y, gparent, true, u)))
    {
      hide Full;
      UpLeft(root, up, Fork(x, parent, true, y), gparent, false, u);
      Paint(parent, false, InLeft(up, gparent, false, u), x, true, y);
      UpLeft(root, up, Fork(x, parent, false, y), gparent, false, u);
      Paint(gparent, true, up, Fork(x, parent, false, y), false, u);
      RotateRight(gparent, up, x, parent, false, y, true, u);
    }

    method LiftRight(parent: Node, gparent: Node, ghost up: Context, ghost u: Tree, ghost y: Tree, ghost x: Tree)
      requires Full(root, up, Fork(u, gparent, false, Fork(y, parent, true, x)))
      modifies this, Around(up), Nodes(x), Nodes(y), Nodes(u), {parent, gparent}
      ensures Full(root, up, Fork(Fork(u, gparent, true, y), parent, false, x))
    {
      hide Full;
      UpRight(root, up, u, gparent, false, Fork(y, parent, true, x));
      Paint(parent, false, InRight(up, u, gparent, false), y, true, x);
      UpRight(root, up, u, gparent, false, Fork(y, parent, false, x));
      Paint(gparent, true, up, u, false, Fork(y, parent, false, x));
      RotateLeft(gparent, up, u, true, y, parent, false, x);
    }

    /** A black node with two red children: make the children black and the node red. */
    method Flip(x: Node, gparent: Node, y: Node, ghost up: Context, ghost a: Tree, ghost b: Tree, ghost d: Tree, ghost e: Tree)
      requires Full(root, up, Fork(Fork(a, x, true, b), gparent, false, Fork(d, y, true, e)))
      modifies {x, gparent, y}
      ensures Full(root, up, Fork(Fork(a, x, false, b), gparent, true, Fork(d, y, false, e)))
    {
      hide Full;
      UpRight(root, up, Fork(a, x, true, b), gparent, false, Fork(d, y, true, e));
      Paint(y, false, InRight(up, Fork(a, x, true, b), gparent, false), d, true, e);
      UpRight(root, up, Fork(a, x, true, b), gparent, false, Fork(d, y, false, e));
      UpLeft(root, up, Fork(a, x, true, b), gparent, false, Fork(d, y, false, e));
      Paint(x, false, InLeft(up, gparent, false, Fork(d, y, false, e)), a, true, b);
      UpLeft(root, up, Fork(a, x, false, b), gparent, false, Fork(d, y, false, e));
      Paint(gparent, true, up, Fork(a, x, false, b), false, Fork(d, y, false, e));
    }

    /** One round of RB_INSERT_COLOR when the red parent is a left child. */
    method InsertRoundLeft(elm: Node, parent: Node, gparent: Node, ghost c: Context, ghost t: Tree, ghost h: nat)
      returns (elm': Node, ghost c': Context, ghost t': Tree, ghost h': nat)
      requires Full(root, c, t) && Rising(c, t, elm, h)
      requires RedAround(c) && c.n == parent && c.up.InLeft? && c.up.n == gparent
      modifies this, Around(c), Nodes(t)
      ensures Full(root, c', t') && Rising(c', t', elm', h')
      ensures Same(c, t, c', t') && Depth(c') < Depth(c)
    {
      hide Full, Listing, Fitting, Balanced;
      RedParent(c, h);
      ghost var up, u, p := c.up.up, c.up.r, Join(c, t);
      Look(root, c, t);
      Open(root, c, t);
      UpLeft(root, up, p, gparent, false, u);
      UpRight(root, up, p, gparent, false, u);
      Look(root, InRight(up, p, gparent, false), u);
      var tmp := gparent.right;
      if tmp != null && tmp.red {
        Flip(parent, gparent, tmp, up, p.l, p.r, u.l, u.r);
        elm' := gparent;
        c', t', h' := up, Fork(Blacken(p), gparent, true, Blacken(u)), h + 1;
        FlippedLeft(c, t, elm, h);
        return;
      }
      var par := parent;
      elm' := elm;
      ghost var x, y := t, if c.InLeft? then c.r else Leaf;
      if parent.right == elm {
        RotateLeft(parent, c.up, c.l, true, t.l, elm, true, t.r);
        par, elm' := elm, parent;
        x, y := Fork(c.l, parent, true, t.l), t.r;
        UpLeft(root, up, Fork(x, par, true, y), gparent, false, u);
      }
      LiftLeft(par, gparent, up, x, y, u);
      c', t', h' := InLeft(up, par, false, Fork(y, gparent, true, u)), x, h;
      UpLeft(root, up, x, par, false, Fork(y, gparent, true, u));
      LiftedLeft(c, t, elm, h);
    }

    /** One round of RB_INSERT_COLOR when the red parent is a right child. */
    method InsertRoundRight(elm: Node, parent: Node, gparent: Node, ghost c: Context, ghost t: Tree, ghost h: nat)
      returns (elm': Node, ghost c': Context, ghost t': Tree, ghost h': nat)
      requires Full(root, c, t) && Rising(c, t, elm, h)
      requires RedAround(c) && c.n == parent && c.up.InRight? && c.up.n == gparent
      modifies this, Around(c), Nodes(t)
      ensures Full(root, c', t') && Rising(c', t', elm', h')
      ensures Same(c, t, c', t') && Depth(c') < Depth(c)
    {
      hide Full, Listing, Fitting, Balanced;
      RedParent(c, h);
      ghost var up, u, p := c.up.up, c.up.l, Join(c, t);
      Look(root, c, t);
      Open(root, c, t);
      UpRight(root, up, u, gparent, false, p);
      UpLeft(root, up, u, gparent, false, p);
      Look(root, InLeft(up, gparent, false, p), u);
      var tmp := gparent.left;
      if tmp != null && tmp.red {
        Flip(tmp, gparent, parent, up, u.l, u.r, p.l, p.r);
        elm' := gparent;
        c', t', h' := up, Fork(Blacken(u), gparent, true, Blacken(p)), h + 1;
        FlippedRight(c, t, elm, h);
        return;
      }
      var par := parent;
      elm' := elm;
      ghost var x, y := t, if c.InRight? then c.l else Leaf;
      if parent.left == elm {
        RotateRight(parent, c.up, t.l, elm, true, t.r, true, c.r);
        par, elm' := elm, parent;
        x, y := Fork(t.r, parent, true, c.r), t.l;
        UpRight(root, up, u, gparent, false, Fork(y, par, true, x));
      }
      LiftRight(par, gparent, up, u, y, x);
      c', t', h' := InRight(up, Fork(u, gparent, true, y), par, false), x, h;
      UpRight(root, up, Fork(u, gparent, true, y), par, false, x);
      LiftedRight(c, t, elm, h);
    }

    /** RB_INSERT_COLOR: a red node was put in; restore the balance on the way up, then blacken the root. */
    method InsertColor(elm0: Node, ghost c0: Context, ghost t0: Tree, ghost h0: nat) returns (ghost tree: Tree)
      requires Full(root, c0, t0) && Rising(c0, t0, elm0, h0)
      modifies this, Around(c0), Nodes(t0)
      ensures Full(root, Top, tree) && RedBlack(tree)
      ensures Inorder(tree) == Listing(c0, t0) && Nodes(tree) == Around(c0) + Nodes(t0)
    {
      hide Full, Listing, Balanced, Fitting, RedBlack;
      var elm := elm0;
      ghost var c, t, h := c0, t0, h0;
      Look(root, c, t);
      var parent := elm.parent;
      while parent != null && parent.red
        invariant Full(root, c, t) && Rising(c, t, elm, h) && Same(c0, t0, c, t)
        invariant parent == Parent(c) && (parent != null ==> parent.red == c.red)
        decreases Depth(c)
      {
        RedParent(c, h);
        Open(root, c, t);
        Look(root, c.up, Join(c, t));
        Look(root, c, t);
        var gparent := parent.parent;
        if parent == gparent.left {
          elm, c, t, h := InsertRoundLeft(elm, parent, gparent, c, t, h);
        } else {
          elm, c, t, h := InsertRoundRight(elm, parent, gparent, c, t, h);
        }
        Look(root, c, t);
        parent := elm.parent;
      }
      ghost var whole := Plug(c, t);
      Refocus(root, c, t);
      PlugNodes(c, t);
      PlugInorder(c, t);
      Risen(c, t, elm, h);
      Look(root, Top, whole);
      Paint(root, false, Top, whole.l, whole.red, whole.r);
      tree := Blacken(whole);
      Recoloured(whole.l, whole.l, whole.n, whole.red, false, whole.r, whole.r);
    }

    /** Hang the red leaf `elm` in the hole that a search has reached. */
    method Attach(elm: Node, parent: Node?, goLeft: bool, ghost c: Context)
      requires Full(root, c, Leaf) && parent == Parent(c) && elm !in Around(c) && (parent != null ==> goLeft == c.InLeft?)
      modifies this, elm, if parent == null then {} else {parent}
      ensures Full(root, c, Fork(Leaf, elm, true, Leaf))
    {
      elm.parent, elm.left, elm.right, elm.red := parent, null, null, true;
      if parent != null {
        if goLeft { parent.left := elm; } else { parent.right := elm; }
      } else {
        root := elm;
      }
      HeldFork(Leaf, elm, true, Leaf, parent);
    }

    /** RB_INSERT: a node with the same key is returned and nothing changes; otherwise `elm` takes its place in order. */
    method Insert(elm: Node) returns (found: Node?)
      requires Valid()
      modifies this, elm, Nodes(tree)
      ensures Valid()
      ensures found != null ==> tree == old(tree) && found in Nodes(tree) && found.key == elm.key
      ensures found == null ==> Inorder(tree) == InsertSorted(old(Inorder(tree)), elm)
      ensures found == null ==> elm !in old(Nodes(tree)) && Nodes(tree) == old(Nodes(tree)) + {elm}
      ensures found == null ==> forall n :: n in old(Nodes(tree)) ==> n.key != elm.key
    {
      hide Full, Listing, Inorder;
      var tmp, parent, comp := root, null, 0;
      ghost var c, t, was := Top, tree, tree;
      BetweenTop(elm.key);
      Look(root, c, t);
      while tmp != null
        invariant Full(root, c, t) && Plug(c, t) == tree && tmp == Ptr(t) && parent == Parent(c)
        invariant parent != null ==> (comp < 0) == c.InLeft?
        invariant tree == was && Ascending(Inorder(was)) && RedBlack(was)
        invariant Between(c, elm.key)
        decreases t
      {
        parent := tmp;
        comp := elm.key - parent.key;
        ghost var down := t;
        SearchStep(c, t, elm.key, tree);
        if comp < 0 {
          tmp := tmp.left;
          c, t := InLeft(c, t.n, t.red, t.r), t.l;
        } else if comp > 0 {
          tmp := tmp.right;
          c, t := InRight(c, t.l, t.n, t.red), t.r;
        } else {
          PlugNodes(c, t);
          Look(root, c, t);
          Refocus(root, c, t);
          return tmp;
        }
        Open(root, c, t);
        Look(root, c, t);
      }
      assert t == Leaf;
      HoleMisses(c, elm.key, tree);
      PlugNodes(c, Leaf);
      PlugInorder(c, Leaf);
      ghost var h := Unplug(c, Leaf);
      LeafFits(c, elm, h);
      HolePlace(c, elm, Inorder(tree));
      AroundAllocated(c);
      ParentAround(c);
      Attach(elm, parent, comp < 0, c);
      ghost var tree' := InsertColor(elm, c, Fork(Leaf, elm, true, Leaf), 0);
      InsertSortedAscends(Inorder(was), elm);
      HeadIsNoNode(this, tree');
      assert Around(Top) == {};
      tree := tree';
      assert Full(root, Top, tree');
      found := null;
    }

    /** A run of insertions and removals, none of which breaks the tree. */
    method Perform(ops: seq<Op>)
      requires Valid() && Possible(Inorder(tree), ops)
      modifies this, Nodes(tree), set op | op in ops :: op.n
      ensures Valid() && Inorder(tree) == AfterAll(old(Inorder(tree)), ops)
    {
      hide Full, Inorder, RedBlack, InsertSorted, Without, Ascending;
      ghost var start := Nodes(tree);
      NodesAllocated(tree);
      var i := 0;
      while i < |ops|
        invariant i <= |ops| && Valid() && Inorder(tree) == AfterAll(old(Inorder(tree)), ops[..i])
        invariant forall n :: n in Nodes(tree) ==> n in start || exists op :: op in ops && op.n == n
      {
        ghost var was := Inorder(tree);
        ghost var prev := Nodes(tree);
        AfterSnoc(old(Inorder(tree)), ops, i);
        var op := ops[i];
        NodesAllocated(tree);
        if op.Put? {
          ghost var before := tree;
          var found := Insert(op.n);
          if found == null { NoKey(before, op.n.key); } else { KeyListed(before, found); }
        } else {
          InOrderListed(tree, op.n);
          var removed := Remove(op.n);
        }
        i := i + 1;
      }
      assert ops[..i] == ops;
    }

    /** RB_FIND. */
    method Lookup(key: int) returns (found: Node?)
      requires Valid()
      ensures found != null <==> exists n :: n in Nodes(tree) && n.key == key
      ensures found != null ==> found in Nodes(tree) && found.key == key
    {
      hide Full, Listing, Inorder;
      var tmp := root;
      ghost var c, t := Top, tree;
      BetweenTop(key);
      Look(root, c, t);
      while tmp != null
        invariant Full(root, c, t) && Plug(c, t) == tree && tmp == Ptr(t)
        invariant Between(c, key)
        decreases t
      {
        var comp := key - tmp.key;
        SearchStep(c, t, key, tree);
        if comp < 0 {
          tmp := tmp.left;
          c, t := InLeft(c, t.n, t.red, t.r), t.l;
        } else if comp > 0 {
          tmp := tmp.right;
          c, t := InRight(c, t.l, t.n, t.red), t.r;
        } else {
          PlugNodes(c, t);
          Look(root, c, t);
          return tmp;
        }
        Open(root, c, t);
        Look(root, c, t);
      }
      assert t == Leaf;
      HoleMisses(c, key, tree);
      found := null;
    }

    /** RB_MINMAX. */
    method MinMax(val: int) returns (parent: Node?)
      requires Valid()
      ensures parent == null <==> Inorder(tree) == []
      ensures parent != null && val < 0 ==> parent == Inorder(tree)[0]
      ensures parent != null && val >= 0 ==> parent == Inorder(tree)[|Inorder(tree)| - 1]
    {
      hide Full, Listing;
      var tmp := root;
      parent := null;
      ghost var c, t := Top, tree;
      Look(root, c, t);
      while tmp != null
        invariant Full(root, c, t) && Plug(c, t) == tree && tmp == Ptr(t) && parent == Parent(c)
        invariant if val < 0 then Before(c) == [] && !c.InRight? else After(c) == [] && !c.InLeft?
        decreases t
      {
        parent := tmp;
        if val < 0 {
          tmp := tmp.left;
          c, t := InLeft(c, t.n, t.red, t.r), t.l;
        } else {
          tmp := tmp.right;
          c, t := InRight(c, t.l, t.n, t.red), t.r;
        }
        Open(root, c, t);
        Look(root, c, t);
      }
      Extremes(c, t, tree);
    }

    /** RB_NEXT: the in-order successor. */
    method Next(elm0: Node) returns (elm: Node?)
      requires Valid() && elm0 in Nodes(tree)
      ensures Follows(Inorder(tree), elm0, elm)
    {
      hide Full, Listing;
      ghost var c, t := Locate(Top, tree, elm0);
      Refocus(root, c, t);
      Look(root, c, t);
      ghost var s := Inorder(tree);
      PlugInorder(c, t);
      ghost var at := |Before(c)| + |Inorder(t.l)|;
      ListingFork(c, t);
      assert s[at] == elm0;
      elm := elm0;
      if elm.right != null {
        elm := elm.right;
        c, t := InRight(c, t.l, t.n, t.red), t.r;
        Open(root, c, t);
        Look(root, c, t);
        while elm.left != null
          invariant Full(root, c, t) && Plug(c, t) == tree && t.Fork? && t.n == elm && |Before(c)| == at + 1
          decreases t
        {
          Look(root, c, t);
          elm := elm.left;
          c, t := InLeft(c, t.n, t.red, t.r), t.l;
          Open(root, c, t);
          Look(root, c, t);
        }
        Look(root, c, t);
        PlugInorder(c, t);
        ListingFork(c, t);
        FollowsHere(s, elm0, elm, at);
        return;
      }
      assert |After(c)| == |s| - at - 1 && After(c) == s[at + 1..];
      if elm.parent != null && elm == elm.parent.left {
        elm := elm.parent;
        FollowsHere(s, elm0, elm, at);
        return;
      }
      while elm.parent != null && elm == elm.parent.right
        invariant elm != null && Full(root, c, t) && t.Fork? && t.n == elm && After(c) == s[at + 1..]
        decreases Depth(c)
      {
        Look(root, c, t);
        elm := elm.parent;
        Open(root, c, t);
        c, t := c.up, Join(c, t);
      }
      Look(root, c, t);
      elm := elm.parent;
      assert !c.InRight?;
      if c.InLeft? { assert After(c)[0] == elm; } else { assert After(c) == [] && elm == null; }
      FollowsHere(s, elm0, elm, at);
    }

    /** RB_FOREACH: every node once, keys strictly ascending. */
    method Foreach() returns (keys: seq<int>)
      requires Valid()
      ensures |keys| == |Inorder(tree)|
      ensures forall i :: 0 <= i < |keys| ==> keys[i] == Inorder(tree)[i].key
      ensures forall i, j :: 0 <= i < j < |keys| ==> keys[i] < keys[j]
    {
      hide Full;
      keys := [];
      NodesAllocated(tree);
      var x := MinMax(-1);
      while x != null
        invariant Valid()
        invariant |keys| <= |Inorder(tree)|
        invariant x == if |keys| < |Inorder(tree)| then Inorder(tree)[|keys|] else null
        invariant forall i :: 0 <= i < |keys| ==> keys[i] == Inorder(tree)[i].key
        decreases |Inorder(tree)| - |keys|
      {
        InOrderListed(tree, x);
        ghost var at := |keys|;
        keys := keys + [x.key];
        ghost var was := x;
        NodesAllocated(tree);
        x := Next(x);
        FollowsAt(Inorder(tree), was, x, at);
      }
    }

    // ---------- RB_REMOVE_COLOR ----------

    /** A red sibling on the right: exchange colours with the parent and rotate left. */
    method SiblingUpLeft(parent: Node, tmp: Node, ghost up: Context, ghost t: Tree, ghost sl: Tree, ghost sr: Tree)
      requires Full(root, up, Fork(t, parent, false, Fork(sl, tmp, true, sr)))
      modifies this, Around(up), Nodes(t), Nodes(sl), Nodes(sr), {parent, tmp}
      ensures Full(root, up, Fork(Fork(t, parent, true, sl), tmp, false, sr))
    {
      hide Full;
      UpRight(root, up, t, parent, false, Fork(sl, tmp, true, sr));
      Paint(tmp, false, InRight(up, t, parent, false), sl, true, sr);
      UpRight(root, up, t, parent, false, Fork(sl, tmp, false, sr));
      Paint(parent, true, up, t, false, Fork(sl, tmp, false, sr));
      RotateLeft(parent, up, t, true, sl, tmp, false, sr);
    }

    /** The sibling's near child is red: make it the sibling. */
    method NearChildLeft(tmp: Node, near: Node, ghost c: Context, ghost nl: Tree, ghost nr: Tree, ghost sr: Tree)
      requires Full(root, c, Fork(Fork(nl, near, true, nr), tmp, false, sr))
      modifies this, Around(c), Nodes(nl), Nodes(nr), Nodes(sr), {near, tmp}
      ensures Full(root, c, Fork(nl, near, false, Fork(nr, tmp, true, sr)))
    {
      hide Full;
      UpLeft(root, c, Fork(nl, near, true, nr), tmp, false, sr);
      Paint(near, false, InLeft(c, tmp, false, sr), nl, true, nr);
      UpLeft(root, c, Fork(nl, near, false, nr), tmp, false, sr);
      Paint(tmp, true, c, Fork(nl, near, false, nr), false, sr);
      RotateRight(tmp, c, nl, near, false, nr, true, sr);
    }

    /** The sibling's far child is red: the last recolouring and rotation. */
    method FarChildLeft(parent: Node, tmp: Node, far: Node, ghost up: Context, ghost t: Tree, ghost red: bool, ghost sl: Tree, ghost fl: Tree, ghost fr: Tree)
      requires Full(root, up, Fork(t, parent, red, Fork(sl, tmp, false, Fork(fl, far, true, fr))))
      modifies this, Around(up), Nodes(t), Nodes(sl), Nodes(fl), Nodes(fr), {parent, tmp, far}
      ensures Full(root, up, Fork(Fork(t, parent, false, sl), tmp, red, Fork(fl, far, false, fr)))
    {
      hide Full;
      ghost var f, f' := Fork(fl, far, true, fr), Fork(fl, far, false, fr);
      UpRight(root, up, t, parent, red, Fork(sl, tmp, false, f));
      Look(root, up, Fork(t, parent, red, Fork(sl, tmp, false, f)));
      Paint(tmp, parent.red, InRight(up, t, parent, red), sl, false, f);
      UpRight(root, up, t, parent, red, Fork(sl, tmp, red, f));
      Paint(parent, false, up, t, red, Fork(sl, tmp, red, f));
      UpRight(root, up, t, parent, false, Fork(sl, tmp, red, f));
      UpRight(root, InRight(up, t, parent, false), sl, tmp, red, f);
      Paint(far, false, InRight(InRight(up, t, parent, false), sl, tmp, red), fl, true, fr);
      UpRight(root, InRight(up, t, parent, false), sl, tmp, red, f');
      UpRight(root, up, t, parent, false, Fork(sl, tmp, red, f'));
      RotateLeft(parent, up, t, false, sl, tmp, red, f');
    }

    /** A round with a black sibling on the right. */
    method RemoveBlackLeft(parent: Node, tmp0: Node, ghost c: Context, ghost t: Tree, ghost h: nat)
      returns (done: bool, elm': Node?, parent': Node?, ghost c': Context, ghost t': Tree, ghost h': nat)
      requires Full(root, c, t) && c.InLeft? && c.n == parent && Fitting(c, h + 1) && Balanced(t, h) && !Red(t)
      requires c.r.Fork? && c.r.n == tmp0 && !c.r.red
      modifies this, Around(c), Nodes(t)
      ensures Full(root, c', t') && Same(c, t, c', t')
      ensures done ==> Settled(c', t', h') && t'.Fork?
      ensures !done ==> Sinking(c', t', h') && c' == c.up && (Red(t') <==> c.red) && elm' == Ptr(t') && parent' == Parent(c')
    {
      hide Full, Listing, Fitting, Balanced;
      var tmp := tmp0;
      ghost var up, red, sl, sr := c.up, c.red, c.r.l, c.r.r;
      Open(root, c, t);
      UpRight(root, up, t, parent, red, c.r);
      ghost var side := InRight(up, t, parent, red);
      Look(root, side, c.r);
      LookChildren(root, side, c.r);
      if (tmp.left == null || !tmp.left.red) && (tmp.right == null || !tmp.right.red) {
        Paint(tmp, true, side, sl, false, sr);
        UpRight(root, up, t, parent, red, Fork(sl, tmp, true, sr));
        done, elm' := false, parent;
        c', t', h' := up, Fork(t, parent, red, Fork(sl, tmp, true, sr)), if red then h else h + 1;
        PushedUpLeft(c, t, h);
        Look(root, c', t');
        parent' := elm'.parent;
        return;
      }
      if tmp.right == null || !tmp.right.red {
        NearChildLeft(tmp, tmp.left, side, sl.l, sl.r, sr);
        sl, sr := sl.l, Fork(sl.r, tmp, true, sr);
        UpRight(root, up, t, parent, red, Fork(sl, c.r.l.n, false, sr));
        Look(root, up, Fork(t, parent, red, Fork(sl, c.r.l.n, false, sr)));
        tmp := parent.right;
        Look(root, side, Fork(sl, tmp, false, sr));
      }
      FarChildLeft(parent, tmp, tmp.right, up, t, red, sl, sr.l, sr.r);
      done, elm', parent' := true, null, null;
      c', t', h' := up, Fork(Fork(t, parent, false, sl), tmp, red, Blacken(sr)), if red then h + 1 else h + 2;
      SettledLeft(c, t, h);
    }

    /** One round of RB_REMOVE_COLOR when the short side is the left one. */
    method RemoveRoundLeft(parent: Node, ghost c: Context, ghost t: Tree, ghost h: nat)
      returns (done: bool, elm': Node?, parent': Node?, ghost c': Context, ghost t': Tree, ghost h': nat)
      requires Full(root, c, t) && c.InLeft? && c.n == parent && Fitting(c, h + 1) && Balanced(t, h) && !Red(t)
      modifies this, Around(c), Nodes(t)
      ensures Full(root, c', t') && Same(c, t, c', t')
      ensures done ==> Settled(c', t', h') && t'.Fork?
      ensures !done ==> Sinking(c', t', h') && elm' == Ptr(t') && parent' == Parent(c') && Short(c', t') < Short(c, t)
    {
      hide Full, Listing, Fitting, Balanced;
      SiblingThere(c, h);
      ghost var up, red, s, cc := c.up, c.red, c.r, c;
      Look(root, c, t);
      Open(root, c, t);
      UpRight(root, up, t, parent, red, s);
      Look(root, InRight(up, t, parent, red), s);
      var tmp := parent.right;
      if tmp.red {
        SiblingRedLeft(c, t, h);
        SiblingUpLeft(parent, tmp, up, t, s.l, s.r);
        cc := InLeft(InLeft(up, tmp, false, s.r), parent, true, s.l);
        UpLeft(root, up, Fork(t, parent, true, s.l), tmp, false, s.r);
        UpLeft(root, InLeft(up, tmp, false, s.r), t, parent, true, s.l);
        Look(root, cc, t);
        tmp := parent.right;
      }
      SiblingThere(cc, h);
      done, elm', parent', c', t', h' := RemoveBlackLeft(parent, tmp, cc, t, h);
    }

    /** A red sibling on the left: exchange colours with the parent and rotate right. */
    method SiblingUpRight(parent: Node, tmp: Node, ghost up: Context, ghost t: Tree, ghost sl: Tree, ghost sr: Tree)
      requires Full(root, up, Fork(Fork(sl, tmp, true, sr), parent, false, t))
      modifies this, Around(up), Nodes(t), Nodes(sl), Nodes(sr), {parent, tmp}
      ensures Full(root, up, Fork(sl, tmp, false, Fork(sr, parent, true, t)))
    {
      hide Full;
      UpLeft(root, up, Fork(sl, tmp, true, sr), parent, false, t);
      Paint(tmp, false, InLeft(up, parent, false, t), sl, true, sr);
      UpLeft(root, up, Fork(sl, tmp, false, sr), parent, false, t);
      Paint(parent, true, up, Fork(sl, tmp, false, sr), false, t);
      RotateRight(parent, up, sl, tmp, false, sr, true, t);
    }

    method NearChildRight(tmp: Node, near: Node, ghost c: Context, ghost sl: Tree, ghost nl: Tree, ghost nr: Tree)
      requires Full(root, c, Fork(sl, tmp, false, Fork(nl, near, true, nr)))
      modifies this, Around(c), Nodes(nl), Nodes(nr), Nodes(sl), {near, tmp}
      ensures Full(root, c, Fork(Fork(sl, tmp, true, nl), near, false, nr))
    {
      hide Full;
      UpRight(root, c, sl, tmp, false, Fork(nl, near, true, nr));
      Paint(near, false, InRight(c, sl, tmp, false), nl, true, nr);
      UpRight(root, c, sl, tmp, false, Fork(nl, near, false, nr));
      Paint(tmp, true, c, sl, false, Fork(nl, near, false, nr));
      RotateLeft(tmp, c, sl, true, nl, near, false, nr);
    }

    method FarChildRight(parent: Node, tmp: Node, far: Node, ghost up: Context, ghost t: Tree, ghost red: bool, ghost sr: Tree, ghost fl: Tree, ghost fr: Tree)
      requires Full(root, up, Fork(Fork(Fork(fl, far, true, fr), tmp, false, sr), parent, red, t))
      modifies this, Around(up), Nodes(t), Nodes(sr), Nodes(fl), Nodes(fr), {parent, tmp, far}
      ensures Full(root, up, Fork(Fork(fl, far, false, fr), tmp, red, Fork(sr, parent, false, t)))
    {
      hide Full;
      ghost var f, f' := Fork(fl, far, true, fr), Fork(fl, far, false, fr);
      UpLeft(root, up, Fork(f, tmp, false, sr), parent, red, t);
      Look(root, up, Fork(Fork(f, tmp, false, sr), parent, red, t));
      Paint(tmp, parent.red, InLeft(up, parent, red, t), f, false, sr);
      UpLeft(root, up, Fork(f, tmp, red, sr), parent, red, t);
      Paint(parent, false, up, Fork(f, tmp, red, sr), red, t);
      UpLeft(root, up, Fork(f, tmp, red, sr), parent, false, t);
      UpLeft(root, InLeft(up, parent, false, t), f, tmp, red, sr);
      Paint(far, false, InLeft(InLeft(up, parent, false, t), tmp, red, sr), fl, true, fr);
      UpLeft(root, InLeft(up, parent, false, t), f', tmp, red, sr);
      UpLeft(root, up, Fork(f', tmp, red, sr), parent, false, t);
      RotateRight(parent, up, f', tmp, red, sr, false, t);
    }

    /** A round with a black sibling on the left. */
    method RemoveBlackRight(parent: Node, tmp0: Node, ghost c: Context, ghost t: Tree, ghost h: nat)
      returns (done: bool, elm': Node?, parent': Node?, ghost c': Context, ghost t': Tree, ghost h': nat)
      requires Full(root, c, t) && c.InRight? && c.n == parent && Fitting(c, h + 1) && Balanced(t, h) && !Red(t)
      requires c.l.Fork? && c.l.n == tmp0 && !c.l.red
      modifies this, Around(c), Nodes(t)
      ensures Full(root, c', t') && Same(c, t, c', t')
      ensures done ==> Settled(c', t', h') && t'.Fork?
      ensures !done ==> Sinking(c', t', h') && c' == c.up && (Red(t') <==> c.red) && elm' == Ptr(t') && parent' == Parent(c')
    {
      hide Full, Listing, Fitting, Balanced;
      var tmp := tmp0;
      ghost var up, red, sl, sr := c.up, c.red, c.l.l, c.l.r;
      Open(root, c, t);
      UpLeft(root, up, c.l, parent, red, t);
      ghost var side := InLeft(up, parent, red, t);
      Look(root, side, c.l);
      LookChildren(root, side, c.l);
      if (tmp.left == null || !tmp.left.red) && (tmp.right == null || !tmp.right.red) {
        Paint(tmp, true, side, sl, false, sr);
        UpLeft(root, up, Fork(sl, tmp, true, sr), parent, red, t);
        done, elm' := false, parent;
        c', t', h' := up, Fork(Fork(sl, tmp, true, sr), parent, red, t), if red then h else h + 1;
        PushedUpRight(c, t, h);
        Look(root, c', t');
        parent' := elm'.parent;
        return;
      }
      if tmp.left == null || !tmp.left.red {
        NearChildRight(tmp, tmp.right, side, sl, sr.l, sr.r);
        sl, sr := Fork(sl, tmp, true, sr.l), sr.r;
        UpLeft(root, up, Fork(sl, c.l.r.n, false, sr), parent, red, t);
        Look(root, up, Fork(Fork(sl, c.l.r.n, false, sr), parent, red, t));
        tmp := parent.left;
        Look(root, side, Fork(sl, tmp, false, sr));
      }
      FarChildRight(parent, tmp, tmp.left, up, t, red, sr, sl.l, sl.r);
      done, elm', parent' := true, null, null;
      c', t', h' := up, Fork(Blacken(sl), tmp, red, Fork(sr, parent, false, t)), if red then h + 1 else h + 2;
      SettledRight(c, t, h);
    }

    /** One round of RB_REMOVE_COLOR when the short side is the right one. */
    method RemoveRoundRight(parent: Node, ghost c: Context, ghost t: Tree, ghost h: nat)
      returns (done: bool, elm': Node?, parent': Node?, ghost c': Context, ghost t': Tree, ghost h': nat)
      requires Full(root, c, t) && c.InRight? && c.n == parent && Fitting(c, h + 1) && Balanced(t, h) && !Red(t)
      modifies this, Around(c), Nodes(t)
      ensures Full(root, c', t') && Same(c, t, c', t')
      ensures done ==> Settled(c', t', h') && t'.Fork?
      ensures !done ==> Sinking(c', t', h') && elm' == Ptr(t') && parent' == Parent(c') && Short(c', t') < Short(c, t)
    {
      hide Full, Listing, Fitting, Balanced;
      SiblingThere(c, h);
      ghost var up, red, s, cc := c.up, c.red, c.l, c;
      Look(root, c, t);
      Open(root, c, t);
      UpLeft(root, up, s, parent, red, t);
      Look(root, InLeft(up, parent, red, t), s);
      var tmp := parent.left;
      if tmp.red {
        SiblingRedRight(c, t, h);
        SiblingUpRight(parent, tmp, up, t, s.l, s.r);
        cc := InRight(InRight(up, s.l, tmp, false), s.r, parent, true);
        UpRight(root, up, s.l, tmp, false, Fork(s.r, parent, true, t));
        UpRight(root, InRight(up, s.l, tmp, false), s.r, parent, true, t);
        Look(root, cc, t);
        tmp := parent.left;
      }
      SiblingThere(cc, h);
      done, elm', parent', c', t', h' := RemoveBlackRight(parent, tmp, cc, t, h);
    }

    /** RB_REMOVE_COLOR: the subtree at the focus lost a black node; restore the balance. */
    method RemoveColor(parent0: Node?, elm0: Node?, ghost c0: Context, ghost t0: Tree, ghost h0: nat) returns (ghost tree': Tree)
      requires Full(root, c0, t0) && Sinking(c0, t0, h0) && elm0 == Ptr(t0) && parent0 == Parent(c0)
      modifies this, Around(c0), Nodes(t0)
      ensures Full(root, Top, tree') && RedBlack(tree')
      ensures Inorder(tree') == Listing(c0, t0) && Nodes(tree') == Around(c0) + Nodes(t0)
    {
      hide Full, Listing, Fitting, Balanced, RedBlack;
      var parent, elm := parent0, elm0;
      ghost var c, t, h := c0, t0, h0;
      Look(root, c, t);
      RootOnlyAtTop(root, c, t);
      while (elm == null || !elm.red) && elm != root
        invariant Full(root, c, t) && Sinking(c, t, h) && Same(c0, t0, c, t)
        invariant elm == Ptr(t) && parent == Parent(c) && (elm != null ==> elm.red == t.red) && (elm == root <==> c.Top?)
        decreases Short(c, t)
      {
        Look(root, c, t);
        var done;
        LeftOrRight(root, c, t, h);
        if parent.left == elm {
          done, elm, parent, c, t, h := RemoveRoundLeft(parent, c, t, h);
        } else {
          done, elm, parent, c, t, h := RemoveRoundRight(parent, c, t, h);
        }
        if done {
          tree' := FinishSettled(c, t, h);
          return;
        }
        Look(root, c, t);
        RootOnlyAtTop(root, c, t);
      }
      if elm != null {
        Paint(elm, false, c, t.l, t.red, t.r);
      }
      Risen2(c, t, h);
      Refocus(root, c, Blacken(t));
      PlugNodes(c, Blacken(t));
      PlugInorder(c, Blacken(t));
      tree' := Plug(c, Blacken(t));
    }

    /** After the last rotation, `elm` is the root: blackening it changes nothing. */
    method FinishSettled(ghost c: Context, ghost t: Tree, ghost h: nat) returns (ghost tree': Tree)
      requires Full(root, c, t) && Settled(c, t, h) && t.Fork?
      modifies Around(c), Nodes(t)
      ensures Full(root, Top, tree') && RedBlack(tree') && Inorder(tree') == Listing(c, t) && Nodes(tree') == Around(c) + Nodes(t)
    {
      hide Full, Listing, Fitting, Balanced, RedBlack;
      PlugBalanced(c, t, h);
      Refocus(root, c, t);
      PlugNodes(c, t);
      PlugInorder(c, t);
      PlugFork(c, t);
      tree' := Plug(c, t);
      Look(root, Top, tree');
      BlackRoot(tree');
      Paint(root, false, Top, tree'.l, tree'.red, tree'.r);
    }

    // ---------- RB_REMOVE ----------

    /** Put the only child, if any, in the place of `elm`. */
    method Splice(elm: Node, child: Node?, parent: Node?, ghost c: Context, ghost l: Tree, ghost red: bool, ghost r: Tree)
      requires Full(root, c, Fork(l, elm, red, r)) && (l.Leaf? || r.Leaf?)
      requires child == Ptr(if l.Leaf? then r else l) && parent == Parent(c)
      modifies this, Around(c), Nodes(l), Nodes(r)
      ensures Full(root, c, if l.Leaf? then r else l)
      ensures elm.left == old(elm.left) && elm.right == old(elm.right) && elm.parent == old(elm.parent) && elm.red == old(elm.red)
    {
      hide Held, HeldAround, Around, Nodes;
      NodesAllocated(l); NodesAllocated(r); AroundAllocated(c);
      HeldFork(l, elm, red, r, Parent(c));
      ParentAround(c);
      PtrInside(if l.Leaf? then r else l);
      Adopt(child, parent, if l.Leaf? then r else l, elm);
      Relink(elm, child, parent, c);
    }

    /** Put `elm` in the place of `was`, with its links and colour. */
    method Substitute(was: Node, elm: Node, ghost c: Context, ghost l: Tree, ghost red: bool, ghost r: Tree)
      requires Full(root, c, Fork(l, was, red, r)) && l.Fork?
      requires elm !in Around(c) && elm !in Nodes(l) && elm !in Nodes(r) && elm != was
      modifies this, Around(c), Nodes(l), Nodes(r), elm
      ensures Full(root, c, Fork(l, elm, red, r))
    {
      hide Held, HeldAround, Around, Nodes;
      NodesAllocated(l); NodesAllocated(r); AroundAllocated(c);
      HeldFork(l, was, red, r, Parent(c));
      ParentAround(c);
      elm.left, elm.right, elm.parent, elm.red := was.left, was.right, was.parent, was.red;
      Relink(was, elm, was.parent, c);
      AdoptBoth(was, elm, c, l, r);
      HeldFork(l, elm, red, r, Parent(c));
    }

    /** The children of `was` become those of `elm`. */
    method AdoptBoth(was: Node, elm: Node, ghost c: Context, ghost l: Tree, ghost r: Tree)
      requires Held(l, was.left, was) && Held(r, was.right, was) && HeldAround(c, root, elm) && l.Fork?
      requires elm.left == was.left && elm.right == was.right
      requires Around(c) !! Nodes(l) && Around(c) !! Nodes(r) && Nodes(l) !! Nodes(r)
      requires elm !in Nodes(l) && elm !in Nodes(r) && was !in Nodes(l) && was !in Nodes(r)
      modifies Nodes(l), Nodes(r)
      ensures Held(l, elm.left, elm) && Held(r, elm.right, elm) && HeldAround(c, root, elm)
    {
      hide Held, HeldAround, Around, Nodes;
      NodesAllocated(l); NodesAllocated(r); AroundAllocated(c);
      HeldPtr(l, was.left, was);
      HeldPtr(r, was.right, was);
      PtrInside(l);
      PtrInside(r);
      Adopt(was.left, elm, l, was);
      Adopt(was.right, elm, r, was);
    }

    /** The label `color` of RB_REMOVE: only a black node taken out needs a repair. */
    method AfterSplice(red: bool, parent: Node?, child: Node?, ghost c: Context, ghost t: Tree, ghost h: nat) returns (ghost tree': Tree)
      requires Full(root, c, t) && child == Ptr(t) && parent == Parent(c)
      requires if red then Settled(c, t, h) else Sinking(c, t, h)
      modifies this, Around(c), Nodes(t)
      ensures Full(root, Top, tree') && RedBlack(tree') && Inorder(tree') == Listing(c, t)
      ensures Nodes(tree') == Around(c) + Nodes(t)
    {
      hide Full, Listing, Fitting, Balanced, RedBlack;
      if !red {
        tree' := RemoveColor(parent, child, c, t, h);
      } else {
        PlugBalanced(c, t, h);
        Refocus(root, c, t);
        PlugNodes(c, t);
        PlugInorder(c, t);
        tree' := Plug(c, t);
      }
    }

    /** Take out a node with at most one child. */
    method RemoveOne(elm: Node, child: Node?, ghost c: Context, ghost t: Tree, ghost h: nat) returns (ghost tree': Tree)
      requires Full(root, c, t) && Settled(c, t, h) && t.Fork? && t.n == elm && (t.l.Leaf? || t.r.Leaf?)
      requires child == Ptr(Only(t))
      modifies this, Around(c), Nodes(t)
      ensures Full(root, Top, tree') && RedBlack(tree') && Inorder(tree') == Listing(c, Only(t))
      ensures Nodes(tree') == Around(c) + Nodes(Only(t))
    {
      hide Full, Listing, Fitting, Balanced, RedBlack;
      Look(root, c, t);
      NodesAllocated(t); AroundAllocated(c);
      OnlyFits(c, t, h);
      var parent, red := elm.parent, elm.red;
      Splice(elm, child, parent, c, t.l, t.red, t.r);
      tree' := AfterSplice(red, parent, child, c, Only(t), if red then h else h - 1);
    }

    /** Take out a node with two children: its successor is spliced out and put in its place. */
    method RemoveTwo(was: Node, ghost c: Context, ghost t: Tree, ghost h: nat) returns (ghost tree': Tree, ghost q: Context, ghost s: Tree)
      requires Full(root, c, t) && Settled(c, t, h) && t.Fork? && t.n == was && t.l.Fork? && t.r.Fork?
      modifies this, Around(c), Nodes(t)
      ensures Full(root, Top, tree') && RedBlack(tree')
      ensures s.Fork? && s.l.Leaf? && Plug(q, s) == t.r && Before(q) == []
      ensures Inorder(tree') == Listing(c, Fork(t.l, s.n, t.red, Plug(q, s.r)))
    {
      hide Full, Listing, Fitting, Balanced, RedBlack;
      ghost var base := InRight(c, t.l, was, t.red);
      Look(root, c, t);
      UpRight(root, c, t.l, was, t.red, t.r);
      Look(root, base, t.r);
      NodesAllocated(t); AroundAllocated(c);
      var elm := was.right;
      q, s := Top, t.r;
      while elm.left != null
        invariant Full(root, Stack(q, base), s) && s.Fork? && s.n == elm && Plug(q, s) == t.r && Before(q) == []
        decreases s
      {
        Look(root, Stack(q, base), s);
        elm := elm.left;
        q, s := InLeft(q, s.n, s.red, s.r), s.l;
        Open(root, Stack(q, base), s);
        Look(root, Stack(q, base), s);
      }
      Look(root, Stack(q, base), s);
      Focus(root, c, t.l, was, t.red, q, s);
      tree' := ReplaceBySuccessor(was, elm, c, t, q, s, h);
    }

    method ReplaceBySuccessor(was: Node, elm: Node, ghost c: Context, ghost t: Tree, ghost q: Context, ghost s: Tree, ghost h: nat)
      returns (ghost tree': Tree)
      requires Full(root, c, t) && Settled(c, t, h) && t.Fork? && t.n == was && t.l.Fork?
      requires s.Fork? && s.l.Leaf? && s.n == elm && Plug(q, s) == t.r
      modifies this, Around(c), Nodes(t)
      ensures Full(root, Top, tree') && RedBlack(tree')
      ensures Inorder(tree') == Listing(c, Fork(t.l, elm, t.red, Plug(q, s.r)))
    {
      hide Full, Listing, Fitting, Balanced, RedBlack;
      ghost var base, base' := InRight(c, t.l, was, t.red), InRight(c, t.l, elm, t.red);
      ghost var mid, hole := Stack(q, base), Stack(q, base');
      NodesAllocated(t); AroundAllocated(c);
      Focus(root, c, t.l, was, t.red, q, s);
      Look(root, mid, s);
      SuccessorApart(root, c, t, q, s);
      ghost var h' := SuccessorFits(c, t, q, s, h);
      var child, parent, red := elm.right, elm.parent, elm.red;
      Splice(elm, child, parent, mid, s.l, s.red, s.r);
      Focus(root, c, t.l, was, t.red, q, s.r);
      if elm.parent == was {
        parent := elm;
      }
      Substitute(was, elm, c, t.l, t.red, Plug(q, s.r));
      Focus(root, c, t.l, elm, t.red, q, s.r);
      tree' := AfterSplice(red, parent, child, hole, s.r, h');
    }

    /** RB_REMOVE: exactly `elm` leaves, and every other node keeps its place in the order. */
    method Remove(elm: Node) returns (old': Node)
      requires Valid() && elm in Nodes(tree)
      modifies this, Nodes(tree)
      ensures Valid() && old' == elm
      ensures Inorder(tree) == Without(old(Inorder(tree)), elm)
      ensures Nodes(tree) == old(Nodes(tree)) - {elm}
    {
      hide Full, Listing, RedBlack, Balanced, Fitting, Inorder;
      ghost var was := tree;
      ghost var c, t := Locate(Top, tree, elm);
      Refocus(root, c, t);
      Look(root, c, t);
      PlugNodes(c, t);
      PlugInorder(c, t);
      NodesAllocated(was);
      ghost var h := Unplug(c, t);
      ghost var tree';
      if elm.left == null {
        tree' := RemoveOne(elm, elm.right, c, t, h);
        ListingWithout(c, t);
      } else if elm.right == null {
        tree' := RemoveOne(elm, elm.left, c, t, h);
        ListingWithout(c, t);
      } else {
        ghost var q, s;
        tree', q, s := RemoveTwo(elm, c, t, h);
        ListingWithoutTwo(c, t, q, s);
      }
      InOrderListed(was, elm);
      WithoutAscends(Inorder(was), elm);
      NodesWithout(was, tree', elm);
      HeadIsNoNode(this, tree');
      assert Around(Top) == {};
      tree := tree';
      assert Full(root, Top, tree');
      old' := elm;
    }
  }

  /** A red node of a fitting context has a black parent and a black sibling. */
  lemma RedParent(c: Context, h: nat)
    requires Fitting(c, h) && RedAround(c)
    ensures !c.up.Top? && !c.up.red && Fitting(c.up, h)
    ensures c.InLeft? ==> Balanced(c.r, h) && !Red(c.r)
    ensures c.InRight? ==> Balanced(c.l, h) && !Red(c.l)
  {}

  lemma BlackParent(c: Context, h: nat)
    requires Fitting(c, h) && !c.Top? && !c.red
    ensures Fitting(c.up, h + 1)
    ensures c.InLeft? ==> Balanced(c.r, h)
    ensures c.InRight? ==> Balanced(c.l, h)
  {}

  lemma BalancedFork(l: Tree, n: Node, red: bool, r: Tree, h: nat)
    ensures red ==> (Balanced(Fork(l, n, red, r), h) <==> Balanced(l, h) && Balanced(r, h) && !Red(l) && !Red(r))
    ensures !red ==> (Balanced(Fork(l, n, red, r), h + 1) <==> Balanced(l, h) && Balanced(r, h))
  {}

  lemma InorderFork(l: Tree, n: Node, red: bool, r: Tree)
    ensures Inorder(Fork(l, n, red, r)) == Inorder(l) + [n] + Inorder(r)
    ensures Nodes(Fork(l, n, red, r)) == Nodes(l) + {n} + Nodes(r)
  {}

  /** The colours do not matter for the listing, and neither does a rotation. */
  lemma Repaint(c: Context, t: Tree, t': Tree)
    requires Inorder(t) == Inorder(t') && Nodes(t) == Nodes(t')
    ensures Same(c, t, c, t')
  {}

  lemma Rotated(a: Tree, x: Node, b: Tree, y: Node, d: Tree, c1: bool, c2: bool, c3: bool, c4: bool)
    ensures Inorder(Fork(Fork(a, x, c1, b), y, c2, d)) == Inorder(Fork(a, x, c3, Fork(b, y, c4, d)))
    ensures Nodes(Fork(Fork(a, x, c1, b), y, c2, d)) == Nodes(Fork(a, x, c3, Fork(b, y, c4, d)))
  {
    hide Inorder;
    InorderFork(a, x, c1, b);
    InorderFork(Fork(a, x, c1, b), y, c2, d);
    InorderFork(b, y, c4, d);
    InorderFork(a, x, c3, Fork(b, y, c4, d));
    Associates(Inorder(a), x, Inorder(b), y, Inorder(d));
  }

  lemma Associates<T>(a: seq<T>, x: T, b: seq<T>, y: T, d: seq<T>)
    ensures a + [x] + b + [y] + d == a + [x] + (b + [y] + d)
  {}

  /** The same nodes in the same order, by a change of colours below. */
  lemma Recoloured(l: Tree, l': Tree, n: Node, red: bool, red': bool, r: Tree, r': Tree)
    requires Inorder(l) == Inorder(l') && Nodes(l) == Nodes(l') && Inorder(r) == Inorder(r') && Nodes(r) == Nodes(r')
    ensures Inorder(Fork(l, n, red, r)) == Inorder(Fork(l', n, red', r'))
    ensures Nodes(Fork(l, n, red, r)) == Nodes(Fork(l', n, red', r'))
  {}

  lemma SameTwice(c: Context, t: Tree)
    requires !c.Top? && !c.up.Top?
    ensures Same(c, t, c.up.up, Join(c.up, Join(c, t)))
  {
    hide Listing;
    Open(null, c, t);
    Open(null, c.up, Join(c, t));
  }

  lemma FlippedLeft(c: Context, t: Tree, elm: Node, h: nat)
    requires Rising(c, t, elm, h) && RedAround(c) && c.up.InLeft? && Red(c.up.r)
    ensures var t' := Fork(Blacken(Join(c, t)), c.up.n, true, Blacken(c.up.r));
      Rising(c.up.up, t', c.up.n, h + 1) && Same(c, t, c.up.up, t') && Depth(c.up.up) < Depth(c)
  {
    hide Listing, Balanced, Fitting, Inorder, Nodes;
    var p, u, gp := Join(c, t), c.up.r, c.up.n;
    var p', u' := Blacken(p), Blacken(u);
    RedParent(c, h);
    BlackParent(c.up, h);
    BalancedFork(u.l, u.n, true, u.r, h);
    BalancedFork(u.l, u.n, false, u.r, h);
    BalancedFork(p.l, p.n, false, p.r, h);
    BalancedFork(p', gp, true, u', h + 1);
    SameTwice(c, t);
    Recoloured(p.l, p.l, p.n, p.red, false, p.r, p.r);
    Recoloured(u.l, u.l, u.n, u.red, false, u.r, u.r);
    Recoloured(p, p', gp, false, true, u, u');
    Repaint(c.up.up, Fork(p, gp, false, u), Fork(p', gp, true, u'));
  }

  lemma LiftedLeft(c: Context, t: Tree, elm: Node, h: nat)
    requires Rising(c, t, elm, h) && RedAround(c) && c.up.InLeft? && !Red(c.up.r)
    ensures c.InLeft? ==>
      var c' := InLeft(c.up.up, c.n, false, Fork(c.r, c.up.n, true, c.up.r));
      Rising(c', t, elm, h) && Same(c, t, c', t) && Depth(c') < Depth(c)
    ensures c.InRight? ==>
      var c', t' := InLeft(c.up.up, elm, false, Fork(t.r, c.up.n, true, c.up.r)), Fork(c.l, c.n, true, t.l);
      Rising(c', t', c.n, h) && Same(c, t, c', t') && Depth(c') < Depth(c)
  {
    hide Listing, Balanced, Inorder, Nodes;
    var up, gp, u, p := c.up.up, c.up.n, c.up.r, Join(c, t);
    RedParent(c, h);
    BlackParent(c.up, h);
    BalancedFork(t.l, t.n, true, t.r, h);
    SameTwice(c, t);
    if c.InLeft? {
      var y := Fork(c.r, gp, true, u);
      BalancedFork(c.r, gp, true, u, h);
      var c' := InLeft(up, c.n, false, y);
      Open(null, c', t);
      Rotated(t, c.n, c.r, gp, u, true, false, false, true);
      Repaint(up, Fork(p, gp, false, u), Fork(t, c.n, false, y));
    } else {
      var x, y := Fork(c.l, c.n, true, t.l), Fork(t.r, gp, true, u);
      BalancedFork(c.l, c.n, true, t.l, h);
      BalancedFork(t.r, gp, true, u, h);
      var c' := InLeft(up, elm, false, y);
      Open(null, c', x);
      Rotated(c.l, c.n, t.l, elm, t.r, true, true, true, true);
      Rotated(x, elm, t.r, gp, u, true, false, false, true);
      Recoloured(p, Fork(x, elm, true, t.r), gp, false, false, u, u);
      Repaint(up, Fork(p, gp, false, u), Fork(x, elm, false, y));
    }
  }

  lemma FlippedRight(c: Context, t: Tree, elm: Node, h: nat)
    requires Rising(c, t, elm, h) && RedAround(c) && c.up.InRight? && Red(c.up.l)
    ensures var t' := Fork(Blacken(c.up.l), c.up.n, true, Blacken(Join(c, t)));
      Rising(c.up.up, t', c.up.n, h + 1) && Same(c, t, c.up.up, t') && Depth(c.up.up) < Depth(c)
  {
    hide Listing, Balanced, Fitting, Inorder, Nodes;
    var p, u, gp := Join(c, t), c.up.l, c.up.n;
    var p', u' := Blacken(p), Blacken(u);
    RedParent(c, h);
    BlackParent(c.up, h);
    BalancedFork(u.l, u.n, true, u.r, h);
    BalancedFork(u.l, u.n, false, u.r, h);
    BalancedFork(p.l, p.n, false, p.r, h);
    BalancedFork(u', gp, true, p', h + 1);
    SameTwice(c, t);
    Recoloured(p.l, p.l, p.n, p.red, false, p.r, p.r);
    Recoloured(u.l, u.l, u.n, u.red, false, u.r, u.r);
    Recoloured(u, u', gp, false, true, p, p');
    Repaint(c.up.up, Fork(u, gp, false, p), Fork(u', gp, true, p'));
  }

  lemma LiftedRight(c: Context, t: Tree, elm: Node, h: nat)
    requires Rising(c, t, elm, h) && RedAround(c) && c.up.InRight? && !Red(c.up.l)
    ensures c.InRight? ==>
      var c' := InRight(c.up.up, Fork(c.up.l, c.up.n, true, c.l), c.n, false);
      Rising(c', t, elm, h) && Same(c, t, c', t) && Depth(c') < Depth(c)
    ensures c.InLeft? ==>
      var c', t' := InRight(c.up.up, Fork(c.up.l, c.up.n, true, t.l), elm, false), Fork(t.r, c.n, true, c.r);
      Rising(c', t', c.n, h) && Same(c, t, c', t') && Depth(c') < Depth(c)
  {
    hide Listing, Balanced, Inorder, Nodes;
    var up, gp, u, p := c.up.up, c.up.n, c.up.l, Join(c, t);
    RedParent(c, h);
    BlackParent(c.up, h);
    BalancedFork(t.l, t.n, true, t.r, h);
    SameTwice(c, t);
    if c.InRight? {
      var y := Fork(u, gp, true, c.l);
      BalancedFork(u, gp, true, c.l, h);
      var c' := InRight(up, y, c.n, false);
      Open(null, c', t);
      Rotated(u, gp, c.l, c.n, t, true, false, false, true);
      Repaint(up, Fork(u, gp, false, p), Fork(y, c.n, false, t));
    } else {
      var x, y := Fork(t.r, c.n, true, c.r), Fork(u, gp, true, t.l);
      BalancedFork(t.r, c.n, true, c.r, h);
      BalancedFork(u, gp, true, t.l, h);
      var c' := InRight(up, y, elm, false);
      Open(null, c', x);
      Rotated(t.l, elm, t.r, c.n, c.r, true, true, true, true);
      Rotated(u, gp, t.l, elm, x, true, false, false, true);
      Recoloured(u, u, gp, false, false, p, Fork(t.l, elm, true, x));
      Repaint(up, Fork(u, gp, false, p), Fork(y, elm, false, x));
    }
  }

  /** When the parent is black, or there is none, only the root may still have to be blackened. */
  lemma Risen(c: Context, t: Tree, elm: Node, h: nat)
    requires Rising(c, t, elm, h) && !RedAround(c)
    ensures Plug(c, t).Fork? && RedBlack(Blacken(Plug(c, t)))
  {
    PlugFork(c, t);
    if c.Top? {
      BalancedFork(t.l, t.n, false, t.r, h);
    } else {
      PlugBalanced(c, t, h);
    }
  }

  lemma {:induction false} PlugFork(c: Context, t: Tree)
    requires t.Fork?
    ensures Plug(c, t).Fork?
    decreases c
  {
    if !c.Top? { PlugFork(c.up, Join(c, t)); }
  }

  // ---------- Searching ----------

  /** The key belongs in the hole: everything before it is smaller, everything after it is greater. */
  ghost predicate Between(c: Context, key: int) {
    (forall i :: 0 <= i < |Before(c)| ==> Before(c)[i].key < key)
    && (forall i :: 0 <= i < |After(c)| ==> key < After(c)[i].key)
  }

  lemma BetweenTop(key: int)
    ensures Between(Top, key)
  {}

  /** A comparison at a node decides on which side the key belongs. */
  lemma SearchStep(c: Context, t: Tree, key: int, tree: Tree)
    requires t.Fork? && Between(c, key) && Plug(c, t) == tree && Ascending(Inorder(tree))
    ensures key < t.n.key ==> Between(InLeft(c, t.n, t.red, t.r), key) && Plug(InLeft(c, t.n, t.red, t.r), t.l) == tree
    ensures key > t.n.key ==> Between(InRight(c, t.l, t.n, t.red), key) && Plug(InRight(c, t.l, t.n, t.red), t.r) == tree
  {
    hide Inorder, Listing, Ascending;
    PlugInorder(c, t);
    var x, y := Inorder(t.l), Inorder(t.r);
    ListingSplit(c, t.l, t.n, t.red, t.r);
    Sides(Before(c) + x, t.n, y + After(c));
    assert [t.n] + (y + After(c)) == [t.n] + y + After(c);
  }

  /** In an ascending listing, what is before a node is smaller and what is after it is greater. */
  lemma Sides(a: seq<Node>, n: Node, b: seq<Node>)
    requires Ascending(a + [n] + b)
    ensures forall i :: 0 <= i < |a + [n]| ==> (a + [n])[i].key <= n.key
    ensures forall i :: 0 <= i < |[n] + b| ==> n.key <= ([n] + b)[i].key
  {
    var s := a + [n] + b;
    assert s[|a|] == n;
    forall i | 0 <= i < |a + [n]| ensures (a + [n])[i].key <= n.key { assert (a + [n])[i] == s[i]; }
    forall i | 0 <= i < |[n] + b| ensures n.key <= ([n] + b)[i].key { assert ([n] + b)[i] == s[|a| + i]; }
  }

  ghost function InsertSorted(s: seq<Node>, e: Node): seq<Node> {
    if s == [] then [e] else if e.key < s[0].key then [e] + s else [s[0]] + InsertSorted(s[1..], e)
  }

  lemma {:induction false} InsertAt(a: seq<Node>, b: seq<Node>, e: Node)
    requires forall i :: 0 <= i < |a| ==> a[i].key < e.key
    requires forall i :: 0 <= i < |b| ==> e.key < b[i].key
    ensures InsertSorted(a + b, e) == a + [e] + b
    decreases |a|
  {
    if a == [] {
      assert a + b == b;
    } else {
      assert (a + b)[1..] == a[1..] + b;
      InsertAt(a[1..], b, e);
      assert [a[0]] + (a[1..] + [e] + b) == a + [e] + b;
    }
  }

  /** Filling the hole is inserting in order. */
  lemma HolePlace(c: Context, elm: Node, s: seq<Node>)
    requires Between(c, elm.key) && s == Listing(c, Leaf)
    ensures Listing(c, Fork(Leaf, elm, true, Leaf)) == InsertSorted(s, elm)
    ensures forall i :: 0 <= i < |s| ==> s[i].key != elm.key
  {
    assert s == Before(c) + After(c);
    InsertAt(Before(c), After(c), elm);
    assert [] + [elm] + [] == [elm];
  }

  lemma HoleMisses(c: Context, key: int, tree: Tree)
    requires Between(c, key) && Plug(c, Leaf) == tree
    ensures forall n :: n in Nodes(tree) ==> n.key != key
  {
    PlugInorder(c, Leaf);
    assert Inorder(tree) == Before(c) + After(c);
    forall n | n in Nodes(tree) ensures n.key != key {
      InOrderListed(tree, n);
    }
  }

  lemma {:induction false} InOrderListed(t: Tree, n: Node)
    ensures n in Inorder(t) <==> n in Nodes(t)
  {
    if t.Fork? {
      InOrderListed(t.l, n);
      InOrderListed(t.r, n);
    }
  }

  /** In a search tree a key names its node. */
  lemma SameKeySameNode(t: Tree, m: Node, n: Node)
    requires Ascending(Inorder(t)) && m in Nodes(t) && n in Nodes(t) && m.key == n.key
    ensures m == n
  {
    InOrderListed(t, m);
    InOrderListed(t, n);
    var s := Inorder(t);
    var i :| 0 <= i < |s| && s[i] == m;
    var j :| 0 <= j < |s| && s[j] == n;
  }

  lemma HeadIsNoNode(h: Head, t: Tree)
    ensures var s: set<object> := Nodes(t); h !in s
  {}

  lemma {:induction false} InsertSortedAscends(s: seq<Node>, e: Node)
    requires Ascending(s) && forall i :: 0 <= i < |s| ==> s[i].key != e.key
    ensures Ascending(InsertSorted(s, e))
    ensures forall i :: 0 <= i < |InsertSorted(s, e)| ==> InsertSorted(s, e)[i] == e || InsertSorted(s, e)[i] in s
    decreases |s|
  {
    if s != [] && e.key > s[0].key {
      var rest := s[1..];
      InsertSortedAscends(rest, e);
      var r := InsertSorted(rest, e);
      forall i | 0 <= i < |r|
        ensures s[0].key < r[i].key && (r[i] == e || r[i] in s)
      {
        if r[i] != e {
          var j :| 0 <= j < |rest| && rest[j] == r[i];
          assert s[j + 1] == r[i];
        }
      }
    }
  }

  datatype Op = Put(n: Node) | Take(n: Node)

  /** The listing after one operation: a key that is already there is not inserted again. */
  ghost function After1(s: seq<Node>, op: Op): seq<Node> {
    if op.Take? then Without(s, op.n) else if HasKey(s, op.n.key) then s else InsertSorted(s, op.n)
  }

  ghost predicate HasKey(s: seq<Node>, key: int) { exists i :: 0 <= i < |s| && s[i].key == key }

  ghost function AfterAll(s: seq<Node>, ops: seq<Op>): seq<Node> {
    if ops == [] then s else After1(AfterAll(s, ops[..|ops| - 1]), ops[|ops| - 1])
  }

  /** Only a node of the tree may be removed. */
  ghost predicate Possible(s: seq<Node>, ops: seq<Op>) {
    forall i :: 0 <= i < |ops| && ops[i].Take? ==> ops[i].n in AfterAll(s, ops[..i])
  }

  lemma KeyListed(t: Tree, n: Node)
    requires n in Nodes(t)
    ensures HasKey(Inorder(t), n.key)
  {
    InOrderListed(t, n);
  }

  lemma NoKey(t: Tree, key: int)
    requires forall n :: n in Nodes(t) ==> n.key != key
    ensures !HasKey(Inorder(t), key)
  {
    NodesAllocated(t);
    forall i | 0 <= i < |Inorder(t)| ensures Inorder(t)[i].key != key {
      InOrderListed(t, Inorder(t)[i]);
    }
  }

  lemma AfterSnoc(s: seq<Node>, ops: seq<Op>, i: nat)
    requires i < |ops|
    ensures AfterAll(s, ops[..i + 1]) == After1(AfterAll(s, ops[..i]), ops[i])
  {
    assert ops[..i + 1][..i] == ops[..i];
  }

  /** A red leaf fits where a leaf was. */
  lemma LeafFits(c: Context, elm: Node, h: nat)
    requires Fitting(c, h) && Balanced(Leaf, h)
    ensures h == 0 && Rising(c, Fork(Leaf, elm, true, Leaf), elm, 0)
  {}

  /** `next` is what comes after `n`, or null when `n` is the last. */
  ghost predicate Follows(s: seq<Node>, n: Node, next: Node?) {
    exists i :: 0 <= i < |s| && s[i] == n && next == if i + 1 < |s| then s[i + 1] else null
  }

  lemma FollowsHere(s: seq<Node>, n: Node, next: Node?, at: nat)
    requires at < |s| && s[at] == n && next == if at + 1 < |s| then s[at + 1] else null
    ensures Follows(s, n, next)
  {}

  lemma FollowsAt(s: seq<Node>, n: Node, next: Node?, at: nat)
    requires Ascending(s) && Follows(s, n, next) && at < |s| && s[at] == n
    ensures next == if at + 1 < |s| then s[at + 1] else null
  {
    var i :| 0 <= i < |s| && s[i] == n && next == if i + 1 < |s| then s[i + 1] else null;
    assert i == at;
  }

  /** The node at the end of a walk to one side is the first, or the last. */
  lemma Extremes(c: Context, t: Tree, tree: Tree)
    requires t == Leaf && Plug(c, t) == tree
    ensures c.Top? <==> Inorder(tree) == []
    ensures c.InLeft? && Before(c) == [] ==> Inorder(tree)[0] == c.n
    ensures c.InRight? && After(c) == [] ==> Inorder(tree)[|Inorder(tree)| - 1] == c.n
  {
    PlugInorder(c, t);
    assert Inorder(tree) == Before(c) + After(c);
  }

  lemma ListingFork(c: Context, t: Tree)
    requires t.Fork?
    ensures var s, at := Listing(c, t), |Before(c)| + |Inorder(t.l)|;
      at < |s| && s[at] == t.n && s[at + 1..] == Inorder(t.r) + After(c)
  {
    hide Before, After;
    ListingSplit(c, t.l, t.n, t.red, t.r);
  }

  /** Every node of a tree is at some focus. */
  lemma {:induction false} Locate(c: Context, t: Tree, n: Node) returns (c': Context, t': Tree)
    requires n in Nodes(t)
    ensures Plug(c', t') == Plug(c, t) && t'.Fork? && t'.n == n
    decreases t
  {
    if n == t.n {
      c', t' := c, t;
    } else if n in Nodes(t.l) {
      c', t' := Locate(InLeft(c, t.n, t.red, t.r), t.l, n);
    } else {
      c', t' := Locate(InRight(c, t.l, t.n, t.red), t.r, n);
    }
  }

  // ---------- Removing: the balance ----------

  /** The subtree is one black node short for its context, and red only if blackening it makes up for that. */
  ghost predicate Sinking(c: Context, t: Tree, h: nat) {
    && Fitting(c, h + 1)
    && if Red(t) then Balanced(t.l, h) && Balanced(t.r, h) else Balanced(t, h)
  }

  /** Nothing is left to repair. */
  ghost predicate Settled(c: Context, t: Tree, h: nat) {
    Fitting(c, h) && Balanced(t, h) && (c.Top? || RedAround(c) ==> !Red(t))
  }

  /** How far the repair may still have to climb. */
  ghost function Short(c: Context, t: Tree): nat { if Red(t) then 0 else 1 + Depth(c) }

  lemma LookChildren(root: Node?, c: Context, t: Tree)
    requires Full(root, c, t) && t.Fork?
    ensures t.l.Fork? ==> t.n.left == t.l.n && t.l.n.red == t.l.red
    ensures t.r.Fork? ==> t.n.right == t.r.n && t.r.n.red == t.r.red
  {
    HeldFork(t.l, t.n, t.red, t.r, Parent(c));
  }

  /** The sibling of a subtree that is short has at least one black node. */
  lemma SiblingThere(c: Context, h: nat)
    requires Fitting(c, h + 1) && !c.Top?
    ensures c.InLeft? ==> Balanced(c.r, h + 1) && c.r.Fork? && (c.red ==> !Red(c.r))
    ensures c.InRight? ==> Balanced(c.l, h + 1) && c.l.Fork? && (c.red ==> !Red(c.l))
  {}

  lemma SiblingRedLeft(c: Context, t: Tree, h: nat)
    requires c.InLeft? && Fitting(c, h + 1) && Balanced(t, h) && Red(c.r)
    ensures var cc := InLeft(InLeft(c.up, c.r.n, false, c.r.r), c.n, true, c.r.l);
      !c.red && Fitting(cc, h + 1) && Same(c, t, cc, t) && !Red(c.r.l)
  {
    hide Listing, Balanced, Inorder, Nodes;
    SiblingThere(c, h);
    BlackParent(c, h + 1);
    BalancedFork(c.r.l, c.r.n, true, c.r.r, h + 1);
    var cc := InLeft(InLeft(c.up, c.r.n, false, c.r.r), c.n, true, c.r.l);
    Open(null, c, t);
    SameTwice(cc, t);
    Rotated(t, c.n, c.r.l, c.r.n, c.r.r, true, false, false, true);
    Repaint(c.up, Join(c, t), Fork(Fork(t, c.n, true, c.r.l), c.r.n, false, c.r.r));
  }

  lemma PushedUpLeft(c: Context, t: Tree, h: nat)
    requires c.InLeft? && Fitting(c, h + 1) && Balanced(t, h) && !Red(t)
    requires c.r.Fork? && !c.r.red && !Red(c.r.l) && !Red(c.r.r)
    ensures var t' := Fork(t, c.n, c.red, Fork(c.r.l, c.r.n, true, c.r.r));
      Sinking(c.up, t', if c.red then h else h + 1) && Same(c, t, c.up, t')
  {
    hide Listing, Balanced, Fitting, Inorder, Nodes;
    SiblingThere(c, h);
    BalancedFork(c.r.l, c.r.n, false, c.r.r, h);
    BalancedFork(c.r.l, c.r.n, true, c.r.r, h);
    var s' := Fork(c.r.l, c.r.n, true, c.r.r);
    if c.red { RedParent(c, h + 1); } else { BlackParent(c, h + 1); BalancedFork(t, c.n, false, s', h); }
    Open(null, c, t);
    Recoloured(c.r.l, c.r.l, c.r.n, false, true, c.r.r, c.r.r);
    Recoloured(t, t, c.n, c.red, c.red, c.r, s');
    Repaint(c.up, Join(c, t), Fork(t, c.n, c.red, s'));
  }

  /** The last rotation settles the tree, whether or not the near child had to be brought up first. */
  lemma SettledLeft(c: Context, t: Tree, h: nat)
    requires c.InLeft? && Fitting(c, h + 1) && Balanced(t, h) && !Red(t) && c.r.Fork? && !c.r.red
    ensures Red(c.r.r) ==>
      var t' := Fork(Fork(t, c.n, false, c.r.l), c.r.n, c.red, Blacken(c.r.r));
      Settled(c.up, t', if c.red then h + 1 else h + 2) && Same(c, t, c.up, t')
    ensures Red(c.r.l) && !Red(c.r.r) ==>
      var n := c.r.l;
      var t' := Fork(Fork(t, c.n, false, n.l), n.n, c.red, Blacken(Fork(n.r, c.r.n, true, c.r.r)));
      Settled(c.up, t', if c.red then h + 1 else h + 2) && Same(c, t, c.up, t')
  {
    hide Listing, Balanced, Inorder, Nodes;
    var s := c.r;
    SiblingThere(c, h);
    BalancedFork(s.l, s.n, false, s.r, h);
    if c.red { RedParent(c, h + 1); } else { BlackParent(c, h + 1); }
    Open(null, c, t);
    if Red(s.r) {
      var f := Blacken(s.r);
      var a := Fork(t, c.n, false, s.l);
      BalancedFork(s.r.l, s.r.n, true, s.r.r, h);
      BalancedFork(s.r.l, s.r.n, false, s.r.r, h);
      BalancedFork(t, c.n, false, s.l, h);
      BalancedFork(a, s.n, c.red, f, h + 1);
      Recoloured(s.r.l, s.r.l, s.r.n, true, false, s.r.r, s.r.r);
      Recoloured(s.l, s.l, s.n, false, false, s.r, f);
      Recoloured(t, t, c.n, c.red, c.red, s, Fork(s.l, s.n, false, f));
      Rotated(t, c.n, s.l, s.n, f, false, c.red, c.red, false);
      Repaint(c.up, Join(c, t), Fork(a, s.n, c.red, f));
    } else if Red(s.l) {
      var n := s.l;
      var f := Fork(n.r, s.n, false, s.r);
      var a := Fork(t, c.n, false, n.l);
      BalancedFork(n.l, n.n, true, n.r, h);
      BalancedFork(n.r, s.n, false, s.r, h);
      BalancedFork(t, c.n, false, n.l, h);
      BalancedFork(a, n.n, c.red, f, h + 1);
      Rotated(n.l, n.n, n.r, s.n, s.r, true, false, false, false);
      Recoloured(t, t, c.n, c.red, c.red, s, Fork(n.l, n.n, false, f));
      Rotated(t, c.n, n.l, n.n, f, false, c.red, c.red, false);
      Repaint(c.up, Join(c, t), Fork(a, n.n, c.red, f));
    }
  }

  lemma SiblingRedRight(c: Context, t: Tree, h: nat)
    requires c.InRight? && Fitting(c, h + 1) && Balanced(t, h) && Red(c.l)
    ensures var cc := InRight(InRight(c.up, c.l.l, c.l.n, false), c.l.r, c.n, true);
      !c.red && Fitting(cc, h + 1) && Same(c, t, cc, t) && !Red(c.l.r)
  {
    hide Listing, Balanced, Inorder, Nodes;
    SiblingThere(c, h);
    BlackParent(c, h + 1);
    BalancedFork(c.l.l, c.l.n, true, c.l.r, h + 1);
    var cc := InRight(InRight(c.up, c.l.l, c.l.n, false), c.l.r, c.n, true);
    Open(null, c, t);
    SameTwice(cc, t);
    Rotated(c.l.l, c.l.n, c.l.r, c.n, t, true, false, false, true);
    Repaint(c.up, Join(c, t), Fork(c.l.l, c.l.n, false, Fork(c.l.r, c.n, true, t)));
  }

  lemma PushedUpRight(c: Context, t: Tree, h: nat)
    requires c.InRight? && Fitting(c, h + 1) && Balanced(t, h) && !Red(t)
    requires c.l.Fork? && !c.l.red && !Red(c.l.l) && !Red(c.l.r)
    ensures var t' := Fork(Fork(c.l.l, c.l.n, true, c.l.r), c.n, c.red, t);
      Sinking(c.up, t', if c.red then h else h + 1) && Same(c, t, c.up, t')
  {
    hide Listing, Balanced, Fitting, Inorder, Nodes;
    SiblingThere(c, h);
    BalancedFork(c.l.l, c.l.n, false, c.l.r, h);
    BalancedFork(c.l.l, c.l.n, true, c.l.r, h);
    var s' := Fork(c.l.l, c.l.n, true, c.l.r);
    if c.red { RedParent(c, h + 1); } else { BlackParent(c, h + 1); BalancedFork(s', c.n, false, t, h); }
    Open(null, c, t);
    Recoloured(c.l.l, c.l.l, c.l.n, false, true, c.l.r, c.l.r);
    Recoloured(c.l, s', c.n, c.red, c.red, t, t);
    Repaint(c.up, Join(c, t), Fork(s', c.n, c.red, t));
  }

  lemma SettledRight(c: Context, t: Tree, h: nat)
    requires c.InRight? && Fitting(c, h + 1) && Balanced(t, h) && !Red(t) && c.l.Fork? && !c.l.red
    ensures Red(c.l.l) ==>
      var t' := Fork(Blacken(c.l.l), c.l.n, c.red, Fork(c.l.r, c.n, false, t));
      Settled(c.up, t', if c.red then h + 1 else h + 2) && Same(c, t, c.up, t')
    ensures Red(c.l.r) && !Red(c.l.l) ==>
      var n := c.l.r;
      var t' := Fork(Blacken(Fork(c.l.l, c.l.n, true, n.l)), n.n, c.red, Fork(n.r, c.n, false, t));
      Settled(c.up, t', if c.red then h + 1 else h + 2) && Same(c, t, c.up, t')
  {
    hide Listing, Balanced, Inorder, Nodes;
    var s := c.l;
    SiblingThere(c, h);
    BalancedFork(s.l, s.n, false, s.r, h);
    if c.red { RedParent(c, h + 1); } else { BlackParent(c, h + 1); }
    Open(null, c, t);
    if Red(s.l) {
      var f := Blacken(s.l);
      var a := Fork(s.r, c.n, false, t);
      BalancedFork(s.l.l, s.l.n, true, s.l.r, h);
      BalancedFork(s.l.l, s.l.n, false, s.l.r, h);
      BalancedFork(s.r, c.n, false, t, h);
      BalancedFork(f, s.n, c.red, a, h + 1);
      Recoloured(s.l.l, s.l.l, s.l.n, true, false, s.l.r, s.l.r);
      Recoloured(s.l, f, s.n, false, false, s.r, s.r);
      Recoloured(s, Fork(f, s.n, false, s.r), c.n, c.red, c.red, t, t);
      Rotated(f, s.n, s.r, c.n, t, false, c.red, c.red, false);
      Repaint(c.up, Join(c, t), Fork(f, s.n, c.red, a));
    } else if Red(s.r) {
      var n := s.r;
      var f := Fork(s.l, s.n, false, n.l);
      var a := Fork(n.r, c.n, false, t);
      BalancedFork(n.l, n.n, true, n.r, h);
      BalancedFork(s.l, s.n, false, n.l, h);
      BalancedFork(n.r, c.n, false, t, h);
      BalancedFork(f, n.n, c.red, a, h + 1);
      Rotated(s.l, s.n, n.l, n.n, n.r, false, false, false, true);
      Recoloured(s, Fork(f, n.n, false, n.r), c.n, c.red, c.red, t, t);
      Rotated(f, n.n, n.r, c.n, t, false, c.red, c.red, false);
      Repaint(c.up, Join(c, t), Fork(f, n.n, c.red, a));
    }
  }

  /** The pointer comparison in RB_REMOVE_COLOR finds the side: a subtree that is short is never confused with its sibling. */
  lemma LeftOrRight(root: Node?, c: Context, t: Tree, h: nat)
    requires Full(root, c, t) && Fitting(c, h + 1)
    ensures !c.Top? ==> (c.n.left == Ptr(t) <==> c.InLeft?)
  {
    if !c.Top? {
      SiblingThere(c, h);
      if c.InRight? { HeldPtr(c.l, c.n.left, c.n); PtrInside(t); PtrInside(c.l); }
    }
  }

  lemma RootOnlyAtTop(root: Node?, c: Context, t: Tree)
    requires Full(root, c, t)
    ensures Ptr(t) == root <==> c.Top?
  {
    if !c.Top? {
      RootAround(root, c, Ptr(t));
      PtrInside(t);
    }
  }

  lemma {:induction false} RootAround(root: Node?, c: Context, hole: Node?)
    requires HeldAround(c, root, hole) && !c.Top?
    ensures root != null && root in Around(c)
    decreases c
  {
    if !c.up.Top? { RootAround(root, c.up, c.n); }
  }

  lemma BlackRoot(t: Tree)
    requires RedBlack(t)
    ensures !Red(t)
  {}

  /** At the top, or at a red node, blackening the subtree makes up for the missing black node. */
  lemma Risen2(c: Context, t: Tree, h: nat)
    requires Sinking(c, t, h) && (c.Top? || Red(t))
    ensures RedBlack(Plug(c, Blacken(t)))
    ensures Same(c, t, c, Blacken(t))
  {
    if Red(t) {
      BalancedFork(t.l, t.n, false, t.r, h);
      PlugBalanced(c, Blacken(t), h + 1);
      Recoloured(t.l, t.l, t.n, true, false, t.r, t.r);
    } else {
      assert Blacken(t) == t;
    }
  }

  // ---------- Taking a node out ----------

  lemma {:induction false} WithoutAt(a: seq<Node>, e: Node, b: seq<Node>)
    requires e !in a
    ensures Without(a + [e] + b, e) == a + b
    decreases |a|
  {
    var s := a + [e] + b;
    if a == [] {
      assert s[1..] == b && a + b == b;
    } else {
      assert s[1..] == a[1..] + [e] + b;
      WithoutAt(a[1..], e, b);
      assert [a[0]] + (a[1..] + b) == a + b;
    }
  }

  /** Removing undoes inserting. */
  lemma {:induction false} WithoutInserted(s: seq<Node>, e: Node)
    requires e !in s
    ensures Without(InsertSorted(s, e), e) == s
    decreases |s|
  {
    if s != [] {
      if e.key < s[0].key {
        assert ([e] + s)[1..] == s;
      } else {
        WithoutInserted(s[1..], e);
        var r := InsertSorted(s[1..], e);
        assert ([s[0]] + r)[1..] == r;
      }
    }
  }

  lemma WithoutAscends(s: seq<Node>, e: Node)
    requires Ascending(s) && e in s
    ensures Ascending(Without(s, e))
    ensures forall i :: 0 <= i < |Without(s, e)| ==> Without(s, e)[i] in s && Without(s, e)[i] != e
    ensures forall i :: 0 <= i < |s| && s[i] != e ==> s[i] in Without(s, e)
  {
    hide Without;
    var at :| 0 <= at < |s| && s[at] == e;
    var a, b := s[..at], s[at + 1..];
    assert s == a + [e] + b;
    NotBefore(a, e, b);
    WithoutAt(a, e, b);
    SpliceAscends(a, e, b);
  }

  lemma SpliceAscends(a: seq<Node>, e: Node, b: seq<Node>)
    requires Ascending(a + [e] + b)
    ensures Ascending(a + b)
    ensures forall i :: 0 <= i < |a + b| ==> (a + b)[i] in a + [e] + b && (a + b)[i] != e
    ensures forall i :: 0 <= i < |a + [e] + b| && (a + [e] + b)[i] != e ==> (a + [e] + b)[i] in a + b
  {
    var s, r := a + [e] + b, a + b;
    forall i | 0 <= i < |r| ensures r[i] in s && r[i] != e {
      var i' := if i < |a| then i else i + 1;
      assert r[i] == s[i'] && s[|a|] == e;
    }
    forall i, j | 0 <= i < j < |r| ensures r[i].key < r[j].key {
      var i', j' := if i < |a| then i else i + 1, if j < |a| then j else j + 1;
      assert r[i] == s[i'] && r[j] == s[j'];
    }
    forall i | 0 <= i < |s| && s[i] != e ensures s[i] in r {
      assert s[i] == r[if i < |a| then i else i - 1];
    }
  }

  /** In an ascending listing nothing before a node is that node. */
  lemma NotBefore(a: seq<Node>, e: Node, b: seq<Node>)
    requires Ascending(a + [e] + b)
    ensures e !in a
  {
    var s := a + [e] + b;
    forall i | 0 <= i < |a| ensures a[i] != e {
      assert s[i] == a[i] && s[|a|] == e;
    }
  }

  /** The listing around the node at the focus. */
  lemma ListingSplit(c: Context, l: Tree, n: Node, red: bool, r: Tree)
    ensures Listing(c, Fork(l, n, red, r)) == (Before(c) + Inorder(l)) + [n] + (Inorder(r) + After(c))
  {
    hide Inorder, Before, After;
    InorderFork(l, n, red, r);
    Regroup(Before(c), Inorder(l), n, Inorder(r), After(c));
  }

  lemma Regroup<T>(a: seq<T>, b: seq<T>, x: T, d: seq<T>, e: seq<T>)
    ensures a + (b + [x] + d) + e == (a + b) + [x] + (d + e)
  {}

  lemma ListingWithout(c: Context, t: Tree)
    requires t.Fork? && (t.l.Leaf? || t.r.Leaf?) && Ascending(Listing(c, t))
    ensures Listing(c, Only(t)) == Without(Listing(c, t), t.n)
  {
    hide Before, After, Without, Ascending;
    var a, b := Before(c) + Inorder(t.l), Inorder(t.r) + After(c);
    ListingSplit(c, t.l, t.n, t.red, t.r);
    NotBefore(a, t.n, b);
    WithoutAt(a, t.n, b);
    assert Listing(c, Only(t)) == a + b;
  }

  lemma ListingWithoutTwo(c: Context, t: Tree, q: Context, s: Tree)
    requires t.Fork? && s.Fork? && s.l.Leaf? && Plug(q, s) == t.r && Before(q) == [] && Ascending(Listing(c, t))
    ensures Listing(c, Fork(t.l, s.n, t.red, Plug(q, s.r))) == Without(Listing(c, t), t.n)
  {
    hide Listing, Inorder, Before, After, Without, Ascending, Plug;
    var a, b := Before(c) + Inorder(t.l), Inorder(t.r) + After(c);
    ListingSplit(c, t.l, t.n, t.red, t.r);
    NotBefore(a, t.n, b);
    WithoutAt(a, t.n, b);
    var r' := Plug(q, s.r);
    ListingSplit(c, t.l, s.n, t.red, r');
    LeftmostListing(q, s);
    GroupHead(a, s.n, Inorder(r'), After(c));
  }

  lemma GroupHead<T>(a: seq<T>, x: T, d: seq<T>, e: seq<T>)
    ensures a + [x] + (d + e) == a + (([x] + d) + e)
  {}

  lemma LeftmostListing(q: Context, s: Tree)
    requires s.Fork? && s.l.Leaf? && Before(q) == []
    ensures Inorder(Plug(q, s)) == [s.n] + Inorder(Plug(q, s.r))
  {
    hide Before, After, Plug;
    PlugInorder(q, s);
    PlugInorder(q, s.r);
    assert Inorder(s) == [s.n] + Inorder(s.r);
  }

  lemma NodesWithout(t: Tree, t': Tree, e: Node)
    requires Ascending(Inorder(t)) && e in Nodes(t) && Inorder(t') == Without(Inorder(t), e)
    ensures Nodes(t') == Nodes(t) - {e}
  {
    InOrderListed(t, e);
    WithoutAscends(Inorder(t), e);
    NodesAllocated(t);
    NodesAllocated(t');
    forall n ensures n in Nodes(t') <==> n in Nodes(t) && n != e {
      InOrderListed(t, n);
      InOrderListed(t', n);
    }
  }

  /** The only child of a node that has at most one. */
  ghost function Only(t: Tree): Tree
    requires t.Fork?
  {
    if t.l.Leaf? then t.r else t.l
  }

  lemma OnlyFits(c: Context, t: Tree, h: nat)
    requires Settled(c, t, h) && t.Fork? && (t.l.Leaf? || t.r.Leaf?)
    ensures t.red ==> Settled(c, Only(t), h)
    ensures !t.red ==> h > 0 && Sinking(c, Only(t), h - 1)
  {
    hide Fitting;
    var o := Only(t);
    if t.red {
      assert Balanced(Leaf, h) && Balanced(o, h);
    } else {
      assert Balanced(Leaf, h - 1) && Balanced(o, h - 1);
    }
  }

  /** Context `q`, relative to a subtree that itself stands in `base`. */
  ghost function Stack(q: Context, base: Context): Context {
    match q
    case Top => base
    case InLeft(up, n, red, r) => InLeft(Stack(up, base), n, red, r)
    case InRight(up, l, n, red) => InRight(Stack(up, base), l, n, red)
  }

  lemma {:induction false} StackPlug(q: Context, base: Context, t: Tree)
    ensures Plug(Stack(q, base), t) == Plug(base, Plug(q, t))
    decreases q
  {
    if !q.Top? { StackPlug(q.up, base, Join(q, t)); }
  }

  lemma {:induction false} StackAround(q: Context, base: Context)
    ensures Around(Stack(q, base)) == Around(q) + Around(base)
    decreases q
  {
    if !q.Top? { StackAround(q.up, base); }
  }

  /** Which node stands at the base does not matter for the balance. */
  lemma {:induction false} StackFitting(q: Context, c: Context, l: Tree, n: Node, n': Node, red: bool, h: nat)
    ensures Fitting(Stack(q, InRight(c, l, n, red)), h) <==> Fitting(Stack(q, InRight(c, l, n', red)), h)
    decreases q
  {
    if !q.Top? { StackFitting(q.up, c, l, n, n', red, if q.red then h else h + 1); }
  }

  /** The successor is nowhere else in the tree, and its parent is the removed node only when it is its child. */
  lemma SuccessorApart(root: Node?, c: Context, t: Tree, q: Context, s: Tree)
    requires t.Fork? && s.Fork? && Plug(q, s) == t.r && Full(root, c, t)
    ensures s.n !in Around(c) && s.n !in Nodes(t.l) && s.n != t.n && s.n !in Nodes(Plug(q, s.r))
    ensures Parent(Stack(q, InRight(c, t.l, t.n, t.red))) == t.n <==> q.Top?
  {
    hide Full;
    var base := InRight(c, t.l, t.n, t.red);
    Focus(root, c, t.l, t.n, t.red, q, s);
    FullApart(root, Stack(q, base), s);
    FullApart(root, c, t);
    StackAround(q, base);
    PlugNodes(q, s);
    PlugNodes(q, s.r);
  }

  lemma FullApart(root: Node?, c: Context, t: Tree)
    requires Full(root, c, t)
    ensures Around(c) !! Nodes(t)
    ensures t.Fork? ==> t.n !in Nodes(t.l) && t.n !in Nodes(t.r) && t.n in Nodes(t)
  {}

  /** With the successor taken out and put in the place of the removed node, the balance is as after any removal. */
  lemma SuccessorFits(c: Context, t: Tree, q: Context, s: Tree, h: nat) returns (h': nat)
    requires Settled(c, t, h) && t.Fork? && s.Fork? && s.l.Leaf? && Plug(q, s) == t.r
    ensures var hole := Stack(q, InRight(c, t.l, s.n, t.red));
      if s.red then Settled(hole, s.r, h') else Sinking(hole, s.r, h')
  {
    hide Fitting, Balanced, RedBlack;
    var mid := Stack(q, InRight(c, t.l, t.n, t.red));
    PlugBalanced(c, t, h);
    StackPlug(q, InRight(c, t.l, t.n, t.red), s);
    assert Plug(InRight(c, t.l, t.n, t.red), t.r) == Plug(c, t);
    h' := Unplug(mid, s);
    OnlyFits(mid, s, h');
    StackFitting(q, c, t.l, t.n, s.n, t.red, h');
    if !s.red { h' := h' - 1; }
  }

  /** From a subtree below the right child of a node to the node, and back. */
  lemma Focus(root: Node?, c: Context, l: Tree, n: Node, red: bool, q: Context, t: Tree)
    ensures Full(root, c, Fork(l, n, red, Plug(q, t))) <==> Full(root, Stack(q, InRight(c, l, n, red)), t)
    ensures Listing(c, Fork(l, n, red, Plug(q, t))) == Listing(Stack(q, InRight(c, l, n, red)), t)
    ensures Around(c) + Nodes(Fork(l, n, red, Plug(q, t))) == Around(Stack(q, InRight(c, l, n, red))) + Nodes(t)
  {
    hide Full, Listing, Nodes, Around;
    var base, whole := InRight(c, l, n, red), Fork(l, n, red, Plug(q, t));
    StackPlug(q, base, t);
    assert Plug(base, Plug(q, t)) == Plug(c, whole);
    Refocus(root, c, whole);
    Refocus(root, Stack(q, base), t);
    PlugInorder(c, whole);
    PlugInorder(Stack(q, base), t);
    PlugNodes(c, whole);
    PlugNodes(Stack(q, base), t);
  }

  /** The subtree at the focus is a red node with balanced black children, in a context that it fits but for its colour. */
  ghost predicate Rising(c: Context, t: Tree, elm: Node, h: nat) {
    t.Fork? && t.n == elm && t.red && Balanced(t, h) && Fitting(c, h)
  }

  /** Nodes and their order are the same from both views. */
  ghost predicate Same(c: Context, t: Tree, c': Context, t': Tree) {
    Around(c') + Nodes(t') == Around(c) + Nodes(t) && Listing(c', t') == Listing(c, t)
  }

  ghost function Blacken(t: Tree): Tree { if t.Fork? then t.(red := false) else t }

  ghost function Depth(c: Context): nat { if c.Top? then 0 else 1 + Depth(c.up) }

  /** The subtree at the parent of the focus. */
  ghost function Join(c: Context, t: Tree): (r: Tree)
    requires !c.Top?
    ensures r.Fork?
  {
    if c.InLeft? then Fork(t, c.n, c.red, c.r) else Fork(c.l, c.n, c.red, t)
  }

  /** One step up. */
  lemma Open(root: Node?, c: Context, t: Tree)
    requires !c.Top?
    ensures Full(root, c, t) <==> Full(root, c.up, Join(c, t))
    ensures Around(c) + Nodes(t) == Around(c.up) + Nodes(Join(c, t))
    ensures Listing(c, t) == Listing(c.up, Join(c, t))
  {
    hide Full, Listing;
    match c {
      case InLeft(up, n, red, r) => UpLeft(root, up, t, n, red, r); ListingUpLeft(up, t, n, red, r);
      case InRight(up, l, n, red) => UpRight(root, up, l, n, red, t); ListingUpRight(up, l, n, red, t);
    }
  }
}
