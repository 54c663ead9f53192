/** The red-black tree as the macros build it: links and colours rewritten in place (include/tree.h:335-675). */
module RedBlackTree {
  import opened RedBlackShape
  import opened RedBlackMemory

  class Head {
    var root: Node?
    ghost var mem: Mem
    ghost var shape: Tree

    /** `mem` records the fields of the nodes it knows. */
    ghost predicate Sync()
      reads this, mem.Keys
    {
      forall n {:trigger mem[n]} :: n in mem.Keys ==>
        n.left == mem[n].left && n.right == mem[n].right && n.parent == mem[n].parent && n.color == mem[n].color
    }

    ghost predicate Valid()
      reads this, mem.Keys
    {
      && Sync() && Focus(mem, root, Top, shape) && mem.Keys == Nodes(shape)
      && RedBlack(shape) && Sorted(InOrder(shape))
    }

    /** The nodes of the tree, in key order. */
    ghost function Contents(): seq<Node>
      reads this
    {
      InOrder(shape)
    }

    // ----- field assignments

    method SetLeft(n: Node, q: Node?)
      requires Sync() && n in mem
      modifies `mem, n`left
      ensures Sync() && mem == old(mem)[n := old(mem)[n].(left := q)]
    {
      n.left := q;
      mem := mem[n := mem[n].(left := q)];
    }

    method SetRight(n: Node, q: Node?)
      requires Sync() && n in mem
      modifies `mem, n`right
      ensures Sync() && mem == old(mem)[n := old(mem)[n].(right := q)]
    {
      n.right := q;
      mem := mem[n := mem[n].(right := q)];
    }

    method SetParent(n: Node, q: Node?)
      requires Sync() && n in mem
      modifies `mem, n`parent
      ensures Sync() && mem == old(mem)[n := old(mem)[n].(parent := q)]
    {
      n.parent := q;
      mem := mem[n := mem[n].(parent := q)];
    }

    method SetColor(n: Node, c: Color)
      requires Sync() && n in mem
      modifies `mem, n`color
      ensures Sync() && mem == Painted(old(mem), n, c)
    {
      n.color := c;
      mem := mem[n := mem[n].(color := c)];
    }

    /** The link from above: the slot of `up` that holds `p`, or the root field, becomes `q`. */
    method Relink(up: Node?, p: Node?, q: Node?)
      requires Sync() && (up != null ==> up in mem)
      modifies `mem, `root, mem.Keys
      ensures Sync() && mem == WithChild(old(mem), up, p, q)
      ensures root == if up == null then q else old(root)
    {
      if up != null {
        if up.left == p {
          SetLeft(up, q);
        } else {
          SetRight(up, q);
        }
      } else {
        root := q;
      }
    }

    // ----- rotations

    method RotateLeftLinks(elm: Node) returns (tmp: Node)
      requires Sync() && LinksRotL.requires(mem, elm)
      requires var y, up := mem[elm].right, mem[elm].parent;
        y != elm && mem[y].left != elm && mem[y].left != y && up != elm && up != y && (up != null ==> up != mem[y].left)
      modifies `mem, `root, mem.Keys
      ensures Sync() && mem == LinksRotL(old(mem), elm) && tmp == old(mem[elm].right)
      ensures root == if old(mem[elm].parent) == null then tmp else old(root)
    {
      tmp := elm.right;
      var inner, up := tmp.left, elm.parent;
      SetRight(elm, inner);
      if inner != null {
        SetParent(inner, elm);
      }
      SetParent(tmp, up);
      Relink(up, elm, tmp);
      SetLeft(tmp, elm);
      SetParent(elm, tmp);
    }

    /** RB_ROTATE_LEFT at the focus: the subtree is rotated in place, everything around it stays. */
    method RotateLeft(elm: Node, ghost k: Ctx, ghost t: Tree) returns (tmp: Node, ghost rotations: nat)
      requires Sync() && Focus(mem, root, k, t) && t.Fork? && t.right.Fork? && elm == t.node
      modifies `mem, `root, mem.Keys
      ensures Sync() && mem.Keys == old(mem.Keys) && rotations == 1
      ensures tmp == t.right.node && Focus(mem, root, k, RotL(t)) && InOrder(RotL(t)) == InOrder(t)
    {
      Around(mem, root, k, t);
      RotLInOrder(t);
      RotateLeftAt(mem, root, k, t, elm, Up(k));
      RotateLeftDistinct(mem, root, k, t, elm, Up(k));
      tmp := RotateLeftLinks(elm);
      rotations := 1;
    }

    method RotateRightLinks(elm: Node) returns (tmp: Node)
      requires Sync() && LinksRotR.requires(mem, elm)
      requires var y, up := mem[elm].left, mem[elm].parent;
        y != elm && mem[y].right != elm && mem[y].right != y && up != elm && up != y && (up != null ==> up != mem[y].right)
      modifies `mem, `root, mem.Keys
      ensures Sync() && mem == LinksRotR(old(mem), elm) && tmp == old(mem[elm].left)
      ensures root == if old(mem[elm].parent) == null then tmp else old(root)
    {
      tmp := elm.left;
      var inner, up := tmp.right, elm.parent;
      SetLeft(elm, inner);
      if inner != null {
        SetParent(inner, elm);
      }
      SetParent(tmp, up);
      Relink(up, elm, tmp);
      SetRight(tmp, elm);
      SetParent(elm, tmp);
    }

    /** RB_ROTATE_RIGHT at the focus: the subtree is rotated in place, everything around it stays. */
    method RotateRight(elm: Node, ghost k: Ctx, ghost t: Tree) returns (tmp: Node, ghost rotations: nat)
      requires Sync() && Focus(mem, root, k, t) && t.Fork? && t.left.Fork? && elm == t.node
      modifies `mem, `root, mem.Keys
      ensures Sync() && mem.Keys == old(mem.Keys) && rotations == 1
      ensures tmp == t.left.node && Focus(mem, root, k, RotR(t)) && InOrder(RotR(t)) == InOrder(t)
    {
      Around(mem, root, k, t);
      RotRInOrder(t);
      RotateRightAt(mem, root, k, t, elm, Up(k));
      RotateRightDistinct(mem, root, k, t, elm, Up(k));
      tmp := RotateRightLinks(elm);
      rotations := 1;
    }

    // ----- colours at the focus

    method ColorNode(n: Node, c: Color, ghost k: Ctx, ghost t: Tree)
      requires Sync() && Focus(mem, root, k, t) && t.Fork? && n == t.node
      modifies `mem, mem.Keys
      ensures Sync() && mem.Keys == old(mem.Keys) && Focus(mem, root, k, t.(color := c))
    {
      Paint(mem, root, k, t, n, Up(k), c);
      SetColor(n, c);
    }

    method ColorLeft(n: Node, c: Color, ghost k: Ctx, ghost t: Tree)
      requires Sync() && Focus(mem, root, k, t) && t.Fork? && t.left.Fork? && n == t.left.node
      modifies `mem, mem.Keys
      ensures Sync() && mem.Keys == old(mem.Keys) && Focus(mem, root, k, t.(left := t.left.(color := c)))
    {
      PaintLeft(mem, root, k, t, c);
      SetColor(n, c);
    }

    method ColorRight(n: Node, c: Color, ghost k: Ctx, ghost t: Tree)
      requires Sync() && Focus(mem, root, k, t) && t.Fork? && t.right.Fork? && n == t.right.node
      modifies `mem, mem.Keys
      ensures Sync() && mem.Keys == old(mem.Keys) && Focus(mem, root, k, t.(right := t.right.(color := c)))
    {
      PaintRight(mem, root, k, t, c);
      SetColor(n, c);
    }

    // ----- insertion

    /** The turn with a red uncle, when the parent is the left child of its own parent. */
    method InsertFlipLeft(tmp: Node, parent: Node, gparent: Node, ghost k: Ctx, ghost g: Tree)
      requires Sync() && Focus(mem, root, k, g) && g.Fork? && g.left.Fork? && g.right.Fork?
      requires gparent == g.node && parent == g.left.node && tmp == g.right.node
      modifies `mem, mem.Keys
      ensures Sync() && mem.Keys == old(mem.Keys) && Focus(mem, root, k, Flipped(g))
    {
      ColorRight(tmp, Black, k, g);
      ghost var g1 := g.(right := g.right.(color := Black));
      ColorLeft(parent, Black, k, g1);
      ghost var g2 := g1.(left := g.left.(color := Black));
      ColorNode(gparent, Red, k, g2);
    }

    /** The turn with a red uncle, when the parent is the right child of its own parent. */
    method InsertFlipRight(tmp: Node, parent: Node, gparent: Node, ghost k: Ctx, ghost g: Tree)
      requires Sync() && Focus(mem, root, k, g) && g.Fork? && g.left.Fork? && g.right.Fork?
      requires gparent == g.node && parent == g.right.node && tmp == g.left.node
      modifies `mem, mem.Keys
      ensures Sync() && mem.Keys == old(mem.Keys) && Focus(mem, root, k, Flipped(g))
    {
      ColorLeft(tmp, Black, k, g);
      ghost var g1 := g.(left := g.left.(color := Black));
      ColorRight(parent, Black, k, g1);
      ghost var g2 := g1.(right := g.right.(color := Black));
      ColorNode(gparent, Red, k, g2);
    }

    /** The rotations of one turn, when the parent is the left child of its own parent. */
    method InsertRotateLeft(elm0: Node, parent0: Node, gparent: Node, ghost k0: Ctx, ghost t0: Tree)
      returns (elm: Node, ghost k: Ctx, ghost t: Tree, ghost rotations: nat)
      requires Sync() && Focus(mem, root, k0, t0) && t0.Fork? && elm0 == t0.node
      requires k0 != Top && k0.up.InLeft? && parent0 == k0.node && gparent == k0.up.node
      modifies `mem, `root, mem.Keys
      ensures Sync() && mem.Keys == old(mem.Keys)
      ensures Focus(mem, root, k, t) && t.Fork? && elm == t.node
      ensures (k, t) == LiftedLeft(k0, t0) && rotations <= 2
    {
      elm := elm0;
      var parent, tmp := parent0, gparent;
      rotations := 0;
      ghost var up, top, p := k0.up, k0.up.up, Close(k0, t0);
      Around(mem, root, k0, t0);
      if parent.right == elm {
        tmp, rotations := RotateLeft(parent, up, p);
        p := RotL(p);
        tmp := parent;
        parent := elm;
        elm := tmp;
      }
      Around(mem, root, up, p);
      ghost var g := Close(up, p);
      ColorLeft(parent, Black, top, g);
      g := g.(left := g.left.(color := Black));
      ColorNode(gparent, Red, top, g);
      g := g.(color := Red);
      ghost var n;
      tmp, n := RotateRight(gparent, top, g);
      rotations := rotations + n;
      t := RotR(g);
      DownLeft(mem, root, top, t);
      k, t := InLeft(Black, parent, t.right, top), t.left;
    }

    /** The rotations of one turn, when the parent is the right child of its own parent. */
    method InsertRotateRight(elm0: Node, parent0: Node, gparent: Node, ghost k0: Ctx, ghost t0: Tree)
      returns (elm: Node, ghost k: Ctx, ghost t: Tree, ghost rotations: nat)
      requires Sync() && Focus(mem, root, k0, t0) && t0.Fork? && elm0 == t0.node
      requires k0 != Top && k0.up.InRight? && parent0 == k0.node && gparent == k0.up.node
      modifies `mem, `root, mem.Keys
      ensures Sync() && mem.Keys == old(mem.Keys)
      ensures Focus(mem, root, k, t) && t.Fork? && elm == t.node
      ensures (k, t) == LiftedRight(k0, t0) && rotations <= 2
    {
      elm := elm0;
      var parent, tmp := parent0, gparent;
      rotations := 0;
      ghost var up, top, p := k0.up, k0.up.up, Close(k0, t0);
      Around(mem, root, k0, t0);
      if parent.left == elm {
        tmp, rotations := RotateRight(parent, up, p);
        p := RotR(p);
        tmp := parent;
        parent := elm;
        elm := tmp;
      }
      Around(mem, root, up, p);
      ghost var g := Close(up, p);
      ColorRight(parent, Black, top, g);
      g := g.(right := g.right.(color := Black));
      ColorNode(gparent, Red, top, g);
      g := g.(color := Red);
      ghost var n;
      tmp, n := RotateLeft(gparent, top, g);
      rotations := rotations + n;
      t := RotL(g);
      DownRight(mem, root, top, t);
      k, t := InRight(t.left, Black, parent, top), t.right;
    }

    /** One turn of the loop, when the parent is the left child of its own parent. */
    method InsertTurnLeft(elm0: Node, parent: Node, gparent: Node, ghost k0: Ctx, ghost t0: Tree, ghost b0: nat)
      returns (elm: Node, ghost k: Ctx, ghost t: Tree, ghost b: nat, ghost rotations: nat)
      requires Sync() && Focus(mem, root, k0, t0) && RedAt(k0, t0, b0) && elm0 == t0.node
      requires k0 != Top && k0.color == Red && k0.up.InLeft? && parent == k0.node && gparent == k0.up.node
      modifies `mem, `root, mem.Keys
      ensures Sync() && mem.Keys == old(mem.Keys)
      ensures Focus(mem, root, k, t) && RedAt(k, t, b) && elm == t.node && Whole(k, t) == Whole(k0, t0)
      ensures Depth(k) < Depth(k0) && (rotations == 0 || (rotations <= 2 && BlackAbove(k)))
    {
      ghost var p := Close(k0, t0);
      ghost var g := Close(k0.up, p);
      Around(mem, root, k0, t0);
      Around(mem, root, k0.up, p);
      Around(mem, root, k0.up.up, g);
      var tmp := gparent.right;
      if tmp != null && tmp.color == Red {
        FlippedBalanced(k0, t0, b0);
        InsertFlipLeft(tmp, parent, gparent, k0.up.up, g);
        elm, k, t, b, rotations := gparent, k0.up.up, Flipped(g), b0 + 1, 0;
      } else {
        LiftedLeftBalanced(k0, t0, b0);
        LiftedLeftWhole(k0, t0);
        elm, k, t, rotations := InsertRotateLeft(elm0, parent, gparent, k0, t0);
        b := b0;
      }
    }

    /** One turn of the loop, when the parent is the right child of its own parent. */
    method InsertTurnRight(elm0: Node, parent: Node, gparent: Node, ghost k0: Ctx, ghost t0: Tree, ghost b0: nat)
      returns (elm: Node, ghost k: Ctx, ghost t: Tree, ghost b: nat, ghost rotations: nat)
      requires Sync() && Focus(mem, root, k0, t0) && RedAt(k0, t0, b0) && elm0 == t0.node
      requires k0 != Top && k0.color == Red && k0.up.InRight? && parent == k0.node && gparent == k0.up.node
      modifies `mem, `root, mem.Keys
      ensures Sync() && mem.Keys == old(mem.Keys)
      ensures Focus(mem, root, k, t) && RedAt(k, t, b) && elm == t.node && Whole(k, t) == Whole(k0, t0)
      ensures Depth(k) < Depth(k0) && (rotations == 0 || (rotations <= 2 && BlackAbove(k)))
    {
      ghost var p := Close(k0, t0);
      ghost var g := Close(k0.up, p);
      Around(mem, root, k0, t0);
      Around(mem, root, k0.up, p);
      Around(mem, root, k0.up.up, g);
      var tmp := gparent.left;
      if tmp != null && tmp.color == Red {
        FlippedBalanced(k0, t0, b0);
        InsertFlipRight(tmp, parent, gparent, k0.up.up, g);
        elm, k, t, b, rotations := gparent, k0.up.up, Flipped(g), b0 + 1, 0;
      } else {
        LiftedRightBalanced(k0, t0, b0);
        LiftedRightWhole(k0, t0);
        elm, k, t, rotations := InsertRotateRight(elm0, parent, gparent, k0, t0);
        b := b0;
      }
    }

    /** Restores the colours after `elm`, red and at the focus, was put under a possibly red parent. */
    method InsertColor(elm0: Node, ghost k0: Ctx, ghost t0: Tree, ghost b0: nat) returns (ghost rotations: nat)
      requires Sync() && Focus(mem, root, k0, t0) && RedAt(k0, t0, b0) && elm0 == t0.node
      modifies `mem, `root, `shape, mem.Keys
      ensures Sync() && mem.Keys == old(mem.Keys)
      ensures Focus(mem, root, Top, shape) && RedBlack(shape) && InOrder(shape) == Whole(k0, t0)
      ensures rotations <= 2
    {
      var elm := elm0;
      ghost var k, t, b := k0, t0, b0;
      rotations := 0;
      Around(mem, root, k, t);
      var parent := elm.parent;
      while parent != null && parent.color == Red
        invariant Sync() && mem.Keys == old(mem.Keys)
        invariant Focus(mem, root, k, t) && RedAt(k, t, b) && elm == t.node && Whole(k, t) == Whole(k0, t0)
        invariant parent == Up(k) && (parent != null ==> parent in mem && mem[parent].color == k.color)
        invariant rotations == 0 || (rotations <= 2 && BlackAbove(k))
        decreases Depth(k)
      {
        Around(mem, root, k, t);
        Around(mem, root, k.up, Close(k, t));
        var gparent := parent.parent;
        if parent == gparent.left {
          elm, k, t, b, rotations := InsertTurnLeft(elm, parent, gparent, k, t, b);
        } else {
          elm, k, t, b, rotations := InsertTurnRight(elm, parent, gparent, k, t, b);
        }
        Around(mem, root, k, t);
        parent := elm.parent;
      }
      BlackenRoot(k, t, b);
    }

    /** The last assignment of the insertion: the root becomes black. */
    method BlackenRoot(ghost k: Ctx, ghost t: Tree, ghost b: nat)
      requires Sync() && Focus(mem, root, k, t) && RedAt(k, t, b) && BlackAbove(k)
      modifies `mem, `shape, mem.Keys
      ensures Sync() && mem.Keys == old(mem.Keys)
      ensures Focus(mem, root, Top, shape) && RedBlack(shape) && InOrder(shape) == Whole(k, t)
    {
      FromTop(mem, root, k, t);
      PlugInOrder(k, t);
      PlugRedTop(k, t, b);
      ghost var all := Plug(k, t);
      ColorNode(root, Black, Top, all);
      shape := all.(color := Black);
    }

    /** The loop of the insertion: down to the node with the key of `elm`, or to the empty slot for it. */
    method FindSlot(elm: Node) returns (tmp: Node?, parent: Node?, comp: int, ghost k: Ctx, ghost t: Tree, ghost b: nat)
      requires Valid()
      ensures Focus(mem, root, k, t) && Searching(k, t, b, elm.key, Contents()) && parent == Up(k)
      ensures tmp == Ptr(t) && (tmp != null ==> tmp.key == elm.key)
      ensures (k.InLeft? ==> comp < 0) && (k.InRight? ==> comp > 0)
    {
      parent := null;
      comp := 0;
      tmp := root;
      k, t := Top, shape;
      b :| Balanced(t, b);
      Around(mem, root, k, t);
      while tmp != null
        invariant Focus(mem, root, k, t) && tmp == Ptr(t) && parent == Up(k)
        invariant Searching(k, t, b, elm.key, Contents())
        invariant (k.InLeft? ==> comp < 0) && (k.InRight? ==> comp > 0)
        decreases t
      {
        Around(mem, root, k, t);
        var c := elm.key - tmp.key;
        if c < 0 {
          DownLeft(mem, root, k, t);
          SearchLeft(k, t, b, elm.key, Contents());
          parent, comp, tmp := tmp, c, tmp.left;
          k, t, b := InLeft(t.color, t.node, t.right, k), t.left, BelowHeight(t, b);
        } else if c > 0 {
          DownRight(mem, root, k, t);
          SearchRight(k, t, b, elm.key, Contents());
          parent, comp, tmp := tmp, c, tmp.right;
          k, t, b := InRight(t.left, t.color, t.node, k), t.right, BelowHeight(t, b);
        } else {
          return;
        }
      }
    }

    method Insert(elm: Node) returns (r: Node?, ghost rotations: nat)
      requires Valid()
      modifies this, mem.Keys, elm
      ensures Valid() && rotations <= 2
      ensures r != null ==> r in old(Contents()) && r.key == elm.key
      ensures r != null ==> mem == old(mem) && root == old(root) && shape == old(shape) && unchanged(elm)
      ensures r == null ==> NoKey(old(Contents()), elm.key) && Inserted(old(Contents()), elm, Contents())
    {
      ghost var k, t, b;
      var tmp, parent, comp;
      tmp, parent, comp, k, t, b := FindSlot(elm);
      if tmp != null {
        assert t.node in Whole(k, t);
        return tmp, 0;
      }
      rotations := Attach(elm, parent, comp, k);
      r := null;
    }

    /** RB_SET, and the new red leaf is linked in where a failed search ended. */
    method LinkNew(elm: Node, parent: Node?, comp: int, ghost k: Ctx)
      requires Sync() && Focus(mem, root, k, Leaf) && elm !in mem
      requires parent == Up(k) && (k.InLeft? ==> comp < 0) && (k.InRight? ==> comp > 0)
      modifies `mem, `root, mem.Keys, elm
      ensures Sync() && mem.Keys == old(mem.Keys) + {elm} && Focus(mem, root, k, Fork(Leaf, Red, elm, Leaf))
    {
      NewLeaf(mem, root, k, elm);
      ghost var m := mem;
      elm.parent, elm.left, elm.right, elm.color := parent, null, null, Red;
      mem := mem[elm := Link(null, null, parent, Red)];
      if parent != null {
        if comp < 0 {
          SetLeft(parent, elm);
        } else {
          SetRight(parent, elm);
        }
      } else {
        root := elm;
      }
      assert mem == LinksNew(m, k, elm);
    }

    method Attach(elm: Node, parent: Node?, comp: int, ghost k: Ctx) returns (ghost rotations: nat)
      requires Sync() && Focus(mem, root, k, Leaf) && mem.Keys == Nodes(shape) && Searching(k, Leaf, 0, elm.key, InOrder(shape))
      requires parent == Up(k) && (k.InLeft? ==> comp < 0) && (k.InRight? ==> comp > 0)
      modifies this, mem.Keys, elm
      ensures Valid() && rotations <= 2
      ensures NoKey(old(Contents()), elm.key) && Inserted(old(Contents()), elm, Contents())
    {
      ghost var s := shape;
      InsertSorted(k, elm, InOrder(s));
      NotListed(s, elm);
      LinkNew(elm, parent, comp, k);
      rotations := InsertColor(elm, k, Fork(Leaf, Red, elm, Leaf), 0);
      NodesInserted(s, elm, shape);
    }

    // ----- deletion

    // --- the hole is a left child

    /** A red sibling `tmp` is rotated above the parent. */
    method RedSiblingLeftUp(parent: Node, tmp0: Node, ghost k: Ctx, ghost t: Tree) returns (tmp: Node?, ghost rotations: nat)
      requires Sync() && Focus(mem, root, k, t) && k.InLeft? && k.right.Fork? && k.right.left.Fork?
      requires parent == k.node && tmp0 == k.right.node
      modifies `mem, `root, mem.Keys
      ensures Sync() && mem.Keys == old(mem.Keys)
      ensures rotations == 1
      ensures Focus(mem, root, RedSiblingLeft(k), t) && tmp == k.right.left.node
    {
      Around(mem, root, k, t);
      ghost var p := Close(k, t);
      ColorRight(tmp0, Black, k.up, p);
      p := p.(right := p.right.(color := Black));
      ColorNode(parent, Red, k.up, p);
      p := p.(color := Red);
      tmp, rotations := RotateLeft(parent, k.up, p);
      DownLeft(mem, root, k.up, RotL(p));
      ghost var s := k.right;
      ghost var k1 := InLeft(Black, s.node, s.right, k.up);
      DownLeft(mem, root, k1, RotL(p).left);
      Around(mem, root, RedSiblingLeft(k), t);
      tmp := parent.right;
    }

    /** A red child of the sibling on the side of the hole is rotated to the far side. */
    method FarRedLeftUp(parent: Node, tmp0: Node, ghost k: Ctx, ghost t: Tree) returns (tmp: Node?, ghost rotations: nat)
      requires Sync() && Focus(mem, root, k, t) && k.InLeft? && k.right.Fork? && (IsBlack(k.right.right) ==> k.right.left.Fork?)
      requires parent == k.node && tmp0 == k.right.node
      modifies `mem, `root, mem.Keys
      ensures Sync() && mem.Keys == old(mem.Keys) && tmp == FarRedLeft(k.right).node
      ensures Focus(mem, root, k.(right := FarRedLeft(k.right)), t) && rotations <= 1
    {
      tmp, rotations := tmp0, 0;
      Around(mem, root, k, t);
      DownRight(mem, root, k.up, Close(k, t));
      ghost var s := k.right;
      ghost var ks := InRight(t, k.color, k.node, k.up);
      Around(mem, root, ks, s);
      if s.right.Fork? {
        DownRight(mem, root, ks, s);
        Around(mem, root, InRight(s.left, s.color, s.node, ks), s.right);
      }
      if tmp.right == null || tmp.right.color == Black {
        var oleft := tmp.left;
        if oleft != null {
          ColorLeft(oleft, Black, ks, s);
          s := s.(left := s.left.(color := Black));
        }
        ColorNode(tmp, Red, ks, s);
        s := s.(color := Red);
        tmp, rotations := RotateRight(tmp, ks, s);
        Around(mem, root, ks, RotR(s));
        tmp := parent.right;
        s := RotR(s);
      }
      Around(mem, root, ks, s);
      DownLeft(mem, root, k.up, Close(ks, s));
    }

    /** The last rotation: the parent comes down into the hole's side and repays the missing node. */
    method RepayLeft(parent: Node, tmp0: Node, ghost k: Ctx, ghost t: Tree) returns (ghost rotations: nat)
      requires Sync() && Focus(mem, root, k, t) && k.InLeft? && k.right.Fork? && (IsBlack(k.right.right) ==> k.right.left.Fork?)
      requires parent == k.node && tmp0 == k.right.node
      modifies `mem, `root, mem.Keys
      ensures Sync() && mem.Keys == old(mem.Keys)
      ensures Focus(mem, root, k.up, RepaidLeft(k, t)) && rotations <= 2
    {
      var tmp;
      ghost var n;
      tmp, n := FarRedLeftUp(parent, tmp0, k, t);
      ghost var s := FarRedLeft(k.right);
      ghost var k1 := k.(right := s);
      Around(mem, root, k1, t);
      ghost var p := Close(k1, t);
      Around(mem, root, k.up, p);
      ColorRight(tmp, parent.color, k.up, p);
      p := p.(right := s.(color := k.color));
      ColorNode(parent, Black, k.up, p);
      p := p.(color := Black);
      BlackenFarLeft(tmp, k.up, p);
      p := p.(right := p.right.(right := Blackened(s.right)));
      tmp, rotations := RotateLeft(parent, k.up, p);
      rotations := rotations + n;
    }

    method BlackenFarLeft(tmp: Node, ghost k: Ctx, ghost p: Tree)
      requires Sync() && Focus(mem, root, k, p) && p.Fork? && p.right.Fork? && tmp == p.right.node
      modifies `mem, mem.Keys
      ensures Sync() && mem.Keys == old(mem.Keys)
      ensures Focus(mem, root, k, p.(right := p.right.(right := Blackened(p.right.right))))
    {
      DownRight(mem, root, k, p);
      ghost var ks := InRight(p.left, p.color, p.node, k);
      ghost var s := p.right;
      Around(mem, root, ks, s);
      if tmp.right != null {
        ColorRight(tmp.right, Black, ks, s);
        s := s.(right := s.right.(color := Black));
      }
      Around(mem, root, ks, s);
    }

    // --- the hole is a right child

    /** A red sibling `tmp` is rotated above the parent. */
    method RedSiblingRightUp(parent: Node, tmp0: Node, ghost k: Ctx, ghost t: Tree) returns (tmp: Node?, ghost rotations: nat)
      requires Sync() && Focus(mem, root, k, t) && k.InRight? && k.left.Fork? && k.left.right.Fork?
      requires parent == k.node && tmp0 == k.left.node
      modifies `mem, `root, mem.Keys
      ensures Sync() && mem.Keys == old(mem.Keys)
      ensures rotations == 1
      ensures Focus(mem, root, RedSiblingRight(k), t) && tmp == k.left.right.node
    {
      Around(mem, root, k, t);
      ghost var p := Close(k, t);
      ColorLeft(tmp0, Black, k.up, p);
      p := p.(left := p.left.(color := Black));
      ColorNode(parent, Red, k.up, p);
      p := p.(color := Red);
      tmp, rotations := RotateRight(parent, k.up, p);
      DownRight(mem, root, k.up, RotR(p));
      ghost var s := k.left;
      ghost var k1 := InRight(s.left, Black, s.node, k.up);
      DownRight(mem, root, k1, RotR(p).right);
      Around(mem, root, RedSiblingRight(k), t);
      tmp := parent.left;
    }

    /** A red child of the sibling on the side of the hole is rotated to the far side. */
    method FarRedRightUp(parent: Node, tmp0: Node, ghost k: Ctx, ghost t: Tree) returns (tmp: Node?, ghost rotations: nat)
      requires Sync() && Focus(mem, root, k, t) && k.InRight? && k.left.Fork? && (IsBlack(k.left.left) ==> k.left.right.Fork?)
      requires parent == k.node && tmp0 == k.left.node
      modifies `mem, `root, mem.Keys
      ensures Sync() && mem.Keys == old(mem.Keys) && tmp == FarRedRight(k.left).node
      ensures Focus(mem, root, k.(left := FarRedRight(k.left)), t) && rotations <= 1
    {
      tmp, rotations := tmp0, 0;
      Around(mem, root, k, t);
      DownLeft(mem, root, k.up, Close(k, t));
      ghost var s := k.left;
      ghost var ks := InLeft(k.color, k.node, t, k.up);
      Around(mem, root, ks, s);
      if s.left.Fork? {
        DownLeft(mem, root, ks, s);
        Around(mem, root, InLeft(s.color, s.node, s.right, ks), s.left);
      }
      if tmp.left == null || tmp.left.color == Black {
        var oright := tmp.right;
        if oright != null {
          ColorRight(oright, Black, ks, s);
          s := s.(right := s.right.(color := Black));
        }
        ColorNode(tmp, Red, ks, s);
        s := s.(color := Red);
        tmp, rotations := RotateLeft(tmp, ks, s);
        Around(mem, root, ks, RotL(s));
        tmp := parent.left;
        s := RotL(s);
      }
      Around(mem, root, ks, s);
      DownRight(mem, root, k.up, Close(ks, s));
    }

    /** The last rotation: the parent comes down into the hole's side and repays the missing node. */
    method RepayRight(parent: Node, tmp0: Node, ghost k: Ctx, ghost t: Tree) returns (ghost rotations: nat)
      requires Sync() && Focus(mem, root, k, t) && k.InRight? && k.left.Fork? && (IsBlack(k.left.left) ==> k.left.right.Fork?)
      requires parent == k.node && tmp0 == k.left.node
      modifies `mem, `root, mem.Keys
      ensures Sync() && mem.Keys == old(mem.Keys)
      ensures Focus(mem, root, k.up, RepaidRight(k, t)) && rotations <= 2
    {
      var tmp;
      ghost var n;
      tmp, n := FarRedRightUp(parent, tmp0, k, t);
      ghost var s := FarRedRight(k.left);
      ghost var k1 := k.(left := s);
      Around(mem, root, k1, t);
      ghost var p := Close(k1, t);
      Around(mem, root, k.up, p);
      ColorLeft(tmp, parent.color, k.up, p);
      p := p.(left := s.(color := k.color));
      ColorNode(parent, Black, k.up, p);
      p := p.(color := Black);
      BlackenFarRight(tmp, k.up, p);
      p := p.(left := p.left.(left := Blackened(s.left)));
      tmp, rotations := RotateRight(parent, k.up, p);
      rotations := rotations + n;
    }

    method BlackenFarRight(tmp: Node, ghost k: Ctx, ghost p: Tree)
      requires Sync() && Focus(mem, root, k, p) && p.Fork? && p.left.Fork? && tmp == p.left.node
      modifies `mem, mem.Keys
      ensures Sync() && mem.Keys == old(mem.Keys)
      ensures Focus(mem, root, k, p.(left := p.left.(left := Blackened(p.left.left))))
    {
      DownLeft(mem, root, k, p);
      ghost var ks := InLeft(p.color, p.node, p.right, k);
      ghost var s := p.left;
      Around(mem, root, ks, s);
      if tmp.left != null {
        ColorLeft(tmp.left, Black, ks, s);
        s := s.(left := s.left.(color := Black));
      }
      Around(mem, root, ks, s);
    }

    /** The colour tests on the children of the sibling `tmp`. */
    method NephewsLeft(tmp: Node, ghost k: Ctx, ghost t: Tree) returns (bothBlack: bool)
      requires Sync() && Focus(mem, root, k, t) && k.InLeft? && k.right.Fork? && tmp == k.right.node
      ensures bothBlack <==> IsBlack(k.right.left) && IsBlack(k.right.right)
    {
      Around(mem, root, k, t);
      DownRight(mem, root, k.up, Close(k, t));
      ghost var ks := InRight(t, k.color, k.node, k.up);
      ghost var s := k.right;
      Around(mem, root, ks, s);
      ChildColors(mem, root, ks, s);
      bothBlack := (tmp.left == null || tmp.left.color == Black) && (tmp.right == null || tmp.right.color == Black);
    }

    /** The first step of a turn: afterwards the sibling of the hole is black. */
    method BlackSiblingLeft(parent: Node, ghost k0: Ctx, ghost t: Tree, ghost b: nat) returns (tmp: Node, ghost k: Ctx, ghost rotations: nat)
      requires Sync() && Focus(mem, root, k0, t) && Short(k0, t, b) && k0.InLeft? && parent == k0.node
      modifies `mem, `root, mem.Keys
      ensures Sync() && mem.Keys == old(mem.Keys)
      ensures Focus(mem, root, k, t) && Short(k, t, b) && Whole(k, t) == Whole(k0, t)
      ensures k.InLeft? && k.right.Fork? && k.right.color == Black && parent == k.node && tmp == k.right.node
      ensures if rotations == 0 then k == k0 else rotations == 1 && k.color == Red && Depth(k.up) == Depth(k0)
    {
      k, rotations := k0, 0;
      Around(mem, root, k, t);
      SiblingExists(k, t, b);
      SiblingColor(mem, root, k, t);
      tmp := parent.right;
      if tmp.color == Red {
        RedSiblingLeftShort(k, t, b);
        tmp, rotations := RedSiblingLeftUp(parent, tmp, k, t);
        k := RedSiblingLeft(k);
      }
    }

    /** The second step, when the shortage moves up. */
    method PassUpLeft(parent: Node, tmp: Node, ghost k: Ctx, ghost t: Tree, ghost b: nat) returns (ghost t': Tree, ghost b': nat)
      requires Sync() && Focus(mem, root, k, t) && Short(k, t, b) && IsBlack(t)
      requires k.InLeft? && k.right.Fork? && k.right.color == Black && parent == k.node && tmp == k.right.node
      requires IsBlack(k.right.left) && IsBlack(k.right.right)
      modifies `mem, mem.Keys
      ensures Sync() && mem.Keys == old(mem.Keys)
      ensures Focus(mem, root, k.up, t') && Short(k.up, t', b') && t'.Fork? && parent == t'.node && t'.color == k.color && Whole(k.up, t') == Whole(k, t)
    {
      BlackNephewsLeft(k, t, b);
      Around(mem, root, k, t);
      ColorRight(tmp, Red, k.up, Close(k, t));
      t', b' := Fork(t, k.color, k.node, k.right.(color := Red)), if k.color == Red then b else b + 1;
    }

    /** The second step, when the shortage is repaid for good. */
    method SettleLeft(parent: Node, tmp: Node, ghost k: Ctx, ghost t: Tree, ghost b: nat) returns (ghost all: Tree, ghost b': nat, ghost rotations: nat)
      requires Sync() && Focus(mem, root, k, t) && Short(k, t, b) && IsBlack(t)
      requires k.InLeft? && k.right.Fork? && k.right.color == Black && parent == k.node && tmp == k.right.node
      requires !(IsBlack(k.right.left) && IsBlack(k.right.right))
      modifies `mem, `root, mem.Keys
      ensures Sync() && mem.Keys == old(mem.Keys)
      ensures Focus(mem, root, Top, all) && root == Ptr(all) && Short(Top, all, b') && InOrder(all) == Whole(k, t) && rotations <= 2
    {
      RepaidLeftBalanced(k, t, b);
      RepaidLeftWhole(k, t);
      ghost var g := RepaidLeft(k, t);
      rotations := RepayLeft(parent, tmp, k, t);
      FromTop(mem, root, k.up, g);
      PlugInOrder(k.up, g);
      all := Plug(k.up, g);
      b' := RedBlackShort(all);
    }

    /** The second step of a turn; `done` tells that it left the loop with `break`. */
    method ResolveLeft(parent0: Node, tmp: Node, ghost k0: Ctx, ghost t0: Tree, ghost b0: nat)
      returns (elm: Node?, parent: Node?, done: bool, ghost k: Ctx, ghost t: Tree, ghost b: nat, ghost rotations: nat)
      requires Sync() && Focus(mem, root, k0, t0) && Short(k0, t0, b0) && IsBlack(t0)
      requires k0.InLeft? && k0.right.Fork? && k0.right.color == Black && parent0 == k0.node && tmp == k0.right.node
      modifies `mem, `root, mem.Keys
      ensures Sync() && mem.Keys == old(mem.Keys)
      ensures Focus(mem, root, k, t) && Short(k, t, b) && elm == Ptr(t) && Whole(k, t) == Whole(k0, t0)
      ensures if done then k == Top && rotations <= 2
        else k == k0.up && parent == Up(k) && rotations == 0 && (k0.color == Red ==> !IsBlack(t))
    {
      parent, done, rotations := parent0, false, 0;
      var bothBlack := NephewsLeft(tmp, k0, t0);
      if bothBlack {
        t, b := PassUpLeft(parent, tmp, k0, t0, b0);
        elm, k := parent, k0.up;
        Around(mem, root, k, t);
        parent := elm.parent;
      } else {
        t, b, rotations := SettleLeft(parent, tmp, k0, t0, b0);
        assert Whole(Top, t) == InOrder(t);
        k, elm, done := Top, root, true;
      }
    }

    /** One turn of the loop for a hole on the left. */
    method RemoveTurnLeft(parent0: Node, ghost k0: Ctx, ghost t0: Tree, ghost b0: nat)
      returns (elm: Node?, parent: Node?, done: bool, ghost k: Ctx, ghost t: Tree, ghost b: nat, ghost rotations: nat)
      requires Sync() && Focus(mem, root, k0, t0) && Short(k0, t0, b0) && IsBlack(t0) && k0.InLeft? && parent0 == k0.node
      modifies `mem, `root, mem.Keys
      ensures Sync() && mem.Keys == old(mem.Keys)
      ensures Focus(mem, root, k, t) && Short(k, t, b) && elm == Ptr(t) && Whole(k, t) == Whole(k0, t0)
      ensures if done then k == Top else parent == Up(k) && (IsBlack(t) ==> Depth(k) < Depth(k0))
      ensures rotations <= 3 && (rotations == 0 || done || !IsBlack(t))
    {
      ghost var n;
      var tmp;
      tmp, k, n := BlackSiblingLeft(parent0, k0, t0, b0);
      elm, parent, done, k, t, b, rotations := ResolveLeft(parent0, tmp, k, t0, b0);
      rotations := rotations + n;
    }

    /** The colour tests on the children of the sibling `tmp`. */
    method NephewsRight(tmp: Node, ghost k: Ctx, ghost t: Tree) returns (bothBlack: bool)
      requires Sync() && Focus(mem, root, k, t) && k.InRight? && k.left.Fork? && tmp == k.left.node
      ensures bothBlack <==> IsBlack(k.left.left) && IsBlack(k.left.right)
    {
      Around(mem, root, k, t);
      DownLeft(mem, root, k.up, Close(k, t));
      ghost var ks := InLeft(k.color, k.node, t, k.up);
      ghost var s := k.left;
      Around(mem, root, ks, s);
      ChildColors(mem, root, ks, s);
      bothBlack := (tmp.left == null || tmp.left.color == Black) && (tmp.right == null || tmp.right.color == Black);
    }

    /** The first step of a turn: afterwards the sibling of the hole is black. */
    method BlackSiblingRight(parent: Node, ghost k0: Ctx, ghost t: Tree, ghost b: nat) returns (tmp: Node, ghost k: Ctx, ghost rotations: nat)
      requires Sync() && Focus(mem, root, k0, t) && Short(k0, t, b) && k0.InRight? && parent == k0.node
      modifies `mem, `root, mem.Keys
      ensures Sync() && mem.Keys == old(mem.Keys)
      ensures Focus(mem, root, k, t) && Short(k, t, b) && Whole(k, t) == Whole(k0, t)
      ensures k.InRight? && k.left.Fork? && k.left.color == Black && parent == k.node && tmp == k.left.node
      ensures if rotations == 0 then k == k0 else rotations == 1 && k.color == Red && Depth(k.up) == Depth(k0)
    {
      k, rotations := k0, 0;
      Around(mem, root, k, t);
      SiblingExists(k, t, b);
      SiblingColor(mem, root, k, t);
      tmp := parent.left;
      if tmp.color == Red {
        RedSiblingRightShort(k, t, b);
        tmp, rotations := RedSiblingRightUp(parent, tmp, k, t);
        k := RedSiblingRight(k);
      }
    }

    /** The second step, when the shortage moves up. */
    method PassUpRight(parent: Node, tmp: Node, ghost k: Ctx, ghost t: Tree, ghost b: nat) returns (ghost t': Tree, ghost b': nat)
      requires Sync() && Focus(mem, root, k, t) && Short(k, t, b) && IsBlack(t)
      requires k.InRight? && k.left.Fork? && k.left.color == Black && parent == k.node && tmp == k.left.node
      requires IsBlack(k.left.left) && IsBlack(k.left.right)
      modifies `mem, mem.Keys
      ensures Sync() && mem.Keys == old(mem.Keys)
      ensures Focus(mem, root, k.up, t') && Short(k.up, t', b') && t'.Fork? && parent == t'.node && t'.color == k.color && Whole(k.up, t') == Whole(k, t)
    {
      BlackNephewsRight(k, t, b);
      Around(mem, root, k, t);
      ColorLeft(tmp, Red, k.up, Close(k, t));
      t', b' := Fork(k.left.(color := Red), k.color, k.node, t), if k.color == Red then b else b + 1;
    }

    /** The second step, when the shortage is repaid for good. */
    method SettleRight(parent: Node, tmp: Node, ghost k: Ctx, ghost t: Tree, ghost b: nat) returns (ghost all: Tree, ghost b': nat, ghost rotations: nat)
      requires Sync() && Focus(mem, root, k, t) && Short(k, t, b) && IsBlack(t)
      requires k.InRight? && k.left.Fork? && k.left.color == Black && parent == k.node && tmp == k.left.node
      requires !(IsBlack(k.left.left) && IsBlack(k.left.right))
      modifies `mem, `root, mem.Keys
      ensures Sync() && mem.Keys == old(mem.Keys)
      ensures Focus(mem, root, Top, all) && root == Ptr(all) && Short(Top, all, b') && InOrder(all) == Whole(k, t) && rotations <= 2
    {
      RepaidRightBalanced(k, t, b);
      RepaidRightWhole(k, t);
      ghost var g := RepaidRight(k, t);
      rotations := RepayRight(parent, tmp, k, t);
      FromTop(mem, root, k.up, g);
      PlugInOrder(k.up, g);
      all := Plug(k.up, g);
      b' := RedBlackShort(all);
    }

    /** The second step of a turn; `done` tells that it left the loop with `break`. */
    method ResolveRight(parent0: Node, tmp: Node, ghost k0: Ctx, ghost t0: Tree, ghost b0: nat)
      returns (elm: Node?, parent: Node?, done: bool, ghost k: Ctx, ghost t: Tree, ghost b: nat, ghost rotations: nat)
      requires Sync() && Focus(mem, root, k0, t0) && Short(k0, t0, b0) && IsBlack(t0)
      requires k0.InRight? && k0.left.Fork? && k0.left.color == Black && parent0 == k0.node && tmp == k0.left.node
      modifies `mem, `root, mem.Keys
      ensures Sync() && mem.Keys == old(mem.Keys)
      ensures Focus(mem, root, k, t) && Short(k, t, b) && elm == Ptr(t) && Whole(k, t) == Whole(k0, t0)
      ensures if done then k == Top && rotations <= 2
        else k == k0.up && parent == Up(k) && rotations == 0 && (k0.color == Red ==> !IsBlack(t))
    {
      parent, done, rotations := parent0, false, 0;
      var bothBlack := NephewsRight(tmp, k0, t0);
      if bothBlack {
        t, b := PassUpRight(parent, tmp, k0, t0, b0);
        elm, k := parent, k0.up;
        Around(mem, root, k, t);
        parent := elm.parent;
      } else {
        t, b, rotations := SettleRight(parent, tmp, k0, t0, b0);
        assert Whole(Top, t) == InOrder(t);
        k, elm, done := Top, root, true;
      }
    }

    /** One turn of the loop for a hole on the right. */
    method RemoveTurnRight(parent0: Node, ghost k0: Ctx, ghost t0: Tree, ghost b0: nat)
      returns (elm: Node?, parent: Node?, done: bool, ghost k: Ctx, ghost t: Tree, ghost b: nat, ghost rotations: nat)
      requires Sync() && Focus(mem, root, k0, t0) && Short(k0, t0, b0) && IsBlack(t0) && k0.InRight? && parent0 == k0.node
      modifies `mem, `root, mem.Keys
      ensures Sync() && mem.Keys == old(mem.Keys)
      ensures Focus(mem, root, k, t) && Short(k, t, b) && elm == Ptr(t) && Whole(k, t) == Whole(k0, t0)
      ensures if done then k == Top else parent == Up(k) && (IsBlack(t) ==> Depth(k) < Depth(k0))
      ensures rotations <= 3 && (rotations == 0 || done || !IsBlack(t))
    {
      ghost var n;
      var tmp;
      tmp, k, n := BlackSiblingRight(parent0, k0, t0, b0);
      elm, parent, done, k, t, b, rotations := ResolveRight(parent0, tmp, k, t0, b0);
      rotations := rotations + n;
    }

    /** Repays the black node missing below the focus. */
    method RemoveColor(parent0: Node?, elm0: Node?, ghost k0: Ctx, ghost t0: Tree, ghost b0: nat) returns (ghost rotations: nat)
      requires Sync() && Focus(mem, root, k0, t0) && Short(k0, t0, b0) && elm0 == Ptr(t0) && parent0 == Up(k0)
      modifies `mem, `root, `shape, mem.Keys
      ensures Sync() && mem.Keys == old(mem.Keys)
      ensures Focus(mem, root, Top, shape) && RedBlack(shape) && InOrder(shape) == Whole(k0, t0)
      ensures rotations <= 3
    {
      var parent, elm, done := parent0, elm0, false;
      ghost var k, t, b := k0, t0, b0;
      rotations := 0;
      Around(mem, root, k, t);
      while !done && (elm == null || elm.color == Black) && elm != root
        invariant Sync() && mem.Keys == old(mem.Keys)
        invariant Focus(mem, root, k, t) && Short(k, t, b) && elm == Ptr(t) && Whole(k, t) == Whole(k0, t0)
        invariant elm != null ==> elm in mem && mem[elm].color == t.color
        invariant if done then k == Top else parent == Up(k)
        invariant k == Top <==> elm == root
        invariant rotations == 0 || (rotations <= 3 && (done || !IsBlack(t)))
        decreases !done, IsBlack(t), Depth(k)
      {
        Around(mem, root, k, t);
        if parent.left == elm {
          elm, parent, done, k, t, b, rotations := RemoveTurnLeft(parent, k, t, b);
        } else {
          elm, parent, done, k, t, b, rotations := RemoveTurnRight(parent, k, t, b);
        }
        Around(mem, root, k, t);
      }
      Blacken(elm, k, t, b);
    }

    /** The last assignment of the deletion. */
    method Blacken(elm: Node?, ghost k: Ctx, ghost t: Tree, ghost b: nat)
      requires Sync() && Focus(mem, root, k, t) && Short(k, t, b) && elm == Ptr(t) && (k == Top || !IsBlack(t))
      modifies `mem, `shape, mem.Keys
      ensures Sync() && mem.Keys == old(mem.Keys)
      ensures Focus(mem, root, Top, shape) && RedBlack(shape) && InOrder(shape) == Whole(k, t)
    {
      ShortRepaid(k, t, b);
      if elm != null {
        ColorNode(elm, Black, k, t);
      }
      FromTop(mem, root, k, Blackened(t));
      PlugInOrder(k, Blackened(t));
      shape := Plug(k, Blackened(t));
    }

    method SpliceLinks(elm: Node, child: Node?, parent: Node?)
      requires Sync() && LinksSplice.requires(mem, parent, elm, child)
      modifies `mem, `root, mem.Keys
      ensures Sync() && mem == LinksSplice(old(mem), parent, elm, child)
      ensures root == if parent == null then child else old(root)
    {
      if child != null {
        SetParent(child, parent);
      }
      Relink(parent, elm, child);
    }

    /** The node at the focus is replaced by its only child, or by nothing. */
    method Splice(elm: Node, child: Node?, parent: Node?, ghost k: Ctx, ghost t: Tree)
      requires Sync() && Focus(mem, root, k, t) && t.Fork? && elm == t.node && parent == Up(k)
      requires if t.left.Leaf? then child == Ptr(t.right) else t.right.Leaf? && child == Ptr(t.left)
      modifies `mem, `root, mem.Keys
      ensures Sync() && mem.Keys == old(mem.Keys)
      ensures var c := if t.left.Leaf? then t.right else t.left; Focus(mem, root, k, c)
    {
      SpliceAt(mem, root, k, t);
      SpliceLinks(elm, child, parent);
    }

    /** All four fields at once. */
    method CopyFields(elm: Node, old0: Node)
      requires Sync() && elm in mem && old0 in mem
      modifies `mem, elm
      ensures Sync() && mem == old(mem)[elm := old(mem)[old0]]
    {
      elm.left, elm.right, elm.parent, elm.color := old0.left, old0.right, old0.parent, old0.color;
      mem := mem[elm := mem[old0]];
    }

    method ReplaceLinks(old0: Node, elm: Node)
      requires Sync() && LinksReplace.requires(mem, old0, elm) && mem[old0].left != null
      requires var l := mem[old0]; old0 != elm && old0 != l.left && old0 != l.right && old0 != l.parent
      modifies `mem, `root, mem.Keys
      ensures Sync() && mem == LinksReplace(old(mem), old0, elm)
      ensures root == if old(mem[old0].parent) == null then elm else old(root)
    {
      var left, right, up := old0.left, old0.right, old0.parent;
      CopyFields(elm, old0);
      Relink(up, old0, elm);
      SetParent(left, elm);
      if right != null {
        SetParent(right, elm);
      }
    }

    /** `elm`, outside the tree, takes over the place of `old0`. */
    method Replace(old0: Node, elm: Node, ghost k: Ctx, ghost t: Tree)
      requires Sync() && Focus(mem, root, k, t) && t.Fork? && old0 == t.node && t.left.Fork?
      requires elm in mem && elm !in Nodes(t) && elm !in CtxNodes(k)
      modifies `mem, `root, mem.Keys
      ensures Sync() && mem.Keys == old(mem.Keys)
      ensures Focus(mem, root, k, t.(node := elm))
    {
      ReplaceAt(mem, root, k, t, elm);
      Around(mem, root, k, t);
      ChildrenDiffer(mem, root, k, t);
      ReplaceLinks(old0, elm);
    }

    /** Down the left links, from the root of a subtree to its least node. */
    method Leftmost(top: Node, ghost k: Ctx, ghost t: Tree) returns (elm: Node)
      requires Sync() && Focus(mem, root, k, t) && t.Fork? && top == t.node
      ensures elm == MinTree(t).node && Focus(mem, root, Spine(k, t), MinTree(t))
    {
      elm := top;
      ghost var k1, t1 := k, t;
      Around(mem, root, k, t);
      while elm.left != null
        invariant Focus(mem, root, k1, t1) && t1.Fork? && elm == t1.node && elm in mem && mem[elm].left == Ptr(t1.left)
        invariant MinTree(t1) == MinTree(t) && Spine(k1, t1) == Spine(k, t)
        decreases t1
      {
        DownLeft(mem, root, k1, t1);
        elm := elm.left;
        k1, t1 := InLeft(t1.color, t1.node, t1.right, k1), t1.left;
        Around(mem, root, k1, t1);
      }
    }

    /** What follows the label `color` in the deletion. */
    method FinishRemove(color: Color, parent: Node?, child: Node?, ghost k: Ctx, ghost c: Tree, ghost b: nat) returns (ghost rotations: nat)
      requires Sync() && Focus(mem, root, k, c) && child == Ptr(c) && parent == Up(k)
      requires if color == Black then Short(k, c, b) else RedBlack(Plug(k, c))
      modifies `mem, `root, `shape, mem.Keys
      ensures Sync() && mem.Keys == old(mem.Keys)
      ensures Focus(mem, root, Top, shape) && RedBlack(shape) && InOrder(shape) == Whole(k, c) && rotations <= 3
    {
      rotations := 0;
      if color == Black {
        rotations := RemoveColor(parent, child, k, c, b);
      } else {
        FromTop(mem, root, k, c);
        PlugInOrder(k, c);
        shape := Plug(k, c);
      }
    }

    /** A node with at most one child leaves the tree. */
    method RemoveOuter(elm: Node, child: Node?, ghost k: Ctx, ghost t: Tree, ghost b: nat) returns (ghost rotations: nat)
      requires Sync() && Focus(mem, root, k, t) && Fits(k, t, b) && t.Fork? && elm == t.node
      requires if t.left.Leaf? then child == Ptr(t.right) else t.right.Leaf? && child == Ptr(t.left)
      modifies `mem, `root, `shape, mem.Keys
      ensures Sync() && mem.Keys == old(mem.Keys)
      ensures Focus(mem, root, Top, shape) && RedBlack(shape) && rotations <= 3
      ensures InOrder(shape) == Before(k) + InOrder(t.left) + InOrder(t.right) + After(k)
    {
      Around(mem, root, k, t);
      var parent, color := elm.parent, elm.color;
      ghost var b' := SpliceFits(k, t, b);
      Splice(elm, child, parent, k, t);
      ghost var c := if t.left.Leaf? then t.right else t.left;
      assert Whole(k, c) == Before(k) + InOrder(t.left) + InOrder(t.right) + After(k);
      rotations := FinishRemove(color, parent, child, k, c, b');
    }

    /** The successor of `old0`, the least node of its right subtree, is unlinked. */
    method TakeSuccessor(old0: Node, ghost k: Ctx, ghost t: Tree) returns (elm: Node, color: Color, parent: Node?, child: Node?)
      requires Sync() && Focus(mem, root, k, t) && t.Fork? && t.right.Fork? && old0 == t.node
      modifies `mem, `root, mem.Keys
      ensures Sync() && mem.Keys == old(mem.Keys)
      ensures var m, t1 := MinTree(t.right), t.(right := DelMin(t.right));
        && Focus(mem, root, k, t1)
        && elm == m.node && elm in mem && elm !in Nodes(t1) && elm !in CtxNodes(k)
        && color == m.color && child == Ptr(m.right) && parent == Up(Spine(InRight(t.left, t.color, old0, k), t.right))
    {
      hide TreeRep, CtxRep, Focus, MinTree, Spine;
      ghost var kr, m := InRight(t.left, t.color, t.node, k), MinTree(t.right);
      ghost var ks := Spine(kr, t.right);
      Around(mem, root, k, t);
      DownRight(mem, root, k, t);
      elm := Leftmost(old0.right, kr, t.right);
      Around(mem, root, ks, m);
      child, parent, color := elm.right, elm.parent, elm.color;
      SpliceAt(mem, root, ks, m);
      SpineNodes(kr, t.right);
      Splice(elm, child, parent, ks, m);
      SpineFocus(mem, root, kr, t.right);
      Around(mem, root, kr, DelMin(t.right));
    }

    /** The successor takes the place of `old0`; the hole it left is returned. */
    method SwapIn(old0: Node, ghost k: Ctx, ghost t: Tree)
      returns (elm: Node, color: Color, parent: Node?, child: Node?)
      requires Sync() && Focus(mem, root, k, t) && t.Fork? && t.left.Fork? && t.right.Fork? && old0 == t.node
      requires Sorted(Whole(k, t))
      modifies `mem, `root, mem.Keys
      ensures Sync() && mem.Keys == old(mem.Keys)
      ensures var k', m := SuccessorHole(k, t), MinTree(t.right);
        Focus(mem, root, k', m.right) && child == Ptr(m.right) && parent == Up(k') && color == m.color
    {
      elm, color, parent, child := TakeSuccessor(old0, k, t);
      SuccessorParent(k, t);
      if parent == old0 {
        parent := elm;
      }
      ghost var t1 := t.(right := DelMin(t.right));
      Replace(old0, elm, k, t1);
      DownRight(mem, root, k, t1.(node := elm));
      SpineFocus(mem, root, InRight(t.left, t.color, elm, k), t.right);
    }

    /** A node with two children leaves the tree. */
    method RemoveInner(old0: Node, ghost k: Ctx, ghost t: Tree, ghost b: nat) returns (ghost rotations: nat)
      requires Sync() && Focus(mem, root, k, t) && Fits(k, t, b) && t.Fork? && t.left.Fork? && t.right.Fork? && old0 == t.node
      requires Sorted(Whole(k, t))
      modifies `mem, `root, `shape, mem.Keys
      ensures Sync() && mem.Keys == old(mem.Keys)
      ensures Focus(mem, root, Top, shape) && RedBlack(shape) && rotations <= 3
      ensures InOrder(shape) == Before(k) + InOrder(t.left) + InOrder(t.right) + After(k)
    {
      ghost var b' := SuccessorFits(k, t, b);
      var elm, color, parent, child := SwapIn(old0, k, t);
      rotations := FinishRemove(color, parent, child, SuccessorHole(k, t), MinTree(t.right).right, b');
    }

    /** The two ways out of the tree. */
    method Unlink(elm: Node, ghost k: Ctx, ghost t: Tree, ghost b: nat) returns (ghost rotations: nat)
      requires Sync() && Focus(mem, root, k, t) && Fits(k, t, b) && t.Fork? && elm == t.node && Sorted(Whole(k, t))
      modifies `mem, `root, `shape, mem.Keys
      ensures Sync() && mem.Keys == old(mem.Keys)
      ensures Focus(mem, root, Top, shape) && RedBlack(shape) && rotations <= 3
      ensures Sorted(InOrder(shape)) && NoKey(InOrder(shape), elm.key) && Removed(Whole(k, t), elm, InOrder(shape))
    {
      RemoveWhole(k, t);
      Around(mem, root, k, t);
      if elm.left == null {
        rotations := RemoveOuter(elm, elm.right, k, t, b);
      } else if elm.right == null {
        rotations := RemoveOuter(elm, elm.left, k, t, b);
      } else {
        rotations := RemoveInner(elm, k, t, b);
      }
    }

    method Remove(elm: Node) returns (old0: Node, ghost rotations: nat)
      requires Valid() && elm in mem
      modifies this, mem.Keys
      ensures Valid() && old0 == elm && Removed(old(Contents()), elm, Contents()) && rotations <= 3
    {
      hide Nodes, TreeRep, CtxRep, Focus, InOrder, Balanced;
      old0 := elm;
      ghost var b0: nat :| Balanced(shape, b0);
      ghost var s := shape;
      ghost var k, t, b := FocusOn(mem, root, Top, shape, b0, elm);
      rotations := Unlink(elm, k, t, b);
      NotListed(shape, elm);
      NodesInserted(shape, elm, s);
      Forget(mem, root, shape, elm);
      mem := mem - {elm};
    }

    // ----- reading

    constructor ()
      ensures Valid() && Contents() == []
    {
      root := null;
      mem := map[];
      shape := Leaf;
      new;
      assert Balanced(Leaf, 0);
    }

    method Find(elm: Node) returns (r: Node?)
      requires Valid()
      ensures r != null ==> r in Contents() && r.key == elm.key
      ensures r == null ==> NoKey(Contents(), elm.key)
    {
      var tmp := root;
      ghost var k, t := Top, shape;
      ghost var b: nat :| Balanced(t, b);
      Around(mem, root, k, t);
      while tmp != null
        invariant Focus(mem, root, k, t) && tmp == Ptr(t) && Searching(k, t, b, elm.key, Contents())
        decreases t
      {
        Around(mem, root, k, t);
        var comp := elm.key - tmp.key;
        if comp < 0 {
          DownLeft(mem, root, k, t);
          SearchLeft(k, t, b, elm.key, Contents());
          tmp := tmp.left;
          k, t, b := InLeft(t.color, t.node, t.right, k), t.left, BelowHeight(t, b);
        } else if comp > 0 {
          DownRight(mem, root, k, t);
          SearchRight(k, t, b, elm.key, Contents());
          tmp := tmp.right;
          k, t, b := InRight(t.left, t.color, t.node, k), t.right, BelowHeight(t, b);
        } else {
          assert t.node in Whole(k, t);
          return tmp;
        }
      }
      InsertSorted(k, elm, Contents());
      r := null;
    }

    method MinMax(val: int) returns (r: Node?)
      requires Valid()
      ensures Contents() == [] ==> r == null
      ensures Contents() != [] ==> r == if val < 0 then Contents()[0] else Contents()[|Contents()| - 1]
    {
      var tmp, parent := root, null;
      ghost var k, t, last := Top, shape, Leaf;
      Around(mem, root, k, t);
      while tmp != null
        invariant Focus(mem, root, k, t) && tmp == Ptr(t)
        invariant t.Fork? ==> shape.Fork? && (if val < 0 then MinTree(t) == MinTree(shape) else MaxTree(t) == MaxTree(shape))
        invariant t.Leaf? ==> parent == if shape.Leaf? then null else if val < 0 then MinTree(shape).node else MaxTree(shape).node
        decreases t
      {
        Around(mem, root, k, t);
        parent := tmp;
        if val < 0 {
          DownLeft(mem, root, k, t);
          tmp := tmp.left;
          k, t := InLeft(t.color, t.node, t.right, k), t.left;
        } else {
          DownRight(mem, root, k, t);
          tmp := tmp.right;
          k, t := InRight(t.left, t.color, t.node, k), t.right;
        }
      }
      if shape.Fork? {
        MinFirst(shape);
        MaxLast(shape);
      }
      r := parent;
    }

    /** The way up: out of the right subtrees, then one step further. */
    method ClimbOut(elm0: Node, ghost k0: Ctx, ghost t0: Tree) returns (elm: Node?)
      requires Sync() && Focus(mem, root, k0, t0) && t0.Fork? && elm0 == t0.node
      ensures elm == NextUp(k0)
    {
      elm := elm0;
      ghost var k, t := k0, t0;
      Around(mem, root, k, t);
      if elm.parent != null && elm == elm.parent.left {
        elm := elm.parent;
      } else {
        while elm.parent != null && elm == elm.parent.right
          invariant Focus(mem, root, k, t) && t.Fork? && elm == t.node && elm in mem && mem[elm].parent == Up(k)
          invariant NextUp(k) == NextUp(k0) && (k != Top ==> k.node in mem)
          invariant k.InLeft? ==> mem[k.node].left == elm && mem[k.node].right != elm
          invariant k.InRight? ==> mem[k.node].right == elm
          decreases Depth(k)
        {
          Around(mem, root, k, t);
          elm := elm.parent;
          k, t := k.up, Close(k, t);
          Around(mem, root, k, t);
        }
        elm := elm.parent;
      }
    }

    method Next(elm0: Node, ghost i: nat) returns (elm: Node?)
      requires Valid() && i < |Contents()| && Contents()[i] == elm0
      ensures elm == Nth(Contents(), i + 1)
    {
      ghost var b0: nat :| Balanced(shape, b0);
      Listed(shape, elm0);
      ghost var k, t, b := FocusOn(mem, root, Top, shape, b0, elm0);
      Around(mem, root, k, t);
      SuccessorNext(k, t, Contents(), i);
      if elm0.right != null {
        DownRight(mem, root, k, t);
        elm := Leftmost(elm0.right, InRight(t.left, t.color, t.node, k), t.right);
      } else {
        elm := ClimbOut(elm0, k, t);
      }
    }

    /** RB_FOREACH: the nodes it hands out, in turn. */
    method Foreach() returns (visited: seq<Node>)
      requires Valid()
      ensures visited == Contents()
    {
      visited := [];
      var x := MinMax(-1);
      while x != null
        invariant |visited| <= |Contents()| && visited == Contents()[..|visited|] && x == Nth(Contents(), |visited|)
        decreases |Contents()| - |visited|
      {
        ghost var i := |visited|;
        visited := visited + [x];
        x := Next(x, i);
      }
    }
  }
}
