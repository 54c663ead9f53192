/** The splay tree as the macros build it: links rewritten in place around a header node (include/tree.h:80-288). */
module SplayTree {
  import opened SplayShape
  import opened SplayCost
  import opened SplayMemory

  class Head {
    var root: Node?
    ghost var mem: Mem
    ghost var shape: Tree

    /** `mem` records the fields of the nodes it knows. */
    ghost predicate Sync()
      reads this, mem.Keys
    {
      forall n {:trigger mem[n]} :: n in mem.Keys ==> n.left == mem[n].left && n.right == mem[n].right
    }

    ghost predicate Valid()
      reads this, mem.Keys
    {
      && Sync() && TreeRep(mem, shape, root) && Apart(shape) && mem.Keys == Nodes(shape)
      && Sorted(InOrder(shape))
    }

    /** The nodes of the tree, in key order. */
    ghost function Contents(): seq<Node>
      reads this
    {
      InOrder(shape)
    }

    constructor ()
      ensures Valid() && Contents() == []
    {
      root := null;
      mem := map[];
      shape := Leaf;
    }

    // ----- field assignments

    method SetLeft(n: Node, q: Node?)
      requires Sync() && n in mem
      modifies `mem, n`left
      ensures Sync() && mem == SplayMemory.SetLeft(old(mem), n, q)
    {
      n.left := q;
      mem := mem[n := mem[n].(left := q)];
    }

    method SetRight(n: Node, q: Node?)
      requires Sync() && n in mem
      modifies `mem, n`right
      ensures Sync() && mem == SplayMemory.SetRight(old(mem), n, q)
    {
      n.right := q;
      mem := mem[n := mem[n].(right := q)];
    }

    // ----- the steps of a splay

    /** SPLAY_ROTATE_RIGHT: `tmp` comes up over the root. */
    method RotateRight(tmp: Node, ghost l: Side, ghost t: Tree, ghost r: Side, ghost d: Node)
      requires Sync() && State(mem, l, t, r, d) && t.Fork? && t.left.Fork? && root == t.node && tmp == t.left.node
      modifies `mem, `root, mem.Keys
      ensures Sync() && mem.Keys == old(mem.Keys)
      ensures State(mem, l, RotR(t), r, d) && root == tmp
    {
      RotateRightState(mem, l, t, r, d);
      SetLeft(root, tmp.right);
      SetRight(tmp, root);
      root := tmp;
    }

    /** SPLAY_LINKLEFT: the root joins the right side. */
    method LinkLeft(tmp: Node, ghost l: Side, ghost t: Tree, ghost r: Side, ghost d: Node) returns (right: Node)
      requires Sync() && State(mem, l, t, r, d) && t.Fork? && root == t.node && tmp == Last(r, d)
      modifies `mem, `root, mem.Keys
      ensures Sync() && mem.Keys == old(mem.Keys)
      ensures State(mem, l, t.left, Add(r, t.right, t.node), d) && root == Ptr(t.left) && right == t.node
    {
      LinkLeftState(mem, l, t, r, d);
      SetLeft(tmp, root);
      right := root;
      root := root.left;
    }

    /** The second comparison of a turn, with the rotation it may call for. */
    method ZigLeft(p: Probe, tmp: Node, ghost l: Side, ghost t0: Tree, ghost r: Side, ghost d: Node, ghost s: seq<Node>)
      returns (stop: bool, ghost t: Tree)
      requires Sync() && State(mem, l, t0, r, d) && Splaying(l, t0, r, p, s) && t0.Fork? && root == t0.node && Cmp(p, t0.node.key) < 0
      requires t0.left.Fork? && tmp == t0.left.node
      modifies `mem, `root, mem.Keys
      ensures Sync() && mem.Keys == old(mem.Keys)
      ensures State(mem, l, t, r, d) && Splaying(l, t, r, p, s) && t.Fork? && root == t.node && Cmp(p, t.node.key) < 0
      ensures t == Zigged(t0, p) && (stop <==> t.left.Leaf?)
      ensures Size(t.left) < Size(t0)
    {
      stop, t := false, t0;
      if Cmp(p, tmp.key) < 0 {
        RotateRight(tmp, l, t, r, d);
        RotRSplaying(l, t, r, p, s);
        t := RotR(t);
        StateRoot(mem, l, t, r, d);
        stop := root.left == null;
      }
    }

    /** One turn of the loop when the key lies to the left; `stop` tells that it left the loop with `break`. */
    method TurnLeft(p: Probe, end0: Node, ghost l0: Side, ghost t0: Tree, ghost r0: Side, ghost d: Node, ghost s: seq<Node>)
      returns (stop: bool, end: Node, ghost r: Side, ghost t: Tree)
      requires Sync() && State(mem, l0, t0, r0, d) && Splaying(l0, t0, r0, p, s) && t0.Fork? && root == t0.node && Cmp(p, t0.node.key) < 0
      requires end0 == Last(r0, d)
      modifies `mem, `root, mem.Keys
      ensures Sync() && mem.Keys == old(mem.Keys)
      ensures State(mem, l0, t, r, d) && Splaying(l0, t, r, p, s)
      ensures t.Fork? && root == t.node && end == Last(r, d)
      ensures if stop then Stopped(t, p) else Size(t) < Size(t0)
      ensures stop <==> Onward(t0, p).Leaf?
      ensures if stop then t == Zigged(t0, p) && r == r0 else t == Onward(t0, p) && r == Add(r0, Zigged(t0, p).right, Zigged(t0, p).node)
    {
      end, r := end0, r0;
      StateRoot(mem, l0, t0, r0, d);
      var tmp := root.left;
      if tmp == null {
        stop, t := true, t0;
        return;
      }
      stop, t := ZigLeft(p, tmp, l0, t0, r0, d, s);
      if !stop {
        LinkLeftSplaying(l0, t, r0, p, s);
        end := LinkLeft(end, l0, t, r0, d);
        r, t := Add(r0, t.right, t.node), t.left;
      }
    }

    /** SPLAY_ROTATE_LEFT: `tmp` comes up over the root. */
    method RotateLeft(tmp: Node, ghost l: Side, ghost t: Tree, ghost r: Side, ghost d: Node)
      requires Sync() && State(mem, l, t, r, d) && t.Fork? && t.right.Fork? && root == t.node && tmp == t.right.node
      modifies `mem, `root, mem.Keys
      ensures Sync() && mem.Keys == old(mem.Keys)
      ensures State(mem, l, RotL(t), r, d) && root == tmp
    {
      RotateLeftState(mem, l, t, r, d);
      SetRight(root, tmp.left);
      SetLeft(tmp, root);
      root := tmp;
    }

    /** SPLAY_LINKRIGHT: the root joins the left side. */
    method LinkRight(tmp: Node, ghost l: Side, ghost t: Tree, ghost r: Side, ghost d: Node) returns (left: Node)
      requires Sync() && State(mem, l, t, r, d) && t.Fork? && root == t.node && tmp == Last(l, d)
      modifies `mem, `root, mem.Keys
      ensures Sync() && mem.Keys == old(mem.Keys)
      ensures State(mem, Add(l, t.left, t.node), t.right, r, d) && root == Ptr(t.right) && left == t.node
    {
      LinkRightState(mem, l, t, r, d);
      SetRight(tmp, root);
      left := root;
      root := root.right;
    }

    /** The second comparison of a turn, with the rotation it may call for. */
    method ZigRight(p: Probe, tmp: Node, ghost l: Side, ghost t0: Tree, ghost r: Side, ghost d: Node, ghost s: seq<Node>)
      returns (stop: bool, ghost t: Tree)
      requires Sync() && State(mem, l, t0, r, d) && Splaying(l, t0, r, p, s) && t0.Fork? && root == t0.node && Cmp(p, t0.node.key) > 0
      requires t0.right.Fork? && tmp == t0.right.node
      modifies `mem, `root, mem.Keys
      ensures Sync() && mem.Keys == old(mem.Keys)
      ensures State(mem, l, t, r, d) && Splaying(l, t, r, p, s) && t.Fork? && root == t.node && Cmp(p, t.node.key) > 0
      ensures t == Zigged(t0, p) && (stop <==> t.right.Leaf?)
      ensures Size(t.right) < Size(t0)
    {
      stop, t := false, t0;
      if Cmp(p, tmp.key) > 0 {
        RotateLeft(tmp, l, t, r, d);
        RotLSplaying(l, t, r, p, s);
        t := RotL(t);
        StateRoot(mem, l, t, r, d);
        stop := root.right == null;
      }
    }

    /** One turn of the loop when the key lies to the right; `stop` tells that it left the loop with `break`. */
    method TurnRight(p: Probe, end0: Node, ghost l0: Side, ghost t0: Tree, ghost r0: Side, ghost d: Node, ghost s: seq<Node>)
      returns (stop: bool, end: Node, ghost l: Side, ghost t: Tree)
      requires Sync() && State(mem, l0, t0, r0, d) && Splaying(l0, t0, r0, p, s) && t0.Fork? && root == t0.node && Cmp(p, t0.node.key) > 0
      requires end0 == Last(l0, d)
      modifies `mem, `root, mem.Keys
      ensures Sync() && mem.Keys == old(mem.Keys)
      ensures State(mem, l, t, r0, d) && Splaying(l, t, r0, p, s)
      ensures t.Fork? && root == t.node && end == Last(l, d)
      ensures if stop then Stopped(t, p) else Size(t) < Size(t0)
      ensures stop <==> Onward(t0, p).Leaf?
      ensures if stop then t == Zigged(t0, p) && l == l0 else t == Onward(t0, p) && l == Add(l0, Zigged(t0, p).left, Zigged(t0, p).node)
    {
      end, l := end0, l0;
      StateRoot(mem, l0, t0, r0, d);
      var tmp := root.right;
      if tmp == null {
        stop, t := true, t0;
        return;
      }
      stop, t := ZigRight(p, tmp, l0, t0, r0, d, s);
      if !stop {
        LinkRightSplaying(l0, t, r0, p, s);
        end := LinkRight(end, l0, t, r0, d);
        l, t := Add(l0, t.left, t.node), t.right;
      }
    }

    method AssembleLinks(node: Node, left: Node, right: Node)
      requires Sync() && root != null && root in mem && node in mem && left in mem && right in mem
      modifies `mem, mem.Keys
      ensures Sync() && mem == LinksAssemble(old(mem), root, left, right, node)
    {
      SetRight(left, root.left);
      SetLeft(right, root.right);
      SetLeft(root, node.right);
      SetRight(root, node.left);
    }

    /** SPLAY_ASSEMBLE. */
    method Assemble(node: Node, left: Node, right: Node, ghost l: Side, ghost t: Tree, ghost r: Side)
      requires Sync() && State(mem, l, t, r, node) && t.Fork? && root == t.node && left == Last(l, node) && right == Last(r, node)
      modifies `mem, mem.Keys
      ensures Sync() && mem.Keys == old(mem.Keys)
      ensures State(mem, Empty, Assembled(l, t, r), Empty, node)
    {
      AssembleState(mem, l, t, r, node);
      AssembleLinks(node, left, right);
    }

    /** The loop of _SPLAY and of _SPLAY_MINMAX, which differ only in the comparison. */
    method SplayLoop(p: Probe, node: Node) returns (left: Node, right: Node, ghost l: Side, ghost t: Tree, ghost r: Side, ghost turns: nat)
      requires Sync() && State(mem, Empty, shape, Empty, node) && shape.Fork? && root == shape.node && Sorted(InOrder(shape))
      modifies `mem, `root, mem.Keys
      ensures Sync() && mem.Keys == old(mem.Keys)
      ensures State(mem, l, t, r, node) && left == Last(l, node) && right == Last(r, node)
      ensures Splaying(l, t, r, p, InOrder(shape)) && Stopped(t, p) && root == t.node
      ensures Arrived(l, t, r, p, shape, turns)
    {
      hide State, OnTheWay, Arrived, Zigged, Onward;
      left, right := node, node;
      l, t, r, turns := Empty, shape, Empty, 0;
      var stop := false;
      StartsOut(shape, p);
      while !stop && Cmp(p, root.key) != 0
        invariant Sync() && mem.Keys == old(mem.Keys)
        invariant State(mem, l, t, r, node) && left == Last(l, node) && right == Last(r, node)
        invariant Splaying(l, t, r, p, InOrder(shape)) && t.Fork? && root == t.node
        invariant stop ==> Stopped(t, p)
        invariant if stop then Arrived(l, t, r, p, shape, turns) else OnTheWay(l, t, r, p, shape, turns)
        decreases !stop, Size(t)
      {
        if Cmp(p, root.key) < 0 {
          GoesLeft(l, t, r, p, shape, turns);
          stop, right, r, t := TurnLeft(p, right, l, t, r, node, InOrder(shape));
        } else {
          GoesRight(l, t, r, p, shape, turns);
          stop, left, l, t := TurnRight(p, left, l, t, r, node, InOrder(shape));
        }
        turns := turns + 1;
      }
      if !stop {
        FindsKey(l, t, r, p, shape, turns);
      }
    }

    /** Everything between setting up the header node and forgetting it. */
    method SplayAround(p: Probe, node: Node) returns (ghost turns: nat)
      requires Sync() && State(mem, Empty, shape, Empty, node) && shape.Fork? && root == shape.node && Sorted(InOrder(shape))
      modifies `mem, `root, `shape, mem.Keys
      ensures Sync() && mem.Keys == old(mem.Keys)
      ensures State(mem, Empty, shape, Empty, node) && shape.Fork? && root == shape.node
      ensures InOrder(shape) == old(InOrder(shape)) && Closest(shape, p)
      ensures shape == Splayed(old(shape), p) && turns == Turns(old(shape), p)
    {
      ghost var l, t, r;
      var left, right;
      left, right, l, t, r, turns := SplayLoop(p, node);
      Finish(p, node, left, right, l, t, r);
    }

    method Finish(p: Probe, node: Node, left: Node, right: Node, ghost l: Side, ghost t: Tree, ghost r: Side)
      requires Sync() && State(mem, l, t, r, node) && left == Last(l, node) && right == Last(r, node)
      requires Splaying(l, t, r, p, InOrder(shape)) && Stopped(t, p) && root == t.node
      modifies `mem, `shape, mem.Keys
      ensures Sync() && mem.Keys == old(mem.Keys)
      ensures State(mem, Empty, shape, Empty, node) && shape.Fork? && root == shape.node
      ensures shape == Assembled(l, t, r)
      ensures InOrder(shape) == old(InOrder(shape)) && Closest(shape, p)
    {
      StoppedClosest(l, t, r, p, InOrder(shape));
      Assemble(node, left, right, l, t, r);
      shape := Assembled(l, t, r);
    }

    /** The header node joins the memory. */
    method AddHeader() returns (node: Node)
      requires Valid() && shape.Fork?
      modifies `mem
      ensures Sync() && State(mem, Empty, shape, Empty, node) && root == shape.node
      ensures fresh(node) && node !in old(mem.Keys) && mem.Keys == old(mem.Keys) + {node}
    {
      node := new Node(0);
      Header(mem, shape, root, node);
      mem := mem[node := Link(null, null)];
    }

    /** The header node is forgotten. */
    method Forget(node: Node)
      requires Sync() && State(mem, Empty, shape, Empty, node) && shape.Fork? && root == shape.node && Sorted(InOrder(shape))
      requires mem.Keys == Nodes(shape) + {node} && node !in Nodes(shape)
      modifies `mem
      ensures Valid() && mem.Keys == old(mem.Keys) - {node}
    {
      DropHeader(mem, shape, node);
      mem := mem - {node};
    }

    /** _SPLAY and _SPLAY_MINMAX: the same nodes in the same order, the closest one to the probe at the root. */
    method Splay(p: Probe) returns (ghost turns: nat)
      requires Valid() && shape.Fork?
      modifies `mem, `root, `shape, mem.Keys
      ensures Valid() && mem.Keys == old(mem.Keys)
      ensures Contents() == old(Contents()) && Closest(shape, p)
      ensures shape == Splayed(old(shape), p) && turns == Turns(old(shape), p)
    {
      hide State, Splayed, Turns, Nodes, Apart, Sync, Closest, InOrder;
      var node := AddHeader();
      ghost var s := shape;
      turns := SplayAround(p, node);
      SameNodes(s, shape);
      Forget(node);
    }

    // ----- the operations

    method Find(elm: Node) returns (r: Node?, ghost turns: nat)
      requires Valid()
      modifies `mem, `root, `shape, mem.Keys
      ensures Valid() && Contents() == old(Contents())
      ensures r != null ==> r in Contents() && r.key == elm.key && root == r
      ensures r == null ==> NoKey(Contents(), elm.key)
      ensures (shape, turns) == Outcome(old(shape), Op.Find(elm.key))
    {
      if root == null {
        return null, 0;
      }
      turns := Splay(Key(elm.key));
      ClosestFinds(shape, elm.key);
      if elm.key == root.key {
        assert Contents()[|InOrder(shape.left)|] == root;
        return root, turns;
      }
      r := null;
    }

    method Insert(elm: Node) returns (r: Node?, ghost turns: nat)
      requires Valid()
      modifies this, mem.Keys, elm
      ensures Valid()
      ensures r != null ==> r in old(Contents()) && r.key == elm.key && Contents() == old(Contents())
      ensures r == null ==> NoKey(old(Contents()), elm.key) && Inserted(old(Contents()), elm, Contents())
      ensures (shape, turns) == Outcome(old(shape), Op.Insert(elm))
    {
      turns := 0;
      if root == null {
        elm.left, elm.right := null, null;
        mem := map[elm := Link(null, null)];
        shape := Fork(Leaf, elm, Leaf);
        InsertedAt([], elm, []);
        assert [] + [elm] + [] == [elm] == Contents() && [] + [] == old(Contents());
      } else {
        turns := Splay(Key(elm.key));
        InsertOutcome(old(shape), elm);
        ClosestFinds(shape, elm.key);
        var comp := elm.key - root.key;
        if comp == 0 {
          assert Contents()[|InOrder(shape.left)|] == root;
          return root, turns;
        }
        NotListed(shape, elm);
        if comp < 0 {
          PutLow(elm);
        } else {
          PutHigh(elm);
        }
      }
      root := elm;
      r := null;
    }

    /** The root is split off to the right of the new node. */
    method PutLow(elm: Node)
      requires Valid() && shape.Fork? && elm !in mem && Closest(shape, Key(elm.key)) && elm.key < root.key
      modifies `mem, `shape, mem.Keys, elm
      ensures Sync() && TreeRep(mem, shape, elm) && Apart(shape) && mem.Keys == Nodes(shape)
      ensures Sorted(InOrder(shape)) && Inserted(old(Contents()), elm, InOrder(shape))
      ensures shape == InsertedLow(old(shape), elm)
    {
      InsertedLowIn(shape, elm);
      LowLinks(mem, shape, root, elm);
      elm.left, elm.right := root.left, root;
      mem := mem[elm := Link(mem[root].left, root)];
      SetLeft(root, null);
      shape := InsertedLow(shape, elm);
    }

    method PutHigh(elm: Node)
      requires Valid() && shape.Fork? && elm !in mem && Closest(shape, Key(elm.key)) && root.key < elm.key
      modifies `mem, `shape, mem.Keys, elm
      ensures Sync() && TreeRep(mem, shape, elm) && Apart(shape) && mem.Keys == Nodes(shape)
      ensures Sorted(InOrder(shape)) && Inserted(old(Contents()), elm, InOrder(shape))
      ensures shape == InsertedHigh(old(shape), elm)
    {
      InsertedHighIn(shape, elm);
      HighLinks(mem, shape, root, elm);
      elm.right, elm.left := root.right, root;
      mem := mem[elm := Link(root, mem[root].right)];
      SetRight(root, null);
      shape := InsertedHigh(shape, elm);
    }

    /** The node with the key of `elm` leaves the tree; it is `elm` itself that is returned. */
    method Remove(elm: Node) returns (r: Node?, ghost gone: Node?, ghost turns: nat)
      requires Valid()
      modifies `mem, `root, `shape, mem.Keys
      ensures Valid()
      ensures gone == null ==> r == null && NoKey(old(Contents()), elm.key) && Contents() == old(Contents())
      ensures gone != null ==> r == elm && gone.key == elm.key && Inserted(Contents(), gone, old(Contents()))
      ensures (shape, turns) == Outcome(old(shape), Op.Remove(elm.key))
    {
      hide Splayed, Nodes, Rejoined, Sync, Closest;
      gone := null;
      if root == null {
        return null, null, 0;
      }
      turns := Splay(Key(elm.key));
      RemoveOutcome(old(shape), elm.key);
      ClosestFinds(shape, elm.key);
      if elm.key == root.key {
        gone := root;
        ghost var more := TakeRoot(elm.key);
        return elm, gone, turns + more;
      }
      r := null;
    }

    /** The root leaves; what was left of it is splayed and takes in what was right of it. */
    method TakeRoot(x: int) returns (ghost turns: nat)
      requires Valid() && shape.Fork? && x == root.key
      modifies `mem, `root, `shape, mem.Keys
      ensures Valid() && Inserted(Contents(), old(root), old(Contents()))
      ensures old(shape).left.Leaf? ==> shape == old(shape).right && turns == 0
      ensures old(shape).left.Fork? ==>
        shape == Rejoined(old(shape), x) && turns == Turns(old(shape).left, Key(x))
    {
      Unfold(mem, shape, root, {});
      if root.left == null {
        DropRoot();
        turns := 0;
      } else {
        turns := JoinHalves(x);
      }
    }

    method DropRoot()
      requires Valid() && shape.Fork? && shape.left.Leaf?
      modifies `mem, `root, `shape
      ensures Valid() && Inserted(Contents(), old(root), old(Contents())) && shape == old(shape).right
    {
      ghost var t := shape;
      Unfold(mem, t, root, {});
      PartRep(mem, t.right, mem[root].right);
      RootGone(t);
      root := root.right;
      shape := t.right;
      mem := Part(mem, t.right);
    }

    method JoinHalves(x: int) returns (ghost turns: nat)
      requires Valid() && shape.Fork? && shape.left.Fork? && x == root.key
      modifies `mem, `root, `shape, mem.Keys
      ensures Valid() && Inserted(Contents(), old(root), old(Contents()))
      ensures shape == Rejoined(old(shape), x) && turns == Turns(old(shape).left, Key(x))
    {
      ghost var t, m := shape, mem;
      Unfold(m, t, root, {});
      var tmp := root.right;
      PartRep(m, t.right, tmp);
      turns := SplayLeft(x);
      Joined(t, shape);
      SameNodes(shape, t.left);
      HangRight(tmp, Part(m, t.right), t.right);
    }

    /** The right subtree, set aside, is hung under the new root. */
    method HangRight(tmp: Node?, ghost m: Mem, ghost r: Tree)
      requires Valid() && shape.Fork? && shape.right.Leaf? && Nodes(shape) !! Nodes(r)
      requires TreeRep(m, r, tmp) && Apart(r) && m.Keys == Nodes(r) && Sorted(InOrder(shape.(right := r)))
      requires forall n {:trigger m[n]} :: n in m.Keys ==> n.left == m[n].left && n.right == m[n].right
      modifies `mem, `shape, mem.Keys
      ensures Valid() && shape == old(shape).(right := r)
    {
      JoinLinks(mem, shape, root, m, r, tmp);
      mem := mem + m;
      SetRight(root, tmp);
      shape := shape.(right := r);
    }

    /** The left subtree becomes the tree and is splayed for the key of the root; nothing else is touched. */
    method SplayLeft(x: int) returns (ghost turns: nat)
      requires Valid() && shape.Fork? && shape.left.Fork? && x == root.key
      modifies `mem, `root, `shape, mem.Keys
      ensures Valid() && Contents() == InOrder(old(shape).left) && shape.Fork? && shape.right.Leaf?
      ensures shape == Splayed(old(shape).left, Key(x)) && turns == Turns(old(shape).left, Key(x))
      ensures forall n {:trigger n.left} {:trigger n.right} :: n in old(mem.Keys) && n !in Nodes(old(shape).left) ==> n.left == old(n.left) && n.right == old(n.right)
    {
      ghost var t, m := shape, mem;
      Unfold(m, t, root, {});
      PartRep(m, t.left, m[root].left);
      SortedAround(t);
      root := root.left;
      shape := t.left;
      mem := Part(m, t.left);
      turns := Splay(Key(x));
      ClosestAbove(shape, x);
    }

    // ----- the ends, and iteration

    /** _SPLAY_MIN_MAX, on a tree that is not empty. */
    method MinMax(val: int) returns (r: Node, ghost turns: nat)
      requires Valid() && shape.Fork? && val != 0
      modifies `mem, `root, `shape, mem.Keys
      ensures Valid() && mem.Keys == old(mem.Keys) && Contents() == old(Contents()) && root == r && |Contents()| > 0
      ensures if val < 0 then r == Contents()[0] && r.left == null else r == Contents()[|Contents()| - 1] && r.right == null
      ensures (shape, turns) == Outcome(old(shape), Extreme(val < 0))
    {
      turns := Splay(if val < 0 then Lowest else Highest);
      ClosestEnd(shape);
      Unfold(mem, shape, root, {});
      r := root;
    }

    method Next(elm0: Node, ghost i: nat) returns (elm: Node?)
      requires Valid() && i < |Contents()| && Contents()[i] == elm0
      modifies `mem, `root, `shape, mem.Keys
      ensures Valid() && mem.Keys == old(mem.Keys) && Contents() == old(Contents()) && elm == Nth(Contents(), i + 1)
    {
      ghost var turns := Splay(Key(elm0.key));
      ClosestFinds(shape, elm0.key);
      RootIs(shape, i, elm0);
      RootNext(shape, Contents(), i);
      Unfold(mem, shape, root, {});
      elm := elm0;
      if elm.right != null {
        elm := elm.right;
        ghost var t := shape.right;
        while elm.left != null
          invariant t.Fork? && elm == t.node && TreeRep(mem, t, elm) && MinNode(t) == MinNode(shape.right)
          decreases t
        {
          t := t.left;
          elm := elm.left;
        }
      } else {
        elm := null;
      }
    }

    /** SPLAY_FOREACH: every step rebuilds the tree, and still each node comes once and in order. */
    method Foreach() returns (visited: seq<Node>)
      requires Valid()
      modifies `mem, `root, `shape, mem.Keys
      ensures Valid() && Contents() == old(Contents()) && visited == Contents()
    {
      hide Outcome, Nodes, Apart, Sync;
      visited := [];
      if root == null {
        return;
      }
      ghost var s := Contents();
      var x: Node?;
      ghost var turns;
      x, turns := MinMax(-1);
      while x != null
        invariant Valid() && mem.Keys == old(mem.Keys) && Contents() == s
        invariant |visited| <= |s| && visited == s[..|visited|] && x == Nth(s, |visited|)
        decreases |s| - |visited|
      {
        ghost var i := |visited|;
        assert s[..i + 1] == s[..i] + [x];
        visited := visited + [x];
        x := Next(x, i);
      }
    }
  }
}
