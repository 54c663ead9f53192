/** Splay trees as values, and how the node fields spell them out (include/tree.h:80-110, 202-235). */
module SplayShape {

  class Node {
    var left: Node?
    var right: Node?
    const key: int

    constructor (key: int)
      ensures this.key == key && left == null && right == null
    {
      this.key := key;
      left, right := null, null;
    }
  }

  datatype Tree = Leaf | Fork(left: Tree, node: Node, right: Tree)

  /** A tree under assembly on one side of the middle tree: the last link is still open.
      On the left side `sub` is the left subtree of `node`, on the right side its right subtree. */
  datatype Side = Empty | Add(init: Side, sub: Tree, node: Node)

  // ----- contents

  ghost function InOrder(t: Tree): seq<Node> {
    match t
    case Leaf => []
    case Fork(l, n, r) => InOrder(l) + [n] + InOrder(r)
  }

  ghost function LeftSeq(s: Side): seq<Node> {
    match s
    case Empty => []
    case Add(i, sub, n) => LeftSeq(i) + InOrder(sub) + [n]
  }

  ghost function RightSeq(s: Side): seq<Node> {
    match s
    case Empty => []
    case Add(i, sub, n) => [n] + InOrder(sub) + RightSeq(i)
  }

  ghost function Whole(l: Side, t: Tree, r: Side): seq<Node> {
    LeftSeq(l) + InOrder(t) + RightSeq(r)
  }

  ghost predicate Sorted(s: seq<Node>) {
    forall i, j :: 0 <= i < j < |s| ==> s[i].key < s[j].key
  }

  /** What a splay looks for: a key, or one of the two ends. */
  datatype Probe = Key(x: int) | Lowest | Highest

  /** The sign of the comparison between the probe and the key of a node. */
  function Cmp(p: Probe, k: int): int {
    match p
    case Key(x) => x - k
    case Lowest => -1
    case Highest => 1
  }

  ghost predicate KeysBelow(s: seq<Node>, p: Probe) {
    forall i :: 0 <= i < |s| ==> Cmp(p, s[i].key) > 0
  }

  ghost predicate KeysAbove(s: seq<Node>, p: Probe) {
    forall i :: 0 <= i < |s| ==> Cmp(p, s[i].key) < 0
  }

  ghost predicate NoKey(s: seq<Node>, x: int) {
    forall i :: 0 <= i < |s| ==> s[i].key != x
  }

  // ----- the steps of a splay

  ghost function RotR(t: Tree): Tree
    requires t.Fork? && t.left.Fork?
  {
    Fork(t.left.left, t.left.node, Fork(t.left.right, t.node, t.right))
  }

  ghost function RotL(t: Tree): Tree
    requires t.Fork? && t.right.Fork?
  {
    Fork(Fork(t.left, t.node, t.right.left), t.right.node, t.right.right)
  }

  lemma Reassociate(a: seq<Node>, x: Node, b: seq<Node>, y: Node, c: seq<Node>)
    ensures a + [x] + (b + [y] + c) == (a + [x] + b) + [y] + c
  {}

  lemma RotRInOrder(t: Tree)
    requires t.Fork? && t.left.Fork?
    ensures InOrder(RotR(t)) == InOrder(t)
  {
    var Fork(Fork(a, x, b), y, c) := t;
    Reassociate(InOrder(a), x, InOrder(b), y, InOrder(c));
    assert InOrder(RotR(t).right) == InOrder(b) + [y] + InOrder(c);
  }

  lemma RotLInOrder(t: Tree)
    requires t.Fork? && t.right.Fork?
    ensures InOrder(RotL(t)) == InOrder(t)
  {
    var Fork(a, x, Fork(b, y, c)) := t;
    Reassociate(InOrder(a), x, InOrder(b), y, InOrder(c));
    assert InOrder(RotL(t).left) == InOrder(a) + [x] + InOrder(b);
  }

  lemma LinkLeftWhole(l: Side, t: Tree, r: Side)
    requires t.Fork?
    ensures Whole(l, t.left, Add(r, t.right, t.node)) == Whole(l, t, r)
  {}

  lemma LinkRightWhole(l: Side, t: Tree, r: Side)
    requires t.Fork?
    ensures Whole(Add(l, t.left, t.node), t.right, r) == Whole(l, t, r)
  {}

  ghost function Size(t: Tree): nat {
    if t.Leaf? then 0 else Size(t.left) + 1 + Size(t.right)
  }

  // ----- assembly

  ghost function CloseLeft(s: Side, t: Tree): Tree {
    if s == Empty then t else CloseLeft(s.init, Fork(s.sub, s.node, t))
  }

  ghost function CloseRight(s: Side, t: Tree): Tree {
    if s == Empty then t else CloseRight(s.init, Fork(t, s.node, s.sub))
  }

  ghost function Assembled(l: Side, t: Tree, r: Side): Tree
    requires t.Fork?
  {
    Fork(CloseLeft(l, t.left), t.node, CloseRight(r, t.right))
  }

  lemma {:induction false} CloseLeftInOrder(s: Side, t: Tree)
    ensures InOrder(CloseLeft(s, t)) == LeftSeq(s) + InOrder(t)
  {
    if s != Empty {
      CloseLeftInOrder(s.init, Fork(s.sub, s.node, t));
      assert LeftSeq(s.init) + (InOrder(s.sub) + [s.node] + InOrder(t)) == LeftSeq(s) + InOrder(t);
    }
  }

  lemma {:induction false} CloseRightInOrder(s: Side, t: Tree)
    ensures InOrder(CloseRight(s, t)) == InOrder(t) + RightSeq(s)
  {
    if s != Empty {
      CloseRightInOrder(s.init, Fork(t, s.node, s.sub));
      var a, n, b, c := InOrder(t), s.node, InOrder(s.sub), RightSeq(s.init);
      assert (a + [n] + b) + c == a + ([n] + b + c);
    }
  }

  lemma Regroup(a: seq<Node>, b: seq<Node>, x: Node, c: seq<Node>, d: seq<Node>)
    ensures (a + b) + [x] + (c + d) == a + (b + [x] + c) + d
  {}

  lemma AssembledInOrder(l: Side, t: Tree, r: Side)
    requires t.Fork?
    ensures InOrder(Assembled(l, t, r)) == Whole(l, t, r)
  {
    CloseLeftInOrder(l, t.left);
    CloseRightInOrder(r, t.right);
    var a, b, c, d := LeftSeq(l), InOrder(t.left), InOrder(t.right), RightSeq(r);
    Regroup(a, b, t.node, c, d);
  }

  // ----- searching

  /** The root has the key looked for, or nothing lies between it and the probe. */
  ghost predicate Closest(t: Tree, p: Probe) {
    && t.Fork?
    && (Cmp(p, t.node.key) == 0
        || (Cmp(p, t.node.key) < 0 && KeysBelow(InOrder(t.left), p))
        || (Cmp(p, t.node.key) > 0 && KeysAbove(InOrder(t.right), p)))
  }

  /** The middle tree when the loop is left. */
  ghost predicate Stopped(t: Tree, p: Probe) {
    && t.Fork?
    && (Cmp(p, t.node.key) == 0 || (Cmp(p, t.node.key) < 0 && t.left.Leaf?) || (Cmp(p, t.node.key) > 0 && t.right.Leaf?))
  }

  /** What the loop keeps: the contents, and that `x` belongs between the two sides. */
  ghost predicate Splaying(l: Side, t: Tree, r: Side, p: Probe, s: seq<Node>) {
    Sorted(s) && Whole(l, t, r) == s && KeysBelow(LeftSeq(l), p) && KeysAbove(RightSeq(r), p)
  }

  lemma LinkLeftSplaying(l: Side, t: Tree, r: Side, p: Probe, s: seq<Node>)
    requires Splaying(l, t, r, p, s) && t.Fork? && Cmp(p, t.node.key) < 0
    ensures Splaying(l, t.left, Add(r, t.right, t.node), p, s)
  {
    LinkLeftWhole(l, t, r);
    var j := |LeftSeq(l)| + |InOrder(t.left)|;
    assert s[j] == t.node;
    assert s[j..] == RightSeq(Add(r, t.right, t.node));
  }

  lemma LinkRightSplaying(l: Side, t: Tree, r: Side, p: Probe, s: seq<Node>)
    requires Splaying(l, t, r, p, s) && t.Fork? && Cmp(p, t.node.key) > 0
    ensures Splaying(Add(l, t.left, t.node), t.right, r, p, s)
  {
    LinkRightWhole(l, t, r);
    var j := |LeftSeq(l)| + |InOrder(t.left)|;
    assert s[j] == t.node;
    assert s[..j + 1] == LeftSeq(Add(l, t.left, t.node));
  }

  lemma RotRSplaying(l: Side, t: Tree, r: Side, p: Probe, s: seq<Node>)
    requires Splaying(l, t, r, p, s) && t.Fork? && t.left.Fork?
    ensures Splaying(l, RotR(t), r, p, s) && Size(RotR(t).left) < Size(t)
  {
    RotRInOrder(t);
  }

  lemma RotLSplaying(l: Side, t: Tree, r: Side, p: Probe, s: seq<Node>)
    requires Splaying(l, t, r, p, s) && t.Fork? && t.right.Fork?
    ensures Splaying(l, RotL(t), r, p, s) && Size(RotL(t).right) < Size(t)
  {
    RotLInOrder(t);
  }

  lemma StoppedClosest(l: Side, t: Tree, r: Side, p: Probe, s: seq<Node>)
    requires Splaying(l, t, r, p, s) && Stopped(t, p)
    ensures InOrder(Assembled(l, t, r)) == s && Closest(Assembled(l, t, r), p)
  {
    AssembledInOrder(l, t, r);
    CloseLeftInOrder(l, t.left);
    CloseRightInOrder(r, t.right);
  }

  /** A key that is in the tree is at the root after a splay for it, and only then. */
  lemma ClosestFinds(t: Tree, x: int)
    requires Closest(t, Key(x)) && Sorted(InOrder(t))
    ensures t.node.key == x <==> !NoKey(InOrder(t), x)
  {
    var s, j := InOrder(t), |InOrder(t.left)|;
    assert s[j] == t.node;
    if t.node.key != x {
      SortedAround(t);
      forall i | 0 <= i < |s|
        ensures s[i].key != x
      {
        assert s[i] == if i < j then InOrder(t.left)[i] else if i == j then t.node else InOrder(t.right)[i - j - 1];
      }
    }
  }

  lemma SortedAround(t: Tree)
    requires t.Fork? && Sorted(InOrder(t))
    ensures KeysBelow(InOrder(t.left), Key(t.node.key)) && KeysAbove(InOrder(t.right), Key(t.node.key))
    ensures Sorted(InOrder(t.left)) && Sorted(InOrder(t.right))
  {
    var s, j := InOrder(t), |InOrder(t.left)|;
    assert s[j] == t.node && s[..j] == InOrder(t.left) && s[j + 1..] == InOrder(t.right);
  }

  /** After a splay for an end of the order, the root is that end. */
  lemma ClosestEnd(t: Tree)
    requires Sorted(InOrder(t))
    ensures Closest(t, Lowest) ==> InOrder(t)[0] == t.node && t.left.Leaf?
    ensures Closest(t, Highest) ==> InOrder(t)[|InOrder(t)| - 1] == t.node && t.right.Leaf?
  {
    if Closest(t, Lowest) {
      Ends(InOrder(t.left));
    }
    if Closest(t, Highest) {
      Ends(InOrder(t.right));
    }
  }

  lemma Ends(s: seq<Node>)
    ensures KeysBelow(s, Lowest) ==> s == []
    ensures KeysAbove(s, Highest) ==> s == []
  {
    if s != [] {
      var k := s[0].key;
      assert Cmp(Lowest, k) == -1 && Cmp(Highest, k) == 1;
    }
  }

  // ----- contents after insertion and removal

  /** `s'` is `s` with `n` put in somewhere. */
  ghost predicate Inserted(s: seq<Node>, n: Node, s': seq<Node>) {
    exists i {:trigger s[..i]} :: 0 <= i <= |s| && s' == s[..i] + [n] + s[i..]
  }

  /** Splitting below the root: `n` goes between the left subtree and the root. */
  ghost function InsertedLow(t: Tree, n: Node): Tree
    requires t.Fork?
  {
    Fork(t.left, n, t.(left := Leaf))
  }

  ghost function InsertedHigh(t: Tree, n: Node): Tree
    requires t.Fork?
  {
    Fork(t.(right := Leaf), n, t.right)
  }

  lemma InsertedAt(a: seq<Node>, n: Node, c: seq<Node>)
    requires Sorted(a + c) && KeysBelow(a, Key(n.key)) && KeysAbove(c, Key(n.key))
    ensures Sorted(a + [n] + c) && Inserted(a + c, n, a + [n] + c)
  {
    var s, s' := a + c, a + [n] + c;
    assert s[..|a|] == a && s[|a|..] == c;
    forall i, j | 0 <= i < j < |s'|
      ensures s'[i].key < s'[j].key
    {
      assert i < |a| ==> s'[i] == a[i] == s[i];
      assert j > |a| ==> s'[j] == c[j - |a| - 1] == s[j - 1];
      assert i > |a| ==> s'[i] == s[i - 1];
      assert j < |a| ==> s'[j] == s[j];
    }
  }

  lemma Associate(a: seq<Node>, x: seq<Node>, c: seq<Node>)
    ensures a + (x + c) == (a + x) + c && [] + x + c == x + c && a + x + [] == a + x
  {}

  lemma InsertedLowSeqs(t: Tree, n: Node)
    requires t.Fork?
    ensures var a, c := InOrder(t.left), [t.node] + InOrder(t.right);
      InOrder(t) == a + c && InOrder(InsertedLow(t, n)) == a + [n] + c
  {
    Associate(InOrder(t.left), [t.node], InOrder(t.right));
    var h := t.(left := Leaf);
    assert InOrder(h) == InOrder(Leaf) + [t.node] + InOrder(t.right);
  }

  lemma InsertedHighSeqs(t: Tree, n: Node)
    requires t.Fork?
    ensures var a, c := InOrder(t.left) + [t.node], InOrder(t.right);
      InOrder(t) == a + c && InOrder(InsertedHigh(t, n)) == a + [n] + c
  {
    Associate(InOrder(t.left), [t.node], InOrder(t.right));
    var h := t.(right := Leaf);
    assert InOrder(h) == InOrder(t.left) + [t.node] + InOrder(Leaf);
  }

  lemma InsertedLowIn(t: Tree, n: Node)
    requires Closest(t, Key(n.key)) && n.key < t.node.key && Sorted(InOrder(t))
    ensures var t' := InsertedLow(t, n); Sorted(InOrder(t')) && Inserted(InOrder(t), n, InOrder(t'))
  {
    InsertedLowSeqs(t, n);
    SortedAround(t);
    InsertedAt(InOrder(t.left), n, [t.node] + InOrder(t.right));
  }

  lemma InsertedHighIn(t: Tree, n: Node)
    requires Closest(t, Key(n.key)) && t.node.key < n.key && Sorted(InOrder(t))
    ensures var t' := InsertedHigh(t, n); Sorted(InOrder(t')) && Inserted(InOrder(t), n, InOrder(t'))
  {
    InsertedHighSeqs(t, n);
    SortedAround(t);
    InsertedAt(InOrder(t.left) + [t.node], n, InOrder(t.right));
  }

  /** Splaying the left subtree for a key above all of it leaves its root without a right child. */
  lemma ClosestAbove(t: Tree, x: int)
    requires Closest(t, Key(x)) && KeysBelow(InOrder(t), Key(x))
    ensures t.right.Leaf?
  {
    AroundRoot(t);
  }

  lemma AroundRoot(t: Tree)
    requires t.Fork?
    ensures var s, j := InOrder(t), |InOrder(t.left)|;
      s[j] == t.node && s[j + 1..] == InOrder(t.right) && (t.right.Fork? ==> s[j + 1] == InOrder(t.right)[0])
  {}

  lemma Joined(t: Tree, l: Tree)
    requires t.Fork? && Sorted(InOrder(t)) && l.Fork? && l.right.Leaf? && InOrder(l) == InOrder(t.left)
    ensures var t' := l.(right := t.right); Sorted(InOrder(t')) && Inserted(InOrder(t'), t.node, InOrder(t))
  {
    var a, c := InOrder(t.left), InOrder(t.right);
    assert InOrder(l.(right := t.right)) == a + c;
    TakenOut(a, t.node, c);
  }

  lemma RootGone(t: Tree)
    requires t.Fork? && t.left.Leaf? && Sorted(InOrder(t))
    ensures Sorted(InOrder(t.right)) && Inserted(InOrder(t.right), t.node, InOrder(t))
  {
    var c := InOrder(t.right);
    assert InOrder(t) == [] + [t.node] + c;
    TakenOut([], t.node, c);
    assert [] + c == c;
  }

  lemma TakenOut(a: seq<Node>, n: Node, c: seq<Node>)
    requires Sorted(a + [n] + c)
    ensures Sorted(a + c) && Inserted(a + c, n, a + [n] + c)
  {
    var s, s' := a + [n] + c, a + c;
    assert s'[..|a|] == a && s'[|a|..] == c;
    forall i | 0 <= i < |s'|
      ensures s'[i] == s[if i < |a| then i else i + 1]
    {}
  }

  // ----- iteration

  ghost function Nth(s: seq<Node>, i: nat): Node? {
    if i < |s| then s[i] else null
  }

  ghost function MinNode(t: Tree): Node?
    ensures MinNode(t) == Nth(InOrder(t), 0)
  {
    if t.Leaf? then null else if t.left.Leaf? then t.node else MinNode(t.left)
  }

  lemma RootIs(t: Tree, i: nat, n: Node)
    requires t.Fork? && Sorted(InOrder(t)) && i < |InOrder(t)| && InOrder(t)[i] == n
    requires !NoKey(InOrder(t), n.key) ==> t.node.key == n.key
    ensures t.node == n
  {
    AroundRoot(t);
  }

  /** The node after the root, read off the shape. */
  lemma RootNext(t: Tree, s: seq<Node>, i: nat)
    requires t.Fork? && s == InOrder(t) && Sorted(s) && i < |s| && s[i] == t.node
    ensures MinNode(t.right) == Nth(s, i + 1)
  {
    assert s[|InOrder(t.left)|] == t.node;
    assert i == |InOrder(t.left)|;
    assert s[i + 1..] == InOrder(t.right);
  }
}
