/** Red-black trees as values: the shape a head and its nodes describe (include/tree.h:46-54, 292-323). */
module RedBlackShape {

  datatype Color = Black | Red

  /** One element with its RB_ENTRY fields; `key` is what the comparison looks at. */
  class Node {
    var left: Node?
    var right: Node?
    var parent: Node?
    var color: Color
    const key: int

    constructor (key: int)
      ensures this.key == key
    {
      this.key := key;
    }
  }

  /** A subtree, listing the very nodes it is made of. */
  datatype Tree = Leaf | Fork(left: Tree, color: Color, node: Node, right: Tree)

  /** A tree with one hole: everything around the subtree that a fix-up loop is working on. */
  datatype Ctx =
    | Top
    | InLeft(color: Color, node: Node, right: Tree, up: Ctx)
    | InRight(left: Tree, color: Color, node: Node, up: Ctx)

  // ----- contents

  ghost function InOrder(t: Tree): seq<Node> {
    match t
    case Leaf => []
    case Fork(l, _, n, r) => InOrder(l) + [n] + InOrder(r)
  }

  ghost function Before(k: Ctx): seq<Node> {
    match k
    case Top => []
    case InLeft(_, _, _, up) => Before(up)
    case InRight(l, _, n, up) => Before(up) + InOrder(l) + [n]
  }

  ghost function After(k: Ctx): seq<Node> {
    match k
    case Top => []
    case InLeft(_, n, r, up) => [n] + InOrder(r) + After(up)
    case InRight(_, _, _, up) => After(up)
  }

  /** The in-order node sequence of `t` put into the hole of `k`. */
  ghost function Whole(k: Ctx, t: Tree): seq<Node> {
    Before(k) + InOrder(t) + After(k)
  }

  /** `t` together with the node right above it. */
  ghost function Close(k: Ctx, t: Tree): Tree
    requires k != Top
  {
    if k.InLeft? then Fork(t, k.color, k.node, k.right) else Fork(k.left, k.color, k.node, t)
  }

  ghost predicate Sorted(s: seq<Node>) {
    forall i, j :: 0 <= i < j < |s| ==> s[i].key < s[j].key
  }

  lemma CloseWhole(k: Ctx, t: Tree)
    requires k != Top
    ensures Whole(k.up, Close(k, t)) == Whole(k, t)
  {}

  lemma OpenWhole(k: Ctx, t: Tree)
    requires t.Fork?
    ensures Whole(InLeft(t.color, t.node, t.right, k), t.left) == Whole(k, t)
    ensures Whole(InRight(t.left, t.color, t.node, k), t.right) == Whole(k, t)
  {}

  // ----- searching

  ghost predicate KeysBelow(s: seq<Node>, x: int) {
    forall i :: 0 <= i < |s| ==> s[i].key < x
  }

  ghost predicate KeysAbove(s: seq<Node>, x: int) {
    forall i :: 0 <= i < |s| ==> x < s[i].key
  }

  /** What a descending search has ruled out: `x` can only belong into the hole. */
  ghost predicate Narrowed(k: Ctx, x: int) {
    KeysBelow(Before(k), x) && KeysAbove(After(k), x)
  }

  lemma NarrowLeft(k: Ctx, t: Tree, x: int)
    requires Sorted(Whole(k, t)) && Narrowed(k, x) && t.Fork? && x < t.node.key
    ensures Narrowed(InLeft(t.color, t.node, t.right, k), x)
  {
    var s, j := Whole(k, t), |Before(k)| + |InOrder(t.left)|;
    assert s[j] == t.node;
    assert s[j..] == After(InLeft(t.color, t.node, t.right, k));
  }

  lemma NarrowRight(k: Ctx, t: Tree, x: int)
    requires Sorted(Whole(k, t)) && Narrowed(k, x) && t.Fork? && t.node.key < x
    ensures Narrowed(InRight(t.left, t.color, t.node, k), x)
  {
    var s, j := Whole(k, t), |Before(k)| + |InOrder(t.left)|;
    assert s[j] == t.node;
    assert s[..j + 1] == Before(InRight(t.left, t.color, t.node, k));
  }

  ghost predicate NoKey(s: seq<Node>, x: int) {
    forall i :: 0 <= i < |s| ==> s[i].key != x
  }

  /** `s'` is `s` with `n` put in somewhere. */
  ghost predicate Inserted(s: seq<Node>, n: Node, s': seq<Node>) {
    exists i {:trigger s[..i]} :: 0 <= i <= |s| && s' == s[..i] + [n] + s[i..]
  }

  /** `s'` is `s` with `n` taken out. */
  ghost predicate Removed(s: seq<Node>, n: Node, s': seq<Node>) {
    Inserted(s', n, s)
  }

  /** Putting a node where a failed search ended keeps the order. */
  lemma InsertSorted(k: Ctx, n: Node, s: seq<Node>)
    requires Sorted(s) && Whole(k, Leaf) == s && Narrowed(k, n.key)
    ensures var s' := Whole(k, Fork(Leaf, Red, n, Leaf)); Sorted(s') && NoKey(s, n.key) && Inserted(s, n, s')
  {
    var a, c := Before(k), After(k);
    assert s == a + c && s[..|a|] == a && s[|a|..] == c;
    SortedAround(a, n, c);
  }

  lemma SortedAround(a: seq<Node>, n: Node, c: seq<Node>)
    requires Sorted(a + c) && KeysBelow(a, n.key) && KeysAbove(c, n.key)
    ensures Sorted(a + [n] + c) && NoKey(a + c, n.key)
  {
    var s, s' := a + c, a + [n] + c;
    forall i, j | 0 <= i < j < |s'|
      ensures s'[i].key < s'[j].key
    {
      assert i < |a| ==> s'[i] == a[i] == s[i];
      assert j > |a| ==> s'[j] == c[j - |a| - 1] == s[j - 1];
      assert i > |a| ==> s'[i] == s[i - 1];
      assert j < |a| ==> s'[j] == s[j];
    }
  }

  // ----- rotations

  ghost function RotL(t: Tree): Tree
    requires t.Fork? && t.right.Fork?
  {
    Fork(Fork(t.left, t.color, t.node, t.right.left), t.right.color, t.right.node, t.right.right)
  }

  ghost function RotR(t: Tree): Tree
    requires t.Fork? && t.left.Fork?
  {
    Fork(t.left.left, t.left.color, t.left.node, Fork(t.left.right, t.color, t.node, t.right))
  }

  lemma Reassociate(a: seq<Node>, x: Node, b: seq<Node>, y: Node, c: seq<Node>)
    ensures a + [x] + (b + [y] + c) == (a + [x] + b) + [y] + c
  {}

  lemma RotLInOrder(t: Tree)
    requires t.Fork? && t.right.Fork?
    ensures InOrder(RotL(t)) == InOrder(t)
  {
    var Fork(a, _, x, Fork(b, _, y, c)) := t;
    Reassociate(InOrder(a), x, InOrder(b), y, InOrder(c));
    assert InOrder(RotL(t).left) == InOrder(a) + [x] + InOrder(b);
  }

  lemma RotRInOrder(t: Tree)
    requires t.Fork? && t.left.Fork?
    ensures InOrder(RotR(t)) == InOrder(t)
  {
    var Fork(Fork(a, _, x, b), _, y, c) := t;
    Reassociate(InOrder(a), x, InOrder(b), y, InOrder(c));
    assert InOrder(RotR(t).right) == InOrder(b) + [y] + InOrder(c);
  }

  // ----- colours

  ghost predicate IsBlack(t: Tree) {
    t.Leaf? || t.color == Black
  }

  /** No red node has a red child and every path down passes exactly `b` black nodes. */
  ghost predicate Balanced(t: Tree, b: nat) {
    match t
    case Leaf => b == 0
    case Fork(l, Red, _, r) => IsBlack(l) && IsBlack(r) && Balanced(l, b) && Balanced(r, b)
    case Fork(l, Black, _, r) => b > 0 && Balanced(l, b - 1) && Balanced(r, b - 1)
  }

  /** The hole hangs directly below a black node, or is the root. */
  ghost predicate BlackAbove(k: Ctx) {
    k == Top || k.color == Black
  }

  /** Filling the hole with a tree of black height `b` balances everything, if that tree is
      black or the hole has black above it. */
  ghost predicate CtxBalanced(k: Ctx, b: nat) {
    match k
    case Top => true
    case InLeft(Red, _, r, up) =>
      up != Top && up.color == Black && IsBlack(r) && Balanced(r, b) && CtxBalanced(up, b)
    case InLeft(Black, _, r, up) => Balanced(r, b) && CtxBalanced(up, b + 1)
    case InRight(l, Red, _, up) =>
      up != Top && up.color == Black && IsBlack(l) && Balanced(l, b) && CtxBalanced(up, b)
    case InRight(l, Black, _, up) => Balanced(l, b) && CtxBalanced(up, b + 1)
  }

  ghost function Depth(k: Ctx): nat {
    if k == Top then 0 else 1 + Depth(k.up)
  }

  ghost predicate RedBlack(t: Tree) {
    IsBlack(t) && exists b: nat :: Balanced(t, b)
  }

  /** The whole tree around a subtree. */
  ghost function Plug(k: Ctx, t: Tree): Tree {
    if k == Top then t else Plug(k.up, Close(k, t))
  }

  lemma {:induction false} PlugInOrder(k: Ctx, t: Tree)
    ensures InOrder(Plug(k, t)) == Whole(k, t)
  {
    if k != Top {
      CloseWhole(k, t);
      PlugInOrder(k.up, Close(k, t));
    }
  }

  lemma {:induction false} PlugRedBlack(k: Ctx, t: Tree, b: nat)
    requires Balanced(t, b) && CtxBalanced(k, b) && (IsBlack(t) || (k != Top && k.color == Black))
    ensures RedBlack(Plug(k, t))
  {
    if k != Top {
      if k.color == Red {
        PlugRedBlack(k.up, Close(k, t), b);
      } else {
        PlugRedBlack(k.up, Close(k, t), b + 1);
      }
    }
  }

  /** Painting the root black repairs a red root, and changes nothing otherwise. */
  lemma {:induction false} PlugRedTop(k: Ctx, t: Tree, b: nat)
    requires RedAt(k, t, b) && BlackAbove(k)
    ensures Plug(k, t).Fork? && RedBlack(Plug(k, t).(color := Black))
  {
    if k == Top {
      assert Balanced(t.(color := Black), b + 1);
    } else {
      PlugRedBlack(k, t, b);
      PlugFork(k, t);
    }
  }

  lemma {:induction false} PlugFork(k: Ctx, t: Tree)
    requires t.Fork?
    ensures Plug(k, t).Fork?
  {
    if k != Top {
      PlugFork(k.up, Close(k, t));
    }
  }

  /** The state of a search for `x`: the contents `s` are sorted, `x` can only be in `t`, and `t`
      fits its hole. */
  ghost predicate Searching(k: Ctx, t: Tree, b: nat, x: int, s: seq<Node>) {
    && Sorted(s) && Whole(k, t) == s && Narrowed(k, x)
    && Balanced(t, b) && CtxBalanced(k, b) && (IsBlack(t) || (k != Top && k.color == Black))
  }

  ghost function BelowHeight(t: Tree, b: nat): nat
    requires t.Fork? && Balanced(t, b)
  {
    if t.color == Red then b else b - 1
  }

  lemma SearchLeft(k: Ctx, t: Tree, b: nat, x: int, s: seq<Node>)
    requires Searching(k, t, b, x, s) && t.Fork? && x < t.node.key
    ensures Searching(InLeft(t.color, t.node, t.right, k), t.left, BelowHeight(t, b), x, s)
  {
    OpenWhole(k, t);
    NarrowLeft(k, t, x);
  }

  lemma SearchRight(k: Ctx, t: Tree, b: nat, x: int, s: seq<Node>)
    requires Searching(k, t, b, x, s) && t.Fork? && t.node.key < x
    ensures Searching(InRight(t.left, t.color, t.node, k), t.right, BelowHeight(t, b), x, s)
  {
    OpenWhole(k, t);
    NarrowRight(k, t, x);
  }

  // ----- one turn of the insertion loop

  /** The state of the insertion loop: `t` is red, fits its hole in black height, and is the only
      place where a red node may sit under a red one. */
  ghost predicate RedAt(k: Ctx, t: Tree, b: nat) {
    t.Fork? && t.color == Red && Balanced(t, b) && CtxBalanced(k, b)
  }

  ghost function Flipped(g: Tree): Tree
    requires g.Fork? && g.left.Fork? && g.right.Fork?
  {
    Fork(g.left.(color := Black), Red, g.node, g.right.(color := Black))
  }

  /** A red parent and a red uncle: the violation moves two levels up. */
  lemma FlippedBalanced(k: Ctx, t: Tree, b: nat)
    requires RedAt(k, t, b) && k != Top && k.color == Red
    requires var g := Close(k.up, Close(k, t)); g.left.Fork? && g.right.Fork? && g.left.color == Red && g.right.color == Red
    ensures var g := Flipped(Close(k.up, Close(k, t)));
      RedAt(k.up.up, g, b + 1) && Whole(k.up.up, g) == Whole(k, t) && Depth(k.up.up) < Depth(k)
  {
    var g := Close(k.up, Close(k, t));
    assert CtxBalanced(k.up, b) && CtxBalanced(k.up.up, b + 1);
    assert Balanced(g.left.(color := Black), b + 1) && Balanced(g.right.(color := Black), b + 1);
    assert InOrder(g.left.(color := Black)) == InOrder(g.left) && InOrder(g.right.(color := Black)) == InOrder(g.right);
    CloseWhole(k, t);
    CloseWhole(k.up, Close(k, t));
  }

  /** The focus after the rotations of one turn, parent on the left of its own parent. */
  ghost function LiftedLeft(k: Ctx, t: Tree): (Ctx, Tree)
    requires t.Fork? && k != Top && k.up.InLeft?
  {
    var p := if k.InRight? then RotL(Close(k, t)) else Close(k, t);
    var h := RotR(Fork(p.(color := Black), Red, k.up.node, k.up.right));
    (InLeft(Black, h.node, h.right, k.up.up), h.left)
  }

  lemma LiftedLeftBalanced(k: Ctx, t: Tree, b: nat)
    requires RedAt(k, t, b) && k != Top && k.color == Red && k.up.InLeft? && IsBlack(k.up.right)
    ensures var (k', t') := LiftedLeft(k, t);
      RedAt(k', t', b) && k'.color == Black && Depth(k') < Depth(k)
  {
    assert CtxBalanced(k.up, b) && CtxBalanced(k.up.up, b + 1) && Balanced(k.up.right, b);
    var (k', t') := LiftedLeft(k, t);
    assert Balanced(t', b);
    assert Balanced(k'.right, b);
    assert Depth(k) == 2 + Depth(k.up.up);
  }

  lemma LiftedLeftWhole(k: Ctx, t: Tree)
    requires t.Fork? && k != Top && k.up.InLeft?
    ensures var (k', t') := LiftedLeft(k, t); Whole(k', t') == Whole(k, t)
  {
    var p := if k.InRight? then RotL(Close(k, t)) else Close(k, t);
    var g := Fork(p.(color := Black), Red, k.up.node, k.up.right);
    if k.InRight? {
      RotLInOrder(Close(k, t));
    }
    RotRInOrder(g);
    OpenWhole(k.up.up, RotR(g));
    CloseWhole(k.up, p);
    CloseWhole(k, t);
  }

  /** The focus after the rotations of one turn, parent on the right of its own parent. */
  ghost function LiftedRight(k: Ctx, t: Tree): (Ctx, Tree)
    requires t.Fork? && k != Top && k.up.InRight?
  {
    var p := if k.InLeft? then RotR(Close(k, t)) else Close(k, t);
    var h := RotL(Fork(k.up.left, Red, k.up.node, p.(color := Black)));
    (InRight(h.left, Black, h.node, k.up.up), h.right)
  }

  lemma LiftedRightBalanced(k: Ctx, t: Tree, b: nat)
    requires RedAt(k, t, b) && k != Top && k.color == Red && k.up.InRight? && IsBlack(k.up.left)
    ensures var (k', t') := LiftedRight(k, t);
      RedAt(k', t', b) && k'.color == Black && Depth(k') < Depth(k)
  {
    assert CtxBalanced(k.up, b) && CtxBalanced(k.up.up, b + 1) && Balanced(k.up.left, b);
    var (k', t') := LiftedRight(k, t);
    assert Balanced(t', b);
    assert Balanced(k'.left, b);
    assert Depth(k) == 2 + Depth(k.up.up);
  }

  lemma LiftedRightWhole(k: Ctx, t: Tree)
    requires t.Fork? && k != Top && k.up.InRight?
    ensures var (k', t') := LiftedRight(k, t); Whole(k', t') == Whole(k, t)
  {
    var p := if k.InLeft? then RotR(Close(k, t)) else Close(k, t);
    var g := Fork(k.up.left, Red, k.up.node, p.(color := Black));
    if k.InLeft? {
      RotRInOrder(Close(k, t));
    }
    RotLInOrder(g);
    OpenWhole(k.up.up, RotL(g));
    CloseWhole(k.up, p);
    CloseWhole(k, t);
  }

  // ----- one turn of the deletion loop

  ghost function Blackened(t: Tree): Tree {
    if t.Leaf? then t else t.(color := Black)
  }

  /** The state of the deletion loop: the paths through `t` are one black node short, which painting
      a red `t` black would repay. */
  ghost predicate Short(k: Ctx, t: Tree, b: nat) {
    && CtxBalanced(k, b + 1)
    && if IsBlack(t) then Balanced(t, b) else Balanced(t.left, b) && Balanced(t.right, b)
  }

  lemma ShortRepaid(k: Ctx, t: Tree, b: nat)
    requires Short(k, t, b) && (k == Top || !IsBlack(t))
    ensures RedBlack(Plug(k, Blackened(t))) && Whole(k, Blackened(t)) == Whole(k, t)
  {
    if IsBlack(t) {
      assert RedBlack(t);
    } else {
      assert Balanced(Blackened(t), b + 1);
      PlugRedBlack(k, Blackened(t), b + 1);
    }
  }

  /** The sibling of a hole that is one black node short is never empty. */
  lemma SiblingExists(k: Ctx, t: Tree, b: nat)
    requires Short(k, t, b) && k != Top
    ensures if k.InLeft? then k.right.Fork? else k.left.Fork?
  {}

  lemma RedBlackShort(t: Tree) returns (b: nat)
    requires RedBlack(t)
    ensures Short(Top, t, b)
  {
    b :| Balanced(t, b);
  }

  // --- the hole is a left child

  /** A red sibling goes up: the hole gets a black sibling and a red parent. */
  ghost function RedSiblingLeft(k: Ctx): Ctx
    requires k.InLeft? && k.right.Fork?
  {
    var s := k.right;
    InLeft(Red, k.node, s.left, InLeft(Black, s.node, s.right, k.up))
  }

  lemma RedSiblingLeftShort(k: Ctx, t: Tree, b: nat)
    requires Short(k, t, b) && k.InLeft? && k.right.Fork? && k.right.color == Red
    ensures Short(RedSiblingLeft(k), t, b)
    ensures k.color == Black && Whole(RedSiblingLeft(k), t) == Whole(k, t)
    ensures Plug(RedSiblingLeft(k), t) == Plug(k.up, RotL(Fork(t, Red, k.node, k.right.(color := Black))))
  {
    var s := k.right;
    var k' := RedSiblingLeft(k);
    assert CtxBalanced(k.up, b + 2) && Balanced(s.left, b + 1) && Balanced(s.right, b + 1);
    assert CtxBalanced(k'.up, b + 1);
    RotLInOrder(Fork(t, Red, k.node, k.right.(color := Black)));
    CloseWhole(k, t);
    CloseWhole(k', t);
    CloseWhole(k'.up, Close(k', t));
  }

  /** Both children of the black sibling are black: it turns red and the shortage moves up. */
  lemma BlackNephewsLeft(k: Ctx, t: Tree, b: nat)
    requires Short(k, t, b) && IsBlack(t) && k.InLeft? && k.right.Fork? && k.right.color == Black
    requires IsBlack(k.right.left) && IsBlack(k.right.right)
    ensures var t' := Fork(t, k.color, k.node, k.right.(color := Red));
      Short(k.up, t', if k.color == Red then b else b + 1) && Whole(k.up, t') == Whole(k, t)
  {
    assert Balanced(k.right.(color := Red), b);
    assert InOrder(k.right.(color := Red)) == InOrder(k.right);
    CloseWhole(k, t);
  }

  /** The sibling with a red far child. */
  ghost function FarRedLeft(s: Tree): Tree
    requires s.Fork? && (IsBlack(s.right) ==> s.left.Fork?)
  {
    if IsBlack(s.right) then RotR(Fork(s.left.(color := Black), Red, s.node, s.right)) else s
  }

  /** The subtree above the hole after the last rotation. */
  ghost function RepaidLeft(k: Ctx, t: Tree): Tree
    requires k.InLeft? && k.right.Fork? && (IsBlack(k.right.right) ==> k.right.left.Fork?)
  {
    var s := FarRedLeft(k.right);
    RotL(Fork(t, Black, k.node, s.(color := k.color, right := Blackened(s.right))))
  }

  lemma RepaidLeftBalanced(k: Ctx, t: Tree, b: nat)
    requires Short(k, t, b) && IsBlack(t) && k.InLeft? && k.right.Fork? && k.right.color == Black
    requires !(IsBlack(k.right.left) && IsBlack(k.right.right))
    ensures RedBlack(Plug(k.up, RepaidLeft(k, t)))
  {
    var s := FarRedLeft(k.right);
    var g := RepaidLeft(k, t);
    assert Balanced(k.right.left, b) && Balanced(k.right.right, b);
    assert Balanced(s.left, b) && Balanced(Blackened(s.right), b + 1);
    assert Balanced(g.left, b + 1) && Balanced(g.right, b + 1);
    PlugRedBlack(k.up, g, if k.color == Red then b + 1 else b + 2);
  }

  lemma RepaidLeftWhole(k: Ctx, t: Tree)
    requires k.InLeft? && k.right.Fork? && (IsBlack(k.right.right) ==> k.right.left.Fork?)
    ensures Whole(k.up, RepaidLeft(k, t)) == Whole(k, t)
  {
    var s := k.right;
    var s' := FarRedLeft(s);
    if IsBlack(s.right) {
      RotRInOrder(Fork(s.left.(color := Black), Red, s.node, s.right));
      assert InOrder(s.left.(color := Black)) == InOrder(s.left);
    }
    assert InOrder(Blackened(s'.right)) == InOrder(s'.right);
    var s2 := s'.(color := k.color, right := Blackened(s'.right));
    assert InOrder(s2) == InOrder(s') == InOrder(s);
    RotLInOrder(Fork(t, Black, k.node, s2));
    CloseWhole(k, t);
  }

  // --- the hole is a right child

  /** A red sibling goes up: the hole gets a black sibling and a red parent. */
  ghost function RedSiblingRight(k: Ctx): Ctx
    requires k.InRight? && k.left.Fork?
  {
    var s := k.left;
    InRight(s.right, Red, k.node, InRight(s.left, Black, s.node, k.up))
  }

  lemma RedSiblingRightShort(k: Ctx, t: Tree, b: nat)
    requires Short(k, t, b) && k.InRight? && k.left.Fork? && k.left.color == Red
    ensures Short(RedSiblingRight(k), t, b)
    ensures k.color == Black && Whole(RedSiblingRight(k), t) == Whole(k, t)
    ensures Plug(RedSiblingRight(k), t) == Plug(k.up, RotR(Fork(k.left.(color := Black), Red, k.node, t)))
  {
    var s := k.left;
    var k' := RedSiblingRight(k);
    assert CtxBalanced(k.up, b + 2) && Balanced(s.left, b + 1) && Balanced(s.right, b + 1);
    assert CtxBalanced(k'.up, b + 1);
    RotRInOrder(Fork(k.left.(color := Black), Red, k.node, t));
    CloseWhole(k, t);
    CloseWhole(k', t);
    CloseWhole(k'.up, Close(k', t));
  }

  /** Both children of the black sibling are black: it turns red and the shortage moves up. */
  lemma BlackNephewsRight(k: Ctx, t: Tree, b: nat)
    requires Short(k, t, b) && IsBlack(t) && k.InRight? && k.left.Fork? && k.left.color == Black
    requires IsBlack(k.left.left) && IsBlack(k.left.right)
    ensures var t' := Fork(k.left.(color := Red), k.color, k.node, t);
      Short(k.up, t', if k.color == Red then b else b + 1) && Whole(k.up, t') == Whole(k, t)
  {
    assert Balanced(k.left.(color := Red), b);
    assert InOrder(k.left.(color := Red)) == InOrder(k.left);
    CloseWhole(k, t);
  }

  /** The sibling with a red far child. */
  ghost function FarRedRight(s: Tree): Tree
    requires s.Fork? && (IsBlack(s.left) ==> s.right.Fork?)
  {
    if IsBlack(s.left) then RotL(Fork(s.left, Red, s.node, s.right.(color := Black))) else s
  }

  /** The subtree above the hole after the last rotation. */
  ghost function RepaidRight(k: Ctx, t: Tree): Tree
    requires k.InRight? && k.left.Fork? && (IsBlack(k.left.left) ==> k.left.right.Fork?)
  {
    var s := FarRedRight(k.left);
    RotR(Fork(s.(color := k.color, left := Blackened(s.left)), Black, k.node, t))
  }

  lemma RepaidRightBalanced(k: Ctx, t: Tree, b: nat)
    requires Short(k, t, b) && IsBlack(t) && k.InRight? && k.left.Fork? && k.left.color == Black
    requires !(IsBlack(k.left.left) && IsBlack(k.left.right))
    ensures RedBlack(Plug(k.up, RepaidRight(k, t)))
  {
    var s := FarRedRight(k.left);
    var g := RepaidRight(k, t);
    assert Balanced(k.left.left, b) && Balanced(k.left.right, b);
    assert Balanced(s.right, b) && Balanced(Blackened(s.left), b + 1);
    assert Balanced(g.right, b + 1) && Balanced(g.left, b + 1);
    PlugRedBlack(k.up, g, if k.color == Red then b + 1 else b + 2);
  }

  lemma RepaidRightWhole(k: Ctx, t: Tree)
    requires k.InRight? && k.left.Fork? && (IsBlack(k.left.left) ==> k.left.right.Fork?)
    ensures Whole(k.up, RepaidRight(k, t)) == Whole(k, t)
  {
    var s := k.left;
    var s' := FarRedRight(s);
    if IsBlack(s.left) {
      RotLInOrder(Fork(s.left, Red, s.node, s.right.(color := Black)));
      assert InOrder(s.right.(color := Black)) == InOrder(s.right);
    }
    assert InOrder(Blackened(s'.left)) == InOrder(s'.left);
    var s2 := s'.(color := k.color, left := Blackened(s'.left));
    assert InOrder(s2) == InOrder(s') == InOrder(s);
    RotRInOrder(Fork(s2, Black, k.node, t));
    CloseWhole(k, t);
  }

  // ----- taking a node out

  /** The way down the left spine of `t`, starting from `k`. */
  ghost function Spine(k: Ctx, t: Tree): Ctx
    decreases t
  {
    if t.Leaf? || t.left.Leaf? then k else Spine(InLeft(t.color, t.node, t.right, k), t.left)
  }

  /** The subtree at the end of the left spine. */
  ghost function MinTree(t: Tree): Tree
    requires t.Fork?
    ensures MinTree(t).Fork? && MinTree(t).left.Leaf?
  {
    if t.left.Leaf? then t else MinTree(t.left)
  }

  ghost function DelMin(t: Tree): Tree
    requires t.Fork?
  {
    if t.left.Leaf? then t.right else t.(left := DelMin(t.left))
  }

  lemma {:induction false} MinFirst(t: Tree)
    requires t.Fork?
    ensures InOrder(t) == [MinTree(t).node] + InOrder(DelMin(t))
  {
    if t.left.Fork? {
      MinFirst(t.left);
    }
  }

  /** The end of the spine is a node of the spine, unless the spine is empty. */
  lemma {:induction false} SpineUp(k: Ctx, k': Ctx, t: Tree)
    requires t.Fork? && k != Top && k' != Top
    ensures Spine(k, t) != Top && Spine(k', t) != Top
    ensures t.left.Leaf? ==> Spine(k, t) == k
    ensures t.left.Fork? ==> Spine(k, t).InLeft? && Spine(k, t).node in InOrder(t) && Spine(k', t).node == Spine(k, t).node
    decreases t
  {
    if t.left.Fork? {
      var d, d' := InLeft(t.color, t.node, t.right, k), InLeft(t.color, t.node, t.right, k');
      SpineUp(d, d', t.left);
    }
  }

  lemma {:induction false} SpineWhole(k: Ctx, t: Tree, c: Tree)
    requires t.Fork? && c == MinTree(t).right
    ensures Whole(Spine(k, t), MinTree(t)) == Whole(k, t)
    ensures Whole(Spine(k, t), c) == Whole(k, DelMin(t))
    decreases t
  {
    if t.left.Fork? {
      var d := InLeft(t.color, t.node, t.right, k);
      OpenWhole(k, t);
      SpineWhole(d, t.left, c);
      OpenWhole(k, DelMin(t));
    }
  }

  /** Where a node can be taken out: the focus fits, on either side of the colour rules. */
  ghost predicate Fits(k: Ctx, t: Tree, b: nat) {
    Balanced(t, b) && CtxBalanced(k, b) && (IsBlack(t) || (k != Top && k.color == Black))
  }

  lemma FitsDown(k: Ctx, t: Tree, b: nat)
    requires Fits(k, t, b) && t.Fork?
    ensures Fits(InLeft(t.color, t.node, t.right, k), t.left, BelowHeight(t, b))
    ensures Fits(InRight(t.left, t.color, t.node, k), t.right, BelowHeight(t, b))
  {}

  lemma {:induction false} SpineFits(k: Ctx, t: Tree, b: nat) returns (b': nat)
    requires Fits(k, t, b) && t.Fork?
    ensures Fits(Spine(k, t), MinTree(t), b')
    decreases t
  {
    b' := b;
    if t.left.Fork? {
      FitsDown(k, t, b);
      b' := SpineFits(InLeft(t.color, t.node, t.right, k), t.left, BelowHeight(t, b));
    }
  }

  /** After a black node with at most one child is replaced by that child, one black node is short;
      after a red one, nothing is. */
  lemma SpliceFits(k: Ctx, t: Tree, b: nat) returns (b': nat)
    requires Fits(k, t, b) && t.Fork? && (t.left.Leaf? || t.right.Leaf?)
    ensures var c := if t.left.Leaf? then t.right else t.left;
      if t.color == Black then Short(k, c, b') else RedBlack(Plug(k, c))
  {
    var c := if t.left.Leaf? then t.right else t.left;
    b' := BelowHeight(t, b);
    if t.color == Red {
      PlugRedBlack(k, c, b);
    }
  }

  /** The hole the successor of `t.node` leaves behind, once the successor has taken its place. */
  ghost function SuccessorHole(k: Ctx, t: Tree): Ctx
    requires t.Fork? && t.right.Fork?
  {
    Spine(InRight(t.left, t.color, MinTree(t.right).node, k), t.right)
  }

  lemma SuccessorWhole(k: Ctx, t: Tree)
    requires t.Fork? && t.right.Fork?
    ensures Whole(SuccessorHole(k, t), MinTree(t.right).right) == Before(k) + InOrder(t.left) + InOrder(t.right) + After(k)
  {
    MinFirst(t.right);
    var n, d := MinTree(t.right).node, InOrder(DelMin(t.right));
    assert Before(k) + InOrder(t.left) + ([n] + d) + After(k) == Before(k) + InOrder(t.left) + [n] + d + After(k);
    SpineWhole(InRight(t.left, t.color, n, k), t.right, MinTree(t.right).right);
  }

  lemma SuccessorFits(k: Ctx, t: Tree, b: nat) returns (b': nat)
    requires Fits(k, t, b) && t.Fork? && t.right.Fork?
    ensures var k', m := SuccessorHole(k, t), MinTree(t.right);
      && (if m.color == Black then Short(k', m.right, b') else RedBlack(Plug(k', m.right)))
      && Whole(k', m.right) == Before(k) + InOrder(t.left) + InOrder(t.right) + After(k)
  {
    var n := MinTree(t.right).node;
    assert Fits(k, t.(node := n), b);
    FitsDown(k, t.(node := n), b);
    var b1 := SpineFits(InRight(t.left, t.color, n, k), t.right, BelowHeight(t, b));
    b' := SpliceFits(SuccessorHole(k, t), MinTree(t.right), b1);
    SuccessorWhole(k, t);
  }

  /** The parent of the hole is the old parent of the successor, or the successor itself if that was `t.node`. */
  lemma SuccessorParent(k: Ctx, t: Tree)
    requires t.Fork? && t.right.Fork? && Sorted(Whole(k, t))
    ensures var n, up := MinTree(t.right).node, Spine(InRight(t.left, t.color, t.node, k), t.right);
      && up != Top && SuccessorHole(k, t) != Top
      && SuccessorHole(k, t).node == (if up.node == t.node then n else up.node)
  {
    var n := MinTree(t.right).node;
    var kr, kn := InRight(t.left, t.color, t.node, k), InRight(t.left, t.color, n, k);
    SpineUp(kr, kn, t.right);
    if t.right.left.Fork? {
      var x := Spine(kr, t.right).node;
      var i :| 0 <= i < |InOrder(t.right)| && InOrder(t.right)[i] == x;
      var s, j := Whole(k, t), |Before(k)| + |InOrder(t.left)|;
      assert s[j] == t.node && s[j + 1 + i] == x;
    }
  }

  lemma RemovedSorted(a: seq<Node>, n: Node, c: seq<Node>)
    requires Sorted(a + [n] + c)
    ensures Sorted(a + c) && NoKey(a + c, n.key) && Removed(a + [n] + c, n, a + c)
  {
    var s, s' := a + [n] + c, a + c;
    assert s'[..|a|] == a && s'[|a|..] == c;
    assert s[|a|] == n;
    forall i | 0 <= i < |s'|
      ensures s'[i] == s[if i < |a| then i else i + 1]
    {}
  }

  /** The contents around a node whose two subtrees meet when it leaves. */
  lemma RemoveWhole(k: Ctx, t: Tree)
    requires t.Fork? && Sorted(Whole(k, t))
    ensures var s, s' := Whole(k, t), Before(k) + InOrder(t.left) + InOrder(t.right) + After(k);
      Sorted(s') && NoKey(s', t.node.key) && Removed(s, t.node, s')
  {
    var a, c := Before(k) + InOrder(t.left), InOrder(t.right) + After(k);
    assert Whole(k, t) == a + [t.node] + c;
    assert a + c == Before(k) + InOrder(t.left) + InOrder(t.right) + After(k);
    RemovedSorted(a, t.node, c);
  }

  // ----- iteration

  /** The nearest node above the hole that comes after it. */
  ghost function NextUp(k: Ctx): Node? {
    match k
    case Top => null
    case InLeft(_, n, _, _) => n
    case InRight(_, _, _, up) => NextUp(up)
  }

  /** The node after `t.node`, read off the shape. */
  ghost function Successor(k: Ctx, t: Tree): Node?
    requires t.Fork?
  {
    if t.right.Fork? then MinTree(t.right).node else NextUp(k)
  }

  ghost function Nth(s: seq<Node>, i: nat): Node? {
    if i < |s| then s[i] else null
  }

  lemma {:induction false} NextUpFirst(k: Ctx)
    ensures NextUp(k) == Nth(After(k), 0)
  {
    if k.InRight? {
      NextUpFirst(k.up);
    }
  }

  lemma SuccessorNext(k: Ctx, t: Tree, s: seq<Node>, i: nat)
    requires t.Fork? && Sorted(s) && s == Whole(k, t) && i < |s| && s[i] == t.node
    ensures Successor(k, t) == Nth(s, i + 1)
  {
    var a, c := Before(k) + InOrder(t.left), InOrder(t.right) + After(k);
    assert s == a + [t.node] + c;
    assert s[|a|] == t.node;
    assert i == |a|;
    NextUpFirst(k);
    if t.right.Fork? {
      MinFirst(t.right);
    }
    assert Successor(k, t) == Nth(c, 0);
  }

  ghost function MaxTree(t: Tree): Tree
    requires t.Fork?
    ensures MaxTree(t).Fork?
  {
    if t.right.Leaf? then t else MaxTree(t.right)
  }

  lemma {:induction false} MaxLast(t: Tree)
    requires t.Fork?
    ensures InOrder(t) != [] && InOrder(t)[|InOrder(t)| - 1] == MaxTree(t).node
  {
    if t.right.Fork? {
      MaxLast(t.right);
    }
  }

  // ----- height

  ghost function Height(t: Tree): nat {
    if t.Leaf? then 0 else 1 + if Height(t.left) > Height(t.right) then Height(t.left) else Height(t.right)
  }

  ghost function Pow2(n: nat): nat {
    if n == 0 then 1 else 2 * Pow2(n - 1)
  }

  lemma {:induction false} BlackHeightBounds(t: Tree, b: nat)
    requires Balanced(t, b)
    ensures Pow2(b) <= |InOrder(t)| + 1
    ensures Height(t) <= 2 * b + if IsBlack(t) then 0 else 1
  {
    if t.Fork? {
      var b' := if t.color == Red then b else b - 1;
      BlackHeightBounds(t.left, b');
      BlackHeightBounds(t.right, b');
    }
  }

  lemma {:induction false} Pow2Monotone(a: nat, b: nat)
    requires a <= b
    ensures Pow2(a) <= Pow2(b)
  {
    if a < b {
      Pow2Monotone(a, b - 1);
    }
  }

  lemma {:induction false} Pow2Double(b: nat)
    ensures Pow2(2 * b) == Pow2(b) * Pow2(b)
  {
    if b > 0 {
      Pow2Double(b - 1);
      var p := Pow2(b - 1);
      assert Pow2(2 * b) == 2 * Pow2(2 * b - 1) == 4 * Pow2(2 * b - 2);
      assert (2 * p) * (2 * p) == 4 * (p * p);
    }
  }

  lemma SquareMonotone(a: nat, n: nat)
    requires a <= n
    ensures a * a <= n * n
  {
    assert a * a <= a * n;
  }

  /** The height h of a tree of n nodes is at most 2 lg (n + 1), that is 2^h <= (n + 1)^2. */
  lemma HeightBound(t: Tree)
    requires RedBlack(t)
    ensures Pow2(Height(t)) <= (|InOrder(t)| + 1) * (|InOrder(t)| + 1)
  {
    var b: nat :| Balanced(t, b);
    var n := |InOrder(t)| + 1;
    BlackHeightBounds(t, b);
    Pow2Monotone(Height(t), 2 * b);
    Pow2Double(b);
    SquareMonotone(Pow2(b), n);
  }
}
