/** The fields of the nodes during a splay: a middle tree and two half-built sides (include/tree.h:81-110, 202-235). */
module SplayMemory {
  import opened SplayShape

  datatype Link = Link(left: Node?, right: Node?)
  type Mem = map<Node, Link>

  ghost function Nodes(t: Tree): set<Node> {
    match t
    case Leaf => {}
    case Fork(l, n, r) => Nodes(l) + {n} + Nodes(r)
  }

  ghost function SideNodes(s: Side): set<Node> {
    match s
    case Empty => {}
    case Add(i, sub, n) => SideNodes(i) + Nodes(sub) + {n}
  }

  ghost predicate Apart(t: Tree) {
    match t
    case Leaf => true
    case Fork(l, n, r) =>
      n !in Nodes(l) && n !in Nodes(r) && Nodes(l) !! Nodes(r) && Apart(l) && Apart(r)
  }

  ghost predicate SideApart(s: Side) {
    match s
    case Empty => true
    case Add(i, sub, n) =>
      && n !in SideNodes(i) && n !in Nodes(sub) && SideNodes(i) !! Nodes(sub)
      && SideApart(i) && Apart(sub)
  }

  /** All the nodes in play are different nodes. */
  ghost predicate Separate(l: Side, t: Tree, r: Side)
    decreases l, r
  {
    if l != Empty then Separate(l.init, Fork(l.sub, l.node, t), r)
    else if r != Empty then Separate(Empty, Fork(t, r.node, r.sub), r.init)
    else Apart(t)
  }

  lemma {:induction false} SeparateParts(l: Side, t: Tree, r: Side)
    ensures Separate(l, t, r) <==>
      && Apart(t) && SideApart(l) && SideApart(r)
      && Nodes(t) !! SideNodes(l) && Nodes(t) !! SideNodes(r) && SideNodes(l) !! SideNodes(r)
    decreases l, r
  {
    if l != Empty {
      SeparateParts(l.init, Fork(l.sub, l.node, t), r);
    } else if r != Empty {
      SeparateParts(Empty, Fork(t, r.node, r.sub), r.init);
    }
  }

  ghost function AllNodes(l: Side, t: Tree, r: Side): set<Node> {
    SideNodes(l) + Nodes(t) + SideNodes(r)
  }

  // ----- what the fields say

  ghost predicate TreeRep(m: Mem, t: Tree, p: Node?) {
    match t
    case Leaf => p == null
    case Fork(l, n, r) => p == n && n in m && TreeRep(m, l, m[n].left) && TreeRep(m, r, m[n].right)
  }

  ghost function Ptr(t: Tree): Node? {
    if t.Leaf? then null else t.node
  }

  /** The node whose open link ends a side: the one added last, or the header `d`. */
  ghost function Last(s: Side, d: Node): Node {
    if s == Empty then d else s.node
  }

  /** The left side hangs off the right field of the header. */
  ghost predicate LeftRep(m: Mem, s: Side, d: Node) {
    match s
    case Empty => d in m
    case Add(i, sub, n) => LeftRep(m, i, d) && Last(i, d) in m && m[Last(i, d)].right == n && n in m && TreeRep(m, sub, m[n].left)
  }

  /** The right side hangs off the left field of the header. */
  ghost predicate RightRep(m: Mem, s: Side, d: Node) {
    match s
    case Empty => d in m
    case Add(i, sub, n) => RightRep(m, i, d) && Last(i, d) in m && m[Last(i, d)].left == n && n in m && TreeRep(m, sub, m[n].right)
  }

  ghost predicate State(m: Mem, l: Side, t: Tree, r: Side, d: Node) {
    && Separate(l, t, r) && d !in AllNodes(l, t, r)
    && TreeRep(m, t, Ptr(t)) && LeftRep(m, l, d) && RightRep(m, r, d)
  }

  // ----- frames

  ghost predicate Agree(m: Mem, m': Mem, s: set<Node>) {
    forall n <- s :: n in m ==> n in m' && m[n] == m'[n]
  }

  lemma {:induction false} TreeFrame(m: Mem, m': Mem, t: Tree, p: Node?)
    requires TreeRep(m, t, p) && Agree(m, m', Nodes(t))
    ensures TreeRep(m', t, p)
  {
    if t.Fork? {
      TreeFrame(m, m', t.left, m[t.node].left);
      TreeFrame(m, m', t.right, m[t.node].right);
    }
  }

  /** A side does not depend on its open link. */
  lemma {:induction false} LeftFrame(m: Mem, m': Mem, s: Side, d: Node)
    requires LeftRep(m, s, d) && SideApart(s) && d !in SideNodes(s) && d in m && Last(s, d) in m
    requires Agree(m, m', SideNodes(s) - {Last(s, d)})
    requires d in m' && (s != Empty ==> m'[d].right == m[d].right && s.node in m' && m'[s.node].left == m[s.node].left)
    ensures LeftRep(m', s, d)
  {
    if s != Empty {
      TreeFrame(m, m', s.sub, m[s.node].left);
      LeftFrame(m, m', s.init, d);
    }
  }

  lemma {:induction false} RightFrame(m: Mem, m': Mem, s: Side, d: Node)
    requires RightRep(m, s, d) && SideApart(s) && d !in SideNodes(s) && d in m && Last(s, d) in m
    requires Agree(m, m', SideNodes(s) - {Last(s, d)})
    requires d in m' && (s != Empty ==> m'[d].left == m[d].left && s.node in m' && m'[s.node].right == m[s.node].right)
    ensures RightRep(m', s, d)
  {
    if s != Empty {
      TreeFrame(m, m', s.sub, m[s.node].right);
      RightFrame(m, m', s.init, d);
    }
  }

  lemma {:induction false} LeftKnown(m: Mem, s: Side, d: Node)
    requires LeftRep(m, s, d)
    ensures d in m && Last(s, d) in m && (s != Empty ==> s.node in SideNodes(s))
  {
    if s != Empty {
      LeftKnown(m, s.init, d);
    }
  }

  lemma {:induction false} RightKnown(m: Mem, s: Side, d: Node)
    requires RightRep(m, s, d)
    ensures d in m && Last(s, d) in m && (s != Empty ==> s.node in SideNodes(s))
  {
    if s != Empty {
      RightKnown(m, s.init, d);
    }
  }

  lemma Unfold(m: Mem, t: Tree, p: Node?, outside: set<Node>)
    requires t.Fork? && Apart(t) && TreeRep(m, t, p) && Nodes(t) !! outside
    ensures Nodes(t) == Nodes(t.left) + {t.node} + Nodes(t.right)
    ensures t.node !in Nodes(t.left) && t.node !in Nodes(t.right) && Nodes(t.left) !! Nodes(t.right)
    ensures Nodes(t.left) !! outside && t.node !in outside && Nodes(t.right) !! outside
    ensures Apart(t.left) && Apart(t.right)
    ensures p == t.node && p in m && m[p].left == Ptr(t.left) && m[p].right == Ptr(t.right)
    ensures TreeRep(m, t.left, m[p].left) && TreeRep(m, t.right, m[p].right)
  {}

  // ----- rotations

  ghost function SetLeft(m: Mem, n: Node, p: Node?): Mem
    requires n in m
  {
    m[n := m[n].(left := p)]
  }

  ghost function SetRight(m: Mem, n: Node, p: Node?): Mem
    requires n in m
  {
    m[n := m[n].(right := p)]
  }

  lemma RotRApart(t: Tree)
    requires t.Fork? && t.left.Fork? && Apart(t)
    ensures Apart(RotR(t)) && Nodes(RotR(t)) == Nodes(t)
  {
    var Fork(Fork(a, y, b), x, c) := t;
    assert Nodes(t.left) == Nodes(a) + {y} + Nodes(b);
    assert Nodes(RotR(t).right) == Nodes(b) + {x} + Nodes(c);
  }

  lemma RotateRightTree(m: Mem, t: Tree, x: Node, rest: set<Node>)
    requires t.Fork? && t.left.Fork? && Apart(t) && TreeRep(m, t, x) && Nodes(t) !! rest
    ensures var y := t.left.node;
      && x == t.node && x in m && y in m && m[x].left == y && x != y
      && TreeRep(SetRight(SetLeft(m, x, m[y].right), y, x), RotR(t), y) && Agree(m, SetRight(SetLeft(m, x, m[y].right), y, x), rest)
  {
    var Fork(Fork(a, y, b), _, c) := t;
    Unfold(m, t, x, rest);
    Unfold(m, t.left, y, rest + {x} + Nodes(c));
    var m' := SetRight(SetLeft(m, x, m[y].right), y, x);
    TreeFrame(m, m', a, m[y].left);
    TreeFrame(m, m', b, m[y].right);
    TreeFrame(m, m', c, m[x].right);
  }

  lemma RotateRightState(m: Mem, l: Side, t: Tree, r: Side, d: Node)
    requires State(m, l, t, r, d) && t.Fork? && t.left.Fork?
    ensures var x, y := t.node, t.left.node;
      && x in m && y in m && m[x].left == y && x != y
      && State(SetRight(SetLeft(m, x, m[y].right), y, x), l, RotR(t), r, d)
  {
    var x, y := t.node, t.left.node;
    SeparateParts(l, t, r);
    RotRApart(t);
    SeparateParts(l, RotR(t), r);
    RotateRightTree(m, t, x, SideNodes(l) + SideNodes(r) + {d});
    LeftKnown(m, l, d);
    RightKnown(m, r, d);
    var m' := SetRight(SetLeft(m, x, m[y].right), y, x);
    LeftFrame(m, m', l, d);
    RightFrame(m, m', r, d);
  }

  lemma RotLApart(t: Tree)
    requires t.Fork? && t.right.Fork? && Apart(t)
    ensures Apart(RotL(t)) && Nodes(RotL(t)) == Nodes(t)
  {
    var Fork(a, x, Fork(b, y, c)) := t;
    assert Nodes(t.right) == Nodes(b) + {y} + Nodes(c);
    assert Nodes(RotL(t).left) == Nodes(a) + {x} + Nodes(b);
  }

  lemma RotateLeftTree(m: Mem, t: Tree, x: Node, rest: set<Node>)
    requires t.Fork? && t.right.Fork? && Apart(t) && TreeRep(m, t, x) && Nodes(t) !! rest
    ensures var y := t.right.node;
      && x == t.node && x in m && y in m && m[x].right == y && x != y
      && TreeRep(SetLeft(SetRight(m, x, m[y].left), y, x), RotL(t), y) && Agree(m, SetLeft(SetRight(m, x, m[y].left), y, x), rest)
  {
    var Fork(a, _, Fork(b, y, c)) := t;
    Unfold(m, t, x, rest);
    Unfold(m, t.right, y, rest + {x} + Nodes(a));
    var m' := SetLeft(SetRight(m, x, m[y].left), y, x);
    TreeFrame(m, m', a, m[x].left);
    TreeFrame(m, m', b, m[y].left);
    TreeFrame(m, m', c, m[y].right);
  }

  lemma RotateLeftState(m: Mem, l: Side, t: Tree, r: Side, d: Node)
    requires State(m, l, t, r, d) && t.Fork? && t.right.Fork?
    ensures var x, y := t.node, t.right.node;
      && x in m && y in m && m[x].right == y && x != y
      && State(SetLeft(SetRight(m, x, m[y].left), y, x), l, RotL(t), r, d)
  {
    var x, y := t.node, t.right.node;
    SeparateParts(l, t, r);
    RotLApart(t);
    SeparateParts(l, RotL(t), r);
    RotateLeftTree(m, t, x, SideNodes(l) + SideNodes(r) + {d});
    LeftKnown(m, l, d);
    RightKnown(m, r, d);
    var m' := SetLeft(SetRight(m, x, m[y].left), y, x);
    LeftFrame(m, m', l, d);
    RightFrame(m, m', r, d);
  }

  lemma StateRoot(m: Mem, l: Side, t: Tree, r: Side, d: Node)
    requires State(m, l, t, r, d) && t.Fork?
    ensures t.node in m && m[t.node] == Link(Ptr(t.left), Ptr(t.right))
  {
    SeparateParts(l, t, r);
    Unfold(m, t, t.node, {});
  }

  // ----- links

  /** SPLAY_LINKLEFT: the root and its right subtree join the right side. */
  lemma LinkLeftState(m: Mem, l: Side, t: Tree, r: Side, d: Node)
    requires State(m, l, t, r, d) && t.Fork?
    ensures t.node in m && Last(r, d) in m && Last(r, d) != t.node && m[t.node].left == Ptr(t.left)
    ensures State(SetLeft(m, Last(r, d), t.node), l, t.left, Add(r, t.right, t.node), d)
  {
    var r' := Add(r, t.right, t.node);
    SeparateParts(l, t, r);
    SeparateParts(l, t.left, r');
    Unfold(m, t, t.node, SideNodes(l) + SideNodes(r) + {d});
    LeftKnown(m, l, d);
    RightKnown(m, r, d);
    var m' := SetLeft(m, Last(r, d), t.node);
    TreeFrame(m, m', t.left, m[t.node].left);
    TreeFrame(m, m', t.right, m[t.node].right);
    LeftFrame(m, m', l, d);
    RightFrame(m, m', r, d);
  }

  lemma LinkRightState(m: Mem, l: Side, t: Tree, r: Side, d: Node)
    requires State(m, l, t, r, d) && t.Fork?
    ensures t.node in m && Last(l, d) in m && Last(l, d) != t.node && m[t.node].right == Ptr(t.right)
    ensures State(SetRight(m, Last(l, d), t.node), Add(l, t.left, t.node), t.right, r, d)
  {
    var l' := Add(l, t.left, t.node);
    SeparateParts(l, t, r);
    SeparateParts(l', t.right, r);
    Unfold(m, t, t.node, SideNodes(l) + SideNodes(r) + {d});
    LeftKnown(m, l, d);
    RightKnown(m, r, d);
    var m' := SetRight(m, Last(l, d), t.node);
    TreeFrame(m, m', t.left, m[t.node].left);
    TreeFrame(m, m', t.right, m[t.node].right);
    LeftFrame(m, m', l, d);
    RightFrame(m, m', r, d);
  }

  // ----- assembly

  lemma {:induction false} CloseLeftRep(m: Mem, s: Side, d: Node, t: Tree)
    requires LeftRep(m, s, d) && Last(s, d) in m && TreeRep(m, t, m[Last(s, d)].right)
    ensures d in m && TreeRep(m, CloseLeft(s, t), m[d].right)
  {
    if s != Empty {
      CloseLeftRep(m, s.init, d, Fork(s.sub, s.node, t));
    }
  }

  lemma {:induction false} CloseRightRep(m: Mem, s: Side, d: Node, t: Tree)
    requires RightRep(m, s, d) && Last(s, d) in m && TreeRep(m, t, m[Last(s, d)].left)
    ensures d in m && TreeRep(m, CloseRight(s, t), m[d].left)
  {
    if s != Empty {
      CloseRightRep(m, s.init, d, Fork(t, s.node, s.sub));
    }
  }

  lemma {:induction false} CloseLeftNodes(s: Side, t: Tree)
    ensures Nodes(CloseLeft(s, t)) == SideNodes(s) + Nodes(t)
    ensures SideApart(s) && Apart(t) && Nodes(t) !! SideNodes(s) ==> Apart(CloseLeft(s, t))
  {
    if s != Empty {
      CloseLeftNodes(s.init, Fork(s.sub, s.node, t));
    }
  }

  lemma {:induction false} CloseRightNodes(s: Side, t: Tree)
    ensures Nodes(CloseRight(s, t)) == SideNodes(s) + Nodes(t)
    ensures SideApart(s) && Apart(t) && Nodes(t) !! SideNodes(s) ==> Apart(CloseRight(s, t))
  {
    if s != Empty {
      CloseRightNodes(s.init, Fork(t, s.node, s.sub));
    }
  }

  /** The four assignments of SPLAY_ASSEMBLE, in their order; `d` may be either end pointer. */
  ghost function LinksAssemble(m: Mem, x: Node, left: Node, right: Node, d: Node): Mem
    requires x in m && left in m && right in m && d in m
  {
    var m1 := SetRight(m, left, m[x].left);
    var m2 := SetLeft(m1, right, m1[x].right);
    var m3 := SetLeft(m2, x, m2[d].right);
    SetRight(m3, x, m3[d].left)
  }

  lemma AssembleSides(m: Mem, l: Side, t: Tree, r: Side, d: Node)
    requires State(m, l, t, r, d) && t.Fork?
    ensures t.node in m && d in m && Last(l, d) in m && Last(r, d) in m
    ensures var m1 := SetRight(m, Last(l, d), m[t.node].left);
      var m2 := SetLeft(m1, Last(r, d), m1[t.node].right);
      TreeRep(m2, CloseLeft(l, t.left), m2[d].right) && TreeRep(m2, CloseRight(r, t.right), m2[d].left)
  {
    var x, left, right := t.node, Last(l, d), Last(r, d);
    SeparateParts(l, t, r);
    Unfold(m, t, x, SideNodes(l) + SideNodes(r) + {d});
    LeftKnown(m, l, d);
    RightKnown(m, r, d);
    var m1 := SetRight(m, left, m[x].left);
    var m2 := SetLeft(m1, right, m1[x].right);
    LeftFrame(m, m2, l, d);
    RightFrame(m, m2, r, d);
    TreeFrame(m, m2, t.left, m[x].left);
    TreeFrame(m, m2, t.right, m[x].right);
    CloseLeftRep(m2, l, d, t.left);
    CloseRightRep(m2, r, d, t.right);
  }

  lemma AssembledNodes(l: Side, t: Tree, r: Side)
    requires t.Fork? && Separate(l, t, r)
    ensures Nodes(Assembled(l, t, r)) == AllNodes(l, t, r) && Apart(Assembled(l, t, r))
    ensures t.node !in Nodes(CloseLeft(l, t.left)) && t.node !in Nodes(CloseRight(r, t.right))
  {
    SeparateParts(l, t, r);
    CloseLeftNodes(l, t.left);
    CloseRightNodes(r, t.right);
  }

  lemma AssembleState(m: Mem, l: Side, t: Tree, r: Side, d: Node)
    requires State(m, l, t, r, d) && t.Fork?
    ensures LinksAssemble.requires(m, t.node, Last(l, d), Last(r, d), d)
    ensures State(LinksAssemble(m, t.node, Last(l, d), Last(r, d), d), Empty, Assembled(l, t, r), Empty, d)
  {
    AssembleSides(m, l, t, r, d);
    AssembledNodes(l, t, r);
    var x := t.node;
    var m1 := SetRight(m, Last(l, d), m[x].left);
    var m2 := SetLeft(m1, Last(r, d), m1[x].right);
    var m' := LinksAssemble(m, x, Last(l, d), Last(r, d), d);
    TreeFrame(m2, m', CloseLeft(l, t.left), m2[d].right);
    TreeFrame(m2, m', CloseRight(r, t.right), m2[d].left);
  }

  // ----- around a splay

  lemma {:induction false} Listed(t: Tree, x: Node)
    ensures x in Nodes(t) <==> x in InOrder(t)
  {
    if t.Fork? {
      Listed(t.left, x);
      Listed(t.right, x);
    }
  }

  lemma NotListed(t: Tree, n: Node)
    requires NoKey(InOrder(t), n.key)
    ensures n !in Nodes(t)
  {
    Listed(t, n);
  }

  lemma SameNodes(t: Tree, t': Tree)
    requires InOrder(t) == InOrder(t')
    ensures Nodes(t) == Nodes(t')
  {
    var s, s' := Nodes(t), Nodes(t');
    forall x | x in s ensures x in s' { Listed(t, x); Listed(t', x); }
    forall x | x in s' ensures x in s { Listed(t, x); Listed(t', x); }
  }

  /** The header node joins the nodes of the tree. */
  lemma Header(m: Mem, t: Tree, p: Node?, d: Node)
    requires TreeRep(m, t, p) && Apart(t) && Nodes(t) <= m.Keys && d !in m
    ensures p == Ptr(t) && State(m[d := Link(null, null)], Empty, t, Empty, d)
  {
    TreeFrame(m, m[d := Link(null, null)], t, p);
  }

  lemma DropHeader(m: Mem, t: Tree, d: Node)
    requires State(m, Empty, t, Empty, d)
    ensures TreeRep(m - {d}, t, Ptr(t)) && Apart(t)
  {
    TreeFrame(m, m - {d}, t, Ptr(t));
  }

  // ----- insertion and removal

  lemma LowLinks(m: Mem, t: Tree, p: Node?, n: Node)
    requires TreeRep(m, t, p) && Apart(t) && Nodes(t) == m.Keys && n !in m && t.Fork?
    ensures p == t.node && p in m
    ensures TreeRep(SetLeft(m[n := Link(m[p].left, p)], p, null), InsertedLow(t, n), n)
    ensures Apart(InsertedLow(t, n)) && Nodes(InsertedLow(t, n)) == Nodes(t) + {n}
  {
    Unfold(m, t, p, {});
    var m' := SetLeft(m[n := Link(m[p].left, p)], p, null);
    TreeFrame(m, m', t.left, m[p].left);
    TreeFrame(m, m', t.right, m[p].right);
    assert Nodes(t.(left := Leaf)) == {t.node} + Nodes(t.right);
  }

  lemma HighLinks(m: Mem, t: Tree, p: Node?, n: Node)
    requires TreeRep(m, t, p) && Apart(t) && Nodes(t) == m.Keys && n !in m && t.Fork?
    ensures p == t.node && p in m
    ensures TreeRep(SetRight(m[n := Link(p, m[p].right)], p, null), InsertedHigh(t, n), n)
    ensures Apart(InsertedHigh(t, n)) && Nodes(InsertedHigh(t, n)) == Nodes(t) + {n}
  {
    Unfold(m, t, p, {});
    var m' := SetRight(m[n := Link(p, m[p].right)], p, null);
    TreeFrame(m, m', t.left, m[p].left);
    TreeFrame(m, m', t.right, m[p].right);
    assert Nodes(t.(right := Leaf)) == Nodes(t.left) + {t.node};
  }

  /** The part of the memory that belongs to a subtree. */
  ghost function Part(m: Mem, t: Tree): Mem {
    map n | n in m && n in Nodes(t) :: m[n]
  }

  lemma PartRep(m: Mem, t: Tree, p: Node?)
    requires TreeRep(m, t, p) && Nodes(t) <= m.Keys
    ensures TreeRep(Part(m, t), t, p) && Part(m, t).Keys == Nodes(t)
  {
    TreeFrame(m, Part(m, t), t, p);
  }

  /** A tree without a right subtree takes one in. */
  lemma JoinLinks(m: Mem, l: Tree, x: Node?, mr: Mem, r: Tree, q: Node?)
    requires TreeRep(m, l, x) && Apart(l) && l.Fork? && l.right.Leaf? && m.Keys == Nodes(l)
    requires TreeRep(mr, r, q) && Apart(r) && mr.Keys == Nodes(r) && Nodes(l) !! Nodes(r)
    ensures x != null && x in m
    ensures TreeRep(SetRight(m + mr, x, q), l.(right := r), x)
    ensures Apart(l.(right := r)) && Nodes(l.(right := r)) == Nodes(l) + Nodes(r)
  {
    Unfold(m, l, x, Nodes(r));
    var m' := SetRight(m + mr, x, q);
    TreeFrame(m, m', l.left, m[x].left);
    TreeFrame(mr, m', r, q);
  }
}
