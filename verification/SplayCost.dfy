/** What splaying costs: the loop as a function of the tree, and the amortised bound of include/tree.h:42-44. */
module SplayCost {
  import opened SplayShape

  // ----- the loop as a function

  /** The splayed subtree `u` takes the place of the left subtree, and its root comes up over the root. */
  ghost function UpFromLeft(u: Tree, t: Tree): (s: Tree)
    requires u.Fork? && t.Fork?
    ensures s.Fork?
  {
    Fork(u.left, u.node, Fork(u.right, t.node, t.right))
  }

  ghost function UpFromRight(u: Tree, t: Tree): (s: Tree)
    requires u.Fork? && t.Fork?
    ensures s.Fork?
  {
    Fork(Fork(t.left, t.node, u.left), u.node, u.right)
  }

  /** The middle tree after the comparisons of one turn, before it is linked: rotated when the probe goes the same way twice. */
  ghost function Zigged(t: Tree, p: Probe): Tree
    requires t.Fork?
  {
    if Cmp(p, t.node.key) < 0 && t.left.Fork? && Cmp(p, t.left.node.key) < 0 then RotR(t)
    else if Cmp(p, t.node.key) > 0 && t.right.Fork? && Cmp(p, t.right.node.key) > 0 then RotL(t)
    else t
  }

  /** The next subtree the loop looks at, or Leaf when it breaks. */
  ghost function Onward(t: Tree, p: Probe): Tree
    requires t.Fork?
  {
    if Cmp(p, t.node.key) < 0 then Zigged(t, p).left else Zigged(t, p).right
  }

  lemma OnwardSmaller(t: Tree, p: Probe)
    requires t.Fork? && Cmp(p, t.node.key) != 0
    ensures Size(Onward(t, p)) < Size(t)
  {}

  /** The tree that _SPLAY leaves. */
  ghost function Splayed(t: Tree, p: Probe): (u: Tree)
    requires t.Fork?
    ensures u.Fork?
    decreases Size(t)
  {
    if Cmp(p, t.node.key) == 0 then t
    else
      OnwardSmaller(t, p);
      var v, w := Zigged(t, p), Onward(t, p);
      if w.Leaf? then v
      else if Cmp(p, t.node.key) < 0 then UpFromLeft(Splayed(w, p), v)
      else UpFromRight(Splayed(w, p), v)
  }

  /** How often the loop turns. */
  ghost function Turns(t: Tree, p: Probe): nat
    requires t.Fork?
    decreases Size(t)
  {
    if Cmp(p, t.node.key) == 0 then 0
    else
      OnwardSmaller(t, p);
      1 + if Onward(t, p).Leaf? then 0 else Turns(Onward(t, p), p)
  }

  /** How many links the search for `p` follows before it ends. */
  ghost function PathLength(t: Tree, p: Probe): nat
    requires t.Fork?
  {
    var next := if Cmp(p, t.node.key) < 0 then t.left else t.right;
    if Cmp(p, t.node.key) == 0 || next.Leaf? then 0 else 1 + PathLength(next, p)
  }

  /** A turn follows one link or two; only the last one may find none. */
  lemma {:induction false} TurnsFollowPath(t: Tree, p: Probe)
    requires t.Fork?
    ensures PathLength(t, p) <= 2 * Turns(t, p) <= 2 * PathLength(t, p) + 2
    ensures Turns(t, p) == 0 <==> Cmp(p, t.node.key) == 0
    decreases Size(t)
  {
    if Cmp(p, t.node.key) != 0 {
      OnwardSmaller(t, p);
      if Onward(t, p).Fork? {
        TurnsFollowPath(Onward(t, p), p);
      }
    }
  }

  /** What the loop keeps: once the middle tree is splayed and assembled, the result is there; and how often it still turns. */
  ghost predicate OnTheWay(l: Side, t: Tree, r: Side, p: Probe, start: Tree, turns: nat)
    requires start.Fork?
  {
    t.Fork? && Assembled(l, Splayed(t, p), r) == Splayed(start, p) && turns + Turns(t, p) == Turns(start, p)
  }

  /** And when it is left. */
  ghost predicate Arrived(l: Side, t: Tree, r: Side, p: Probe, start: Tree, turns: nat)
    requires start.Fork?
  {
    t.Fork? && Assembled(l, t, r) == Splayed(start, p) && turns == Turns(start, p)
  }

  lemma StartsOut(t: Tree, p: Probe)
    requires t.Fork?
    ensures OnTheWay(Empty, t, Empty, p, t, 0)
  {}

  lemma GoesLeft(l: Side, t: Tree, r: Side, p: Probe, start: Tree, turns: nat)
    requires start.Fork? && OnTheWay(l, t, r, p, start, turns) && Cmp(p, t.node.key) < 0
    ensures var v, w := Zigged(t, p), Onward(t, p);
      if w.Leaf? then Arrived(l, v, r, p, start, turns + 1) else OnTheWay(l, w, Add(r, v.right, v.node), p, start, turns + 1)
  {}

  lemma GoesRight(l: Side, t: Tree, r: Side, p: Probe, start: Tree, turns: nat)
    requires start.Fork? && OnTheWay(l, t, r, p, start, turns) && Cmp(p, t.node.key) > 0
    ensures var v, w := Zigged(t, p), Onward(t, p);
      if w.Leaf? then Arrived(l, v, r, p, start, turns + 1) else OnTheWay(Add(l, v.left, v.node), w, r, p, start, turns + 1)
  {}

  lemma FindsKey(l: Side, t: Tree, r: Side, p: Probe, start: Tree, turns: nat)
    requires start.Fork? && OnTheWay(l, t, r, p, start, turns) && Cmp(p, t.node.key) == 0
    ensures Arrived(l, t, r, p, start, turns)
  {}

  // ----- ranks

  /** The logarithm, rounded down. */
  function Rank(n: nat): nat {
    if n <= 1 then 0 else 1 + Rank(n / 2)
  }

  lemma {:induction false} RankGrows(a: nat, b: nat)
    requires a <= b
    ensures Rank(a) <= Rank(b)
  {
    if a > 1 {
      RankGrows(a / 2, b / 2);
    }
  }

  lemma {:induction false} RankDoubles(a: nat, b: nat)
    requires a >= 1 && b >= 1
    ensures Rank(a) == Rank(b) ==> Rank(a + b) > Rank(a)
  {
    if a > 1 && b > 1 {
      RankDoubles(a / 2, b / 2);
      RankGrows(a / 2 + b / 2, (a + b) / 2);
    }
  }

  /** Two parts of a whole cannot both have its rank. */
  lemma TwoParts(a: nat, b: nat, s: nat)
    requires a >= 1 && b >= 1 && a + b <= s
    ensures Rank(a) + Rank(b) + 1 <= 2 * Rank(s)
  {
    RankGrows(a, s);
    RankGrows(b, s);
    RankGrows(a + b, s);
    RankDoubles(a, b);
  }

  // ----- the potential

  ghost function R(t: Tree): nat {
    Rank(Size(t))
  }

  ghost function Potential(t: Tree): nat {
    if t.Leaf? then 0 else Potential(t.left) + R(t) + Potential(t.right)
  }

  /** Paid from the potential: the bound for one splay. */
  ghost predicate Paid(t: Tree, p: Probe)
    requires t.Fork?
  {
    Turns(t, p) + 2 * Potential(Splayed(t, p)) <= 2 * Potential(t) + 6 * R(t) + 2
  }

  lemma SameRank(s: Tree, t: Tree)
    requires Size(s) == Size(t)
    ensures R(s) == R(t)
  {}

  lemma PotentialFork(l: Tree, n: Node, r: Tree)
    ensures Size(Fork(l, n, r)) == Size(l) + 1 + Size(r)
    ensures Potential(Fork(l, n, r)) == Potential(l) + R(Fork(l, n, r)) + Potential(r)
  {}

  lemma SizeUpLeft(u: Tree, t: Tree)
    requires u.Fork? && t.Fork? && Size(u) == Size(t.left)
    ensures Size(UpFromLeft(u, t)) == Size(t)
  {}

  lemma PotentialUpLeft(u: Tree, t: Tree)
    requires u.Fork? && t.Fork? && t.left.Fork? && Size(u) == Size(t.left)
    ensures Potential(UpFromLeft(u, t)) == Potential(u) - R(u) + R(t) + Rank(Size(u.right) + 1 + Size(t.right)) + Potential(t.right)
  {
    hide Rank;
    SizeUpLeft(u, t);
  }

  lemma RotatedLeft(t: Tree)
    requires t.Fork? && t.left.Fork?
    ensures var v := RotR(t);
      && Size(v) == Size(t) == Size(v.left) + 1 + Size(v.right) && Size(t.left) == Size(v.left) + 1 + Size(t.left.right)
      && Potential(t) == Potential(v.left) + R(t.left) + Potential(t.left.right) + R(t) + Potential(t.right)
      && Potential(v.right) == Potential(t.left.right) + R(v.right) + Potential(t.right)
  {
    hide Rank;
  }

  lemma SplayedZigZigLeft(t: Tree, p: Probe)
    requires t.Fork? && Cmp(p, t.node.key) < 0 && t.left.Fork? && Cmp(p, t.left.node.key) < 0
    ensures var v, a := RotR(t), t.left.left;
      && Splayed(t, p) == (if a.Leaf? then v else UpFromLeft(Splayed(a, p), v))
      && Turns(t, p) == 1 + if a.Leaf? then 0 else Turns(a, p)
  {}

  /** One link after a rotation: two nodes of the path for one turn. */
  lemma ZigZigLeftPaid(t: Tree, p: Probe)
    requires t.Fork? && Cmp(p, t.node.key) < 0 && t.left.Fork? && Cmp(p, t.left.node.key) < 0
    requires t.left.left.Fork? ==> Paid(t.left.left, p) && Size(Splayed(t.left.left, p)) == Size(t.left.left)
    ensures Paid(t, p)
  {
    hide Splayed, Turns, Rank, UpFromLeft;
    var v, a := RotR(t), t.left.left;
    RotatedLeft(t);
    SplayedZigZigLeft(t, p);
    RankGrows(Size(v.right), Size(t));
    if a.Fork? {
      var u := Splayed(a, p);
      PotentialUpLeft(u, v);
      RankGrows(Size(u.right) + 1 + Size(v.right), Size(t));
      RankGrows(Size(a), Size(t.left));
      TwoParts(Size(v.right), Size(a), Size(t));
    }
  }

  lemma SplayedOneLeft(t: Tree, p: Probe)
    requires t.Fork? && Cmp(p, t.node.key) < 0 && t.left.Fork? && Cmp(p, t.left.node.key) >= 0
    ensures Splayed(t, p) == UpFromLeft(Splayed(t.left, p), t) && Turns(t, p) == 1 + Turns(t.left, p)
  {}

  /** A link with no rotation, after which the loop ends. */
  lemma LastLeftPaid(t: Tree, p: Probe)
    requires t.Fork? && Cmp(p, t.node.key) < 0 && t.left.Fork? && Cmp(p, t.left.node.key) >= 0
    requires Cmp(p, t.left.node.key) == 0 || t.left.right.Leaf?
    ensures Paid(t, p)
  {
    hide Rank;
    SplayedOneLeft(t, p);
    PotentialUpLeft(t.left, t);
    RankGrows(Size(t.left.right) + 1 + Size(t.right), Size(t));
  }

  lemma ThreeForksLeft(a: Tree, y: Node, b: Tree, z: Node, c: Tree, l: Tree, x: Node, r: Tree)
    requires Size(l) + 1 + Size(r) == Size(b)
    ensures var s, t := Fork(Fork(a, y, l), x, Fork(r, z, c)), Fork(Fork(a, y, b), z, c);
      && Size(s) == Size(t) == Size(a) + Size(b) + Size(c) + 2
      && R(s) == R(t)
      && Potential(s) - Potential(t) == Potential(l) + Potential(r) - Potential(b) - R(Fork(a, y, b)) + R(Fork(a, y, l)) + R(Fork(r, z, c))
      && Size(Fork(a, y, b)) == Size(a) + 1 + Size(b) && Size(Fork(a, y, l)) == Size(a) + 1 + Size(l) && Size(Fork(r, z, c)) == Size(r) + 1 + Size(c)
  {
    hide R, Potential, Size;
    PotentialFork(a, y, b);
    PotentialFork(Fork(a, y, b), z, c);
    PotentialFork(a, y, l);
    PotentialFork(r, z, c);
    PotentialFork(Fork(a, y, l), x, Fork(r, z, c));
    SameRank(Fork(Fork(a, y, l), x, Fork(r, z, c)), Fork(Fork(a, y, b), z, c));
  }

  lemma ZigZagLeftPotential(t: Tree, u: Tree)
    requires t.Fork? && t.left.Fork? && t.left.right.Fork? && u.Fork? && Size(u) == Size(t.left.right)
    ensures Size(u) <= Size(t.left) && Size(u) <= Size(t)
    ensures var s := UpFromLeft(UpFromRight(u, t.left), t);
      && Size(s.left) >= 1 && Size(s.right) >= 1 && Size(s.left) + Size(s.right) <= Size(t)
      && Potential(s) - Potential(t) == Potential(u) - Potential(t.left.right) - R(u) - R(t.left) + R(s.left) + R(s.right)
  {
    hide R, Potential, Size;
    var (a, y, b, z, c) := (t.left.left, t.left.node, t.left.right, t.node, t.right);
    var (l, x, r) := (u.left, u.node, u.right);
    PotentialFork(l, x, r);
    assert u == Fork(l, x, r);
    ThreeForksLeft(a, y, b, z, c, l, x, r);
    assert t == Fork(Fork(a, y, b), z, c) && UpFromLeft(UpFromRight(u, t.left), t) == Fork(Fork(a, y, l), x, Fork(r, z, c));
  }

  /** A link to one side and a link to the other: two nodes of the path for two turns. */
  lemma ZigZagLeftPaid(t: Tree, p: Probe)
    requires t.Fork? && Cmp(p, t.node.key) < 0 && t.left.Fork? && Cmp(p, t.left.node.key) > 0 && t.left.right.Fork?
    requires Cmp(p, t.left.right.node.key) <= 0
    requires Paid(t.left.right, p) && Size(Splayed(t.left.right, p)) == Size(t.left.right)
    ensures Paid(t, p)
  {
    hide Splayed, Turns, Rank, Potential, Size, UpFromLeft, UpFromRight;
    var b, u := t.left.right, Splayed(t.left.right, p);
    var s := UpFromLeft(UpFromRight(u, t.left), t);
    SplayedOneLeft(t, p);
    SplayedOneRight(t.left, p);
    ZigZagLeftPotential(t, u);
    RankGrows(Size(b), Size(t.left));
    RankGrows(Size(b), Size(t));
    TwoParts(Size(s.left), Size(s.right), Size(t));
  }

  lemma ZigZagZagLeftPotential(t: Tree, u: Tree)
    requires t.Fork? && t.left.Fork? && t.left.right.Fork? && t.left.right.right.Fork? && u.Fork? && Size(u) == Size(t.left.right.right)
    ensures Size(u) <= Size(t.left.right) <= Size(t.left) <= Size(t)
    ensures var v := RotL(t.left);
      var s := UpFromLeft(UpFromRight(u, v), t);
      && Size(v.left) <= Size(t) && Size(s.left) >= 1 && Size(s.right) >= 1 && Size(s.left) + Size(s.right) <= Size(t)
      && Potential(s) - Potential(t) == Potential(u) - Potential(t.left.right.right) - R(u) - R(t.left)
           - R(t.left.right) + R(v.left) + R(s.left) + R(s.right)
  {
    hide R, Potential, Size;
    var (a, y, b, x, w, z, c) := (t.left.left, t.left.node, t.left.right.left, t.left.right.node, t.left.right.right, t.node, t.right);
    var s := Fork(Fork(Fork(a, y, b), x, u.left), u.node, Fork(u.right, z, c));
    PotentialFork(b, x, w);
    PotentialFork(a, y, t.left.right);
    PotentialFork(t.left, z, c);
    PotentialFork(a, y, b);
    PotentialFork(u.left, u.node, u.right);
    PotentialFork(Fork(a, y, b), x, u.left);
    PotentialFork(u.right, z, c);
    PotentialFork(Fork(Fork(a, y, b), x, u.left), u.node, Fork(u.right, z, c));
    SameRank(s, t);
  }

  /** A link to one side and a rotation and link to the other: three nodes of the path for two turns. */
  lemma ZigZagZagLeftPaid(t: Tree, p: Probe)
    requires t.Fork? && Cmp(p, t.node.key) < 0 && t.left.Fork? && Cmp(p, t.left.node.key) > 0 && t.left.right.Fork?
    requires Cmp(p, t.left.right.node.key) > 0 && t.left.right.right.Fork?
    requires Paid(t.left.right.right, p) && Size(Splayed(t.left.right.right, p)) == Size(t.left.right.right)
    ensures Paid(t, p)
  {
    hide Splayed, Turns, Rank, Potential, Size, UpFromLeft, UpFromRight;
    var v, b := RotL(t.left), t.left.right.right;
    var u := Splayed(b, p);
    SplayedOneLeft(t, p);
    SplayedZigZigRight(t.left, p);
    var s := UpFromLeft(UpFromRight(u, v), t);
    ZigZagZagLeftPotential(t, u);
    RankGrows(Size(v.left), Size(t));
    RankGrows(Size(b), Size(t.left));
    RankGrows(Size(b), Size(t.left.right));
    TwoParts(Size(s.left), Size(s.right), Size(t));
  }

  /** The same, when the loop breaks after the rotation. */
  lemma BreakLeftPaid(t: Tree, p: Probe)
    requires t.Fork? && Cmp(p, t.node.key) < 0 && t.left.Fork? && Cmp(p, t.left.node.key) > 0 && t.left.right.Fork?
    requires Cmp(p, t.left.right.node.key) > 0 && t.left.right.right.Leaf?
    ensures Paid(t, p)
  {
    hide Splayed, Turns, Rank;
    var v := RotL(t.left);
    SplayedOneLeft(t, p);
    SplayedZigZigRight(t.left, p);
    RotatedRight(t.left);
    PotentialUpLeft(v, t);
    RankGrows(Size(v.left), Size(t.left));
    RankGrows(1 + Size(t.right), Size(t));
  }
  lemma SizeUpRight(u: Tree, t: Tree)
    requires u.Fork? && t.Fork? && Size(u) == Size(t.right)
    ensures Size(UpFromRight(u, t)) == Size(t)
  {}

  lemma PotentialUpRight(u: Tree, t: Tree)
    requires u.Fork? && t.Fork? && t.right.Fork? && Size(u) == Size(t.right)
    ensures Potential(UpFromRight(u, t)) == Potential(u) - R(u) + R(t) + Rank(Size(u.left) + 1 + Size(t.left)) + Potential(t.left)
  {
    hide Rank;
    SizeUpRight(u, t);
  }

  lemma RotatedRight(t: Tree)
    requires t.Fork? && t.right.Fork?
    ensures var v := RotL(t);
      && Size(v) == Size(t) == Size(v.right) + 1 + Size(v.left) && Size(t.right) == Size(v.right) + 1 + Size(t.right.left)
      && Potential(t) == Potential(v.right) + R(t.right) + Potential(t.right.left) + R(t) + Potential(t.left)
      && Potential(v.left) == Potential(t.right.left) + R(v.left) + Potential(t.left)
  {
    hide Rank;
  }

  lemma SplayedZigZigRight(t: Tree, p: Probe)
    requires t.Fork? && Cmp(p, t.node.key) > 0 && t.right.Fork? && Cmp(p, t.right.node.key) > 0
    ensures var v, a := RotL(t), t.right.right;
      && Splayed(t, p) == (if a.Leaf? then v else UpFromRight(Splayed(a, p), v))
      && Turns(t, p) == 1 + if a.Leaf? then 0 else Turns(a, p)
  {}

  lemma ZigZigRightPaid(t: Tree, p: Probe)
    requires t.Fork? && Cmp(p, t.node.key) > 0 && t.right.Fork? && Cmp(p, t.right.node.key) > 0
    requires t.right.right.Fork? ==> Paid(t.right.right, p) && Size(Splayed(t.right.right, p)) == Size(t.right.right)
    ensures Paid(t, p)
  {
    hide Splayed, Turns, Rank, UpFromRight;
    var v, a := RotL(t), t.right.right;
    RotatedRight(t);
    SplayedZigZigRight(t, p);
    RankGrows(Size(v.left), Size(t));
    if a.Fork? {
      var u := Splayed(a, p);
      PotentialUpRight(u, v);
      RankGrows(Size(u.left) + 1 + Size(v.left), Size(t));
      RankGrows(Size(a), Size(t.right));
      TwoParts(Size(v.left), Size(a), Size(t));
    }
  }

  lemma SplayedOneRight(t: Tree, p: Probe)
    requires t.Fork? && Cmp(p, t.node.key) > 0 && t.right.Fork? && Cmp(p, t.right.node.key) <= 0
    ensures Splayed(t, p) == UpFromRight(Splayed(t.right, p), t) && Turns(t, p) == 1 + Turns(t.right, p)
  {}

  lemma LastRightPaid(t: Tree, p: Probe)
    requires t.Fork? && Cmp(p, t.node.key) > 0 && t.right.Fork? && Cmp(p, t.right.node.key) <= 0
    requires Cmp(p, t.right.node.key) == 0 || t.right.left.Leaf?
    ensures Paid(t, p)
  {
    hide Rank;
    SplayedOneRight(t, p);
    PotentialUpRight(t.right, t);
    RankGrows(Size(t.right.left) + 1 + Size(t.left), Size(t));
  }

  lemma ThreeForksRight(a: Tree, y: Node, b: Tree, z: Node, c: Tree, l: Tree, x: Node, r: Tree)
    requires Size(l) + 1 + Size(r) == Size(b)
    ensures var s, t := Fork(Fork(c, z, r), x, Fork(l, y, a)), Fork(c, z, Fork(b, y, a));
      && Size(s) == Size(t) == Size(a) + Size(b) + Size(c) + 2
      && R(s) == R(t)
      && Potential(s) - Potential(t) == Potential(l) + Potential(r) - Potential(b) - R(Fork(b, y, a)) + R(Fork(l, y, a)) + R(Fork(c, z, r))
      && Size(Fork(b, y, a)) == Size(a) + 1 + Size(b) && Size(Fork(l, y, a)) == Size(a) + 1 + Size(l) && Size(Fork(c, z, r)) == Size(r) + 1 + Size(c)
  {
    hide R, Potential, Size;
    PotentialFork(b, y, a);
    PotentialFork(c, z, Fork(b, y, a));
    PotentialFork(l, y, a);
    PotentialFork(c, z, r);
    PotentialFork(Fork(c, z, r), x, Fork(l, y, a));
    SameRank(Fork(Fork(c, z, r), x, Fork(l, y, a)), Fork(c, z, Fork(b, y, a)));
  }

  lemma ZigZagRightPotential(t: Tree, u: Tree)
    requires t.Fork? && t.right.Fork? && t.right.left.Fork? && u.Fork? && Size(u) == Size(t.right.left)
    ensures Size(u) <= Size(t.right) && Size(u) <= Size(t)
    ensures var s := UpFromRight(UpFromLeft(u, t.right), t);
      && Size(s.right) >= 1 && Size(s.left) >= 1 && Size(s.right) + Size(s.left) <= Size(t)
      && Potential(s) - Potential(t) == Potential(u) - Potential(t.right.left) - R(u) - R(t.right) + R(s.right) + R(s.left)
  {
    hide R, Potential, Size;
    var (a, y, b, z, c) := (t.right.right, t.right.node, t.right.left, t.node, t.left);
    var (l, x, r) := (u.right, u.node, u.left);
    PotentialFork(r, x, l);
    assert u == Fork(r, x, l);
    ThreeForksRight(a, y, b, z, c, l, x, r);
    assert t == Fork(c, z, Fork(b, y, a)) && UpFromRight(UpFromLeft(u, t.right), t) == Fork(Fork(c, z, r), x, Fork(l, y, a));
  }

  lemma ZigZagRightPaid(t: Tree, p: Probe)
    requires t.Fork? && Cmp(p, t.node.key) > 0 && t.right.Fork? && Cmp(p, t.right.node.key) < 0 && t.right.left.Fork?
    requires Cmp(p, t.right.left.node.key) >= 0
    requires Paid(t.right.left, p) && Size(Splayed(t.right.left, p)) == Size(t.right.left)
    ensures Paid(t, p)
  {
    hide Splayed, Turns, Rank, Potential, Size, UpFromRight, UpFromLeft;
    var b, u := t.right.left, Splayed(t.right.left, p);
    var s := UpFromRight(UpFromLeft(u, t.right), t);
    SplayedOneRight(t, p);
    SplayedOneLeft(t.right, p);
    ZigZagRightPotential(t, u);
    RankGrows(Size(b), Size(t.right));
    RankGrows(Size(b), Size(t));
    TwoParts(Size(s.right), Size(s.left), Size(t));
  }

  lemma ZigZagZagRightPotential(t: Tree, u: Tree)
    requires t.Fork? && t.right.Fork? && t.right.left.Fork? && t.right.left.left.Fork? && u.Fork? && Size(u) == Size(t.right.left.left)
    ensures Size(u) <= Size(t.right.left) <= Size(t.right) <= Size(t)
    ensures var v := RotR(t.right);
      var s := UpFromRight(UpFromLeft(u, v), t);
      && Size(v.right) <= Size(t) && Size(s.right) >= 1 && Size(s.left) >= 1 && Size(s.right) + Size(s.left) <= Size(t)
      && Potential(s) - Potential(t) == Potential(u) - Potential(t.right.left.left) - R(u) - R(t.right)
           - R(t.right.left) + R(v.right) + R(s.right) + R(s.left)
  {
    hide R, Potential, Size;
    var (a, y, b, x, w, z, c) := (t.right.right, t.right.node, t.right.left.right, t.right.left.node, t.right.left.left, t.node, t.left);
    var s := Fork(Fork(c, z, u.left), u.node, Fork(u.right, x, Fork(b, y, a)));
    PotentialFork(w, x, b);
    PotentialFork(t.right.left, y, a);
    PotentialFork(c, z, t.right);
    PotentialFork(b, y, a);
    PotentialFork(u.left, u.node, u.right);
    PotentialFork(u.right, x, Fork(b, y, a));
    PotentialFork(c, z, u.left);
    PotentialFork(Fork(c, z, u.left), u.node, Fork(u.right, x, Fork(b, y, a)));
    SameRank(s, t);
  }

  lemma ZigZagZagRightPaid(t: Tree, p: Probe)
    requires t.Fork? && Cmp(p, t.node.key) > 0 && t.right.Fork? && Cmp(p, t.right.node.key) < 0 && t.right.left.Fork?
    requires Cmp(p, t.right.left.node.key) < 0 && t.right.left.left.Fork?
    requires Paid(t.right.left.left, p) && Size(Splayed(t.right.left.left, p)) == Size(t.right.left.left)
    ensures Paid(t, p)
  {
    hide Splayed, Turns, Rank, Potential, Size, UpFromRight, UpFromLeft;
    var v, b := RotR(t.right), t.right.left.left;
    var u := Splayed(b, p);
    SplayedOneRight(t, p);
    SplayedZigZigLeft(t.right, p);
    var s := UpFromRight(UpFromLeft(u, v), t);
    ZigZagZagRightPotential(t, u);
    RankGrows(Size(v.right), Size(t));
    RankGrows(Size(b), Size(t.right));
    RankGrows(Size(b), Size(t.right.left));
    TwoParts(Size(s.right), Size(s.left), Size(t));
  }

  lemma BreakRightPaid(t: Tree, p: Probe)
    requires t.Fork? && Cmp(p, t.node.key) > 0 && t.right.Fork? && Cmp(p, t.right.node.key) < 0 && t.right.left.Fork?
    requires Cmp(p, t.right.left.node.key) < 0 && t.right.left.left.Leaf?
    ensures Paid(t, p)
  {
    hide Splayed, Turns, Rank;
    var v := RotR(t.right);
    SplayedOneRight(t, p);
    SplayedZigZigLeft(t.right, p);
    RotatedLeft(t.right);
    PotentialUpRight(v, t);
    RankGrows(Size(v.right), Size(t.right));
    RankGrows(1 + Size(t.left), Size(t));
  }

  lemma Smaller(t: Tree)
    ensures t.Fork? ==> Size(t.left) < Size(t) && Size(t.right) < Size(t)
  {}

  lemma {:induction false} SplayedSize(t: Tree, p: Probe)
    requires t.Fork?
    ensures Size(Splayed(t, p)) == Size(t)
    decreases Size(t)
  {
    if Cmp(p, t.node.key) != 0 && Onward(t, p).Fork? {
      OnwardSmaller(t, p);
      var v, w := Zigged(t, p), Onward(t, p);
      SplayedSize(w, p);
      assert Size(v) == Size(t);
      if Cmp(p, t.node.key) < 0 {
        SizeUpLeft(Splayed(w, p), v);
      } else {
        SizeUpRight(Splayed(w, p), v);
      }
    }
  }

  /** Every splay is paid for by the fall of the potential and six times the logarithm of the size. */
  lemma {:induction false} SplayPaid(t: Tree, p: Probe)
    requires t.Fork?
    ensures Paid(t, p)
    decreases Size(t), 1
  {
    if Cmp(p, t.node.key) < 0 && t.left.Fork? {
      LeftPaid(t, p);
    } else if Cmp(p, t.node.key) > 0 && t.right.Fork? {
      RightPaid(t, p);
    }
  }

  lemma {:induction false} LeftPaid(t: Tree, p: Probe)
    requires t.Fork? && Cmp(p, t.node.key) < 0 && t.left.Fork?
    ensures Paid(t, p)
    decreases Size(t), 0
  {
    hide Paid, Potential, Splayed, Turns;
    var l := t.left;
    Smaller(t);
    Smaller(l);
    Smaller(l.right);
    if Cmp(p, l.node.key) < 0 {
      if l.left.Fork? {
        SplayPaid(l.left, p);
        SplayedSize(l.left, p);
      }
      ZigZigLeftPaid(t, p);
    } else if Cmp(p, l.node.key) == 0 || l.right.Leaf? {
      LastLeftPaid(t, p);
    } else if Cmp(p, l.right.node.key) <= 0 {
      SplayPaid(l.right, p);
      SplayedSize(l.right, p);
      ZigZagLeftPaid(t, p);
    } else {
      if l.right.right.Fork? {
        SplayPaid(l.right.right, p);
        SplayedSize(l.right.right, p);
        ZigZagZagLeftPaid(t, p);
      } else {
        BreakLeftPaid(t, p);
      }
    }
  }
  lemma {:induction false} RightPaid(t: Tree, p: Probe)
    requires t.Fork? && Cmp(p, t.node.key) > 0 && t.right.Fork?
    ensures Paid(t, p)
    decreases Size(t), 0
  {
    hide Paid, Potential, Splayed, Turns;
    var r := t.right;
    Smaller(t);
    Smaller(r);
    Smaller(r.left);
    if Cmp(p, r.node.key) > 0 {
      if r.right.Fork? {
        SplayPaid(r.right, p);
        SplayedSize(r.right, p);
      }
      ZigZigRightPaid(t, p);
    } else if Cmp(p, r.node.key) == 0 || r.left.Leaf? {
      LastRightPaid(t, p);
    } else if Cmp(p, r.left.node.key) >= 0 {
      SplayPaid(r.left, p);
      SplayedSize(r.left, p);
      ZigZagRightPaid(t, p);
    } else {
      if r.left.left.Fork? {
        SplayPaid(r.left.left, p);
        SplayedSize(r.left.left, p);
        ZigZagZagRightPaid(t, p);
      } else {
        BreakRightPaid(t, p);
      }
    }
  }

  // ----- whole operations and runs of them

  datatype Op = Find(x: int) | Insert(n: Node) | Remove(x: int) | Extreme(low: bool)

  /** The tree an operation leaves and how often its loops turned. */
  ghost function Outcome(t: Tree, op: Op): (Tree, nat) {
    match op
    case Find(x) => if t.Leaf? then (t, 0) else (Splayed(t, Key(x)), Turns(t, Key(x)))
    case Insert(n) => if t.Leaf? then (Fork(Leaf, n, Leaf), 0) else (Grown(Splayed(t, Key(n.key)), n), Turns(t, Key(n.key)))
    case Remove(x) =>
      if t.Leaf? then (t, 0)
      else
        var u, turns := Splayed(t, Key(x)), Turns(t, Key(x));
        if u.node.key != x then (u, turns)
        else if u.left.Leaf? then (u.right, turns)
        else (Rejoined(u, x), turns + Turns(u.left, Key(x)))
    case Extreme(low) =>
      var p := if low then Lowest else Highest;
      if t.Leaf? then (t, 0) else (Splayed(t, p), Turns(t, p))
  }

  /** The root is gone: what was left of it is splayed, and takes what was right of it. */
  ghost function Rejoined(u: Tree, x: int): Tree
    requires u.Fork? && u.left.Fork?
  {
    var w := Splayed(u.left, Key(x));
    w.(right := u.right)
  }

  /** The new node becomes the root, unless its key is there. */
  ghost function Grown(u: Tree, n: Node): Tree
    requires u.Fork?
  {
    if n.key < u.node.key then InsertedLow(u, n) else if n.key > u.node.key then InsertedHigh(u, n) else u
  }

  lemma InsertOutcome(t: Tree, n: Node)
    requires t.Fork?
    ensures Outcome(t, Insert(n)) == (Grown(Splayed(t, Key(n.key)), n), Turns(t, Key(n.key)))
  {}

  lemma RemoveOutcome(t: Tree, x: int)
    requires t.Fork?
    ensures var u, turns := Splayed(t, Key(x)), Turns(t, Key(x));
      && (u.node.key != x ==> Outcome(t, Remove(x)) == (u, turns))
      && (u.node.key == x && u.left.Leaf? ==> Outcome(t, Remove(x)) == (u.right, turns))
      && (u.node.key == x && u.left.Fork? ==> Outcome(t, Remove(x)) == (Rejoined(u, x), turns + Turns(u.left, Key(x))))
  {}

  lemma GrownPotential(u: Tree, n: Node, most: nat)
    requires u.Fork? && Size(u) <= most && Size(Grown(u, n)) <= most
    ensures Potential(Grown(u, n)) <= Potential(u) + Rank(most)
  {
    hide Rank;
    if n.key < u.node.key {
      PotentialFork(Leaf, u.node, u.right);
      PotentialFork(u.left, n, Fork(Leaf, u.node, u.right));
      RankGrows(Size(Fork(Leaf, u.node, u.right)), Size(u));
      RankGrows(Size(Grown(u, n)), most);
    } else if n.key > u.node.key {
      PotentialFork(u.left, u.node, Leaf);
      PotentialFork(Fork(u.left, u.node, Leaf), n, u.right);
      RankGrows(Size(Fork(u.left, u.node, Leaf)), Size(u));
      RankGrows(Size(Grown(u, n)), most);
    }
  }

  lemma JoinedPotential(w: Tree, u: Tree)
    requires u.Fork? && w.Fork? && Size(w) == Size(u.left)
    ensures Potential(w.(right := u.right)) + Potential(u.left) <= Potential(w) + Potential(u)
  {
    hide Rank;
    var v := w.(right := u.right);
    PotentialFork(w.left, w.node, u.right);
    PotentialFork(u.left, u.node, u.right);
    RankGrows(Size(v), Size(u));
  }

  /** One operation on a tree of at most `most` nodes. */
  lemma OpPaid(t: Tree, op: Op, most: nat)
    requires Size(t) <= most && Size(Outcome(t, op).0) <= most
    ensures Outcome(t, op).1 + 2 * Potential(Outcome(t, op).0) <= 2 * Potential(t) + 12 * Rank(most) + 4
  {
    hide Rank, Splayed, Turns;
    RankGrows(Size(t), most);
    if t.Leaf? {
      if op.Insert? {
        PotentialFork(Leaf, op.n, Leaf);
        RankGrows(Size(Outcome(t, op).0), most);
      }
    } else {
      var p := match op case Find(x) => Key(x) case Insert(n) => Key(n.key) case Remove(x) => Key(x) case Extreme(low) => if low then Lowest else Highest;
      var u := Splayed(t, p);
      SplayPaid(t, p);
      SplayedSize(t, p);
      match op {
        case Find(x) =>
        case Extreme(low) =>
        case Insert(n) =>
          GrownPotential(u, n, most);
        case Remove(x) =>
          RemovePaid(t, x, most);
      }
    }
  }

  lemma RemovePaid(t: Tree, x: int, most: nat)
    requires t.Fork? && Size(t) <= most
    ensures Outcome(t, Remove(x)).1 + 2 * Potential(Outcome(t, Remove(x)).0) <= 2 * Potential(t) + 12 * Rank(most) + 4
  {
    hide Rank, Splayed, Turns;
    var u := Splayed(t, Key(x));
    RankGrows(Size(t), most);
    SplayPaid(t, Key(x));
    SplayedSize(t, Key(x));
    if u.node.key == x && u.left.Fork? {
      SplayPaid(u.left, Key(x));
      SplayedSize(u.left, Key(x));
      JoinedPotential(Splayed(u.left, Key(x)), u);
      RankGrows(Size(u.left), most);
    }
  }

  /** The turns of a run of operations together. */
  ghost function TotalTurns(t: Tree, ops: seq<Op>): nat
    decreases |ops|
  {
    if ops == [] then 0 else Outcome(t, ops[0]).1 + TotalTurns(Outcome(t, ops[0]).0, ops[1..])
  }

  /** No tree of the run has more than `most` nodes. */
  ghost predicate Within(t: Tree, ops: seq<Op>, most: nat)
    decreases |ops|
  {
    Size(t) <= most && (ops != [] ==> Within(Outcome(t, ops[0]).0, ops[1..], most))
  }

  lemma OneMore(n: nat, k: nat)
    requires n > 0
    ensures (n - 1) * k + k == n * k
  {}

  lemma {:induction false} RunPaid(t: Tree, ops: seq<Op>, most: nat)
    requires Within(t, ops, most)
    ensures TotalTurns(t, ops) <= 2 * Potential(t) + |ops| * (12 * Rank(most) + 4)
    decreases |ops|
  {
    hide Rank, Outcome, Potential, Size;
    if ops != [] {
      var u := Outcome(t, ops[0]).0;
      assert Within(u, ops[1..], most);
      RunPaid(u, ops[1..], most);
      WithinNow(u, ops[1..], most);
      OpPaid(t, ops[0], most);
      OneMore(|ops|, 12 * Rank(most) + 4);
    }
  }

  lemma WithinNow(t: Tree, ops: seq<Op>, most: nat)
    requires Within(t, ops, most)
    ensures Size(t) <= most
  {}

  /** The amortised bound: any `m` operations from the empty tree on, with at most `most` nodes at a time, turn the splay
      loops at most m * (12 lg(most) + 4) times. */
  lemma AmortisedBound(ops: seq<Op>, most: nat)
    requires Within(Leaf, ops, most)
    ensures TotalTurns(Leaf, ops) <= |ops| * (12 * Rank(most) + 4)
  {
    RunPaid(Leaf, ops, most);
  }

  /** The rank is the logarithm to base two, rounded down. */
  lemma {:induction false} RankIsLog(n: nat)
    requires n >= 1
    ensures Power(Rank(n)) <= n < 2 * Power(Rank(n))
  {
    if n > 1 {
      RankIsLog(n / 2);
    }
  }

  function Power(k: nat): nat {
    if k == 0 then 1 else 2 * Power(k - 1)
  }
}
