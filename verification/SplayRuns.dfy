/** Any run of operations on a splay tree is a run of operations on a set of keys (include/tree.h:112-235). */
module SplayRuns {
  import opened SplayShape
  import opened SplayCost

  // ----- the splayed tree

  lemma {:induction false} SplayedInOrder(t: Tree, p: Probe)
    requires t.Fork?
    ensures InOrder(Splayed(t, p)) == InOrder(t)
    decreases Size(t)
  {
    if Cmp(p, t.node.key) != 0 {
      OnwardSmaller(t, p);
      var v, w := Zigged(t, p), Onward(t, p);
      ZiggedInOrder(t, p);
      if w.Fork? {
        SplayedInOrder(w, p);
        UpInOrder(Splayed(w, p), v);
      }
    }
  }

  lemma ZiggedInOrder(t: Tree, p: Probe)
    requires t.Fork?
    ensures InOrder(Zigged(t, p)) == InOrder(t)
  {
    if Cmp(p, t.node.key) < 0 && t.left.Fork? {
      RotRInOrder(t);
    }
    if Cmp(p, t.node.key) > 0 && t.right.Fork? {
      RotLInOrder(t);
    }
  }

  lemma UpInOrder(u: Tree, v: Tree)
    requires u.Fork? && v.Fork?
    ensures InOrder(u) == InOrder(v.left) ==> InOrder(UpFromLeft(u, v)) == InOrder(v)
    ensures InOrder(u) == InOrder(v.right) ==> InOrder(UpFromRight(u, v)) == InOrder(v)
  {
    var l, r := UpFromLeft(u, v), UpFromRight(u, v);
    Reassociate(InOrder(u.left), u.node, InOrder(u.right), v.node, InOrder(v.right));
    Reassociate(InOrder(v.left), v.node, InOrder(u.left), u.node, InOrder(u.right));
    assert InOrder(l.right) == InOrder(u.right) + [v.node] + InOrder(v.right);
    assert InOrder(r.left) == InOrder(v.left) + [v.node] + InOrder(u.left);
  }

  lemma {:induction false} SplayedClosest(t: Tree, p: Probe)
    requires t.Fork? && Sorted(InOrder(t))
    ensures Closest(Splayed(t, p), p)
    decreases Size(t)
  {
    if Cmp(p, t.node.key) != 0 {
      OnwardSmaller(t, p);
      var v, w := Zigged(t, p), Onward(t, p);
      ZiggedInOrder(t, p);
      SortedAround(v);
      if w.Fork? {
        SplayedClosest(w, p);
        if Cmp(p, t.node.key) < 0 {
          UpFromLeftClosest(Splayed(w, p), v, p);
        } else {
          UpFromRightClosest(Splayed(w, p), v, p);
        }
      }
    }
  }

  lemma UpFromLeftClosest(u: Tree, v: Tree, p: Probe)
    requires Closest(u, p) && v.Fork? && Cmp(p, v.node.key) < 0 && KeysAbove(InOrder(v.right), Key(v.node.key))
    ensures Closest(UpFromLeft(u, v), p)
  {
    var s, a, c := InOrder(UpFromLeft(u, v).right), InOrder(u.right), InOrder(v.right);
    assert s == a + [v.node] + c;
    if Cmp(p, u.node.key) > 0 {
      forall i | 0 <= i < |s|
        ensures Cmp(p, s[i].key) < 0
      {
        assert s[i] == if i < |a| then a[i] else if i == |a| then v.node else c[i - |a| - 1];
      }
    }
  }

  lemma UpFromRightClosest(u: Tree, v: Tree, p: Probe)
    requires Closest(u, p) && v.Fork? && Cmp(p, v.node.key) > 0 && KeysBelow(InOrder(v.left), Key(v.node.key))
    ensures Closest(UpFromRight(u, v), p)
  {
    var s, a, c := InOrder(UpFromRight(u, v).left), InOrder(v.left), InOrder(u.left);
    assert s == a + [v.node] + c;
    if Cmp(p, u.node.key) < 0 {
      forall i | 0 <= i < |s|
        ensures Cmp(p, s[i].key) > 0
      {
        assert s[i] == if i < |a| then a[i] else if i == |a| then v.node else c[i - |a| - 1];
      }
    }
  }

  // ----- one operation, on the set

  ghost function Keys(s: seq<Node>): set<int> {
    set i | 0 <= i < |s| :: s[i].key
  }

  lemma KeysOne(n: Node)
    ensures Keys([n]) == {n.key}
  {
    assert [n][0].key in Keys([n]);
  }

  lemma KeysAppend(a: seq<Node>, b: seq<Node>)
    ensures Keys(a + b) == Keys(a) + Keys(b)
  {
    forall k
      ensures k in Keys(a + b) <==> k in Keys(a) + Keys(b)
    {
      if k in Keys(a) {
        var i :| 0 <= i < |a| && a[i].key == k;
        assert (a + b)[i] == a[i];
      }
      if k in Keys(b) {
        var i :| 0 <= i < |b| && b[i].key == k;
        assert (a + b)[|a| + i] == b[i];
      }
    }
  }

  lemma KeysInserted(s: seq<Node>, n: Node, s': seq<Node>)
    requires Inserted(s, n, s')
    ensures Keys(s') == Keys(s) + {n.key}
  {
    var i :| 0 <= i <= |s| && s' == s[..i] + [n] + s[i..];
    KeysAppend(s[..i] + [n], s[i..]);
    KeysAppend(s[..i], [n]);
    KeysAppend(s[..i], s[i..]);
    KeysOne(n);
    assert s[..i] + s[i..] == s;
  }

  /** In a sorted sequence the key of a node taken out is gone. */
  lemma KeysTakenOut(s: seq<Node>, n: Node, s': seq<Node>)
    requires Inserted(s, n, s') && Sorted(s')
    ensures Keys(s) == Keys(s') - {n.key}
  {
    KeysInserted(s, n, s');
    var i :| 0 <= i <= |s| && s' == s[..i] + [n] + s[i..];
    assert s'[i] == n;
    forall j | 0 <= j < |s|
      ensures s[j].key != n.key
    {
      assert s[j] == s'[if j < i then j else j + 1];
    }
  }

  ghost function SetAfter(keys: set<int>, op: Op): set<int> {
    match op
    case Find(x) => keys
    case Insert(n) => keys + {n.key}
    case Remove(x) => keys - {x}
    case Extreme(low) => keys
  }

  /** What the caller learns: whether the key was there before the operation. */
  ghost predicate Hit(t: Tree, op: Op) {
    t.Fork? &&
    match op
    case Find(x) => Splayed(t, Key(x)).node.key == x
    case Insert(n) => Splayed(t, Key(n.key)).node.key == n.key
    case Remove(x) => Splayed(t, Key(x)).node.key == x
    case Extreme(low) => true
  }

  ghost predicate HitSet(keys: set<int>, op: Op) {
    match op
    case Find(x) => x in keys
    case Insert(n) => n.key in keys
    case Remove(x) => x in keys
    case Extreme(low) => keys != {}
  }

  /** The root after a splay for `x` tells whether `x` is there. */
  lemma RootTells(t: Tree, x: int)
    requires t.Fork? && Sorted(InOrder(t))
    ensures var u := Splayed(t, Key(x));
      && InOrder(u) == InOrder(t) && Closest(u, Key(x)) && (u.node.key == x <==> x in Keys(InOrder(t)))
  {
    hide Splayed, Closest;
    SplayedInOrder(t, Key(x));
    SplayedClosest(t, Key(x));
    ClosestFinds(Splayed(t, Key(x)), x);
  }

  /** The second splay of a removal leaves its root without a right child, so nothing is lost when the right half is hung there. */
  lemma RejoinedWhole(u: Tree)
    requires u.Fork? && u.left.Fork? && Sorted(InOrder(u))
    ensures Splayed(u.left, Key(u.node.key)).right.Leaf?
    ensures var r := Rejoined(u, u.node.key); Sorted(InOrder(r)) && Inserted(InOrder(r), u.node, InOrder(u))
  {
    hide Splayed;
    var w := Splayed(u.left, Key(u.node.key));
    SortedAround(u);
    SplayedInOrder(u.left, Key(u.node.key));
    SplayedClosest(u.left, Key(u.node.key));
    ClosestAbove(w, u.node.key);
    Joined(u, w);
  }

  lemma OpIsSetOp(t: Tree, op: Op)
    requires Sorted(InOrder(t))
    ensures var u := Outcome(t, op).0; Sorted(InOrder(u)) && Keys(InOrder(u)) == SetAfter(Keys(InOrder(t)), op)
    ensures Hit(t, op) <==> HitSet(Keys(InOrder(t)), op)
  {
    hide Splayed, Turns, Closest, Rejoined;
    if t.Leaf? {
      if op.Insert? {
        KeysOne(op.n);
        assert InOrder(Fork(Leaf, op.n, Leaf)) == [op.n];
      }
    } else {
      match op {
        case Find(x) => RootTells(t, x);
        case Insert(n) => GrownKeys(t, n);
        case Remove(x) => ShrunkKeys(t, x);
        case Extreme(low) =>
          SplayedInOrder(t, if low then Lowest else Highest);
          KeysAppend(InOrder(t.left) + [t.node], InOrder(t.right));
          KeysAppend(InOrder(t.left), [t.node]);
          KeysOne(t.node);
      }
    }
  }

  lemma GrownKeys(t: Tree, n: Node)
    requires t.Fork? && Sorted(InOrder(t))
    ensures var u := Grown(Splayed(t, Key(n.key)), n); Sorted(InOrder(u)) && Keys(InOrder(u)) == Keys(InOrder(t)) + {n.key}
    ensures Splayed(t, Key(n.key)).node.key == n.key <==> n.key in Keys(InOrder(t))
  {
    hide Splayed, Closest;
    var u := Splayed(t, Key(n.key));
    RootTells(t, n.key);
    if n.key < u.node.key {
      InsertedLowIn(u, n);
      KeysInserted(InOrder(u), n, InOrder(InsertedLow(u, n)));
    } else if n.key > u.node.key {
      InsertedHighIn(u, n);
      KeysInserted(InOrder(u), n, InOrder(InsertedHigh(u, n)));
    }
  }

  lemma ShrunkKeys(t: Tree, x: int)
    requires t.Fork? && Sorted(InOrder(t))
    ensures var u := Outcome(t, Remove(x)).0; Sorted(InOrder(u)) && Keys(InOrder(u)) == Keys(InOrder(t)) - {x}
    ensures Splayed(t, Key(x)).node.key == x <==> x in Keys(InOrder(t))
  {
    hide Splayed, Turns, Closest, Rejoined, Outcome;
    var u := Splayed(t, Key(x));
    RootTells(t, x);
    RemoveOutcome(t, x);
    if u.node.key == x {
      if u.left.Leaf? {
        RootGone(u);
        KeysTakenOut(InOrder(u.right), u.node, InOrder(u));
      } else {
        RejoinedWhole(u);
        KeysTakenOut(InOrder(Rejoined(u, x)), u.node, InOrder(u));
      }
    }
  }

  // ----- runs

  ghost function After(t: Tree, ops: seq<Op>): Tree
    decreases |ops|
  {
    if ops == [] then t else After(Outcome(t, ops[0]).0, ops[1..])
  }

  ghost function SetAfterAll(keys: set<int>, ops: seq<Op>): set<int>
    decreases |ops|
  {
    if ops == [] then keys else SetAfterAll(SetAfter(keys, ops[0]), ops[1..])
  }

  lemma {:induction false} RunFrom(t: Tree, ops: seq<Op>)
    requires Sorted(InOrder(t))
    ensures Sorted(InOrder(After(t, ops))) && Keys(InOrder(After(t, ops))) == SetAfterAll(Keys(InOrder(t)), ops)
    decreases |ops|
  {
    hide Outcome, Keys, Sorted, InOrder;
    if ops != [] {
      OpIsSetOp(t, ops[0]);
      RunFrom(Outcome(t, ops[0]).0, ops[1..]);
    }
  }

  /** From the empty tree on, every run leaves a sorted tree with exactly the keys of the set, and the next operation finds its
      key exactly when the set has it. */
  lemma RunIsSetRun(ops: seq<Op>, op: Op)
    ensures Sorted(InOrder(After(Leaf, ops))) && Keys(InOrder(After(Leaf, ops))) == SetAfterAll({}, ops)
    ensures Hit(After(Leaf, ops), op) <==> HitSet(SetAfterAll({}, ops), op)
  {
    hide Hit, HitSet, Outcome;
    assert InOrder(Leaf) == [] && Keys([]) == {};
    RunFrom(Leaf, ops);
    OpIsSetOp(After(Leaf, ops), op);
  }
}
