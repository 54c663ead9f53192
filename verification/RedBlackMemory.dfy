/** How the fields of the nodes spell out a tree, and what each group of assignments does to it. */
module RedBlackMemory {
  import opened RedBlackShape

  /** The four mutable fields of one node. */
  datatype Link = Link(left: Node?, right: Node?, parent: Node?, color: Color)

  /** The contents of all node fields. */
  type Mem = map<Node, Link>

  ghost function Nodes(t: Tree): set<Node> {
    match t
    case Leaf => {}
    case Fork(l, _, n, r) => Nodes(l) + {n} + Nodes(r)
  }

  ghost function CtxNodes(k: Ctx): set<Node> {
    match k
    case Top => {}
    case InLeft(_, n, r, up) => {n} + Nodes(r) + CtxNodes(up)
    case InRight(l, _, n, up) => Nodes(l) + {n} + CtxNodes(up)
  }

  ghost predicate Apart(t: Tree) {
    match t
    case Leaf => true
    case Fork(l, _, n, r) =>
      && n !in Nodes(l) && n !in Nodes(r) && Nodes(l) !! Nodes(r)
      && Apart(l) && Apart(r)
  }

  ghost predicate CtxApart(k: Ctx) {
    match k
    case Top => true
    case InLeft(_, n, r, up) =>
      n !in Nodes(r) && n !in CtxNodes(up) && Nodes(r) !! CtxNodes(up) && Apart(r) && CtxApart(up)
    case InRight(l, _, n, up) =>
      n !in Nodes(l) && n !in CtxNodes(up) && Nodes(l) !! CtxNodes(up) && Apart(l) && CtxApart(up)
  }

  ghost predicate TreeRep(m: Mem, t: Tree, p: Node?, up: Node?) {
    match t
    case Leaf => p == null
    case Fork(l, c, n, r) =>
      && p == n && n in m && m[n].color == c && m[n].parent == up
      && TreeRep(m, l, m[n].left, n) && TreeRep(m, r, m[n].right, n)
  }

  ghost predicate CtxRep(m: Mem, k: Ctx, p: Node?, up: Node?, root: Node?) {
    match k
    case Top => up == null && p == root
    case InLeft(c, n, r, k') =>
      && up == n && n in m && m[n].left == p && m[n].color == c
      && TreeRep(m, r, m[n].right, n) && CtxRep(m, k', n, m[n].parent, root)
    case InRight(l, c, n, k') =>
      && up == n && n in m && m[n].right == p && m[n].color == c
      && TreeRep(m, l, m[n].left, n) && CtxRep(m, k', n, m[n].parent, root)
  }

  /** The nodes of the whole tree are different nodes. */
  ghost predicate Separate(k: Ctx, t: Tree) {
    if k == Top then Apart(t) else Separate(k.up, Close(k, t))
  }

  lemma {:induction false} SeparateParts(k: Ctx, t: Tree)
    ensures Separate(k, t) <==> Apart(t) && CtxApart(k) && Nodes(t) !! CtxNodes(k)
  {
    if k != Top {
      SeparateParts(k.up, Close(k, t));
    }
  }

  /** The fields spell out `t` in the hole of `k`; `p` is the root of `t` and `up` its parent link. */
  ghost predicate At(m: Mem, root: Node?, k: Ctx, t: Tree, p: Node?, up: Node?) {
    Separate(k, t) && TreeRep(m, t, p, up) && CtxRep(m, k, p, up, root)
  }

  ghost predicate Agree(m: Mem, m': Mem, s: set<Node>) {
    forall n <- s :: n in m ==> n in m' && m[n] == m'[n]
  }

  lemma {:induction false} TreeFrame(m: Mem, m': Mem, t: Tree, p: Node?, up: Node?)
    requires TreeRep(m, t, p, up) && Agree(m, m', Nodes(t))
    ensures TreeRep(m', t, p, up)
  {
    if t.Fork? {
      TreeFrame(m, m', t.left, m[t.node].left, t.node);
      TreeFrame(m, m', t.right, m[t.node].right, t.node);
    }
  }

  lemma {:induction false} CtxFrame(m: Mem, m': Mem, k: Ctx, p: Node?, up: Node?, root: Node?)
    requires CtxRep(m, k, p, up, root) && Agree(m, m', CtxNodes(k))
    ensures CtxRep(m', k, p, up, root)
  {
    match k
    case Top =>
    case InLeft(c, n, r, k') =>
      TreeFrame(m, m', r, m[n].right, n);
      CtxFrame(m, m', k', n, m[n].parent, root);
    case InRight(l, c, n, k') =>
      TreeFrame(m, m', l, m[n].left, n);
      CtxFrame(m, m', k', n, m[n].parent, root);
  }

  // Parent link of `n`, if there is such a node, becomes `up`.
  ghost function WithParent(m: Mem, n: Node?, up: Node?): Mem
    requires n != null ==> n in m
  {
    if n == null then m else m[n := m[n].(parent := up)]
  }

  // The slot of `up` that holds `p` becomes `q`.
  ghost function WithChild(m: Mem, up: Node?, p: Node?, q: Node?): Mem
    requires up != null ==> up in m
  {
    if up == null then m
    else if m[up].left == p then m[up := m[up].(left := q)]
    else m[up := m[up].(right := q)]
  }

  lemma {:induction false} RootIn(m: Mem, t: Tree, p: Node?, up: Node?)
    requires TreeRep(m, t, p, up)
    ensures p == null <==> t == Leaf
    ensures p != null ==> p == t.node && p in Nodes(t) && p in m && m[p].parent == up
  {}

  lemma {:induction false} UpIn(m: Mem, k: Ctx, p: Node?, up: Node?, root: Node?)
    requires CtxRep(m, k, p, up, root)
    ensures up == null <==> k == Top
    ensures up != null ==> up in CtxNodes(k) && up in m && up == k.node
  {}

  // Replacing what hangs below a context: only the slot that held `p` changes.
  lemma {:induction false} CtxRelink(m: Mem, k: Ctx, p: Node, q: Node?, up: Node?, root: Node?)
    requires CtxRep(m, k, p, up, root) && CtxApart(k) && p !in CtxNodes(k)
    ensures up != null ==> up in m
    ensures CtxRep(WithChild(m, up, p, q), k, q, up, if up == null then q else root)
  {
    match k
    case Top =>
    case InLeft(c, n, r, k') =>
      var m' := WithChild(m, up, p, q);
      TreeFrame(m, m', r, m[n].right, n);
      CtxFrame(m, m', k', n, m[n].parent, root);
    case InRight(l, c, n, k') =>
      RootIn(m, l, m[n].left, n);
      var m' := WithChild(m, up, p, q);
      TreeFrame(m, m', l, m[n].left, n);
      CtxFrame(m, m', k', n, m[n].parent, root);
  }

  lemma {:induction false} Reparent(m: Mem, t: Tree, p: Node?, up: Node?, up': Node?)
    requires TreeRep(m, t, p, up) && Apart(t)
    ensures p != null ==> p in m
    ensures TreeRep(WithParent(m, p, up'), t, p, up')
  {
    if t.Fork? {
      var m' := WithParent(m, p, up');
      TreeFrame(m, m', t.left, m[p].left, p);
      TreeFrame(m, m', t.right, m[p].right, p);
    }
  }

  // One level of a subtree, seen against the nodes outside it.
  lemma Unfold(m: Mem, t: Tree, p: Node?, up: Node?, outside: set<Node>)
    requires t.Fork? && Apart(t) && TreeRep(m, t, p, up) && Nodes(t) !! outside
    ensures Nodes(t) == Nodes(t.left) + {t.node} + Nodes(t.right)
    ensures t.node !in Nodes(t.left) && t.node !in Nodes(t.right) && Nodes(t.left) !! Nodes(t.right)
    ensures Nodes(t.left) !! outside && t.node !in outside && Nodes(t.right) !! outside
    ensures Apart(t.left) && Apart(t.right)
    ensures p == t.node && p in m && m[p].color == t.color && m[p].parent == up
    ensures TreeRep(m, t.left, m[p].left, p) && TreeRep(m, t.right, m[p].right, p)
  {}

  // ----- moving the focus

  lemma Climb(m: Mem, root: Node?, k: Ctx, t: Tree, p: Node?, up: Node?)
    requires At(m, root, k, t, p, up) && k != Top
    ensures up != null && up in m && up == k.node
    ensures At(m, root, k.up, Close(k, t), up, m[up].parent)
    ensures if k.InLeft? then m[up].left == p else m[up].right == p
    ensures k.InLeft? && t.Fork? ==> m[up].right != p
    ensures k.InRight? && t.Fork? ==> m[up].left != p
  {
    SeparateParts(k, t);
  }

  lemma Descend(m: Mem, root: Node?, k: Ctx, t: Tree, p: Node?, up: Node?)
    requires At(m, root, k, t, p, up) && t.Fork?
    ensures p != null && p in m && p == t.node
    ensures At(m, root, InLeft(t.color, p, t.right, k), t.left, m[p].left, p)
    ensures At(m, root, InRight(t.left, t.color, p, k), t.right, m[p].right, p)
  {
    assert Close(InLeft(t.color, p, t.right, k), t.left) == t == Close(InRight(t.left, t.color, p, k), t.right);
  }

  ghost function Painted(m: Mem, n: Node, c: Color): Mem
    requires n in m
  {
    m[n := m[n].(color := c)]
  }

  lemma Paint(m: Mem, root: Node?, k: Ctx, t: Tree, p: Node?, up: Node?, c: Color)
    requires At(m, root, k, t, p, up) && t.Fork?
    ensures p in m && At(Painted(m, p, c), root, k, t.(color := c), p, up)
  {
    var m' := Painted(m, p, c);
    SeparateParts(k, t);
    SeparateParts(k, t.(color := c));
    Unfold(m, t, p, up, CtxNodes(k));
    TreeFrame(m, m', t.left, m[p].left, p);
    TreeFrame(m, m', t.right, m[p].right, p);
    CtxFrame(m, m', k, p, up, root);
  }

  /** Where the subtree and the hole are, as pointers. */
  ghost function Ptr(t: Tree): Node? {
    if t.Leaf? then null else t.node
  }

  ghost function Up(k: Ctx): Node? {
    if k == Top then null else k.node
  }

  ghost predicate Focus(m: Mem, root: Node?, k: Ctx, t: Tree) {
    At(m, root, k, t, Ptr(t), Up(k))
  }

  /** The links around a focus, one step in each direction. */
  lemma Around(m: Mem, root: Node?, k: Ctx, t: Tree)
    requires Focus(m, root, k, t)
    ensures t.Fork? ==> t.node in m && m[t.node] == Link(Ptr(t.left), Ptr(t.right), Up(k), t.color)
    ensures k != Top ==> k.node in m && m[k.node].color == k.color && m[k.node].parent == Up(k.up) && Focus(m, root, k.up, Close(k, t))
    ensures k.InLeft? ==> m[k.node].left == Ptr(t) && m[k.node].right == Ptr(k.right) && (t.Fork? || k.right.Fork? ==> Ptr(k.right) != Ptr(t))
    ensures k.InRight? ==> m[k.node].right == Ptr(t) && m[k.node].left == Ptr(k.left) && (t.Fork? || k.left.Fork? ==> Ptr(k.left) != Ptr(t))
    ensures k == Top <==> Ptr(t) == root
  {
    RootIn(m, t, Ptr(t), Up(k));
    if t.Fork? {
      RootIn(m, t.left, m[t.node].left, t.node);
      RootIn(m, t.right, m[t.node].right, t.node);
    }
    if k != Top {
      SeparateParts(k, t);
      Climb(m, root, k, t, Ptr(t), Up(k));
      UpIn(m, k.up, k.node, m[k.node].parent, root);
      if k.InLeft? {
        RootIn(m, k.right, m[k.node].right, k.node);
      } else {
        RootIn(m, k.left, m[k.node].left, k.node);
      }
      RootAbove(m, k, Ptr(t), Up(k), root);
    }
  }

  lemma {:induction false} RootAbove(m: Mem, k: Ctx, p: Node?, up: Node?, root: Node?)
    requires CtxRep(m, k, p, up, root) && k != Top
    ensures root != null && root in CtxNodes(k)
  {
    if k.up != Top {
      RootAbove(m, k.up, k.node, m[k.node].parent, root);
    }
  }

  lemma DownLeft(m: Mem, root: Node?, k: Ctx, t: Tree)
    requires Focus(m, root, k, t) && t.Fork?
    ensures Focus(m, root, InLeft(t.color, t.node, t.right, k), t.left)
  {
    Descend(m, root, k, t, t.node, Up(k));
    RootIn(m, t.left, m[t.node].left, t.node);
  }

  lemma DownRight(m: Mem, root: Node?, k: Ctx, t: Tree)
    requires Focus(m, root, k, t) && t.Fork?
    ensures Focus(m, root, InRight(t.left, t.color, t.node, k), t.right)
  {
    Descend(m, root, k, t, t.node, Up(k));
    RootIn(m, t.right, m[t.node].right, t.node);
  }

  lemma PaintLeft(m: Mem, root: Node?, k: Ctx, t: Tree, c: Color)
    requires Focus(m, root, k, t) && t.Fork? && t.left.Fork?
    ensures var n := t.left.node; n in m && Focus(Painted(m, n, c), root, k, t.(left := t.left.(color := c)))
  {
    DownLeft(m, root, k, t);
    var k' := InLeft(t.color, t.node, t.right, k);
    var n := t.left.node;
    Paint(m, root, k', t.left, n, t.node, c);
    Around(Painted(m, n, c), root, k', t.left.(color := c));
  }

  lemma PaintRight(m: Mem, root: Node?, k: Ctx, t: Tree, c: Color)
    requires Focus(m, root, k, t) && t.Fork? && t.right.Fork?
    ensures var n := t.right.node; n in m && Focus(Painted(m, n, c), root, k, t.(right := t.right.(color := c)))
  {
    DownRight(m, root, k, t);
    var k' := InRight(t.left, t.color, t.node, k);
    var n := t.right.node;
    Paint(m, root, k', t.right, n, t.node, c);
    Around(Painted(m, n, c), root, k', t.right.(color := c));
  }

  lemma ChildColors(m: Mem, root: Node?, k: Ctx, t: Tree)
    requires Focus(m, root, k, t) && t.Fork?
    ensures t.left.Fork? ==> t.left.node in m && m[t.left.node].color == t.left.color
    ensures t.right.Fork? ==> t.right.node in m && m[t.right.node].color == t.right.color
  {
    RootIn(m, t.left, m[t.node].left, t.node);
    RootIn(m, t.right, m[t.node].right, t.node);
  }

  lemma SiblingColor(m: Mem, root: Node?, k: Ctx, t: Tree)
    requires Focus(m, root, k, t) && k != Top
    ensures var s := if k.InLeft? then k.right else k.left; s.Fork? ==> s.node in m && m[s.node].color == s.color
  {
    Around(m, root, k, t);
    ChildColors(m, root, k.up, Close(k, t));
  }

  /** A tree seen from its top. */
  lemma {:induction false} FromTop(m: Mem, root: Node?, k: Ctx, t: Tree)
    requires Focus(m, root, k, t)
    ensures Focus(m, root, Top, Plug(k, t)) && root == Ptr(Plug(k, t))
  {
    Around(m, root, k, t);
    if k != Top {
      FromTop(m, root, k.up, Close(k, t));
    }
  }

  lemma {:induction false} Listed(t: Tree, x: Node)
    ensures x in Nodes(t) <==> x in InOrder(t)
  {
    if t.Fork? {
      Listed(t.left, x);
      Listed(t.right, x);
    }
  }

  lemma NotListed(t: Tree, n: Node)
    requires NoKey(InOrder(t), n.key)
    ensures n !in Nodes(t)
  {
    Listed(t, n);
  }

  lemma InsertedMember(s: seq<Node>, n: Node, s': seq<Node>, x: Node)
    requires Inserted(s, n, s')
    ensures x in s' <==> x in s || x == n
  {
    var i :| 0 <= i <= |s| && s' == s[..i] + [n] + s[i..];
    assert s == s[..i] + s[i..];
    assert x in s <==> x in s[..i] || x in s[i..];
  }

  lemma NodesInserted(t: Tree, n: Node, t': Tree)
    requires Inserted(InOrder(t), n, InOrder(t'))
    ensures Nodes(t') == Nodes(t) + {n}
  {
    var s, s' := Nodes(t) + {n}, Nodes(t');
    forall x | x in s ensures x in s' { Listed(t, x); Listed(t', x); InsertedMember(InOrder(t), n, InOrder(t'), x); }
    forall x | x in s' ensures x in s { Listed(t, x); Listed(t', x); InsertedMember(InOrder(t), n, InOrder(t'), x); }
  }

  lemma {:induction false} TreeKnown(m: Mem, t: Tree, p: Node?, up: Node?)
    requires TreeRep(m, t, p, up)
    ensures Nodes(t) <= m.Keys
  {
    if t.Fork? {
      TreeKnown(m, t.left, m[p].left, p);
      TreeKnown(m, t.right, m[p].right, p);
    }
  }

  lemma {:induction false} CtxKnown(m: Mem, k: Ctx, p: Node?, up: Node?, root: Node?)
    requires CtxRep(m, k, p, up, root)
    ensures CtxNodes(k) <= m.Keys
  {
    match k
    case Top =>
    case InLeft(c, n, r, k') =>
      TreeKnown(m, r, m[n].right, n);
      CtxKnown(m, k', n, m[n].parent, root);
    case InRight(l, c, n, k') =>
      TreeKnown(m, l, m[n].left, n);
      CtxKnown(m, k', n, m[n].parent, root);
  }

  /** RB_SET and the link from above: a new red leaf fills an empty hole. */
  ghost function LinksNew(m: Mem, k: Ctx, n: Node): Mem
    requires k != Top ==> k.node in m
  {
    var m1 := m[n := Link(null, null, Up(k), Red)];
    match k
    case Top => m1
    case InLeft(_, u, _, _) => m1[u := m1[u].(left := n)]
    case InRight(_, _, u, _) => m1[u := m1[u].(right := n)]
  }

  lemma NewLeaf(m: Mem, root: Node?, k: Ctx, n: Node)
    requires Focus(m, root, k, Leaf) && n !in m
    ensures k != Top ==> k.node in m
    ensures Focus(LinksNew(m, k, n), if k == Top then n else root, k, Fork(Leaf, Red, n, Leaf))
  {
    SeparateParts(k, Leaf);
    SeparateParts(k, Fork(Leaf, Red, n, Leaf));
    Around(m, root, k, Leaf);
    CtxKnown(m, k, null, Up(k), root);
    var m1 := m[n := Link(null, null, Up(k), Red)];
    var m' := LinksNew(m, k, n);
    match k
    case Top =>
    case InLeft(c, u, r, k') =>
      TreeFrame(m, m', r, m[u].right, u);
      CtxFrame(m, m', k', u, m[u].parent, root);
    case InRight(l, c, u, k') =>
      TreeFrame(m, m', l, m[u].left, u);
      CtxFrame(m, m', k', u, m[u].parent, root);
  }

  // ----- rotations

  lemma RotLApart(t: Tree)
    requires t.Fork? && t.right.Fork? && Apart(t)
    ensures Apart(RotL(t)) && Nodes(RotL(t)) == Nodes(t)
  {
    var Fork(a, _, x, Fork(b, _, y, e)) := t;
    assert Nodes(t.right) == Nodes(b) + {y} + Nodes(e);
    assert Nodes(RotL(t).left) == Nodes(a) + {x} + Nodes(b);
  }

  // The inner subtree has changed hands, and the new root has its parent link.
  ghost function LinksMidL(m: Mem, x: Node): Mem
    requires x in m && m[x].right != null && m[x].right in m
    requires m[m[x].right].left != null ==> m[m[x].right].left in m
  {
    var y := m[x].right;
    var m1 := WithParent(m[x := m[x].(right := m[y].left)], m[y].left, x);
    m1[y := m1[y].(parent := m1[x].parent)]
  }

  // The links after a left rotation at `x`.
  ghost function LinksRotL(m: Mem, x: Node): Mem
    requires LinksMidL.requires(m, x)
    requires m[x].parent != null ==> m[x].parent in m
  {
    var y := m[x].right;
    var m2 := LinksMidL(m, x);
    var m3 := WithChild(m2, m2[x].parent, x, y);
    var m4 := m3[y := m3[y].(left := x)];
    m4[x := m4[x].(parent := y)]
  }

  /** A left rotation turns the subtree at the focus into RotL of it and leaves the rest alone. */
  lemma RotateLeftAt(m: Mem, root: Node?, k: Ctx, t: Tree, x: Node, up: Node?)
    requires At(m, root, k, t, x, up) && t.right.Fork?
    ensures LinksRotL.requires(m, x)
    ensures var y := m[x].right; At(LinksRotL(m, x), if up == null then y else root, k, RotL(t), y, up)
  {
    SeparateParts(k, t);
    RotateLeftRep(m, root, k, t, x, up);
    RotLApart(t);
    SeparateParts(k, RotL(t));
  }

  lemma RotateLeftMid(m: Mem, root: Node?, k: Ctx, t: Tree, x: Node, up: Node?)
    requires Apart(t) && CtxApart(k) && Nodes(t) !! CtxNodes(k) && t.Fork? && t.right.Fork?
    requires TreeRep(m, t, x, up) && CtxRep(m, k, x, up, root)
    ensures LinksRotL.requires(m, x)
    ensures var m', Fork(a, c, x', Fork(b, d, y, e)) := LinksMidL(m, x), t;
      && y in m && x in m' && y in m' && m'[x] == Link(m[x].left, m[y].left, up, c) && m'[y] == m[y].(parent := up) && m'[y].color == d
      && TreeRep(m', a, m[x].left, x) && TreeRep(m', b, m[y].left, x) && TreeRep(m', e, m[y].right, y)
      && CtxRep(m', k, x, up, root)
  {
    var Fork(a, c, x', Fork(b, d, y, e)) := t;
    Unfold(m, t, x, up, CtxNodes(k));
    Unfold(m, t.right, y, x, Nodes(a) + {x} + CtxNodes(k));
    RootIn(m, b, m[y].left, y);
    UpIn(m, k, x, up, root);
    var bp := m[y].left;
    var m0 := m[x := m[x].(right := bp)];
    TreeFrame(m, m0, b, bp, y);
    Reparent(m0, b, bp, y, x);
    var m' := LinksMidL(m, x);
    TreeFrame(WithParent(m0, bp, x), m', b, bp, x);
    TreeFrame(m, m', a, m[x].left, x);
    TreeFrame(m, m', e, m[y].right, y);
    CtxFrame(m, m', k, x, up, root);
  }

  lemma RotateLeftRep(m: Mem, root: Node?, k: Ctx, t: Tree, x: Node, up: Node?)
    requires Apart(t) && CtxApart(k) && Nodes(t) !! CtxNodes(k) && t.Fork? && t.right.Fork?
    requires TreeRep(m, t, x, up) && CtxRep(m, k, x, up, root)
    ensures LinksRotL.requires(m, x)
    ensures var y, m' := m[x].right, LinksRotL(m, x);
      TreeRep(m', RotL(t), y, up) && CtxRep(m', k, y, up, if up == null then y else root)
  {
    var Fork(a, c, x', Fork(b, d, y, e)) := t;
    RotateLeftMid(m, root, k, t, x, up);
    Unfold(m, t, x, up, CtxNodes(k));
    Unfold(m, t.right, y, x, Nodes(a) + {x} + CtxNodes(k));
    UpIn(m, k, x, up, root);
    var m2, m' := LinksMidL(m, x), LinksRotL(m, x);
    CtxRelink(m2, k, x, y, up, root);
    TreeFrame(m2, m', a, m[x].left, x);
    TreeFrame(m2, m', b, m[y].left, x);
    TreeFrame(m2, m', e, m[y].right, y);
    CtxFrame(WithChild(m2, up, x, y), m', k, y, up, if up == null then y else root);
  }

  lemma RotRApart(t: Tree)
    requires t.Fork? && t.left.Fork? && Apart(t)
    ensures Apart(RotR(t)) && Nodes(RotR(t)) == Nodes(t)
  {
    var Fork(Fork(a, _, y, b), _, x, e) := t;
    assert Nodes(t.left) == Nodes(a) + {y} + Nodes(b);
    assert Nodes(RotR(t).right) == Nodes(b) + {x} + Nodes(e);
  }

  // The inner subtree has changed hands, and the new root has its parent link.
  ghost function LinksMidR(m: Mem, x: Node): Mem
    requires x in m && m[x].left != null && m[x].left in m
    requires m[m[x].left].right != null ==> m[m[x].left].right in m
  {
    var y := m[x].left;
    var m1 := WithParent(m[x := m[x].(left := m[y].right)], m[y].right, x);
    m1[y := m1[y].(parent := m1[x].parent)]
  }

  // The links after a right rotation at `x`.
  ghost function LinksRotR(m: Mem, x: Node): Mem
    requires LinksMidR.requires(m, x)
    requires m[x].parent != null ==> m[x].parent in m
  {
    var y := m[x].left;
    var m2 := LinksMidR(m, x);
    var m3 := WithChild(m2, m2[x].parent, x, y);
    var m4 := m3[y := m3[y].(right := x)];
    m4[x := m4[x].(parent := y)]
  }

  lemma RotateRightAt(m: Mem, root: Node?, k: Ctx, t: Tree, x: Node, up: Node?)
    requires At(m, root, k, t, x, up) && t.left.Fork?
    ensures LinksRotR.requires(m, x)
    ensures var y := m[x].left; At(LinksRotR(m, x), if up == null then y else root, k, RotR(t), y, up)
  {
    SeparateParts(k, t);
    RotateRightRep(m, root, k, t, x, up);
    RotRApart(t);
    SeparateParts(k, RotR(t));
  }

  lemma RotateRightMid(m: Mem, root: Node?, k: Ctx, t: Tree, x: Node, up: Node?)
    requires Apart(t) && CtxApart(k) && Nodes(t) !! CtxNodes(k) && t.Fork? && t.left.Fork?
    requires TreeRep(m, t, x, up) && CtxRep(m, k, x, up, root)
    ensures LinksRotR.requires(m, x)
    ensures var m', Fork(Fork(e, d, y, b), c, x', a) := LinksMidR(m, x), t;
      && y in m && x in m' && y in m' && m'[x] == Link(m[y].right, m[x].right, up, c) && m'[y] == m[y].(parent := up) && m'[y].color == d
      && TreeRep(m', a, m[x].right, x) && TreeRep(m', b, m[y].right, x) && TreeRep(m', e, m[y].left, y)
      && CtxRep(m', k, x, up, root)
  {
    var Fork(Fork(e, d, y, b), c, x', a) := t;
    Unfold(m, t, x, up, CtxNodes(k));
    Unfold(m, t.left, y, x, Nodes(a) + {x} + CtxNodes(k));
    RootIn(m, b, m[y].right, y);
    UpIn(m, k, x, up, root);
    var bp := m[y].right;
    var m0 := m[x := m[x].(left := bp)];
    TreeFrame(m, m0, b, bp, y);
    Reparent(m0, b, bp, y, x);
    var m' := LinksMidR(m, x);
    TreeFrame(WithParent(m0, bp, x), m', b, bp, x);
    TreeFrame(m, m', a, m[x].right, x);
    TreeFrame(m, m', e, m[y].left, y);
    CtxFrame(m, m', k, x, up, root);
  }

  lemma RotateRightRep(m: Mem, root: Node?, k: Ctx, t: Tree, x: Node, up: Node?)
    requires Apart(t) && CtxApart(k) && Nodes(t) !! CtxNodes(k) && t.Fork? && t.left.Fork?
    requires TreeRep(m, t, x, up) && CtxRep(m, k, x, up, root)
    ensures LinksRotR.requires(m, x)
    ensures var y, m' := m[x].left, LinksRotR(m, x);
      TreeRep(m', RotR(t), y, up) && CtxRep(m', k, y, up, if up == null then y else root)
  {
    var Fork(Fork(e, d, y, b), c, x', a) := t;
    RotateRightMid(m, root, k, t, x, up);
    Unfold(m, t, x, up, CtxNodes(k));
    Unfold(m, t.left, y, x, Nodes(a) + {x} + CtxNodes(k));
    UpIn(m, k, x, up, root);
    var m2, m' := LinksMidR(m, x), LinksRotR(m, x);
    CtxRelink(m2, k, x, y, up, root);
    TreeFrame(m2, m', a, m[x].right, x);
    TreeFrame(m2, m', b, m[y].right, x);
    TreeFrame(m2, m', e, m[y].left, y);
    CtxFrame(WithChild(m2, up, x, y), m', k, y, up, if up == null then y else root);
  }

  /** The nodes a left rotation touches are different nodes. */
  lemma RotateLeftDistinct(m: Mem, root: Node?, k: Ctx, t: Tree, x: Node, up: Node?)
    requires At(m, root, k, t, x, up) && t.right.Fork?
    ensures x in m && t.right.node in m && m[x].right == t.right.node && m[x].parent == up && x != t.right.node
    ensures var b := m[t.right.node].left; b != null ==> b in m && b != x && b != t.right.node && b != up
    ensures up != null ==> up in m && up != x && up != t.right.node
  {
    SeparateParts(k, t);
    Unfold(m, t, x, up, CtxNodes(k));
    Unfold(m, t.right, t.right.node, x, Nodes(t.left) + {x} + CtxNodes(k));
    RootIn(m, t.right.left, m[t.right.node].left, t.right.node);
    UpIn(m, k, x, up, root);
  }

  lemma RotateRightDistinct(m: Mem, root: Node?, k: Ctx, t: Tree, x: Node, up: Node?)
    requires At(m, root, k, t, x, up) && t.left.Fork?
    ensures x in m && t.left.node in m && m[x].left == t.left.node && m[x].parent == up && x != t.left.node
    ensures var b := m[t.left.node].right; b != null ==> b in m && b != x && b != t.left.node && b != up
    ensures up != null ==> up in m && up != x && up != t.left.node
  {
    SeparateParts(k, t);
    Unfold(m, t, x, up, CtxNodes(k));
    Unfold(m, t.left, t.left.node, x, Nodes(t.right) + {x} + CtxNodes(k));
    RootIn(m, t.left.right, m[t.left.node].right, t.left.node);
    UpIn(m, k, x, up, root);
  }

  // ----- taking a node out

  lemma {:induction false} FocusOn(m: Mem, root: Node?, k0: Ctx, t0: Tree, b0: nat, n: Node) returns (k: Ctx, t: Tree, b: nat)
    requires Focus(m, root, k0, t0) && Fits(k0, t0, b0) && n in Nodes(t0)
    ensures Focus(m, root, k, t) && Fits(k, t, b) && t.Fork? && t.node == n && Whole(k, t) == Whole(k0, t0)
    decreases t0
  {
    if t0.node == n {
      k, t, b := k0, t0, b0;
    } else {
      FitsDown(k0, t0, b0);
      OpenWhole(k0, t0);
      if n in Nodes(t0.left) {
        DownLeft(m, root, k0, t0);
        k, t, b := FocusOn(m, root, InLeft(t0.color, t0.node, t0.right, k0), t0.left, BelowHeight(t0, b0), n);
      } else {
        DownRight(m, root, k0, t0);
        k, t, b := FocusOn(m, root, InRight(t0.left, t0.color, t0.node, k0), t0.right, BelowHeight(t0, b0), n);
      }
    }
  }

  /** Going down the left spine and back up again. */
  lemma {:induction false} SpineFocus(m: Mem, root: Node?, k: Ctx, t: Tree)
    requires t.Fork?
    ensures Focus(m, root, k, t) ==> Focus(m, root, Spine(k, t), MinTree(t))
    ensures Focus(m, root, Spine(k, t), MinTree(t).right) <==> Focus(m, root, k, DelMin(t))
    decreases t
  {
    if t.left.Fork? {
      var d := InLeft(t.color, t.node, t.right, k);
      SpineFocus(m, root, d, t.left);
      if Focus(m, root, k, t) {
        DownLeft(m, root, k, t);
      }
      if Focus(m, root, k, DelMin(t)) {
        DownLeft(m, root, k, DelMin(t));
      }
      if Focus(m, root, d, DelMin(t.left)) {
        Around(m, root, d, DelMin(t.left));
      }
    }
  }

  lemma {:induction false} SpineNodes(k: Ctx, t: Tree)
    requires t.Fork?
    ensures CtxNodes(Spine(k, t)) + Nodes(MinTree(t).right) == CtxNodes(k) + Nodes(DelMin(t))
    decreases t
  {
    if t.left.Fork? {
      SpineNodes(InLeft(t.color, t.node, t.right, k), t.left);
    }
  }

  ghost function LinksSplice(m: Mem, up: Node?, n: Node, c: Node?): Mem
    requires (c != null ==> c in m) && (up != null ==> up in m)
  {
    WithChild(WithParent(m, c, up), up, n, c)
  }

  /** A node with at most one child is replaced by that child. */
  lemma SpliceAt(m: Mem, root: Node?, k: Ctx, t: Tree)
    requires Focus(m, root, k, t) && t.Fork? && (t.left.Leaf? || t.right.Leaf?)
    ensures var c := if t.left.Leaf? then t.right else t.left;
      && (c.Fork? ==> c.node in m) && (k != Top ==> k.node in m)
      && t.node !in Nodes(c) && t.node !in CtxNodes(k)
      && Focus(LinksSplice(m, Up(k), t.node, Ptr(c)), if k == Top then Ptr(c) else root, k, c)
  {
    var c := if t.left.Leaf? then t.right else t.left;
    Around(m, root, k, t);
    SeparateParts(k, t);
    SeparateParts(k, c);
    Unfold(m, t, t.node, Up(k), CtxNodes(k));
    RootIn(m, c, Ptr(c), t.node);
    Reparent(m, c, Ptr(c), t.node, Up(k));
    var m1 := WithParent(m, Ptr(c), Up(k));
    CtxFrame(m, m1, k, t.node, Up(k), root);
    CtxRelink(m1, k, t.node, Ptr(c), Up(k), root);
    UpIn(m, k, t.node, Up(k), root);
    TreeFrame(m1, LinksSplice(m, Up(k), t.node, Ptr(c)), c, Ptr(c), Up(k));
  }

  /** `n` takes the place, the links and the colour of `x`. */
  ghost function LinksReplace(m: Mem, x: Node, n: Node): Mem
    requires x in m && n in m
    requires m[x].parent != null ==> m[x].parent in m
    requires m[x].left != null ==> m[x].left in m
    requires m[x].right != null ==> m[x].right in m
  {
    var m1 := WithChild(m[n := m[x]], m[x].parent, x, n);
    WithParent(WithParent(m1, m[x].left, n), m[x].right, n)
  }

  lemma ChildrenDiffer(m: Mem, root: Node?, k: Ctx, t: Tree)
    requires Focus(m, root, k, t) && t.Fork?
    ensures t.node in Nodes(t) && t.node != Ptr(t.left) && t.node != Ptr(t.right) && t.node != Up(k)
  {
    SeparateParts(k, t);
    Unfold(m, t, t.node, Up(k), CtxNodes(k));
    UpIn(m, k, t.node, Up(k), root);
  }

  lemma ReplaceAt(m: Mem, root: Node?, k: Ctx, t: Tree, n: Node)
    requires Focus(m, root, k, t) && t.Fork? && n in m && n !in Nodes(t) && n !in CtxNodes(k)
    ensures LinksReplace.requires(m, t.node, n)
    ensures Focus(LinksReplace(m, t.node, n), if k == Top then n else root, k, t.(node := n))
  {
    var x, up, l, r := t.node, Up(k), t.left, t.right;
    Around(m, root, k, t);
    SeparateParts(k, t);
    SeparateParts(k, t.(node := n));
    Unfold(m, t, x, up, CtxNodes(k));
    RootIn(m, l, Ptr(l), x);
    RootIn(m, r, Ptr(r), x);
    UpIn(m, k, x, up, root);
    var m0 := m[n := m[x]];
    CtxFrame(m, m0, k, x, up, root);
    CtxRelink(m0, k, x, n, up, root);
    var m1 := WithChild(m0, up, x, n);
    TreeFrame(m, m1, l, Ptr(l), x);
    Reparent(m1, l, Ptr(l), x, n);
    var m2 := WithParent(m1, Ptr(l), n);
    TreeFrame(m, m2, r, Ptr(r), x);
    Reparent(m2, r, Ptr(r), x, n);
    var m3 := WithParent(m2, Ptr(r), n);
    TreeFrame(m2, m3, l, Ptr(l), n);
    CtxFrame(m1, m3, k, n, up, if k == Top then n else root);
  }

  /** A node outside the tree can be forgotten. */
  lemma Forget(m: Mem, root: Node?, t: Tree, n: Node)
    requires Focus(m, root, Top, t) && n !in Nodes(t)
    ensures Focus(m - {n}, root, Top, t)
  {
    TreeFrame(m, m - {n}, t, Ptr(t), null);
  }
}
