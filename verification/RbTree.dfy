/**
 The intrusive red-black tree of libcoll: nodes with colors and parent, left and right
 pointers that are rewritten in place, and a tree that caches its first node.

 The ghost shape of a tree ties the pointers to the values of `RedBlack`.  Every pointer
 operation is stated at a focus: a subtree `t` below a path `p`.
 */
module RbTreeImplementation {
  import opened Sequences
  import opened RedBlack

  class Node {
    const key: int
    var color: Color
    var parent: Node?
    var left: Node?
    var right: Node?

    constructor (key: int)
      ensures this.key == key
    {
      this.key := key;
      color, parent, left, right := Red, null, null, null;
    }
  }

  type Shape = Tree<Node>
  type Focus = Path<Node>

  ghost function Nodes(t: Shape): set<Node> {
    match t
    case Nil => {}
    case T(l, n, _, r) => Nodes(l) + {n} + Nodes(r)
  }

  ghost function PathNodes(p: Focus): set<Node> {
    if p.Top? then {} else PathNodes(p.up) + {p.node} + Nodes(p.other)
  }

  function RootOf(t: Shape): Node? {
    if t.Nil? then null else t.node
  }

  function ParentOf(p: Focus): Node? {
    if p.Top? then null else p.node
  }

  /** No node occurs twice. */
  ghost predicate Separate(t: Shape) {
    t.Nil? ||
    (t.node !in Nodes(t.left) && t.node !in Nodes(t.right) && Nodes(t.left) !! Nodes(t.right)
     && Separate(t.left) && Separate(t.right))
  }

  ghost predicate SeparatePath(p: Focus) {
    p.Top? ||
    (p.node !in Nodes(p.other) && p.node !in PathNodes(p.up) && Nodes(p.other) !! PathNodes(p.up)
     && Separate(p.other) && SeparatePath(p.up))
  }

  /** The contents of the fields of a node. */
  datatype Link = Link(color: Color, parent: Node?, left: Node?, right: Node?)
  type Links = map<Node, Link>

  /** The links of the nodes of `t` form the shape `t` below `parent`. */
  ghost predicate Linked(m: Links, t: Shape, parent: Node?) {
    match t
    case Nil => true
    case T(l, x, c, r) => x in m && m[x] == Link(c, parent, RootOf(l), RootOf(r)) && Linked(m, l, x) && Linked(m, r, x)
  }

  /** The links around a hole that is filled by `hole` form the path `p` from `root`. */
  ghost predicate LinkedPath(m: Links, p: Focus, hole: Node?, root: Node?) {
    match p
    case Top => root == hole
    case InLeft(up, x, c, s) =>
      x in m && m[x] == Link(c, ParentOf(up), hole, RootOf(s)) && Linked(m, s, x) && LinkedPath(m, up, x, root)
    case InRight(up, s, x, c) =>
      x in m && m[x] == Link(c, ParentOf(up), RootOf(s), hole) && Linked(m, s, x) && LinkedPath(m, up, x, root)
  }

  /** The links form the tree `t` plugged into `p`. */
  ghost predicate Placed(m: Links, root: Node?, p: Focus, t: Shape) {
    && Separate(t) && SeparatePath(p) && Nodes(t) !! PathNodes(p)
    && Linked(m, t, ParentOf(p)) && LinkedPath(m, p, RootOf(t), root)
  }

  lemma GoUp(m: Links, root: Node?, p: Focus, t: Shape)
    requires !p.Top? && Placed(m, root, p, t)
    ensures Placed(m, root, p.up, if p.InLeft? then T(t, p.node, p.color, p.other) else T(p.other, p.node, p.color, t))
  {}

  lemma GoLeft(m: Links, root: Node?, p: Focus, t: Shape)
    requires t.T? && Placed(m, root, p, t)
    ensures Placed(m, root, InLeft(p, t.node, t.color, t.right), t.left)
  {}

  lemma GoRight(m: Links, root: Node?, p: Focus, t: Shape)
    requires t.T? && Placed(m, root, p, t)
    ensures Placed(m, root, InRight(p, t.left, t.node, t.color), t.right)
  {}

  /** The path to the other subtree of `p`, when `t` fills the hole of `p`. */
  function Across(p: Focus, t: Shape): Focus
    requires !p.Top?
  {
    if p.InLeft? then InRight(p.up, t, p.node, p.color) else InLeft(p.up, p.node, p.color, t)
  }

  /** `p` with another subtree `s` beside its hole, below a node of color `c`. */
  function WithOther(p: Focus, c: Color, s: Shape): Focus
    requires !p.Top?
  {
    if p.InLeft? then InLeft(p.up, p.node, c, s) else InRight(p.up, s, p.node, c)
  }

  /** The links form the tree `t`. */
  ghost predicate Whole(m: Links, root: Node?, t: Shape) {
    Separate(t) && Linked(m, t, null) && root == RootOf(t)
  }

  lemma {:induction false} PlugPlaced(m: Links, root: Node?, p: Focus, t: Shape)
    requires Placed(m, root, p, t)
    ensures Whole(m, root, Plug(p, t))
    decreases p
  {
    if !p.Top? {
      GoUp(m, root, p, t);
      PlugPlaced(m, root, p.up, if p.InLeft? then T(t, p.node, p.color, p.other) else T(p.other, p.node, p.color, t));
    }
  }

  lemma {:induction false} UnplugPlaced(m: Links, root: Node?, p: Focus, t: Shape)
    requires Whole(m, root, Plug(p, t))
    ensures Placed(m, root, p, t)
    decreases p
  {
    if p.InLeft? {
      UnplugPlaced(m, root, p.up, T(t, p.node, p.color, p.other));
      GoLeft(m, root, p.up, T(t, p.node, p.color, p.other));
    } else if p.InRight? {
      UnplugPlaced(m, root, p.up, T(p.other, p.node, p.color, t));
      GoRight(m, root, p.up, T(p.other, p.node, p.color, t));
    }
  }

  ghost predicate SameOn(m: Links, m': Links, s: set<Node>) {
    forall n :: n in s && n in m ==> n in m' && m'[n] == m[n]
  }

  lemma {:induction false} FrameTree(m: Links, m': Links, t: Shape, parent: Node?)
    requires Linked(m, t, parent) && SameOn(m, m', Nodes(t))
    ensures Linked(m', t, parent)
  {
    if t.T? {
      FrameTree(m, m', t.left, t.node);
      FrameTree(m, m', t.right, t.node);
    }
  }

  lemma {:induction false} FramePath(m: Links, m': Links, p: Focus, hole: Node?, root: Node?)
    requires LinkedPath(m, p, hole, root) && SameOn(m, m', PathNodes(p))
    ensures LinkedPath(m', p, hole, root)
  {
    if !p.Top? {
      FrameTree(m, m', p.other, p.node);
      FramePath(m, m', p.up, p.node, root);
    }
  }

  /** `m'` is `m` except that the link of the hole of `p` leads to `new`. */
  ghost predicate Redirected(m: Links, m': Links, p: Focus, hole: Node?, root: Node?, root': Node?) {
    if p.Top? then root' == hole
    else root' == root && p.node in m && p.node in m' &&
         m'[p.node] == if p.InLeft? then m[p.node].(left := hole) else m[p.node].(right := hole)
  }

  lemma RedirectPath(m: Links, m': Links, p: Focus, old': Node?, hole: Node?, root: Node?, root': Node?)
    requires LinkedPath(m, p, old', root) && SeparatePath(p) && Redirected(m, m', p, hole, root, root')
    requires SameOn(m, m', PathNodes(p) - if p.Top? then {} else {p.node})
    ensures LinkedPath(m', p, hole, root')
  {
    if !p.Top? {
      FrameTree(m, m', p.other, p.node);
      FramePath(m, m', p.up, p.node, root);
    }
  }

  lemma ReparentTree(m: Links, m': Links, t: Shape, parent: Node?, parent': Node?)
    requires Linked(m, t, parent) && Separate(t)
    requires t.T? ==> t.node in m' && m'[t.node] == m[t.node].(parent := parent') && SameOn(m, m', Nodes(t) - {t.node})
    ensures Linked(m', t, parent')
  {
    if t.T? {
      FrameTree(m, m', t.left, t.node);
      FrameTree(m, m', t.right, t.node);
    }
  }

  lemma SeparateRotated(a: Shape, x: Node, c: Color, b: Shape, y: Node, c': Color, d: Shape)
    ensures Nodes(T(T(a, x, c, b), y, c', d)) == Nodes(T(a, x, c, T(b, y, c', d)))
    ensures Separate(T(T(a, x, c, b), y, c', d)) <==> Separate(T(a, x, c, T(b, y, c', d)))
  {
    var u, v := T(a, x, c, b), T(b, y, c', d);
    assert Separate(u) <==> x !in Nodes(a) && x !in Nodes(b) && Nodes(a) !! Nodes(b) && Separate(a) && Separate(b);
    assert Separate(v) <==> y !in Nodes(b) && y !in Nodes(d) && Nodes(b) !! Nodes(d) && Separate(b) && Separate(d);
    assert Nodes(u) == Nodes(a) + {x} + Nodes(b) && Nodes(v) == Nodes(b) + {y} + Nodes(d);
  }

  /** `m'` has the links of a left rotation of `m` at `x`. */
  ghost predicate TurnedLeft(m: Links, m': Links, p: Focus, a: Shape, x: Node, c: Color, b: Shape, y: Node, c': Color,
                             d: Shape) {
    && x in m' && m'[x] == Link(c, y, RootOf(a), RootOf(b))
    && y in m' && m'[y] == Link(c', ParentOf(p), x, RootOf(d))
    && (b.T? ==> b.node in m && b.node in m' && m'[b.node] == m[b.node].(parent := x))
    && forall n :: n in m && n != x && n != y && n != RootOf(b) && n != ParentOf(p) ==> n in m' && m'[n] == m[n]
  }

  lemma TurnedLeftLinked(m: Links, m': Links, p: Focus, a: Shape, x: Node, c: Color, b: Shape, y: Node, c': Color,
                         d: Shape)
    requires Linked(m, T(a, x, c, T(b, y, c', d)), ParentOf(p)) && TurnedLeft(m, m', p, a, x, c, b, y, c', d)
    requires Separate(T(a, x, c, T(b, y, c', d))) && ParentOf(p) !in Nodes(T(a, x, c, T(b, y, c', d)))
    ensures Linked(m', T(T(a, x, c, b), y, c', d), ParentOf(p))
  {
    var v := T(b, y, c', d);
    assert Linked(m, v, x) && Separate(v) && Nodes(a) !! Nodes(v);
    assert b.T? ==> b.node in Nodes(b);
    FrameTree(m, m', a, x);
    FrameTree(m, m', d, y);
    ReparentTree(m, m', b, y, x);
    assert Linked(m', T(a, x, c, b), y);
  }

  lemma RotatedLeftPlaced(m: Links, m': Links, root: Node?, root': Node?, p: Focus,
                    a: Shape, x: Node, c: Color, b: Shape, y: Node, c': Color, d: Shape)
    requires Placed(m, root, p, T(a, x, c, T(b, y, c', d)))
    requires TurnedLeft(m, m', p, a, x, c, b, y, c', d) && Redirected(m, m', p, y, root, root')
    ensures Placed(m', root', p, T(T(a, x, c, b), y, c', d))
  {
    var t := T(a, x, c, T(b, y, c', d));
    SeparateRotated(a, x, c, b, y, c', d);
    TurnedLeftLinked(m, m', p, a, x, c, b, y, c', d);
    assert x in Nodes(t) && y in Nodes(t) && (b.T? ==> b.node in Nodes(t));
    RedirectPath(m, m', p, x, y, root, root');
  }

  /** `m'` has the links of a right rotation of `m` at `y`. */
  ghost predicate TurnedRight(m: Links, m': Links, p: Focus, a: Shape, x: Node, c: Color, b: Shape, y: Node, c': Color,
                              d: Shape) {
    && x in m' && m'[x] == Link(c, ParentOf(p), RootOf(a), y)
    && y in m' && m'[y] == Link(c', x, RootOf(b), RootOf(d))
    && (b.T? ==> b.node in m && b.node in m' && m'[b.node] == m[b.node].(parent := y))
    && forall n :: n in m && n != x && n != y && n != RootOf(b) && n != ParentOf(p) ==> n in m' && m'[n] == m[n]
  }

  lemma TurnedRightLinked(m: Links, m': Links, p: Focus, a: Shape, x: Node, c: Color, b: Shape, y: Node, c': Color,
                          d: Shape)
    requires Linked(m, T(T(a, x, c, b), y, c', d), ParentOf(p)) && TurnedRight(m, m', p, a, x, c, b, y, c', d)
    requires Separate(T(T(a, x, c, b), y, c', d)) && ParentOf(p) !in Nodes(T(T(a, x, c, b), y, c', d))
    ensures Linked(m', T(a, x, c, T(b, y, c', d)), ParentOf(p))
  {
    var u := T(a, x, c, b);
    assert Linked(m, u, y) && Separate(u) && Nodes(u) !! Nodes(d);
    assert b.T? ==> b.node in Nodes(b);
    FrameTree(m, m', a, x);
    FrameTree(m, m', d, y);
    ReparentTree(m, m', b, x, y);
    assert Linked(m', T(b, y, c', d), x);
  }

  lemma RotatedRightPlaced(m: Links, m': Links, root: Node?, root': Node?, p: Focus,
                     a: Shape, x: Node, c: Color, b: Shape, y: Node, c': Color, d: Shape)
    requires Placed(m, root, p, T(T(a, x, c, b), y, c', d))
    requires TurnedRight(m, m', p, a, x, c, b, y, c', d) && Redirected(m, m', p, x, root, root')
    ensures Placed(m', root', p, T(a, x, c, T(b, y, c', d)))
  {
    var t := T(T(a, x, c, b), y, c', d);
    SeparateRotated(a, x, c, b, y, c', d);
    TurnedRightLinked(m, m', p, a, x, c, b, y, c', d);
    assert x in Nodes(t) && y in Nodes(t) && (b.T? ==> b.node in Nodes(t));
    RedirectPath(m, m', p, y, x, root, root');
  }

  lemma RotatedLeft(m: Links, m': Links, root: Node?, root': Node?, p: Focus,
                    a: Shape, x: Node, c: Color, b: Shape, y: Node, c': Color, d: Shape)
    requires Whole(m, root, Plug(p, T(a, x, c, T(b, y, c', d))))
    requires TurnedLeft(m, m', p, a, x, c, b, y, c', d) && Redirected(m, m', p, y, root, root')
    ensures Whole(m', root', Plug(p, T(T(a, x, c, b), y, c', d)))
  {
    UnplugPlaced(m, root, p, T(a, x, c, T(b, y, c', d)));
    RotatedLeftPlaced(m, m', root, root', p, a, x, c, b, y, c', d);
    PlugPlaced(m', root', p, T(T(a, x, c, b), y, c', d));
  }

  lemma RotatedRight(m: Links, m': Links, root: Node?, root': Node?, p: Focus,
                     a: Shape, x: Node, c: Color, b: Shape, y: Node, c': Color, d: Shape)
    requires Whole(m, root, Plug(p, T(T(a, x, c, b), y, c', d)))
    requires TurnedRight(m, m', p, a, x, c, b, y, c', d) && Redirected(m, m', p, x, root, root')
    ensures Whole(m', root', Plug(p, T(a, x, c, T(b, y, c', d))))
  {
    UnplugPlaced(m, root, p, T(T(a, x, c, b), y, c', d));
    RotatedRightPlaced(m, m', root, root', p, a, x, c, b, y, c', d);
    PlugPlaced(m', root', p, T(a, x, c, T(b, y, c', d)));
  }

  /** What the links say about the root of a subtree and about the node above it. */
  lemma LocalLinks(m: Links, root: Node?, p: Focus, t: Shape)
    requires t.T? && Whole(m, root, Plug(p, t))
    ensures t.node in m && m[t.node] == Link(t.color, ParentOf(p), RootOf(t.left), RootOf(t.right))
    ensures t.node != ParentOf(p) && t.node != RootOf(t.left) && t.node != RootOf(t.right)
    ensures p.Top? ==> root == t.node
    ensures !p.Top? ==>
      p.node in m && p.node != RootOf(t.left) && p.node != RootOf(t.right) && RootOf(p.other) != t.node
    ensures p.InLeft? ==>
      m[p.node].left == t.node && m[p.node] == Link(p.color, ParentOf(p.up), t.node, RootOf(p.other))
    ensures p.InRight? ==>
      m[p.node].left != t.node && m[p.node] == Link(p.color, ParentOf(p.up), RootOf(p.other), t.node)
    ensures t.left.T? ==> RootOf(t.left) != RootOf(t.right) && t.left.node in m && m[t.left.node].color == t.left.color
    ensures t.right.T? ==> t.right.node in m && m[t.right.node].color == t.right.color
  {
    UnplugPlaced(m, root, p, t);
    assert t.node in Nodes(t);
    assert Linked(m, t.left, t.node) && Linked(m, t.right, t.node);
    assert t.left.T? ==> t.left.node in Nodes(t.left);
    assert t.right.T? ==> t.right.node in Nodes(t.right);
    if !p.Top? && p.other.T? {
      assert p.other.node in Nodes(p.other);
    }
  }

  lemma UncleColor(m: Links, root: Node?, p: Focus, t: Shape)
    requires Whole(m, root, Plug(p, t)) && !p.Top?
    ensures p.other.T? ==> p.other.node in m && m[p.other.node].color == p.other.color
  {
    UnplugPlaced(m, root, p, t);
  }

  lemma PathLinks(m: Links, root: Node?, p: Focus, t: Shape)
    requires Whole(m, root, Plug(p, t)) && !p.Top?
    ensures p.node in m && m[p.node] ==
      if p.InLeft? then Link(p.color, ParentOf(p.up), RootOf(t), RootOf(p.other))
      else Link(p.color, ParentOf(p.up), RootOf(p.other), RootOf(t))
  {
    UnplugPlaced(m, root, p, t);
  }

  lemma GrandchildApart(m: Links, root: Node?, p: Focus, t: Shape)
    requires t.T? && Whole(m, root, Plug(p, t)) && !p.Top?
    ensures t.left.T? && t.left.right.T? ==> t.left.right.node != p.node
    ensures t.right.T? && t.right.left.T? ==> t.right.left.node != p.node
  {
    UnplugPlaced(m, root, p, t);
    assert t.left.T? ==> Nodes(t.left.right) <= Nodes(t.left) <= Nodes(t);
    assert t.right.T? ==> Nodes(t.right.left) <= Nodes(t.right) <= Nodes(t);
  }

  lemma RecoloredPlaced(m: Links, root: Node?, p: Focus, t: Shape, c: Color)
    requires t.T? && Placed(m, root, p, t)
    ensures t.node in m && Placed(m[t.node := m[t.node].(color := c)], root, p, T(t.left, t.node, c, t.right))
  {
    var m' := m[t.node := m[t.node].(color := c)];
    assert t.node in Nodes(t);
    FrameTree(m, m', t.left, t.node);
    FrameTree(m, m', t.right, t.node);
    FramePath(m, m', p, t.node, root);
  }

  lemma Recolored(m: Links, root: Node?, p: Focus, t: Shape, c: Color)
    requires t.T? && Whole(m, root, Plug(p, t))
    ensures t.node in m && Whole(m[t.node := m[t.node].(color := c)], root, Plug(p, T(t.left, t.node, c, t.right)))
  {
    UnplugPlaced(m, root, p, t);
    RecoloredPlaced(m, root, p, t, c);
    PlugPlaced(m[t.node := m[t.node].(color := c)], root, p, T(t.left, t.node, c, t.right));
  }

  /** A fresh leaf is hung below the empty hole of `p`. */
  lemma Attached(m: Links, m': Links, root: Node?, root': Node?, p: Focus, n: Node, c: Color)
    requires Whole(m, root, Plug(p, Nil)) && n !in Nodes(Plug(p, Nil))
    requires Redirected(m, m', p, n, root, root') && n in m' && m'[n] == Link(c, ParentOf(p), null, null)
    requires forall x :: x in m && x != n && x != ParentOf(p) ==> x in m' && m'[x] == m[x]
    ensures Whole(m', root', Plug(p, T(Nil, n, c, Nil)))
  {
    UnplugPlaced(m, root, p, Nil);
    PlugNodes(p, Nil);
    RedirectPath(m, m', p, null, n, root, root');
    PlugPlaced(m', root', p, T(Nil, n, c, Nil));
  }

  /** The root of `t` is cut out and its only child `u`, if any, takes its place. */
  lemma CutOut(m: Links, m': Links, root: Node?, root': Node?, p: Focus, t: Shape, u: Shape, c: Color)
    requires t.T? && Whole(m, root, Plug(p, t)) && (u == t.left || u == t.right)
    requires Redirected(m, m', p, RootOf(u), root, root')
    requires u.T? ==> u.node in m && u.node in m' && m'[u.node] == m[u.node].(parent := ParentOf(p), color := c)
    requires forall x :: x in m && x != t.node && x != ParentOf(p) && x != RootOf(u) ==> x in m' && m'[x] == m[x]
    ensures Whole(m', root', Plug(p, if u.Nil? then Nil else T(u.left, u.node, c, u.right)))
  {
    UnplugPlaced(m, root, p, t);
    assert Linked(m, u, t.node) && Separate(u) && Nodes(u) <= Nodes(t) && t.node !in Nodes(u);
    RecolorTree(m, m', u, t.node, ParentOf(p), c);
    RedirectPath(m, m', p, t.node, RootOf(u), root, root');
    PlugPlaced(m', root', p, Colored(u, c));
  }

  function Colored(t: Shape, c: Color): Shape {
    if t.Nil? then Nil else T(t.left, t.node, c, t.right)
  }

  lemma RecolorTree(m: Links, m': Links, t: Shape, parent: Node?, parent': Node?, c: Color)
    requires Linked(m, t, parent) && Separate(t)
    requires t.T? ==>
      t.node in m' && m'[t.node] == m[t.node].(parent := parent', color := c) && SameOn(m, m', Nodes(t) - {t.node})
    ensures Linked(m', Colored(t, c), parent') && Separate(Colored(t, c)) && Nodes(Colored(t, c)) == Nodes(t)
  {
    if t.T? {
      FrameTree(m, m', t.left, t.node);
      FrameTree(m, m', t.right, t.node);
    }
  }

  /** The links of a node `y` that takes the place of the root of `t`. */
  ghost predicate PutInPlace(m: Links, m': Links, p: Focus, t: Shape, y: Node)
    requires t.T?
  {
    && y in m' && m'[y] == Link(t.color, ParentOf(p), RootOf(t.left), RootOf(t.right))
    && (t.left.T? ==> t.left.node in m && t.left.node in m' && m'[t.left.node] == m[t.left.node].(parent := y))
    && (t.right.T? ==> t.right.node in m && t.right.node in m' && m'[t.right.node] == m[t.right.node].(parent := y))
    && forall x ::
      x in m && x != y && x != t.node && x != ParentOf(p) && x != RootOf(t.left) && x != RootOf(t.right) ==>
        x in m' && m'[x] == m[x]
  }

  lemma Spliced(m: Links, m': Links, root: Node?, root': Node?, p: Focus, t: Shape, y: Node)
    requires t.T? && Whole(m, root, Plug(p, t)) && y !in Nodes(Plug(p, t))
    requires Redirected(m, m', p, y, root, root') && PutInPlace(m, m', p, t, y)
    ensures Whole(m', root', Plug(p, T(t.left, y, t.color, t.right)))
  {
    UnplugPlaced(m, root, p, t);
    PlugNodes(p, t);
    SplicedTree(m, m', p, t, y);
    RedirectPath(m, m', p, t.node, y, root, root');
    PlugPlaced(m', root', p, T(t.left, y, t.color, t.right));
  }

  lemma SplicedTree(m: Links, m': Links, p: Focus, t: Shape, y: Node)
    requires t.T? && Separate(t) && Nodes(t) !! PathNodes(p) && Linked(m, t, ParentOf(p)) && y !in Nodes(t)
    requires !p.Top? ==> ParentOf(p) in PathNodes(p)
    requires PutInPlace(m, m', p, t, y)
    ensures Linked(m', T(t.left, y, t.color, t.right), ParentOf(p)) && Separate(T(t.left, y, t.color, t.right))
  {
    assert t.left.T? ==> t.left.node in Nodes(t.left);
    assert t.right.T? ==> t.right.node in Nodes(t.right);
    ReparentTree(m, m', t.left, t.node, y);
    ReparentTree(m, m', t.right, t.node, y);
  }

  lemma {:induction false} NodesInOrder(t: Shape)
    ensures forall n :: n in Nodes(t) <==> n in InOrder(t)
  {
    if t.T? {
      NodesInOrder(t.left);
      NodesInOrder(t.right);
    }
  }

  /** Every node of a tree is the root of some subtree. */
  lemma {:induction false} FindPath(p: Focus, t: Shape, n: Node) returns (q: Focus, u: Shape)
    requires n in InOrder(t)
    ensures Plug(q, u) == Plug(p, t) && u.T? && u.node == n
    decreases t
  {
    if t.node == n {
      q, u := p, t;
    } else if n in InOrder(t.left) {
      q, u := FindPath(InLeft(p, t.node, t.color, t.right), t.left, n);
    } else {
      q, u := FindPath(InRight(p, t.left, t.node, t.color), t.right, n);
    }
  }

  function HeadOf(s: seq<Node>): Node? {
    if s == [] then null else s[0]
  }

  ghost predicate Ascending(s: seq<Node>) {
    forall i, j :: 0 <= i < j < |s| ==> s[i].key < s[j].key
  }

  function Size(t: Shape): nat {
    if t.Nil? then 0 else Size(t.left) + 1 + Size(t.right)
  }

  /** The nodes of `t` are the elements of `s` from `lo` on. */
  ghost predicate Spans(s: seq<Node>, lo: nat, t: Shape)
    decreases t
  {
    t.Nil? ||
    var k := lo + Size(t.left);
    k < |s| && s[k] == t.node && Spans(s, lo, t.left) && Spans(s, k + 1, t.right)
  }

  lemma {:induction false} SpansInOrder(before: seq<Node>, t: Shape, after: seq<Node>)
    ensures Size(t) == |InOrder(t)| && Spans(before + InOrder(t) + after, |before|, t)
    decreases t
  {
    if t.T? {
      SpansInOrder(before, t.left, [t.node] + InOrder(t.right) + after);
      SpansInOrder(before + InOrder(t.left) + [t.node], t.right, after);
      var s := before + InOrder(t) + after;
      assert before + InOrder(t.left) + ([t.node] + InOrder(t.right) + after) == s;
      assert (before + InOrder(t.left) + [t.node]) + InOrder(t.right) + after == s;
    }
  }

  /** The search for `key` in `s` has come down to the subtree `t`, which spans `s[lo..hi]`:
      the elements next to it are on their proper side of `key`. */
  ghost predicate Bracketed(s: seq<Node>, lo: nat, hi: nat, t: Shape, key: int) {
    && hi == lo + Size(t) <= |s| && Spans(s, lo, t)
    && (lo > 0 ==> s[lo - 1].key < key) && (hi < |s| ==> key < s[hi].key)
  }

  /** Where the descent for `key` from `t` ends, given the neighbours seen so far. */
  function Descent(t: Shape, key: int, lower: Node?, upper: Node?): (Node?, Node?) {
    if t.Nil? then (lower, upper)
    else if t.node.key < key then Descent(t.right, key, t.node, upper)
    else if t.node.key > key then Descent(t.left, key, lower, t.node)
    else (t.node, t.node)
  }

  /** The descent ends at the place of `key` in the order. */
  lemma {:induction false} DescentFinds(s: seq<Node>, lo: nat, hi: nat, t: Shape, key: int) returns (k: nat)
    requires Bracketed(s, lo, hi, t, key)
    ensures k <= |s|
    ensures var (lower, upper) := Descent(t, key, if lo == 0 then null else s[lo - 1],
                                        if hi == |s| then null else s[hi]);
      if k < |s| && s[k].key == key then lower == upper == s[k]
      else
        && lower == (if k == 0 then null else s[k - 1]) && (k > 0 ==> s[k - 1].key < key)
        && upper == (if k == |s| then null else s[k]) && (k < |s| ==> key < s[k].key)
    decreases t
  {
    k := lo + if t.Nil? then 0 else Size(t.left);
    if t.T? && t.node.key < key {
      k := DescentFinds(s, k + 1, hi, t.right, key);
    } else if t.T? && t.node.key > key {
      k := DescentFinds(s, lo, k, t.left, key);
    }
  }

  datatype Place = Taken | Hole(path: Focus)

  /** Where the insertion descent for `key` ends: at a node with this key or at a null link. */
  function PlaceFor(p: Focus, t: Shape, key: int): Place
    decreases t
  {
    if t.Nil? then Hole(p)
    else if t.node.key < key then PlaceFor(InRight(p, t.left, t.node, t.color), t.right, key)
    else if t.node.key > key then PlaceFor(InLeft(p, t.node, t.color, t.right), t.left, key)
    else Taken
  }

  lemma {:induction false} SizeInOrder(t: Shape)
    ensures Size(t) == |InOrder(t)|
  {
    if t.T? {
      SizeInOrder(t.left);
      SizeInOrder(t.right);
    }
  }

  lemma BracketedWhole(t: Shape, key: int)
    ensures Bracketed(InOrder(t), 0, |InOrder(t)|, t, key)
  {
    SpansInOrder([], t, []);
    assert [] + InOrder(t) + [] == InOrder(t);
  }

  lemma {:induction false} PlaceForFinds(s: seq<Node>, lo: nat, hi: nat, p: Focus, t: Shape, key: int)
    requires Bracketed(s, lo, hi, t, key) && lo == |Before(p)|
    ensures match PlaceFor(p, t, key)
      case Taken => exists i :: 0 <= i < |s| && s[i].key == key
      case Hole(q) => Plug(q, Nil) == Plug(p, t) && Bracketed(s, |Before(q)|, |Before(q)|, Nil, key)
    decreases t
  {
    if t.T? {
      SizeInOrder(t.left);
      var k := lo + Size(t.left);
      if t.node.key < key {
        PlaceForFinds(s, k + 1, hi, InRight(p, t.left, t.node, t.color), t.right, key);
      } else if t.node.key > key {
        PlaceForFinds(s, lo, k, InLeft(p, t.node, t.color, t.right), t.left, key);
      } else {
        assert s[k].key == key;
      }
    }
  }

  lemma NoMatch(s: seq<Node>, k: nat, key: int)
    requires Ascending(s) && k <= |s| && (k > 0 ==> s[k - 1].key < key) && (k < |s| ==> key < s[k].key)
    ensures forall n :: n in s ==> n.key != key
    ensures forall n :: n in s && n.key <= key ==> k > 0 && n.key <= s[k - 1].key
    ensures forall n :: n in s && key <= n.key ==> k < |s| && s[k].key <= n.key
  {
    forall n | n in s
      ensures n.key != key && (n.key <= key ==> k > 0 && n.key <= s[k - 1].key)
      ensures key <= n.key ==> k < |s| && s[k].key <= n.key
    {
      var i :| 0 <= i < |s| && s[i] == n;
    }
  }

  lemma InsertedAscending(s: seq<Node>, k: nat, n: Node)
    requires Ascending(s) && k <= |s| && (k > 0 ==> s[k - 1].key < n.key) && (k < |s| ==> n.key < s[k].key)
    ensures Ascending(s[..k] + [n] + s[k..])
  {}

  /** A null link is the left link of the first node, or that of an empty tree, exactly when
      nothing comes before it. */
  lemma FirstLink(p: Focus, s: seq<Node>)
    requires s == InOrder(Plug(p, Nil)) && Ascending(s)
    ensures Before(p) == [] <==> s == [] || (p.InLeft? && p.node == s[0])
  {
    Around(p, Nil);
    assert s == Before(p) + After(p);
    if p.InLeft? {
      assert After(p)[0] == p.node && s[|Before(p)|] == p.node;
    } else if p.InRight? {
      assert Before(p) != [];
    }
  }

  /** What `rbtree_link_insert` makes of a valid tree with an empty hole at `p`. */
  lemma InsertedShape(p: Focus, n: Node)
    requires var s := InOrder(Plug(p, Nil)); Ascending(s) && Bracketed(s, |Before(p)|, |Before(p)|, Nil, n.key)
    requires IsRedBlack(Plug(p, Nil))
    ensures var s, k, s' := InOrder(Plug(p, Nil)), |Before(p)|, InOrder(InsertFix(p, Nil, n, Nil));
      && s' == s[..k] + [n] + s[k..] && Ascending(s')
      && s'[0] == if s == [] || (p.InLeft? && p.node == s[0]) then n else s[0]
    ensures BalancedPath(p, 0) && IsRedBlack(InsertFix(p, Nil, n, Nil))
  {
    var s, k := InOrder(Plug(p, Nil)), |Before(p)|;
    UnplugBalanced(p, Nil);
    InsertFixRedBlack(p, Nil, n, Nil, 0);
    InsertedOrder(p, n);
    InsertedAscending(s, k, n);
    FirstLink(p, s);
  }

  lemma InsertedOrder(p: Focus, n: Node)
    ensures var s, k := InOrder(Plug(p, Nil)), |Before(p)|;
      k <= |s| && InOrder(InsertFix(p, Nil, n, Nil)) == s[..k] + [n] + s[k..]
  {
    var s, k := InOrder(Plug(p, Nil)), |Before(p)|;
    InsertFixInOrder(p, Nil, n, Nil);
    PlugInOrder(p, T(Nil, n, Red, Nil));
    PlugInOrder(p, Nil);
    assert InOrder(T(Nil, n, Red, Nil)) == [n];
    assert s == Before(p) + After(p);
    assert s[..k] == Before(p) && s[k..] == After(p);
  }

  /** The nodes around a subtree, in the order of the whole tree. */
  lemma Around(p: Focus, t: Shape)
    ensures InOrder(Plug(p, t)) == Before(p) + InOrder(t) + After(p)
    ensures t.T? ==> InOrder(Plug(p, t)) == (Before(p) + InOrder(t.left)) + [t.node] + (InOrder(t.right) + After(p))
  {
    PlugInOrder(p, t);
    if t.T? {
      FiveParts(Before(p), InOrder(t.left), t.node, InOrder(t.right), After(p));
    }
  }

  lemma FiveParts<E>(a: seq<E>, l: seq<E>, x: E, r: seq<E>, b: seq<E>)
    ensures a + (l + [x] + r) + b == (a + l) + [x] + (r + b)
  {}

  lemma {:induction false} PlugNodes(p: Focus, t: Shape)
    ensures Nodes(Plug(p, t)) == Nodes(t) + PathNodes(p)
    decreases p
  {
    if !p.Top? {
      PlugNodes(p.up, if p.InLeft? then T(t, p.node, p.color, p.other) else T(p.other, p.node, p.color, t));
    }
  }

  class RbTree {
    var root: Node?
    var first: Node?
    ghost var nodes: set<Node>  // includes all nodes linked into the tree

    ghost function Snap(): Links
      reads this`nodes, nodes
    {
      map n | n in nodes :: Link(n.color, n.parent, n.left, n.right)
    }

    /** The tree in memory is `t` plugged into `p`. */
    ghost predicate At(p: Focus, t: Shape)
      reads this, nodes
    {
      Whole(Snap(), root, Plug(p, t))
    }

    method SetColor(n: Node, c: Color, ghost p: Focus, ghost t: Shape)
      requires t.T? && t.node == n && At(p, t)
      modifies n`color
      ensures At(p, T(t.left, n, c, t.right)) && n.color == c
    {
      Recolored(Snap(), root, p, t, c);
      ghost var m := Snap();
      n.color := c;
      assert Snap() == m[n := m[n].(color := c)];
    }

    /** The pointer surgery of `rotate_left`, for nodes that are distinct where they should be. */
    method TurnLeft(node: Node, right: Node, inner: Node?, parent: Node?)
      requires node.right == right && right.left == inner && node.parent == parent
      requires node != right && inner != node && inner != right && parent != node && parent != right
      requires inner != null ==> inner != parent
      modifies this`root, node, right, (if inner == null then {} else {inner}),
        (if parent == null then {} else {parent})
      ensures node.parent == right && node.right == inner && node.left == old(node.left)
      ensures node.color == old(node.color)
      ensures right.parent == parent && right.left == node && right.right == old(right.right)
      ensures right.color == old(right.color)
      ensures inner != null ==>
        inner.parent == node && inner.left == old(inner.left) && inner.right == old(inner.right)
          && inner.color == old(inner.color)
      ensures parent == null ==> root == right
      ensures parent != null ==>
        root == old(root) && parent.color == old(parent.color) && parent.parent == old(parent.parent)
      ensures parent != null ==>
        parent.left == (if old(parent.left) == node then right else old(parent.left)) &&
        parent.right == (if old(parent.left) == node then old(parent.right) else right)
    {
      if right.left != null {
        right.left.parent := node;
      }
      node.right := right.left;
      node.parent := right;

      right.left := node;
      right.parent := parent;

      if parent != null {
        if parent.left == node {
          parent.left := right;
        } else {
          parent.right := right;
        }
      } else {
        root := right;
      }
    }

    method RotateLeft(node: Node, ghost p: Focus, ghost t: Shape)
      requires t.T? && t.node == node && t.right.T? && At(p, t)
      modifies this`root, nodes
      ensures At(p, T(T(t.left, node, t.color, t.right.left), t.right.node, t.right.color, t.right.right))
    {
      ghost var m, r, q := Snap(), root, InRight(p, t.left, node, t.color);
      LocalLinks(m, r, p, t);
      LocalLinks(m, r, q, t.right);
      if !p.Top? {
        GrandchildApart(m, r, p, t);
      }
      var right := node.right;
      TurnLeft(node, right, right.left, node.parent);
      RotatedLeft(m, Snap(), r, root, p, t.left, node, t.color, t.right.left, right, t.right.color, t.right.right);
    }

    /** The pointer surgery of `rotate_right`. */
    method TurnRight(node: Node, left: Node, inner: Node?, parent: Node?)
      requires node.left == left && left.right == inner && node.parent == parent
      requires node != left && inner != node && inner != left && parent != node && parent != left
      requires inner != null ==> inner != parent
      modifies this`root, node, left, (if inner == null then {} else {inner}), (if parent == null then {} else {parent})
      ensures node.parent == left && node.left == inner && node.right == old(node.right)
      ensures node.color == old(node.color)
      ensures left.parent == parent && left.right == node && left.left == old(left.left)
      ensures left.color == old(left.color)
      ensures inner != null ==>
        inner.parent == node && inner.left == old(inner.left) && inner.right == old(inner.right)
          && inner.color == old(inner.color)
      ensures parent == null ==> root == left
      ensures parent != null ==>
        root == old(root) && parent.color == old(parent.color) && parent.parent == old(parent.parent)
      ensures parent != null ==>
        parent.left == (if old(parent.left) == node then left else old(parent.left)) &&
        parent.right == (if old(parent.left) == node then old(parent.right) else left)
    {
      if left.right != null {
        left.right.parent := node;
      }
      node.left := left.right;
      node.parent := left;

      left.right := node;
      left.parent := parent;

      if parent != null {
        if parent.left == node {
          parent.left := left;
        } else {
          parent.right := left;
        }
      } else {
        root := left;
      }
    }

    method RotateRight(node: Node, ghost p: Focus, ghost t: Shape)
      requires t.T? && t.node == node && t.left.T? && At(p, t)
      modifies this`root, nodes
      ensures At(p, T(t.left.left, t.left.node, t.left.color, T(t.left.right, node, t.color, t.right)))
    {
      ghost var m, r, q := Snap(), root, InLeft(p, node, t.color, t.right);
      LocalLinks(m, r, p, t);
      LocalLinks(m, r, q, t.left);
      if !p.Top? {
        GrandchildApart(m, r, p, t);
      }
      var left := node.left;
      TurnRight(node, left, left.right, node.parent);
      RotatedRight(m, Snap(), r, root, p, t.left.left, left, t.left.color, t.left.right, node, t.color, t.right);
    }


    /** Case 4 of `insertion_balancing`: make `node` an outer grandchild of `grand`.  Returns
        the lower and the upper of the two red nodes. */
    method Straighten(node: Node, parent: Node, grand: Node, ghost p: Focus, ghost l: Shape, ghost r: Shape)
      returns (low: Node, high: Node, ghost top: Shape)
      requires !p.Top? && !p.up.Top? && parent == p.node && grand == p.up.node && p.color == Red
      requires At(p, T(l, node, Red, r))
      modifies this`root, nodes
      ensures top.T? && top.node == high && RootOf(if p.up.InLeft? then top.left else top.right) == low
      ensures At(p.up, top) && Lift(p.up, top) == InsertRotate(p, l, node, r)
    {
      ghost var q, t := p.up, T(l, node, Red, r);
      ghost var pt := if p.InLeft? then T(t, parent, Red, p.other) else T(p.other, parent, Red, t);
      LocalLinks(Snap(), root, p, t);
      LocalLinks(Snap(), root, q, pt);
      if parent.right == node && grand.left == parent {
        RotateLeft(parent, q, pt);
        return parent, node, T(T(p.other, parent, Red, l), node, Red, r);
      } else if parent.left == node && grand.right == parent {
        RotateRight(parent, q, pt);
        return parent, node, T(l, node, Red, T(r, parent, Red, p.other));
      }
      return node, parent, pt;
    }

    /** Case 5 of `insertion_balancing`. */
    method LiftParent(node: Node, parent: Node, grand: Node, ghost q: Focus, ghost top: Shape)
      requires !q.Top? && q.node == grand && top.T? && top.node == parent && At(q, top)
      requires RootOf(if q.InLeft? then top.left else top.right) == node
      modifies this`root, nodes
      ensures At(q.up, Lift(q, top))
    {
      LocalLinks(Snap(), root, q, top);
      SetColor(parent, Black, q, top);
      ghost var black := T(top.left, parent, Black, top.right);
      ghost var gt := if q.InLeft? then T(black, grand, q.color, q.other) else T(q.other, grand, q.color, black);
      SetColor(grand, Red, q.up, gt);
      gt := T(gt.left, grand, Red, gt.right);
      LocalLinks(Snap(), root, if q.InLeft? then InLeft(q.up, grand, Red, q.other)
                               else InRight(q.up, q.other, grand, Red), black);
      if parent.left == node {
        RotateRight(grand, q.up, gt);
      } else {
        RotateLeft(grand, q.up, gt);
      }
    }

    /** Case 3 of `insertion_balancing`, without the recursive call. */
    method RecolorUncle(parent: Node, uncle: Node, grand: Node, ghost q: Focus, ghost pt: Shape)
      requires !q.Top? && pt.T? && pt.node == parent && q.node == grand && q.other.T? && q.other.node == uncle
      requires At(q, pt)
      modifies nodes
      ensures At(q.up, if q.InLeft? then T(Blacken(pt), grand, Red, Blacken(q.other))
                       else T(Blacken(q.other), grand, Red, Blacken(pt)))
      ensures grand.color == Red
    {
      LocalLinks(Snap(), root, q, pt);
      SetColor(parent, Black, q, pt);
      ghost var across := if q.InLeft? then InRight(q.up, Blacken(pt), grand, q.color)
                          else InLeft(q.up, grand, q.color, Blacken(pt));
      LocalLinks(Snap(), root, across, q.other);
      SetColor(uncle, Black, across, q.other);
      SetColor(grand, Red, q.up,
               if q.InLeft? then T(Blacken(pt), grand, q.color, Blacken(q.other))
               else T(Blacken(q.other), grand, q.color, Blacken(pt)));
    }

    /** `insertion_balancing` on the root `node` of a subtree with children `l` and `r`. */
    method InsertionBalancing(node: Node, ghost p: Focus, ghost l: Shape, ghost r: Shape, ghost h: nat)
      requires At(p, T(l, node, node.color, r)) && BalancedPath(p, h)
      modifies this`root, nodes
      ensures At(Top, InsertFix(p, l, node, r))
      decreases p, 2
    {
      LocalLinks(Snap(), root, p, T(l, node, node.color, r));
      var parent := node.parent;

      // case 1: root
      if parent == null {
        SetColor(node, Black, p, T(l, node, node.color, r));
        return;
      }

      // case 2: parent is black
      SetColor(node, Red, p, T(l, node, node.color, r));
      LocalLinks(Snap(), root, p, T(l, node, Red, r));
      if parent.color == Black {
        return;
      }
      FixRedParent(node, parent, p, l, r, h);
    }

    /** Case 3 of `insertion_balancing`, from the grandparent on. */
    method RedUncle(ghost node: Node, parent: Node, uncle: Node, grand: Node, ghost p: Focus, ghost l: Shape,
                    ghost r: Shape, ghost h: nat)
      requires !p.Top? && !p.up.Top? && p.color == Red && parent == p.node && grand == p.up.node
      requires p.up.other.T? && p.up.other.node == uncle && IsRed(p.up.other)
      requires At(p, T(l, node, Red, r)) && BalancedPath(p, h)
      modifies this`root, nodes
      ensures At(Top, InsertFix(p, l, node, r))
      decreases p, 0
    {
      ghost var q, t := p.up, T(l, node, Red, r);
      ghost var pt := if p.InLeft? then T(t, parent, Red, p.other) else T(p.other, parent, Red, t);
      RecolorUncle(parent, uncle, grand, q, pt);
      ghost var gl := if q.InLeft? then Blacken(pt) else Blacken(q.other);
      ghost var gr := if q.InLeft? then Blacken(q.other) else Blacken(pt);
      InsertionBalancing(grand, q.up, gl, gr, h + 1);
    }

    /** Cases 3 to 5 of `insertion_balancing`. */
    method FixRedParent(node: Node, parent: Node, ghost p: Focus, ghost l: Shape, ghost r: Shape, ghost h: nat)
      requires !p.Top? && !p.up.Top? && p.color == Red && parent == p.node
      requires At(p, T(l, node, Red, r)) && BalancedPath(p, h)
      modifies this`root, nodes
      ensures At(Top, InsertFix(p, l, node, r))
      decreases p, 1
    {
      ghost var q, t := p.up, T(l, node, Red, r);
      ghost var pt := if p.InLeft? then T(t, parent, Red, p.other) else T(p.other, parent, Red, t);
      LocalLinks(Snap(), root, q, pt);
      UncleColor(Snap(), root, q, pt);
      var grand := parent.parent;
      var uncle := if parent == grand.left then grand.right else grand.left;

      // case 3: both parent and uncle are red
      if uncle != null && uncle.color == Red {
        RedUncle(node, parent, uncle, grand, p, l, r, h);
        return;
      }

      var low, high, top := Straighten(node, parent, grand, p, l, r);
      LiftParent(low, high, grand, q, top);
    }

    /** Case 2 of `removal_balancing`: the sibling is red. */
    method TurnSibling(sibling: Node, parent: Node, ghost p: Focus, ghost t: Shape)
      returns (sibling': Node?, ghost q: Focus)
      requires !p.Top? && p.other.T? && p.other.color == Red && p.other.node == sibling && p.node == parent && At(p, t)
      modifies this`root, nodes
      ensures var s := p.other;
        q == if p.InLeft? then InLeft(InLeft(p.up, sibling, Black, s.right), parent, Red, s.left)
             else InRight(InRight(p.up, s.left, sibling, Black), s.right, parent, Red)
      ensures At(q, t) && sibling' == RootOf(q.other)
    {
      ghost var s := p.other;
      LocalLinks(Snap(), root, Across(p, t), s);
      SetColor(sibling, Black, Across(p, t), s);
      s := T(s.left, sibling, Black, s.right);
      ghost var whole := if p.InLeft? then T(t, parent, p.color, s) else T(s, parent, p.color, t);
      SetColor(parent, Red, p.up, whole);
      whole := T(whole.left, parent, Red, whole.right);
      LocalLinks(Snap(), root, Across(WithOther(p, Red, s), t), s);
      if sibling == parent.right {
        sibling' := sibling.left;
        RotateLeft(parent, p.up, whole);
        q := InLeft(InLeft(p.up, sibling, Black, s.right), parent, Red, s.left);
      } else {
        sibling' := sibling.right;
        RotateRight(parent, p.up, whole);
        q := InRight(InRight(p.up, s.left, sibling, Black), s.right, parent, Red);
      }
    }

    /** Case 5 of `removal_balancing`: if only the near child of the sibling is red, it
        takes the place of the sibling. */
    method TurnNearChild(sibling: Node, parent: Node, ghost p: Focus, ghost t: Shape)
      returns (sibling': Node, ghost q: Focus)
      requires !p.Top? && p.other.T? && p.other.node == sibling && p.node == parent && At(p, t) && !IsRed(p.other)
      requires IsRed(p.other.left) || IsRed(p.other.right)
      modifies this`root, nodes
      ensures q == WithOther(p, p.color, OuterRed(p.InLeft?, p.other)) && At(q, t) && sibling' == q.other.node
    {
      LocalLinks(Snap(), root, Across(p, t), p.other);
      if sibling == parent.right && sibling.left != null && sibling.left.color == Red
        && (sibling.right == null || sibling.right.color == Black) {
        sibling', q := TurnNearLeft(sibling, p, t);
      } else if sibling == parent.left && sibling.right != null && sibling.right.color == Red
        && (sibling.left == null || sibling.left.color == Black) {
        sibling', q := TurnNearRight(sibling, p, t);
      } else {
        q := p;
        sibling' := sibling;
      }
    }

    method TurnNearLeft(sibling: Node, ghost p: Focus, ghost t: Shape) returns (sibling': Node, ghost q: Focus)
      requires p.InLeft? && p.other.T? && p.other.node == sibling && At(p, t) && !IsRed(p.other)
      requires IsRed(p.other.left) && !IsRed(p.other.right)
      modifies this`root, nodes
      ensures q == WithOther(p, p.color, OuterRed(true, p.other)) && At(q, t) && sibling' == q.other.node
    {
      ghost var s, across := p.other, Across(p, t);
      LocalLinks(Snap(), root, across, s);
      SetColor(sibling, Red, across, s);
      SetColor(sibling.left, Black, InLeft(across, sibling, Red, s.right), s.left);
      RotateRight(sibling, across, T(Blacken(s.left), sibling, Red, s.right));
      q := WithOther(p, p.color, OuterRed(true, s));
      LocalLinks(Snap(), root, InRight(across, s.left.left, s.left.node, Black), q.other.right);
      sibling' := sibling.parent;
    }

    method TurnNearRight(sibling: Node, ghost p: Focus, ghost t: Shape) returns (sibling': Node, ghost q: Focus)
      requires p.InRight? && p.other.T? && p.other.node == sibling && At(p, t) && !IsRed(p.other)
      requires IsRed(p.other.right) && !IsRed(p.other.left)
      modifies this`root, nodes
      ensures q == WithOther(p, p.color, OuterRed(false, p.other)) && At(q, t) && sibling' == q.other.node
    {
      ghost var s, across := p.other, Across(p, t);
      LocalLinks(Snap(), root, across, s);
      SetColor(sibling, Red, across, s);
      SetColor(sibling.right, Black, InRight(across, s.left, sibling, Red), s.right);
      RotateLeft(sibling, across, T(s.left, sibling, Red, Blacken(s.right)));
      q := WithOther(p, p.color, OuterRed(false, s));
      LocalLinks(Snap(), root, InLeft(across, s.right.node, Black, s.right.right), q.other.left);
      sibling' := sibling.parent;
    }

    /** The colors of case 6 of `removal_balancing`. */
    method RecolorForTurn(sibling: Node, parent: Node, far: Node, ghost p: Focus, ghost t: Shape)
      requires !p.Top? && p.other.T? && p.other.node == sibling && p.node == parent && At(p, t)
      requires RootOf(if p.InLeft? then p.other.right else p.other.left) == far
      modifies nodes
      ensures At(WithOther(p, Black, FarBlack(p)), t)
    {
      ghost var s, across := p.other, Across(p, t);
      LocalLinks(Snap(), root, across, s);
      SetColor(sibling, parent.color, across, s);
      s := T(s.left, sibling, p.color, s.right);
      ghost var whole := if p.InLeft? then T(t, parent, p.color, s) else T(s, parent, p.color, t);
      SetColor(parent, Black, p.up, whole);
      across := Across(WithOther(p, Black, s), t);
      ghost var below := if p.InLeft? then InRight(across, s.left, sibling, p.color)
                         else InLeft(across, sibling, p.color, s.right);
      SetColor(far, Black, below, if p.InLeft? then s.right else s.left);
      assert Plug(WithOther(p, Black, FarBlack(p)), t) == Plug(across, FarBlack(p));
    }

    /** Case 6 of `removal_balancing`: the far child of the sibling is red. */
    method TurnParent(sibling: Node, parent: Node, ghost p: Focus, ghost t: Shape)
      requires !p.Top? && p.other.T? && p.other.node == sibling && p.node == parent && At(p, t)
      requires IsRed(if p.InLeft? then p.other.right else p.other.left)
      modifies this`root, nodes
      ensures At(p.up, TurnedParent(p, t))
    {
      LocalLinks(Snap(), root, Across(p, t), p.other);
      var right := sibling == parent.right;
      RecolorForTurn(sibling, parent, if right then sibling.right else sibling.left, p, t);
      ghost var whole := if p.InLeft? then T(t, parent, Black, FarBlack(p)) else T(FarBlack(p), parent, Black, t);
      if right {
        RotateLeft(parent, p.up, whole);
      } else {
        RotateRight(parent, p.up, whole);
      }
    }

    /** Cases 3 and 4 of `removal_balancing`: the children of the sibling are black. */
    method PushBlackUp(sibling: Node, parent: Node, ghost p: Focus, ghost t: Shape, ghost h: nat)
      requires !p.Top? && p.other.T? && !IsRed(p.other) && p.other.node == sibling && p.node == parent
      requires !IsRed(p.other.left) && !IsRed(p.other.right)
      requires At(p, t) && BalancedPath(p, h + 1) && Balanced(t, h) && !IsRed(t)
      modifies this`root, nodes
      ensures At(Top, RemoveFix(p, t))
      decreases if p.color.Red? then 0 else Depth(p), 0
    {
      ghost var s, across := p.other, Across(p, t);
      ghost var settled := Settle(p.InLeft?, t, parent, p.color, s);
      LocalLinks(Snap(), root, across, s);
      SetColor(sibling, Red, across, s);
      LocalLinks(Snap(), root, p.up, T(settled.left, parent, p.color, settled.right));
      if parent.color == Red {
        SetColor(parent, Black, p.up, T(settled.left, parent, Red, settled.right));
      } else {
        SettleBalanced(p.InLeft?, t, parent, Black, s, h);
        var grand := parent.parent;
        var uncle := if grand == null then null else if parent == grand.left then grand.right else grand.left;
        RemovalBalancing(uncle, p.up, settled, h + 1);
      }
    }

    /** Cases 5 and 6 of `removal_balancing`: the black sibling has a red child. */
    method TurnAndLift(sibling: Node, parent: Node, ghost p: Focus, ghost t: Shape)
      requires !p.Top? && p.other.T? && !IsRed(p.other) && p.other.node == sibling && p.node == parent
      requires At(p, t) && (IsRed(p.other.left) || IsRed(p.other.right))
      modifies this`root, nodes
      ensures At(Top, RemoveFix(p, t))
    {
      var sibling', q := TurnNearChild(sibling, parent, p, t);
      TurnParent(sibling', parent, q, t);
    }

    /** Cases 3 to 6 of `removal_balancing`: the sibling is black. */
    method BlackSibling(sibling: Node, parent: Node, ghost p: Focus, ghost t: Shape, ghost h: nat)
      requires !p.Top? && p.other.T? && !IsRed(p.other) && p.other.node == sibling && p.node == parent
      requires At(p, t) && BalancedPath(p, h + 1) && Balanced(t, h) && !IsRed(t)
      modifies this`root, nodes
      ensures At(Top, RemoveFix(p, t))
      decreases if p.color.Red? then 0 else Depth(p), 1
    {
      LocalLinks(Snap(), root, Across(p, t), p.other);
      var leftBlack := sibling.left == null || sibling.left.color == Black;
      var rightBlack := sibling.right == null || sibling.right.color == Black;
      if leftBlack && rightBlack {
        PushBlackUp(sibling, parent, p, t, h);
      } else {
        TurnAndLift(sibling, parent, p, t);
      }
    }

    /** `removal_balancing`: the subtree `t` beside `sibling` is one black node short. */
    method RemovalBalancing(sibling: Node?, ghost p: Focus, ghost t: Shape, ghost h: nat)
      requires At(p, t) && BalancedPath(p, h + 1) && Balanced(t, h) && !IsRed(t)
      requires sibling == if p.Top? then null else RootOf(p.other)
      modifies this`root, nodes
      ensures At(Top, RemoveFix(p, t))
      decreases Depth(p), 2
    {
      if sibling == null {
        return;
      }
      LocalLinks(Snap(), root, Across(p, t), p.other);
      var parent := sibling.parent;
      if sibling.color == Red {
        assert Balanced(if p.InLeft? then p.other.left else p.other.right, h + 1);
        var sibling', q := TurnSibling(sibling, parent, p, t);
        BlackSibling(sibling', parent, q, t, h);
      } else {
        BlackSibling(sibling, parent, p, t, h);
      }
    }

    ghost var shape: Shape

    /** All nodes, from the least key to the greatest. */
    ghost function Order(): seq<Node>
      reads this`shape
    {
      InOrder(shape)
    }

    ghost predicate Valid()
      reads this, nodes
    {
      && Whole(Snap(), root, shape) && IsRedBlack(shape) && Ascending(Order())
      && first == HeadOf(Order())
    }

    constructor ()
      ensures Valid() && Order() == []
    {
      root, first, nodes, shape := null, null, {}, Nil;
    }

    method First() returns (n: Node?)
      requires Valid()
      ensures n == null <==> Order() == []
      ensures n != null ==> n == Order()[0] && forall i :: 0 <= i < |Order()| ==> n.key <= Order()[i].key
    {
      n := first;
    }

    /** `get_min_node`. */
    method MinNode(n: Node, ghost p: Focus, ghost t: Shape) returns (r: Node)
      requires At(p, t) && t.T? && t.node == n
      ensures r == FirstTree(t).node
    {
      r := n;
      ghost var q, u := p, t;
      while true
        invariant Plug(q, u) == Plug(p, t) && u.T? && u.node == r && FirstTree(u) == FirstTree(t)
        decreases u
      {
        LocalLinks(Snap(), root, q, u);
        if r.left == null {
          return;
        }
        q, u := InLeft(q, r, u.color, u.right), u.left;
        r := r.left;
      }
    }

    /** `rbtree_next`: the node that follows `n`, which is at place `k`, if any. */
    method Next(n: Node) returns (r: Node?, ghost k: nat)
      requires Valid() && n in Order()
      ensures k < |Order()| && Order()[k] == n && r == if k + 1 < |Order()| then Order()[k + 1] else null
    {
      ghost var p, t := FindPath(Top, shape, n);
      k := |LeftOf(p, t)|;
      RootIndex(p, t);
      LocalLinks(Snap(), root, p, t);
      if n.right != null {
        r := MinNode(n.right, InRight(p, t.left, n, t.color), t.right);
      } else {
        r := NextAbove(n, p, t);
      }
      RightHead(p, t);
      assert |Order()| == k + 1 + |RightOf(p, t)|;
    }

    /** The loop of `rbtree_next`: the first node after the subtree of `n`. */
    method NextAbove(n: Node, ghost p: Focus, ghost t: Shape) returns (r: Node?)
      requires At(p, t) && t.T? && t.node == n
      ensures r == HeadOf(After(p))
    {
      var node := n;
      ghost var q, u := p, t;
      while true
        invariant Plug(q, u) == Plug(p, t) && u.T? && u.node == node && After(q) == After(p)
        decreases q
      {
        LocalLinks(Snap(), root, q, u);
        var parent := node.parent;
        if parent == null {
          return null;
        } else if parent.left == node {
          return parent;
        }
        u := T(q.other, parent, q.color, u);
        q, node := q.up, parent;
      }
    }

    /** The loop of `rbtree_find`. */
    method Search(key: int) returns (lower: Node?, upper: Node?)
      requires Whole(Snap(), root, shape)
      ensures (lower, upper) == Descent(shape, key, null, null)
    {
      lower, upper := null, null;
      var node := root;
      ghost var p, t := Top, shape;
      while node != null
        invariant Plug(p, t) == shape && RootOf(t) == node
        invariant Descent(t, key, lower, upper) == Descent(shape, key, null, null)
        decreases t
      {
        LocalLinks(Snap(), root, p, t);
        if node.key < key {
          lower := node;
          p, t := InRight(p, t.left, node, t.color), t.right;
          node := node.right;
        } else if node.key > key {
          upper := node;
          p, t := InLeft(p, node, t.color, t.right), t.left;
          node := node.left;
        } else {
          return node, node;
        }
      }
    }

    /** `rbtree_find`: the neighbours of `key`, which coincide exactly on a match. */
    method Find(key: int) returns (lower: Node?, upper: Node?)
      requires Valid()
      ensures lower != null ==> lower in Order() && lower.key <= key
      ensures upper != null ==> upper in Order() && key <= upper.key
      ensures forall n :: n in Order() && n.key <= key ==> lower != null && n.key <= lower.key
      ensures forall n :: n in Order() && key <= n.key ==> upper != null && upper.key <= n.key
      ensures lower == upper && lower != null <==> exists n :: n in Order() && n.key == key
    {
      lower, upper := Search(key);
      ghost var s := Order();
      BracketedWhole(shape, key);
      ghost var k := DescentFinds(s, 0, |s|, shape, key);
      if k == |s| || s[k].key != key {
        NoMatch(s, k, key);
      }
    }

    /** The pointers of `rbtree_link_insert`: hang `node` at the given link. */
    method Hang(parent: Node?, side: Side, node: Node, ghost p: Focus)
      requires Whole(Snap(), root, shape) && Plug(p, Nil) == shape && node !in Nodes(shape)
      requires parent == ParentOf(p) && side == SideOf(p)
      modifies this`root, this`nodes, nodes, node
      ensures nodes == old(nodes) + {node} && At(p, T(Nil, node, node.color, Nil))
    {
      ghost var m, r := Snap(), root;
      if !p.Top? {
        PathLinks(m, r, p, Nil);
      }
      PlugNodes(p, Nil);
      node.parent := parent;
      node.left, node.right := null, null;
      if side == LeftLink {
        parent.left := node;
      } else if side == RightLink {
        parent.right := node;
      } else {
        root := node;
      }
      nodes := nodes + {node};
      Attached(m, Snap(), r, root, p, node, node.color);
    }

    /** `rbtree_link_insert` of `node` at the null link below `p`. */
    method LinkInsert(parent: Node?, side: Side, node: Node, ghost p: Focus)
      requires Valid() && Plug(p, Nil) == shape && node !in Nodes(shape)
      requires parent == ParentOf(p) && side == SideOf(p)
      requires Bracketed(Order(), |Before(p)|, |Before(p)|, Nil, node.key)
      modifies this, nodes, node
      ensures Valid() && nodes == old(nodes) + {node}
      ensures Order() == old(Order())[..|Before(p)|] + [node] + old(Order())[|Before(p)|..]
    {
      InsertedShape(p, node);
      if first == null || (side == LeftLink && parent == first) {
        first := node;
      }
      HangBalanced(parent, side, node, p);
      shape := InsertFix(p, Nil, node, Nil);
    }

    method HangBalanced(parent: Node?, side: Side, node: Node, ghost p: Focus)
      requires Whole(Snap(), root, shape) && Plug(p, Nil) == shape && node !in Nodes(shape) && BalancedPath(p, 0)
      requires parent == ParentOf(p) && side == SideOf(p)
      modifies this`root, this`nodes, nodes, node
      ensures nodes == old(nodes) + {node} && At(Top, InsertFix(p, Nil, node, Nil))
    {
      Hang(parent, side, node, p);
      InsertionBalancing(node, p, Nil, Nil, 0);
    }

    /** The descent of `rbtree_insert`. */
    method FindLink(key: int) returns (taken: bool, parent: Node?, side: Side, ghost p: Focus)
      requires Whole(Snap(), root, shape)
      ensures taken <==> PlaceFor(Top, shape, key).Taken?
      ensures !taken ==> PlaceFor(Top, shape, key) == Hole(p) && parent == ParentOf(p) && side == SideOf(p)
    {
      parent, side, p := null, RootLink, Top;
      var link := root;
      ghost var t := shape;
      while link != null
        invariant Plug(p, t) == shape && RootOf(t) == link && parent == ParentOf(p) && side == SideOf(p)
        invariant PlaceFor(p, t, key) == PlaceFor(Top, shape, key)
        decreases t
      {
        LocalLinks(Snap(), root, p, t);
        parent := link;
        if link.key < key {
          p, t := InRight(p, t.left, link, t.color), t.right;
          side, link := RightLink, link.right;
        } else if link.key > key {
          p, t := InLeft(p, link, t.color, t.right), t.left;
          side, link := LeftLink, link.left;
        } else {
          taken := true;
          return;
        }
      }
      taken := false;
    }

    /** `rbtree_insert`: a node with a new key is put in its place, one with a key that is
        already there is left out. */
    method Insert(node: Node) returns (ghost k: nat, ghost inserted: bool)
      requires Valid() && node !in Order()
      modifies this, nodes, node
      ensures Valid() && nodes <= old(nodes) + {node}
      ensures inserted <==> !exists n :: n in old(Order()) && n.key == node.key
      ensures !inserted ==> Order() == old(Order())
      ensures inserted ==> k <= |old(Order())| && Order() == old(Order())[..k] + [node] + old(Order())[k..]
    {
      var taken, parent, side, p := FindLink(node.key);
      PlaceInOrder(shape, node.key);
      k, inserted := |Before(p)|, !taken;
      if taken {
        return;
      }
      NodesInOrder(shape);
      LinkInsert(parent, side, node, p);
    }

    /** The branch of `rbtree_remove` for a node with at most one child, up to the
        rebalancing: the child, made black, or nothing takes the place of the node. */
    method ReplaceByChild(node: Node, child: Node?, parent: Node?, ghost p: Focus, ghost t: Shape, ghost u: Shape)
      requires At(p, t) && t.T? && t.node == node && (u == t.left || u == t.right)
      requires child == RootOf(u) && parent == ParentOf(p)
      modifies this`root, nodes
      ensures At(p, Blacken(u)) && node.color == old(node.color)
    {
      ghost var m, r := Snap(), root;
      LocalLinks(m, r, p, t);
      if parent != null {
        if parent.left == node {
          parent.left := child;
        } else {
          parent.right := child;
        }
      } else {
        root := child;
      }
      if child != null {
        child.parent := parent;
        child.color := Black;
      }
      CutOut(m, Snap(), r, root, p, t, u, Black);
    }

    /** The branch of `rbtree_remove` for a node with at most one child. */
    method RemoveOuterNode(node: Node, ghost p: Focus, ghost t: Shape)
      requires At(p, t) && t.T? && t.node == node && (t.left.Nil? || t.right.Nil?) && IsRedBlack(Plug(p, t))
      modifies this`root, nodes
      ensures At(Top, RemoveOuter(p, t))
    {
      LocalLinks(Snap(), root, p, t);
      UnplugBalanced(p, t);
      var parent := node.parent;
      var child := if node.left != null then node.left else node.right;
      var sibling: Node? := null;
      if parent != null {
        sibling := if parent.left == node then parent.right else parent.left;
      }
      ReplaceByChild(node, child, parent, p, t, if t.left.T? then t.left else t.right);
      if child != null {
        return;
      }
      if node.color == Red {
        return;
      }
      RemovalBalancing(sibling, p, Nil, BlackHeight(t) - 1);
    }

    /** The splice of `rbtree_remove`: `successor` takes the place of `node`. */
    method Splice(node: Node, successor: Node, ghost p: Focus, ghost t: Shape)
      requires At(p, t) && t.T? && t.node == node && successor !in Nodes(Plug(p, t)) && successor in nodes
      modifies this`root, nodes
      ensures At(p, T(t.left, successor, t.color, t.right))
    {
      ghost var m, r := Snap(), root;
      LocalLinks(m, r, p, t);
      NotSuccessor(p, t, successor);
      var parent := node.parent;
      if parent != null {
        if parent.left == node {
          parent.left := successor;
        } else {
          parent.right := successor;
        }
      }
      TakeOver(node, successor);
      if root == node {
        root := successor;
      }
      Spliced(m, Snap(), r, root, p, t, successor);
    }

    /** `successor` gets the color and the links of `node`, and its children get it as parent. */
    method TakeOver(node: Node, successor: Node)
      requires node in nodes && successor in nodes && node != successor
      requires node.left != null ==> node.left in nodes && node.left != successor && node.left != node
      requires node.right != null ==>
        node.right in nodes && node.right != successor && node.right != node && node.right != node.left
      modifies nodes
      ensures successor.color == old(node.color) && successor.parent == old(node.parent)
      ensures successor.left == old(node.left) && successor.right == old(node.right)
      ensures forall x :: x in nodes && x != successor ==>
        x.color == old(x.color) && x.left == old(x.left) && x.right == old(x.right)
      ensures forall x :: x in nodes && x != successor ==>
        x.parent == if x == old(node.left) || x == old(node.right) then successor else old(x.parent)
    {
      successor.parent := node.parent;
      successor.left := node.left;
      successor.right := node.right;
      successor.color := node.color;

      if successor.left != null {
        successor.left.parent := successor;
      }
      if successor.right != null {
        successor.right.parent := successor;
      }
    }

    /** The rest of `rbtree_remove` once `successor`, which followed `node` in `s`, is out. */
    method SpliceIn(node: Node, successor: Node, ghost s: seq<Node>, ghost k: nat)
      requires Valid() && successor in nodes && Ascending(s)
      requires 0 < k && k + 1 < |s| && s[k] == node && s[k + 1] == successor && Order() == RemoveAt(s, k + 1)
      modifies this, nodes
      ensures Valid() && nodes == old(nodes) && Order() == RemoveAt(s, k)
    {
      assert Order()[k] == node;
      ghost var p, t := FindPath(Top, shape, node);
      SplicedShape(p, t, successor, s, k);
      Splice(node, successor, p, t);
      shape := Plug(p, T(t.left, successor, t.color, t.right));
    }

    /** `rbtree_remove` of a node with at most one child, apart from the cached first node. */
    method RemoveOutermost(node: Node) returns (ghost k: nat)
      requires Whole(Snap(), root, shape) && IsRedBlack(shape) && Ascending(Order())
      requires node in Order() && (node.left == null || node.right == null)
      modifies this`root, this`shape, nodes
      ensures Whole(Snap(), root, shape) && IsRedBlack(shape)
      ensures k < |old(Order())| && old(Order())[k] == node && Order() == RemoveAt(old(Order()), k)
      ensures Ascending(Order())
    {
      ghost var p, t := FindPath(Top, shape, node);
      k := |LeftOf(p, t)|;
      RootIndex(p, t);
      LocalLinks(Snap(), root, p, t);
      RemovedShape(p, t);
      RemoveOuterNode(node, p, t);
      shape := RemoveOuter(p, t);
    }

    /** The successor of a node with two children: it comes next and has no left child. */
    method InnerSuccessor(node: Node) returns (successor: Node, ghost k: nat)
      requires Valid() && node in Order() && node.left != null && node.right != null
      ensures 0 < k && k + 1 < |Order()| && Order()[k] == node && Order()[k + 1] == successor
      ensures successor in nodes && successor.left == null
    {
      ghost var p, t := FindPath(Top, shape, node);
      k := |LeftOf(p, t)|;
      RootIndex(p, t);
      LocalLinks(Snap(), root, p, t);
      successor := MinNode(node.right, InRight(p, t.left, node, t.color), t.right);
      SuccessorIndex(p, t);
      FirstIsOuter(Snap(), root, InRight(p, t.left, node, t.color), t.right);
    }

    lemma FirstIsLeftmost(node: Node)
      requires Valid() && node in Order()
      ensures node in nodes && (first == node ==> node.left == null)
    {
      var p, t := FindPath(Top, shape, node);
      LocalLinks(Snap(), root, p, t);
      RootIndex(p, t);
      if first == node {
        AscendingIndex(Order(), 0, |LeftOf(p, t)|);
      }
    }

    /** `rbtree_remove`: exactly `node` leaves the order.  A node with two children is first
        freed of its successor, which then takes its place. */
    method Remove(node: Node) returns (ghost k: nat)
      requires Valid() && node in Order()
      modifies this, nodes
      ensures Valid() && nodes == old(nodes)
      ensures k < |old(Order())| && old(Order())[k] == node && Order() == RemoveAt(old(Order()), k)
      decreases node.left != null && node.right != null
    {
      ghost var s := Order();
      FirstIsLeftmost(node);
      if first == node {
        ghost var i;
        first, i := Next(node);
        AscendingIndex(s, 0, i);
      }
      if node.left != null && node.right != null {
        var successor;
        successor, k := InnerSuccessor(node);
        ghost var j := Remove(successor);
        AscendingIndex(s, j, k + 1);
        SpliceIn(node, successor, s, k);
      } else {
        k := RemoveOutermost(node);
        HeadRemoved(s, k);
      }
    }
  }

  lemma FourParts<E>(a: seq<E>, b: seq<E>, c: seq<E>, d: seq<E>)
    ensures (a + b) + (c + d) == a + b + c + d
  {}

  lemma RemoveMiddle<E>(s: seq<E>, a: seq<E>, x: E, b: seq<E>)
    requires s == a + [x] + b
    ensures s[|a|] == x && s[|a| + 1..] == b && RemoveAt(s, |a|) == a + b
  {}

  lemma SplicedSequence<E>(s: seq<E>, k: nat, a: seq<E>, b: seq<E>)
    requires k + 1 < |s| && |a| == k && RemoveAt(s, k + 1) == a + [s[k]] + b
    ensures a + [s[k + 1]] + b == RemoveAt(s, k)
  {
    RemoveMiddle(RemoveAt(s, k + 1), a, s[k], b);
    assert a == s[..k] && b == s[k + 2..];
  }

  lemma RemoveAscending(s: seq<Node>, k: nat)
    requires Ascending(s) && k < |s|
    ensures Ascending(RemoveAt(s, k))
  {}

  lemma AscendingIndex(s: seq<Node>, i: nat, j: nat)
    requires Ascending(s) && i < |s| && j < |s| && s[i] == s[j]
    ensures i == j
  {}

  ghost function LeftOf(p: Focus, t: Shape): seq<Node>
    requires t.T?
  {
    Before(p) + InOrder(t.left)
  }

  ghost function RightOf(p: Focus, t: Shape): seq<Node>
    requires t.T?
  {
    InOrder(t.right) + After(p)
  }

  /** The node after the root of a subtree is the first of its right subtree, or the first
      one after the subtree. */
  lemma RightHead(p: Focus, t: Shape)
    requires t.T?
    ensures HeadOf(RightOf(p, t)) == if t.right.T? then FirstTree(t.right).node else HeadOf(After(p))
  {
    if t.right.T? {
      FirstSplits(Top, t.right);
    } else {
      assert RightOf(p, t) == After(p);
    }
  }

  lemma HeadRemoved(s: seq<Node>, k: nat)
    requires k < |s|
    ensures HeadOf(RemoveAt(s, k)) == if k > 0 then s[0] else if |s| > 1 then s[1] else null
  {}

  /** The place of the root of a subtree in the order. */
  lemma RootIndex(p: Focus, t: Shape)
    requires t.T?
    ensures var s, k := InOrder(Plug(p, t)), |LeftOf(p, t)|;
      k < |s| && s[k] == t.node && s[k + 1..] == RightOf(p, t) && RemoveAt(s, k) == LeftOf(p, t) + RightOf(p, t)
  {
    Around(p, t);
    RemoveMiddle(InOrder(Plug(p, t)), LeftOf(p, t), t.node, RightOf(p, t));
  }

  lemma FirstIsOuter(m: Links, root: Node?, p: Focus, t: Shape)
    requires t.T? && Whole(m, root, Plug(p, t))
    ensures FirstTree(t).node in m && m[FirstTree(t).node].left == null
  {
    FirstSplits(p, t);
    LocalLinks(m, root, FirstPath(p, t), FirstTree(t));
  }

  lemma SuccessorIndex(p: Focus, t: Shape)
    requires t.T? && t.left.T? && t.right.T?
    ensures var s, k := InOrder(Plug(p, t)), |LeftOf(p, t)|;
      0 < k && k + 1 < |s| && s[k + 1] == FirstTree(t.right).node
  {
    RootIndex(p, t);
    FirstSplits(Top, t.right);
    assert InOrder(Plug(p, t))[|LeftOf(p, t)| + 1] == RightOf(p, t)[0];
  }

  lemma RemovedShape(p: Focus, t: Shape)
    requires t.T? && (t.left.Nil? || t.right.Nil?) && IsRedBlack(Plug(p, t)) && Ascending(InOrder(Plug(p, t)))
    ensures var s, k := InOrder(Plug(p, t)), |LeftOf(p, t)|;
      k < |s| && InOrder(RemoveOuter(p, t)) == RemoveAt(s, k) && Ascending(RemoveAt(s, k))
    ensures IsRedBlack(RemoveOuter(p, t))
  {
    RemoveOuterRedBlack(p, t);
    RemoveOuterInOrder(p, t);
    RootIndex(p, t);
    RemoveAscending(InOrder(Plug(p, t)), |LeftOf(p, t)|);
    FourParts(Before(p), InOrder(t.left), InOrder(t.right), After(p));
  }

  lemma SplicedShape(p: Focus, t: Shape, y: Node, s: seq<Node>, k: nat)
    requires t.T? && IsRedBlack(Plug(p, t)) && Ascending(s)
    requires k + 1 < |s| && s[k] == t.node && s[k + 1] == y && InOrder(Plug(p, t)) == RemoveAt(s, k + 1)
    ensures y !in Nodes(Plug(p, t))
    ensures var u := Plug(p, T(t.left, y, t.color, t.right));
      InOrder(u) == RemoveAt(s, k) && Ascending(RemoveAt(s, k)) && IsRedBlack(u)
  {
    var u := T(t.left, y, t.color, t.right);
    UnplugBalanced(p, t);
    PlugBalanced(p, u, BlackHeight(t));
    RemoveAscending(s, k);
    RemoveAscending(s, k + 1);
    SplicedOut(p, t, y, s, k);
    Around(p, t);
    Around(p, u);
    RootIndex(p, t);
    AscendingIndex(RemoveAt(s, k + 1), |LeftOf(p, t)|, k);
    SplicedSequence(s, k, LeftOf(p, t), RightOf(p, t));
  }

  lemma SplicedOut(p: Focus, t: Shape, y: Node, s: seq<Node>, k: nat)
    requires Ascending(s) && k + 1 < |s| && s[k + 1] == y && InOrder(Plug(p, t)) == RemoveAt(s, k + 1)
    ensures y !in Nodes(Plug(p, t))
  {
    NodesInOrder(Plug(p, t));
  }

  lemma NotSuccessor(p: Focus, t: Shape, y: Node)
    requires t.T? && y !in Nodes(Plug(p, t))
    ensures y != t.node && y != ParentOf(p) && y != RootOf(t.left) && y != RootOf(t.right)
  {
    PlugNodes(p, t);
    assert t.left.T? ==> t.left.node in Nodes(t.left);
    assert t.right.T? ==> t.right.node in Nodes(t.right);
  }

  lemma PlaceInOrder(t: Shape, key: int)
    requires Ascending(InOrder(t))
    ensures PlaceFor(Top, t, key).Taken? <==> exists n :: n in InOrder(t) && n.key == key
    ensures match PlaceFor(Top, t, key)
      case Taken => true
      case Hole(q) => Plug(q, Nil) == t && Bracketed(InOrder(t), |Before(q)|, |Before(q)|, Nil, key)
  {
    var s := InOrder(t);
    BracketedWhole(t, key);
    PlaceForFinds(s, 0, |s|, Top, t, key);
    match PlaceFor(Top, t, key)
    case Taken =>
      var i :| 0 <= i < |s| && s[i].key == key;
      assert s[i] in s;
    case Hole(q) => NoMatch(s, |Before(q)|, key);
  }

  /** Which link of the parent the hole of a path is. */
  datatype Side = RootLink | LeftLink | RightLink

  function SideOf(p: Focus): Side {
    if p.Top? then RootLink else if p.InLeft? then LeftLink else RightLink
  }

  /** The sibling subtree with the colors of case 6. */
  function FarBlack(p: Focus): Shape
    requires !p.Top? && p.other.T?
  {
    var s := p.other;
    if p.InLeft? then T(s.left, s.node, p.color, Blacken(s.right)) else T(Blacken(s.left), s.node, p.color, s.right)
  }

  function Depth(p: Focus): nat {
    if p.Top? then 0 else Depth(p.up) + 1
  }

  /** The subtree of the parent after case 6. */
  function TurnedParent(p: Focus, t: Shape): Shape
    requires !p.Top? && p.other.T?
  {
    var s := p.other;
    if p.InLeft? then T(T(t, p.node, Black, s.left), s.node, p.color, Blacken(s.right))
    else T(Blacken(s.left), s.node, p.color, T(s.right, p.node, Black, t))
  }

  /** The sibling subtree `s` after case 5: its far child is red. */
  function OuterRed(left: bool, s: Shape): Shape
    requires s.T?
  {
    if left && IsRed(s.left) && !IsRed(s.right) then
      T(s.left.left, s.left.node, Black, T(s.left.right, s.node, Red, s.right))
    else if !left && IsRed(s.right) && !IsRed(s.left) then
      T(T(s.left, s.node, Red, s.right.left), s.right.node, Black, s.right.right)
    else s
  }

  /** The root of `top` becomes black and takes the place of its parent, which becomes red. */
  function Lift(q: Focus, top: Shape): Shape
    requires !q.Top? && top.T?
  {
    if q.InLeft? then T(top.left, top.node, Black, T(top.right, q.node, Red, q.other))
    else T(T(q.other, q.node, Red, top.left), top.node, Black, top.right)
  }
}
