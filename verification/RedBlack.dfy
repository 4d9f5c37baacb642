/**
 Shapes of red-black trees and the restructuring done by libcoll/src/rbtree.c, as values.

 A tree is seen either as a whole or as a subtree together with the `Path` that leads to
 it.  `InsertFix` and `RemoveFix` say which shape the rebalancing loops produce; this file
 proves that these shapes are red-black trees over the right sequence of nodes.  The
 pointer code that produces them is in `RbTree.dfy`.
 */
module RedBlack {

  datatype Color = Red | Black

  datatype Tree<N> = Nil | T(left: Tree<N>, node: N, color: Color, right: Tree<N>)

  /** The surroundings of a subtree: the hole is the left child in `InLeft`, the right child
      in `InRight`. */
  datatype Path<N> =
    | Top
    | InLeft(up: Path<N>, node: N, color: Color, other: Tree<N>)
    | InRight(up: Path<N>, other: Tree<N>, node: N, color: Color)

  function Plug<N>(p: Path<N>, t: Tree<N>): Tree<N> {
    match p
    case Top => t
    case InLeft(up, n, c, r) => Plug(up, T(t, n, c, r))
    case InRight(up, l, n, c) => Plug(up, T(l, n, c, t))
  }

  function InOrder<N>(t: Tree<N>): seq<N> {
    match t
    case Nil => []
    case T(l, n, _, r) => InOrder(l) + [n] + InOrder(r)
  }

  /** The nodes that come before the hole of `p`. */
  function Before<N>(p: Path<N>): seq<N> {
    match p
    case Top => []
    case InLeft(up, _, _, _) => Before(up)
    case InRight(up, l, n, _) => Before(up) + InOrder(l) + [n]
  }

  /** The nodes that come after the hole of `p`. */
  function After<N>(p: Path<N>): seq<N> {
    match p
    case Top => []
    case InLeft(up, n, _, r) => [n] + InOrder(r) + After(up)
    case InRight(up, _, _, _) => After(up)
  }

  lemma {:induction false} PlugInOrder<N>(p: Path<N>, t: Tree<N>)
    ensures InOrder(Plug(p, t)) == Before(p) + InOrder(t) + After(p)
    decreases p
  {
    match p
    case Top =>
    case InLeft(up, n, c, r) => PlugInOrder(up, T(t, n, c, r));
    case InRight(up, l, n, c) => PlugInOrder(up, T(l, n, c, t));
  }

  lemma PlugSame<N>(p: Path<N>, t: Tree<N>, u: Tree<N>)
    requires InOrder(t) == InOrder(u)
    ensures InOrder(Plug(p, t)) == InOrder(Plug(p, u))
  {
    PlugInOrder(p, t);
    PlugInOrder(p, u);
  }

  /** Rotations keep the order, whatever the colors. */
  lemma Rotation<N>(a: Tree<N>, x: N, b: Tree<N>, y: N, d: Tree<N>, c0: Color, c1: Color, c2: Color, c3: Color)
    ensures InOrder(T(T(a, x, c0, b), y, c1, d)) == InOrder(T(a, x, c2, T(b, y, c3, d)))
  {}

  // ---------------------------------------------------------------- the red-black conditions

  predicate IsRed<N>(t: Tree<N>) {
    t.T? && t.color.Red?
  }

  function BlackHeight<N>(t: Tree<N>): nat {
    match t
    case Nil => 0
    case T(l, _, c, _) => BlackHeight(l) + if c.Black? then 1 else 0
  }

  /** No red node has a red child, and every way down crosses `h` black nodes. */
  predicate Balanced<N>(t: Tree<N>, h: nat) {
    match t
    case Nil => h == 0
    case T(l, _, Black, r) => h > 0 && Balanced(l, h - 1) && Balanced(r, h - 1)
    case T(l, _, Red, r) => !IsRed(l) && !IsRed(r) && Balanced(l, h) && Balanced(r, h)
  }

  predicate IsRedBlack<N>(t: Tree<N>) {
    !IsRed(t) && Balanced(t, BlackHeight(t))
  }

  /** A red subtree may not be put here: above is a red node, or nothing. */
  predicate NeedsBlack<N>(p: Path<N>) {
    p.Top? || p.color.Red?
  }

  /** Everything around a hole that awaits black height `h` is balanced. */
  predicate BalancedPath<N>(p: Path<N>, h: nat) {
    p.Top? ||
    (Balanced(p.other, h) &&
     if p.color.Black? then BalancedPath(p.up, h + 1)
     else !IsRed(p.other) && !NeedsBlack(p.up) && BalancedPath(p.up, h))
  }

  lemma BalancedHeight<N>(t: Tree<N>, h: nat)
    requires Balanced(t, h)
    ensures h == BlackHeight(t)
  {}

  lemma {:induction false} PlugBalanced<N>(p: Path<N>, t: Tree<N>, h: nat)
    requires BalancedPath(p, h) && Balanced(t, h) && (IsRed(t) ==> !NeedsBlack(p))
    ensures IsRedBlack(Plug(p, t))
    decreases p
  {
    match p
    case Top => BalancedHeight(t, h);
    case InLeft(up, n, c, s) => PlugBalanced(up, T(t, n, c, s), if c.Black? then h + 1 else h);
    case InRight(up, s, n, c) => PlugBalanced(up, T(s, n, c, t), if c.Black? then h + 1 else h);
  }

  /** Conversely, a red-black tree is balanced around and below every position. */
  lemma {:induction false} UnplugBalanced<N>(p: Path<N>, t: Tree<N>)
    requires IsRedBlack(Plug(p, t))
    ensures BalancedPath(p, BlackHeight(t)) && Balanced(t, BlackHeight(t))
    ensures IsRed(t) ==> !NeedsBlack(p)
    decreases p
  {
    match p
    case Top =>
    case InLeft(up, n, c, s) =>
      UnplugBalanced(up, T(t, n, c, s));
      BalancedHeight(t, BlackHeight(t));
    case InRight(up, s, n, c) =>
      var u := T(s, n, c, t);
      UnplugBalanced(up, u);
      BalancedHeight(t, BlackHeight(s));
  }

  // ---------------------------------------------------------------- insertion

  function Blacken<N>(t: Tree<N>): Tree<N> {
    match t
    case Nil => Nil
    case T(l, n, _, r) => T(l, n, Black, r)
  }

  /** The shape that `insertion_balancing` leaves when called on node `n` with subtrees `l`
      and `r`, sitting below `p`. */
  function InsertFix<N>(p: Path<N>, l: Tree<N>, n: N, r: Tree<N>): Tree<N> {
    if p.Top? then
      T(l, n, Black, r)
    else if p.color.Black? || p.up.Top? then
      Plug(p, T(l, n, Red, r))
    else
      var grand, uncle := p.up.node, p.up.other;
      if IsRed(uncle) then
        var parent := if p.InLeft? then T(T(l, n, Red, r), p.node, Black, p.other)
                      else T(p.other, p.node, Black, T(l, n, Red, r));
        if p.up.InLeft? then InsertFix(p.up.up, parent, grand, Blacken(uncle))
        else InsertFix(p.up.up, Blacken(uncle), grand, parent)
      else
        Plug(p.up.up, InsertRotate(p, l, n, r))
  }

  /** Cases 4 and 5: what the rotations make of the grandparent's subtree. */
  function InsertRotate<N>(p: Path<N>, l: Tree<N>, n: N, r: Tree<N>): Tree<N>
    requires !p.Top? && !p.up.Top?
  {
    var m, s, grand, uncle := p.node, p.other, p.up.node, p.up.other;
    if p.up.InLeft? then
      if p.InLeft? then T(T(l, n, Red, r), m, Black, T(s, grand, Red, uncle))
      else T(T(s, m, Red, l), n, Black, T(r, grand, Red, uncle))
    else
      if p.InLeft? then T(T(uncle, grand, Red, l), n, Black, T(r, m, Red, s))
      else T(T(uncle, grand, Red, s), m, Black, T(l, n, Red, r))
  }

  lemma InsertRotateInOrder<N>(p: Path<N>, l: Tree<N>, n: N, r: Tree<N>)
    requires !p.Top? && !p.up.Top?
    ensures InOrder(Plug(p.up.up, InsertRotate(p, l, n, r))) == InOrder(Plug(p, T(l, n, Red, r)))
  {
    var m, s, g, u := p.node, p.other, p.up.node, p.up.other;
    if p.up.InLeft? {
      if p.InLeft? {
        Rotation(T(l, n, Red, r), m, s, g, u, p.color, p.up.color, Black, Red);
        PlugSame(p.up.up, InsertRotate(p, l, n, r), T(T(T(l, n, Red, r), m, p.color, s), g, p.up.color, u));
      } else {
        Rotation(s, m, l, n, r, Red, Red, p.color, Red);
        Rotation(T(s, m, Red, l), n, r, g, u, Red, p.up.color, Black, Red);
        PlugSame(p.up.up, InsertRotate(p, l, n, r), T(T(s, m, p.color, T(l, n, Red, r)), g, p.up.color, u));
      }
    } else {
      if p.InLeft? {
        Rotation(l, n, r, m, s, Red, p.color, Red, Red);
        Rotation(u, g, l, n, T(r, m, Red, s), Red, Black, p.up.color, Red);
        PlugSame(p.up.up, InsertRotate(p, l, n, r), T(u, g, p.up.color, T(T(l, n, Red, r), m, p.color, s)));
      } else {
        Rotation(u, g, s, m, T(l, n, Red, r), Red, Black, p.up.color, p.color);
        PlugSame(p.up.up, InsertRotate(p, l, n, r), T(u, g, p.up.color, T(s, m, p.color, T(l, n, Red, r))));
      }
    }
  }

  /** Rebalancing after an insertion does not move any node in the order. */
  lemma {:induction false} InsertFixInOrder<N>(p: Path<N>, l: Tree<N>, n: N, r: Tree<N>)
    ensures InOrder(InsertFix(p, l, n, r)) == InOrder(Plug(p, T(l, n, Red, r)))
    decreases p
  {
    if p.Top? || p.color.Black? || p.up.Top? {
    } else if IsRed(p.up.other) {
      var g, u := p.up.node, p.up.other;
      var t := T(l, n, Red, r);
      var parent := if p.InLeft? then T(t, p.node, Black, p.other) else T(p.other, p.node, Black, t);
      var parent' := if p.InLeft? then T(t, p.node, p.color, p.other) else T(p.other, p.node, p.color, t);
      if p.up.InLeft? {
        InsertFixInOrder(p.up.up, parent, g, Blacken(u));
        PlugSame(p.up.up, T(parent, g, Red, Blacken(u)), T(parent', g, p.up.color, u));
      } else {
        InsertFixInOrder(p.up.up, Blacken(u), g, parent);
        PlugSame(p.up.up, T(Blacken(u), g, Red, parent), T(u, g, p.up.color, parent'));
      }
    } else {
      InsertRotateInOrder(p, l, n, r);
    }
  }

  lemma {:induction false} InsertFixRedBlack<N>(p: Path<N>, l: Tree<N>, n: N, r: Tree<N>, h: nat)
    requires BalancedPath(p, h) && Balanced(l, h) && Balanced(r, h) && !IsRed(l) && !IsRed(r)
    ensures IsRedBlack(InsertFix(p, l, n, r))
    decreases p
  {
    if p.Top? {
      BalancedHeight(l, h);
    } else if p.color.Black? {
      PlugBalanced(p, T(l, n, Red, r), h);
    } else if IsRed(p.up.other) {
      var grand, uncle := p.up.node, p.up.other;
      var parent := if p.InLeft? then T(T(l, n, Red, r), p.node, Black, p.other)
                    else T(p.other, p.node, Black, T(l, n, Red, r));
      if p.up.InLeft? {
        InsertFixRedBlack(p.up.up, parent, grand, Blacken(uncle), h + 1);
      } else {
        InsertFixRedBlack(p.up.up, Blacken(uncle), grand, parent, h + 1);
      }
    } else {
      PlugBalanced(p.up.up, InsertRotate(p, l, n, r), h + 1);
    }
  }

  // ---------------------------------------------------------------- removal

  /** Cases 4 to 6: `t`, child of node `m` with color `c` on the side `left`, is one black
      node short, and its sibling `s` is black. */
  function Settle<N>(left: bool, t: Tree<N>, m: N, c: Color, s: Tree<N>): Tree<N>
    requires s.T?
  {
    var near, far := if left then s.left else s.right, if left then s.right else s.left;
    if !IsRed(near) && !IsRed(far) then
      if left then T(t, m, Black, T(s.left, s.node, Red, s.right))
      else T(T(s.left, s.node, Red, s.right), m, Black, t)
    else if IsRed(near) && !IsRed(far) then
      if left then T(T(t, m, Black, near.left), near.node, c, T(near.right, s.node, Black, far))
      else T(T(far, s.node, Black, near.left), near.node, c, T(near.right, m, Black, t))
    else
      if left then T(T(t, m, Black, near), s.node, c, Blacken(far))
      else T(Blacken(far), s.node, c, T(near, m, Black, t))
  }

  /** The shape that `removal_balancing` leaves when the subtree `t` below `p` is one black
      node short. */
  function RemoveFix<N>(p: Path<N>, t: Tree<N>): Tree<N> {
    if p.Top? then t
    else if p.other.Nil? then Plug(p, t)
    else
      var left, m, s := p.InLeft?, p.node, p.other;
      if IsRed(s) then
        var near := if left then s.left else s.right;
        if near.Nil? then Plug(p, t)
        else if left then Plug(p.up, T(Settle(true, t, m, Red, near), s.node, Black, s.right))
        else Plug(p.up, T(s.left, s.node, Black, Settle(false, t, m, Red, near)))
      else if p.color.Black? && !IsRed(s.left) && !IsRed(s.right) then
        RemoveFix(p.up, Settle(left, t, m, Black, s))
      else
        Plug(p.up, Settle(left, t, m, p.color, s))
  }

  lemma SettleInOrder<N>(left: bool, t: Tree<N>, m: N, c: Color, s: Tree<N>, c': Color)
    requires s.T?
    ensures InOrder(Settle(left, t, m, c, s)) == InOrder(if left then T(t, m, c', s) else T(s, m, c', t))
  {
    var near, far := if left then s.left else s.right, if left then s.right else s.left;
    if IsRed(near) && !IsRed(far) {
      if left {
        Rotation(near.left, near.node, near.right, s.node, far, Red, s.color, c, Black);
        Rotation(t, m, near.left, near.node, T(near.right, s.node, Black, far), Black, c, c', c);
      } else {
        Rotation(far, s.node, near.left, near.node, near.right, Black, c, s.color, Red);
        Rotation(T(far, s.node, Black, near.left), near.node, near.right, m, t, c, c', c, Black);
      }
    } else if IsRed(far) {
      if left {
        Rotation(t, m, near, s.node, far, Black, c, c', s.color);
      } else {
        Rotation(far, s.node, near, m, t, s.color, c', c, Black);
      }
    }
  }

  /** Rebalancing after a removal does not move any node in the order. */
  lemma {:induction false} RemoveFixInOrder<N>(p: Path<N>, t: Tree<N>)
    ensures InOrder(RemoveFix(p, t)) == InOrder(Plug(p, t))
    decreases p
  {
    if !p.Top? && p.other.T? {
      var left, m, s := p.InLeft?, p.node, p.other;
      var whole := if left then T(t, m, p.color, s) else T(s, m, p.color, t);
      if IsRed(s) {
        var near := if left then s.left else s.right;
        if near.T? {
          SettleInOrder(left, t, m, Red, near, Red);
          if left {
            Rotation(t, m, near, s.node, s.right, Red, Black, p.color, Red);
            PlugSame(p.up, T(Settle(true, t, m, Red, near), s.node, Black, s.right), whole);
          } else {
            Rotation(s.left, s.node, near, m, t, Red, p.color, Black, Red);
            PlugSame(p.up, T(s.left, s.node, Black, Settle(false, t, m, Red, near)), whole);
          }
        }
      } else {
        SettleInOrder(left, t, m, p.color, s, p.color);
        PlugSame(p.up, Settle(left, t, m, p.color, s), whole);
        if p.color.Black? && !IsRed(s.left) && !IsRed(s.right) {
          RemoveFixInOrder(p.up, Settle(left, t, m, Black, s));
        }
      }
    }
  }

  /** Unless everything around is black, settling restores the missing black node. */
  lemma SettleBalanced<N>(left: bool, t: Tree<N>, m: N, c: Color, s: Tree<N>, h: nat)
    requires s.T? && !IsRed(s) && Balanced(t, h) && Balanced(s, h + 1) && !IsRed(t)
    ensures var u := Settle(left, t, m, c, s);
      if c.Black? && !IsRed(s.left) && !IsRed(s.right) then Balanced(u, h + 1) && !IsRed(u)
      else Balanced(u, if c.Black? then h + 2 else h + 1) && (IsRed(u) ==> c.Red?)
  {}

  lemma {:induction false} RemoveFixRedBlack<N>(p: Path<N>, t: Tree<N>, h: nat)
    requires BalancedPath(p, h + 1) && Balanced(t, h) && !IsRed(t)
    ensures IsRedBlack(RemoveFix(p, t))
    decreases p
  {
    if p.Top? {
      BalancedHeight(t, h);
    } else {
      var left, m, s := p.InLeft?, p.node, p.other;
      if IsRed(s) {
        var near := if left then s.left else s.right;
        assert Balanced(near, h + 1);
        SettleBalanced(left, t, m, Red, near, h);
        PlugBalanced(p.up, if left then T(Settle(true, t, m, Red, near), s.node, Black, s.right)
                           else T(s.left, s.node, Black, Settle(false, t, m, Red, near)), h + 2);
      } else {
        SettleBalanced(left, t, m, p.color, s, h);
        if p.color.Black? && !IsRed(s.left) && !IsRed(s.right) {
          RemoveFixRedBlack(p.up, Settle(left, t, m, Black, s), h + 1);
        } else {
          PlugBalanced(p.up, Settle(left, t, m, p.color, s), if p.color.Black? then h + 2 else h + 1);
        }
      }
    }
  }

  /** The shape after `rbtree_remove` on the root of `t`, below `p`, which has at most one
      child. */
  function RemoveOuter<N>(p: Path<N>, t: Tree<N>): Tree<N>
    requires t.T? && (t.left.Nil? || t.right.Nil?)
  {
    var child := if t.left.T? then t.left else t.right;
    if child.T? then Plug(p, Blacken(child))
    else if t.color.Red? then Plug(p, Nil)
    else RemoveFix(p, Nil)
  }

  lemma RemoveOuterInOrder<N>(p: Path<N>, t: Tree<N>)
    requires t.T? && (t.left.Nil? || t.right.Nil?)
    ensures InOrder(RemoveOuter(p, t)) == Before(p) + InOrder(t.left) + InOrder(t.right) + After(p)
  {
    var child := if t.left.T? then t.left else t.right;
    PlugInOrder(p, Blacken(child));
    RemoveFixInOrder(p, Nil);
    PlugInOrder(p, Nil);
  }

  lemma RemoveOuterRedBlack<N>(p: Path<N>, t: Tree<N>)
    requires t.T? && (t.left.Nil? || t.right.Nil?) && IsRedBlack(Plug(p, t))
    ensures IsRedBlack(RemoveOuter(p, t))
  {
    UnplugBalanced(p, t);
    var h := BlackHeight(t);
    var child := if t.left.T? then t.left else t.right;
    if child.T? {
      PlugBalanced(p, Blacken(child), h);
    } else if t.color.Red? {
      PlugBalanced(p, Nil, h);
    } else {
      RemoveFixRedBlack(p, Nil, h - 1);
    }
  }

  /** The way to the first node of `t`, and the subtree that starts there. */
  function FirstPath<N>(p: Path<N>, t: Tree<N>): Path<N>
    requires t.T?
    decreases t
  {
    if t.left.Nil? then p else FirstPath(InLeft(p, t.node, t.color, t.right), t.left)
  }

  function FirstTree<N>(t: Tree<N>): (u: Tree<N>)
    requires t.T?
    ensures u.T? && u.left.Nil?
  {
    if t.left.Nil? then t else FirstTree(t.left)
  }

  lemma {:induction false} FirstSplits<N>(p: Path<N>, t: Tree<N>)
    requires t.T?
    ensures Plug(FirstPath(p, t), FirstTree(t)) == Plug(p, t)
    ensures Before(FirstPath(p, t)) == Before(p)
    ensures InOrder(t) != [] && InOrder(t)[0] == FirstTree(t).node
    ensures InOrder(FirstTree(t).right) + After(FirstPath(p, t)) == InOrder(t)[1..] + After(p)
    decreases t
  {
    if t.left.T? {
      FirstSplits(InLeft(p, t.node, t.color, t.right), t.left);
    }
  }
}
