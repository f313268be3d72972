/** Restoring the fill of a short child on the heap: merge with a sibling, or move
    one item from the fuller sibling through the separator. */
module Mending {
  import opened OrderedSeq
  import opened Trees
  import opened Nodes
  import opened Pools
  import opened Surgery
  import opened TreeDelete

  // ---------- two siblings ----------

  /** Append the contents of right to left, whose last child slot is still open. */
  method JoinNodes<T(0)>(left: Node<T>, right: Node<T>, ghost m: nat)
    requires left.Sized(m) && right.Sized(m) && left.leaf == right.leaf && left.Own() !! right.Own()
    requires left.num_items + right.num_items <= m - 1
    modifies left`num_items, left.items, left.children
    ensures left.num_items == old(left.num_items) + right.num_items
    ensures left.items[..left.num_items] == old(left.items[..left.num_items]) + right.items[..right.num_items]
    ensures !left.leaf ==> left.Kids() == old(left.children[..left.num_items]) + right.Kids()
  {
    var n, r := left.num_items, right.num_items;
    Copy(left.items, n, right.items, 0, r);
    if !left.leaf {
      Copy(left.children, n, right.children, 0, r + 1);
      assert left.children[..n + r + 1] == left.children[..n] + left.children[n..n + (r + 1)];
    }
    left.num_items := n + r;
    assert left.items[..n + r] == left.items[..n] + left.items[n..n + r];
  }

  method CopyAcross<T(0)>(left: Node<T>, x: T, right: Node<T>, ghost m: nat)
    requires left.Sized(m) && right.Sized(m) && left.leaf == right.leaf && left.Own() !! right.Own()
    requires left.num_items + right.num_items + 1 <= m - 1
    modifies left`num_items, left.items, left.children
    ensures left.num_items == old(left.num_items) + 1 + right.num_items
    ensures left.items[..left.num_items]
         == old(left.items[..left.num_items]) + [x] + right.items[..right.num_items]
    ensures !left.leaf ==> left.Kids() == old(left.Kids()) + right.Kids()
  {
    var n := left.num_items;
    left.items[n] := x;
    left.num_items := n + 1;
    assert left.items[..n + 1] == left.items[..n] + [x];
    JoinNodes(left, right, m);
  }

  /** Merge left + item + right into left. */
  method Merge<T(0)>(left: Node<T>, x: T, right: Node<T>, ghost m: nat)
    requires left.Valid(m) && right.Valid(m) && left.repr !! right.repr && left.leaf == right.leaf
    requires left.num_items + right.num_items + 1 < m - 1
    modifies left, left.items, left.children
    ensures left.Valid(m) && left.model == Join(old(left.model), x, right.model)
    ensures left.repr == old(left.repr) + (right.repr - right.Own())
  {
    ghost var t := Join(left.model, x, right.model);
    ghost var a, b := left.repr - left.Own(), right.repr - right.Own();
    if left.leaf {
      CopyAcross(left, x, right, m);
      left.model, left.repr := t, left.repr + b;
    } else {
      ghost var kids := left.Kids() + right.Kids();
      BroodJoin(left.Kids(), left.model.kids, a, right.Kids(), right.model.kids, b, m);
      CopyAcross(left, x, right, m);
      Represent(left, t, kids, a + b, m);
      assert left.repr == left.Own() + (a + b);
    }
  }

  /** What moving the last item of l over to r amounts to. */
  lemma GripLeft<T>(l: Tree<T>, x: T, r: Tree<T>)
    requires Counted(l) && Counted(r) && l.Leaf? == r.Leaf? && |l.items| > |r.items|
    ensures var (l', y, r') := Regrip(l, x, r); var n := |l.items| - 1;
      && y == l.items[n]
      && (l.Leaf? ==> l' == Leaf(l.items[..n]) && r' == Leaf([x] + r.items))
      && (l.Branch? ==>
            l' == Branch(l.items[..n], l.kids[..n + 1]) && r' == Branch([x] + r.items, [l.kids[n + 1]] + r.kids))
  {
    var n, all := |l.items| - 1, Join(l, x, r);
    assert all.items[..n] == l.items[..n] && all.items[n + 1..] == [x] + r.items;
    if l.Branch? {
      assert all.kids[..n + 1] == l.kids[..n + 1] && all.kids[n + 1..] == [l.kids[n + 1]] + r.kids;
    }
  }

  lemma GripRight<T>(l: Tree<T>, x: T, r: Tree<T>)
    requires Counted(l) && Counted(r) && l.Leaf? == r.Leaf? && |l.items| <= |r.items| && r.items != []
    ensures var (l', y, r') := Regrip(l, x, r);
      && y == r.items[0]
      && (l.Leaf? ==> l' == Leaf(l.items + [x]) && r' == Leaf(r.items[1..]))
      && (l.Branch? ==>
            l' == Branch(l.items + [x], l.kids + [r.kids[0]]) && r' == Branch(r.items[1..], r.kids[1..]))
  {
    var n, all := |l.items| + 1, Join(l, x, r);
    assert all.items[..n] == l.items + [x] && all.items[n + 1..] == r.items[1..];
    if l.Branch? {
      assert all.kids[..n + 1] == l.kids + [r.kids[0]] && all.kids[n + 1..] == r.kids[1..];
    }
  }

  method PassRight<T(0)>(left: Node<T>, x: T, right: Node<T>, ghost m: nat) returns (y: T)
    requires left.Sized(m) && right.Sized(m) && left.leaf == right.leaf && left.Own() !! right.Own()
    requires 1 <= left.num_items <= m - 2 && right.num_items <= m - 2
    modifies left`num_items, left.children, right`num_items, right.items, right.children
    ensures left.num_items == old(left.num_items) - 1 && right.num_items == old(right.num_items) + 1
    ensures y == left.items[left.num_items]
    ensures right.items[..right.num_items] == [x] + old(right.items[..right.num_items])
    ensures !left.leaf ==> left.Kids() == old(left.Kids()[..left.num_items])
    ensures !left.leaf ==> left.children[left.num_items + 1] == null
    ensures !left.leaf ==> right.Kids() == [old(left.Kids()[left.num_items])] + old(right.Kids())
  {
    var n := left.num_items;
    ghost var p, r := right.items[..1], right.items[..right.num_items];
    ghost var p' := right.children[..if right.leaf then 0 else 1];
    ghost var kr := if right.leaf then [] else right.Kids();
    right.ShiftRight(0);
    ghost var gap := right.items[..right.num_items];
    right.items[0] := x;
    FillSlot(p, r, 0, x);
    assert right.items[..right.num_items] == gap[0 := x];
    if !left.leaf {
      ghost var gap' := right.Kids();
      right.children[0] := left.children[n];
      FillSlot(p', kr, 0, left.children[n]);
      assert right.Kids() == gap'[0 := left.children[n]];
      left.children[n] := null;
    }
    y := left.items[n - 1];
    left.num_items := n - 1;
  }

  method PassLeft<T(0)>(left: Node<T>, x: T, right: Node<T>, ghost m: nat) returns (y: T)
    requires left.Sized(m) && right.Sized(m) && left.leaf == right.leaf && left.Own() !! right.Own()
    requires left.num_items <= m - 2 && 1 <= right.num_items <= m - 2
    modifies left`num_items, left.items, left.children, right`num_items, right.items, right.children
    ensures left.num_items == old(left.num_items) + 1 && right.num_items == old(right.num_items) - 1
    ensures y == old(right.items[0])
    ensures left.items[..left.num_items] == old(left.items[..left.num_items]) + [x]
    ensures right.items[..right.num_items] == old(right.items[1..right.num_items])
    ensures !left.leaf ==> left.Kids() == old(left.Kids()) + [old(right.Kids()[0])]
    ensures !left.leaf ==> right.Kids() == old(right.Kids()[1..])
  {
    left.items[left.num_items] := x;
    if !left.leaf {
      left.children[left.num_items + 1] := right.children[0];
    }
    left.num_items := left.num_items + 1;
    y := right.items[0];
    right.ShiftLeft(0, false);
  }

  /** The last child of left goes, with its storage, before the children of right. */
  lemma HandOverLast<T(0)>(left: Node<T>, right: Node<T>, m: nat) returns (a: set<object>, b: set<object>)
    requires left.Valid(m) && right.Valid(m) && left.repr !! right.repr && !left.leaf && !right.leaf
    ensures var l, r, kl, n := left.model.kids, right.model.kids, left.Kids(), left.num_items;
      && Brood(kl[..n], l[..n], m, a)
      && Brood([kl[n]] + right.Kids(), [l[n]] + r, m, b)
    ensures a !! b && a + b !! left.Own() + right.Own() && a + b <= left.repr + right.repr
  {
    var l, r, kl, n := left.model.kids, right.model.kids, left.Kids(), left.num_items;
    var s, g := right.repr - right.Own(), {};
    a, g := BroodSplit(kl, l, m, left.repr - left.Own(), n);
    assert kl[n..] == [kl[n]] && l[n..] == [l[n]];
    BroodJoin([kl[n]], [l[n]], g, right.Kids(), r, s, m);
    b := g + s;
  }

  /** The first child of right goes, with its storage, after the children of left. */
  lemma HandOverFirst<T(0)>(left: Node<T>, right: Node<T>, m: nat) returns (a: set<object>, b: set<object>)
    requires left.Valid(m) && right.Valid(m) && left.repr !! right.repr && !left.leaf && !right.leaf
    ensures var l, r, kr := left.model.kids, right.model.kids, right.Kids();
      && Brood(left.Kids() + [kr[0]], l + [r[0]], m, a)
      && Brood(kr[1..], r[1..], m, b)
    ensures a !! b && a + b !! left.Own() + right.Own() && a + b <= left.repr + right.repr
  {
    var l, r, kr := left.model.kids, right.model.kids, right.Kids();
    var s, g := left.repr - left.Own(), {};
    g, b := BroodSplit(kr, r, m, right.repr - right.Own(), 1);
    assert kr[..1] == [kr[0]] && r[..1] == [r[0]];
    BroodJoin(left.Kids(), l, s, [kr[0]], [r[0]], g, m);
    a := s + g;
  }

  method BorrowLeftBranch<T(0)>(left: Node<T>, x: T, right: Node<T>, ghost m: nat) returns (y: T)
    requires left.Valid(m) && right.Valid(m) && left.repr !! right.repr && left.leaf == right.leaf == false
    requires right.num_items < left.num_items <= m - 2
    modifies left, left.children, right, right.items, right.children
    ensures left.Valid(m) && right.Valid(m) && left.repr !! right.repr
    ensures left.repr + right.repr <= old(left.repr + right.repr)
    ensures (left.model, y, right.model) == Regrip(old(left.model), x, old(right.model))
  {
    ghost var l, r := left.model, right.model;
    ghost var kl, kr, n := left.Kids(), right.Kids(), left.num_items;
    GripLeft(l, x, r);
    ghost var a, b := HandOverLast(left, right, m);
    y := PassRight(left, x, right, m);
    RepresentBoth(left, Branch(l.items[..n - 1], l.kids[..n]), kl[..n], a,
                  right, Branch([x] + r.items, [l.kids[n]] + r.kids), [kl[n]] + kr, b, m);
  }

  /** Move the last item of left up and the separator down into right. */
  method BorrowLeft<T(0)>(left: Node<T>, x: T, right: Node<T>, ghost m: nat) returns (y: T)
    requires left.Valid(m) && right.Valid(m) && left.repr !! right.repr && left.leaf == right.leaf
    requires right.num_items < left.num_items <= m - 2
    modifies left, left.children, right, right.items, right.children
    ensures left.Valid(m) && right.Valid(m) && left.repr !! right.repr
    ensures left.repr + right.repr <= old(left.repr + right.repr)
    ensures (left.model, y, right.model) == Regrip(old(left.model), x, old(right.model))
  {
    if left.leaf {
      GripLeft(left.model, x, right.model);
      ghost var (l, _, r) := Regrip(left.model, x, right.model);
      y := PassRight(left, x, right, m);
      left.model, right.model := l, r;
    } else {
      y := BorrowLeftBranch(left, x, right, m);
    }
  }

  method BorrowRightBranch<T(0)>(left: Node<T>, x: T, right: Node<T>, ghost m: nat) returns (y: T)
    requires left.Valid(m) && right.Valid(m) && left.repr !! right.repr && left.leaf == right.leaf == false
    requires left.num_items <= right.num_items <= m - 2 && 1 <= right.num_items
    modifies left, left.items, left.children, right, right.items, right.children
    ensures left.Valid(m) && right.Valid(m) && left.repr !! right.repr
    ensures left.repr + right.repr <= old(left.repr + right.repr)
    ensures (left.model, y, right.model) == Regrip(old(left.model), x, old(right.model))
  {
    ghost var l, r := left.model, right.model;
    ghost var kl, kr := left.Kids(), right.Kids();
    GripRight(l, x, r);
    ghost var a, b := HandOverFirst(left, right, m);
    ghost var (l', _, r') := Regrip(l, x, r);
    assert Brood(kl + [kr[0]], l'.kids, m, a) && Brood(kr[1..], r'.kids, m, b);
    y := PassLeft(left, x, right, m);
    assert right.items[..right.num_items] == r'.items;
    RepresentBoth(left, l', kl + [kr[0]], a, right, r', kr[1..], b, m);
  }

  /** Move the first item of right up and the separator down into left. */
  method BorrowRight<T(0)>(left: Node<T>, x: T, right: Node<T>, ghost m: nat) returns (y: T)
    requires left.Valid(m) && right.Valid(m) && left.repr !! right.repr && left.leaf == right.leaf
    requires left.num_items <= right.num_items <= m - 2 && 1 <= right.num_items
    modifies left, left.items, left.children, right, right.items, right.children
    ensures left.Valid(m) && right.Valid(m) && left.repr !! right.repr
    ensures left.repr + right.repr <= old(left.repr + right.repr)
    ensures (left.model, y, right.model) == Regrip(old(left.model), x, old(right.model))
  {
    if left.leaf {
      GripRight(left.model, x, right.model);
      ghost var (l, _, r) := Regrip(left.model, x, right.model);
      y := PassLeft(left, x, right, m);
      left.model, right.model := l, r;
    } else {
      y := BorrowRightBranch(left, x, right, m);
    }
  }

  /** Move one item from the fuller sibling to the other. */
  method Borrow<T(0)>(left: Node<T>, x: T, right: Node<T>, ghost m: nat) returns (y: T)
    requires left.Valid(m) && right.Valid(m) && left.repr !! right.repr && left.leaf == right.leaf
    requires left.num_items <= m - 2 && right.num_items <= m - 2
    requires left.num_items <= right.num_items ==> 1 <= right.num_items
    modifies left, left.items, left.children, right, right.items, right.children
    ensures left.Valid(m) && right.Valid(m) && left.repr !! right.repr
    ensures left.repr + right.repr <= old(left.repr + right.repr)
    ensures (left.model, y, right.model) == Regrip(old(left.model), x, old(right.model))
  {
    if left.num_items > right.num_items {
      y := BorrowLeft(left, x, right, m);
    } else {
      y := BorrowRight(left, x, right, m);
    }
  }

  // ---------- the branch above them ----------

  /** Storage that shrinks inside stays inside. */
  lemma StaysWithin(own: set<object>, a: set<object>, now: set<object>, was: set<object>, c: set<object>,
                    all: set<object>)
    requires now <= was && own <= all && a + c + was <= all
    ensures own + (a + now + c) <= all
  {
  }

  /** The storage of the siblings around children i and i + 1. */
  lemma ApartPair<T(0)>(node: Node<T>, i: nat, m: nat) returns (a: set<object>, c: set<object>)
    requires node.Valid(m) && !node.leaf && i < node.num_items
    ensures Brood(node.Kids()[..i], node.model.kids[..i], m, a)
    ensures Brood(node.Kids()[i + 2..], node.model.kids[i + 2..], m, c)
    ensures var l, r := node.Kid(i, m), node.Kid(i + 1, m);
      && a !! c && a + c !! l.repr + r.repr && l.repr !! r.repr
      && a + c + l.repr + r.repr <= node.repr - node.Own()
  {
    var b;
    var ks, ts := node.Kids(), node.model.kids;
    a, b, c := BroodMiddle(ks, ts, m, node.repr - node.Own(), i, 2);
    var l, r := node.Kid(i, m), node.Kid(i + 1, m);
    assert ks[i..i + 2][0] == l && ks[i..i + 2][1] == r;
  }

  lemma PairBrood<T(0)>(ks: seq<Node?<T>>, ts: seq<Tree<T>>, i: nat, l: Node<T>, r: Node<T>,
                        a: set<object>, c: set<object>, m: nat)
    requires i + 1 < |ks| == |ts| && l.Valid(m) && r.Valid(m) && l.repr !! r.repr && ks[i] == l && ks[i + 1] == r
    requires Brood(ks[..i], ts[..i], m, a) && Brood(ks[i + 2..], ts[i + 2..], m, c)
    requires a !! c && a + c !! l.repr + r.repr
    ensures Brood(ks, ts[i := l.model][i + 1 := r.model], m, a + (l.repr + r.repr) + c)
  {
    BroodTwo(l, r, m);
    BroodThree(ks[..i], ts[..i], a, [l, r], [l.model, r.model], l.repr + r.repr, ks[i + 2..], ts[i + 2..], c, m);
    UpdateTwo(ks, i, l, r);
    assert ks[i := l][i + 1 := r] == ks;
    UpdateTwo(ts, i, l.model, r.model);
  }

  lemma FuseBrood<T(0)>(ks: seq<Node?<T>>, ts: seq<Tree<T>>, i: nat, l: Node<T>,
                        a: set<object>, c: set<object>, m: nat)
    requires i + 1 < |ks| == |ts| && l.Valid(m)
    requires Brood(ks[..i], ts[..i], m, a) && Brood(ks[i + 2..], ts[i + 2..], m, c)
    requires a !! c && a + c !! l.repr
    ensures Brood(ks[..i] + [l] + ks[i + 2..], ts[..i] + [l.model] + ts[i + 2..], m, a + l.repr + c)
  {
    BroodOne(l, m);
    BroodThree(ks[..i], ts[..i], a, [l], [l.model], l.repr, ks[i + 2..], ts[i + 2..], c, m);
  }

  /** The two children have changed and a new separator stands between them. */
  method SetSeparator<T(0)>(node: Node<T>, i: nat, y: T, ghost ts: seq<Tree<T>>, ghost l: Node<T>, ghost r: Node<T>,
                            ghost a: set<object>, ghost c: set<object>, ghost m: nat)
    requires node.Sized(m) && !node.leaf && i < node.num_items <= m - 1 && |ts| == node.num_items + 1
    requires node.Kids()[i] == l && node.Kids()[i + 1] == r && l.Valid(m) && r.Valid(m) && l.repr !! r.repr
    requires Brood(node.Kids()[..i], ts[..i], m, a) && Brood(node.Kids()[i + 2..], ts[i + 2..], m, c)
    requires a !! c && a + c !! l.repr + r.repr && a + (l.repr + r.repr) + c !! node.Own()
    modifies node`model, node`repr, node.items
    ensures node.Valid(m) && node.repr == node.Own() + (a + (l.repr + r.repr) + c)
    ensures node.model == SetPair(old(node.items[..node.num_items]), ts, i, l.model, y, r.model)
  {
    ghost var t := SetPair(node.items[..node.num_items], ts, i, l.model, y, r.model);
    PairBrood(node.Kids(), ts, i, l, r, a, c, m);
    node.items[i] := y;
    Represent(node, t, node.Kids(), a + (l.repr + r.repr) + c, m);
  }

  /** Take item i and child i + 1 out of the arrays. */
  method DropSlots<T(0)>(node: Node<T>, i: nat, ghost m: nat)
    requires node.Sized(m) && !node.leaf && i < node.num_items <= m - 2
    modifies node`num_items, node.items, node.children
    ensures node.num_items == old(node.num_items) - 1
    ensures node.items[..node.num_items] == old(node.items[..i] + node.items[i + 1..node.num_items])
    ensures node.Kids() == old(node.Kids()[..i + 1] + node.Kids()[i + 2..])
  {
    node.ShiftLeft(i, true);
  }

  /** DropSlots, once the two children have been made one. */
  method Prune<T(0)>(node: Node<T>, i: nat, ghost t: Tree<T>, ghost s: set<object>, ghost m: nat)
    requires node.Sized(m) && !node.leaf && i < node.num_items <= m - 2 && s !! node.Own()
    requires t.Branch? && Counted(t) && t.items == node.items[..i] + node.items[i + 1..node.num_items]
    requires Brood(node.Kids()[..i + 1] + node.Kids()[i + 2..], t.kids, m, s)
    modifies node, node.items, node.children
    ensures node.Valid(m) && node.repr == node.Own() + s && node.model == t
  {
    ghost var kids := node.Kids()[..i + 1] + node.Kids()[i + 2..];
    DropSlots(node, i, m);
    Represent(node, t, kids, s, m);
  }

  /** Item i and child i + 1 have gone into child i. */
  method DropSeparator<T(0)>(node: Node<T>, i: nat, ghost ts: seq<Tree<T>>, ghost l: Node<T>,
                             ghost a: set<object>, ghost c: set<object>, ghost m: nat)
    requires node.Sized(m) && !node.leaf && i < node.num_items <= m - 2 && |ts| == node.num_items + 1
    requires node.Kids()[i] == l && l.Valid(m)
    requires Brood(node.Kids()[..i], ts[..i], m, a) && Brood(node.Kids()[i + 2..], ts[i + 2..], m, c)
    requires a !! c && a + c !! l.repr && a + l.repr + c !! node.Own()
    modifies node, node.items, node.children
    ensures node.Valid(m) && node.repr == node.Own() + (a + l.repr + c)
    ensures node.model == Fuse(old(node.items[..node.num_items]), ts, i, l.model)
  {
    ghost var ks, s := node.Kids(), node.items[..node.num_items];
    FuseBrood(ks, ts, i, l, a, c, m);
    assert ks[..i + 1] == ks[..i] + [l];
    Prune(node, i, Fuse(s, ts, i, l.model), a + l.repr + c, m);
  }
}
