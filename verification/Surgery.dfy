/** Splitting, merging and borrowing on heap nodes, each proved to be the
    rearrangement of node values of the same name. */
module Surgery {
  import opened OrderedSeq
  import opened Trees
  import opened Nodes
  import opened Pools
  import opened TreeSet

  /** Copy of n slots from one array to another. */
  method Copy<T>(a: array<T>, dst: nat, b: array<T>, src: nat, n: nat)
    requires a != b && dst + n <= a.Length && src + n <= b.Length
    modifies a
    ensures a[..dst] == old(a[..dst])
    ensures a[dst..dst + n] == b[src..src + n]
    ensures a[dst + n..] == old(a[dst + n..])
  {
    forall k | 0 <= k < n {
      a[dst + k] := b[src + k];
    }
  }

  /** Move everything past item mid to an empty node. */
  method Cut<T(0)>(node: Node<T>, right: Node<T>, mid: nat, ghost m: nat)
    requires node.Sized(m) && right.Sized(m) && node.leaf == right.leaf && node.Own() !! right.Own()
    requires mid < node.num_items <= m - 1
    modifies node`num_items, right`num_items, right.items, right.children
    ensures node.num_items == mid && right.num_items == old(node.num_items) - (mid + 1)
    ensures right.items[..right.num_items] == node.items[mid + 1..old(node.num_items)]
    ensures !node.leaf ==> right.Kids() == node.children[mid + 1..old(node.num_items) + 1]
  {
    right.num_items := node.num_items - (mid + 1);
    Copy(right.items, 0, node.items, mid + 1, right.num_items);
    assert right.items[..right.num_items] == node.items[mid + 1..node.num_items];
    if !node.leaf { CutKids(node, right, mid, m); }
    node.num_items := mid;
  }

  method CutKids<T(0)>(node: Node<T>, right: Node<T>, mid: nat, ghost m: nat)
    requires node.Sized(m) && right.Sized(m) && !node.leaf && !right.leaf && node.Own() !! right.Own()
    requires mid < node.num_items <= m - 1 && right.num_items == node.num_items - (mid + 1)
    modifies right.children
    ensures right.Kids() == node.children[mid + 1..node.num_items + 1]
  {
    var i := 0;
    while i <= right.num_items
      invariant 0 <= i <= right.num_items + 1
      invariant right.children[..i] == node.children[mid + 1..mid + 1 + i]
    {
      right.children[i] := node.children[mid + 1 + i];
      i := i + 1;
    }
  }

  /** Exchange item i for an equivalent one. */
  method PutItem<T(0)>(node: Node<T>, i: nat, item: T, ghost m: nat)
    requires node.Valid(m) && i < node.num_items
    modifies node`model, node.items
    ensures node.Valid(m)
    ensures node.model == old(node.model).(items := old(node.model).items[i := item])
  {
    ghost var t := node.model;
    assert !node.leaf ==> Brood(node.Kids(), t.kids, m, node.repr - node.Own());
    node.items[i] := item;
    node.model := t.(items := t.items[i := item]);
  }

  /** Make a branch stand for a value its arrays already spell out. */
  ghost method Represent<T(0)>(node: Node<T>, t: Tree<T>, kids: seq<Node?<T>>, s: set<object>, m: nat)
    requires node.Sized(m) && !node.leaf && node.num_items <= m - 1 && t.Branch? && Counted(t)
    requires t.items == node.items[..node.num_items] && kids == node.Kids()
    requires s !! node.Own() && Brood(kids, t.kids, m, s)
    modifies node`model, node`repr
    ensures node.Valid(m) && node.model == t && node.repr == node.Own() + s
  {
    node.repr := node.Own() + s;
    node.model := t;
    assert node.repr - node.Own() == s;
  }

  ghost method RepresentBoth<T(0)>(left: Node<T>, l: Tree<T>, kl: seq<Node?<T>>, a: set<object>,
                                   right: Node<T>, r: Tree<T>, kr: seq<Node?<T>>, b: set<object>, m: nat)
    requires left.Sized(m) && !left.leaf && left.num_items <= m - 1 && l.Branch? && Counted(l)
    requires right.Sized(m) && !right.leaf && right.num_items <= m - 1 && r.Branch? && Counted(r)
    requires l.items == left.items[..left.num_items] && kl == left.Kids() && Brood(kl, l.kids, m, a)
    requires r.items == right.items[..right.num_items] && kr == right.Kids() && Brood(kr, r.kids, m, b)
    requires a !! b && a + b !! left.Own() + right.Own() && left.Own() !! right.Own()
    modifies left`model, left`repr, right`model, right`repr
    ensures left.Valid(m) && right.Valid(m) && left.model == l && right.model == r
    ensures left.repr == left.Own() + a && right.repr == right.Own() + b
  {
    Represent(left, l, kl, a, m);
    Represent(right, r, kr, b, m);
  }

  method Divide<T(0)>(node: Node<T>, right: Node<T>, mid: nat, ghost m: nat)
    requires node.Valid(m) && right.Sized(m) && node.leaf == right.leaf && node.repr !! right.Own()
    requires mid < node.num_items
    modifies node, right, right.items, right.children
    ensures node.Valid(m) && right.Valid(m) && node.repr !! right.repr
    ensures node.repr + right.repr <= old(node.repr) + right.Own()
    ensures node.model == Split(old(node.model), mid).0 && right.model == Split(old(node.model), mid).2
  {
    if node.leaf {
      ghost var model := node.model;
      Cut(node, right, mid, m);
      node.repr, right.repr := node.Own(), right.Own();
      node.model, right.model := Split(model, mid).0, Split(model, mid).2;
    } else {
      DivideBranch(node, right, mid, m);
    }
  }

  method DivideBranch<T(0)>(node: Node<T>, right: Node<T>, mid: nat, ghost m: nat)
    requires node.Valid(m) && right.Sized(m) && !node.leaf && !right.leaf && node.repr !! right.Own()
    requires mid < node.num_items
    modifies node, right, right.items, right.children
    ensures node.Valid(m) && right.Valid(m) && node.repr !! right.repr
    ensures node.repr + right.repr <= old(node.repr) + right.Own()
    ensures node.model == Split(old(node.model), mid).0 && right.model == Split(old(node.model), mid).2
  {
    ghost var t, ks := node.model, node.Kids();
    ghost var a, b := BroodSplit(ks, t.kids, m, node.repr - node.Own(), mid + 1);
    Cut(node, right, mid, m);
    assert node.Kids() == ks[..mid + 1] && right.Kids() == ks[mid + 1..];
    RepresentBoth(node, Split(t, mid).0, ks[..mid + 1], a, right, Split(t, mid).2, ks[mid + 1..], b, m);
  }

  method SplitNode<T(0)>(pool: Pool<T>, node: Node<T>, lean: bool)
    returns (right: Node<T>, median: T)
    requires pool.Valid() && Permitted(pool.max) && node.Valid(pool.max) && node.repr !! pool.repr
    requires node.num_items == pool.max - 1
    requires if node.leaf then pool.leaves != [] else pool.branches != []
    modifies pool, pool.repr, node
    ensures pool.Valid() && node.Valid(pool.max) && right.Valid(pool.max)
    ensures node.repr !! right.repr && node.repr !! pool.repr && right.repr !! pool.repr
    ensures pool.repr <= old(pool.repr)
    ensures node.repr + right.repr + pool.repr <= old(node.repr) + old(pool.repr)
    ensures (CutFills(pool.max, lean);
             (node.model, median, right.model) == Split(old(node.model), CutPoint(pool.max, pool.max - 1, lean)))
    ensures if node.leaf
            then pool.leaves == old(pool.leaves[..|pool.leaves| - 1]) && pool.branches == old(pool.branches)
            else pool.branches == old(pool.branches[..|pool.branches| - 1]) && pool.leaves == old(pool.leaves)
  {
    CutFills(pool.max, lean);
    var mid: int := CutPoint(pool.max, node.num_items, lean);
    median := node.items[mid];
    if node.leaf { right := pool.GimmeLeaf(); } else { right := pool.GimmeBranch(); }
    Divide(node, right, mid, pool.max);
  }

  /** Filling the stale slot of a sequence opened at i. */
  lemma FillSlot<T>(p: seq<T>, q: seq<T>, i: nat, x: T)
    requires |p| == i + 1
    ensures (p + q)[i := x] == p[..i] + [x] + q
  {
  }

  /** Hang a node and the item before it into a branch after child i. */
  method Insert<T(0)>(node: Node<T>, i: nat, median: T, right: Node<T>, ghost m: nat)
    requires node.Sized(m) && !node.leaf && i <= node.num_items <= m - 2
    modifies node`num_items, node.items, node.children
    ensures node.num_items == old(node.num_items) + 1
    ensures node.items[..node.num_items] == old(node.items[..i]) + [median] + old(node.items[i..node.num_items])
    ensures node.Kids() == old(node.Kids())[..i + 1] + [right] + old(node.Kids())[i + 1..]
  {
    ghost var n, s, ks := node.num_items, node.items[..node.num_items], node.Kids();
    ghost var p, p' := node.items[..i + 1], node.children[..i + 1];
    node.ShiftRight(i);
    ghost var gap, gap' := node.items[..n + 1], node.Kids();
    node.items[i] := median;
    node.children[i + 1] := right;
    assert node.items[..n + 1] == gap[i := median] && node.Kids() == gap'[i + 1 := right];
    FillSlot(p, s[i..], i, median);
    assert gap' == (p' + [ks[i]]) + ks[i + 1..];
    FillSlot(p' + [ks[i]], ks[i + 1..], i + 1, right);
  }

  lemma PartBrood<T(0)>(ks: seq<Node?<T>>, ts: seq<Tree<T>>, i: nat, l: Node<T>, r: Node<T>,
                        a: set<object>, c: set<object>, m: nat)
    requires i < |ks| == |ts| && l.Valid(m) && r.Valid(m) && l.repr !! r.repr
    requires Brood(ks[..i], ts[..i], m, a) && Brood(ks[i + 1..], ts[i + 1..], m, c)
    requires a !! c && a + c !! l.repr + r.repr
    ensures Brood(ks[..i] + [l, r] + ks[i + 1..], ts[..i] + [l.model, r.model] + ts[i + 1..], m,
                  a + (l.repr + r.repr) + c)
  {
    BroodTwo(l, r, m);
    BroodThree(ks[..i], ts[..i], a, [l, r], [l.model, r.model], l.repr + r.repr, ks[i + 1..], ts[i + 1..], c, m);
  }

  /** Insert, once the child has been cut in two. */
  method Graft<T(0)>(node: Node<T>, i: nat, median: T, right: Node<T>, ghost t: Tree<T>, ghost s: set<object>,
                 ghost m: nat)
    requires node.Sized(m) && !node.leaf && i <= node.num_items <= m - 2 && s !! node.Own()
    requires t.Branch? && Counted(t) && t.items == node.items[..i] + [median] + node.items[i..node.num_items]
    requires Brood(node.Kids()[..i + 1] + [right] + node.Kids()[i + 1..], t.kids, m, s)
    modifies node, node.items, node.children
    ensures node.Valid(m) && node.repr == node.Own() + s && node.model == t
  {
    ghost var kids := node.Kids()[..i + 1] + [right] + node.Kids()[i + 1..];
    Insert(node, i, median, right, m);
    Represent(node, t, kids, s, m);
  }

  method Adopt<T(0)>(node: Node<T>, i: nat, child: Node<T>, median: T, right: Node<T>,
                     ghost ts: seq<Tree<T>>, ghost a: set<object>, ghost c: set<object>, ghost m: nat)
    requires node.Sized(m) && !node.leaf && i <= node.num_items <= m - 2 && |ts| == node.num_items + 1
    requires node.Kids()[i] == child && child.Valid(m) && right.Valid(m) && child.repr !! right.repr
    requires Brood(node.Kids()[..i], ts[..i], m, a) && Brood(node.Kids()[i + 1..], ts[i + 1..], m, c)
    requires a !! c && a + c !! child.repr + right.repr && a + (child.repr + right.repr) + c !! node.Own()
    modifies node, node.items, node.children
    ensures node.Valid(m) && node.repr == node.Own() + (a + (child.repr + right.repr) + c)
    ensures node.model == Part(old(node.items[..node.num_items]), ts, i, child.model, median, right.model)
  {
    ghost var ks, s := node.Kids(), node.items[..node.num_items];
    PartBrood(ks, ts, i, child, right, a, c, m);
    assert ks[..i + 1] + [right] + ks[i + 1..] == ks[..i] + [child, right] + ks[i + 1..];
    Graft(node, i, median, right, Part(s, ts, i, child.model, median, right.model),
          a + (child.repr + right.repr) + c, m);
  }

  /** The storage of the siblings before and after child i. */
  lemma Apart<T(0)>(node: Node<T>, i: nat, m: nat) returns (a: set<object>, c: set<object>)
    requires node.Valid(m) && !node.leaf && i <= node.num_items
    ensures Brood(node.Kids()[..i], node.model.kids[..i], m, a)
    ensures Brood(node.Kids()[i + 1..], node.model.kids[i + 1..], m, c)
    ensures a !! c && a + c !! node.Kid(i, m).repr + node.Own()
    ensures a + c <= node.repr
  {
    var b;
    var ks, ts := node.Kids(), node.model.kids;
    a, b, c := BroodMiddle(ks, ts, m, node.repr - node.Own(), i, 1);
    assert ks[i..i + 1][0] == node.Kid(i, m);
  }

  /** Bring a branch up to date after work inside child i. */
  ghost method Refresh<T(0)>(node: Node<T>, i: nat, child: Node<T>, ts: seq<Tree<T>>,
                             a: set<object>, c: set<object>, m: nat)
    requires node.Sized(m) && !node.leaf && i <= node.num_items <= m - 1 && |ts| == node.num_items + 1
    requires node.Kids()[i] == child && child.Valid(m)
    requires Brood(node.Kids()[..i], ts[..i], m, a) && Brood(node.Kids()[i + 1..], ts[i + 1..], m, c)
    requires a !! c && a + c !! child.repr && a + child.repr + c !! node.Own()
    modifies node`model, node`repr
    ensures node.Valid(m) && node.repr == node.Own() + (a + child.repr + c)
    ensures node.model == Branch(node.items[..node.num_items], ts[i := child.model])
  {
    var ks := node.Kids();
    BroodOne(child, m);
    BroodThree(ks[..i], ts[..i], a, [child], [child.model], child.repr, ks[i + 1..], ts[i + 1..], c, m);
    UpdateOne(ks, i, child);
    UpdateOne(ts, i, child.model);
    Represent(node, Branch(node.items[..node.num_items], ts[i := child.model]), ks, a + child.repr + c, m);
  }

  method SplitChild<T(0)>(pool: Pool<T>, node: Node<T>, i: nat, lean: bool)
    requires pool.Valid() && Permitted(pool.max) && node.Valid(pool.max) && node.repr !! pool.repr
    requires !node.leaf && i <= node.num_items <= pool.max - 2
    requires node.Kid(i, pool.max).num_items == pool.max - 1
    requires if node.Kid(i, pool.max).leaf then pool.leaves != [] else pool.branches != []
    modifies pool, pool.repr, node.repr
    ensures pool.Valid() && node.Valid(pool.max) && node.repr !! pool.repr
    ensures node.repr + pool.repr <= old(node.repr) + old(pool.repr)
    ensures var t := old(node.model); node.model == Absorb(t.items, t.kids, i, t.kids[i], pool.max, lean)
    ensures if old(node.Kid(i, pool.max).leaf)
            then pool.leaves == old(pool.leaves[..|pool.leaves| - 1]) && pool.branches == old(pool.branches)
            else pool.branches == old(pool.branches[..|pool.branches| - 1]) && pool.leaves == old(pool.leaves)
  {
    ghost var ts := node.model.kids;
    ghost var a, c := Apart(node, i, pool.max);
    var child := node.Kid(i, pool.max);
    var right, median := SplitInside(pool, node, i, child, lean, ts, a, c);
    Adopt(node, i, child, median, right, ts, a, c, pool.max);
  }

  /** Cutting child i leaves the node's own arrays and the siblings as they were. */
  method SplitInside<T(0)>(pool: Pool<T>, node: Node<T>, i: nat, child: Node<T>, lean: bool, ghost ts: seq<Tree<T>>,
                           ghost a: set<object>, ghost c: set<object>)
    returns (right: Node<T>, median: T)
    requires pool.Valid() && Permitted(pool.max) && child.Valid(pool.max) && child.repr !! pool.repr
    requires child.num_items == pool.max - 1
    requires if child.leaf then pool.leaves != [] else pool.branches != []
    requires node.Sized(pool.max) && !node.leaf && i <= node.num_items <= pool.max - 2 && |ts| == node.num_items + 1
    requires node.Own() !! a + c && node.Own() + a + c !! child.repr + pool.repr && a !! c
    requires Brood(node.Kids()[..i], ts[..i], pool.max, a) && Brood(node.Kids()[i + 1..], ts[i + 1..], pool.max, c)
    modifies pool, pool.repr, child
    ensures pool.Valid() && child.Valid(pool.max) && right.Valid(pool.max)
    ensures child.repr !! right.repr && child.repr + right.repr !! pool.repr
    ensures pool.repr <= old(pool.repr)
    ensures child.repr + right.repr + pool.repr <= old(child.repr) + old(pool.repr)
    ensures Part(node.items[..node.num_items], ts, i, child.model, median, right.model) ==
      Absorb(node.items[..node.num_items], ts, i, old(child.model), pool.max, lean)
    ensures if child.leaf
            then pool.leaves == old(pool.leaves[..|pool.leaves| - 1]) && pool.branches == old(pool.branches)
            else pool.branches == old(pool.branches[..|pool.branches| - 1]) && pool.leaves == old(pool.leaves)
    ensures node.num_items == old(node.num_items) && node.Kids() == old(node.Kids())
    ensures node.items[..node.num_items] == old(node.items[..node.num_items])
    ensures Brood(node.Kids()[..i], ts[..i], pool.max, a) && Brood(node.Kids()[i + 1..], ts[i + 1..], pool.max, c)
  {
    right, median := SplitNode(pool, child, lean);
  }
}
