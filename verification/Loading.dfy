/** Bulk loading: appending to the rightmost leaf without a search. */
module Loading {
  import opened OrderedSeq
  import opened Trees
  import opened Nodes
  import opened Surgery

  /** The tree with an item appended to its last leaf. */
  ghost function PushLast<T>(t: Tree<T>, x: T): (r: Tree<T>)
    ensures r.Leaf? == t.Leaf?
    ensures t.Branch? ==> |r.items| == |t.items|
    ensures t.Leaf? ==> |r.items| == |t.items| + 1
  {
    match t
    case Leaf(s) => Leaf(s + [x])
    case Branch(s, ks) =>
      if ks == [] then t else Branch(s, ks[|ks| - 1 := PushLast(ks[|ks| - 1], x)])
  }

  ghost function LastLeafSize<T>(t: Tree<T>): nat {
    match t
    case Leaf(s) => |s|
    case Branch(_, ks) => if ks == [] then 0 else LastLeafSize(ks[|ks| - 1])
  }

  lemma {:induction false} PushFlat<T>(t: Tree<T>, x: T, h: nat, m: nat)
    requires Shape(t, h, m)
    ensures Flat(PushLast(t, x)) == Flat(t) + [x]
    decreases h
  {
    if t.Branch? {
      var s, ks, n := t.items, t.kids, |t.items|;
      PushFlat(ks[n], x, h - 1, m);
      ReplaceKid(s, ks, n, PushLast(ks[n], x));
      AppendCat(Upto(s, ks, n), Flat(ks[n]), [x]);
    }
  }

  lemma AppendCat<T>(a: seq<T>, b: seq<T>, c: seq<T>)
    ensures a + (b + c) + [] == (a + b) + c
  {
  }

  /** A leaf short of the threshold can take the item and all bounds still hold. */
  lemma {:induction false} PushShape<T>(t: Tree<T>, x: T, h: nat, m: nat)
    requires Permitted(m) && Shape(t, h, m) && LastLeafSize(t) < m - 2
    ensures Shape(PushLast(t, x), h, m)
    ensures |t.items| <= m - 2 ==> |PushLast(t, x).items| <= m - 2
    decreases h
  {
    if t.Branch? {
      var n := |t.items|;
      PushShape(t.kids[n], x, h - 1, m);
      var ks := t.kids[n := PushLast(t.kids[n], x)];
      forall i | 0 <= i < |ks| ensures Shape(ks[i], h - 1, m) && Filled(ks[i], m) {
        assert Shape(t.kids[i], h - 1, m) && Filled(t.kids[i], m);
      }
    }
  }

  /** Appending is inserting exactly when the item is above everything present. */
  lemma AppendIsPut<T(!new)>(cmp: (T, T) -> int, s: seq<T>, x: T)
    requires IsOrder(cmp) && Strict(cmp, s)
    ensures Strict(cmp, s + [x]) <==> s == [] || cmp(x, s[|s| - 1]) > 0
    ensures s + [x] == Put(cmp, s, x) <==> s == [] || cmp(x, s[|s| - 1]) > 0
  {
    var n := |s|;
    if s == [] || cmp(x, s[n - 1]) > 0 {
      if s != [] { Flip(cmp, x, s[n - 1]); }
      BelowLast(cmp, s, x);
      RankAt(cmp, s, x, n);
      StrictInsert(cmp, s, x, []) by { assert s + [] == s; }
      assert s + [x] + [] == s + [x];
      assert s[..n] + [x] + s[n..] == s + [x];
    } else {
      Flip(cmp, x, s[n - 1]);
      assert (s + [x])[n - 1] == s[n - 1] && (s + [x])[n] == x;
      assert !Strict(cmp, s + [x]);
      PutStrict(cmp, s, x);
    }
  }

  lemma {:induction false} LastLeafFits<T>(t: Tree<T>, h: nat, m: nat)
    requires Shape(t, h, m)
    ensures LastLeafSize(t) <= |Flat(t)|
    ensures LastLeafSize(t) > 0 ==> Flat(t) != []
    decreases h
  {
    if t.Branch? { LastLeafFits(t.kids[|t.items|], h - 1, m); }
  }

  lemma PushSound<T>(t: Tree<T>, x: T, h: nat, m: nat)
    requires Permitted(m) && Sound(Some(t), h, m) && LastLeafSize(t) < m - 2
    ensures Sound(Some(PushLast(t, x)), h, m) && Flat(PushLast(t, x)) == Flat(t) + [x]
    ensures LastLeafSize(t) > 0 ==> Flat(t) != []
  {
    PushShape(t, x, h, m);
    PushFlat(t, x, h, m);
    LastLeafFits(t, h, m);
  }

  // ---------- on the heap ----------

  /** The leaf at the end of the last-child path. */
  ghost function Rightmost<T(0)>(node: Node<T>, h: nat, m: nat): (leaf: Node<T>)
    requires node.Valid(m) && Shape(node.model, h, m)
    reads node, node.repr
    ensures leaf.leaf && leaf.Valid(m) && leaf in node.repr && leaf.repr <= node.repr
    ensures leaf.num_items == LastLeafSize(node.model)
    decreases h
  {
    if node.leaf then node else Rightmost(node.Kid(node.num_items, m), h - 1, m)
  }

  /** Its last item is the last of all. */
  lemma {:induction false} RightmostLast<T(0)>(node: Node<T>, h: nat, m: nat)
    requires node.Valid(m) && Shape(node.model, h, m) && LastLeafSize(node.model) > 0
    ensures var leaf := Rightmost(node, h, m);
      Flat(node.model) != [] && leaf.items[leaf.num_items - 1] == Flat(node.model)[|Flat(node.model)| - 1]
    decreases h
  {
    if !node.leaf { RightmostLast(node.Kid(node.num_items, m), h - 1, m); }
  }

  method FindRightmost<T(0)>(root: Node<T>, ghost h: nat, ghost m: nat) returns (leaf: Node<T>)
    requires Permitted(m) && root.Valid(m) && Shape(root.model, h, m) && 1 <= root.num_items
    ensures leaf == Rightmost(root, h, m) && 1 <= leaf.num_items
  {
    leaf := root;
    ghost var l := h;
    while !leaf.leaf
      invariant leaf.Valid(m) && Shape(leaf.model, l, m) && 1 <= leaf.num_items
      invariant Rightmost(root, h, m) == Rightmost(leaf, l, m)
      decreases l
    {
      Gap(m);
      leaf, l := leaf.Kid(leaf.num_items, m), l - 1;
    }
  }

  method AppendToLeaf<T(0)>(leaf: Node<T>, item: T, ghost m: nat)
    requires leaf.Valid(m) && leaf.leaf && leaf.num_items < m - 2
    modifies leaf`num_items, leaf`model, leaf.items
    ensures leaf.Valid(m) && leaf.num_items == old(leaf.num_items) + 1
    ensures leaf.model == Leaf(old(leaf.model.items) + [item])
    ensures forall k :: 0 <= k < old(leaf.num_items) ==> leaf.items[k] == old(leaf.items[k])
  {
    leaf.items[leaf.num_items] := item;
    leaf.num_items := leaf.num_items + 1;
    leaf.model := Leaf(leaf.model.items + [item]);
    assert leaf.items[..leaf.num_items] == leaf.items[..leaf.num_items - 1] + [item];
  }

  /** Write an item behind the last one of the rightmost leaf. The nodes on the way
      down only have what they stand for brought up to date; the slot to keep is any that
      was taken. */
  method Append<T(0)>(node: Node<T>, leaf: Node<T>, item: T, ghost keep: nat, ghost h: nat, ghost m: nat)
    requires node.Valid(m) && Shape(node.model, h, m) && leaf == Rightmost(node, h, m)
    requires Permitted(m) && keep < leaf.num_items < m - 2
    modifies node.repr
    ensures node.Valid(m) && node.repr <= old(node.repr)
    ensures node.model == PushLast(old(node.model), item) && Shape(node.model, h, m)
    ensures leaf == Rightmost(node, h, m) && keep < leaf.num_items && leaf.items[keep] == old(leaf.items[keep])
    decreases h, 2
  {
    PushShape(node.model, item, h, m);
    if node.leaf {
      AppendToLeaf(leaf, item, m);
    } else {
      ghost var n, t := node.num_items, node.model;
      ghost var child := AppendBelow(node, leaf, item, keep, h, m);
      assert PushLast(t, item) == Branch(t.items, t.kids[n := PushLast(t.kids[n], item)]);
    }
  }

  /** The part that works inside the last child. */
  method AppendBelow<T(0)>(node: Node<T>, leaf: Node<T>, item: T, ghost keep: nat, ghost h: nat, ghost m: nat)
    returns (ghost child: Node<T>)
    requires node.Valid(m) && Shape(node.model, h, m) && leaf == Rightmost(node, h, m) && !node.leaf
    requires Permitted(m) && keep < leaf.num_items < m - 2
    modifies node.repr
    ensures node.Valid(m) && node.repr <= old(node.repr) && node.num_items == old(node.num_items)
    ensures child == node.Kid(node.num_items, m) && Shape(child.model, h - 1, m)
    ensures var t, n := old(node.model), node.num_items;
      node.model == Branch(t.items, t.kids[n := PushLast(t.kids[n], item)])
    ensures leaf == Rightmost(child, h - 1, m) && keep < leaf.num_items && leaf.items[keep] == old(leaf.items[keep])
    decreases h, 1
  {
    var n, kid := node.num_items, node.Kid(node.num_items, m);
    child := kid;
    ghost var t := node.model;
    ghost var a, c := Apart(node, n, m);
    AppendInside(node, kid, leaf, item, t.kids, a, c, keep, h, m);
    RefreshLast(node, n, child, leaf, t.kids, a, c, h, m);
  }

  /** Work in the last child leaves its siblings as they were. */
  method AppendInside<T(0)>(node: Node<T>, kid: Node<T>, leaf: Node<T>, item: T, ghost ts: seq<Tree<T>>,
                            ghost a: set<object>, ghost c: set<object>, ghost keep: nat, ghost h: nat, ghost m: nat)
    requires h > 0 && kid.Valid(m) && Shape(kid.model, h - 1, m) && leaf == Rightmost(kid, h - 1, m)
    requires Permitted(m) && keep < leaf.num_items < m - 2
    requires node.Sized(m) && !node.leaf && node.num_items <= m - 1 && |ts| == node.num_items + 1
    requires node.Own() !! a + kid.repr + c && a !! c && a + c !! kid.repr
    requires var n := node.num_items;
      Brood(node.Kids()[..n], ts[..n], m, a) && Brood(node.Kids()[n + 1..], ts[n + 1..], m, c)
    modifies kid.repr
    ensures kid.Valid(m) && kid.repr <= old(kid.repr) && kid.model == PushLast(old(kid.model), item)
    ensures Shape(kid.model, h - 1, m) && leaf == Rightmost(kid, h - 1, m)
    ensures keep < leaf.num_items && leaf.items[keep] == old(leaf.items[keep])
    ensures node.num_items == old(node.num_items) && node.Kids() == old(node.Kids())
    ensures node.items[..node.num_items] == old(node.items[..node.num_items])
    ensures var n := node.num_items;
      Brood(node.Kids()[..n], ts[..n], m, a) && Brood(node.Kids()[n + 1..], ts[n + 1..], m, c)
    decreases h, 0
  {
    Append(kid, leaf, item, keep, h - 1, m);
  }

  /** Bring a branch up to date after work inside its last child, and its last leaf stays. */
  ghost method RefreshLast<T(0)>(node: Node<T>, n: nat, child: Node<T>, leaf: Node<T>, ts: seq<Tree<T>>,
                                 a: set<object>, c: set<object>, h: nat, m: nat)
    requires node.Sized(m) && !node.leaf && n == node.num_items <= m - 1 && |ts| == node.num_items + 1
    requires node.Kids()[n] == child && child.Valid(m)
    requires Brood(node.Kids()[..n], ts[..n], m, a) && Brood(node.Kids()[n + 1..], ts[n + 1..], m, c)
    requires a !! c && a + c !! child.repr && a + child.repr + c !! node.Own()
    requires h > 0 && Shape(child.model, h - 1, m) && leaf == Rightmost(child, h - 1, m)
    modifies node`model, node`repr
    ensures node.Valid(m) && node.repr == node.Own() + (a + child.repr + c)
    ensures node.model == Branch(node.items[..node.num_items], ts[n := child.model])
    ensures child.Valid(m) && Shape(child.model, h - 1, m) && leaf == Rightmost(child, h - 1, m)
  {
    ghost var k := child.model;
    Refresh(node, n, child, ts, a, c, m);
    assert child.model == k;
  }
}
