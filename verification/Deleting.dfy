/** Removal below a heap node, rebalancing on the way back up. */
module Deleting {
  import opened OrderedSeq
  import opened Trees
  import opened Nodes
  import opened Pools
  import opened Surgery
  import opened Finding
  import opened TreeDelete
  import opened Mending

  /** Children i and i + 1 become one; the right one is left over. */
  method FuseChildren<T(0)>(node: Node<T>, i: nat, ghost m: nat) returns (right: Node<T>)
    requires node.Valid(m) && !node.leaf && i < node.num_items <= m - 2
    requires var l, r := node.Kid(i, m), node.Kid(i + 1, m);
      l.leaf == r.leaf && l.num_items + r.num_items + 1 < m - 1
    modifies node.repr
    ensures node.Valid(m) && right.Sized(m) && right.Own() !! node.repr
    ensures node.repr + right.Own() <= old(node.repr)
    ensures var t := old(node.model); node.model == Fuse(t.items, t.kids, i, Join(t.kids[i], t.items[i], t.kids[i + 1]))
    ensures right == old(node.Kid(i + 1, m))
  {
    ghost var t, all := node.model, node.repr;
    var left := node.Kid(i, m);
    right := node.Kid(i + 1, m);
    ghost var a, c := ApartPair(node, i, m);
    ghost var both := left.repr + right.repr;
    assert a + c + both <= all - node.Own();
    MergeInside(node, i, left, right, t.kids, a, c, m);
    StaysWithin(node.Own(), a, left.repr + right.Own(), both, c, all);
    DropSeparator(node, i, t.kids, left, a, c, m);
  }

  /** Work in children i and i + 1 leaves the node's own arrays and the siblings as they were. */
  method MergeInside<T(0)>(node: Node<T>, i: nat, left: Node<T>, right: Node<T>, ghost ts: seq<Tree<T>>,
                           ghost a: set<object>, ghost c: set<object>, ghost m: nat)
    requires left.Valid(m) && right.Valid(m) && left.repr !! right.repr && left.leaf == right.leaf
    requires left.num_items + right.num_items + 1 < m - 1
    requires node.Sized(m) && !node.leaf && i < node.num_items <= m - 1 && |ts| == node.num_items + 1
    requires node.Own() !! a + c && node.Own() + a + c !! left.repr + right.repr && a !! c
    requires Brood(node.Kids()[..i], ts[..i], m, a) && Brood(node.Kids()[i + 2..], ts[i + 2..], m, c)
    modifies left, left.items, left.children
    ensures left.Valid(m) && left.model == Join(old(left.model), old(node.items[i]), old(right.model))
    ensures left.repr == old(left.repr) + (old(right.repr) - right.Own()) && right.Sized(m)
    ensures node.num_items == old(node.num_items) && node.Kids() == old(node.Kids())
    ensures node.items[..node.num_items] == old(node.items[..node.num_items])
    ensures Brood(node.Kids()[..i], ts[..i], m, a) && Brood(node.Kids()[i + 2..], ts[i + 2..], m, c)
  {
    Merge(left, node.items[i], right, m);
  }

  method BorrowChildren<T(0)>(node: Node<T>, i: nat, ghost m: nat)
    requires node.Valid(m) && !node.leaf && i < node.num_items
    requires var l, r := node.Kid(i, m), node.Kid(i + 1, m);
      && l.leaf == r.leaf && l.num_items <= m - 2 && r.num_items <= m - 2
      && (l.num_items <= r.num_items ==> r.num_items >= 1)
    modifies node.repr
    ensures node.Valid(m) && node.repr <= old(node.repr)
    ensures var t := old(node.model); var (l, x, r) := Regrip(t.kids[i], t.items[i], t.kids[i + 1]);
      node.model == SetPair(t.items, t.kids, i, l, x, r)
  {
    ghost var t, all := node.model, node.repr;
    var left, right := node.Kid(i, m), node.Kid(i + 1, m);
    ghost var a, c := ApartPair(node, i, m);
    ghost var both := left.repr + right.repr;
    assert a + c + both <= all - node.Own();
    var y := BorrowInside(node, i, left, right, t.kids, a, c, m);
    assert (left.model, y, right.model) == Regrip(t.kids[i], t.items[i], t.kids[i + 1]);
    StaysWithin(node.Own(), a, left.repr + right.repr, both, c, all);
    SetSeparator(node, i, y, t.kids, left, right, a, c, m);
  }

  /** Work in children i and i + 1 leaves the node's own arrays and the siblings as they were. */
  method BorrowInside<T(0)>(node: Node<T>, i: nat, left: Node<T>, right: Node<T>, ghost ts: seq<Tree<T>>,
                            ghost a: set<object>, ghost c: set<object>, ghost m: nat) returns (y: T)
    requires left.Valid(m) && right.Valid(m) && left.repr !! right.repr && left.leaf == right.leaf
    requires left.num_items <= m - 2 && right.num_items <= m - 2
    requires left.num_items <= right.num_items ==> 1 <= right.num_items
    requires node.Sized(m) && !node.leaf && i < node.num_items <= m - 1 && |ts| == node.num_items + 1
    requires node.Own() !! a + c && node.Own() + a + c !! left.repr + right.repr && a !! c
    requires Brood(node.Kids()[..i], ts[..i], m, a) && Brood(node.Kids()[i + 2..], ts[i + 2..], m, c)
    modifies left, left.items, left.children, right, right.items, right.children
    ensures left.Valid(m) && right.Valid(m) && left.repr !! right.repr
    ensures left.repr + right.repr <= old(left.repr + right.repr)
    ensures (left.model, y, right.model) == Regrip(old(left.model), old(node.items[i]), old(right.model))
    ensures node.num_items == old(node.num_items) && node.Kids() == old(node.Kids())
    ensures node.items[..node.num_items] == old(node.items[..node.num_items])
    ensures Brood(node.Kids()[..i], ts[..i], m, a) && Brood(node.Kids()[i + 2..], ts[i + 2..], m, c)
  {
    y := Borrow(left, node.items[i], right, m);
  }

  /** Children i and i + 1 merged if they fit in one node, else evened out by one item. */
  method MendChildren<T(0)>(pool: Pool<T>, node: Node<T>, i: nat)
    requires pool.Valid() && node.Valid(pool.max) && node.repr !! pool.repr
    requires !node.leaf && i < node.num_items <= pool.max - 2 && Alike(node.model.kids)
    requires node.Kid(i, pool.max).num_items <= pool.max - 2 && node.Kid(i + 1, pool.max).num_items <= pool.max - 2
    modifies pool, node.repr
    ensures pool.Valid() && node.Valid(pool.max) && node.repr !! pool.repr
    ensures node.repr <= old(node.repr) && pool.repr <= old(node.repr + pool.repr)
    ensures node.model == Mend(old(node.model).items, old(node.model).kids, i, pool.max)
    ensures node.num_items < old(node.num_items) ==> var unused := old(node.Kid(i + 1, pool.max));
      && (unused.leaf && !pool.Closed(|old(pool.leaves)|, old(pool.leafCap), false) ==>
            pool.leaves == old(pool.leaves) + [unused])
      && (!unused.leaf && !pool.Closed(|old(pool.branches)|, old(pool.branchCap), false) ==>
            pool.branches == old(pool.branches) + [unused])
  {
    var left, right := node.Kid(i, pool.max), node.Kid(i + 1, pool.max);
    if left.num_items + right.num_items + 1 < pool.max - 1 {
      var unused := FuseChildren(node, i, pool.max);
      var granted: bool := *;
      pool.Takeaway(unused, granted);
    } else {
      BorrowChildren(node, i, pool.max);
    }
  }

  /** Mend child i, or the one before it at the right end, if it has become short. */
  method RebalanceChild<T(0)>(pool: Pool<T>, node: Node<T>, i: nat, ghost h: nat)
    requires pool.Valid() && Permitted(pool.max) && node.Valid(pool.max) && node.repr !! pool.repr
    requires !node.leaf && i <= node.num_items && 1 <= node.num_items <= pool.max - 2
    requires Nearly(node.model.items, node.model.kids, i, h, pool.max) && Alike(node.model.kids)
    modifies pool, node.repr
    ensures pool.Valid() && node.Valid(pool.max) && node.repr !! pool.repr
    ensures node.repr <= old(node.repr) && pool.repr <= old(node.repr + pool.repr)
    ensures node.model == Rebalance(old(node.model).items, old(node.model).kids, i, pool.max)
  {
    if node.Kid(i, pool.max).num_items < MinItems(pool.max) {
      MendChildren(pool, node, if i == node.num_items then i - 1 else i);
    }
  }

  method RemoveFromLeaf<T(0)>(node: Node<T>, i: nat, ghost m: nat) returns (item: T)
    requires node.Valid(m) && node.leaf && i < node.num_items <= m - 2
    modifies node`num_items, node`model, node.items, node.children
    ensures node.Valid(m) && item == old(node.model.items[i])
    ensures node.model == Leaf(old(node.model.items[..i] + node.model.items[i + 1..]))
  {
    ghost var s := node.model.items;
    item := node.items[i];
    node.ShiftLeft(i, false);
    node.model := Leaf(s[..i] + s[i + 1..]);
  }

  /** Where the search in one node lands. */
  method FindTarget<T(!new,0)>(cmp: (T, T) -> int, node: Node<T>, act: Action<T>, hint: Hint, depth: nat, ghost m: nat)
    returns (i: nat, found: bool, hint': Hint)
    requires IsOrder(cmp) && HintOk(hint) && node.Valid(m) && 1 <= node.num_items
    requires Strict(cmp, node.model.items)
    ensures (i, found) == Target(cmp, node.model, act)
    ensures HintOk(hint') && hint'.Some? == hint.Some?
  {
    i, found, hint' := 0, false, hint;
    match act {
      case PopMax =>
        i, found := node.num_items - 1, true;
      case PopFront =>
        i, found := 0, node.leaf;
      case PopBack =>
        if !node.leaf {
          i, found := node.num_items, false;
        } else {
          i, found := node.num_items - 1, true;
        }
      case DelKey(key) =>
        i, found, hint' := Find(cmp, node, key, hint, depth);
    }
  }

  method NodeDelete<T(!new,0)>(cmp: (T, T) -> int, pool: Pool<T>, node: Node<T>, act: Action<T>,
                               hint: Hint, depth: nat, ghost h: nat)
    returns (prev: Option<T>, hint': Hint)
    requires IsOrder(cmp) && Permitted(pool.max) && HintOk(hint)
    requires pool.Valid() && node.Valid(pool.max) && node.repr !! pool.repr
    requires Shape(node.model, h, pool.max) && 1 <= node.num_items <= pool.max - 2
    requires Strict(cmp, Flat(node.model))
    modifies pool, node.repr
    ensures pool.Valid() && node.Valid(pool.max) && node.repr !! pool.repr
    ensures node.repr <= old(node.repr) && pool.repr <= old(node.repr + pool.repr)
    ensures (node.model, prev) == Delete(cmp, old(node.model), act, h, pool.max)
    ensures HintOk(hint') && hint'.Some? == hint.Some?
    decreases h, 2
  {
    ItemsStrict(cmp, node.model);
    var i, found;
    i, found, hint' := FindTarget(cmp, node, act, hint, depth, pool.max);
    if node.leaf {
      prev := None;
      if found {
        var item := RemoveFromLeaf(node, i, pool.max);
        prev := Some(item);
      }
      return;
    }
    prev, hint' := DeleteBelow(cmp, pool, node, act, i, found, hint', depth, h);
  }

  /** NodeDelete past the search, in a branch. */
  method DeleteBelow<T(!new,0)>(cmp: (T, T) -> int, pool: Pool<T>, node: Node<T>, act: Action<T>, i: nat, found: bool,
                                hint: Hint, depth: nat, ghost h: nat)
    returns (prev: Option<T>, hint': Hint)
    requires IsOrder(cmp) && Permitted(pool.max) && HintOk(hint)
    requires pool.Valid() && node.Valid(pool.max) && node.repr !! pool.repr
    requires Shape(node.model, h, pool.max) && 1 <= node.num_items <= pool.max - 2 && !node.leaf
    requires Strict(cmp, Flat(node.model)) && (i, found) == Target(cmp, node.model, act)
    modifies pool, node.repr
    ensures pool.Valid() && node.Valid(pool.max) && node.repr !! pool.repr
    ensures node.repr <= old(node.repr) && pool.repr <= old(node.repr + pool.repr)
    ensures (node.model, prev) == Delete(cmp, old(node.model), act, h, pool.max)
    ensures HintOk(hint') && hint'.Some? == hint.Some?
    decreases h, 1
  {
    if found && !act.PopMax? {
      prev, hint' := DeleteSeparator(cmp, pool, node, i, hint, depth, h);
    } else {
      prev, hint' := DeleteAndMend(cmp, pool, node, act, if act.PopMax? then i + 1 else i, hint, depth, h);
    }
  }

  method DeleteAndMend<T(!new,0)>(cmp: (T, T) -> int, pool: Pool<T>, node: Node<T>, act: Action<T>, i: nat,
                                  hint: Hint, depth: nat, ghost h: nat)
    returns (prev: Option<T>, hint': Hint)
    requires IsOrder(cmp) && Permitted(pool.max) && HintOk(hint)
    requires pool.Valid() && node.Valid(pool.max) && node.repr !! pool.repr
    requires Shape(node.model, h, pool.max) && 1 <= node.num_items <= pool.max - 2 && !node.leaf
    requires Strict(cmp, Flat(node.model)) && i <= node.num_items
    modifies pool, node.repr
    ensures pool.Valid() && node.Valid(pool.max) && node.repr !! pool.repr
    ensures node.repr <= old(node.repr) && pool.repr <= old(node.repr + pool.repr)
    ensures (Gap(pool.max);
             var t := old(node.model); var (k, was) := Delete(cmp, t.kids[i], act, h - 1, pool.max);
             prev == was && (NearlyAfter(t, i, k, h, pool.max);
             node.model == if was == None then t else Rebalance(t.items, t.kids[i := k], i, pool.max)))
    ensures HintOk(hint') && hint'.Some? == hint.Some?
    decreases h, 0, 1
  {
    ghost var t := node.model;
    Gap(pool.max);
    prev, hint' := DeleteChild(cmp, pool, node, i, act, hint, depth, h);
    if prev != None {
      NearlyAfter(t, i, node.model.kids[i], h, pool.max);
      RebalanceChild(pool, node, i, h);
    }
  }

  /** The separator found gives way to its predecessor. */
  method DeleteSeparator<T(!new,0)>(cmp: (T, T) -> int, pool: Pool<T>, node: Node<T>, i: nat,
                                    hint: Hint, depth: nat, ghost h: nat)
    returns (prev: Option<T>, hint': Hint)
    requires IsOrder(cmp) && Permitted(pool.max) && HintOk(hint)
    requires pool.Valid() && node.Valid(pool.max) && node.repr !! pool.repr
    requires Shape(node.model, h, pool.max) && 1 <= node.num_items <= pool.max - 2 && !node.leaf
    requires Strict(cmp, Flat(node.model)) && i < node.num_items
    modifies pool, node.repr
    ensures pool.Valid() && node.Valid(pool.max) && node.repr !! pool.repr
    ensures node.repr <= old(node.repr) && pool.repr <= old(node.repr + pool.repr)
    ensures prev == Some(old(node.model).items[i])
    ensures (Gap(pool.max);
             var t := old(node.model); var (k, largest) := Delete(cmp, t.kids[i], PopMax, h - 1, pool.max);
             NearlyAfter(t, i, k, h, pool.max);
             node.model == Rebalance(t.items[i := largest.value], t.kids[i := k], i, pool.max))
    ensures HintOk(hint') && hint'.Some? == hint.Some?
    decreases h, 0, 1
  {
    ghost var t := node.model;
    Gap(pool.max);
    prev := Some(node.items[i]);
    var largest;
    largest, hint' := DeleteChild(cmp, pool, node, i, PopMax, hint, depth, h);
    NearlyAfter(t, i, node.model.kids[i], h, pool.max);
    PutAndRebalance(pool, node, i, largest.value, h);
  }

  method PutAndRebalance<T(0)>(pool: Pool<T>, node: Node<T>, i: nat, item: T, ghost h: nat)
    requires pool.Valid() && Permitted(pool.max) && node.Valid(pool.max) && node.repr !! pool.repr
    requires !node.leaf && i < node.num_items <= pool.max - 2
    requires Nearly(node.model.items[i := item], node.model.kids, i, h, pool.max) && Alike(node.model.kids)
    modifies pool, node.repr
    ensures pool.Valid() && node.Valid(pool.max) && node.repr !! pool.repr
    ensures node.repr <= old(node.repr) && pool.repr <= old(node.repr + pool.repr)
    ensures node.model == Rebalance(old(node.model).items[i := item], old(node.model).kids, i, pool.max)
  {
    PutItem(node, i, item, pool.max);
    RebalanceChild(pool, node, i, h);
  }

  /** The part of NodeDelete that works inside child i. */
  method DeleteChild<T(!new,0)>(cmp: (T, T) -> int, pool: Pool<T>, node: Node<T>, i: nat, act: Action<T>,
                                hint: Hint, depth: nat, ghost h: nat)
    returns (prev: Option<T>, hint': Hint)
    requires IsOrder(cmp) && Permitted(pool.max) && HintOk(hint)
    requires pool.Valid() && node.Valid(pool.max) && node.repr !! pool.repr
    requires Shape(node.model, h, pool.max) && !node.leaf && i <= node.num_items
    requires Strict(cmp, Flat(node.model)) && MinItems(pool.max) >= 1
    modifies pool, node.repr
    ensures pool.Valid() && node.Valid(pool.max) && node.repr !! pool.repr
    ensures node.repr <= old(node.repr) && pool.repr <= old(node.repr + pool.repr)
    ensures var (k, was) := Delete(cmp, old(node.model).kids[i], act, h - 1, pool.max);
      node.model == old(node.model).(kids := old(node.model).kids[i := k]) && prev == was
    ensures HintOk(hint') && hint'.Some? == hint.Some?
    decreases h, 0, 0
  {
    var child := node.Kid(i, pool.max);
    ghost var t, all := node.model, node.repr;
    ghost var a, c := Apart(node, i, pool.max);
    ghost var was := child.repr;
    KidStrict(cmp, t, i);
    prev, hint' := DeleteInside(cmp, pool, node, i, child, act, hint, depth, h, t.kids, a, c);
    StaysWithin(node.Own(), a, child.repr, was, c, all);
    Refresh(node, i, child, t.kids, a, c, pool.max);
  }

  /** Work in child i leaves the node's own arrays and the siblings as they were. */
  method DeleteInside<T(!new,0)>(cmp: (T, T) -> int, pool: Pool<T>, node: Node<T>, i: nat, child: Node<T>,
                                 act: Action<T>, hint: Hint, depth: nat, ghost h: nat, ghost ts: seq<Tree<T>>,
                                 ghost a: set<object>, ghost c: set<object>)
    returns (prev: Option<T>, hint': Hint)
    requires IsOrder(cmp) && Permitted(pool.max) && HintOk(hint) && h > 0
    requires pool.Valid() && child.Valid(pool.max) && child.repr !! pool.repr
    requires Shape(child.model, h - 1, pool.max) && 1 <= child.num_items <= pool.max - 2
    requires Strict(cmp, Flat(child.model))
    requires node.Sized(pool.max) && !node.leaf && i <= node.num_items <= pool.max - 1 && |ts| == node.num_items + 1
    requires node.Own() !! a + c && node.Own() + a + c !! child.repr + pool.repr && a !! c
    requires Brood(node.Kids()[..i], ts[..i], pool.max, a) && Brood(node.Kids()[i + 1..], ts[i + 1..], pool.max, c)
    modifies pool, child.repr
    ensures pool.Valid() && child.Valid(pool.max) && child.repr !! pool.repr
    ensures child.repr <= old(child.repr) && pool.repr <= old(child.repr + pool.repr)
    ensures (child.model, prev) == Delete(cmp, old(child.model), act, h - 1, pool.max)
    ensures node.num_items == old(node.num_items) && node.Kids() == old(node.Kids())
    ensures node.items[..node.num_items] == old(node.items[..node.num_items])
    ensures Brood(node.Kids()[..i], ts[..i], pool.max, a) && Brood(node.Kids()[i + 1..], ts[i + 1..], pool.max, c)
    ensures HintOk(hint') && hint'.Some? == hint.Some?
    decreases h - 1, 3
  {
    prev, hint' := NodeDelete(cmp, pool, child, act, hint, depth + 1, h - 1);
  }

  /** A root without items gives way to its only child, or to nothing. */
  method Collapse<T(0)>(pool: Pool<T>, node: Node<T>) returns (root: Node?<T>)
    requires pool.Valid() && node.Valid(pool.max) && node.repr !! pool.repr && node.num_items == 0
    modifies pool
    ensures pool.Valid() && pool.repr <= old(pool.repr) + node.Own()
    ensures if node.leaf then root == null
            else root != null && root.Valid(pool.max) && root.repr !! pool.repr && root.repr <= node.repr
                 && root.model == node.model.kids[0]
    ensures node.leaf && !pool.Closed(|old(pool.leaves)|, old(pool.leafCap), false) ==>
      pool.leaves == old(pool.leaves) + [node]
    ensures !node.leaf && !pool.Closed(|old(pool.branches)|, old(pool.branchCap), false) ==>
      pool.branches == old(pool.branches) + [node]
  {
    root := null;
    if !node.leaf {
      root := node.Kid(0, pool.max);
    }
    var granted: bool := *;
    pool.Takeaway(node, granted);
  }

  method LowerIfEmpty<T(0)>(pool: Pool<T>, node: Node<T>, h: nat) returns (root: Node?<T>, h': nat)
    requires pool.Valid() && node.Valid(pool.max) && node.repr !! pool.repr && h >= 1
    modifies pool
    ensures pool.Valid() && pool.repr <= old(pool.repr) + node.Own()
    ensures root != null ==> root.Valid(pool.max) && root.repr !! pool.repr && root.repr <= node.repr
    ensures (if root == null then None else Some(root.model), h') == Lower(node.model, h)
  {
    root, h' := node, h;
    if node.num_items == 0 {
      root := Collapse(pool, node);
      h' := h - 1;
    }
  }

  /** Removal from a tree with a root; the height counts its levels. */
  method RootDelete<T(!new,0)>(cmp: (T, T) -> int, pool: Pool<T>, node: Node<T>, act: Action<T>, hint: Hint, h: nat)
    returns (root: Node?<T>, h': nat, prev: Option<T>, hint': Hint)
    requires IsOrder(cmp) && Permitted(pool.max) && HintOk(hint)
    requires pool.Valid() && node.Valid(pool.max) && node.repr !! pool.repr
    requires Sound(Some(node.model), h, pool.max) && Strict(cmp, Flat(node.model))
    modifies pool, node.repr
    ensures pool.Valid() && pool.repr <= old(node.repr + pool.repr)
    ensures root != null ==>
      root.Valid(pool.max) && root.repr !! pool.repr && root.repr <= old(node.repr)
    ensures (if root == null then None else Some(root.model), h', prev)
         == DeleteRoot(cmp, Some(old(node.model)), act, h, pool.max)
    ensures HintOk(hint') && hint'.Some? == hint.Some?
  {
    root, h' := node, h;
    prev, hint' := NodeDelete(cmp, pool, node, act, hint, 0, h);
    if prev != None {
      root, h' := LowerIfEmpty(pool, node, h);
    }
  }

  /** RootDelete, in terms of the sorted contents. */
  method DeleteInTree<T(!new,0)>(cmp: (T, T) -> int, pool: Pool<T>, node: Node<T>, act: Action<T>, hint: Hint, h: nat)
    returns (root: Node?<T>, h': nat, prev: Option<T>, hint': Hint)
    requires IsOrder(cmp) && Permitted(pool.max) && HintOk(hint)
    requires pool.Valid() && node.Valid(pool.max) && node.repr !! pool.repr
    requires Sound(Some(node.model), h, pool.max) && Strict(cmp, Flat(node.model))
    modifies pool, node.repr
    ensures pool.Valid() && pool.repr <= old(node.repr + pool.repr)
    ensures root != null ==>
      root.Valid(pool.max) && root.repr !! pool.repr && root.repr <= old(node.repr)
    ensures var t := if root == null then None else Some(root.model);
      && Sound(t, h', pool.max)
      && (Contents(t), prev) == Removed(cmp, old(Flat(node.model)), act)
      && |Contents(t)| == |old(Flat(node.model))| - (if prev == None then 0 else 1)
      && Strict(cmp, Contents(t))
      && (t, h', prev) == DeleteRoot(cmp, Some(old(node.model)), act, h, pool.max)
    ensures HintOk(hint') && hint'.Some? == hint.Some?
  {
    DeleteWhole(cmp, Some(node.model), act, h, pool.max);
    RemovedStrict(cmp, Flat(node.model), act);
    root, h', prev, hint' := RootDelete(cmp, pool, node, act, hint, h);
  }
}
