/** Insert-or-replace below a heap node, splitting on the way back up. */
module Setting {
  import opened OrderedSeq
  import opened Trees
  import opened Nodes
  import opened Pools
  import opened Surgery
  import opened Finding
  import opened TreeSet

  /** Spare nodes an insertion below a node of height h can use up. */
  function LeavesNeeded(h: nat): nat {
    if h >= 2 then 1 else 0
  }

  function BranchesNeeded(h: nat): nat {
    if h >= 2 then h - 2 else 0
  }

  method Replace<T(0)>(node: Node<T>, i: nat, item: T, ghost m: nat) returns (previous: T)
    requires node.Valid(m) && i < node.num_items
    modifies node`model, node.items
    ensures node.Valid(m) && previous == old(node.items[i])
    ensures node.model == old(node.model).(items := old(node.model).items[i := item])
  {
    previous := node.items[i];
    PutItem(node, i, item, m);
  }

  method InsertInLeaf<T(0)>(node: Node<T>, i: nat, item: T, ghost m: nat)
    requires node.Valid(m) && node.leaf && i <= node.num_items <= m - 2
    modifies node`num_items, node`model, node.items, node.children
    ensures node.Valid(m)
    ensures node.model == Leaf(old(node.model).items[..i] + [item] + old(node.model).items[i..])
  {
    ghost var s, p := node.model.items, node.items[..i + 1];
    node.ShiftRight(i);
    ghost var gap := node.items[..node.num_items];
    node.items[i] := item;
    assert node.items[..node.num_items] == gap[i := item];
    FillSlot(p, s[i..], i, item);
    node.model := Leaf(s[..i] + [item] + s[i..]);
  }

  method NodeSet<T(!new,0)>(cmp: (T, T) -> int, pool: Pool<T>, node: Node<T>, item: T, lean: bool,
                            hint: Hint, depth: nat, ghost h: nat)
    returns (replaced: Option<T>, hint': Hint)
    requires IsOrder(cmp) && Permitted(pool.max) && HintOk(hint)
    requires pool.Valid() && node.Valid(pool.max) && node.repr !! pool.repr
    requires Shape(node.model, h, pool.max) && 1 <= node.num_items <= pool.max - 2
    requires Strict(cmp, Flat(node.model))
    requires |pool.leaves| >= LeavesNeeded(h) && |pool.branches| >= BranchesNeeded(h)
    modifies pool, pool.repr, node.repr
    ensures pool.Valid() && node.Valid(pool.max) && node.repr !! pool.repr
    ensures node.repr + pool.repr <= old(node.repr) + old(pool.repr)
    ensures (node.model, replaced) == Set(cmp, old(node.model), item, h, pool.max, lean)
    ensures |pool.leaves| >= old(|pool.leaves|) - LeavesNeeded(h)
    ensures |pool.branches| >= old(|pool.branches|) - BranchesNeeded(h)
    ensures HintOk(hint') && hint'.Some? == hint.Some?
    decreases h, 2
  {
    ghost var m := pool.max;
    ItemsStrict(cmp, node.model);
    var i, found;
    i, found, hint' := Find(cmp, node, item, hint, depth);
    if found {
      var previous := Replace(node, i, item, m);
      return Some(previous), hint';
    }
    if node.leaf {
      InsertInLeaf(node, i, item, m);
      return None, hint';
    }
    replaced, hint' := NodeSetBelow(cmp, pool, node, i, item, lean, hint', depth, h);
  }

  /** NodeSet past the search: into child i, then split it if it has become full. */
  method NodeSetBelow<T(!new,0)>(cmp: (T, T) -> int, pool: Pool<T>, node: Node<T>, i: nat, item: T, lean: bool,
                                 hint: Hint, depth: nat, ghost h: nat)
    returns (replaced: Option<T>, hint': Hint)
    requires IsOrder(cmp) && Permitted(pool.max) && HintOk(hint)
    requires pool.Valid() && node.Valid(pool.max) && node.repr !! pool.repr
    requires Shape(node.model, h, pool.max) && node.num_items <= pool.max - 2
    requires Strict(cmp, Flat(node.model)) && !node.leaf
    requires i == Rank(cmp, node.model.items, item) && !Has(cmp, node.model.items, item)
    requires |pool.leaves| >= LeavesNeeded(h) && |pool.branches| >= BranchesNeeded(h)
    modifies pool, pool.repr, node.repr
    ensures pool.Valid() && node.Valid(pool.max) && node.repr !! pool.repr
    ensures node.repr + pool.repr <= old(node.repr) + old(pool.repr)
    ensures (node.model, replaced) == Set(cmp, old(node.model), item, h, pool.max, lean)
    ensures |pool.leaves| >= old(|pool.leaves|) - LeavesNeeded(h)
    ensures |pool.branches| >= old(|pool.branches|) - BranchesNeeded(h)
    ensures HintOk(hint') && hint'.Some? == hint.Some?
    decreases h, 1
  {
    replaced, hint' := SetChild(cmp, pool, node, i, item, lean, hint, depth, h);
    if replaced == None && node.Kid(i, pool.max).num_items == pool.max - 1 {
      SplitChild(pool, node, i, lean);
    }
  }

  /** The part of NodeSet that works inside child i. */
  method SetChild<T(!new,0)>(cmp: (T, T) -> int, pool: Pool<T>, node: Node<T>, i: nat, item: T, lean: bool,
                             hint: Hint, depth: nat, ghost h: nat)
    returns (replaced: Option<T>, hint': Hint)
    requires IsOrder(cmp) && Permitted(pool.max) && HintOk(hint)
    requires pool.Valid() && node.Valid(pool.max) && node.repr !! pool.repr
    requires Shape(node.model, h, pool.max) && !node.leaf && i <= node.num_items
    requires Strict(cmp, Flat(node.model))
    requires |pool.leaves| >= LeavesNeeded(h) && |pool.branches| >= BranchesNeeded(h)
    modifies pool, pool.repr, node.repr
    ensures pool.Valid() && node.Valid(pool.max) && node.repr !! pool.repr
    ensures node.repr + pool.repr <= old(node.repr) + old(pool.repr)
    ensures var (k, was) := Set(cmp, old(node.model).kids[i], item, h - 1, pool.max, lean);
      node.model == old(node.model).(kids := old(node.model.kids)[i := k]) && replaced == was
    ensures |pool.leaves| >= old(|pool.leaves|) - LeavesNeeded(h - 1)
    ensures |pool.branches| >= old(|pool.branches|) - BranchesNeeded(h - 1)
    ensures HintOk(hint') && hint'.Some? == hint.Some?
    decreases h, 0
  {
    var child := node.Kid(i, pool.max);
    ghost var t := node.model;
    ghost var a, c := Apart(node, i, pool.max);
    KidStrict(cmp, t, i);
    Gap(pool.max);
    replaced, hint' := SetInside(cmp, pool, node, i, child, item, lean, hint, depth, h, t.kids, a, c);
    Refresh(node, i, child, t.kids, a, c, pool.max);
  }

  /** Work in child i leaves the node's own arrays and the siblings as they were. */
  method SetInside<T(!new,0)>(cmp: (T, T) -> int, pool: Pool<T>, node: Node<T>, i: nat, child: Node<T>, item: T,
                              lean: bool, hint: Hint, depth: nat, ghost h: nat, ghost ts: seq<Tree<T>>,
                              ghost a: set<object>, ghost c: set<object>)
    returns (replaced: Option<T>, hint': Hint)
    requires IsOrder(cmp) && Permitted(pool.max) && HintOk(hint) && h > 0
    requires pool.Valid() && child.Valid(pool.max) && child.repr !! pool.repr
    requires Shape(child.model, h - 1, pool.max) && 1 <= child.num_items <= pool.max - 2
    requires Strict(cmp, Flat(child.model))
    requires |pool.leaves| >= LeavesNeeded(h - 1) && |pool.branches| >= BranchesNeeded(h - 1)
    requires node.Sized(pool.max) && !node.leaf && i <= node.num_items <= pool.max - 1 && |ts| == node.num_items + 1
    requires node.Own() !! a + c && node.Own() + a + c !! child.repr + pool.repr && a !! c
    requires Brood(node.Kids()[..i], ts[..i], pool.max, a) && Brood(node.Kids()[i + 1..], ts[i + 1..], pool.max, c)
    modifies pool, pool.repr, child.repr
    ensures pool.Valid() && child.Valid(pool.max) && child.repr !! pool.repr
    ensures child.repr + pool.repr <= old(child.repr) + old(pool.repr)
    ensures (child.model, replaced) == Set(cmp, old(child.model), item, h - 1, pool.max, lean)
    ensures |pool.leaves| >= old(|pool.leaves|) - LeavesNeeded(h - 1)
    ensures |pool.branches| >= old(|pool.branches|) - BranchesNeeded(h - 1)
    ensures node.num_items == old(node.num_items) && node.Kids() == old(node.Kids())
    ensures node.items[..node.num_items] == old(node.items[..node.num_items])
    ensures Brood(node.Kids()[..i], ts[..i], pool.max, a) && Brood(node.Kids()[i + 1..], ts[i + 1..], pool.max, c)
    ensures HintOk(hint') && hint'.Some? == hint.Some?
    decreases h - 1, 3
  {
    replaced, hint' := NodeSet(cmp, pool, child, item, lean, hint, depth + 1, h - 1);
  }

  /** A leaf holding one item, out of the pool. */
  method FirstRoot<T(0)>(pool: Pool<T>, item: T) returns (root: Node<T>)
    requires pool.Valid() && pool.leaves != []
    modifies pool, pool.repr
    ensures pool.Valid() && root.Valid(pool.max) && root.repr !! pool.repr
    ensures root.repr + pool.repr <= old(pool.repr)
    ensures root.model == Leaf([item])
  {
    root := pool.GimmeLeaf();
    root.items[0] := item;
    root.num_items := 1;
    root.model, root.repr := Leaf([item]), root.Own();
    assert root.items[..1] == [item];
  }

  /** A new root over the two halves of the old one. */
  method RaiseRoot<T(0)>(pool: Pool<T>, left: Node<T>, median: T, right: Node<T>) returns (root: Node<T>)
    requires pool.Valid() && pool.branches != []
    requires left.Valid(pool.max) && right.Valid(pool.max) && left.repr !! right.repr
    requires left.repr + right.repr !! pool.repr
    modifies pool, pool.repr
    ensures pool.Valid() && root.Valid(pool.max) && root.repr !! pool.repr
    ensures root.repr + pool.repr <= old(left.repr + right.repr + pool.repr)
    ensures root.model == Branch([median], [old(left.model), old(right.model)])
  {
    BroodTwo(left, right, pool.max);
    ghost var ts, s := [left.model, right.model], left.repr + right.repr;
    root := pool.GimmeBranch();
    HangTwo(root, left, median, right, pool.max);
    Represent(root, Branch([median], ts), [left, right], s, pool.max);
  }

  method HangTwo<T(0)>(root: Node<T>, left: Node<T>, median: T, right: Node<T>, ghost m: nat)
    requires root.Sized(m) && !root.leaf
    modifies root`num_items, root.items, root.children
    ensures root.num_items == 1 && root.items[..1] == [median] && root.Kids() == [left, right]
  {
    root.children[0] := left;
    root.items[0] := median;
    root.children[1] := right;
    root.num_items := 1;
  }

  method SplitRootNode<T(0)>(pool: Pool<T>, node: Node<T>, lean: bool) returns (root: Node<T>)
    requires pool.Valid() && Permitted(pool.max) && node.Valid(pool.max) && node.repr !! pool.repr
    requires node.num_items == pool.max - 1
    requires node.leaf ==> pool.leaves != []
    requires pool.branches != [] && (!node.leaf ==> |pool.branches| >= 2)
    modifies pool, pool.repr, node
    ensures pool.Valid() && root.Valid(pool.max) && root.repr !! pool.repr
    ensures root.repr + pool.repr <= old(node.repr + pool.repr)
    ensures (CutFills(pool.max, lean);
             var (l, y, r) := Split(old(node.model), CutPoint(pool.max, pool.max - 1, lean));
             root.model == Branch([y], [l, r]))
  {
    var right, median := SplitNode(pool, node, lean);
    root := RaiseRoot(pool, node, median, right);
  }

  method RaiseIfFull<T(0)>(pool: Pool<T>, node: Node<T>, lean: bool, h: nat) returns (root: Node<T>, h': nat)
    requires pool.Valid() && Permitted(pool.max) && node.Valid(pool.max) && node.repr !! pool.repr
    requires node.num_items == pool.max - 1 ==>
      && (node.leaf ==> pool.leaves != [])
      && pool.branches != [] && (!node.leaf ==> |pool.branches| >= 2)
    modifies pool, pool.repr, node
    ensures pool.Valid() && root.Valid(pool.max) && root.repr !! pool.repr
    ensures root.repr + pool.repr <= old(node.repr + pool.repr)
    ensures (root.model, h') == Raise(old(node.model), h, pool.max, lean)
  {
    root, h' := node, h;
    if node.num_items == pool.max - 1 {
      root := SplitRootNode(pool, node, lean);
      h' := h + 1;
    }
  }

  /** Insert or replace in a tree with a root; the height counts its levels. */
  method RootSet<T(!new,0)>(cmp: (T, T) -> int, pool: Pool<T>, node: Node<T>, item: T, lean: bool,
                            hint: Hint, h: nat)
    returns (root: Node<T>, h': nat, replaced: Option<T>, hint': Hint)
    requires IsOrder(cmp) && Permitted(pool.max) && HintOk(hint)
    requires pool.Valid() && node.Valid(pool.max) && node.repr !! pool.repr
    requires Sound(Some(node.model), h, pool.max) && Strict(cmp, Flat(node.model))
    requires |pool.leaves| >= 1 && |pool.branches| >= h
    modifies pool, pool.repr, node.repr
    ensures pool.Valid() && root.Valid(pool.max) && root.repr !! pool.repr
    ensures root.repr + pool.repr <= old(node.repr + pool.repr)
    ensures (root.model, h', replaced) == SetRoot(cmp, Some(old(node.model)), item, h, pool.max, lean)
    ensures HintOk(hint') && hint'.Some? == hint.Some?
  {
    root, h' := node, h;
    replaced, hint' := NodeSet(cmp, pool, node, item, lean, hint, 0, h);
    if replaced == None {
      root, h' := RaiseIfFull(pool, node, lean, h);
    }
  }

  /** RootSet, in terms of the sorted contents. */
  method SetInTree<T(!new,0)>(cmp: (T, T) -> int, pool: Pool<T>, node: Node<T>, item: T, lean: bool,
                            hint: Hint, h: nat)
    returns (root: Node<T>, h': nat, replaced: Option<T>, hint': Hint)
    requires IsOrder(cmp) && Permitted(pool.max) && HintOk(hint)
    requires pool.Valid() && node.Valid(pool.max) && node.repr !! pool.repr
    requires Sound(Some(node.model), h, pool.max) && Strict(cmp, Flat(node.model))
    requires |pool.leaves| >= 1 && |pool.branches| >= h
    modifies pool, pool.repr, node.repr
    ensures pool.Valid() && root.Valid(pool.max) && root.repr !! pool.repr
    ensures root.repr + pool.repr <= old(node.repr + pool.repr)
    ensures Sound(Some(root.model), h', pool.max)
    ensures Flat(root.model) == Put(cmp, old(Flat(node.model)), item)
    ensures replaced == Lookup(cmp, old(Flat(node.model)), item)
    ensures |Flat(root.model)| == |old(Flat(node.model))| + if replaced == None then 1 else 0
    ensures (root.model, h', replaced) == SetRoot(cmp, Some(old(node.model)), item, h, pool.max, lean)
    ensures HintOk(hint') && hint'.Some? == hint.Some?
  {
    SetWhole(cmp, Some(node.model), item, h, pool.max, lean);
    root, h', replaced, hint' := RootSet(cmp, pool, node, item, lean, hint, h);
  }
}
