/** Reading heap nodes: lookup, first and last item, and ordered scans. */
module Scanning {
  import opened OrderedSeq
  import opened Trees
  import opened Nodes
  import opened Finding
  import opened Visits

  // ---------- lookup ----------

  /** A key is looked up in the node itself or in the child at its rank. */
  lemma LookupThrough<T(!new)>(cmp: (T, T) -> int, t: Tree<T>, x: T)
    requires IsOrder(cmp) && Counted(t) && Strict(cmp, Flat(t))
    ensures var i := Rank(cmp, t.items, x);
      && Strict(cmp, t.items)
      && (Has(cmp, t.items, x) ==> Lookup(cmp, Flat(t), x) == Some(t.items[i]))
      && (!Has(cmp, t.items, x) && t.Branch? ==>
           Lookup(cmp, Flat(t), x) == Lookup(cmp, Flat(t.kids[i]), x) && Strict(cmp, Flat(t.kids[i])))
  {
    ItemsStrict(cmp, t);
    if t.Branch? {
      var i := Rank(cmp, t.items, x);
      if Has(cmp, t.items, x) {
        LookupSeparator(cmp, t.items, t.kids, x);
      } else {
        Descend(cmp, t.items, t.kids, x);
        Focus(t.items, t.kids, i);
        HasLocal(cmp, Upto(t.items, t.kids, i), Flat(t.kids[i]), From(t.items, t.kids, i), x);
        Local(cmp, Upto(t.items, t.kids, i), Flat(t.kids[i]), From(t.items, t.kids, i), x);
      }
    }
  }

  lemma LookupSeparator<T(!new)>(cmp: (T, T) -> int, s: seq<T>, ks: seq<Tree<T>>, x: T)
    requires IsOrder(cmp) && |ks| == |s| + 1 && Strict(cmp, Flat(Branch(s, ks))) && Has(cmp, s, x)
    ensures var i := Rank(cmp, s, x); var f := Flat(Branch(s, ks));
      && Lookup(cmp, f, x) == Some(s[i])
      && Has(cmp, f, x) && Rank(cmp, f, x) == |Upto(s, ks, i)| + |Flat(ks[i])|
      && f == (Upto(s, ks, i) + Flat(ks[i])) + From(s, ks, i)
  {
    var i := Rank(cmp, s, x);
    var a, b, c, d := Upto(s, ks, i), Flat(ks[i]), Flat(ks[i + 1]), From(s, ks, i + 1);
    FocusPair(s, ks, i);
    Focus(s, ks, i);
    Regroup(a, b, [s[i]], c, d);
    AtItem(cmp, a + b, s[i], c + d, x);
    AroundItem(cmp, a + b, s[i], c + d, x);
    RankLocal(cmp, a + b, [s[i]], c + d, x);
    RankAt(cmp, [s[i]], x, 0);
  }

  method Get<T(!new,0)>(cmp: (T, T) -> int, root: Node<T>, key: T, hint: Hint, ghost h: nat, ghost m: nat)
    returns (item: Option<T>, hint': Hint)
    requires IsOrder(cmp) && Permitted(m) && HintOk(hint)
    requires root.Valid(m) && Shape(root.model, h, m) && 1 <= root.num_items && Strict(cmp, Flat(root.model))
    ensures item == Lookup(cmp, Flat(root.model), key)
    ensures HintOk(hint') && hint'.Some? == hint.Some?
  {
    var node, depth := root, 0;
    ghost var l := h;
    hint' := hint;
    while true
      invariant node.Valid(m) && Shape(node.model, l, m) && 1 <= node.num_items && Strict(cmp, Flat(node.model))
      invariant Lookup(cmp, Flat(root.model), key) == Lookup(cmp, Flat(node.model), key)
      invariant HintOk(hint') && hint'.Some? == hint.Some?
      decreases l
    {
      LookupThrough(cmp, node.model, key);
      var i, found;
      i, found, hint' := Find(cmp, node, key, hint', depth);
      if found { return Some(node.items[i]), hint'; }
      if node.leaf { return None, hint'; }
      Gap(m);
      node, depth, l := node.Kid(i, m), depth + 1, l - 1;
    }
  }

  lemma FirstBelow<T>(t: Tree<T>, h: nat, m: nat)
    requires Permitted(m) && Shape(t, h, m) && |t.items| >= 1 && t.Branch?
    ensures Flat(t) != [] && Flat(t.kids[0]) != [] && Flat(t)[0] == Flat(t.kids[0])[0]
  {
    Gap(m);
    NotEmpty(t.kids[0], h - 1, m);
    Focus(t.items, t.kids, 0);
    var k := Flat(t.kids[0]);
    assert [] + k + From(t.items, t.kids, 0) == k + From(t.items, t.kids, 0);
  }

  lemma LastBelow<T>(t: Tree<T>, h: nat, m: nat)
    requires Permitted(m) && Shape(t, h, m) && |t.items| >= 1 && t.Branch?
    ensures var k := Flat(t.kids[|t.items|]);
      Flat(t) != [] && k != [] && Flat(t)[|Flat(t)| - 1] == k[|k| - 1]
  {
    Gap(m);
    NotEmpty(t.kids[|t.items|], h - 1, m);
  }

  method First<T(0)>(root: Node<T>, ghost h: nat, ghost m: nat) returns (item: T)
    requires Permitted(m) && root.Valid(m) && Shape(root.model, h, m) && 1 <= root.num_items
    ensures Flat(root.model) != [] && item == Flat(root.model)[0]
  {
    var node := root;
    ghost var l := h;
    NotEmpty(root.model, h, m);
    while !node.leaf
      invariant node.Valid(m) && Shape(node.model, l, m) && 1 <= node.num_items
      invariant Flat(node.model) != [] && Flat(node.model)[0] == Flat(root.model)[0]
      decreases l
    {
      FirstBelow(node.model, l, m);
      Gap(m);
      node, l := node.Kid(0, m), l - 1;
    }
    item := node.items[0];
  }

  method Last<T(0)>(root: Node<T>, ghost h: nat, ghost m: nat) returns (item: T)
    requires Permitted(m) && root.Valid(m) && Shape(root.model, h, m) && 1 <= root.num_items
    ensures Flat(root.model) != [] && item == Flat(root.model)[|Flat(root.model)| - 1]
  {
    var node := root;
    ghost var l := h;
    NotEmpty(root.model, h, m);
    while !node.leaf
      invariant node.Valid(m) && Shape(node.model, l, m) && 1 <= node.num_items
      invariant var f := Flat(node.model); f != [] && f[|f| - 1] == Flat(root.model)[|Flat(root.model)| - 1]
      decreases l
    {
      LastBelow(node.model, l, m);
      Gap(m);
      node, l := node.Kid(node.num_items, m), l - 1;
    }
    item := node.items[node.num_items - 1];
  }

  // ---------- ascending ----------

  lemma VisitItem<T>(iter: Callback<T>, x: T, rest: seq<T>, log: seq<T>)
    ensures Visit(iter, [x] + rest, 0, log)
         == if iter(log, x) then Visit(iter, rest, 0, log + [x]) else (log + [x], false)
  {
    if iter(log, x) { VisitShift(iter, [x], rest, 0, log + [x]); }
  }

  /** Visiting from item j on: the item, then its right child, then the rest. */
  lemma VisitFromItem<T>(iter: Callback<T>, s: seq<T>, ks: seq<Tree<T>>, j: nat, log: seq<T>)
    requires j < |s| && |ks| == |s| + 1
    ensures var (l, ok) := Visit(iter, Flat(ks[j + 1]), 0, log + [s[j]]);
      Visit(iter, From(s, ks, j), 0, log)
      == if !iter(log, s[j]) then (log + [s[j]], false)
         else if ok then Visit(iter, From(s, ks, j + 1), 0, l) else (l, false)
  {
    var k, rest := Flat(ks[j + 1]), From(s, ks, j + 1);
    assert From(s, ks, j) == [s[j]] + (k + rest);
    VisitItem(iter, s[j], k + rest, log);
    VisitCat(iter, k, rest, 0, log + [s[j]]);
  }

  method LeafScan<T(0)>(node: Node<T>, iter: Callback<T>, start: nat, log: seq<T>, ghost m: nat)
    returns (log': seq<T>, ok: bool)
    requires node.Valid(m) && node.leaf && start <= node.num_items
    ensures (log', ok) == Visit(iter, Flat(node.model), start, log)
  {
    log', ok := log, true;
    var i := start;
    while i < node.num_items
      invariant start <= i <= node.num_items
      invariant Visit(iter, node.model.items, start, log) == Visit(iter, node.model.items, i, log')
    {
      var x := node.items[i];
      var more := iter(log', x);
      log' := log' + [x];
      if !more { return log', false; }
      i := i + 1;
    }
  }

  /** Items j, j + 1, ... of a branch, each followed by its right child. */
  method BranchScan<T(0)>(node: Node<T>, iter: Callback<T>, start: nat, log: seq<T>, ghost h: nat, ghost m: nat)
    returns (log': seq<T>, ok: bool)
    requires node.Valid(m) && Shape(node.model, h, m) && !node.leaf && start <= node.num_items
    ensures (log', ok) == Visit(iter, From(node.model.items, node.model.kids, start), 0, log)
    decreases h, 0
  {
    log', ok := log, true;
    ghost var s, ks := node.model.items, node.model.kids;
    var i := start;
    while i < node.num_items
      invariant start <= i <= node.num_items && ok
      invariant Visit(iter, From(s, ks, start), 0, log) == Visit(iter, From(s, ks, i), 0, log')
    {
      VisitFromItem(iter, s, ks, i, log');
      var x := node.items[i];
      var more := iter(log', x);
      log' := log' + [x];
      if !more { return log', false; }
      log', ok := NodeScan(node.Kid(i + 1, m), iter, log', h - 1, m);
      if !ok { return; }
      i := i + 1;
    }
  }

  /** All items below a node in order. */
  method NodeScan<T(0)>(node: Node<T>, iter: Callback<T>, log: seq<T>, ghost h: nat, ghost m: nat)
    returns (log': seq<T>, ok: bool)
    requires node.Valid(m) && Shape(node.model, h, m)
    ensures (log', ok) == Visit(iter, Flat(node.model), 0, log)
    decreases h, 1
  {
    if node.leaf {
      log', ok := LeafScan(node, iter, 0, log, m);
      return;
    }
    ghost var s, ks := node.model.items, node.model.kids;
    Focus(s, ks, 0);
    assert Flat(node.model) == Flat(ks[0]) + From(s, ks, 0);
    VisitCat(iter, Flat(ks[0]), From(s, ks, 0), 0, log);
    log', ok := NodeScan(node.Kid(0, m), iter, log, h - 1, m);
    if ok {
      log', ok := BranchScan(node, iter, 0, log', h, m);
    }
  }

  /** Where the items not below a key begin, in a branch. */
  lemma RankThrough<T(!new)>(cmp: (T, T) -> int, t: Tree<T>, x: T)
    requires IsOrder(cmp) && Counted(t) && t.Branch? && Strict(cmp, Flat(t))
    ensures var i := Rank(cmp, t.items, x);
      var u, k, a := Upto(t.items, t.kids, i), Flat(t.kids[i]), From(t.items, t.kids, i);
      && Flat(t) == u + k + a
      && (Has(cmp, t.items, x) ==> Has(cmp, Flat(t), x) && Rank(cmp, Flat(t), x) == |u| + |k|)
      && (!Has(cmp, t.items, x) ==>
           Strict(cmp, k) && Rank(cmp, Flat(t), x) == |u| + Rank(cmp, k, x) && Has(cmp, Flat(t), x) == Has(cmp, k, x))
  {
    var i := Rank(cmp, t.items, x);
    Focus(t.items, t.kids, i);
    if Has(cmp, t.items, x) {
      LookupSeparator(cmp, t.items, t.kids, x);
    } else {
      Descend(cmp, t.items, t.kids, x);
      HasLocal(cmp, Upto(t.items, t.kids, i), Flat(t.kids[i]), From(t.items, t.kids, i), x);
    }
  }

  lemma VisitTail<T>(iter: Callback<T>, u: seq<T>, k: seq<T>, a: seq<T>, r: nat, log: seq<T>)
    requires r <= |k|
    ensures var (l, ok) := Visit(iter, k, r, log);
      Visit(iter, u + k + a, |u| + r, log) == if ok then Visit(iter, a, 0, l) else (l, false)
  {
    assert u + k + a == u + (k + a);
    VisitShift(iter, u, k + a, r, log);
    VisitCat(iter, k, a, r, log);
  }

  lemma VisitThrough<T(!new)>(cmp: (T, T) -> int, t: Tree<T>, x: T, iter: Callback<T>, log: seq<T>)
    requires IsOrder(cmp) && Counted(t) && t.Branch? && Strict(cmp, Flat(t))
    ensures var i := Rank(cmp, t.items, x); var k, a := Flat(t.kids[i]), From(t.items, t.kids, i);
      var (l, ok) := if Has(cmp, t.items, x) then (log, true) else Visit(iter, k, Rank(cmp, k, x), log);
      && (!Has(cmp, t.items, x) ==> Strict(cmp, k))
      && Visit(iter, Flat(t), Rank(cmp, Flat(t), x), log) == if ok then Visit(iter, a, 0, l) else (l, false)
  {
    RankThrough(cmp, t, x);
    var i := Rank(cmp, t.items, x);
    var k := Flat(t.kids[i]);
    VisitTail(iter, Upto(t.items, t.kids, i), k, From(t.items, t.kids, i),
              if Has(cmp, t.items, x) then |k| else Rank(cmp, k, x), log);
  }

  /** Every item not below the pivot, in order. */
  method NodeAscend<T(!new,0)>(cmp: (T, T) -> int, node: Node<T>, pivot: T, iter: Callback<T>, log: seq<T>,
                               hint: Hint, depth: nat, ghost h: nat, ghost m: nat)
    returns (log': seq<T>, ok: bool, hint': Hint)
    requires IsOrder(cmp) && Permitted(m) && HintOk(hint)
    requires node.Valid(m) && Shape(node.model, h, m) && 1 <= node.num_items && Strict(cmp, Flat(node.model))
    ensures (log', ok) == Visit(iter, Flat(node.model), Rank(cmp, Flat(node.model), pivot), log)
    ensures HintOk(hint') && hint'.Some? == hint.Some?
    decreases h, 1
  {
    ItemsStrict(cmp, node.model);
    var i, found;
    i, found, hint' := Find(cmp, node, pivot, hint, depth);
    if node.leaf {
      log', ok := LeafScan(node, iter, i, log, m);
      return;
    }
    log', ok, hint' := AscendBelow(cmp, node, pivot, i, found, iter, log, hint', depth, h, m);
  }

  /** NodeAscend past the search, in a branch. */
  method AscendBelow<T(!new,0)>(cmp: (T, T) -> int, node: Node<T>, pivot: T, i: nat, found: bool, iter: Callback<T>,
                                log: seq<T>, hint: Hint, depth: nat, ghost h: nat, ghost m: nat)
    returns (log': seq<T>, ok: bool, hint': Hint)
    requires IsOrder(cmp) && Permitted(m) && HintOk(hint)
    requires node.Valid(m) && Shape(node.model, h, m) && !node.leaf && Strict(cmp, Flat(node.model))
    requires i == Rank(cmp, node.model.items, pivot) && found == Has(cmp, node.model.items, pivot)
    ensures (log', ok) == Visit(iter, Flat(node.model), Rank(cmp, Flat(node.model), pivot), log)
    ensures HintOk(hint') && hint'.Some? == hint.Some?
    decreases h, 0
  {
    VisitThrough(cmp, node.model, pivot, iter, log);
    log', ok, hint' := log, true, hint;
    if !found {
      Gap(m);
      log', ok, hint' := NodeAscend(cmp, node.Kid(i, m), pivot, iter, log, hint', depth + 1, h - 1, m);
      if !ok { return; }
    }
    log', ok := BranchScan(node, iter, i, log', h, m);
  }

  // ---------- descending ----------

  lemma ReverseItem<T>(s: seq<T>, x: T)
    ensures Reverse(s + [x]) == [x] + Reverse(s)
  {
  }

  lemma ReverseEmpty<T>()
    ensures Reverse<T>([]) == []
  {
  }

  method LeafReverse<T(0)>(node: Node<T>, iter: Callback<T>, end: nat, log: seq<T>, ghost m: nat)
    returns (log': seq<T>, ok: bool)
    requires node.Valid(m) && node.leaf && end <= node.num_items
    ensures (log', ok) == Visit(iter, Reverse(Flat(node.model)[..end]), 0, log)
  {
    log', ok := log, true;
    ghost var s := node.model.items;
    var i: int := end - 1;
    while i >= 0
      invariant -1 <= i < end
      invariant Visit(iter, Reverse(s[..end]), 0, log) == Visit(iter, Reverse(s[..i + 1]), 0, log')
    {
      assert s[..i + 1] == s[..i] + [s[i]];
      ReverseItem(s[..i], s[i]);
      VisitItem(iter, s[i], Reverse(s[..i]), log');
      var x := node.items[i];
      var more := iter(log', x);
      log' := log' + [x];
      if !more { return log', false; }
      i := i - 1;
    }
  }

  /** Visiting backwards what precedes child j: the item before it, then the child before that. */
  lemma VisitBefore<T>(iter: Callback<T>, s: seq<T>, ks: seq<Tree<T>>, j: nat, log: seq<T>)
    requires j < |s| && |ks| == |s| + 1
    ensures var (l, ok) := Visit(iter, Reverse(Flat(ks[j])), 0, log + [s[j]]);
      Visit(iter, Reverse(Upto(s, ks, j + 1)), 0, log)
      == if !iter(log, s[j]) then (log + [s[j]], false)
         else if ok then Visit(iter, Reverse(Upto(s, ks, j)), 0, l) else (l, false)
  {
    var u, k := Upto(s, ks, j), Flat(ks[j]);
    ReverseItem(u + k, s[j]);
    ReverseCat(u, k);
    VisitItem(iter, s[j], Reverse(k) + Reverse(u), log);
    VisitCat(iter, Reverse(k), Reverse(u), 0, log + [s[j]]);
  }

  /** Items i - 1, i - 2, ... of a branch, each followed by its left child. */
  method BranchReverse<T(0)>(node: Node<T>, iter: Callback<T>, end: nat, log: seq<T>, ghost h: nat, ghost m: nat)
    returns (log': seq<T>, ok: bool)
    requires node.Valid(m) && Shape(node.model, h, m) && !node.leaf && end <= node.num_items
    ensures (log', ok) == Visit(iter, Reverse(Upto(node.model.items, node.model.kids, end)), 0, log)
    decreases h, 0
  {
    log', ok := log, true;
    ghost var s, ks := node.model.items, node.model.kids;
    var i: int := end - 1;
    while i >= 0
      invariant -1 <= i < end && ok
      invariant Visit(iter, Reverse(Upto(s, ks, end)), 0, log) == Visit(iter, Reverse(Upto(s, ks, i + 1)), 0, log')
    {
      VisitBefore(iter, s, ks, i, log');
      var x := node.items[i];
      var more := iter(log', x);
      log' := log' + [x];
      if !more { return log', false; }
      log', ok := NodeReverse(node.Kid(i, m), iter, log', h - 1, m);
      if !ok { return; }
      i := i - 1;
    }
    ReverseEmpty<T>();
  }

  /** All items below a node in reverse order. */
  method NodeReverse<T(0)>(node: Node<T>, iter: Callback<T>, log: seq<T>, ghost h: nat, ghost m: nat)
    returns (log': seq<T>, ok: bool)
    requires node.Valid(m) && Shape(node.model, h, m)
    ensures (log', ok) == Visit(iter, Reverse(Flat(node.model)), 0, log)
    decreases h, 1
  {
    if node.leaf {
      assert node.model.items[..node.num_items] == node.model.items;
      log', ok := LeafReverse(node, iter, node.num_items, log, m);
      return;
    }
    ghost var s, ks, n := node.model.items, node.model.kids, node.num_items;
    ReverseCat(Upto(s, ks, n), Flat(ks[n]));
    VisitCat(iter, Reverse(Flat(ks[n])), Reverse(Upto(s, ks, n)), 0, log);
    log', ok := NodeReverse(node.Kid(node.num_items, m), iter, log, h - 1, m);
    if ok {
      log', ok := BranchReverse(node, iter, node.num_items, log', h, m);
    }
  }

  /** How many leading items are not above the key. */
  function RankAbove<T>(cmp: (T, T) -> int, s: seq<T>, x: T): (r: nat)
    ensures r <= |s|
  {
    Rank(cmp, s, x) + if Has(cmp, s, x) then 1 else 0
  }

  /** They are exactly the items that compare at most equal to it. */
  lemma RankAboveSplits<T(!new)>(cmp: (T, T) -> int, s: seq<T>, x: T, i: nat)
    requires IsOrder(cmp) && Strict(cmp, s) && i < |s|
    ensures i < RankAbove(cmp, s, x) <==> cmp(s[i], x) <= 0
  {
    RankSplits(cmp, s, x);
    var r := Rank(cmp, s, x);
    if i < r {
      assert s[..r][i] == s[i];
    } else if Has(cmp, s, x) && i > r {
      assert s[r + 1..][i - r - 1] == s[i];
    } else if !Has(cmp, s, x) {
      assert s[r..][i - r] == s[i];
    }
  }

  lemma TakeOneMore<T>(u: seq<T>, k: seq<T>, a: seq<T>)
    requires a != []
    ensures (u + k + a)[..|u| + |k| + 1] == u + k + [a[0]]
  {
  }

  lemma TakeInside<T>(u: seq<T>, k: seq<T>, a: seq<T>, r: nat)
    requires r <= |k|
    ensures (u + k + a)[..|u| + r] == u + k[..r]
  {
  }

  lemma ReverseToSeparator<T(!new)>(cmp: (T, T) -> int, t: Tree<T>, x: T)
    requires IsOrder(cmp) && Counted(t) && t.Branch? && Strict(cmp, Flat(t)) && Has(cmp, t.items, x)
    ensures Flat(t)[..RankAbove(cmp, Flat(t), x)] == Upto(t.items, t.kids, Rank(cmp, t.items, x) + 1)
  {
    RankThrough(cmp, t, x);
    var i := Rank(cmp, t.items, x);
    var u, k, a := Upto(t.items, t.kids, i), Flat(t.kids[i]), From(t.items, t.kids, i);
    assert a[0] == t.items[i];
    TakeOneMore(u, k, a);
  }

  lemma ReverseThrough<T(!new)>(cmp: (T, T) -> int, t: Tree<T>, x: T, iter: Callback<T>, log: seq<T>)
    requires IsOrder(cmp) && Counted(t) && t.Branch? && Strict(cmp, Flat(t)) && !Has(cmp, t.items, x)
    ensures var i := Rank(cmp, t.items, x); var k := Flat(t.kids[i]);
      && Strict(cmp, k)
      && var (l, ok) := Visit(iter, Reverse(k[..RankAbove(cmp, k, x)]), 0, log);
         Visit(iter, Reverse(Flat(t)[..RankAbove(cmp, Flat(t), x)]), 0, log)
         == if ok then Visit(iter, Reverse(Upto(t.items, t.kids, i)), 0, l) else (l, false)
  {
    RankThrough(cmp, t, x);
    var i := Rank(cmp, t.items, x);
    var u, k, a := Upto(t.items, t.kids, i), Flat(t.kids[i]), From(t.items, t.kids, i);
    var r := RankAbove(cmp, k, x);
    TakeInside(u, k, a, r);
    ReverseCat(u, k[..r]);
    VisitCat(iter, Reverse(k[..r]), Reverse(u), 0, log);
  }

  /** Every item not above the pivot, in reverse order. */
  method NodeDescend<T(!new,0)>(cmp: (T, T) -> int, node: Node<T>, pivot: T, iter: Callback<T>, log: seq<T>,
                                hint: Hint, depth: nat, ghost h: nat, ghost m: nat)
    returns (log': seq<T>, ok: bool, hint': Hint)
    requires IsOrder(cmp) && Permitted(m) && HintOk(hint)
    requires node.Valid(m) && Shape(node.model, h, m) && 1 <= node.num_items && Strict(cmp, Flat(node.model))
    ensures (log', ok) == Visit(iter, Reverse(Flat(node.model)[..RankAbove(cmp, Flat(node.model), pivot)]), 0, log)
    ensures HintOk(hint') && hint'.Some? == hint.Some?
    decreases h, 1
  {
    ItemsStrict(cmp, node.model);
    var i, found;
    i, found, hint' := Find(cmp, node, pivot, hint, depth);
    if node.leaf {
      log', ok := LeafReverse(node, iter, if found then i + 1 else i, log, m);
      return;
    }
    if found {
      ReverseToSeparator(cmp, node.model, pivot);
      log', ok := BranchReverse(node, iter, i + 1, log, h, m);
    } else {
      log', ok, hint' := DescendBelow(cmp, node, pivot, i, iter, log, hint', depth, h, m);
    }
  }

  /** The child at the pivot's place, and what is before it. */
  method DescendBelow<T(!new,0)>(cmp: (T, T) -> int, node: Node<T>, pivot: T, i: nat, iter: Callback<T>,
                                 log: seq<T>, hint: Hint, depth: nat, ghost h: nat, ghost m: nat)
    returns (log': seq<T>, ok: bool, hint': Hint)
    requires IsOrder(cmp) && Permitted(m) && HintOk(hint)
    requires node.Valid(m) && Shape(node.model, h, m) && !node.leaf && Strict(cmp, Flat(node.model))
    requires i == Rank(cmp, node.model.items, pivot) && !Has(cmp, node.model.items, pivot)
    ensures (log', ok) == Visit(iter, Reverse(Flat(node.model)[..RankAbove(cmp, Flat(node.model), pivot)]), 0, log)
    ensures HintOk(hint') && hint'.Some? == hint.Some?
    decreases h, 0
  {
    ReverseThrough(cmp, node.model, pivot, iter, log);
    Gap(m);
    log', ok, hint' := NodeDescend(cmp, node.Kid(i, m), pivot, iter, log, hint, depth + 1, h - 1, m);
    if ok {
      log', ok := BranchReverse(node, iter, i, log', h, m);
    }
  }
}
