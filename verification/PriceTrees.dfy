/** The exchange's price trees as the B-tree of this project: what the engine does to the
    sorted sequences of its state is what the tree does to its contents. */
module PriceTrees {
  import opened OrderedSeq
  import opened Orders
  import opened Markets
  import opened Trading
  import opened Matching
  import opened Visits
  import opened Pools
  import opened BTrees
  import TD = TreeDelete

  /** The tree holds one side of a product's book and compares the orders as they are. */
  ghost predicate Keeps(t: BTree<Id>, m: Market, side: Side, p: nat)
    reads t, t.repr
  {
    && t.Valid() && t.Sorted() && p < |m.buy| == |m.sell|
    && t.cmp == ByPrice(m.store, side) && t.Items() == Book(m, side, p)
  }

  /** btree_set files an order, unless memory runs out, which nobody is told. */
  method File(t: BTree<Id>, ghost m: Market, id: Id, grants: Grants)
    requires id in m.store && Keeps(t, m, m.store[id].side, m.store[id].product)
    modifies t.repr
    ensures var o := m.store[id];
      if t.oom then Keeps(t, m, o.side, o.product) else Keeps(t, FileIn(m, id), o.side, o.product)
    ensures t.oom ==> exists k: nat :: !grants(k)
    ensures !t.oom ==> t.Came(old(t.Tree()), old(t.height), id, false)
  {
    var was, hint := t.SetX(id, false, None, grants);
  }

  /** btree_delete takes an order out. */
  method Unfile(t: BTree<Id>, ghost m: Market, id: Id)
    requires id in m.store && Keeps(t, m, m.store[id].side, m.store[id].product)
    modifies t.repr
    ensures Keeps(t, FileOut(m, id), m.store[id].side, m.store[id].product)
  {
    var was, hint := t.DeleteX(TD.DelKey(id), None);
  }

  /** btree_min is the best order of its side. */
  method Best(t: BTree<Id>, ghost m: Market, ghost side: Side, ghost p: nat) returns (id: Option<Id>)
    requires Keeps(t, m, side, p)
    ensures id == if Book(m, side, p) == [] then None else Some(Book(m, side, p)[0])
  {
    id := t.Min();
  }

  function All(log: seq<Id>, id: Id): bool {
    true
  }

  lemma {:induction false} VisitAll(s: seq<Id>, i: nat, log: seq<Id>)
    requires i <= |s|
    ensures Visit(All, s, i, log) == (log + s[i..], true)
    decreases |s| - i
  {
    if i == |s| {
      assert log + s[i..] == log;
    } else {
      VisitAll(s, i + 1, log + [s[i]]);
      assert log + [s[i]] + s[i + 1..] == log + s[i..];
    }
  }

  /** The scans of the printed book: upwards for the buy side, downwards for the sell side. */
  method Scan(t: BTree<Id>, ghost m: Market, side: Side, ghost p: nat) returns (log: seq<Id>)
    requires Keeps(t, m, side, p)
    ensures log == if side == Buy then Book(m, side, p) else Reverse(Book(m, side, p))
  {
    var ok, hint;
    if side == Buy {
      VisitAll(t.Items(), 0, []);
      log, ok, hint := t.Ascend(None, All, None);
    } else {
      assert t.Items()[..|t.Items()|] == t.Items();
      VisitAll(Reverse(t.Items()), 0, []);
      log, ok, hint := t.Descend(None, All, None);
    }
  }

  /** While an order is out of a tree it may be changed: the rest stays in order for the
      comparator, though what that reads has changed. */
  lemma OrderStays(store: Store, side: Side, tree: seq<Id>, id: Id, o: Order)
    requires Ids(store) && Ids(store[id := o]) && id !in tree && forall i :: 0 <= i < |tree| ==> tree[i] in store
    requires Strict(ByPrice(store, side), tree)
    ensures Strict(ByPrice(store[id := o], side), tree)
  {
    StrictIsPriority(store, side, tree);
    assert forall i :: 0 <= i < |tree| ==> store[id := o][tree[i]] == store[tree[i]];
    StrictIsPriority(store[id := o], side, tree);
  }
}
