/** Orders, their comparators, and price-time priority. */
module Orders {
  import opened OrderedSeq

  datatype Side = Buy | Sell

  /** An order's owner and the number the owner gave it: fixed while it lives. */
  datatype Id = Id(owner: nat, local: int)

  /** What an int of 32 bits holds. */
  type Int = x: int | -0x8000_0000 <= x < 0x8000_0000

  /** The rest of an order. The last three change under AMEND, the quantity also when
      the order is partly filled. */
  datatype Order = Order(side: Side, product: nat, quantity: Int, price: Int, global_id: int)

  type Store = map<Id, Order>

  const INT_LIMIT: int := 0x8000_0000
  const LONG_LIMIT: int := 0x8000_0000_0000_0000

  /** A value stored in an int of 32 bits. */
  function Narrow(x: int): Int {
    (x + INT_LIMIT) % (2 * INT_LIMIT) - INT_LIMIT
  }

  /** A value stored in a long of 64 bits. */
  function NarrowLong(x: int): int {
    (x + LONG_LIMIT) % (2 * LONG_LIMIT) - LONG_LIMIT
  }

  /** The same of several values. */
  function Stored(s: seq<int>): (r: seq<int>)
    ensures |r| == |s|
  {
    seq(|s|, i requires 0 <= i < |s| => Narrow(s[i]))
  }

  function StoredLongs(s: seq<int>): (r: seq<int>)
    ensures |r| == |s|
  {
    seq(|s|, i requires 0 <= i < |s| => NarrowLong(s[i]))
  }

  predicate FitsInt(x: int) {
    -INT_LIMIT <= x < INT_LIMIT
  }

  predicate FitsLong(x: int) {
    -LONG_LIMIT <= x < LONG_LIMIT
  }

  /** A stored value is the value itself exactly if that fits. */
  lemma StoredExactly(x: int)
    ensures FitsInt(Narrow(x)) && (Narrow(x) == x <==> FitsInt(x))
    ensures FitsLong(NarrowLong(x)) && (NarrowLong(x) == x <==> FitsLong(x))
  {
  }

  lemma Multiple(n: int, j: int)
    requires n > 0
    ensures j == 0 || n * j >= n || n * j <= -n
  {
  }

  lemma SameResidue(n: int, a: int, b: int, j: int)
    requires 0 <= a < n && 0 <= b < n && a - b == n * j
    ensures a == b
  {
    Multiple(n, j);
  }

  lemma ResidueSum(n: int, x: int, y: int)
    requires n > 0
    ensures (x % n + y) % n == (x + y) % n
  {
    var i, j, k := x / n, (x % n + y) / n, (x + y) / n;
    assert x % n == x - n * i;
    assert (x % n + y) % n - (x + y) % n == n * (k - i - j) by {
      assert (x % n + y) % n == x % n + y - n * j && (x + y) % n == x + y - n * k;
      assert n * (k - i - j) == n * k - n * i - n * j;
    }
    SameResidue(n, (x % n + y) % n, (x + y) % n, k - i - j);
  }

  /** Adding to a stored value stores the sum: wrapped fields follow the unwrapped values. */
  lemma StoredSum(x: int, y: int)
    ensures Narrow(Narrow(x) + y) == Narrow(x + y)
    ensures NarrowLong(NarrowLong(x) + y) == NarrowLong(x + y)
  {
    ResidueSum(2 * INT_LIMIT, x + INT_LIMIT, y);
    ResidueSum(2 * LONG_LIMIT, x + LONG_LIMIT, y);
    assert Narrow(x) + y + INT_LIMIT == (x + INT_LIMIT) % (2 * INT_LIMIT) + y;
    assert NarrowLong(x) + y + LONG_LIMIT == (x + LONG_LIMIT) % (2 * LONG_LIMIT) + y;
  }

  /** Narrowing respects the order of ids below a bound exactly if the bound is 2^31. */
  lemma NarrowKeepsOrder(n: nat)
    ensures (forall a, b :: 0 <= a < b < n ==> Narrow(a) < Narrow(b)) <==> n <= INT_LIMIT
  {
    if n > INT_LIMIT {
      assert !(Narrow(0) < Narrow(INT_LIMIT));
    }
  }

  function Sign(a: int, b: int): int {
    if a > b then 1 else if a < b then -1 else 0
  }

  /** Price and narrowed id of an order, as the comparators read them. */
  function KeyOf(store: Store, id: Id): (int, int) {
    if id in store then (store[id].price, Narrow(store[id].global_id)) else (0, 0)
  }

  function CompareKeys(side: Side, x: (int, int), y: (int, int)): int {
    var c := if side == Sell then Sign(x.0, y.0) else Sign(y.0, x.0);
    if c == 0 then Sign(x.1, y.1) else c
  }

  /** The comparator of the buy trees or of the sell trees, over the orders as they are now. */
  function ByPrice(store: Store, side: Side): (Id, Id) -> int {
    (a: Id, b: Id) => CompareKeys(side, KeyOf(store, a), KeyOf(store, b))
  }

  /** The comparator of the traders' trees. */
  function ByLocal(a: Id, b: Id): int {
    Sign(a.local, b.local)
  }

  lemma ByPriceOrders(store: Store, side: Side)
    ensures IsOrder(ByPrice(store, side))
  {
    var c := ByPrice(store, side);
    forall x, y, z ensures Laws(c, x, y, z) {
      var a, b, d := KeyOf(store, x), KeyOf(store, y), KeyOf(store, z);
      assert c(x, y) == CompareKeys(side, a, b) && c(y, z) == CompareKeys(side, b, d);
      assert c(x, z) == CompareKeys(side, a, d) && c(y, x) == CompareKeys(side, b, a);
    }
  }

  lemma ByLocalOrders()
    ensures IsOrder<Id>(ByLocal)
  {
    forall x, y, z ensures Laws<Id>(ByLocal, x, y, z) { }
  }

  /** Price-time priority: the better price first, and among equals the older order. */
  predicate Before(side: Side, x: Order, y: Order) {
    || (if side == Sell then x.price < y.price else x.price > y.price)
    || (x.price == y.price && x.global_id < y.global_id)
  }

  ghost predicate Ids(store: Store) {
    && (forall id :: id in store ==> 0 <= store[id].global_id < INT_LIMIT)
    && (forall a, b :: a in store && b in store && store[a].global_id == store[b].global_id ==> a == b)
  }

  /** The tree lists orders of the store in price-time priority. */
  ghost predicate Priority(store: Store, side: Side, tree: seq<Id>) {
    && (forall i :: 0 <= i < |tree| ==> tree[i] in store)
    && (forall i, j :: 0 <= i < j < |tree| ==> Before(side, store[tree[i]], store[tree[j]]))
  }

  lemma PriceIsPriority(store: Store, side: Side, a: Id, b: Id)
    requires Ids(store) && a in store && b in store
    ensures ByPrice(store, side)(a, b) < 0 <==> Before(side, store[a], store[b])
    ensures ByPrice(store, side)(a, b) == 0 <==> a == b
  {
  }

  /** While ids fit, the comparator order of a tree is price-time priority. */
  lemma StrictIsPriority(store: Store, side: Side, tree: seq<Id>)
    requires Ids(store) && forall i :: 0 <= i < |tree| ==> tree[i] in store
    ensures Strict(ByPrice(store, side), tree) <==> Priority(store, side, tree)
  {
    forall i, j | 0 <= i < j < |tree|
      ensures ByPrice(store, side)(tree[i], tree[j]) < 0 <==> Before(side, store[tree[i]], store[tree[j]])
    {
      PriceIsPriority(store, side, tree[i], tree[j]);
    }
  }

  lemma PriorityDistinct(store: Store, side: Side, tree: seq<Id>)
    requires Priority(store, side, tree)
    ensures forall i, j :: 0 <= i < j < |tree| ==> tree[i] != tree[j]
  {
  }

  /** The comparator finds an order in a tree exactly if the order is in it. */
  lemma PriorityHas(store: Store, side: Side, tree: seq<Id>, id: Id)
    requires Ids(store) && Priority(store, side, tree) && id in store
    ensures Has(ByPrice(store, side), tree, id) <==> id in tree
  {
    var c := ByPrice(store, side);
    ByPriceOrders(store, side);
    StrictIsPriority(store, side, tree);
    if Has(c, tree, id) { PriceIsPriority(store, side, tree[Rank(c, tree, id)], id); }
    if id in tree {
      var k :| 0 <= k < |tree| && tree[k] == id;
      MemberRank(c, tree, k);
    }
  }

  /** Filing an order that is not filed yet. */
  lemma FileOrder(store: Store, side: Side, tree: seq<Id>, id: Id)
    requires Ids(store) && Priority(store, side, tree) && id in store && id !in tree
    ensures var tree' := Put(ByPrice(store, side), tree, id);
      && Priority(store, side, tree')
      && (forall x :: x in tree' <==> x in tree || x == id)
  {
    var c := ByPrice(store, side);
    ByPriceOrders(store, side);
    StrictIsPriority(store, side, tree);
    PutStrict(c, tree, id);
    PriorityHas(store, side, tree, id);
    PutMembers(c, tree, id);
    var tree' := Put(c, tree, id);
    assert forall i :: 0 <= i < |tree'| ==> tree'[i] in tree';
    StrictIsPriority(store, side, tree');
  }

  lemma CutPriority(store: Store, side: Side, tree: seq<Id>, k: nat)
    requires Priority(store, side, tree) && k < |tree|
    ensures Priority(store, side, tree[..k] + tree[k + 1..])
  {
    var tree' := tree[..k] + tree[k + 1..];
    forall i, j | 0 <= i < j < |tree'| ensures Before(side, store[tree'[i]], store[tree'[j]]) {
      assert tree'[i] == tree[if i < k then i else i + 1] && tree'[j] == tree[if j < k then j else j + 1];
    }
  }

  /** Taking a filed order out. */
  lemma UnfileOrder(store: Store, side: Side, tree: seq<Id>, k: nat)
    requires Ids(store) && Priority(store, side, tree) && k < |tree|
    ensures var tree' := Remove(ByPrice(store, side), tree, tree[k]);
      && tree' == tree[..k] + tree[k + 1..]
      && Priority(store, side, tree')
      && (forall x :: x in tree' <==> x in tree && x != tree[k])
  {
    ByPriceOrders(store, side);
    StrictIsPriority(store, side, tree);
    MemberRank(ByPrice(store, side), tree, k);
    CutPriority(store, side, tree, k);
    PriorityDistinct(store, side, tree);
    CutMembers(tree, k);
  }

  lemma PutMembers<T>(cmp: (T, T) -> int, s: seq<T>, x: T)
    requires !Has(cmp, s, x)
    ensures forall y :: y in Put(cmp, s, x) <==> y in s || y == x
  {
    var r := Rank(cmp, s, x);
    assert s == s[..r] + s[r..];
  }

  lemma CutMembers<T>(s: seq<T>, k: nat)
    requires k < |s| && forall i, j :: 0 <= i < j < |s| ==> s[i] != s[j]
    ensures forall y :: y in s[..k] + s[k + 1..] <==> y in s && y != s[k]
  {
    assert s == s[..k] + [s[k]] + s[k + 1..];
  }

  // ---------- a trader's own orders ----------

  ghost predicate Owned(tree: seq<Id>, owner: nat) {
    && (forall i :: 0 <= i < |tree| ==> tree[i].owner == owner)
    && (forall i, j :: 0 <= i < j < |tree| ==> tree[i].local < tree[j].local)
  }

  lemma OwnedHas(tree: seq<Id>, id: Id)
    requires Owned(tree, id.owner)
    ensures Has(ByLocal, tree, id) <==> id in tree
    ensures Strict(ByLocal, tree)
  {
    ByLocalOrders();
    assert Strict(ByLocal, tree);
    if id in tree {
      var k :| 0 <= k < |tree| && tree[k] == id;
      MemberRank(ByLocal, tree, k);
    }
  }

  lemma StrictIsOwned(tree: seq<Id>, owner: nat)
    requires Strict(ByLocal, tree) && forall x :: x in tree ==> x.owner == owner
    ensures Owned(tree, owner)
  {
    forall i, j | 0 <= i < j < |tree| ensures tree[i].local < tree[j].local {
      assert ByLocal(tree[i], tree[j]) < 0;
    }
  }

  lemma EnterOwn(tree: seq<Id>, id: Id)
    requires Owned(tree, id.owner) && id !in tree
    ensures var tree' := Put(ByLocal, tree, id);
      Owned(tree', id.owner) && forall x :: x in tree' <==> x in tree || x == id
  {
    ByLocalOrders();
    OwnedHas(tree, id);
    PutStrict(ByLocal, tree, id);
    PutMembers(ByLocal, tree, id);
    StrictIsOwned(Put(ByLocal, tree, id), id.owner);
  }

  lemma LeaveOwn(tree: seq<Id>, id: Id)
    requires Owned(tree, id.owner) && id in tree
    ensures var tree' := Remove(ByLocal, tree, id);
      Owned(tree', id.owner) && forall x :: x in tree' <==> x in tree && x != id
  {
    ByLocalOrders();
    OwnedHas(tree, id);
    RemoveStrict(ByLocal, tree, id);
    var k :| 0 <= k < |tree| && tree[k] == id;
    MemberRank(ByLocal, tree, k);
    CutMembers(tree, k);
    StrictIsOwned(Remove(ByLocal, tree, id), id.owner);
  }

  /** An order is found by its number exactly if it is the trader's. */
  lemma FindOwn(tree: seq<Id>, id: Id)
    requires Owned(tree, id.owner)
    ensures Lookup(ByLocal, tree, id) == if id in tree then Some(id) else None
  {
    OwnedHas(tree, id);
  }
}
