/** Orders and traders as the engine keeps them, in records it changes in place, and the
    searches of its trees, whose comparators read those records. */
module Records {
  import opened OrderedSeq
  import opened Orders
  import opened Markets
  import opened Trading

  /** One order. Two trees refer to it; their keys are among its fields. */
  class OrderRecord {
    const side: Side
    const owner: nat
    const local: int
    const product: nat
    var quantity: Int
    var price: Int
    var global_id: int

    constructor (side: Side, owner: nat, local: int, o: Order)
      requires o.side == side
      ensures Is(Id(owner, local), o)
    {
      this.side := side;
      this.owner := owner;
      this.local := local;
      product := o.product;
      quantity := o.quantity;
      price := o.price;
      global_id := o.global_id;
    }

    ghost predicate Is(id: Id, o: Order)
      reads this
    {
      id == Id(owner, local) && o == Order(side, product, quantity, price, global_id)
    }
  }

  /** A trader. Quantities are ints and cash is in longs, whatever the state says. */
  class TraderRecord {
    var orders: seq<OrderRecord>
    var quantities: seq<int>
    var cash: seq<int>
    var current_order_id: int

    constructor (products: nat)
      ensures Is(map[], Trader([], seq(products, i => 0), seq(products, i => 0), 0))
    {
      orders := [];
      quantities := seq(products, i => 0);
      cash := seq(products, i => 0);
      current_order_id := 0;
    }

    ghost predicate Is(live: map<Id, OrderRecord>, t: Trader)
      reads this
    {
      && Lists(live, orders, t.orders)
      && quantities == Stored(t.quantities) && cash == StoredLongs(t.cash) && current_order_id == t.next
    }

    /** Adds to the quantity and the cash of a product, as far as the fields hold them. */
    method Add(product: nat, quantity: int, cash: int, ghost live: map<Id, OrderRecord>, ghost t: Trader)
      requires Is(live, t) && product < |t.quantities| == |t.cash|
      modifies this
      ensures Is(live, Move(t, product, quantity, cash))
    {
      StoredSum(t.quantities[product], quantity);
      StoredSum(t.cash[product], cash);
      quantities := quantities[product := Narrow(quantities[product] + quantity)];
      this.cash := this.cash[product := NarrowLong(this.cash[product] + cash)];
      ghost var t' := Move(t, product, quantity, cash);
      assert Stored(t'.quantities) == quantities && StoredLongs(t'.cash) == this.cash;
    }
  }

  /** The live records are those of the store's orders, with the same contents. */
  ghost predicate Mirrors(live: map<Id, OrderRecord>, store: Store)
    reads live.Values
  {
    live.Keys == store.Keys && forall id :: id in live ==> live[id].Is(id, store[id])
  }

  function Others(live: map<Id, OrderRecord>, id: Id): set<OrderRecord> {
    set x | x in live && x != id :: live[x]
  }

  /** The same but for one record. */
  ghost predicate MirrorsBut(live: map<Id, OrderRecord>, store: Store, id: Id)
    reads Others(live, id)
  {
    && live.Keys == store.Keys
    && forall x :: x in live && x != id ==> live[x] in Others(live, id) && live[x].Is(x, store[x])
  }

  lemma MirrorsAside(live: map<Id, OrderRecord>, store: Store, id: Id)
    requires Mirrors(live, store) && id in live
    ensures MirrorsBut(live, store, id) && live[id] !in Others(live, id)
  {
    forall x | x in live && x != id ensures live[x] != live[id] {
      assert live[x].Is(x, store[x]) && live[id].Is(id, store[id]);
    }
  }

  lemma MirrorsAgain(live: map<Id, OrderRecord>, store: Store, id: Id, o: Order)
    requires MirrorsBut(live, store, id) && id in live && live[id].Is(id, o)
    ensures Mirrors(live, store[id := o])
  {
  }

  /** A tree of records and a tree of orders, place by place. */
  ghost predicate Lists(live: map<Id, OrderRecord>, tree: seq<OrderRecord>, ids: seq<Id>) {
    |tree| == |ids| && forall i :: 0 <= i < |ids| ==> ids[i] in live && live[ids[i]] == tree[i]
  }

  ghost predicate ListsAll(live: map<Id, OrderRecord>, trees: seq<seq<OrderRecord>>, ids: seq<seq<Id>>) {
    |trees| == |ids| && forall p :: 0 <= p < |ids| ==> Lists(live, trees[p], ids[p])
  }

  function PutAt<T>(s: seq<T>, k: nat, found: bool, x: T): seq<T>
    requires k <= |s| && (found ==> k < |s|)
  {
    if found then s[k := x] else s[..k] + [x] + s[k..]
  }

  function CutAt<T>(s: seq<T>, k: nat, found: bool): seq<T>
    requires k <= |s| && (found ==> k < |s|)
  {
    if found then s[..k] + s[k + 1..] else s
  }

  lemma ListsPut(live: map<Id, OrderRecord>, tree: seq<OrderRecord>, ids: seq<Id>, k: nat, found: bool, id: Id)
    requires Lists(live, tree, ids) && id in live && k <= |ids| && (found ==> k < |ids|)
    ensures Lists(live, PutAt(tree, k, found, live[id]), PutAt(ids, k, found, id))
  {
  }

  lemma ListsCut(live: map<Id, OrderRecord>, tree: seq<OrderRecord>, ids: seq<Id>, k: nat, found: bool)
    requires Lists(live, tree, ids) && k <= |ids| && (found ==> k < |ids|)
    ensures Lists(live, CutAt(tree, k, found), CutAt(ids, k, found))
  {
  }

  /** order_price_min and order_price_max, on the records as they are now. */
  function ComparePrice(a: OrderRecord, b: OrderRecord, side: Side): int
    reads a, b
  {
    CompareKeys(side, (a.price, Narrow(a.global_id)), (b.price, Narrow(b.global_id)))
  }

  lemma SameComparison(live: map<Id, OrderRecord>, store: Store, side: Side, a: Id, b: Id)
    requires Mirrors(live, store) && a in live && b in live
    ensures ByPrice(store, side)(a, b) == ComparePrice(live[a], live[b], side)
  {
    assert live[a].Is(a, store[a]) && live[b].Is(b, store[b]);
  }

  /** Where a record belongs in a price tree, and whether an equal one is there. */
  method FindByPrice(tree: seq<OrderRecord>, o: OrderRecord, side: Side,
                     ghost live: map<Id, OrderRecord>, ghost store: Store, ghost ids: seq<Id>, ghost id: Id)
      returns (k: nat, found: bool)
    requires Mirrors(live, store) && Lists(live, tree, ids) && id in live && live[id] == o
    ensures k == Rank(ByPrice(store, side), ids, id)
    ensures found == Has(ByPrice(store, side), ids, id)
  {
    ghost var c := ByPrice(store, side);
    k := 0;
    while k < |tree| && ComparePrice(tree[k], o, side) < 0
      invariant 0 <= k <= |tree|
      invariant RankFrom(c, ids, id, k) == Rank(c, ids, id)
    {
      SameComparison(live, store, side, ids[k], id);
      k := k + 1;
    }
    if k < |tree| { SameComparison(live, store, side, ids[k], id); }
    found := k < |tree| && ComparePrice(tree[k], o, side) == 0;
  }

  /** order_orderid against a number: where a trader's order of that number belongs. */
  method FindByNumber(tree: seq<OrderRecord>, number: int,
                      ghost live: map<Id, OrderRecord>, ghost store: Store, ghost ids: seq<Id>, ghost id: Id)
      returns (k: nat, found: bool)
    requires Mirrors(live, store) && Lists(live, tree, ids) && id.local == number
    ensures k == Rank(ByLocal, ids, id)
    ensures found == Has(ByLocal, ids, id)
  {
    k := 0;
    while k < |tree| && Sign(tree[k].local, number) < 0
      invariant 0 <= k <= |tree|
      invariant RankFrom(ByLocal, ids, id, k) == Rank(ByLocal, ids, id)
    {
      assert live[ids[k]].Is(ids[k], store[ids[k]]);
      k := k + 1;
    }
    assert k < |ids| ==> live[ids[k]].Is(ids[k], store[ids[k]]);
    found := k < |tree| && Sign(tree[k].local, number) == 0;
  }
}
