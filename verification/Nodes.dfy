/** Heap nodes: fixed item and child arrays shifted in place, and the pool of
    spare nodes that makes an insertion independent of the allocator. */
module Nodes {
  import opened OrderedSeq
  import opened Trees

  /** Overlapping copy of n slots within one array. */
  method Move<T>(a: array<T>, dst: nat, src: nat, n: nat)
    requires dst + n <= a.Length && src + n <= a.Length
    modifies a
    ensures a[..dst] == old(a[..dst])
    ensures a[dst..dst + n] == old(a[src..src + n])
    ensures a[dst + n..] == old(a[dst + n..])
  {
    forall k | 0 <= k < n {
      a[dst + k] := a[src + k];
    }
  }

  /** Slots i to n - 1 up by one. */
  method MoveUp<T>(a: array<T>, i: nat, n: nat)
    requires i <= n < a.Length
    modifies a
    ensures a[..n + 1] == old(a[..i + 1]) + old(a[i..n])
  {
    Move(a, i + 1, i, n - i);
    assert a[..n + 1] == a[..i + 1] + a[i + 1..i + 1 + (n - i)];
  }

  /** Slots i + 1 to n, one past the last, down by one. */
  method MoveDown<T>(a: array<T>, i: nat, n: nat)
    requires i < n < a.Length
    modifies a
    ensures a[..n - 1] == old(a[..i]) + old(a[i + 1..n])
  {
    ghost var s := a[..];
    Move(a, i, i + 1, n - i);
    assert a[..n - 1] == a[..i] + a[i..i + (n - i)][..n - 1 - i];
    assert s[i + 1..n] == s[i + 1..i + 1 + (n - i)][..n - 1 - i];
  }

  /** The nodes ks represent the trees ts, on pairwise disjoint parts of the storage s. */
  ghost predicate Brood<T(0)>(ks: seq<Node?<T>>, ts: seq<Tree<T>>, m: nat, s: set<object>)
    reads s
    decreases s, 1
  {
    && |ks| == |ts|
    && (forall i :: 0 <= i < |ks| ==>
         ks[i] != null && ks[i] in s && ks[i].repr <= s && ks[i].Valid(m) && ks[i].model == ts[i])
    && (forall i, j :: 0 <= i < j < |ks| ==> ks[i].repr !! ks[j].repr)
  }

  lemma BroodJoin<T(0)>(ks: seq<Node?<T>>, ts: seq<Tree<T>>, s: set<object>,
                        ks': seq<Node?<T>>, ts': seq<Tree<T>>, s': set<object>, m: nat)
    requires Brood(ks, ts, m, s) && Brood(ks', ts', m, s') && s !! s'
    ensures Brood(ks + ks', ts + ts', m, s + s')
  {
  }

  lemma BroodOne<T(0)>(k: Node<T>, m: nat)
    requires k.Valid(m)
    ensures Brood([k], [k.model], m, k.repr)
  {
  }

  /** The storage of a run of nodes. */
  ghost function Union<T(0)>(ks: seq<Node?<T>>): set<object>
    reads set i | 0 <= i < |ks| && ks[i] != null :: ks[i]
  {
    set i, o | 0 <= i < |ks| && ks[i] != null && o in ks[i].repr :: o
  }

  lemma UnionIn<T(0)>(ks: seq<Node?<T>>, i: nat)
    requires i < |ks| && ks[i] != null
    ensures ks[i].repr <= Union(ks)
  {
  }

  lemma BroodUnion<T(0)>(ks: seq<Node?<T>>, ts: seq<Tree<T>>, m: nat, s: set<object>)
    requires Brood(ks, ts, m, s)
    ensures Brood(ks, ts, m, Union(ks)) && Union(ks) <= s
  {
    forall i | 0 <= i < |ks| ensures ks[i] in Union(ks) && ks[i].repr <= Union(ks) {
      UnionIn(ks, i);
      assert ks[i].Valid(m);
    }
  }

  lemma UnionsApart<T(0)>(ks: seq<Node?<T>>, k: nat)
    requires k <= |ks|
    requires forall i, j :: 0 <= i < j < |ks| && ks[i] != null && ks[j] != null ==> ks[i].repr !! ks[j].repr
    ensures Union(ks[..k]) !! Union(ks[k..])
  {
    forall o | o in Union(ks[..k]) ensures o !in Union(ks[k..]) {
      var i :| 0 <= i < k && ks[i] != null && o in ks[i].repr;
      forall j | 0 <= j < |ks| - k && ks[k..][j] != null ensures o !in ks[k..][j].repr {
        assert ks[k..][j] == ks[k + j];
      }
    }
  }

  lemma BroodSplit<T(0)>(ks: seq<Node?<T>>, ts: seq<Tree<T>>, m: nat, s: set<object>, k: nat)
    returns (a: set<object>, b: set<object>)
    requires Brood(ks, ts, m, s) && k <= |ks|
    ensures a !! b && a + b <= s
    ensures Brood(ks[..k], ts[..k], m, a) && Brood(ks[k..], ts[k..], m, b)
  {
    a, b := Union(ks[..k]), Union(ks[k..]);
    UnionsApart(ks, k);
    BroodUnion(ks[..k], ts[..k], m, s);
    BroodUnion(ks[k..], ts[k..], m, s);
  }

  /** The run of n nodes at position i set apart from the nodes before and after it. */
  lemma BroodMiddle<T(0)>(ks: seq<Node?<T>>, ts: seq<Tree<T>>, m: nat, s: set<object>, i: nat, n: nat)
    returns (a: set<object>, b: set<object>, c: set<object>)
    requires Brood(ks, ts, m, s) && i + n <= |ks|
    ensures a !! b && a !! c && b !! c && a + b + c <= s
    ensures Brood(ks[..i], ts[..i], m, a)
    ensures Brood(ks[i..i + n], ts[i..i + n], m, b)
    ensures Brood(ks[i + n..], ts[i + n..], m, c)
  {
    var bc;
    a, bc := BroodSplit(ks, ts, m, s, i);
    b, c := BroodSplit(ks[i..], ts[i..], m, bc, n);
    assert ks[i..][..n] == ks[i..i + n] && ts[i..][..n] == ts[i..i + n];
    assert ks[i..][n..] == ks[i + n..] && ts[i..][n..] == ts[i + n..];
  }

  lemma BroodThree<T(0)>(k1: seq<Node?<T>>, t1: seq<Tree<T>>, a: set<object>,
                         k2: seq<Node?<T>>, t2: seq<Tree<T>>, b: set<object>,
                         k3: seq<Node?<T>>, t3: seq<Tree<T>>, c: set<object>, m: nat)
    requires Brood(k1, t1, m, a) && Brood(k2, t2, m, b) && Brood(k3, t3, m, c)
    requires a !! b && a !! c && b !! c
    ensures Brood(k1 + k2 + k3, t1 + t2 + t3, m, a + b + c)
  {
    BroodJoin(k1, t1, a, k2, t2, b, m);
    BroodJoin(k1 + k2, t1 + t2, a + b, k3, t3, c, m);
  }

  lemma BroodTwo<T(0)>(k: Node<T>, k': Node<T>, m: nat)
    requires k.Valid(m) && k'.Valid(m) && k.repr !! k'.repr
    ensures Brood([k, k'], [k.model, k'.model], m, k.repr + k'.repr)
  {
  }

  class Node<T(0)> {
    var num_items: nat
    const leaf: bool
    const items: array<T>
    const children: array<Node?<T>>
    ghost var model: Tree<T>
    ghost var repr: set<object>

    /** The node's own storage. */
    ghost function Own(): set<object> {
      {this, items, children}
    }

    ghost predicate Sized(m: nat) {
      && m >= 4 && items.Length == m - 1 && children.Length == (if leaf then 0 else m)
      && items as object != children as object
    }

    /** The arrays represent the value held in model, on storage of this node's own. */
    ghost predicate Valid(m: nat)
      reads this, repr
      decreases repr, 0
    {
      && Own() <= repr && Sized(m) && num_items <= m - 1
      && Counted(model) && model.Leaf? == leaf && model.items == items[..num_items]
      && (!leaf ==> Brood(Kids(), model.kids, m, repr - Own()))
    }

    function Kids(): seq<Node?<T>>
      requires !leaf && num_items < children.Length
      reads this, children
    {
      children[..num_items + 1]
    }

    /** Child i, as a node that is certainly there. */
    function Kid(i: nat, ghost m: nat): (k: Node<T>)
      requires Valid(m) && !leaf && i <= num_items
      reads this, repr
      ensures k.Valid(m) && k in repr && k.repr <= repr - Own() && k.model == model.kids[i]
      ensures k == children[i]
    {
      assert Brood(Kids(), model.kids, m, repr - Own()) && Kids()[i] == children[i];
      children[i]
    }

    constructor (m: nat, leaf: bool)
      requires m >= 4
      ensures Sized(m) && this.leaf == leaf && fresh(Own()) && num_items == 0
    {
      this.leaf := leaf;
      items := new T[m - 1];
      children := new Node?<T>[if leaf then 0 else m](_ => null);
      num_items := 0;
      model := Leaf([]);
      repr := {};
    }

    /** Open a slot at index: items and children from there on move up by one.
        What stands in the opened slots is stale. */
    method ShiftRight(index: nat)
      requires index <= num_items < items.Length && items as object != children as object
      requires !leaf ==> num_items + 2 <= children.Length
      modifies this`num_items, items, children
      ensures num_items == old(num_items) + 1
      ensures items[..num_items] == old(items[..index + 1]) + old(items[index..num_items])
      ensures leaf ==> children[..] == old(children[..])
      ensures !leaf ==> Kids() == old(children[..index + 1]) + old(children[index..num_items + 1])
    {
      var n := num_items;
      MoveUp(items, index, n);
      if !leaf {
        MoveUp(children, index, n + 1);
      }
      num_items := n + 1;
    }

    /** Close the slot at index; a merge closes the child slot after the item.
        One slot past the last is moved along, which a stable node has room for. */
    method ShiftLeft(index: nat, for_merge: bool)
      requires index < num_items < items.Length && items as object != children as object
      requires !leaf ==> num_items + 2 <= children.Length
      modifies this`num_items, items, children
      ensures num_items == old(num_items) - 1
      ensures items[..num_items] == old(items[..index]) + old(items[index + 1..num_items])
      ensures leaf ==> children[..] == old(children[..])
      ensures !leaf ==> var c := if for_merge then index + 1 else index;
        Kids() == old(children[..c]) + old(children[c + 1..num_items + 1])
    {
      var n := num_items;
      MoveDown(items, index, n);
      if !leaf {
        MoveDown(children, if for_merge then index + 1 else index, n + 1);
      }
      num_items := n - 1;
    }
  }
}
