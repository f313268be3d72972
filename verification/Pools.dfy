/** The pool of spare nodes. Whatever can fail is done here, before an insertion
    touches the tree. */
module Pools {
  import opened OrderedSeq
  import opened Trees
  import opened Nodes

  const MAX_SPARE := 32

  /** The allocator's answers, request by request: memory, or none. */
  type Grants = nat -> bool

  /** All of its answers up to one were memory. */
  predicate Granted(grants: Grants, k: nat) {
    forall j: nat :: j < k ==> grants(j)
  }

  /** How often memory is asked for until a group has so many spare nodes: for each node,
      and for room each time there is none left. */
  ghost function Requests(spare: nat, cap: nat, most: nat): nat
    decreases most - spare
  {
    if spare >= most then 0
    else if spare == cap then 2 + Requests(spare + 1, if cap == 0 then 1 else 2 * cap, most)
    else 1 + Requests(spare + 1, cap, most)
  }

  class Pool<T(0)> {
    const max: nat
    var leaves: seq<Node<T>>
    var branches: seq<Node<T>>
    var leafCap: nat
    var branchCap: nat
    ghost var repr: set<object>

    ghost predicate Group(ns: seq<Node<T>>, leaf: bool)
      reads this
    {
      && (forall i :: 0 <= i < |ns| ==>
           ns[i].leaf == leaf && ns[i].Sized(max) && ns[i].Own() <= repr && this !in ns[i].Own())
      && (forall i, j :: 0 <= i < j < |ns| ==> ns[i].Own() !! ns[j].Own())
    }

    ghost predicate Valid()
      reads this
    {
      && this in repr && max >= 4
      && Group(leaves, true) && |leaves| <= leafCap
      && Group(branches, false) && |branches| <= branchCap
      && (forall i, j :: 0 <= i < |leaves| && 0 <= j < |branches| ==> leaves[i].Own() !! branches[j].Own())
    }

    constructor (max: nat)
      requires max >= 4
      ensures Valid() && this.max == max && fresh(repr) && leaves == [] && branches == []
      ensures leafCap == 0 && branchCap == 0
    {
      this.max := max;
      leaves, branches, leafCap, branchCap := [], [], 0, 0;
      repr := {this};
    }

    /** The last spare leaf. The caller's precondition is that the panic for an
        empty pool is never reached. */
    method GimmeLeaf() returns (n: Node<T>)
      requires Valid() && leaves != []
      modifies this
      ensures Valid() && n.leaf && n.Sized(max)
      ensures old(leaves) == leaves + [n] && branches == old(branches)
      ensures n.Own() <= old(repr) && repr == old(repr) - n.Own()
    {
      n := leaves[|leaves| - 1];
      leaves := leaves[..|leaves| - 1];
      repr := repr - n.Own();
    }

    method GimmeBranch() returns (n: Node<T>)
      requires Valid() && branches != []
      modifies this
      ensures Valid() && !n.leaf && n.Sized(max)
      ensures old(branches) == branches + [n] && leaves == old(leaves)
      ensures n.Own() <= old(repr) && repr == old(repr) - n.Own()
    {
      n := branches[|branches| - 1];
      branches := branches[..|branches| - 1];
      repr := repr - n.Own();
    }

    /** Room for twice as many, if it is granted. */
    method GrowLeaves(granted: bool)
      requires Valid()
      modifies this`leafCap
      ensures Valid()
      ensures leafCap == if !granted then old(leafCap) else if old(leafCap) == 0 then 1 else 2 * old(leafCap)
    {
      if granted { leafCap := if leafCap == 0 then 1 else leafCap * 2; }
    }

    method GrowBranches(granted: bool)
      requires Valid()
      modifies this`branchCap
      ensures Valid()
      ensures branchCap == if !granted then old(branchCap) else if old(branchCap) == 0 then 1 else 2 * old(branchCap)
    {
      if granted { branchCap := if branchCap == 0 then 1 else branchCap * 2; }
    }

    /** A group takes no more: it has 32 spare nodes, or room for no more and none is granted. */
    static predicate Closed(count: nat, cap: nat, granted: bool) {
      count == 32 || (count == cap && !granted)
    }

    /** Keep a node no longer used, if its group takes it. */
    method Takeaway(n: Node<T>, granted: bool)
      requires Valid() && n.Sized(max) && n.Own() !! repr
      modifies this
      ensures Valid() && repr == old(repr) + n.Own()
      ensures if n.leaf then branches == old(branches) else leaves == old(leaves)
      ensures n.leaf ==>
        leaves == old(if Closed(|leaves|, leafCap, granted) then leaves else leaves + [n])
      ensures !n.leaf ==>
        branches == old(if Closed(|branches|, branchCap, granted) then branches else branches + [n])
    {
      repr := repr + n.Own();
      if n.leaf {
        if |leaves| == MAX_SPARE { return; }
        if |leaves| == leafCap {
          GrowLeaves(granted);
          if !granted { return; }
        }
        leaves := leaves + [n];
      } else {
        if |branches| == MAX_SPARE { return; }
        if |branches| == branchCap {
          GrowBranches(granted);
          if !granted { return; }
        }
        branches := branches + [n];
      }
    }

    method NewLeaf()
      requires Valid() && |leaves| < leafCap
      modifies this
      ensures Valid() && fresh(repr - old(repr)) && old(repr) <= repr
      ensures branches == old(branches) && leafCap == old(leafCap) && branchCap == old(branchCap)
      ensures old(leaves) <= leaves && |leaves| == |old(leaves)| + 1
    {
      var n := new Node<T>(max, true);
      leaves := leaves + [n];
      repr := repr + n.Own();
    }

    method NewBranch()
      requires Valid() && |branches| < branchCap
      modifies this
      ensures Valid() && fresh(repr - old(repr)) && old(repr) <= repr
      ensures leaves == old(leaves) && branchCap == old(branchCap)
      ensures old(branches) <= branches && |branches| == |old(branches)| + 1
    {
      var n := new Node<T>(max, false);
      branches := branches + [n];
      repr := repr + n.Own();
    }

    method FillLeaves(grants: Grants) returns (ok: bool, k: nat)
      requires Valid()
      modifies this
      ensures Valid() && fresh(repr - old(repr)) && old(repr) <= repr
      ensures old(leaves) <= leaves && branches == old(branches)
      ensures ok ==> |leaves| == if old(leaves) == [] then 1 else |old(leaves)|
      ensures ok ==> k == Requests(|old(leaves)|, old(leafCap), 1)
      ensures branchCap == old(branchCap)
      ensures ok <==> Granted(grants, k)
    {
      ok, k := true, 0;
      if |leaves| == 0 {
        if leafCap == 0 {
          ok, k := grants(0), 1;
          GrowLeaves(ok);
          if !ok { return; }
        }
        ok, k := grants(k), k + 1;
        if !ok { return; }
        NewLeaf();
      }
    }

    /** One spare leaf and one spare branch per level, or failure with no node lost: exactly
        if memory was granted each time it was asked for. */
    method Fill(height: nat, grants: Grants) returns (ok: bool, k: nat)
      requires Valid()
      modifies this
      ensures Valid() && fresh(repr - old(repr)) && old(repr) <= repr
      ensures old(leaves) <= leaves && old(branches) <= branches
      ensures ok ==> |leaves| == if old(leaves) == [] then 1 else |old(leaves)|
      ensures ok ==> |branches| == if |old(branches)| < height then height else |old(branches)|
      ensures ok ==>
        k == Requests(|old(leaves)|, old(leafCap), 1) + Requests(|old(branches)|, old(branchCap), height)
      ensures ok <==> Granted(grants, k)
    {
      ok, k := FillLeaves(grants);
      if !ok { return; }
      ghost var total := k + Requests(|branches|, branchCap, height);
      while |branches| < height
        invariant Valid() && ok && Granted(grants, k) && |leaves| == if old(leaves) == [] then 1 else |old(leaves)|
        invariant old(leaves) <= leaves && old(branches) <= branches
        invariant |branches| <= if |old(branches)| < height then height else |old(branches)|
        invariant k + Requests(|branches|, branchCap, height) == total
        invariant fresh(repr - old(repr)) && old(repr) <= repr
        decreases height - |branches|
      {
        if |branches| == branchCap {
          ok, k := grants(k), k + 1;
          GrowBranches(ok);
          if !ok { return; }
        }
        ok, k := grants(k), k + 1;
        if !ok { return; }
        NewBranch();
      }
    }
  }
}
