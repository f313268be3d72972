/** The tree itself: a root, a count, a height, a pool of spare nodes, and the place
    of the last bulk load. Its contract is a sorted sequence. */
module BTrees {
  import opened OrderedSeq
  import opened Trees
  import opened Nodes
  import opened Pools
  import opened Finding
  import opened Visits
  import TS = TreeSet
  import TD = TreeDelete
  import Setting
  import Deleting
  import Scanning
  import Acting
  import ActingBack
  import opened Loading

  /** The capacity a requested one is rounded and clamped to. */
  function Capacity(requested: nat): (m: nat)
    ensures Permitted(m)
    ensures Permitted(requested) ==> m == requested
  {
    if requested == 0 then 256
    else
      var even := if requested % 2 == 1 then requested - 1 else requested;
      if even < 4 then 4 else if even > 4096 then 4096 else even
  }

  /** 256 if none is asked for; otherwise the even number at or below what is, between 4
      and 4096. */
  lemma CapacityOf(requested: nat)
    ensures Capacity(0) == 256
    ensures 0 < requested < 4 ==> Capacity(requested) == 4
    ensures requested > 4096 ==> Capacity(requested) == 4096
    ensures 4 <= requested <= 4096 ==> Capacity(requested) <= requested <= Capacity(requested) + 1
    ensures Capacity(requested) % 2 == 0
  {
  }

  class BTree<T(!new,0)> {
    const cmp: (T, T) -> int
    const max_items: nat
    const pool: Pool<T>
    var root: Node?<T>
    var count: nat
    var height: nat
    var oom: bool
    var lnode: Node?<T>   // the rightmost leaf, as the last bulk load left it
    var litem: nat        // the slot in it that load compares with
    ghost var repr: set<object>

    ghost function Tree(): Option<Tree<T>>
      reads `root, root
    {
      if root == null then None else Some(root.model)
    }

    /** What the tree stands for. */
    ghost function Items(): seq<T>
      reads `root, root
    {
      Contents(Tree())
    }

    /** The nodes of the tree and the spare ones, each in its place. */
    ghost predicate Held()
      reads `root, `height, `repr, repr - {this}
    {
      && IsOrder(cmp) && Permitted(max_items) && pool.max == max_items
      && this in repr && pool in repr && pool.repr <= repr && this !in pool.repr && pool.Valid()
      && (root != null ==>
           && root in repr && root.repr <= repr && this !in root.repr && root.repr !! pool.repr
           && root.Valid(max_items))
      && Sound(Tree(), height, max_items)
    }

    /** Everything but the order of the items. */
    ghost predicate Valid()
      reads this, repr
    {
      && Held() && count == |Items()|
      && (lnode != null ==>
           root != null && lnode == Rightmost(root, height, max_items) && litem < lnode.num_items)
    }

    ghost predicate Sorted()
      reads `root, root
    {
      Strict(cmp, Items())
    }

    constructor (requested: nat, cmp: (T, T) -> int)
      requires IsOrder(cmp)
      ensures Valid() && Sorted() && fresh(repr)
      ensures Items() == [] && lnode == null && !oom && this.cmp == cmp && max_items == Capacity(requested)
    {
      this.cmp := cmp;
      max_items := Capacity(requested);
      var p := new Pool<T>(Capacity(requested));
      pool := p;
      root, lnode, litem := null, null, 0;
      count, height, oom := 0, 0, false;
      repr := {this} + p.repr;
    }

    /** Hang a tree of n items and height h under this object. */
    method Install(node: Node?<T>, h: nat, n: nat)
      requires IsOrder(cmp) && Permitted(max_items) && pool.max == max_items && lnode == null
      requires pool.Valid() && this !in pool.repr && pool in pool.repr
      requires node != null ==> node.Valid(max_items) && node.repr !! pool.repr && this !in node.repr
      requires var t := if node == null then None else Some(node.model);
        Sound(t, h, max_items) && n == |Contents(t)|
      modifies this
      ensures Valid() && Tree() == (if node == null then None else Some(node.model)) && height == h
      ensures repr == {this} + pool.repr + (if node == null then {} else node.repr)
      ensures lnode == null && oom == old(oom)
    {
      root, height, count := node, h, n;
      repr := {this} + pool.repr;
      if node != null { repr := repr + node.repr; }
    }

    // ---------- insert or replace ----------

    /** The tree is the one an insertion in a split mode made of another. */
    ghost predicate Came(was: Option<Tree<T>>, h: nat, item: T, lean: bool)
      requires Permitted(max_items) && Sound(was, h, max_items)
      reads this, root
    {
      var (t, h', _) := TS.SetRoot(cmp, was, item, h, max_items, lean);
      Tree() == Some(t) && height == h'
    }

    method SetFirst(item: T)
      requires Valid() && root == null && pool.leaves != [] && lnode == null
      modifies repr
      ensures Tree() == Some(Leaf([item])) && height == 1
      ensures Valid() && Items() == [item] && fresh(repr - old(repr)) && oom == old(oom) && lnode == null
    {
      var node := Setting.FirstRoot(pool, item);
      Install(node, height + 1, count + 1);
    }

    method SetBelow(item: T, lean: bool, hint: Hint) returns (prev: Option<T>, hint': Hint)
      requires Valid() && Sorted() && root != null && lnode == null && HintOk(hint)
      requires |pool.leaves| >= 1 && |pool.branches| >= height
      modifies repr
      ensures Valid() && fresh(repr - old(repr)) && oom == old(oom) && lnode == null
      ensures Items() == Put(cmp, old(Items()), item) && prev == Lookup(cmp, old(Items()), item)
      ensures Came(old(Tree()), old(height), item, lean)
      ensures HintOk(hint') && hint'.Some? == hint.Some?
    {
      var node, h';
      node, h', prev, hint' := Setting.SetInTree(cmp, pool, root, item, lean, hint, height);
      Install(node, h', if prev == None then count + 1 else count);
    }

    /** Enough spare nodes for an insertion, or none of it has happened. */
    method Prepare(grants: Grants)
      requires Valid()
      modifies `repr, `lnode, `oom, pool
      ensures Valid() && fresh(repr - old(repr)) && Items() == old(Items()) && Tree() == old(Tree())
      ensures height == old(height) && lnode == null
      ensures if oom then exists k: nat :: !grants(k) else |pool.leaves| >= 1 && |pool.branches| >= height
    {
      lnode := null;
      var ok, k := pool.Fill(height, grants);
      oom := !ok;
      repr := repr + pool.repr;
    }

    /** Insert or replace. If memory runs out, which it does not if all of it is granted,
        nothing has happened to the tree. */
    method SetX(item: T, lean: bool, hint: Hint, grants: Grants) returns (prev: Option<T>, hint': Hint)
      requires Valid() && Sorted() && HintOk(hint)
      modifies repr
      ensures oom ==> exists k: nat :: !grants(k)
      ensures Valid() && Sorted() && fresh(repr - old(repr)) && lnode == null
      ensures oom ==> Tree() == old(Tree()) && Items() == old(Items()) && prev == None
      ensures !oom ==> Items() == Put(cmp, old(Items()), item) && prev == Lookup(cmp, old(Items()), item)
      ensures !oom ==> Came(old(Tree()), old(height), item, lean)
      ensures HintOk(hint') && hint'.Some? == hint.Some?
    {
      prev, hint' := None, hint;
      PutStrict(cmp, Items(), item);
      Prepare(grants);
      if !oom {
        prev, hint' := SetPrepared(item, lean, hint);
      }
    }

    /** Insert or replace, with enough spare nodes. */
    method SetPrepared(item: T, lean: bool, hint: Hint) returns (prev: Option<T>, hint': Hint)
      requires Valid() && Sorted() && lnode == null && HintOk(hint)
      requires |pool.leaves| >= 1 && |pool.branches| >= height
      modifies repr
      ensures Valid() && fresh(repr - old(repr)) && oom == old(oom) && lnode == null
      ensures Items() == Put(cmp, old(Items()), item) && prev == Lookup(cmp, old(Items()), item)
      ensures Came(old(Tree()), old(height), item, lean)
      ensures HintOk(hint') && hint'.Some? == hint.Some?
    {
      prev, hint' := None, hint;
      if root == null {
        SetFirst(item);
      } else {
        prev, hint' := SetBelow(item, lean, hint);
      }
    }

    // ---------- remove ----------

    /** The tree is the one a removal left of another. */
    ghost predicate Left(was: Option<Tree<T>>, h: nat, act: TD.Action<T>)
      requires Permitted(max_items) && Sound(was, h, max_items)
      reads this, root
    {
      var (t, h', _) := TD.DeleteRoot(cmp, was, act, h, max_items);
      Tree() == t && height == h'
    }

    /** Remove by key, or the first or last item, and hand over what was removed. */
    method DeleteX(act: TD.Action<T>, hint: Hint) returns (prev: Option<T>, hint': Hint)
      requires Valid() && Sorted() && HintOk(hint)
      modifies repr
      ensures Valid() && Sorted() && fresh(repr - old(repr)) && lnode == null && oom == old(oom)
      ensures (Items(), prev) == TD.Removed(cmp, old(Items()), act) && Left(old(Tree()), old(height), act)
      ensures HintOk(hint') && hint'.Some? == hint.Some?
    {
      lnode, prev, hint' := null, None, hint;
      if root != null {
        prev, hint' := DeleteBelow(act, hint);
      } else {
        TD.RemovedFromNothing(cmp, act);
      }
    }

    method DeleteBelow(act: TD.Action<T>, hint: Hint) returns (prev: Option<T>, hint': Hint)
      requires Valid() && Sorted() && root != null && lnode == null && HintOk(hint)
      modifies repr
      ensures Valid() && Sorted() && fresh(repr - old(repr)) && lnode == null && oom == old(oom)
      ensures (Items(), prev) == TD.Removed(cmp, old(Items()), act) && Left(old(Tree()), old(height), act)
      ensures HintOk(hint') && hint'.Some? == hint.Some?
    {
      var node, h';
      assert this !in root.repr + pool.repr && pool in pool.repr;
      node, h', prev, hint' := Deleting.DeleteInTree(cmp, pool, root, act, hint, height);
      Install(node, h', if prev == None then count else count - 1);
    }

    // ---------- look ----------

    /** The item equivalent to the key. The tree is untouched and the hint cannot change the answer. */
    method Get(key: T, hint: Hint) returns (item: Option<T>, hint': Hint)
      requires Valid() && Sorted() && HintOk(hint)
      ensures item == Lookup(cmp, Items(), key)
      ensures HintOk(hint') && hint'.Some? == hint.Some?
    {
      if root == null { return None, hint; }
      item, hint' := Scanning.Get(cmp, root, key, hint, height, max_items);
    }

    method Min() returns (item: Option<T>)
      requires Valid()
      ensures item == if Items() == [] then None else Some(Items()[0])
    {
      if root == null { return None; }
      var x := Scanning.First(root, height, max_items);
      item := Some(x);
    }

    method Max() returns (item: Option<T>)
      requires Valid()
      ensures item == if Items() == [] then None else Some(Items()[|Items()| - 1])
    {
      if root == null { return None; }
      var x := Scanning.Last(root, height, max_items);
      item := Some(x);
    }

    /** Show the items not below the pivot in ascending order, until the callback refuses. */
    method Ascend(pivot: Option<T>, iter: Callback<T>, hint: Hint) returns (log: seq<T>, ok: bool, hint': Hint)
      requires Valid() && Sorted() && HintOk(hint)
      ensures (log, ok) == Visit(iter, Items(), Acting.Start(cmp, Items(), pivot), [])
      ensures HintOk(hint') && hint'.Some? == hint.Some?
    {
      log, ok, hint' := [], true, hint;
      if root != null {
        if pivot == None {
          log, ok := Scanning.NodeScan(root, iter, [], height, max_items);
        } else {
          log, ok, hint' := Scanning.NodeAscend(cmp, root, pivot.value, iter, [], hint, 0, height, max_items);
        }
      }
    }

    /** Show the items not above the pivot in descending order, until the callback refuses. */
    method Descend(pivot: Option<T>, iter: Callback<T>, hint: Hint) returns (log: seq<T>, ok: bool, hint': Hint)
      requires Valid() && Sorted() && HintOk(hint)
      ensures var upTo := if pivot == None then |Items()| else Scanning.RankAbove(cmp, Items(), pivot.value);
        (log, ok) == Visit(iter, Reverse(Items()[..upTo]), 0, [])
      ensures HintOk(hint') && hint'.Some? == hint.Some?
    {
      log, ok, hint' := [], true, hint;
      if root != null {
        if pivot == None {
          assert Items()[..|Items()|] == Items();
          log, ok := Scanning.NodeReverse(root, iter, [], height, max_items);
        } else {
          log, ok, hint' := Scanning.NodeDescend(cmp, root, pivot.value, iter, [], hint, 0, height, max_items);
        }
      }
    }

    // ---------- iterate and edit ----------

    /** One pass from the pivot on, up to its end, a stop, or a slow removal still to do. */
    method ActPass(pivot: Option<T>, iter: Editor<T>, log: seq<T>, hint: Hint)
      returns (code: Acting.Code<T>, log': seq<T>, ghost q: nat, hint': Hint)
      requires Valid() && Sorted() && root != null && lnode == null && HintOk(hint) && KeepsKeys(cmp, iter)
      modifies repr
      ensures Valid() && Sorted() && fresh(repr - old(repr)) && lnode == null && |Items()| <= |old(Items())|
      ensures Acting.Progress(cmp, iter, Acting.Up, old(Items()), Acting.Start(cmp, old(Items()), pivot), log,
                              Items(), code, log', q)
      ensures code == Acting.Through ==> q == |Items()|
      ensures HintOk(hint') && hint'.Some? == hint.Some?
    {
      Gap(max_items);
      ghost var f := Items();
      var removed;
      code, log', removed, q, hint' := Acting.NodeAct(cmp, root, pivot, iter, log, hint, 0, height, max_items);
      Acting.PassEnds(cmp, iter, f, pivot, log, Flat(root.model), code, log', q);
      Install(root, height, count - removed);
    }

    /** One pass, and the slow removal it may have ended at. */
    method ActRound(pivot: Option<T>, iter: Editor<T>, log: seq<T>, hint: Hint)
      returns (again: bool, pivot': Option<T>, log': seq<T>, stopped: bool, hint': Hint)
      requires Valid() && Sorted() && root != null && lnode == null && HintOk(hint) && KeepsKeys(cmp, iter)
      modifies repr
      ensures Valid() && Sorted() && fresh(repr - old(repr)) && lnode == null && HintOk(hint')
      ensures var end := Walk(iter, old(Items()), Acting.Start(cmp, old(Items()), pivot), log);
        if again then
          && !stopped && |Items()| < |old(Items())|
          && end == Walk(iter, Items(), Acting.Start(cmp, Items(), pivot'), log')
        else end == (Items(), log', stopped)
    {
      ghost var f, q := Items(), 0;
      var code;
      code, log', q, hint' := ActPass(pivot, iter, log, hint);
      if code.Slow? {
        Acting.PassResumes(cmp, iter, f, pivot, log, Items(), code.item, log', q);
        var prev, unhinted := DeleteX(TD.DelKey(code.item), None);
        again, pivot', stopped := true, Some(code.item), false;
      } else {
        Acting.PassEnds(cmp, iter, f, pivot, log, Items(), code, log', q);
        again, pivot', stopped := false, pivot, code == Acting.Stopped;
      }
    }

    /** Show the items not below the pivot in ascending order, each once, and edit the
        tree as the answers say. Every slow removal rebalances and restarts the pass. */
    method ActAscend(pivot: Option<T>, iter: Editor<T>, hint: Hint) returns (log: seq<T>, stopped: bool)
      requires Valid() && Sorted() && HintOk(hint) && KeepsKeys(cmp, iter)
      modifies repr
      ensures Valid() && Sorted() && fresh(repr - old(repr)) && lnode == null
      ensures (Items(), log, stopped) == Walk(iter, old(Items()), Acting.Start(cmp, old(Items()), pivot), [])
    {
      lnode, log, stopped := null, [], false;
      var from, h, again := pivot, hint, true;
      ghost var end := Walk(iter, Items(), Acting.Start(cmp, Items(), pivot), []);
      while root != null && again
        invariant Valid() && Sorted() && fresh(repr - old(repr)) && lnode == null && HintOk(h)
        invariant again ==> !stopped && end == Walk(iter, Items(), Acting.Start(cmp, Items(), from), log)
        invariant !again ==> end == (Items(), log, stopped)
        decreases again, |Items()|
      {
        again, from, log, stopped, h := ActRound(from, iter, log, h);
      }
    }

    /** One downward pass from the pivot on, up to its end, a stop, or a slow removal still to do. */
    method ActPassBack(pivot: Option<T>, iter: Editor<T>, log: seq<T>, hint: Hint)
      returns (code: Acting.Code<T>, log': seq<T>, ghost q: nat, hint': Hint)
      requires Valid() && Sorted() && root != null && lnode == null && HintOk(hint) && KeepsKeys(cmp, iter)
      modifies repr
      ensures Valid() && Sorted() && fresh(repr - old(repr)) && lnode == null && |Items()| <= |old(Items())|
      ensures Acting.Progress(cmp, iter, Acting.Down, old(Items()), ActingBack.StartBack(cmp, old(Items()), pivot), log,
                              Items(), code, log', q)
      ensures code == Acting.Through ==> q == 0
      ensures HintOk(hint') && hint'.Some? == hint.Some?
    {
      Gap(max_items);
      ghost var f := Items();
      var removed;
      code, log', removed, q, hint' := ActingBack.NodeActBack(cmp, root, pivot, iter, log, hint, 0, height, max_items);
      ActingBack.PassEndsBack(cmp, iter, f, pivot, log, Flat(root.model), code, log', q);
      Install(root, height, count - removed);
    }

    /** One downward pass, and the slow removal it may have ended at. */
    method ActRoundBack(pivot: Option<T>, iter: Editor<T>, log: seq<T>, hint: Hint)
      returns (again: bool, pivot': Option<T>, log': seq<T>, stopped: bool, hint': Hint)
      requires Valid() && Sorted() && root != null && lnode == null && HintOk(hint) && KeepsKeys(cmp, iter)
      modifies repr
      ensures Valid() && Sorted() && fresh(repr - old(repr)) && lnode == null && HintOk(hint')
      ensures var end := WalkBack(iter, old(Items()), ActingBack.StartBack(cmp, old(Items()), pivot), log);
        if again then
          && !stopped && |Items()| < |old(Items())|
          && end == WalkBack(iter, Items(), ActingBack.StartBack(cmp, Items(), pivot'), log')
        else end == (Items(), log', stopped)
    {
      ghost var f, q := Items(), 0;
      var code;
      code, log', q, hint' := ActPassBack(pivot, iter, log, hint);
      if code.Slow? {
        ActingBack.PassResumesBack(cmp, iter, f, pivot, log, Items(), code.item, log', q);
        var prev, unhinted := DeleteX(TD.DelKey(code.item), None);
        again, pivot', stopped := true, Some(code.item), false;
      } else {
        ActingBack.PassEndsBack(cmp, iter, f, pivot, log, Items(), code, log', q);
        again, pivot', stopped := false, pivot, code == Acting.Stopped;
      }
    }

    /** Show the items not above the pivot in descending order, each once, and edit the
        tree as the answers say. Every slow removal rebalances and restarts the pass. */
    method ActDescend(pivot: Option<T>, iter: Editor<T>, hint: Hint) returns (log: seq<T>, stopped: bool)
      requires Valid() && Sorted() && HintOk(hint) && KeepsKeys(cmp, iter)
      modifies repr
      ensures Valid() && Sorted() && fresh(repr - old(repr)) && lnode == null
      ensures (Items(), log, stopped) == WalkBack(iter, old(Items()), ActingBack.StartBack(cmp, old(Items()), pivot),
               [])
    {
      lnode, log, stopped := null, [], false;
      var from, h, again := pivot, hint, true;
      ghost var end := WalkBack(iter, Items(), ActingBack.StartBack(cmp, Items(), pivot), []);
      while root != null && again
        invariant Valid() && Sorted() && fresh(repr - old(repr)) && lnode == null && HintOk(h)
        invariant again ==> !stopped && end == WalkBack(iter, Items(), ActingBack.StartBack(cmp, Items(), from), log)
        invariant !again ==> end == (Items(), log, stopped)
        decreases again, |Items()|
      {
        again, from, log, stopped, h := ActRoundBack(from, iter, log, h);
      }
    }

    // ---------- bulk load ----------

    /** Append to the remembered leaf. */
    method AppendFast(item: T)
      requires Valid() && lnode != null && lnode.num_items < max_items - 2
      modifies repr
      ensures Valid() && fresh(repr - old(repr)) && !oom
      ensures Items() == old(Items()) + [item] && old(Items()) != []
      ensures Mark() == old(Mark())
    {
      AppendLeaf(item);
      count := count + 1;
      oom := false;
    }

    /** The same without the count. */
    method AppendLeaf(item: T)
      requires Valid() && lnode != null && lnode.num_items < max_items - 2
      modifies root.repr
      ensures Held() && Items() == old(Items()) + [item] && old(Items()) != []
      ensures lnode == Rightmost(root, height, max_items) && litem < lnode.num_items
      ensures lnode.items[litem] == old(lnode.items[litem])
    {
      PushSound(root.model, item, height, max_items);
      Append(root, lnode, item, litem, height, max_items);
    }

    /** Append to the remembered leaf without a search, right or wrong. */
    method LoadFast(item: T)
      requires Valid() && Sorted() && lnode != null && lnode.num_items < max_items - 2
      modifies repr
      ensures old(Items()) != []
      ensures Sorted() <==> cmp(item, old(Items())[|old(Items())| - 1]) > 0
      ensures Items() == Put(cmp, old(Items()), item) <==> cmp(item, old(Items())[|old(Items())| - 1]) > 0
      ensures Valid() && fresh(repr - old(repr)) && !oom
      ensures Items() == old(Items()) + [item]
      ensures Mark() == old(Mark())
    {
      LastLeafFits(root.model, height, max_items);
      AppendIsPut(cmp, Items(), item);
      AppendFast(item);
    }

    /** Remember the rightmost leaf and its last slot. */
    method Remember()
      requires Valid() && root != null && lnode == null
      modifies this`lnode, this`litem
      ensures Valid() && Items() == old(Items()) && Items() != [] && height == old(height) && Tree() == old(Tree())
      ensures Mark() == Some(Items()[|Items()| - 1])
    {
      var leaf := LastLeaf();
      Note(leaf, leaf.num_items - 1);
    }

    method RememberUnless(replaced: bool)
      requires Valid() && lnode == null
      modifies this`lnode, this`litem
      ensures Valid() && Items() == old(Items()) && height == old(height) && Tree() == old(Tree())
      ensures Mark() == if replaced || Items() == [] then None else Some(Items()[|Items()| - 1])
    {
      if !replaced && root != null {
        Remember();
      }
    }

    method Note(leaf: Node<T>, slot: nat)
      requires Valid() && root != null && leaf == Rightmost(root, height, max_items) && slot < leaf.num_items
      modifies this`lnode, this`litem
      ensures Valid() && Items() == old(Items()) && lnode == leaf && litem == slot
    {
      lnode, litem := leaf, slot;
      assert Held();
    }

    method LastLeaf() returns (leaf: Node<T>)
      requires Valid() && root != null
      ensures leaf == Rightmost(root, height, max_items) && 1 <= leaf.num_items && Items() != []
      ensures leaf.items[leaf.num_items - 1] == Items()[|Items()| - 1]
    {
      leaf := FindRightmost(root, height, max_items);
      RightmostLast(root, height, max_items);
    }

    /** The item load compares with: the last one of the latest slow load. */
    ghost function Mark(): Option<T>
      requires Valid()
      reads this, repr
    {
      if lnode == null then None else Some(lnode.items[litem])
    }

    /** The guard of the fast path. It does not look at the last item of the tree. */
    ghost predicate Fast(item: T)
      requires Valid()
      reads this, repr
    {
      lnode != null && lnode.num_items < max_items - 2 && cmp(item, Mark().value) > 0
    }

    lemma RoomWhileSmall(item: T)
      requires Valid() && Mark().Some? && |Items()| < max_items - 2 && cmp(item, Mark().value) > 0
      ensures Fast(item)
    {
      LastLeafFits(root.model, height, max_items);
    }

    /** Set in the leaning mode, and remember the end of the tree if nothing was replaced. */
    method LoadSlow(item: T, grants: Grants) returns (prev: Option<T>)
      requires Valid() && Sorted()
      modifies repr
      ensures Valid() && Sorted() && fresh(repr - old(repr))
      ensures oom ==> (exists k: nat :: !grants(k)) && Items() == old(Items()) && prev == None
      ensures !oom ==> Items() == Put(cmp, old(Items()), item) && prev == Lookup(cmp, old(Items()), item)
      ensures !oom ==> Items() != [] && Came(old(Tree()), old(height), item, true)
      ensures Mark() == if prev.Some? || Items() == [] then None else Some(Items()[|Items()| - 1])
    {
      var unhinted;
      prev, unhinted := SetX(item, true, None, grants);
      RememberUnless(prev.Some?);
    }

    /** Load agrees with set, except on the fast path with an item that is not above
        everything present: then the contents are no longer sorted. */
    method Load(item: T, grants: Grants) returns (prev: Option<T>)
      requires Valid() && Sorted()
      modifies repr
      ensures oom ==> exists k: nat :: !grants(k)
      ensures Valid() && fresh(repr - old(repr))
      ensures oom ==> !old(Fast(item)) && Items() == old(Items()) && prev == None
      ensures old(Fast(item)) ==> old(Items()) != []
      ensures !oom && !old(Fast(item)) ==>
        Items() == Put(cmp, old(Items()), item) && prev == Lookup(cmp, old(Items()), item)
      ensures !oom && !old(Fast(item)) ==> Came(old(Tree()), old(height), item, true)
      ensures old(Fast(item)) ==>
        Items() == old(Items()) + [item] && prev == None && !oom && Mark() == old(Mark())
      ensures Sorted() <==> !old(Fast(item)) || cmp(item, old(Items())[|old(Items())| - 1]) > 0
      ensures !Sorted() ==> Items() != Put(cmp, old(Items()), item)
      ensures !oom ==> Items() != []
      ensures !old(Fast(item)) ==>
        Mark() == if prev.Some? || Items() == [] then None else Some(Items()[|Items()| - 1])
    {
      if lnode != null && lnode.num_items < max_items - 2 && cmp(item, lnode.items[litem]) > 0 {
        LoadFast(item);
        return None;
      }
      prev := LoadSlow(item, grants);
    }
  }

  function Compare(a: int, b: int): int {
    a - b
  }

  lemma CompareOrders()
    ensures IsOrder<int>(Compare)
  {
    forall x, y, z: int ensures Laws(Compare, x, y, z) { }
  }

  lemma PutFirst<T>(cmp: (T, T) -> int, x: T)
    ensures Put(cmp, [], x) == [x]
  {
  }

  /** All the memory asked for. */
  function Plenty(k: nat): bool {
    true
  }

  method LoadOne(t: BTree<int>)
    requires t.Valid() && t.Sorted() && t.cmp == Compare && t.Items() == [] && t.lnode == null
    modifies t.repr
    ensures t.Valid() && t.Sorted() && fresh(t.repr - old(t.repr)) && !t.oom
    ensures t.Items() == [1] && t.Mark() == Some(1)
  {
    PutFirst(t.cmp, 1);
    var prev := t.Load(1, Plenty);
  }

  /** Loading 1 once more replaces it, and nothing is remembered then. */
  method LoadAgain(t: BTree<int>)
    requires t.Valid() && t.Sorted() && t.cmp == Compare && t.Items() == [1]
    requires t.Mark() == Some(1)
    modifies t.repr
    ensures t.Valid() && t.Sorted() && fresh(t.repr - old(t.repr)) && !t.oom
    ensures t.Items() == [1] && t.Mark() == None
  {
    RankAt(t.cmp, [1], 1, 0);
    var prev := t.Load(1, Plenty);
  }

  lemma PlaceOf(s: seq<int>, item: int, r: nat)
    requires r <= |s| && (forall i :: 0 <= i < r ==> s[i] < item) && (r < |s| ==> item < s[r])
    ensures Put(Compare, s, item) == s[..r] + [item] + s[r..] && Lookup(Compare, s, item) == None
  {
    RankAt(Compare, s, item, r);
  }

  /** Off the fast path an item is put in its place. */
  method LoadInPlace(t: BTree<int>, item: int, ghost s: seq<int>, ghost r: nat, ghost s': seq<int>)
    requires t.Valid() && t.Sorted() && t.cmp == Compare && t.Items() == s && !t.Fast(item)
    requires r <= |s| && s' == s[..r] + [item] + s[r..]
    requires (forall i :: 0 <= i < r ==> s[i] < item) && (r < |s| ==> item < s[r])
    modifies t.repr
    ensures t.Valid() && t.Sorted() && fresh(t.repr - old(t.repr))
    ensures t.Items() == s' && t.Mark() == Some(s'[|s|])
  {
    PlaceOf(s, item, r);
    var prev := t.Load(item, Plenty);
  }

  method LoadFiveThree(t: BTree<int>)
    requires t.Valid() && t.Sorted() && t.cmp == Compare && t.Items() == [1] && t.Mark() == None
    modifies t.repr
    ensures t.Valid() && t.Sorted() && t.Items() == [1, 3, 5]
  {
    LoadInPlace(t, 5, [1], 1, [1, 5]);
    LoadThree(t);
  }

  method LoadThree(t: BTree<int>)
    requires t.Valid() && t.Sorted() && t.cmp == Compare && t.Items() == [1, 5] && t.Mark() == Some(5)
    modifies t.repr
    ensures t.Valid() && t.Sorted() && t.Items() == [1, 3, 5]
  {
    LoadInPlace(t, 3, [1, 5], 1, [1, 3, 5]);
  }

  /** Loading 1, 1, 5 and 3 into an empty tree: both 5 and 3 are put where they belong. */
  method LoadTwice() returns (t: BTree<int>)
    ensures t.Valid() && t.Sorted() && t.Items() == [1, 3, 5]
  {
    CompareOrders();
    t := new BTree<int>(0, Compare);
    LoadOne(t);
    LoadAgain(t);
    LoadFiveThree(t);
  }

  /** Loading 1, 5 and 3 into an empty tree leaves them in that order. */
  method LoadOutOfOrder() returns (t: BTree<int>)
    ensures t.Valid() && t.Items() == [1, 5, 3] && !t.Sorted()
  {
    CompareOrders();
    t := new BTree<int>(0, Compare);
    LoadOne(t);
    LoadTwoMore(t);
  }

  /** A small tree takes any item above the mark on the fast path. */
  method LoadBehind(t: BTree<int>, item: int, ghost s: seq<int>, ghost mark: int)
    requires t.Valid() && t.Sorted() && t.cmp == Compare && t.max_items == 256
    requires t.Items() == s && 0 < |s| < 254 && t.Mark() == Some(mark) && item > mark
    modifies t.repr
    ensures t.Valid() && fresh(t.repr - old(t.repr))
    ensures t.Items() == s + [item] && t.Mark() == Some(mark)
    ensures t.Sorted() <==> item > s[|s| - 1]
  {
    t.RoomWhileSmall(item);
    var prev := t.Load(item, Plenty);
  }

  method LoadTwoMore(t: BTree<int>)
    requires t.Valid() && t.Sorted() && t.cmp == Compare && t.max_items == 256
    requires t.Items() == [1] && t.Mark() == Some(1)
    modifies t.repr
    ensures t.Valid() && t.Items() == [1, 5, 3] && !t.Sorted()
  {
    LoadBehind(t, 5, [1], 1);
    LoadBehind(t, 3, [1, 5], 1);
  }
}
