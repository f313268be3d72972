/** Removal with rebalancing on the way back up, on node values. */
module TreeDelete {
  import opened OrderedSeq
  import opened Trees

  /** What to remove: an item by key, the first, the last, or the last item as a
      replacement for the separator above it. */
  datatype Action<T> = DelKey(key: T) | PopFront | PopBack | PopMax

  /** Where the search in one node lands, and whether the item is in this node. */
  function Target<T>(cmp: (T, T) -> int, t: Tree<T>, act: Action<T>): (r: (nat, bool))
    requires |t.items| >= 1
  {
    match act
    case DelKey(x) => (Rank(cmp, t.items, x), Has(cmp, t.items, x))
    case PopFront => (0, t.Leaf?)
    case PopBack => if t.Leaf? then (|t.items| - 1, true) else (|t.items|, false)
    case PopMax => (|t.items| - 1, true)
  }

  /** Siblings are all leaves or all branches. */
  ghost predicate Alike<T>(ks: seq<Tree<T>>) {
    forall j :: 0 <= j < |ks| ==> Counted(ks[j]) && ks[j].Leaf? == ks[0].Leaf?
  }

  /** Mend a short child with its neighbour across item i: fuse the two if they
      fit in one node, otherwise move one item through the separator. */
  ghost function Mend<T>(s: seq<T>, ks: seq<Tree<T>>, i: nat, m: nat): Tree<T>
    requires i < |s| && |ks| == |s| + 1 && Alike(ks)
  {
    var l, r := ks[i], ks[i + 1];
    if |l.items| + |r.items| + 1 < m - 1 then
      Fuse(s, ks, i, Join(l, s[i], r))
    else
      var (l', x, r') := Regrip(l, s[i], r);
      SetPair(s, ks, i, l', x, r')
  }

  /** Restore the fill of child i of a branch, with the right neighbour if there is one. */
  ghost function Rebalance<T>(s: seq<T>, ks: seq<Tree<T>>, i: nat, m: nat): Tree<T>
    requires Permitted(m) && 1 <= |s| && i <= |s| && |ks| == |s| + 1 && Alike(ks)
  {
    if |ks[i].items| >= MinItems(m) then Branch(s, ks)
    else Mend(s, ks, if i == |s| then i - 1 else i, m)
  }

  /** One item moved from the fuller of two siblings to the other. */
  function Regrip<T>(l: Tree<T>, x: T, r: Tree<T>): (Tree<T>, T, Tree<T>)
    requires Counted(l) && Counted(r) && l.Leaf? == r.Leaf?
  {
    var all := Join(l, x, r);
    if |l.items| > |r.items| then Split(all, |l.items| - 1)
    else if r.items != [] then Split(all, |l.items| + 1)
    else (l, x, r)
  }

  /** The contents of two nodes and the item between them. */
  ghost function InOrder<T>(p: (Tree<T>, T, Tree<T>)): seq<T> {
    Flat(p.0) + [p.1] + Flat(p.2)
  }

  lemma JoinSplitFlat<T>(l: Tree<T>, x: T, r: Tree<T>, mid: nat)
    requires Counted(l) && Counted(r) && l.Leaf? == r.Leaf? && mid <= |l.items| + |r.items|
    ensures InOrder(Split(Join(l, x, r), mid)) == InOrder((l, x, r))
  {
    JoinFlat(l, x, r);
    SplitFlat(Join(l, x, r), mid);
  }

  lemma RegripFlat<T>(l: Tree<T>, x: T, r: Tree<T>)
    requires Counted(l) && Counted(r) && l.Leaf? == r.Leaf?
    ensures InOrder(Regrip(l, x, r)) == InOrder((l, x, r))
  {
    if |l.items| > |r.items| {
      JoinSplitFlat(l, x, r, |l.items| - 1);
    } else if r.items != [] {
      JoinSplitFlat(l, x, r, |l.items| + 1);
    }
  }

  lemma MendFlat<T>(s: seq<T>, ks: seq<Tree<T>>, i: nat, m: nat)
    requires i < |s| && |ks| == |s| + 1 && Alike(ks)
    ensures Flat(Mend(s, ks, i, m)) == Flat(Branch(s, ks))
  {
    var l, r := ks[i], ks[i + 1];
    FocusPair(s, ks, i);
    if |l.items| + |r.items| + 1 < m - 1 {
      JoinFlat(l, s[i], r);
      FuseFlat(s, ks, i, Join(l, s[i], r));
    } else {
      RegripFlat(l, s[i], r);
      var (l', x, r') := Regrip(l, s[i], r);
      SetPairFlat(s, ks, i, l', x, r');
    }
  }

  /** Rebalancing never changes the contents. */
  lemma RebalanceFlat<T>(s: seq<T>, ks: seq<Tree<T>>, i: nat, m: nat)
    requires Permitted(m) && 1 <= |s| && i <= |s| && |ks| == |s| + 1 && Alike(ks)
    ensures Flat(Rebalance(s, ks, i, m)) == Flat(Branch(s, ks))
  {
    if |ks[i].items| < MinItems(m) {
      MendFlat(s, ks, if i == |s| then i - 1 else i, m);
    }
  }

  /** A branch whose children are sound, except that child i may be one item short. */
  ghost predicate Nearly<T>(s: seq<T>, ks: seq<Tree<T>>, i: nat, h: nat, m: nat) {
    && h > 1 && |ks| == |s| + 1 && i < |ks|
    && (forall j :: 0 <= j < |ks| ==> Shape(ks[j], h - 1, m) && |ks[j].items| <= m - 2)
    && (forall j :: 0 <= j < |ks| ==> MinItems(m) <= |ks[j].items| + if j == i then 1 else 0)
  }

  lemma NearlyAlike<T>(s: seq<T>, ks: seq<Tree<T>>, i: nat, h: nat, m: nat)
    requires Nearly(s, ks, i, h, m)
    ensures Alike(ks)
  {
  }

  /** When a merge is refused the fuller sibling has an item to spare, and
      afterwards both are sufficiently filled. */
  lemma RegripFills<T>(l: Tree<T>, x: T, r: Tree<T>, h: nat, m: nat)
    requires Permitted(m) && Shape(l, h, m) && Shape(r, h, m)
    requires |l.items| <= m - 2 && |r.items| <= m - 2
    requires |l.items| == MinItems(m) - 1 || |r.items| == MinItems(m) - 1
    requires |l.items| + |r.items| + 1 >= m - 1
    ensures |l.items| > MinItems(m) || |r.items| > MinItems(m)
    ensures var (l', _, r') := Regrip(l, x, r);
      Shape(l', h, m) && Shape(r', h, m) && Filled(l', m) && Filled(r', m)
  {
    Gap(m);
    var all := Join(l, x, r);
    JoinShape(l, x, r, h, m);
    SplitShape(all, if |l.items| > |r.items| then |l.items| - 1 else |l.items| + 1, h, m);
  }

  lemma FuseShape<T>(s: seq<T>, ks: seq<Tree<T>>, i: nat, k: Tree<T>, h: nat, m: nat)
    requires h > 1 && i < |s| && |ks| == |s| + 1 && Shape(k, h - 1, m) && Filled(k, m)
    requires forall j :: 0 <= j < |ks| && j != i && j != i + 1 ==> Shape(ks[j], h - 1, m) && Filled(ks[j], m)
    ensures Shape(Fuse(s, ks, i, k), h, m)
  {
    var ks' := ks[..i] + [k] + ks[i + 2..];
    forall j | 0 <= j < |ks'| ensures Shape(ks'[j], h - 1, m) && Filled(ks'[j], m) {
      if j < i { assert ks'[j] == ks[j]; } else if j > i { assert ks'[j] == ks[j + 1]; }
    }
  }

  lemma SetPairShape<T>(s: seq<T>, ks: seq<Tree<T>>, i: nat, l: Tree<T>, x: T, r: Tree<T>, h: nat, m: nat)
    requires h > 1 && i < |s| && |ks| == |s| + 1
    requires Shape(l, h - 1, m) && Filled(l, m) && Shape(r, h - 1, m) && Filled(r, m)
    requires forall j :: 0 <= j < |ks| && j != i && j != i + 1 ==> Shape(ks[j], h - 1, m) && Filled(ks[j], m)
    ensures Shape(SetPair(s, ks, i, l, x, r), h, m)
  {
  }

  lemma MendShape<T>(s: seq<T>, ks: seq<Tree<T>>, i: nat, h: nat, m: nat)
    requires Permitted(m) && h > 1 && i < |s| && |ks| == |s| + 1 && Alike(ks)
    requires forall j :: 0 <= j < |ks| && j != i && j != i + 1 ==> Shape(ks[j], h - 1, m) && Filled(ks[j], m)
    requires Shape(ks[i], h - 1, m) && Shape(ks[i + 1], h - 1, m)
    requires |ks[i].items| <= m - 2 && |ks[i + 1].items| <= m - 2
    requires |ks[i].items| == MinItems(m) - 1 || |ks[i + 1].items| == MinItems(m) - 1
    requires |ks[i].items| >= MinItems(m) || |ks[i + 1].items| >= MinItems(m)
    ensures Shape(Mend(s, ks, i, m), h, m)
    ensures |s| - 1 <= |Mend(s, ks, i, m).items| <= |s|
  {
    var l, r := ks[i], ks[i + 1];
    if |l.items| + |r.items| + 1 < m - 1 {
      JoinShape(l, s[i], r, h - 1, m);
      FuseShape(s, ks, i, Join(l, s[i], r), h, m);
    } else {
      RegripFills(l, s[i], r, h - 1, m);
      var (l', x, r') := Regrip(l, s[i], r);
      SetPairShape(s, ks, i, l', x, r', h, m);
    }
  }

  /** Rebalancing restores the fill of every child and costs the branch at most one item. */
  lemma RebalanceShape<T>(s: seq<T>, ks: seq<Tree<T>>, i: nat, h: nat, m: nat)
    requires Permitted(m) && 1 <= |s| && i <= |s| && Nearly(s, ks, i, h, m)
    requires Alike(ks)
    ensures var t := Rebalance(s, ks, i, m);
      Shape(t, h, m) && t.Branch? && |s| - 1 <= |t.items| <= |s|
  {
    Gap(m);
    if |ks[i].items| < MinItems(m) {
      MendShape(s, ks, if i == |s| then i - 1 else i, h, m);
    }
  }

  /** How many items each of some nodes has. */
  function Sizes<T>(ks: seq<Tree<T>>): (r: seq<nat>)
    ensures |r| == |ks|
    ensures forall j :: 0 <= j < |ks| ==> r[j] == |ks[j].items|
  {
    seq(|ks|, j requires 0 <= j < |ks| => |ks[j].items|)
  }

  /** What a poor child and a neighbour of l and r items end with: all of them in one node
      that stays two slots short of full, otherwise one item handed over by the one with more. */
  lemma MendSizes<T>(s: seq<T>, ks: seq<Tree<T>>, i: nat, m: nat)
    requires i < |s| && |ks| == |s| + 1 && Alike(ks) && (ks[i].items != [] || ks[i + 1].items != [])
    ensures var sizes, t := Sizes(ks), Mend(s, ks, i, m);
      var l, r := sizes[i], sizes[i + 1];
      t.Branch? &&
      (if l + r + 3 <= m then
         |t.items| == |s| - 1 && Sizes(t.kids) == sizes[..i] + [l + r + 1] + sizes[i + 2..]
       else
         |t.items| == |s| && Sizes(t.kids) ==
           if l > r then sizes[i := l - 1][i + 1 := r + 1] else sizes[i := l + 1][i + 1 := r - 1])
  {
  }

  /** Rebalancing touches nothing if 40 of every 100 slots of the child are filled, up to a
      part of an item; the neighbour it takes part with is the next one if there is one. */
  lemma RebalanceSizes<T>(s: seq<T>, ks: seq<Tree<T>>, i: nat, m: nat)
    requires Permitted(m) && 1 <= |s| && i <= |s| && |ks| == |s| + 1 && Alike(ks)
    ensures 100 * (|ks[i].items| + 1) > 40 * m ==> Rebalance(s, ks, i, m) == Branch(s, ks)
    ensures 100 * (|ks[i].items| + 1) <= 40 * m ==>
      Rebalance(s, ks, i, m) == Mend(s, ks, if i < |s| then i else |s| - 1, m)
  {
  }

  lemma NearlyAfter<T>(t: Tree<T>, i: nat, k: Tree<T>, h: nat, m: nat)
    requires Permitted(m) && Shape(t, h, m) && t.Branch? && i < |t.kids|
    requires Shape(k, h - 1, m) && |t.kids[i].items| - 1 <= |k.items| <= |t.kids[i].items|
    ensures Nearly(t.items, t.kids[i := k], i, h, m)
    ensures Alike(t.kids[i := k])
  {
    NearlyAlike(t.items, t.kids[i := k], i, h, m);
  }

  /** Removal below a node: the node afterwards, at most one item short, and the
      item removed. */
  ghost function Delete<T>(cmp: (T, T) -> int, t: Tree<T>, act: Action<T>, h: nat, m: nat)
    : (r: (Tree<T>, Option<T>))
    requires Permitted(m) && Shape(t, h, m) && |t.items| >= 1
    ensures Shape(r.0, h, m)
    ensures |t.items| - 1 <= |r.0.items| <= |t.items|
    ensures !act.DelKey? ==> r.1.Some?
    ensures r.1 == None ==> r.0 == t
    decreases h
  {
    var (i, found) := Target(cmp, t, act);
    if t.Leaf? then
      if found then (Leaf(t.items[..i] + t.items[i + 1..]), Some(t.items[i])) else (t, None)
    else
      Gap(m);
      if found && act.PopMax? then
        var (k, prev) := Delete(cmp, t.kids[i + 1], PopMax, h - 1, m);
        NearlyAfter(t, i + 1, k, h, m);
        RebalanceShape(t.items, t.kids[i + 1 := k], i + 1, h, m);
        (Rebalance(t.items, t.kids[i + 1 := k], i + 1, m), prev)
      else if found then
        var (k, largest) := Delete(cmp, t.kids[i], PopMax, h - 1, m);
        NearlyAfter(t, i, k, h, m);
        var s := t.items[i := largest.value];
        RebalanceShape(s, t.kids[i := k], i, h, m);
        (Rebalance(s, t.kids[i := k], i, m), Some(t.items[i]))
      else
        var (k, prev) := Delete(cmp, t.kids[i], act, h - 1, m);
        if prev == None then (t, None)
        else
          NearlyAfter(t, i, k, h, m);
          RebalanceShape(t.items, t.kids[i := k], i, h, m);
          (Rebalance(t.items, t.kids[i := k], i, m), prev)
  }

  /** What removal is to do to the sorted contents. */
  ghost function Removed<T>(cmp: (T, T) -> int, f: seq<T>, act: Action<T>): (seq<T>, Option<T>) {
    match act
    case DelKey(x) => (Remove(cmp, f, x), Lookup(cmp, f, x))
    case PopFront => if f == [] then (f, None) else (f[1..], Some(f[0]))
    case _ => if f == [] then (f, None) else (f[..|f| - 1], Some(f[|f| - 1]))
  }

  /** Removing the first or last item leaves the contents around child i alone. */
  lemma EndsLocal<T>(cmp: (T, T) -> int, a: seq<T>, b: seq<T>, c: seq<T>, act: Action<T>)
    requires b != []
    requires if act.PopFront? then a == [] else !act.DelKey? && c == []
    ensures Removed(cmp, a + b + c, act) == (a + Removed(cmp, b, act).0 + c, Removed(cmp, b, act).1)
  {
    var f := a + b + c;
    if act.PopFront? {
      assert f[1..] == a + b[1..] + c;
    } else {
      assert f[..|f| - 1] == a + b[..|b| - 1] + c;
      assert f[|f| - 1] == b[|b| - 1];
    }
  }

  lemma RemovedLocal<T(!new)>(cmp: (T, T) -> int, t: Tree<T>, act: Action<T>, i: nat, h: nat, m: nat)
    requires Permitted(m) && Shape(t, h, m) && |t.items| >= 1 && t.Branch?
    requires IsOrder(cmp) && Strict(cmp, Flat(t))
    requires if act.PopMax? then i == |t.items| else Target(cmp, t, act) == (i, false)
    ensures var a, b, c := Upto(t.items, t.kids, i), Flat(t.kids[i]), From(t.items, t.kids, i);
      && Flat(t) == a + b + c
      && Strict(cmp, b)
      && Removed(cmp, Flat(t), act) == (a + Removed(cmp, b, act).0 + c, Removed(cmp, b, act).1)
  {
    var a, b, c := Upto(t.items, t.kids, i), Flat(t.kids[i]), From(t.items, t.kids, i);
    Focus(t.items, t.kids, i);
    StrictParts(cmp, a, b, c);
    if act.DelKey? {
      Descend(cmp, t.items, t.kids, act.key);
      Local(cmp, a, b, c, act.key);
    } else {
      Gap(m);
      NotEmpty(t.kids[i], h - 1, m);
      EndsLocal(cmp, a, b, c, act);
    }
  }

  lemma Regrow<T>(a: seq<T>, b: seq<T>, y: seq<T>, c: seq<T>, d: seq<T>)
    ensures a + (b + y + c) + d == (a + (b + y)) + (c + d)
  {
  }

  /** Replacing a separator by its predecessor, taken from the child before it,
      removes the separator from the contents. */
  lemma DeleteAtSeparator<T(!new)>(cmp: (T, T) -> int, s: seq<T>, ks: seq<Tree<T>>, x: T, k: Tree<T>, y: T)
    requires IsOrder(cmp) && |ks| == |s| + 1 && Strict(cmp, Flat(Branch(s, ks))) && Has(cmp, s, x)
    requires Flat(ks[Rank(cmp, s, x)]) == Flat(k) + [y]
    ensures var i := Rank(cmp, s, x); var f := Flat(Branch(s, ks));
      && Flat(Branch(s[i := y], ks[i := k])) == Remove(cmp, f, x)
      && Lookup(cmp, f, x) == Some(s[i])
  {
    var i := Rank(cmp, s, x);
    FocusPair(s, ks, i);
    SetPairFlat(s, ks, i, k, y, ks[i + 1]);
    assert ks[i := k][i + 1 := ks[i + 1]] == ks[i := k];
    var a, b, c, d := Upto(s, ks, i), Flat(ks[i]), Flat(ks[i + 1]), From(s, ks, i + 1);
    Regroup(a, b, [s[i]], c, d);
    AtItem(cmp, a + b, s[i], c + d, x);
    Regrow(a, Flat(k), [y], c, d);
  }

  lemma PopMaxSplits<T>(f: seq<T>, g: seq<T>, y: T)
    requires f != [] && g == f[..|f| - 1] && y == f[|f| - 1]
    ensures f == g + [y]
  {
  }

  lemma BelowContents<T(!new)>(cmp: (T, T) -> int, t: Tree<T>, act: Action<T>, i: nat, k: Tree<T>,
                               prev: Option<T>, h: nat, m: nat)
    requires Permitted(m) && Shape(t, h, m) && |t.items| >= 1 && t.Branch?
    requires IsOrder(cmp) && Strict(cmp, Flat(t))
    requires if act.PopMax? then i == |t.items| else Target(cmp, t, act) == (i, false)
    requires Shape(k, h - 1, m) && |t.kids[i].items| - 1 <= |k.items| <= |t.kids[i].items|
    requires (Flat(k), prev) == Removed(cmp, Flat(t.kids[i]), act)
    requires Alike(t.kids[i := k])
    ensures (Flat(Rebalance(t.items, t.kids[i := k], i, m)), prev) == Removed(cmp, Flat(t), act)
    ensures k == t.kids[i] ==> (Flat(t), prev) == Removed(cmp, Flat(t), act)
  {
    RemovedLocal(cmp, t, act, i, h, m);
    ReplaceKid(t.items, t.kids, i, k);
    RebalanceFlat(t.items, t.kids[i := k], i, m);
  }

  lemma SeparatorContents<T(!new)>(cmp: (T, T) -> int, t: Tree<T>, x: T, k: Tree<T>, y: T, h: nat, m: nat)
    requires Permitted(m) && Shape(t, h, m) && |t.items| >= 1 && t.Branch? && Has(cmp, t.items, x)
    requires IsOrder(cmp) && Strict(cmp, Flat(t))
    requires var i := Rank(cmp, t.items, x);
      && (Flat(k), Some(y)) == Removed(cmp, Flat(t.kids[i]), PopMax)
      && Alike(t.kids[i := k])
    ensures var i := Rank(cmp, t.items, x);
      (Flat(Rebalance(t.items[i := y], t.kids[i := k], i, m)), Some(t.items[i])) == Removed(cmp, Flat(t), DelKey(x))
  {
    var i := Rank(cmp, t.items, x);
    PopMaxSplits(Flat(t.kids[i]), Flat(k), y);
    DeleteAtSeparator(cmp, t.items, t.kids, x, k, y);
    RebalanceFlat(t.items[i := y], t.kids[i := k], i, m);
  }

  lemma LeafContents<T>(cmp: (T, T) -> int, t: Tree<T>, act: Action<T>, m: nat)
    requires Permitted(m) && t.Leaf? && |t.items| >= 1
    ensures var (t', prev) := Delete(cmp, t, act, 1, m);
      (Flat(t'), prev) == Removed(cmp, Flat(t), act)
  {
    var s := t.items;
    match act {
      case PopFront => assert s[..0] + s[1..] == s[1..];
      case PopBack => assert s[..|s| - 1] + s[|s|..] == s[..|s| - 1];
      case PopMax => assert s[..|s| - 1] + s[|s|..] == s[..|s| - 1];
      case DelKey(_) =>
    }
  }

  /** Removal takes exactly the item asked for out of the sorted contents and returns it. */
  lemma {:induction false} DeleteContents<T(!new)>(cmp: (T, T) -> int, t: Tree<T>, act: Action<T>, h: nat, m: nat)
    requires Permitted(m) && Shape(t, h, m) && |t.items| >= 1
    requires IsOrder(cmp) && Strict(cmp, Flat(t))
    ensures (Flat(Delete(cmp, t, act, h, m).0), Delete(cmp, t, act, h, m).1) == Removed(cmp, Flat(t), act)
    decreases h, 1
  {
    if t.Leaf? {
      LeafContents(cmp, t, act, m);
    } else if Target(cmp, t, act).1 && !act.PopMax? {
      DeleteFound(cmp, t, act.key, h, m);
    } else {
      DeleteDeeper(cmp, t, act, if act.PopMax? then |t.items| else Target(cmp, t, act).0, h, m);
    }
  }

  /** Delete one level down, where the item is not a separator to be replaced. */
  lemma DeleteThrough<T>(cmp: (T, T) -> int, t: Tree<T>, act: Action<T>, i: nat, h: nat, m: nat)
    requires Permitted(m) && Shape(t, h, m) && |t.items| >= 1 && t.Branch?
    requires if act.PopMax? then i == |t.items| else Target(cmp, t, act) == (i, false)
    ensures MinItems(m) >= 1
    ensures var (k, prev) := Delete(cmp, t.kids[i], act, h - 1, m);
      && Alike(t.kids[i := k])
      && Delete(cmp, t, act, h, m) ==
         if prev == None then (t, None) else (Rebalance(t.items, t.kids[i := k], i, m), prev)
  {
    Gap(m);
    var (k, prev) := Delete(cmp, t.kids[i], act, h - 1, m);
    NearlyAfter(t, i, k, h, m);
  }

  lemma DeleteDeeper<T(!new)>(cmp: (T, T) -> int, t: Tree<T>, act: Action<T>, i: nat, h: nat, m: nat)
    requires Permitted(m) && Shape(t, h, m) && |t.items| >= 1 && t.Branch?
    requires IsOrder(cmp) && Strict(cmp, Flat(t))
    requires if act.PopMax? then i == |t.items| else Target(cmp, t, act) == (i, false)
    ensures (Flat(Delete(cmp, t, act, h, m).0), Delete(cmp, t, act, h, m).1) == Removed(cmp, Flat(t), act)
    decreases h, 0
  {
    DeleteThrough(cmp, t, act, i, h, m);
    KidStrict(cmp, t, i);
    DeleteContents(cmp, t.kids[i], act, h - 1, m);
    var (k, prev) := Delete(cmp, t.kids[i], act, h - 1, m);
    BelowContents(cmp, t, act, i, k, prev, h, m);
  }

  lemma DeleteFound<T(!new)>(cmp: (T, T) -> int, t: Tree<T>, x: T, h: nat, m: nat)
    requires Permitted(m) && Shape(t, h, m) && |t.items| >= 1 && t.Branch? && Has(cmp, t.items, x)
    requires IsOrder(cmp) && Strict(cmp, Flat(t))
    ensures (Flat(Delete(cmp, t, DelKey(x), h, m).0), Delete(cmp, t, DelKey(x), h, m).1)
         == Removed(cmp, Flat(t), DelKey(x))
    decreases h, 0
  {
    Gap(m);
    var i := Rank(cmp, t.items, x);
    KidStrict(cmp, t, i);
    var (k, y) := Delete(cmp, t.kids[i], PopMax, h - 1, m);
    DeleteContents(cmp, t.kids[i], PopMax, h - 1, m);
    NearlyAfter(t, i, k, h, m);
    SeparatorContents(cmp, t, x, k, y.value, h, m);
  }

  /** An emptied root gives way to its only child, or to nothing. */
  function Lower<T>(t: Tree<T>, h: nat): (Option<Tree<T>>, nat)
    requires Counted(t) && h >= 1
  {
    if t.items != [] then (Some(t), h)
    else if t.Leaf? then (None, h - 1)
    else (Some(t.kids[0]), h - 1)
  }

  /** Removal from a whole tree. */
  ghost function DeleteRoot<T>(cmp: (T, T) -> int, root: Option<Tree<T>>, act: Action<T>, h: nat, m: nat)
    : (r: (Option<Tree<T>>, nat, Option<T>))
    requires Permitted(m) && Sound(root, h, m)
  {
    match root
    case None => (None, 0, None)
    case Some(t) =>
      var (t', prev) := Delete(cmp, t, act, h, m);
      if prev == None then (root, h, None)
      else
        var (root', h') := Lower(t', h);
        (root', h', prev)
  }

  /** Removal in every form keeps the tree balanced and filled. */
  lemma DeleteRootSound<T>(cmp: (T, T) -> int, root: Option<Tree<T>>, act: Action<T>, h: nat, m: nat)
    requires Permitted(m) && Sound(root, h, m)
    ensures var (root', h', prev) := DeleteRoot(cmp, root, act, h, m);
      && Sound(root', h', m)
      && h - 1 <= h' <= h
      && (prev == None ==> root' == root)
  {
    Gap(m);
  }

  lemma OnlyChild<T>(t: Tree<T>)
    requires t.Branch? && Counted(t) && t.items == []
    ensures Flat(t) == Flat(t.kids[0])
  {
  }

  lemma RemovedStrict<T>(cmp: (T, T) -> int, f: seq<T>, act: Action<T>)
    requires Strict(cmp, f)
    ensures Strict(cmp, Removed(cmp, f, act).0)
  {
    if act.DelKey? { RemoveStrict(cmp, f, act.key); }
  }

  /** Removal in every form does to the sorted sequence what it says. */
  lemma DeleteRootContents<T(!new)>(cmp: (T, T) -> int, root: Option<Tree<T>>, act: Action<T>, h: nat, m: nat)
    requires Permitted(m) && Sound(root, h, m)
    requires IsOrder(cmp) && Strict(cmp, Contents(root))
    ensures var (root', _, prev) := DeleteRoot(cmp, root, act, h, m);
      && (Contents(root'), prev) == Removed(cmp, Contents(root), act)
      && Strict(cmp, Contents(root'))
  {
    RemovedStrict(cmp, Contents(root), act);
    if root.Some? {
      DeleteContents(cmp, root.value, act, h, m);
      var (t', _) := Delete(cmp, root.value, act, h, m);
      if t'.items == [] && t'.Branch? { OnlyChild(t'); }
    } else {
      assert Removed(cmp, [], act) == ([], None);
    }
  }

  lemma RemovedCount<T>(cmp: (T, T) -> int, f: seq<T>, act: Action<T>)
    ensures |Removed(cmp, f, act).0| == |f| - if Removed(cmp, f, act).1 == None then 0 else 1
  {
  }

  /** A removal from a whole tree: sound, the sorted removal, and the item removed. */
  lemma DeleteWhole<T(!new)>(cmp: (T, T) -> int, root: Option<Tree<T>>, act: Action<T>, h: nat, m: nat)
    requires Permitted(m) && Sound(root, h, m)
    requires IsOrder(cmp) && Strict(cmp, Contents(root))
    ensures var (root', h', prev) := DeleteRoot(cmp, root, act, h, m);
      && Sound(root', h', m)
      && (Contents(root'), prev) == Removed(cmp, Contents(root), act)
      && |Contents(root')| == |Contents(root)| - if prev == None then 0 else 1
  {
    DeleteRootSound(cmp, root, act, h, m);
    DeleteRootContents(cmp, root, act, h, m);
    RemovedCount(cmp, Contents(root), act);
  }

  lemma RemovedFromNothing<T>(cmp: (T, T) -> int, act: Action<T>)
    ensures Removed(cmp, [], act) == ([], None)
  {
  }
}
