/** B-tree nodes as values: in-order contents, balance and fill bounds, and the
    rearrangements that keep the contents. */
module Trees {
  import opened OrderedSeq

  datatype Tree<T> = Leaf(items: seq<T>) | Branch(items: seq<T>, kids: seq<Tree<T>>)

  /** Permitted node capacities, after rounding and clamping. */
  predicate Permitted(m: nat) {
    4 <= m <= 4096 && m % 2 == 0
  }

  /** The fill a node other than the root must keep: 40% of the capacity. */
  function MinItems(m: nat): nat {
    m * 40 / 100
  }

  /** The minimum fill is 40 percent up to a part of an item. Room for a merge and spare
      items for a borrow both come from the gap that this leaves. */
  lemma Gap(m: nat)
    requires Permitted(m)
    ensures 40 * m - 100 < 100 * MinItems(m) <= 40 * m
    ensures 1 <= MinItems(m) && 2 * MinItems(m) <= m - 2
  {
  }

  /** Every leaf at depth h, children counted, and every node below the root
      between the minimum fill and the split threshold. The root's own number
      of items is not restricted. */
  ghost predicate Shape<T>(t: Tree<T>, h: nat, m: nat) {
    match t
    case Leaf(_) => h == 1
    case Branch(s, ks) =>
      && h > 1 && |ks| == |s| + 1
      && forall i :: 0 <= i < |ks| ==> Shape(ks[i], h - 1, m) && Filled(ks[i], m)
  }

  ghost predicate Filled<T>(t: Tree<T>, m: nat) {
    MinItems(m) <= |t.items| <= m - 2
  }

  /** In-order contents. */
  ghost function Flat<T>(t: Tree<T>): seq<T>
    decreases t, 0
  {
    match t
    case Leaf(s) => s
    case Branch(s, ks) => if |ks| == |s| + 1 then Upto(s, ks, |s|) + Flat(ks[|s|]) else []
  }

  /** Contents before child i, ending with item i - 1. */
  ghost function Upto<T>(s: seq<T>, ks: seq<Tree<T>>, i: nat): seq<T>
    requires i <= |s| && i <= |ks|
    decreases ks, i
  {
    if i == 0 then [] else Upto(s, ks, i - 1) + Flat(ks[i - 1]) + [s[i - 1]]
  }

  /** Contents after child i, beginning with item i. */
  ghost function From<T>(s: seq<T>, ks: seq<Tree<T>>, i: nat): seq<T>
    requires i <= |s| && |ks| == |s| + 1
    decreases ks, |s| - i
  {
    if i == |s| then [] else [s[i]] + Flat(ks[i + 1]) + From(s, ks, i + 1)
  }

  /** A whole tree: absent, or a root one or more items strong over a height. */
  ghost predicate Sound<T>(root: Option<Tree<T>>, h: nat, m: nat) {
    match root
    case None => h == 0
    case Some(t) => Shape(t, h, m) && 1 <= |t.items| <= m - 2
  }

  ghost function Contents<T>(root: Option<Tree<T>>): seq<T> {
    match root
    case None => []
    case Some(t) => Flat(t)
  }

  // ---------- what a sound tree is, node by node ----------

  /** A node stands so many steps below the top of a tree. */
  ghost predicate Stands<T(!new)>(t: Tree<T>, node: Tree<T>, depth: nat) {
    if depth == 0 then node == t
    else t.Branch? && exists i :: 0 <= i < |t.kids| && Stands(t.kids[i], node, depth - 1)
  }

  /** What a tree of h levels asks of a node at a depth: leaves at the last level only, one
      child more than items in the others, two slots unused, and below the root 40 of
      every 100 slots filled up to a part of an item. */
  ghost predicate Fits<T>(node: Tree<T>, depth: nat, h: nat, m: nat) {
    && depth < h && (node.Leaf? <==> depth + 1 == h)
    && (node.Branch? ==> |node.kids| == |node.items| + 1)
    && |node.items| + 2 <= m
    && (if depth == 0 then |node.items| > 0 else 100 * (|node.items| + 1) > 40 * m)
  }

  lemma {:induction false} SoundFits<T(!new)>(t: Tree<T>, node: Tree<T>, depth: nat, level: nat, h: nat, m: nat)
    requires Shape(t, h, m) && Stands(t, node, depth)
    requires |t.items| + 2 <= m && if level == 0 then |t.items| > 0 else Filled(t, m)
    ensures Fits(node, level + depth, level + h, m)
    decreases depth
  {
    if depth > 0 {
      var i :| 0 <= i < |t.kids| && Stands(t.kids[i], node, depth - 1);
      SoundFits(t.kids[i], node, depth - 1, level + 1, h - 1, m);
    }
  }

  /** Every node that stands in the tree fits, seen from a level of a larger one. */
  ghost predicate AllFit<T(!new)>(t: Tree<T>, level: nat, h: nat, m: nat) {
    forall node, depth: nat :: Stands(t, node, depth) ==> Fits(node, level + depth, level + h, m)
  }

  lemma {:induction false} FitsShape<T(!new)>(t: Tree<T>, level: nat, h: nat, m: nat)
    requires AllFit(t, level, h, m)
    ensures Shape(t, h, m) && |t.items| + 2 <= m && if level == 0 then |t.items| > 0 else Filled(t, m)
    decreases h
  {
    assert Stands(t, t, 0);
    if t.Branch? {
      forall i | 0 <= i < |t.kids| ensures Shape(t.kids[i], h - 1, m) && Filled(t.kids[i], m) {
        forall node, depth: nat | Stands(t.kids[i], node, depth)
          ensures Fits(node, level + 1 + depth, level + h, m)
        {
          assert Stands(t, node, depth + 1);
        }
        FitsShape(t.kids[i], level + 1, h - 1, m);
      }
    }
  }

  /** A tree is sound exactly if each of its nodes fits the place it stands at. */
  lemma SoundExactly<T(!new)>(t: Tree<T>, h: nat, m: nat)
    requires Permitted(m)
    ensures Sound(Some(t), h, m) <==>
      forall node, depth: nat :: Stands(t, node, depth) ==> Fits(node, depth, h, m)
  {
    if Sound(Some(t), h, m) {
      forall node, depth: nat | Stands(t, node, depth) ensures Fits(node, depth, h, m) {
        SoundFits(t, node, depth, 0, h, m);
      }
    }
    if forall node, depth: nat :: Stands(t, node, depth) ==> Fits(node, depth, h, m) {
      assert AllFit(t, 0, h, m);
      FitsShape(t, 0, h, m);
    }
  }

  lemma {:induction false} Focus<T>(s: seq<T>, ks: seq<Tree<T>>, i: nat)
    requires i <= |s| && |ks| == |s| + 1
    ensures Flat(Branch(s, ks)) == Upto(s, ks, i) + Flat(ks[i]) + From(s, ks, i)
    decreases |s| - i
  {
    if i < |s| {
      Focus(s, ks, i + 1);
      var a, b, c := Upto(s, ks, i), Flat(ks[i]), Flat(ks[i + 1]);
      var d := From(s, ks, i + 1);
      assert ((a + b) + [s[i]]) + c + d == a + b + (([s[i]] + c) + d);
    }
  }

  lemma Regroup<T>(a: seq<T>, b: seq<T>, x: seq<T>, c: seq<T>, d: seq<T>)
    ensures a + b + ((x + c) + d) == a + (b + x + c) + d
    ensures a + (b + x + c) + d == (a + b) + x + (c + d)
  {
  }

  lemma UpdateOne<T>(s: seq<T>, i: nat, x: T)
    requires i < |s|
    ensures s[..i] + [x] + s[i + 1..] == s[i := x]
  {
  }

  lemma UpdateTwo<T>(s: seq<T>, i: nat, x: T, y: T)
    requires i + 1 < |s|
    ensures s[..i] + [x, y] + s[i + 2..] == s[i := x][i + 1 := y]
  {
  }

  lemma {:induction false} SameUpto<T>(s: seq<T>, ks: seq<Tree<T>>, s': seq<T>, ks': seq<Tree<T>>, i: nat)
    requires i <= |s| && i <= |ks| && i <= |s'| && i <= |ks'|
    requires s[..i] == s'[..i] && ks[..i] == ks'[..i]
    ensures Upto(s, ks, i) == Upto(s', ks', i)
    decreases i
  {
    if i > 0 {
      assert s[i - 1] == s[..i][i - 1] && ks[i - 1] == ks[..i][i - 1];
      assert s[..i - 1] == s[..i][..i - 1] && ks[..i - 1] == ks[..i][..i - 1];
      assert s'[..i - 1] == s'[..i][..i - 1] && ks'[..i - 1] == ks'[..i][..i - 1];
      SameUpto(s, ks, s', ks', i - 1);
    }
  }

  lemma {:induction false} SameFrom<T>(s: seq<T>, ks: seq<Tree<T>>, i: nat, s': seq<T>, ks': seq<Tree<T>>, j: nat)
    requires i <= |s| && |ks| == |s| + 1 && j <= |s'| && |ks'| == |s'| + 1
    requires s[i..] == s'[j..] && ks[i + 1..] == ks'[j + 1..]
    ensures From(s, ks, i) == From(s', ks', j)
    decreases |s| - i
  {
    assert |s[i..]| == |s'[j..]|;
    if i < |s| {
      assert s[i] == s[i..][0] && s'[j] == s'[j..][0];
      assert ks[i + 1] == ks[i + 1..][0] && ks'[j + 1] == ks'[j + 1..][0];
      assert s[i + 1..] == s[i..][1..] && s'[j + 1..] == s'[j..][1..];
      assert ks[i + 2..] == ks[i + 1..][1..] && ks'[j + 2..] == ks'[j + 1..][1..];
      SameFrom(s, ks, i + 1, s', ks', j + 1);
    }
  }

  // ---------- splitting and joining ----------

  predicate Counted<T>(t: Tree<T>) {
    t.Branch? ==> |t.kids| == |t.items| + 1
  }

  /** The node cut at an item, which moves out between the halves. */
  function Split<T>(t: Tree<T>, mid: nat): (r: (Tree<T>, T, Tree<T>))
    requires Counted(t) && mid < |t.items|
  {
    match t
    case Leaf(s) => (Leaf(s[..mid]), s[mid], Leaf(s[mid + 1..]))
    case Branch(s, ks) =>
      (Branch(s[..mid], ks[..mid + 1]), s[mid], Branch(s[mid + 1..], ks[mid + 1..]))
  }

  /** Two sibling nodes and the item between them as one node. */
  function Join<T>(l: Tree<T>, x: T, r: Tree<T>): (t: Tree<T>)
    requires Counted(l) && Counted(r) && l.Leaf? == r.Leaf?
  {
    match l
    case Leaf(s) => Leaf(s + [x] + r.items)
    case Branch(s, ks) => Branch(s + [x] + r.items, ks + r.kids)
  }

  lemma BranchSplitFlat<T>(s: seq<T>, ks: seq<Tree<T>>, mid: nat)
    requires |ks| == |s| + 1 && mid < |s|
    ensures Flat(Branch(s, ks))
         == Flat(Branch(s[..mid], ks[..mid + 1])) + [s[mid]] + Flat(Branch(s[mid + 1..], ks[mid + 1..]))
  {
    FocusPair(s, ks, mid);
    LeftPart(s, ks, mid);
    RightPart(s, ks, mid + 1);
    Regroup(Upto(s, ks, mid), Flat(ks[mid]), [s[mid]], Flat(ks[mid + 1]), From(s, ks, mid + 1));
  }

  lemma LeftPart<T>(s: seq<T>, ks: seq<Tree<T>>, mid: nat)
    requires |ks| == |s| + 1 && mid <= |s|
    ensures Flat(Branch(s[..mid], ks[..mid + 1])) == Upto(s, ks, mid) + Flat(ks[mid])
  {
    SameUpto(s, ks, s[..mid], ks[..mid + 1], mid);
  }

  lemma RightPart<T>(s: seq<T>, ks: seq<Tree<T>>, i: nat)
    requires |ks| == |s| + 1 && i <= |s|
    ensures Flat(Branch(s[i..], ks[i..])) == Flat(ks[i]) + From(s, ks, i)
  {
    RightTail(s, ks, i, s[i..], ks[i..]);
  }

  lemma RightTail<T>(s: seq<T>, ks: seq<Tree<T>>, i: nat, s': seq<T>, ks': seq<Tree<T>>)
    requires |ks| == |s| + 1 && i <= |s| && s' == s[i..] && ks' == ks[i..]
    ensures Flat(Branch(s', ks')) == Flat(ks[i]) + From(s, ks, i)
  {
    assert From(s', ks', 0) == From(s, ks, i) by {
      assert s'[0..] == s[i..] && ks'[1..] == ks[i + 1..];
      SameFrom(s, ks, i, s', ks', 0);
    }
    Focus(s', ks', 0);
    assert Upto(s', ks', 0) == [] && ks'[0] == ks[i];
  }

  lemma SplitFlat<T>(t: Tree<T>, mid: nat)
    requires Counted(t) && mid < |t.items|
    ensures var (l, x, r) := Split(t, mid); Flat(t) == Flat(l) + [x] + Flat(r)
  {
    match t
    case Leaf(s) => assert s == s[..mid] + [s[mid]] + s[mid + 1..];
    case Branch(s, ks) => BranchSplitFlat(s, ks, mid);
  }

  lemma SplitOfJoin<T>(l: Tree<T>, x: T, r: Tree<T>)
    requires Counted(l) && Counted(r) && l.Leaf? == r.Leaf?
    ensures Counted(Join(l, x, r)) && Split(Join(l, x, r), |l.items|) == (l, x, r)
  {
    var t := Join(l, x, r);
    assert t.items[..|l.items|] == l.items && t.items[|l.items| + 1..] == r.items;
    if t.Branch? {
      assert t.kids[..|l.kids|] == l.kids && t.kids[|l.kids|..] == r.kids;
    }
  }

  lemma JoinFlat<T>(l: Tree<T>, x: T, r: Tree<T>)
    requires Counted(l) && Counted(r) && l.Leaf? == r.Leaf?
    ensures Flat(Join(l, x, r)) == Flat(l) + [x] + Flat(r)
  {
    SplitOfJoin(l, x, r);
    SplitFlat(Join(l, x, r), |l.items|);
  }

  lemma SplitShape<T>(t: Tree<T>, mid: nat, h: nat, m: nat)
    requires Shape(t, h, m) && mid < |t.items|
    ensures var (l, _, r) := Split(t, mid); Shape(l, h, m) && Shape(r, h, m)
  {
  }

  lemma JoinShape<T>(l: Tree<T>, x: T, r: Tree<T>, h: nat, m: nat)
    requires Shape(l, h, m) && Shape(r, h, m)
    ensures Shape(Join(l, x, r), h, m)
  {
  }

  // ---------- replacing one child, or two neighbours, of a branch ----------

  /** Replacing a child replaces its stretch of the contents. */
  lemma ReplaceKid<T>(s: seq<T>, ks: seq<Tree<T>>, i: nat, k: Tree<T>)
    requires i <= |s| && |ks| == |s| + 1
    ensures Flat(Branch(s, ks[i := k])) == Upto(s, ks, i) + Flat(k) + From(s, ks, i)
  {
    var ks' := ks[i := k];
    Focus(s, ks', i);
    SameUpto(s, ks, s, ks', i);
    assert ks[i + 1..] == ks'[i + 1..];
    SameFrom(s, ks, i, s, ks', i);
  }

  /** The branch with item i and its two children replaced. */
  function SetPair<T>(s: seq<T>, ks: seq<Tree<T>>, i: nat, l: Tree<T>, x: T, r: Tree<T>): Tree<T>
    requires i < |s| && |ks| == |s| + 1
  {
    Branch(s[i := x], ks[i := l][i + 1 := r])
  }

  /** The branch with item i and its two children replaced by one child. */
  function Fuse<T>(s: seq<T>, ks: seq<Tree<T>>, i: nat, k: Tree<T>): Tree<T>
    requires i < |s| && |ks| == |s| + 1
  {
    Branch(s[..i] + s[i + 1..], ks[..i] + [k] + ks[i + 2..])
  }

  /** The branch with child i replaced by two children and an item between them. */
  function Part<T>(s: seq<T>, ks: seq<Tree<T>>, i: nat, l: Tree<T>, x: T, r: Tree<T>): Tree<T>
    requires i <= |s| && |ks| == |s| + 1
  {
    Branch(s[..i] + [x] + s[i..], ks[..i] + [l, r] + ks[i + 1..])
  }

  lemma FocusPair<T>(s: seq<T>, ks: seq<Tree<T>>, i: nat)
    requires i < |s| && |ks| == |s| + 1
    ensures Flat(Branch(s, ks))
         == Upto(s, ks, i) + (Flat(ks[i]) + [s[i]] + Flat(ks[i + 1])) + From(s, ks, i + 1)
  {
    Focus(s, ks, i);
    Regroup(Upto(s, ks, i), Flat(ks[i]), [s[i]], Flat(ks[i + 1]), From(s, ks, i + 1));
  }

  lemma SetPairFlat<T>(s: seq<T>, ks: seq<Tree<T>>, i: nat, l: Tree<T>, x: T, r: Tree<T>)
    requires i < |s| && |ks| == |s| + 1
    ensures Flat(SetPair(s, ks, i, l, x, r))
         == Upto(s, ks, i) + (Flat(l) + [x] + Flat(r)) + From(s, ks, i + 1)
  {
    var t := SetPair(s, ks, i, l, x, r);
    FocusPair(t.items, t.kids, i);
    assert s[..i] == t.items[..i] && ks[..i] == t.kids[..i];
    SameUpto(s, ks, t.items, t.kids, i);
    assert s[i + 1..] == t.items[i + 1..] && ks[i + 2..] == t.kids[i + 2..];
    SameFrom(s, ks, i + 1, t.items, t.kids, i + 1);
  }

  lemma FuseFlat<T>(s: seq<T>, ks: seq<Tree<T>>, i: nat, k: Tree<T>)
    requires i < |s| && |ks| == |s| + 1
    ensures Flat(Fuse(s, ks, i, k)) == Upto(s, ks, i) + Flat(k) + From(s, ks, i + 1)
  {
    var s', ks' := s[..i] + s[i + 1..], ks[..i] + [k] + ks[i + 2..];
    assert s[..i] == s'[..i] && ks[..i] == ks'[..i];
    assert s[i + 1..] == s'[i..] && ks[i + 2..] == ks'[i + 1..];
    SameUpto(s, ks, s', ks', i);
    SameFrom(s, ks, i + 1, s', ks', i);
    Focus(s', ks', i);
  }

  lemma PartFlat<T>(s: seq<T>, ks: seq<Tree<T>>, i: nat, l: Tree<T>, x: T, r: Tree<T>)
    requires i <= |s| && |ks| == |s| + 1
    ensures Flat(Part(s, ks, i, l, x, r))
         == Upto(s, ks, i) + (Flat(l) + [x] + Flat(r)) + From(s, ks, i)
  {
    var t := Part(s, ks, i, l, x, r);
    assert |t.kids| == |t.items| + 1 && t.items[i] == x && t.kids[i] == l && t.kids[i + 1] == r;
    FocusPair(t.items, t.kids, i);
    assert s[..i] == t.items[..i] && ks[..i] == t.kids[..i];
    SameUpto(s, ks, t.items, t.kids, i);
    assert s[i..] == t.items[i + 1..] && ks[i + 1..] == t.kids[i + 2..];
    SameFrom(s, ks, i, t.items, t.kids, i + 1);
  }

  // ---------- where a key can be ----------

  lemma {:induction false} ItemBefore<T>(s: seq<T>, ks: seq<Tree<T>>, i: nat, a: nat) returns (q: nat)
    requires a < i <= |s| && i <= |ks|
    ensures q < |Upto(s, ks, i)| && Upto(s, ks, i)[q] == s[a]
    decreases i
  {
    if a == i - 1 {
      q := |Upto(s, ks, i)| - 1;
    } else {
      q := ItemBefore(s, ks, i - 1, a);
    }
  }

  /** The separators of a sorted node are sorted. */
  lemma ItemsStrict<T>(cmp: (T, T) -> int, t: Tree<T>)
    requires Counted(t) && Strict(cmp, Flat(t))
    ensures Strict(cmp, t.items)
  {
    if t.Branch? {
      var s, ks := t.items, t.kids;
      forall i, j | 0 <= i < j < |s| ensures cmp(s[i], s[j]) < 0 {
        Focus(s, ks, j);
        var q := ItemBefore(s, ks, j, i);
        var a, b, c := Upto(s, ks, j), Flat(ks[j]), From(s, ks, j);
        assert c[0] == s[j];
        assert (a + b + c)[|a| + |b|] == s[j] && (a + b + c)[q] == s[i];
      }
    }
  }

  /** A key that is not a separator belongs to the child at its rank. */
  lemma Descend<T(!new)>(cmp: (T, T) -> int, s: seq<T>, ks: seq<Tree<T>>, x: T)
    requires IsOrder(cmp) && |ks| == |s| + 1 && Strict(cmp, Flat(Branch(s, ks)))
    ensures var i := Rank(cmp, s, x);
      && Strict(cmp, Flat(ks[i]))
      && AllBelow(cmp, Upto(s, ks, i), x)
      && (!Has(cmp, s, x) ==> AllAbove(cmp, From(s, ks, i), x))
  {
    var t := Branch(s, ks);
    var i := Rank(cmp, s, x);
    Focus(s, ks, i);
    var a, b, c := Upto(s, ks, i), Flat(ks[i]), From(s, ks, i);
    StrictParts(cmp, a, b, c);
    ItemsStrict(cmp, t);
    RankStops(cmp, s, x);
    if i > 0 { assert a[|a| - 1] == s[i - 1]; }
    BelowLast(cmp, a, x);
    if !Has(cmp, s, x) {
      if i < |s| { assert c[0] == s[i]; }
      AboveFirst(cmp, c, x);
    }
  }

  /** A key equivalent to one item of a sorted sequence is above what precedes it
      and below what follows it. */
  lemma AroundItem<T(!new)>(cmp: (T, T) -> int, a: seq<T>, y: T, c: seq<T>, x: T)
    requires IsOrder(cmp) && Strict(cmp, a + [y] + c) && cmp(y, x) == 0
    ensures AllBelow(cmp, a, x) && AllAbove(cmp, c, x)
  {
    var f := a + [y] + c;
    StrictParts(cmp, a, [y], c);
    if a != [] {
      assert f[|a| - 1] == a[|a| - 1] && f[|a|] == y;
      Chain(cmp, a[|a| - 1], y, x);
    }
    BelowLast(cmp, a, x);
    if c != [] {
      assert f[|a| + 1] == c[0] && f[|a|] == y;
      Flip(cmp, y, x);
      Chain(cmp, x, y, c[0]);
      Flip(cmp, x, c[0]);
    }
    AboveFirst(cmp, c, x);
  }

  /** Work on a key whose item is at hand touches that item only. */
  lemma AtItem<T(!new)>(cmp: (T, T) -> int, a: seq<T>, y: T, c: seq<T>, x: T)
    requires IsOrder(cmp) && Strict(cmp, a + [y] + c) && cmp(y, x) == 0
    ensures Put(cmp, a + [y] + c, x) == a + [x] + c
    ensures Remove(cmp, a + [y] + c, x) == a + c
    ensures Lookup(cmp, a + [y] + c, x) == Some(y)
  {
    AroundItem(cmp, a, y, c, x);
    Local(cmp, a, [y], c, x);
    RankAt(cmp, [y], x, 0);
  }

  lemma KidStrict<T>(cmp: (T, T) -> int, t: Tree<T>, i: nat)
    requires t.Branch? && Counted(t) && i < |t.kids| && Strict(cmp, Flat(t))
    ensures Strict(cmp, Flat(t.kids[i]))
  {
    Focus(t.items, t.kids, i);
    StrictParts(cmp, Upto(t.items, t.kids, i), Flat(t.kids[i]), From(t.items, t.kids, i));
  }

  lemma NotEmpty<T>(t: Tree<T>, h: nat, m: nat)
    requires Permitted(m) && Shape(t, h, m) && |t.items| >= 1
    ensures Flat(t) != []
  {
    if t.Branch? {
      Focus(t.items, t.kids, 0);
      assert From(t.items, t.kids, 0) != [];
    }
  }
}
