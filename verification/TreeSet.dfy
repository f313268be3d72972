/** Insert-or-replace with a split on the way back up, on node values. */
module TreeSet {
  import opened OrderedSeq
  import opened Trees

  /** The item at which an overfull node is cut. The leaning cut leaves the
      right half at the minimum fill, for loads in ascending order. */
  function CutPoint(m: nat, n: nat, lean: bool): (mid: int)
    requires Permitted(m)
  {
    if lean then
      var mid := m - 1 - MinItems(m);
      var short := n - (mid + 1) - MinItems(m);
      if short < 0 then mid + short else mid
    else
      (m - 1) / 2
  }

  /** Both cuts of a full node leave both halves sufficiently filled. */
  lemma CutFills(m: nat, lean: bool)
    requires Permitted(m)
    ensures var mid := CutPoint(m, m - 1, lean);
      && MinItems(m) <= mid < m - 1
      && MinItems(m) <= m - 1 - (mid + 1)
      && mid <= m - 2
      && (lean ==> m - 1 - (mid + 1) == MinItems(m))
      && (!lean ==> mid == m - 1 - (mid + 1))
  {
  }

  /** The branch after child i became k: split the child if it is full. */
  function Absorb<T>(s: seq<T>, ks: seq<Tree<T>>, i: nat, k: Tree<T>, m: nat, lean: bool): Tree<T>
    requires Permitted(m) && i <= |s| && |ks| == |s| + 1 && Counted(k)
  {
    if |k.items| == m - 1 then
      CutFills(m, lean);
      var (l, x, r) := Split(k, CutPoint(m, m - 1, lean));
      Part(s, ks, i, l, x, r)
    else
      Branch(s, ks[i := k])
  }

  lemma AbsorbFlat<T>(s: seq<T>, ks: seq<Tree<T>>, i: nat, k: Tree<T>, m: nat, lean: bool)
    requires Permitted(m) && i <= |s| && |ks| == |s| + 1 && Counted(k)
    ensures Flat(Absorb(s, ks, i, k, m, lean)) == Upto(s, ks, i) + Flat(k) + From(s, ks, i)
  {
    if |k.items| == m - 1 {
      CutFills(m, lean);
      var mid := CutPoint(m, m - 1, lean);
      var (l, x, r) := Split(k, mid);
      SplitFlat(k, mid);
      PartFlat(s, ks, i, l, x, r);
    } else {
      ReplaceKid(s, ks, i, k);
    }
  }

  lemma AbsorbShape<T>(s: seq<T>, ks: seq<Tree<T>>, i: nat, k: Tree<T>, h: nat, m: nat, lean: bool)
    requires Permitted(m) && i <= |s| && Shape(Branch(s, ks), h, m) && Shape(k, h - 1, m)
    requires MinItems(m) <= |k.items| <= m - 1
    ensures var t := Absorb(s, ks, i, k, m, lean);
      && Shape(t, h, m)
      && |t.items| == |s| + if |k.items| == m - 1 then 1 else 0
  {
    CutFills(m, lean);
    if |k.items| == m - 1 {
      var mid := CutPoint(m, m - 1, lean);
      var (l, x, r) := Split(k, mid);
      SplitShape(k, mid, h - 1, m);
      var ks' := ks[..i] + [l, r] + ks[i + 1..];
      forall j | 0 <= j < |ks'| ensures Shape(ks'[j], h - 1, m) && Filled(ks'[j], m) {
        if j < i { assert ks'[j] == ks[j]; }
        else if j > i + 1 { assert ks'[j] == ks[j - 1]; }
      }
    }
  }

  /** Insert or replace below a node: the node afterwards, possibly one item
      over the threshold, and the item that was replaced. */
  function Set<T>(cmp: (T, T) -> int, t: Tree<T>, x: T, h: nat, m: nat, lean: bool): (r: (Tree<T>, Option<T>))
    requires Permitted(m) && Shape(t, h, m) && |t.items| <= m - 2
    ensures Shape(r.0, h, m) && r.0.Leaf? == t.Leaf?
    ensures |t.items| <= |r.0.items| <= |t.items| + 1
    ensures r.1.Some? ==> |r.0.items| == |t.items|
    decreases h
  {
    var i := Rank(cmp, t.items, x);
    if Has(cmp, t.items, x) then
      (t.(items := t.items[i := x]), Some(t.items[i]))
    else if t.Leaf? then
      (Leaf(t.items[..i] + [x] + t.items[i..]), None)
    else
      var (k, was) := Set(cmp, t.kids[i], x, h - 1, m, lean);
      if was.Some? then
        (t.(kids := t.kids[i := k]), was)
      else
        AbsorbShape(t.items, t.kids, i, k, h, m, lean);
        (Absorb(t.items, t.kids, i, k, m, lean), None)
  }

  lemma SetAtSeparator<T(!new)>(cmp: (T, T) -> int, s: seq<T>, ks: seq<Tree<T>>, x: T)
    requires IsOrder(cmp) && |ks| == |s| + 1 && Strict(cmp, Flat(Branch(s, ks))) && Has(cmp, s, x)
    ensures var i := Rank(cmp, s, x); var f := Flat(Branch(s, ks));
      && Flat(Branch(s[i := x], ks)) == Put(cmp, f, x)
      && Lookup(cmp, f, x) == Some(s[i])
  {
    var i := Rank(cmp, s, x);
    FocusPair(s, ks, i);
    SetPairFlat(s, ks, i, ks[i], x, ks[i + 1]);
    assert ks[i := ks[i]][i + 1 := ks[i + 1]] == ks;
    var a, b, c, d := Upto(s, ks, i), Flat(ks[i]), Flat(ks[i + 1]), From(s, ks, i + 1);
    Regroup(a, b, [s[i]], c, d);
    Regroup(a, b, [x], c, d);
    AtItem(cmp, a + b, s[i], c + d, x);
  }

  /** Setting an item sets it in the sorted contents and reports the item replaced. */
  lemma {:induction false} SetContents<T(!new)>(cmp: (T, T) -> int, t: Tree<T>, x: T, h: nat, m: nat, lean: bool)
    requires Permitted(m) && Shape(t, h, m) && |t.items| <= m - 2
    requires IsOrder(cmp) && Strict(cmp, Flat(t))
    ensures var (t', was) := Set(cmp, t, x, h, m, lean);
      && Flat(t') == Put(cmp, Flat(t), x)
      && was == Lookup(cmp, Flat(t), x)
    decreases h
  {
    if t.Branch? {
      var s, ks := t.items, t.kids;
      var i := Rank(cmp, s, x);
      if Has(cmp, s, x) {
        SetAtSeparator(cmp, s, ks, x);
      } else {
        var (k, was) := Set(cmp, ks[i], x, h - 1, m, lean);
        Descend(cmp, s, ks, x);
        SetContents(cmp, ks[i], x, h - 1, m, lean);
        Focus(s, ks, i);
        Local(cmp, Upto(s, ks, i), Flat(ks[i]), From(s, ks, i), x);
        if was.Some? { ReplaceKid(s, ks, i, k); } else { AbsorbFlat(s, ks, i, k, m, lean); }
      }
    }
  }

  /** Insert or replace in a whole tree; a full root is split under a new root. */
  function SetRoot<T>(cmp: (T, T) -> int, root: Option<Tree<T>>, x: T, h: nat, m: nat, lean: bool)
    : (r: (Tree<T>, nat, Option<T>))
    requires Permitted(m) && Sound(root, h, m)
  {
    match root
    case None => (Leaf([x]), 1, None)
    case Some(t) =>
      var (t', was) := Set(cmp, t, x, h, m, lean);
      var (root', h') := if was.Some? then (t', h) else Raise(t', h, m, lean);
      (root', h', was)
  }

  /** A root that has become full is split under a new root. */
  function Raise<T>(t: Tree<T>, h: nat, m: nat, lean: bool): (Tree<T>, nat)
    requires Permitted(m) && Counted(t)
  {
    if |t.items| == m - 1 then
      CutFills(m, lean);
      var (l, y, r) := Split(t, CutPoint(m, m - 1, lean));
      (Branch([y], [l, r]), h + 1)
    else (t, h)
  }

  lemma NewRootShape<T>(t: Tree<T>, h: nat, m: nat, lean: bool)
    requires Permitted(m) && h >= 1 && Shape(t, h, m) && |t.items| == m - 1 && CutPoint(m, m - 1, lean) >= 0
    requires CutPoint(m, m - 1, lean) < m - 1
    ensures var (l, y, r) := Split(t, CutPoint(m, m - 1, lean)); Shape(Branch([y], [l, r]), h + 1, m)
  {
    CutFills(m, lean);
    SplitShape(t, CutPoint(m, m - 1, lean), h, m);
    var (l, y, r) := Split(t, CutPoint(m, m - 1, lean));
    assert Filled(l, m) && Filled(r, m);
  }

  lemma SplitRoot<T>(l: Tree<T>, y: T, r: Tree<T>)
    ensures Flat(Branch([y], [l, r])) == Flat(l) + [y] + Flat(r)
  {
    FocusPair([y], [l, r], 0);
    var f := Flat(l) + [y] + Flat(r);
    assert [] + f + [] == f;
  }

  /** The height grows by exactly one, exactly when the root had to be split. */
  lemma SetRootSound<T>(cmp: (T, T) -> int, root: Option<Tree<T>>, x: T, h: nat, m: nat, lean: bool)
    requires Permitted(m) && Sound(root, h, m)
    ensures var (t', h', _) := SetRoot(cmp, root, x, h, m, lean);
      && Sound(Some(t'), h', m)
      && h <= h' <= h + 1
      && (root.Some? ==> (h' == h + 1 <==> |Set(cmp, root.value, x, h, m, lean).0.items| == m - 1))
  {
    if root.Some? {
      var (t', was) := Set(cmp, root.value, x, h, m, lean);
      if was == None && |t'.items| == m - 1 {
        CutFills(m, lean);
        NewRootShape(t', h, m, lean);
      }
    }
  }

  /** Set in either split mode inserts or replaces in the sorted sequence. */
  lemma SetRootContents<T(!new)>(cmp: (T, T) -> int, root: Option<Tree<T>>, x: T, h: nat, m: nat, lean: bool)
    requires Permitted(m) && Sound(root, h, m)
    requires IsOrder(cmp) && Strict(cmp, Contents(root))
    ensures var (t', _, was) := SetRoot(cmp, root, x, h, m, lean);
      && Flat(t') == Put(cmp, Contents(root), x)
      && Strict(cmp, Flat(t'))
      && was == Lookup(cmp, Contents(root), x)
  {
    PutStrict(cmp, Contents(root), x);
    if root.Some? {
      var (t', was) := Set(cmp, root.value, x, h, m, lean);
      SetContents(cmp, root.value, x, h, m, lean);
      if was == None && |t'.items| == m - 1 {
        CutFills(m, lean);
        var mid := CutPoint(m, m - 1, lean);
        SplitFlat(t', mid);
        var (l, y, r) := Split(t', mid);
        SplitRoot(l, y, r);
      }
    }
  }

  lemma PutCount<T>(cmp: (T, T) -> int, s: seq<T>, x: T)
    ensures |Put(cmp, s, x)| == |s| + if Lookup(cmp, s, x) == None then 1 else 0
  {
  }

  /** A set on a whole tree: sound, the sorted insertion, and the item replaced. */
  lemma SetWhole<T(!new)>(cmp: (T, T) -> int, root: Option<Tree<T>>, x: T, h: nat, m: nat, lean: bool)
    requires Permitted(m) && Sound(root, h, m)
    requires IsOrder(cmp) && Strict(cmp, Contents(root))
    ensures var (t', h', was) := SetRoot(cmp, root, x, h, m, lean);
      && Sound(Some(t'), h', m)
      && Flat(t') == Put(cmp, Contents(root), x)
      && was == Lookup(cmp, Contents(root), x)
      && |Flat(t')| == |Contents(root)| + if was == None then 1 else 0
  {
    SetRootSound(cmp, root, x, h, m, lean);
    SetRootContents(cmp, root, x, h, m, lean);
    PutCount(cmp, Contents(root), x);
  }
}
