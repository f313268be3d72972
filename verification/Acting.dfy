/** Editing heap nodes while iterating over them. Items of a leaf with items to
    spare are removed in place; any other removal needs rebalancing and is handed
    back to the driver, which restarts from the removed key. */
module Acting {
  import opened OrderedSeq
  import opened Trees
  import opened Nodes
  import opened Surgery
  import opened Finding
  import opened Visits
  import opened Scanning
  import Del = Deleting

  /** How the work below a node ended: through, stopped by the callback, or at an
      item whose removal takes the slow route. */
  datatype Code<T> = Through | Stopped | Slow(item: T)

  /** Where a walk starts: at the first item not below the pivot, if there is one. */
  function Start<T>(cmp: (T, T) -> int, f: seq<T>, pivot: Option<T>): (r: nat)
    ensures r <= |f|
  {
    match pivot
    case None => 0
    case Some(p) => Rank(cmp, f, p)
  }

  /** How a walk ends: the contents left, the items shown, and whether it was stopped. */
  type End<T> = (seq<T>, seq<T>, bool)

  datatype Way = Up | Down

  /** The end of a walk upwards from position q, or downwards from it. */
  function EndOf<T>(iter: Editor<T>, way: Way, f: seq<T>, q: nat, log: seq<T>): End<T>
    requires q <= |f|
  {
    if way == Up then Walk(iter, f, q, log) else WalkBack(iter, f, q, log)
  }

  ghost predicate Ends<T>(iter: Editor<T>, way: Way, f: seq<T>, q: nat, log: seq<T>, e: End<T>) {
    q <= |f| && EndOf(iter, way, f, q, log) == e
  }

  /** The contents went from f to g, and a walk that stood at r stands at q with the
      same end ahead of it; or it was stopped; or it stands at an item whose slow
      removal is still to be carried out. */
  ghost predicate Steps<T(!new)>(cmp: (T, T) -> int, iter: Editor<T>, way: Way, f: seq<T>, r: nat, log: seq<T>,
                                 g: seq<T>, code: Code<T>, log': seq<T>, q: nat) {
    && r <= |f| && Thins(cmp, f, g)
    && match code
       case Through => q <= |g| && forall e :: Ends(iter, way, f, r, log, e) ==> Ends(iter, way, g, q, log', e)
       case Stopped => forall e :: Ends(iter, way, f, r, log, e) ==> e == (g, log', true)
       case Slow(x) =>
         && q < |g| && g[q] == x
         && forall e :: Ends(iter, way, f, r, log, e) ==> Ends(iter, way, g[..q] + g[q + 1..], q, log', e)
  }

  /** The same, as the methods pass it on. */
  ghost predicate Progress<T(!new)>(cmp: (T, T) -> int, iter: Editor<T>, way: Way, f: seq<T>, r: nat, log: seq<T>,
                                    g: seq<T>, code: Code<T>, log': seq<T>, q: nat) {
    forall end :: end == code ==> Steps(cmp, iter, way, f, r, log, g, end, log', q)
  }

  lemma ProgressSteps<T(!new)>(cmp: (T, T) -> int, iter: Editor<T>, way: Way, f: seq<T>, r: nat, log: seq<T>,
                               g: seq<T>, code: Code<T>, log': seq<T>, q: nat)
    ensures Progress(cmp, iter, way, f, r, log, g, code, log', q) <==>
      Steps(cmp, iter, way, f, r, log, g, code, log', q)
  {
  }

  /** Progress made, in terms of how the walk ends. */
  lemma ProgressEnd<T(!new)>(cmp: (T, T) -> int, iter: Editor<T>, way: Way, f: seq<T>, r: nat, log: seq<T>,
                             g: seq<T>, code: Code<T>, log': seq<T>, q: nat)
    requires Progress(cmp, iter, way, f, r, log, g, code, log', q)
    ensures r <= |f| && Thins(cmp, f, g)
    ensures if code.Slow? then q < |g| && g[q] == code.item else code == Through ==> q <= |g|
    ensures code == Through ==> EndOf(iter, way, f, r, log) == EndOf(iter, way, g, q, log')
    ensures code == Stopped ==> EndOf(iter, way, f, r, log) == (g, log', true)
    ensures code.Slow? ==> EndOf(iter, way, f, r, log) == EndOf(iter, way, g[..q] + g[q + 1..], q, log')
  {
    ProgressSteps(cmp, iter, way, f, r, log, g, code, log', q);
    assert Ends(iter, way, f, r, log, EndOf(iter, way, f, r, log));
  }

  lemma ProgressThen<T(!new)>(cmp: (T, T) -> int, iter: Editor<T>, way: Way, f: seq<T>, r: nat, log: seq<T>,
                              g: seq<T>, q: nat, log': seq<T>, h: seq<T>, code: Code<T>, log'': seq<T>, p: nat)
    requires Progress(cmp, iter, way, f, r, log, g, Through, log', q)
    requires Progress(cmp, iter, way, g, q, log', h, code, log'', p)
    ensures Progress(cmp, iter, way, f, r, log, h, code, log'', p)
  {
    ProgressSteps(cmp, iter, way, f, r, log, g, Through, log', q);
    ProgressSteps(cmp, iter, way, g, q, log', h, code, log'', p);
    ProgressSteps(cmp, iter, way, f, r, log, h, code, log'', p);
    ThinsThen(cmp, f, g, h);
  }

  lemma ProgressNone<T(!new)>(cmp: (T, T) -> int, iter: Editor<T>, way: Way, f: seq<T>, r: nat, log: seq<T>)
    requires r <= |f|
    ensures Progress(cmp, iter, way, f, r, log, f, Through, log, r)
  {
    ThinsSame(cmp, f);
    ProgressSteps(cmp, iter, way, f, r, log, f, Through, log, r);
  }

  /** One step of a walk, and that it keeps the order. */
  lemma StepAt<T(!new)>(cmp: (T, T) -> int, iter: Editor<T>, f: seq<T>, q: nat, log: seq<T>)
    requires IsOrder(cmp) && KeepsKeys(cmp, iter) && q < |f| && iter(log, f[q]) != Stop
    ensures var kept := Stays(iter(log, f[q]), f[q]); var g := f[..q] + kept + f[q + 1..];
      && Walk(iter, f, q, log) == Walk(iter, g, q + |kept|, log + [f[q]])
      && Thins(cmp, f, g)
      && (iter(log, f[q]) == Keep ==> g == f)
      && (iter(log, f[q]).Update? ==> g == f[q := iter(log, f[q]).item])
      && (iter(log, f[q]) == Delete ==> g == f[..q] + f[q + 1..])
  {
    var ans := iter(log, f[q]);
    var kept := Stays(ans, f[q]);
    ThinsSame(cmp, [f[q]]);
    ThinsDrop(cmp, f[q]);
    if ans.Update? { ThinsSwap(cmp, f[q], ans.item); }
    ThinsWithin(cmp, f[..q], [f[q]], kept, f[q + 1..]);
    UpdateOne(f, q, f[q]);
    assert f[q := f[q]] == f;
    if ans.Update? { UpdateOne(f, q, ans.item); }
  }

  /** What showing item r and carrying out the answer comes to. */
  lemma AnswerUp<T(!new)>(cmp: (T, T) -> int, iter: Editor<T>, f: seq<T>, r: nat, log: seq<T>)
    requires IsOrder(cmp) && KeepsKeys(cmp, iter) && r < |f|
    ensures var x := f[r];
      match iter(log, x)
      case Stop => Progress(cmp, iter, Up, f, r, log, f, Stopped, log + [x], r)
      case Delete => Progress(cmp, iter, Up, f, r, log, f, Slow(x), log + [x], r)
      case Keep => Progress(cmp, iter, Up, f, r, log, f, Through, log + [x], r + 1)
      case Update(y) => Progress(cmp, iter, Up, f, r, log, f[r := y], Through, log + [x], r + 1)
  {
    ThinsSame(cmp, f);
    if iter(log, f[r]) != Stop { StepAt(cmp, iter, f, r, log); }
  }

  // ---------- leaves ----------

  /** Carry out an answer on item i, unless it is a removal the leaf has no items to spare for. */
  method LeafEdit<T(!new,0)>(node: Node<T>, i: nat, ans: Answer<T>, m: nat) returns (slow: bool, removed: nat)
    requires Permitted(m) && node.Valid(m) && node.leaf && i < node.num_items <= m - 2 && ans != Stop
    modifies node`num_items, node`model, node.items, node.children
    ensures node.Valid(m) && node.num_items + removed == old(node.num_items)
    ensures removed > 0 ==> node.num_items >= MinItems(m)
    ensures slow ==> ans == Delete && node.model == old(node.model) && removed == 0
    ensures !slow ==>
      var s := old(node.model.items); node.model.items == s[..i] + Stays(ans, s[i]) + s[i + 1..]
  {
    slow, removed := false, 0;
    ghost var s := node.model.items;
    UpdateOne(s, i, s[i]);
    assert s[i := s[i]] == s;
    match ans {
      case Keep =>
      case Delete =>
        if node.num_items > MinItems(m) {
          var _ := Del.RemoveFromLeaf(node, i, m);
          removed := 1;
        } else {
          slow := true;
        }
      case Update(y) =>
        UpdateOne(s, i, y);
        PutItem(node, i, y, m);
    }
  }

  /** Show item i of a leaf and carry out the answer. */
  method LeafStep<T(!new,0)>(cmp: (T, T) -> int, node: Node<T>, i: nat, iter: Editor<T>, log: seq<T>, m: nat)
    returns (code: Code<T>, log': seq<T>, removed: nat, j: nat)
    requires IsOrder(cmp) && KeepsKeys(cmp, iter) && Permitted(m)
    requires node.Valid(m) && node.leaf && i < node.num_items <= m - 2
    modifies node`num_items, node`model, node.items, node.children
    ensures node.Valid(m) && node.num_items + removed == old(node.num_items)
    ensures removed > 0 ==> node.num_items >= MinItems(m)
    ensures code == Through ==> i <= j <= node.num_items && node.num_items - j < old(node.num_items) - i
    ensures Progress(cmp, iter, Up, old(node.model.items), i, log, node.model.items, code, log', j)
  {
    var x := node.items[i];
    var ans := iter(log, x);
    log', j := log + [x], i;
    if ans == Stop {
      ThinsSame(cmp, node.model.items);
      return Stopped, log', 0, i;
    }
    StepAt(cmp, iter, node.model.items, i, log);
    var slow;
    slow, removed := LeafEdit(node, i, ans, m);
    if slow {
      ThinsSame(cmp, node.model.items);
      return Slow(x), log', 0, i;
    }
    code, j := Through, i + |Stays(ans, x)|;
  }

  method LeafAct<T(!new,0)>(cmp: (T, T) -> int, node: Node<T>, start: nat, iter: Editor<T>, log: seq<T>, m: nat)
    returns (code: Code<T>, log': seq<T>, removed: nat, ghost q: nat)
    requires IsOrder(cmp) && KeepsKeys(cmp, iter) && Permitted(m)
    requires node.Valid(m) && node.leaf && start <= node.num_items <= m - 2
    modifies node, node.items, node.children
    ensures node.Valid(m) && node.repr == old(node.repr)
    ensures node.num_items + removed == old(node.num_items)
    ensures removed > 0 ==> node.num_items >= MinItems(m)
    ensures Progress(cmp, iter, Up, old(node.model.items), start, log, node.model.items, code, log', q)
    ensures code == Through ==> q == node.num_items
  {
    ghost var f := node.model.items;
    code, log', removed := Through, log, 0;
    var i: nat := start;
    ProgressNone(cmp, iter, Up, f, start, log);
    while i < node.num_items
      invariant node.Valid(m) && node.repr == old(node.repr)
      invariant i <= node.num_items && node.num_items + removed == |f|
      invariant removed > 0 ==> node.num_items >= MinItems(m)
      invariant code == Through && Progress(cmp, iter, Up, f, start, log, node.model.items, code, log', i)
      decreases node.num_items - i
    {
      ghost var s, at, was := node.model.items, i, log';
      var gone;
      code, log', gone, i := LeafStep(cmp, node, i, iter, log', m);
      removed := removed + gone;
      ProgressThen(cmp, iter, Up, f, start, log, s, at, was, node.model.items, code, log', i);
      if code != Through {
        break;
      }
    }
    q := i;
  }

  // ---------- branches ----------

  /** Children after the pivot's place hold nothing below it. */
  lemma BeyondPivot<T(!new)>(cmp: (T, T) -> int, t: Tree<T>, p: T, j: nat)
    requires IsOrder(cmp) && Counted(t) && t.Branch? && Strict(cmp, Flat(t))
    requires Rank(cmp, t.items, p) < j <= |t.items|
    ensures Rank(cmp, Flat(t.kids[j]), p) == 0
  {
    ItemsStrict(cmp, t);
    RankSplits(cmp, t.items, p);
    RankStops(cmp, t.items, p);
    var r := Rank(cmp, t.items, p);
    Focus(t.items, t.kids, j);
    var u, k, a := Upto(t.items, t.kids, j), Flat(t.kids[j]), From(t.items, t.kids, j);
    var y := t.items[j - 1];
    assert cmp(y, p) >= 0 by {
      if j - 1 > r && !Has(cmp, t.items, p) { assert y == t.items[r..][j - 1 - r]; }
      if j - 1 > r && Has(cmp, t.items, p) { assert y == t.items[r + 1..][j - 2 - r]; }
    }
    if k != [] {
      assert u[|u| - 1] == y;
      assert (u + k + a)[|u| - 1] == y && (u + k + a)[|u|] == k[0];
      Flip(cmp, y, p);
      Chain(cmp, p, y, k[0]);
      Flip(cmp, p, k[0]);
    }
    RankAt(cmp, k, p, 0);
  }

  /** Progress within a stretch of the contents is progress of the whole. */
  lemma EndLocal<T>(iter: Editor<T>, way: Way, u: seq<T>, k: seq<T>, a: seq<T>, r: nat, log: seq<T>)
    requires r <= |k|
    ensures var (k', log', stopped) := EndOf(iter, way, k, r, log);
      EndOf(iter, way, u + k + a, |u| + r, log) ==
        if stopped then (u + k' + a, log', true)
        else EndOf(iter, way, u + k' + a, if way == Up then |u| + |k'| else |u|, log')
  {
    if way == Up { WalkLocal(iter, u, k, a, r, log); } else { WalkBackLocal(iter, u, k, a, r, log); }
  }

  lemma Lift<T(!new)>(cmp: (T, T) -> int, iter: Editor<T>, way: Way, u: seq<T>, k: seq<T>, a: seq<T>, r: nat,
               log: seq<T>,
                      k': seq<T>, code: Code<T>, log': seq<T>, q: nat)
    requires Progress(cmp, iter, way, k, r, log, k', code, log', q)
    ensures Progress(cmp, iter, way, u + k + a, |u| + r, log, u + k' + a, code, log', |u| + q)
  {
    ProgressEnd(cmp, iter, way, k, r, log, k', code, log', q);
    ThinsWithin(cmp, u, k, k', a);
    if code.Slow? {
      LiftSlow(iter, way, u, k, a, r, log, k', log', q);
    } else {
      EndLocal(iter, way, u, k, a, r, log);
      if code == Through { EndLocal(iter, way, u, k', a, q, log'); }
    }
  }

  lemma LiftSlow<T>(iter: Editor<T>, way: Way, u: seq<T>, k: seq<T>, a: seq<T>, r: nat, log: seq<T>,
                    k': seq<T>, log': seq<T>, q: nat)
    requires r <= |k| && q < |k'|
    requires EndOf(iter, way, k, r, log) == EndOf(iter, way, k'[..q] + k'[q + 1..], q, log')
    ensures var g := u + k' + a;
      EndOf(iter, way, u + k + a, |u| + r, log) ==
      EndOf(iter, way, g[..|u| + q] + g[|u| + q + 1..], |u| + q, log')
  {
    var k'' := k'[..q] + k'[q + 1..];
    EndLocal(iter, way, u, k, a, r, log);
    EndLocal(iter, way, u, k'', a, q, log');
    CutWithin(u, k', a, q);
  }

  lemma CutWithin<T>(u: seq<T>, k: seq<T>, a: seq<T>, q: nat)
    requires q < |k|
    ensures var g := u + k + a; g[..|u| + q] + g[|u| + q + 1..] == u + (k[..q] + k[q + 1..]) + a
  {
    SliceLocal(u, k, a, q);
  }

  /** Where the walk of a branch starts is where the walk of the pivot's child starts. */
  lemma StartThrough<T(!new)>(cmp: (T, T) -> int, t: Tree<T>, pivot: Option<T>)
    requires IsOrder(cmp) && Counted(t) && t.Branch? && Strict(cmp, Flat(t))
    ensures var i := Start(cmp, t.items, pivot);
      Start(cmp, Flat(t), pivot) == |Upto(t.items, t.kids, i)| + Start(cmp, Flat(t.kids[i]), pivot)
  {
    if pivot.Some? {
      var i := Rank(cmp, t.items, pivot.value);
      RankThrough(cmp, t, pivot.value);
      if Has(cmp, t.items, pivot.value) {
        var k := Flat(t.kids[i]);
        LookupSeparator(cmp, t.items, t.kids, pivot.value);
        RankStops(cmp, Flat(t), pivot.value);
        var u := Upto(t.items, t.kids, i);
        forall j | 0 <= j < |k| ensures cmp(k[j], pivot.value) < 0 {
          assert Flat(t)[|u| + j] == k[j];
        }
        RankAt(cmp, k, pivot.value, |k|);
      }
    }
  }

  /** The trees of one node before and after: how far it may have shrunk. */
  ghost predicate Trimmed<T>(t: Tree<T>, t': Tree<T>, m: nat) {
    |t'.items| <= |t.items| && (|t'.items| < |t.items| ==> |t'.items| >= MinItems(m))
  }

  /** A branch that was t0 has become t, and child i is next: it and those after it are as they were. */
  ghost predicate AtChild<T(!new)>(cmp: (T, T) -> int, iter: Editor<T>, t0: Tree<T>, pivot: Option<T>, log0: seq<T>,
                                   t: Tree<T>, log: seq<T>, i: nat, removed: nat, h: nat, m: nat) {
    && Alongside(t0, t, i, h, m) && |Flat(t)| + removed == |Flat(t0)|
    && Progress(cmp, iter, Up, Flat(t0), Start(cmp, Flat(t0), pivot), log0, Flat(t), Through, log,
                |Upto(t.items, t.kids, i)| + Start(cmp, Flat(t.kids[i]), pivot))
  }

  ghost predicate Alongside<T>(t0: Tree<T>, t: Tree<T>, i: nat, h: nat, m: nat) {
    && Shape(t, h, m) && t.Branch? && t0.Branch? && |t.items| == |t0.items| && |t.kids| == |t0.kids|
    && i <= |t.items| && t.kids[i..] == t0.kids[i..]
  }

  /** Work in child i of a branch carries over to the branch. */
  lemma KidProgress<T(!new)>(cmp: (T, T) -> int, iter: Editor<T>, way: Way, t: Tree<T>, i: nat, r: nat, log: seq<T>,
                             k: Tree<T>, code: Code<T>, log': seq<T>, q: nat)
    requires Counted(t) && t.Branch? && i <= |t.items|
    requires Progress(cmp, iter, way, Flat(t.kids[i]), r, log, Flat(k), code, log', q)
    ensures var t' := t.(kids := t.kids[i := k]); var u := |Upto(t.items, t.kids, i)|;
      && Progress(cmp, iter, way, Flat(t), u + r, log, Flat(t'), code, log', u + q)
      && Upto(t'.items, t'.kids, i) == Upto(t.items, t.kids, i)
      && |Flat(t')| + |Flat(t.kids[i])| == |Flat(t)| + |Flat(k)|
  {
    var u, a := Upto(t.items, t.kids, i), From(t.items, t.kids, i);
    Focus(t.items, t.kids, i);
    ReplaceKid(t.items, t.kids, i, k);
    SameUpto(t.items, t.kids, t.items, t.kids[i := k], i);
    Lift(cmp, iter, way, u, Flat(t.kids[i]), a, r, log, Flat(k), code, log', q);
  }

  /** Separator i in the contents of a branch. */
  lemma ItemPlace<T>(t: Tree<T>, i: nat)
    requires Counted(t) && t.Branch? && i < |t.items|
    ensures var p := |Upto(t.items, t.kids, i)| + |Flat(t.kids[i])|;
      && p < |Flat(t)| && Flat(t)[p] == t.items[i]
      && p + 1 == |Upto(t.items, t.kids, i + 1)|
  {
    Focus(t.items, t.kids, i);
  }

  lemma SwapPlace<T>(s: seq<T>, ks: seq<Tree<T>>, i: nat, y: T)
    requires |ks| == |s| + 1 && i < |s|
    ensures |Upto(s[i := y], ks, i + 1)| == |Upto(s, ks, i)| + |Flat(ks[i])| + 1
  {
    SameUpto(s, ks, s[i := y], ks, i);
  }

  lemma SwapFlat<T>(s: seq<T>, ks: seq<Tree<T>>, i: nat, y: T)
    requires |ks| == |s| + 1 && i < |s|
    ensures var p := |Upto(s, ks, i)| + |Flat(ks[i])|;
      p < |Flat(Branch(s, ks))| && Flat(Branch(s[i := y], ks)) == Flat(Branch(s, ks))[p := y]
  {
    FocusPair(s, ks, i);
    SetPairFlat(s, ks, i, ks[i], y, ks[i + 1]);
    assert SetPair(s, ks, i, ks[i], y, ks[i + 1]) == Branch(s[i := y], ks) by {
      assert ks[i := ks[i]] == ks;
      assert ks[i + 1 := ks[i + 1]] == ks;
    }
    SwapWithin(Upto(s, ks, i), Flat(ks[i]), s[i], Flat(ks[i + 1]), From(s, ks, i + 1), y);
  }

  lemma SwapWithin<T>(u: seq<T>, k: seq<T>, x: T, k': seq<T>, a: seq<T>, y: T)
    ensures (u + (k + [x] + k') + a)[|u| + |k| := y] == u + (k + [y] + k') + a
  {
  }

  /** Show separator i of a branch and carry out the answer. */
  method BranchItem<T(!new,0)>(cmp: (T, T) -> int, node: Node<T>, i: nat, iter: Editor<T>, log: seq<T>, ghost m: nat)
    returns (code: Code<T>, log': seq<T>, ghost q: nat)
    requires IsOrder(cmp) && KeepsKeys(cmp, iter)
    requires node.Valid(m) && !node.leaf && i < node.num_items
    modifies node`model, node.items
    ensures node.Valid(m) && node.repr == old(node.repr)
    ensures node.model.Branch? && node.model.kids == old(node.model).kids
      && |node.model.items| == |old(node.model).items|
    ensures |Flat(node.model)| == |Flat(old(node.model))|
    ensures var t, t' := old(node.model), node.model;
      && Progress(cmp, iter, Up, Flat(t), |Upto(t.items, t.kids, i)| + |Flat(t.kids[i])|, log, Flat(t'), code, log', q)
      && (code == Through ==> q == |Upto(t'.items, t'.kids, i + 1)|)
  {
    ghost var t := node.model;
    ItemPlace(t, i);
    q := |Upto(t.items, t.kids, i)| + |Flat(t.kids[i])|;
    var x := node.items[i];
    var ans := iter(log, x);
    log' := log + [x];
    ItemShown(cmp, iter, t, i, log);
    match ans {
      case Stop => return Stopped, log', q;
      case Keep =>
      case Delete => return Slow(x), log', q;
      case Update(y) => PutItem(node, i, y, m);
    }
    code, q := Through, q + 1;
  }

  /** What showing separator i of a branch comes to, by the answer. */
  lemma ItemShown<T(!new)>(cmp: (T, T) -> int, iter: Editor<T>, t: Tree<T>, i: nat, log: seq<T>)
    requires IsOrder(cmp) && KeepsKeys(cmp, iter) && Counted(t) && t.Branch? && i < |t.items|
    ensures var x, r := t.items[i], |Upto(t.items, t.kids, i)| + |Flat(t.kids[i])|;
      match iter(log, x)
      case Stop => Progress(cmp, iter, Up, Flat(t), r, log, Flat(t), Stopped, log + [x], r)
      case Delete => Progress(cmp, iter, Up, Flat(t), r, log, Flat(t), Slow(x), log + [x], r)
      case Keep => Progress(cmp, iter, Up, Flat(t), r, log, Flat(t), Through, log + [x], r + 1)
      case Update(y) =>
        var t' := Branch(t.items[i := y], t.kids);
        && Progress(cmp, iter, Up, Flat(t), r, log, Flat(t'), Through, log + [x], r + 1)
        && |Flat(t')| == |Flat(t)| && r + 1 == |Upto(t'.items, t'.kids, i + 1)|
  {
    ItemPlace(t, i);
    AnswerUp(cmp, iter, Flat(t), |Upto(t.items, t.kids, i)| + |Flat(t.kids[i])|, log);
    if iter(log, t.items[i]).Update? { ItemSwapped(t, i, iter(log, t.items[i]).item); }
  }

  lemma ItemSwapped<T>(t: Tree<T>, i: nat, y: T)
    requires Counted(t) && t.Branch? && i < |t.items|
    ensures var t', r := Branch(t.items[i := y], t.kids), |Upto(t.items, t.kids, i)| + |Flat(t.kids[i])|;
      && r < |Flat(t)| && Flat(t') == Flat(t)[r := y]
      && Upto(t'.items, t'.kids, i) == Upto(t.items, t.kids, i) && r + 1 == |Upto(t'.items, t'.kids, i + 1)|
  {
    assert t == Branch(t.items, t.kids);
    SwapFlat(t.items, t.kids, i, y);
    SwapPlace(t.items, t.kids, i, y);
    SameUpto(t.items, t.kids, t.items[i := y], t.kids, i);
  }

  lemma ShapeAfter<T>(t: Tree<T>, i: nat, k: Tree<T>, h: nat, m: nat)
    requires Shape(t, h, m) && t.Branch? && i < |t.kids|
    requires Shape(k, h - 1, m) && Trimmed(t.kids[i], k, m)
    ensures Shape(t.(kids := t.kids[i := k]), h, m)
  {
    var ks := t.kids[i := k];
    forall j | 0 <= j < |ks| ensures Shape(ks[j], h - 1, m) && Filled(ks[j], m) {
      assert Shape(t.kids[j], h - 1, m) && Filled(t.kids[j], m);
    }
  }

  /** What NodeAct guarantees, on node values. */
  ghost predicate Acted<T(!new)>(cmp: (T, T) -> int, iter: Editor<T>, t: Tree<T>, pivot: Option<T>, log: seq<T>,
                                 t': Tree<T>, code: Code<T>, log': seq<T>, q: nat, removed: nat, h: nat, m: nat) {
    && Shape(t', h, m) && Trimmed(t, t', m)
    && |Flat(t')| + removed == |Flat(t)|
    && Progress(cmp, iter, Up, Flat(t), Start(cmp, Flat(t), pivot), log, Flat(t'), code, log', q)
    && (code == Through ==> q == |Flat(t')|)
  }

  /** The same, as the methods pass it on. */
  ghost predicate Did<T(!new)>(cmp: (T, T) -> int, iter: Editor<T>, t: Tree<T>, pivot: Option<T>, log: seq<T>,
                               t': Tree<T>, code: Code<T>, log': seq<T>, q: nat, removed: nat, h: nat, m: nat) {
    forall end :: end == code ==> Acted(cmp, iter, t, pivot, log, t', end, log', q, removed, h, m)
  }

  lemma DidNow<T(!new)>(cmp: (T, T) -> int, iter: Editor<T>, t: Tree<T>, pivot: Option<T>, log: seq<T>,
                        t': Tree<T>, code: Code<T>, log': seq<T>, q: nat, removed: nat, h: nat, m: nat)
    requires Acted(cmp, iter, t, pivot, log, t', code, log', q, removed, h, m)
    ensures Did(cmp, iter, t, pivot, log, t', code, log', q, removed, h, m)
  {
  }

  lemma DidThen<T(!new)>(cmp: (T, T) -> int, iter: Editor<T>, t: Tree<T>, pivot: Option<T>, log: seq<T>,
                         t': Tree<T>, code: Code<T>, log': seq<T>, q: nat, removed: nat, h: nat, m: nat)
    requires Did(cmp, iter, t, pivot, log, t', code, log', q, removed, h, m)
    ensures Acted(cmp, iter, t, pivot, log, t', code, log', q, removed, h, m)
  {
  }

  /** Progress that ended inside a branch. */
  ghost predicate Standing<T(!new)>(cmp: (T, T) -> int, iter: Editor<T>, t0: Tree<T>, pivot: Option<T>, log0: seq<T>,
                                    t: Tree<T>, code: Code<T>, log: seq<T>, q: nat, removed: nat, h: nat, m: nat) {
    && Shape(t, h, m) && |Flat(t)| + removed == |Flat(t0)|
    && Progress(cmp, iter, Up, Flat(t0), Start(cmp, Flat(t0), pivot), log0, Flat(t), code, log, q)
  }

  /** Before child i of a branch, or at the end of the pass. */
  ghost predicate AtOrStanding<T(!new)>(cmp: (T, T) -> int, iter: Editor<T>, t0: Tree<T>, pivot: Option<T>,
                                        log0: seq<T>, t: Tree<T>, code: Code<T>, log: seq<T>, i: nat, q: nat,
                                        removed: nat, h: nat, m: nat) {
    if code == Through then AtChild(cmp, iter, t0, pivot, log0, t, log, i, removed, h, m)
    else Standing(cmp, iter, t0, pivot, log0, t, code, log, q, removed, h, m)
  }

  /** The same, as the methods pass it on. */
  ghost predicate Going<T(!new)>(cmp: (T, T) -> int, iter: Editor<T>, t0: Tree<T>, pivot: Option<T>, log0: seq<T>,
                                 t: Tree<T>, code: Code<T>, log: seq<T>, i: nat, q: nat, removed: nat, h: nat, m: nat) {
    forall end :: end == code ==> AtOrStanding(cmp, iter, t0, pivot, log0, t, end, log, i, q, removed, h, m)
  }

  lemma GoOn<T(!new)>(cmp: (T, T) -> int, iter: Editor<T>, t0: Tree<T>, pivot: Option<T>, log0: seq<T>,
                      t: Tree<T>, log: seq<T>, i: nat, q: nat, removed: nat, h: nat, m: nat)
    requires AtChild(cmp, iter, t0, pivot, log0, t, log, i, removed, h, m)
    ensures Going(cmp, iter, t0, pivot, log0, t, Through, log, i, q, removed, h, m)
  {
  }

  lemma GoingOn<T(!new)>(cmp: (T, T) -> int, iter: Editor<T>, t0: Tree<T>, pivot: Option<T>, log0: seq<T>,
                         t: Tree<T>, log: seq<T>, i: nat, q: nat, removed: nat, h: nat, m: nat)
    requires Going(cmp, iter, t0, pivot, log0, t, Through, log, i, q, removed, h, m)
    ensures AtChild(cmp, iter, t0, pivot, log0, t, log, i, removed, h, m)
  {
    assert AtOrStanding(cmp, iter, t0, pivot, log0, t, Through, log, i, q, removed, h, m);
  }

  lemma GoEnded<T(!new)>(cmp: (T, T) -> int, iter: Editor<T>, t0: Tree<T>, pivot: Option<T>, log0: seq<T>,
                         t: Tree<T>, code: Code<T>, log: seq<T>, i: nat, q: nat, removed: nat, h: nat, m: nat)
    requires code != Through && Standing(cmp, iter, t0, pivot, log0, t, code, log, q, removed, h, m)
    ensures Going(cmp, iter, t0, pivot, log0, t, code, log, i, q, removed, h, m)
  {
  }

  lemma GoingEnded<T(!new)>(cmp: (T, T) -> int, iter: Editor<T>, t0: Tree<T>, pivot: Option<T>, log0: seq<T>,
                            t: Tree<T>, code: Code<T>, log: seq<T>, i: nat, q: nat, removed: nat, h: nat, m: nat)
    requires code != Through && Going(cmp, iter, t0, pivot, log0, t, code, log, i, q, removed, h, m)
    ensures Standing(cmp, iter, t0, pivot, log0, t, code, log, q, removed, h, m)
  {
    assert AtOrStanding(cmp, iter, t0, pivot, log0, t, code, log, i, q, removed, h, m);
  }

  /** The part of NodeAct that works inside child i. */
  method ChildAct<T(!new,0)>(cmp: (T, T) -> int, node: Node<T>, i: nat, pivot: Option<T>, iter: Editor<T>, log: seq<T>,
                             hint: Hint, depth: nat, ghost h: nat, m: nat)
    returns (code: Code<T>, log': seq<T>, removed: nat, ghost q: nat, hint': Hint)
    requires IsOrder(cmp) && KeepsKeys(cmp, iter) && Permitted(m) && HintOk(hint)
    requires node.Valid(m) && !node.leaf && i <= node.num_items && Shape(node.model, h, m)
    requires Strict(cmp, Flat(node.model.kids[i]))
    modifies node.repr
    ensures node.Valid(m) && node.repr <= old(node.repr) && node.model.Branch?
      && |node.model.kids| == |old(node.model).kids|
    ensures node.model == old(node.model).(kids := old(node.model).kids[i := node.model.kids[i]])
    ensures Did(cmp, iter, old(node.model).kids[i], pivot, log, node.model.kids[i], code, log', q, removed, h - 1, m)
    ensures HintOk(hint') && hint'.Some? == hint.Some?
    decreases h, 0, 0
  {
    Gap(m);
    var child := node.Kid(i, m);
    ghost var t := node.model;
    ghost var a, c := Apart(node, i, m);
    assert a + c !! child.repr && node.Own() !! child.repr + a + c;
    code, log', removed, q, hint' := NodeAct(cmp, child, pivot, iter, log, hint, depth + 1, h - 1, m);
    DidNow(cmp, iter, t.kids[i], pivot, log, child.model, code, log', q, removed, h - 1, m);
    Refresh(node, i, child, t.kids, a, c, m);
  }

  /** Every item of a node not below the pivot, in order, each shown once. */
  method NodeAct<T(!new,0)>(cmp: (T, T) -> int, node: Node<T>, pivot: Option<T>, iter: Editor<T>, log: seq<T>,
                            hint: Hint, depth: nat, ghost h: nat, m: nat)
    returns (code: Code<T>, log': seq<T>, removed: nat, ghost q: nat, hint': Hint)
    requires IsOrder(cmp) && KeepsKeys(cmp, iter) && Permitted(m) && HintOk(hint)
    requires node.Valid(m) && Shape(node.model, h, m) && 1 <= node.num_items <= m - 2
    requires Strict(cmp, Flat(node.model))
    modifies node.repr
    ensures node.Valid(m) && node.repr <= old(node.repr)
    ensures Acted(cmp, iter, old(node.model), pivot, log, node.model, code, log', q, removed, h, m)
    ensures HintOk(hint') && hint'.Some? == hint.Some?
    decreases h, 2
  {
    ItemsStrict(cmp, node.model);
    var i := 0;
    hint' := hint;
    if pivot.Some? {
      var found;
      i, found, hint' := Find(cmp, node, pivot.value, hint, depth);
    }
    if node.leaf {
      code, log', removed, q := LeafAct(cmp, node, i, iter, log, m);
    } else {
      code, log', removed, q, hint' := BranchAct(cmp, node, i, pivot, iter, log, hint', depth, h, m);
    }
  }

  method BranchAct<T(!new,0)>(cmp: (T, T) -> int, node: Node<T>, start: nat, pivot: Option<T>, iter: Editor<T>,
                              log: seq<T>, hint: Hint, depth: nat, ghost h: nat, m: nat)
    returns (code: Code<T>, log': seq<T>, removed: nat, ghost q: nat, hint': Hint)
    requires IsOrder(cmp) && KeepsKeys(cmp, iter) && Permitted(m) && HintOk(hint)
    requires node.Valid(m) && Shape(node.model, h, m) && !node.leaf && 1 <= node.num_items <= m - 2
    requires Strict(cmp, Flat(node.model)) && start == Start(cmp, node.model.items, pivot)
    modifies node.repr
    ensures node.Valid(m) && node.repr <= old(node.repr)
    ensures Acted(cmp, iter, old(node.model), pivot, log, node.model, code, log', q, removed, h, m)
    ensures HintOk(hint') && hint'.Some? == hint.Some?
    decreases h, 1
  {
    ghost var t0 := node.model;
    AtStart(cmp, iter, t0, pivot, log, h, m);
    GoOn(cmp, iter, t0, pivot, log, t0, log, start, 0, 0, h, m);
    var i;
    code, log', i, removed, q, hint' := UpToLast(cmp, node, start, pivot, iter, log, hint, depth, h, m);
    if code == Through {
      code, log', removed, q, hint' := LastChild(cmp, node, t0, i, q, pivot, iter, log, log', removed, hint',
                                                 depth, h, m);
    } else {
      GoingEnded(cmp, iter, t0, pivot, log, node.model, code, log', i, q, removed, h, m);
      Arrived(cmp, iter, t0, pivot, log, node.model, code, log', q, removed, h, m);
    }
  }

  /** All children but the last, and all separators. */
  method UpToLast<T(!new,0)>(cmp: (T, T) -> int, node: Node<T>, start: nat, pivot: Option<T>, iter: Editor<T>,
                             log: seq<T>, hint: Hint, depth: nat, ghost h: nat, m: nat)
    returns (code: Code<T>, log': seq<T>, i: nat, removed: nat, ghost q: nat, hint': Hint)
    requires IsOrder(cmp) && KeepsKeys(cmp, iter) && Permitted(m) && HintOk(hint)
    requires node.Valid(m) && Shape(node.model, h, m) && !node.leaf && 1 <= node.num_items <= m - 2
    requires Strict(cmp, Flat(node.model)) && start == Start(cmp, node.model.items, pivot)
    requires Going(cmp, iter, node.model, pivot, log, node.model, Through, log, start, 0, 0, h, m)
    modifies node.repr
    ensures node.Valid(m) && node.repr <= old(node.repr) && node.num_items == old(node.num_items)
    ensures HintOk(hint') && hint'.Some? == hint.Some?
    ensures code == Through ==> i == node.num_items
    ensures Going(cmp, iter, old(node.model), pivot, log, node.model, code, log', i, q, removed, h, m)
    decreases h, 0, 3
  {
    ghost var t0 := node.model;
    code, log', i, removed, q, hint' := Through, log, start, 0, 0, hint;
    while i < node.num_items && code == Through
      invariant node.Valid(m) && node.repr <= old(node.repr) && node.num_items == |t0.items|
      invariant start <= i <= node.num_items && HintOk(hint') && hint'.Some? == hint.Some?
      invariant Going(cmp, iter, t0, pivot, log, node.model, code, log', i, q, removed, h, m)
      decreases node.num_items - i
    {
      var gone;
      code, log', gone, q, hint' := BranchStep(cmp, node, t0, i, q, pivot, iter, log, log', removed, hint',
                                               depth, h, m);
      removed := removed + gone;
      i := i + 1;
    }
  }

  /** The child after the last separator. */
  method LastChild<T(!new,0)>(cmp: (T, T) -> int, node: Node<T>, ghost t0: Tree<T>, i: nat, ghost at: nat,
                              pivot: Option<T>, iter: Editor<T>, ghost log0: seq<T>, log: seq<T>, removed: nat,
                              hint: Hint, depth: nat, ghost h: nat, m: nat)
    returns (code: Code<T>, log': seq<T>, removed': nat, ghost q: nat, hint': Hint)
    requires IsOrder(cmp) && KeepsKeys(cmp, iter) && Permitted(m) && HintOk(hint)
    requires node.Valid(m) && !node.leaf && i == node.num_items == |t0.items| && Counted(t0) && Strict(cmp, Flat(t0))
    requires Going(cmp, iter, t0, pivot, log0, node.model, Through, log, i, at, removed, h, m)
    modifies node.repr
    ensures node.Valid(m) && node.repr <= old(node.repr)
    ensures HintOk(hint') && hint'.Some? == hint.Some?
    ensures Acted(cmp, iter, t0, pivot, log0, node.model, code, log', q, removed', h, m)
    decreases h, 0, 2
  {
    var gone;
    code, log', gone, q, hint' := ChildStep(cmp, node, t0, i, at, pivot, iter, log0, log, removed, hint, depth, h, m);
    removed' := removed + gone;
    PassedLast(cmp, iter, t0, pivot, log0, node.model, code, log', i, q, removed', h, m);
  }

  lemma AtStart<T(!new)>(cmp: (T, T) -> int, iter: Editor<T>, t0: Tree<T>, pivot: Option<T>, log: seq<T>, h: nat,
                  m: nat)
    requires IsOrder(cmp) && Shape(t0, h, m) && t0.Branch? && Strict(cmp, Flat(t0))
    ensures AtChild(cmp, iter, t0, pivot, log, t0, log, Start(cmp, t0.items, pivot), 0, h, m)
  {
    StartThrough(cmp, t0, pivot);
    StandAt(cmp, iter, t0, pivot, log, Start(cmp, t0.items, pivot), h, m);
  }

  lemma StandAt<T(!new)>(cmp: (T, T) -> int, iter: Editor<T>, t0: Tree<T>, pivot: Option<T>, log: seq<T>, i: nat,
                  h: nat, m: nat)
    requires Shape(t0, h, m) && t0.Branch? && i <= |t0.items|
    requires Start(cmp, Flat(t0), pivot) == |Upto(t0.items, t0.kids, i)| + Start(cmp, Flat(t0.kids[i]), pivot)
    ensures AtChild(cmp, iter, t0, pivot, log, t0, log, i, 0, h, m)
  {
    ProgressNone(cmp, iter, Up, Flat(t0), Start(cmp, Flat(t0), pivot), log);
  }

  lemma Arrived<T(!new)>(cmp: (T, T) -> int, iter: Editor<T>, t0: Tree<T>, pivot: Option<T>, log0: seq<T>,
                         t: Tree<T>, code: Code<T>, log: seq<T>, q: nat, removed: nat, h: nat, m: nat)
    requires |t.items| == |t0.items| && Standing(cmp, iter, t0, pivot, log0, t, code, log, q, removed, h, m)
    requires code == Through ==> q == |Flat(t)|
    ensures Acted(cmp, iter, t0, pivot, log0, t, code, log, q, removed, h, m)
  {
  }

  lemma ChildReady<T(!new)>(cmp: (T, T) -> int, iter: Editor<T>, t0: Tree<T>, pivot: Option<T>, log0: seq<T>,
                            t: Tree<T>, log: seq<T>, i: nat, at: nat, removed: nat, h: nat, m: nat)
    requires Going(cmp, iter, t0, pivot, log0, t, Through, log, i, at, removed, h, m)
    requires Counted(t0) && Strict(cmp, Flat(t0))
    ensures Shape(t, h, m) && t.Branch? && i < |t.kids| && Strict(cmp, Flat(t.kids[i]))
  {
    GoingOn(cmp, iter, t0, pivot, log0, t, log, i, at, removed, h, m);
    assert t.kids[i] == t.kids[i..][0] == t0.kids[i..][0];
    KidStrict(cmp, t0, i);
  }

  lemma AlongsideAfter<T>(t0: Tree<T>, t: Tree<T>, i: nat, k: Tree<T>, h: nat, m: nat)
    requires Alongside(t0, t, i, h, m) && Shape(k, h - 1, m) && Trimmed(t.kids[i], k, m)
    ensures var t' := t.(kids := t.kids[i := k]); Shape(t', h, m) && t'.kids[i + 1..] == t0.kids[i + 1..]
  {
    ShapeAfter(t, i, k, h, m);
    TailAfter(t.kids, t0.kids, i, k);
  }

  lemma TailAfter<T>(ks: seq<Tree<T>>, ks0: seq<Tree<T>>, i: nat, k: Tree<T>)
    requires |ks| == |ks0| && i < |ks| && ks[i..] == ks0[i..]
    ensures ks[i := k][i + 1..] == ks0[i + 1..]
  {
    assert ks[i := k][i + 1..] == ks[i..][1..] && ks0[i + 1..] == ks0[i..][1..];
  }

  lemma ChildProgress<T(!new)>(cmp: (T, T) -> int, iter: Editor<T>, way: Way, f0: seq<T>, r0: nat, log0: seq<T>,
                               t: Tree<T>, i: nat, r: nat, log: seq<T>, k: Tree<T>, code: Code<T>, log': seq<T>, q: nat)
    requires Counted(t) && t.Branch? && i <= |t.items|
    requires Progress(cmp, iter, way, f0, r0, log0, Flat(t), Through, log, |Upto(t.items, t.kids, i)| + r)
    requires Progress(cmp, iter, way, Flat(t.kids[i]), r, log, Flat(k), code, log', q)
    ensures var t' := t.(kids := t.kids[i := k]); var u := |Upto(t.items, t.kids, i)|;
      && Progress(cmp, iter, way, f0, r0, log0, Flat(t'), code, log', u + q)
      && Upto(t'.items, t'.kids, i) == Upto(t.items, t.kids, i)
      && |Flat(t')| + |Flat(t.kids[i])| == |Flat(t)| + |Flat(k)|
  {
    var t', u := t.(kids := t.kids[i := k]), |Upto(t.items, t.kids, i)|;
    KidProgress(cmp, iter, way, t, i, r, log, k, code, log', q);
    ProgressThen(cmp, iter, way, f0, r0, log0, Flat(t), u + r, log, Flat(t'), code, log', u + q);
  }

  /** Behind child i of a branch, or at the end of the pass; the children after it are as they were. */
  ghost predicate Behind<T(!new)>(cmp: (T, T) -> int, iter: Editor<T>, t0: Tree<T>, pivot: Option<T>, log0: seq<T>,
                                  t: Tree<T>, code: Code<T>, log: seq<T>, i: nat, q: nat, removed: nat, h: nat,
                                  m: nat) {
    && Standing(cmp, iter, t0, pivot, log0, t, code, log, q, removed, h, m)
    && t.Branch? && t0.Branch? && |t.items| == |t0.items| && |t.kids| == |t0.kids| && i < |t.kids|
    && t.kids[i + 1..] == t0.kids[i + 1..]
    && (code == Through ==> q == |Upto(t.items, t.kids, i)| + |Flat(t.kids[i])|)
  }

  /** The same, as the methods pass it on. */
  ghost predicate Passed<T(!new)>(cmp: (T, T) -> int, iter: Editor<T>, t0: Tree<T>, pivot: Option<T>, log0: seq<T>,
                                  t: Tree<T>, code: Code<T>, log: seq<T>, i: nat, q: nat, removed: nat, h: nat,
                                  m: nat) {
    forall end :: end == code ==> Behind(cmp, iter, t0, pivot, log0, t, end, log, i, q, removed, h, m)
  }

  lemma PassedNow<T(!new)>(cmp: (T, T) -> int, iter: Editor<T>, t0: Tree<T>, pivot: Option<T>, log0: seq<T>,
                           t: Tree<T>, code: Code<T>, log: seq<T>, i: nat, q: nat, removed: nat, h: nat, m: nat)
    requires Behind(cmp, iter, t0, pivot, log0, t, code, log, i, q, removed, h, m)
    ensures Passed(cmp, iter, t0, pivot, log0, t, code, log, i, q, removed, h, m)
  {
  }

  lemma PassedThen<T(!new)>(cmp: (T, T) -> int, iter: Editor<T>, t0: Tree<T>, pivot: Option<T>, log0: seq<T>,
                            t: Tree<T>, code: Code<T>, log: seq<T>, i: nat, q: nat, removed: nat, h: nat, m: nat)
    requires Passed(cmp, iter, t0, pivot, log0, t, code, log, i, q, removed, h, m)
    ensures Behind(cmp, iter, t0, pivot, log0, t, code, log, i, q, removed, h, m)
  {
  }

  lemma PassedLast<T(!new)>(cmp: (T, T) -> int, iter: Editor<T>, t0: Tree<T>, pivot: Option<T>, log0: seq<T>,
                            t: Tree<T>, code: Code<T>, log: seq<T>, i: nat, q: nat, removed: nat, h: nat, m: nat)
    requires Passed(cmp, iter, t0, pivot, log0, t, code, log, i, q, removed, h, m) && i == |t.items|
    ensures Acted(cmp, iter, t0, pivot, log0, t, code, log, q, removed, h, m)
  {
    PassedThen(cmp, iter, t0, pivot, log0, t, code, log, i, q, removed, h, m);
    Focus(t.items, t.kids, i);
    Arrived(cmp, iter, t0, pivot, log0, t, code, log, q, removed, h, m);
  }

  lemma PassedEnded<T(!new)>(cmp: (T, T) -> int, iter: Editor<T>, t0: Tree<T>, pivot: Option<T>, log0: seq<T>,
                             t: Tree<T>, code: Code<T>, log: seq<T>, i: nat, q: nat, removed: nat, h: nat, m: nat)
    requires code != Through && Passed(cmp, iter, t0, pivot, log0, t, code, log, i, q, removed, h, m)
    ensures Going(cmp, iter, t0, pivot, log0, t, code, log, i + 1, q, removed, h, m)
  {
    PassedThen(cmp, iter, t0, pivot, log0, t, code, log, i, q, removed, h, m);
    GoEnded(cmp, iter, t0, pivot, log0, t, code, log, i + 1, q, removed, h, m);
  }

  /** What a step inside child i is for the branch: its shape and the children after it. */
  lemma ChildShaped<T(!new)>(cmp: (T, T) -> int, iter: Editor<T>, t0: Tree<T>, pivot: Option<T>, log0: seq<T>,
                             t: Tree<T>, log: seq<T>, i: nat, at: nat, removed: nat, k: Tree<T>, code: Code<T>,
                             log': seq<T>, q: nat, gone: nat, h: nat, m: nat)
    requires Going(cmp, iter, t0, pivot, log0, t, Through, log, i, at, removed, h, m)
    requires h > 0 && t.Branch? && i < |t.kids|
    requires Did(cmp, iter, t.kids[i], pivot, log, k, code, log', q, gone, h - 1, m)
    ensures t0.Branch? && |t.kids| == |t.items| + 1 == |t0.kids| == |t0.items| + 1
    ensures var t' := t.(kids := t.kids[i := k]); Shape(t', h, m) && t'.kids[i + 1..] == t0.kids[i + 1..]
  {
    GoingOn(cmp, iter, t0, pivot, log0, t, log, i, at, removed, h, m);
    DidThen(cmp, iter, t.kids[i], pivot, log, k, code, log', q, gone, h - 1, m);
    AlongsideAfter(t0, t, i, k, h, m);
  }

  /** Its size and the progress made. */
  lemma ChildStood<T(!new)>(cmp: (T, T) -> int, iter: Editor<T>, t0: Tree<T>, pivot: Option<T>, log0: seq<T>,
                            t: Tree<T>, log: seq<T>, i: nat, at: nat, removed: nat, k: Tree<T>, code: Code<T>,
                            log': seq<T>, q: nat, gone: nat, h: nat, m: nat)
    requires Going(cmp, iter, t0, pivot, log0, t, Through, log, i, at, removed, h, m)
    requires h > 0 && t.Branch? && i < |t.kids| == |t.items| + 1
    requires Did(cmp, iter, t.kids[i], pivot, log, k, code, log', q, gone, h - 1, m)
    ensures var t' := t.(kids := t.kids[i := k]); var u := |Upto(t.items, t.kids, i)|;
      && |Flat(t')| + removed + gone == |Flat(t0)| && |Upto(t'.items, t'.kids, i)| == u
      && Progress(cmp, iter, Up, Flat(t0), Start(cmp, Flat(t0), pivot), log0, Flat(t'), code, log', u + q)
      && (code == Through ==> q == |Flat(k)|)
  {
    GoingOn(cmp, iter, t0, pivot, log0, t, log, i, at, removed, h, m);
    DidThen(cmp, iter, t.kids[i], pivot, log, k, code, log', q, gone, h - 1, m);
    ChildProgress(cmp, iter, Up, Flat(t0), Start(cmp, Flat(t0), pivot), log0, t, i, Start(cmp, Flat(t.kids[i]), pivot),
                  log, k, code, log', q);
  }

  /** Both together, as the methods pass it on. */
  lemma ChildPassed<T(!new)>(cmp: (T, T) -> int, iter: Editor<T>, t0: Tree<T>, pivot: Option<T>, log0: seq<T>,
                             t: Tree<T>, log: seq<T>, i: nat, at: nat, removed: nat, k: Tree<T>, code: Code<T>,
                             log': seq<T>, q: nat, gone: nat, h: nat, m: nat)
    requires Going(cmp, iter, t0, pivot, log0, t, Through, log, i, at, removed, h, m)
    requires h > 0 && t.Branch? && i < |t.kids|
    requires Did(cmp, iter, t.kids[i], pivot, log, k, code, log', q, gone, h - 1, m)
    ensures |t.kids| == |t.items| + 1
    ensures Passed(cmp, iter, t0, pivot, log0, t.(kids := t.kids[i := k]), code, log', i,
      |Upto(t.items, t.kids, i)| + q, removed + gone, h, m)
  {
    ChildShaped(cmp, iter, t0, pivot, log0, t, log, i, at, removed, k, code, log', q, gone, h, m);
    ChildStood(cmp, iter, t0, pivot, log0, t, log, i, at, removed, k, code, log', q, gone, h, m);
    PassedNow(cmp, iter, t0, pivot, log0, t.(kids := t.kids[i := k]), code, log', i,
      |Upto(t.items, t.kids, i)| + q, removed + gone, h, m);
  }

  method ChildStep<T(!new,0)>(cmp: (T, T) -> int, node: Node<T>, ghost t0: Tree<T>, i: nat, ghost at: nat,
                              pivot: Option<T>, iter: Editor<T>, ghost log0: seq<T>, log: seq<T>, ghost removed: nat,
                              hint: Hint, depth: nat, ghost h: nat, m: nat)
    returns (code: Code<T>, log': seq<T>, gone: nat, ghost q: nat, hint': Hint)
    requires IsOrder(cmp) && KeepsKeys(cmp, iter) && Permitted(m) && HintOk(hint)
    requires node.Valid(m) && !node.leaf && i <= node.num_items && Counted(t0) && Strict(cmp, Flat(t0))
    requires Going(cmp, iter, t0, pivot, log0, node.model, Through, log, i, at, removed, h, m)
    modifies node.repr
    ensures node.Valid(m) && node.repr <= old(node.repr) && node.num_items == old(node.num_items)
    ensures HintOk(hint') && hint'.Some? == hint.Some?
    ensures Passed(cmp, iter, t0, pivot, log0, node.model, code, log', i, q, removed + gone, h, m)
    decreases h, 0, 1
  {
    ghost var t := node.model;
    ChildReady(cmp, iter, t0, pivot, log0, t, log, i, at, removed, h, m);
    code, log', gone, q, hint' := ChildAct(cmp, node, i, pivot, iter, log, hint, depth, h, m);
    ChildPassed(cmp, iter, t0, pivot, log0, t, log, i, at, removed, node.model.kids[i], code, log', q, gone, h, m);
    q := |Upto(t.items, t.kids, i)| + q;
  }

  /** Child i and then separator i of a branch. */
  method BranchStep<T(!new,0)>(cmp: (T, T) -> int, node: Node<T>, ghost t0: Tree<T>, i: nat, ghost at: nat,
                               pivot: Option<T>, iter: Editor<T>, ghost log0: seq<T>, log: seq<T>, ghost removed: nat,
                               hint: Hint, depth: nat, ghost h: nat, m: nat)
    returns (code: Code<T>, log': seq<T>, gone: nat, ghost q: nat, hint': Hint)
    requires IsOrder(cmp) && KeepsKeys(cmp, iter) && Permitted(m) && HintOk(hint)
    requires node.Valid(m) && !node.leaf && i < node.num_items == |t0.items| && node.num_items <= m - 2
    requires Shape(t0, h, m) && Strict(cmp, Flat(t0)) && t0.Branch? && i >= Start(cmp, t0.items, pivot)
    requires Going(cmp, iter, t0, pivot, log0, node.model, Through, log, i, at, removed, h, m)
    modifies node.repr
    ensures node.Valid(m) && node.repr <= old(node.repr) && node.num_items == old(node.num_items)
    ensures HintOk(hint') && hint'.Some? == hint.Some?
    ensures Going(cmp, iter, t0, pivot, log0, node.model, code, log', i + 1, q, removed + gone, h, m)
    decreases h, 0, 2
  {
    code, log', gone, q, hint' := ChildStep(cmp, node, t0, i, at, pivot, iter, log0, log, removed, hint, depth, h, m);
    if code == Through {
      code, log', q := ItemStep(cmp, node, t0, i, pivot, iter, log0, log', removed + gone, q, h, m);
    } else {
      PassedEnded(cmp, iter, t0, pivot, log0, node.model, code, log', i, q, removed + gone, h, m);
    }
  }

  method ItemStep<T(!new,0)>(cmp: (T, T) -> int, node: Node<T>, ghost t0: Tree<T>, i: nat, ghost pivot: Option<T>,
                             iter: Editor<T>, ghost log0: seq<T>, log: seq<T>, ghost removed: nat, ghost at: nat,
                             ghost h: nat, ghost m: nat)
    returns (code: Code<T>, log': seq<T>, ghost q: nat)
    requires IsOrder(cmp) && KeepsKeys(cmp, iter)
    requires node.Valid(m) && !node.leaf && i < node.num_items == |t0.items|
    requires Shape(t0, h, m) && Strict(cmp, Flat(t0)) && t0.Branch? && i >= Start(cmp, t0.items, pivot)
    requires Passed(cmp, iter, t0, pivot, log0, node.model, Through, log, i, at, removed, h, m)
    modifies node`model, node.items
    ensures node.Valid(m) && node.repr == old(node.repr) && node.num_items == old(node.num_items)
    ensures Going(cmp, iter, t0, pivot, log0, node.model, code, log', i + 1, q, removed, h, m)
  {
    ghost var t := node.model;
    code, log', q := BranchItem(cmp, node, i, iter, log, m);
    AfterItem(cmp, iter, t0, pivot, log0, t, log, at, removed, i, node.model, code, log', q, h, m);
  }

  lemma AfterItem<T(!new)>(cmp: (T, T) -> int, iter: Editor<T>, t0: Tree<T>, pivot: Option<T>, log0: seq<T>,
                           t: Tree<T>, log: seq<T>, at: nat, removed: nat, i: nat,
                           t': Tree<T>, code: Code<T>, log': seq<T>, q: nat, h: nat, m: nat)
    requires IsOrder(cmp) && Shape(t0, h, m) && t0.Branch? && Strict(cmp, Flat(t0)) && i < |t0.items|
    requires Passed(cmp, iter, t0, pivot, log0, t, Through, log, i, at, removed, h, m)
    requires t.Branch? && Counted(t) && i < |t.items| && i >= Start(cmp, t0.items, pivot)
    requires t'.Branch? && t'.kids == t.kids && |t'.items| == |t.items| && |Flat(t')| == |Flat(t)|
    requires Progress(cmp, iter, Up, Flat(t), |Upto(t.items, t.kids, i)| + |Flat(t.kids[i])|, log,
                      Flat(t'), code, log', q)
    requires code == Through ==> q == |Upto(t'.items, t'.kids, i + 1)|
    ensures Going(cmp, iter, t0, pivot, log0, t', code, log', i + 1, q, removed, h, m)
  {
    ItemStood(cmp, iter, t0, pivot, log0, t, log, at, removed, i, t', code, log', q, h, m);
    if code == Through {
      ItemPassed(cmp, iter, t0, pivot, log0, t, removed, i, t', log', q, h, m);
      GoOn(cmp, iter, t0, pivot, log0, t', log', i + 1, q, removed, h, m);
    } else {
      GoEnded(cmp, iter, t0, pivot, log0, t', code, log', i + 1, q, removed, h, m);
    }
  }

  lemma ItemStood<T(!new)>(cmp: (T, T) -> int, iter: Editor<T>, t0: Tree<T>, pivot: Option<T>, log0: seq<T>,
                           t: Tree<T>, log: seq<T>, at: nat, removed: nat, i: nat,
                           t': Tree<T>, code: Code<T>, log': seq<T>, q: nat, h: nat, m: nat)
    requires Passed(cmp, iter, t0, pivot, log0, t, Through, log, i, at, removed, h, m)
    requires t.Branch? && Counted(t) && i < |t.items|
    requires t'.Branch? && t'.kids == t.kids && |t'.items| == |t.items| && |Flat(t')| == |Flat(t)|
    requires Progress(cmp, iter, Up, Flat(t), |Upto(t.items, t.kids, i)| + |Flat(t.kids[i])|, log,
                      Flat(t'), code, log', q)
    ensures Standing(cmp, iter, t0, pivot, log0, t', code, log', q, removed, h, m)
    ensures t0.Branch? && |t.items| == |t0.items| && |t.kids| == |t0.kids| && t.kids[i + 1..] == t0.kids[i + 1..]
  {
    PassedThen(cmp, iter, t0, pivot, log0, t, Through, log, i, at, removed, h, m);
    ProgressThen(cmp, iter, Up, Flat(t0), Start(cmp, Flat(t0), pivot), log0, Flat(t), at, log, Flat(t'), code, log', q);
  }

  lemma ItemPassed<T(!new)>(cmp: (T, T) -> int, iter: Editor<T>, t0: Tree<T>, pivot: Option<T>, log0: seq<T>,
                            t: Tree<T>, removed: nat, i: nat, t': Tree<T>, log': seq<T>, q: nat, h: nat, m: nat)
    requires IsOrder(cmp) && Shape(t0, h, m) && t0.Branch? && Strict(cmp, Flat(t0))
    requires t.Branch? && |t.items| == |t0.items| && |t.kids| == |t0.kids| && i < |t0.items|
    requires i >= Start(cmp, t0.items, pivot) && t.kids[i + 1..] == t0.kids[i + 1..]
    requires t'.Branch? && t'.kids == t.kids && |t'.items| == |t.items| && q == |Upto(t'.items, t'.kids, i + 1)|
    requires Standing(cmp, iter, t0, pivot, log0, t', Through, log', q, removed, h, m)
    ensures AtChild(cmp, iter, t0, pivot, log0, t', log', i + 1, removed, h, m)
  {
    assert t'.kids[i + 1] == t.kids[i + 1..][0] == t0.kids[i + 1..][0] == t0.kids[i + 1];
    if pivot.Some? { BeyondPivot(cmp, t0, pivot.value, i + 1); }
  }

  // ---------- restarting ----------

  /** Once the item at q is out, the walk resumes at the first item not below its key. */
  lemma RestartPlace<T(!new)>(cmp: (T, T) -> int, g: seq<T>, q: nat)
    requires IsOrder(cmp) && Strict(cmp, g) && q < |g|
    ensures Remove(cmp, g, g[q]) == g[..q] + g[q + 1..]
    ensures Lookup(cmp, g, g[q]) == Some(g[q])
    ensures Start(cmp, Remove(cmp, g, g[q]), Some(g[q])) == q
  {
    MemberRank(cmp, g, q);
    var s := g[..q] + g[q + 1..];
    forall i | 0 <= i < q ensures cmp(s[i], g[q]) < 0 { assert s[i] == g[i]; }
    if q < |s| {
      assert s[q] == g[q + 1];
      Flip(cmp, g[q], g[q + 1]);
    }
    RankAt(cmp, s, g[q], q);
  }

  /** A pass over a whole tree that did not end in a slow removal has ended the walk. */
  lemma PassEnds<T(!new)>(cmp: (T, T) -> int, iter: Editor<T>, f: seq<T>, pivot: Option<T>, log: seq<T>,
                          g: seq<T>, code: Code<T>, log': seq<T>, q: nat)
    requires Strict(cmp, f) && Progress(cmp, iter, Up, f, Start(cmp, f, pivot), log, g, code, log', q)
    requires code == Through ==> q == |g|
    ensures Strict(cmp, g)
    ensures !code.Slow? ==> Walk(iter, f, Start(cmp, f, pivot), log) == (g, log', code == Stopped)
  {
    ProgressEnd(cmp, iter, Up, f, Start(cmp, f, pivot), log, g, code, log', q);
    ThinsKeepsOrder(cmp, f, g);
  }

  /** A slow removal, once carried out, leaves the same walk to do. */
  lemma PassResumes<T(!new)>(cmp: (T, T) -> int, iter: Editor<T>, f: seq<T>, pivot: Option<T>, log: seq<T>,
                             g: seq<T>, x: T, log': seq<T>, q: nat)
    requires IsOrder(cmp) && Strict(cmp, f)
      && Progress(cmp, iter, Up, f, Start(cmp, f, pivot), log, g, Slow(x), log', q)
    ensures var s := Remove(cmp, g, x);
      && |s| < |g|
      && Walk(iter, f, Start(cmp, f, pivot), log) == Walk(iter, s, Start(cmp, s, Some(x)), log')
  {
    ProgressEnd(cmp, iter, Up, f, Start(cmp, f, pivot), log, g, Slow(x), log', q);
    ThinsKeepsOrder(cmp, f, g);
    RestartPlace(cmp, g, q);
  }
}
