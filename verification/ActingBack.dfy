/** Editing heap nodes while iterating over them downwards. */
module ActingBack {
  import opened OrderedSeq
  import opened Trees
  import opened Nodes
  import opened Surgery
  import opened Finding
  import opened Visits
  import opened Scanning
  import opened Acting
  import Del = Deleting

  /** Where a downward walk starts: behind the last item not above the pivot, if there is one. */
  function StartBack<T>(cmp: (T, T) -> int, f: seq<T>, pivot: Option<T>): (r: nat)
    ensures r <= |f|
  {
    match pivot
    case None => |f|
    case Some(p) => RankAbove(cmp, f, p)
  }

  /** One step of a downward walk, and that it keeps the order. */
  lemma StepBackAt<T(!new)>(cmp: (T, T) -> int, iter: Editor<T>, f: seq<T>, i: nat, log: seq<T>)
    requires IsOrder(cmp) && KeepsKeys(cmp, iter) && i < |f| && iter(log, f[i]) != Stop
    ensures var kept := Stays(iter(log, f[i]), f[i]); var g := f[..i] + kept + f[i + 1..];
      && WalkBack(iter, f, i + 1, log) == WalkBack(iter, g, i, log + [f[i]])
      && Thins(cmp, f, g)
      && (iter(log, f[i]) == Keep ==> g == f)
      && (iter(log, f[i]).Update? ==> g == f[i := iter(log, f[i]).item])
      && (iter(log, f[i]) == Delete ==> g == f[..i] + f[i + 1..])
  {
    StepAt(cmp, iter, f, i, log);
  }

  /** What showing item i and carrying out the answer comes to. */
  lemma AnswerDown<T(!new)>(cmp: (T, T) -> int, iter: Editor<T>, f: seq<T>, i: nat, log: seq<T>)
    requires IsOrder(cmp) && KeepsKeys(cmp, iter) && i < |f|
    ensures var x := f[i];
      match iter(log, x)
      case Stop => Progress(cmp, iter, Down, f, i + 1, log, f, Stopped, log + [x], i)
      case Delete => Progress(cmp, iter, Down, f, i + 1, log, f, Slow(x), log + [x], i)
      case Keep => Progress(cmp, iter, Down, f, i + 1, log, f, Through, log + [x], i)
      case Update(y) => Progress(cmp, iter, Down, f, i + 1, log, f[i := y], Through, log + [x], i)
  {
    ThinsSame(cmp, f);
    if iter(log, f[i]) != Stop { StepBackAt(cmp, iter, f, i, log); }
  }

  // ---------- leaves ----------

  /** Show item i of a leaf and carry out the answer. */
  method LeafStepBack<T(!new,0)>(cmp: (T, T) -> int, node: Node<T>, i: nat, iter: Editor<T>, log: seq<T>, m: nat)
    returns (code: Code<T>, log': seq<T>, removed: nat)
    requires IsOrder(cmp) && KeepsKeys(cmp, iter) && Permitted(m)
    requires node.Valid(m) && node.leaf && i < node.num_items <= m - 2
    modifies node`num_items, node`model, node.items, node.children
    ensures node.Valid(m) && node.num_items + removed == old(node.num_items)
    ensures removed > 0 ==> node.num_items >= MinItems(m)
    ensures code == Through ==> i <= node.num_items
    ensures Progress(cmp, iter, Down, old(node.model.items), i + 1, log, node.model.items, code, log', i)
  {
    var x := node.items[i];
    var ans := iter(log, x);
    log' := log + [x];
    if ans == Stop {
      ThinsSame(cmp, node.model.items);
      return Stopped, log', 0;
    }
    StepBackAt(cmp, iter, node.model.items, i, log);
    var slow;
    slow, removed := LeafEdit(node, i, ans, m);
    if slow {
      ThinsSame(cmp, node.model.items);
      return Slow(x), log', 0;
    }
    code := Through;
  }

  method LeafActBack<T(!new,0)>(cmp: (T, T) -> int, node: Node<T>, end: nat, iter: Editor<T>, log: seq<T>, m: nat)
    returns (code: Code<T>, log': seq<T>, removed: nat, ghost q: nat)
    requires IsOrder(cmp) && KeepsKeys(cmp, iter) && Permitted(m)
    requires node.Valid(m) && node.leaf && end <= node.num_items <= m - 2
    modifies node, node.items, node.children
    ensures node.Valid(m) && node.repr == old(node.repr)
    ensures node.num_items + removed == old(node.num_items)
    ensures removed > 0 ==> node.num_items >= MinItems(m)
    ensures Progress(cmp, iter, Down, old(node.model.items), end, log, node.model.items, code, log', q)
    ensures code == Through ==> q == 0
  {
    ghost var f := node.model.items;
    code, log', removed := Through, log, 0;
    var i: nat := end;
    ProgressNone(cmp, iter, Down, f, end, log);
    while i > 0
      invariant node.Valid(m) && node.repr == old(node.repr)
      invariant i <= node.num_items && node.num_items + removed == |f|
      invariant removed > 0 ==> node.num_items >= MinItems(m)
      invariant code == Through && Progress(cmp, iter, Down, f, end, log, node.model.items, code, log', i)
    {
      i := i - 1;
      ghost var s, was := node.model.items, log';
      var gone;
      code, log', gone := LeafStepBack(cmp, node, i, iter, log', m);
      removed := removed + gone;
      ProgressThen(cmp, iter, Down, f, end, log, s, i + 1, was, node.model.items, code, log', i);
      if code != Through {
        break;
      }
    }
    q := i;
  }

  // ---------- branches ----------

  /** Where the downward walk of a branch starts. */
  lemma StartBackThrough<T(!new)>(cmp: (T, T) -> int, t: Tree<T>, pivot: Option<T>, i: nat, found: bool)
    requires IsOrder(cmp) && Counted(t) && t.Branch? && Strict(cmp, Flat(t))
    requires if pivot.Some? then i == Rank(cmp, t.items, pivot.value) && found == Has(cmp, t.items, pivot.value)
             else i == |t.items| && !found
    ensures i <= |t.items| && (found ==> i < |t.items|)
    ensures found ==> StartBack(cmp, Flat(t), pivot) == |Upto(t.items, t.kids, i + 1)|
    ensures !found ==>
      StartBack(cmp, Flat(t), pivot) == |Upto(t.items, t.kids, i)| + StartBack(cmp, Flat(t.kids[i]), pivot)
  {
    if pivot.Some? {
      RankThrough(cmp, t, pivot.value);
      if found { ItemPlace(t, i); }
    }
  }

  /** Children before the pivot's place hold nothing above it. */
  lemma BeforePivot<T(!new)>(cmp: (T, T) -> int, t: Tree<T>, pivot: Option<T>, j: nat)
    requires IsOrder(cmp) && Counted(t) && t.Branch? && Strict(cmp, Flat(t)) && j < |t.items|
    requires pivot.Some? ==> j < RankAbove(cmp, t.items, pivot.value)
    ensures StartBack(cmp, Flat(t.kids[j]), pivot) == |Flat(t.kids[j])|
  {
    if pivot.Some? {
      var p, y := pivot.value, t.items[j];
      ItemsStrict(cmp, t);
      RankStops(cmp, t.items, p);
      assert cmp(y, p) <= 0;
      Focus(t.items, t.kids, j);
      var u, k, a := Upto(t.items, t.kids, j), Flat(t.kids[j]), From(t.items, t.kids, j);
      assert a[0] == y;
      forall x | 0 <= x < |k| ensures cmp(k[x], p) < 0 {
        assert (u + k + a)[|u| + x] == k[x] && (u + k + a)[|u| + |k|] == y;
        Chain(cmp, k[x], y, p);
      }
      RankAt(cmp, k, p, |k|);
    }
  }

  /** A branch that was t0 has become t, and item i - 1 is next: the children before it are as they were. */
  ghost predicate AtGap<T(!new)>(cmp: (T, T) -> int, iter: Editor<T>, t0: Tree<T>, pivot: Option<T>, log0: seq<T>,
                                 t: Tree<T>, log: seq<T>, i: nat, removed: nat, h: nat, m: nat) {
    && Before(t0, t, i, h, m) && |Flat(t)| + removed == |Flat(t0)|
    && Progress(cmp, iter, Down, Flat(t0), StartBack(cmp, Flat(t0), pivot), log0, Flat(t), Through, log,
                |Upto(t.items, t.kids, i)|)
  }

  ghost predicate Before<T>(t0: Tree<T>, t: Tree<T>, i: nat, h: nat, m: nat) {
    && Shape(t, h, m) && t.Branch? && t0.Branch? && |t.items| == |t0.items| && |t.kids| == |t0.kids|
    && i <= |t.items| && t.kids[..i] == t0.kids[..i]
  }

  /** What NodeActBack guarantees, on node values. */
  ghost predicate ActedBack<T(!new)>(cmp: (T, T) -> int, iter: Editor<T>, t: Tree<T>, pivot: Option<T>, log: seq<T>,
                                     t': Tree<T>, code: Code<T>, log': seq<T>, q: nat, removed: nat, h: nat, m: nat) {
    && Shape(t', h, m) && Trimmed(t, t', m)
    && |Flat(t')| + removed == |Flat(t)|
    && Progress(cmp, iter, Down, Flat(t), StartBack(cmp, Flat(t), pivot), log, Flat(t'), code, log', q)
    && (code == Through ==> q == 0)
  }

  /** The same, as the methods pass it on. */
  ghost predicate DidBack<T(!new)>(cmp: (T, T) -> int, iter: Editor<T>, t: Tree<T>, pivot: Option<T>, log: seq<T>,
                                   t': Tree<T>, code: Code<T>, log': seq<T>, q: nat, removed: nat, h: nat, m: nat) {
    forall end :: end == code ==> ActedBack(cmp, iter, t, pivot, log, t', end, log', q, removed, h, m)
  }

  lemma DidBackNow<T(!new)>(cmp: (T, T) -> int, iter: Editor<T>, t: Tree<T>, pivot: Option<T>, log: seq<T>,
                            t': Tree<T>, code: Code<T>, log': seq<T>, q: nat, removed: nat, h: nat, m: nat)
    requires ActedBack(cmp, iter, t, pivot, log, t', code, log', q, removed, h, m)
    ensures DidBack(cmp, iter, t, pivot, log, t', code, log', q, removed, h, m)
  {
  }

  lemma DidBackThen<T(!new)>(cmp: (T, T) -> int, iter: Editor<T>, t: Tree<T>, pivot: Option<T>, log: seq<T>,
                             t': Tree<T>, code: Code<T>, log': seq<T>, q: nat, removed: nat, h: nat, m: nat)
    requires DidBack(cmp, iter, t, pivot, log, t', code, log', q, removed, h, m)
    ensures ActedBack(cmp, iter, t, pivot, log, t', code, log', q, removed, h, m)
  {
  }

  /** Show separator i of a branch and carry out the answer. */
  method BranchItemBack<T(!new,0)>(cmp: (T, T) -> int, node: Node<T>, i: nat, iter: Editor<T>, log: seq<T>,
                          ghost m: nat)
    returns (code: Code<T>, log': seq<T>, ghost q: nat)
    requires IsOrder(cmp) && KeepsKeys(cmp, iter)
    requires node.Valid(m) && !node.leaf && i < node.num_items
    modifies node`model, node.items
    ensures node.Valid(m) && node.repr == old(node.repr)
    ensures node.model.Branch? && node.model.kids == old(node.model).kids
      && |node.model.items| == |old(node.model).items|
    ensures |Flat(node.model)| == |Flat(old(node.model))|
    ensures var t, t' := old(node.model), node.model;
      && Progress(cmp, iter, Down, Flat(t), |Upto(t.items, t.kids, i + 1)|, log, Flat(t'), code, log', q)
      && (code == Through ==> q == |Upto(t'.items, t'.kids, i)| + |Flat(t'.kids[i])|)
  {
    ghost var t := node.model;
    ItemPlace(t, i);
    q := |Upto(t.items, t.kids, i)| + |Flat(t.kids[i])|;
    var x := node.items[i];
    var ans := iter(log, x);
    log' := log + [x];
    ItemShownBack(cmp, iter, t, i, log);
    match ans {
      case Stop => return Stopped, log', q;
      case Keep =>
      case Delete => return Slow(x), log', q;
      case Update(y) => PutItem(node, i, y, m);
    }
    code := Through;
  }

  /** What showing separator i of a branch comes to, by the answer. */
  lemma ItemShownBack<T(!new)>(cmp: (T, T) -> int, iter: Editor<T>, t: Tree<T>, i: nat, log: seq<T>)
    requires IsOrder(cmp) && KeepsKeys(cmp, iter) && Counted(t) && t.Branch? && i < |t.items|
    ensures var x, r := t.items[i], |Upto(t.items, t.kids, i)| + |Flat(t.kids[i])|;
      match iter(log, x)
      case Stop => Progress(cmp, iter, Down, Flat(t), r + 1, log, Flat(t), Stopped, log + [x], r)
      case Delete => Progress(cmp, iter, Down, Flat(t), r + 1, log, Flat(t), Slow(x), log + [x], r)
      case Keep => Progress(cmp, iter, Down, Flat(t), r + 1, log, Flat(t), Through, log + [x], r)
      case Update(y) =>
        var t' := Branch(t.items[i := y], t.kids);
        && Progress(cmp, iter, Down, Flat(t), r + 1, log, Flat(t'), Through, log + [x], r)
        && |Flat(t')| == |Flat(t)| && r == |Upto(t'.items, t'.kids, i)| + |Flat(t.kids[i])|
  {
    ItemPlace(t, i);
    AnswerDown(cmp, iter, Flat(t), |Upto(t.items, t.kids, i)| + |Flat(t.kids[i])|, log);
    if iter(log, t.items[i]).Update? { ItemSwapped(t, i, iter(log, t.items[i]).item); }
  }

  /** The part of NodeActBack that works inside child i. */
  method ChildActBack<T(!new,0)>(cmp: (T, T) -> int, node: Node<T>, i: nat, pivot: Option<T>, iter: Editor<T>,
                        log: seq<T>,
                                 hint: Hint, depth: nat, ghost h: nat, m: nat)
    returns (code: Code<T>, log': seq<T>, removed: nat, ghost q: nat, hint': Hint)
    requires IsOrder(cmp) && KeepsKeys(cmp, iter) && Permitted(m) && HintOk(hint)
    requires node.Valid(m) && !node.leaf && i <= node.num_items && Shape(node.model, h, m)
    requires Strict(cmp, Flat(node.model.kids[i]))
    modifies node.repr
    ensures node.Valid(m) && node.repr <= old(node.repr) && node.model.Branch?
      && |node.model.kids| == |old(node.model).kids|
    ensures node.model == old(node.model).(kids := old(node.model).kids[i := node.model.kids[i]])
    ensures DidBack(cmp, iter, old(node.model).kids[i], pivot, log, node.model.kids[i], code, log', q, removed,
                    h - 1, m)
    ensures HintOk(hint') && hint'.Some? == hint.Some?
    decreases h, 0, 0
  {
    Gap(m);
    var child := node.Kid(i, m);
    ghost var t := node.model;
    ghost var a, c := Apart(node, i, m);
    assert a + c !! child.repr && node.Own() !! child.repr + a + c;
    code, log', removed, q, hint' := NodeActBack(cmp, child, pivot, iter, log, hint, depth + 1, h - 1, m);
    DidBackNow(cmp, iter, t.kids[i], pivot, log, child.model, code, log', q, removed, h - 1, m);
    Refresh(node, i, child, t.kids, a, c, m);
  }

  /** Every item of a node not above the pivot, from the last to the first, each shown once. */
  method NodeActBack<T(!new,0)>(cmp: (T, T) -> int, node: Node<T>, pivot: Option<T>, iter: Editor<T>, log: seq<T>,
                                hint: Hint, depth: nat, ghost h: nat, m: nat)
    returns (code: Code<T>, log': seq<T>, removed: nat, ghost q: nat, hint': Hint)
    requires IsOrder(cmp) && KeepsKeys(cmp, iter) && Permitted(m) && HintOk(hint)
    requires node.Valid(m) && Shape(node.model, h, m) && 1 <= node.num_items <= m - 2
    requires Strict(cmp, Flat(node.model))
    modifies node.repr
    ensures node.Valid(m) && node.repr <= old(node.repr)
    ensures ActedBack(cmp, iter, old(node.model), pivot, log, node.model, code, log', q, removed, h, m)
    ensures HintOk(hint') && hint'.Some? == hint.Some?
    decreases h, 2
  {
    ItemsStrict(cmp, node.model);
    var i, found := node.num_items, false;
    hint' := hint;
    if pivot.Some? {
      i, found, hint' := Find(cmp, node, pivot.value, hint, depth);
    }
    if node.leaf {
      code, log', removed, q := LeafActBack(cmp, node, if found then i + 1 else i, iter, log, m);
    } else {
      code, log', removed, q, hint' := BranchActBack(cmp, node, i, found, pivot, iter, log, hint', depth, h, m);
    }
  }

  method BranchActBack<T(!new,0)>(cmp: (T, T) -> int, node: Node<T>, start: nat, found: bool, pivot: Option<T>,
                                  iter: Editor<T>, log: seq<T>, hint: Hint, depth: nat, ghost h: nat, m: nat)
    returns (code: Code<T>, log': seq<T>, removed: nat, ghost q: nat, hint': Hint)
    requires IsOrder(cmp) && KeepsKeys(cmp, iter) && Permitted(m) && HintOk(hint)
    requires node.Valid(m) && Shape(node.model, h, m) && !node.leaf && 1 <= node.num_items <= m - 2
    requires Strict(cmp, Flat(node.model)) && StartsAt(cmp, node.model, pivot, start, found)
    modifies node.repr
    ensures node.Valid(m) && node.repr <= old(node.repr)
    ensures ActedBack(cmp, iter, old(node.model), pivot, log, node.model, code, log', q, removed, h, m)
    ensures HintOk(hint') && hint'.Some? == hint.Some?
    decreases h, 1
  {
    ghost var t0 := node.model;
    var i: nat;
    code, log', removed, q, i, hint' := FirstBack(cmp, node, start, found, pivot, iter, log, hint, depth, h, m);
    if code != Through {
      GoingBackEnded(cmp, iter, t0, pivot, log, node.model, code, log', i, q, removed, h, m);
      ArrivedBack(cmp, iter, t0, pivot, log, node.model, code, log', q, removed, h, m);
      return;
    }
    code, log', removed, q, hint' := DownToFirst(cmp, node, t0, i, pivot, iter, log, log', q, removed, hint',
                                                 depth, h, m);
  }

  /** Separators and children from the i-th separator down. */
  method DownToFirst<T(!new,0)>(cmp: (T, T) -> int, node: Node<T>, ghost t0: Tree<T>, start: nat, pivot: Option<T>,
                                iter: Editor<T>, ghost log0: seq<T>, log: seq<T>, ghost at: nat, gone: nat,
                                hint: Hint, depth: nat, ghost h: nat, m: nat)
    returns (code: Code<T>, log': seq<T>, removed: nat, ghost q: nat, hint': Hint)
    requires IsOrder(cmp) && KeepsKeys(cmp, iter) && Permitted(m) && HintOk(hint)
    requires node.Valid(m) && !node.leaf && start <= node.num_items == |t0.items| && node.num_items <= m - 2
    requires Shape(t0, h, m) && Strict(cmp, Flat(t0)) && t0.Branch?
    requires pivot.Some? ==> start <= RankAbove(cmp, t0.items, pivot.value)
    requires GoingBack(cmp, iter, t0, pivot, log0, node.model, Through, log, start, at, gone, h, m)
    modifies node.repr
    ensures node.Valid(m) && node.repr <= old(node.repr)
    ensures ActedBack(cmp, iter, t0, pivot, log0, node.model, code, log', q, removed, h, m)
    ensures HintOk(hint') && hint'.Some? == hint.Some?
    decreases h, 0, 3
  {
    var i: nat := start;
    code, log', removed, q, hint' := Through, log, gone, at, hint;
    while i > 0
      invariant node.Valid(m) && node.repr <= old(node.repr) && node.num_items == |t0.items|
      invariant i <= node.num_items && HintOk(hint') && hint'.Some? == hint.Some?
      invariant pivot.Some? ==> i <= RankAbove(cmp, t0.items, pivot.value)
      invariant GoingBack(cmp, iter, t0, pivot, log0, node.model, Through, log', i, q, removed, h, m)
    {
      i := i - 1;
      var more;
      code, log', more, q, hint' := BranchStepBack(cmp, node, t0, i, pivot, iter, log0, log', q, removed, hint',
                                                   depth, h, m);
      removed := removed + more;
      if code != Through {
        GoingBackEnded(cmp, iter, t0, pivot, log0, node.model, code, log', i, q, removed, h, m);
        ArrivedBack(cmp, iter, t0, pivot, log0, node.model, code, log', q, removed, h, m);
        return;
      }
    }
    GoingBackOn(cmp, iter, t0, pivot, log0, node.model, log', 0, q, removed, h, m);
    code, q := Through, 0;
    ArrivedFirst(cmp, iter, t0, pivot, log0, node.model, log', removed, h, m);
  }

  /** Where the search in a branch landed. */
  ghost predicate StartsAt<T>(cmp: (T, T) -> int, t: Tree<T>, pivot: Option<T>, i: nat, found: bool) {
    if pivot.Some? then i == Rank(cmp, t.items, pivot.value) && found == Has(cmp, t.items, pivot.value)
    else i == |t.items| && !found
  }

  lemma FirstAtGap<T(!new)>(cmp: (T, T) -> int, iter: Editor<T>, t0: Tree<T>, pivot: Option<T>, log: seq<T>, i: nat,
                            h: nat, m: nat)
    requires IsOrder(cmp) && Shape(t0, h, m) && t0.Branch? && Strict(cmp, Flat(t0))
    requires StartsAt(cmp, t0, pivot, i, true)
    ensures i < |t0.items| && GoingBack(cmp, iter, t0, pivot, log, t0, Through, log, i + 1, 0, 0, h, m)
  {
    StartBackThrough(cmp, t0, pivot, i, true);
    ProgressNone(cmp, iter, Down, Flat(t0), StartBack(cmp, Flat(t0), pivot), log);
    GoBackOn(cmp, iter, t0, pivot, log, t0, log, i + 1, 0, 0, h, m);
  }

  lemma FirstAtChild<T(!new)>(cmp: (T, T) -> int, iter: Editor<T>, t0: Tree<T>, pivot: Option<T>, log: seq<T>, i: nat,
                              h: nat, m: nat)
    requires IsOrder(cmp) && Shape(t0, h, m) && t0.Branch? && Strict(cmp, Flat(t0))
    requires StartsAt(cmp, t0, pivot, i, false)
    ensures i <= |t0.items| && ChildNext(cmp, iter, t0, pivot, log, t0, log, i, 0, h, m)
  {
    StartBackThrough(cmp, t0, pivot, i, false);
    KidStrict(cmp, t0, i);
    ProgressNone(cmp, iter, Down, Flat(t0), StartBack(cmp, Flat(t0), pivot), log);
    ChildNow(cmp, iter, t0, pivot, log, t0, log, i, 0, h, m);
  }

  /** The child at the pivot's place, unless the pivot is a separator. */
  method FirstBack<T(!new,0)>(cmp: (T, T) -> int, node: Node<T>, start: nat, found: bool, pivot: Option<T>,
                              iter: Editor<T>, log: seq<T>, hint: Hint, depth: nat, ghost h: nat, m: nat)
    returns (code: Code<T>, log': seq<T>, gone: nat, ghost q: nat, i: nat, hint': Hint)
    requires IsOrder(cmp) && KeepsKeys(cmp, iter) && Permitted(m) && HintOk(hint)
    requires node.Valid(m) && Shape(node.model, h, m) && !node.leaf && 1 <= node.num_items <= m - 2
    requires Strict(cmp, Flat(node.model)) && StartsAt(cmp, node.model, pivot, start, found)
    modifies node.repr
    ensures node.Valid(m) && node.repr <= old(node.repr) && node.num_items == old(node.num_items)
    ensures HintOk(hint') && hint'.Some? == hint.Some?
    ensures i <= node.num_items && (pivot.Some? ==> i <= RankAbove(cmp, old(node.model).items, pivot.value))
    ensures GoingBack(cmp, iter, old(node.model), pivot, log, node.model, code, log', i, q, gone, h, m)
    decreases h, 0, 2
  {
    ghost var t0 := node.model;
    if found {
      FirstAtGap(cmp, iter, t0, pivot, log, start, h, m);
      return Through, log, 0, 0, start + 1, hint;
    }
    FirstAtChild(cmp, iter, t0, pivot, log, start, h, m);
    i := start;
    code, log', gone, q, hint' := ChildStepBack(cmp, node, t0, i, pivot, iter, log, log, 0, hint, depth, h, m);
  }

  /** Progress that ended inside a branch. */
  ghost predicate Stood<T(!new)>(cmp: (T, T) -> int, iter: Editor<T>, t0: Tree<T>, pivot: Option<T>, log0: seq<T>,
                                 t: Tree<T>, code: Code<T>, log: seq<T>, q: nat, removed: nat, h: nat, m: nat) {
    && Shape(t, h, m) && |Flat(t)| + removed == |Flat(t0)|
    && Progress(cmp, iter, Down, Flat(t0), StartBack(cmp, Flat(t0), pivot), log0, Flat(t), code, log, q)
  }

  /** Before a separator of a branch, or at the end of the pass. */
  ghost predicate AtGapOrStood<T(!new)>(cmp: (T, T) -> int, iter: Editor<T>, t0: Tree<T>, pivot: Option<T>,
                                        log0: seq<T>, t: Tree<T>, code: Code<T>, log: seq<T>, i: nat, q: nat,
                                        removed: nat, h: nat, m: nat) {
    if code == Through then AtGap(cmp, iter, t0, pivot, log0, t, log, i, removed, h, m)
    else Stood(cmp, iter, t0, pivot, log0, t, code, log, q, removed, h, m)
  }

  /** The same, as the methods pass it on. */
  ghost predicate GoingBack<T(!new)>(cmp: (T, T) -> int, iter: Editor<T>, t0: Tree<T>, pivot: Option<T>, log0: seq<T>,
                                     t: Tree<T>, code: Code<T>, log: seq<T>, i: nat, q: nat, removed: nat, h: nat,
                                     m: nat) {
    forall end :: end == code ==> AtGapOrStood(cmp, iter, t0, pivot, log0, t, end, log, i, q, removed, h, m)
  }

  lemma GoBackOn<T(!new)>(cmp: (T, T) -> int, iter: Editor<T>, t0: Tree<T>, pivot: Option<T>, log0: seq<T>,
                          t: Tree<T>, log: seq<T>, i: nat, q: nat, removed: nat, h: nat, m: nat)
    requires AtGap(cmp, iter, t0, pivot, log0, t, log, i, removed, h, m)
    ensures GoingBack(cmp, iter, t0, pivot, log0, t, Through, log, i, q, removed, h, m)
  {
  }

  lemma GoingBackOn<T(!new)>(cmp: (T, T) -> int, iter: Editor<T>, t0: Tree<T>, pivot: Option<T>, log0: seq<T>,
                             t: Tree<T>, log: seq<T>, i: nat, q: nat, removed: nat, h: nat, m: nat)
    requires GoingBack(cmp, iter, t0, pivot, log0, t, Through, log, i, q, removed, h, m)
    ensures AtGap(cmp, iter, t0, pivot, log0, t, log, i, removed, h, m)
  {
    assert AtGapOrStood(cmp, iter, t0, pivot, log0, t, Through, log, i, q, removed, h, m);
  }

  lemma GoBackEnded<T(!new)>(cmp: (T, T) -> int, iter: Editor<T>, t0: Tree<T>, pivot: Option<T>, log0: seq<T>,
                             t: Tree<T>, code: Code<T>, log: seq<T>, i: nat, q: nat, removed: nat, h: nat, m: nat)
    requires code != Through && Stood(cmp, iter, t0, pivot, log0, t, code, log, q, removed, h, m)
    ensures GoingBack(cmp, iter, t0, pivot, log0, t, code, log, i, q, removed, h, m)
  {
  }

  lemma GoingBackEnded<T(!new)>(cmp: (T, T) -> int, iter: Editor<T>, t0: Tree<T>, pivot: Option<T>, log0: seq<T>,
                                t: Tree<T>, code: Code<T>, log: seq<T>, i: nat, q: nat, removed: nat, h: nat, m: nat)
    requires code != Through && GoingBack(cmp, iter, t0, pivot, log0, t, code, log, i, q, removed, h, m)
    ensures Stood(cmp, iter, t0, pivot, log0, t, code, log, q, removed, h, m)
  {
    assert AtGapOrStood(cmp, iter, t0, pivot, log0, t, code, log, i, q, removed, h, m);
  }

  lemma ArrivedBack<T(!new)>(cmp: (T, T) -> int, iter: Editor<T>, t0: Tree<T>, pivot: Option<T>, log0: seq<T>,
                             t: Tree<T>, code: Code<T>, log: seq<T>, q: nat, removed: nat, h: nat, m: nat)
    requires |t.items| == |t0.items| && code != Through
    requires Stood(cmp, iter, t0, pivot, log0, t, code, log, q, removed, h, m)
    ensures ActedBack(cmp, iter, t0, pivot, log0, t, code, log, q, removed, h, m)
  {
  }

  lemma ArrivedFirst<T(!new)>(cmp: (T, T) -> int, iter: Editor<T>, t0: Tree<T>, pivot: Option<T>, log0: seq<T>,
                              t: Tree<T>, log: seq<T>, removed: nat, h: nat, m: nat)
    requires |t.items| == |t0.items| && AtGap(cmp, iter, t0, pivot, log0, t, log, 0, removed, h, m)
    ensures ActedBack(cmp, iter, t0, pivot, log0, t, Through, log, 0, removed, h, m)
  {
  }

  /** Child i is next, from the pivot's place in it or from its end. */
  ghost predicate AtChildBack<T(!new)>(cmp: (T, T) -> int, iter: Editor<T>, t0: Tree<T>, pivot: Option<T>,
                                       log0: seq<T>, t: Tree<T>, log: seq<T>, i: nat, removed: nat, h: nat, m: nat) {
    && Before(t0, t, i, h, m) && |Flat(t)| + removed == |Flat(t0)| && Strict(cmp, Flat(t.kids[i]))
    && Progress(cmp, iter, Down, Flat(t0), StartBack(cmp, Flat(t0), pivot), log0, Flat(t), Through, log,
                |Upto(t.items, t.kids, i)| + StartBack(cmp, Flat(t.kids[i]), pivot))
  }

  /** The same, as the methods pass it on. */
  ghost predicate ChildNext<T(!new)>(cmp: (T, T) -> int, iter: Editor<T>, t0: Tree<T>, pivot: Option<T>,
                                     log0: seq<T>, t: Tree<T>, log: seq<T>, i: nat, removed: nat, h: nat, m: nat) {
    forall shown :: shown == log ==> AtChildBack(cmp, iter, t0, pivot, log0, t, shown, i, removed, h, m)
  }

  lemma ChildNow<T(!new)>(cmp: (T, T) -> int, iter: Editor<T>, t0: Tree<T>, pivot: Option<T>, log0: seq<T>,
                          t: Tree<T>, log: seq<T>, i: nat, removed: nat, h: nat, m: nat)
    requires AtChildBack(cmp, iter, t0, pivot, log0, t, log, i, removed, h, m)
    ensures ChildNext(cmp, iter, t0, pivot, log0, t, log, i, removed, h, m)
  {
  }

  lemma ChildThen<T(!new)>(cmp: (T, T) -> int, iter: Editor<T>, t0: Tree<T>, pivot: Option<T>, log0: seq<T>,
                           t: Tree<T>, log: seq<T>, i: nat, removed: nat, h: nat, m: nat)
    requires ChildNext(cmp, iter, t0, pivot, log0, t, log, i, removed, h, m)
    ensures AtChildBack(cmp, iter, t0, pivot, log0, t, log, i, removed, h, m)
  {
  }

  lemma ChildReadyBack<T(!new)>(cmp: (T, T) -> int, iter: Editor<T>, t0: Tree<T>, pivot: Option<T>, log0: seq<T>,
                                t: Tree<T>, log: seq<T>, i: nat, removed: nat, h: nat, m: nat)
    requires ChildNext(cmp, iter, t0, pivot, log0, t, log, i, removed, h, m)
    ensures Shape(t, h, m) && t.Branch? && i < |t.kids| && Strict(cmp, Flat(t.kids[i]))
  {
    ChildThen(cmp, iter, t0, pivot, log0, t, log, i, removed, h, m);
  }

  /** Child i, at the place the walk of the branch has come to. */
  method ChildStepBack<T(!new,0)>(cmp: (T, T) -> int, node: Node<T>, ghost t0: Tree<T>, i: nat, pivot: Option<T>,
                                  iter: Editor<T>, ghost log0: seq<T>, log: seq<T>, ghost removed: nat,
                                  hint: Hint, depth: nat, ghost h: nat, m: nat)
    returns (code: Code<T>, log': seq<T>, gone: nat, ghost q: nat, hint': Hint)
    requires IsOrder(cmp) && KeepsKeys(cmp, iter) && Permitted(m) && HintOk(hint)
    requires node.Valid(m) && !node.leaf && i <= node.num_items
    requires ChildNext(cmp, iter, t0, pivot, log0, node.model, log, i, removed, h, m)
    modifies node.repr
    ensures node.Valid(m) && node.repr <= old(node.repr) && node.num_items == old(node.num_items)
    ensures HintOk(hint') && hint'.Some? == hint.Some?
    ensures GoingBack(cmp, iter, t0, pivot, log0, node.model, code, log', i, q, removed + gone, h, m)
    decreases h, 0, 1
  {
    ghost var t := node.model;
    ChildReadyBack(cmp, iter, t0, pivot, log0, t, log, i, removed, h, m);
    code, log', gone, q, hint' := ChildActBack(cmp, node, i, pivot, iter, log, hint, depth, h, m);
    ChildPassedBack(cmp, iter, t0, pivot, log0, t, log, i, removed, node.model.kids[i], code, log', q, gone, h, m);
    q := |Upto(t.items, t.kids, i)| + q;
  }

  /** What a step inside child i is for the branch: its shape and the children before it. */
  lemma ChildShapedBack<T(!new)>(cmp: (T, T) -> int, iter: Editor<T>, t0: Tree<T>, pivot: Option<T>, log0: seq<T>,
                                 t: Tree<T>, log: seq<T>, i: nat, removed: nat, k: Tree<T>, code: Code<T>,
                                 log': seq<T>, q: nat, gone: nat, h: nat, m: nat)
    requires ChildNext(cmp, iter, t0, pivot, log0, t, log, i, removed, h, m)
    requires h > 0 && t.Branch? && i < |t.kids|
    requires DidBack(cmp, iter, t.kids[i], pivot, log, k, code, log', q, gone, h - 1, m)
    ensures t0.Branch? && |t.kids| == |t.items| + 1 == |t0.kids| == |t0.items| + 1
    ensures var t' := t.(kids := t.kids[i := k]); Shape(t', h, m) && t'.kids[..i] == t0.kids[..i]
  {
    ChildThen(cmp, iter, t0, pivot, log0, t, log, i, removed, h, m);
    DidBackThen(cmp, iter, t.kids[i], pivot, log, k, code, log', q, gone, h - 1, m);
    BeforeAfter(t0, t, i, k, h, m);
  }

  /** Its size and the progress made. */
  lemma ChildStoodBack<T(!new)>(cmp: (T, T) -> int, iter: Editor<T>, t0: Tree<T>, pivot: Option<T>, log0: seq<T>,
                                t: Tree<T>, log: seq<T>, i: nat, removed: nat, k: Tree<T>, code: Code<T>,
                                log': seq<T>, q: nat, gone: nat, h: nat, m: nat)
    requires ChildNext(cmp, iter, t0, pivot, log0, t, log, i, removed, h, m)
    requires h > 0 && t.Branch? && i < |t.kids| == |t.items| + 1
    requires DidBack(cmp, iter, t.kids[i], pivot, log, k, code, log', q, gone, h - 1, m)
    ensures var t' := t.(kids := t.kids[i := k]); var u := |Upto(t.items, t.kids, i)|;
      && |Flat(t')| + removed + gone == |Flat(t0)| && |Upto(t'.items, t'.kids, i)| == u
      && Progress(cmp, iter, Down, Flat(t0), StartBack(cmp, Flat(t0), pivot), log0, Flat(t'), code, log', u + q)
      && (code == Through ==> q == 0)
  {
    ChildThen(cmp, iter, t0, pivot, log0, t, log, i, removed, h, m);
    DidBackThen(cmp, iter, t.kids[i], pivot, log, k, code, log', q, gone, h - 1, m);
    ChildProgress(cmp, iter, Down, Flat(t0), StartBack(cmp, Flat(t0), pivot), log0, t, i,
                  StartBack(cmp, Flat(t.kids[i]), pivot), log, k, code, log', q);
  }

  /** Behind the separator before child i of a branch, or at the end of the pass. */
  ghost predicate GapNext<T(!new)>(cmp: (T, T) -> int, iter: Editor<T>, t0: Tree<T>, pivot: Option<T>, log0: seq<T>,
                                   t: Tree<T>, code: Code<T>, log: seq<T>, i: nat, q: nat, removed: nat, h: nat,
                                   m: nat) {
    && Stood(cmp, iter, t0, pivot, log0, t, code, log, q, removed, h, m)
    && t.Branch? && t0.Branch? && |t.items| == |t0.items| && |t.kids| == |t0.kids| && i <= |t.items|
    && t.kids[..i] == t0.kids[..i] && (code == Through ==> q == |Upto(t.items, t.kids, i)|)
  }

  lemma GapNow<T(!new)>(cmp: (T, T) -> int, iter: Editor<T>, t0: Tree<T>, pivot: Option<T>, log0: seq<T>,
                        t: Tree<T>, code: Code<T>, log: seq<T>, i: nat, q: nat, removed: nat, h: nat, m: nat)
    requires GapNext(cmp, iter, t0, pivot, log0, t, code, log, i, q, removed, h, m)
    ensures GoingBack(cmp, iter, t0, pivot, log0, t, code, log, i, q, removed, h, m)
  {
    if code == Through {
      GoBackOn(cmp, iter, t0, pivot, log0, t, log, i, q, removed, h, m);
    } else {
      GoBackEnded(cmp, iter, t0, pivot, log0, t, code, log, i, q, removed, h, m);
    }
  }

  /** Both together, as the methods pass it on. */
  lemma ChildPassedBack<T(!new)>(cmp: (T, T) -> int, iter: Editor<T>, t0: Tree<T>, pivot: Option<T>, log0: seq<T>,
                                 t: Tree<T>, log: seq<T>, i: nat, removed: nat, k: Tree<T>, code: Code<T>,
                                 log': seq<T>, q: nat, gone: nat, h: nat, m: nat)
    requires ChildNext(cmp, iter, t0, pivot, log0, t, log, i, removed, h, m)
    requires h > 0 && t.Branch? && i < |t.kids|
    requires DidBack(cmp, iter, t.kids[i], pivot, log, k, code, log', q, gone, h - 1, m)
    ensures |t.kids| == |t.items| + 1
    ensures GoingBack(cmp, iter, t0, pivot, log0, t.(kids := t.kids[i := k]), code, log', i,
      |Upto(t.items, t.kids, i)| + q, removed + gone, h, m)
  {
    ChildShapedBack(cmp, iter, t0, pivot, log0, t, log, i, removed, k, code, log', q, gone, h, m);
    ChildStoodBack(cmp, iter, t0, pivot, log0, t, log, i, removed, k, code, log', q, gone, h, m);
    GapNow(cmp, iter, t0, pivot, log0, t.(kids := t.kids[i := k]), code, log', i,
      |Upto(t.items, t.kids, i)| + q, removed + gone, h, m);
  }

  lemma BeforeAfter<T>(t0: Tree<T>, t: Tree<T>, i: nat, k: Tree<T>, h: nat, m: nat)
    requires Before(t0, t, i, h, m) && i < |t.kids| && Shape(k, h - 1, m) && Trimmed(t.kids[i], k, m)
    ensures Before(t0, t.(kids := t.kids[i := k]), i, h, m)
  {
    ShapeAfter(t, i, k, h, m);
    assert t.kids[i := k][..i] == t.kids[..i];
  }

  /** Separator i and then child i of a branch. */
  method BranchStepBack<T(!new,0)>(cmp: (T, T) -> int, node: Node<T>, ghost t0: Tree<T>, i: nat, pivot: Option<T>,
                                   iter: Editor<T>, ghost log0: seq<T>, log: seq<T>, ghost at: nat,
                                   ghost removed: nat, hint: Hint, depth: nat, ghost h: nat, m: nat)
    returns (code: Code<T>, log': seq<T>, gone: nat, ghost q: nat, hint': Hint)
    requires IsOrder(cmp) && KeepsKeys(cmp, iter) && Permitted(m) && HintOk(hint)
    requires node.Valid(m) && !node.leaf && i < node.num_items <= m - 2
    requires Shape(t0, h, m) && Strict(cmp, Flat(t0)) && t0.Branch?
    requires pivot.Some? ==> i < RankAbove(cmp, t0.items, pivot.value)
    requires GoingBack(cmp, iter, t0, pivot, log0, node.model, Through, log, i + 1, at, removed, h, m)
    modifies node.repr
    ensures node.Valid(m) && node.repr <= old(node.repr) && node.num_items == old(node.num_items)
    ensures HintOk(hint') && hint'.Some? == hint.Some?
    ensures GoingBack(cmp, iter, t0, pivot, log0, node.model, code, log', i, q, removed + gone, h, m)
    decreases h, 0, 2
  {
    ghost var t := node.model;
    code, log', q := BranchItemBack(cmp, node, i, iter, log, m);
    gone, hint' := 0, hint;
    AfterItemBack(cmp, iter, t0, pivot, log0, t, log, at, removed, i, node.model, code, log', q, h, m);
    if code == Through {
      code, log', gone, q, hint' := ChildStepBack(cmp, node, t0, i, pivot, iter, log0, log', removed, hint, depth, h,
                                                  m);
    }
  }

  lemma AfterItemBack<T(!new)>(cmp: (T, T) -> int, iter: Editor<T>, t0: Tree<T>, pivot: Option<T>, log0: seq<T>,
                               t: Tree<T>, log: seq<T>, at: nat, removed: nat, i: nat,
                               t': Tree<T>, code: Code<T>, log': seq<T>, q: nat, h: nat, m: nat)
    requires IsOrder(cmp) && Shape(t0, h, m) && t0.Branch? && Strict(cmp, Flat(t0)) && i < |t.items|
    requires pivot.Some? ==> i < RankAbove(cmp, t0.items, pivot.value)
    requires GoingBack(cmp, iter, t0, pivot, log0, t, Through, log, i + 1, at, removed, h, m)
    requires t.Branch? && |t.kids| == |t.items| + 1
    requires t'.Branch? && t'.kids == t.kids && |t'.items| == |t.items| && |Flat(t')| == |Flat(t)|
    requires Progress(cmp, iter, Down, Flat(t), |Upto(t.items, t.kids, i + 1)|, log, Flat(t'), code, log', q)
    requires code == Through ==> q == |Upto(t'.items, t'.kids, i)| + |Flat(t'.kids[i])|
    ensures code == Through ==> ChildNext(cmp, iter, t0, pivot, log0, t', log', i, removed, h, m)
    ensures code != Through ==> GoingBack(cmp, iter, t0, pivot, log0, t', code, log', i, q, removed, h, m)
  {
    ItemStoodBack(cmp, iter, t0, pivot, log0, t, log, at, removed, i, t', code, log', q, h, m);
    if code == Through {
      ItemPassedBack(cmp, iter, t0, pivot, log0, t', log', removed, i, q, h, m);
      ChildNow(cmp, iter, t0, pivot, log0, t', log', i, removed, h, m);
    } else {
      GoBackEnded(cmp, iter, t0, pivot, log0, t', code, log', i, q, removed, h, m);
    }
  }

  lemma ItemStoodBack<T(!new)>(cmp: (T, T) -> int, iter: Editor<T>, t0: Tree<T>, pivot: Option<T>, log0: seq<T>,
                               t: Tree<T>, log: seq<T>, at: nat, removed: nat, i: nat,
                               t': Tree<T>, code: Code<T>, log': seq<T>, q: nat, h: nat, m: nat)
    requires GoingBack(cmp, iter, t0, pivot, log0, t, Through, log, i + 1, at, removed, h, m)
    requires t.Branch? && |t.kids| == |t.items| + 1 && i < |t.items|
    requires t'.Branch? && t'.kids == t.kids && |t'.items| == |t.items| && |Flat(t')| == |Flat(t)|
    requires Progress(cmp, iter, Down, Flat(t), |Upto(t.items, t.kids, i + 1)|, log, Flat(t'), code, log', q)
    ensures Stood(cmp, iter, t0, pivot, log0, t', code, log', q, removed, h, m) && Before(t0, t', i + 1, h, m)
  {
    GoingBackOn(cmp, iter, t0, pivot, log0, t, log, i + 1, at, removed, h, m);
    ProgressThen(cmp, iter, Down, Flat(t0), StartBack(cmp, Flat(t0), pivot), log0, Flat(t),
                 |Upto(t.items, t.kids, i + 1)|, log, Flat(t'), code, log', q);
  }

  lemma ItemPassedBack<T(!new)>(cmp: (T, T) -> int, iter: Editor<T>, t0: Tree<T>, pivot: Option<T>, log0: seq<T>,
                                t: Tree<T>, log: seq<T>, removed: nat, i: nat, q: nat, h: nat, m: nat)
    requires IsOrder(cmp) && Shape(t0, h, m) && t0.Branch? && Strict(cmp, Flat(t0))
    requires pivot.Some? ==> i < RankAbove(cmp, t0.items, pivot.value)
    requires Stood(cmp, iter, t0, pivot, log0, t, Through, log, q, removed, h, m) && Before(t0, t, i + 1, h, m)
    requires q == |Upto(t.items, t.kids, i)| + |Flat(t.kids[i])|
    ensures AtChildBack(cmp, iter, t0, pivot, log0, t, log, i, removed, h, m)
  {
    assert t.kids[i] == t.kids[..i + 1][i] == t0.kids[..i + 1][i] == t0.kids[i];
    assert t.kids[..i] == t.kids[..i + 1][..i] == t0.kids[..i + 1][..i] == t0.kids[..i];
    KidStrict(cmp, t0, i);
    BeforePivot(cmp, t0, pivot, i);
  }

  // ---------- restarting ----------

  /** A pass over a whole tree that did not end in a slow removal has ended the walk. */
  lemma PassEndsBack<T(!new)>(cmp: (T, T) -> int, iter: Editor<T>, f: seq<T>, pivot: Option<T>, log: seq<T>,
                              g: seq<T>, code: Code<T>, log': seq<T>, q: nat)
    requires Strict(cmp, f) && Progress(cmp, iter, Down, f, StartBack(cmp, f, pivot), log, g, code, log', q)
    requires code == Through ==> q == 0
    ensures Strict(cmp, g)
    ensures !code.Slow? ==> WalkBack(iter, f, StartBack(cmp, f, pivot), log) == (g, log', code == Stopped)
  {
    ProgressEnd(cmp, iter, Down, f, StartBack(cmp, f, pivot), log, g, code, log', q);
    ThinsKeepsOrder(cmp, f, g);
  }

  /** A slow removal, once carried out, leaves the same walk to do. */
  lemma PassResumesBack<T(!new)>(cmp: (T, T) -> int, iter: Editor<T>, f: seq<T>, pivot: Option<T>, log: seq<T>,
                                 g: seq<T>, x: T, log': seq<T>, q: nat)
    requires IsOrder(cmp) && Strict(cmp, f)
    requires Progress(cmp, iter, Down, f, StartBack(cmp, f, pivot), log, g, Slow(x), log', q)
    ensures var s := Remove(cmp, g, x);
      && |s| < |g|
      && WalkBack(iter, f, StartBack(cmp, f, pivot), log) == WalkBack(iter, s, StartBack(cmp, s, Some(x)), log')
  {
    ProgressEnd(cmp, iter, Down, f, StartBack(cmp, f, pivot), log, g, Slow(x), log', q);
    ThinsKeepsOrder(cmp, f, g);
    RestartPlace(cmp, g, q);
    RemoveGone(cmp, g, x);
  }
}
