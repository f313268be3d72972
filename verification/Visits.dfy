/** What iteration does, on sequences: plain visits that may stop early, and
    visits that delete or replace items as they go. A callback's answer may depend
    on everything it has been shown before. */
module Visits {
  import opened OrderedSeq

  // ---------- read-only iteration ----------

  type Callback<!T> = (seq<T>, T) -> bool

  /** Show items i, i + 1, ... until the callback answers false: the items shown so
      far, and whether the end was reached. */
  function Visit<T>(iter: Callback<T>, s: seq<T>, i: nat, log: seq<T>): (seq<T>, bool)
    requires i <= |s|
    decreases |s| - i
  {
    if i == |s| then (log, true)
    else if iter(log, s[i]) then Visit(iter, s, i + 1, log + [s[i]])
    else (log + [s[i]], false)
  }

  /** The items shown are a prefix in order; it is proper only if the callback refused,
      and then its last item is the one refused. */
  lemma {:induction false} VisitIsPrefix<T>(iter: Callback<T>, s: seq<T>, i: nat, log: seq<T>) returns (n: nat)
    requires i <= |s|
    ensures i <= n <= |s|
    ensures Visit(iter, s, i, log).0 == log + s[i..n]
    ensures Visit(iter, s, i, log).1 ==> n == |s|
    ensures !Visit(iter, s, i, log).1 ==> n > i && !iter(log + s[i..n - 1], s[n - 1])
    ensures forall k :: i <= k < n && (k < n - 1 || Visit(iter, s, i, log).1) ==> iter(log + s[i..k], s[k])
    decreases |s| - i
  {
    n := i;
    if i < |s| {
      assert log + s[i..i] == log;
      if iter(log, s[i]) {
        n := VisitIsPrefix(iter, s, i + 1, log + [s[i]]);
        forall k | i < k <= n ensures log + [s[i]] + s[i + 1..k] == log + s[i..k] {
        }
      } else {
        n := i + 1;
      }
    }
  }

  lemma {:induction false} VisitShift<T>(iter: Callback<T>, a: seq<T>, b: seq<T>, i: nat, log: seq<T>)
    requires i <= |b|
    ensures Visit(iter, a + b, |a| + i, log) == Visit(iter, b, i, log)
    decreases |b| - i
  {
    if i < |b| {
      assert (a + b)[|a| + i] == b[i];
      if iter(log, b[i]) { VisitShift(iter, a, b, i + 1, log + [b[i]]); }
    }
  }

  /** Visiting a concatenation is visiting its parts in turn. */
  lemma {:induction false} VisitCat<T>(iter: Callback<T>, a: seq<T>, b: seq<T>, i: nat, log: seq<T>)
    requires i <= |a|
    ensures var (l, ok) := Visit(iter, a, i, log);
      Visit(iter, a + b, i, log) == if ok then Visit(iter, b, 0, l) else (l, false)
    decreases |a| - i
  {
    if i == |a| {
      VisitShift(iter, a, b, 0, log);
    } else {
      assert (a + b)[i] == a[i];
      if iter(log, a[i]) { VisitCat(iter, a, b, i + 1, log + [a[i]]); }
    }
  }

  function Reverse<T>(s: seq<T>): seq<T> {
    seq(|s|, i requires 0 <= i < |s| => s[|s| - 1 - i])
  }

  lemma ReverseCat<T>(a: seq<T>, b: seq<T>)
    ensures Reverse(a + b) == Reverse(b) + Reverse(a)
  {
  }

  // ---------- iteration with changes ----------

  datatype Answer<T> = Stop | Keep | Delete | Update(item: T)

  type Editor<!T> = (seq<T>, T) -> Answer<T>

  /** Replacements compare equal to what they replace. */
  ghost predicate KeepsKeys<T(!new)>(cmp: (T, T) -> int, iter: Editor<T>) {
    forall log, x :: iter(log, x).Update? ==> cmp(x, iter(log, x).item) == 0
  }

  /** What an answer leaves in place of the item shown. */
  function Stays<T>(a: Answer<T>, x: T): seq<T> {
    match a
    case Delete => []
    case Update(y) => [y]
    case _ => [x]
  }

  /** Edit the sequence from position q on, each item shown once: the sequence left,
      the items shown so far, and whether the callback stopped the walk. */
  function Walk<T>(iter: Editor<T>, f: seq<T>, q: nat, log: seq<T>): (seq<T>, seq<T>, bool)
    requires q <= |f|
    decreases |f| - q
  {
    if q == |f| then (f, log, false)
    else if iter(log, f[q]) == Stop then (f, log + [f[q]], true)
    else
      var kept := Stays(iter(log, f[q]), f[q]);
      Walk(iter, f[..q] + kept + f[q + 1..], q + |kept|, log + [f[q]])
  }

  /** The same downwards: the q items before position q are shown from the last to the first. */
  function WalkBack<T>(iter: Editor<T>, f: seq<T>, q: nat, log: seq<T>): (seq<T>, seq<T>, bool)
    requires q <= |f|
    decreases q
  {
    if q == 0 then (f, log, false)
    else
      var x := f[q - 1];
      if iter(log, x) == Stop then (f, log + [x], true)
      else WalkBack(iter, f[..q - 1] + Stays(iter(log, x), x) + f[q..], q - 1, log + [x])
  }

  /** What the items shown from place i of a log on have left behind. */
  function Left<T>(iter: Editor<T>, log: seq<T>, i: nat): seq<T>
    requires i <= |log|
    decreases |log| - i
  {
    if i == |log| then [] else Stays(iter(log[..i], log[i]), log[i]) + Left(iter, log, i + 1)
  }

  /** What a downward walk has left behind, in the order of the items. */
  function LeftBack<T>(iter: Editor<T>, log: seq<T>, i: nat): seq<T>
    requires i <= |log|
    decreases |log| - i
  {
    if i == |log| then [] else LeftBack(iter, log, i + 1) + Stays(iter(log[..i], log[i]), log[i])
  }

  /** Exactly the items q to n - 1 of f were shown, each once and in order, `left` is
      what stands in their place, and everything else is as it was. */
  ghost predicate Account<T>(f: seq<T>, q: nat, log: seq<T>, n: nat, left: seq<T>, g: seq<T>, log': seq<T>,
                             stopped: bool) {
    && q <= n <= |f|
    && log' == log + f[q..n]
    && g == f[..q] + left + f[n..]
    && (if stopped then n > q else n == |f|)
  }

  lemma SliceShift<T>(a: seq<T>, b: seq<T>, i: nat, j: nat)
    requires i <= j <= |b|
    ensures (a + b)[|a| + i..|a| + j] == b[i..j]
  {
  }

  lemma SliceTail<T>(f: seq<T>, k: nat, i: nat, j: nat)
    requires i <= j && k + j <= |f|
    ensures f[k..][i..j] == f[k + i..k + j]
  {
  }

  /** Stretches behind an edited place. */
  lemma SliceBehind<T>(f: seq<T>, q: nat, kept: seq<T>, i: nat, j: nat)
    requires q < |f| && i <= j <= |f| - q - 1
    ensures var f', p := f[..q] + kept + f[q + 1..], q + |kept|;
      f'[p + i..p + j] == f[q + 1 + i..q + 1 + j]
  {
    SliceShift(f[..q] + kept, f[q + 1..], i, j);
    SliceTail(f, q + 1, i, j);
  }

  lemma AccountStep<T>(f: seq<T>, q: nat, log: seq<T>, kept: seq<T>, n: nat, left: seq<T>, g: seq<T>, log': seq<T>,
                       stopped: bool)
    requires q < |f|
    requires Account(f[..q] + kept + f[q + 1..], q + |kept|, log + [f[q]], n, left, g, log', stopped)
    ensures Account(f, q, log, n + 1 - |kept|, kept + left, g, log', stopped)
    ensures |log| < |log'| && log'[..|log|] == log && log'[|log|] == f[q]
  {
    var f', p, m := f[..q] + kept + f[q + 1..], q + |kept|, n + 1 - |kept|;
    SliceBehind(f, q, kept, 0, n - p);
    SliceBehind(f, q, kept, n - p, |f| - q - 1);
    assert f'[n..|f'|] == f'[n..] && f[m..|f|] == f[m..];
    assert f'[..p] == f[..q] + kept;
    assert (log + [f[q]]) + f[q + 1..m] == log + f[q..m];
  }

  lemma LeftStep<T>(iter: Editor<T>, log: seq<T>, x: T, log': seq<T>)
    requires |log| < |log'| && log'[..|log|] == log && log'[|log|] == x
    ensures Left(iter, log', |log|) == Stays(iter(log, x), x) + Left(iter, log', |log| + 1)
    ensures LeftBack(iter, log', |log|) == LeftBack(iter, log', |log| + 1) + Stays(iter(log, x), x)
  {
  }

  lemma AccountMore<T>(iter: Editor<T>, f: seq<T>, q: nat, log: seq<T>, kept: seq<T>, n: nat, g: seq<T>, log': seq<T>,
                       stopped: bool)
    requires q < |f| && kept == Stays(iter(log, f[q]), f[q]) && |log| < |log'|
    requires Account(f[..q] + kept + f[q + 1..], q + |kept|, log + [f[q]], n, Left(iter, log', |log| + 1),
                     g, log', stopped)
    ensures n + 1 >= |kept| && Account(f, q, log, n + 1 - |kept|, Left(iter, log', |log|), g, log', stopped)
  {
    AccountStep(f, q, log, kept, n, Left(iter, log', |log| + 1), g, log', stopped);
    LeftStep(iter, log, f[q], log');
  }

  /** A walk shows every item from its start on exactly once and in order, up to the
      one that stopped it, and leaves of those exactly what their answers say. */
  lemma {:induction false} WalkShows<T>(iter: Editor<T>, f: seq<T>, q: nat, log: seq<T>) returns (n: nat)
    requires q <= |f|
    ensures var r := Walk(iter, f, q, log);
      |log| <= |r.1| && Account(f, q, log, n, Left(iter, r.1, |log|), r.0, r.1, r.2)
    decreases |f| - q
  {
    if q == |f| || iter(log, f[q]) == Stop {
      n := WalkEnds(iter, f, q, log);
    } else {
      var x := f[q];
      var kept := Stays(iter(log, x), x);
      var f', p, log1 := f[..q] + kept + f[q + 1..], q + |kept|, log + [x];
      var n' := WalkShows(iter, f', p, log1);
      var (g, log', stopped) := Walk(iter, f', p, log1);
      assert Walk(iter, f, q, log) == (g, log', stopped);
      AccountMore(iter, f, q, log, kept, n', g, log', stopped);
      n := n' + 1 - |kept|;
    }
  }

  lemma WalkEnds<T>(iter: Editor<T>, f: seq<T>, q: nat, log: seq<T>) returns (n: nat)
    requires q <= |f| && (q == |f| || iter(log, f[q]) == Stop)
    ensures var r := Walk(iter, f, q, log);
      |log| <= |r.1| && Account(f, q, log, n, Left(iter, r.1, |log|), r.0, r.1, r.2)
  {
    n := if q == |f| then q else q + 1;
    if q < |f| { assert (log + [f[q]])[..|log|] == log; }
  }

  /** A walk is stopped only by the last item it showed. */
  lemma {:induction false} StoppedByLast<T>(iter: Editor<T>, f: seq<T>, q: nat, log: seq<T>)
    requires q <= |f|
    ensures var (_, log', stopped) := Walk(iter, f, q, log);
      stopped ==> |log'| > 0 && iter(log'[..|log'| - 1], log'[|log'| - 1]) == Stop
    decreases |f| - q
  {
    if q < |f| {
      if iter(log, f[q]) == Stop {
        assert (log + [f[q]])[..|log|] == log;
      } else {
        var kept := Stays(iter(log, f[q]), f[q]);
        StoppedByLast(iter, f[..q] + kept + f[q + 1..], q + |kept|, log + [f[q]]);
      }
    }
  }

  /** Exactly the items n to q - 1 of f were shown, each once and from the last to the
      first, `left` is what stands in their place, and everything else is as it was. */
  ghost predicate AccountBack<T>(f: seq<T>, q: nat, log: seq<T>, n: nat, left: seq<T>, g: seq<T>, log': seq<T>,
                                 stopped: bool) {
    && n <= q <= |f|
    && log' == log + Reverse(f[n..q])
    && g == f[..n] + left + f[q..]
    && (if stopped then n < q else n == 0)
  }

  lemma ReverseOne<T>(x: T)
    ensures Reverse([x]) == [x]
  {
    assert [x][1..] == [];
  }

  lemma TakeLast<T>(f: seq<T>, n: nat, q: nat)
    requires n < q <= |f|
    ensures f[n..q] == f[n..q - 1] + [f[q - 1]]
  {
  }

  lemma ReverseLast<T>(f: seq<T>, n: nat, q: nat)
    requires n < q <= |f|
    ensures Reverse(f[n..q]) == [f[q - 1]] + Reverse(f[n..q - 1])
  {
    TakeLast(f, n, q);
    ReverseCat(f[n..q - 1], [f[q - 1]]);
    ReverseOne(f[q - 1]);
  }

  lemma SliceBefore<T>(a: seq<T>, b: seq<T>, n: nat, q: nat)
    requires n <= q <= |a|
    ensures (a + b)[n..q] == a[n..q] && (a + b)[..n] == a[..n]
  {
  }

  lemma AccountBackStep<T>(f: seq<T>, q: nat, log: seq<T>, kept: seq<T>, n: nat, left: seq<T>, g: seq<T>,
                           log': seq<T>, stopped: bool)
    requires 0 < q <= |f|
    requires AccountBack(f[..q - 1] + kept + f[q..], q - 1, log + [f[q - 1]], n, left, g, log', stopped)
    ensures AccountBack(f, q, log, n, left + kept, g, log', stopped)
    ensures |log| < |log'| && log'[..|log|] == log && log'[|log|] == f[q - 1]
  {
    var f', x := f[..q - 1] + kept + f[q..], f[q - 1];
    assert f' == f[..q - 1] + (kept + f[q..]) && f == f[..q - 1] + f[q - 1..];
    SliceBefore(f[..q - 1], kept + f[q..], n, q - 1);
    SliceBefore(f[..q - 1], f[q - 1..], n, q - 1);
    assert f'[q - 1..] == kept + f[q..];
    ReverseLast(f, n, q);
    assert (log + [x]) + Reverse(f[n..q - 1]) == log + ([x] + Reverse(f[n..q - 1]));
    assert f[..n] + left + (kept + f[q..]) == f[..n] + (left + kept) + f[q..];
  }

  lemma WalkBackEnds<T>(iter: Editor<T>, f: seq<T>, q: nat, log: seq<T>) returns (n: nat)
    requires q <= |f| && (q == 0 || iter(log, f[q - 1]) == Stop)
    ensures var r := WalkBack(iter, f, q, log);
      |log| <= |r.1| && AccountBack(f, q, log, n, LeftBack(iter, r.1, |log|), r.0, r.1, r.2)
  {
    n := if q == 0 then q else q - 1;
    if q > 0 {
      var x := f[q - 1];
      assert (log + [x])[..|log|] == log && f[n..q] == [x] && f == f[..n] + [x] + f[q..];
      ReverseOne(x);
    }
  }

  /** A downward walk shows every item before its start exactly once, from the last to
      the first, down to the one that stopped it, and leaves of those exactly what their
      answers say. */
  lemma {:induction false} WalkBackShows<T>(iter: Editor<T>, f: seq<T>, q: nat, log: seq<T>) returns (n: nat)
    requires q <= |f|
    ensures var r := WalkBack(iter, f, q, log);
      |log| <= |r.1| && AccountBack(f, q, log, n, LeftBack(iter, r.1, |log|), r.0, r.1, r.2)
    decreases q
  {
    if q == 0 || iter(log, f[q - 1]) == Stop {
      n := WalkBackEnds(iter, f, q, log);
    } else {
      var x := f[q - 1];
      var kept := Stays(iter(log, x), x);
      var f', log1 := f[..q - 1] + kept + f[q..], log + [x];
      n := WalkBackShows(iter, f', q - 1, log1);
      var r := WalkBack(iter, f', q - 1, log1);
      assert WalkBack(iter, f, q, log) == r;
      AccountBackStep(f, q, log, kept, n, LeftBack(iter, r.1, |log1|), r.0, r.1, r.2);
      LeftStep(iter, log, x, r.1);
    }
  }

  /** A downward walk too is stopped only by the last item it showed. */
  lemma {:induction false} StoppedByLastBack<T>(iter: Editor<T>, f: seq<T>, q: nat, log: seq<T>)
    requires q <= |f|
    ensures var (_, log', stopped) := WalkBack(iter, f, q, log);
      stopped ==> |log'| > 0 && iter(log'[..|log'| - 1], log'[|log'| - 1]) == Stop
    decreases q
  {
    if q > 0 {
      var x := f[q - 1];
      if iter(log, x) == Stop {
        assert (log + [x])[..|log|] == log;
      } else {
        StoppedByLastBack(iter, f[..q - 1] + Stays(iter(log, x), x) + f[q..], q - 1, log + [x]);
      }
    }
  }

  // ---------- a walk over part of a sequence ----------

  /** How a walk goes on once it has ended, or been stopped, within a stretch b of a + b + c. */
  function Onward<T>(iter: Editor<T>, a: seq<T>, c: seq<T>, end: (seq<T>, seq<T>, bool)): (seq<T>, seq<T>, bool) {
    if end.2 then (a + end.0 + c, end.1, true) else Walk(iter, a + end.0 + c, |a| + |end.0|, end.1)
  }

  lemma {:induction false} WalkLocal<T>(iter: Editor<T>, a: seq<T>, b: seq<T>, c: seq<T>, r: nat, log: seq<T>)
    requires r <= |b|
    ensures Walk(iter, a + b + c, |a| + r, log) == Onward(iter, a, c, Walk(iter, b, r, log))
    decreases |b| - r
  {
    if r < |b| {
      assert (a + b + c)[|a| + r] == b[r];
      if iter(log, b[r]) != Stop {
        var kept := Stays(iter(log, b[r]), b[r]);
        var b' := b[..r] + kept + b[r + 1..];
        WalkStep(iter, b, r, log);
        WalkStep(iter, a + b + c, |a| + r, log);
        EditWithin(a, b, c, r, kept);
        WalkLocal(iter, a, b', c, r + |kept|, log + [b[r]]);
        assert |a| + r + |kept| == |a| + (r + |kept|);
      }
    }
  }

  lemma WalkStep<T>(iter: Editor<T>, f: seq<T>, q: nat, log: seq<T>)
    requires q < |f| && iter(log, f[q]) != Stop
    ensures var kept := Stays(iter(log, f[q]), f[q]);
      Walk(iter, f, q, log) == Walk(iter, f[..q] + kept + f[q + 1..], q + |kept|, log + [f[q]])
  {
  }

  lemma {:induction false} WalkBackLocal<T>(iter: Editor<T>, a: seq<T>, b: seq<T>, c: seq<T>, r: nat, log: seq<T>)
    requires r <= |b|
    ensures var (b', log', stopped) := WalkBack(iter, b, r, log);
      WalkBack(iter, a + b + c, |a| + r, log)
      == if stopped then (a + b' + c, log', true) else WalkBack(iter, a + b' + c, |a|, log')
    decreases r
  {
    if r > 0 {
      var x := b[r - 1];
      assert (a + b + c)[|a| + r - 1] == x;
      if iter(log, x) != Stop {
        var kept := Stays(iter(log, x), x);
        EditWithin(a, b, c, r - 1, kept);
        WalkBackLocal(iter, a, b[..r - 1] + kept + b[r..], c, r - 1, log + [x]);
      }
    }
  }

  lemma EditWithin<T>(a: seq<T>, b: seq<T>, c: seq<T>, r: nat, kept: seq<T>)
    requires r < |b|
    ensures var f, q := a + b + c, |a| + r; f[..q] + kept + f[q + 1..] == a + (b[..r] + kept + b[r + 1..]) + c
  {
    SliceLocal(a, b, c, r);
  }

  // ---------- order under deletion and replacement ----------

  ghost predicate OrderIn<T>(cmp: (T, T) -> int, s: seq<T>, s': seq<T>, a: seq<T>, c: seq<T>) {
    Strict(cmp, a + s + c) ==> Strict(cmp, a + s' + c)
  }

  /** s' may stand for s in any sorted surroundings. */
  ghost predicate Thins<T(!new)>(cmp: (T, T) -> int, s: seq<T>, s': seq<T>) {
    forall a, c :: OrderIn(cmp, s, s', a, c)
  }

  lemma ThinsSame<T(!new)>(cmp: (T, T) -> int, s: seq<T>)
    ensures Thins(cmp, s, s)
  {
  }

  lemma ThinsThen<T(!new)>(cmp: (T, T) -> int, s: seq<T>, t: seq<T>, u: seq<T>)
    requires Thins(cmp, s, t) && Thins(cmp, t, u)
    ensures Thins(cmp, s, u)
  {
    forall a, c ensures OrderIn(cmp, s, u, a, c) {
      assert OrderIn(cmp, s, t, a, c) && OrderIn(cmp, t, u, a, c);
    }
  }

  lemma ThinsWithin<T(!new)>(cmp: (T, T) -> int, a: seq<T>, s: seq<T>, s': seq<T>, c: seq<T>)
    requires Thins(cmp, s, s')
    ensures Thins(cmp, a + s + c, a + s' + c)
  {
    forall b, d ensures OrderIn(cmp, a + s + c, a + s' + c, b, d) {
      assert OrderIn(cmp, s, s', b + a, c + d);
      Reassociate(b, a, s, c, d);
      Reassociate(b, a, s', c, d);
    }
  }

  lemma Reassociate<T>(b: seq<T>, a: seq<T>, s: seq<T>, c: seq<T>, d: seq<T>)
    ensures b + (a + s + c) + d == (b + a) + s + (c + d)
  {
  }

  lemma ThinsDrop<T(!new)>(cmp: (T, T) -> int, x: T)
    ensures Thins(cmp, [x], [])
  {
    forall a, c ensures OrderIn(cmp, [x], [], a, c) {
      var f, g := a + [x] + c, a + [] + c;
      if Strict(cmp, f) {
        forall i, j | 0 <= i < j < |g| ensures cmp(g[i], g[j]) < 0 {
          var i', j' := if i < |a| then i else i + 1, if j < |a| then j else j + 1;
          assert g[i] == f[i'] && g[j] == f[j'];
        }
      }
    }
  }

  lemma ThinsSwap<T(!new)>(cmp: (T, T) -> int, x: T, y: T)
    requires IsOrder(cmp) && cmp(x, y) == 0
    ensures Thins(cmp, [x], [y])
  {
    forall a, c ensures OrderIn(cmp, [x], [y], a, c) {
      var f, g := a + [x] + c, a + [y] + c;
      if Strict(cmp, f) {
        Flip(cmp, x, y);
        forall i, j | 0 <= i < j < |g| ensures cmp(g[i], g[j]) < 0 {
          assert cmp(f[i], f[j]) < 0;
          if i == |a| { Chain(cmp, y, x, g[j]); }
          if j == |a| { Chain(cmp, g[i], x, y); }
        }
      }
    }
  }

  lemma ThinsKeepsOrder<T(!new)>(cmp: (T, T) -> int, s: seq<T>, s': seq<T>)
    requires Thins(cmp, s, s') && Strict(cmp, s)
    ensures Strict(cmp, s')
  {
    assert OrderIn(cmp, s, s', [], []);
    assert [] + s + [] == s && [] + s' + [] == s';
  }
}
