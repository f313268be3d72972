/** The contract a tree offers its users: a strictly sorted sequence under a
    three-way comparator, with lookup, insert-or-replace and removal by key. */
module OrderedSeq {
  datatype Option<+T> = None | Some(value: T)

  ghost predicate Laws<T>(cmp: (T, T) -> int, x: T, y: T, z: T) {
    && (cmp(x, y) < 0 <==> cmp(y, x) > 0)
    && (cmp(x, y) <= 0 && cmp(y, z) <= 0 ==> cmp(x, z) <= 0)
  }

  /** A three-way comparator that orders its arguments totally, up to equivalence. */
  ghost predicate IsOrder<T(!new)>(cmp: (T, T) -> int) {
    forall x, y, z :: Laws(cmp, x, y, z)
  }

  lemma Flip<T(!new)>(cmp: (T, T) -> int, x: T, y: T)
    requires IsOrder(cmp)
    ensures cmp(x, y) < 0 <==> cmp(y, x) > 0
    ensures cmp(x, y) > 0 <==> cmp(y, x) < 0
    ensures cmp(x, x) == 0
  {
    assert Laws(cmp, x, y, x) && Laws(cmp, y, x, y) && Laws(cmp, x, x, x);
  }

  lemma Chain<T(!new)>(cmp: (T, T) -> int, x: T, y: T, z: T)
    requires IsOrder(cmp)
    requires cmp(x, y) <= 0 && cmp(y, z) <= 0
    ensures cmp(x, z) <= 0
    ensures cmp(x, y) < 0 || cmp(y, z) < 0 ==> cmp(x, z) < 0
  {
    assert Laws(cmp, x, y, z) && Laws(cmp, z, x, y) && Laws(cmp, y, z, x);
    Flip(cmp, x, y);
    Flip(cmp, y, z);
    Flip(cmp, x, z);
  }

  ghost predicate Strict<T>(cmp: (T, T) -> int, s: seq<T>) {
    forall i, j :: 0 <= i < j < |s| ==> cmp(s[i], s[j]) < 0
  }

  ghost predicate AllBelow<T>(cmp: (T, T) -> int, s: seq<T>, x: T) {
    forall i :: 0 <= i < |s| ==> cmp(s[i], x) < 0
  }

  ghost predicate AllAbove<T>(cmp: (T, T) -> int, s: seq<T>, x: T) {
    forall i :: 0 <= i < |s| ==> cmp(s[i], x) > 0
  }

  function RankFrom<T>(cmp: (T, T) -> int, s: seq<T>, x: T, i: nat): (r: nat)
    requires i <= |s|
    ensures i <= r <= |s|
    decreases |s| - i
  {
    if i == |s| || cmp(s[i], x) >= 0 then i else RankFrom(cmp, s, x, i + 1)
  }

  /** How many leading items are below the key. */
  function Rank<T>(cmp: (T, T) -> int, s: seq<T>, x: T): (r: nat)
    ensures r <= |s|
  {
    RankFrom(cmp, s, x, 0)
  }

  predicate Has<T>(cmp: (T, T) -> int, s: seq<T>, x: T) {
    var r := Rank(cmp, s, x);
    r < |s| && cmp(s[r], x) == 0
  }

  function Lookup<T>(cmp: (T, T) -> int, s: seq<T>, x: T): Option<T> {
    if Has(cmp, s, x) then Some(s[Rank(cmp, s, x)]) else None
  }

  /** Insert, or replace the equivalent item. */
  function Put<T>(cmp: (T, T) -> int, s: seq<T>, x: T): seq<T> {
    var r := Rank(cmp, s, x);
    if Has(cmp, s, x) then s[r := x] else s[..r] + [x] + s[r..]
  }

  function Remove<T>(cmp: (T, T) -> int, s: seq<T>, x: T): seq<T> {
    var r := Rank(cmp, s, x);
    if Has(cmp, s, x) then s[..r] + s[r + 1..] else s
  }

  lemma {:induction false} RankFromAt<T>(cmp: (T, T) -> int, s: seq<T>, x: T, i: nat, r: nat)
    requires i <= r <= |s|
    requires forall j :: i <= j < r ==> cmp(s[j], x) < 0
    requires r < |s| ==> cmp(s[r], x) >= 0
    ensures RankFrom(cmp, s, x, i) == r
    decreases r - i
  {
    if i < r {
      RankFromAt(cmp, s, x, i + 1, r);
    }
  }

  /** A position with everything before it below and the next item not below is the rank. */
  lemma RankAt<T>(cmp: (T, T) -> int, s: seq<T>, x: T, r: nat)
    requires r <= |s|
    requires forall i :: 0 <= i < r ==> cmp(s[i], x) < 0
    requires r < |s| ==> cmp(s[r], x) >= 0
    ensures Rank(cmp, s, x) == r
  {
    RankFromAt(cmp, s, x, 0, r);
  }

  lemma {:induction false} RankFromStops<T>(cmp: (T, T) -> int, s: seq<T>, x: T, i: nat)
    requires i <= |s|
    ensures forall j :: i <= j < RankFrom(cmp, s, x, i) ==> cmp(s[j], x) < 0
    ensures RankFrom(cmp, s, x, i) < |s| ==> cmp(s[RankFrom(cmp, s, x, i)], x) >= 0
    decreases |s| - i
  {
    if i < |s| && cmp(s[i], x) < 0 {
      RankFromStops(cmp, s, x, i + 1);
    }
  }

  lemma RankStops<T>(cmp: (T, T) -> int, s: seq<T>, x: T)
    ensures forall i :: 0 <= i < Rank(cmp, s, x) ==> cmp(s[i], x) < 0
    ensures Rank(cmp, s, x) < |s| ==> cmp(s[Rank(cmp, s, x)], x) >= 0
  {
    RankFromStops(cmp, s, x, 0);
  }

  /** In a sorted sequence the rank splits the items into below, equivalent and above. */
  lemma RankSplits<T(!new)>(cmp: (T, T) -> int, s: seq<T>, x: T)
    requires IsOrder(cmp) && Strict(cmp, s)
    ensures var r := Rank(cmp, s, x);
      && AllBelow(cmp, s[..r], x)
      && (Has(cmp, s, x) ==> AllAbove(cmp, s[r + 1..], x))
      && (!Has(cmp, s, x) ==> AllAbove(cmp, s[r..], x))
  {
    RankStops(cmp, s, x);
    var r := Rank(cmp, s, x);
    forall i | r < i < |s| ensures cmp(s[i], x) > 0 {
      Flip(cmp, s[r], x);
      Chain(cmp, x, s[r], s[i]);
      Flip(cmp, x, s[i]);
    }
  }

  lemma BelowLast<T(!new)>(cmp: (T, T) -> int, s: seq<T>, x: T)
    requires IsOrder(cmp) && Strict(cmp, s)
    requires s != [] ==> cmp(s[|s| - 1], x) < 0
    ensures AllBelow(cmp, s, x)
  {
    forall i | 0 <= i < |s| ensures cmp(s[i], x) < 0 {
      if i < |s| - 1 { Chain(cmp, s[i], s[|s| - 1], x); }
    }
  }

  lemma AboveFirst<T(!new)>(cmp: (T, T) -> int, s: seq<T>, x: T)
    requires IsOrder(cmp) && Strict(cmp, s)
    requires s != [] ==> cmp(s[0], x) > 0
    ensures AllAbove(cmp, s, x)
  {
    forall i | 0 <= i < |s| ensures cmp(s[i], x) > 0 {
      if i > 0 {
        Flip(cmp, s[0], x);
        Chain(cmp, x, s[0], s[i]);
        Flip(cmp, x, s[i]);
      }
    }
  }

  lemma StrictParts<T>(cmp: (T, T) -> int, a: seq<T>, b: seq<T>, c: seq<T>)
    requires Strict(cmp, a + b + c)
    ensures Strict(cmp, a) && Strict(cmp, b) && Strict(cmp, c)
  {
    var s := a + b + c;
    assert forall i :: 0 <= i < |a| ==> s[i] == a[i];
    assert forall i :: 0 <= i < |b| ==> s[|a| + i] == b[i];
    assert forall i :: 0 <= i < |c| ==> s[|a| + |b| + i] == c[i];
  }

  lemma RankLocal<T>(cmp: (T, T) -> int, a: seq<T>, b: seq<T>, c: seq<T>, x: T)
    requires AllBelow(cmp, a, x) && AllAbove(cmp, c, x)
    ensures Rank(cmp, a + b + c, x) == |a| + Rank(cmp, b, x)
  {
    var s, q := a + b + c, Rank(cmp, b, x);
    RankStops(cmp, b, x);
    forall i | 0 <= i < |a| + q ensures cmp(s[i], x) < 0 {
      if i < |a| { assert s[i] == a[i]; } else { assert s[i] == b[i - |a|]; }
    }
    if |a| + q < |s| {
      if q < |b| { assert s[|a| + q] == b[q]; } else { assert s[|a| + q] == c[0]; }
    }
    RankAt(cmp, s, x, |a| + q);
  }

  lemma SliceLocal<T>(a: seq<T>, b: seq<T>, c: seq<T>, q: nat)
    requires q <= |b|
    ensures var s := a + b + c;
      && s[..|a| + q] == a + b[..q]
      && s[|a| + q..] == b[q..] + c
      && (q < |b| ==> s[|a| + q] == b[q] && s[|a| + q + 1..] == b[q + 1..] + c)
  {
  }

  lemma InsertLocal<T>(a: seq<T>, b: seq<T>, c: seq<T>, q: nat, x: T)
    requires q <= |b|
    ensures var s, r := a + b + c, |a| + q;
      s[..r] + [x] + s[r..] == a + (b[..q] + [x] + b[q..]) + c
  {
    SliceLocal(a, b, c, q);
  }

  lemma UpdateLocal<T>(a: seq<T>, b: seq<T>, c: seq<T>, q: nat, x: T)
    requires q < |b|
    ensures (a + b + c)[|a| + q := x] == a + b[q := x] + c
  {
  }

  lemma CutLocal<T>(a: seq<T>, b: seq<T>, c: seq<T>, q: nat)
    requires q < |b|
    ensures var s, r := a + b + c, |a| + q;
      s[..r] + s[r + 1..] == a + (b[..q] + b[q + 1..]) + c
  {
    SliceLocal(a, b, c, q);
  }

  lemma HasLocal<T>(cmp: (T, T) -> int, a: seq<T>, b: seq<T>, c: seq<T>, x: T)
    requires AllBelow(cmp, a, x) && AllAbove(cmp, c, x)
    ensures Rank(cmp, a + b + c, x) == |a| + Rank(cmp, b, x)
    ensures Has(cmp, a + b + c, x) == Has(cmp, b, x)
  {
    RankLocal(cmp, a, b, c, x);
    var s, q := a + b + c, Rank(cmp, b, x);
    SliceLocal(a, b, c, q);
    if q == |b| && c != [] { assert s[|a| + q] == c[0]; }
  }

  lemma PutLocal<T>(cmp: (T, T) -> int, a: seq<T>, b: seq<T>, c: seq<T>, x: T)
    requires Rank(cmp, a + b + c, x) == |a| + Rank(cmp, b, x)
    requires Has(cmp, a + b + c, x) == Has(cmp, b, x)
    ensures Put(cmp, a + b + c, x) == a + Put(cmp, b, x) + c
  {
    var q := Rank(cmp, b, x);
    if Has(cmp, b, x) { UpdateLocal(a, b, c, q, x); } else { InsertLocal(a, b, c, q, x); }
  }

  lemma RemoveLocal<T>(cmp: (T, T) -> int, a: seq<T>, b: seq<T>, c: seq<T>, x: T)
    requires Rank(cmp, a + b + c, x) == |a| + Rank(cmp, b, x)
    requires Has(cmp, a + b + c, x) == Has(cmp, b, x)
    ensures Remove(cmp, a + b + c, x) == a + Remove(cmp, b, x) + c
  {
    var q := Rank(cmp, b, x);
    if Has(cmp, b, x) {
      assert Remove(cmp, b, x) == b[..q] + b[q + 1..];
      CutLocal(a, b, c, q);
    } else {
      assert Remove(cmp, b, x) == b;
    }
  }

  /** Work on a key happens entirely inside the segment the key belongs to. */
  lemma Local<T>(cmp: (T, T) -> int, a: seq<T>, b: seq<T>, c: seq<T>, x: T)
    requires AllBelow(cmp, a, x) && AllAbove(cmp, c, x)
    ensures Rank(cmp, a + b + c, x) == |a| + Rank(cmp, b, x)
    ensures Lookup(cmp, a + b + c, x) == Lookup(cmp, b, x)
    ensures Put(cmp, a + b + c, x) == a + Put(cmp, b, x) + c
    ensures Remove(cmp, a + b + c, x) == a + Remove(cmp, b, x) + c
  {
    HasLocal(cmp, a, b, c, x);
    SliceLocal(a, b, c, Rank(cmp, b, x));
    PutLocal(cmp, a, b, c, x);
    RemoveLocal(cmp, a, b, c, x);
  }

  lemma StrictInsert<T>(cmp: (T, T) -> int, a: seq<T>, x: T, b: seq<T>)
    requires Strict(cmp, a + b) && AllBelow(cmp, a, x)
    requires forall i :: 0 <= i < |b| ==> cmp(x, b[i]) < 0
    ensures Strict(cmp, a + [x] + b)
  {
    var p, s := a + [x] + b, a + b;
    forall i, j | 0 <= i < j < |p| ensures cmp(p[i], p[j]) < 0 {
      if j < |a| { assert p[i] == s[i] && p[j] == s[j]; }
      else if j == |a| { assert p[i] == a[i]; }
      else if i == |a| { assert p[j] == b[j - |a| - 1]; }
      else if i < |a| { assert p[i] == s[i] && p[j] == s[j - 1]; }
      else { assert p[i] == s[i - 1] && p[j] == s[j - 1]; }
    }
  }

  lemma BelowFlip<T(!new)>(cmp: (T, T) -> int, s: seq<T>, x: T)
    requires IsOrder(cmp) && AllAbove(cmp, s, x)
    ensures forall i :: 0 <= i < |s| ==> cmp(x, s[i]) < 0
  {
    forall i | 0 <= i < |s| ensures cmp(x, s[i]) < 0 {
      Flip(cmp, x, s[i]);
    }
  }

  /** What stands behind the place of a key. */
  function Behind<T>(cmp: (T, T) -> int, s: seq<T>, x: T): seq<T> {
    if Has(cmp, s, x) then s[Rank(cmp, s, x) + 1..] else s[Rank(cmp, s, x)..]
  }

  lemma PutAround<T>(cmp: (T, T) -> int, s: seq<T>, x: T)
    ensures Put(cmp, s, x) == s[..Rank(cmp, s, x)] + [x] + Behind(cmp, s, x)
    ensures Remove(cmp, s, x) == s[..Rank(cmp, s, x)] + Behind(cmp, s, x)
  {
  }

  /** Insertion keeps a sorted sequence sorted. */
  lemma PutStrict<T(!new)>(cmp: (T, T) -> int, s: seq<T>, x: T)
    requires IsOrder(cmp) && Strict(cmp, s)
    ensures Strict(cmp, Put(cmp, s, x))
  {
    var before, behind := s[..Rank(cmp, s, x)], Behind(cmp, s, x);
    PutAround(cmp, s, x);
    RankSplits(cmp, s, x);
    BelowFlip(cmp, behind, x);
    RemoveStrict(cmp, s, x);
    StrictInsert(cmp, before, x, behind);
  }

  lemma RemoveStrict<T>(cmp: (T, T) -> int, s: seq<T>, x: T)
    requires Strict(cmp, s)
    ensures Strict(cmp, Remove(cmp, s, x))
  {
  }

  /** Every item of a sorted sequence is found at its own index. */
  lemma MemberRank<T(!new)>(cmp: (T, T) -> int, s: seq<T>, k: nat)
    requires IsOrder(cmp) && Strict(cmp, s) && k < |s|
    ensures Rank(cmp, s, s[k]) == k && Has(cmp, s, s[k])
    ensures Remove(cmp, s, s[k]) == s[..k] + s[k + 1..]
    ensures Lookup(cmp, s, s[k]) == Some(s[k])
  {
    Flip(cmp, s[k], s[k]);
    RankAt(cmp, s, s[k], k);
  }

  /** In a sorted sequence an equivalent item, wherever it sits, is the one found. */
  lemma LookupAt<T(!new)>(cmp: (T, T) -> int, s: seq<T>, k: nat, y: T)
    requires IsOrder(cmp) && Strict(cmp, s) && k < |s| && cmp(s[k], y) == 0
    ensures Lookup(cmp, s, y) == Some(s[k])
  {
    forall i | 0 <= i < k ensures cmp(s[i], y) < 0 {
      Chain(cmp, s[i], s[k], y);
    }
    RankAt(cmp, s, y, k);
  }

  lemma Equivalent<T(!new)>(cmp: (T, T) -> int, a: T, x: T, y: T)
    requires IsOrder(cmp) && cmp(a, y) == 0
    ensures cmp(a, x) == 0 <==> cmp(x, y) == 0
  {
    Flip(cmp, a, x);
    Flip(cmp, a, y);
    Flip(cmp, x, y);
    if cmp(a, x) == 0 { Chain(cmp, x, a, y); Chain(cmp, y, a, x); }
    if cmp(x, y) == 0 { Chain(cmp, a, y, x); Chain(cmp, x, y, a); }
  }

  /** What was put is what is found, and every other key is looked up as before. */
  lemma LookupAfterPut<T(!new)>(cmp: (T, T) -> int, s: seq<T>, x: T, y: T)
    requires IsOrder(cmp) && Strict(cmp, s)
    ensures Lookup(cmp, Put(cmp, s, x), y) == if cmp(x, y) == 0 then Some(x) else Lookup(cmp, s, y)
  {
    PutStrict(cmp, s, x);
    var r, p := Rank(cmp, s, x), Put(cmp, s, x);
    var d := |p| - |s|;
    if cmp(x, y) == 0 {
      LookupAt(cmp, p, r, y);
    } else if Has(cmp, s, y) {
      var k := Rank(cmp, s, y);
      Equivalent(cmp, s[k], x, y);
      LookupAt(cmp, p, if k < r then k else k + d, y);
    } else if Has(cmp, p, y) {
      var k := Rank(cmp, p, y);
      LookupAt(cmp, s, if k < r then k else k - d, y);
    }
  }

  lemma RemoveGone<T(!new)>(cmp: (T, T) -> int, s: seq<T>, x: T)
    requires IsOrder(cmp) && Strict(cmp, s)
    ensures !Has(cmp, Remove(cmp, s, x), x)
  {
    RankSplits(cmp, s, x);
    var r := Rank(cmp, s, x);
    var tail := if Has(cmp, s, x) then s[r + 1..] else s[r..];
    assert Remove(cmp, s, x) == s[..r] + [] + tail;
    HasLocal(cmp, s[..r], [], tail, x);
  }

  /** What was removed is gone, and every other key is looked up as before. */
  lemma LookupAfterRemove<T(!new)>(cmp: (T, T) -> int, s: seq<T>, x: T, y: T)
    requires IsOrder(cmp) && Strict(cmp, s)
    ensures Lookup(cmp, Remove(cmp, s, x), y) == if cmp(x, y) == 0 then None else Lookup(cmp, s, y)
  {
    RemoveStrict(cmp, s, x);
    RemoveGone(cmp, s, x);
    var r, p := Rank(cmp, s, x), Remove(cmp, s, x);
    var d := |s| - |p|;
    if Has(cmp, p, y) {
      var k := Rank(cmp, p, y);
      Equivalent(cmp, p[k], x, y);
      if cmp(x, y) == 0 { LookupAt(cmp, p, k, x); }
      LookupAt(cmp, s, if k < r then k else k + d, y);
    } else if Has(cmp, s, y) {
      var k := Rank(cmp, s, y);
      Equivalent(cmp, s[k], x, y);
      if cmp(x, y) == 0 { LookupAt(cmp, s, k, x); }
      else { LookupAt(cmp, p, if k < r then k else k - d, y); }
    }
  }
}
