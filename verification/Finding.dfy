/** Search within one node, with the optional hint, and descent to an item. */
module Finding {
  import opened OrderedSeq
  import opened Trees
  import opened Nodes

  newtype byte = x: int | 0 <= x < 256

  /** The caller's eight path bytes, or none. */
  type Hint = Option<seq<byte>>

  ghost predicate HintOk(hint: Hint) {
    hint.Some? ==> |hint.value| == 8
  }

  /** The hint with the place found at a depth noted down, as one byte. */
  ghost function Noted(hint: Hint, depth: nat, index: nat): Hint
    requires HintOk(hint)
  {
    if hint == None || depth >= 8 then hint else Some(hint.value[depth := (index % 256) as byte])
  }

  /** Where a hint byte points in a node of n items; 0 points nowhere. */
  ghost function Pointed(hint: byte, n: nat): nat
    requires n > 0
  {
    if hint as int < n then hint as int else n - 1
  }

  lemma LeftOf<T(!new)>(cmp: (T, T) -> int, s: seq<T>, x: T, k: nat)
    requires IsOrder(cmp) && Strict(cmp, s) && k < |s| && cmp(x, s[k]) > 0
    ensures forall j :: 0 <= j <= k ==> cmp(s[j], x) < 0
  {
    Flip(cmp, x, s[k]);
    forall j | 0 <= j < k ensures cmp(s[j], x) < 0 {
      Chain(cmp, s[j], s[k], x);
    }
  }

  lemma RightOf<T(!new)>(cmp: (T, T) -> int, s: seq<T>, x: T, k: nat)
    requires IsOrder(cmp) && Strict(cmp, s) && k < |s| && cmp(x, s[k]) < 0
    ensures forall j :: k <= j < |s| ==> cmp(s[j], x) > 0
  {
    Flip(cmp, x, s[k]);
    forall j | k < j < |s| ensures cmp(s[j], x) > 0 {
      Chain(cmp, x, s[k], s[j]);
      Flip(cmp, x, s[j]);
    }
  }

  lemma Here<T(!new)>(cmp: (T, T) -> int, s: seq<T>, x: T, k: nat)
    requires IsOrder(cmp) && Strict(cmp, s) && k < |s| && cmp(x, s[k]) == 0
    ensures Rank(cmp, s, x) == k && Has(cmp, s, x)
  {
    Flip(cmp, x, s[k]);
    LookupAt(cmp, s, k, x);
    forall j | 0 <= j < k ensures cmp(s[j], x) < 0 {
      Chain(cmp, s[j], s[k], x);
    }
    RankAt(cmp, s, x, k);
  }

  /** The bounds a hint byte leaves for the search, or the item it happens to hit.
      Whatever the byte, nothing outside the bounds can be the key. */
  method Narrow<T(!new,0)>(cmp: (T, T) -> int, node: Node<T>, key: T, hint: byte)
    returns (low: int, high: int, hit: Option<nat>)
    requires 1 <= node.num_items <= node.items.Length
    requires IsOrder(cmp) && Strict(cmp, node.items[..node.num_items])
    ensures 0 <= low <= high + 1 <= node.num_items
    ensures forall j :: 0 <= j < low ==> cmp(node.items[j], key) < 0
    ensures forall j :: high < j < node.num_items ==> cmp(node.items[j], key) > 0
    ensures hit.Some? ==> hit.value < node.num_items && cmp(key, node.items[hit.value]) == 0
    ensures var n, i := node.num_items, Pointed(hint, node.num_items);
      var c := cmp(key, node.items[i]);
      if hint == 0 then (low, high, hit) == (0, n - 1, None)
      else if c == 0 then hit == Some(i)
      else hit == None && (low, high) == if c > 0 then (i + 1, n - 1) else (0, i - 1)
  {
    ghost var s := node.items[..node.num_items];
    low, high, hit := 0, node.num_items - 1, None;
    var index := hint as int;
    if index > 0 {
      if index > node.num_items - 1 {
        index := node.num_items - 1;
      }
      var c := cmp(key, node.items[index]);
      if c == 0 { hit := Some(index); return; }
      if c > 0 {
        LeftOf(cmp, s, key, index);
        low := index + 1;
      } else {
        RightOf(cmp, s, key, index);
        high := index - 1;
      }
    }
  }

  /** Binary search, hinted or not. The answer does not depend on the hint. */
  method Find<T(!new,0)>(cmp: (T, T) -> int, node: Node<T>, key: T, hint: Hint, depth: nat)
    returns (index: nat, found: bool, hint': Hint)
    requires 1 <= node.num_items <= node.items.Length && HintOk(hint)
    requires IsOrder(cmp) && Strict(cmp, node.items[..node.num_items])
    ensures index == Rank(cmp, node.items[..node.num_items], key)
    ensures found == Has(cmp, node.items[..node.num_items], key)
    ensures HintOk(hint') && hint'.Some? == hint.Some?
    ensures if hint.Some? && depth < 8 && found && hint.value[depth] != 0
               && index == Pointed(hint.value[depth], node.num_items)
            then hint' == hint else hint' == Noted(hint, depth, index)
  {
    ghost var s := node.items[..node.num_items];
    var low: int, high: int := 0, node.num_items - 1;
    hint' := hint;
    if hint.Some? && depth < 8 {
      var hit;
      low, high, hit := Narrow(cmp, node, key, hint.value[depth]);
      if hit.Some? {
        Here(cmp, s, key, hit.value);
        return hit.value, true, hint;
      }
    }
    found := false;
    while low <= high
      invariant 0 <= low <= high + 1 <= |s|
      invariant forall j :: 0 <= j < low ==> cmp(s[j], key) < 0
      invariant forall j :: high < j < |s| ==> cmp(s[j], key) > 0
      decreases high - low
    {
      var mid := (low + high) / 2;
      var c := cmp(key, node.items[mid]);
      if c == 0 {
        Here(cmp, s, key, mid);
        index, found := mid, true;
        break;
      }
      if c < 0 {
        RightOf(cmp, s, key, mid);
        high := mid - 1;
      } else {
        LeftOf(cmp, s, key, mid);
        low := mid + 1;
      }
    }
    if !found {
      RankAt(cmp, s, key, low);
      index := low;
    }
    if hint.Some? && depth < 8 {
      hint' := Some(hint.value[depth := (index % 256) as byte]);
    }
  }
}
