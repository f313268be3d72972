/** Runs of commands from the opening, and what holds after every one of them. */
module Runs {
  import opened OrderedSeq
  import opened Orders
  import opened Markets
  import opened Trading
  import opened Matching
  import opened Accounts
  import opened Commands

  /** Commands as they come, each from a trader. */
  type Input = seq<(nat, Command)>

  /** No orders, no positions, nothing issued. */
  function Opening(products: nat, traders: nat): Market {
    var zeros := seq(products, i => 0);
    var empty: seq<seq<Id>> := seq(products, i => []);
    Market(map[], empty, empty, seq(traders, i => Trader([], zeros, zeros, 0)), 0, 0)
  }

  lemma {:induction false} ZeroSum(s: seq<int>)
    requires forall i :: 0 <= i < |s| ==> s[i] == 0
    ensures Sum(s) == 0
  {
    if s != [] { ZeroSum(s[1..]); }
  }

  lemma OpeningUncrossed(products: nat, traders: nat)
    ensures Uncrossed(Opening(products, traders))
  {
    var m := Opening(products, traders);
    forall p | 0 <= p < products ensures BookOk(m.store, Buy, p, m.buy[p]) && BookOk(m.store, Sell, p, m.sell[p]) {
      assert m.buy[p] == [] && m.sell[p] == [];
    }
  }

  lemma OpeningBalanced(products: nat, traders: nat)
    ensures Balanced(Opening(products, traders)) && NumbersUsed(Opening(products, traders).traders) == 0
  {
    var m := Opening(products, traders);
    ZeroSum(seq(products, i => 0));
    ZeroSum(Purses(m.traders));
    ZeroSum(Nexts(m.traders));
    forall p: nat | p < products ensures Sum(Holdings(m.traders, p)) == 0 { ZeroSum(Holdings(m.traders, p)); }
  }

  /** The opening is steady, within all limits, and without a number used. */
  lemma OpeningSteady(products: nat, traders: nat)
    ensures var m := Opening(products, traders);
      Steady(m) && Tame(m, 0) && NumbersUsed(m.traders) == 0 && ShortNumbers(m)
  {
    OpeningUncrossed(products, traders);
    OpeningBalanced(products, traders);
  }

  /** The commands of a run come from traders there are, and leave global ids that fit. */
  ghost predicate Runnable(m: Market, names: seq<string>, cs: Input) {
    && |names| == |m.buy| && m.issued + |cs| <= INT_LIMIT
    && forall i :: 0 <= i < |cs| ==> cs[i].0 < |m.traders|
  }

  predicate AllLegal(cs: Input) {
    forall i :: 0 <= i < |cs| ==> Legal(cs[i].1)
  }

  /** The fields of one-line messages, order numbers included. */
  predicate SixDigits(c: Command) {
    Legal(c) && 0 <= c.number <= FIELD_MAX
  }

  predicate AllSixDigits(cs: Input) {
    forall i :: 0 <= i < |cs| ==> SixDigits(cs[i].1)
  }

  /** No trader has used more numbers than have six digits. */
  ghost predicate ShortNumbers(m: Market) {
    forall t :: 0 <= t < |m.traders| ==> m.traders[t].next <= FIELD_MAX + 1
  }

  lemma ProcessNumbers(m: Market, names: seq<string>, t: nat, c: Command)
    requires Serves(m, names, t) && Uncrossed(m) && ShortNumbers(m) && SixDigits(c)
    ensures ShortNumbers(Process(m, names, t, c).market)
  {
    RefusedOrNot(m, names, t, c);
    if !Refused(m, names, t, c) {
      if c.Cancel? { CancelTakes(m, names, t, c); } else { CommandAccounts(m, names, t, c); }
    }
  }

  lemma {:induction false} FeesJoin(a: seq<Fill>, b: seq<Fill>)
    ensures Fees(a + b) == Fees(a) + Fees(b)
  {
    if a == [] {
      assert a + b == b;
    } else {
      assert (a + b)[1..] == a[1..] + b;
      FeesJoin(a[1..], b);
    }
  }

  /** What every run of n commands keeps. */
  ghost predicate Ran(m: Market, m': Market, fills: seq<Fill>, n: nat) {
    && Steady(m') && |m'.buy| == |m.buy| && |m'.traders| == |m.traders|
    && m'.issued <= m.issued + n && m'.fees == m.fees + Fees(fills)
    && |fills| + |m'.store| + NumbersUsed(m.traders) <= |m.store| + NumbersUsed(m'.traders)
    && NumbersUsed(m'.traders) <= NumbersUsed(m.traders) + n
  }

  /** What runs of legal commands keep besides. */
  ghost predicate RanTame(m: Market, m': Market, fills: seq<Fill>) {
    AllSmall(fills) && forall k: nat :: Tame(m, k) ==> Tame(m', k + |fills|)
  }

  ghost predicate SomeTame(m: Market) {
    exists k: nat :: Tame(m, k)
  }

  lemma RanThenStep(m: Market, m1: Market, fills: seq<Fill>, n: nat, r: Outcome)
    requires Ran(m, m1, fills, n) && OneStep(m1, r)
    ensures Ran(m, r.market, fills + r.fills, n + 1)
  {
    FeesJoin(fills, r.fills);
  }

  lemma AllSmallJoin(a: seq<Fill>, b: seq<Fill>)
    requires AllSmall(a) && AllSmall(b)
    ensures AllSmall(a + b)
  {
  }

  lemma TameThenStep(m: Market, m1: Market, fills: seq<Fill>, names: seq<string>, t: nat, c: Command)
    requires RanTame(m, m1, fills) && SomeTame(m)
    requires Serves(m1, names, t) && Uncrossed(m1) && Legal(c)
    ensures RanTame(m, Process(m1, names, t, c).market, fills + Process(m1, names, t, c).fills)
  {
    var r := Process(m1, names, t, c);
    forall k: nat | Tame(m, k) ensures Tame(r.market, k + |fills + r.fills|) && AllSmall(r.fills) {
      ProcessTame(m1, names, t, c, k + |fills|);
      assert k + |fills| + |r.fills| == k + |fills + r.fills|;
    }
    AllSmallJoin(fills, r.fills);
  }

  lemma RanOneMore(m: Market, m1: Market, fills: seq<Fill>, n: nat, names: seq<string>, t: nat, c: Command,
                   legal: bool, sixDigits: bool)
    requires Ran(m, m1, fills, n) && Serves(m1, names, t)
    requires legal ==> RanTame(m, m1, fills) && SomeTame(m) && Legal(c)
    requires sixDigits ==> ShortNumbers(m1) && SixDigits(c)
    ensures var r := Process(m1, names, t, c);
      && Ran(m, r.market, fills + r.fills, n + 1)
      && (legal ==> RanTame(m, r.market, fills + r.fills))
      && (sixDigits ==> ShortNumbers(r.market))
  {
    ProcessSteady(m1, names, t, c);
    RanThenStep(m, m1, fills, n, Process(m1, names, t, c));
    if legal { TameThenStep(m, m1, fills, names, t, c); }
    if sixDigits { ProcessNumbers(m1, names, t, c); }
  }

  /** The state a run ends in and all its trades, in order. */
  ghost function Run(m: Market, names: seq<string>, cs: Input): (r: (Market, seq<Fill>))
    requires Steady(m) && Runnable(m, names, cs)
    ensures Ran(m, r.0, r.1, |cs|)
    ensures AllLegal(cs) && SomeTame(m) ==> RanTame(m, r.0, r.1)
    ensures AllSixDigits(cs) && ShortNumbers(m) ==> ShortNumbers(r.0)
    decreases |cs|
  {
    if cs == [] then
      (m, [])
    else
      var n := |cs| - 1;
      var (m1, fills) := Run(m, names, cs[..n]);
      RanOneMore(m, m1, fills, n, names, cs[n].0, cs[n].1,
                 AllLegal(cs) && SomeTame(m), AllSixDigits(cs) && ShortNumbers(m));
      var r := Process(m1, names, cs[n].0, cs[n].1);
      (r.market, fills + r.fills)
  }

  /** A run of one more command. */
  lemma RunSnoc(m: Market, names: seq<string>, cs: Input, t: nat, c: Command)
    requires Steady(m) && Runnable(m, names, cs + [(t, c)])
    ensures Runnable(m, names, cs)
    ensures var r := Run(m, names, cs);
      && Serves(r.0, names, t)
      && var r' := Process(r.0, names, t, c);
        Run(m, names, cs + [(t, c)]) == (r'.market, r.1 + r'.fills)
  {
    var all := cs + [(t, c)];
    assert all[..|all| - 1] == cs;
    assert forall i :: 0 <= i < |cs| ==> all[i] == cs[i];
    assert all[|cs|].0 < |m.traders|;
  }

  /** After any run from the opening, up to 2^31 commands of any kind: the indexes agree
      with the live orders, no book is crossed, quantities and cash are conserved, the
      fees are those of the trades, and there were no more trades than order numbers
      used, nor than commands. */
  lemma EveryRun(products: nat, traders: nat, names: seq<string>, cs: Input)
    requires |names| == products && |cs| <= INT_LIMIT
    requires forall i :: 0 <= i < |cs| ==> cs[i].0 < traders
    ensures Steady(Opening(products, traders))
    ensures var r := Run(Opening(products, traders), names, cs);
      && Steady(r.0) && r.0.fees == Fees(r.1)
      && |r.1| + |r.0.store| <= NumbersUsed(r.0.traders) <= |cs|
  {
    OpeningSteady(products, traders);
  }

  lemma {:induction false} WithinSum(s: seq<int>, i: nat)
    requires i < |s| && forall j :: 0 <= j < |s| ==> s[j] >= 0
    ensures 0 <= s[i] <= Sum(s)
  {
    if i > 0 { WithinSum(s[1..], i - 1); } else { SumNat(s[1..]); }
  }

  lemma {:induction false} SumNat(s: seq<int>)
    requires forall j :: 0 <= j < |s| ==> s[j] >= 0
    ensures Sum(s) >= 0
  {
    if s != [] { SumNat(s[1..]); }
  }

  /** So order numbers fit ints too, after any run of fewer than 2^31 commands. */
  lemma NumbersFit(products: nat, traders: nat, names: seq<string>, cs: Input, t: nat)
    requires |names| == products && |cs| < INT_LIMIT && t < traders
    requires forall i :: 0 <= i < |cs| ==> cs[i].0 < traders
    ensures Steady(Opening(products, traders))
    ensures var r := Run(Opening(products, traders), names, cs);
      |r.0.traders| == traders && 0 <= r.0.traders[t].next < INT_LIMIT
  {
    EveryRun(products, traders, names, cs);
    WithinSum(Nexts(Run(Opening(products, traders), names, cs).0.traders), t);
  }

  /** If the commands are those of one-line messages, quantities and prices stay positive
      and within six digits, positions within the reach of the trades made, and the fees
      are a hundredth of what was traded, to half a unit a trade. */
  lemma EveryLegalRun(products: nat, traders: nat, names: seq<string>, cs: Input)
    requires |names| == products && |cs| <= INT_LIMIT && AllLegal(cs)
    requires forall i :: 0 <= i < |cs| ==> cs[i].0 < traders
    ensures Steady(Opening(products, traders))
    ensures var r := Run(Opening(products, traders), names, cs);
      var n := |r.1|;
      Tame(r.0, n) && AllSmall(r.1) && -50 * n <= 100 * r.0.fees - Values(r.1) <= 50 * n
  {
    EveryRun(products, traders, names, cs);
    OpeningSteady(products, traders);
    FeesNear(Run(Opening(products, traders), names, cs).1);
  }

  /** A run of commands of one-line messages, from the opening. */
  predicate ShortRun(traders: nat, cs: Input) {
    |cs| <= INT_LIMIT && AllSixDigits(cs) && forall i :: 0 <= i < |cs| ==> cs[i].0 < traders
  }

  ghost function RunOf(traders: nat, names: seq<string>, cs: Input): (r: (Market, seq<Fill>))
    requires ShortRun(traders, cs)
    ensures Steady(r.0) && |r.0.traders| == traders && |r.0.buy| == |names|
  {
    OpeningSteady(|names|, traders);
    Run(Opening(|names|, traders), names, cs)
  }

  lemma OneMoreOf(traders: nat, names: seq<string>, cs: Input, t: nat, c: Command)
    requires ShortRun(traders, cs) && |cs| < INT_LIMIT && t < traders && SixDigits(c)
    ensures ShortRun(traders, cs + [(t, c)])
    ensures var r := RunOf(traders, names, cs);
      && Serves(r.0, names, t)
      && RunOf(traders, names, cs + [(t, c)]) ==
         (Process(r.0, names, t, c).market, r.1 + Process(r.0, names, t, c).fills)
  {
    assert Steady(Opening(|names|, traders)) by { OpeningSteady(|names|, traders); }
    assert AllSixDigits(cs + [(t, c)]) && Runnable(Opening(|names|, traders), names, cs + [(t, c)]);
    RunSnoc(Opening(|names|, traders), names, cs, t, c);
  }

  /** Quantities and cash, fees included, fit the fields they are kept in. */
  ghost predicate QuantitiesFit(m: Market) {
    forall t, p :: 0 <= t < |m.traders| && 0 <= p < |m.traders[t].quantities| ==> FitsInt(m.traders[t].quantities[p])
  }

  ghost predicate CashFits(m: Market) {
    && FitsLong(m.fees)
    && forall t, p :: 0 <= t < |m.traders| && 0 <= p < |m.traders[t].cash| ==> FitsLong(m.traders[t].cash[p])
  }
}
