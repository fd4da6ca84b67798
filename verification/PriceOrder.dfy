/** When the order of the goroutines of `AggregatedPnlHandler` (cmd/api/routes/pnl.go:89-170) shows in the
    totals.  They share a cache of prices but ask the price service without the lock, so which of its
    answers a token uses depends on who looks up, asks and stores when. */
module PriceOrder {
  import opened Domain
  import opened Aggregate
  import opened TokenProfit

  /** What a goroutine makes of an answer. */
  function Accepted(p: real): Option<real> {
    if p > 0.0 then Some(p) else None
  }

  /** A token whose price shows in the totals. */
  predicate Counts(t: Token) {
    t.symbol.Some? && HasBuyOrSell(t.swaps)
  }

  /** Every token that counts would get the same answer from each of the first `n` requests. */
  ghost predicate SameAnswers(tokens: seq<Token>, prices: Prices, n: nat) {
    forall i, r :: 0 <= i < |tokens| && Counts(tokens[i]) && 0 <= r < n ==>
      Accepted(prices(r)(tokens[i].symbol.value)) == Accepted(prices(0)(tokens[i].symbol.value))
  }

  /** Every order of the goroutines' moves leads to the same prices being used. */
  ghost predicate OrderFree(tokens: seq<Token>, prices: Prices) {
    forall a, b ::
      ValidSchedule(a, |tokens|) && ValidSchedule(b, |tokens|) &&
      Finished(Run(a, tokens, prices)) && Finished(Run(b, tokens, prices)) ==>
        Used(Run(a, tokens, prices).phases) == Used(Run(b, tokens, prices).phases)
  }

  /** The price a token uses when its answers are the same, if it counts at all; said without any
      schedule. */
  function Expected(t: Token, price: string -> real): Option<real> {
    if Counts(t) then Accepted(price(t.symbol.value)) else None
  }

  function AllExpected(tokens: seq<Token>, price: string -> real): seq<Option<real>> {
    seq(|tokens|, i requires 0 <= i < |tokens| => Expected(tokens[i], price))
  }

  lemma EndsAsExpected(p: Phase, t: Token, prices: Prices, requests: nat)
    requires PhaseInv(p, t, prices, requests) && IsEnded(p)
    requires Counts(t) ==> forall r :: 0 <= r < requests ==>
               Accepted(prices(r)(t.symbol.value)) == Accepted(prices(0)(t.symbol.value))
    ensures (if p.Folded? then Some(p.price) else None) == Expected(t, prices(0))
  {
  }

  /** When those answers are the same, the totals of a finished run are the same whatever the order: every
      token that counts has added its share once, at the price of its quote token, however often it was
      asked for. */
  lemma TotalsDoNotDependOnOrder(schedule: seq<nat>, tokens: seq<Token>, prices: Prices)
    requires ValidSchedule(schedule, |tokens|) && Finished(Run(schedule, tokens, prices))
    requires SameAnswers(tokens, prices, |WithSymbol(tokens)|)
    ensures Used(Run(schedule, tokens, prices).phases) == AllExpected(tokens, prices(0))
    ensures Run(schedule, tokens, prices).totals == Sum(Shares(tokens, AllExpected(tokens, prices(0))), |tokens|)
  {
    RunInv(schedule, tokens, prices);
    UsedAsExpected(Run(schedule, tokens, prices), tokens, prices);
  }

  lemma UsedAsExpected(s: State, tokens: seq<Token>, prices: Prices)
    requires Inv(s, tokens, prices) && Finished(s) && SameAnswers(tokens, prices, |WithSymbol(tokens)|)
    ensures Used(s.phases) == AllExpected(tokens, prices(0))
  {
    SubsetIsNotLarger(PastAsking(s.phases, tokens), WithSymbol(tokens));
    forall i | 0 <= i < |tokens| ensures Used(s.phases)[i] == Expected(tokens[i], prices(0)) {
      assert PhaseInv(s.phases[i], tokens[i], prices, s.requests);
      EndsAsExpected(s.phases[i], tokens[i], prices, s.requests);
    }
  }

  /** Exactly when the order of the goroutines does not show, for as many tokens as may run at once: every
      request that can be made must bring every token that counts the same answer.  With more tokens the
      condition is still enough, and needed for as many requests as the semaphore admits goroutines. */
  lemma OrderShowsExactly(tokens: seq<Token>, prices: Prices)
    ensures var n := |WithSymbol(tokens)|;
            && (n <= LIMIT ==> (OrderFree(tokens, prices) <==> SameAnswers(tokens, prices, n)))
            && (SameAnswers(tokens, prices, n) ==> OrderFree(tokens, prices))
            && (OrderFree(tokens, prices) ==> SameAnswers(tokens, prices, if n <= LIMIT then n else LIMIT))
  {
    var n := |WithSymbol(tokens)|;
    if SameAnswers(tokens, prices, n) {
      forall a, b | ValidSchedule(a, |tokens|) && ValidSchedule(b, |tokens|) &&
                    Finished(Run(a, tokens, prices)) && Finished(Run(b, tokens, prices))
        ensures Used(Run(a, tokens, prices).phases) == Used(Run(b, tokens, prices).phases)
      {
        TotalsDoNotDependOnOrder(a, tokens, prices);
        TotalsDoNotDependOnOrder(b, tokens, prices);
      }
    }
    if OrderFree(tokens, prices) {
      forall i, r | 0 <= i < |tokens| && Counts(tokens[i]) && 0 <= r < (if n <= LIMIT then n else LIMIT)
        ensures Accepted(prices(r)(tokens[i].symbol.value)) == Accepted(prices(0)(tokens[i].symbol.value))
      {
        var early := AskedAfter(i, 0, tokens, prices);
        var late := AskedAfter(i, r, tokens, prices);
        assert Used(Run(early, tokens, prices).phases)[i] == Used(Run(late, tokens, prices).phases)[i];
      }
    }
  }

  /** There is a finished run in which a given token gets the answer to a given request: as many others
      look up their prices before any is stored, and all ask before it. */
  lemma AskedAfter(i: nat, r: nat, tokens: seq<Token>, prices: Prices) returns (schedule: seq<nat>)
    requires i < |tokens| && Counts(tokens[i]) && r < |WithSymbol(tokens)| && r < LIMIT
    ensures ValidSchedule(schedule, |tokens|) && Finished(Run(schedule, tokens, prices))
    ensures Used(Run(schedule, tokens, prices).phases)[i] == Accepted(prices(r)(tokens[i].symbol.value))
  {
    assert WithSymbol(tokens) == WithSymbol(tokens) - {i} + {i};
    var others := Pick(WithSymbol(tokens) - {i}, r);
    var order := others + [i];
    var asking := AllLookUp(order, r + 1, tokens, prices);
    var asked := AllAsk(order, r + 1, asking, tokens, prices);
    assert order[r] == i;
    schedule := Continue(asked, tokens, prices);
    OutcomeStays(asked, schedule, i, Accepted(prices(r)(tokens[i].symbol.value)), tokens, prices);
  }

  predicate AllDifferent(order: seq<nat>) {
    forall j, k :: 0 <= j < k < |order| ==> order[j] != order[k]
  }

  lemma {:induction false} Pick(from: set<nat>, r: nat) returns (order: seq<nat>)
    requires r <= |from|
    ensures |order| == r && AllDifferent(order) && forall k :: 0 <= k < r ==> order[k] in from
    decreases r
  {
    if r == 0 {
      order := [];
    } else {
      var x :| x in from;
      var rest := Pick(from - {x}, r - 1);
      order := [x] + rest;
    }
  }

  /** The first `n` of an order are past a cache miss, the others are not launched, and nothing was asked. */
  predicate LookedUp(s: State, order: seq<nat>, n: nat, tokens: seq<Token>)
    requires n <= |order|
  {
    && |s.phases| == |tokens| && s.cache == map[] && s.requests == 0
    && (forall k :: 0 <= k < |tokens| ==> s.phases[k] == if k in order[..n] then Asking else Waiting)
  }

  predicate ValidOrder(order: seq<nat>, tokens: seq<Token>) {
    AllDifferent(order) && forall k :: 0 <= k < |order| ==> order[k] < |tokens| && tokens[order[k]].symbol.Some?
  }

  function Elements(order: seq<nat>): set<nat> {
    set x | x in order
  }

  lemma {:induction false} ManyDifferent(order: seq<nat>)
    requires AllDifferent(order)
    ensures |Elements(order)| == |order|
  {
    if order != [] {
      var n := |order| - 1;
      ManyDifferent(order[..n]);
      assert order == order[..n] + [order[n]];
      assert order[n] !in order[..n];
      assert Elements(order) == Elements(order[..n]) + {order[n]};
    }
  }

  lemma {:induction false} AllLookUp(order: seq<nat>, n: nat, tokens: seq<Token>, prices: Prices)
    returns (schedule: seq<nat>)
    requires n <= |order| <= LIMIT && ValidOrder(order, tokens)
    ensures ValidSchedule(schedule, |tokens|) && LookedUp(Run(schedule, tokens, prices), order, n, tokens)
    decreases n
  {
    if n == 0 {
      schedule := [];
    } else {
      var before := AllLookUp(order, n - 1, tokens, prices);
      var i := order[n - 1];
      OneLooksUp(Run(before, tokens, prices), order, n, tokens, prices);
      Moved(before, before + [i], i, tokens, prices);
      schedule := before + [i] + [i];
      Moved(before + [i], schedule, i, tokens, prices);
    }
  }

  lemma OneLooksUp(s: State, order: seq<nat>, n: nat, tokens: seq<Token>, prices: Prices)
    requires 0 < n <= |order| <= LIMIT && ValidOrder(order, tokens) && LookedUp(s, order, n - 1, tokens)
    ensures |Step(s, order[n - 1], tokens, prices).phases| == |tokens|
    ensures LookedUp(Step(Step(s, order[n - 1], tokens, prices), order[n - 1], tokens, prices), order, n, tokens)
  {
    var i := order[n - 1];
    assert Active(s.phases) == Elements(order[..n - 1]);
    ManyDifferent(order[..n - 1]);
    assert order[..n] == order[..n - 1] + [i];
    assert i !in order[..n - 1];
    assert Step(s, i, tokens, prices) == s.(phases := s.phases[i := Starting]);
  }

  /** The answer a goroutine that asked is bound to. */
  predicate Bound(p: Phase, used: Option<real>) {
    if used.Some? then p == Told(used.value) || p == Priced(used.value) || p == Folded(used.value) else p.Dropped?
  }

  /** The first `n` of an order have asked, one after the other, and the others are still to ask. */
  predicate HaveAsked(s: State, order: seq<nat>, n: nat, tokens: seq<Token>, prices: Prices)
    requires n <= |order| && ValidOrder(order, tokens)
  {
    && |s.phases| == |tokens| && s.requests == n
    && (forall k :: n <= k < |order| ==> s.phases[order[k]].Asking?)
    && (forall k :: 0 <= k < n ==>
          Bound(s.phases[order[k]], Accepted(prices(k)(tokens[order[k]].symbol.value))))
  }

  lemma {:induction false} AllAsk(order: seq<nat>, n: nat, asking: seq<nat>, tokens: seq<Token>, prices: Prices)
    returns (schedule: seq<nat>)
    requires n <= |order| && ValidOrder(order, tokens) && ValidSchedule(asking, |tokens|)
    requires LookedUp(Run(asking, tokens, prices), order, |order|, tokens)
    ensures ValidSchedule(schedule, |tokens|) && HaveAsked(Run(schedule, tokens, prices), order, n, tokens, prices)
    decreases n
  {
    if n == 0 {
      schedule := asking;
      assert order[..|order|] == order;
    } else {
      var before := AllAsk(order, n - 1, asking, tokens, prices);
      schedule := before + [order[n - 1]];
      Moved(before, schedule, order[n - 1], tokens, prices);
      OneAsks(Run(before, tokens, prices), order, n, tokens, prices);
    }
  }

  lemma OneAsks(s: State, order: seq<nat>, n: nat, tokens: seq<Token>, prices: Prices)
    requires 0 < n <= |order| && ValidOrder(order, tokens) && HaveAsked(s, order, n - 1, tokens, prices)
    ensures HaveAsked(Step(s, order[n - 1], tokens, prices), order, n, tokens, prices)
  {
    var i := order[n - 1];
    var next := Step(s, i, tokens, prices);
    assert s.phases[i].Asking?;
    assert next.phases == s.phases[i := next.phases[i]];
    assert forall k :: 0 <= k < |order| && k != n - 1 ==> next.phases[order[k]] == s.phases[order[k]];
  }

  lemma {:induction false} OutcomeStays(schedule: seq<nat>, more: seq<nat>, i: nat, used: Option<real>,
                                        tokens: seq<Token>, prices: Prices)
    requires ValidSchedule(more, |tokens|) && schedule <= more && i < |tokens| && Counts(tokens[i])
    requires Bound(Run(schedule, tokens, prices).phases[i], used)
    ensures Bound(Run(more, tokens, prices).phases[i], used)
    decreases |more|
  {
    if |more| > |schedule| {
      OutcomeStays(schedule, more[..|more| - 1], i, used, tokens, prices);
    } else {
      assert more == schedule;
    }
  }

  /** When the price moves, the totals show the order: of two tokens with one quote token and one purchase
      each, the second reads the first's price from the cache, or asks again if both looked before either
      had it. */
  lemma MovingPriceShows(t: Token, buy: SwapLog, prices: Prices)
    requires t.symbol.Some? && t.swaps == [buy] && buy.action.BuyAction? && buy.amountOut > 0.0
    requires Computed([t, t])
    requires 0.0 < prices(0)(t.symbol.value) && 0.0 < prices(1)(t.symbol.value)
    requires prices(0)(t.symbol.value) != prices(1)(t.symbol.value)
    ensures ValidSchedule(ONE_BY_ONE, 2) && ValidSchedule(SIDE_BY_SIDE, 2)
    ensures Finished(Run(ONE_BY_ONE, [t, t], prices)) && Finished(Run(SIDE_BY_SIDE, [t, t], prices))
    ensures var p, q := prices(0)(t.symbol.value), prices(1)(t.symbol.value);
            && Run(ONE_BY_ONE, [t, t], prices).totals.buyVolume == Value(buy.amountOut, p) + Value(buy.amountOut, p)
            && Run(SIDE_BY_SIDE, [t, t], prices).totals.buyVolume == Value(buy.amountOut, p) + Value(buy.amountOut, q)
            && Run(ONE_BY_ONE, [t, t], prices).totals != Run(SIDE_BY_SIDE, [t, t], prices).totals
  {
    var p, q := prices(0)(t.symbol.value), prices(1)(t.symbol.value);
    assert buy in t.swaps;
    OneByOneVolume(t, prices);
    SideBySideVolume(t, prices);
    VolumeOfOne(t, buy, p);
    VolumeOfOne(t, buy, q);
    DifferentValues(buy.amountOut, p, q);
  }

  lemma DifferentValues(amount: real, p: real, q: real)
    requires amount > 0.0 && p != q
    ensures Value(amount, p) != Value(amount, q)
  {
    assert amount * (p - q) != 0.0;
  }

  lemma VolumeOfOne(t: Token, buy: SwapLog, price: real)
    requires t.swaps == [buy] && buy.action.BuyAction? && Computed([t, t])
    ensures t.compute(price).pnl.boughtUSD == Value(buy.amountOut, price)
  {
    assert IsCalculation([t, t][0].swaps, price, [t, t][0].compute(price));
    var log, latest :| IsCalculationOf(t.swaps, price, t.compute(price), log, latest);
    var entries := Entries(t.swaps);
    assert entries == [Entry(buy)];
    assert |multiset(log)| == |log| && Entry(buy) in multiset(log);
    assert log == entries;
    assert BuyValue(log, price, 0) == 0.0;
  }

  const ONE_BY_ONE: seq<nat> := [0, 0, 0, 0, 0, 1, 1, 1]
  const SIDE_BY_SIDE: seq<nat> := [0, 1, 0, 1, 0, 1, 0, 1, 0, 1]

  /** Phases, cache and requests of a state with two tokens. */
  predicate At(s: State, a: Phase, b: Phase, cache: map<string, real>, requests: nat) {
    s.phases == [a, b] && s.cache == cache && s.requests == requests
  }

  lemma AtStart(tokens: seq<Token>, prices: Prices)
    requires |tokens| == 2
    ensures At(Run([], tokens, prices), Waiting, Waiting, map[], 0)
  {
    RunEmpty(tokens, prices);
  }

  /** One of two goroutines with the same quote token has moved. */
  predicate Turned(s: State, next: State, i: nat, symbol: string, prices: Prices)
    requires |s.phases| == 2 && i < 2
  {
    match s.phases[i]
    case Waiting => next == s.(phases := s.phases[i := Starting])
    case Starting =>
      next == s.(phases := s.phases[i := if symbol in s.cache then Priced(s.cache[symbol]) else Asking])
    case Asking =>
      prices(s.requests)(symbol) > 0.0 ==>
        next == s.(phases := s.phases[i := Told(prices(s.requests)(symbol))], requests := s.requests + 1)
    case Told(p) => next == s.(phases := s.phases[i := Priced(p)], cache := s.cache[symbol := p])
    case Priced(p) => next == s.(phases := s.phases[i := Folded(p)], totals := next.totals)
    case _ => true
  }

  /** The next move of a schedule over two such goroutines. */
  lemma TurnAt(all: seq<nat>, k: nat, i: nat, t: Token, prices: Prices)
    requires ValidSchedule(all, 2) && k < |all| && all[k] == i && Counts(t)
    ensures ValidSchedule(all[..k], 2) && ValidSchedule(all[..k + 1], 2)
    ensures Turned(Run(all[..k], [t, t], prices), Run(all[..k + 1], [t, t], prices), i, t.symbol.value, prices)
  {
    Moved(all[..k], all[..k + 1], i, [t, t], prices);
    var s := Run(all[..k], [t, t], prices);
    if s.phases[i].Waiting? {
      SubsetIsNotLarger(Active(s.phases), {0, 1});
    }
  }

  /** A sequence of states, from the start, in which those two move as a schedule says. */
  predicate Turns(s: seq<State>, schedule: seq<nat>, symbol: string, prices: Prices) {
    && |s| == |schedule| + 1 && At(s[0], Waiting, Waiting, map[], 0)
    && (forall k :: 0 <= k < |schedule| ==>
          schedule[k] < 2 && |s[k].phases| == 2 && Turned(s[k], s[k + 1], schedule[k], symbol, prices))
  }

  function States(schedule: seq<nat>, t: Token, prices: Prices): seq<State>
    requires ValidSchedule(schedule, 2)
  {
    seq(|schedule| + 1, k requires 0 <= k <= |schedule| => Run(schedule[..k], [t, t], prices))
  }

  lemma RunTurns(schedule: seq<nat>, t: Token, prices: Prices)
    requires ValidSchedule(schedule, 2) && Counts(t)
    ensures var s := States(schedule, t, prices);
            Turns(s, schedule, t.symbol.value, prices) && s[|schedule|] == Run(schedule, [t, t], prices)
  {
    assert schedule[..|schedule|] == schedule;
    AtStart([t, t], prices);
    forall k | 0 <= k < |schedule|
      ensures Turned(States(schedule, t, prices)[k], States(schedule, t, prices)[k + 1], schedule[k],
                     t.symbol.value, prices)
    {
      TurnAt(schedule, k, schedule[k], t, prices);
    }
  }

  lemma OneAfterTheOther(s: seq<State>, symbol: string, prices: Prices)
    requires Turns(s, ONE_BY_ONE, symbol, prices) && 0.0 < prices(0)(symbol)
    ensures s[8].phases == [Folded(prices(0)(symbol)), Folded(prices(0)(symbol))]
  {
    var p := prices(0)(symbol);
    var stored := map[symbol := p];
    assert At(s[1], Starting, Waiting, map[], 0);
    assert At(s[2], Asking, Waiting, map[], 0);
    assert At(s[3], Told(p), Waiting, map[], 1);
    assert At(s[4], Priced(p), Waiting, stored, 1);
    assert At(s[5], Folded(p), Waiting, stored, 1);
    assert At(s[6], Folded(p), Starting, stored, 1);
    assert At(s[7], Folded(p), Priced(p), stored, 1);
  }

  lemma BothAsk(s: seq<State>, symbol: string, prices: Prices)
    requires Turns(s, SIDE_BY_SIDE, symbol, prices) && 0.0 < prices(0)(symbol) && 0.0 < prices(1)(symbol)
    ensures s[10].phases == [Folded(prices(0)(symbol)), Folded(prices(1)(symbol))]
  {
    var p, q := prices(0)(symbol), prices(1)(symbol);
    assert At(s[1], Starting, Waiting, map[], 0);
    assert At(s[2], Starting, Starting, map[], 0);
    assert At(s[3], Asking, Starting, map[], 0);
    assert At(s[4], Asking, Asking, map[], 0);
    assert At(s[5], Told(p), Asking, map[], 1);
    assert At(s[6], Told(p), Told(q), map[], 2);
    assert At(s[7], Priced(p), Told(q), map[symbol := p], 2);
    assert At(s[8], Priced(p), Priced(q), map[symbol := q], 2);
    assert At(s[9], Folded(p), Priced(q), map[symbol := q], 2);
  }

  lemma VolumeOfTwo(t: Token, p: real, q: real, totals: Totals)
    requires totals == Sum(Shares([t, t], Used([Folded(p), Folded(q)])), 2)
    ensures totals.buyVolume == t.compute(p).pnl.boughtUSD + t.compute(q).pnl.boughtUSD
  {
    var shares := Shares([t, t], Used([Folded(p), Folded(q)]));
    assert shares[0] == Share(t.compute(p)) && shares[1] == Share(t.compute(q));
    assert Sum(shares, 1) == Plus(ZERO, shares[0]);
  }

  lemma OneByOneVolume(t: Token, prices: Prices)
    requires Counts(t) && 0.0 < prices(0)(t.symbol.value)
    ensures var s, p := Run(ONE_BY_ONE, [t, t], prices), prices(0)(t.symbol.value);
            Finished(s) && s.totals.buyVolume == t.compute(p).pnl.boughtUSD + t.compute(p).pnl.boughtUSD
  {
    RunTurns(ONE_BY_ONE, t, prices);
    OneAfterTheOther(States(ONE_BY_ONE, t, prices), t.symbol.value, prices);
    RunInv(ONE_BY_ONE, [t, t], prices);
    VolumeOfTwo(t, prices(0)(t.symbol.value), prices(0)(t.symbol.value), Run(ONE_BY_ONE, [t, t], prices).totals);
  }

  lemma SideBySideVolume(t: Token, prices: Prices)
    requires Counts(t) && 0.0 < prices(0)(t.symbol.value) && 0.0 < prices(1)(t.symbol.value)
    ensures var s, p, q := Run(SIDE_BY_SIDE, [t, t], prices), prices(0)(t.symbol.value), prices(1)(t.symbol.value);
            Finished(s) && s.totals.buyVolume == t.compute(p).pnl.boughtUSD + t.compute(q).pnl.boughtUSD
  {
    RunTurns(SIDE_BY_SIDE, t, prices);
    BothAsk(States(SIDE_BY_SIDE, t, prices), t.symbol.value, prices);
    RunInv(SIDE_BY_SIDE, [t, t], prices);
    VolumeOfTwo(t, prices(0)(t.symbol.value), prices(1)(t.symbol.value), Run(SIDE_BY_SIDE, [t, t], prices).totals);
  }
}
