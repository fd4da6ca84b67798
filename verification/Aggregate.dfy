/** The profit of a wallet over all its tokens: `AggregatedPnlHandler` of cmd/api/routes/pnl.go.

    One goroutine per token looks up a price, computes the token's profit and adds it to shared
    totals under a lock.  The model interleaves launches, locked sections and requests in any order that
    the semaphore admits, and the price service may answer differently each time it is asked. */
module Aggregate {
  import opened Domain
  import FifoLots
  import opened TokenProfit

  // ---------- grouping ----------

  function OfToken(swaps: seq<SwapLog>, token: Address): seq<SwapLog> {
    if swaps == [] then [] else
    var init, last := OfToken(swaps[..|swaps| - 1], token), swaps[|swaps| - 1];
    if last.token == token then init + [last] else init
  }

  /** A token's swaps are those filed under it, each as often as it occurs, and in their order. */
  lemma {:induction false} OfTokenMembers(swaps: seq<SwapLog>, token: Address, s: SwapLog)
    ensures multiset(OfToken(swaps, token))[s] == if s.token == token then multiset(swaps)[s] else 0
    decreases |swaps|
  {
    if swaps != [] {
      var n := |swaps| - 1;
      assert swaps == swaps[..n] + [swaps[n]];
      OfTokenMembers(swaps[..n], token, s);
    }
  }

  /** Every token gets its own swaps, in their order, and no token without swaps appears. */
  method GroupByToken(swaps: seq<SwapLog>) returns (groups: map<Address, seq<SwapLog>>)
    ensures forall t :: t in groups <==> OfToken(swaps, t) != []
    ensures forall t <- groups :: groups[t] == OfToken(swaps, t)
  {
    groups := map[];
    var i := 0;
    while i < |swaps|
      invariant 0 <= i <= |swaps|
      invariant forall t :: t in groups <==> OfToken(swaps[..i], t) != []
      invariant forall t <- groups :: groups[t] == OfToken(swaps[..i], t)
    {
      var s := swaps[i];
      assert swaps[..i + 1][..i] == swaps[..i];
      groups := groups[s.token := (if s.token in groups then groups[s.token] else []) + [s]];
      i := i + 1;
    }
    assert swaps[..|swaps|] == swaps;
  }

  // ---------- the totals ----------

  /** What the calculation yields for one token. */
  datatype Result = Result(pnl: TokenPnL, sold: real, held: int)

  /** One token of the wallet with its swaps.  `symbol` is that of the first swap's quote token, and
      `compute` is the calculation as a function of the quote token's price. */
  datatype Token = Token(symbol: Option<string>, swaps: seq<SwapLog>, compute: real -> Result)

  predicate HasBuyOrSell(swaps: seq<SwapLog>) {
    exists s <- swaps :: IsTrade(s)
  }

  /** `r` is what the calculation may yield for the swaps at a price: the figures of some sorted
      rearrangement of them, for some latest swap. */
  ghost predicate IsCalculation(swaps: seq<SwapLog>, price: real, r: Result) {
    exists log, latest :: IsCalculationOf(swaps, price, r, log, latest)
  }

  ghost predicate IsCalculationOf(swaps: seq<SwapLog>, price: real, r: Result, log: seq<FifoLots.Swap>,
                                  latest: Option<SwapLog>) {
    && FifoLots.Sorted(log) && multiset(log) == multiset(Entries(swaps))
    && IsLatest(latest) && IsOutcomeOf(log, price, LatestEntry(latest), Figures(r.pnl))
    && r.sold == FifoLots.Run(log, |log|).sold && r.held == FifoLots.Run(log, |log|).held
  }

  ghost predicate Computed(tokens: seq<Token>) {
    forall i, p :: 0 <= i < |tokens| ==> IsCalculation(tokens[i].swaps, p, tokens[i].compute(p))
  }

  datatype Totals = Totals(buyVolume: real, sellVolume: real, held: int, sold: real, active: real,
                           realized: real, unrealized: real, realizedROI: real, unrealizedROI: real,
                           numerator: real, investment: real)

  const ZERO := Totals(0.0, 0.0, 0, 0.0, 0.0, 0.0, 0.0, 0.0, 0.0, 0.0, 0.0)

  function Plus(a: Totals, b: Totals): Totals {
    Totals(a.buyVolume + b.buyVolume, a.sellVolume + b.sellVolume, a.held + b.held, a.sold + b.sold,
           a.active + b.active, a.realized + b.realized, a.unrealized + b.unrealized,
           a.realizedROI + b.realizedROI, a.unrealizedROI + b.unrealizedROI,
           a.numerator + b.numerator, a.investment + b.investment)
  }

  /** What one token adds: its rate of return is weighted with what was paid, if anything was. */
  function Share(r: Result): Totals {
    var weighted := r.pnl.boughtUSD > 0.0;
    Totals(r.pnl.boughtUSD, r.pnl.soldUSD, r.held, r.sold, r.pnl.remainingUSD,
           r.pnl.realized, r.pnl.unrealized, r.pnl.realizedROI, r.pnl.unrealizedROI,
           if weighted then r.pnl.roi / 100.0 * r.pnl.boughtUSD else 0.0,
           if weighted then r.pnl.boughtUSD else 0.0)
  }

  // ---------- the goroutines ----------

  /** Where a token's goroutine stands: not launched, before the look-up, past a cache miss, with an answer
      that is not stored yet, with a price, ended without adding anything, or done with the price it used. */
  datatype Phase =
    | Waiting | Starting | Asking | Told(price: real) | Priced(price: real) | Dropped | Folded(price: real)

  datatype State = State(phases: seq<Phase>, cache: map<string, real>, requests: nat, totals: Totals)

  /** What the price service answers to each request, in the order of the requests. */
  type Prices = nat -> string -> real

  /** How many goroutines the semaphore lets run at once. */
  const LIMIT: nat := 100

  predicate IsActive(p: Phase) {
    p.Starting? || p.Asking? || p.Told? || p.Priced?
  }

  predicate IsEnded(p: Phase) {
    p.Dropped? || p.Folded?
  }

  /** The goroutines that hold a slot of the semaphore. */
  function Active(phases: seq<Phase>): set<nat> {
    set i: nat | i < |phases| && IsActive(phases[i])
  }

  predicate Enabled(s: State, i: nat)
    requires i < |s.phases|
  {
    !IsEnded(s.phases[i]) && (s.phases[i].Waiting? ==> |Active(s.phases)| < LIMIT)
  }

  /** The next move of one goroutine: its launch, which the semaphore may refuse, a locked section, or a
      request to the price service, which is made without the lock. */
  function Step(s: State, i: nat, tokens: seq<Token>, prices: Prices): State
    requires i < |tokens| == |s.phases|
  {
    var t := tokens[i];
    match s.phases[i]
    case Waiting => if |Active(s.phases)| < LIMIT then s.(phases := s.phases[i := Starting]) else s
    case Starting =>
      if t.symbol.None? then s.(phases := s.phases[i := Dropped])
      else if t.symbol.value in s.cache then s.(phases := s.phases[i := Priced(s.cache[t.symbol.value])])
      else s.(phases := s.phases[i := Asking])
    case Asking =>
      if t.symbol.None? then s else
      var p := prices(s.requests)(t.symbol.value);
      s.(phases := s.phases[i := if p > 0.0 then Told(p) else Dropped], requests := s.requests + 1)
    case Told(p) =>
      if t.symbol.None? then s else
      s.(phases := s.phases[i := Priced(p)], cache := s.cache[t.symbol.value := p])
    case Priced(p) =>
      if HasBuyOrSell(t.swaps) then
        s.(phases := s.phases[i := Folded(p)], totals := Plus(s.totals, Share(t.compute(p))))
      else s.(phases := s.phases[i := Dropped])
    case _ => s
  }

  function Start(n: nat): State {
    State(seq(n, _ => Waiting), map[], 0, ZERO)
  }

  predicate ValidSchedule(schedule: seq<nat>, n: nat) {
    forall k :: 0 <= k < |schedule| ==> schedule[k] < n
  }

  /** Any interleaving: the goroutine that moves, or tries to, at every step. */
  function Run(schedule: seq<nat>, tokens: seq<Token>, prices: Prices): (s: State)
    requires ValidSchedule(schedule, |tokens|)
    ensures |s.phases| == |tokens|
  {
    if schedule == [] then Start(|tokens|) else
    Step(Run(schedule[..|schedule| - 1], tokens, prices), schedule[|schedule| - 1], tokens, prices)
  }

  predicate Finished(s: State) {
    forall i :: 0 <= i < |s.phases| ==> IsEnded(s.phases[i])
  }

  /** The price each token used, if it was added. */
  function Used(phases: seq<Phase>): seq<Option<real>> {
    seq(|phases|, i requires 0 <= i < |phases| => if phases[i].Folded? then Some(phases[i].price) else None)
  }

  function ShareAt(t: Token, used: Option<real>): Totals {
    if used.Some? then Share(t.compute(used.value)) else ZERO
  }

  function Shares(tokens: seq<Token>, used: seq<Option<real>>): seq<Totals>
    requires |tokens| == |used|
  {
    seq(|tokens|, i requires 0 <= i < |tokens| => ShareAt(tokens[i], used[i]))
  }

  /** The first `n` shares, summed. */
  function Sum(shares: seq<Totals>, n: nat): Totals
    requires n <= |shares|
  {
    if n == 0 then ZERO else Plus(Sum(shares, n - 1), shares[n - 1])
  }

  /** Some request so far got this answer. */
  predicate Answered(prices: Prices, requests: nat, symbol: string, p: real) {
    exists r :: 0 <= r < requests && prices(r)(symbol) == p
  }

  /** What holds of one goroutine: a price it has was an answer for its quote token, and it ends without
      adding anything only for one of the three reasons. */
  ghost predicate PhaseInv(p: Phase, t: Token, prices: Prices, requests: nat) {
    match p
    case Waiting => true
    case Starting => true
    case Asking => t.symbol.Some?
    case Told(x) => t.symbol.Some? && x > 0.0 && Answered(prices, requests, t.symbol.value, x)
    case Priced(x) => t.symbol.Some? && x > 0.0 && Answered(prices, requests, t.symbol.value, x)
    case Dropped => t.symbol.None? || !HasBuyOrSell(t.swaps) ||
                    exists x :: x <= 0.0 && Answered(prices, requests, t.symbol.value, x)
    case Folded(x) =>
      t.symbol.Some? && HasBuyOrSell(t.swaps) && x > 0.0 && Answered(prices, requests, t.symbol.value, x)
  }

  /** The tokens that have a symbol to ask with, and those of them that may have asked. */
  function WithSymbol(tokens: seq<Token>): set<nat> {
    set i: nat | i < |tokens| && tokens[i].symbol.Some?
  }

  function PastAsking(phases: seq<Phase>, tokens: seq<Token>): set<nat>
    requires |phases| == |tokens|
  {
    set i: nat | i < |tokens| && tokens[i].symbol.Some? &&
                 !phases[i].Waiting? && !phases[i].Starting? && !phases[i].Asking?
  }

  ghost predicate Inv(s: State, tokens: seq<Token>, prices: Prices) {
    && |s.phases| == |tokens|
    && (forall i :: 0 <= i < |tokens| ==> PhaseInv(s.phases[i], tokens[i], prices, s.requests))
    && (forall symbol <- s.cache :: s.cache[symbol] > 0.0 && Answered(prices, s.requests, symbol, s.cache[symbol]))
    && s.totals == Sum(Shares(tokens, Used(s.phases)), |tokens|)
    && s.requests <= |PastAsking(s.phases, tokens)|
    && |Active(s.phases)| <= LIMIT
  }

  /** How many moves a goroutine has still ahead of it, at most. */
  function Rank(p: Phase): nat {
    match p
    case Waiting => 5
    case Starting => 4
    case Asking => 3
    case Told(_) => 2
    case Priced(_) => 1
    case _ => 0
  }

  lemma AnswersStay(p: Phase, t: Token, prices: Prices, requests: nat)
    requires PhaseInv(p, t, prices, requests)
    ensures PhaseInv(p, t, prices, requests + 1)
  {
    if p.Dropped? && t.symbol.Some? && HasBuyOrSell(t.swaps) {
      var x :| x <= 0.0 && Answered(prices, requests, t.symbol.value, x);
      assert Answered(prices, requests + 1, t.symbol.value, x);
    }
  }

  lemma NewAnswer(prices: Prices, requests: nat, symbol: string)
    ensures Answered(prices, requests + 1, symbol, prices(requests)(symbol))
  {
  }

  lemma StepPhase(s: State, i: nat, tokens: seq<Token>, prices: Prices)
    requires |s.phases| == |tokens| && i < |tokens|
    requires PhaseInv(s.phases[i], tokens[i], prices, s.requests)
    requires forall symbol <- s.cache ::
               s.cache[symbol] > 0.0 && Answered(prices, s.requests, symbol, s.cache[symbol])
    ensures var next := Step(s, i, tokens, prices);
            PhaseInv(next.phases[i], tokens[i], prices, next.requests)
  {
    if tokens[i].symbol.Some? {
      NewAnswer(prices, s.requests, tokens[i].symbol.value);
    }
  }

  lemma StepPhases(s: State, i: nat, tokens: seq<Token>, prices: Prices)
    requires Inv(s, tokens, prices) && i < |tokens|
    ensures var next := Step(s, i, tokens, prices);
            forall k :: 0 <= k < |tokens| ==> PhaseInv(next.phases[k], tokens[k], prices, next.requests)
  {
    var next := Step(s, i, tokens, prices);
    StepPhase(s, i, tokens, prices);
    forall k | 0 <= k < |tokens| ensures PhaseInv(next.phases[k], tokens[k], prices, next.requests) {
      if k != i {
        assert PhaseInv(s.phases[k], tokens[k], prices, s.requests);
        AnswersStay(s.phases[k], tokens[k], prices, s.requests);
      }
    }
  }

  lemma StepCache(s: State, i: nat, tokens: seq<Token>, prices: Prices)
    requires Inv(s, tokens, prices) && i < |tokens|
    ensures var next := Step(s, i, tokens, prices);
            forall symbol <- next.cache ::
              next.cache[symbol] > 0.0 && Answered(prices, next.requests, symbol, next.cache[symbol])
  {
    assert PhaseInv(s.phases[i], tokens[i], prices, s.requests);
  }

  lemma SubsetIsNotLarger<T>(a: set<T>, b: set<T>)
    requires a <= b
    ensures |a| <= |b|
  {
    assert b == a + (b - a);
  }

  /** Each token asks at most once. */
  lemma StepRequests(s: State, i: nat, tokens: seq<Token>, prices: Prices)
    requires Inv(s, tokens, prices) && i < |tokens|
    ensures var next := Step(s, i, tokens, prices);
            next.requests <= |PastAsking(next.phases, tokens)|
  {
    var next := Step(s, i, tokens, prices);
    assert PhaseInv(s.phases[i], tokens[i], prices, s.requests);
    PastAskingGrows(s.phases, i, next.phases[i], tokens);
    assert next.phases == s.phases[i := next.phases[i]];
  }

  lemma PastAskingGrows(phases: seq<Phase>, i: nat, p: Phase, tokens: seq<Token>)
    requires |phases| == |tokens| && i < |tokens|
    requires Rank(p) <= Rank(phases[i])
    ensures |PastAsking(phases[i := p], tokens)| >=
            |PastAsking(phases, tokens)| +
            if tokens[i].symbol.Some? && phases[i].Asking? && !p.Asking? then 1 else 0
  {
    if tokens[i].symbol.Some? && phases[i].Asking? && !p.Asking? {
      assert PastAsking(phases[i := p], tokens) == PastAsking(phases, tokens) + {i};
    } else {
      SubsetIsNotLarger(PastAsking(phases, tokens), PastAsking(phases[i := p], tokens));
    }
  }

  /** The semaphore keeps its bound. */
  lemma StepActive(s: State, i: nat, tokens: seq<Token>, prices: Prices)
    requires i < |tokens| == |s.phases| && |Active(s.phases)| <= LIMIT
    ensures |Active(Step(s, i, tokens, prices).phases)| <= LIMIT
  {
    var next := Step(s, i, tokens, prices);
    if s.phases[i].Waiting? && |Active(s.phases)| < LIMIT {
      assert Active(next.phases) == Active(s.phases) + {i};
    } else {
      SubsetIsNotLarger(Active(next.phases), Active(s.phases));
    }
  }

  /** Every move keeps the totals equal to the shares of the tokens added so far, each at a price
      that was an answer for its quote token. */
  lemma StepInv(s: State, i: nat, tokens: seq<Token>, prices: Prices)
    requires Inv(s, tokens, prices) && i < |tokens|
    ensures Inv(Step(s, i, tokens, prices), tokens, prices)
  {
    StepPhases(s, i, tokens, prices);
    StepCache(s, i, tokens, prices);
    StepRequests(s, i, tokens, prices);
    StepActive(s, i, tokens, prices);
    StepTotals(s, i, tokens, prices);
  }

  lemma StepTotals(s: State, i: nat, tokens: seq<Token>, prices: Prices)
    requires Inv(s, tokens, prices) && i < |tokens|
    ensures var next := Step(s, i, tokens, prices);
            next.totals == Sum(Shares(tokens, Used(next.phases)), |tokens|)
  {
    var next := Step(s, i, tokens, prices);
    if s.phases[i].Priced? && HasBuyOrSell(tokens[i].swaps) {
      ShareAdded(s.phases, i, s.phases[i].price, tokens);
    } else {
      assert Used(next.phases) == Used(s.phases);
    }
  }

  lemma ShareAdded(phases: seq<Phase>, i: nat, price: real, tokens: seq<Token>)
    requires |phases| == |tokens| && i < |tokens| && !phases[i].Folded?
    ensures Sum(Shares(tokens, Used(phases[i := Folded(price)])), |tokens|) ==
            Plus(Sum(Shares(tokens, Used(phases)), |tokens|), Share(tokens[i].compute(price)))
  {
    var share := Share(tokens[i].compute(price));
    assert Shares(tokens, Used(phases[i := Folded(price)])) == Shares(tokens, Used(phases))[i := share];
    SumGrows(Shares(tokens, Used(phases)), i, share, |tokens|);
  }

  lemma SwapShares(a: Totals, b: Totals, c: Totals)
    ensures Plus(Plus(a, b), c) == Plus(Plus(a, c), b)
    ensures Plus(a, ZERO) == a
  {
  }

  /** Adding one share to the sum, wherever in the list it stands. */
  lemma {:induction false} SumGrows(shares: seq<Totals>, i: nat, share: Totals, n: nat)
    requires n <= |shares| && i < |shares| && shares[i] == ZERO
    ensures Sum(shares[i := share], n) == if i < n then Plus(Sum(shares, n), share) else Sum(shares, n)
    decreases n
  {
    if n > 0 {
      SumGrows(shares, i, share, n - 1);
      SwapShares(Sum(shares, n - 1), shares[n - 1], share);
    }
  }

  lemma {:induction false} NothingAdded(shares: seq<Totals>, n: nat)
    requires n <= |shares| && forall i :: 0 <= i < |shares| ==> shares[i] == ZERO
    ensures Sum(shares, n) == ZERO
    decreases n
  {
    if n > 0 {
      NothingAdded(shares, n - 1);
      assert shares[n - 1] == ZERO;
      calc {
        Sum(shares, n);
        Plus(Sum(shares, n - 1), ZERO);
        ZERO;
      }
    }
  }

  lemma {:induction false} RunInv(schedule: seq<nat>, tokens: seq<Token>, prices: Prices)
    requires ValidSchedule(schedule, |tokens|)
    ensures Inv(Run(schedule, tokens, prices), tokens, prices)
    decreases |schedule|
  {
    if schedule == [] {
      var s := Start(|tokens|);
      NothingAdded(Shares(tokens, Used(s.phases)), |tokens|);
      assert Active(s.phases) == {};
    } else {
      var n := |schedule| - 1;
      RunInv(schedule[..n], tokens, prices);
      StepInv(Run(schedule[..n], tokens, prices), schedule[n], tokens, prices);
    }
  }

  // ---------- every run ends ----------

  /** The moves that are ahead of the first `n` goroutines. */
  function Ahead(phases: seq<Phase>, n: nat): nat
    requires n <= |phases|
  {
    if n == 0 then 0 else Ahead(phases, n - 1) + Rank(phases[n - 1])
  }

  lemma {:induction false} AheadUpdated(phases: seq<Phase>, i: nat, p: Phase, n: nat)
    requires i < |phases| && n <= |phases|
    ensures Ahead(phases[i := p], n) + (if i < n then Rank(phases[i]) else 0) ==
            Ahead(phases, n) + if i < n then Rank(p) else 0
    decreases n
  {
    if n > 0 {
      AheadUpdated(phases, i, p, n - 1);
    }
  }

  lemma MoveLowersRank(s: State, i: nat, tokens: seq<Token>, prices: Prices)
    requires i < |tokens| == |s.phases| && Enabled(s, i)
    requires s.phases[i].Asking? || s.phases[i].Told? ==> tokens[i].symbol.Some?
    ensures var next := Step(s, i, tokens, prices);
            next.phases == s.phases[i := next.phases[i]] && Rank(next.phases[i]) < Rank(s.phases[i])
  {
  }

  lemma EnabledMoves(s: State, i: nat, tokens: seq<Token>, prices: Prices)
    requires Inv(s, tokens, prices) && i < |tokens|
    ensures Enabled(s, i) ==> Ahead(Step(s, i, tokens, prices).phases, |tokens|) < Ahead(s.phases, |tokens|)
    ensures !Enabled(s, i) ==> Step(s, i, tokens, prices) == s
  {
    assert PhaseInv(s.phases[i], tokens[i], prices, s.requests);
    if Enabled(s, i) {
      MoveLowersRank(s, i, tokens, prices);
      AheadUpdated(s.phases, i, Step(s, i, tokens, prices).phases[i], |tokens|);
    }
  }

  /** While some goroutine has not ended, some goroutine can move: if the semaphore refuses a launch,
      those that hold its slots can. */
  lemma NotStuck(s: State)
    requires !Finished(s)
    ensures exists i: nat :: i < |s.phases| && Enabled(s, i)
  {
    var i: nat :| i < |s.phases| && !IsEnded(s.phases[i]);
    if !Enabled(s, i) {
      assert Active(s.phases) != {};
      var k: nat :| k in Active(s.phases);
      assert Enabled(s, k);
    }
  }

  /** Every move was one that its goroutine could make. */
  predicate AllEnabled(schedule: seq<nat>, tokens: seq<Token>, prices: Prices)
    requires ValidSchedule(schedule, |tokens|)
  {
    schedule == [] ||
    (&& AllEnabled(schedule[..|schedule| - 1], tokens, prices)
     && Enabled(Run(schedule[..|schedule| - 1], tokens, prices), schedule[|schedule| - 1]))
  }

  lemma {:induction false} AheadAtStart(phases: seq<Phase>, n: nat)
    requires n <= |phases| && forall i :: 0 <= i < |phases| ==> phases[i].Waiting?
    ensures Ahead(phases, n) == 5 * n
    decreases n
  {
    if n > 0 {
      AheadAtStart(phases, n - 1);
    }
  }

  lemma OneMore(before: seq<nat>, i: nat, tokens: seq<Token>, prices: Prices)
    requires ValidSchedule(before, |tokens|) && i < |tokens| && Enabled(Run(before, tokens, prices), i)
    ensures Ahead(Step(Run(before, tokens, prices), i, tokens, prices).phases, |tokens|) <
            Ahead(Run(before, tokens, prices).phases, |tokens|)
  {
    RunInv(before, tokens, prices);
    var s := Run(before, tokens, prices);
    EnabledMoves(s, i, tokens, prices);
  }

  lemma {:induction false} MovesAreBounded(schedule: seq<nat>, tokens: seq<Token>, prices: Prices)
    requires ValidSchedule(schedule, |tokens|) && AllEnabled(schedule, tokens, prices)
    ensures |schedule| + Ahead(Run(schedule, tokens, prices).phases, |tokens|) <= 5 * |tokens|
    decreases |schedule|
  {
    if schedule == [] {
      AheadAtStart(Start(|tokens|).phases, |tokens|);
    } else {
      var before, i := schedule[..|schedule| - 1], schedule[|schedule| - 1];
      MovesAreBounded(before, tokens, prices);
      OneMore(before, i, tokens, prices);
      Moved(before, schedule, i, tokens, prices);
    }
  }

  /** No deadlock and no endless run: five moves a goroutine are all there are, at most as many goroutines
      as the semaphore admits run at once, and until all have ended some goroutine can move. */
  lemma EveryRunEnds(schedule: seq<nat>, tokens: seq<Token>, prices: Prices)
    requires ValidSchedule(schedule, |tokens|) && AllEnabled(schedule, tokens, prices)
    ensures var s := Run(schedule, tokens, prices);
            && |schedule| + Ahead(s.phases, |tokens|) <= 5 * |tokens|
            && |Active(s.phases)| <= LIMIT
            && (Finished(s) || exists i: nat :: i < |tokens| && Enabled(s, i))
  {
    RunInv(schedule, tokens, prices);
    MovesAreBounded(schedule, tokens, prices);
    if !Finished(Run(schedule, tokens, prices)) {
      NotStuck(Run(schedule, tokens, prices));
    }
  }

  /** Any run can be continued until all have ended. */
  lemma {:induction false} Continue(schedule: seq<nat>, tokens: seq<Token>, prices: Prices) returns (more: seq<nat>)
    requires ValidSchedule(schedule, |tokens|)
    ensures ValidSchedule(more, |tokens|) && schedule <= more && Finished(Run(more, tokens, prices))
    decreases Ahead(Run(schedule, tokens, prices).phases, |tokens|)
  {
    var s := Run(schedule, tokens, prices);
    more := schedule;
    if !Finished(s) {
      NotStuck(s);
      var i: nat :| i < |s.phases| && Enabled(s, i);
      RunInv(schedule, tokens, prices);
      EnabledMoves(s, i, tokens, prices);
      Moved(schedule, schedule + [i], i, tokens, prices);
      more := Continue(schedule + [i], tokens, prices);
    }
  }

  lemma RunEmpty(tokens: seq<Token>, prices: Prices)
    ensures Run([], tokens, prices) == Start(|tokens|)
  {
  }

  lemma Moved(schedule: seq<nat>, next: seq<nat>, i: nat, tokens: seq<Token>, prices: Prices)
    requires ValidSchedule(schedule, |tokens|) && i < |tokens| && next == schedule + [i]
    ensures ValidSchedule(next, |tokens|)
    ensures Run(next, tokens, prices) == Step(Run(schedule, tokens, prices), i, tokens, prices)
  {
    assert next[..|schedule|] == schedule;
  }

  // ---------- the response ----------

  /** The response's figures that are computed from the totals at the end.  The average holding time is
      given when something was sold. */
  datatype Report = Report(roi: real, pnl: real, realized: real, unrealized: real, realizedROI: real,
                           unrealizedROI: real, buyVolume: real, sellVolume: real, volume: real,
                           activePositions: real, averageHold: Option<int>)

  /** `part` of the results of those of the first `n` tokens that were added, summed. */
  function Total(part: Result -> real, tokens: seq<Token>, used: seq<Option<real>>, n: nat): real
    requires n <= |tokens| == |used|
  {
    if n == 0 then 0.0 else
    Total(part, tokens, used, n - 1) +
    if used[n - 1].Some? then part(tokens[n - 1].compute(used[n - 1].value)) else 0.0
  }

  function HeldTime(r: Result): real { r.held as real }

  function SoldTokens(r: Result): real { r.sold }

  function BoughtUSD(r: Result): real { r.pnl.boughtUSD }

  function SoldUSD(r: Result): real { r.pnl.soldUSD }

  function RemainingUSD(r: Result): real { r.pnl.remainingUSD }

  function Realized(r: Result): real { r.pnl.realized }

  function Unrealized(r: Result): real { r.pnl.unrealized }

  function RealizedROI(r: Result): real { r.pnl.realizedROI }

  function UnrealizedROI(r: Result): real { r.pnl.unrealizedROI }

  /** What was spent on a token, and the profit of one on which something was spent. */
  function Spent(r: Result): real {
    if r.pnl.boughtUSD > 0.0 then r.pnl.boughtUSD else 0.0
  }

  function Gained(r: Result): real {
    if r.pnl.boughtUSD > 0.0 then r.pnl.realized + r.pnl.unrealized else 0.0
  }

  /** A result that the calculation yields, for some latest price of the token. */
  ghost predicate IsResult(r: TokenPnL) {
    exists latest :: IsPnLOf(r, latest)
  }

  lemma CalculationIsResult(swaps: seq<SwapLog>, price: real, r: Result)
    requires IsCalculation(swaps, price, r)
    ensures IsResult(r.pnl)
  {
    var log, latest :| IsCalculationOf(swaps, price, r, log, latest);
    LatestIsFinite(latest);
    var used := LatestPrice(LatestEntry(latest)).value;
    assert IsResultOf(log, price, used, r.pnl);
    assert IsPnLOf(r.pnl, used);
  }

  lemma WeightedShare(r: TokenPnL)
    requires IsResult(r) && r.boughtUSD > 0.0
    ensures r.roi / 100.0 * r.boughtUSD == r.realized + r.unrealized
  {
    assert r.roi * r.boughtUSD == 100.0 * (r.realized + r.unrealized);
    assert r.roi / 100.0 * r.boughtUSD * 100.0 == r.roi * r.boughtUSD;
  }

  lemma ShareFigures(r: Result)
    requires IsResult(r.pnl)
    ensures Share(r) == Totals(BoughtUSD(r), SoldUSD(r), r.held, SoldTokens(r), RemainingUSD(r), Realized(r),
                               Unrealized(r), RealizedROI(r), UnrealizedROI(r), Gained(r), Spent(r))
  {
    if r.pnl.boughtUSD > 0.0 {
      WeightedShare(r.pnl);
    }
  }

  /** Each total is the sum of one figure over the tokens that were added; the weighted rates sum up to the
      profit of those on which something was spent. */
  lemma {:induction false} TotalsInWords(tokens: seq<Token>, used: seq<Option<real>>, n: nat)
    requires n <= |tokens| == |used| && Computed(tokens)
    ensures var totals := Sum(Shares(tokens, used), n);
            && totals.numerator == Total(Gained, tokens, used, n)
            && totals.investment == Total(Spent, tokens, used, n)
            && totals.realized == Total(Realized, tokens, used, n)
            && totals.unrealized == Total(Unrealized, tokens, used, n)
            && totals.realizedROI == Total(RealizedROI, tokens, used, n)
            && totals.unrealizedROI == Total(UnrealizedROI, tokens, used, n)
            && totals.buyVolume == Total(BoughtUSD, tokens, used, n)
            && totals.sellVolume == Total(SoldUSD, tokens, used, n)
            && totals.active == Total(RemainingUSD, tokens, used, n)
            && totals.held as real == Total(HeldTime, tokens, used, n)
            && totals.sold == Total(SoldTokens, tokens, used, n)
    decreases n
  {
    if n > 0 {
      TotalsInWords(tokens, used, n - 1);
      var t := tokens[n - 1];
      if used[n - 1].Some? {
        var price := used[n - 1].value;
        assert IsCalculation(t.swaps, price, t.compute(price));
        CalculationIsResult(t.swaps, price, t.compute(price));
        ShareFigures(t.compute(price));
      }
    }
  }

  /** The response of a finished run, whatever the order and the prices: the rate of return is the profit of
      the tokens on which something was spent in percent of what was spent on them, zero when nothing
      was; the other figures are sums over all tokens that were added, and the average holding time is
      that of what was sold. */
  method Finish(t: Totals, ghost schedule: seq<nat>, ghost tokens: seq<Token>, ghost prices: Prices) returns (r: Report)
    requires ValidSchedule(schedule, |tokens|) && Finished(Run(schedule, tokens, prices)) && Computed(tokens)
    requires t == Run(schedule, tokens, prices).totals
    ensures var used, n := Used(Run(schedule, tokens, prices).phases), |tokens|;
            && r.roi == Percent(Total(Gained, tokens, used, n), Total(Spent, tokens, used, n))
            && r.realized == Total(Realized, tokens, used, n)
            && r.unrealized == Total(Unrealized, tokens, used, n)
            && r.realizedROI == Total(RealizedROI, tokens, used, n)
            && r.unrealizedROI == Total(UnrealizedROI, tokens, used, n)
            && r.buyVolume == Total(BoughtUSD, tokens, used, n)
            && r.sellVolume == Total(SoldUSD, tokens, used, n)
            && r.activePositions == Total(RemainingUSD, tokens, used, n)
            && IsAverage(r.averageHold, Total(HeldTime, tokens, used, n), Total(SoldTokens, tokens, used, n))
    ensures r.pnl == r.realized + r.unrealized && r.volume == r.buyVolume + r.sellVolume
  {
    RunInv(schedule, tokens, prices);
    TotalsInWords(tokens, Used(Run(schedule, tokens, prices).phases), |tokens|);
    r := ReportOf(t);
  }

  /** The holding time of a unit of what was sold, cut to whole nanoseconds. */
  predicate IsAverage(average: Option<int>, held: real, sold: real) {
    && (average.Some? <==> sold > 0.0)
    && (average.Some? && held >= 0.0 ==>
          average.value as real * sold <= held < (average.value + 1) as real * sold)
    && (average.Some? && held <= 0.0 ==>
          (average.value - 1) as real * sold < held <= average.value as real * sold)
  }

  lemma AverageOf(held: real, sold: real)
    requires sold > 0.0
    ensures IsAverage(Some(FifoLots.Trunc(held / sold)), held, sold)
  {
    var quotient := held / sold;
    assert quotient * sold == held;
    var average := FifoLots.Trunc(quotient);
    if held >= 0.0 {
      assert quotient >= 0.0;
      assert average as real <= quotient < (average + 1) as real;
    }
    if held <= 0.0 {
      assert quotient <= 0.0;
      assert (average - 1) as real < quotient <= average as real;
    }
  }

  method ReportOf(t: Totals) returns (r: Report)
    ensures r.roi == Percent(t.numerator, t.investment)
    ensures r.pnl == t.realized + t.unrealized && r.volume == t.buyVolume + t.sellVolume
    ensures r.realized == t.realized && r.unrealized == t.unrealized
    ensures r.realizedROI == t.realizedROI && r.unrealizedROI == t.unrealizedROI
    ensures r.buyVolume == t.buyVolume && r.sellVolume == t.sellVolume && r.activePositions == t.active
    ensures IsAverage(r.averageHold, t.held as real, t.sold)
  {
    var roi, averageHold := 0.0, None;
    if t.investment > 0.0 {
      var finalROI := t.numerator / t.investment;
      roi := finalROI * 100.0;
    }
    if t.sold > 0.0 {
      AverageOf(t.held as real, t.sold);
      averageHold := Some(FifoLots.Trunc(t.held as real / t.sold));
    }
    r := Report(roi, t.realized + t.unrealized, t.realized, t.unrealized, t.realizedROI, t.unrealizedROI,
                t.buyVolume, t.sellVolume, t.buyVolume + t.sellVolume, t.active, averageHold);
  }
}
