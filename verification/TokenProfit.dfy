/** Profit and loss of one token: cmd/api/routes/pnl_utils.go.

    The log is sorted by time, folded through the lot matcher of `FifoLots`, and its totals are
    turned into profit figures.  The sort is not stable, so nothing is assumed about entries with
    equal times beyond their being some sorted rearrangement of the log. */
module TokenProfit {
  import opened FifoLots
  import opened Folds
  import Domain

  /** Two entries at different times have only one sorted order: if no two entries of the log
      share a timestamp, every sort yields the same log. */
  lemma {:induction false} SortedOrderIsUnique(a: seq<Swap>, b: seq<Swap>)
    requires Sorted(a) && Sorted(b) && multiset(a) == multiset(b)
    requires forall i, j :: 0 <= i < j < |a| ==> a[i].time != a[j].time
    ensures a == b
  {
    assert |multiset(a)| == |a| && |multiset(b)| == |b|;
    if a != [] {
      FirstIsLeast(a, b);
      FirstIsLeast(b, a);
      assert a[0] in multiset(b) && b[0] in multiset(a);
      var i :| 0 <= i < |a| && a[i] == b[0];
      assert i == 0;
      TailMultiset(a);
      TailMultiset(b);
      SortedOrderIsUnique(a[1..], b[1..]);
    }
  }

  lemma TailMultiset(a: seq<Swap>)
    requires a != []
    ensures multiset(a[1..]) == multiset(a) - multiset{a[0]}
  {
    assert a == [a[0]] + a[1..];
  }

  lemma FirstIsLeast(a: seq<Swap>, b: seq<Swap>)
    requires Sorted(a) && multiset(a) == multiset(b) && a != [] && b != []
    ensures a[0].time <= b[0].time
  {
    assert b[0] in multiset(a);
    var i :| 0 <= i < |a| && a[i] == b[0];
  }

  /** With a tie the order matters: a purchase and an equal sale with the same timestamp are
      sorted either way round, but only one way round does the sale find the lot. */
  lemma TiesChangeTheResult(buy: Swap, sell: Swap)
    requires buy.action.Buy? && sell.action.Sell? && buy.time == sell.time
    requires buy.amountIn == sell.amountOut > 0.0
    ensures Sorted([buy, sell]) && Sorted([sell, buy])
    ensures multiset([buy, sell]) == multiset([sell, buy])
    ensures Run([buy, sell], 2).sold == buy.amountIn && Run([sell, buy], 2).sold == 0.0
  {
    RunOfTwo(buy, sell);
    RunOfTwo(sell, buy);
    SellOneLot(Lot(buy.amountIn, buy.time), sell.amountOut, sell.time);
  }

  lemma SellOneLot(lot: Lot, amount: real, time: int)
    requires lot.amount == amount > 0.0
    ensures Consume([lot], 0, amount, 1, time).sold == amount
  {
    assert [lot][1..] == [];
  }

  lemma RunOfTwo(a: Swap, b: Swap)
    ensures a.action.Buy? && b.action.Sell? ==>
              Run([a, b], 2).sold == Consume([Lot(a.amountIn, a.time)], 0, b.amountOut, 1, b.time).sold
    ensures a.action.Sell? && b.action.Buy? ==> Run([a, b], 2).sold == 0.0
  {
    var log := [a, b];
    var start := Run(log, 0);
    assert start.lots + [Lot(a.amountIn, a.time)] == [Lot(a.amountIn, a.time)];
    assert Run(log, 1) == Step(start, a, 0);
  }

  /** The standard library's sort: some sorted rearrangement, with nothing said about ties. */
  method SortByTime(swaps: seq<Swap>) returns (sorted: seq<Swap>)
    ensures Sorted(sorted) && multiset(sorted) == multiset(swaps)
  {
    sorted := [];
    for n := 0 to |swaps|
      invariant Sorted(sorted) && multiset(sorted) == multiset(swaps[..n])
    {
      var at := |sorted|;
      while at > 0 && swaps[n].time < sorted[at - 1].time
        invariant 0 <= at <= |sorted|
        invariant forall i :: at <= i < |sorted| ==> swaps[n].time < sorted[i].time
      {
        at := at - 1;
      }
      InsertSorted(sorted, at, swaps[n]);
      assert swaps[..n + 1] == swaps[..n] + [swaps[n]];
      sorted := sorted[..at] + [swaps[n]] + sorted[at..];
    }
    assert swaps[..|swaps|] == swaps;
  }

  lemma InsertSorted(sorted: seq<Swap>, at: nat, swap: Swap)
    requires at <= |sorted| && Sorted(sorted)
    requires at > 0 ==> sorted[at - 1].time <= swap.time
    requires forall i :: at <= i < |sorted| ==> swap.time < sorted[i].time
    ensures Sorted(sorted[..at] + [swap] + sorted[at..])
    ensures multiset(sorted[..at] + [swap] + sorted[at..]) == multiset(sorted) + multiset([swap])
  {
    InsertMultiset(sorted, at, swap);
  }

  lemma InsertMultiset(sorted: seq<Swap>, at: nat, swap: Swap)
    requires at <= |sorted|
    ensures multiset(sorted[..at] + [swap] + sorted[at..]) == multiset(sorted) + multiset([swap])
  {
    assert sorted == sorted[..at] + sorted[at..];
  }

  // ---------- profit and loss ----------

  function Value(amount: real, price: real): real { amount * price }

  function BuyValue(swaps: seq<Swap>, price: real, n: nat): real
    requires n <= |swaps|
  {
    if n == 0 then 0.0 else
    BuyValue(swaps, price, n - 1) +
    (if swaps[n - 1].action.Buy? then Value(swaps[n - 1].amountOut, price) else 0.0)
  }

  function SellValue(swaps: seq<Swap>, price: real, n: nat): real
    requires n <= |swaps|
  {
    if n == 0 then 0.0 else
    SellValue(swaps, price, n - 1) +
    (if swaps[n - 1].action.Sell? then Value(swaps[n - 1].amountIn, price) else 0.0)
  }

  datatype TokenPnL = TokenPnL(realized: real, unrealized: real, realizedROI: real, unrealizedROI: real,
                               roi: real, pnl: real, boughtTokens: real, boughtUSD: real,
                               soldTokens: real, soldUSD: real, remainingTokens: real, remainingUSD: real)

  /** A quotient of arbitrary-precision floats: dividing by zero gives an infinity, and zero by zero
      panics. */
  datatype Quotient = Finite(value: real) | Infinite | Undefined

  function Divide(a: real, b: real): Quotient {
    if b != 0.0 then Finite(a / b) else if a != 0.0 then Infinite else Undefined
  }

  /** The price of the latest swap of the pair, or zero when there is none that buys or sells. */
  function LatestPrice(latest: Domain.Option<Swap>): Quotient {
    if latest.Some? && latest.value.action.Buy? then Divide(latest.value.amountOut, latest.value.amountIn)
    else if latest.Some? && latest.value.action.Sell? then Divide(latest.value.amountIn, latest.value.amountOut)
    else Finite(0.0)
  }

  /** Figures, figures with an infinity among them, or a panic. */
  datatype Outcome = Figures(result: TokenPnL) | Unbounded | Panicked

  /** The figures of a sorted log. */
  predicate IsResultOf(log: seq<Swap>, price: real, latest: real, r: TokenPnL) {
    && r.boughtTokens == BuyTokens(log, |log|) && r.soldTokens == SellTokens(log, |log|)
    && r.boughtUSD == BuyValue(log, price, |log|) && r.soldUSD == SellValue(log, price, |log|)
    && IsPnLOf(r, latest)
  }

  /** What the calculation yields: the price of the latest swap is needed only for a remainder. */
  predicate IsOutcomeOf(log: seq<Swap>, price: real, latest: Domain.Option<Swap>, outcome: Outcome) {
    var remains := BuyTokens(log, |log|) > SellTokens(log, |log|);
    match LatestPrice(latest)
    case Finite(p) => outcome.Figures? && IsResultOf(log, price, p, outcome.result)
    case Infinite =>
      if remains then outcome == Unbounded else outcome.Figures? && IsResultOf(log, price, 0.0, outcome.result)
    case Undefined =>
      if remains then outcome == Panicked else outcome.Figures? && IsResultOf(log, price, 0.0, outcome.result)
  }

  /** When there are figures at all: a panic iff something remains and the latest swap of the pair, a purchase or
      a sale, has two zero amounts, and an infinity iff only the divisor is zero. */
  lemma OutcomeKinds(log: seq<Swap>, price: real, latest: Domain.Option<Swap>, outcome: Outcome)
    requires IsOutcomeOf(log, price, latest, outcome)
    ensures var remains := BuyTokens(log, |log|) - SellTokens(log, |log|) > 0.0;
            && (outcome.Panicked? <==>
                  && remains && latest.Some? && (latest.value.action.Buy? || latest.value.action.Sell?)
                  && latest.value.amountIn == 0.0 == latest.value.amountOut)
            && (outcome.Unbounded? <==>
                  && remains && latest.Some?
                  && (|| (latest.value.action.Buy? && latest.value.amountIn == 0.0 != latest.value.amountOut)
                      || (latest.value.action.Sell? && latest.value.amountOut == 0.0 != latest.value.amountIn)))
  {
  }

  /** What sales and transfers take out is not negative. */
  lemma {:induction false} SellsAreNonNegative(swaps: seq<Swap>, n: nat)
    requires n <= |swaps| && NonNegative(swaps)
    ensures SellTokens(swaps, n) >= 0.0
  {
    if n > 0 {
      SellsAreNonNegative(swaps, n - 1);
    }
  }

  /** The whole of the calculation.  `price` is the dollar price of the quote token and `latest` the
      latest swap of the pair, if one is found. */
  method CalculateTokenPnL(swaps: seq<Swap>, price: real, latest: Domain.Option<Swap>)
    returns (log: seq<Swap>, outcome: Outcome, sold: real, held: int)
    requires NonNegative(swaps)
    ensures Sorted(log) && multiset(log) == multiset(swaps)
    ensures sold == Run(log, |log|).sold && held == Run(log, |log|).held
    ensures IsOutcomeOf(log, price, latest, outcome)
  {
    log := SortByTime(swaps);
    PermutationIsNonNegative(swaps, log);
    var totalBuyTokens, totalSellTokens, totalBuyValue, totalSellValue := 0.0, 0.0, 0.0, 0.0;
    var buyQueue: seq<Lot> := [];
    sold, held := 0.0, 0;
    for n := 0 to |log|
      invariant totalBuyTokens == BuyTokens(log, n) && totalSellTokens == SellTokens(log, n)
      invariant totalBuyValue == BuyValue(log, price, n) && totalSellValue == SellValue(log, price, n)
      invariant buyQueue == Run(log, n).lots && sold == Run(log, n).sold && held == Run(log, n).held
    {
      var swap := log[n];
      if swap.action.Buy? || swap.action.Receive? {
        totalBuyTokens := totalBuyTokens + swap.amountIn;
        if swap.action.Buy? {
          totalBuyValue := totalBuyValue + Value(swap.amountOut, price);
        }
        buyQueue := buyQueue + [Lot(swap.amountIn, swap.time)];
      } else if swap.action.Sell? || swap.action.Transfer? {
        totalSellTokens := totalSellTokens + swap.amountOut;
        if swap.action.Sell? {
          totalSellValue := totalSellValue + Value(swap.amountIn, price);
        }
        buyQueue, sold, held := MatchSell(buyQueue, Head(Run(log, n)), swap, n, sold, held);
      }
    }
    SellsAreNonNegative(log, |log|);
    var mostRecent := Finite(0.0);
    if totalBuyTokens - totalSellTokens > 0.0 {
      mostRecent := LatestPrice(latest);
      if mostRecent.Undefined? {
        outcome := Panicked;
        return;
      }
      if mostRecent.Infinite? {
        outcome := Unbounded;
        return;
      }
    }
    var result := Results(totalBuyTokens, totalSellTokens, totalBuyValue, totalSellValue, mostRecent.value);
    outcome := Figures(result);
  }

  lemma PermutationIsNonNegative(swaps: seq<Swap>, log: seq<Swap>)
    requires NonNegative(swaps) && multiset(log) == multiset(swaps)
    ensures NonNegative(log)
  {
    forall i | 0 <= i < |log| ensures log[i].amountIn >= 0.0 && log[i].amountOut >= 0.0 {
      assert log[i] in multiset(swaps);
      var j :| 0 <= j < |swaps| && swaps[j] == log[i];
    }
  }

  /** The inner loop, with its queue, pending amount and running totals. */
  method MatchSell(queue: seq<Lot>, ghost head: nat, swap: Swap, ghost n: nat, sold0: real, held0: int)
    returns (buyQueue: seq<Lot>, sold: real, held: int)
    ensures var s := Consume(queue, head, swap.amountOut, n, swap.time);
            buyQueue == s.lots && sold == sold0 + s.sold && held == held0 + s.held
  {
    buyQueue, sold, held := queue, sold0, held0;
    var toSell := swap.amountOut;
    ghost var at := head;
    while buyQueue != [] && toSell > 0.0
      invariant Consume(buyQueue, at, toSell, n, swap.time).lots ==
                Consume(queue, head, swap.amountOut, n, swap.time).lots
      invariant sold + Consume(buyQueue, at, toSell, n, swap.time).sold ==
                sold0 + Consume(queue, head, swap.amountOut, n, swap.time).sold
      invariant held + Consume(buyQueue, at, toSell, n, swap.time).held ==
                held0 + Consume(queue, head, swap.amountOut, n, swap.time).held
      decreases |buyQueue|, toSell > 0.0
    {
      var currentLot, duration := buyQueue[0], swap.time - buyQueue[0].time;
      if currentLot.amount <= toSell {
        held := held + Trunc(Weight(duration, currentLot.amount));
        sold := sold + currentLot.amount;
        toSell := toSell - currentLot.amount;
        buyQueue := buyQueue[1..];
        at := at + 1;
      } else {
        held := held + Trunc(Weight(duration, toSell));
        sold := sold + toSell;
        buyQueue := [currentLot.(amount := currentLot.amount - toSell)] + buyQueue[1..];
        toSell := 0.0;
      }
    }
  }

  // ---------- stored rows ----------

  /** A stored swap as the calculation reads it. */
  function Entry(s: Domain.SwapLog): Swap {
    var action := match s.action
                  case BuyAction => Buy
                  case SellAction => Sell
                  case ReceiveAction => Receive
                  case TransferAction => Transfer
                  case UnknownAction => OtherAction;
    Swap(action, s.amountIn, s.amountOut, s.time)
  }

  function Entries(swaps: seq<Domain.SwapLog>): seq<Swap> {
    seq(|swaps|, i requires 0 <= i < |swaps| => Entry(swaps[i]))
  }

  /** What `FindLatestSwap` of internal/db/timescale_repo.go returns: nothing, or a stored purchase or
      sale. */
  predicate IsLatest(latest: Domain.Option<Domain.SwapLog>) {
    latest.Some? ==> Domain.Storable(latest.value) && Domain.IsTrade(latest.value)
  }

  function LatestEntry(latest: Domain.Option<Domain.SwapLog>): Domain.Option<Swap> {
    if latest.Some? then Domain.Some(Entry(latest.value)) else Domain.None
  }

  lemma LatestIsFinite(latest: Domain.Option<Domain.SwapLog>)
    requires IsLatest(latest)
    ensures LatestPrice(LatestEntry(latest)).Finite?
    ensures LatestPrice(LatestEntry(latest)).value >= 0.0
    ensures latest.Some? ==> LatestPrice(LatestEntry(latest)).value > 0.0
  {
    if latest.Some? {
      QuotientIsPositive(latest.value.amountOut, latest.value.amountIn);
      QuotientIsPositive(latest.value.amountIn, latest.value.amountOut);
    }
  }

  lemma QuotientIsPositive(a: real, b: real)
    requires a > 0.0 && b > 0.0
    ensures a / b > 0.0
  {
    assert a / b * b == a;
  }

  /** The calculation always yields figures for stored rows: they may be added up, and the latest price
      is a number. */
  lemma StoredRowsHaveFigures(rows: seq<Domain.SwapLog>, latest: Domain.Option<Domain.SwapLog>, price: real,
                              log: seq<Swap>, outcome: Outcome)
    requires (forall r <- rows :: Domain.Storable(r)) && IsLatest(latest)
    requires multiset(log) == multiset(Entries(rows)) && IsOutcomeOf(log, price, LatestEntry(latest), outcome)
    ensures NonNegative(Entries(rows)) && NonNegative(log)
    ensures outcome.Figures? && IsResultOf(log, price, LatestPrice(LatestEntry(latest)).value, outcome.result)
    ensures price >= 0.0 ==> outcome.result.remainingUSD >= 0.0 && outcome.result.boughtUSD >= 0.0
    ensures latest.None? ==> outcome.result.remainingUSD == 0.0
    ensures latest.Some? ==>
              var r, row := outcome.result, latest.value;
              var remains := if r.remainingTokens > 0.0 then r.remainingTokens else 0.0;
              if row.action.BuyAction? then r.remainingUSD * row.amountIn == remains * row.amountOut
              else r.remainingUSD * row.amountOut == remains * row.amountIn
  {
    StoredFigures(rows, latest, price, log, outcome);
    LatestValues(log, price, outcome.result, latest);
  }

  lemma StoredFigures(rows: seq<Domain.SwapLog>, latest: Domain.Option<Domain.SwapLog>, price: real,
                      log: seq<Swap>, outcome: Outcome)
    requires (forall r <- rows :: Domain.Storable(r)) && IsLatest(latest)
    requires multiset(log) == multiset(Entries(rows)) && IsOutcomeOf(log, price, LatestEntry(latest), outcome)
    ensures NonNegative(Entries(rows)) && NonNegative(log) && LatestPrice(LatestEntry(latest)).Finite?
    ensures outcome.Figures? && IsResultOf(log, price, LatestPrice(LatestEntry(latest)).value, outcome.result)
    ensures price >= 0.0 ==> outcome.result.remainingUSD >= 0.0 && outcome.result.boughtUSD >= 0.0
  {
    RowsAreNonNegative(rows, log);
    FiguresExist(log, price, latest, outcome);
    if price >= 0.0 {
      ValuesAreNonNegative(log, price, LatestPrice(LatestEntry(latest)).value, outcome.result);
    }
  }

  lemma FiguresExist(log: seq<Swap>, price: real, latest: Domain.Option<Domain.SwapLog>, outcome: Outcome)
    requires IsLatest(latest) && IsOutcomeOf(log, price, LatestEntry(latest), outcome)
    ensures LatestPrice(LatestEntry(latest)).Finite? && LatestPrice(LatestEntry(latest)).value >= 0.0
    ensures outcome.Figures? && IsResultOf(log, price, LatestPrice(LatestEntry(latest)).value, outcome.result)
  {
    LatestIsFinite(latest);
  }

  lemma RowsAreNonNegative(rows: seq<Domain.SwapLog>, log: seq<Swap>)
    requires (forall r <- rows :: Domain.Storable(r)) && multiset(log) == multiset(Entries(rows))
    ensures NonNegative(Entries(rows)) && NonNegative(log)
  {
    forall i | 0 <= i < |rows| ensures Entries(rows)[i].amountIn >= 0.0 && Entries(rows)[i].amountOut >= 0.0 {
      assert Domain.Storable(rows[i]);
    }
    PermutationIsNonNegative(Entries(rows), log);
  }

  lemma ValuesAreNonNegative(log: seq<Swap>, price: real, latest: real, r: TokenPnL)
    requires NonNegative(log) && price >= 0.0 && latest >= 0.0 && IsResultOf(log, price, latest, r)
    ensures r.remainingUSD >= 0.0 && r.boughtUSD >= 0.0
  {
    BoughtIsNonNegative(log, price, |log|);
    ProductIsNonNegative(if r.remainingTokens > 0.0 then r.remainingTokens else 0.0, latest);
  }

  /** What is left is worth the quotient of the latest row's amounts, the right way round. */
  lemma LatestValues(log: seq<Swap>, price: real, r: TokenPnL, latest: Domain.Option<Domain.SwapLog>)
    requires IsLatest(latest) && LatestPrice(LatestEntry(latest)).Finite?
    requires IsResultOf(log, price, LatestPrice(LatestEntry(latest)).value, r)
    ensures latest.None? ==> r.remainingUSD == 0.0
    ensures latest.Some? ==>
              var row, remains := latest.value, if r.remainingTokens > 0.0 then r.remainingTokens else 0.0;
              if row.action.BuyAction? then r.remainingUSD * row.amountIn == remains * row.amountOut
              else r.remainingUSD * row.amountOut == remains * row.amountIn
  {
    if latest.Some? {
      PricedAt(r.remainingTokens, latest.value.amountOut, latest.value.amountIn);
      PricedAt(r.remainingTokens, latest.value.amountIn, latest.value.amountOut);
    }
  }

  lemma PricedAt(amount: real, a: real, b: real)
    requires b > 0.0
    ensures amount * (a / b) * b == amount * a
  {
    var p := a / b;
    assert p * b == a;
    assert amount * p * b == amount * (p * b);
  }

  lemma ProductIsNonNegative(a: real, b: real)
    requires a >= 0.0 && b >= 0.0
    ensures Value(a, b) >= 0.0
  {
  }

  lemma {:induction false} BoughtIsNonNegative(swaps: seq<Swap>, price: real, n: nat)
    requires n <= |swaps| && NonNegative(swaps) && price >= 0.0
    ensures BuyValue(swaps, price, n) >= 0.0
  {
    if n > 0 {
      BoughtIsNonNegative(swaps, price, n - 1);
      ProductIsNonNegative(swaps[n - 1].amountOut, price);
    }
  }

  /** The profit figures in terms of the four totals and the remainder. */
  predicate IsPnLOf(r: TokenPnL, latest: real) {
    && r.remainingTokens == r.boughtTokens - r.soldTokens
    && r.pnl == r.realized + r.unrealized
    && r.realized == (if r.soldTokens != 0.0 then r.soldUSD - r.boughtUSD else 0.0)
    && (r.remainingTokens <= 0.0 ==> r.unrealized == 0.0 && r.remainingUSD == 0.0 && r.unrealizedROI == 0.0)
    && (r.remainingTokens > 0.0 ==> ValuesRemainder(r, latest))
    && r.roi == Percent(r.pnl, r.boughtUSD)
    && r.realizedROI == Percent(r.realized, r.soldUSD)
  }

  /** A remainder is worth its market value, and what it gained is that less its average cost. */
  predicate ValuesRemainder(r: TokenPnL, latest: real) {
    && r.boughtTokens > 0.0
    && r.remainingUSD == Value(r.remainingTokens, latest)
    && r.unrealized == r.remainingUSD - Value(r.remainingTokens, r.boughtUSD / r.boughtTokens)
    && r.unrealizedROI == Percent(r.unrealized, Value(r.boughtUSD / r.boughtTokens, r.remainingTokens))
  }

  method Results(buyTokens: real, sellTokens: real, buyValue: real, sellValue: real, latest: real)
    returns (r: TokenPnL)
    requires sellTokens >= 0.0
    ensures r.boughtTokens == buyTokens && r.soldTokens == sellTokens
    ensures r.boughtUSD == buyValue && r.soldUSD == sellValue
    ensures IsPnLOf(r, latest)
  {
    var realized := if sellTokens != 0.0 then sellValue - buyValue else 0.0;
    var unrealized, valueRemaining, remaining := 0.0, 0.0, buyTokens - sellTokens;
    if remaining > 0.0 {
      valueRemaining := valueRemaining + Value(remaining, latest);
      var avgBuyPrice := if buyTokens > 0.0 then buyValue / buyTokens else 0.0;
      unrealized := Value(remaining, latest) - Value(remaining, avgBuyPrice);
    }
    var unrealizedROI := 0.0;
    if remaining > 0.0 {
      unrealizedROI := Percent(unrealized, Value(buyValue / buyTokens, remaining));
    }
    r := TokenPnL(realized, unrealized, Percent(realized, sellValue), unrealizedROI,
                  Percent(realized + unrealized, buyValue), realized + unrealized,
                  buyTokens, buyValue, sellTokens, sellValue, remaining, valueRemaining);
  }

  /** A rate of return in percent; it is left at zero unless the base is positive. */
  function Percent(part: real, whole: real): (p: real)
    ensures whole > 0.0 ==> p * whole == 100.0 * part
    ensures whole <= 0.0 ==> p == 0.0
  {
    if whole > 0.0 then
      PercentOfWhole(part, whole);
      part / whole * 100.0
    else 0.0
  }

  lemma PercentOfWhole(part: real, whole: real)
    requires whole > 0.0
    ensures part / whole * 100.0 * whole == 100.0 * part
  {
    assert part / whole * whole == part;
  }

  // ---------- the figures in terms of the rows ----------

  /** What a row adds to the holding, takes from it, costs and earns. */
  function Taken(r: Domain.SwapLog): real {
    if r.action.BuyAction? || r.action.ReceiveAction? then r.amountIn else 0.0
  }

  function Given(r: Domain.SwapLog): real {
    if r.action.SellAction? || r.action.TransferAction? then r.amountOut else 0.0
  }

  function Paid(price: real): Domain.SwapLog -> real {
    (r: Domain.SwapLog) => if r.action.BuyAction? then r.amountOut * price else 0.0
  }

  function Earned(price: real): Domain.SwapLog -> real {
    (r: Domain.SwapLog) => if r.action.SellAction? then r.amountIn * price else 0.0
  }

  /** The same of an entry of the log. */
  function TakenBy(s: Swap): real { if s.Acquires() then s.amountIn else 0.0 }

  function GivenBy(s: Swap): real { if s.Disposes() then s.amountOut else 0.0 }

  function PaidBy(price: real): Swap -> real {
    (s: Swap) => if s.action.Buy? then Value(s.amountOut, price) else 0.0
  }

  function EarnedBy(price: real): Swap -> real {
    (s: Swap) => if s.action.Sell? then Value(s.amountIn, price) else 0.0
  }

  lemma {:induction false} TotalsAreFolds(log: seq<Swap>, price: real, n: nat)
    requires n <= |log|
    ensures BuyTokens(log, n) == Fold(TakenBy, log[..n]) && SellTokens(log, n) == Fold(GivenBy, log[..n])
    ensures BuyValue(log, price, n) == Fold(PaidBy(price), log[..n])
    ensures SellValue(log, price, n) == Fold(EarnedBy(price), log[..n])
  {
    if n > 0 {
      TotalsAreFolds(log, price, n - 1);
      assert log[..n] == log[..n - 1] + [log[n - 1]];
      FoldLast(TakenBy, log[..n - 1], log[n - 1]);
      FoldLast(GivenBy, log[..n - 1], log[n - 1]);
      FoldLast(PaidBy(price), log[..n - 1], log[n - 1]);
      FoldLast(EarnedBy(price), log[..n - 1], log[n - 1]);
    }
  }

  lemma FoldLast(g: Swap -> real, log: seq<Swap>, s: Swap)
    ensures Fold(g, log + [s]) == Fold(g, log) + g(s)
  {
    FoldAppend(g, log, [s]);
    FoldOne(g, s);
  }

  lemma {:induction false} FoldEntries(g: Swap -> real, h: Domain.SwapLog -> real, rows: seq<Domain.SwapLog>)
    requires forall r :: g(Entry(r)) == h(r)
    ensures Fold(g, Entries(rows)) == Fold(h, rows)
  {
    if rows != [] {
      assert Entries(rows)[1..] == Entries(rows[1..]);
      FoldEntries(g, h, rows[1..]);
    }
  }

  lemma FoldRows(g: Swap -> real, h: Domain.SwapLog -> real, log: seq<Swap>, rows: seq<Domain.SwapLog>)
    requires multiset(log) == multiset(Entries(rows)) && forall r :: g(Entry(r)) == h(r)
    ensures Fold(g, log) == Fold(h, rows)
  {
    FoldPermutes(g, log, Entries(rows));
    FoldEntries(g, h, rows);
  }

  lemma PaidOfRows(rows: seq<Domain.SwapLog>, log: seq<Swap>, price: real)
    requires multiset(log) == multiset(Entries(rows))
    ensures Fold(PaidBy(price), log) == Fold(Paid(price), rows)
  {
    forall r: Domain.SwapLog ensures PaidBy(price)(Entry(r)) == Paid(price)(r) {
    }
    FoldRows(PaidBy(price), Paid(price), log, rows);
  }

  lemma EarnedOfRows(rows: seq<Domain.SwapLog>, log: seq<Swap>, price: real)
    requires multiset(log) == multiset(Entries(rows))
    ensures Fold(EarnedBy(price), log) == Fold(Earned(price), rows)
  {
    forall r: Domain.SwapLog ensures EarnedBy(price)(Entry(r)) == Earned(price)(r) {
    }
    FoldRows(EarnedBy(price), Earned(price), log, rows);
  }

  /** Whatever order the rows are sorted into, the totals are sums over the rows. */
  lemma TotalsOfRows(rows: seq<Domain.SwapLog>, log: seq<Swap>, price: real)
    requires multiset(log) == multiset(Entries(rows))
    ensures BuyTokens(log, |log|) == Fold(Taken, rows) && SellTokens(log, |log|) == Fold(Given, rows)
    ensures BuyValue(log, price, |log|) == Fold(Paid(price), rows)
    ensures SellValue(log, price, |log|) == Fold(Earned(price), rows)
  {
    TotalsAreFolds(log, price, |log|);
    assert log[..|log|] == log;
    assert Fold(TakenBy, log) == Fold(Taken, rows) by { FoldRows(TakenBy, Taken, log, rows); }
    assert Fold(GivenBy, log) == Fold(Given, rows) by { FoldRows(GivenBy, Given, log, rows); }
    PaidOfRows(rows, log, price);
    EarnedOfRows(rows, log, price);
  }

  /** So are those among the figures. */
  lemma FiguresOfRows(rows: seq<Domain.SwapLog>, log: seq<Swap>, price: real, latest: real, r: TokenPnL)
    requires multiset(log) == multiset(Entries(rows)) && IsResultOf(log, price, latest, r)
    ensures r.boughtTokens == Fold(Taken, rows) && r.soldTokens == Fold(Given, rows)
    ensures r.boughtUSD == Fold(Paid(price), rows) && r.soldUSD == Fold(Earned(price), rows)
  {
    TotalsOfRows(rows, log, price);
  }

  /** Every other figure but the value of the remainder, which `StoredRowsHaveFigures` gives, in terms of
      those four and that value. */
  lemma FiguresOfTotals(r: TokenPnL, latest: real)
    requires IsPnLOf(r, latest)
    ensures r.remainingTokens == r.boughtTokens - r.soldTokens && r.pnl == r.realized + r.unrealized
    ensures r.realized == if r.soldTokens == 0.0 then 0.0 else r.soldUSD - r.boughtUSD
    ensures if r.remainingTokens > 0.0 then
              r.unrealized * r.boughtTokens == r.remainingUSD * r.boughtTokens - r.remainingTokens * r.boughtUSD
            else r.unrealized == 0.0 == r.remainingUSD
    ensures if r.remainingTokens > 0.0 && r.boughtUSD > 0.0 then
              r.unrealizedROI * (r.boughtUSD * r.remainingTokens) == 100.0 * r.unrealized * r.boughtTokens
            else r.unrealizedROI == 0.0
    ensures if r.boughtUSD > 0.0 then r.roi * r.boughtUSD == 100.0 * r.pnl else r.roi == 0.0
    ensures if r.soldUSD > 0.0 then r.realizedROI * r.soldUSD == 100.0 * r.realized else r.realizedROI == 0.0
  {
    if r.remainingTokens > 0.0 {
      RemainderFigures(r, latest);
    }
  }

  lemma {:induction false} PaidScales(rows: seq<Domain.SwapLog>, p: real, q: real)
    ensures Fold(Paid(p), rows) * q == Fold(Paid(q), rows) * p
  {
    if rows != [] {
      PaidScales(rows[1..], p, q);
      if rows[0].action.BuyAction? {
        assert rows[0].amountOut * p * q == rows[0].amountOut * q * p;
      }
    }
  }

  /** The dollar price of the quote token never reaches the value of the remainder, which stays an amount of
      the quote token, while what was paid is in dollars (`PaidScales`). */
  lemma PriceMissesRemainder(rows: seq<Domain.SwapLog>, log: seq<Swap>, log': seq<Swap>, price: real, price': real,
                             latest: real, r: TokenPnL, r': TokenPnL)
    requires multiset(log) == multiset(Entries(rows)) && IsResultOf(log, price, latest, r)
    requires multiset(log') == multiset(Entries(rows)) && IsResultOf(log', price', latest, r')
    ensures r.remainingUSD == r'.remainingUSD
  {
    FiguresOfRows(rows, log, price, latest, r);
    FiguresOfRows(rows, log', price', latest, r');
    RemainderStays(r, r', latest);
  }

  lemma RemainderStays(r: TokenPnL, r': TokenPnL, latest: real)
    requires IsPnLOf(r, latest) && IsPnLOf(r', latest)
    requires r.boughtTokens == r'.boughtTokens && r.soldTokens == r'.soldTokens
    ensures r.remainingUSD == r'.remainingUSD
  {
  }

  lemma RemainderFigures(r: TokenPnL, latest: real)
    requires r.remainingTokens > 0.0 && ValuesRemainder(r, latest)
    ensures r.unrealized * r.boughtTokens == r.remainingUSD * r.boughtTokens - r.remainingTokens * r.boughtUSD
    ensures r.boughtUSD > 0.0 ==>
              r.unrealizedROI * (r.boughtUSD * r.remainingTokens) == 100.0 * r.unrealized * r.boughtTokens
    ensures r.boughtUSD <= 0.0 ==> r.unrealizedROI == 0.0
  {
    PricedAt(r.remainingTokens, r.boughtUSD, r.boughtTokens);
    var average := r.boughtUSD / r.boughtTokens;
    var cost := Value(average, r.remainingTokens);
    assert cost * r.boughtTokens == r.boughtUSD * r.remainingTokens;
    if r.boughtUSD > 0.0 {
      QuotientIsPositive(r.boughtUSD, r.boughtTokens);
      assert cost > 0.0;
      ScaledBy(r.unrealizedROI, cost, r.boughtTokens, 100.0 * r.unrealized);
    } else {
      assert cost <= 0.0;
    }
  }

  lemma ScaledBy(a: real, b: real, c: real, d: real)
    requires a * b == d
    ensures a * (b * c) == d * c
  {
  }

  /** Profit marked to market: proceeds plus the value of what is left, minus everything paid. */
  function MarkToMarket(r: TokenPnL): real {
    r.soldUSD + r.remainingUSD - r.boughtUSD
  }

  /** When the reported profit is the mark-to-market profit.  A partly sold position misses it,
      because the cost of the remainder is subtracted twice; a log without sold tokens misses it
      by whatever its sells brought in. */
  predicate MeetsMarket(r: TokenPnL) {
    if r.soldTokens != 0.0 then r.remainingTokens <= 0.0 || r.boughtUSD == 0.0
    else r.soldUSD == if r.remainingTokens > 0.0 then 0.0 else r.boughtUSD
  }

  lemma PnLVersusMarkToMarket(r: TokenPnL, latest: real)
    requires IsPnLOf(r, latest)
    ensures r.soldTokens != 0.0 && r.remainingTokens > 0.0 ==>
              r.boughtTokens > 0.0 &&
              MarkToMarket(r) - r.pnl == r.remainingTokens * (r.boughtUSD / r.boughtTokens)
    ensures r.pnl == MarkToMarket(r) <==> MeetsMarket(r)
  {
    if r.remainingTokens > 0.0 {
      CostIsZero(r.remainingTokens, r.boughtUSD, r.boughtTokens);
    }
  }

  /** The same over the log: the reported profit is what the sales brought in plus the value of what is
      left minus all that was paid, if and only if, once something was sold, nothing is left or
      nothing was paid. */
  lemma PnLOfLog(log: seq<Swap>, price: real, latest: real, r: TokenPnL)
    requires IsResultOf(log, price, latest, r)
    ensures var n := |log|;
            var remaining := BuyTokens(log, n) - SellTokens(log, n);
            var market := SellValue(log, price, n) + Value(if remaining > 0.0 then remaining else 0.0, latest) -
                          BuyValue(log, price, n);
            r.pnl == market <==>
            if SellTokens(log, n) != 0.0 then remaining <= 0.0 || BuyValue(log, price, n) == 0.0
            else SellValue(log, price, n) == if remaining > 0.0 then 0.0 else BuyValue(log, price, n)
  {
    PnLVersusMarkToMarket(r, latest);
  }

  /** Two tokens bought for two, one of them sold for one, the other worth one: nothing is gained or
      lost, and a loss of one is reported. */
  lemma PartlySoldMisses(r: TokenPnL)
    requires IsResultOf([Swap(Buy, 2.0, 2.0, 0), Swap(Sell, 1.0, 1.0, 1)], 1.0, 1.0, r)
    ensures MarkToMarket(r) == 0.0 && r.pnl == -1.0
  {
    var log := [Swap(Buy, 2.0, 2.0, 0), Swap(Sell, 1.0, 1.0, 1)];
    assert BuyTokens(log, 1) == 2.0 && SellTokens(log, 1) == 0.0;
    assert BuyValue(log, 1.0, 1) == 2.0 && SellValue(log, 1.0, 1) == 0.0;
  }

  lemma CostIsZero(remaining: real, paid: real, bought: real)
    requires remaining > 0.0 && bought > 0.0
    ensures Value(remaining, paid / bought) == 0.0 <==> paid == 0.0
    ensures remaining == bought ==> Value(remaining, paid / bought) == paid
  {
    var average := paid / bought;
    assert average * bought == paid;
    if average != 0.0 {
      assert remaining * average != 0.0;
    }
  }
}
