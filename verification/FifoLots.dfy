/** The first-in-first-out lot matcher of cmd/api/routes/pnl_utils.go.

    Buys and receipts append lots to a queue; sells and transfers consume the queue from the
    front.  `Consume` is the inner loop, `Run` the outer one.  Both record which part of which
    buy was matched with which sell, so that sold amounts and holding times are folds of that
    record, and the record itself can be compared with a closed form on the line of
    cumulative amounts.  Amounts are exact reals; times are nanoseconds. */
module FifoLots {

  datatype Action = Buy | Receive | Sell | Transfer | OtherAction

  datatype Swap = Swap(action: Action, amountIn: real, amountOut: real, time: int) {
    predicate Acquires() { action.Buy? || action.Receive? }
    predicate Disposes() { action.Sell? || action.Transfer? }
  }

  datatype Lot = Lot(amount: real, time: int)

  /** `amount` tokens of the `buy`-th lot leave through the `sell`-th entry of the log. */
  datatype Match = Match(buy: nat, sell: nat, amount: real, duration: int)

  /** Outcome of one sell: the lots left, the part that found the queue empty, what it adds to
      the sold amount and to the holding time (as the code truncates it, and exactly). */
  datatype Sale = Sale(lots: seq<Lot>, rest: real, sold: real, held: int, exact: real, matches: seq<Match>)

  datatype State = State(lots: seq<Lot>, buys: nat, unmatched: real, sold: real, held: int, exact: real,
                         matches: seq<Match>)

  /** Conversion of a float to an integer duration: truncation toward zero. */
  function Trunc(x: real): int {
    if x >= 0.0 then x.Floor else -((-x).Floor)
  }

  function Weight(duration: int, amount: real): real { duration as real * amount }

  function Sold(matches: seq<Match>): real {
    if matches == [] then 0.0 else matches[0].amount + Sold(matches[1..])
  }

  /** The holding time as the code adds it up: each product is truncated on its own. */
  function Held(matches: seq<Match>): int {
    if matches == [] then 0 else Trunc(Weight(matches[0].duration, matches[0].amount)) + Held(matches[1..])
  }

  function ExactHeld(matches: seq<Match>): real {
    if matches == [] then 0.0 else Weight(matches[0].duration, matches[0].amount) + ExactHeld(matches[1..])
  }

  function Open(lots: seq<Lot>): real {
    if lots == [] then 0.0 else lots[0].amount + Open(lots[1..])
  }

  /** The inner loop: `buy` is the number of the lot at the head of the queue. */
  function Consume(lots: seq<Lot>, buy: nat, toSell: real, sell: nat, time: int): (s: Sale)
    ensures |s.lots| <= |lots|
    decreases |lots|
  {
    if lots == [] || toSell <= 0.0 then
      Sale(lots, toSell, 0.0, 0, 0.0, [])
    else if lots[0].amount <= toSell then
      Take(lots[0].amount, time - lots[0].time, buy, sell,
           Consume(lots[1..], buy + 1, toSell - lots[0].amount, sell, time))
    else
      Take(toSell, time - lots[0].time, buy, sell,
           Sale([lots[0].(amount := lots[0].amount - toSell)] + lots[1..], 0.0, 0.0, 0, 0.0, []))
  }

  /** One iteration of the inner loop: `amount` tokens leave a lot of age `duration`. */
  function Take(amount: real, duration: int, buy: nat, sell: nat, next: Sale): Sale {
    var weight := Weight(duration, amount);
    Sale(next.lots, next.rest, amount + next.sold, Trunc(weight) + next.held, weight + next.exact,
         MatchOf(amount, buy, sell, duration) + next.matches)
  }

  /** A lot of size zero leaves no trace in any total, so none is recorded. */
  function MatchOf(amount: real, buy: nat, sell: nat, duration: int): seq<Match> {
    if amount == 0.0 then [] else [Match(buy, sell, amount, duration)]
  }

  /** The number of the lot at the head of the queue: the open lots are the last ones bought. */
  function Head(s: State): nat {
    if |s.lots| <= s.buys then s.buys - |s.lots| else 0
  }

  function Step(s: State, swap: Swap, n: nat): State {
    if swap.Acquires() then
      s.(lots := s.lots + [Lot(swap.amountIn, swap.time)], buys := s.buys + 1)
    else if swap.Disposes() then
      AfterSale(s, Consume(s.lots, Head(s), swap.amountOut, n, swap.time))
    else s
  }

  function AfterSale(s: State, sale: Sale): State {
    State(sale.lots, s.buys, s.unmatched + sale.rest, s.sold + sale.sold, s.held + sale.held,
          s.exact + sale.exact, s.matches + sale.matches)
  }

  /** The state after the first `n` entries of the log. */
  function Run(swaps: seq<Swap>, n: nat): State
    requires n <= |swaps|
  {
    if n == 0 then State([], 0, 0.0, 0.0, 0, 0.0, []) else Step(Run(swaps, n - 1), swaps[n - 1], n - 1)
  }

  // ---------- totals of a prefix of the log ----------

  function BuyLots(swaps: seq<Swap>, n: nat): seq<Lot>
    requires n <= |swaps|
  {
    if n == 0 then [] else
    BuyLots(swaps, n - 1) +
    (if swaps[n - 1].Acquires() then [Lot(swaps[n - 1].amountIn, swaps[n - 1].time)] else [])
  }

  function BuyTokens(swaps: seq<Swap>, n: nat): real
    requires n <= |swaps|
  {
    if n == 0 then 0.0 else
    BuyTokens(swaps, n - 1) + (if swaps[n - 1].Acquires() then swaps[n - 1].amountIn else 0.0)
  }

  function SellTokens(swaps: seq<Swap>, n: nat): real
    requires n <= |swaps|
  {
    if n == 0 then 0.0 else
    SellTokens(swaps, n - 1) + (if swaps[n - 1].Disposes() then swaps[n - 1].amountOut else 0.0)
  }

  predicate Sorted(swaps: seq<Swap>) {
    forall i, j :: 0 <= i < j < |swaps| ==> swaps[i].time <= swaps[j].time
  }

  predicate NonNegative(swaps: seq<Swap>) {
    forall i :: 0 <= i < |swaps| ==> swaps[i].amountIn >= 0.0 && swaps[i].amountOut >= 0.0
  }

  predicate NonNegativeLots(lots: seq<Lot>) {
    forall i :: 0 <= i < |lots| ==> lots[i].amount >= 0.0
  }

  // ---------- conservation ----------

  lemma {:induction false} OpenAppend(a: seq<Lot>, b: seq<Lot>)
    ensures Open(a + b) == Open(a) + Open(b)
  {
    if a == [] {
      assert a + b == b;
    } else {
      assert (a + b)[0] == a[0] && (a + b)[1..] == a[1..] + b;
      OpenAppend(a[1..], b);
    }
  }

  /** Within one sell, the sum of what was sold and what is still pending never changes, and
      what leaves the open lots is what was sold.  True of all amounts, negative ones included. */
  lemma {:induction false} ConsumeConserves(lots: seq<Lot>, buy: nat, toSell: real, sell: nat, time: int)
    ensures var s := Consume(lots, buy, toSell, sell, time);
            s.sold + s.rest == toSell && Open(s.lots) + s.sold == Open(lots)
    decreases |lots|
  {
    if lots != [] && toSell > 0.0 {
      if lots[0].amount <= toSell {
        ConsumeConserves(lots[1..], buy + 1, toSell - lots[0].amount, sell, time);
      } else {
        assert Consume(lots, buy, toSell, sell, time).lots[1..] == lots[1..];
      }
    }
  }

  /** Conservation over whole runs: nothing bought is lost, and what is not matched is exactly
      the part of the sells that found the queue empty. */
  lemma {:induction false} Conservation(swaps: seq<Swap>, n: nat)
    requires n <= |swaps|
    ensures var s := Run(swaps, n);
            && Open(s.lots) + s.sold == BuyTokens(swaps, n)
            && s.sold + s.unmatched == SellTokens(swaps, n)
            && BuyTokens(swaps, n) - SellTokens(swaps, n) == Open(s.lots) - s.unmatched
  {
    if n > 0 {
      Conservation(swaps, n - 1);
      var s, swap := Run(swaps, n - 1), swaps[n - 1];
      if swap.Acquires() {
        OpenAppend(s.lots, [Lot(swap.amountIn, swap.time)]);
      } else if swap.Disposes() {
        ConsumeConserves(s.lots, Head(s), swap.amountOut, n - 1, swap.time);
      }
    }
  }

  // ---------- the totals are folds of the record ----------

  lemma {:induction false} SumsAppend(a: seq<Match>, b: seq<Match>)
    ensures Sold(a + b) == Sold(a) + Sold(b)
    ensures Held(a + b) == Held(a) + Held(b)
    ensures ExactHeld(a + b) == ExactHeld(a) + ExactHeld(b)
  {
    if a == [] {
      assert a + b == b;
    } else {
      assert (a + b)[0] == a[0] && (a + b)[1..] == a[1..] + b;
      SumsAppend(a[1..], b);
    }
  }

  /** The running totals are the folds of the record of matches. */
  predicate Tallied(s: Sale) {
    s.sold == Sold(s.matches) && s.held == Held(s.matches) && s.exact == ExactHeld(s.matches)
  }

  lemma TakeTallied(amount: real, duration: int, buy: nat, sell: nat, next: Sale)
    requires Tallied(next)
    ensures Tallied(Take(amount, duration, buy, sell, next))
  {
    var m := MatchOf(amount, buy, sell, duration);
    SumsAppend(m, next.matches);
    if amount != 0.0 {
      assert m[1..] == [];
    }
  }

  lemma {:induction false} ConsumeTallied(lots: seq<Lot>, buy: nat, toSell: real, sell: nat, time: int)
    ensures Tallied(Consume(lots, buy, toSell, sell, time))
    decreases |lots|
  {
    if lots != [] && toSell > 0.0 {
      if lots[0].amount <= toSell {
        var next := Consume(lots[1..], buy + 1, toSell - lots[0].amount, sell, time);
        ConsumeTallied(lots[1..], buy + 1, toSell - lots[0].amount, sell, time);
        TakeTallied(lots[0].amount, time - lots[0].time, buy, sell, next);
      } else {
        var next := Sale([lots[0].(amount := lots[0].amount - toSell)] + lots[1..], 0.0, 0.0, 0, 0.0, []);
        TakeTallied(toSell, time - lots[0].time, buy, sell, next);
      }
    }
  }

  /** Over whole runs: sold amount and holding time are sums over the recorded matches. */
  lemma {:induction false} RunTallied(swaps: seq<Swap>, n: nat)
    requires n <= |swaps|
    ensures var s := Run(swaps, n);
            s.sold == Sold(s.matches) && s.held == Held(s.matches) && s.exact == ExactHeld(s.matches)
  {
    if n > 0 {
      RunTallied(swaps, n - 1);
      var s, swap := Run(swaps, n - 1), swaps[n - 1];
      if swap.Disposes() {
        var sale := Consume(s.lots, Head(s), swap.amountOut, n - 1, swap.time);
        ConsumeTallied(s.lots, Head(s), swap.amountOut, n - 1, swap.time);
        SumsAppend(s.matches, sale.matches);
      }
    }
  }

  // ---------- the closed form ----------

  /** The right end of the first `i` buys on the line of cumulative bought amounts. */
  function Line(buys: seq<Lot>, i: nat): real
    requires i <= |buys|
  {
    if i == 0 then 0.0 else Line(buys, i - 1) + buys[i - 1].amount
  }

  function Min(a: real, b: real): real { if a <= b then a else b }

  function Max(a: real, b: real): real { if a >= b then a else b }

  /** Length of the common part of [a0, a1] and [b0, b1], or a negative number or zero. */
  function Overlap(a0: real, a1: real, b0: real, b1: real): real {
    Min(a1, b1) - Max(a0, b0)
  }

  /** Total sold after `n` entries when each sell is capped at what is open at that moment. */
  function Cut(swaps: seq<Swap>, n: nat): real
    requires n <= |swaps|
  {
    if n == 0 then 0.0
    else if swaps[n - 1].Disposes() then
      Min(Cut(swaps, n - 1) + Max(swaps[n - 1].amountOut, 0.0), BuyTokens(swaps, n - 1))
    else Cut(swaps, n - 1)
  }

  /** The overlaps of the stretch [lo, hi] of the sold line with the buys numbered `i` and up. */
  function Slices(buys: seq<Lot>, i: nat, lo: real, hi: real, sell: nat, time: int): seq<Match>
    requires i <= |buys|
    decreases |buys| - i
  {
    if i == |buys| then [] else
    var o := Overlap(Line(buys, i), Line(buys, i + 1), lo, hi);
    (if o > 0.0 then [Match(i, sell, o, time - buys[i].time)] else []) +
    Slices(buys, i + 1, lo, hi, sell, time)
  }

  /** Every sell occupies a stretch of the sold line, and is matched with whatever buys lie
      under it.  `buys` are all the buys of the log, later ones included. */
  function ClosedForm(swaps: seq<Swap>, buys: seq<Lot>, n: nat): seq<Match>
    requires n <= |swaps|
  {
    if n == 0 then [] else
    ClosedForm(swaps, buys, n - 1) +
    (if swaps[n - 1].Disposes()
     then Slices(buys, 0, Cut(swaps, n - 1), Cut(swaps, n), n - 1, swaps[n - 1].time) else [])
  }

  lemma {:induction false} LineMonotone(buys: seq<Lot>, i: nat, j: nat)
    requires NonNegativeLots(buys) && i <= j <= |buys|
    ensures 0.0 <= Line(buys, i) <= Line(buys, j)
    decreases j
  {
    if i < j {
      LineMonotone(buys, i, j - 1);
    } else if i > 0 {
      LineMonotone(buys, i - 1, i - 1);
    }
  }

  lemma {:induction false} LinePrefix(buys: seq<Lot>, more: seq<Lot>, i: nat)
    requires i <= |buys|
    ensures Line(buys + more, i) == Line(buys, i)
  {
    if i > 0 {
      LinePrefix(buys, more, i - 1);
    }
  }

  lemma NoOverlap(a0: real, a1: real, b0: real, b1: real)
    requires b1 <= b0 || b1 <= a0 || a1 <= b0
    ensures Overlap(a0, a1, b0, b1) <= 0.0
  {
  }

  lemma NoSlice(buys: seq<Lot>, i: nat, lo: real, hi: real, sell: nat, time: int)
    requires i < |buys| && Overlap(Line(buys, i), Line(buys, i + 1), lo, hi) <= 0.0
    ensures Slices(buys, i, lo, hi, sell, time) == Slices(buys, i + 1, lo, hi, sell, time)
  {
  }

  lemma {:induction false} NoSlices(buys: seq<Lot>, i: nat, lo: real, hi: real, sell: nat, time: int)
    requires NonNegativeLots(buys) && i <= |buys|
    requires hi <= lo || hi <= Line(buys, i)
    ensures Slices(buys, i, lo, hi, sell, time) == []
    decreases |buys| - i
  {
    if i < |buys| {
      LineMonotone(buys, i, i + 1);
      NoOverlap(Line(buys, i), Line(buys, i + 1), lo, hi);
      NoSlice(buys, i, lo, hi, sell, time);
      NoSlices(buys, i + 1, lo, hi, sell, time);
    }
  }

  /** Buys wholly before `lo` contribute nothing. */
  lemma {:induction false} SkipSlices(buys: seq<Lot>, i: nat, k: nat, lo: real, hi: real, sell: nat, time: int)
    requires NonNegativeLots(buys) && i <= k <= |buys| && Line(buys, k) <= lo
    ensures Slices(buys, i, lo, hi, sell, time) == Slices(buys, k, lo, hi, sell, time)
    decreases k - i
  {
    if i < k {
      LineMonotone(buys, i + 1, k);
      NoOverlap(Line(buys, i), Line(buys, i + 1), lo, hi);
      NoSlice(buys, i, lo, hi, sell, time);
      SkipSlices(buys, i + 1, k, lo, hi, sell, time);
    }
  }

  /** The left end does not matter to buys that begin after it. */
  lemma {:induction false} SlicesFrom(buys: seq<Lot>, i: nat, lo: real, lo': real, hi: real, sell: nat, time: int)
    requires NonNegativeLots(buys) && i <= |buys|
    requires lo <= Line(buys, i) && lo' <= Line(buys, i)
    ensures Slices(buys, i, lo, hi, sell, time) == Slices(buys, i, lo', hi, sell, time)
    decreases |buys| - i
  {
    if i < |buys| {
      LineMonotone(buys, i, i + 1);
      SlicesFrom(buys, i + 1, lo, lo', hi, sell, time);
    }
  }

  /** Buys made after the sell lie beyond its stretch. */
  lemma {:induction false} SlicesPrefix(buys: seq<Lot>, more: seq<Lot>, i: nat, lo: real, hi: real,
                                        sell: nat, time: int)
    requires NonNegativeLots(buys + more) && i <= |buys| && hi <= Line(buys, |buys|)
    ensures Slices(buys + more, i, lo, hi, sell, time) == Slices(buys, i, lo, hi, sell, time)
    decreases |buys| - i
  {
    LinePrefix(buys, more, i);
    if i < |buys| {
      LinePrefix(buys, more, i + 1);
      SlicesPrefix(buys, more, i + 1, lo, hi, sell, time);
    } else {
      NoSlices(buys + more, i, lo, hi, sell, time);
    }
  }

  /** Open lots are the buys numbered `k` and up, with at most the head reduced; `cut` is the
      point of the bought line where the queue begins. */
  predicate Aligned(lots: seq<Lot>, buys: seq<Lot>, k: nat, cut: real) {
    && k + |lots| == |buys|
    && if lots == [] then cut == Line(buys, |buys|)
       else
         && Line(buys, k) <= cut
         && 0.0 <= lots[0].amount
         && cut + lots[0].amount == Line(buys, k + 1)
         && lots[0].time == buys[k].time
         && forall i :: 1 <= i < |lots| ==> lots[i] == buys[k + i]
  }

  lemma AlignedTail(lots: seq<Lot>, buys: seq<Lot>, k: nat, cut: real)
    requires NonNegativeLots(buys) && lots != [] && Aligned(lots, buys, k, cut)
    ensures Aligned(lots[1..], buys, k + 1, Line(buys, k + 1))
  {
  }

  /** The sold line after selling `toSell` from `cut` on, capped at what was bought. */
  function Advance(buys: seq<Lot>, cut: real, toSell: real): real {
    Min(cut + Max(toSell, 0.0), Line(buys, |buys|))
  }

  /** What one sell of `toSell` from `cut` on should leave and record. */
  predicate SellsAlong(s: Sale, buys: seq<Lot>, k: nat, cut: real, toSell: real, sell: nat, time: int)
    requires k <= |buys|
  {
    && s.matches == Slices(buys, k, cut, Advance(buys, cut, toSell), sell, time)
    && |s.lots| <= |buys|
    && Aligned(s.lots, buys, |buys| - |s.lots|, Advance(buys, cut, toSell))
  }

  /** One sell against an aligned queue: what is matched is the overlap, the queue stays
      aligned, and the cut advances by the capped amount. */
  lemma {:induction false} ConsumeIsOverlap(lots: seq<Lot>, buys: seq<Lot>, k: nat, cut: real,
                                            toSell: real, sell: nat, time: int)
    requires NonNegativeLots(buys) && Aligned(lots, buys, k, cut)
    ensures SellsAlong(Consume(lots, k, toSell, sell, time), buys, k, cut, toSell, sell, time)
    decreases |lots|
  {
    if lots == [] {
    } else if toSell <= 0.0 {
      LineMonotone(buys, k + 1, |buys|);
      NoSlices(buys, k, cut, Advance(buys, cut, toSell), sell, time);
    } else if lots[0].amount <= toSell {
      AlignedTail(lots, buys, k, cut);
      var next := Consume(lots[1..], k + 1, toSell - lots[0].amount, sell, time);
      ConsumeIsOverlap(lots[1..], buys, k + 1, Line(buys, k + 1), toSell - lots[0].amount, sell, time);
      TakeAlong(lots, buys, k, cut, toSell, sell, time, next);
    } else {
      SliceOfPart(lots, buys, k, cut, toSell, sell, time);
      AlignedPart(lots, buys, k, cut, toSell);
    }
  }

  lemma TakeAlong(lots: seq<Lot>, buys: seq<Lot>, k: nat, cut: real, toSell: real, sell: nat, time: int, next: Sale)
    requires NonNegativeLots(buys) && lots != [] && Aligned(lots, buys, k, cut) && lots[0].amount <= toSell
    requires SellsAlong(next, buys, k + 1, Line(buys, k + 1), toSell - lots[0].amount, sell, time)
    ensures SellsAlong(Take(lots[0].amount, time - lots[0].time, k, sell, next), buys, k, cut, toSell, sell, time)
  {
    SliceOfLot(lots, buys, k, cut, toSell, sell, time);
  }

  lemma AlignedPart(lots: seq<Lot>, buys: seq<Lot>, k: nat, cut: real, toSell: real)
    requires lots != [] && Aligned(lots, buys, k, cut) && 0.0 < toSell < lots[0].amount
    ensures Aligned([lots[0].(amount := lots[0].amount - toSell)] + lots[1..], buys, k, cut + toSell)
  {
  }

  lemma SliceOfLot(lots: seq<Lot>, buys: seq<Lot>, k: nat, cut: real, toSell: real, sell: nat, time: int)
    requires NonNegativeLots(buys) && lots != [] && Aligned(lots, buys, k, cut)
    requires lots[0].amount <= toSell
    ensures Advance(buys, cut, toSell) == Advance(buys, Line(buys, k + 1), toSell - lots[0].amount)
    ensures Slices(buys, k, cut, Advance(buys, cut, toSell), sell, time) ==
            MatchOf(lots[0].amount, k, sell, time - lots[0].time) +
            Slices(buys, k + 1, Line(buys, k + 1), Advance(buys, cut, toSell), sell, time)
  {
    var end := Advance(buys, cut, toSell);
    LineMonotone(buys, k + 1, |buys|);
    assert Overlap(Line(buys, k), Line(buys, k + 1), cut, end) == lots[0].amount;
    SlicesFrom(buys, k + 1, cut, Line(buys, k + 1), end, sell, time);
  }

  lemma SliceOfPart(lots: seq<Lot>, buys: seq<Lot>, k: nat, cut: real, toSell: real, sell: nat, time: int)
    requires NonNegativeLots(buys) && lots != [] && Aligned(lots, buys, k, cut)
    requires 0.0 < toSell < lots[0].amount
    ensures Advance(buys, cut, toSell) == cut + toSell
    ensures Slices(buys, k, cut, Advance(buys, cut, toSell), sell, time) ==
            MatchOf(toSell, k, sell, time - lots[0].time)
  {
    var end := Advance(buys, cut, toSell);
    LineMonotone(buys, k + 1, |buys|);
    assert Overlap(Line(buys, k), Line(buys, k + 1), cut, end) == toSell;
    NoSlices(buys, k + 1, cut, end, sell, time);
  }

  lemma AlignedAppend(lots: seq<Lot>, buys: seq<Lot>, k: nat, cut: real, lot: Lot)
    requires Aligned(lots, buys, k, cut) && lot.amount >= 0.0
    ensures Aligned(lots + [lot], buys + [lot], k, cut)
  {
    LinePrefix(buys, [lot], k);
    if lots != [] {
      LinePrefix(buys, [lot], k + 1);
    }
  }

  lemma {:induction false} BuyLotsFacts(swaps: seq<Swap>, n: nat)
    requires n <= |swaps| && NonNegative(swaps)
    ensures NonNegativeLots(BuyLots(swaps, n))
    ensures Line(BuyLots(swaps, n), |BuyLots(swaps, n)|) == BuyTokens(swaps, n)
    ensures BuyLots(swaps, n) <= BuyLots(swaps, |swaps|)
    decreases n
  {
    if n > 0 {
      BuyLotsFacts(swaps, n - 1);
      var b := BuyLots(swaps, n - 1);
      if swaps[n - 1].Acquires() {
        var lot := Lot(swaps[n - 1].amountIn, swaps[n - 1].time);
        assert BuyLots(swaps, n) == b + [lot] && (b + [lot])[|b|] == lot;
        LinePrefix(b, [lot], |b|);
      } else {
        assert BuyLots(swaps, n) == b;
      }
    }
    BuyLotsPrefix(swaps, n, |swaps|);
  }

  lemma {:induction false} BuyLotsPrefix(swaps: seq<Swap>, m: nat, n: nat)
    requires m <= n <= |swaps|
    ensures BuyLots(swaps, m) <= BuyLots(swaps, n)
  {
    if m < n {
      BuyLotsPrefix(swaps, m, n - 1);
    }
  }

  /** The record, the number of buys and the cut after `n` entries are those of the closed form. */
  predicate Refines(s: State, swaps: seq<Swap>, n: nat)
    requires n <= |swaps|
  {
    && s.buys == |BuyLots(swaps, n)|
    && |s.lots| <= s.buys
    && Aligned(s.lots, BuyLots(swaps, n), s.buys - |s.lots|, Cut(swaps, n))
    && s.matches == ClosedForm(swaps, BuyLots(swaps, |swaps|), n)
  }

  /** Refinement: after any prefix the matcher's record is the closed form over all the buys of
      the log, and the open lots are a suffix of the buys made so far, cut at the sold total. */
  lemma {:induction false} FifoIsClosedForm(swaps: seq<Swap>, n: nat)
    requires n <= |swaps| && NonNegative(swaps)
    ensures Refines(Run(swaps, n), swaps, n)
  {
    if n > 0 {
      FifoIsClosedForm(swaps, n - 1);
      if swaps[n - 1].Acquires() {
        BuyRefines(Run(swaps, n - 1), swaps, n);
      } else if swaps[n - 1].Disposes() {
        SellRefines(Run(swaps, n - 1), swaps, n);
      } else {
        assert BuyLots(swaps, n) == BuyLots(swaps, n - 1);
        assert ClosedForm(swaps, BuyLots(swaps, |swaps|), n) == Run(swaps, n).matches;
      }
    }
  }

  lemma BuyRefines(s: State, swaps: seq<Swap>, n: nat)
    requires 0 < n <= |swaps| && NonNegative(swaps) && swaps[n - 1].Acquires()
    requires Refines(s, swaps, n - 1)
    ensures Refines(Step(s, swaps[n - 1], n - 1), swaps, n)
  {
    var lot, b := Lot(swaps[n - 1].amountIn, swaps[n - 1].time), BuyLots(swaps, n - 1);
    AlignedAppend(s.lots, b, s.buys - |s.lots|, Cut(swaps, n - 1), lot);
    assert BuyLots(swaps, n) == b + [lot];
    assert ClosedForm(swaps, BuyLots(swaps, |swaps|), n) == s.matches;
  }

  lemma SellRefines(s: State, swaps: seq<Swap>, n: nat)
    requires 0 < n <= |swaps| && NonNegative(swaps) && swaps[n - 1].Disposes()
    requires Refines(s, swaps, n - 1)
    ensures Refines(Step(s, swaps[n - 1], n - 1), swaps, n)
  {
    var swap, b, k := swaps[n - 1], BuyLots(swaps, n - 1), s.buys - |s.lots|;
    var lo := Cut(swaps, n - 1);
    assert BuyLots(swaps, n) == b;
    BuyLotsFacts(swaps, n - 1);
    ConsumeIsOverlap(s.lots, b, k, lo, swap.amountOut, n - 1, swap.time);
    assert Cut(swaps, n) == Advance(b, lo, swap.amountOut);
    AlignedCut(s.lots, b, k, lo);
    SlicesOfAll(swaps, n, k);
  }

  /** A sell's slices are the same among the buys made so far, from the head of the queue on, and
      among all the buys of the log. */
  lemma SlicesOfAll(swaps: seq<Swap>, n: nat, k: nat)
    requires 0 < n <= |swaps| && NonNegative(swaps) && swaps[n - 1].Disposes()
    requires k <= |BuyLots(swaps, n - 1)| && Line(BuyLots(swaps, n - 1), k) <= Cut(swaps, n - 1)
    ensures Slices(BuyLots(swaps, n - 1), k, Cut(swaps, n - 1), Cut(swaps, n), n - 1, swaps[n - 1].time) ==
            Slices(BuyLots(swaps, |swaps|), 0, Cut(swaps, n - 1), Cut(swaps, n), n - 1, swaps[n - 1].time)
  {
    var b, all := BuyLots(swaps, n - 1), BuyLots(swaps, |swaps|);
    var lo, hi, time := Cut(swaps, n - 1), Cut(swaps, n), swaps[n - 1].time;
    BuyLotsFacts(swaps, n - 1);
    BuyLotsFacts(swaps, |swaps|);
    assert hi <= Line(b, |b|);
    SkipSlices(b, 0, k, lo, hi, n - 1, time);
    assert all == b + all[|b|..];
    SlicesPrefix(b, all[|b|..], 0, lo, hi, n - 1, time);
  }

  lemma AlignedCut(lots: seq<Lot>, buys: seq<Lot>, k: nat, cut: real)
    requires NonNegativeLots(buys) && Aligned(lots, buys, k, cut)
    ensures Line(buys, k) <= cut <= Line(buys, |buys|)
  {
    if lots != [] {
      LineMonotone(buys, k + 1, |buys|);
    }
  }

  /** The amount the record matches between one buy and one sell. */
  function Between(matches: seq<Match>, buy: nat, sell: nat): real {
    if matches == [] then 0.0 else
    (if matches[0].buy == buy && matches[0].sell == sell then matches[0].amount else 0.0) +
    Between(matches[1..], buy, sell)
  }

  lemma {:induction false} BetweenAppend(a: seq<Match>, b: seq<Match>, buy: nat, sell: nat)
    ensures Between(a + b, buy, sell) == Between(a, buy, sell) + Between(b, buy, sell)
  {
    if a == [] {
      assert a + b == b;
    } else {
      assert (a + b)[0] == a[0] && (a + b)[1..] == a[1..] + b;
      BetweenAppend(a[1..], b, buy, sell);
    }
  }

  lemma {:induction false} BetweenSlices(buys: seq<Lot>, k: nat, lo: real, hi: real, sell: nat, time: int,
                                         buy: nat, other: nat)
    requires k <= |buys| && buy < |buys|
    ensures Between(Slices(buys, k, lo, hi, sell, time), buy, other) ==
            if other == sell && k <= buy
            then Max(Overlap(Line(buys, buy), Line(buys, buy + 1), lo, hi), 0.0) else 0.0
    decreases |buys| - k
  {
    if k < |buys| {
      BetweenSlices(buys, k + 1, lo, hi, sell, time, buy, other);
      var o := Overlap(Line(buys, k), Line(buys, k + 1), lo, hi);
      var first := if o > 0.0 then [Match(k, sell, o, time - buys[k].time)] else [];
      BetweenAppend(first, Slices(buys, k + 1, lo, hi, sell, time), buy, other);
      if o > 0.0 {
        assert first[1..] == [];
      }
    }
  }

  /** The common part of a buy's and a sell's interval on the cumulative line. */
  function Common(swaps: seq<Swap>, buys: seq<Lot>, buy: nat, sell: nat): real
    requires buy < |buys| && sell < |swaps|
  {
    Max(Overlap(Line(buys, buy), Line(buys, buy + 1), Cut(swaps, sell), Cut(swaps, sell + 1)), 0.0)
  }

  lemma {:induction false} BetweenClosedForm(swaps: seq<Swap>, buys: seq<Lot>, n: nat, buy: nat, sell: nat)
    requires n <= |swaps| && buy < |buys| && sell < |swaps| && swaps[sell].Disposes()
    ensures Between(ClosedForm(swaps, buys, n), buy, sell) ==
            if sell < n then Common(swaps, buys, buy, sell) else 0.0
  {
    if n > 0 {
      BetweenClosedForm(swaps, buys, n - 1, buy, sell);
      if swaps[n - 1].Disposes() {
        var slices := Slices(buys, 0, Cut(swaps, n - 1), Cut(swaps, n), n - 1, swaps[n - 1].time);
        assert ClosedForm(swaps, buys, n) == ClosedForm(swaps, buys, n - 1) + slices;
        BetweenAppend(ClosedForm(swaps, buys, n - 1), slices, buy, sell);
        BetweenSlices(buys, 0, Cut(swaps, n - 1), Cut(swaps, n), n - 1, swaps[n - 1].time, buy, sell);
        assert Between(slices, buy, sell) == if sell == n - 1 then Common(swaps, buys, buy, sell) else 0.0;
      } else {
        assert ClosedForm(swaps, buys, n) == ClosedForm(swaps, buys, n - 1);
      }
    }
  }

  /** The headline: what buy `buy` and sell `sell` have to do with each other is the overlap of
      their intervals on the line of cumulative amounts. */
  lemma MatchedAmountIsOverlap(swaps: seq<Swap>, buy: nat, sell: nat)
    requires NonNegative(swaps) && sell < |swaps| && swaps[sell].Disposes()
    requires buy < |BuyLots(swaps, |swaps|)|
    ensures Between(Run(swaps, |swaps|).matches, buy, sell) ==
            Common(swaps, BuyLots(swaps, |swaps|), buy, sell)
  {
    FifoIsClosedForm(swaps, |swaps|);
    BetweenClosedForm(swaps, BuyLots(swaps, |swaps|), |swaps|, buy, sell);
  }

  lemma {:induction false} OpenSuffix(buys: seq<Lot>, k: nat)
    requires k <= |buys|
    ensures Open(buys[k..]) == Line(buys, |buys|) - Line(buys, k)
    decreases |buys| - k
  {
    if k < |buys| {
      OpenSuffix(buys, k + 1);
      assert buys[k..][0] == buys[k] && buys[k..][1..] == buys[k + 1..];
    }
  }

  /** The sold total is the running minimum of `Cut`: each sell is capped at what is open. */
  lemma SoldIsCut(swaps: seq<Swap>, n: nat)
    requires n <= |swaps| && NonNegative(swaps)
    ensures Run(swaps, n).sold == Cut(swaps, n)
    ensures Cut(swaps, n) <= BuyTokens(swaps, n)
  {
    FifoIsClosedForm(swaps, n);
    BuyLotsFacts(swaps, n);
    Conservation(swaps, n);
    var s, b := Run(swaps, n), BuyLots(swaps, n);
    var k := s.buys - |s.lots|;
    AlignedCut(s.lots, b, k, Cut(swaps, n));
    if s.lots != [] {
      assert s.lots[1..] == b[k + 1..];
      OpenSuffix(b, k + 1);
    }
  }

  // ---------- holding times ----------

  predicate OldLots(lots: seq<Lot>, time: int) {
    forall i :: 0 <= i < |lots| ==> lots[i].time <= time && lots[i].amount >= 0.0
  }

  predicate Forward(matches: seq<Match>) {
    forall i :: 0 <= i < |matches| ==> matches[i].amount > 0.0 && matches[i].duration >= 0
  }

  lemma {:induction false} ConsumeForward(lots: seq<Lot>, buy: nat, toSell: real, sell: nat, time: int)
    requires OldLots(lots, time)
    ensures var s := Consume(lots, buy, toSell, sell, time); OldLots(s.lots, time) && Forward(s.matches)
    decreases |lots|
  {
    if lots != [] && toSell > 0.0 && lots[0].amount <= toSell {
      ConsumeForward(lots[1..], buy + 1, toSell - lots[0].amount, sell, time);
    }
  }

  lemma StepForward(s: State, swap: Swap, n: nat)
    requires OldLots(s.lots, swap.time) && Forward(s.matches) && swap.amountIn >= 0.0
    ensures var t := Step(s, swap, n); OldLots(t.lots, swap.time) && Forward(t.matches)
  {
    if swap.Disposes() {
      ConsumeForward(s.lots, Head(s), swap.amountOut, n, swap.time);
    }
  }

  lemma {:induction false} RunForward(swaps: seq<Swap>, n: nat)
    requires n <= |swaps| && NonNegative(swaps) && Sorted(swaps)
    ensures Forward(Run(swaps, n).matches)
    ensures n > 0 ==> OldLots(Run(swaps, n).lots, swaps[n - 1].time)
  {
    if n > 0 {
      RunForward(swaps, n - 1);
      StepForward(Run(swaps, n - 1), swaps[n - 1], n - 1);
    }
  }

  lemma {:induction false} HeldBounds(matches: seq<Match>)
    requires Forward(matches)
    ensures 0 <= Held(matches)
    ensures ExactHeld(matches) - |matches| as real <= Held(matches) as real <= ExactHeld(matches)
  {
    if matches != [] {
      assert Weight(matches[0].duration, matches[0].amount) >= 0.0;
      HeldBounds(matches[1..]);
    }
  }

  /** After the sort no holding time is negative, and truncation loses less than a nanosecond
      per match. */
  lemma HeldTimeIsNonNegative(swaps: seq<Swap>)
    requires NonNegative(swaps) && Sorted(swaps)
    ensures var s := Run(swaps, |swaps|);
            && 0 <= s.held
            && s.exact - |s.matches| as real <= s.held as real <= s.exact
  {
    RunForward(swaps, |swaps|);
    RunTallied(swaps, |swaps|);
    HeldBounds(Run(swaps, |swaps|).matches);
  }
}
