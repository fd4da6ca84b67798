/** The exact holding time as an area: it is the amount held at each moment that will be sold, summed
    over time.  It rests on the lot matcher of cmd/api/routes/pnl_utils.go:53-72 and is what the effect
    of ties is measured with. */
module HeldArea {
  import opened FifoLots

  /** The sum of `f` over the moments from `lo` up to but not including `hi`. */
  function Sum(f: int -> real, lo: int, hi: int): real
    decreases hi - lo
  {
    if lo >= hi then 0.0 else Sum(f, lo, hi - 1) + f(hi - 1)
  }

  lemma {:induction false} SumPlus(f: int -> real, g: int -> real, h: int -> real, lo: int, hi: int)
    requires forall t :: lo <= t < hi ==> h(t) == f(t) + g(t)
    ensures Sum(h, lo, hi) == Sum(f, lo, hi) + Sum(g, lo, hi)
    decreases hi - lo
  {
    if lo < hi {
      SumPlus(f, g, h, lo, hi - 1);
    }
  }

  lemma {:induction false} SumSame(f: int -> real, g: int -> real, lo: int, hi: int)
    requires forall t :: lo <= t < hi ==> f(t) == g(t)
    ensures Sum(f, lo, hi) == Sum(g, lo, hi)
    decreases hi - lo
  {
    if lo < hi {
      SumSame(f, g, lo, hi - 1);
    }
  }

  lemma {:induction false} SumLess(f: int -> real, g: int -> real, lo: int, hi: int, t: int)
    requires forall u :: lo <= u < hi ==> f(u) <= g(u)
    ensures Sum(f, lo, hi) <= Sum(g, lo, hi)
    ensures lo <= t < hi && f(t) < g(t) ==> Sum(f, lo, hi) < Sum(g, lo, hi)
    decreases hi - lo
  {
    if lo < hi {
      SumLess(f, g, lo, hi - 1, t);
    }
  }

  /** What an amount of the given time counts for at moment `tau`. */
  function By(time: int, tau: int, amount: real): real {
    if time <= tau then amount else 0.0
  }

  /** An amount from one moment to another: the lot is there, and the sale has not come yet. */
  function Between(bought: int, sold: int, amount: real): int -> real {
    tau => By(bought, tau, amount) - By(sold, tau, amount)
  }

  lemma {:induction false} BetweenIsWeight(bought: int, sold: int, amount: real, lo: int, hi: int)
    requires lo <= bought && lo <= sold
    ensures bought <= hi && sold <= hi ==> Sum(Between(bought, sold, amount), lo, hi) == Weight(sold - bought, amount)
    ensures bought <= hi < sold ==> Sum(Between(bought, sold, amount), lo, hi) == Weight(hi - bought, amount)
    ensures sold <= hi < bought ==> Sum(Between(bought, sold, amount), lo, hi) == Weight(sold - hi, amount)
    ensures hi < bought && hi < sold ==> Sum(Between(bought, sold, amount), lo, hi) == 0.0
    decreases hi - lo
  {
    if lo < hi {
      BetweenIsWeight(bought, sold, amount, lo, hi - 1);
      OneLonger(hi - 1 - bought, amount);
      OneLonger(sold - hi, amount);
    }
    NoTime(amount);
  }

  lemma OneLonger(duration: int, amount: real)
    ensures Weight(duration + 1, amount) == Weight(duration, amount) + amount
  {
  }

  lemma NoTime(amount: real)
    ensures Weight(0, amount) == 0.0
  {
  }

  // ---------- one sale ----------

  /** The open amount that was bought by moment `tau`. */
  function OpenBy(lots: seq<Lot>, tau: int): real {
    if lots == [] then 0.0 else By(lots[0].time, tau, lots[0].amount) + OpenBy(lots[1..], tau)
  }

  /** What a sale takes from the lots bought by a moment, as long as it has not happened. */
  function Taken(lots: seq<Lot>, left: seq<Lot>, time: int, sold: real): int -> real {
    tau => OpenBy(lots, tau) - OpenBy(left, tau) - By(time, tau, sold)
  }

  predicate Within(lots: seq<Lot>, lo: int, hi: int) {
    forall i :: 0 <= i < |lots| ==> lo <= lots[i].time <= hi
  }

  lemma {:induction false} ConsumeArea(lots: seq<Lot>, buy: nat, toSell: real, sell: nat, time: int, lo: int, hi: int)
    requires Within(lots, lo, hi) && lo <= time <= hi
    ensures var s := Consume(lots, buy, toSell, sell, time);
            s.exact == Sum(Taken(lots, s.lots, time, s.sold), lo, hi) && Within(s.lots, lo, hi)
    decreases |lots|
  {
    var s := Consume(lots, buy, toSell, sell, time);
    if lots == [] || toSell <= 0.0 {
      NothingTaken(lots, time, lo, hi);
    } else if lots[0].amount <= toSell {
      var l := lots[0];
      var next := Consume(lots[1..], buy + 1, toSell - l.amount, sell, time);
      ConsumeArea(lots[1..], buy + 1, toSell - l.amount, sell, time, lo, hi);
      TakenHead(lots, next.lots, time, next.sold, lo, hi);
    } else {
      PartTaken(lots, toSell, time, lo, hi);
    }
  }

  lemma {:induction false} NothingTaken(lots: seq<Lot>, time: int, lo: int, hi: int)
    ensures Sum(Taken(lots, lots, time, 0.0), lo, hi) == 0.0
    decreases hi - lo
  {
    if lo < hi {
      NothingTaken(lots, time, lo, hi - 1);
    }
  }

  lemma TakenHead(lots: seq<Lot>, left: seq<Lot>, time: int, sold: real, lo: int, hi: int)
    requires lots != [] && lo <= lots[0].time <= hi && lo <= time <= hi
    ensures Sum(Taken(lots, left, time, lots[0].amount + sold), lo, hi) ==
            Weight(time - lots[0].time, lots[0].amount) + Sum(Taken(lots[1..], left, time, sold), lo, hi)
  {
    var l := lots[0];
    BetweenIsWeight(l.time, time, l.amount, lo, hi);
    SumPlus(Between(l.time, time, l.amount), Taken(lots[1..], left, time, sold),
            Taken(lots, left, time, l.amount + sold), lo, hi);
  }

  lemma PartTaken(lots: seq<Lot>, amount: real, time: int, lo: int, hi: int)
    requires lots != [] && lo <= lots[0].time <= hi && lo <= time <= hi
    ensures var left := [lots[0].(amount := lots[0].amount - amount)] + lots[1..];
            Sum(Taken(lots, left, time, amount), lo, hi) == Weight(time - lots[0].time, amount)
  {
    var l := lots[0];
    var left := [l.(amount := l.amount - amount)] + lots[1..];
    assert left[1..] == lots[1..];
    BetweenIsWeight(l.time, time, amount, lo, hi);
    SumSame(Between(l.time, time, amount), Taken(lots, left, time, amount), lo, hi);
  }

  // ---------- whole runs ----------

  /** What the first `n` entries acquire by moment `tau`. */
  function BoughtBy(log: seq<Swap>, n: nat, tau: int): real
    requires n <= |log|
  {
    if n == 0 then 0.0 else
    BoughtBy(log, n - 1, tau) + if log[n - 1].Acquires() then By(log[n - 1].time, tau, log[n - 1].amountIn) else 0.0
  }

  /** What the first `n` entries sell by moment `tau`. */
  function SoldBy(log: seq<Swap>, n: nat, tau: int): real
    requires n <= |log|
  {
    if n == 0 then 0.0 else
    SoldBy(log, n - 1, tau) + By(log[n - 1].time, tau, Run(log, n).sold - Run(log, n - 1).sold)
  }

  /** What was bought by a moment, is not open in the end, and was not yet sold at that moment. */
  function Pending(log: seq<Swap>, n: nat): int -> real
    requires n <= |log|
  {
    tau => BoughtBy(log, n, tau) - OpenBy(Run(log, n).lots, tau) - SoldBy(log, n, tau)
  }

  predicate Spans(log: seq<Swap>, lo: int, hi: int) {
    forall i :: 0 <= i < |log| ==> lo <= log[i].time <= hi
  }

  lemma {:induction false} OpenByAppend(lots: seq<Lot>, lot: Lot, tau: int)
    ensures OpenBy(lots + [lot], tau) == OpenBy(lots, tau) + By(lot.time, tau, lot.amount)
    decreases |lots|
  {
    if lots != [] {
      assert (lots + [lot])[1..] == lots[1..] + [lot];
      OpenByAppend(lots[1..], lot, tau);
    }
  }

  lemma {:induction false} RunArea(log: seq<Swap>, n: nat, lo: int, hi: int)
    requires n <= |log| && Spans(log, lo, hi)
    ensures IsArea(log, n, lo, hi)
  {
    if n == 0 {
      NothingPending(log, lo, hi);
    } else {
      RunArea(log, n - 1, lo, hi);
      if log[n - 1].Disposes() && !log[n - 1].Acquires() {
        SaleArea(log, n, lo, hi);
      } else {
        NoSaleArea(log, n, lo, hi);
      }
    }
  }

  predicate IsArea(log: seq<Swap>, n: nat, lo: int, hi: int)
    requires n <= |log|
  {
    Run(log, n).exact == Sum(Pending(log, n), lo, hi) && Within(Run(log, n).lots, lo, hi)
  }

  lemma SaleArea(log: seq<Swap>, n: nat, lo: int, hi: int)
    requires 0 < n <= |log| && Spans(log, lo, hi) && IsArea(log, n - 1, lo, hi)
    requires log[n - 1].Disposes() && !log[n - 1].Acquires()
    ensures IsArea(log, n, lo, hi)
  {
    var s, swap := Run(log, n - 1), log[n - 1];
    var sale := Consume(s.lots, Head(s), swap.amountOut, n - 1, swap.time);
    ConsumeArea(s.lots, Head(s), swap.amountOut, n - 1, swap.time, lo, hi);
    SumPlus(Pending(log, n - 1), Taken(s.lots, sale.lots, swap.time, sale.sold), Pending(log, n), lo, hi);
  }

  lemma NoSaleArea(log: seq<Swap>, n: nat, lo: int, hi: int)
    requires 0 < n <= |log| && Spans(log, lo, hi) && IsArea(log, n - 1, lo, hi)
    requires log[n - 1].Acquires() || !log[n - 1].Disposes()
    ensures IsArea(log, n, lo, hi)
  {
    forall tau ensures Pending(log, n)(tau) == Pending(log, n - 1)(tau) {
      NoSale(log, n, tau);
    }
    SumSame(Pending(log, n), Pending(log, n - 1), lo, hi);
  }

  /** An entry that is no sale changes nothing that is pending. */
  lemma NoSale(log: seq<Swap>, n: nat, tau: int)
    requires 0 < n <= |log| && (log[n - 1].Acquires() || !log[n - 1].Disposes())
    ensures Pending(log, n)(tau) == Pending(log, n - 1)(tau)
  {
    var s, swap := Run(log, n - 1), log[n - 1];
    if swap.Acquires() {
      OpenByAppend(s.lots, Lot(swap.amountIn, swap.time), tau);
    }
  }

  lemma {:induction false} NothingPending(log: seq<Swap>, lo: int, hi: int)
    ensures Sum(Pending(log, 0), lo, hi) == 0.0
    decreases hi - lo
  {
    if lo < hi {
      NothingPending(log, lo, hi - 1);
    }
  }

  // ---------- sorted logs ----------

  predicate OldestFirst(lots: seq<Lot>) {
    NonNegativeLots(lots) && forall i, j :: 0 <= i < j < |lots| ==> lots[i].time <= lots[j].time
  }

  lemma {:induction false} OpenByBounds(lots: seq<Lot>, tau: int)
    requires OldestFirst(lots)
    ensures OpenBy(lots, tau) >= 0.0
    ensures lots != [] && lots[0].time > tau ==> OpenBy(lots, tau) == 0.0
    decreases |lots|
  {
    if lots != [] {
      OpenByBounds(lots[1..], tau);
    }
  }

  lemma {:induction false} ConsumeKeepsOrder(lots: seq<Lot>, buy: nat, toSell: real, sell: nat, time: int)
    requires OldestFirst(lots)
    ensures OldestFirst(Consume(lots, buy, toSell, sell, time).lots)
    ensures Consume(lots, buy, toSell, sell, time).sold >= 0.0
    decreases |lots|
  {
    if lots != [] && toSell > 0.0 && lots[0].amount <= toSell {
      ConsumeKeepsOrder(lots[1..], buy + 1, toSell - lots[0].amount, sell, time);
    }
  }

  /** A sale empties the oldest lots first. */
  lemma {:induction false} ConsumeOldest(lots: seq<Lot>, buy: nat, toSell: real, sell: nat, time: int, tau: int)
    requires OldestFirst(lots)
    ensures var s := Consume(lots, buy, toSell, sell, time);
            OpenBy(s.lots, tau) == Max(OpenBy(lots, tau) - s.sold, 0.0)
    decreases |lots|
  {
    OpenByBounds(lots, tau);
    if lots != [] && toSell > 0.0 {
      if lots[0].amount <= toSell {
        ConsumeOldest(lots[1..], buy + 1, toSell - lots[0].amount, sell, time, tau);
        ConsumeKeepsOrder(lots[1..], buy + 1, toSell - lots[0].amount, sell, time);
        OldestPop(lots, Consume(lots[1..], buy + 1, toSell - lots[0].amount, sell, time), tau);
      } else {
        OldestPart(lots, toSell, tau);
      }
    }
  }

  lemma OldestPop(lots: seq<Lot>, next: Sale, tau: int)
    requires OldestFirst(lots) && lots != [] && next.sold >= 0.0
    requires OpenBy(next.lots, tau) == Max(OpenBy(lots[1..], tau) - next.sold, 0.0)
    ensures OpenBy(next.lots, tau) == Max(OpenBy(lots, tau) - (lots[0].amount + next.sold), 0.0)
  {
    OpenByBounds(lots, tau);
    OpenByBounds(lots[1..], tau);
    assert lots[0].time > tau ==> OpenBy(lots[1..], tau) == 0.0;
  }

  lemma OldestPart(lots: seq<Lot>, toSell: real, tau: int)
    requires OldestFirst(lots) && lots != [] && 0.0 < toSell < lots[0].amount
    ensures var left := [lots[0].(amount := lots[0].amount - toSell)] + lots[1..];
            OpenBy(left, tau) == Max(OpenBy(lots, tau) - toSell, 0.0)
  {
    var left := [lots[0].(amount := lots[0].amount - toSell)] + lots[1..];
    assert left[1..] == lots[1..];
    OpenByBounds(lots, tau);
    OpenByBounds(lots[1..], tau);
  }

  lemma {:induction false} RunKeepsOrder(log: seq<Swap>, n: nat)
    requires n <= |log| && NonNegative(log) && Sorted(log)
    ensures OldestFirst(Run(log, n).lots)
  {
    if n > 0 {
      RunKeepsOrder(log, n - 1);
      RunForward(log, n - 1);
      var s, swap := Run(log, n - 1), log[n - 1];
      if swap.Acquires() {
        AppendKeepsOrder(s.lots, Lot(swap.amountIn, swap.time));
      } else if swap.Disposes() {
        ConsumeKeepsOrder(s.lots, Head(s), swap.amountOut, n - 1, swap.time);
      }
    }
  }

  lemma AppendKeepsOrder(lots: seq<Lot>, lot: Lot)
    requires OldestFirst(lots) && OldLots(lots, lot.time) && lot.amount >= 0.0
    ensures OldestFirst(lots + [lot])
  {
  }

  /** What is open of the purchases up to a moment is what all sales have left of them. */
  lemma {:induction false} OpenIsBoughtLessSold(log: seq<Swap>, n: nat, tau: int)
    requires n <= |log| && NonNegative(log) && Sorted(log)
    ensures OpenBy(Run(log, n).lots, tau) == Max(BoughtBy(log, n, tau) - Run(log, n).sold, 0.0)
  {
    if n > 0 {
      OpenIsBoughtLessSold(log, n - 1, tau);
      if log[n - 1].Acquires() {
        OpenAfterPurchase(log, n, tau);
      } else if log[n - 1].Disposes() {
        OpenAfterSale(log, n, tau);
      }
    }
  }

  lemma OpenAfterPurchase(log: seq<Swap>, n: nat, tau: int)
    requires 0 < n <= |log| && NonNegative(log) && Sorted(log) && log[n - 1].Acquires()
    requires OpenBy(Run(log, n - 1).lots, tau) == Max(BoughtBy(log, n - 1, tau) - Run(log, n - 1).sold, 0.0)
    ensures OpenBy(Run(log, n).lots, tau) == Max(BoughtBy(log, n, tau) - Run(log, n).sold, 0.0)
  {
    SoldIsCut(log, n - 1);
    OpenByAppend(Run(log, n - 1).lots, Lot(log[n - 1].amountIn, log[n - 1].time), tau);
    BoughtByAll(log, n - 1, tau);
  }

  lemma OpenAfterSale(log: seq<Swap>, n: nat, tau: int)
    requires 0 < n <= |log| && NonNegative(log) && Sorted(log) && log[n - 1].Disposes()
    requires OpenBy(Run(log, n - 1).lots, tau) == Max(BoughtBy(log, n - 1, tau) - Run(log, n - 1).sold, 0.0)
    ensures OpenBy(Run(log, n).lots, tau) == Max(BoughtBy(log, n, tau) - Run(log, n).sold, 0.0)
  {
    var s, swap := Run(log, n - 1), log[n - 1];
    RunKeepsOrder(log, n - 1);
    SaleLeaves(s, swap, n - 1, BoughtBy(log, n - 1, tau), tau);
    assert Run(log, n) == Step(s, swap, n - 1);
    assert BoughtBy(log, n, tau) == BoughtBy(log, n - 1, tau);
  }

  lemma SaleLeaves(s: State, swap: Swap, n: nat, bought: real, tau: int)
    requires OldestFirst(s.lots) && swap.Disposes() && OpenBy(s.lots, tau) == Max(bought - s.sold, 0.0)
    ensures OpenBy(Step(s, swap, n).lots, tau) == Max(bought - Step(s, swap, n).sold, 0.0)
  {
    ConsumeKeepsOrder(s.lots, Head(s), swap.amountOut, n, swap.time);
    ConsumeOldest(s.lots, Head(s), swap.amountOut, n, swap.time, tau);
  }

  /** After the last of the entries everything they acquire has been acquired. */
  lemma {:induction false} BoughtByAll(log: seq<Swap>, n: nat, tau: int)
    requires n <= |log|
    ensures (forall i :: 0 <= i < n ==> log[i].time <= tau) ==> BoughtBy(log, n, tau) == BuyTokens(log, n)
  {
    if n > 0 {
      BoughtByAll(log, n - 1, tau);
    }
  }

  /** What is held at a moment and will be sold later. */
  function HeldAt(log: seq<Swap>): int -> real {
    tau => Min(BoughtBy(log, |log|, tau), Run(log, |log|).sold) - SoldBy(log, |log|, tau)
  }

  /** The exact holding time of a sorted log is what is held and will be sold, summed over time. */
  lemma HeldIsArea(log: seq<Swap>, lo: int, hi: int)
    requires NonNegative(log) && Sorted(log) && Spans(log, lo, hi)
    ensures Run(log, |log|).exact == Sum(HeldAt(log), lo, hi)
  {
    RunArea(log, |log|, lo, hi);
    forall tau | lo <= tau < hi ensures Pending(log, |log|)(tau) == HeldAt(log)(tau) {
      OpenIsBoughtLessSold(log, |log|, tau);
    }
    SumSame(Pending(log, |log|), HeldAt(log), lo, hi);
  }
}
