/** Splitting a sale in the lot matcher of cmd/api/routes/pnl_utils.go: one that is recorded as two at the
    same time gives the same books. */
module Splits {
  import opened FifoLots

  lemma TruncSum(x: real, y: real)
    requires (x >= 0.0 && y >= 0.0) || (x <= 0.0 && y <= 0.0)
    ensures -1 <= Trunc(x + y) - Trunc(x) - Trunc(y) <= 1
    ensures x >= 0.0 && y >= 0.0 ==> Trunc(x) + Trunc(y) <= Trunc(x + y)
  {
  }

  /** How one sell of `a + b` relates to a sell of `a` followed by one of `b`: the same lots,
      rest, sold total and exact holding time; the truncated one may differ by a nanosecond. */
  predicate SplitsInto(whole: Sale, first: Sale, second: Sale) {
    && whole.lots == second.lots
    && whole.rest == first.rest + second.rest
    && whole.sold == first.sold + second.sold
    && whole.exact == first.exact + second.exact
    && -1 <= whole.held - first.held - second.held <= 1
  }

  /** A sale that differs from another in its record of matches alone. */
  predicate SameSale(a: Sale, b: Sale) {
    a.lots == b.lots && a.rest == b.rest && a.sold == b.sold && a.held == b.held && a.exact == b.exact
  }

  /** What a sell does to the books does not depend on how lots and sells are numbered. */
  lemma {:induction false} NumbersDoNotMatter(lots: seq<Lot>, buy: nat, other: nat, toSell: real, m: nat, n: nat,
                                              time: int)
    ensures SameSale(Consume(lots, buy, toSell, m, time), Consume(lots, other, toSell, n, time))
    decreases |lots|
  {
    if lots != [] && toSell > 0.0 && lots[0].amount <= toSell {
      NumbersDoNotMatter(lots[1..], buy + 1, other + 1, toSell - lots[0].amount, m, n, time);
    }
  }

  /** Selling `a + b` at one time is selling `a` and then `b` at that time, whatever the number of the lot
      then at the head. */
  lemma {:induction false} SplitSell(lots: seq<Lot>, buy: nat, next: nat, a: real, b: real, sell: nat, time: int)
    requires NonNegativeLots(lots) && a >= 0.0 && b >= 0.0
    ensures var first := Consume(lots, buy, a, sell, time);
            var second := Consume(first.lots, next, b, sell, time);
            SplitsInto(Consume(lots, buy, a + b, sell, time), first, second)
    decreases |lots|, 1
  {
    if lots == [] || a == 0.0 {
      SplitNothing(lots, buy, next, a, b, sell, time);
    } else if lots[0].amount <= a {
      SplitRest(lots, buy, next, a, b, sell, time);
    } else {
      SplitLot(lots, buy, next, a, b, sell, time);
    }
  }

  lemma {:induction false} SplitRest(lots: seq<Lot>, buy: nat, next: nat, a: real, b: real, sell: nat, time: int)
    requires NonNegativeLots(lots) && lots != [] && a > 0.0 && b >= 0.0 && lots[0].amount <= a
    ensures var first := Consume(lots, buy, a, sell, time);
            var second := Consume(first.lots, next, b, sell, time);
            SplitsInto(Consume(lots, buy, a + b, sell, time), first, second)
    decreases |lots|, 0
  {
    var c := a - lots[0].amount;
    SplitSell(lots[1..], buy + 1, next, c, b, sell, time);
    var first := Consume(lots[1..], buy + 1, c, sell, time);
    var second := Consume(first.lots, next, b, sell, time);
    SplitPop(lots, buy, a, b, sell, time, Consume(lots[1..], buy + 1, c + b, sell, time), first, second);
  }

  lemma SplitNothing(lots: seq<Lot>, buy: nat, next: nat, a: real, b: real, sell: nat, time: int)
    requires a >= 0.0 && b >= 0.0 && (lots == [] || a == 0.0)
    ensures var first := Consume(lots, buy, a, sell, time);
            var second := Consume(first.lots, next, b, sell, time);
            SplitsInto(Consume(lots, buy, a + b, sell, time), first, second)
  {
    NumbersDoNotMatter(lots, buy, next, b, sell, sell, time);
    assert Consume(lots, buy, a, sell, time) == Sale(lots, a, 0.0, 0, 0.0, []);
  }

  lemma ConsumePop(lots: seq<Lot>, buy: nat, toSell: real, sell: nat, time: int)
    requires lots != [] && toSell > 0.0 && lots[0].amount <= toSell
    ensures Consume(lots, buy, toSell, sell, time) ==
            Take(lots[0].amount, time - lots[0].time, buy, sell,
                 Consume(lots[1..], buy + 1, toSell - lots[0].amount, sell, time))
  {
  }

  /** The case of `SplitSell` in which the head lot is used up by the first half, given the sales of the
      other lots. */
  lemma SplitPop(lots: seq<Lot>, buy: nat, a: real, b: real, sell: nat, time: int,
                 whole: Sale, first: Sale, second: Sale)
    requires lots != [] && a > 0.0 && b >= 0.0 && lots[0].amount <= a
    requires first == Consume(lots[1..], buy + 1, a - lots[0].amount, sell, time)
    requires whole == Consume(lots[1..], buy + 1, a - lots[0].amount + b, sell, time)
    requires SplitsInto(whole, first, second)
    ensures Consume(lots, buy, a, sell, time).lots == first.lots
    ensures SplitsInto(Consume(lots, buy, a + b, sell, time), Consume(lots, buy, a, sell, time), second)
  {
    var l := lots[0];
    assert a + b - l.amount == a - l.amount + b;
    ConsumePop(lots, buy, a, sell, time);
    ConsumePop(lots, buy, a + b, sell, time);
    TakeSplits(l.amount, time - l.time, buy, sell, whole, first, second);
  }

  lemma TakeSplits(amount: real, duration: int, buy: nat, sell: nat, whole: Sale, first: Sale, second: Sale)
    requires SplitsInto(whole, first, second)
    ensures Take(amount, duration, buy, sell, first).lots == first.lots
    ensures SplitsInto(Take(amount, duration, buy, sell, whole), Take(amount, duration, buy, sell, first), second)
  {
  }

  /** The case of `SplitSell` in which the first half ends inside the head lot. */
  lemma SplitLot(lots: seq<Lot>, buy: nat, next: nat, a: real, b: real, sell: nat, time: int)
    requires lots != [] && 0.0 < a < lots[0].amount && b >= 0.0
    ensures var first := Consume(lots, buy, a, sell, time);
            SplitsInto(Consume(lots, buy, a + b, sell, time), first, Consume(first.lots, next, b, sell, time))
  {
    var first := Consume(lots, buy, a, sell, time);
    NumbersDoNotMatter(first.lots, buy, next, b, sell, sell, time);
    SplitHead(lots, buy, a, b, sell, time);
    SameSplit(Consume(lots, buy, a + b, sell, time), first, Consume(first.lots, buy, b, sell, time),
              Consume(first.lots, next, b, sell, time));
  }

  lemma SameSplit(whole: Sale, first: Sale, second: Sale, other: Sale)
    requires SplitsInto(whole, first, second) && SameSale(second, other)
    ensures SplitsInto(whole, first, other)
  {
  }

  lemma SplitHead(lots: seq<Lot>, buy: nat, a: real, b: real, sell: nat, time: int)
    requires lots != [] && 0.0 < a < lots[0].amount && b >= 0.0
    ensures var first := Consume(lots, buy, a, sell, time);
            SplitsInto(Consume(lots, buy, a + b, sell, time), first, Consume(first.lots, buy, b, sell, time))
  {
    var l, d := lots[0], time - lots[0].time;
    var left := l.amount - a;
    var first := Consume(lots, buy, a, sell, time);
    assert first.lots[0] == Lot(left, l.time) && first.lots[1..] == lots[1..];
    if b == 0.0 {
      assert a + b == a;
    } else if left <= b {
      assert a + b - l.amount == b - left;
      SplitWeight(d, l.amount, a, left);
    } else {
      assert l.amount - (a + b) == left - b;
      SplitWeight(d, a + b, a, b);
    }
  }

  lemma SplitWeight(d: int, whole: real, a: real, b: real)
    requires a > 0.0 && b > 0.0 && whole == a + b
    ensures Weight(d, whole) == Weight(d, a) + Weight(d, b)
    ensures -1 <= Trunc(Weight(d, whole)) - Trunc(Weight(d, a)) - Trunc(Weight(d, b)) <= 1
  {
    Distribute(d as real, a, b);
    Sign(d as real, a);
    Sign(d as real, b);
    TruncSum(Weight(d, a), Weight(d, b));
  }

  lemma Distribute(d: real, a: real, b: real)
    ensures d * (a + b) == d * a + d * b
  {
  }

  lemma Sign(d: real, a: real)
    requires a > 0.0
    ensures d >= 0.0 ==> d * a >= 0.0
    ensures d <= 0.0 ==> d * a <= 0.0
  {
    if d <= 0.0 {
      assert -d * a >= 0.0;
    }
  }

  /** Two states of the matcher that agree in everything but a nanosecond of truncated time. */
  predicate SameBooks(a: State, b: State) {
    && a.lots == b.lots && a.buys == b.buys && a.unmatched == b.unmatched
    && a.sold == b.sold && a.exact == b.exact
    && -1 <= a.held - b.held <= 1
  }

  /** One sell entry of `a + b` is two entries at the same time, right after them. */
  lemma SplitEntry(s: State, swap: Swap, a: real, b: real, n: nat)
    requires NonNegativeLots(s.lots)
    requires swap.Disposes() && a >= 0.0 && b >= 0.0 && swap.amountOut == a + b
    ensures SameBooks(Step(s, swap, n),
                      Step(Step(s, swap.(amountOut := a), n), swap.(amountOut := b), n + 1))
  {
    var first := Consume(s.lots, Head(s), a, n, swap.time);
    var k := Head(AfterSale(s, first));
    assert Step(s, swap.(amountOut := a), n) == AfterSale(s, first);
    SplitSell(s.lots, Head(s), k, a, b, n, swap.time);
    BooksAfter(s, Consume(s.lots, Head(s), a + b, n, swap.time), first, Consume(first.lots, k, b, n, swap.time));
    NumbersAreLabels(AfterSale(s, first), swap.(amountOut := b), n, n + 1);
  }

  lemma BooksAfter(s: State, whole: Sale, first: Sale, second: Sale)
    requires SplitsInto(whole, first, second)
    ensures SameBooks(AfterSale(s, whole), AfterSale(AfterSale(s, first), second))
  {
  }

  // ---------- in a log ----------

  lemma NumbersAreLabels(s: State, swap: Swap, m: nat, n: nat)
    ensures Step(s, swap, m).(matches := []) == Step(s, swap, n).(matches := [])
  {
    if swap.Disposes() {
      NumbersDoNotMatter(s.lots, Head(s), Head(s), swap.amountOut, m, n, swap.time);
    }
  }

  /** Books that agree go on to agree, whatever the numbers of the entries. */
  lemma StepKeepsBooks(s: State, t: State, swap: Swap, m: nat, n: nat)
    requires SameBooks(s, t)
    ensures SameBooks(Step(s, swap, m), Step(t, swap, n))
  {
    if swap.Disposes() {
      NumbersDoNotMatter(s.lots, Head(s), Head(s), swap.amountOut, m, n, swap.time);
    }
  }

  /** The log with sell number `i` recorded as two. */
  function SplitAt(swaps: seq<Swap>, i: nat, a: real, b: real): seq<Swap>
    requires i < |swaps|
  {
    swaps[..i] + [swaps[i].(amountOut := a), swaps[i].(amountOut := b)] + swaps[i + 1..]
  }

  lemma {:induction false} RunPrefix(swaps: seq<Swap>, other: seq<Swap>, n: nat)
    requires n <= |swaps| && n <= |other| && forall k :: 0 <= k < n ==> swaps[k] == other[k]
    ensures Run(swaps, n) == Run(other, n)
  {
    if n > 0 {
      RunPrefix(swaps, other, n - 1);
    }
  }

  lemma {:induction false} OpenLots(swaps: seq<Swap>, n: nat)
    requires n <= |swaps| && NonNegative(swaps)
    ensures NonNegativeLots(Run(swaps, n).lots)
  {
    if n > 0 {
      OpenLots(swaps, n - 1);
      var s := Run(swaps, n - 1);
      if swaps[n - 1].Disposes() {
        LotsStayNonNegative(s.lots, Head(s), swaps[n - 1].amountOut, n - 1, swaps[n - 1].time);
      }
    }
  }

  lemma {:induction false} LotsStayNonNegative(lots: seq<Lot>, buy: nat, toSell: real, sell: nat, time: int)
    requires NonNegativeLots(lots)
    ensures NonNegativeLots(Consume(lots, buy, toSell, sell, time).lots)
    decreases |lots|
  {
    if lots != [] && toSell > 0.0 && lots[0].amount <= toSell {
      LotsStayNonNegative(lots[1..], buy + 1, toSell - lots[0].amount, sell, time);
    }
  }

  lemma SplitHere(swaps: seq<Swap>, i: nat, a: real, b: real)
    requires i < |swaps| && NonNegative(swaps) && swaps[i].Disposes()
    requires a >= 0.0 && b >= 0.0 && swaps[i].amountOut == a + b
    ensures |SplitAt(swaps, i, a, b)| == |swaps| + 1
    ensures SameBooks(Run(swaps, i + 1), Run(SplitAt(swaps, i, a, b), i + 2))
  {
    var split := SplitAt(swaps, i, a, b);
    OpenLots(swaps, i);
    RunPrefix(swaps, split, i);
    assert split[i] == swaps[i].(amountOut := a) && split[i + 1] == swaps[i].(amountOut := b);
    assert Run(split, i + 1) == Step(Run(swaps, i), swaps[i].(amountOut := a), i);
    SplitEntry(Run(swaps, i), swaps[i], a, b, i);
  }

  /** In a log, one sell may be recorded as two at the same time: from there on lots, sold and unmatched
      amounts and the exact holding time are the same, and the truncated one stays within a nanosecond. */
  lemma {:induction false} SplitInLog(swaps: seq<Swap>, i: nat, a: real, b: real, n: nat)
    requires i < n <= |swaps| && NonNegative(swaps) && swaps[i].Disposes()
    requires a >= 0.0 && b >= 0.0 && swaps[i].amountOut == a + b
    ensures |SplitAt(swaps, i, a, b)| == |swaps| + 1
    ensures SameBooks(Run(swaps, n), Run(SplitAt(swaps, i, a, b), n + 1))
    decreases n
  {
    if n == i + 1 {
      SplitHere(swaps, i, a, b);
    } else {
      SplitInLog(swaps, i, a, b, n - 1);
      var split := SplitAt(swaps, i, a, b);
      assert split[n] == swaps[n - 1];
      StepKeepsBooks(Run(swaps, n - 1), Run(split, n), swaps[n - 1], n - 1, n);
    }
  }
}
