/** When the order of entries with equal timestamps matters to `CalculateTokenPnL`
    (cmd/api/routes/pnl_utils.go:29-74).  Its sort is not stable, so the log it works on is some sorted
    rearrangement of the swaps. */
module Ties {
  import opened FifoLots
  import opened Folds
  import opened HeldArea
  import opened TokenProfit

  /** How many of the first `n` entries of a sorted log are not later than `tau`. */
  function UptoOf(log: seq<Swap>, n: nat, tau: int): nat
    requires n <= |log|
  {
    if n == 0 || log[n - 1].time <= tau then n else UptoOf(log, n - 1, tau)
  }

  function Upto(log: seq<Swap>, tau: int): nat { UptoOf(log, |log|, tau) }

  /** What the entries at time `t` acquire, what they ask to sell, and what is open before them. */
  function AcquiredAt(log: seq<Swap>, t: int): real {
    UptoBounds(log, |log|, t);
    UptoBounds(log, |log|, t - 1);
    BuyTokens(log, Upto(log, t)) - BuyTokens(log, Upto(log, t - 1))
  }

  function DisposedAt(log: seq<Swap>, t: int): real {
    UptoBounds(log, |log|, t);
    UptoBounds(log, |log|, t - 1);
    SellTokens(log, Upto(log, t)) - SellTokens(log, Upto(log, t - 1))
  }

  function OpenBefore(log: seq<Swap>, t: int): real {
    UptoBounds(log, |log|, t - 1);
    Open(Run(log, Upto(log, t - 1)).lots)
  }

  /** No time at which something is acquired asks to sell more than was open before it. */
  ghost predicate Untied(log: seq<Swap>) {
    forall t :: AcquiredAt(log, t) == 0.0 || DisposedAt(log, t) <= OpenBefore(log, t)
  }

  ghost predicate SortedAs(other: seq<Swap>, log: seq<Swap>) {
    Sorted(other) && multiset(other) == multiset(log)
  }

  /** Sold amount, exact holding time and open amount at the end. */
  predicate SameTotals(a: seq<Swap>, b: seq<Swap>) {
    var s, t := Run(a, |a|), Run(b, |b|);
    s.sold == t.sold && s.exact == t.exact && Open(s.lots) == Open(t.lots)
  }

  lemma {:induction false} UptoBounds(log: seq<Swap>, n: nat, tau: int)
    requires n <= |log|
    ensures UptoOf(log, n, tau) <= n
    ensures UptoOf(log, n, tau) > 0 ==> log[UptoOf(log, n, tau) - 1].time <= tau
    ensures forall i :: UptoOf(log, n, tau) <= i < n ==> log[i].time > tau
  {
    if n > 0 && log[n - 1].time > tau {
      UptoBounds(log, n - 1, tau);
    }
  }

  lemma UptoFacts(log: seq<Swap>, tau: int)
    requires Sorted(log)
    ensures Upto(log, tau) <= |log|
    ensures forall i :: 0 <= i < |log| ==> (i < Upto(log, tau) <==> log[i].time <= tau)
  {
    UptoBounds(log, |log|, tau);
  }

  lemma UptoGrows(log: seq<Swap>, t: int, u: int)
    requires Sorted(log) && t <= u
    ensures Upto(log, t) <= Upto(log, u) <= |log|
  {
    UptoFacts(log, t);
    UptoFacts(log, u);
    assert Upto(log, t) > 0 ==> log[Upto(log, t) - 1].time <= u;
  }

  // ---------- totals by time and by position ----------

  lemma {:induction false} BoughtByPosition(log: seq<Swap>, n: nat, tau: int)
    requires n <= |log| && Sorted(log)
    ensures Upto(log, tau) <= |log|
    ensures BoughtBy(log, n, tau) == BuyTokens(log, if n <= Upto(log, tau) then n else Upto(log, tau))
  {
    UptoFacts(log, tau);
    if n > 0 {
      BoughtByPosition(log, n - 1, tau);
    }
  }

  lemma {:induction false} SoldByPosition(log: seq<Swap>, n: nat, tau: int)
    requires n <= |log| && Sorted(log) && NonNegative(log)
    ensures Upto(log, tau) <= |log|
    ensures SoldBy(log, n, tau) == Cut(log, if n <= Upto(log, tau) then n else Upto(log, tau))
  {
    UptoFacts(log, tau);
    if n > 0 {
      SoldByPosition(log, n - 1, tau);
      SoldIsCut(log, n);
      SoldIsCut(log, n - 1);
    }
  }

  /** Over a stretch that acquires nothing, or asks for no more than is open, the order does not
      matter to what is sold. */
  lemma {:induction false} Stretch(log: seq<Swap>, k: nat, n: nat)
    requires k <= n <= |log| && NonNegative(log)
    requires Cut(log, k) <= BuyTokens(log, k)
    requires BuyTokens(log, n) == BuyTokens(log, k) ||
             SellTokens(log, n) - SellTokens(log, k) <= BuyTokens(log, k) - Cut(log, k)
    ensures Cut(log, n) == Cut(log, k) + Min(SellTokens(log, n) - SellTokens(log, k), BuyTokens(log, k) - Cut(log, k))
    decreases n
  {
    TokensGrow(log, k, n);
    if k < n {
      TokensGrow(log, k, n - 1);
      Stretch(log, k, n - 1);
    }
  }

  lemma {:induction false} TokensGrow(log: seq<Swap>, k: nat, n: nat)
    requires k <= n <= |log| && NonNegative(log)
    ensures BuyTokens(log, k) <= BuyTokens(log, n) && SellTokens(log, k) <= SellTokens(log, n)
    decreases n
  {
    if k < n {
      TokensGrow(log, k, n - 1);
    }
  }

  // ---------- rearranging ----------

  function BuyOf(tau: int): Swap -> real {
    (s: Swap) => if s.Acquires() then By(s.time, tau, s.amountIn) else 0.0
  }

  function SellOf(tau: int): Swap -> real {
    (s: Swap) => if s.Disposes() then By(s.time, tau, s.amountOut) else 0.0
  }

  lemma {:induction false} BuyFold(log: seq<Swap>, n: nat, tau: int)
    requires n <= |log| && Sorted(log)
    ensures Upto(log, tau) <= |log|
    ensures Fold(BuyOf(tau), log[..n]) == BuyTokens(log, if n <= Upto(log, tau) then n else Upto(log, tau))
    ensures Fold(SellOf(tau), log[..n]) == SellTokens(log, if n <= Upto(log, tau) then n else Upto(log, tau))
  {
    UptoFacts(log, tau);
    if n > 0 {
      BuyFold(log, n - 1, tau);
      assert log[..n] == log[..n - 1] + [log[n - 1]];
      FoldAppend(BuyOf(tau), log[..n - 1], [log[n - 1]]);
      FoldAppend(SellOf(tau), log[..n - 1], [log[n - 1]]);
      FoldOne(BuyOf(tau), log[n - 1]);
      FoldOne(SellOf(tau), log[n - 1]);
    }
  }

  /** Rearranging changes neither what is acquired nor what is asked for by any moment. */
  lemma TotalsPermute(a: seq<Swap>, b: seq<Swap>, tau: int)
    requires Sorted(a) && SortedAs(b, a)
    ensures Upto(a, tau) <= |a| && Upto(b, tau) <= |b|
    ensures BuyTokens(a, Upto(a, tau)) == BuyTokens(b, Upto(b, tau))
    ensures SellTokens(a, Upto(a, tau)) == SellTokens(b, Upto(b, tau))
  {
    assert a[..|a|] == a && b[..|b|] == b;
    BuyFold(a, |a|, tau);
    BuyFold(b, |b|, tau);
    FoldPermutes(BuyOf(tau), a, b);
    FoldPermutes(SellOf(tau), a, b);
    UptoFacts(a, tau);
    UptoFacts(b, tau);
  }

  // ---------- untied logs ----------

  lemma OpenIsBoughtLessCut(log: seq<Swap>, n: nat)
    requires n <= |log| && NonNegative(log)
    ensures Open(Run(log, n).lots) == BuyTokens(log, n) - Cut(log, n) >= 0.0
  {
    Conservation(log, n);
    SoldIsCut(log, n);
  }

  lemma UntiedAt(log: seq<Swap>, t: int)
    requires Sorted(log) && NonNegative(log) && Untied(log)
    ensures Upto(log, t - 1) <= Upto(log, t) <= |log|
    ensures var k, n := Upto(log, t - 1), Upto(log, t);
            BuyTokens(log, n) == BuyTokens(log, k) ||
            SellTokens(log, n) - SellTokens(log, k) <= BuyTokens(log, k) - Cut(log, k)
  {
    UptoGrows(log, t - 1, t);
    assert AcquiredAt(log, t) == 0.0 || DisposedAt(log, t) <= OpenBefore(log, t);
    OpenIsBoughtLessCut(log, Upto(log, t - 1));
  }

  /** In every rearrangement of an untied log the same amount is sold by every moment. */
  lemma {:induction false} SoldTheSame(a: seq<Swap>, b: seq<Swap>, lo: int, tau: int)
    requires Sorted(a) && NonNegative(a) && NonNegative(b) && SortedAs(b, a) && Untied(a)
    requires (forall i :: 0 <= i < |a| ==> lo <= a[i].time) && forall i :: 0 <= i < |b| ==> lo <= b[i].time
    ensures Upto(a, tau) <= |a| && Upto(b, tau) <= |b|
    ensures Cut(a, Upto(a, tau)) == Cut(b, Upto(b, tau))
    decreases tau - lo
  {
    UptoFacts(a, tau);
    UptoFacts(b, tau);
    if tau >= lo {
      SoldTheSame(a, b, lo, tau - 1);
      UntiedAt(a, tau);
      UptoGrows(b, tau - 1, tau);
      TotalsPermute(a, b, tau - 1);
      TotalsPermute(a, b, tau);
      OpenIsBoughtLessCut(a, Upto(a, tau - 1));
      Stretch(a, Upto(a, tau - 1), Upto(a, tau));
      Stretch(b, Upto(b, tau - 1), Upto(b, tau));
    }
  }

  lemma AllByTheEnd(log: seq<Swap>, lo: int, hi: int)
    requires Sorted(log) && Spans(log, lo, hi)
    ensures Upto(log, hi) == |log|
  {
    UptoFacts(log, hi);
  }

  /** The parts of the integrand of the holding time, by position. */
  lemma HeldByPosition(log: seq<Swap>, tau: int)
    requires Sorted(log) && NonNegative(log)
    ensures Upto(log, tau) <= |log|
    ensures BoughtBy(log, |log|, tau) == BuyTokens(log, Upto(log, tau))
    ensures SoldBy(log, |log|, tau) == Cut(log, Upto(log, tau))
    ensures Run(log, |log|).sold == Cut(log, |log|)
  {
    BoughtByPosition(log, |log|, tau);
    SoldByPosition(log, |log|, tau);
    SoldIsCut(log, |log|);
  }

  lemma UntiedIsStable(a: seq<Swap>, b: seq<Swap>, lo: int, hi: int)
    requires Sorted(a) && NonNegative(a) && NonNegative(b) && SortedAs(b, a) && Untied(a)
    requires Spans(a, lo, hi) && Spans(b, lo, hi)
    ensures SameTotals(a, b)
  {
    AllByTheEnd(a, lo, hi);
    AllByTheEnd(b, lo, hi);
    SoldTheSame(a, b, lo, hi);
    TotalsPermute(a, b, hi);
    forall tau | lo <= tau < hi ensures HeldAt(a)(tau) == HeldAt(b)(tau) {
      SoldTheSame(a, b, lo, tau);
      TotalsPermute(a, b, tau);
      HeldByPosition(a, tau);
      HeldByPosition(b, tau);
    }
    HeldIsArea(a, lo, hi);
    HeldIsArea(b, lo, hi);
    SumSame(HeldAt(a), HeldAt(b), lo, hi);
    SoldIsCut(a, |a|);
    SoldIsCut(b, |b|);
    OpenIsBoughtLessCut(a, |a|);
    OpenIsBoughtLessCut(b, |b|);
  }

  // ---------- tied logs ----------

  function Acquiring(log: seq<Swap>): (r: seq<Swap>)
    ensures forall i :: 0 <= i < |r| ==> r[i].Acquires()
  {
    if log == [] then [] else
    if log[0].Acquires() then [log[0]] + Acquiring(log[1..]) else Acquiring(log[1..])
  }

  function Others(log: seq<Swap>): (r: seq<Swap>)
    ensures forall i :: 0 <= i < |r| ==> !r[i].Acquires()
  {
    if log == [] then [] else
    if log[0].Acquires() then Others(log[1..]) else [log[0]] + Others(log[1..])
  }

  lemma {:induction false} PartsAreAll(log: seq<Swap>)
    ensures multiset(Acquiring(log)) + multiset(Others(log)) == multiset(log)
    decreases |log|
  {
    if log != [] {
      PartsAreAll(log[1..]);
      assert log == [log[0]] + log[1..];
    }
  }

  /** The log with the entries from `k` to `n` replaced. */
  function Replace(log: seq<Swap>, k: nat, n: nat, x: seq<Swap>, y: seq<Swap>): seq<Swap>
    requires k <= n <= |log|
  {
    log[..k] + (x + y) + log[n..]
  }

  lemma ReplacedBag(log: seq<Swap>, k: nat, n: nat, x: seq<Swap>, y: seq<Swap>)
    requires k <= n <= |log| && multiset(x) + multiset(y) == multiset(log[k..n])
    ensures multiset(Replace(log, k, n, x, y)) == multiset(log)
    ensures |x| + |y| == n - k
  {
    assert |multiset(x) + multiset(y)| == |multiset(log[k..n])|;
    assert log == log[..k] + log[k..n] + log[n..];
  }

  /** Replacing a group of entries of one time by a rearrangement of it keeps all times in place. */
  lemma ReplacedTimes(log: seq<Swap>, k: nat, n: nat, x: seq<Swap>, y: seq<Swap>, t: int)
    requires k <= n <= |log| && multiset(x) + multiset(y) == multiset(log[k..n])
    requires forall i :: k <= i < n ==> log[i].time == t
    ensures |Replace(log, k, n, x, y)| == |log| && |x| + |y| == n - k
    ensures forall i :: 0 <= i < |log| ==> Replace(log, k, n, x, y)[i].time == log[i].time
  {
    ReplacedBag(log, k, n, x, y);
    forall s | s in x || s in y ensures s.time == t {
      assert s in multiset(x) + multiset(y);
      assert s in log[k..n];
    }
    var g := Replace(log, k, n, x, y);
    forall i | 0 <= i < |log| ensures g[i].time == log[i].time {
      if k <= i < n {
        assert g[i] == (x + y)[i - k];
        assert (x + y)[i - k] in x || (x + y)[i - k] in y;
      }
    }
  }

  lemma {:induction false} SameUpto(a: seq<Swap>, b: seq<Swap>, n: nat, tau: int)
    requires |a| == |b| && n <= |a| && forall i :: 0 <= i < |a| ==> a[i].time == b[i].time
    ensures UptoOf(a, n, tau) == UptoOf(b, n, tau)
  {
    if n > 0 {
      SameUpto(a, b, n - 1, tau);
    }
  }

  lemma {:induction false} SamePrefix(a: seq<Swap>, b: seq<Swap>, k: nat)
    requires k <= |a| && k <= |b| && forall i :: 0 <= i < k ==> a[i] == b[i]
    ensures BuyTokens(a, k) == BuyTokens(b, k) && SellTokens(a, k) == SellTokens(b, k) && Cut(a, k) == Cut(b, k)
  {
    if k > 0 {
      SamePrefix(a, b, k - 1);
    }
  }

  lemma {:induction false} OnlyPurchases(log: seq<Swap>, k: nat, n: nat)
    requires k <= n <= |log| && forall i :: k <= i < n ==> log[i].Acquires()
    ensures SellTokens(log, n) == SellTokens(log, k) && Cut(log, n) == Cut(log, k)
    decreases n
  {
    if k < n {
      OnlyPurchases(log, k, n - 1);
    }
  }

  lemma {:induction false} NoPurchases(log: seq<Swap>, k: nat, n: nat)
    requires k <= n <= |log| && forall i :: k <= i < n ==> !log[i].Acquires()
    ensures BuyTokens(log, n) == BuyTokens(log, k)
    decreases n
  {
    if k < n {
      NoPurchases(log, k, n - 1);
    }
  }

  /** Purchases first: the sales find everything. */
  lemma PurchasesFirst(g: seq<Swap>, k: nat, m: nat, n: nat)
    requires k <= m <= n <= |g| && NonNegative(g)
    requires (forall i :: k <= i < m ==> g[i].Acquires()) && forall i :: m <= i < n ==> !g[i].Acquires()
    ensures Cut(g, n) == Cut(g, k) + Min(SellTokens(g, n) - SellTokens(g, k), BuyTokens(g, n) - Cut(g, k))
  {
    OnlyPurchases(g, k, m);
    NoPurchases(g, m, n);
    OpenIsBoughtLessCut(g, m);
    Stretch(g, m, n);
  }

  /** Purchases last: the sales find only what was open before. */
  lemma PurchasesLast(g: seq<Swap>, k: nat, m: nat, n: nat)
    requires k <= m <= n <= |g| && NonNegative(g)
    requires (forall i :: k <= i < m ==> !g[i].Acquires()) && forall i :: m <= i < n ==> g[i].Acquires()
    ensures Cut(g, n) == Cut(g, k) + Min(SellTokens(g, n) - SellTokens(g, k), BuyTokens(g, k) - Cut(g, k))
  {
    NoPurchases(g, k, m);
    OpenIsBoughtLessCut(g, k);
    Stretch(g, k, m);
    OnlyPurchases(g, m, n);
  }

  /** What one order has sold more, later sales make up for at most. */
  lemma {:induction false} NeverOvertaken(a: seq<Swap>, b: seq<Swap>, n: nat, i: nat)
    requires |a| == |b| && n <= i <= |a| && forall j :: n <= j < |a| ==> a[j] == b[j]
    requires BuyTokens(a, n) == BuyTokens(b, n) && Cut(a, n) >= Cut(b, n)
    ensures BuyTokens(a, i) == BuyTokens(b, i) && Cut(a, i) >= Cut(b, i)
    decreases i
  {
    if n < i {
      NeverOvertaken(a, b, n, i - 1);
    }
  }

  /** `g` is the log with the group at time `t` rearranged. */
  ghost predicate GroupRearranged(g: seq<Swap>, log: seq<Swap>, t: int) {
    && |g| == |log| && SortedAs(g, log) && NonNegative(g) && (forall tau :: Upto(g, tau) == Upto(log, tau))
    && forall i :: 0 <= i < |log| && (i < Upto(log, t - 1) || Upto(log, t) <= i) ==> g[i] == log[i]
  }

  predicate SameAt(a: seq<Swap>, b: seq<Swap>, i: nat) {
    i <= |a| && i <= |b| && BuyTokens(a, i) == BuyTokens(b, i) && SellTokens(a, i) == SellTokens(b, i)
  }

  /** Everything that a rearrangement of the group at time `t` leaves as it was. */
  lemma Rearranged(log: seq<Swap>, t: int, x: seq<Swap>, y: seq<Swap>)
    requires Sorted(log) && NonNegative(log) && Upto(log, t - 1) <= Upto(log, t) <= |log|
    requires multiset(x) + multiset(y) == multiset(log[Upto(log, t - 1)..Upto(log, t)])
    ensures var k, n := Upto(log, t - 1), Upto(log, t);
            var g := Replace(log, k, n, x, y);
            && GroupRearranged(g, log, t) && |x| + |y| == n - k
            && SameAt(g, log, k) && Cut(g, k) == Cut(log, k) && SameAt(g, log, n)
  {
    var k, n := Upto(log, t - 1), Upto(log, t);
    UptoFacts(log, t - 1);
    UptoFacts(log, t);
    var g := Replace(log, k, n, x, y);
    assert |x| + |y| == n - k && GroupRearranged(g, log, t) by { IsRearranged(log, t, x, y); }
    SamePrefix(g, log, k);
    TotalsPermute(log, g, t);
  }

  lemma IsRearranged(log: seq<Swap>, t: int, x: seq<Swap>, y: seq<Swap>)
    requires Sorted(log) && NonNegative(log) && Upto(log, t - 1) <= Upto(log, t) <= |log|
    requires multiset(x) + multiset(y) == multiset(log[Upto(log, t - 1)..Upto(log, t)])
    ensures var k, n := Upto(log, t - 1), Upto(log, t);
            |x| + |y| == n - k && GroupRearranged(Replace(log, k, n, x, y), log, t)
  {
    var k, n := Upto(log, t - 1), Upto(log, t);
    UptoFacts(log, t - 1);
    UptoFacts(log, t);
    var g := Replace(log, k, n, x, y);
    ReplacedBag(log, k, n, x, y);
    ReplacedTimes(log, k, n, x, y, t);
    PermutationIsNonNegative(log, g);
    forall tau ensures Upto(g, tau) == Upto(log, tau) {
      SameUpto(g, log, |log|, tau);
    }
  }

  /** In the rearranged group, which entries acquire. */
  lemma Placed(log: seq<Swap>, k: nat, n: nat, x: seq<Swap>, y: seq<Swap>, first: bool)
    requires k <= n <= |log| && |x| + |y| == n - k
    requires forall i :: 0 <= i < |x| ==> x[i].Acquires() == first
    requires forall i :: 0 <= i < |y| ==> y[i].Acquires() != first
    ensures var g := Replace(log, k, n, x, y);
            && |g| == |log|
            && (forall i :: k <= i < k + |x| ==> g[i].Acquires() == first)
            && (forall i :: k + |x| <= i < n ==> g[i].Acquires() != first)
  {
    var g := Replace(log, k, n, x, y);
    forall i | k <= i < n ensures g[i] == (x + y)[i - k] {
    }
  }

  /** The group at time `t` with its purchases first or last. */
  function Order(log: seq<Swap>, t: int, first: bool): seq<Swap>
    requires Upto(log, t - 1) <= Upto(log, t) <= |log|
  {
    var group := log[Upto(log, t - 1)..Upto(log, t)];
    if first then Replace(log, Upto(log, t - 1), Upto(log, t), Acquiring(group), Others(group))
    else Replace(log, Upto(log, t - 1), Upto(log, t), Others(group), Acquiring(group))
  }

  /** Such an order is a rearrangement in which the kinds of entries are apart. */
  lemma Ordered(log: seq<Swap>, t: int, first: bool) returns (m: nat)
    requires Sorted(log) && NonNegative(log) && Upto(log, t - 1) <= Upto(log, t) <= |log|
    ensures var g, k, n := Order(log, t, first), Upto(log, t - 1), Upto(log, t);
            && GroupRearranged(g, log, t) && SameAt(g, log, k) && Cut(g, k) == Cut(log, k) && SameAt(g, log, n)
            && k <= m <= n
            && (forall i :: k <= i < m ==> g[i].Acquires() == first)
            && (forall i :: m <= i < n ==> g[i].Acquires() != first)
  {
    var k, n := Upto(log, t - 1), Upto(log, t);
    var x, y := Acquiring(log[k..n]), Others(log[k..n]);
    PartsAreAll(log[k..n]);
    if first {
      Rearranged(log, t, x, y);
      Placed(log, k, n, x, y, true);
      m := k + |x|;
    } else {
      Rearranged(log, t, y, x);
      Placed(log, k, n, y, x, false);
      m := k + |y|;
    }
  }

  /** What is sold by the end of the entries from `k` to `n` when their purchases come first or last. */
  function SoldAfter(log: seq<Swap>, k: nat, n: nat, first: bool): real
    requires k <= n <= |log|
  {
    var found := if first then BuyTokens(log, n) else BuyTokens(log, k);
    Cut(log, k) + Min(SellTokens(log, n) - SellTokens(log, k), found - Cut(log, k))
  }

  lemma GroupSells(g: seq<Swap>, log: seq<Swap>, k: nat, m: nat, n: nat, first: bool)
    requires k <= m <= n <= |log| == |g| && NonNegative(g)
    requires SameAt(g, log, k) && Cut(g, k) == Cut(log, k) && SameAt(g, log, n)
    requires forall i :: k <= i < m ==> g[i].Acquires() == first
    requires forall i :: m <= i < n ==> g[i].Acquires() != first
    ensures Cut(g, n) == SoldAfter(log, k, n, first)
  {
    if first {
      PurchasesFirst(g, k, m, n);
    } else {
      PurchasesLast(g, k, m, n);
    }
  }

  lemma OrderSells(log: seq<Swap>, t: int, first: bool) returns (g: seq<Swap>)
    requires Sorted(log) && NonNegative(log) && Upto(log, t - 1) <= Upto(log, t) <= |log|
    ensures GroupRearranged(g, log, t)
    ensures Cut(g, Upto(log, t)) == SoldAfter(log, Upto(log, t - 1), Upto(log, t), first)
  {
    g := Order(log, t, first);
    var m := Ordered(log, t, first);
    GroupSells(g, log, Upto(log, t - 1), m, Upto(log, t), first);
  }

  lemma FirstSellsMore(log: seq<Swap>, k: nat, n: nat)
    requires k <= n <= |log| && NonNegative(log) && BuyTokens(log, n) != BuyTokens(log, k)
    requires SellTokens(log, n) - SellTokens(log, k) > BuyTokens(log, k) - Cut(log, k)
    ensures SoldAfter(log, k, n, true) > SoldAfter(log, k, n, false)
  {
    TokensGrow(log, k, n);
  }

  /** At a tie that matters, the two extreme orders sell different amounts by then. */
  lemma TwoOrders(log: seq<Swap>, t: int) returns (a: seq<Swap>, b: seq<Swap>)
    requires Sorted(log) && NonNegative(log)
    requires !(AcquiredAt(log, t) == 0.0 || DisposedAt(log, t) <= OpenBefore(log, t))
    ensures GroupRearranged(a, log, t) && GroupRearranged(b, log, t)
    ensures Upto(log, t - 1) < Upto(log, t) <= |log|
    ensures Cut(a, Upto(log, t)) > Cut(b, Upto(log, t))
  {
    UptoGrows(log, t - 1, t);
    OpenIsBoughtLessCut(log, Upto(log, t - 1));
    FirstSellsMore(log, Upto(log, t - 1), Upto(log, t));
    a := OrderSells(log, t, true);
    b := OrderSells(log, t, false);
  }

  /** Two orders that sell different amounts by some moment differ in the end: in the amount sold, or,
      when later sales make up for it, in the holding time. */
  lemma OrdersDiffer(a: seq<Swap>, b: seq<Swap>, t: int, lo: int, hi: int)
    requires |a| == |b| && Sorted(a) && NonNegative(a) && NonNegative(b) && SortedAs(b, a)
    requires Spans(a, lo, hi) && Spans(b, lo, hi) && lo <= t
    requires forall tau :: Upto(a, tau) == Upto(b, tau)
    requires Upto(a, t - 1) <= Upto(a, t) <= |a|
    requires forall i :: 0 <= i < Upto(a, t - 1) || Upto(a, t) <= i < |a| ==> a[i] == b[i]
    requires Cut(a, Upto(a, t)) > Cut(b, Upto(a, t))
    ensures !SameTotals(a, b)
  {
    if SameTotals(a, b) {
      SoldIsCut(a, |a|);
      SoldIsCut(b, |b|);
      AllByTheEnd(a, lo, hi);
      TotalsPermute(a, b, t);
      forall tau
        ensures HeldAt(a)(tau) <= HeldAt(b)(tau)
        ensures tau == t ==> HeldAt(a)(tau) < HeldAt(b)(tau)
      {
        SoldMore(a, b, t, tau);
        TotalsPermute(a, b, tau);
        HeldByPosition(a, tau);
        HeldByPosition(b, tau);
      }
      SumLess(HeldAt(a), HeldAt(b), lo, hi, t);
      HeldIsArea(a, lo, hi);
      HeldIsArea(b, lo, hi);
      if t >= hi {
        UptoFacts(a, t);
      }
    }
  }

  lemma SoldMore(a: seq<Swap>, b: seq<Swap>, t: int, tau: int)
    requires |a| == |b| && Sorted(a) && SortedAs(b, a)
    requires forall u :: Upto(a, u) == Upto(b, u)
    requires Upto(a, t - 1) <= Upto(a, t) <= |a|
    requires forall i :: 0 <= i < Upto(a, t - 1) || Upto(a, t) <= i < |a| ==> a[i] == b[i]
    requires Cut(a, Upto(a, t)) > Cut(b, Upto(a, t))
    ensures Upto(a, tau) <= |a|
    ensures Cut(a, Upto(a, tau)) >= Cut(b, Upto(a, tau))
    ensures tau == t ==> Cut(a, Upto(a, tau)) > Cut(b, Upto(a, tau))
  {
    UptoFacts(a, tau);
    if tau < t {
      UptoGrows(a, tau, t - 1);
      SamePrefix(a, b, Upto(a, tau));
    } else {
      UptoGrows(a, t, tau);
      TotalsPermute(a, b, t);
      NeverOvertaken(a, b, Upto(a, t), Upto(a, tau));
    }
  }

  /** Every sorted rearrangement of a log gives the same sold amount, exact holding time and open
      amount if and only if the log is untied: at every time, nothing is acquired or no more is asked
      for than was open before.  Otherwise what the calculation yields depends on the sort. */
  lemma TiesMatterExactly(log: seq<Swap>)
    requires Sorted(log) && NonNegative(log)
    ensures Untied(log) <==> forall other :: SortedAs(other, log) ==> SameTotals(log, other)
  {
    var lo, hi := if log == [] then 0 else log[0].time, if log == [] then 0 else log[|log| - 1].time;
    if Untied(log) {
      forall other | SortedAs(other, log) ensures SameTotals(log, other) {
        SpansPermute(log, other, lo, hi);
        PermutationIsNonNegative(log, other);
        UntiedIsStable(log, other, lo, hi);
      }
    } else {
      var t :| !(AcquiredAt(log, t) == 0.0 || DisposedAt(log, t) <= OpenBefore(log, t));
      var other := TieShows(log, t, lo, hi);
    }
  }

  /** The truncated holding time, which is what the code returns, may still differ from sort to sort of an
      untied log, but by no more than a nanosecond per match. */
  lemma {:induction false} TruncatedTimeIsClose(log: seq<Swap>, other: seq<Swap>)
    requires Sorted(log) && NonNegative(log) && Untied(log) && SortedAs(other, log)
    ensures var s, t := Run(log, |log|), Run(other, |other|);
            -|s.matches| <= s.held - t.held <= |t.matches|
  {
    TiesMatterExactly(log);
    PermutationIsNonNegative(log, other);
    HeldTimeIsNonNegative(log);
    HeldTimeIsNonNegative(other);
    assert SameTotals(log, other);
  }

  lemma TieShows(log: seq<Swap>, t: int, lo: int, hi: int) returns (other: seq<Swap>)
    requires Sorted(log) && NonNegative(log) && Spans(log, lo, hi)
    requires !(AcquiredAt(log, t) == 0.0 || DisposedAt(log, t) <= OpenBefore(log, t))
    ensures SortedAs(other, log) && !SameTotals(log, other)
  {
    var a, b := TwoOrders(log, t);
    UptoFacts(log, t - 1);
    UptoFacts(log, t);
    assert log[Upto(log, t - 1)].time == t;
    SpansPermute(log, a, lo, hi);
    SpansPermute(log, b, lo, hi);
    OrdersDiffer(a, b, t, lo, hi);
    other := if SameTotals(log, a) then b else a;
  }

  lemma SpansPermute(log: seq<Swap>, other: seq<Swap>, lo: int, hi: int)
    requires Spans(log, lo, hi) && multiset(other) == multiset(log)
    ensures Spans(other, lo, hi)
  {
    forall i | 0 <= i < |other| ensures lo <= other[i].time <= hi {
      assert other[i] in multiset(log);
      var j :| 0 <= j < |log| && log[j] == other[i];
    }
  }
}
