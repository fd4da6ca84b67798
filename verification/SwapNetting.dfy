/** The second and third pass of `HandleSwaps` in internal/solana/swapHandler.go: swaps become
    records, the balance sheet nets them per wallet and token, and the net decides what is kept. */
module SwapNetting {
  import opened Domain
  import opened Validation
  import opened PumpFunEvent
  import opened DexSwaps
  import opened SwapScan

  predicate IgnoredToken(token: Address) {
    token.JitoSol? || token.MSol? || token.Jlp?
  }

  predicate IgnoredUser(user: Address) {
    user.PumpFunFee? || user.FeeUser?
  }

  /** Signature, time and block of the transaction. */
  datatype Context = Context(id: string, time: int, block: nat)

  /** What a swap is called and which of its tokens it is filed under.  A swap between two tokens
      that are not quote tokens is filed under the empty token, unless one side is zero. */
  function ActionOf(tokenOut: Address, tokenIn: Address, amountOut: real, amountIn: real): (SwapAction, Address) {
    if IsQuote(tokenOut) then (BuyAction, tokenIn)
    else if IsQuote(tokenIn) then (SellAction, tokenOut)
    else if amountIn == 0.0 then (TransferAction, tokenOut)
    else if amountOut == 0.0 then (ReceiveAction, tokenIn)
    else (UnknownAction, NoAddress)
  }

  /** The record of a swap, unless it is skipped. */
  function RecordOf(s: Swap, c: Context): Option<SwapLog> {
    if s.wallet == NoAddress || (s.tokenIn == NoAddress && s.tokenOut == NoAddress) then None
    else if s.amountOut.None? || s.amountIn.None? then None
    else if IgnoredToken(s.tokenOut) || IgnoredToken(s.tokenIn) then None
    else
      var (action, token) := ActionOf(s.tokenOut, s.tokenIn, s.amountOut.value, s.amountIn.value);
      Some(SwapLog(c.id, s.wallet, s.source, c.block, c.time, s.amountOut.value, s.amountIn.value, action,
                   s.pair, token))
  }

  /** A swap is recorded iff it names a wallet and a token, both amounts parse and neither token is
      ignored. */
  lemma RecordExists(s: Swap, c: Context)
    ensures RecordOf(s, c).Some? <==>
            && s.wallet != NoAddress && (s.tokenOut != NoAddress || s.tokenIn != NoAddress)
            && s.amountOut.Some? && s.amountIn.Some?
            && s.tokenOut !in {JitoSol, MSol, Jlp} && s.tokenIn !in {JitoSol, MSol, Jlp}
  {
  }

  /** A record is a purchase iff a quote token was paid, a sale iff only a quote token came in, and
      else a transfer or a receipt iff an amount is zero; it is filed under the token on its other side,
      and under the empty token if it is none of these. */
  lemma FiledUnder(s: Swap, c: Context)
    requires RecordOf(s, c).Some?
    ensures var r, quotes := RecordOf(s, c).value, {Sol, Usdt, Usdc};
            && (r.action.BuyAction? <==> s.tokenOut in quotes)
            && (r.action.SellAction? <==> s.tokenIn in quotes && s.tokenOut !in quotes)
            && (r.action.TransferAction? || r.action.ReceiveAction? <==>
                  && s.tokenIn !in quotes && s.tokenOut !in quotes
                  && (s.amountIn == Some(0.0) || s.amountOut == Some(0.0)))
            && (r.action.BuyAction? ==> r.token == s.tokenIn)
            && (r.action.SellAction? ==> r.token == s.tokenOut)
            && (r.action.ReceiveAction? ==> r.token == s.tokenIn && r.amountOut == 0.0 && r.amountIn != 0.0)
            && (r.action.TransferAction? ==> r.token == s.tokenOut && r.amountIn == 0.0)
            && (r.action.UnknownAction? ==> r.token == NoAddress)
            && r.wallet == s.wallet != NoAddress && r.pair == s.pair && r.source == s.source
            && Some(r.amountIn) == s.amountIn && Some(r.amountOut) == s.amountOut
            && r.id == c.id && r.time == c.time && r.block == c.block
  {
  }

  function Built(swaps: seq<Swap>, c: Context): seq<SwapLog> {
    if swaps == [] then [] else
    var last := |swaps| - 1;
    var init, r := Built(swaps[..last], c), RecordOf(swaps[last], c);
    if r.Some? then init + [r.value] else init
  }

  /** What came in minus what went out. */
  function Gain(r: SwapLog): real {
    r.amountIn - r.amountOut
  }

  /** The net of a wallet in a token. */
  function Net(records: seq<SwapLog>, wallet: Address, token: Address): real {
    if records == [] then 0.0 else
    var r := records[|records| - 1];
    Net(records[..|records| - 1], wallet, token) + if r.wallet == wallet && r.token == token then Gain(r) else 0.0
  }

  /** The net of a token over all wallets. */
  function Total(records: seq<SwapLog>, token: Address): real {
    if records == [] then 0.0 else
    var r := records[|records| - 1];
    Total(records[..|records| - 1], token) + if r.token == token then Gain(r) else 0.0
  }

  type Sheet = map<Address, map<Address, real>>

  function Entry(sheet: Sheet, wallet: Address, token: Address): real {
    if wallet in sheet && token in sheet[wallet] then sheet[wallet][token] else 0.0
  }

  /** Adding to a balance; a wallet not seen before gets a new inner map. */
  function Credit(sheet: Sheet, wallet: Address, token: Address, amount: real): (next: Sheet)
    ensures forall w, t :: Entry(next, w, t) == Entry(sheet, w, t) + if w == wallet && t == token then amount else 0.0
  {
    if wallet !in sheet then sheet[wallet := map[token := amount]]
    else sheet[wallet := sheet[wallet][token := Entry(sheet, wallet, token) + amount]]
  }

  /** The records whose wallet has a nonzero net in their token. */
  function Kept(records: seq<SwapLog>, among: seq<SwapLog>): seq<SwapLog> {
    if records == [] then [] else
    var r := records[|records| - 1];
    var init := Kept(records[..|records| - 1], among);
    if Net(among, r.wallet, r.token) != 0.0 then init + [r] else init
  }

  function WithoutIgnored(records: seq<SwapLog>): seq<SwapLog> {
    if records == [] then [] else
    var r := records[|records| - 1];
    var init := WithoutIgnored(records[..|records| - 1]);
    if IgnoredUser(r.wallet) then init else init + [r]
  }

  /** The sheet holds exactly the nets of the records. */
  ghost predicate Nets(sheet: Sheet, records: seq<SwapLog>) {
    forall w, t :: Entry(sheet, w, t) == Net(records, w, t)
  }

  /** The record takes the transaction's first signature, unless there is none. */
  function FirstOf(signatures: seq<string>): string {
    if signatures == [] then "" else signatures[0]
  }

  /** Building the records and the sheet in one pass.  The first record of a transaction without
      signatures is a panic. */
  method Build(swaps: seq<Swap>, signatures: seq<string>, time: int, block: nat)
    returns (ok: bool, built: seq<SwapLog>, sheet: Sheet)
    ensures var c := Context(FirstOf(signatures), time, block);
            && (ok <==> signatures != [] || Built(swaps, c) == [])
            && (ok ==> built == Built(swaps, c) && Nets(sheet, built))
  {
    ghost var c := Context(FirstOf(signatures), time, block);
    ok, built, sheet := true, [], map[];
    var i := 0;
    while i < |swaps|
      invariant 0 <= i <= |swaps|
      invariant built == Built(swaps[..i], c) && Nets(sheet, built)
      invariant signatures != [] || built == []
    {
      var record := BuildOne(swaps[i], FirstOf(signatures), time, block);
      assert swaps[..i + 1][..i] == swaps[..i];
      if record.Some? {
        if signatures == [] {
          BuiltGrows(swaps, i + 1, c);
          return false, [], map[];
        }
        var r := record.value;
        NetsSnoc(sheet, built, r);
        sheet := Credit(sheet, r.wallet, r.token, r.amountIn - r.amountOut);
        built := built + [r];
      }
      i := i + 1;
    }
    assert swaps[..|swaps|] == swaps;
  }

  lemma {:induction false} BuiltGrows(swaps: seq<Swap>, n: nat, c: Context)
    requires n <= |swaps|
    ensures |Built(swaps[..n], c)| <= |Built(swaps, c)|
    decreases |swaps|
  {
    if n < |swaps| {
      BuiltGrows(swaps[..|swaps| - 1], n, c);
      assert swaps[..|swaps| - 1][..n] == swaps[..n];
    } else {
      assert swaps[..n] == swaps;
    }
  }

  lemma NetsSnoc(sheet: Sheet, records: seq<SwapLog>, r: SwapLog)
    requires Nets(sheet, records)
    ensures Nets(Credit(sheet, r.wallet, r.token, Gain(r)), records + [r])
  {
    assert (records + [r])[..|records|] == records;
  }

  /** The body of the second pass, branch by branch.  The original checks once more whether the token
      of an unclassified swap is a quote token; it cannot be, or the swap would be classified. */
  method BuildOne(swap: Swap, id: string, time: int, block: nat) returns (record: Option<SwapLog>)
    ensures record == RecordOf(swap, Context(id, time, block))
  {
    if swap.wallet == NoAddress || (swap.tokenIn == NoAddress && swap.tokenOut == NoAddress) {
      return None;
    }
    if swap.amountOut.None? {
      return None;
    }
    if swap.amountIn.None? {
      return None;
    }
    if IgnoredToken(swap.tokenOut) || IgnoredToken(swap.tokenIn) {
      return None;
    }
    var amountOut, amountIn := swap.amountOut.value, swap.amountIn.value;
    var token, action := NoAddress, UnknownAction;
    if IsQuote(swap.tokenOut) {
      token, action := swap.tokenIn, BuyAction;
    } else if IsQuote(swap.tokenIn) {
      token, action := swap.tokenOut, SellAction;
    }
    if action == UnknownAction {
      if amountOut == 0.0 {
        token, action := swap.tokenIn, ReceiveAction;
      }
      if amountIn == 0.0 {
        token, action := swap.tokenOut, TransferAction;
      }
    }
    record := Some(SwapLog(id, swap.wallet, swap.source, block, time, amountOut, amountIn, action, swap.pair, token));
  }

  /** All three passes; nothing comes out of a panic. */
  method HandleSwaps(transfers: seq<Transfer>, keys: seq<Address>, codec: Codec, signatures: seq<string>,
                     time: int, block: nat)
    returns (finalSwaps: Option<seq<SwapLog>>)
    requires AllReadable(transfers, keys)
    ensures var c := Context(FirstOf(signatures), time, block);
            && (finalSwaps.None? <==> signatures == [] && Records(transfers, keys, codec, c) != [])
            && (finalSwaps.Some? ==> finalSwaps.value == Final(transfers, keys, codec, c))
    ensures finalSwaps.Some? ==> forall r <- finalSwaps.value ::
              signatures != [] && r.id == signatures[0] && r.time == time && r.block == block
  {
    ghost var c := Context(FirstOf(signatures), time, block);
    forall r | r in Final(transfers, keys, codec, c)
      ensures r.id == c.id && r.time == time && r.block == block && Records(transfers, keys, codec, c) != []
    {
      SurvivorContext(transfers, keys, codec, c, r);
    }
    if !ValidTx(keys) {
      return Some([]);
    }
    var swaps := Scan(transfers, keys, codec);
    var ok, built, sheet := Build(swaps, signatures, time, block);
    if !ok {
      return None;
    }
    var kept := Filter(built, sheet);
    finalSwaps := Some(kept);
  }

  /** The third pass. */
  method Filter(built: seq<SwapLog>, sheet: Sheet) returns (finalSwaps: seq<SwapLog>)
    requires Nets(sheet, built)
    ensures finalSwaps == WithoutIgnored(Kept(built, built))
  {
    finalSwaps := [];
    var i := 0;
    while i < |built|
      invariant 0 <= i <= |built|
      invariant finalSwaps == WithoutIgnored(Kept(built[..i], built))
    {
      var r := built[i];
      FilterSnoc(built[..i], r, built);
      assert built[..i + 1] == built[..i] + [r];
      if Entry(sheet, r.wallet, r.token) != 0.0 {
        if !IgnoredUser(r.wallet) {
          finalSwaps := finalSwaps + [r];
        }
      }
      i := i + 1;
    }
    assert built[..|built|] == built;
  }

  function Final(transfers: seq<Transfer>, keys: seq<Address>, codec: Codec, c: Context): seq<SwapLog>
    requires AllReadable(transfers, keys)
  {
    var built := Records(transfers, keys, codec, c);
    WithoutIgnored(Kept(built, built))
  }

  /** The records of the second pass, of a transaction that is looked at. */
  function Records(transfers: seq<Transfer>, keys: seq<Address>, codec: Codec, c: Context): seq<SwapLog>
    requires AllReadable(transfers, keys)
  {
    if ValidTx(keys) then Built(Scanned(transfers, keys, codec), c) else []
  }

  lemma FilterSnoc(init: seq<SwapLog>, r: SwapLog, built: seq<SwapLog>)
    ensures var before := WithoutIgnored(Kept(init, built));
            WithoutIgnored(Kept(init + [r], built)) ==
            if Net(built, r.wallet, r.token) != 0.0 && !IgnoredUser(r.wallet) then before + [r] else before
  {
    KeptSnoc(init, r, built);
    IgnoredSnoc(Kept(init, built), r);
  }

  lemma KeptSnoc(records: seq<SwapLog>, r: SwapLog, among: seq<SwapLog>)
    ensures var before := Kept(records, among);
            Kept(records + [r], among) == if Net(among, r.wallet, r.token) != 0.0 then before + [r] else before
  {
    assert (records + [r])[..|records|] == records;
  }

  lemma IgnoredSnoc(records: seq<SwapLog>, r: SwapLog)
    ensures var before := WithoutIgnored(records);
            WithoutIgnored(records + [r]) == if IgnoredUser(r.wallet) then before else before + [r]
  {
    assert (records + [r])[..|records|] == records;
  }

  // ---------- netting conserves ----------

  /** The records of a wallet in a token are kept or dropped all together, each as often as it was built. */
  lemma KeptTogether(built: seq<SwapLog>, r: SwapLog, q: SwapLog)
    requires r in built && q in built && r.wallet == q.wallet && r.token == q.token
    ensures r in Kept(built, built) <==> q in Kept(built, built)
    ensures multiset(Kept(built, built))[r] == if r in Kept(built, built) then multiset(built)[r] else 0
  {
    KeptMembers(built, built, r);
    KeptMembers(built, built, q);
    KeptCounts(built, built, r);
  }

  lemma {:induction false} KeptCounts(records: seq<SwapLog>, among: seq<SwapLog>, r: SwapLog)
    ensures multiset(Kept(records, among))[r] ==
            if Net(among, r.wallet, r.token) != 0.0 then multiset(records)[r] else 0
    decreases |records|
  {
    if records != [] {
      var n := |records| - 1;
      assert records == records[..n] + [records[n]];
      KeptCounts(records[..n], among, r);
    }
  }

  lemma {:induction false} KeptMembers(records: seq<SwapLog>, among: seq<SwapLog>, r: SwapLog)
    ensures r in Kept(records, among) <==> r in records && Net(among, r.wallet, r.token) != 0.0
    decreases |records|
  {
    if records != [] {
      var n := |records| - 1;
      assert records == records[..n] + [records[n]];
      KeptMembers(records[..n], among, r);
    }
  }

  lemma {:induction false} IgnoredMembers(records: seq<SwapLog>, r: SwapLog)
    ensures r in WithoutIgnored(records) <==> r in records && !IgnoredUser(r.wallet)
    decreases |records|
  {
    if records != [] {
      var n := |records| - 1;
      assert records == records[..n] + [records[n]];
      IgnoredMembers(records[..n], r);
    }
  }

  /** What survives of the records: each one whose wallet has a nonzero net in its token and is not ignored, as
      often as it was built. */
  lemma FinalMembers(transfers: seq<Transfer>, keys: seq<Address>, codec: Codec, c: Context, r: SwapLog)
    requires AllReadable(transfers, keys)
    ensures var built := Records(transfers, keys, codec, c);
            multiset(Final(transfers, keys, codec, c))[r] ==
            if Net(built, r.wallet, r.token) != 0.0 && r.wallet != PumpFunFee && !r.wallet.FeeUser?
            then multiset(built)[r] else 0
  {
    var built := Records(transfers, keys, codec, c);
    KeptCounts(built, built, r);
    IgnoredCounts(Kept(built, built), r);
  }

  lemma {:induction false} IgnoredCounts(records: seq<SwapLog>, r: SwapLog)
    ensures multiset(WithoutIgnored(records))[r] == if IgnoredUser(r.wallet) then 0 else multiset(records)[r]
    decreases |records|
  {
    if records != [] {
      var n := |records| - 1;
      assert records == records[..n] + [records[n]];
      IgnoredCounts(records[..n], r);
    }
  }

  /** The records are those of the swaps that the scan finds, in a transaction that is looked at. */
  lemma RecordsMembers(transfers: seq<Transfer>, keys: seq<Address>, codec: Codec, c: Context, r: SwapLog)
    requires AllReadable(transfers, keys)
    ensures r in Records(transfers, keys, codec, c) <==>
            ValidTx(keys) && exists s <- Scanned(transfers, keys, codec) :: RecordOf(s, c) == Some(r)
  {
    BuiltMembers(Scanned(transfers, keys, codec), c, r);
  }

  /** A survivor carries the context it was recorded in. */
  lemma SurvivorContext(transfers: seq<Transfer>, keys: seq<Address>, codec: Codec, c: Context, r: SwapLog)
    requires AllReadable(transfers, keys) && r in Final(transfers, keys, codec, c)
    ensures r in Records(transfers, keys, codec, c) && r.id == c.id && r.time == c.time && r.block == c.block
  {
    var built := Records(transfers, keys, codec, c);
    KeptMembers(built, built, r);
    IgnoredMembers(Kept(built, built), r);
    RecordsMembers(transfers, keys, codec, c, r);
    var s :| s in Scanned(transfers, keys, codec) && RecordOf(s, c) == Some(r);
    FiledUnder(s, c);
  }

  lemma {:induction false} BuiltMembers(swaps: seq<Swap>, c: Context, r: SwapLog)
    ensures r in Built(swaps, c) <==> exists s <- swaps :: RecordOf(s, c) == Some(r)
    decreases |swaps|
  {
    if swaps != [] {
      var n := |swaps| - 1;
      assert swaps == swaps[..n] + [swaps[n]];
      BuiltMembers(swaps[..n], c, r);
    }
  }

  lemma NetSnoc(records: seq<SwapLog>, r: SwapLog, wallet: Address, token: Address)
    ensures Net(records + [r], wallet, token) ==
            Net(records, wallet, token) + if r.wallet == wallet && r.token == token then Gain(r) else 0.0
    ensures Total(records + [r], token) == Total(records, token) + if r.token == token then Gain(r) else 0.0
  {
    assert (records + [r])[..|records|] == records;
  }

  /** The net of a purchase or a sale subtracts an amount of one token from an amount of another, so
      a record alone under its wallet and token is dropped exactly when the two numbers are equal. */
  lemma LoneRecordVanishes(r: SwapLog, before: seq<SwapLog>, after: seq<SwapLog>)
    requires forall q <- before + after :: q.wallet != r.wallet || q.token != r.token
    ensures var built := before + [r] + after;
            r in Kept(built, built) <==> r.amountIn != r.amountOut
  {
    var built := before + [r] + after;
    NoNet(before, r.wallet, r.token);
    NetSnoc(before, r, r.wallet, r.token);
    NetAppend(before + [r], after, r.wallet, r.token);
    NoNet(after, r.wallet, r.token);
    assert built[|before|] == r;
    KeptMembers(built, built, r);
  }

  lemma {:induction false} NoNet(records: seq<SwapLog>, wallet: Address, token: Address)
    requires forall q <- records :: q.wallet != wallet || q.token != token
    ensures Net(records, wallet, token) == 0.0
    decreases |records|
  {
    if records != [] {
      assert records[|records| - 1] in records;
      NoNet(records[..|records| - 1], wallet, token);
    }
  }

  lemma {:induction false} NetAppend(a: seq<SwapLog>, b: seq<SwapLog>, wallet: Address, token: Address)
    ensures Net(a + b, wallet, token) == Net(a, wallet, token) + Net(b, wallet, token)
    decreases |b|
  {
    if b == [] {
      assert a + b == a;
    } else {
      var n := |b| - 1;
      NetAppend(a, b[..n], wallet, token);
      NetSnoc(a + b[..n], b[n], wallet, token);
      assert a + b == (a + b[..n]) + [b[n]];
    }
  }

  /** Dropping the records with a zero net leaves the net of every wallet in every token as it was. */
  lemma KeptNet(built: seq<SwapLog>, wallet: Address, token: Address)
    ensures Net(Kept(built, built), wallet, token) == Net(built, wallet, token)
  {
    KeptNetOf(built, built, wallet, token);
  }

  lemma {:induction false} KeptNetOf(records: seq<SwapLog>, among: seq<SwapLog>, wallet: Address, token: Address)
    ensures Net(Kept(records, among), wallet, token) ==
            if Net(among, wallet, token) != 0.0 then Net(records, wallet, token) else 0.0
    decreases |records|
  {
    if records != [] {
      var n := |records| - 1;
      KeptNetOf(records[..n], among, wallet, token);
      KeptNetStep(records[..n], records[n], among, wallet, token);
      assert records == records[..n] + [records[n]];
    }
  }

  lemma KeptNetStep(init: seq<SwapLog>, r: SwapLog, among: seq<SwapLog>, wallet: Address, token: Address)
    requires Net(Kept(init, among), wallet, token) ==
             if Net(among, wallet, token) != 0.0 then Net(init, wallet, token) else 0.0
    ensures Net(Kept(init + [r], among), wallet, token) ==
            if Net(among, wallet, token) != 0.0 then Net(init + [r], wallet, token) else 0.0
  {
    var kept := Kept(init, among);
    KeptSnoc(init, r, among);
    NetSnoc(init, r, wallet, token);
    NetSnoc(kept, r, wallet, token);
  }

  /** The net of a token over the given wallets. */
  function TotalOf(records: seq<SwapLog>, wallets: set<Address>, token: Address): real {
    if records == [] then 0.0 else
    var r := records[|records| - 1];
    TotalOf(records[..|records| - 1], wallets, token) + if r.wallet in wallets && r.token == token then Gain(r) else 0.0
  }

  lemma {:induction false} OneMoreWallet(records: seq<SwapLog>, wallets: set<Address>, w: Address, token: Address)
    requires w in wallets
    ensures TotalOf(records, wallets, token) == TotalOf(records, wallets - {w}, token) + Net(records, w, token)
    decreases |records|
  {
    if records != [] {
      OneMoreWallet(records[..|records| - 1], wallets, w, token);
    }
  }

  lemma {:induction false} NoWallets(records: seq<SwapLog>, token: Address)
    ensures TotalOf(records, {}, token) == 0.0
    decreases |records|
  {
    if records != [] {
      NoWallets(records[..|records| - 1], token);
    }
  }

  lemma {:induction false} ZeroWallets(records: seq<SwapLog>, wallets: set<Address>, token: Address)
    requires forall w <- wallets :: Net(records, w, token) == 0.0
    ensures TotalOf(records, wallets, token) == 0.0
    decreases |wallets|
  {
    if wallets == {} {
      NoWallets(records, token);
    } else {
      var w :| w in wallets;
      OneMoreWallet(records, wallets, w, token);
      ZeroWallets(records, wallets - {w}, token);
    }
  }

  /** What is dropped is what belongs to the wallets with a zero net. */
  lemma {:induction false} KeptPlusDropped(records: seq<SwapLog>, among: seq<SwapLog>, wallets: set<Address>,
                                           token: Address)
    requires forall r <- records :: r.token == token ==> (r.wallet in wallets <==> Net(among, r.wallet, token) == 0.0)
    ensures Total(Kept(records, among), token) + TotalOf(records, wallets, token) == Total(records, token)
    decreases |records|
  {
    if records != [] {
      var n := |records| - 1;
      assert records[n] in records;
      assert forall r <- records[..n] :: r in records;
      KeptPlusDropped(records[..n], among, wallets, token);
      NetSnoc(Kept(records[..n], among), records[n], records[n].wallet, token);
    }
  }

  /** For every token, what is kept sums to what was built. */
  lemma NettingConserves(built: seq<SwapLog>, token: Address)
    ensures Total(Kept(built, built), token) == Total(built, token)
  {
    var wallets := set r | r in built && Net(built, r.wallet, token) == 0.0 :: r.wallet;
    KeptPlusDropped(built, built, wallets, token);
    ZeroWallets(built, wallets, token);
  }

  // ---------- raw transfers balance ----------

  /** What a raw transfer contributes to the total of its token: nothing when both owners are known,
      else the one side that is recorded. */
  function Imbalance(t: Transfer): real {
    if !Filed(t) then 0.0 else
    (if t.toUser == NoAddress then 0.0 else t.amount.value) - (if t.fromUser == NoAddress then 0.0 else t.amount.value)
  }

  /** What a swap contributes to the total of a token. */
  function Contribution(s: Swap, c: Context, token: Address): real {
    var r := RecordOf(s, c);
    if r.Some? && r.value.token == token then Gain(r.value) else 0.0
  }

  lemma BuiltSnoc(swaps: seq<Swap>, s: Swap, c: Context, token: Address)
    ensures Total(Built(swaps + [s], c), token) == Total(Built(swaps, c), token) + Contribution(s, c, token)
  {
    assert (swaps + [s])[..|swaps|] == swaps;
    if RecordOf(s, c).Some? {
      NetSnoc(Built(swaps, c), RecordOf(s, c).value, NoAddress, token);
    }
  }

  /** Whether the mint of a raw transfer is filed at all. */
  predicate Filed(t: Transfer) {
    t.mint != NoAddress && t.amount.Some? && !IgnoredToken(t.mint)
  }

  lemma ReceiverShare(t: Transfer, c: Context, token: Address)
    requires !IsQuote(t.mint)
    ensures Contribution(Received(t), c, token) ==
            if Filed(t) && t.toUser != NoAddress && t.mint == token then t.amount.value else 0.0
  {
  }

  lemma SenderShare(t: Transfer, c: Context, token: Address)
    requires !IsQuote(t.mint)
    ensures Contribution(Sent(t), c, token) ==
            if Filed(t) && t.fromUser != NoAddress && t.mint == token then -t.amount.value else 0.0
  {
  }

  lemma BothBuilt(init: seq<Swap>, t: Transfer, c: Context, token: Address)
    requires !IsQuote(t.mint)
    ensures Total(Built(init + [Received(t), Sent(t)], c), token) ==
            Total(Built(init, c), token) + if t.mint == token then Imbalance(t) else 0.0
  {
    BuiltSnoc(init, Received(t), c, token);
    BuiltSnoc(init + [Received(t)], Sent(t), c, token);
    ReceiverShare(t, c, token);
    SenderShare(t, c, token);
    assert init + [Received(t), Sent(t)] == (init + [Received(t)]) + [Sent(t)];
  }

  /** What one emission adds to the total of a token. */
  function Share(e: Emission, transfers: seq<Transfer>, c: Context, token: Address): real
    requires e.at < |transfers|
  {
    match e.step
    case EmitSwap(swap, _) => Contribution(swap, c, token)
    case EmitRaw(_) => if transfers[e.at].mint == token then Imbalance(transfers[e.at]) else 0.0
    case _ => 0.0
  }

  function Shares(emissions: seq<Emission>, transfers: seq<Transfer>, c: Context, token: Address): real
    requires Within(emissions, |transfers|)
  {
    if emissions == [] then 0.0 else
    var last := |emissions| - 1;
    Shares(emissions[..last], transfers, c, token) + Share(emissions[last], transfers, c, token)
  }

  predicate RawAreNotQuotes(emissions: seq<Emission>, transfers: seq<Transfer>)
    requires Within(emissions, |transfers|)
  {
    forall k :: 0 <= k < |emissions| ==> emissions[k].step.EmitRaw? ==> !IsQuote(transfers[emissions[k].at].mint)
  }

  lemma {:induction false} BuiltTotal(emissions: seq<Emission>, transfers: seq<Transfer>, c: Context, token: Address)
    requires Within(emissions, |transfers|) && RawAreNotQuotes(emissions, transfers)
    ensures Total(Built(Flatten(emissions, transfers), c), token) == Shares(emissions, transfers, c, token)
    decreases |emissions|
  {
    if emissions != [] {
      var n := |emissions| - 1;
      BuiltTotal(emissions[..n], transfers, c, token);
      ShareBuilt(Flatten(emissions[..n], transfers), emissions[n], transfers, c, token);
    }
  }

  lemma ShareBuilt(init: seq<Swap>, e: Emission, transfers: seq<Transfer>, c: Context, token: Address)
    requires e.at < |transfers| && (e.step.EmitRaw? ==> !IsQuote(transfers[e.at].mint))
    ensures Total(Built(init + SwapsOf(e, transfers), c), token) ==
            Total(Built(init, c), token) + Share(e, transfers, c, token)
  {
    match e.step
    case EmitSwap(swap, _) => BuiltSnoc(init, swap, c, token);
    case EmitRaw(_) => BothBuilt(init, transfers[e.at], c, token);
    case _ => assert init + SwapsOf(e, transfers) == init;
  }

  /** Both owners of a raw transfer are known. */
  predicate OwnersKnown(e: Emission, transfers: seq<Transfer>)
    requires e.at < |transfers|
  {
    transfers[e.at].toUser != NoAddress && transfers[e.at].fromUser != NoAddress
  }

  /** For every token, what survives netting is the sum of the emissions' shares, so transfers
      between known owners add nothing: when the scan emits only such transfers, what survives
      balances to zero in every token. */
  lemma SurvivorsBalance(transfers: seq<Transfer>, keys: seq<Address>, codec: Codec, c: Context, token: Address)
    requires AllReadable(transfers, keys)
    ensures var emissions := EmissionsFrom(0, StepsOf(transfers, keys, codec));
            var built := Built(Scanned(transfers, keys, codec), c);
            && Total(Kept(built, built), token) == Shares(emissions, transfers, c, token)
            && ((forall k :: 0 <= k < |emissions| ==>
                   emissions[k].step.EmitRaw? && OwnersKnown(emissions[k], transfers))
                ==> Total(Kept(built, built), token) == 0.0)
  {
    var steps := StepsOf(transfers, keys, codec);
    var emissions := EmissionsFrom(0, steps);
    forall k | 0 <= k < |emissions| ensures emissions[k].step == StepAt(emissions[k].at, transfers, keys, codec) {
      EmissionsAreAtStops(0, steps, emissions[k]);
    }
    BuiltTotal(emissions, transfers, c, token);
    NettingConserves(Built(Scanned(transfers, keys, codec), c), token);
    if forall k :: 0 <= k < |emissions| ==> emissions[k].step.EmitRaw? && OwnersKnown(emissions[k], transfers) {
      KnownOwnersBalance(emissions, transfers, c, token);
    }
  }

  lemma {:induction false} KnownOwnersBalance(emissions: seq<Emission>, transfers: seq<Transfer>, c: Context,
                                              token: Address)
    requires Within(emissions, |transfers|)
    requires forall k :: 0 <= k < |emissions| ==> emissions[k].step.EmitRaw? && OwnersKnown(emissions[k], transfers)
    ensures Shares(emissions, transfers, c, token) == 0.0
    decreases |emissions|
  {
    if emissions != [] {
      KnownOwnersBalance(emissions[..|emissions| - 1], transfers, c, token);
    }
  }
}
