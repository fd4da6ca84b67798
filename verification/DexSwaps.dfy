/** The swap handlers of internal/solana/dex and their dispatch, `processTransfer` of
    internal/solana/swapHandler.go. */
module DexSwaps {
  import opened Domain
  import opened Validation
  import opened PumpFunEvent

  /** A swap, or none, and how many transfers after the current one it uses up. */
  datatype Handled = Handled(swap: Swap, inc: nat)

  const NOTHING := Handled(NO_SWAP, 0)

  /** The current transfer and the one after it belong to the same program. */
  predicate Paired(transfers: seq<Transfer>, i: nat) {
    i + 1 < |transfers| && transfers[i].parent == transfers[i + 1].parent
  }

  /** The accounts that the handler of a transfer's program looks at, in its guard or after it, resolve. */
  predicate Served(t: Transfer, keys: seq<Address>) {
    var a := t.ixAccounts;
    match t.parent
    case RaydiumV4 => Resolved(a, 1, keys) && Resolved(a, 16, keys) && Resolved(a, 17, keys)
    case RaydiumConcentrated => Resolved(a, 0, keys) && Resolved(a, 1, keys) && Resolved(a, 2, keys)
    case RaydiumCpmm => Resolved(a, 0, keys) && Resolved(a, 1, keys) && Resolved(a, 3, keys)
    case RaydiumLaunchpad => Resolved(a, 0, keys) && Resolved(a, 1, keys) && Resolved(a, 4, keys)
    case OrcaWhirl => Resolved(a, 2, keys) && (|a| == 15 ==> Resolved(a, 4, keys))
    case MeteoraDlmm => Resolved(a, 0, keys) && Resolved(a, 10, keys)
    case PumpFun => Resolved(a, 3, keys)
    case PumpFunAmm => Resolved(a, 0, keys) && Resolved(a, 1, keys)
    case _ => true
  }

  /** What processing a transfer reads of its account list resolves: the accounts the validator looks at,
      and, when the list passes and the transfer is paired or a PumpFun one, those of the handler. */
  predicate Readable(transfers: seq<Transfer>, i: nat, keys: seq<Address>)
    requires i < |transfers|
  {
    var t := transfers[i];
    && Checkable(t.parent, t.ixAccounts, keys)
    && (ValidDexInstruction(t.parent, t.ixAccounts, keys) && (Paired(transfers, i) || t.parent.PumpFun?) ==>
          Served(t, keys))
  }

  function Account(t: Transfer, n: nat, keys: seq<Address>): Address
    requires n < |t.ixAccounts| && Resolved(t.ixAccounts, n, keys)
  {
    keys[t.ixAccounts[n]]
  }

  /** The guard most handlers repeat: enough accounts, and an index that is not past the end. */
  predicate Guarded(t: Transfer, needed: nat, keys: seq<Address>)
    requires needed > 0
  {
    |t.ixAccounts| >= needed && |keys| >= t.ixAccounts[needed - 1]
  }

  /** A swap whose first leg goes out of the wallet and whose second leg comes in. */
  function TwoLegs(pair: Address, exchange: string, wallet: Address, out: Transfer, into: Transfer): Swap {
    Swap(pair, exchange, out.mint, into.mint, out.amount, into.amount, wallet, "")
  }

  /** The leg the wallet authorized goes out; when it did not authorize the current one, the legs
      change places. */
  function Oriented(transfers: seq<Transfer>, i: nat, pair: Address, exchange: string, wallet: Address): Swap
    requires i + 1 < |transfers|
  {
    if transfers[i].authority != wallet then TwoLegs(pair, exchange, wallet, transfers[i + 1], transfers[i])
    else TwoLegs(pair, exchange, wallet, transfers[i], transfers[i + 1])
  }

  /** The first transfer is what the swap pays, the second what it gets. */
  predicate Exchanges(s: Swap, out: Transfer, into: Transfer) {
    s.tokenOut == out.mint && s.amountOut == out.amount && s.tokenIn == into.mint && s.amountIn == into.amount
  }

  /** The swap of two legs that the wallet pays with the first one if it authorized that, and else with the
      second. */
  predicate PaidBy(s: Swap, wallet: Address, a: Transfer, b: Transfer) {
    s.wallet == wallet && if a.authority == wallet then Exchanges(s, a, b) else Exchanges(s, b, a)
  }

  /** What the handlers owe that tell the legs apart by authority, given the positions of the pair and
      of the wallet in the account list: a swap exactly when the next transfer belongs to the program
      too, with that pair, paid by that wallet. */
  predicate AuthorizedSwap(h: Handled, transfers: seq<Transfer>, i: nat, keys: seq<Address>, pairAt: nat, walletAt: nat)
    requires i < |transfers| && pairAt < |transfers[i].ixAccounts| && walletAt < |transfers[i].ixAccounts|
    requires Paired(transfers, i) ==>
               Resolved(transfers[i].ixAccounts, pairAt, keys) && Resolved(transfers[i].ixAccounts, walletAt, keys)
  {
    var t := transfers[i];
    if !Paired(transfers, i) then h == NOTHING else
    && h.inc == 1 && h.swap.pair == Account(t, pairAt, keys)
    && PaidBy(h.swap, Account(t, walletAt, keys), t, transfers[i + 1])
  }

  /** The same for the handlers that take the legs in order. */
  predicate OrderedSwap(h: Handled, transfers: seq<Transfer>, i: nat, keys: seq<Address>, pairAt: nat)
    requires i < |transfers| && pairAt < |transfers[i].ixAccounts|
    requires Paired(transfers, i) ==> Resolved(transfers[i].ixAccounts, pairAt, keys)
  {
    if !Paired(transfers, i) then h == NOTHING else
    && h.inc == 1 && h.swap.pair == Account(transfers[i], pairAt, keys)
    && Exchanges(h.swap, transfers[i], transfers[i + 1])
  }

  // Each handler may be called on a transfer of its program whose account list passed the validator;
  // beyond the guard no handler checks the indices it uses.

  predicate Callable(transfers: seq<Transfer>, i: nat, keys: seq<Address>, program: Address) {
    && i < |transfers| && transfers[i].parent == program && Readable(transfers, i, keys)
    && ValidDexInstruction(program, transfers[i].ixAccounts, keys)
  }

  function HandleRaydium(i: nat, transfers: seq<Transfer>, keys: seq<Address>): (h: Handled)
    requires Callable(transfers, i, keys, RaydiumV4)
    ensures AuthorizedSwap(h, transfers, i, keys, 1, |transfers[i].ixAccounts| - 1)
  {
    if !Paired(transfers, i) then NOTHING else
    var t := transfers[i];
    if !Guarded(t, 2, keys) then NOTHING else
    var wallet := if |t.ixAccounts| == 18 then Account(t, 17, keys) else Account(t, 16, keys);
    Handled(Oriented(transfers, i, Account(t, 1, keys), "RAYDIUM", wallet), 1)
  }

  function HandleRaydiumConcentrated(i: nat, transfers: seq<Transfer>, keys: seq<Address>): (h: Handled)
    requires Callable(transfers, i, keys, RaydiumConcentrated)
    ensures AuthorizedSwap(h, transfers, i, keys, 2, 0)
  {
    if !Paired(transfers, i) then NOTHING else
    var t := transfers[i];
    if !Guarded(t, 2, keys) then NOTHING else
    Handled(Oriented(transfers, i, Account(t, 2, keys), "RAYDIUM_CONCENTRATED_LIQ", Account(t, 0, keys)), 1)
  }

  function HandleRaydiumCpmm(i: nat, transfers: seq<Transfer>, keys: seq<Address>): (h: Handled)
    requires Callable(transfers, i, keys, RaydiumCpmm)
    ensures AuthorizedSwap(h, transfers, i, keys, 3, 0)
  {
    if !Paired(transfers, i) then NOTHING else
    var t := transfers[i];
    if !Guarded(t, 2, keys) then NOTHING else
    Handled(Oriented(transfers, i, Account(t, 3, keys), "RAYDIUM_CPMM", Account(t, 0, keys)), 1)
  }

  function HandleRaydiumLaunchpad(i: nat, transfers: seq<Transfer>, keys: seq<Address>): (h: Handled)
    requires Callable(transfers, i, keys, RaydiumLaunchpad)
    ensures AuthorizedSwap(h, transfers, i, keys, 4, 0)
  {
    if !Paired(transfers, i) then NOTHING else
    var t := transfers[i];
    if !Guarded(t, 2, keys) then NOTHING else
    Handled(Oriented(transfers, i, Account(t, 4, keys), "RAYDIUM_LAUNCHPAD", Account(t, 0, keys)), 1)
  }

  function HandlePumpFunAmm(i: nat, transfers: seq<Transfer>, keys: seq<Address>): (h: Handled)
    requires Callable(transfers, i, keys, PumpFunAmm)
    ensures AuthorizedSwap(h, transfers, i, keys, 0, 1)
  {
    if !Paired(transfers, i) then NOTHING else
    var t := transfers[i];
    if !Guarded(t, 2, keys) then NOTHING else
    Handled(Oriented(transfers, i, Account(t, 0, keys), "PUMPFUN_AMM", Account(t, 1, keys)), 1)
  }

  function HandleOrca(i: nat, transfers: seq<Transfer>, keys: seq<Address>): (h: Handled)
    requires Callable(transfers, i, keys, OrcaWhirl)
    ensures OrderedSwap(h, transfers, i, keys, if |transfers[i].ixAccounts| == 15 then 4 else 2)
    ensures Paired(transfers, i) ==> h.swap.wallet == transfers[i].fromUser
  {
    if !Paired(transfers, i) then NOTHING else
    var t := transfers[i];
    if !Guarded(t, 3, keys) then NOTHING else
    var pair := if |t.ixAccounts| == 15 then Account(t, 4, keys) else Account(t, 2, keys);
    Handled(TwoLegs(pair, "ORCA", t.fromUser, t, transfers[i + 1]), 1)
  }

  function HandleMeteora(i: nat, transfers: seq<Transfer>, keys: seq<Address>): (h: Handled)
    requires Callable(transfers, i, keys, MeteoraDlmm)
    ensures OrderedSwap(h, transfers, i, keys, 0)
    ensures Paired(transfers, i) ==> h.swap.wallet == Account(transfers[i], 10, keys)
  {
    if !Paired(transfers, i) then NOTHING else
    var t := transfers[i];
    if !Guarded(t, 1, keys) then NOTHING else
    Handled(TwoLegs(Account(t, 0, keys), "METEORA", Account(t, 10, keys), t, transfers[i + 1]), 1)
  }

  /** PumpFun swaps come from the event, not from the legs; the transfer to the fee account never is one. */
  function HandlePumpFun(i: nat, transfers: seq<Transfer>, keys: seq<Address>, codec: Codec): (h: Handled)
    requires Callable(transfers, i, keys, PumpFun)
    ensures h.inc == if Paired(transfers, i) then 1 else 0
    ensures h.swap.wallet != NoAddress ==>
              && h.swap.amountOut.Some? && h.swap.amountOut.value > 0.0
              && h.swap.amountIn.Some? && h.swap.amountIn.value > 0.0
    ensures h.swap.wallet ==
            if transfers[i].toUser == PumpFunFee then NoAddress else SwapData(transfers[i].eventData, codec).wallet
    ensures h.swap.pair == (if transfers[i].toUser == PumpFunFee then NoAddress else Account(transfers[i], 3, keys))
  {
    SwapNeedsAlignedEvent(transfers[i].eventData, codec);
    var t := transfers[i];
    if !Guarded(t, 4, keys) then NOTHING else
    var inc := if Paired(transfers, i) then 1 else 0;
    if t.toUser == PumpFunFee then Handled(NO_SWAP, inc) else
    Handled(SwapData(t.eventData, codec).(pair := Account(t, 3, keys)), inc)
  }

  /** The dispatch: no handler for the program, or a list that fails the validator, is no swap. */
  function ProcessTransfer(i: nat, transfers: seq<Transfer>, keys: seq<Address>, codec: Codec): (h: Handled)
    requires i < |transfers| && Readable(transfers, i, keys)
    ensures h.inc <= 1 && i + h.inc < |transfers|
    ensures h.inc == 1 ==> Paired(transfers, i) && SupportedDex(transfers[i].parent) &&
                           ValidDexInstruction(transfers[i].parent, transfers[i].ixAccounts, keys)
    ensures !SupportedDex(transfers[i].parent) ==> h == NOTHING
  {
    var program := transfers[i].parent;
    if !SupportedDex(program) || !ValidDexInstruction(program, transfers[i].ixAccounts, keys) then NOTHING
    else
      match program
      case RaydiumV4 => HandleRaydium(i, transfers, keys)
      case RaydiumConcentrated => HandleRaydiumConcentrated(i, transfers, keys)
      case RaydiumCpmm => HandleRaydiumCpmm(i, transfers, keys)
      case RaydiumLaunchpad => HandleRaydiumLaunchpad(i, transfers, keys)
      case OrcaWhirl => HandleOrca(i, transfers, keys)
      case MeteoraDlmm => HandleMeteora(i, transfers, keys)
      case PumpFun => HandlePumpFun(i, transfers, keys, codec)
      case PumpFunAmm => HandlePumpFunAmm(i, transfers, keys)
      case _ => NOTHING
  }

  /** Whose programs' swaps are read off two consecutive transfers. */
  predicate TwoLegged(program: Address) {
    SupportedDex(program) && program != PumpFun
  }

  /** Those whose legs are told apart by who authorized them. */
  predicate ByAuthority(program: Address) {
    TwoLegged(program) && program != OrcaWhirl && program != MeteoraDlmm
  }

  /** Which account of a validated list is the pair. */
  function PairAt(program: Address, n: nat): nat {
    match program
    case RaydiumV4 => 1
    case RaydiumConcentrated => 2
    case RaydiumCpmm | PumpFun => 3
    case RaydiumLaunchpad => 4
    case OrcaWhirl => if n == 15 then 4 else 2
    case _ => 0
  }

  /** The wallet of the swap read off a transfer: an account of the list, the sender for Orca, and for
      PumpFun the user of a usable event unless the transfer pays the fee. */
  function WalletOf(t: Transfer, keys: seq<Address>, codec: Codec): Address
    requires SupportedDex(t.parent) && Checkable(t.parent, t.ixAccounts, keys) && Served(t, keys)
    requires ValidDexInstruction(t.parent, t.ixAccounts, keys)
  {
    match t.parent
    case RaydiumV4 => Account(t, |t.ixAccounts| - 1, keys)
    case PumpFunAmm => Account(t, 1, keys)
    case MeteoraDlmm => Account(t, 10, keys)
    case OrcaWhirl => t.fromUser
    case PumpFun => if t.toUser == PumpFunFee then NoAddress else SwapData(t.eventData, codec).wallet
    case RaydiumConcentrated | RaydiumCpmm | RaydiumLaunchpad => Account(t, 0, keys)
    case _ => NoAddress
  }

  /** The guard on a transfer that decides whether a swap is read off it and the next one. */
  predicate Recognized(t: Transfer, keys: seq<Address>, codec: Codec) {
    && SupportedDex(t.parent) && Checkable(t.parent, t.ixAccounts, keys) && Served(t, keys)
    && ValidDexInstruction(t.parent, t.ixAccounts, keys)
    && WalletOf(t, keys, codec) != NoAddress && Account(t, PairAt(t.parent, |t.ixAccounts|), keys) != NoAddress
  }

  /** What is exchanged when a swap is read off two transfers: the first goes out, unless the program tells
      the legs apart by authority and the wallet did not authorize it. */
  predicate ExchangesLegs(s: Swap, t: Transfer, next: Transfer, wallet: Address) {
    if ByAuthority(t.parent) && t.authority != wallet then Exchanges(s, next, t) else Exchanges(s, t, next)
  }

  /** The swap of a paired transfer names a wallet and a pair iff the transfer is recognized; the two
      legs of a two-legged program are then what it exchanges. */
  lemma RecognizedIsSwap(i: nat, transfers: seq<Transfer>, keys: seq<Address>, codec: Codec)
    requires i < |transfers| && Readable(transfers, i, keys) && SupportedDex(transfers[i].parent)
    requires ValidDexInstruction(transfers[i].parent, transfers[i].ixAccounts, keys) && Paired(transfers, i)
    ensures var h := ProcessTransfer(i, transfers, keys, codec);
            && h.inc == 1
            && (h.swap.wallet != NoAddress && h.swap.pair != NoAddress <==> Recognized(transfers[i], keys, codec))
            && h.swap.wallet == WalletOf(transfers[i], keys, codec)
            && (TwoLegged(transfers[i].parent) ==>
                  ExchangesLegs(h.swap, transfers[i], transfers[i + 1], h.swap.wallet))
  {
  }

  /** A swap can be read off transfer `i`: it is recognized, and the next one belongs to its program if that
      takes two. */
  predicate IsSwapAt(i: nat, transfers: seq<Transfer>, keys: seq<Address>, codec: Codec)
    requires i < |transfers|
  {
    Recognized(transfers[i], keys, codec) && (TwoLegged(transfers[i].parent) ==> Paired(transfers, i))
  }

  /** The swap read off transfer `i`. */
  predicate IsSwapOf(s: Swap, i: nat, transfers: seq<Transfer>, keys: seq<Address>, codec: Codec)
    requires i < |transfers| && IsSwapAt(i, transfers, keys, codec)
  {
    var t := transfers[i];
    && s.wallet == WalletOf(t, keys, codec) && s.pair == Account(t, PairAt(t.parent, |t.ixAccounts|), keys)
    && if TwoLegged(t.parent) then ExchangesLegs(s, t, transfers[i + 1], s.wallet)
       else var event := SwapData(t.eventData, codec);
            && s.tokenOut == event.tokenOut && s.amountOut == event.amountOut
            && s.tokenIn == event.tokenIn && s.amountIn == event.amountIn
  }

  /** The dispatch names a wallet and a pair iff a swap can be read off the transfer, and it is that swap. */
  lemma SwapIsRead(i: nat, transfers: seq<Transfer>, keys: seq<Address>, codec: Codec)
    requires i < |transfers| && Readable(transfers, i, keys)
    ensures var h, readable := ProcessTransfer(i, transfers, keys, codec), IsSwapAt(i, transfers, keys, codec);
            && (h.swap.wallet != NoAddress && h.swap.pair != NoAddress <==> readable)
            && (readable ==>
                  && IsSwapOf(h.swap, i, transfers, keys, codec)
                  && h.inc == if Paired(transfers, i) then 1 else 0)
  {
    if SupportedDex(transfers[i].parent) && ValidDexInstruction(transfers[i].parent, transfers[i].ixAccounts, keys) &&
       Paired(transfers, i)
    {
      RecognizedIsSwap(i, transfers, keys, codec);
    }
  }

  /** For a transfer as the parser makes them, the dispatch's second validation never rejects, and
      neither do the handlers' own guards: a two-legged program yields a swap exactly when the next
      transfer belongs to it too. */
  lemma VouchedIsHandled(i: nat, transfers: seq<Transfer>, keys: seq<Address>, codec: Codec)
    requires i < |transfers| && Vouched(transfers[i], keys) && SupportedDex(transfers[i].parent)
    requires Readable(transfers, i, keys)
    ensures ValidDexInstruction(transfers[i].parent, transfers[i].ixAccounts, keys)
    ensures (ProcessTransfer(i, transfers, keys, codec).inc == 1) <==> Paired(transfers, i)
    ensures TwoLegged(transfers[i].parent) && !Paired(transfers, i) ==>
              ProcessTransfer(i, transfers, keys, codec) == NOTHING
    ensures TwoLegged(transfers[i].parent) && Paired(transfers, i) ==>
              var s := ProcessTransfer(i, transfers, keys, codec).swap;
              Exchanges(s, transfers[i], transfers[i + 1]) || Exchanges(s, transfers[i + 1], transfers[i])
  {
  }

  /** The two legs may come in either order: when the wallet authorized exactly one of them, that
      one goes out, and exchanging the transfers gives the same swap. */
  lemma LegOrderDoesNotMatter(a: Transfer, b: Transfer, before: seq<Transfer>, after: seq<Transfer>,
                              keys: seq<Address>, codec: Codec)
    requires Vouched(a, keys) && Served(a, keys) && ByAuthority(a.parent)
    requires a.parent == b.parent && a.ixAccounts == b.ixAccounts
    requires var wallet := ProcessTransfer(|before|, before + [a, b] + after, keys, codec).swap.wallet;
             (a.authority == wallet) != (b.authority == wallet)
    ensures var s := ProcessTransfer(|before|, before + [a, b] + after, keys, codec).swap;
            && s == ProcessTransfer(|before|, before + [b, a] + after, keys, codec).swap
            && (if a.authority == s.wallet then Exchanges(s, a, b) else Exchanges(s, b, a))
  {
    var i, ts, us := |before|, before + [a, b] + after, before + [b, a] + after;
    assert ts[i] == a && ts[i + 1] == b && us[i] == b && us[i + 1] == a;
    assert Vouched(b, keys) && Served(b, keys);
    VouchedIsHandled(i, ts, keys, codec);
    VouchedIsHandled(i, us, keys, codec);
  }
}
