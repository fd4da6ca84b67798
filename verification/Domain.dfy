/** Addresses and swap records shared by the transaction pipeline and the swap table.

    An address is a base58 string in the original.  The addresses its code compares with
    (internal/solana/constants.go) are constructors here; every other one is `Other`. */
module Domain {

  datatype Option<T> = None | Some(value: T)

  type Byte = x: int | 0 <= x < 256

  datatype Address =
    | NoAddress  // the empty string
    | PumpFun | PumpFunAmm
    | MeteoraDlmm | MeteoraPools
    | RaydiumAmmRouting | RaydiumV4 | RaydiumConcentrated | RaydiumCpmm | RaydiumLaunchpad
    | LifinityV2 | FluxBeam | OrcaWhirl | OrcaSwapV2 | OrcaSwap | Phoenix | JupiterV6
    | TokenProgram | AssociatedTokenProgram | SystemProgram | MetaplexMetadata
    | Sol | Usdt | Usdc
    | JitoSol | MSol | Jlp
    | PumpFunFee | FeeUser(index: nat)
    | Other(text: string)

  datatype SwapAction = BuyAction | SellAction | ReceiveAction | TransferAction | UnknownAction

  datatype SwapLog = SwapLog(id: string, wallet: Address, source: string, block: nat, time: int,
                             amountOut: real, amountIn: real, action: SwapAction, pair: Address,
                             token: Address)

  predicate IsTrade(s: SwapLog) {
    s.action.BuyAction? || s.action.SellAction?
  }

  /** What is known of every stored record: amounts are not negative, and those of a purchase or a sale
      are positive. */
  predicate Storable(s: SwapLog) {
    s.amountOut >= 0.0 && s.amountIn >= 0.0 && (IsTrade(s) ==> s.amountOut > 0.0 && s.amountIn > 0.0)
  }

  datatype TransferKind = NativeMove | TokenMove | MintMove | BurnMove

  /** A movement of a token read off one instruction.  Amounts are decimal strings in the original:
      `None` is a string that does not parse, such as the empty one. */
  datatype Transfer = Transfer(innerIndex: int, ixIndex: int, toUser: Address, toAccount: Address,
                               fromUser: Address, fromAccount: Address, authority: Address,
                               mint: Address, decimals: int, amount: Option<real>, kind: TransferKind,
                               parent: Address, ixAccounts: seq<int>, eventData: string)

  datatype Swap = Swap(pair: Address, exchange: string, tokenOut: Address, tokenIn: Address,
                       amountOut: Option<real>, amountIn: Option<real>, wallet: Address, source: string)

  /** The zero value, which every handler returns when it finds no swap. */
  const NO_SWAP := Swap(NoAddress, "", NoAddress, NoAddress, None, None, NoAddress, "")

  /** Ten to a power that may be negative. */
  function Pow10(n: int): (p: real)
    ensures p > 0.0
    decreases if n < 0 then -n else n
  {
    if n == 0 then 1.0 else if n > 0 then 10.0 * Pow10(n - 1) else Pow10(n + 1) / 10.0
  }

  /** An integer amount in units of the token's decimals. */
  function Scaled(amount: nat, decimals: int): (r: real)
    ensures r >= 0.0
    ensures r == 0.0 <==> amount == 0
  {
    amount as real / Pow10(decimals)
  }

  /** Lamports are billionths, the units of a PumpFun token millionths. */
  lemma ScaledUnits(n: nat)
    ensures Scaled(n, 9) * 1000000000.0 == n as real && Scaled(n, 6) * 1000000.0 == n as real
  {
    assert Pow10(3) == 1000.0 && Pow10(6) == 1000000.0 && Pow10(9) == 1000000000.0 by {
      assert Pow10(2) == 10.0 * Pow10(1) && Pow10(1) == 10.0 * Pow10(0);
      assert Pow10(4) == 10.0 * Pow10(3) && Pow10(5) == 10.0 * Pow10(4) && Pow10(6) == 10.0 * Pow10(5);
      assert Pow10(7) == 10.0 * Pow10(6) && Pow10(8) == 10.0 * Pow10(7) && Pow10(9) == 10.0 * Pow10(8);
    }
  }
}
