/** The validators of internal/solana/utils.go that the parser and the swap handler share. */
module Validation {
  import opened Domain

  /** Every account index points into the account keys. */
  predicate InBounds(accounts: seq<int>, keys: seq<Address>) {
    forall i :: 0 <= i < |accounts| ==> 0 <= accounts[i] < |keys|
  }

  /** The transaction touches at least one address of interest. */
  predicate ValidTx(keys: seq<Address>) {
    exists key <- keys :: key in {PumpFun, MeteoraDlmm, MeteoraPools, RaydiumV4, TokenProgram, OrcaWhirl}
  }

  predicate SupportedDex(program: Address) {
    || program.PumpFun? || program.MeteoraDlmm? || program.RaydiumV4? || program.PumpFunAmm?
    || program.RaydiumConcentrated? || program.RaydiumLaunchpad? || program.RaydiumCpmm? || program.OrcaWhirl?
  }

  predicate ValidParent(program: Address) {
    || program.PumpFun? || program.MeteoraDlmm? || program.MeteoraPools?
    || program.RaydiumV4? || program.RaydiumConcentrated? || program.RaydiumCpmm? || program.RaydiumLaunchpad?
    || program.JupiterV6? || program.LifinityV2? || program.Phoenix? || program.PumpFunAmm?
    || program.OrcaWhirl? || program.OrcaSwapV2? || program.OrcaSwap?
  }

  /** Position `n` of an account list, if it has one, points into the account keys. */
  predicate Resolved(accounts: seq<int>, n: nat, keys: seq<Address>) {
    n < |accounts| ==> 0 <= accounts[n] < |keys|
  }

  /** The accounts that the validator looks at resolve. */
  predicate Checkable(program: Address, accounts: seq<int>, keys: seq<Address>) {
    var n := |accounts|;
    match program
    case OrcaWhirl => n == 11 ==> Resolved(accounts, 0, keys)
    case RaydiumV4 => n == 17 ==> Resolved(accounts, 0, keys)
    case MeteoraDlmm => n >= 15 ==> Resolved(accounts, 14, keys)
    case PumpFun => n >= 12 ==> Resolved(accounts, 11, keys)
    case PumpFunAmm => n >= 17 ==> Resolved(accounts, 16, keys)
    case RaydiumConcentrated => n >= 10 ==> Resolved(accounts, 8, keys)
    case RaydiumLaunchpad => n >= 15 ==> Resolved(accounts, 14, keys)
    case Phoenix =>
      n >= 9 ==> Resolved(accounts, 8, keys) && (keys[accounts[8]] == TokenProgram ==> Resolved(accounts, 0, keys))
    case LifinityV2 => n >= 13 ==> Resolved(accounts, 9, keys)
    case _ => true
  }

  /** The account list looks like a swap of the given program. */
  predicate ValidDexInstruction(program: Address, accounts: seq<int>, keys: seq<Address>)
    requires Checkable(program, accounts, keys)
  {
    var n := |accounts|;
    match program
    case OrcaWhirl => n == 15 || (n == 11 && keys[accounts[0]] == TokenProgram)
    case RaydiumV4 => n == 18 || (n == 17 && keys[accounts[0]] == TokenProgram)
    case MeteoraDlmm => n >= 15 && keys[accounts[14]] == MeteoraDlmm
    case PumpFun => n >= 12 && keys[accounts[11]] == PumpFun
    case PumpFunAmm => n >= 17 && keys[accounts[16]] == PumpFunAmm
    case RaydiumConcentrated => n >= 10 && keys[accounts[8]] == TokenProgram
    case RaydiumCpmm => n == 13
    case RaydiumLaunchpad => n >= 15 && keys[accounts[14]] == RaydiumLaunchpad
    case Phoenix => n >= 9 && keys[accounts[8]] == TokenProgram && keys[accounts[0]] == Phoenix
    case LifinityV2 => n >= 13 && keys[accounts[9]] == TokenProgram
    case _ => false
  }

  /** How many accounts a validated list of a program has at least. */
  function FewestAccounts(program: Address): nat {
    match program
    case MeteoraDlmm | RaydiumLaunchpad => 15
    case RaydiumV4 | PumpFunAmm => 17
    case RaydiumCpmm | LifinityV2 => 13
    case PumpFun => 12
    case OrcaWhirl => 11
    case RaydiumConcentrated => 10
    case _ => 9
  }

  /** Only a program that may be a parent has lists that validate, but of those programs only the supported ones
      and two more ever do; every supported exchange may be a
      parent, and a validated list is long enough for what is read from it later. */
  lemma ValidatorsAgree(program: Address, accounts: seq<int>, keys: seq<Address>)
    requires Checkable(program, accounts, keys)
    ensures ValidDexInstruction(program, accounts, keys) ==>
              && ValidParent(program) && |accounts| >= FewestAccounts(program)
              && (SupportedDex(program) || program in {Phoenix, LifinityV2})
    ensures SupportedDex(program) ==> ValidParent(program)
  {
  }

  /** The programs whose swaps are handled, and those that a transfer may belong to. */
  lemma ProgramsOfInterest(program: Address)
    ensures SupportedDex(program) <==>
            program in {PumpFun, MeteoraDlmm, RaydiumV4, PumpFunAmm, RaydiumConcentrated, RaydiumLaunchpad, RaydiumCpmm,
                        OrcaWhirl}
    ensures ValidParent(program) <==>
            SupportedDex(program) || program in {MeteoraPools, JupiterV6, LifinityV2, Phoenix, OrcaSwapV2, OrcaSwap}
  {
  }

  /** What the parser attaches to a transfer: no parent, or one that passed both validators. */
  predicate Vouched(t: Transfer, keys: seq<Address>) {
    && Checkable(t.parent, t.ixAccounts, keys)
    && (t.parent == NoAddress || (ValidParent(t.parent) && ValidDexInstruction(t.parent, t.ixAccounts, keys)))
    && (t.parent == NoAddress ==> t.ixAccounts == [])
  }
}
