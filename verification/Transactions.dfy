/** Transactions (internal/types/sol.go) and the order in which internal/solana/txParser.go visits
    their instructions. */
module Transactions {
  import opened Domain
  import opened Validation

  datatype Instruction = Instruction(accounts: seq<int>, data: string, program: int)

  datatype InnerGroup = InnerGroup(index: int, instructions: seq<Instruction>)

  datatype Balance = Balance(accountIndex: int, mint: Address, owner: Address, amount: Option<real>, decimals: int)

  datatype Tx = Tx(staticKeys: seq<Address>, writable: seq<Address>, readonly: seq<Address>, logs: Option<seq<string>>,
                   instructions: seq<Instruction>, inner: seq<InnerGroup>,
                   preTokens: seq<Balance>, postTokens: seq<Balance>, signatures: seq<string>)

  datatype SystemKind = CreateAccount | SystemTransfer | OtherSystem

  datatype SystemData = SystemData(kind: SystemKind, lamports: nat)

  datatype TokenKind =
    | InitializeMint | InitializeMint2
    | TransferChecked | PlainTransfer | MintTo | Burn
    | InitializeAccount | InitializeAccount2 | InitializeAccount3 | CloseAccount
    | OtherToken

  datatype TokenData = TokenData(kind: TokenKind, amount: nat, decimals: int, owner: Address)

  /** The decoders of the instruction data. */
  datatype Decoders = Decoders(system: string -> SystemData, token: string -> TokenData)

  /** What one instruction amounts to. */
  datatype Processed = Moved(transfer: Transfer) | MintCreated(mint: Address, decimals: int) | Nothing

  datatype TokenAccount = TokenAccount(user: Address, mint: Address, decimals: int)

  /** Without logs the looked-up addresses are not considered. */
  function AllAccountKeys(tx: Tx): seq<Address> {
    if tx.logs.None? then tx.staticKeys else tx.staticKeys + tx.writable + tx.readonly
  }

  /** A key is first a static one, then a looked-up writable one, then a looked-up read-only one. */
  lemma KeyOrder(tx: Tx, i: nat)
    ensures var n, m, all := |tx.staticKeys|, |tx.writable|, AllAccountKeys(tx);
            && |all| == (if tx.logs.None? then n else n + m + |tx.readonly|)
            && (i < |all| ==>
                  all[i] == if i < n then tx.staticKeys[i] else if i < n + m then tx.writable[i - n]
                            else tx.readonly[i - n - m])
  {
  }

  // ---------- the order of execution ----------

  /** Where an instruction stands: an outer one, or number `at` of an inner group of outer one `ix`. */
  datatype Spot = Outer(ix: nat) | Inner(ix: nat, group: nat, at: nat)

  predicate IsSpot(tx: Tx, s: Spot) {
    && s.ix < |tx.instructions|
    && (s.Inner? ==> && s.group < |tx.inner| && tx.inner[s.group].index == s.ix
                     && s.at < |tx.inner[s.group].instructions|)
  }

  function At(tx: Tx, s: Spot): Instruction
    requires IsSpot(tx, s)
  {
    if s.Outer? then tx.instructions[s.ix] else tx.inner[s.group].instructions[s.at]
  }

  function InnerSpots(ix: nat, group: nat, m: nat): seq<Spot> {
    if m == 0 then [] else InnerSpots(ix, group, m - 1) + [Inner(ix, group, m - 1)]
  }

  function GroupSpots(tx: Tx, ix: nat, g: nat): seq<Spot>
    requires g <= |tx.inner|
  {
    if g == 0 then []
    else if tx.inner[g - 1].index == ix then
      GroupSpots(tx, ix, g - 1) + InnerSpots(ix, g - 1, |tx.inner[g - 1].instructions|)
    else GroupSpots(tx, ix, g - 1)
  }

  function SpotsBefore(tx: Tx, n: nat): seq<Spot>
    requires n <= |tx.instructions|
  {
    if n == 0 then [] else SpotsBefore(tx, n - 1) + [Outer(n - 1)] + GroupSpots(tx, n - 1, |tx.inner|)
  }

  /** All instructions in order of execution: each outer one, then its inner ones. */
  function Spots(tx: Tx): seq<Spot> {
    SpotsBefore(tx, |tx.instructions|)
  }

  /** An outer instruction comes before its inner ones, and those before the next outer one. */
  predicate Before(a: Spot, b: Spot) {
    || a.ix < b.ix
    || (a.ix == b.ix && b.Inner? && (a.Outer? || a.group < b.group || (a.group == b.group && a.at < b.at)))
  }

  predicate InOrder(spots: seq<Spot>) {
    forall i, j :: 0 <= i < j < |spots| ==> Before(spots[i], spots[j])
  }

  lemma {:induction false} InnerSpotsFacts(ix: nat, group: nat, m: nat)
    ensures InOrder(InnerSpots(ix, group, m))
    ensures forall s :: s in InnerSpots(ix, group, m) <==> s.Inner? && s.ix == ix && s.group == group && s.at < m
  {
    if m > 0 {
      InnerSpotsFacts(ix, group, m - 1);
      OrderSnoc(InnerSpots(ix, group, m - 1), [Inner(ix, group, m - 1)]);
    }
  }

  lemma OrderSnoc(a: seq<Spot>, b: seq<Spot>)
    requires InOrder(a) && InOrder(b) && forall s, t :: s in a && t in b ==> Before(s, t)
    ensures InOrder(a + b)
  {
  }

  lemma {:induction false} GroupSpotsFacts(tx: Tx, ix: nat, g: nat)
    requires g <= |tx.inner| && ix < |tx.instructions|
    ensures InOrder(GroupSpots(tx, ix, g))
    ensures forall s :: s in GroupSpots(tx, ix, g) <==> IsSpot(tx, s) && s.Inner? && s.ix == ix && s.group < g
  {
    if g > 0 {
      GroupSpotsFacts(tx, ix, g - 1);
      if tx.inner[g - 1].index == ix {
        var m := |tx.inner[g - 1].instructions|;
        InnerSpotsFacts(ix, g - 1, m);
        OrderSnoc(GroupSpots(tx, ix, g - 1), InnerSpots(ix, g - 1, m));
      }
    }
  }

  /** The list is in order and holds every instruction exactly once. */
  lemma {:induction false} SpotsFacts(tx: Tx, n: nat)
    requires n <= |tx.instructions|
    ensures InOrder(SpotsBefore(tx, n))
    ensures forall s :: s in SpotsBefore(tx, n) <==> IsSpot(tx, s) && s.ix < n
  {
    if n > 0 {
      SpotsFacts(tx, n - 1);
      GroupSpotsFacts(tx, n - 1, |tx.inner|);
      NextSpots(tx, n, SpotsBefore(tx, n - 1), GroupSpots(tx, n - 1, |tx.inner|));
    }
  }

  /** One outer instruction more, and its inner ones. */
  lemma NextSpots(tx: Tx, n: nat, a: seq<Spot>, b: seq<Spot>)
    requires 0 < n <= |tx.instructions| && InOrder(a) && InOrder(b)
    requires forall s :: s in a <==> IsSpot(tx, s) && s.ix < n - 1
    requires forall s :: s in b <==> IsSpot(tx, s) && s.Inner? && s.ix == n - 1 && s.group < |tx.inner|
    ensures InOrder(a + [Outer(n - 1)] + b)
    ensures forall s :: s in a + [Outer(n - 1)] + b <==> IsSpot(tx, s) && s.ix < n
  {
    OrderSnoc(a, [Outer(n - 1)]);
    OrderSnoc(a + [Outer(n - 1)], b);
  }
}
