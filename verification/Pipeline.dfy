/** A transaction from instructions to stored swaps: `ProcessTransaction` of
    internal/solana/txHandler.go, which hands what the parser finds to the swap handler. */
module Pipeline {
  import opened Domain
  import opened Validation
  import opened Transactions
  import opened Instructions
  import opened TxParser
  import opened PumpFunEvent
  import opened DexSwaps
  import opened SwapScan
  import opened SwapNetting
  import opened SwapTable
  import LogForest
  import LogWalks
  import PrintedLogs
  import RuntimeLog

  /** What the parser finds. */
  function ParsedOf(tx: Tx, d: Decoders): Parsed
    requires WellFormed(tx, d)
  {
    SpotsFacts(tx, |tx.instructions|);
    Collect(tx, d, Spots(tx))
  }

  /** The accounts that the swap handler reads of the transfers' parents resolve. */
  ghost predicate Servable(tx: Tx, d: Decoders)
    requires WellFormed(tx, d)
  {
    AllReadable(ParsedOf(tx, d).transfers, AllAccountKeys(tx))
  }

  /** Every account index of every instruction points into the account keys. */
  ghost predicate AllResolve(tx: Tx) {
    forall s: Spot :: IsSpot(tx, s) ==> InBounds(At(tx, s).accounts, AllAccountKeys(tx))
  }

  lemma ParentResolves(tx: Tx, d: Decoders, s: Spot)
    requires WellFormed(tx, d) && IsSpot(tx, s) && EmittedAt(tx, d, s).Some?
    requires AllResolve(tx)
    ensures InBounds(EmittedAt(tx, d, s).value.ixAccounts, AllAccountKeys(tx))
  {
    assert At(tx, Outer(s.ix)) == tx.instructions[s.ix];
    if s.Inner? {
      var group := tx.inner[s.group].instructions;
      forall k: nat | k <= s.at ensures InBounds(group[k].accounts, AllAccountKeys(tx)) {
        assert IsSpot(tx, Inner(s.ix, s.group, k)) && At(tx, Inner(s.ix, s.group, k)) == group[k];
      }
    }
  }

  /** The transfers the parser makes never break the swap handler.  Every position of an account list that a
      handler reads exists, so it is enough that the indices found there resolve, and all do when all of
      the transaction's do; and the validation that is repeated never rejects a program it handles. */
  lemma ParsedIsSafe(tx: Tx, d: Decoders, p: Parsed, i: nat, codec: Codec)
    requires Visited(tx, d, Spots(tx), p)
    ensures AllResolve(tx) ==> AllReadable(p.transfers, AllAccountKeys(tx))
    ensures i < |p.transfers| && SupportedDex(p.transfers[i].parent) &&
            Readable(p.transfers, i, AllAccountKeys(tx)) ==>
              var keys := AllAccountKeys(tx);
              && ValidDexInstruction(p.transfers[i].parent, p.transfers[i].ixAccounts, keys)
              && (ProcessTransfer(i, p.transfers, keys, codec).inc == 1 <==> Paired(p.transfers, i))
  {
    TransfersAreSound(tx, d, p);
    if i < |p.transfers| && SupportedDex(p.transfers[i].parent) && Readable(p.transfers, i, AllAccountKeys(tx)) {
      VouchedIsHandled(i, p.transfers, AllAccountKeys(tx), codec);
    }
    if AllResolve(tx) {
      ParsedOrigins(tx, d, p);
      var origins :| AreOrigins(tx, d, p.transfers, origins);
      forall k | 0 <= k < |p.transfers| ensures Readable(p.transfers, k, AllAccountKeys(tx)) {
        ParentResolves(tx, d, origins[k]);
        assert Sound(p.transfers[k], AllAccountKeys(tx));
        ResolvedIsReadable(p.transfers, k, AllAccountKeys(tx));
      }
    }
  }

  lemma ParsedOrigins(tx: Tx, d: Decoders, p: Parsed)
    requires Visited(tx, d, Spots(tx), p)
    ensures exists origins :: AreOrigins(tx, d, p.transfers, origins)
  {
    ParsedInOrder(tx, d, p);
  }

  lemma ResolvedIsReadable(transfers: seq<Transfer>, i: nat, keys: seq<Address>)
    requires i < |transfers| && InBounds(transfers[i].ixAccounts, keys)
    ensures Readable(transfers, i, keys)
  {
  }

  /** A transfer made by an outer instruction is never part of a swap: the transfer a swap is read
      off, and the one taken together with it, come from inner instructions. */
  lemma SwapsComeFromInner(tx: Tx, d: Decoders, p: Parsed, i: nat, codec: Codec)
    requires Visited(tx, d, Spots(tx), p) && i < |p.transfers|
    requires AllReadable(p.transfers, AllAccountKeys(tx))
    ensures var s := StepAt(i, p.transfers, AllAccountKeys(tx), codec);
            && (s.EmitSwap? ==> p.transfers[i].innerIndex >= 0)
            && (Advance(s) == 2 ==> p.transfers[i].innerIndex >= 0 && p.transfers[i + 1].innerIndex >= 0)
  {
    TransfersAreSound(tx, d, p);
    StepNeedsInner(p.transfers, AllAccountKeys(tx), i, codec);
  }

  lemma StepNeedsInner(transfers: seq<Transfer>, keys: seq<Address>, i: nat, codec: Codec)
    requires AllSound(transfers, keys) && i < |transfers| && AllReadable(transfers, keys)
    ensures var s := StepAt(i, transfers, keys, codec);
            && (s.EmitSwap? ==> transfers[i].innerIndex >= 0)
            && (Advance(s) == 2 ==> transfers[i].innerIndex >= 0 && transfers[i + 1].innerIndex >= 0)
  {
    var s := StepAt(i, transfers, keys, codec);
    assert s.EmitSwap? || Advance(s) == 2 ==> SupportedDex(transfers[i].parent);
    assert Sound(transfers[i], keys);
    if Advance(s) == 2 {
      assert Paired(transfers, i) && Sound(transfers[i + 1], keys);
    }
  }

  /** The PumpFun program's address, as it stands in the log. */
  const PUMPFUN_ID := "6EF8rrecthR5Dkzon8Nwu78hRvfCKubJ14M5uBEwF6P"

  /** Processing ends with the records and the gathered PumpFun lines, or in a panic. */
  datatype Outcome = Panicked | Done(swaps: seq<SwapLog>, lines: seq<string>)

  /** The lines of the log; a transaction without logs has none. */
  function LinesOf(tx: Tx): seq<string> {
    if tx.logs.Some? then tx.logs.value else []
  }

  /** The data lines that belong to the PumpFun program. */
  function PumpFunLines(tx: Tx): seq<string> {
    var parsed := LogForest.Finish(LogForest.Run(LogForest.START, LinesOf(tx)));
    if parsed.Panic? then [] else LogWalks.DataLines(LogWalks.Entries(parsed.details), PUMPFUN_ID)
  }

  /** The two log lines on which processing panics: one that opens an invocation and names no program,
      and one that the PumpFun program wrote as data without a space after the colon. */
  predicate LogPanics(tx: Tx) {
    || (exists i :: 0 <= i < |LinesOf(tx)| && LogForest.NamesNothing(LinesOf(tx)[i]))
    || (exists i :: 0 <= i < |PumpFunLines(tx)| && !LogForest.Contains(PumpFunLines(tx)[i], "Program data: "))
  }

  function ContextOf(tx: Tx, time: int, block: nat): Context {
    Context(FirstOf(tx.signatures), time, block)
  }

  /** The swap handler's records of the parsed transfers. */
  function FinalOf(tx: Tx, d: Decoders, codec: Codec, time: int, block: nat): seq<SwapLog>
    requires WellFormed(tx, d) && Servable(tx, d)
  {
    Final(ParsedOf(tx, d).transfers, AllAccountKeys(tx), codec, ContextOf(tx, time, block))
  }

  /** Something is recorded of a transaction that has no signature to record it under. */
  predicate LacksSignature(tx: Tx, d: Decoders, codec: Codec, time: int, block: nat)
    requires WellFormed(tx, d) && Servable(tx, d)
  {
    tx.signatures == [] &&
    Records(ParsedOf(tx, d).transfers, AllAccountKeys(tx), codec, ContextOf(tx, time, block)) != []
  }

  /** One transaction.  It panics exactly on such a line or for want of a signature; otherwise its records
      are those of the swap handler over the parsed transfers, and the gathered lines are the PumpFun
      program's data lines. */
  method ProcessTransaction(tx: Tx, d: Decoders, codec: Codec, time: int, block: nat) returns (outcome: Outcome)
    requires WellFormed(tx, d) && Servable(tx, d)
    ensures outcome.Panicked? <==> LogPanics(tx) || LacksSignature(tx, d, codec, time, block)
    ensures outcome.Done? ==> outcome.lines == PumpFunLines(tx) && outcome.swaps == FinalOf(tx, d, codec, time, block)
  {
    var p := ParseTransaction(tx, d);
    LogForest.PanicsIffNameless(LinesOf(tx));
    var logs := LogForest.GetLogs(LinesOf(tx));
    if logs.Panic? {
      return Panicked;
    }
    var swaps := HandleSwaps(p.transfers, AllAccountKeys(tx), codec, tx.signatures, time, block);
    if swaps.None? {
      return Panicked;
    }
    var lines := LogWalks.GatherData(logs.details, PUMPFUN_ID, []);
    assert lines == PumpFunLines(tx);
    var ok := SplitData(lines);
    outcome := if ok then Done(swaps.value, lines) else Panicked;
  }

  /** Taking what follows the keyword in every gathered line; a line without it is a panic. */
  method SplitData(lines: seq<string>) returns (ok: bool)
    ensures ok <==> forall i :: 0 <= i < |lines| ==> LogForest.Contains(lines[i], "Program data: ")
  {
    var i := 0;
    while i < |lines|
      invariant 0 <= i <= |lines|
      invariant forall k :: 0 <= k < i ==> LogForest.Contains(lines[k], "Program data: ")
    {
      if !LogForest.Contains(lines[i], "Program data: ") {
        return false;
      }
      i := i + 1;
    }
    ok := true;
  }

  /** On a log as the runtime prints it the gathered lines are what PumpFun invocations emitted, and processing
      panics on no line of it unless one of their messages passes for data. */
  lemma PrintedLogIsSafe(tx: Tx, actions: seq<PrintedLogs.Action>)
    requires tx.logs == Some(PrintedLogs.Printed(actions)) && PrintedLogs.Ordinary(actions)
    ensures PumpFunLines(tx) == PrintedLogs.DataOf(PUMPFUN_ID, actions)
    ensures (forall line <- PumpFunLines(tx) :: exists text :: line == RuntimeLog.DataLine(text)) ==> !LogPanics(tx)
  {
    PrintedLogs.DataIsGathered(actions, PUMPFUN_ID);
    LogForest.PanicsIffNameless(LinesOf(tx));
    forall line | line in PumpFunLines(tx) && exists text :: line == RuntimeLog.DataLine(text)
      ensures LogForest.Contains(line, "Program data: ")
    {
      var text :| line == RuntimeLog.DataLine(text);
      assert LogForest.StartsAt(line, "Program data: ", 0);
    }
  }

  // ---------- what is stored ----------

  predicate Positive(amount: Option<real>) {
    amount.Some? && amount.value > 0.0
  }

  /** A swap that is read off transfers as the parser makes them pays and gets something. */
  lemma SwapIsPositive(i: nat, transfers: seq<Transfer>, keys: seq<Address>, codec: Codec)
    requires i < |transfers| && AllSound(transfers, keys) && AllReadable(transfers, keys)
    requires StepAt(i, transfers, keys, codec).EmitSwap?
    ensures var s := StepAt(i, transfers, keys, codec).swap; Positive(s.amountOut) && Positive(s.amountIn)
  {
    var t, h := transfers[i], ProcessTransfer(i, transfers, keys, codec);
    assert Sound(t, keys) && Readable(transfers, i, keys);
    VouchedIsHandled(i, transfers, keys, codec);
    if t.parent == PumpFun {
      assert h == HandlePumpFun(i, transfers, keys, codec);
    } else {
      assert Paired(transfers, i) && Sound(transfers[i + 1], keys);
    }
  }

  /** What a swap of the scan has: amounts that parse and are not negative, and positive ones when a
      quote token is paid or comes in. */
  predicate IsFair(s: Swap) {
    && s.amountOut.Some? && s.amountOut.value >= 0.0 && s.amountIn.Some? && s.amountIn.value >= 0.0
    && (IsQuote(s.tokenOut) || IsQuote(s.tokenIn) ==> s.amountOut.value > 0.0 && s.amountIn.value > 0.0)
  }

  predicate AllFair(swaps: seq<Swap>) {
    forall k :: 0 <= k < |swaps| ==> IsFair(swaps[k])
  }

  lemma EmissionIsFair(e: Emission, transfers: seq<Transfer>, keys: seq<Address>, codec: Codec)
    requires e.at < |transfers| && AllSound(transfers, keys) && AllReadable(transfers, keys)
    requires e.step == StepAt(e.at, transfers, keys, codec)
    ensures AllFair(SwapsOf(e, transfers))
  {
    assert Sound(transfers[e.at], keys);
    if e.step.EmitSwap? {
      SwapIsPositive(e.at, transfers, keys, codec);
    }
  }

  lemma {:induction false} FlattenIsFair(emissions: seq<Emission>, transfers: seq<Transfer>, keys: seq<Address>,
                                         codec: Codec)
    requires Within(emissions, |transfers|) && AllSound(transfers, keys) && AllReadable(transfers, keys)
    requires forall k :: 0 <= k < |emissions| ==> emissions[k].step == StepAt(emissions[k].at, transfers, keys, codec)
    ensures AllFair(Flatten(emissions, transfers))
    decreases |emissions|
  {
    if emissions != [] {
      var n := |emissions| - 1;
      FlattenIsFair(emissions[..n], transfers, keys, codec);
      EmissionIsFair(emissions[n], transfers, keys, codec);
    }
  }

  lemma ScannedIsFair(transfers: seq<Transfer>, keys: seq<Address>, codec: Codec)
    requires AllSound(transfers, keys) && AllReadable(transfers, keys)
    ensures AllFair(Scanned(transfers, keys, codec))
  {
    var steps := StepsOf(transfers, keys, codec);
    var emissions := EmissionsFrom(0, steps);
    forall k | 0 <= k < |emissions| ensures emissions[k].step == StepAt(emissions[k].at, transfers, keys, codec) {
      EmissionsAreAtStops(0, steps, emissions[k]);
    }
    FlattenIsFair(emissions, transfers, keys, codec);
  }

  lemma RecordIsStorable(s: Swap, c: Context)
    requires IsFair(s) && RecordOf(s, c).Some?
    ensures Storable(RecordOf(s, c).value)
  {
    FiledUnder(s, c);
  }

  lemma {:induction false} BuiltIsStorable(swaps: seq<Swap>, c: Context)
    requires AllFair(swaps)
    ensures forall r <- Built(swaps, c) :: Storable(r)
    decreases |swaps|
  {
    if swaps != [] {
      var n := |swaps| - 1;
      BuiltIsStorable(swaps[..n], c);
      if RecordOf(swaps[n], c).Some? {
        RecordIsStorable(swaps[n], c);
      }
    }
  }

  /** Every record that is stored of a parsed transaction has amounts that are not negative, and a purchase
      or a sale positive ones. */
  lemma RecordsAreStorable(tx: Tx, d: Decoders, codec: Codec, time: int, block: nat)
    requires WellFormed(tx, d) && Servable(tx, d)
    ensures forall r <- FinalOf(tx, d, codec, time, block) :: Storable(r)
  {
    var p, keys, c := ParsedOf(tx, d), AllAccountKeys(tx), ContextOf(tx, time, block);
    SpotsFacts(tx, |tx.instructions|);
    TransfersAreSound(tx, d, p);
    ScannedIsFair(p.transfers, keys, codec);
    BuiltIsStorable(Scanned(p.transfers, keys, codec), c);
    var built := Records(p.transfers, keys, codec, c);
    forall r | r in FinalOf(tx, d, codec, time, block) ensures Storable(r) {
      IgnoredMembers(Kept(built, built), r);
      KeptMembers(built, built, r);
    }
  }

  /** A record of a transaction that processing finishes carries its first signature and its block's time and
      number. */
  lemma RecordsCarryContext(tx: Tx, d: Decoders, codec: Codec, time: int, block: nat)
    requires WellFormed(tx, d) && Servable(tx, d) && !LacksSignature(tx, d, codec, time, block)
    ensures forall r <- FinalOf(tx, d, codec, time, block) ::
              tx.signatures != [] && r.id == tx.signatures[0] && r.time == time && r.block == block
  {
    forall r | r in FinalOf(tx, d, codec, time, block)
      ensures tx.signatures != [] && r.id == tx.signatures[0] && r.time == time && r.block == block
    {
      SurvivorContext(ParsedOf(tx, d).transfers, AllAccountKeys(tx), codec, ContextOf(tx, time, block), r);
    }
  }

  // ---------- swaps that share a row ----------

  /** The receipts of two transfers share a key of the swap table iff the amounts are equal, whatever the
      tokens and the receivers. */
  lemma ReceiptsCollide(t: Transfer, u: Transfer, c: Context)
    requires Filed(t) && Filed(u) && !IsQuote(t.mint) && !IsQuote(u.mint)
    requires t.toUser != NoAddress && u.toUser != NoAddress
    ensures RecordOf(Received(t), c).Some? && RecordOf(Received(u), c).Some?
    ensures var r, q := RecordOf(Received(t), c).value, RecordOf(Received(u), c).value;
            && (KeyOf(r) == KeyOf(q) <==> t.amount == u.amount)
            && (t.toUser != u.toUser ==> r != q)
  {
  }

  /** A plain transfer between known users that nothing excludes. */
  predicate Plain(t: Transfer) {
    && Filed(t) && !IsQuote(t.mint) && t.kind.TokenMove? && t.parent == NoAddress && t.ixAccounts == []
    && t.amount.value > 0.0 && t.toUser != NoAddress && t.fromUser != NoAddress && t.toUser != t.fromUser
    && !IgnoredUser(t.toUser)
  }

  /** This happens in one transaction: two transfers of equal amounts to different users both end in the
      final list, and of the two receipts only one gets a row. */
  lemma TransfersShareRow(t: Transfer, u: Transfer, keys: seq<Address>, codec: Codec, c: Context)
    requires ValidTx(keys) && Plain(t) && Plain(u) && t.amount == u.amount
    requires t.toUser != u.toUser && t.toUser != u.fromUser && u.toUser != t.fromUser
    ensures AllReadable([t, u], keys)
    ensures RecordOf(Received(t), c).Some? && RecordOf(Received(u), c).Some?
    ensures var final := Final([t, u], keys, codec, c);
            var r, q := RecordOf(Received(t), c).value, RecordOf(Received(u), c).value;
            r in final && q in final && r != q && KeyOf(r) == KeyOf(q) && !KeyInjective(map[], final)
  {
    ReceiptsCollide(t, u, c);
    TwoRaw(t, u, keys, codec);
    BothSurvive(t, u, c);
  }

  lemma BothSurvive(t: Transfer, u: Transfer, c: Context)
    requires Plain(t) && Plain(u)
    requires t.toUser != u.toUser && t.toUser != u.fromUser && u.toUser != t.fromUser
    ensures RecordOf(Received(t), c).Some? && RecordOf(Received(u), c).Some?
    ensures var built := Built([Received(t), Sent(t), Received(u), Sent(u)], c);
            var final := WithoutIgnored(Kept(built, built));
            RecordOf(Received(t), c).value in final && RecordOf(Received(u), c).value in final
  {
    var r, x := RecordOf(Received(t), c).value, RecordOf(Sent(t), c).value;
    var q, y := RecordOf(Received(u), c).value, RecordOf(Sent(u), c).value;
    FourBuilt(t, u, c);
    assert [] + [r] + [x, q, y] == [r, x, q, y] && [r, x] + [q] + [y] == [r, x, q, y];
    assert r.wallet == t.toUser && x.wallet == t.fromUser && q.wallet == u.toUser && y.wallet == u.fromUser;
    LoneRecordSurvives([], r, [x, q, y]);
    LoneRecordSurvives([r, x], q, [y]);
  }

  lemma LoneRecordSurvives(before: seq<SwapLog>, r: SwapLog, after: seq<SwapLog>)
    requires forall q <- before + after :: q.wallet != r.wallet || q.token != r.token
    requires r.amountIn != r.amountOut && !IgnoredUser(r.wallet)
    ensures var built := before + [r] + after; r in WithoutIgnored(Kept(built, built))
  {
    var built := before + [r] + after;
    LoneRecordVanishes(r, before, after);
    IgnoredMembers(Kept(built, built), r);
  }

  lemma FourBuilt(t: Transfer, u: Transfer, c: Context)
    requires Plain(t) && Plain(u)
    ensures RecordOf(Received(t), c).Some? && RecordOf(Sent(t), c).Some?
    ensures RecordOf(Received(u), c).Some? && RecordOf(Sent(u), c).Some?
    ensures Built([Received(t), Sent(t), Received(u), Sent(u)], c) ==
            [RecordOf(Received(t), c).value, RecordOf(Sent(t), c).value,
             RecordOf(Received(u), c).value, RecordOf(Sent(u), c).value]
  {
    BuiltOneMore([], Received(t), c);
    BuiltOneMore([Received(t)], Sent(t), c);
    BuiltOneMore([Received(t), Sent(t)], Received(u), c);
    BuiltOneMore([Received(t), Sent(t), Received(u)], Sent(u), c);
    assert [] + [Received(t)] == [Received(t)] && [Received(t)] + [Sent(t)] == [Received(t), Sent(t)];
    assert [Received(t), Sent(t)] + [Received(u)] == [Received(t), Sent(t), Received(u)];
    assert [Received(t), Sent(t), Received(u)] + [Sent(u)] == [Received(t), Sent(t), Received(u), Sent(u)];
  }

  lemma BuiltOneMore(swaps: seq<Swap>, s: Swap, c: Context)
    requires RecordOf(s, c).Some?
    ensures Built(swaps + [s], c) == Built(swaps, c) + [RecordOf(s, c).value]
  {
    assert (swaps + [s])[..|swaps|] == swaps;
  }

  lemma TwoRaw(t: Transfer, u: Transfer, keys: seq<Address>, codec: Codec)
    requires Plain(t) && Plain(u)
    ensures AllReadable([t, u], keys)
    ensures Scanned([t, u], keys, codec) == [Received(t), Sent(t), Received(u), Sent(u)]
  {
    var steps, ts := StepsOf([t, u], keys, codec), [t, u];
    assert steps[0] == EmitRaw(0) && steps[1] == EmitRaw(0);
    var a, b := Emission(0, EmitRaw(0)), Emission(1, EmitRaw(0));
    assert EmissionsFrom(2, steps) == [];
    assert EmissionsFrom(1, steps) == [b];
    assert EmissionsFrom(0, steps) == [a] + [b];
    assert ([a] + [b])[..1] == [a] && [a][..0] == [];
    assert Flatten([a], ts) == [Received(t), Sent(t)];
  }

  // ---------- transactions with one swap ----------

  /** A transaction in which the scan finds one swap that is recorded: the record is kept unless its amounts are
      the same number or its wallet is ignored. */
  lemma LoneSwapIsKept(transfers: seq<Transfer>, s: Swap, keys: seq<Address>, codec: Codec, c: Context)
    requires AllReadable(transfers, keys) && ValidTx(keys)
    requires Scanned(transfers, keys, codec) == [s] && RecordOf(s, c).Some?
    ensures var r := RecordOf(s, c).value;
            && Records(transfers, keys, codec, c) == [r]
            && Final(transfers, keys, codec, c) ==
               if s.amountIn == s.amountOut || IgnoredUser(s.wallet) then [] else [r]
  {
    var r := RecordOf(s, c).value;
    BuiltOneMore([], s, c);
    assert [] + [s] == [s];
    FiledUnder(s, c);
    LoneRecordVanishes(r, [], []);
    assert [] + [r] + [] == [r];
    FilterSnoc([], r, [r]);
    KeptMembers([r], [r], r);
  }

  /** Two transfers of a two-legged program from which one swap is read: `out` is paid and `into` comes in. */
  predicate IsPair(a: Transfer, b: Transfer, out: Transfer, into: Transfer, keys: seq<Address>, codec: Codec) {
    && TwoLegged(a.parent) && Recognized(a, keys, codec)
    && b.parent == a.parent && Readable([a, b], 1, keys)
    && (if ByAuthority(a.parent) && a.authority != WalletOf(a, keys, codec) then out == b && into == a
        else out == a && into == b)
    && out.mint != into.mint && out.mint != NoAddress && into.mint != NoAddress
    && !IgnoredToken(out.mint) && !IgnoredToken(into.mint) && out.amount.Some? && into.amount.Some?
  }

  lemma PairIsScanned(a: Transfer, b: Transfer, out: Transfer, into: Transfer, keys: seq<Address>, codec: Codec)
    returns (s: Swap)
    requires IsPair(a, b, out, into, keys, codec)
    ensures AllReadable([a, b], keys) && Scanned([a, b], keys, codec) == [s]
    ensures s.wallet == WalletOf(a, keys, codec) && s.pair == Account(a, PairAt(a.parent, |a.ixAccounts|), keys)
    ensures s.source == SourceName(a.parent) && Exchanges(s, out, into)
  {
    var ts := [a, b];
    assert ts[0] == a && ts[1] == b && Paired(ts, 0);
    assert Readable(ts, 0, keys) && Readable(ts, 1, keys);
    StepReads(0, ts, keys, codec);
    s := StepAt(0, ts, keys, codec).swap;
    PairAlone(StepsOf(ts, keys, codec), ts);
  }

  lemma PairAlone(steps: seq<Step>, transfers: seq<Transfer>)
    requires |steps| == |transfers| == 2 && Bounded(steps) && steps[0].EmitSwap? && steps[0].inc == 1
    ensures Flatten(EmissionsFrom(0, steps), transfers) == [steps[0].swap]
  {
    var e := Emission(0, steps[0]);
    assert EmissionsFrom(2, steps) == [];
    assert EmissionsFrom(0, steps) == [e];
    assert [e][..0] == [];
  }

  /** The one record of such a transaction, and whether it is kept: a purchase if a quote token is paid, a sale
      if only a quote token comes in, with the amounts of the two transfers, for every two-legged program. */
  lemma PairIsRecorded(a: Transfer, b: Transfer, out: Transfer, into: Transfer, keys: seq<Address>, codec: Codec,
                       c: Context)
    returns (r: SwapLog)
    requires ValidTx(keys) && IsPair(a, b, out, into, keys, codec)
    ensures AllReadable([a, b], keys) && Records([a, b], keys, codec, c) == [r]
    ensures Final([a, b], keys, codec, c) == if out.amount == into.amount || IgnoredUser(r.wallet) then [] else [r]
    ensures IsQuote(out.mint) ==> r.action.BuyAction? && r.token == into.mint
    ensures !IsQuote(out.mint) && IsQuote(into.mint) ==> r.action.SellAction? && r.token == out.mint
    ensures r.wallet == WalletOf(a, keys, codec) && r.pair == Account(a, PairAt(a.parent, |a.ixAccounts|), keys)
    ensures r.amountOut == out.amount.value && r.amountIn == into.amount.value
    ensures r.source == SourceName(a.parent) && r.id == c.id && r.time == c.time && r.block == c.block
  {
    var s := PairIsScanned(a, b, out, into, keys, codec);
    RecordExists(s, c);
    FiledUnder(s, c);
    LoneSwapIsKept([a, b], s, keys, codec, c);
    r := RecordOf(s, c).value;
  }

  /** A sale for an amount that differs from what is sold, by a wallet that is not ignored, ends as one sale
      with these amounts. */
  lemma SaleIsKept(a: Transfer, b: Transfer, sold: Transfer, got: Transfer, keys: seq<Address>, codec: Codec,
                   c: Context)
    returns (r: SwapLog)
    requires ValidTx(keys) && IsPair(a, b, sold, got, keys, codec) && !IsQuote(sold.mint) && IsQuote(got.mint)
    requires sold.amount != got.amount && !IgnoredUser(WalletOf(a, keys, codec))
    ensures AllReadable([a, b], keys) && Final([a, b], keys, codec, c) == [r]
    ensures r.action.SellAction? && r.token == sold.mint && r.wallet == WalletOf(a, keys, codec)
    ensures r.amountOut == sold.amount.value && r.amountIn == got.amount.value
  {
    r := PairIsRecorded(a, b, sold, got, keys, codec, c);
  }

  /** A purchase of as many tokens as quote tokens paid is found and recorded, and if it is all that the
      transaction did nothing of it is kept. */
  lemma PurchaseVanishes(a: Transfer, b: Transfer, paid: Transfer, got: Transfer, keys: seq<Address>, codec: Codec,
                         c: Context)
    returns (r: SwapLog)
    requires ValidTx(keys) && IsPair(a, b, paid, got, keys, codec) && IsQuote(paid.mint)
    requires paid.amount == got.amount
    ensures AllReadable([a, b], keys)
    ensures Records([a, b], keys, codec, c) == [r] && r.action.BuyAction? && r.token == got.mint
    ensures Final([a, b], keys, codec, c) == []
  {
    r := PairIsRecorded(a, b, paid, got, keys, codec, c);
  }

  const MARKET_KEYS: seq<Address> := [Other("wallet"), TokenProgram, Other("pair")]

  const MARKET_ACCOUNTS: seq<int> := [0, 1, 1, 2, 1, 1, 1, 1, 1, 1, 1, 1, 1]

  function Leg(mint: Address, authority: Address, amount: real): Transfer {
    Transfer(0, 0, Other("to"), NoAddress, Other("from"), NoAddress, authority, mint, 6, Some(amount), TokenMove,
             RaydiumCpmm, MARKET_ACCOUNTS, "")
  }

  /** Any amount of a token paid by the wallet for any amount of another on Raydium is such a pair, whichever
      transfer comes first. */
  lemma MarketPair(paid: Address, got: Address, x: real, y: real, codec: Codec)
    requires paid != got && paid != NoAddress && got != NoAddress && !IgnoredToken(paid) && !IgnoredToken(got)
    ensures ValidTx(MARKET_KEYS)
    ensures var out, into := Leg(paid, Other("wallet"), x), Leg(got, Other("pool"), y);
            && IsPair(out, into, out, into, MARKET_KEYS, codec) && IsPair(into, out, out, into, MARKET_KEYS, codec)
            && WalletOf(out, MARKET_KEYS, codec) == WalletOf(into, MARKET_KEYS, codec) == Other("wallet")
  {
    assert MARKET_KEYS[1] in MARKET_KEYS;
    LegPasses(Leg(paid, Other("wallet"), x), codec);
    LegPasses(Leg(got, Other("pool"), y), codec);
  }

  lemma LegPasses(t: Transfer, codec: Codec)
    requires t.parent == RaydiumCpmm && t.ixAccounts == MARKET_ACCOUNTS
    ensures Recognized(t, MARKET_KEYS, codec) && WalletOf(t, MARKET_KEYS, codec) == Other("wallet")
  {
    MarketAccounts();
  }

  lemma MarketAccounts()
    ensures |MARKET_ACCOUNTS| == 13 && InBounds(MARKET_ACCOUNTS, MARKET_KEYS)
    ensures MARKET_ACCOUNTS[0] == 0 && MARKET_ACCOUNTS[3] == 2 && |MARKET_KEYS| == 3
  {
  }

  /** One SOL paid for one token leaves no record. */
  lemma OneForOne(codec: Codec, c: Context)
    ensures var ts := [Leg(Sol, Other("wallet"), 1.0), Leg(Other("token"), Other("pool"), 1.0)];
            AllReadable(ts, MARKET_KEYS) && Final(ts, MARKET_KEYS, codec, c) == []
  {
    var out, into := Leg(Sol, Other("wallet"), 1.0), Leg(Other("token"), Other("pool"), 1.0);
    MarketPair(Sol, Other("token"), 1.0, 1.0, codec);
    var r := PurchaseVanishes(out, into, out, into, MARKET_KEYS, codec, c);
  }

  /** Five tokens sold for one SOL are stored as a sale of five for one. */
  lemma FiveForOne(codec: Codec, c: Context) returns (r: SwapLog)
    ensures var ts := [Leg(Other("token"), Other("wallet"), 5.0), Leg(Sol, Other("pool"), 1.0)];
            AllReadable(ts, MARKET_KEYS) && Final(ts, MARKET_KEYS, codec, c) == [r]
    ensures r.action.SellAction? && r.token == Other("token") && r.wallet == Other("wallet")
    ensures r.amountOut == 5.0 && r.amountIn == 1.0
  {
    var sold, got := Leg(Other("token"), Other("wallet"), 5.0), Leg(Sol, Other("pool"), 1.0);
    MarketPair(Other("token"), Sol, 5.0, 1.0, codec);
    r := SaleIsKept(sold, got, sold, got, MARKET_KEYS, codec, c);
  }
}
