/** The first pass of `HandleSwaps` in internal/solana/swapHandler.go: a cursor moves over the
    transfers, and the body of the loop may move it once more. */
module SwapScan {
  import opened Domain
  import opened Validation
  import opened PumpFunEvent
  import opened DexSwaps

  predicate IgnoredProgram(program: Address) {
    program.Phoenix? || program.LifinityV2? || program.OrcaSwap? || program.OrcaSwapV2? || program.MeteoraPools?
  }

  predicate IsQuote(token: Address) {
    token.Sol? || token.Usdt? || token.Usdc?
  }

  /** The name under which a program's swaps are stored, or the empty string. */
  function SourceName(program: Address): string {
    match program
    case JupiterV6 => "JUPITER_V6_AGGREGATOR"
    case PumpFun => "PUMPFUN"
    case PumpFunAmm => "PUMPFUN_AMM"
    case MeteoraDlmm => "METEORA_DLMM_PROGRAM"
    case MeteoraPools => "METEORA_POOLS_PROGRAM"
    case RaydiumAmmRouting => "RAYDIUM_AMM_ROUTING"
    case RaydiumV4 => "RAYDIUM_LIQ_POOL_V4"
    case RaydiumCpmm => "RAYDIUM_CPMM"
    case RaydiumLaunchpad => "RAYDIUM_LAUNCHPAD"
    case RaydiumConcentrated => "RAYDIUM_CONCENTRATED_LIQ"
    case LifinityV2 => "LIFINITY_SWAP_V2"
    case FluxBeam => "FLUXBEAM_PROGRAM"
    case OrcaWhirl => "ORCA_WHIRL_PROGRAM_ID"
    case OrcaSwapV2 => "ORCA_SWAP_V2"
    case OrcaSwap => "ORCA_SWAP"
    case Phoenix => "PHOENIX"
    case _ => ""
  }

  /** A raw transfer is recorded twice: once for the receiver and once for the sender. */
  function Received(t: Transfer): Swap {
    Swap(NoAddress, "", NoAddress, t.mint, Some(0.0), t.amount, t.toUser, "")
  }

  function Sent(t: Transfer): Swap {
    Swap(NoAddress, "", t.mint, NoAddress, t.amount, Some(0.0), t.fromUser, "")
  }

  /** What the body of the loop does at one position.  `Skip` is a `continue`: the increment the
      handler asked for is then not applied. */
  datatype Step = Skip | Pass(inc: nat) | EmitSwap(swap: Swap, inc: nat) | EmitRaw(inc: nat)

  predicate Emits(s: Step) {
    s.EmitSwap? || s.EmitRaw?
  }

  function Advance(s: Step): nat {
    1 + if s.Skip? then 0 else s.inc
  }

  predicate AllReadable(transfers: seq<Transfer>, keys: seq<Address>) {
    forall i :: 0 <= i < |transfers| ==> Readable(transfers, i, keys)
  }

  function StepAt(i: nat, transfers: seq<Transfer>, keys: seq<Address>, codec: Codec): (s: Step)
    requires i < |transfers| && AllReadable(transfers, keys)
    ensures Advance(s) <= 2 && i + Advance(s) <= |transfers|
    ensures Advance(s) == 2 ==> Paired(transfers, i) && SupportedDex(transfers[i].parent)
    ensures s.EmitSwap? ==> SupportedDex(transfers[i].parent) && s.swap.wallet != NoAddress &&
                            s.swap.pair != NoAddress && s.swap.tokenIn != s.swap.tokenOut
    ensures s.EmitRaw? ==> transfers[i].kind != NativeMove && !IsQuote(transfers[i].mint)
  {
    var t := transfers[i];
    if IgnoredProgram(t.parent) then Skip else
    var h := ProcessTransfer(i, transfers, keys, codec);
    var source := SourceName(t.parent);
    var swap := if source != "" then h.swap.(source := source) else h.swap;
    if swap.wallet != NoAddress && swap.pair != NoAddress && SupportedDex(t.parent) then
      if swap.tokenIn == swap.tokenOut then Skip else EmitSwap(swap, h.inc)
    else if t.kind != NativeMove && (SupportedDex(t.parent) || t.parent == NoAddress) then
      if IsQuote(t.mint) then Skip else EmitRaw(h.inc)
    else Pass(h.inc)
  }

  /** One emission: where the cursor stood, how far it moved on, and what was emitted. */
  datatype Emission = Emission(at: nat, step: Step)

  function SwapsOf(e: Emission, transfers: seq<Transfer>): seq<Swap>
    requires e.at < |transfers|
  {
    match e.step
    case EmitSwap(swap, _) => [swap]
    case EmitRaw(_) => [Received(transfers[e.at]), Sent(transfers[e.at])]
    case _ => []
  }

  predicate Within(emissions: seq<Emission>, n: nat) {
    forall k :: 0 <= k < |emissions| ==> emissions[k].at < n
  }

  function Flatten(emissions: seq<Emission>, transfers: seq<Transfer>): seq<Swap>
    requires Within(emissions, |transfers|)
  {
    if emissions == [] then [] else
    var last := |emissions| - 1;
    Flatten(emissions[..last], transfers) + SwapsOf(emissions[last], transfers)
  }

  /** The step of every position, reached or not. */
  function StepsOf(transfers: seq<Transfer>, keys: seq<Address>, codec: Codec): (steps: seq<Step>)
    requires AllReadable(transfers, keys)
    ensures |steps| == |transfers| && Bounded(steps)
    ensures forall i :: 0 <= i < |steps| ==> steps[i] == StepAt(i, transfers, keys, codec)
  {
    seq(|transfers|, i requires 0 <= i < |transfers| => StepAt(i, transfers, keys, codec))
  }

  /** No step leads past the end. */
  predicate Bounded(steps: seq<Step>) {
    forall i :: 0 <= i < |steps| ==> i + Advance(steps[i]) <= |steps|
  }

  /** The positions the cursor stops at, from `i` on. */
  function StopsFrom(i: nat, steps: seq<Step>): seq<nat>
    requires i <= |steps| && Bounded(steps)
    decreases |steps| - i
  {
    if i == |steps| then [] else [i] + StopsFrom(i + Advance(steps[i]), steps)
  }

  /** The emissions, from `i` on. */
  function EmissionsFrom(i: nat, steps: seq<Step>): (es: seq<Emission>)
    requires i <= |steps| && Bounded(steps)
    ensures Within(es, |steps|)
    decreases |steps| - i
  {
    if i == |steps| then [] else
    (if Emits(steps[i]) then [Emission(i, steps[i])] else []) + EmissionsFrom(i + Advance(steps[i]), steps)
  }

  /** The swaps the scan finds. */
  function Scanned(transfers: seq<Transfer>, keys: seq<Address>, codec: Codec): seq<Swap>
    requires AllReadable(transfers, keys)
  {
    Flatten(EmissionsFrom(0, StepsOf(transfers, keys, codec)), transfers)
  }

  /** The scan.  Its cursor never leaves the list, whatever the handlers ask for. */
  method Scan(transfers: seq<Transfer>, keys: seq<Address>, codec: Codec) returns (swaps: seq<Swap>)
    requires AllReadable(transfers, keys)
    ensures swaps == Scanned(transfers, keys, codec)
  {
    swaps := ScanLoop(transfers, keys, codec, StepsOf(transfers, keys, codec));
  }

  /** `steps` are the steps at all positions. */
  ghost predicate StepsAre(steps: seq<Step>, transfers: seq<Transfer>, keys: seq<Address>, codec: Codec)
    requires AllReadable(transfers, keys)
  {
    |steps| == |transfers| &&
    forall i {:trigger StepAt(i, transfers, keys, codec)} ::
      0 <= i < |transfers| ==> steps[i] == StepAt(i, transfers, keys, codec)
  }

  method ScanLoop(transfers: seq<Transfer>, keys: seq<Address>, codec: Codec, ghost steps: seq<Step>)
    returns (swaps: seq<Swap>)
    requires AllReadable(transfers, keys) && StepsAre(steps, transfers, keys, codec) && Bounded(steps)
    ensures swaps == Flatten(EmissionsFrom(0, steps), transfers)
  {
    swaps := [];
    ghost var done: seq<Emission> := [];
    var i := 0;
    ScanStarts(steps, transfers);
    while i < |transfers|
      invariant 0 <= i && ScannedTo(i, steps, transfers, done, swaps)
    {
      var s, emitted := LoopBody(i, transfers, keys, codec, steps);
      ScanOneMore(i, steps, transfers, done, swaps);
      if Emits(s) {
        swaps := swaps + emitted;
        done := done + [Emission(i, s)];
      }
      i := i + Advance(s);
    }
    ScanEnds(steps, transfers, done, swaps);
  }

  lemma ScanStarts(steps: seq<Step>, transfers: seq<Transfer>)
    requires Bounded(steps) && |steps| == |transfers|
    ensures ScannedTo(0, steps, transfers, [], [])
  {
  }

  lemma ScanEnds(steps: seq<Step>, transfers: seq<Transfer>, done: seq<Emission>, swaps: seq<Swap>)
    requires ScannedTo(|steps|, steps, transfers, done, swaps)
    ensures swaps == Flatten(EmissionsFrom(0, steps), transfers)
  {
    assert done + [] == done;
  }

  /** The emissions made so far, and what is still to come. */
  ghost predicate ScannedTo(i: nat, steps: seq<Step>, transfers: seq<Transfer>, done: seq<Emission>, swaps: seq<Swap>) {
    && Bounded(steps) && i <= |steps| == |transfers| && Within(done, |transfers|)
    && swaps == Flatten(done, transfers) && EmissionsFrom(0, steps) == done + EmissionsFrom(i, steps)
  }

  lemma ScanOneMore(i: nat, steps: seq<Step>, transfers: seq<Transfer>, done: seq<Emission>, swaps: seq<Swap>)
    requires ScannedTo(i, steps, transfers, done, swaps) && i < |steps|
    ensures var e := Emission(i, steps[i]);
            if Emits(e.step) then
              ScannedTo(i + Advance(e.step), steps, transfers, done + [e], swaps + SwapsOf(e, transfers))
            else ScannedTo(i + Advance(e.step), steps, transfers, done, swaps)
  {
    EmissionsUnfold(i, steps, done);
    FlattenSnoc(done, Emission(i, steps[i]), transfers);
  }

  /** The body of the loop, up to moving the cursor. */
  method LoopBody(i: nat, transfers: seq<Transfer>, keys: seq<Address>, codec: Codec, ghost steps: seq<Step>)
    returns (s: Step, emitted: seq<Swap>)
    requires i < |transfers| && AllReadable(transfers, keys) && StepsAre(steps, transfers, keys, codec)
    ensures s == steps[i] && emitted == SwapsOf(Emission(i, s), transfers)
  {
    assert steps[i] == StepAt(i, transfers, keys, codec);
    var transfer := transfers[i];
    if IgnoredProgram(transfer.parent) {
      return Skip, [];
    }
    var h := ProcessTransfer(i, transfers, keys, codec);
    var swap := h.swap;
    if SourceName(transfer.parent) != "" {
      swap := swap.(source := SourceName(transfer.parent));
    }
    if swap.wallet != NoAddress && swap.pair != NoAddress && SupportedDex(transfer.parent) {
      if swap.tokenIn == swap.tokenOut {
        return Skip, [];
      }
      return EmitSwap(swap, h.inc), [swap];
    } else if transfer.kind != NativeMove && (SupportedDex(transfer.parent) || transfer.parent == NoAddress) {
      if IsQuote(transfer.mint) {
        return Skip, [];
      }
      var receiver := Swap(NoAddress, "", NoAddress, transfer.mint, Some(0.0), transfer.amount, transfer.toUser, "");
      var sender := Swap(NoAddress, "", transfer.mint, NoAddress, transfer.amount, Some(0.0), transfer.fromUser, "");
      return EmitRaw(h.inc), [receiver, sender];
    }
    return Pass(h.inc), [];
  }

  lemma EmissionsUnfold(i: nat, steps: seq<Step>, done: seq<Emission>)
    requires i < |steps| && Bounded(steps)
    ensures done + EmissionsFrom(i, steps) ==
            (if Emits(steps[i]) then done + [Emission(i, steps[i])] else done) +
            EmissionsFrom(i + Advance(steps[i]), steps)
  {
    var rest := EmissionsFrom(i + Advance(steps[i]), steps);
    if Emits(steps[i]) {
      assert EmissionsFrom(i, steps) == [Emission(i, steps[i])] + rest;
    } else {
      assert EmissionsFrom(i, steps) == rest;
    }
  }

  lemma FlattenSnoc(emissions: seq<Emission>, e: Emission, transfers: seq<Transfer>)
    requires Within(emissions, |transfers|) && e.at < |transfers|
    ensures Within(emissions + [e], |transfers|)
    ensures Flatten(emissions + [e], transfers) == Flatten(emissions, transfers) + SwapsOf(e, transfers)
  {
    assert (emissions + [e])[..|emissions|] == emissions;
  }

  // ---------- what the scan guarantees ----------

  /** The last transfer an emission is made of.  A raw one records only the transfer it stands at, even
      when the cursor then passes over the next one. */
  function ClaimEnd(e: Emission): int {
    if e.step.EmitSwap? then e.at + e.step.inc else e.at
  }

  predicate Claims(e: Emission, p: int) {
    e.at <= p <= ClaimEnd(e)
  }

  /** The transfers claimed by different emissions are disjoint and in order, and all exist. */
  predicate ClaimsInOrder(emissions: seq<Emission>, from: int, n: int) {
    && (forall k :: 0 <= k < |emissions| ==> from <= emissions[k].at <= ClaimEnd(emissions[k]) < n)
    && (forall j, k :: 0 <= j < k < |emissions| ==> ClaimEnd(emissions[j]) < emissions[k].at)
  }

  lemma {:induction false} ClaimsAreDisjoint(i: nat, steps: seq<Step>)
    requires i <= |steps| && Bounded(steps)
    ensures ClaimsInOrder(EmissionsFrom(i, steps), i, |steps|)
    decreases |steps| - i
  {
    if i < |steps| {
      ClaimsAreDisjoint(i + Advance(steps[i]), steps);
    }
  }

  /** An emission is made exactly at the stops whose step emits, and it is that step's. */
  lemma {:induction false} EmissionsAreAtStops(i: nat, steps: seq<Step>, e: Emission)
    requires i <= |steps| && Bounded(steps)
    ensures e in EmissionsFrom(i, steps) <==>
              e.at in StopsFrom(i, steps) && e.at < |steps| && e.step == steps[e.at] && Emits(e.step)
    decreases |steps| - i
  {
    if i < |steps| {
      StopsAreFrom(i + Advance(steps[i]), steps);
      EmissionsAreAtStops(i + Advance(steps[i]), steps, e);
    }
  }

  lemma {:induction false} StopsAreFrom(i: nat, steps: seq<Step>)
    requires i <= |steps| && Bounded(steps)
    ensures forall p <- StopsFrom(i, steps) :: i <= p < |steps|
    decreases |steps| - i
  {
    if i < |steps| {
      StopsAreFrom(i + Advance(steps[i]), steps);
    }
  }

  lemma {:induction false} PassedOverIsBehindStop(i: nat, p: nat, steps: seq<Step>)
    requires i <= p < |steps| && Bounded(steps) && p !in StopsFrom(i, steps)
    requires forall k :: 0 <= k < |steps| ==> Advance(steps[k]) <= 2
    ensures p > i && p - 1 in StopsFrom(i, steps) && Advance(steps[p - 1]) == 2
    decreases |steps| - i
  {
    var next := i + Advance(steps[i]);
    if next <= p {
      PassedOverIsBehindStop(next, p, steps);
    }
  }

  /** Some emission claims transfer `p`. */
  predicate ClaimedIn(emissions: seq<Emission>, p: nat) {
    exists e <- emissions :: Claims(e, p)
  }

  predicate Claimed(p: nat, steps: seq<Step>)
    requires Bounded(steps)
  {
    ClaimedIn(EmissionsFrom(0, steps), p)
  }

  lemma ClaimOfPassedOver(p: nat, steps: seq<Step>, stops: seq<nat>, emissions: seq<Emission>)
    requires 0 < p < |steps| && p !in stops && p - 1 in stops && Advance(steps[p - 1]) == 2
    requires forall k :: 0 <= k < |steps| ==> Advance(steps[k]) <= 2
    requires forall e :: e in emissions <==> e.at in stops && e.at < |steps| && e.step == steps[e.at] && Emits(e.step)
    ensures ClaimedIn(emissions, p) <==> steps[p - 1].EmitSwap?
  {
    var before := Emission(p - 1, steps[p - 1]);
    if steps[p - 1].EmitSwap? {
      assert before in emissions && Claims(before, p);
    }
    if ClaimedIn(emissions, p) {
      var e :| e in emissions && Claims(e, p);
      assert Advance(steps[e.at]) <= 2;
      assert e.at != p;
      assert e == before;
    }
  }

  /** A transfer the cursor passes over is claimed iff the step before it emits a swap. */
  lemma PassedOverIsClaimed(p: nat, steps: seq<Step>)
    requires Bounded(steps) && p < |steps| && p !in StopsFrom(0, steps)
    requires forall k :: 0 <= k < |steps| ==> Advance(steps[k]) <= 2
    ensures p > 0 && p - 1 in StopsFrom(0, steps) && Advance(steps[p - 1]) == 2
    ensures Claimed(p, steps) <==> steps[p - 1].EmitSwap?
  {
    PassedOverIsBehindStop(0, p, steps);
    forall e
      ensures e in EmissionsFrom(0, steps) <==>
                e.at in StopsFrom(0, steps) && e.at < |steps| && e.step == steps[e.at] && Emits(e.step)
    {
      EmissionsAreAtStops(0, steps, e);
    }
    ClaimOfPassedOver(p, steps, StopsFrom(0, steps), EmissionsFrom(0, steps));
  }

  /** What the step at transfer `i` is when the cursor moves over the next one with it: a swap iff the
      transfer is recognized, of both legs if the program is two-legged; else at most a record of
      transfer `i` alone. */
  ghost predicate PairStep(s: Step, i: nat, transfers: seq<Transfer>, keys: seq<Address>, codec: Codec) {
    && Paired(transfers, i) && SupportedDex(transfers[i].parent) && Readable(transfers, i, keys)
    && ValidDexInstruction(transfers[i].parent, transfers[i].ixAccounts, keys)
    && (s.EmitSwap? <==> Recognized(transfers[i], keys, codec))
    && (!s.EmitSwap? ==> s == if transfers[i].kind.NativeMove? then Pass(1) else EmitRaw(1))
    && (s.EmitSwap? && TwoLegged(transfers[i].parent) ==>
          ExchangesLegs(s.swap, transfers[i], transfers[i + 1], WalletOf(transfers[i], keys, codec)))
  }

  lemma StepOfPair(i: nat, transfers: seq<Transfer>, keys: seq<Address>, codec: Codec)
    requires AllReadable(transfers, keys) && i < |transfers| && Advance(StepAt(i, transfers, keys, codec)) == 2
    ensures PairStep(StepAt(i, transfers, keys, codec), i, transfers, keys, codec)
  {
    RecognizedIsSwap(i, transfers, keys, codec);
  }

  /** Its two tokens are the same. */
  predicate IsSelfSwap(i: nat, transfers: seq<Transfer>, keys: seq<Address>, codec: Codec)
    requires i < |transfers| && IsSwapAt(i, transfers, keys, codec)
  {
    var t := transfers[i];
    if TwoLegged(t.parent) then t.mint == transfers[i + 1].mint
    else SwapData(t.eventData, codec).tokenIn == SwapData(t.eventData, codec).tokenOut
  }

  /** What the loop does at every position: the swap of a recognized transfer, unless its tokens are the same;
      else a raw record of a token that is no quote token, of a supported program or of none. */
  lemma StepReads(i: nat, transfers: seq<Transfer>, keys: seq<Address>, codec: Codec)
    requires i < |transfers| && AllReadable(transfers, keys)
    ensures var t, s, readable := transfers[i], StepAt(i, transfers, keys, codec), IsSwapAt(i, transfers, keys, codec);
            && (s.EmitSwap? <==> readable && !IsSelfSwap(i, transfers, keys, codec))
            && (s.EmitSwap? ==>
                  && IsSwapOf(s.swap, i, transfers, keys, codec) && s.swap.source == SourceName(t.parent)
                  && s.inc == if Paired(transfers, i) then 1 else 0)
            && (s.EmitRaw? <==> !readable && !t.kind.NativeMove? && !IsQuote(t.mint) &&
                                (SupportedDex(t.parent) || t.parent == NoAddress))
  {
    assert Readable(transfers, i, keys);
    SwapIsRead(i, transfers, keys, codec);
  }

  /** What becomes of a transfer the cursor passes over: together with the transfer before it, it makes a
      swap iff that one is recognized; otherwise it appears in nothing the scan emits. */
  lemma PassedOverIsUsedOrLost(p: nat, transfers: seq<Transfer>, keys: seq<Address>, codec: Codec)
    requires AllReadable(transfers, keys) && p < |transfers|
    requires p !in StopsFrom(0, StepsOf(transfers, keys, codec))
    ensures p > 0 && (Claimed(p, StepsOf(transfers, keys, codec)) <==> Recognized(transfers[p - 1], keys, codec))
  {
    PassedOverOf(p, StepsOf(transfers, keys, codec), transfers, keys, codec);
  }

  /** The same for any list of the steps; it is not meant to be proved by induction over that list. */
  lemma {:induction false} PassedOverOf(p: nat, steps: seq<Step>, transfers: seq<Transfer>, keys: seq<Address>,
                                        codec: Codec)
    requires AllReadable(transfers, keys) && StepsAre(steps, transfers, keys, codec) && Bounded(steps)
    requires p < |steps| && p !in StopsFrom(0, steps)
    ensures p > 0 && (Claimed(p, steps) <==> Recognized(transfers[p - 1], keys, codec))
  {
    StepsAdvance(steps, transfers, keys, codec);
    PassedOverIsClaimed(p, steps);
    assert steps[p - 1] == StepAt(p - 1, transfers, keys, codec);
    PairEmitsIfRecognized(p - 1, transfers, keys, codec);
  }

  lemma StepsAdvance(steps: seq<Step>, transfers: seq<Transfer>, keys: seq<Address>, codec: Codec)
    requires AllReadable(transfers, keys) && StepsAre(steps, transfers, keys, codec)
    ensures forall k :: 0 <= k < |steps| ==> Advance(steps[k]) <= 2
  {
    forall k | 0 <= k < |steps| ensures Advance(steps[k]) <= 2 {
      assert steps[k] == StepAt(k, transfers, keys, codec);
    }
  }

  lemma PairEmitsIfRecognized(i: nat, transfers: seq<Transfer>, keys: seq<Address>, codec: Codec)
    requires AllReadable(transfers, keys) && i < |transfers| && Advance(StepAt(i, transfers, keys, codec)) == 2
    ensures StepAt(i, transfers, keys, codec).EmitSwap? <==> Recognized(transfers[i], keys, codec)
  {
    StepOfPair(i, transfers, keys, codec);
  }

  /** It stands right behind a stop and belongs to the same supported program as the transfer there. */
  lemma PassedOverBelongs(p: nat, transfers: seq<Transfer>, keys: seq<Address>, codec: Codec)
    requires AllReadable(transfers, keys) && p < |transfers|
    requires p !in StopsFrom(0, StepsOf(transfers, keys, codec))
    ensures p > 0 && p - 1 in StopsFrom(0, StepsOf(transfers, keys, codec))
    ensures SupportedDex(transfers[p].parent) && transfers[p].parent == transfers[p - 1].parent
  {
    PassedOverIsBehindStop(0, p, StepsOf(transfers, keys, codec));
  }

  // ---------- transfers that are lost ----------

  /** A native transfer to the fee account in front of another transfer of its program hides the swap
      that would be read off that one. */
  lemma FeeHidesSwap(fee: Transfer, leg: Transfer, keys: seq<Address>, codec: Codec)
    requires IsFeeBefore(fee, leg, keys, codec)
    ensures AllReadable([fee, leg], keys) && AllReadable([leg], keys)
    ensures Scanned([fee, leg], keys, codec) == []
    ensures exists s :: Scanned([leg], keys, codec) == [s]
  {
    FeePasses(fee, leg, keys, codec);
    PassAlone(StepsOf([fee, leg], keys, codec));
    var s := LoneSwap(leg, keys, codec);
    SwapAlone(StepsOf([leg], keys, codec), [leg]);
  }

  /** A transfer of the given program whose account list passes the validator and can be read. */
  predicate Passes(t: Transfer, program: Address, keys: seq<Address>) {
    && t.parent == program && Checkable(program, t.ixAccounts, keys) && Served(t, keys)
    && ValidDexInstruction(program, t.ixAccounts, keys)
  }

  predicate IsFeeBefore(fee: Transfer, leg: Transfer, keys: seq<Address>, codec: Codec) {
    && Passes(fee, PumpFun, keys) && Passes(leg, PumpFun, keys)
    && fee.toUser == PumpFunFee && fee.kind.NativeMove? && Recognized(leg, keys, codec)
    && SwapData(leg.eventData, codec).tokenIn != SwapData(leg.eventData, codec).tokenOut
  }

  lemma PassAlone(steps: seq<Step>)
    requires |steps| == 2 && Bounded(steps) && steps[0] == Pass(1)
    ensures EmissionsFrom(0, steps) == []
  {
    assert EmissionsFrom(2, steps) == [];
  }

  lemma SwapAlone(steps: seq<Step>, transfers: seq<Transfer>)
    requires |steps| == |transfers| == 1 && Bounded(steps) && steps[0].EmitSwap?
    ensures Flatten(EmissionsFrom(0, steps), transfers) == [steps[0].swap]
  {
    var e := Emission(0, steps[0]);
    assert EmissionsFrom(1, steps) == [];
    assert EmissionsFrom(0, steps) == [e];
    assert [e][..0] == [];
  }

  lemma FeePasses(fee: Transfer, leg: Transfer, keys: seq<Address>, codec: Codec)
    requires Passes(fee, PumpFun, keys) && Passes(leg, PumpFun, keys)
    requires fee.toUser == PumpFunFee && fee.kind.NativeMove?
    ensures StepAt(0, [fee, leg], keys, codec) == Pass(1)
  {
    RecognizedIsSwap(0, [fee, leg], keys, codec);
  }

  lemma LoneSwap(leg: Transfer, keys: seq<Address>, codec: Codec) returns (s: Step)
    requires Passes(leg, PumpFun, keys)
    requires Recognized(leg, keys, codec)
    requires SwapData(leg.eventData, codec).tokenIn != SwapData(leg.eventData, codec).tokenOut
    ensures s == StepAt(0, [leg], keys, codec) && s.EmitSwap?
  {
    s := StepAt(0, [leg], keys, codec);
    var h := HandlePumpFun(0, [leg], keys, codec);
    assert ProcessTransfer(0, [leg], keys, codec) == h;
  }

  /** An Orca pair whose first sender is unknown becomes a record of the first leg alone. */
  lemma UnknownSenderLosesLeg(a: Transfer, b: Transfer, keys: seq<Address>, codec: Codec)
    requires Passes(a, OrcaWhirl, keys) && b.parent == OrcaWhirl && Checkable(OrcaWhirl, b.ixAccounts, keys)
    requires a.fromUser == NoAddress && !a.kind.NativeMove? && !IsQuote(a.mint)
    ensures Scanned([a, b], keys, codec) == [Received(a), Sent(a)]
  {
    RecognizedIsSwap(0, [a, b], keys, codec);
    RawAlone(StepsOf([a, b], keys, codec), [a, b]);
  }

  lemma RawAlone(steps: seq<Step>, transfers: seq<Transfer>)
    requires |steps| == |transfers| == 2 && Bounded(steps) && steps[0] == EmitRaw(1)
    ensures Flatten(EmissionsFrom(0, steps), transfers) == [Received(transfers[0]), Sent(transfers[0])]
  {
    var e := Emission(0, steps[0]);
    assert EmissionsFrom(2, steps) == [];
    assert EmissionsFrom(0, steps) == [e];
    assert [e][..0] == [];
  }

  // A transaction in which this happens: a PumpFun fee, and a sale behind it.

  const WITNESS_KEYS: seq<Address> := [Other("pair"), PumpFun]

  const WITNESS_ACCOUNTS: seq<int> := [0, 0, 0, 0, 0, 0, 0, 0, 0, 0, 0, 1]

  function PumpFunTransfer(to: Address, kind: TransferKind): Transfer {
    Transfer(0, 0, to, NoAddress, NoAddress, NoAddress, NoAddress, Other("mint"), 6, Some(1.0), kind, PumpFun,
             WITNESS_ACCOUNTS, "")
  }

  function WitnessCodec(): Codec {
    Codec(_ => Some(EVENT_BYTES), _ => Some(Event(Other("mint"), 1, 1, false, Other("user"))))
  }

  /** The witness's event is found and sells its token. */
  lemma WitnessEvent(data: string)
    ensures var s := SwapData(data, WitnessCodec());
            s.wallet == Other("user") && s.tokenOut == Other("mint") && s.tokenIn == Sol
  {
    assert FirstMatchAligned(EVENT_BYTES, 0);
    PayloadIsWhatFollows(EVENT_BYTES, EVENT_BYTES[8..]);
  }

  lemma WitnessAccounts()
    ensures Checkable(PumpFun, WITNESS_ACCOUNTS, WITNESS_KEYS) && Resolved(WITNESS_ACCOUNTS, 3, WITNESS_KEYS)
    ensures ValidDexInstruction(PumpFun, WITNESS_ACCOUNTS, WITNESS_KEYS)
    ensures |WITNESS_ACCOUNTS| == 12 && WITNESS_KEYS[WITNESS_ACCOUNTS[3]] == Other("pair")
  {
  }

  lemma WitnessPasses(t: Transfer)
    requires t.parent == PumpFun && t.ixAccounts == WITNESS_ACCOUNTS
    ensures Passes(t, PumpFun, WITNESS_KEYS) && Account(t, 3, WITNESS_KEYS) == Other("pair")
  {
    WitnessAccounts();
  }

  lemma WitnessRecognized(t: Transfer)
    requires Passes(t, PumpFun, WITNESS_KEYS) && Account(t, 3, WITNESS_KEYS) == Other("pair")
    requires t.toUser != PumpFunFee && t.eventData == ""
    ensures Recognized(t, WITNESS_KEYS, WitnessCodec())
  {
    WitnessEvent("");
  }

  /** To these two `FeeHidesSwap` applies: of the pair nothing is emitted, of the sale alone a swap. */
  lemma FeeHidesSale() returns (fee: Transfer, sale: Transfer)
    ensures fee == PumpFunTransfer(PumpFunFee, NativeMove) && sale == PumpFunTransfer(Other("curve"), TokenMove)
    ensures IsFeeBefore(fee, sale, WITNESS_KEYS, WitnessCodec())
  {
    fee, sale := PumpFunTransfer(PumpFunFee, NativeMove), PumpFunTransfer(Other("curve"), TokenMove);
    WitnessPasses(fee);
    WitnessPasses(sale);
    WitnessRecognized(sale);
    WitnessEvent("");
  }
}
