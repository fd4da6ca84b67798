/** `ParseTransaction` and `findParentProgram` of internal/solana/txParser.go: the transfers of a
    transaction, in order of execution, each with the program it belongs to; and `FindTransfer` of
    internal/solana/dex/utils.go. */
module TxParser {
  import opened Domain
  import opened Validation
  import opened Transactions
  import opened Instructions

  // ---------- the program a transfer belongs to ----------

  /** The program of an instruction is known. */
  predicate Named(ix: Instruction, keys: seq<Address>) {
    0 <= ix.program < |keys|
  }

  /** Both validators can look at an instruction: the second one does so only after the first. */
  predicate Inspectable(ix: Instruction, keys: seq<Address>) {
    Named(ix, keys) && (ValidParent(keys[ix.program]) ==> Checkable(keys[ix.program], ix.accounts, keys))
  }

  /** An instruction that passes both validators. */
  predicate Accepted(ix: Instruction, keys: seq<Address>) {
    && Inspectable(ix, keys) && ValidParent(keys[ix.program])
    && ValidDexInstruction(keys[ix.program], ix.accounts, keys)
  }

  predicate IsPumpFun(ix: Instruction, keys: seq<Address>) {
    Named(ix, keys) && keys[ix.program] == PumpFun
  }

  /** Every instruction from one on, up to the first PumpFun one, names its program. */
  predicate NamedUpToPumpFun(group: seq<Instruction>, from: nat, keys: seq<Address>) {
    forall k :: from <= k < |group| && (forall j :: from <= j < k ==> !IsPumpFun(group[j], keys)) ==>
      Named(group[k], keys)
  }

  /** What the two searches look at resolves: back to the nearest accepted instruction, which may be the
      outer one, and on to the first PumpFun instruction. */
  predicate Traceable(tx: Tx, s: Spot)
    requires IsSpot(tx, s)
  {
    var keys := AllAccountKeys(tx);
    if s.Outer? then Inspectable(tx.instructions[s.ix], keys) else
    var group := tx.inner[s.group].instructions;
    var nearest := NearestAccepted(group, s.at + 1, keys);
    && (forall k :: nearest < k <= s.at ==> Inspectable(group[k], keys))
    && (nearest == -1 ==> Inspectable(tx.instructions[s.ix], keys))
    && NamedUpToPumpFun(group, s.at, keys)
  }

  datatype Parent = Parent(program: Address, accounts: seq<int>)

  function ParentFrom(ix: Instruction, keys: seq<Address>): Parent
    requires Named(ix, keys)
  {
    Parent(keys[ix.program], ix.accounts)
  }

  /** What the search owes: the nearest accepted instruction at or before the transfer in its inner
      group, else the outer instruction if that is accepted, else nothing. */
  ghost predicate IsParent(tx: Tx, s: Spot, p: Parent)
    requires IsSpot(tx, s)
  {
    var keys := AllAccountKeys(tx);
    if s.Inner? && exists k :: 0 <= k <= s.at && Accepted(tx.inner[s.group].instructions[k], keys) then
      var group := tx.inner[s.group].instructions;
      exists k :: 0 <= k <= s.at && Accepted(group[k], keys) && p == ParentFrom(group[k], keys) &&
                  forall j :: k < j <= s.at ==> !Accepted(group[j], keys)
    else if Accepted(tx.instructions[s.ix], keys) then p == ParentFrom(tx.instructions[s.ix], keys)
    else p == Parent(NoAddress, [])
  }

  function NearestAccepted(group: seq<Instruction>, n: nat, keys: seq<Address>): (k: int)
    requires n <= |group|
    ensures -1 <= k < n
    ensures k >= 0 ==> Accepted(group[k], keys)
    ensures forall j :: k < j < n ==> !Accepted(group[j], keys)
  {
    if n == 0 then -1
    else if Accepted(group[n - 1], keys) then n - 1
    else NearestAccepted(group, n - 1, keys)
  }

  function ParentOf(tx: Tx, s: Spot): (p: Parent)
    requires IsSpot(tx, s)
    ensures IsParent(tx, s, p)
  {
    var keys, outer := AllAccountKeys(tx), tx.instructions[s.ix];
    var k := if s.Inner? then NearestAccepted(tx.inner[s.group].instructions, s.at + 1, keys) else -1;
    if k >= 0 then ParentFrom(tx.inner[s.group].instructions[k], keys)
    else if Accepted(outer, keys) then ParentFrom(outer, keys)
    else Parent(NoAddress, [])
  }

  method FindParentProgram(tx: Tx, s: Spot) returns (p: Parent)
    requires IsSpot(tx, s) && Traceable(tx, s)
    ensures p == ParentOf(tx, s)
  {
    var keys := AllAccountKeys(tx);
    if s.Inner? {
      var group := tx.inner[s.group].instructions;
      var k := s.at;
      while k >= 0
        invariant -1 <= k <= s.at
        invariant NearestAccepted(group, s.at + 1, keys) == NearestAccepted(group, k + 1, keys)
      {
        var ix := group[k];
        if ValidParent(keys[ix.program]) {
          if ValidDexInstruction(keys[ix.program], ix.accounts, keys) {
            return Parent(keys[ix.program], ix.accounts);
          }
        }
        k := k - 1;
      }
    }
    var base := tx.instructions[s.ix];
    if ValidParent(keys[base.program]) {
      if ValidDexInstruction(keys[base.program], base.accounts, keys) {
        return Parent(keys[base.program], base.accounts);
      }
    }
    p := Parent(NoAddress, []);
  }

  predicate IsFirstPumpFun(group: seq<Instruction>, from: nat, k: nat, keys: seq<Address>) {
    && from <= k < |group| && Named(group[k], keys) && keys[group[k].program] == PumpFun
    && forall j :: from <= j < k ==> !(Named(group[j], keys) && keys[group[j].program] == PumpFun)
  }

  /** The data of the first PumpFun instruction at or after `from`. */
  function FirstPumpFun(group: seq<Instruction>, from: nat, keys: seq<Address>): (data: string)
    ensures (exists k: nat :: IsFirstPumpFun(group, from, k, keys) && data == group[k].data) ||
            (data == "" && forall k :: from <= k < |group| ==> !IsPumpFun(group[k], keys))
    decreases |group| - from
  {
    if from >= |group| then ""
    else if IsPumpFun(group[from], keys) then
      assert IsFirstPumpFun(group, from, from, keys);
      group[from].data
    else FirstPumpFun(group, from + 1, keys)
  }

  function EventDataOf(tx: Tx, s: Spot): string
    requires IsSpot(tx, s)
  {
    if s.Outer? then "" else FirstPumpFun(tx.inner[s.group].instructions, s.at, AllAccountKeys(tx))
  }

  method FindPumpFunSwapEvent(tx: Tx, s: Spot) returns (data: string)
    requires IsSpot(tx, s) && Traceable(tx, s)
    ensures data == EventDataOf(tx, s)
  {
    data := "";
    if s.Inner? {
      data := FindPumpFunFrom(tx.inner[s.group].instructions, s.at, AllAccountKeys(tx));
    }
  }

  lemma NextNamed(group: seq<Instruction>, k: nat, keys: seq<Address>)
    requires k < |group| && NamedUpToPumpFun(group, k, keys)
    ensures Named(group[k], keys)
    ensures !IsPumpFun(group[k], keys) ==> NamedUpToPumpFun(group, k + 1, keys)
  {
  }

  /** The loop of the search. */
  method FindPumpFunFrom(group: seq<Instruction>, from: nat, keys: seq<Address>) returns (data: string)
    requires from <= |group| && NamedUpToPumpFun(group, from, keys)
    ensures data == FirstPumpFun(group, from, keys)
  {
    data := "";
    var k := from;
    while k < |group|
      invariant from <= k <= |group| && NamedUpToPumpFun(group, k, keys)
      invariant FirstPumpFun(group, from, keys) == FirstPumpFun(group, k, keys)
    {
      NextNamed(group, k, keys);
      if keys[group[k].program] == PumpFun {
        return group[k].data;
      }
      k := k + 1;
    }
  }

  // ---------- the parser ----------

  function InnerIndexOf(s: Spot): int {
    if s.Outer? then -1 else s.ix
  }

  function IxIndexOf(s: Spot): int {
    if s.Outer? then s.ix else s.at
  }

  function ProcessedAt(tx: Tx, d: Decoders, s: Spot): Processed
    requires Decodable(tx, d) && IsSpot(tx, s)
  {
    ProcessInstruction(At(tx, s), tx, d, InnerIndexOf(s), IxIndexOf(s))
  }

  /** What the parser demands of a transaction to run to its end: indices resolve wherever it uses
      them unchecked. */
  ghost predicate WellFormed(tx: Tx, d: Decoders) {
    Decodable(tx, d) && forall s :: IsSpot(tx, s) && ProcessedAt(tx, d, s).Moved? ==> Traceable(tx, s)
  }

  datatype Created = Created(mint: Address, decimals: int)

  datatype Parsed = Parsed(transfers: seq<Transfer>, burns: seq<Transfer>, mints: seq<Transfer>,
                           created: seq<Created>)

  /** The transfer an instruction yields, unless its amount is zero. */
  function EmittedAt(tx: Tx, d: Decoders, s: Spot): Option<Transfer>
    requires WellFormed(tx, d) && IsSpot(tx, s)
  {
    var processed := ProcessedAt(tx, d, s);
    if !processed.Moved? || processed.transfer.amount.value == 0.0 then None else
    var p := ParentOf(tx, s);
    Some(processed.transfer.(ixAccounts := p.accounts, parent := p.program, eventData := EventDataOf(tx, s)))
  }

  /** File what one instruction yields. */
  function Add(p: Parsed, processed: Processed, emitted: Option<Transfer>): Parsed {
    if processed.MintCreated? then p.(created := p.created + [Created(processed.mint, processed.decimals)])
    else if emitted.None? then p
    else Parsed(p.transfers + [emitted.value],
                if emitted.value.kind.BurnMove? then p.burns + [emitted.value] else p.burns,
                if emitted.value.kind.MintMove? then p.mints + [emitted.value] else p.mints, p.created)
  }

  function Collect(tx: Tx, d: Decoders, spots: seq<Spot>): Parsed
    requires WellFormed(tx, d) && AllSpots(tx, spots)
  {
    if spots == [] then Parsed([], [], [], []) else
    var last := spots[|spots| - 1];
    Add(Collect(tx, d, spots[..|spots| - 1]), ProcessedAt(tx, d, last), EmittedAt(tx, d, last))
  }

  /** The parser has visited exactly the given instructions. */
  ghost predicate Visited(tx: Tx, d: Decoders, spots: seq<Spot>, p: Parsed) {
    WellFormed(tx, d) && AllSpots(tx, spots) && p == Collect(tx, d, spots)
  }

  method ParseTransaction(tx: Tx, d: Decoders) returns (p: Parsed)
    requires WellFormed(tx, d)
    ensures Visited(tx, d, Spots(tx), p)
  {
    p := Parsed([], [], [], []);
    var i := 0;
    while i < |tx.instructions|
      invariant 0 <= i <= |tx.instructions|
      invariant Visited(tx, d, SpotsBefore(tx, i), p)
    {
      ghost var before := SpotsBefore(tx, i);
      p := Visit(tx, d, before, Outer(i), p);
      p := VisitGroups(tx, d, before + [Outer(i)], i, p);
      i := i + 1;
    }
  }

  /** The loop over the inner groups that belong to outer instruction `i`. */
  method VisitGroups(tx: Tx, d: Decoders, ghost before: seq<Spot>, i: nat, sofar: Parsed) returns (p: Parsed)
    requires i < |tx.instructions| && Visited(tx, d, before, sofar)
    ensures Visited(tx, d, before + GroupSpots(tx, i, |tx.inner|), p)
  {
    p := sofar;
    var g := 0;
    assert before + GroupSpots(tx, i, 0) == before;
    while g < |tx.inner|
      invariant 0 <= g <= |tx.inner|
      invariant Visited(tx, d, before + GroupSpots(tx, i, g), p)
    {
      if tx.inner[g].index == i {
        p := VisitGroup(tx, d, before + GroupSpots(tx, i, g), i, g, p);
        Regroup(before, GroupSpots(tx, i, g), InnerSpots(i, g, |tx.inner[g].instructions|));
      }
      g := g + 1;
    }
  }

  method VisitGroup(tx: Tx, d: Decoders, ghost before: seq<Spot>, i: nat, g: nat, sofar: Parsed) returns (p: Parsed)
    requires i < |tx.instructions| && g < |tx.inner| && tx.inner[g].index == i
    requires Visited(tx, d, before, sofar)
    ensures Visited(tx, d, before + InnerSpots(i, g, |tx.inner[g].instructions|), p)
  {
    p := sofar;
    var at := 0;
    assert before + InnerSpots(i, g, 0) == before;
    while at < |tx.inner[g].instructions|
      invariant 0 <= at <= |tx.inner[g].instructions|
      invariant Visited(tx, d, before + InnerSpots(i, g, at), p)
    {
      p := Visit(tx, d, before + InnerSpots(i, g, at), Inner(i, g, at), p);
      Regroup(before, InnerSpots(i, g, at), [Inner(i, g, at)]);
      at := at + 1;
    }
  }

  /** One instruction: process it, find its parent, and file it under its type. */
  method Visit(tx: Tx, d: Decoders, ghost spots: seq<Spot>, s: Spot, sofar: Parsed) returns (p: Parsed)
    requires IsSpot(tx, s) && Visited(tx, d, spots, sofar)
    ensures Visited(tx, d, spots + [s], p)
  {
    p := sofar;
    assert (spots + [s])[..|spots|] == spots;
    var processed := ProcessInstruction(At(tx, s), tx, d, InnerIndexOf(s), IxIndexOf(s));
    if processed.Moved? {
      var parent := FindParentProgram(tx, s);
      var event := FindPumpFunSwapEvent(tx, s);
      var t := processed.transfer.(ixAccounts := parent.accounts, parent := parent.program, eventData := event);
      if t.amount.value != 0.0 {
        if t.kind.BurnMove? {
          p := p.(burns := p.burns + [t]);
        } else if t.kind.MintMove? {
          p := p.(mints := p.mints + [t]);
        }
        p := p.(transfers := p.transfers + [t]);
      }
    } else if processed.MintCreated? {
      p := p.(created := p.created + [Created(processed.mint, processed.decimals)]);
    }
  }

  // ---------- what the lists hold ----------

  /** The instructions that yield a transfer, in order of execution. */
  function Origins(tx: Tx, d: Decoders, spots: seq<Spot>): seq<Spot>
    requires WellFormed(tx, d) && AllSpots(tx, spots)
  {
    if spots == [] then [] else
    var last := spots[|spots| - 1];
    Origins(tx, d, spots[..|spots| - 1]) + if EmittedAt(tx, d, last).Some? then [last] else []
  }

  function OfKind(transfers: seq<Transfer>, kind: TransferKind): seq<Transfer> {
    if transfers == [] then [] else
    var last := transfers[|transfers| - 1];
    OfKind(transfers[..|transfers| - 1], kind) + if last.kind == kind then [last] else []
  }

  /** Transfer number `k` is the one of origin number `k`. */
  ghost predicate FromOrigins(tx: Tx, d: Decoders, transfers: seq<Transfer>, origins: seq<Spot>)
    requires WellFormed(tx, d) && AllSpots(tx, origins)
  {
    |transfers| == |origins| &&
    forall k :: 0 <= k < |origins| ==> EmittedAt(tx, d, origins[k]) == Some(transfers[k])
  }

  lemma {:induction false} OriginsFacts(tx: Tx, d: Decoders, spots: seq<Spot>)
    requires WellFormed(tx, d) && AllSpots(tx, spots) && InOrder(spots)
    ensures AllSpots(tx, Origins(tx, d, spots)) && InOrder(Origins(tx, d, spots))
    ensures forall s :: s in Origins(tx, d, spots) <==> s in spots && EmittedAt(tx, d, s).Some?
    decreases |spots|
  {
    if spots != [] {
      var n := |spots| - 1;
      assert spots == spots[..n] + [spots[n]];
      OriginsFacts(tx, d, spots[..n]);
      OrderSnoc(Origins(tx, d, spots[..n]), if EmittedAt(tx, d, spots[n]).Some? then [spots[n]] else []);
    }
  }

  lemma {:induction false} CollectOrigins(tx: Tx, d: Decoders, spots: seq<Spot>)
    requires WellFormed(tx, d) && AllSpots(tx, spots) && AllSpots(tx, Origins(tx, d, spots))
    ensures FromOrigins(tx, d, Collect(tx, d, spots).transfers, Origins(tx, d, spots))
    decreases |spots|
  {
    if spots != [] {
      var n := |spots| - 1;
      var init, transfers := Origins(tx, d, spots[..n]), Collect(tx, d, spots[..n]).transfers;
      assert forall k :: 0 <= k < |init| ==> init[k] == Origins(tx, d, spots)[k];
      CollectOrigins(tx, d, spots[..n]);
      if EmittedAt(tx, d, spots[n]).Some? {
        OriginsSnoc(tx, d, transfers, init, spots[n]);
      }
    }
  }

  lemma OriginsSnoc(tx: Tx, d: Decoders, transfers: seq<Transfer>, origins: seq<Spot>, s: Spot)
    requires WellFormed(tx, d) && AllSpots(tx, origins) && IsSpot(tx, s) && EmittedAt(tx, d, s).Some?
    requires FromOrigins(tx, d, transfers, origins)
    ensures AllSpots(tx, origins + [s])
    ensures FromOrigins(tx, d, transfers + [EmittedAt(tx, d, s).value], origins + [s])
  {
  }

  lemma {:induction false} CollectKinds(tx: Tx, d: Decoders, spots: seq<Spot>)
    requires WellFormed(tx, d) && AllSpots(tx, spots)
    ensures var p := Collect(tx, d, spots);
            p.burns == OfKind(p.transfers, BurnMove) && p.mints == OfKind(p.transfers, MintMove)
    decreases |spots|
  {
    if spots != [] {
      var n := |spots| - 1;
      CollectKinds(tx, d, spots[..n]);
      AddKeepsKinds(Collect(tx, d, spots[..n]), ProcessedAt(tx, d, spots[n]), EmittedAt(tx, d, spots[n]));
    }
  }

  lemma AddKeepsKinds(p: Parsed, processed: Processed, emitted: Option<Transfer>)
    requires p.burns == OfKind(p.transfers, BurnMove) && p.mints == OfKind(p.transfers, MintMove)
    ensures var next := Add(p, processed, emitted);
            next.burns == OfKind(next.transfers, BurnMove) && next.mints == OfKind(next.transfers, MintMove)
  {
    if emitted.Some? {
      KindSnoc(p.transfers, emitted.value, BurnMove);
      KindSnoc(p.transfers, emitted.value, MintMove);
    }
  }

  lemma KindSnoc(transfers: seq<Transfer>, t: Transfer, kind: TransferKind)
    ensures OfKind(transfers + [t], kind) == OfKind(transfers, kind) + if t.kind == kind then [t] else []
  {
    assert (transfers + [t])[..|transfers|] == transfers;
  }

  /** The transfers are those of the given places, which are in order and are all the places that
      move a nonzero amount. */
  ghost predicate AreOrigins(tx: Tx, d: Decoders, transfers: seq<Transfer>, origins: seq<Spot>)
    requires WellFormed(tx, d)
  {
    && AllSpots(tx, origins) && InOrder(origins) && FromOrigins(tx, d, transfers, origins)
    && forall s :: s in origins <==> IsSpot(tx, s) && EmittedAt(tx, d, s).Some?
  }

  /** The transfers stand in order of execution: they come from increasing places in the
      transaction, one from each instruction that moves a nonzero amount and from no other.  Burns
      and mints are exactly the transfers of their types. */
  lemma ParsedInOrder(tx: Tx, d: Decoders, p: Parsed)
    requires Visited(tx, d, Spots(tx), p)
    ensures exists origins :: AreOrigins(tx, d, p.transfers, origins)
    ensures p.burns == OfKind(p.transfers, BurnMove) && p.mints == OfKind(p.transfers, MintMove)
  {
    SpotsFacts(tx, |tx.instructions|);
    OriginsFacts(tx, d, Spots(tx));
    CollectOrigins(tx, d, Spots(tx));
    CollectKinds(tx, d, Spots(tx));
    assert AreOrigins(tx, d, p.transfers, Origins(tx, d, Spots(tx)));
  }

  /** What an instruction yields: its movement with its place in the transaction, the program it belongs to
      and the event behind it, unless nothing or a zero amount moves. */
  lemma EmittedIs(tx: Tx, d: Decoders, s: Spot)
    requires WellFormed(tx, d) && IsSpot(tx, s)
    ensures var r := if s.Outer? then ProcessInstruction(tx.instructions[s.ix], tx, d, -1, s.ix)
                     else ProcessInstruction(tx.inner[s.group].instructions[s.at], tx, d, s.ix, s.at);
            && (EmittedAt(tx, d, s).Some? <==> r.Moved? && r.transfer.amount != Some(0.0))
            && (EmittedAt(tx, d, s).Some? ==>
                  var t := EmittedAt(tx, d, s).value;
                  && t == r.transfer.(parent := t.parent, ixAccounts := t.ixAccounts, eventData := t.eventData)
                  && IsParent(tx, s, Parent(t.parent, t.ixAccounts)) && IsEventData(tx, s, t.eventData))
  {
  }

  /** The data of the first PumpFun instruction at or after an inner transfer in its group. */
  ghost predicate IsEventData(tx: Tx, s: Spot, data: string)
    requires IsSpot(tx, s)
  {
    var keys := AllAccountKeys(tx);
    if s.Inner? && exists k: nat :: IsFirstPumpFun(tx.inner[s.group].instructions, s.at, k, keys) then
      var group := tx.inner[s.group].instructions;
      exists k: nat :: IsFirstPumpFun(group, s.at, k, keys) && data == group[k].data
    else data == ""
  }

  /** The created mints are those of the given places, which are in order and are all that create one. */
  ghost predicate AreCreators(tx: Tx, d: Decoders, created: seq<Created>, creators: seq<Spot>)
    requires WellFormed(tx, d)
  {
    && AllSpots(tx, creators) && InOrder(creators) && |created| == |creators|
    && (forall k :: 0 <= k < |creators| ==>
          ProcessedAt(tx, d, creators[k]) == MintCreated(created[k].mint, created[k].decimals))
    && forall s :: s in creators <==> IsSpot(tx, s) && ProcessedAt(tx, d, s).MintCreated?
  }

  function Creators(tx: Tx, d: Decoders, spots: seq<Spot>): seq<Spot>
    requires WellFormed(tx, d) && AllSpots(tx, spots)
  {
    if spots == [] then [] else
    var last := spots[|spots| - 1];
    Creators(tx, d, spots[..|spots| - 1]) + if ProcessedAt(tx, d, last).MintCreated? then [last] else []
  }

  lemma {:induction false} CreatorsFacts(tx: Tx, d: Decoders, spots: seq<Spot>)
    requires WellFormed(tx, d) && AllSpots(tx, spots) && InOrder(spots)
    ensures AllSpots(tx, Creators(tx, d, spots)) && InOrder(Creators(tx, d, spots))
    ensures forall s :: s in Creators(tx, d, spots) <==> s in spots && ProcessedAt(tx, d, s).MintCreated?
    decreases |spots|
  {
    if spots != [] {
      var n := |spots| - 1;
      assert spots == spots[..n] + [spots[n]];
      CreatorsFacts(tx, d, spots[..n]);
      OrderSnoc(Creators(tx, d, spots[..n]), if ProcessedAt(tx, d, spots[n]).MintCreated? then [spots[n]] else []);
    }
  }

  lemma {:induction false} CollectCreators(tx: Tx, d: Decoders, spots: seq<Spot>)
    requires WellFormed(tx, d) && AllSpots(tx, spots) && AllSpots(tx, Creators(tx, d, spots))
    ensures var created, creators := Collect(tx, d, spots).created, Creators(tx, d, spots);
            && |created| == |creators|
            && forall k :: 0 <= k < |creators| ==>
                 ProcessedAt(tx, d, creators[k]) == MintCreated(created[k].mint, created[k].decimals)
    decreases |spots|
  {
    if spots != [] {
      var n := |spots| - 1;
      var init := Creators(tx, d, spots[..n]);
      assert forall k :: 0 <= k < |init| ==> init[k] == Creators(tx, d, spots)[k];
      CollectCreators(tx, d, spots[..n]);
    }
  }

  /** The mints created stand in order of execution, one for each instruction that creates one. */
  lemma CreatedInOrder(tx: Tx, d: Decoders, p: Parsed)
    requires Visited(tx, d, Spots(tx), p)
    ensures exists creators :: AreCreators(tx, d, p.created, creators)
  {
    SpotsFacts(tx, |tx.instructions|);
    CreatorsFacts(tx, d, Spots(tx));
    CollectCreators(tx, d, Spots(tx));
    assert AreCreators(tx, d, p.created, Creators(tx, d, Spots(tx)));
  }

  /** What is known of every transfer: its amount is positive, its parent is empty or passed both
      validators, and a transfer made by an outer instruction has no parent. */
  predicate Sound(t: Transfer, keys: seq<Address>) {
    && t.amount.Some? && t.amount.value > 0.0
    && Vouched(t, keys)
    && t.innerIndex >= -1 && (t.innerIndex == -1 ==> t.parent == NoAddress)
  }

  predicate AllSound(transfers: seq<Transfer>, keys: seq<Address>) {
    forall k :: 0 <= k < |transfers| ==> Sound(transfers[k], keys)
  }

  lemma TransferFacts(tx: Tx, d: Decoders, s: Spot)
    requires WellFormed(tx, d) && IsSpot(tx, s) && EmittedAt(tx, d, s).Some?
    ensures var t := EmittedAt(tx, d, s).value;
            Sound(t, AllAccountKeys(tx)) && t.innerIndex == InnerIndexOf(s) && t.ixIndex == IxIndexOf(s)
  {
  }

  lemma TransfersAreSound(tx: Tx, d: Decoders, p: Parsed)
    requires Visited(tx, d, Spots(tx), p)
    ensures AllSound(p.transfers, AllAccountKeys(tx))
  {
    ParsedInOrder(tx, d, p);
    var origins :| AreOrigins(tx, d, p.transfers, origins);
    forall k | 0 <= k < |p.transfers| ensures Sound(p.transfers[k], AllAccountKeys(tx)) {
      TransferFacts(tx, d, origins[k]);
    }
  }

  // ---------- finding a transfer by its place ----------

  predicate PlacesAreUnique(transfers: seq<Transfer>) {
    forall i, j :: 0 <= i < j < |transfers| ==>
      transfers[i].innerIndex != transfers[j].innerIndex || transfers[i].ixIndex != transfers[j].ixIndex
  }

  predicate SameNumbers(s: Spot, t: Spot) {
    s.Inner? && t.Inner? && s.ix == t.ix && s.at == t.at
  }

  predicate SameGroup(s: Spot, t: Spot) {
    s.Inner? && t.Inner? && s.group == t.group
  }

  /** No two inner groups of one instruction move something at the same position. */
  ghost predicate NoClash(tx: Tx, d: Decoders)
    requires WellFormed(tx, d)
  {
    forall s, t | IsSpot(tx, s) && IsSpot(tx, t) && EmittedAt(tx, d, s).Some? && EmittedAt(tx, d, t).Some? ::
      SameNumbers(s, t) ==> SameGroup(s, t)
  }

  predicate OneGroupPerIndex(tx: Tx) {
    forall g, h :: 0 <= g < h < |tx.inner| ==> tx.inner[g].index != tx.inner[h].index
  }

  lemma OneGroupNeverClashes(tx: Tx, d: Decoders)
    requires WellFormed(tx, d) && OneGroupPerIndex(tx)
    ensures NoClash(tx, d)
  {
  }

  lemma SamePlace(tx: Tx, d: Decoders, s: Spot, t: Spot)
    requires WellFormed(tx, d) && IsSpot(tx, s) && IsSpot(tx, t)
    requires EmittedAt(tx, d, s).Some? && EmittedAt(tx, d, t).Some?
    ensures var x, y := EmittedAt(tx, d, s).value, EmittedAt(tx, d, t).value;
            x.innerIndex == y.innerIndex && x.ixIndex == y.ixIndex <==>
            s.ix == t.ix && (s.Inner? <==> t.Inner?) && (s.Inner? ==> s.at == t.at)
  {
    TransferFacts(tx, d, s);
    TransferFacts(tx, d, t);
  }

  /** A transfer's two indices tell it from every other one exactly when no two groups clash, which
      holds when each instruction has one inner group. */
  lemma PlacesUniqueUnlessClash(tx: Tx, d: Decoders, p: Parsed)
    requires Visited(tx, d, Spots(tx), p)
    ensures PlacesAreUnique(p.transfers) <==> NoClash(tx, d)
    ensures OneGroupPerIndex(tx) ==> PlacesAreUnique(p.transfers)
  {
    ParsedInOrder(tx, d, p);
    var origins :| AreOrigins(tx, d, p.transfers, origins);
    if NoClash(tx, d) {
      NoClashIsUnique(tx, d, p.transfers, origins);
    } else {
      ClashIsSeen(tx, d, p.transfers, origins);
    }
    if OneGroupPerIndex(tx) {
      OneGroupNeverClashes(tx, d);
    }
  }

  lemma NoClashIsUnique(tx: Tx, d: Decoders, transfers: seq<Transfer>, origins: seq<Spot>)
    requires WellFormed(tx, d) && AreOrigins(tx, d, transfers, origins) && NoClash(tx, d)
    ensures PlacesAreUnique(transfers)
  {
    forall i, j | 0 <= i < j < |transfers|
      ensures transfers[i].innerIndex != transfers[j].innerIndex || transfers[i].ixIndex != transfers[j].ixIndex
    {
      PlacesDiffer(tx, d, origins[i], origins[j]);
    }
  }

  lemma PlacesDiffer(tx: Tx, d: Decoders, s: Spot, t: Spot)
    requires WellFormed(tx, d) && NoClash(tx, d) && IsSpot(tx, s) && IsSpot(tx, t) && Before(s, t)
    requires EmittedAt(tx, d, s).Some? && EmittedAt(tx, d, t).Some?
    ensures var x, y := EmittedAt(tx, d, s).value, EmittedAt(tx, d, t).value;
            x.innerIndex != y.innerIndex || x.ixIndex != y.ixIndex
  {
    SamePlace(tx, d, s, t);
    assert SameNumbers(s, t) ==> SameGroup(s, t);
  }

  lemma ClashIsSeen(tx: Tx, d: Decoders, transfers: seq<Transfer>, origins: seq<Spot>)
    requires WellFormed(tx, d) && AreOrigins(tx, d, transfers, origins) && !NoClash(tx, d)
    ensures !PlacesAreUnique(transfers)
  {
    var s, t :| IsSpot(tx, s) && IsSpot(tx, t) && SameNumbers(s, t)
                && EmittedAt(tx, d, s).Some? && EmittedAt(tx, d, t).Some? && !SameGroup(s, t);
    var i :| 0 <= i < |origins| && origins[i] == s;
    var j :| 0 <= j < |origins| && origins[j] == t;
    SamePlace(tx, d, s, t);
    assert transfers[i].innerIndex == transfers[j].innerIndex && transfers[i].ixIndex == transfers[j].ixIndex;
  }

  // A transaction with such a clash: a native transfer whose instruction has two inner groups of one more
  // native transfer each.

  const NATIVE := Instruction([1, 2], "", 0)

  const CLASHING := Tx([SystemProgram, Other("payer"), Other("payee")], [], [], None, [NATIVE],
                       [InnerGroup(0, [NATIVE]), InnerGroup(0, [NATIVE])], [], [], [""])

  function OneLamport(): Decoders {
    Decoders(_ => SystemData(SystemTransfer, 1), _ => TokenData(OtherToken, 0, 0, NoAddress))
  }

  lemma ClashingMoves(s: Spot)
    requires IsSpot(CLASHING, s)
    ensures At(CLASHING, s) == NATIVE && Complete(At(CLASHING, s), AllAccountKeys(CLASHING), OneLamport())
  {
  }

  lemma ClashingIsWellFormed()
    ensures WellFormed(CLASHING, OneLamport())
  {
    forall s | IsSpot(CLASHING, s)
      ensures Complete(At(CLASHING, s), AllAccountKeys(CLASHING), OneLamport()) && Traceable(CLASHING, s)
    {
      ClashingMoves(s);
    }
  }

  /** Its transfers do not have unique places. */
  lemma PlacesClash() returns (p: Parsed)
    ensures Visited(CLASHING, OneLamport(), Spots(CLASHING), p) && !PlacesAreUnique(p.transfers)
  {
    ClashingIsWellFormed();
    SpotsFacts(CLASHING, |CLASHING.instructions|);
    p := Collect(CLASHING, OneLamport(), Spots(CLASHING));
    PlacesUniqueUnlessClash(CLASHING, OneLamport(), p);
    GroupsClash();
  }

  lemma GroupsClash()
    requires WellFormed(CLASHING, OneLamport())
    ensures !NoClash(CLASHING, OneLamport())
  {
    var s, t := Inner(0, 0, 0), Inner(0, 1, 0);
    ClashingEmits(s);
    ClashingEmits(t);
    assert SameNumbers(s, t) && !SameGroup(s, t);
  }

  lemma ClashingEmits(s: Spot)
    requires WellFormed(CLASHING, OneLamport()) && IsSpot(CLASHING, s)
    ensures EmittedAt(CLASHING, OneLamport(), s).Some?
  {
    ClashingMoves(s);
    assert Scaled(1, 9) != 0.0;
  }

  predicate IsAt(t: Transfer, innerIndex: int, ixIndex: int) {
    t.innerIndex == innerIndex && t.ixIndex == ixIndex
  }

  /** The first transfer at the given place; the only one when places are unique. */
  method FindTransfer(transfers: seq<Transfer>, innerIndex: int, ixIndex: int) returns (found: Option<Transfer>)
    ensures found.None? <==> forall k :: 0 <= k < |transfers| ==> !IsAt(transfers[k], innerIndex, ixIndex)
    ensures found.Some? ==>
              exists k :: (0 <= k < |transfers| && transfers[k] == found.value && IsAt(found.value, innerIndex, ixIndex)
                           && (forall j :: 0 <= j < k ==> !IsAt(transfers[j], innerIndex, ixIndex))
                           && (PlacesAreUnique(transfers) ==>
                                 forall j :: k < j < |transfers| ==> !IsAt(transfers[j], innerIndex, ixIndex)))
  {
    var i := 0;
    while i < |transfers|
      invariant 0 <= i <= |transfers|
      invariant forall j :: 0 <= j < i ==> !IsAt(transfers[j], innerIndex, ixIndex)
    {
      if transfers[i].ixIndex == ixIndex && transfers[i].innerIndex == innerIndex {
        return Some(transfers[i]);
      }
      i := i + 1;
    }
    found := None;
  }
}
