/** Blocks from the message queue to the table: what `solanaWorker` of internal/solana/queue.go stores
    of the transactions it is given, joining `Broker`, `FanOut` and `Pipeline`. */
module Blocks {
  import opened Domain
  import opened PumpFunEvent
  import opened Transactions
  import opened TxParser
  import opened SwapTable
  import Broker
  import FanOut
  import Pipeline

  /** A decoded message. */
  datatype BlockData = BlockData(transactions: seq<Tx>, time: int, block: nat)

  /** No transaction of the block makes processing panic. */
  ghost predicate Processable(b: BlockData, d: Decoders, codec: Codec) {
    forall i :: 0 <= i < |b.transactions| ==> ProcessableTx(b.transactions[i], d, codec, b.time, b.block)
  }

  ghost predicate ProcessableTx(tx: Tx, d: Decoders, codec: Codec, time: int, block: nat) {
    && WellFormed(tx, d) && Pipeline.Servable(tx, d)
    && !Pipeline.LogPanics(tx) && !Pipeline.LacksSignature(tx, d, codec, time, block)
  }

  /** What processing number `i` of a block's transactions yields. */
  function OutcomeOf(b: BlockData, i: nat, d: Decoders, codec: Codec): seq<SwapLog>
    requires Processable(b, d, codec) && i < |b.transactions|
  {
    Pipeline.FinalOf(b.transactions[i], d, codec, b.time, b.block)
  }

  /** The work of a message: a body that does not decode, or the outcomes of its transactions. */
  function MessageOf(b: Option<BlockData>, d: Decoders, codec: Codec, workers: nat): Broker.Message
    requires b.Some? ==> Processable(b.value, d, codec)
  {
    if b.None? then Broker.Malformed else
    Broker.Block(FanOut.Job(seq(|b.value.transactions|, i requires 0 <= i < |b.value.transactions| =>
                                  FanOut.Swaps(OutcomeOf(b.value, i, d, codec))), workers))
  }

  /** Processing one transaction of such a block ends with its outcome. */
  method Process(b: BlockData, i: nat, d: Decoders, codec: Codec) returns (swaps: seq<SwapLog>)
    requires Processable(b, d, codec) && i < |b.transactions|
    ensures swaps == OutcomeOf(b, i, d, codec)
  {
    var outcome := Pipeline.ProcessTransaction(b.transactions[i], d, codec, b.time, b.block);
    swaps := outcome.swaps;
  }

  ghost predicate AllProcessable(blocks: seq<Option<BlockData>>, d: Decoders, codec: Codec) {
    forall k :: 0 <= k < |blocks| && blocks[k].Some? ==> Processable(blocks[k].value, d, codec)
  }

  function MessagesOf(blocks: seq<Option<BlockData>>, d: Decoders, codec: Codec, workers: nat): seq<Broker.Message>
    requires AllProcessable(blocks, d, codec)
  {
    seq(|blocks|, k requires 0 <= k < |blocks| => MessageOf(blocks[k], d, codec, workers))
  }

  /** A swap that comes out of one of the transactions of one of the blocks. */
  ghost predicate ComesFrom(blocks: seq<Option<BlockData>>, d: Decoders, codec: Codec, s: SwapLog)
    requires AllProcessable(blocks, d, codec)
  {
    exists k: nat, i: nat ::
      k < |blocks| && blocks[k].Some? && i < |blocks[k].value.transactions| &&
      s in OutcomeOf(blocks[k].value, i, d, codec)
  }

  lemma MessageSwaps(b: BlockData, d: Decoders, codec: Codec, workers: nat, s: SwapLog)
    requires Processable(b, d, codec)
    ensures s in Broker.SwapsOf(MessageOf(Some(b), d, codec, workers)) <==>
            exists i: nat :: i < |b.transactions| && s in OutcomeOf(b, i, d, codec)
  {
    var job := MessageOf(Some(b), d, codec, workers).job;
    FanOut.AllResultsMember(job, s);
    forall i: nat | i < |b.transactions| ensures FanOut.ResultOf(job, i) == OutcomeOf(b, i, d, codec) {
    }
  }

  lemma MessagesSwaps(blocks: seq<Option<BlockData>>, d: Decoders, codec: Codec, workers: nat, s: SwapLog)
    requires AllProcessable(blocks, d, codec)
    ensures Broker.CalledFor(MessagesOf(blocks, d, codec, workers), s) <==> ComesFrom(blocks, d, codec, s)
  {
    var messages := MessagesOf(blocks, d, codec, workers);
    forall k: nat | k < |blocks| && blocks[k].Some?
      ensures s in Broker.SwapsOf(messages[k]) <==>
              exists i: nat :: i < |blocks[k].value.transactions| && s in OutcomeOf(blocks[k].value, i, d, codec)
    {
      MessageSwaps(blocks[k].value, d, codec, workers, s);
    }
    if Broker.CalledFor(messages, s) {
      var k: nat :| k < |messages| && s in Broker.SwapsOf(messages[k]);
      assert blocks[k].Some?;
    }
    if ComesFrom(blocks, d, codec, s) {
      var k: nat, i: nat :| k < |blocks| && blocks[k].Some? && i < |blocks[k].value.transactions| &&
                            s in OutcomeOf(blocks[k].value, i, d, codec);
      assert s in Broker.SwapsOf(messages[k]);
    }
  }

  /** From the queue to the table: whatever is redelivered, fails or crashes, once the queue is drained the
      keys in the table are exactly those of the swaps of the published blocks' transactions. */
  lemma TableOfBlocks(blocks: seq<Option<BlockData>>, d: Decoders, codec: Codec, workers: nat,
                      pool: nat, events: seq<Broker.Event>)
    requires AllProcessable(blocks, d, codec)
    requires Broker.IsRun(Broker.Start(pool), events) && Broker.Drained(Broker.End(Broker.Start(pool), events))
    requires Broker.End(Broker.Start(pool), events).published == MessagesOf(blocks, d, codec, workers)
    ensures forall key :: key in Broker.End(Broker.Start(pool), events).rows <==>
                          exists s :: KeyOf(s) == key && ComesFrom(blocks, d, codec, s)
  {
    Broker.DrainedTable(pool, events);
    TableIsKeys(blocks, d, codec, workers, Broker.End(Broker.Start(pool), events));
  }

  lemma TableIsKeys(blocks: seq<Option<BlockData>>, d: Decoders, codec: Codec, workers: nat, end: Broker.System)
    requires AllProcessable(blocks, d, codec) && end.published == MessagesOf(blocks, d, codec, workers)
    requires end.rows.Keys == Broker.AllKeys(end.published)
    ensures forall key :: key in end.rows <==> exists s :: KeyOf(s) == key && ComesFrom(blocks, d, codec, s)
  {
    forall key
      ensures key in Broker.AllKeys(end.published) <==> exists s :: KeyOf(s) == key && ComesFrom(blocks, d, codec, s)
    {
      if key in Broker.AllKeys(end.published) {
        var id: nat :| id < |end.published| && key in Keys(Broker.SwapsOf(end.published[id]));
        var s :| s in Broker.SwapsOf(end.published[id]) && KeyOf(s) == key;
        MessagesSwaps(blocks, d, codec, workers, s);
      }
      if s :| KeyOf(s) == key && ComesFrom(blocks, d, codec, s) {
        MessagesSwaps(blocks, d, codec, workers, s);
        var id: nat :| id < |end.published| && s in Broker.SwapsOf(end.published[id]);
        assert key in Keys(Broker.SwapsOf(end.published[id]));
      }
    }
  }

  lemma {:induction false} PublishAll(messages: seq<Broker.Message>, pool: nat) returns (events: seq<Broker.Event>)
    ensures Broker.IsRun(Broker.Start(pool), events)
    ensures Broker.End(Broker.Start(pool), events).published == messages
    decreases |messages|
  {
    if messages == [] {
      events := [];
    } else {
      var n := |messages| - 1;
      var before := PublishAll(messages[..n], pool);
      var e := Broker.Publish(messages[n]);
      var s := Broker.End(Broker.Start(pool), before);
      assert [e][1..] == [];
      assert Broker.End(Broker.Next(s, e), []) == Broker.Next(s, e);
      Broker.RunAppend(Broker.Start(pool), before, [e]);
      events := before + [e];
    }
  }

  /** Such a run exists for all blocks, with at least one worker: they are published, handled and stored. */
  lemma BlocksGetThrough(blocks: seq<Option<BlockData>>, d: Decoders, codec: Codec, workers: nat, pool: nat)
    returns (events: seq<Broker.Event>)
    requires AllProcessable(blocks, d, codec) && pool > 0
    ensures Broker.IsRun(Broker.Start(pool), events)
    ensures var end := Broker.End(Broker.Start(pool), events);
            && end.published == MessagesOf(blocks, d, codec, workers)
            && (forall k: nat :: k < |blocks| ==>
                  Broker.PlaceOf(end, k) == if blocks[k].Some? then Broker.Acknowledged else Broker.Rejected)
            && (forall key :: key in end.rows <==> exists s :: KeyOf(s) == key && ComesFrom(blocks, d, codec, s))
  {
    var publishing := PublishAll(MessagesOf(blocks, d, codec, workers), pool);
    var more := Broker.EveryMessageGetsThrough(pool, publishing, 0);
    events := publishing + more;
    var end := Broker.End(Broker.Start(pool), events);
    forall k: nat | k < |blocks|
      ensures Broker.PlaceOf(end, k) == if blocks[k].Some? then Broker.Acknowledged else Broker.Rejected
    {
      assert end.published[k] == MessageOf(blocks[k], d, codec, workers);
    }
    TableIsKeys(blocks, d, codec, workers, end);
  }

  /** The row is of one of the blocks: it has its number and time, and the first signature of one of its
      transactions. */
  predicate IsOfBlock(blocks: seq<Option<BlockData>>, s: SwapLog) {
    exists b <- blocks :: b.Some? && s.block == b.value.block && s.time == b.value.time &&
      exists tx <- b.value.transactions :: tx.signatures != [] && s.id == tx.signatures[0]
  }

  /** At any moment of any run every row of the table comes from one of the published blocks, with its context,
      and so has the amounts the profit calculation relies on. */
  lemma RowsAreStorable(blocks: seq<Option<BlockData>>, d: Decoders, codec: Codec, workers: nat,
                        pool: nat, events: seq<Broker.Event>)
    requires AllProcessable(blocks, d, codec) && Broker.IsRun(Broker.Start(pool), events)
    requires Broker.End(Broker.Start(pool), events).published == MessagesOf(blocks, d, codec, workers)
    ensures var rows := Broker.End(Broker.Start(pool), events).rows;
            forall key <- rows ::
              ComesFrom(blocks, d, codec, rows[key]) && IsOfBlock(blocks, rows[key]) && Storable(rows[key])
  {
    var end := Broker.End(Broker.Start(pool), events);
    Broker.StartInv(pool);
    Broker.RowsAreCalledFor(Broker.Start(pool), events);
    forall key | key in end.rows
      ensures ComesFrom(blocks, d, codec, end.rows[key]) && IsOfBlock(blocks, end.rows[key])
      ensures Storable(end.rows[key])
    {
      MessagesSwaps(blocks, d, codec, workers, end.rows[key]);
      OutcomesAreStorable(blocks, d, codec, end.rows[key]);
    }
  }

  lemma OutcomesAreStorable(blocks: seq<Option<BlockData>>, d: Decoders, codec: Codec, s: SwapLog)
    requires AllProcessable(blocks, d, codec) && ComesFrom(blocks, d, codec, s)
    ensures Storable(s) && IsOfBlock(blocks, s)
  {
    var k: nat, i: nat :| k < |blocks| && blocks[k].Some? && i < |blocks[k].value.transactions| &&
                          s in OutcomeOf(blocks[k].value, i, d, codec);
    var b := blocks[k].value;
    Pipeline.RecordsAreStorable(b.transactions[i], d, codec, b.time, b.block);
    Pipeline.RecordsCarryContext(b.transactions[i], d, codec, b.time, b.block);
    assert blocks[k] in blocks && b.transactions[i] in b.transactions;
  }
}
