/** Finding and filling the gaps between processed blocks: `FindMissingBlocks` of
    internal/db/timescale_repo.go, `HandleBackFill` of internal/solana/backfill.go and one round
    of the endless loop of cmd/backfill/main.go. */
module Gaps {
  import opened Domain

  datatype Range = Range(lo: int, hi: int)

  predicate Ascending(blocks: seq<int>) {
    forall i, j :: 0 <= i < j < |blocks| ==> blocks[i] < blocks[j]
  }

  /** A leading block zero is not considered. */
  function Kept(blocks: seq<int>): seq<int> {
    if blocks != [] && blocks[0] == 0 then blocks[1..] else blocks
  }

  predicate Covers(ranges: seq<Range>, x: int) {
    exists r <- ranges :: r.lo <= x <= r.hi
  }

  /** Sorted, non-empty, disjoint and not adjacent: the ranges are maximal runs. */
  predicate Separated(ranges: seq<Range>) {
    && (forall i :: 0 <= i < |ranges| ==> ranges[i].lo <= ranges[i].hi)
    && (forall i, j :: 0 <= i < j < |ranges| ==> ranges[i].hi + 1 < ranges[j].lo)
  }

  /** The unmarked numbers strictly between the first and the last of the given blocks. */
  predicate Missing(kept: seq<int>, x: int) {
    kept != [] && kept[0] < x < kept[|kept| - 1] && x !in kept
  }

  /** What the gap search owes: the maximal runs of the missing numbers. */
  ghost predicate Complement(ranges: seq<Range>, kept: seq<int>) {
    Separated(ranges) && forall x :: Covers(ranges, x) <==> Missing(kept, x)
  }

  /** The gap search.  Its input is what the query returns: distinct and ascending. */
  method FindMissingBlocks(blockNumbers: seq<int>) returns (ranges: seq<Range>)
    requires Ascending(blockNumbers)
    ensures Complement(ranges, Kept(blockNumbers))
  {
    ranges := [];
    if |blockNumbers| == 0 {
      return;
    }
    var blocks := blockNumbers;
    if blocks[0] == 0 {
      blocks := blocks[1..];
    }
    var i := 1;
    while i < |blocks|
      invariant 1 <= i
      invariant if blocks == [] then ranges == [] else i <= |blocks| && ranges == GapsAmong(blocks, i)
    {
      var gap := blocks[i] - blocks[i - 1] - 1;
      assert GapsAmong(blocks, i + 1) == WithGap(ranges, blocks, i);
      if gap > 0 {
        ranges := ranges + [Range(blocks[i - 1] + 1, blocks[i] - 1)];
      }
      i := i + 1;
    }
    GapsAreComplement(blocks);
  }

  /** The gaps among the first `i` blocks. */
  function GapsAmong(blocks: seq<int>, i: nat): seq<Range>
    requires 1 <= i <= |blocks|
  {
    if i == 1 then [] else WithGap(GapsAmong(blocks, i - 1), blocks, i - 1)
  }

  /** The gap in front of block `i`, if there is one, after others. */
  function WithGap(ranges: seq<Range>, blocks: seq<int>, i: nat): seq<Range>
    requires 1 <= i < |blocks|
  {
    var r := Range(blocks[i - 1] + 1, blocks[i] - 1);
    if r.lo <= r.hi then ranges + [r] else ranges
  }

  lemma {:induction false} GapsAreSearched(blocks: seq<int>, i: nat)
    requires Ascending(blocks) && 1 <= i <= |blocks|
    ensures Searched(GapsAmong(blocks, i), blocks, i)
    decreases i
  {
    if i > 1 {
      var before := GapsAmong(blocks, i - 1);
      GapsAreSearched(blocks, i - 1);
      NextGaps(before, blocks, i - 1);
      assert GapsAmong(blocks, i) == WithGap(before, blocks, i - 1);
    } else {
      NothingSearched(blocks);
    }
  }

  lemma GapsAreComplement(blocks: seq<int>)
    requires Ascending(blocks)
    ensures Complement(if blocks == [] then [] else GapsAmong(blocks, |blocks|), blocks)
  {
    if blocks != [] {
      GapsAreSearched(blocks, |blocks|);
      assert blocks[..|blocks|] == blocks;
    }
  }

  /** The gaps among the first `i` blocks are found. */
  ghost predicate Searched(ranges: seq<Range>, blocks: seq<int>, i: nat)
    requires 1 <= i <= |blocks|
  {
    Complement(ranges, blocks[..i]) && forall r <- ranges :: r.hi < blocks[i - 1]
  }

  lemma NothingSearched(blocks: seq<int>)
    requires Ascending(blocks)
    ensures if blocks == [] then Complement([], blocks) else Searched([], blocks, 1)
  {
  }

  lemma NextGaps(ranges: seq<Range>, blocks: seq<int>, i: nat)
    requires Ascending(blocks) && 1 <= i < |blocks| && Searched(ranges, blocks, i)
    ensures Searched(WithGap(ranges, blocks, i), blocks, i + 1)
  {
    var next := WithGap(ranges, blocks, i);
    forall x ensures Covers(next, x) <==> Missing(blocks[..i + 1], x) {
      NextGap(ranges, blocks, i, x);
    }
    assert forall k :: 0 <= k < |ranges| ==> ranges[k] in ranges;
  }

  /** One more block adds exactly the gap before it. */
  lemma NextGap(ranges: seq<Range>, blocks: seq<int>, i: nat, x: int)
    requires Ascending(blocks) && 1 <= i < |blocks|
    requires Covers(ranges, x) <==> Missing(blocks[..i], x)
    ensures Covers(WithGap(ranges, blocks, i), x) <==> Missing(blocks[..i + 1], x)
  {
    var r := Range(blocks[i - 1] + 1, blocks[i] - 1);
    assert x in blocks[..i + 1] <==> x in blocks[..i] || x == blocks[i];
    assert blocks[..i][0] == blocks[0] && blocks[..i + 1][0] == blocks[0];
    assert blocks[..i][|blocks[..i]| - 1] == blocks[i - 1];
    assert blocks[..i + 1][|blocks[..i + 1]| - 1] == blocks[i];
    assert blocks[i - 1] in blocks[..i];
    if r.lo <= x <= r.hi {
      assert x !in blocks[..i];
    }
    if r.lo <= r.hi {
      assert r in ranges + [r];
      if Covers(ranges + [r], x) && !(r.lo <= x <= r.hi) {
        var q :| q in ranges + [r] && q.lo <= x <= q.hi;
        assert q in ranges;
      }
      if Covers(ranges, x) {
        var q :| q in ranges && q.lo <= x <= q.hi;
        assert q in ranges + [r];
      }
    }
  }

  ghost predicate SameCover(a: seq<Range>, b: seq<Range>) {
    forall x :: Covers(a, x) <==> Covers(b, x)
  }

  /** There is only one such list of ranges, so the search's postcondition says all. */
  lemma {:induction false} RangesAreUnique(a: seq<Range>, b: seq<Range>)
    requires Separated(a) && Separated(b) && SameCover(a, b)
    ensures a == b
    decreases |a|
  {
    if a == [] {
      NothingCovered(a, b);
    } else {
      SameHead(a, b);
      TailsAgree(a, b);
      RangesAreUnique(a[1..], b[1..]);
      assert a == [a[0]] + a[1..] && b == [b[0]] + b[1..];
    }
  }

  lemma NothingCovered(a: seq<Range>, b: seq<Range>)
    requires a == [] && Separated(b) && SameCover(a, b)
    ensures b == []
  {
    if b != [] {
      HeadCovers(b, b[0].lo);
    }
  }

  lemma SameHead(a: seq<Range>, b: seq<Range>)
    requires Separated(a) && Separated(b) && a != [] && SameCover(a, b)
    ensures b != [] && a[0] == b[0]
  {
    HeadCovers(a, a[0].lo);
    assert Covers(b, a[0].lo);
    HeadsAgree(a, b);
    HeadsAgree(b, a);
  }

  lemma TailsAgree(a: seq<Range>, b: seq<Range>)
    requires Separated(a) && Separated(b) && a != [] && b != [] && a[0] == b[0] && SameCover(a, b)
    ensures SameCover(a[1..], b[1..])
  {
    forall x ensures Covers(a[1..], x) <==> Covers(b[1..], x) {
      TailCovers(a, x);
      TailCovers(b, x);
    }
  }

  lemma HeadCovers(a: seq<Range>, x: int)
    requires a != [] && a[0].lo <= x <= a[0].hi
    ensures Covers(a, x)
  {
    assert a[0] in a;
  }

  lemma TailCovers(a: seq<Range>, x: int)
    requires Separated(a) && a != []
    ensures Covers(a[1..], x) <==> Covers(a, x) && x > a[0].hi
  {
    if Covers(a[1..], x) {
      var i :| 0 <= i < |a[1..]| && a[1..][i].lo <= x <= a[1..][i].hi;
      assert a[i + 1] in a;
    }
    if Covers(a, x) && x > a[0].hi {
      var i :| 0 <= i < |a| && a[i].lo <= x <= a[i].hi;
      assert a[1..][i - 1] in a[1..];
    }
  }

  /** The least covered number is the first range's low end, and the first uncovered number after
      it is just past its high end. */
  lemma HeadsAgree(a: seq<Range>, b: seq<Range>)
    requires Separated(a) && Separated(b) && a != [] && b != [] && SameCover(a, b)
    ensures a[0].lo >= b[0].lo
    ensures a[0].lo == b[0].lo ==> a[0].hi <= b[0].hi
  {
    HeadCovers(a, a[0].lo);
    var i :| 0 <= i < |b| && b[i].lo <= a[0].lo <= b[i].hi;
    PastHead(b);
    OutsideHead(a, b[0].hi + 1);
  }

  lemma PastHead(a: seq<Range>)
    requires Separated(a) && a != []
    ensures !Covers(a, a[0].hi + 1)
  {
  }

  lemma OutsideHead(a: seq<Range>, x: int)
    requires a != [] && !Covers(a, x)
    ensures !(a[0].lo <= x <= a[0].hi)
  {
    assert a[0] in a;
  }

  // ---------- filling ----------

  /** What a node answers for a block number: a block, an error object such as a skipped slot, or
      nothing, which ends the process. */
  datatype Answer = Found | BlockError | Unreachable

  datatype Status = Completed | NoSlot | Died

  /** What the nodes answer, for which blocks marking succeeds, and which blocks the queue accepts: both
      failures are ignored, and publishing fails silently when the connection, the declaration of the
      queue, the encoding or the publication fails. */
  datatype World = World(answers: int -> Answer, marks: int -> bool, publishes: int -> bool)

  predicate Handed(w: World, x: int) {
    w.answers(x).Found? && w.publishes(x)
  }

  /** The blocks of a range that reach the queue, in order. */
  function Enqueued(w: World, lo: int, hi: int): seq<int>
    decreases hi - lo + 1
  {
    if lo > hi then [] else Enqueued(w, lo, hi - 1) + if Handed(w, hi) then [hi] else []
  }

  /** The blocks of a range whose marking succeeds. */
  function Marked(w: World, lo: int, hi: int): set<int>
    decreases hi - lo + 1
  {
    if lo > hi then {} else Marked(w, lo, hi - 1) + if w.marks(hi) then {hi} else {}
  }

  /** A block that a node is asked for. */
  datatype Request = Request(block: int, node: int)

  /** The requests for the blocks of a range: round robin by block number. */
  function Requests(lo: int, hi: int, nodes: nat): seq<Request>
    requires nodes > 0
    decreases hi - lo + 1
  {
    if lo > hi then [] else Requests(lo, hi - 1, nodes) + [Request(hi, hi % nodes)]
  }

  /** The block that ended the process, if one did, was asked for as well. */
  function LastRequest(alive: bool, bound: int, nodes: nat): seq<Request>
    requires nodes > 0
  {
    if alive then [] else [Request(bound, bound % nodes)]
  }

  predicate IsAskedFor(calls: seq<Request>, x: int) {
    exists c <- calls :: c.block == x
  }

  /** The last block of a range that is asked for without a fatal error. */
  function Reached(w: World, lo: int, hi: int): int
    decreases hi - lo + 1
  {
    if lo > hi || w.answers(lo).Unreachable? then lo - 1 else Reached(w, lo + 1, hi)
  }

  /** What a backfill leaves behind. */
  datatype Books = Books(marked: set<int>, queue: seq<int>, calls: seq<Request>)

  class Backfill {
    var marked: set<int>
    var queue: seq<int>
    ghost var calls: seq<Request>  // the requests to the nodes, in order

    ghost function State(): Books
      reads this
    {
      Books(marked, queue, calls)
    }

    /** One range.  `slot` is the current slot, asked for only when the range ends at zero. */
    method HandleBackFill(startBlock: int, endBlock: int, slot: Option<int>, nodes: nat, w: World)
      returns (status: Status)
      requires 0 <= startBlock && nodes > 0
      modifies this
      ensures status.NoSlot? <==> endBlock == 0 && slot.None?
      ensures status.NoSlot? ==> marked == old(marked) && queue == old(queue) && calls == old(calls)
      ensures !status.NoSlot? ==>
                var toBlock := if endBlock == 0 then slot.value else endBlock;
                var last := Reached(w, startBlock, toBlock);
                && (status.Completed? <==> last >= toBlock)
                && marked == old(marked) + Marked(w, startBlock, last)
                && queue == old(queue) + Enqueued(w, startBlock, last)
                && calls == old(calls) + Requests(startBlock, if last < toBlock then last + 1 else last, nodes)
    {
      var toBlock := endBlock;
      if toBlock == 0 {
        if slot.None? {
          return NoSlot;
        }
        toBlock := slot.value;
      }
      status := WalkRange(startBlock, toBlock, nodes, w);
    }

    /** The counter loop. */
    method WalkRange(startBlock: int, toBlock: int, nodes: nat, w: World) returns (status: Status)
      requires 0 <= startBlock && nodes > 0
      modifies this
      ensures !status.NoSlot?
      ensures status.Completed? <==> Reached(w, startBlock, toBlock) >= toBlock
      ensures marked == old(marked) + Marked(w, startBlock, Reached(w, startBlock, toBlock))
      ensures queue == old(queue) + Enqueued(w, startBlock, Reached(w, startBlock, toBlock))
      ensures var last := Reached(w, startBlock, toBlock);
              calls == old(calls) + Requests(startBlock, if last < toBlock then last + 1 else last, nodes)
    {
      var i := startBlock;
      while i <= toBlock
        invariant startBlock <= i
        invariant Reached(w, startBlock, toBlock) == Reached(w, i, toBlock)
        invariant i > startBlock ==> i <= toBlock + 1
        invariant marked == old(marked) + Marked(w, startBlock, i - 1)
        invariant queue == old(queue) + Enqueued(w, startBlock, i - 1)
        invariant calls == old(calls) + Requests(startBlock, i - 1, nodes)
      {
        var alive := OneBlock(i, nodes, w);
        assert Requests(startBlock, i, nodes) == Requests(startBlock, i - 1, nodes) + [Request(i, i % nodes)];
        assert calls == old(calls) + Requests(startBlock, i, nodes);
        if !alive {
          return Died;
        }
        assert marked == old(marked) + Marked(w, startBlock, i);
        assert Enqueued(w, startBlock, i) == Enqueued(w, startBlock, i - 1) + if Handed(w, i) then [i] else [];
        assert queue == old(queue) + Enqueued(w, startBlock, i);
        i := i + 1;
      }
      status := Completed;
    }

    /** The body of the loop: ask a node, mark the block, enqueue it unless the answer is an error. */
    method OneBlock(i: int, nodes: nat, w: World) returns (alive: bool)
      requires 0 <= i && nodes > 0
      modifies this
      ensures alive <==> !w.answers(i).Unreachable?
      ensures calls == old(calls) + [Request(i, i % nodes)]
      ensures marked == old(marked) + if alive && w.marks(i) then {i} else {}
      ensures queue == old(queue) + if Handed(w, i) then [i] else []
    {
      calls := calls + [Request(i, i % nodes)];
      var answer := w.answers(i);
      if answer.Unreachable? {
        return false;
      }
      if w.marks(i) {
        marked := marked + {i};
      }
      if answer.Found? {
        if w.publishes(i) {
          queue := queue + [i];
        }
      }
      alive := true;
    }

    /** A range with a positive end is filled up to the block a node ends the process at, if any. */
    method FillRange(r: Range, nodes: nat, w: World) returns (alive: bool, ghost last: int)
      requires 0 < r.lo <= r.hi && nodes > 0
      modifies this
      ensures r.lo - 1 <= last <= r.hi && (alive <==> last == r.hi)
      ensures forall x :: r.lo <= x <= last ==> !w.answers(x).Unreachable?
      ensures !alive ==> w.answers(last + 1).Unreachable?
      ensures marked == old(marked) + Marked(w, r.lo, last)
      ensures queue == old(queue) + Enqueued(w, r.lo, last)
      ensures calls == old(calls) + (Requests(r.lo, last, nodes) + LastRequest(alive, last + 1, nodes))
    {
      ReachedFacts(w, r.lo, r.hi);
      last := Reached(w, r.lo, r.hi);
      var status := HandleBackFill(r.lo, r.hi, None, nodes, w);
      alive := status.Completed?;
    }

    /** One range of several, of which those before it are filled. */
    method FillNext(ranges: seq<Range>, i: nat, nodes: nat, w: World, ghost from: Books)
      returns (alive: bool, ghost done: seq<Range>, ghost bound: int)
      requires nodes > 0 && i < |ranges| && 0 < ranges[i].lo <= ranges[i].hi
      requires FilledTo(w, ranges[..i], nodes, from, State(), [])
      modifies this
      ensures FilledTo(w, done, nodes, from, State(), LastRequest(alive, bound, nodes))
      ensures alive ==> done == ranges[..i + 1]
      ensures !alive ==> IsCutOff(ranges, i, bound - 1, done) && w.answers(bound).Unreachable?
    {
      ghost var last, before := 0, State();
      alive, last := FillRange(ranges[i], nodes, w);
      ghost var r := Range(ranges[i].lo, last);
      done, bound := ranges[..i] + [r], last + 1;
      FilledOneMore(w, ranges[..i], r, nodes, from, before, State(), LastRequest(alive, bound, nodes));
      assert alive ==> r == ranges[i];
    }

    /** The worker that drains the channel of ranges.  `done` are the ranges as far as they were filled:
        all that is below `bound`. */
    method FillAll(ranges: seq<Range>, nodes: nat, w: World)
      returns (alive: bool, ghost done: seq<Range>, ghost bound: int)
      requires nodes > 0 && Separated(ranges) && forall k :: 0 <= k < |ranges| ==> 0 < ranges[k].lo
      modifies this
      ensures FilledTo(w, done, nodes, old(State()), State(), LastRequest(alive, bound, nodes))
      ensures Ordered(done) && DoneBelow(done, ranges, bound)
      ensures alive ==> done == ranges
      ensures !alive ==> Covers(ranges, bound) && w.answers(bound).Unreachable?
    {
      var i := 0;
      alive, done := true, [];
      while i < |ranges|
        invariant 0 <= i <= |ranges| && done == ranges[..i]
        invariant FilledTo(w, done, nodes, old(State()), State(), [])
      {
        alive, done, bound := FillNext(ranges, i, nodes, w, old(State()));
        if !alive {
          CutOff(ranges, i, bound - 1, done);
          return;
        }
        i := i + 1;
      }
      alive := true;
      bound := if ranges == [] then 0 else ranges[|ranges| - 1].hi + 1;
      WholeIsDone(ranges, bound);
    }

    /** One round: search the gaps and fill them all.  It handles exactly the missing blocks below
        `bound`, which is past all of them unless a node ended the process there.  Of these, a block is
        marked iff marking succeeds and enqueued iff it exists and the queue accepts it, and none twice.
        The next search finds exactly the missing blocks that were not marked, so nothing if every mark
        succeeds.  A block that exists is in neither, and so lost, iff it was marked and not accepted.
        No range ends at zero, so the current slot is never needed. */
    method Round(nodes: nat, w: World) returns (status: Status, ghost bound: int)
      requires nodes > 0 && forall x <- marked :: x >= 0
      modifies this
      ensures !status.NoSlot? && old(queue) <= queue
      ensures forall x :: x in marked <==> x in old(marked) || (WasMissing(old(marked), x) && x < bound && w.marks(x))
      ensures forall x :: x in queue[|old(queue)|..] <==> WasMissing(old(marked), x) && x < bound && Handed(w, x)
      ensures Ascending(queue[|old(queue)|..])
      ensures old(calls) <= calls
      ensures forall x :: IsAskedFor(calls[|old(calls)|..], x) <==>
                          WasMissing(old(marked), x) && (x < bound || (status.Died? && x == bound))
      ensures forall x :: WasMissing(marked, x) <==> WasMissing(old(marked), x) && !(x < bound && w.marks(x))
      ensures forall x :: WasMissing(old(marked), x) && x < bound ==> !w.answers(x).Unreachable?
      ensures status.Completed? ==> forall x :: WasMissing(old(marked), x) ==> x < bound
      ensures status.Died? ==> WasMissing(old(marked), bound) && w.answers(bound).Unreachable?
      ensures forall x :: WasMissing(old(marked), x) && x < bound && w.answers(x).Found? ==>
                (x !in queue[|old(queue)|..] && !WasMissing(marked, x) <==> w.marks(x) && !w.publishes(x))
    {
      SortedFacts(marked);
      var ranges := FindMissingBlocks(Sorted(marked));
      forall k | 0 <= k < |ranges| ensures 0 < ranges[k].lo <= ranges[k].hi {
        RangeIsPositive(marked, ranges, k);
      }
      ghost var done;
      var alive;
      alive, done, bound := FillAll(ranges, nodes, w);
      RoundFacts(old(marked), ranges, done, bound, w);
      RoundRequests(old(marked), ranges, done, bound, alive, nodes);
      assert queue[|old(queue)|..] == EnqueuedIn(w, done);
      assert calls[|old(calls)|..] == RequestsIn(done, nodes) + LastRequest(alive, bound, nodes);
      status := if alive then Completed else Died;
    }

    /** Rounds one after the other, as long as the process lives: a block that is marked is never asked for
        and never enqueued, whatever happens later. */
    method Rounds(nodes: nat, worlds: seq<World>) returns (status: Status)
      requires nodes > 0 && forall x <- marked :: x >= 0
      modifies this
      ensures old(queue) <= queue && old(marked) <= marked && old(calls) <= calls
      ensures forall x :: x in old(marked) ==> x !in queue[|old(queue)|..]
      ensures forall x :: x in old(marked) ==> !IsAskedFor(calls[|old(calls)|..], x)
    {
      var i := 0;
      status := Completed;
      while i < |worlds| && status.Completed?
        invariant 0 <= i <= |worlds|
        invariant old(queue) <= queue && old(marked) <= marked && forall x <- marked :: x >= 0
        invariant old(calls) <= calls
        invariant forall x :: x in old(marked) ==> x !in queue[|old(queue)|..]
        invariant forall x :: x in old(marked) ==> !IsAskedFor(calls[|old(calls)|..], x)
      {
        ghost var before, seen, asked := marked, queue, calls;
        ghost var bound;
        status, bound := Round(nodes, worlds[i]);
        MissingIsPositive(before);
        forall x | x in old(marked) ensures x !in queue[|old(queue)|..] {
          MarkedIsNotMissing(before, x);
          NotAdded(old(queue), seen, queue, x);
        }
        forall x | x in old(marked) ensures !IsAskedFor(calls[|old(calls)|..], x) {
          MarkedIsNotMissing(before, x);
          NotAsked(old(calls), asked, calls, x);
        }
        i := i + 1;
      }
    }
  }

  lemma NotAdded(first: seq<int>, seen: seq<int>, queue: seq<int>, x: int)
    requires first <= seen <= queue && x !in seen[|first|..] && x !in queue[|seen|..]
    ensures x !in queue[|first|..]
  {
    assert queue[|first|..] == seen[|first|..] + queue[|seen|..];
  }

  lemma NotAsked(first: seq<Request>, seen: seq<Request>, calls: seq<Request>, x: int)
    requires first <= seen <= calls && !IsAskedFor(seen[|first|..], x) && !IsAskedFor(calls[|seen|..], x)
    ensures !IsAskedFor(calls[|first|..], x)
  {
    assert calls[|first|..] == seen[|first|..] + calls[|seen|..];
  }

  /** No block of the gaps is marked, and all are positive. */
  lemma MarkedIsNotMissing(marked: set<int>, x: int)
    requires x in marked && forall y <- marked :: y >= 0
    ensures !WasMissing(marked, x)
  {
    SortedFacts(marked);
    KeptFacts(Sorted(marked));
    MissingIsPositive(marked);
  }

  lemma MissingIsPositive(marked: set<int>)
    requires forall y <- marked :: y >= 0
    ensures forall x :: WasMissing(marked, x) ==> x > 0
  {
    SortedFacts(marked);
    KeptFacts(Sorted(marked));
    var kept := Kept(Sorted(marked));
    assert kept != [] ==> kept[0] in kept;
  }

  /** Every block exists and is marked, and the queue accepts none. */
  function LosingWorld(): (w: World)
    ensures forall x :: w.answers(x).Found? && w.marks(x) && !Handed(w, x)
  {
    World(_ => Found, _ => true, _ => false)
  }

  /** In such a world a round loses every block of the gaps, whatever was marked before. */
  method LoseAll(b: Backfill)
    requires forall x <- b.marked :: x >= 0
    modifies b
    ensures forall x :: x in b.marked <==> x in old(b.marked) || WasMissing(old(b.marked), x)
    ensures b.queue == old(b.queue) && forall x :: !WasMissing(b.marked, x)
  {
    var w := LosingWorld();
    ghost var bound := 0;
    var status;
    status, bound := b.Round(1, w);
    LosingEnds(bound, status, w);
    ghost var added := b.queue[|old(b.queue)|..];
    NoneAdded(added, w);
    assert b.queue == old(b.queue) + added;
  }

  /** A block that exists, is marked and not accepted by the queue is lost: block two here. */
  method LoseBlock(b: Backfill)
    requires b.marked == {1, 3}
    modifies b
    ensures b.marked == {1, 2, 3} && b.queue == old(b.queue) && forall x :: !WasMissing(b.marked, x)
  {
    GapOfOne(b.marked);
    LoseAll(b);
    OneTwoThree(b.marked);
  }

  lemma LosingEnds(bound: int, status: Status, w: World)
    requires w == LosingWorld() && !status.NoSlot? && (status.Died? ==> w.answers(bound).Unreachable?)
    ensures status.Completed?
  {
    assert w.answers(bound).Found?;
  }

  lemma NoneAdded(added: seq<int>, w: World)
    requires w == LosingWorld() && forall x :: x in added ==> Handed(w, x)
    ensures added == []
  {
    Inhabited(added);
    assert forall x :: !Handed(w, x);
  }

  lemma Inhabited(s: seq<int>)
    ensures s != [] ==> exists x :: x in s
  {
    if s != [] {
      var x := s[0];
      assert x in s;
    }
  }

  lemma OneTwoThree(s: set<int>)
    requires forall x :: x in s <==> x == 1 || x == 2 || x == 3
    ensures s == {1, 2, 3}
  {
    assert forall x :: x in s <==> x in {1, 2, 3};
  }

  lemma GapOfOne(s: set<int>)
    requires s == {1, 3}
    ensures forall x :: WasMissing(s, x) <==> x == 2
  {
    SortedFacts(s);
    KeptFacts(Sorted(s));
    var kept := Kept(Sorted(s));
    forall x ensures x in kept <==> x == 1 || x == 3 {
      assert x in Sorted(s) <==> x in s;
    }
    OneAndThree(kept);
  }

  lemma OneAndThree(kept: seq<int>)
    requires Ascending(kept) && forall x :: x in kept <==> x == 1 || x == 3
    ensures forall x :: Missing(kept, x) <==> x == 2
  {
    assert 1 in kept && 3 in kept;
    Ends(kept, 1, 3);
  }

  lemma Ends(blocks: seq<int>, least: int, most: int)
    requires Ascending(blocks) && least in blocks && most in blocks && forall x <- blocks :: least <= x <= most
    ensures blocks[0] == least && blocks[|blocks| - 1] == most
  {
    assert blocks[0] in blocks && blocks[|blocks| - 1] in blocks;
  }

  function MarkedIn(w: World, ranges: seq<Range>): set<int> {
    if ranges == [] then {} else
    var r := ranges[|ranges| - 1];
    MarkedIn(w, ranges[..|ranges| - 1]) + Marked(w, r.lo, r.hi)
  }

  function EnqueuedIn(w: World, ranges: seq<Range>): seq<int> {
    if ranges == [] then [] else
    var r := ranges[|ranges| - 1];
    EnqueuedIn(w, ranges[..|ranges| - 1]) + Enqueued(w, r.lo, r.hi)
  }

  function RequestsIn(ranges: seq<Range>, nodes: nat): seq<Request>
    requires nodes > 0
  {
    if ranges == [] then [] else
    var r := ranges[|ranges| - 1];
    RequestsIn(ranges[..|ranges| - 1], nodes) + Requests(r.lo, r.hi, nodes)
  }

  lemma AskedOneMore(calls0: seq<Request>, done: seq<Range>, r: Range, nodes: nat, last: seq<Request>,
                     seen: seq<Request>, calls: seq<Request>)
    requires nodes > 0 && seen == calls0 + (RequestsIn(done, nodes) + [])
    requires calls == seen + (Requests(r.lo, r.hi, nodes) + last)
    ensures calls == calls0 + (RequestsIn(done + [r], nodes) + last)
  {
    assert (done + [r])[..|done|] == done;
  }

  lemma {:induction false} RequestsFacts(lo: int, hi: int, nodes: nat, x: int)
    requires nodes > 0
    ensures IsAskedFor(Requests(lo, hi, nodes), x) <==> lo <= x <= hi
    decreases hi - lo + 1
  {
    if lo <= hi {
      RequestsFacts(lo, hi - 1, nodes, x);
      AskedAppend(Requests(lo, hi - 1, nodes), [Request(hi, hi % nodes)], x);
    }
  }

  lemma AskedAppend(a: seq<Request>, b: seq<Request>, x: int)
    ensures IsAskedFor(a + b, x) <==> IsAskedFor(a, x) || IsAskedFor(b, x)
  {
    if IsAskedFor(a, x) {
      var c :| c in a && c.block == x;
      assert c in a + b;
    }
    if IsAskedFor(b, x) {
      var c :| c in b && c.block == x;
      assert c in a + b;
    }
  }

  /** The requests for ranges are for the blocks they cover. */
  lemma {:induction false} RequestsInFacts(ranges: seq<Range>, nodes: nat, x: int)
    requires nodes > 0
    ensures IsAskedFor(RequestsIn(ranges, nodes), x) <==> Covers(ranges, x)
    decreases |ranges|
  {
    if ranges != [] {
      var n := |ranges| - 1;
      RequestsInFacts(ranges[..n], nodes, x);
      assert ranges[..n] + [ranges[n]] == ranges;
      CoversSnoc(ranges[..n], ranges[n], x);
      RequestsFacts(ranges[n].lo, ranges[n].hi, nodes, x);
      AskedAppend(RequestsIn(ranges[..n], nodes), Requests(ranges[n].lo, ranges[n].hi, nodes), x);
    }
  }

  lemma RoundRequests(before: set<int>, ranges: seq<Range>, done: seq<Range>, bound: int, alive: bool, nodes: nat)
    requires nodes > 0 && Complement(ranges, Kept(Sorted(before))) && DoneBelow(done, ranges, bound)
    requires !alive ==> Covers(ranges, bound)
    ensures forall x :: IsAskedFor(RequestsIn(done, nodes) + LastRequest(alive, bound, nodes), x) <==>
                        WasMissing(before, x) && (x < bound || (!alive && x == bound))
  {
    forall x
      ensures IsAskedFor(RequestsIn(done, nodes) + LastRequest(alive, bound, nodes), x) <==>
              WasMissing(before, x) && (x < bound || (!alive && x == bound))
    {
      RequestsInFacts(done, nodes, x);
      AskedAppend(RequestsIn(done, nodes), LastRequest(alive, bound, nodes), x);
      if !alive {
        assert LastRequest(alive, bound, nodes)[0].block == bound;
      }
    }
  }

  /** The ranges follow each other; the last may be empty. */
  predicate Ordered(ranges: seq<Range>) {
    forall i, j :: 0 <= i < j < |ranges| ==> ranges[i].hi < ranges[j].lo
  }

  /** What was done of the ranges is what lies below the bound. */
  ghost predicate DoneBelow(done: seq<Range>, ranges: seq<Range>, bound: int) {
    forall x :: Covers(done, x) <==> Covers(ranges, x) && x < bound
  }

  lemma WholeIsDone(ranges: seq<Range>, bound: int)
    requires Separated(ranges) && bound == if ranges == [] then 0 else ranges[|ranges| - 1].hi + 1
    ensures Ordered(ranges) && DoneBelow(ranges, ranges, bound)
  {
    forall x | Covers(ranges, x) ensures x < bound {
      var k :| 0 <= k < |ranges| && ranges[k].lo <= x <= ranges[k].hi;
      assert k < |ranges| - 1 ==> ranges[k].hi + 1 < ranges[|ranges| - 1].lo;
    }
  }

  /** The ranges cut off after block `last` of range `i`. */
  predicate IsCutOff(ranges: seq<Range>, i: nat, last: int, done: seq<Range>)
    requires i < |ranges|
  {
    ranges[i].lo - 1 <= last < ranges[i].hi && done == ranges[..i] + [Range(ranges[i].lo, last)]
  }

  lemma CutOff(ranges: seq<Range>, i: nat, last: int, done: seq<Range>)
    requires Separated(ranges) && i < |ranges| && IsCutOff(ranges, i, last, done)
    ensures Ordered(done) && DoneBelow(done, ranges, last + 1) && Covers(ranges, last + 1)
  {
    assert forall k :: i < k < |ranges| ==> ranges[i].hi + 1 < ranges[k].lo;
    InRange(ranges, i, last + 1);
    forall x ensures Covers(done, x) <==> Covers(ranges, x) && x < last + 1 {
      if Covers(done, x) {
        var k :| 0 <= k < |done| && done[k].lo <= x <= done[k].hi;
        assert ranges[k] in ranges;
        assert k < i ==> ranges[k].hi + 1 < ranges[i].lo;
      }
      if Covers(ranges, x) && x < last + 1 {
        var k :| 0 <= k < |ranges| && ranges[k].lo <= x <= ranges[k].hi;
        assert done[k] in done;
      }
    }
  }

  /** No node ends the process on a block of the ranges. */
  ghost predicate Spares(w: World, ranges: seq<Range>) {
    forall x :: Covers(ranges, x) ==> !w.answers(x).Unreachable?
  }

  lemma SparesSnoc(ranges: seq<Range>, r: Range, w: World)
    requires Spares(w, ranges) && forall x :: r.lo <= x <= r.hi ==> !w.answers(x).Unreachable?
    ensures Spares(w, ranges + [r])
  {
    forall x | Covers(ranges + [r], x) ensures !w.answers(x).Unreachable? {
      CoversSnoc(ranges, r, x);
    }
  }

  lemma Associate(a: seq<int>, b: seq<int>, c: seq<int>)
    ensures (a + b) + c == a + (b + c)
  {
  }

  /** What filling `done` makes of marks, queue and requests, with the request that ended the process, if one
      did. */
  ghost predicate FilledTo(w: World, done: seq<Range>, nodes: nat, from: Books, to: Books, last: seq<Request>)
    requires nodes > 0
  {
    && to.marked == from.marked + MarkedIn(w, done) && to.queue == from.queue + EnqueuedIn(w, done)
    && to.calls == from.calls + (RequestsIn(done, nodes) + last) && Spares(w, done)
  }

  lemma FilledOneMore(w: World, done: seq<Range>, r: Range, nodes: nat, from: Books, seen: Books, to: Books,
                      last: seq<Request>)
    requires nodes > 0 && FilledTo(w, done, nodes, from, seen, [])
    requires forall x :: r.lo <= x <= r.hi ==> !w.answers(x).Unreachable?
    requires to == Books(seen.marked + Marked(w, r.lo, r.hi), seen.queue + Enqueued(w, r.lo, r.hi),
                         seen.calls + (Requests(r.lo, r.hi, nodes) + last))
    ensures FilledTo(w, done + [r], nodes, from, to, last)
  {
    FilledSnoc(done, r, w);
    Associate(from.queue, EnqueuedIn(w, done), Enqueued(w, r.lo, r.hi));
    SparesSnoc(done, r, w);
    AskedOneMore(from.calls, done, r, nodes, last, seen.calls, to.calls);
  }

  lemma FilledSnoc(ranges: seq<Range>, r: Range, w: World)
    ensures MarkedIn(w, ranges + [r]) == MarkedIn(w, ranges) + Marked(w, r.lo, r.hi)
    ensures EnqueuedIn(w, ranges + [r]) == EnqueuedIn(w, ranges) + Enqueued(w, r.lo, r.hi)
  {
    assert (ranges + [r])[..|ranges|] == ranges;
  }

  /** Filling ranges marks and enqueues the numbers they cover, as far as the world lets it. */
  lemma {:induction false} FilledFacts(ranges: seq<Range>, w: World, x: int)
    ensures x in MarkedIn(w, ranges) <==> Covers(ranges, x) && w.marks(x)
    ensures x in EnqueuedIn(w, ranges) <==> Covers(ranges, x) && Handed(w, x)
    decreases |ranges|
  {
    if ranges != [] {
      var n := |ranges| - 1;
      FilledFacts(ranges[..n], w, x);
      assert ranges[..n] + [ranges[n]] == ranges;
      CoversSnoc(ranges[..n], ranges[n], x);
      MarkedFacts(w, ranges[n].lo, ranges[n].hi);
      EnqueuedFacts(w, ranges[n].lo, ranges[n].hi);
    }
  }

  /** The blocks reach the queue in ascending order, so none twice. */
  lemma {:induction false} EnqueuedOnce(ranges: seq<Range>, w: World)
    requires Ordered(ranges)
    ensures Ascending(EnqueuedIn(w, ranges))
    decreases |ranges|
  {
    if ranges != [] {
      var n := |ranges| - 1;
      EnqueuedOnce(ranges[..n], w);
      EnqueuedFacts(w, ranges[n].lo, ranges[n].hi);
      forall x | x in EnqueuedIn(w, ranges[..n]) ensures x < ranges[n].lo {
        FilledFacts(ranges[..n], w, x);
        var k :| 0 <= k < n && ranges[..n][k].lo <= x <= ranges[..n][k].hi;
        assert ranges[k].hi < ranges[n].lo;
      }
      AscendingAppend(EnqueuedIn(w, ranges[..n]), Enqueued(w, ranges[n].lo, ranges[n].hi));
    }
  }

  lemma AscendingAppend(a: seq<int>, b: seq<int>)
    requires Ascending(a) && Ascending(b) && forall x, y :: x in a && y in b ==> x < y
    ensures Ascending(a + b)
  {
    forall i, j | 0 <= i < j < |a + b| ensures (a + b)[i] < (a + b)[j] {
      if i < |a| <= j {
        assert a[i] in a && b[j - |a|] in b;
      }
    }
  }

  lemma RoundFacts(before: set<int>, ranges: seq<Range>, done: seq<Range>, bound: int, w: World)
    requires forall x <- before :: x >= 0
    requires Complement(ranges, Kept(Sorted(before))) && DoneBelow(done, ranges, bound)
    requires Ordered(done) && Spares(w, done)
    ensures forall x :: x in MarkedIn(w, done) <==> WasMissing(before, x) && x < bound && w.marks(x)
    ensures forall x :: x in EnqueuedIn(w, done) <==> WasMissing(before, x) && x < bound && Handed(w, x)
    ensures forall x :: WasMissing(before + MarkedIn(w, done), x) <==>
                        WasMissing(before, x) && !(x < bound && w.marks(x))
    ensures forall x :: WasMissing(before, x) && x < bound ==> !w.answers(x).Unreachable?
    ensures Ascending(EnqueuedIn(w, done))
  {
    forall x
      ensures x in MarkedIn(w, done) <==> WasMissing(before, x) && x < bound && w.marks(x)
      ensures x in EnqueuedIn(w, done) <==> WasMissing(before, x) && x < bound && Handed(w, x)
    {
      FilledFacts(done, w, x);
    }
    StillMissing(before, before + MarkedIn(w, done), x => x < bound && w.marks(x));
    EnqueuedOnce(done, w);
  }

  ghost predicate WasMissing(marked: set<int>, x: int) {
    Missing(Kept(Sorted(marked)), x)
  }

  lemma RangeIsPositive(marked: set<int>, ranges: seq<Range>, i: nat)
    requires forall x <- marked :: x >= 0
    requires i < |ranges| && Complement(ranges, Kept(Sorted(marked)))
    ensures 0 < ranges[i].lo <= ranges[i].hi
  {
    SortedFacts(marked);
    InRange(ranges, i, ranges[i].lo);
    var kept := Kept(Sorted(marked));
    KeptFacts(Sorted(marked));
    assert kept[0] in kept;
  }

  lemma InRange(ranges: seq<Range>, i: nat, x: int)
    requires i < |ranges| && ranges[i].lo <= x <= ranges[i].hi
    ensures Covers(ranges, x)
  {
    assert ranges[i] in ranges;
  }

  lemma {:induction false} ReachedFacts(w: World, lo: int, hi: int)
    requires lo <= hi + 1
    ensures lo - 1 <= Reached(w, lo, hi) <= hi
    ensures forall x :: lo <= x <= Reached(w, lo, hi) ==> !w.answers(x).Unreachable?
    ensures Reached(w, lo, hi) < hi ==> w.answers(Reached(w, lo, hi) + 1).Unreachable?
    decreases hi - lo + 1
  {
    if lo <= hi && !w.answers(lo).Unreachable? {
      ReachedFacts(w, lo + 1, hi);
    }
  }

  lemma CoversSnoc(ranges: seq<Range>, r: Range, x: int)
    ensures Covers(ranges + [r], x) <==> Covers(ranges, x) || r.lo <= x <= r.hi
  {
    assert r in ranges + [r];
  }

  lemma {:induction false} EnqueuedFacts(w: World, lo: int, hi: int)
    ensures forall x :: x in Enqueued(w, lo, hi) <==> lo <= x <= hi && Handed(w, x)
    ensures Ascending(Enqueued(w, lo, hi))
    decreases hi - lo + 1
  {
    if lo <= hi {
      EnqueuedFacts(w, lo, hi - 1);
      AscendingAppend(Enqueued(w, lo, hi - 1), if Handed(w, hi) then [hi] else []);
    }
  }

  lemma {:induction false} MarkedFacts(w: World, lo: int, hi: int)
    ensures forall x :: x in Marked(w, lo, hi) <==> lo <= x <= hi && w.marks(x)
    decreases hi - lo + 1
  {
    if lo <= hi {
      MarkedFacts(w, lo, hi - 1);
    }
  }

  // ---------- the query ----------

  lemma NonEmpty(s: set<int>)
    ensures s == {} || exists x :: x in s
  {
    if forall x :: x !in s {
      assert s == {};
    }
  }

  lemma {:induction false} HasMaximum(s: set<int>)
    requires s != {}
    ensures exists m :: m in s && forall x <- s :: x <= m
    decreases s
  {
    NonEmpty(s);
    var a :| a in s;
    assert forall x <- s :: x == a || x in s - {a};
    if s - {a} != {} {
      HasMaximum(s - {a});
      var b :| b in s - {a} && forall x <- s - {a} :: x <= b;
      var m := if a <= b then b else a;
      assert m in s && forall x <- s :: x <= m;
    }
  }

  /** The stored block numbers in ascending order. */
  function Sorted(s: set<int>): seq<int>
    decreases s
  {
    if s == {} then [] else
    HasMaximum(s);
    var m :| m in s && forall x <- s :: x <= m;
    Sorted(s - {m}) + [m]
  }

  lemma {:induction false} SortedFacts(s: set<int>)
    ensures Ascending(Sorted(s)) && forall x :: x in Sorted(s) <==> x in s
    decreases s
  {
    if s != {} {
      HasMaximum(s);
      var m :| m in s && forall x <- s :: x <= m;
      SortedFacts(s - {m});
      var t := Sorted(s - {m});
      assert forall i :: 0 <= i < |t| ==> t[i] in t;
    }
  }

  /** Marking some of the gaps of `before` leaves the others: the first and the last block that
      bound the search do not move. */
  lemma StillMissing(before: set<int>, after: set<int>, marks: int -> bool)
    requires forall x <- before :: x >= 0
    requires forall x :: x in after <==> x in before || (WasMissing(before, x) && marks(x))
    ensures forall x :: WasMissing(after, x) <==> WasMissing(before, x) && !marks(x)
  {
    SortedFacts(before);
    SortedFacts(after);
    var kb, ka := Kept(Sorted(before)), Kept(Sorted(after));
    KeptFacts(Sorted(before));
    forall x | x in after ensures x >= 0 {
      if x !in before {
        assert kb[0] in kb;
      }
    }
    KeptFacts(Sorted(after));
    SameBounds(kb, ka);
  }

  lemma SameBounds(kb: seq<int>, ka: seq<int>)
    requires Ascending(kb) && Ascending(ka)
    requires forall x <- kb :: x in ka
    requires forall x <- ka :: x in kb || Missing(kb, x)
    ensures ka == [] <==> kb == []
    ensures ka != [] ==> ka[0] == kb[0] && ka[|ka| - 1] == kb[|kb| - 1]
  {
    if kb != [] {
      assert kb[0] in kb;
      assert kb[0] in ka;
    }
    if ka != [] {
      assert ka[0] in ka && ka[|ka| - 1] in ka;
      Inside(kb, ka[0]);
      Inside(kb, ka[|ka| - 1]);
      assert kb[0] in ka && kb[|kb| - 1] in ka;
      Inside(ka, kb[0]);
      Inside(ka, kb[|kb| - 1]);
    }
  }

  lemma Inside(kept: seq<int>, x: int)
    requires Ascending(kept) && (x in kept || Missing(kept, x))
    ensures kept != [] && kept[0] <= x <= kept[|kept| - 1]
  {
  }

  lemma KeptFacts(blocks: seq<int>)
    requires Ascending(blocks) && forall x <- blocks :: x >= 0
    ensures Ascending(Kept(blocks)) && forall x :: x in Kept(blocks) <==> x in blocks && x != 0
  {
    if blocks != [] && blocks[0] == 0 {
      assert blocks == [0] + blocks[1..];
    } else if blocks != [] {
      assert blocks[0] in blocks;
    }
  }

  // ---------- the load of the nodes ----------

  /** How many requests of a range go to node `r`. */
  function NodeLoad(calls: seq<Request>, r: int): nat {
    if calls == [] then 0 else NodeLoad(calls[..|calls| - 1], r) + if calls[|calls| - 1].node == r then 1 else 0
  }

  /** How many of the numbers below `m` leave remainder `r`. */
  function Below(m: nat, n: nat, r: int): nat
    requires n > 0
  {
    m / n + if r < m % n then 1 else 0
  }

  lemma {:induction false} LoadIsDifference(lo: nat, hi: int, nodes: nat, r: nat)
    requires r < nodes && lo <= hi + 1
    ensures NodeLoad(Requests(lo, hi, nodes), r) == Below(hi + 1, nodes, r) - Below(lo, nodes, r)
    decreases hi - lo + 1
  {
    if lo <= hi {
      LoadIsDifference(lo, hi - 1, nodes, r);
      assert Requests(lo, hi, nodes)[..|Requests(lo, hi - 1, nodes)|] == Requests(lo, hi - 1, nodes);
      OneMore(hi, nodes, r);
    }
  }

  /** Consecutive blocks are spread over the nodes so evenly that two nodes never differ by more
      than one request in a range. */
  lemma LoadsAreBalanced(lo: nat, hi: int, nodes: nat, r: nat, q: nat)
    requires r < nodes && q < nodes && lo <= hi + 1
    ensures -1 <= NodeLoad(Requests(lo, hi, nodes), r) - NodeLoad(Requests(lo, hi, nodes), q) <= 1
  {
    LoadIsDifference(lo, hi, nodes, r);
    LoadIsDifference(lo, hi, nodes, q);
  }

  lemma OneMore(m: nat, n: nat, r: nat)
    requires r < n
    ensures Below(m + 1, n, r) == Below(m, n, r) + if m % n == r then 1 else 0
  {
    var d, k := m / n, m % n;
    DivMod(m, n);
    if k + 1 < n {
      Unique(m + 1, n, d, k + 1);
    } else {
      Distribute(n, d);
      Unique(m + 1, n, d + 1, 0);
    }
  }

  lemma DivMod(m: nat, n: nat)
    requires n > 0
    ensures m == n * (m / n) + m % n
  {
  }

  lemma Distribute(n: nat, d: int)
    ensures n * (d + 1) == n * d + n
  {
  }

  /** Quotient and remainder are unique. */
  lemma Unique(m: nat, n: nat, d: nat, k: nat)
    requires k < n && m == n * d + k
    ensures m / n == d && m % n == k
  {
    var e, l := m / n, m % n;
    DivMod(m, n);
    if e < d {
      Gap(n, e, d);
    } else if e > d {
      Gap(n, d, e);
    }
  }

  lemma Gap(n: nat, a: int, b: int)
    requires a < b
    ensures n * a + n <= n * b
  {
    var d := b - a - 1;
    assert n * d >= 0;
    assert n * b == n * (a + 1 + d) == n * a + n + n * d;
  }
}
