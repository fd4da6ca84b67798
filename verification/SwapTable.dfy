/** The swap table and the bounded retry in front of it: `InsertSwaps` of
    internal/db/timescale_repo.go and `insertBatch` of internal/solana/queue.go.

    An insert is one statement, so it happens as a whole or not at all; a row whose key is
    already present is skipped.  The key leaves out the wallet and the token. */
module SwapTable {
  import opened Domain

  datatype Key = Key(id: string, pair: Address, action: SwapAction, amountOut: real, amountIn: real,
                     time: int, block: nat)

  function KeyOf(s: SwapLog): Key {
    Key(s.id, s.pair, s.action, s.amountOut, s.amountIn, s.time, s.block)
  }

  /** Two swaps compete for a row iff they agree in everything but wallet, source and token. */
  lemma SameKey(s: SwapLog, t: SwapLog)
    ensures KeyOf(s) == KeyOf(t) <==>
            t == s.(wallet := t.wallet, source := t.source, token := t.token)
  {
  }

  type Rows = map<Key, SwapLog>

  function Insert(rows: Rows, swaps: seq<SwapLog>): Rows
    decreases |swaps|
  {
    if swaps == [] then rows
    else Insert(InsertOne(rows, swaps[0]), swaps[1..])
  }

  function Keys(swaps: seq<SwapLog>): set<Key> {
    set s <- swaps :: KeyOf(s)
  }

  function InsertOne(rows: Rows, s: SwapLog): Rows {
    if KeyOf(s) in rows then rows else rows[KeyOf(s) := s]
  }

  /** Rows are added, never changed: afterwards the keys are the union, old rows are as before,
      and each new row is one of the inserted swaps. */
  lemma {:induction false} InsertAdds(rows: Rows, swaps: seq<SwapLog>)
    ensures Insert(rows, swaps).Keys == rows.Keys + Keys(swaps)
    ensures forall k <- rows :: Insert(rows, swaps)[k] == rows[k]
    ensures forall k <- Insert(rows, swaps) :: k in rows || IsRowOf(Insert(rows, swaps)[k], k, swaps)
    decreases |swaps|
  {
    if swaps != [] {
      InsertAdds(InsertOne(rows, swaps[0]), swaps[1..]);
      KeysCons(swaps);
    }
  }

  predicate IsRowOf(row: SwapLog, k: Key, swaps: seq<SwapLog>) {
    row in swaps && KeyOf(row) == k
  }

  lemma KeysCons(swaps: seq<SwapLog>)
    requires swaps != []
    ensures Keys(swaps) == {KeyOf(swaps[0])} + Keys(swaps[1..])
  {
    assert swaps == [swaps[0]] + swaps[1..];
  }

  /** Of the swaps that compete for a free row the first of the batch gets it. */
  lemma {:induction false} FirstGetsRow(rows: Rows, swaps: seq<SwapLog>, i: nat)
    requires i < |swaps| && KeyOf(swaps[i]) !in rows && forall j :: 0 <= j < i ==> KeyOf(swaps[j]) != KeyOf(swaps[i])
    ensures KeyOf(swaps[i]) in Insert(rows, swaps) && Insert(rows, swaps)[KeyOf(swaps[i])] == swaps[i]
    decreases |swaps|
  {
    if i == 0 {
      InsertAdds(InsertOne(rows, swaps[0]), swaps[1..]);
    } else {
      FirstGetsRow(InsertOne(rows, swaps[0]), swaps[1..], i - 1);
    }
  }

  /** Inserting swaps whose keys are all present changes nothing: redelivery is harmless. */
  lemma {:induction false} InsertKnown(rows: Rows, swaps: seq<SwapLog>)
    requires Keys(swaps) <= rows.Keys
    ensures Insert(rows, swaps) == rows
    decreases |swaps|
  {
    if swaps != [] {
      assert KeyOf(swaps[0]) in Keys(swaps);
      assert forall s <- swaps[1..] :: s in swaps;
      InsertKnown(rows, swaps[1..]);
    }
  }

  lemma InsertTwice(rows: Rows, swaps: seq<SwapLog>)
    ensures Insert(Insert(rows, swaps), swaps) == Insert(rows, swaps)
  {
    InsertAdds(rows, swaps);
    InsertKnown(Insert(rows, swaps), swaps);
  }

  /** The key set does not depend on the order in which the results of a block arrive. */
  lemma KeysPermute(a: seq<SwapLog>, b: seq<SwapLog>)
    requires multiset(a) == multiset(b)
    ensures Keys(a) == Keys(b)
  {
    forall s: SwapLog ensures s in a <==> s in b {
      assert s in multiset(a) <==> s in multiset(b);
    }
  }

  /** No two different swaps share a key that is not in the table yet. */
  predicate KeyInjective(rows: Rows, swaps: seq<SwapLog>) {
    forall s <- swaps, t <- swaps :: KeyOf(s) == KeyOf(t) && KeyOf(s) !in rows ==> s == t
  }

  ghost predicate OrderFree(rows: Rows, swaps: seq<SwapLog>) {
    forall other :: multiset(other) == multiset(swaps) ==> Insert(rows, other) == Insert(rows, swaps)
  }

  /** The rows themselves, unlike their keys, are independent of the order of insertion exactly
      when different swaps have different new keys: two swaps that differ only in wallet or token
      compete for one row, and the first one wins. */
  lemma RowsAreOrderFree(rows: Rows, swaps: seq<SwapLog>)
    ensures OrderFree(rows, swaps) <==> KeyInjective(rows, swaps)
  {
    if KeyInjective(rows, swaps) {
      forall other | multiset(other) == multiset(swaps) ensures Insert(rows, other) == Insert(rows, swaps) {
        SameRows(rows, other, swaps);
      }
    } else {
      var i, j :| 0 <= i < |swaps| && 0 <= j < |swaps| && KeyOf(swaps[i]) == KeyOf(swaps[j])
                  && KeyOf(swaps[i]) !in rows && swaps[i] != swaps[j];
      var x := ToFront(rows, swaps, i);
      var y := ToFront(rows, swaps, j);
      assert Insert(rows, x)[KeyOf(swaps[i])] != Insert(rows, y)[KeyOf(swaps[j])];
    }
  }

  lemma SameRows(rows: Rows, a: seq<SwapLog>, b: seq<SwapLog>)
    requires multiset(a) == multiset(b) && KeyInjective(rows, b)
    ensures Insert(rows, a) == Insert(rows, b)
  {
    InsertAdds(rows, a);
    InsertAdds(rows, b);
    KeysPermute(a, b);
    forall k | k in Insert(rows, a) ensures Insert(rows, a)[k] == Insert(rows, b)[k] {
      if k !in rows {
        assert IsRowOf(Insert(rows, a)[k], k, a) && IsRowOf(Insert(rows, b)[k], k, b);
        assert Insert(rows, a)[k] in multiset(b);
      }
    }
  }

  /** A rearrangement in which a given swap comes first, and so gets the row. */
  lemma ToFront(rows: Rows, swaps: seq<SwapLog>, i: nat) returns (front: seq<SwapLog>)
    requires i < |swaps| && KeyOf(swaps[i]) !in rows
    ensures multiset(front) == multiset(swaps)
    ensures KeyOf(swaps[i]) in Insert(rows, front) && Insert(rows, front)[KeyOf(swaps[i])] == swaps[i]
  {
    front := [swaps[i]] + (swaps[..i] + swaps[i + 1..]);
    assert swaps == swaps[..i] + [swaps[i]] + swaps[i + 1..];
    assert front[1..] == swaps[..i] + swaps[i + 1..];
    InsertAdds(rows[KeyOf(swaps[i]) := swaps[i]], front[1..]);
  }

  // ---------- the repository and the retry ----------

  /** What may happen to an insert statement: the database may also commit it and the caller
      still see an error. */
  datatype Attempt = Committed | Failed | CommittedButFailed

  const MAX_RETRIES := 3

  class Repository {
    var rows: Rows

    method InsertSwaps(swaps: seq<SwapLog>, attempt: Attempt) returns (ok: bool)
      modifies this
      ensures swaps == [] ==> ok && rows == old(rows)
      ensures swaps != [] ==> ok == attempt.Committed?
      ensures swaps != [] ==> rows == if attempt.Failed? then old(rows) else Insert(old(rows), swaps)
    {
      if |swaps| == 0 {
        return true;
      }
      if !attempt.Failed? {
        var i := 0;
        ghost var start := rows;
        while i < |swaps|
          invariant 0 <= i <= |swaps|
          invariant Insert(rows, swaps[i..]) == Insert(start, swaps)
        {
          assert swaps[i..][0] == swaps[i] && swaps[i..][1..] == swaps[i + 1..];
          if KeyOf(swaps[i]) !in rows {
            rows := rows[KeyOf(swaps[i]) := swaps[i]];
          }
          i := i + 1;
        }
      }
      ok := attempt.Committed?;
    }

    /** At most three attempts.  It reports success iff one of them did, and the table then holds
        the batch exactly once; after a failure it holds the batch or not, but never a part. */
    method InsertBatch(swaps: seq<SwapLog>, attempts: seq<Attempt>) returns (ok: bool)
      requires swaps != [] && |attempts| == MAX_RETRIES
      modifies this
      ensures ok <==> Committed in attempts
      ensures rows == if exists k :: 0 <= k < |attempts| && !attempts[k].Failed? then Insert(old(rows), swaps)
                      else old(rows)
    {
      var retry := 0;
      while retry < MAX_RETRIES
        invariant 0 <= retry <= MAX_RETRIES
        invariant forall k :: 0 <= k < retry ==> !attempts[k].Committed?
        invariant rows == if exists k :: 0 <= k < retry && !attempts[k].Failed? then Insert(old(rows), swaps)
                          else old(rows)
      {
        InsertTwice(old(rows), swaps);
        var done := InsertSwaps(swaps, attempts[retry]);
        if done {
          return true;
        }
        retry := retry + 1;
      }
      ok := false;
    }
  }
}
