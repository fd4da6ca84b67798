/** The goroutines that process one message in `solanaWorker` (internal/solana/queue.go).

    A producer sends the transactions of a block to a buffered channel and closes it; workers
    take them, process them and send each result over an unbuffered channel; a closer waits for
    the workers and closes the result channel; the collector appends results until then.  Every
    interleaving is a sequence of the atomic actions below.  Sending on a closed channel, closing
    a channel twice and a negative wait-group counter are panics. */
module FanOut {

  /** What processing a transaction yields; an error yields nothing and is skipped. */
  datatype Outcome<T> = Swaps(swaps: seq<T>) | Error

  datatype Job<T> = Job(outcomes: seq<Outcome<T>>, workers: nat)

  datatype Worker = Idle | Busy(tx: nat) | Sending(tx: nat) | Done

  datatype State<T> = State(
    sent: nat, producerDone: bool,
    txChan: seq<nat>, txClosed: bool,
    workers: seq<Worker>, wg: int,
    closerDone: bool, swapsClosed: bool,
    swaps: seq<T>, collectorDone: bool,
    received: seq<nat>, failed: seq<nat>,
    panicked: bool)

  datatype Action = Produce | CloseTx | Take(w: nat) | Process(w: nat) | Hand(w: nat) | Exit(w: nat) |
                    CloseSwaps | Finish

  function Init<T>(job: Job<T>): State<T> {
    State(0, false, [], false, seq(job.workers, i => Idle), job.workers, false, false, [], false, [], [], false)
  }

  predicate Enabled<T>(job: Job<T>, s: State<T>, a: Action) {
    !s.panicked &&
    match a
    case Produce => s.sent < |job.outcomes| && (s.txClosed || |s.txChan| < |job.outcomes|)
    case CloseTx => s.sent == |job.outcomes| && !s.producerDone
    case Take(w) => w < |s.workers| && s.workers[w].Idle? && s.txChan != []
    case Process(w) => w < |s.workers| && s.workers[w].Busy? && s.workers[w].tx < |job.outcomes|
    case Hand(w) =>
      && w < |s.workers| && s.workers[w].Sending? && s.workers[w].tx < |job.outcomes|
      && job.outcomes[s.workers[w].tx].Swaps?
      && (s.swapsClosed || !s.collectorDone)
    case Exit(w) => w < |s.workers| && s.workers[w].Idle? && s.txChan == [] && s.txClosed
    case CloseSwaps => s.wg == 0 && !s.closerDone
    case Finish => s.swapsClosed && !s.collectorDone
  }

  function Apply<T>(job: Job<T>, s: State<T>, a: Action): State<T>
    requires Enabled(job, s, a)
  {
    match a
    case Produce =>
      if s.txClosed then s.(panicked := true)
      else s.(txChan := s.txChan + [s.sent], sent := s.sent + 1)
    case CloseTx =>
      if s.txClosed then s.(panicked := true) else s.(txClosed := true, producerDone := true)
    case Take(w) =>
      s.(workers := s.workers[w := Busy(s.txChan[0])], txChan := s.txChan[1..])
    case Process(w) =>
      var tx := s.workers[w].tx;
      if job.outcomes[tx].Error? then s.(workers := s.workers[w := Idle], failed := s.failed + [tx])
      else s.(workers := s.workers[w := Sending(tx)])
    case Hand(w) =>
      var tx := s.workers[w].tx;
      if s.swapsClosed then s.(panicked := true)
      else s.(workers := s.workers[w := Idle], swaps := s.swaps + job.outcomes[tx].swaps,
              received := s.received + [tx])
    case Exit(w) =>
      s.(workers := s.workers[w := Done], wg := s.wg - 1, panicked := s.wg - 1 < 0)
    case CloseSwaps =>
      if s.swapsClosed then s.(panicked := true) else s.(swapsClosed := true, closerDone := true)
    case Finish => s.(collectorDone := true)
  }

  // ---------- accounting ----------

  predicate Holds(w: Worker, tx: nat) {
    (w.Busy? || w.Sending?) && w.tx == tx
  }

  function HeldCount(workers: seq<Worker>, tx: nat): nat {
    if workers == [] then 0 else (if Holds(workers[0], tx) then 1 else 0) + HeldCount(workers[1..], tx)
  }

  function Active(w: Worker): nat { if w.Busy? || w.Sending? then 1 else 0 }

  function Live(w: Worker): nat { if w.Done? then 0 else 1 }

  function Weight(w: Worker): nat {
    match w case Idle => 1 case Busy(_) => 3 case Sending(_) => 2 case Done => 0
  }

  /** How many workers hold a transaction, how many have not left, and what they still have to do. */
  datatype Tally = Tally(active: nat, live: nat, load: nat)

  function TallyOf(workers: seq<Worker>): Tally {
    if workers == [] then Tally(0, 0, 0) else
    var t := TallyOf(workers[1..]);
    Tally(Active(workers[0]) + t.active, Live(workers[0]) + t.live, Weight(workers[0]) + t.load)
  }

  lemma {:induction false} UpdateTally(workers: seq<Worker>, w: nat, x: Worker)
    requires w < |workers|
    ensures var old', new' := TallyOf(workers), TallyOf(workers[w := x]);
            && new'.active + Active(workers[w]) == old'.active + Active(x)
            && new'.live + Live(workers[w]) == old'.live + Live(x)
            && new'.load + Weight(workers[w]) == old'.load + Weight(x)
    decreases |workers|
  {
    if w == 0 {
      assert workers[0 := x][1..] == workers[1..];
    } else {
      assert workers[w := x][1..] == workers[1..][w - 1 := x] && workers[w := x][0] == workers[0];
      UpdateTally(workers[1..], w - 1, x);
    }
  }

  lemma {:induction false} UpdateHeld(workers: seq<Worker>, w: nat, x: Worker, tx: nat)
    requires w < |workers|
    ensures HeldCount(workers[w := x], tx) + (if Holds(workers[w], tx) then 1 else 0) ==
            HeldCount(workers, tx) + (if Holds(x, tx) then 1 else 0)
    decreases |workers|
  {
    if w == 0 {
      assert workers[0 := x][1..] == workers[1..];
    } else {
      assert workers[w := x][1..] == workers[1..][w - 1 := x] && workers[w := x][0] == workers[0];
      UpdateHeld(workers[1..], w - 1, x, tx);
    }
  }

  /** The concatenated results of the listed transactions; an error contributes nothing. */
  function Results<T>(job: Job<T>, txs: seq<nat>): seq<T> {
    if txs == [] then [] else ResultOf(job, txs[0]) + Results(job, txs[1..])
  }

  function ResultOf<T>(job: Job<T>, tx: nat): seq<T> {
    if tx < |job.outcomes| && job.outcomes[tx].Swaps? then job.outcomes[tx].swaps else []
  }

  // ---------- the invariant ----------

  predicate InRange<T>(job: Job<T>, s: State<T>) {
    && (forall i :: 0 <= i < |s.txChan| ==> s.txChan[i] < |job.outcomes|)
    && (forall i :: 0 <= i < |s.failed| ==> s.failed[i] < |job.outcomes| && job.outcomes[s.failed[i]].Error?)
    && (forall i :: 0 <= i < |s.workers| ==> WorkerInRange(job, s.workers[i]))
  }

  predicate WorkerInRange<T>(job: Job<T>, w: Worker) {
    && (w.Busy? || w.Sending? ==> w.tx < |job.outcomes|)
    && (w.Sending? ==> job.outcomes[w.tx].Swaps?)
  }

  /** In how many places a transaction is. */
  function Places<T>(s: State<T>, tx: nat): nat {
    multiset(s.txChan)[tx] + HeldCount(s.workers, tx) + multiset(s.received)[tx] + multiset(s.failed)[tx]
  }

  /** Every transaction sent so far is in exactly one place, and no other is anywhere. */
  ghost predicate Accounted<T>(s: State<T>) {
    forall tx: nat :: Places(s, tx) == if tx < s.sent then 1 else 0
  }

  predicate Protocol<T>(job: Job<T>, s: State<T>) {
    var t := TallyOf(s.workers);
    && !s.panicked
    && s.sent <= |job.outcomes|
    && |s.workers| == job.workers
    && |s.txChan| + t.active + |s.received| + |s.failed| == s.sent
    && s.wg == t.live
    && s.producerDone == s.txClosed
    && s.closerDone == s.swapsClosed
    && (s.txClosed ==> s.sent == |job.outcomes|)
    && (forall i :: 0 <= i < |s.workers| && s.workers[i].Done? ==> s.txClosed && s.txChan == [])
    && (s.swapsClosed ==> s.wg == 0)
    && (s.collectorDone ==> s.swapsClosed)
  }

  ghost predicate Inv<T>(job: Job<T>, s: State<T>) {
    Protocol(job, s) && InRange(job, s) && Accounted(s) && s.swaps == Results(job, s.received)
  }

  lemma {:induction false} AllIdle(workers: seq<Worker>, tx: nat)
    requires forall i :: 0 <= i < |workers| ==> workers[i].Idle?
    ensures HeldCount(workers, tx) == 0 && TallyOf(workers) == Tally(0, |workers|, |workers|)
  {
    if workers != [] {
      AllIdle(workers[1..], tx);
    }
  }

  lemma InitInv<T>(job: Job<T>)
    ensures Inv(job, Init(job))
  {
    var s := Init(job);
    AllIdle(s.workers, 0);
    forall tx: nat ensures Places(s, tx) == 0 {
      AllIdle(s.workers, tx);
    }
  }

  lemma {:induction false} NoneLive(workers: seq<Worker>)
    ensures TallyOf(workers).live == 0 <==> forall i :: 0 <= i < |workers| ==> workers[i].Done?
  {
    if workers != [] {
      NoneLive(workers[1..]);
      assert forall i :: 0 < i < |workers| ==> workers[i] == workers[1..][i - 1];
    }
  }

  predicate ByWorker(a: Action) {
    a.Take? || a.Process? || a.Hand? || a.Exit?
  }

  /** A panic needs a closed channel, and the invariant rules that out for every action. */
  lemma NoPanic<T>(job: Job<T>, s: State<T>, a: Action)
    requires Protocol(job, s) && Enabled(job, s, a)
    ensures !Apply(job, s, a).panicked
  {
    if ByWorker(a) {
      NoneLive(s.workers);
    }
  }

  lemma StepProtocol<T>(job: Job<T>, s: State<T>, a: Action)
    requires Protocol(job, s) && Enabled(job, s, a)
    ensures Protocol(job, Apply(job, s, a))
  {
    NoPanic(job, s, a);
    if ByWorker(a) {
      WorkerProtocol(job, s, a);
    }
  }

  lemma WorkerProtocol<T>(job: Job<T>, s: State<T>, a: Action)
    requires Protocol(job, s) && Enabled(job, s, a) && ByWorker(a) && !Apply(job, s, a).panicked
    ensures Protocol(job, Apply(job, s, a))
  {
    NoneLive(s.workers);
    UpdateTally(s.workers, a.w, Apply(job, s, a).workers[a.w]);
  }

  lemma StepInRange<T>(job: Job<T>, s: State<T>, a: Action)
    requires Protocol(job, s) && InRange(job, s) && Enabled(job, s, a)
    ensures InRange(job, Apply(job, s, a))
  {
  }

  lemma CountSnoc(xs: seq<nat>, x: nat, tx: nat)
    ensures multiset(xs + [x])[tx] == multiset(xs)[tx] + if x == tx then 1 else 0
  {
  }

  lemma CountTail(xs: seq<nat>, tx: nat)
    requires xs != []
    ensures multiset(xs)[tx] == multiset(xs[1..])[tx] + if xs[0] == tx then 1 else 0
  {
    assert xs == [xs[0]] + xs[1..];
  }

  lemma TakePlaces<T>(job: Job<T>, s: State<T>, w: nat, tx: nat)
    requires Enabled(job, s, Take(w))
    ensures Places(Apply(job, s, Take(w)), tx) == Places(s, tx)
  {
    CountTail(s.txChan, tx);
    UpdateHeld(s.workers, w, Busy(s.txChan[0]), tx);
  }

  lemma ProcessPlaces<T>(job: Job<T>, s: State<T>, w: nat, tx: nat)
    requires Enabled(job, s, Process(w))
    ensures Places(Apply(job, s, Process(w)), tx) == Places(s, tx)
  {
    if job.outcomes[s.workers[w].tx].Error? {
      FailPlaces(job, s, w, tx);
    } else {
      UpdateHeld(s.workers, w, Sending(s.workers[w].tx), tx);
    }
  }

  lemma FailPlaces<T>(job: Job<T>, s: State<T>, w: nat, tx: nat)
    requires Enabled(job, s, Process(w)) && job.outcomes[s.workers[w].tx].Error?
    ensures Places(Apply(job, s, Process(w)), tx) == Places(s, tx)
  {
    UpdateHeld(s.workers, w, Idle, tx);
    CountSnoc(s.failed, s.workers[w].tx, tx);
  }

  lemma HandPlaces<T>(job: Job<T>, s: State<T>, w: nat, tx: nat)
    requires Enabled(job, s, Hand(w)) && !s.swapsClosed
    ensures Places(Apply(job, s, Hand(w)), tx) == Places(s, tx)
  {
    UpdateHeld(s.workers, w, Idle, tx);
    CountSnoc(s.received, s.workers[w].tx, tx);
  }

  lemma StepPlaces<T>(job: Job<T>, s: State<T>, a: Action, tx: nat)
    requires Enabled(job, s, a) && !Apply(job, s, a).panicked
    ensures Places(Apply(job, s, a), tx) == Places(s, tx) + if a.Produce? && tx == s.sent then 1 else 0
  {
    match a
    case Produce => CountSnoc(s.txChan, s.sent, tx);
    case Take(w) => TakePlaces(job, s, w, tx);
    case Process(w) => ProcessPlaces(job, s, w, tx);
    case Hand(w) => HandPlaces(job, s, w, tx);
    case Exit(w) => UpdateHeld(s.workers, w, Done, tx);
    case CloseTx =>
    case CloseSwaps =>
    case Finish =>
  }

  lemma StepAccounted<T>(job: Job<T>, s: State<T>, a: Action)
    requires Accounted(s) && Enabled(job, s, a) && !Apply(job, s, a).panicked
    ensures Accounted(Apply(job, s, a))
  {
    var t := Apply(job, s, a);
    SentGrows(job, s, a);
    forall tx: nat ensures Places(t, tx) == if tx < t.sent then 1 else 0 {
      StepPlaces(job, s, a, tx);
    }
  }

  lemma SentGrows<T>(job: Job<T>, s: State<T>, a: Action)
    requires Enabled(job, s, a) && !Apply(job, s, a).panicked
    ensures Apply(job, s, a).sent == s.sent + if a.Produce? then 1 else 0
  {
  }

  lemma StepResults<T>(job: Job<T>, s: State<T>, a: Action)
    requires s.swaps == Results(job, s.received) && Enabled(job, s, a)
    ensures var t := Apply(job, s, a); t.swaps == Results(job, t.received)
  {
    if a.Hand? {
      HandResults(job, s.received, s.workers[a.w].tx);
    } else {
      assert Apply(job, s, a).received == s.received && Apply(job, s, a).swaps == s.swaps;
    }
  }

  lemma HandResults<T>(job: Job<T>, received: seq<nat>, tx: nat)
    ensures Results(job, received + [tx]) == Results(job, received) + ResultOf(job, tx)
  {
    assert [tx][1..] == [];
    ResultsAppend(job, received, [tx]);
  }

  lemma StepInv<T>(job: Job<T>, s: State<T>, a: Action)
    requires Inv(job, s) && Enabled(job, s, a)
    ensures Inv(job, Apply(job, s, a))
  {
    StepProtocol(job, s, a);
    StepInRange(job, s, a);
    StepAccounted(job, s, a);
    StepResults(job, s, a);
  }

  // ---------- progress ----------

  function Flag(done: bool): nat { if done then 0 else 1 }

  function Measure<T>(job: Job<T>, s: State<T>): int {
    4 * (|job.outcomes| - s.sent) + 3 * |s.txChan| + TallyOf(s.workers).load +
    Flag(s.producerDone) + Flag(s.closerDone) + Flag(s.collectorDone)
  }

  lemma MeasureDecreases<T>(job: Job<T>, s: State<T>, a: Action)
    requires Protocol(job, s) && Enabled(job, s, a)
    ensures 0 <= Measure(job, Apply(job, s, a)) < Measure(job, s)
  {
    StepProtocol(job, s, a);
    NoPanic(job, s, a);
    if ByWorker(a) {
      WorkerMeasure(job, s, a);
    }
    MeasureIsNat(job, Apply(job, s, a));
  }

  /** A worker's move is one of four, and none of them is a panic. */
  lemma WorkerMeasure<T>(job: Job<T>, s: State<T>, a: Action)
    requires Enabled(job, s, a) && ByWorker(a) && (a.Hand? ==> !s.swapsClosed)
    ensures Measure(job, Apply(job, s, a)) < Measure(job, s)
  {
    match a
    case Take(w) => TakeMeasure(job, s, w);
    case Process(w) => ProcessMeasure(job, s, w);
    case Hand(w) => UpdateTally(s.workers, w, Idle);
    case Exit(w) => UpdateTally(s.workers, w, Done);
  }

  lemma TakeMeasure<T>(job: Job<T>, s: State<T>, w: nat)
    requires Enabled(job, s, Take(w))
    ensures Measure(job, Apply(job, s, Take(w))) < Measure(job, s)
  {
    UpdateTally(s.workers, w, Busy(s.txChan[0]));
  }

  lemma ProcessMeasure<T>(job: Job<T>, s: State<T>, w: nat)
    requires Enabled(job, s, Process(w))
    ensures Measure(job, Apply(job, s, Process(w))) < Measure(job, s)
  {
    var tx := s.workers[w].tx;
    UpdateTally(s.workers, w, if job.outcomes[tx].Error? then Idle else Sending(tx));
  }

  lemma MeasureIsNat<T>(job: Job<T>, s: State<T>)
    requires Protocol(job, s)
    ensures 0 <= Measure(job, s)
  {
  }

  /** No reachable state in which the collector still waits is stuck. */
  lemma NotStuck<T>(job: Job<T>, s: State<T>) returns (a: Action)
    requires Inv(job, s) && !s.collectorDone
    ensures Enabled(job, s, a)
  {
    if w :| 0 <= w < |s.workers| && s.workers[w].Busy? {
      assert WorkerInRange(job, s.workers[w]);
      a := Process(w);
    } else if w :| 0 <= w < |s.workers| && s.workers[w].Sending? {
      assert WorkerInRange(job, s.workers[w]);
      a := Hand(w);
    } else if s.sent < |job.outcomes| {
      a := Produce;
    } else if !s.producerDone {
      a := CloseTx;
    } else if w :| 0 <= w < |s.workers| && s.workers[w].Idle? {
      a := if s.txChan != [] then Take(w) else Exit(w);
    } else {
      NoneLive(s.workers);
      a := if s.closerDone then Finish else CloseSwaps;
    }
  }

  // ---------- the results ----------

  lemma {:induction false} ResultsAppend<T>(job: Job<T>, a: seq<nat>, b: seq<nat>)
    ensures Results(job, a + b) == Results(job, a) + Results(job, b)
    decreases |a|
  {
    if a == [] {
      assert a + b == b;
    } else {
      assert (a + b)[0] == a[0] && (a + b)[1..] == a[1..] + b;
      ResultsAppend(job, a[1..], b);
    }
  }

  lemma {:induction false} FailedYieldNothing<T>(job: Job<T>, txs: seq<nat>)
    requires forall i :: 0 <= i < |txs| ==> txs[i] < |job.outcomes| && job.outcomes[txs[i]].Error?
    ensures Results(job, txs) == []
    decreases |txs|
  {
    if txs != [] {
      FailedYieldNothing(job, txs[1..]);
    }
  }

  /** The bag of results does not depend on the order of the transactions. */
  lemma {:induction false} ResultsPermute<T>(job: Job<T>, a: seq<nat>, b: seq<nat>)
    requires multiset(a) == multiset(b)
    ensures multiset(Results(job, a)) == multiset(Results(job, b))
    decreases |a|
  {
    if a == [] {
      assert |multiset(b)| == 0;
    } else {
      assert a[0] in multiset(b);
      var i :| 0 <= i < |b| && b[i] == a[0];
      var rest := b[..i] + b[i + 1..];
      MoveToFront(job, b, i);
      assert a == [a[0]] + a[1..];
      assert multiset(a[1..]) == multiset(a) - multiset{a[0]};
      assert multiset(rest) == multiset(b) - multiset{a[0]};
      ResultsPermute(job, a[1..], rest);
    }
  }

  lemma MoveToFront<T>(job: Job<T>, b: seq<nat>, i: nat)
    requires i < |b|
    ensures var rest := b[..i] + b[i + 1..];
            && multiset(b) == multiset(rest) + multiset{b[i]}
            && multiset(Results(job, b)) == multiset(ResultOf(job, b[i])) + multiset(Results(job, rest))
  {
    var left, right := b[..i], b[i + 1..];
    assert b == left + ([b[i]] + right);
    ResultsAppend(job, left, [b[i]] + right);
    ResultsAppend(job, left, right);
    assert ([b[i]] + right)[1..] == right;
  }

  function AllResults<T>(job: Job<T>): seq<T> {
    Results(job, UpTo(|job.outcomes|))
  }

  function UpTo(n: nat): seq<nat> {
    if n == 0 then [] else UpTo(n - 1) + [n - 1]
  }

  lemma {:induction false} CountUpTo(n: nat, tx: nat)
    ensures multiset(UpTo(n))[tx] == if tx < n then 1 else 0
  {
    if n > 0 {
      CountUpTo(n - 1, tx);
    }
  }

  lemma {:induction false} ResultsMember<T>(job: Job<T>, txs: seq<nat>, x: T)
    ensures x in Results(job, txs) <==> exists tx <- txs :: x in ResultOf(job, tx)
    decreases |txs|
  {
    if txs != [] {
      ResultsMember(job, txs[1..], x);
      assert txs == [txs[0]] + txs[1..];
    }
  }

  /** A result is among all iff some transaction yields it. */
  lemma AllResultsMember<T>(job: Job<T>, x: T)
    ensures x in AllResults(job) <==> exists tx: nat :: tx < |job.outcomes| && x in ResultOf(job, tx)
  {
    ResultsMember(job, UpTo(|job.outcomes|), x);
    forall tx: nat ensures tx in UpTo(|job.outcomes|) <==> tx < |job.outcomes| {
      CountUpTo(|job.outcomes|, tx);
      assert tx in multiset(UpTo(|job.outcomes|)) <==> tx in UpTo(|job.outcomes|);
    }
  }

  /** When the collector stops, every goroutine has ended, every transaction was received or
      failed, exactly once, and the collected swaps are a permutation of all outputs. */
  lemma Collected<T>(job: Job<T>, s: State<T>)
    requires Inv(job, s) && s.collectorDone && job.workers > 0
    ensures s.producerDone && s.closerDone && forall i :: 0 <= i < |s.workers| ==> s.workers[i].Done?
    ensures multiset(s.received) + multiset(s.failed) == multiset(UpTo(|job.outcomes|))
    ensures s.swaps == Results(job, s.received)
    ensures multiset(s.swaps) == multiset(AllResults(job))
  {
    NoneLive(s.workers);
    assert s.workers[0].Done?;
    forall tx: nat
      ensures multiset(s.received)[tx] + multiset(s.failed)[tx] == multiset(UpTo(|job.outcomes|))[tx]
    {
      NothingHeld(s.workers, tx);
      CountUpTo(|job.outcomes|, tx);
      assert Places(s, tx) == if tx < s.sent then 1 else 0;
    }
    assert multiset(s.received + s.failed) == multiset(UpTo(|job.outcomes|));
    ResultsPermute(job, s.received + s.failed, UpTo(|job.outcomes|));
    ResultsAppend(job, s.received, s.failed);
    FailedYieldNothing(job, s.failed);
  }

  lemma {:induction false} NothingHeld(workers: seq<Worker>, tx: nat)
    requires forall i :: 0 <= i < |workers| ==> workers[i].Done?
    ensures HeldCount(workers, tx) == 0
  {
    if workers != [] {
      NothingHeld(workers[1..], tx);
    }
  }

  // ---------- whole runs ----------

  /** A run performs `actions` one after the other, each when it is enabled. */
  predicate IsRun<T>(job: Job<T>, s: State<T>, actions: seq<Action>)
    decreases |actions|
  {
    actions == [] || (Enabled(job, s, actions[0]) && IsRun(job, Apply(job, s, actions[0]), actions[1..]))
  }

  function End<T>(job: Job<T>, s: State<T>, actions: seq<Action>): State<T>
    requires IsRun(job, s, actions)
    decreases |actions|
  {
    if actions == [] then s else End(job, Apply(job, s, actions[0]), actions[1..])
  }

  lemma {:induction false} RunInv<T>(job: Job<T>, s: State<T>, actions: seq<Action>)
    requires Inv(job, s) && IsRun(job, s, actions)
    ensures Inv(job, End(job, s, actions))
    ensures |actions| + Measure(job, End(job, s, actions)) <= Measure(job, s)
    ensures Measure(job, End(job, s, actions)) >= 0
    decreases |actions|
  {
    if actions != [] {
      StepInv(job, s, actions[0]);
      MeasureDecreases(job, s, actions[0]);
      RunInv(job, Apply(job, s, actions[0]), actions[1..]);
    }
  }

  /** Every interleaving: nothing panics, a run is no longer than four actions per transaction
      and one per worker plus three, it can go on until the collector stops, and then the
      collected swaps are a permutation of the outputs of all transactions. */
  lemma EveryInterleaving<T>(job: Job<T>, actions: seq<Action>)
    requires job.workers > 0 && IsRun(job, Init(job), actions)
    ensures var s := End(job, Init(job), actions);
            && !s.panicked
            && |actions| <= 4 * |job.outcomes| + job.workers + 3
            && (!s.collectorDone ==> exists a :: Enabled(job, s, a))
            && (s.collectorDone ==>
                  && (forall i :: 0 <= i < |s.workers| ==> s.workers[i].Done?)
                  && multiset(s.swaps) == multiset(AllResults(job)))
  {
    InitInv(job);
    AllIdle(Init(job).workers, 0);
    RunInv(job, Init(job), actions);
    var s := End(job, Init(job), actions);
    if s.collectorDone {
      Collected(job, s);
    } else {
      var a := NotStuck(job, s);
    }
  }
}
