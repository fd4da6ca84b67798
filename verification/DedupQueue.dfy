/** The deduplicating work queues of internal/solana/tokenFind.go and internal/solana/pairFind.go.

    Adders claim an address in the shared `seen` set, then try to put it into a bounded channel;
    workers take addresses out, look them up and release the claim.  When the channel is full the
    token queue releases the claim again.  The pair queue tries to, but deletes the whole queue
    entry instead of its address, which is not a key of the set, so the claim stays.

    Claims and deletions are atomic, everything else interleaves. */
module DedupQueue {

  datatype Kind = Tokens | Pairs

  datatype Adder<A> = Away | Claimed(address: A) | Rejected(address: A)

  datatype Worker<A> = Free | Working(address: A)

  datatype State<A> = State(seen: set<A>, queue: seq<A>, adders: seq<Adder<A>>, workers: seq<Worker<A>>,
                            leaked: set<A>)

  datatype Event<A> =
    | Add(i: nat, address: A)  // LoadOrStore
    | Enqueue(i: nat)          // the select on the channel
    | Release(i: nat)          // the default branch, after the select
    | Take(w: nat)
    | Complete(w: nat)

  const CAPACITY := 5000

  function Start<A>(adders: nat, workers: nat): State<A> {
    State({}, [], seq(adders, i => Away), seq(workers, i => Free), {})
  }

  predicate Possible<A>(s: State<A>, e: Event<A>) {
    match e
    case Add(i, _) => i < |s.adders| && s.adders[i].Away?
    case Enqueue(i) => i < |s.adders| && s.adders[i].Claimed?
    case Release(i) => i < |s.adders| && s.adders[i].Rejected?
    case Take(w) => w < |s.workers| && s.workers[w].Free? && s.queue != []
    case Complete(w) => w < |s.workers| && s.workers[w].Working?
  }

  function Next<A>(kind: Kind, s: State<A>, e: Event<A>): State<A>
    requires Possible(s, e)
  {
    match e
    case Add(i, address) =>
      if address in s.seen then s
      else s.(seen := s.seen + {address}, adders := s.adders[i := Claimed(address)])
    case Enqueue(i) =>
      var a := s.adders[i].address;
      if |s.queue| < CAPACITY then s.(queue := s.queue + [a], adders := s.adders[i := Away])
      else s.(adders := s.adders[i := Rejected(a)])
    case Release(i) =>
      var a := s.adders[i].address;
      if kind.Tokens? then s.(seen := s.seen - {a}, adders := s.adders[i := Away])
      else s.(leaked := s.leaked + {a}, adders := s.adders[i := Away])
    case Take(w) =>
      s.(queue := s.queue[1..], workers := s.workers[w := Working(s.queue[0])])
    case Complete(w) =>
      s.(seen := s.seen - {s.workers[w].address}, workers := s.workers[w := Free])
  }

  // ---------- where an address can be ----------

  function AdderHolds<A(==)>(a: Adder<A>, x: A): nat { if !a.Away? && a.address == x then 1 else 0 }

  function WorkerHolds<A(==)>(w: Worker<A>, x: A): nat { if w.Working? && w.address == x then 1 else 0 }

  function InAdders<A(==)>(adders: seq<Adder<A>>, x: A): nat {
    if adders == [] then 0 else AdderHolds(adders[0], x) + InAdders(adders[1..], x)
  }

  function InWorkers<A(==)>(workers: seq<Worker<A>>, x: A): nat {
    if workers == [] then 0 else WorkerHolds(workers[0], x) + InWorkers(workers[1..], x)
  }

  function InQueue<A(==)>(queue: seq<A>, x: A): nat {
    if queue == [] then 0 else (if queue[0] == x then 1 else 0) + InQueue(queue[1..], x)
  }

  /** How often an address is being added, queued or worked on. */
  function Active<A(==)>(s: State<A>, x: A): nat {
    InAdders(s.adders, x) + InQueue(s.queue, x) + InWorkers(s.workers, x)
  }

  lemma {:induction false} UpdateAdder<A>(adders: seq<Adder<A>>, i: nat, a: Adder<A>, x: A)
    requires i < |adders|
    ensures InAdders(adders[i := a], x) + AdderHolds(adders[i], x) == InAdders(adders, x) + AdderHolds(a, x)
    decreases |adders|
  {
    if i == 0 {
      assert adders[0 := a][1..] == adders[1..];
    } else {
      assert adders[i := a][1..] == adders[1..][i - 1 := a] && adders[i := a][0] == adders[0];
      UpdateAdder(adders[1..], i - 1, a, x);
    }
  }

  lemma {:induction false} UpdateWorker<A>(workers: seq<Worker<A>>, i: nat, w: Worker<A>, x: A)
    requires i < |workers|
    ensures InWorkers(workers[i := w], x) + WorkerHolds(workers[i], x) == InWorkers(workers, x) + WorkerHolds(w, x)
    decreases |workers|
  {
    if i == 0 {
      assert workers[0 := w][1..] == workers[1..];
    } else {
      assert workers[i := w][1..] == workers[1..][i - 1 := w] && workers[i := w][0] == workers[0];
      UpdateWorker(workers[1..], i - 1, w, x);
    }
  }

  lemma {:induction false} QueueSnoc<A>(queue: seq<A>, a: A, x: A)
    ensures InQueue(queue + [a], x) == InQueue(queue, x) + if a == x then 1 else 0
    decreases |queue|
  {
    if queue == [] {
      assert ([] + [a])[1..] == [];
    } else {
      assert (queue + [a])[0] == queue[0] && (queue + [a])[1..] == queue[1..] + [a];
      QueueSnoc(queue[1..], a, x);
    }
  }

  // ---------- the invariant ----------

  /** An address is active at most once, and the claimed addresses are the active ones and the
      leaked ones, of which there are none in the token queue. */
  ghost predicate Exclusive<A(!new)>(s: State<A>) {
    forall x :: Active(s, x) == if x in s.seen && x !in s.leaked then 1 else 0
  }

  ghost predicate Inv<A(!new)>(kind: Kind, s: State<A>) {
    Exclusive(s) && |s.queue| <= CAPACITY && s.leaked <= s.seen && (kind.Tokens? ==> s.leaked == {})
  }

  lemma {:induction false} NobodyAway<A>(adders: nat, x: A)
    ensures InAdders(seq(adders, i => Away), x) == 0
  {
    if adders > 0 {
      var s: seq<Adder<A>> := seq(adders, i => Away);
      var t: seq<Adder<A>> := seq(adders - 1, i => Away);
      assert s[1..] == t;
      NobodyAway(adders - 1, x);
    }
  }

  lemma {:induction false} NobodyWorks<A>(workers: nat, x: A)
    ensures InWorkers(seq(workers, i => Free), x) == 0
  {
    if workers > 0 {
      var s: seq<Worker<A>> := seq(workers, i => Free);
      var t: seq<Worker<A>> := seq(workers - 1, i => Free);
      assert s[1..] == t;
      NobodyWorks(workers - 1, x);
    }
  }

  lemma StartInv<A(!new)>(kind: Kind, adders: nat, workers: nat)
    ensures Inv<A>(kind, Start(adders, workers))
  {
    forall x: A ensures Active(Start(adders, workers), x) == 0 {
      NobodyAway(adders, x);
      NobodyWorks(workers, x);
    }
  }

  /** What one event does to the activity of one address. */
  lemma StepActive<A(!new)>(kind: Kind, s: State<A>, e: Event<A>, x: A)
    requires Possible(s, e)
    ensures Active(Next(kind, s, e), x) ==
            match e
            case Add(_, a) => Active(s, x) + (if a == x && a !in s.seen then 1 else 0)
            case Enqueue(_) => Active(s, x)
            case Release(i) => Active(s, x) - (if s.adders[i].address == x then 1 else 0)
            case Take(_) => Active(s, x)
            case Complete(w) => Active(s, x) - (if s.workers[w].address == x then 1 else 0)
  {
    match e
    case Add(i, a) =>
      if a !in s.seen {
        UpdateAdder(s.adders, i, Claimed(a), x);
      }
    case Enqueue(i) =>
      var a := s.adders[i].address;
      UpdateAdder(s.adders, i, if |s.queue| < CAPACITY then Away else Rejected(a), x);
      QueueSnoc(s.queue, a, x);
    case Release(i) =>
      UpdateAdder(s.adders, i, Away, x);
    case Take(w) =>
      UpdateWorker(s.workers, w, Working(s.queue[0]), x);
    case Complete(w) =>
      UpdateWorker(s.workers, w, Free, x);
  }

  lemma {:induction false} AdderIsActive<A>(adders: seq<Adder<A>>, i: nat)
    requires i < |adders| && !adders[i].Away?
    ensures InAdders(adders, adders[i].address) > 0
    decreases |adders|
  {
    if i > 0 {
      AdderIsActive(adders[1..], i - 1);
    }
  }

  lemma {:induction false} WorkerIsActive<A>(workers: seq<Worker<A>>, i: nat)
    requires i < |workers| && workers[i].Working?
    ensures InWorkers(workers, workers[i].address) > 0
    decreases |workers|
  {
    if i > 0 {
      WorkerIsActive(workers[1..], i - 1);
    }
  }

  lemma StepInv<A(!new)>(kind: Kind, s: State<A>, e: Event<A>)
    requires Inv(kind, s) && Possible(s, e)
    ensures Inv(kind, Next(kind, s, e))
  {
    var t := Next(kind, s, e);
    if e.Release? {
      AdderIsActive(s.adders, e.i);
      assert Active(s, s.adders[e.i].address) > 0;
    }
    if e.Complete? {
      WorkerIsActive(s.workers, e.w);
      assert Active(s, s.workers[e.w].address) > 0;
    }
    forall x ensures Active(t, x) == if x in t.seen && x !in t.leaked then 1 else 0 {
      StepActive(kind, s, e, x);
    }
  }

  // ---------- whole runs ----------

  predicate IsRun<A>(kind: Kind, s: State<A>, events: seq<Event<A>>)
    decreases |events|
  {
    events == [] || (Possible(s, events[0]) && IsRun(kind, Next(kind, s, events[0]), events[1..]))
  }

  function End<A>(kind: Kind, s: State<A>, events: seq<Event<A>>): State<A>
    requires IsRun(kind, s, events)
    decreases |events|
  {
    if events == [] then s else End(kind, Next(kind, s, events[0]), events[1..])
  }

  lemma {:induction false} RunInv<A(!new)>(kind: Kind, s: State<A>, events: seq<Event<A>>)
    requires Inv(kind, s) && IsRun(kind, s, events)
    ensures Inv(kind, End(kind, s, events))
    decreases |events|
  {
    if events != [] {
      StepInv(kind, s, events[0]);
      RunInv(kind, Next(kind, s, events[0]), events[1..]);
    }
  }

  lemma {:induction false} QueuedOnce<A>(queue: seq<A>, i: nat, j: nat)
    requires i < j < |queue| && queue[i] == queue[j]
    ensures InQueue(queue, queue[i]) >= 2
    decreases |queue|
  {
    if i > 0 {
      QueuedOnce(queue[1..], i - 1, j - 1);
    } else {
      QueuedSomewhere(queue[1..], j - 1);
    }
  }

  lemma {:induction false} QueuedSomewhere<A>(queue: seq<A>, j: nat)
    requires j < |queue|
    ensures InQueue(queue, queue[j]) >= 1
    decreases |queue|
  {
    if j > 0 {
      QueuedSomewhere(queue[1..], j - 1);
    }
  }

  lemma {:induction false} WorkedOnce<A>(workers: seq<Worker<A>>, v: nat, w: nat)
    requires v < w < |workers| && workers[v].Working? && workers[v] == workers[w]
    ensures InWorkers(workers, workers[v].address) >= 2
    decreases |workers|
  {
    if v > 0 {
      WorkedOnce(workers[1..], v - 1, w - 1);
    } else {
      WorkerIsActive(workers[1..], w - 1);
    }
  }

  /** Safety of both queues in every reachable state: the channel is within its capacity, no
      address is queued twice, and no address is worked on by two workers at once. */
  lemma NoDuplicateWork<A(!new)>(kind: Kind, adders: nat, workers: nat, events: seq<Event<A>>)
    requires IsRun(kind, Start(adders, workers), events)
    ensures var s := End(kind, Start(adders, workers), events);
            && |s.queue| <= CAPACITY
            && (forall i, j :: 0 <= i < j < |s.queue| ==> s.queue[i] != s.queue[j])
            && (forall v, w :: 0 <= v < w < |s.workers| && s.workers[v].Working? ==> s.workers[v] != s.workers[w])
            && (forall x, w :: 0 <= w < |s.workers| && s.workers[w] == Working(x) ==> x !in s.queue)
  {
    StartInv<A>(kind, adders, workers);
    RunInv(kind, Start(adders, workers), events);
    var s := End(kind, Start(adders, workers), events);
    forall i, j | 0 <= i < j < |s.queue| ensures s.queue[i] != s.queue[j] {
      assert Active(s, s.queue[i]) <= 1;
      if s.queue[i] == s.queue[j] {
        QueuedOnce(s.queue, i, j);
      }
    }
    forall v, w | 0 <= v < w < |s.workers| && s.workers[v].Working? ensures s.workers[v] != s.workers[w] {
      assert Active(s, s.workers[v].address) <= 1;
      if s.workers[v] == s.workers[w] {
        WorkedOnce(s.workers, v, w);
      }
    }
    forall x, w | 0 <= w < |s.workers| && s.workers[w] == Working(x) ensures x !in s.queue {
      assert Active(s, x) <= 1;
      WorkerIsActive(s.workers, w);
      if x in s.queue {
        var j :| 0 <= j < |s.queue| && s.queue[j] == x;
        QueuedSomewhere(s.queue, j);
      }
    }
  }

  /** For tokens the claimed addresses are exactly the active ones; for pairs they are the active
      ones together with those that were once turned away by a full channel. */
  lemma SeenIsActive<A(!new)>(kind: Kind, adders: nat, workers: nat, events: seq<Event<A>>, x: A)
    requires IsRun(kind, Start(adders, workers), events)
    ensures var s := End(kind, Start(adders, workers), events);
            && (x in s.seen <==> Active(s, x) == 1 || x in s.leaked)
            && !(Active(s, x) == 1 && x in s.leaked)
            && (kind.Tokens? ==> s.leaked == {})
  {
    StartInv<A>(kind, adders, workers);
    RunInv(kind, Start(adders, workers), events);
    assert Active(End(kind, Start(adders, workers), events), x) <= 1;
  }

  /** A pair that was turned away once is never queued or looked up again, whatever happens. */
  lemma {:induction false} TurnedAwayForever<A(!new)>(s: State<A>, events: seq<Event<A>>, x: A)
    requires Inv(Pairs, s) && IsRun(Pairs, s, events) && x in s.leaked
    ensures x in End(Pairs, s, events).leaked && Active(End(Pairs, s, events), x) == 0
    decreases |events|
  {
    assert Active(s, x) == 0;
    if events != [] {
      StepInv(Pairs, s, events[0]);
      TurnedAwayForever(Next(Pairs, s, events[0]), events[1..], x);
    }
  }

  predicate Overflows<A>(s: State<A>, events: seq<Event<A>>)
    requires IsRun(Pairs, s, events)
    decreases |events|
  {
    events != [] && (events[0].Release? || Overflows(Next(Pairs, s, events[0]), events[1..]))
  }

  /** The claimed addresses are exactly the active ones. */
  ghost predicate Exact<A(!new)>(s: State<A>) {
    forall x :: x in s.seen <==> Active(s, x) == 1
  }

  /** The pair queue keeps its claims exact, like the token queue, if and only if no adder ever
      got to the default branch of its select. */
  lemma {:induction false} PairsExactUnlessOverflow<A(!new)>(s: State<A>, events: seq<Event<A>>)
    requires Inv(Pairs, s) && IsRun(Pairs, s, events) && s.leaked == {}
    ensures Exact(End(Pairs, s, events)) <==> !Overflows(s, events)
    decreases |events|
  {
    if events == [] {
      assert forall x :: Active(s, x) == if x in s.seen then 1 else 0;
    } else {
      var t := Next(Pairs, s, events[0]);
      StepInv(Pairs, s, events[0]);
      if events[0].Release? {
        var x := s.adders[events[0].i].address;
        RunInv(Pairs, t, events[1..]);
        TurnedAwayForever(t, events[1..], x);
        assert x in End(Pairs, s, events).seen && Active(End(Pairs, s, events), x) == 0;
      } else {
        PairsExactUnlessOverflow(t, events[1..]);
      }
    }
  }

  // ---------- an overflow ----------

  /** One adder fills the channel with `n` addresses. */
  function Filling(n: nat): seq<Event<nat>> {
    if n == 0 then [] else Filling(n - 1) + [Add(0, n - 1), Enqueue(0)]
  }

  function Numbers(n: nat): seq<nat> {
    if n == 0 then [] else Numbers(n - 1) + [n - 1]
  }

  function Below(n: nat): set<nat> {
    if n == 0 then {} else Below(n - 1) + {n - 1}
  }

  lemma {:induction false} NumbersFacts(n: nat)
    ensures |Numbers(n)| == n && forall x: nat :: x in Below(n) <==> x < n
  {
    if n > 0 {
      NumbersFacts(n - 1);
    }
  }

  lemma {:induction false} RunAppend<A>(kind: Kind, s: State<A>, a: seq<Event<A>>, b: seq<Event<A>>)
    requires IsRun(kind, s, a) && IsRun(kind, End(kind, s, a), b)
    ensures IsRun(kind, s, a + b) && End(kind, s, a + b) == End(kind, End(kind, s, a), b)
    decreases |a|
  {
    if a == [] {
      assert a + b == b;
    } else {
      assert (a + b)[1..] == a[1..] + b;
      RunAppend(kind, Next(kind, s, a[0]), a[1..], b);
    }
  }

  lemma {:induction false} FillingRuns(n: nat, workers: nat)
    requires n <= CAPACITY
    ensures IsRun(Pairs, Start<nat>(1, workers), Filling(n))
    ensures End(Pairs, Start<nat>(1, workers), Filling(n)) ==
            State(Below(n), Numbers(n), [Away], seq(workers, i => Free), {})
  {
    var s := Start<nat>(1, workers);
    if n == 0 {
      assert s.adders == [Away];
    } else {
      FillingRuns(n - 1, workers);
      NumbersFacts(n - 1);
      var t := End(Pairs, s, Filling(n - 1));
      TwoSteps(t, Add(0, n - 1), Enqueue(0));
      RunAppend(Pairs, s, Filling(n - 1), [Add(0, n - 1), Enqueue(0)]);
    }
  }

  lemma OneStep(s: State<nat>, a: Event<nat>)
    requires Possible(s, a)
    ensures IsRun(Pairs, s, [a]) && End(Pairs, s, [a]) == Next(Pairs, s, a)
  {
    assert [a][1..] == [];
  }

  lemma TwoSteps(s: State<nat>, a: Event<nat>, b: Event<nat>)
    requires Possible(s, a) && Possible(Next(Pairs, s, a), b)
    ensures IsRun(Pairs, s, [a, b]) && End(Pairs, s, [a, b]) == Next(Pairs, Next(Pairs, s, a), b)
  {
    OneStep(s, a);
    OneStep(Next(Pairs, s, a), b);
    RunAppend(Pairs, s, [a], [b]);
    assert [a] + [b] == [a, b];
  }

  /** What happens to one more address when the channel is full. */
  lemma TurnAway(full: State<nat>, x: nat)
    requires |full.queue| == CAPACITY && full.adders == [Away] && x !in full.seen
    ensures IsRun(Pairs, full, [Add(0, x), Enqueue(0)] + [Release(0)])
    ensures var s := End(Pairs, full, [Add(0, x), Enqueue(0)] + [Release(0)]);
            s == full.(seen := full.seen + {x}, leaked := full.leaked + {x})
  {
    var rejected := full.(seen := full.seen + {x}, adders := [Rejected(x)]);
    assert Next(Pairs, Next(Pairs, full, Add(0, x)), Enqueue(0)) == rejected;
    TwoSteps(full, Add(0, x), Enqueue(0));
    assert rejected.adders[0 := Away] == full.adders;
    OneStep(rejected, Release(0));
    RunAppend(Pairs, full, [Add(0, x), Enqueue(0)], [Release(0)]);
  }

  /** The overflow happens: one more address than the channel holds is turned away, and from then on it
      is claimed without being queued or worked on. */
  lemma PairsOverflow(workers: nat) returns (events: seq<Event<nat>>)
    ensures IsRun(Pairs, Start<nat>(1, workers), events) && Overflows(Start<nat>(1, workers), events)
    ensures var s := End(Pairs, Start<nat>(1, workers), events);
            CAPACITY in s.seen && CAPACITY in s.leaked && Active(s, CAPACITY) == 0 && !Exact(s)
  {
    var start := Start<nat>(1, workers);
    FillingRuns(CAPACITY, workers);
    NumbersFacts(CAPACITY);
    TurnAway(End(Pairs, start, Filling(CAPACITY)), CAPACITY);
    RunAppend(Pairs, start, Filling(CAPACITY), [Add(0, CAPACITY), Enqueue(0)] + [Release(0)]);
    events := Filling(CAPACITY) + ([Add(0, CAPACITY), Enqueue(0)] + [Release(0)]);
    StartInv<nat>(Pairs, 1, workers);
    RunInv(Pairs, start, events);
    assert Active(End(Pairs, start, events), CAPACITY) == 0;
    PairsExactUnlessOverflow(start, events);
  }
}
