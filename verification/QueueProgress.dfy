/** Order and progress of the deduplicating queues of `DedupQueue`: addresses are looked up in the order in
    which they got into the channel, and work that has started always comes to its end. */
module QueueProgress {
  import opened DedupQueue

  // ---------- order ----------

  /** What an event puts into the channel, and what it starts a worker on. */
  function In<A>(s: State<A>, e: Event<A>): seq<A>
    requires Possible(s, e)
  {
    if e.Enqueue? && |s.queue| < CAPACITY then [s.adders[e.i].address] else []
  }

  function Out<A>(kind: Kind, s: State<A>, e: Event<A>): seq<A>
    requires Possible(s, e)
  {
    if e.Take? then [Next(kind, s, e).workers[e.w].address] else []
  }

  /** The same for a run, in order. */
  function Entered<A>(kind: Kind, s: State<A>, events: seq<Event<A>>): seq<A>
    requires IsRun(kind, s, events)
    decreases |events|
  {
    if events == [] then [] else In(s, events[0]) + Entered(kind, Next(kind, s, events[0]), events[1..])
  }

  function Served<A>(kind: Kind, s: State<A>, events: seq<Event<A>>): seq<A>
    requires IsRun(kind, s, events)
    decreases |events|
  {
    if events == [] then [] else Out(kind, s, events[0]) + Served(kind, Next(kind, s, events[0]), events[1..])
  }

  lemma StepInOrder<A>(kind: Kind, s: State<A>, e: Event<A>)
    requires Possible(s, e)
    ensures s.queue + In(s, e) == Out(kind, s, e) + Next(kind, s, e).queue
  {
    if e.Take? {
      assert s.queue == [s.queue[0]] + s.queue[1..];
    }
  }

  lemma Chain<A>(q: seq<A>, a: seq<A>, in': seq<A>, b: seq<A>, r: seq<A>, out: seq<A>, end: seq<A>)
    requires q + a == b + r && r + in' == out + end
    ensures q + (a + in') == (b + out) + end
  {
    calc {
      q + (a + in');
      (q + a) + in';
      (b + r) + in';
      b + (r + in');
      b + (out + end);
      (b + out) + end;
    }
  }

  /** First in, first out: what is queued and comes in is what is served and stays queued. */
  lemma {:induction false} ServedInOrder<A>(kind: Kind, s: State<A>, events: seq<Event<A>>)
    requires IsRun(kind, s, events)
    ensures s.queue + Entered(kind, s, events) == Served(kind, s, events) + End(kind, s, events).queue
    decreases |events|
  {
    if events != [] {
      var e, rest := events[0], events[1..];
      var t := Next(kind, s, e);
      StepInOrder(kind, s, e);
      ServedInOrder(kind, t, rest);
      Chain(s.queue, In(s, e), Entered(kind, t, rest), Out(kind, s, e), t.queue, Served(kind, t, rest),
            End(kind, t, rest).queue);
    }
  }

  // ---------- progress ----------

  predicate AtRest<A>(s: State<A>) {
    && s.queue == []
    && (forall i :: 0 <= i < |s.adders| ==> s.adders[i].Away?)
    && (forall w :: 0 <= w < |s.workers| ==> s.workers[w].Free?)
  }

  function AdderWork<A>(a: Adder<A>): nat { match a case Away => 0 case Claimed(_) => 3 case Rejected(_) => 1 }

  function WorkerWork<A>(w: Worker<A>): nat { if w.Working? then 1 else 0 }

  function AddersWork<A>(adders: seq<Adder<A>>): nat {
    if adders == [] then 0 else AdderWork(adders[0]) + AddersWork(adders[1..])
  }

  function WorkersWork<A>(workers: seq<Worker<A>>): nat {
    if workers == [] then 0 else WorkerWork(workers[0]) + WorkersWork(workers[1..])
  }

  /** The events, other than new additions, that are ahead at most. */
  function Work<A>(s: State<A>): nat {
    AddersWork(s.adders) + 2 * |s.queue| + WorkersWork(s.workers)
  }

  lemma {:induction false} UpdateAdderWork<A>(adders: seq<Adder<A>>, i: nat, a: Adder<A>)
    requires i < |adders|
    ensures AddersWork(adders[i := a]) + AdderWork(adders[i]) == AddersWork(adders) + AdderWork(a)
    decreases |adders|
  {
    if i == 0 {
      assert adders[0 := a][1..] == adders[1..];
    } else {
      assert adders[i := a][1..] == adders[1..][i - 1 := a] && adders[i := a][0] == adders[0];
      UpdateAdderWork(adders[1..], i - 1, a);
    }
  }

  lemma {:induction false} UpdateWorkerWork<A>(workers: seq<Worker<A>>, i: nat, w: Worker<A>)
    requires i < |workers|
    ensures WorkersWork(workers[i := w]) + WorkerWork(workers[i]) == WorkersWork(workers) + WorkerWork(w)
    decreases |workers|
  {
    if i == 0 {
      assert workers[0 := w][1..] == workers[1..];
    } else {
      assert workers[i := w][1..] == workers[1..][i - 1 := w] && workers[i := w][0] == workers[0];
      UpdateWorkerWork(workers[1..], i - 1, w);
    }
  }

  lemma WorkFalls<A>(kind: Kind, s: State<A>, e: Event<A>)
    requires Possible(s, e) && !e.Add?
    ensures Work(Next(kind, s, e)) < Work(s)
  {
    match e
    case Enqueue(i) =>
      UpdateAdderWork(s.adders, i, if |s.queue| < CAPACITY then Away else Rejected(s.adders[i].address));
    case Release(i) => UpdateAdderWork(s.adders, i, Away);
    case Take(w) => UpdateWorkerWork(s.workers, w, Working(s.queue[0]));
    case Complete(w) => UpdateWorkerWork(s.workers, w, Free);
  }

  predicate NoAdditions<A>(events: seq<Event<A>>) {
    forall k :: 0 <= k < |events| ==> !events[k].Add?
  }

  /** Without new additions no run is longer than the work there is. */
  lemma {:induction false} RunsAreBounded<A>(kind: Kind, s: State<A>, events: seq<Event<A>>)
    requires IsRun(kind, s, events) && NoAdditions(events)
    ensures |events| + Work(End(kind, s, events)) <= Work(s)
    decreases |events|
  {
    if events != [] {
      WorkFalls(kind, s, events[0]);
      RunsAreBounded(kind, Next(kind, s, events[0]), events[1..]);
    }
  }

  /** Until all rests, some adder or worker can go on. */
  lemma NotStuck<A>(s: State<A>) returns (e: Event<A>)
    requires !AtRest(s) && |s.workers| > 0
    ensures Possible(s, e) && !e.Add?
  {
    if i :| 0 <= i < |s.adders| && !s.adders[i].Away? {
      e := if s.adders[i].Claimed? then Enqueue(i) else Release(i);
    } else if w :| 0 <= w < |s.workers| && s.workers[w].Working? {
      e := Complete(w);
    } else {
      e := Take(0);
    }
  }

  lemma {:induction false} CanRest<A>(kind: Kind, s: State<A>) returns (more: seq<Event<A>>)
    requires |s.workers| > 0
    ensures IsRun(kind, s, more) && NoAdditions(more) && AtRest(End(kind, s, more))
    decreases Work(s)
  {
    if AtRest(s) {
      more := [];
    } else {
      var e := NotStuck(s);
      WorkFalls(kind, s, e);
      var rest := CanRest(kind, Next(kind, s, e));
      more := [e] + rest;
      assert more[1..] == rest;
    }
  }

  lemma RestIsInactive<A>(s: State<A>, x: A)
    requires AtRest(s)
    ensures Active(s, x) == 0
  {
    AwayIsInactive(s.adders, x);
    FreeIsInactive(s.workers, x);
  }

  lemma {:induction false} AwayIsInactive<A>(adders: seq<Adder<A>>, x: A)
    requires forall i :: 0 <= i < |adders| ==> adders[i].Away?
    ensures InAdders(adders, x) == 0
  {
    if adders != [] {
      AwayIsInactive(adders[1..], x);
    }
  }

  lemma {:induction false} FreeIsInactive<A>(workers: seq<Worker<A>>, x: A)
    requires forall w :: 0 <= w < |workers| ==> workers[w].Free?
    ensures InWorkers(workers, x) == 0
  {
    if workers != [] {
      FreeIsInactive(workers[1..], x);
    }
  }

  /** From every reachable state everything comes to rest without anyone adding more: all that got into the
      channel has been served, in order, and no claim is left but those of pairs that were turned away. */
  lemma EverythingIsServed<A(!new)>(kind: Kind, adders: nat, workers: nat, events: seq<Event<A>>)
    returns (more: seq<Event<A>>)
    requires workers > 0 && IsRun(kind, Start(adders, workers), events)
    ensures NoAdditions(more) && IsRun(kind, Start(adders, workers), events + more)
    ensures var start, all := Start<A>(adders, workers), events + more;
            var s := End(kind, start, all);
            && AtRest(s) && Served(kind, start, all) == Entered(kind, start, all)
            && s.seen == s.leaked && (kind.Tokens? ==> s.seen == {})
  {
    var start := Start<A>(adders, workers);
    WorkersStay(kind, start, events);
    more := CanRest(kind, End(kind, start, events));
    RunAppend(kind, start, events, more);
    ServedInOrder(kind, start, events + more);
    StartInv<A>(kind, adders, workers);
    RunInv(kind, start, events + more);
    var s := End(kind, start, events + more);
    forall x: A ensures x in s.seen <==> x in s.leaked {
      RestIsInactive(s, x);
      assert Active(s, x) == 0;
    }
    assert s.seen == s.leaked;
    assert start.queue == [] && s.queue == [];
    var entered, served := Entered(kind, start, events + more), Served(kind, start, events + more);
    assert start.queue + entered == entered && served + s.queue == served;
  }

  lemma {:induction false} WorkersStay<A>(kind: Kind, s: State<A>, events: seq<Event<A>>)
    requires IsRun(kind, s, events)
    ensures |End(kind, s, events).workers| == |s.workers|
    decreases |events|
  {
    if events != [] {
      WorkersStay(kind, Next(kind, s, events[0]), events[1..]);
    }
  }
}
