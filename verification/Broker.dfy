/** The queue consumer as a whole: broker, worker pool and swap table (internal/solana/queue.go).

    Deliveries carry a tag that is acknowledged individually (basic.ack with the multiple bit
    clear, section 1.8.3.13 of the AMQP 0-9-1 reference).  A lost connection returns every
    unacknowledged message to the queue while workers go on with deliveries whose tags mean
    nothing any more; a crash also loses everything in memory.  An insert can fail, commit, or
    commit and still report an error; an acknowledgement can be lost on its way. */
module Broker {
  import opened Domain
  import opened SwapTable
  import opened FanOut

  /** A message body that cannot be decoded, or a block with its transactions. */
  datatype Message = Malformed | Block(job: Job<SwapLog>)

  datatype Delivery = Delivery(tag: nat, id: nat)

  datatype Phase =
    | Waiting
    | Received(d: Delivery)
    | Inserting(d: Delivery, swaps: seq<SwapLog>, retry: nat)
    | Stored(d: Delivery)
    | Left

  datatype System = System(
    published: seq<Message>,
    ready: set<nat>,
    unacked: map<nat, nat>,
    nextTag: nat,
    buffer: set<Delivery>,
    pool: seq<Phase>,
    rows: Rows,
    acked: set<nat>,
    dropped: set<nat>,
    committed: set<nat>)

  datatype Event =
    | Publish(m: Message)
    | Deliver(id: nat)
    | Receive(w: nat, d: Delivery)
    | Nack(w: nat, arrives: bool)
    | Collect(w: nat, swaps: seq<SwapLog>)
    | Try(w: nat, attempt: Attempt)
    | Ack(w: nat, arrives: bool, ok: bool)
    | Leave(w: nat)
    | Disconnect
    | Crash

  function Start(workers: nat): System {
    System([], {}, map[], 0, {}, seq(workers, i => Waiting), map[], {}, {}, {})
  }

  /** The swaps of a message, in the order of its transactions. */
  function SwapsOf(m: Message): seq<SwapLog> {
    if m.Malformed? then [] else AllResults(m.job)
  }

  predicate Possible(s: System, e: Event) {
    match e
    case Publish(_) => true
    case Deliver(id) => id in s.ready
    case Receive(w, d) => w < |s.pool| && s.pool[w].Waiting? && d in s.buffer
    case Nack(w, _) => w < |s.pool| && s.pool[w].Received? && Body(s, s.pool[w].d.id).Malformed?
    case Collect(w, swaps) =>
      && w < |s.pool| && s.pool[w].Received? && Body(s, s.pool[w].d.id).Block?
      && multiset(swaps) == multiset(SwapsOf(Body(s, s.pool[w].d.id)))
    case Try(w, _) => w < |s.pool| && s.pool[w].Inserting? && s.pool[w].retry < MAX_RETRIES
    case Ack(w, _, _) => w < |s.pool| && s.pool[w].Stored?
    case Leave(w) => w < |s.pool| && (s.pool[w].Waiting? || s.pool[w].Received?)
    case Disconnect => true
    case Crash => true
  }

  function Body(s: System, id: nat): Message {
    if id < |s.published| then s.published[id] else Malformed
  }

  /** Removing a tag; a stale tag removes nothing. */
  function Without(unacked: map<nat, nat>, tag: nat): map<nat, nat> { unacked - {tag} }

  function Next(s: System, e: Event): System
    requires Possible(s, e)
  {
    match e
    case Publish(m) => s.(published := s.published + [m], ready := s.ready + {|s.published|})
    case Deliver(id) =>
      s.(ready := s.ready - {id}, unacked := s.unacked[s.nextTag := id], nextTag := s.nextTag + 1,
         buffer := s.buffer + {Delivery(s.nextTag, id)})
    case Receive(w, d) => s.(buffer := s.buffer - {d}, pool := s.pool[w := Received(d)])
    case Nack(w, arrives) =>
      var d := s.pool[w].d;
      var t := s.(pool := s.pool[w := Waiting]);
      if arrives && d.tag in s.unacked
      then t.(unacked := Without(s.unacked, d.tag), dropped := s.dropped + {s.unacked[d.tag]}) else t
    case Collect(w, swaps) =>
      s.(pool := s.pool[w := if |swaps| > 0 then Inserting(s.pool[w].d, swaps, 0) else Stored(s.pool[w].d)],
         committed := if |swaps| > 0 then s.committed else s.committed + {s.pool[w].d.id})
    case Try(w, attempt) =>
      var Inserting(d, swaps, retry) := s.pool[w];
      s.(rows := if attempt.Failed? then s.rows else Insert(s.rows, swaps),
         committed := if attempt.Failed? then s.committed else s.committed + {d.id},
         pool := s.pool[w := if attempt.Committed? then Stored(d)
                             else if retry + 1 < MAX_RETRIES then Inserting(d, swaps, retry + 1)
                             else Left])
    case Ack(w, arrives, ok) =>
      var d := s.pool[w].d;
      var t := s.(pool := s.pool[w := if ok then Waiting else Left]);
      if arrives && d.tag in s.unacked
      then t.(unacked := Without(s.unacked, d.tag), acked := s.acked + {s.unacked[d.tag]}) else t
    case Leave(w) => s.(pool := s.pool[w := Left])
    case Disconnect => s.(ready := s.ready + s.unacked.Values, unacked := map[])
    case Crash =>
      s.(ready := s.ready + s.unacked.Values, unacked := map[], buffer := {},
         pool := seq(|s.pool|, i => Waiting))
  }

  // ---------- the invariant ----------

  /** Every published message is in exactly one place: waiting, in flight, acknowledged, or
      rejected for good. */
  ghost predicate Ledger(s: System) {
    && (forall id: nat :: id < |s.published| <==>
          id in s.ready || id in s.unacked.Values || id in s.acked || id in s.dropped)
    && s.ready !! s.acked !! s.dropped
    && s.unacked.Values !! s.ready && s.unacked.Values !! s.acked && s.unacked.Values !! s.dropped
    && (forall t <- s.unacked, u <- s.unacked :: s.unacked[t] == s.unacked[u] ==> t == u)
    && (forall t <- s.unacked :: t < s.nextTag)
  }

  /** A delivery in the program's hands: its tag, if it still means anything, means its message. */
  predicate Held(s: System, d: Delivery) {
    d.tag < s.nextTag && d.id < |s.published| && (d.tag in s.unacked ==> s.unacked[d.tag] == d.id)
  }

  predicate Sound(s: System, p: Phase) {
    match p
    case Waiting => true
    case Received(d) => Held(s, d)
    case Inserting(d, swaps, retry) =>
      && Held(s, d) && s.published[d.id].Block? && retry < MAX_RETRIES
      && multiset(swaps) == multiset(SwapsOf(s.published[d.id]))
    case Stored(d) => Held(s, d) && s.published[d.id].Block? && d.id in s.committed
    case Left => true
  }

  ghost predicate Deliveries(s: System) {
    && (forall d <- s.buffer :: Held(s, d))
    && (forall w :: 0 <= w < |s.pool| ==> Sound(s, s.pool[w]))
  }

  ghost function KeysOf(published: seq<Message>, ids: set<nat>): set<Key> {
    set id, k | id in ids && id < |published| && k in Keys(SwapsOf(published[id])) :: k
  }

  /** The keys in the table are those of the completed inserts; an acknowledged message had its
      insert completed, and only malformed messages are rejected. */
  ghost predicate Durable(s: System) {
    && (forall id <- s.committed :: id < |s.published| && s.published[id].Block?)
    && s.rows.Keys == KeysOf(s.published, s.committed)
    && s.acked <= s.committed
    && (forall id <- s.dropped :: id < |s.published| && s.published[id].Malformed?)
  }

  ghost predicate Inv(s: System) {
    Ledger(s) && Deliveries(s) && Durable(s)
  }

  lemma StartInv(workers: nat)
    ensures Inv(Start(workers))
  {
  }

  lemma DeliveredValues(s: System, id: nat)
    requires Ledger(s) && id in s.ready
    ensures Next(s, Deliver(id)).unacked.Values == s.unacked.Values + {id}
  {
    var t := Next(s, Deliver(id));
    assert t.unacked[s.nextTag] == id;
    assert forall u <- s.unacked :: t.unacked[u] == s.unacked[u];
  }

  lemma StepLedger(s: System, e: Event)
    requires Ledger(s) && Deliveries(s) && Possible(s, e)
    ensures Ledger(Next(s, e))
  {
    var t := Next(s, e);
    match e
    case Publish(m) =>
    case Deliver(id) => DeliveredValues(s, id);
    case Nack(w, _) => AfterSettle(s, s.pool[w].d.tag);
    case Ack(w, _, _) => AfterSettle(s, s.pool[w].d.tag);
    case _ =>
  }

  /** Settling a delivery takes exactly its message out of flight. */
  lemma AfterSettle(s: System, tag: nat)
    requires Ledger(s)
    ensures tag in s.unacked ==> Without(s.unacked, tag).Values == s.unacked.Values - {s.unacked[tag]}
    ensures tag !in s.unacked ==> Without(s.unacked, tag) == s.unacked
  {
    if tag in s.unacked {
      var rest := Without(s.unacked, tag);
      forall id ensures id in rest.Values <==> id in s.unacked.Values - {s.unacked[tag]} {
        if id in s.unacked.Values && id != s.unacked[tag] {
          var u :| u in s.unacked && s.unacked[u] == id;
          assert u in rest && rest[u] == id;
        }
      }
    }
  }

  /** Nothing an event does to the broker or the table disturbs the other deliveries. */
  predicate Extends(s: System, t: System) {
    && s.published <= t.published
    && s.nextTag <= t.nextTag
    && (forall tag <- t.unacked :: tag >= s.nextTag || (tag in s.unacked && t.unacked[tag] == s.unacked[tag]))
    && s.committed <= t.committed
  }

  lemma StepExtends(s: System, e: Event)
    requires Possible(s, e)
    ensures Extends(s, Next(s, e))
  {
  }

  lemma SoundStays(s: System, t: System, p: Phase)
    requires Extends(s, t) && Sound(s, p)
    ensures Sound(t, p)
  {
  }

  lemma HeldStays(s: System, t: System, d: Delivery)
    requires Extends(s, t) && Held(s, d)
    ensures Held(t, d)
  {
  }

  lemma StepDeliveries(s: System, e: Event)
    requires Ledger(s) && Deliveries(s) && Possible(s, e)
    ensures Deliveries(Next(s, e))
  {
    var t := Next(s, e);
    StepExtends(s, e);
    forall d | d in t.buffer ensures Held(t, d) {
      if d in s.buffer {
        HeldStays(s, t, d);
      }
    }
    forall w | 0 <= w < |t.pool| ensures Sound(t, t.pool[w]) {
      SoundStays(s, t, s.pool[w]);
      if t.pool[w] != s.pool[w] {
        MovedWorker(s, e, w);
      }
    }
  }

  lemma MovedWorker(s: System, e: Event, w: nat)
    requires Deliveries(s) && Possible(s, e) && w < |s.pool| && Next(s, e).pool[w] != s.pool[w]
    ensures Sound(Next(s, e), Next(s, e).pool[w])
  {
    StepExtends(s, e);
    assert Sound(s, s.pool[w]);
    match e
    case Receive(_, d) => HeldStays(s, Next(s, e), d);
    case Collect(_, _) => HeldStays(s, Next(s, e), s.pool[w].d);
    case Try(_, _) => HeldStays(s, Next(s, e), s.pool[w].d);
    case _ =>
  }

  lemma CommitKeys(published: seq<Message>, ids: set<nat>, id: nat)
    requires id < |published|
    ensures KeysOf(published, ids + {id}) == KeysOf(published, ids) + Keys(SwapsOf(published[id]))
  {
  }

  lemma KeysOfPrefix(published: seq<Message>, m: Message, ids: set<nat>)
    requires forall id <- ids :: id < |published|
    ensures KeysOf(published + [m], ids) == KeysOf(published, ids)
  {
    assert forall id <- ids :: (published + [m])[id] == published[id];
  }

  /** An insert that reaches the database adds exactly the keys of the worker's message. */
  lemma TryDurable(s: System, w: nat, attempt: Attempt)
    requires Inv(s) && Possible(s, Try(w, attempt))
    ensures Durable(Next(s, Try(w, attempt)))
  {
    assert Sound(s, s.pool[w]);
    var Inserting(d, swaps, _) := s.pool[w];
    InsertKeys(s.rows, swaps, s.published, s.committed, d.id);
  }

  lemma InsertKeys(rows: Rows, swaps: seq<SwapLog>, published: seq<Message>, committed: set<nat>, id: nat)
    requires id < |published| && multiset(swaps) == multiset(SwapsOf(published[id]))
    requires rows.Keys == KeysOf(published, committed)
    ensures Insert(rows, swaps).Keys == KeysOf(published, committed + {id})
  {
    InsertAdds(rows, swaps);
    KeysPermute(swaps, SwapsOf(published[id]));
    CommitKeys(published, committed, id);
  }

  /** A message that calls for nothing is done when it is collected. */
  lemma CollectDurable(s: System, w: nat, swaps: seq<SwapLog>)
    requires Inv(s) && Possible(s, Collect(w, swaps))
    ensures Durable(Next(s, Collect(w, swaps)))
  {
    assert Sound(s, s.pool[w]);
    var id := s.pool[w].d.id;
    if |swaps| == 0 {
      KeysPermute(swaps, SwapsOf(s.published[id]));
      CommitKeys(s.published, s.committed, id);
    }
  }

  lemma StepDurable(s: System, e: Event)
    requires Inv(s) && Possible(s, e)
    ensures Durable(Next(s, e))
  {
    match e
    case Publish(m) =>
      KeysOfPrefix(s.published, m, s.committed);
    case Collect(w, swaps) =>
      CollectDurable(s, w, swaps);
    case Try(w, attempt) =>
      TryDurable(s, w, attempt);
    case Nack(w, _) =>
      assert Sound(s, s.pool[w]);
    case Ack(w, _, _) =>
      assert Sound(s, s.pool[w]);
    case _ =>
  }

  lemma StepInv(s: System, e: Event)
    requires Inv(s) && Possible(s, e)
    ensures Inv(Next(s, e))
  {
    StepLedger(s, e);
    StepDeliveries(s, e);
    StepDurable(s, e);
  }

  // ---------- whole runs ----------

  predicate IsRun(s: System, events: seq<Event>)
    decreases |events|
  {
    events == [] || (Possible(s, events[0]) && IsRun(Next(s, events[0]), events[1..]))
  }

  function End(s: System, events: seq<Event>): System
    requires IsRun(s, events)
    decreases |events|
  {
    if events == [] then s else End(Next(s, events[0]), events[1..])
  }

  lemma {:induction false} RunInv(s: System, events: seq<Event>)
    requires Inv(s) && IsRun(s, events)
    ensures Inv(End(s, events))
    decreases |events|
  {
    if events != [] {
      StepInv(s, events[0]);
      RunInv(Next(s, events[0]), events[1..]);
    }
  }

  /** At any moment of any run: an acknowledged message has the key of each of its swaps in the
      table, a message is lost to the broker only by an acknowledgement or because its body is
      malformed, and the table holds no key that is not of a completed insert. */
  lemma AckedMeansStored(workers: nat, events: seq<Event>)
    requires IsRun(Start(workers), events)
    ensures var s := End(Start(workers), events);
            && (forall id <- s.acked :: id < |s.published| && Keys(SwapsOf(s.published[id])) <= s.rows.Keys)
            && (forall id: nat :: id < |s.published| && id !in s.ready && id !in s.unacked.Values ==>
                  id in s.acked || s.published[id].Malformed?)
            && s.rows.Keys == KeysOf(s.published, s.committed)
  {
    StartInv(workers);
    RunInv(Start(workers), events);
  }

  predicate Drained(s: System) {
    s.ready == {} && s.unacked == map[]
  }

  ghost function AllKeys(published: seq<Message>): set<Key> {
    set id, k | 0 <= id < |published| && k in Keys(SwapsOf(published[id])) :: k
  }

  /** Once the queue is drained the table holds exactly the keys of all published swaps, however
      often messages were redelivered, inserts failed or the process crashed. */
  lemma DrainedTable(workers: nat, events: seq<Event>)
    requires IsRun(Start(workers), events) && Drained(End(Start(workers), events))
    ensures var s := End(Start(workers), events); s.rows.Keys == AllKeys(s.published)
  {
    StartInv(workers);
    RunInv(Start(workers), events);
    DrainedKeys(End(Start(workers), events));
  }

  lemma DrainedKeys(s: System)
    requires Inv(s) && Drained(s)
    ensures s.rows.Keys == AllKeys(s.published)
  {
    forall k | k in AllKeys(s.published) ensures k in s.rows.Keys {
      var id: nat :| id < |s.published| && k in Keys(SwapsOf(s.published[id]));
      assert id in s.acked || id in s.dropped;
    }
  }

  // ---------- where a message is ----------

  /** Waiting in the queue, delivered and not settled, settled in one of two ways, or not published yet. */
  datatype Place = Unknown | Queued | InFlight | Acknowledged | Rejected

  function PlaceOf(s: System, id: nat): Place {
    if id in s.ready then Queued
    else if id in s.unacked.Values then InFlight
    else if id in s.acked then Acknowledged
    else if id in s.dropped then Rejected
    else Unknown
  }

  /** The message of a worker's delivery is still waiting to be settled under its tag. */
  predicate Live(s: System, w: nat) {
    w < |s.pool| && (s.pool[w].Received? || s.pool[w].Stored?) && s.pool[w].d.tag in s.unacked
  }

  /** What every event does to every message.  An acknowledgement or a rejection that arrives settles the
      message of its worker's delivery and no other; a lost connection and a crash return what is in
      flight; a publication and a delivery move one message; nothing else moves any. */
  lemma MessageMoves(s: System, e: Event, id: nat)
    requires Inv(s) && Possible(s, e)
    ensures var now, next := PlaceOf(s, id), PlaceOf(Next(s, e), id);
            match e
            case Publish(_) => next == if id == |s.published| then Queued else now
            case Deliver(k) => next == if id == k then InFlight else now
            case Ack(w, arrives, _) =>
              next == if arrives && Live(s, w) && id == s.pool[w].d.id then Acknowledged else now
            case Nack(w, arrives) =>
              next == if arrives && Live(s, w) && id == s.pool[w].d.id then Rejected else now
            case Disconnect => next == if now.InFlight? then Queued else now
            case Crash => next == if now.InFlight? then Queued else now
            case _ => next == now
  {
    match e
    case Deliver(k) => DeliveredValues(s, k);
    case Ack(w, _, _) =>
      assert Sound(s, s.pool[w]);
      AfterSettle(s, s.pool[w].d.tag);
    case Nack(w, _) =>
      assert Sound(s, s.pool[w]);
      AfterSettle(s, s.pool[w].d.tag);
    case _ =>
  }

  /** What every event does to every worker: it leaves when told to, when its insert was reported failed for
      the third time and when its acknowledgement fails, and only a crash brings it back; it waits for the
      next delivery after a rejection and after an acknowledgement, which follows an insert that was reported
      complete or a message without swaps. */
  lemma WorkerMoves(s: System, e: Event, w: nat)
    requires Inv(s) && Possible(s, e) && w < |s.pool|
    ensures var now, next := s.pool[w], Next(s, e).pool[w];
            match e
            case Receive(v, d) => next == if v == w then Received(d) else now
            case Nack(v, _) => next == if v == w then Waiting else now
            case Collect(v, swaps) =>
              next == (if v != w then now else if swaps == [] then Stored(now.d) else Inserting(now.d, swaps, 0))
            case Try(v, attempt) =>
              next == (if v != w then now else if attempt.Committed? then Stored(now.d)
                       else if now.retry == 2 then Left else now.(retry := now.retry + 1))
            case Ack(v, _, ok) => next == (if v != w then now else if ok then Waiting else Left)
            case Leave(v) => next == if v == w then Left else now
            case Crash => next == Waiting
            case _ => next == now
  {
    assert Sound(s, s.pool[w]);
  }

  /** The table changes only by an attempt that is carried out, whatever it reports: the keys of its message
      are then in the table, and every row that was there is as before. */
  lemma RowsMove(s: System, e: Event)
    requires Inv(s) && Possible(s, e)
    ensures e.Try? && !e.attempt.Failed? ==>
              Next(s, e).rows.Keys == s.rows.Keys + Keys(SwapsOf(s.published[s.pool[e.w].d.id]))
    ensures !(e.Try? && !e.attempt.Failed?) ==> Next(s, e).rows == s.rows
    ensures forall k <- s.rows :: k in Next(s, e).rows && Next(s, e).rows[k] == s.rows[k]
  {
    if e.Try? {
      assert Sound(s, s.pool[e.w]);
      var swaps := s.pool[e.w].swaps;
      InsertAdds(s.rows, swaps);
      KeysPermute(swaps, SwapsOf(s.published[s.pool[e.w].d.id]));
    }
  }

  // ---------- every message gets through ----------

  lemma {:induction false} RunAppend(s: System, a: seq<Event>, b: seq<Event>)
    requires IsRun(s, a) && IsRun(End(s, a), b)
    ensures IsRun(s, a + b) && End(s, a + b) == End(End(s, a), b)
    decreases |a|
  {
    if a == [] {
      assert a + b == b;
    } else {
      assert (a + b)[1..] == a[1..] + b;
      RunAppend(Next(s, a[0]), a[1..], b);
    }
  }

  /** Events that publish nothing, and crash only if that is allowed. */
  predicate Quiet(events: seq<Event>, crashes: bool) {
    forall e <- events :: !e.Publish? && (e.Crash? ==> crashes)
  }

  /** A run of `more` that leaves the published messages as they are and worker `w` waiting. */
  ghost predicate LeadsTo(s: System, more: seq<Event>, w: nat, crashes: bool) {
    && IsRun(s, more) && Quiet(more, crashes)
    && var t := End(s, more);
       && Inv(t) && t.published == s.published && |t.pool| == |s.pool| && w < |t.pool| && t.pool[w].Waiting?
  }

  lemma OneEvent(s: System, e: Event, crashes: bool)
    requires Inv(s) && Possible(s, e) && !e.Publish? && (e.Crash? ==> crashes)
    ensures IsRun(s, [e]) && Quiet([e], crashes) && End(s, [e]) == Next(s, e) && Inv(Next(s, e))
    ensures Next(s, e).published == s.published && |Next(s, e).pool| == |s.pool|
  {
    assert [e][1..] == [];
    StepInv(s, e);
  }

  /** One more event in front of a continuation. */
  lemma Before(s: System, e: Event, more: seq<Event>, w: nat, crashes: bool)
    requires Inv(s) && Possible(s, e) && !e.Publish? && (e.Crash? ==> crashes)
    requires LeadsTo(Next(s, e), more, w, crashes)
    ensures LeadsTo(s, [e] + more, w, crashes) && End(s, [e] + more) == End(Next(s, e), more)
  {
    OneEvent(s, e, crashes);
    RunAppend(s, [e], more);
  }

  lemma Nothing(s: System, w: nat)
    requires Inv(s) && w < |s.pool| && s.pool[w].Waiting?
    ensures LeadsTo(s, [], w, false) && End(s, []) == s
  {
  }

  /** How many events a worker is away from waiting, if all goes well. */
  function Rank(p: Phase): nat {
    match p
    case Received(_) => 3
    case Inserting(_, _, _) => 2
    case Stored(_) => 1
    case _ => 0
  }

  predicate Busy(s: System, w: nat) {
    w < |s.pool| && Rank(s.pool[w]) > 0
  }

  /** The next event of a busy worker when all goes well. */
  lemma Proceed(s: System, w: nat) returns (e: Event)
    requires Inv(s) && Busy(s, w)
    ensures Possible(s, e) && !e.Publish? && !e.Crash?
    ensures var t, d := Next(s, e), s.pool[w].d;
            && t.ready == s.ready && w < |t.pool| && !t.pool[w].Left? && Rank(t.pool[w]) < Rank(s.pool[w])
            && (if t.pool[w].Waiting? then t.unacked == s.unacked - {d.tag}
                else t.pool[w].d == d && t.unacked == s.unacked)
  {
    assert Sound(s, s.pool[w]);
    match s.pool[w]
    case Received(d) =>
      e := if s.published[d.id].Malformed? then Nack(w, true) else Collect(w, SwapsOf(s.published[d.id]));
    case Inserting(_, _, _) => e := Try(w, Committed);
    case Stored(_) => e := Ack(w, true, true);
  }

  /** A worker that has a delivery and has not left can settle it; nothing else is settled on the way. */
  lemma {:induction false} Settle(s: System, w: nat) returns (more: seq<Event>)
    requires Inv(s) && w < |s.pool| && !s.pool[w].Left?
    ensures LeadsTo(s, more, w, false)
    ensures var t := End(s, more);
            && t.ready == s.ready
            && t.unacked == if s.pool[w].Waiting? then s.unacked else s.unacked - {s.pool[w].d.tag}
    decreases Rank(s.pool[w])
  {
    if s.pool[w].Waiting? {
      Nothing(s, w);
      more := [];
    } else {
      var e := Proceed(s, w);
      OneEvent(s, e, false);
      var rest := Settle(Next(s, e), w);
      Before(s, e, rest, w, false);
      more := [e] + rest;
    }
  }

  lemma Then(s: System, a: seq<Event>, b: seq<Event>, w: nat, crashes: bool)
    requires LeadsTo(s, a, w, crashes) && LeadsTo(End(s, a), b, w, crashes)
    ensures LeadsTo(s, a + b, w, crashes) && End(s, a + b) == End(End(s, a), b)
  {
    RunAppend(s, a, b);
  }

  /** With nothing in flight, one waiting worker can handle all that is queued. */
  lemma {:induction false} DrainQueue(s: System, w: nat) returns (more: seq<Event>)
    requires Inv(s) && w < |s.pool| && s.pool[w].Waiting? && s.unacked == map[]
    ensures LeadsTo(s, more, w, false) && Drained(End(s, more))
    decreases |s.ready|
  {
    if s.ready == {} {
      Nothing(s, w);
      more := [];
    } else {
      var id :| id in s.ready;
      var one := SettleOne(s, w, id);
      var rest := DrainQueue(End(s, one), w);
      Then(s, one, rest, w, false);
      more := one + rest;
    }
  }

  /** One message is delivered, received and settled. */
  lemma SettleOne(s: System, w: nat, id: nat) returns (more: seq<Event>)
    requires Inv(s) && w < |s.pool| && s.pool[w].Waiting? && s.unacked == map[] && id in s.ready
    ensures LeadsTo(s, more, w, false)
    ensures End(s, more).unacked == map[] && End(s, more).ready == s.ready - {id}
  {
    var d := Delivery(s.nextTag, id);
    var delivered := Next(s, Deliver(id));
    OneEvent(s, Deliver(id), false);
    OneEvent(delivered, Receive(w, d), false);
    var received := Next(delivered, Receive(w, d));
    var settling := Settle(received, w);
    assert End(received, settling).unacked == map[];
    Before(delivered, Receive(w, d), settling, w, false);
    Before(s, Deliver(id), [Receive(w, d)] + settling, w, false);
    more := [Deliver(id)] + ([Receive(w, d)] + settling);
  }

  /** From any state a worker that has not left can bring the queue to its end without a crash; one that
      has left comes back with the next start of the process. */
  lemma CanDrain(s: System, w: nat) returns (more: seq<Event>)
    requires Inv(s) && w < |s.pool|
    ensures LeadsTo(s, more, w, s.pool[w].Left?) && Drained(End(s, more))
  {
    if s.pool[w].Left? {
      OneEvent(s, Crash, true);
      var rest := DrainQueue(Next(s, Crash), w);
      Before(s, Crash, rest, w, true);
      more := [Crash] + rest;
    } else {
      var settling := Settle(s, w);
      var settled := End(s, settling);
      OneEvent(settled, Disconnect, false);
      var rest := DrainQueue(Next(settled, Disconnect), w);
      Before(settled, Disconnect, rest, w, false);
      Then(s, settling, [Disconnect] + rest, w, false);
      more := settling + ([Disconnect] + rest);
    }
  }

  lemma {:induction false} PoolStays(s: System, events: seq<Event>)
    requires IsRun(s, events)
    ensures |End(s, events).pool| == |s.pool|
    decreases |events|
  {
    if events != [] {
      PoolStays(Next(s, events[0]), events[1..]);
    }
  }

  /** Nothing is stuck: after any run, with at least one worker, the system can go on without new
      messages until every message that decodes is acknowledged and every other one rejected, and then
      the table holds exactly the keys of all published swaps. */
  lemma EveryMessageGetsThrough(workers: nat, events: seq<Event>, w: nat) returns (more: seq<Event>)
    requires IsRun(Start(workers), events) && w < workers
    ensures IsRun(Start(workers), events + more)
    ensures |End(Start(workers), events).pool| == workers
    ensures var s, t := End(Start(workers), events), End(Start(workers), events + more);
            && Quiet(more, s.pool[w].Left?) && t.published == s.published
            && (forall id: nat :: id < |t.published| ==>
                  PlaceOf(t, id) == if t.published[id].Block? then Acknowledged else Rejected)
            && t.rows.Keys == AllKeys(t.published)
  {
    StartInv(workers);
    RunInv(Start(workers), events);
    PoolStays(Start(workers), events);
    var s := End(Start(workers), events);
    more := CanDrain(s, w);
    RunAppend(Start(workers), events, more);
    DrainedKeys(End(s, more));
    DrainedPlaces(End(s, more));
  }

  lemma DrainedPlaces(s: System)
    requires Inv(s) && Drained(s)
    ensures forall id: nat :: id < |s.published| ==>
              PlaceOf(s, id) == if s.published[id].Block? then Acknowledged else Rejected
  {
  }

  /** So two drained runs over the same messages end with the same keys. */
  lemma RunsAgree(workers: nat, events: seq<Event>, workers': nat, events': seq<Event>)
    requires IsRun(Start(workers), events) && Drained(End(Start(workers), events))
    requires IsRun(Start(workers'), events') && Drained(End(Start(workers'), events'))
    requires End(Start(workers), events).published == End(Start(workers'), events').published
    ensures End(Start(workers), events).rows.Keys == End(Start(workers'), events').rows.Keys
  {
    DrainedTable(workers, events);
    DrainedTable(workers', events');
  }

  /** Rows are never overwritten or removed by anything the system does. */
  lemma {:induction false} RowsStay(s: System, events: seq<Event>)
    requires IsRun(s, events)
    ensures forall k <- s.rows :: k in End(s, events).rows && End(s, events).rows[k] == s.rows[k]
    decreases |events|
  {
    if events != [] {
      if events[0].Try? {
        InsertAdds(s.rows, s.pool[events[0].w].swaps);
      }
      RowsStay(Next(s, events[0]), events[1..]);
    }
  }

  /** A row that some published message calls for. */
  predicate CalledFor(published: seq<Message>, row: SwapLog) {
    exists id: nat :: id < |published| && row in SwapsOf(published[id])
  }

  ghost predicate AllCalledFor(s: System) {
    forall k <- s.rows :: CalledFor(s.published, s.rows[k])
  }

  lemma StepRows(s: System, e: Event)
    requires Inv(s) && AllCalledFor(s) && Possible(s, e)
    ensures AllCalledFor(Next(s, e))
  {
    var t := Next(s, e);
    if e.Try? {
      TryRows(s, e.w, e.attempt);
    } else if e.Publish? {
      forall k | k in t.rows ensures CalledFor(t.published, t.rows[k]) {
        var id: nat :| id < |s.published| && s.rows[k] in SwapsOf(s.published[id]);
        assert t.published[id] == s.published[id];
      }
    }
  }

  lemma TryRows(s: System, w: nat, attempt: Attempt)
    requires Inv(s) && AllCalledFor(s) && Possible(s, Try(w, attempt))
    ensures AllCalledFor(Next(s, Try(w, attempt)))
  {
    assert Sound(s, s.pool[w]);
    var Inserting(d, swaps, _) := s.pool[w];
    InsertAdds(s.rows, swaps);
    var t := Next(s, Try(w, attempt));
    forall k | k in t.rows ensures CalledFor(t.published, t.rows[k]) {
      if k !in s.rows {
        assert t.rows[k] in multiset(swaps);
        assert t.rows[k] in SwapsOf(s.published[d.id]);
      }
    }
  }

  /** Every row of the table is one that a message calls for. */
  lemma {:induction false} RowsAreCalledFor(s: System, events: seq<Event>)
    requires Inv(s) && AllCalledFor(s) && IsRun(s, events)
    ensures AllCalledFor(End(s, events))
    decreases |events|
  {
    if events != [] {
      StepInv(s, events[0]);
      StepRows(s, events[0]);
      RowsAreCalledFor(Next(s, events[0]), events[1..]);
    }
  }

  /** The goroutines of one message hand the pool what the message calls for: whichever way they
      interleave, what the collector ends with is a possible result of `Collect`. */
  lemma FanOutFeedsPool(s: System, w: nat, actions: seq<FanOut.Action>)
    requires w < |s.pool| && s.pool[w].Received? && Body(s, s.pool[w].d.id).Block?
    requires var job := Body(s, s.pool[w].d.id).job;
             && job.workers > 0
             && FanOut.IsRun(job, Init(job), actions)
             && FanOut.End(job, Init(job), actions).collectorDone
    ensures var job := Body(s, s.pool[w].d.id).job;
            Possible(s, Collect(w, FanOut.End(job, Init(job), actions).swaps))
  {
    EveryInterleaving(Body(s, s.pool[w].d.id).job, actions);
  }
}
