/**
 The ingest pipeline as a transition system.  Request handlers, the queue, one forwarder and one
 worker per pair, and the store run in any interleaving; every locked section and every channel
 operation is one atomic step.  Cancellation and closing may happen at any time.
 */
module Pipeline {
  import opened Float64
  import opened EventQueue
  import opened Leaderboard
  import opened Traversals
  import opened TreapStore
  import opened BestRecords
  import opened Ingest
  import opened Gathering
  import Spec = DedupeSpec

  datatype Config = Config(maxSize: int, capacity: int, bufferSize: int,
                           weights: map<string, Float>, defaultWeight: Float)

  /** A handler between requests, past the id check, inside `Enqueue` past its checks, or refused. */
  datatype Handler = Idle | Recorded(e: Event) | Admitted(e: Event) | Refused(e: Event)

  datatype Forwarder = Receiving | Holding(e: Event) | Finished

  datatype Worker = Waiting | Processing(e: Event) | Stopped

  /** The running system, and after it what has happened so far. */
  datatype State = State(
    ids: seq<string>,
    handlers: seq<Handler>,
    queue: seq<Event>,
    closed: bool,
    cancelled: bool,
    forwarders: seq<Forwarder>,
    workers: seq<Worker>,
    board: Board,
    bests: map<string, Best>,
    accepted: seq<Event>,
    applied: seq<Event>,
    failed: multiset<Event>,
    dropped: multiset<Event>,
    evicted: multiset<string>,
    idleRollbacks: multiset<string>,
    panicked: bool)

  function Init(handlers: nat, workers: nat): State {
    State([], seq(handlers, i => Idle), [], false, false, seq(workers, i => Receiving), seq(workers, i => Waiting),
          EMPTY, map[], [], [], multiset{}, multiset{}, multiset{}, multiset{}, false)
  }

  datatype Step =
    | See(h: nat, e: Event)          // SeenAndRecord at the start of a request
    | Check(h: nat)                  // take the read lock, look at closed and capacity
    | Send(h: nat)                   // the select sends and the lock is released
    | GiveUp(h: nat, gone: bool)     // the select finds no room or the request cancelled
    | Rollback(h: nat)               // Unrecord after a refusal
    | Close                          // close the queue under the write lock
    | Cancel                         // cancel the workers' context
    | Receive(w: nat)                // forwarder takes the oldest event
    | Finish(w: nat)                 // forwarder finds the queue closed and drained
    | Drop(w: nat)                   // forwarder notices the cancellation instead of delivering
    | Deliver(w: nat)                // forwarder hands its event to the waiting worker
    | Apply(w: nat)                  // worker scores the event and updates the store
    | Fail(w: nat)                   // scoring is cancelled
    | Stop(w: nat)                   // worker leaves its loop

  predicate NoneAdmitted(s: State) {
    forall i :: 0 <= i < |s.handlers| ==> !s.handlers[i].Admitted?
  }

  predicate Enabled(c: Config, s: State, step: Step) {
    !s.panicked && |s.forwarders| == |s.workers| &&
    match step
    case See(h, e) => h < |s.handlers| && s.handlers[h].Idle?
    case Check(h) => h < |s.handlers| && s.handlers[h].Recorded?
    case Send(h) => h < |s.handlers| && s.handlers[h].Admitted? && (s.closed || |s.queue| < c.bufferSize)
    case GiveUp(h, gone) => h < |s.handlers| && s.handlers[h].Admitted? && (gone || |s.queue| >= c.bufferSize)
    case Rollback(h) => h < |s.handlers| && s.handlers[h].Refused?
    case Close => NoneAdmitted(s)
    case Cancel => true
    case Receive(w) => w < |s.workers| && s.forwarders[w].Receiving? && s.queue != []
    case Finish(w) => w < |s.workers| && s.forwarders[w].Receiving? && s.queue == [] && s.closed
    case Drop(w) => w < |s.workers| && s.forwarders[w].Holding? && s.cancelled
    case Deliver(w) => w < |s.workers| && s.forwarders[w].Holding? && s.workers[w].Waiting?
    case Apply(w) => w < |s.workers| && s.workers[w].Processing?
    case Fail(w) => w < |s.workers| && s.workers[w].Processing? && s.cancelled
    case Stop(w) => w < |s.workers| && s.workers[w].Waiting? && (s.cancelled || s.forwarders[w].Finished?)
  }

  function Do(c: Config, s: State, step: Step): State
    requires Enabled(c, s, step)
  {
    match step
    case See(h, e) =>
      if e.id in s.ids then s
      else s.(ids := Spec.Record(s.ids, e.id, c.maxSize),
              handlers := s.handlers[h := Recorded(e)],
              evicted := s.evicted + if 0 < c.maxSize <= |s.ids| then multiset{s.ids[0]} else multiset{})
    case Check(h) =>
      var e := s.handlers[h].e;
      var refused := e.talentID == "" || e.skill == "" || s.closed || |s.queue| >= c.capacity;
      s.(handlers := s.handlers[h := if refused then Refused(e) else Admitted(e)])
    case Send(h) =>
      if s.closed then s.(panicked := true)
      else
        var e := s.handlers[h].e;
        s.(handlers := s.handlers[h := Idle], queue := s.queue + [e], accepted := s.accepted + [e])
    case GiveUp(h, gone) => s.(handlers := s.handlers[h := Refused(s.handlers[h].e)])
    case Rollback(h) =>
      var id := s.handlers[h].e.id;
      s.(handlers := s.handlers[h := Idle],
         ids := Spec.Unrecord(s.ids, id),
         idleRollbacks := s.idleRollbacks + if id in s.ids then multiset{} else multiset{id})
    case Close => s.(closed := true)
    case Cancel => s.(cancelled := true)
    case Receive(w) => s.(queue := s.queue[1..], forwarders := s.forwarders[w := Holding(s.queue[0])])
    case Finish(w) => s.(forwarders := s.forwarders[w := Finished])
    case Drop(w) => s.(dropped := s.dropped + multiset{s.forwarders[w].e}, forwarders := s.forwarders[w := Finished])
    case Deliver(w) =>
      s.(workers := s.workers[w := Processing(s.forwarders[w].e)], forwarders := s.forwarders[w := Receiving])
    case Apply(w) =>
      var e := s.workers[w].e;
      s.(workers := s.workers[w := Waiting], applied := s.applied + [e],
         board := Improve(s.board, UpdateFor(e, c.weights, c.defaultWeight)),
         bests := BestsAfter(s.bests, e.talentID, BestFor(e, c.weights, c.defaultWeight)))
    case Fail(w) => s.(workers := s.workers[w := Waiting], failed := s.failed + multiset{s.workers[w].e})
    case Stop(w) => s.(workers := s.workers[w := Stopped])
  }

  ghost predicate Executes(c: Config, s: State, steps: seq<Step>, t: State)
    decreases |steps|
  {
    if steps == [] then s == t
    else Enabled(c, s, steps[0]) && Executes(c, Do(c, s, steps[0]), steps[1..], t)
  }

  /** Some interleaving leads from the start of the service to `s`. */
  ghost predicate Reachable(c: Config, s: State) {
    exists handlers, workers, steps :: Executes(c, Init(handlers, workers), steps, s)
  }

  // ---------- what the agents hold ----------

  function HandlerEvent(h: Handler): multiset<string> {
    if h.Idle? then multiset{} else multiset{h.e.id}
  }

  function AdmittedEvent(h: Handler): multiset<Event> {
    if h.Admitted? then multiset{h.e} else multiset{}
  }

  function HeldEvent(f: Forwarder): multiset<Event> {
    if f.Holding? then multiset{f.e} else multiset{}
  }

  function FinishedOne(f: Forwarder): multiset<bool> {
    if f.Finished? then multiset{true} else multiset{}
  }

  function ProcessedEvent(w: Worker): multiset<Event> {
    if w.Processing? then multiset{w.e} else multiset{}
  }

  function EventId(e: Event): multiset<string> {
    multiset{e.id}
  }

  /** The ids handlers have recorded and neither accepted nor taken back yet. */
  function InFlight(s: State): multiset<string> {
    Gather(s.handlers, HandlerEvent)
  }

  function AcceptedIds(s: State): multiset<string> {
    Gather(s.accepted, EventId)
  }

  // ---------- the laws every run keeps ----------

  /**
   Each time an id was accepted, is in flight, or was rolled back too late is paid for by an
   eviction of that id, or by its being remembered now.
   */
  ghost predicate IdBalance(s: State, id: string) {
    && AcceptedIds(s)[id] + InFlight(s)[id] + s.idleRollbacks[id] == s.evicted[id] + multiset(s.ids)[id]
    && s.idleRollbacks[id] <= s.evicted[id]
  }

  ghost predicate IdLaw(c: Config, s: State) {
    && Spec.NoRepeats(s.ids) && (if c.maxSize > 0 then |s.ids| <= c.maxSize else s.evicted == multiset{})
    && forall id :: IdBalance(s, id)
  }

  /** An accepted event is queued, held, in processing, applied, failed or dropped, once each time. */
  ghost predicate EventBalance(s: State, e: Event) {
    multiset(s.accepted)[e]
    == multiset(s.queue)[e] + Gather(s.forwarders, HeldEvent)[e] + Gather(s.workers, ProcessedEvent)[e]
       + multiset(s.applied)[e] + s.failed[e] + s.dropped[e]
  }

  ghost predicate EventLaw(s: State) {
    forall e :: EventBalance(s, e)
  }

  /** Losses come from cancellation only, and a forwarder drops at most one event. */
  ghost predicate LossLaw(s: State) {
    && (!s.cancelled ==> s.failed == multiset{} && s.dropped == multiset{})
    && |s.dropped| <= |Gather(s.forwarders, FinishedOne)|
  }

  /** The store is the replay of the applied events. */
  ghost predicate BoardLaw(c: Config, s: State) {
    s.board == Replay(EMPTY, UpdatesFor(s.applied, c.weights, c.defaultWeight))
  }

  /** What each event offers the store for its talent. */
  function Offers(c: Config, es: seq<Event>): (os: seq<Offer>)
    ensures |os| == |es|
    ensures forall i :: 0 <= i < |es| ==> os[i] == Offer(es[i].talentID, BestFor(es[i], c.weights, c.defaultWeight))
  {
    seq(|es|, i requires 0 <= i < |es| => Offer(es[i].talentID, BestFor(es[i], c.weights, c.defaultWeight)))
  }

  /** The metadata belong to the scores on the board, and to the first best event of each talent. */
  ghost predicate MetaLaw(c: Config, s: State) {
    s.board.best == ScoresIn(s.bests) && Reflects(s.bests, Offers(c, s.applied))
  }

  /** The queue holds the events accepted last, in the order of their acceptance. */
  ghost predicate FifoLaw(s: State) {
    |s.queue| <= |s.accepted| && s.accepted[|s.accepted| - |s.queue|..] == s.queue
  }

  predicate IsComplete(e: Event) {
    e.talentID != "" && e.skill != ""
  }

  /** Only events with a talent and a skill get past the checks. */
  ghost predicate CompleteLaw(s: State) {
    && (forall h :: 0 <= h < |s.handlers| && s.handlers[h].Admitted? ==> IsComplete(s.handlers[h].e))
    && (forall e :: e in s.accepted ==> IsComplete(e))
  }

  /** No handler is about to send when the queue is closed, so no send meets a closed channel. */
  ghost predicate LockLaw(s: State) {
    !s.panicked && (s.closed ==> NoneAdmitted(s))
  }

  /** The events queued and those about to be are at most capacity - 1 plus the handlers. */
  ghost predicate QueueLaw(c: Config, s: State) {
    && |s.queue| <= c.bufferSize
    && |s.queue| + |Gather(s.handlers, AdmittedEvent)| <= c.capacity - 1 + |s.handlers|
  }

  /** Without cancellation forwarders and workers end only when there is nothing left to do. */
  ghost predicate EndLaw(s: State) {
    && |s.forwarders| == |s.workers|
    && (forall w :: 0 <= w < |s.workers| && !s.cancelled && s.forwarders[w].Finished? ==> s.closed && s.queue == [])
    && (forall w :: 0 <= w < |s.workers| && !s.cancelled && s.workers[w].Stopped? ==> s.forwarders[w].Finished?)
  }

  ghost predicate Laws(c: Config, s: State) {
    && IdLaw(c, s) && EventLaw(s) && LossLaw(s) && BoardLaw(c, s) && MetaLaw(c, s)
    && FifoLaw(s) && CompleteLaw(s) && LockLaw(s) && QueueLaw(c, s) && EndLaw(s)
  }
}
