/**
 Every step of the pipeline keeps every law, so every reachable state obeys them; and what that
 means for duplicates, for lost events, for the queue's bound and for the final scores.
 */
module PipelineLaws {
  import opened EventQueue
  import opened Leaderboard
  import opened Traversals
  import opened TreapStore
  import opened BestRecords
  import opened Ingest
  import opened Gathering
  import opened Pipeline
  import opened Scoring
  import Spec = DedupeSpec

  // ---------- one step ----------

  lemma RecordCounts(ids: seq<string>, id: string, maxSize: int, x: string)
    requires id !in ids
    ensures multiset(Spec.Record(ids, id, maxSize))[x] + (if 0 < maxSize <= |ids| && ids[0] == x then 1 else 0)
         == multiset(ids)[x] + (if x == id then 1 else 0)
  {
    if 0 < maxSize <= |ids| {
      assert ids == [ids[0]] + ids[1..];
    }
  }

  lemma UnrecordCounts(ids: seq<string>, id: string, x: string)
    requires Spec.NoRepeats(ids)
    ensures multiset(Spec.Unrecord(ids, id))[x] + (if id in ids && x == id then 1 else 0) == multiset(ids)[x]
  {
    Spec.UnrecordKeepsBound(ids, id);
    NoRepeatsCount(ids, x);
    NoRepeatsCount(Spec.Unrecord(ids, id), x);
  }

  lemma SeeBalances(c: Config, s: State, h: nat, e: Event, id: string)
    requires Spec.NoRepeats(s.ids) && IdBalance(s, id) && Enabled(c, s, See(h, e))
    ensures IdBalance(Do(c, s, See(h, e)), id)
  {
    if e.id !in s.ids { RecordCounts(s.ids, e.id, c.maxSize, id); }
    GatherUpdate(s.handlers, h, Recorded(e), HandlerEvent);
  }

  lemma SendBalances(c: Config, s: State, h: nat, id: string)
    requires IdBalance(s, id) && Enabled(c, s, Send(h))
    ensures IdBalance(Do(c, s, Send(h)), id)
  {
    GatherUpdate(s.handlers, h, Idle, HandlerEvent);
    GatherAppend(s.accepted, s.handlers[h].e, EventId);
  }

  lemma RollbackBalances(c: Config, s: State, h: nat, id: string)
    requires Spec.NoRepeats(s.ids) && IdBalance(s, id) && Enabled(c, s, Rollback(h))
    ensures IdBalance(Do(c, s, Rollback(h)), id)
  {
    UnrecordCounts(s.ids, s.handlers[h].e.id, id);
    GatherHas(s.handlers, h, HandlerEvent);
    GatherUpdate(s.handlers, h, Idle, HandlerEvent);
  }

  lemma CheckBalances(c: Config, s: State, h: nat, id: string)
    requires IdBalance(s, id) && Enabled(c, s, Check(h))
    ensures IdBalance(Do(c, s, Check(h)), id)
  {
    GatherUpdate(s.handlers, h, Refused(s.handlers[h].e), HandlerEvent);
    GatherUpdate(s.handlers, h, Admitted(s.handlers[h].e), HandlerEvent);
  }

  lemma GiveUpBalances(c: Config, s: State, h: nat, gone: bool, id: string)
    requires IdBalance(s, id) && Enabled(c, s, GiveUp(h, gone))
    ensures IdBalance(Do(c, s, GiveUp(h, gone)), id)
  {
    GatherUpdate(s.handlers, h, Refused(s.handlers[h].e), HandlerEvent);
  }

  lemma IdBalanceKept(c: Config, s: State, step: Step, id: string)
    requires Spec.NoRepeats(s.ids) && IdBalance(s, id) && Enabled(c, s, step)
    ensures IdBalance(Do(c, s, step), id)
  {
    match step
    case See(h, e) => SeeBalances(c, s, h, e, id);
    case Check(h) => CheckBalances(c, s, h, id);
    case Send(h) => SendBalances(c, s, h, id);
    case GiveUp(h, gone) => GiveUpBalances(c, s, h, gone, id);
    case Rollback(h) => RollbackBalances(c, s, h, id);
    case _ =>
  }

  lemma IdLawKept(c: Config, s: State, step: Step)
    requires IdLaw(c, s) && Enabled(c, s, step)
    ensures IdLaw(c, Do(c, s, step))
  {
    forall id ensures IdBalance(Do(c, s, step), id) {
      assert IdBalance(s, id);
      IdBalanceKept(c, s, step, id);
    }
    if step.See? { Spec.RecordKeepsBound(s.ids, step.e.id, c.maxSize); }
    if step.Rollback? { Spec.UnrecordKeepsBound(s.ids, s.handlers[step.h].e.id); }
  }

  lemma ReceiveBalances(c: Config, s: State, w: nat, e: Event)
    requires EventBalance(s, e) && Enabled(c, s, Receive(w))
    ensures EventBalance(Do(c, s, Receive(w)), e)
  {
    assert s.queue == [s.queue[0]] + s.queue[1..];
    GatherUpdate(s.forwarders, w, Holding(s.queue[0]), HeldEvent);
  }

  lemma DeliverBalances(c: Config, s: State, w: nat, e: Event)
    requires EventBalance(s, e) && Enabled(c, s, Deliver(w))
    ensures EventBalance(Do(c, s, Deliver(w)), e)
  {
    GatherUpdate(s.forwarders, w, Receiving, HeldEvent);
    GatherUpdate(s.workers, w, Processing(s.forwarders[w].e), ProcessedEvent);
  }

  lemma ApplyBalances(c: Config, s: State, w: nat, e: Event)
    requires EventBalance(s, e) && Enabled(c, s, Apply(w))
    ensures EventBalance(Do(c, s, Apply(w)), e)
  {
    GatherUpdate(s.workers, w, Waiting, ProcessedEvent);
  }

  lemma ForwarderEndBalances(c: Config, s: State, w: nat, step: Step, e: Event)
    requires EventBalance(s, e) && (step == Finish(w) || step == Drop(w)) && Enabled(c, s, step)
    ensures EventBalance(Do(c, s, step), e)
  {
    GatherUpdate(s.forwarders, w, Finished, HeldEvent);
  }

  lemma FailBalances(c: Config, s: State, w: nat, e: Event)
    requires EventBalance(s, e) && Enabled(c, s, Fail(w))
    ensures EventBalance(Do(c, s, Fail(w)), e)
  {
    GatherUpdate(s.workers, w, Waiting, ProcessedEvent);
  }

  lemma StopBalances(c: Config, s: State, w: nat, e: Event)
    requires EventBalance(s, e) && Enabled(c, s, Stop(w))
    ensures EventBalance(Do(c, s, Stop(w)), e)
  {
    GatherUpdate(s.workers, w, Stopped, ProcessedEvent);
  }

  lemma HandlerStepBalances(c: Config, s: State, step: Step, e: Event)
    requires EventBalance(s, e) && Enabled(c, s, step)
    requires step.See? || step.Check? || step.Send? || step.GiveUp? || step.Rollback? || step.Close? || step.Cancel?
    ensures EventBalance(Do(c, s, step), e)
  {
  }

  lemma EventBalanceKept(c: Config, s: State, step: Step, e: Event)
    requires EventBalance(s, e) && Enabled(c, s, step)
    ensures EventBalance(Do(c, s, step), e)
  {
    match step
    case Receive(w) => ReceiveBalances(c, s, w, e);
    case Finish(w) => ForwarderEndBalances(c, s, w, step, e);
    case Drop(w) => ForwarderEndBalances(c, s, w, step, e);
    case Deliver(w) => DeliverBalances(c, s, w, e);
    case Apply(w) => ApplyBalances(c, s, w, e);
    case Fail(w) => FailBalances(c, s, w, e);
    case Stop(w) => StopBalances(c, s, w, e);
    case _ => HandlerStepBalances(c, s, step, e);
  }

  lemma EventLawKept(c: Config, s: State, step: Step)
    requires EventLaw(s) && Enabled(c, s, step)
    ensures EventLaw(Do(c, s, step))
  {
    forall e ensures EventBalance(Do(c, s, step), e) {
      assert EventBalance(s, e);
      EventBalanceKept(c, s, step, e);
    }
  }

  lemma ForwarderMoves(s: State, w: nat, f: Forwarder)
    requires w < |s.forwarders|
    ensures |Gather(s.forwarders[w := f], FinishedOne)| + |FinishedOne(s.forwarders[w])|
         == |Gather(s.forwarders, FinishedOne)| + |FinishedOne(f)|
  {
    GatherUpdate(s.forwarders, w, f, FinishedOne);
  }

  lemma ReceiveKeepsLoss(c: Config, s: State, w: nat)
    requires LossLaw(s) && Enabled(c, s, Receive(w))
    ensures LossLaw(Do(c, s, Receive(w)))
  {
    ForwarderMoves(s, w, Holding(s.queue[0]));
  }

  lemma EndKeepsLoss(c: Config, s: State, step: Step, w: nat)
    requires LossLaw(s) && (step == Finish(w) || step == Drop(w)) && Enabled(c, s, step)
    ensures LossLaw(Do(c, s, step))
  {
    ForwarderMoves(s, w, Finished);
  }

  lemma DeliverKeepsLoss(c: Config, s: State, w: nat)
    requires LossLaw(s) && Enabled(c, s, Deliver(w))
    ensures LossLaw(Do(c, s, Deliver(w)))
  {
    ForwarderMoves(s, w, Receiving);
  }

  lemma LossLawKept(c: Config, s: State, step: Step)
    requires LossLaw(s) && Enabled(c, s, step)
    ensures LossLaw(Do(c, s, step))
  {
    match step
    case Receive(w) => ReceiveKeepsLoss(c, s, w);
    case Finish(w) => EndKeepsLoss(c, s, step, w);
    case Drop(w) => EndKeepsLoss(c, s, step, w);
    case Deliver(w) => DeliverKeepsLoss(c, s, w);
    case _ =>
  }

  lemma BoardLawKept(c: Config, s: State, step: Step)
    requires BoardLaw(c, s) && Enabled(c, s, step)
    ensures BoardLaw(c, Do(c, s, step))
  {
    if step.Apply? {
      ReplayOneMore(EMPTY, s.applied, s.workers[step.w].e, c.weights, c.defaultWeight);
    }
  }

  lemma MetaLawKept(c: Config, s: State, step: Step)
    requires MetaLaw(c, s) && Enabled(c, s, step)
    ensures MetaLaw(c, Do(c, s, step))
  {
    if step.Apply? {
      var e := s.workers[step.w].e;
      var b := BestFor(e, c.weights, c.defaultWeight);
      ScoresInUpdated(s.bests, e.talentID, b);
      OfferApplied(c, s.bests, s.applied, e);
    }
  }

  lemma OffersOneMore(c: Config, es: seq<Event>, e: Event)
    ensures Offers(c, es + [e]) == Offers(c, es) + [Offer(e.talentID, BestFor(e, c.weights, c.defaultWeight))]
  {
  }

  lemma OfferApplied(c: Config, bests: map<string, Best>, applied: seq<Event>, e: Event)
    requires Reflects(bests, Offers(c, applied))
    ensures Reflects(BestsAfter(bests, e.talentID, BestFor(e, c.weights, c.defaultWeight)), Offers(c, applied + [e]))
  {
    OffersOneMore(c, applied, e);
    ReflectsOneMore(bests, Offers(c, applied), Offer(e.talentID, BestFor(e, c.weights, c.defaultWeight)));
  }

  lemma FifoLawKept(c: Config, s: State, step: Step)
    requires FifoLaw(s) && Enabled(c, s, step)
    ensures FifoLaw(Do(c, s, step))
  {
    if step.Receive? {
      assert s.queue[1..] == s.accepted[|s.accepted| - |s.queue|..][1..];
    }
  }

  lemma CompleteLawKept(c: Config, s: State, step: Step)
    requires CompleteLaw(s) && Enabled(c, s, step)
    ensures CompleteLaw(Do(c, s, step))
  {
  }

  lemma LockLawKept(c: Config, s: State, step: Step)
    requires LockLaw(s) && Enabled(c, s, step)
    ensures LockLaw(Do(c, s, step))
  {
  }

  lemma HandlerMoves(s: State, h: nat, x: Handler)
    requires h < |s.handlers|
    ensures |Gather(s.handlers[h := x], AdmittedEvent)| + |AdmittedEvent(s.handlers[h])|
         == |Gather(s.handlers, AdmittedEvent)| + |AdmittedEvent(x)|
    ensures |Gather(s.handlers[h := x], AdmittedEvent)| <= |s.handlers|
  {
    GatherUpdate(s.handlers, h, x, AdmittedEvent);
    GatherAtMost(s.handlers[h := x], AdmittedEvent);
  }

  lemma CheckKeepsQueue(c: Config, s: State, h: nat)
    requires QueueLaw(c, s) && Enabled(c, s, Check(h))
    ensures QueueLaw(c, Do(c, s, Check(h)))
  {
    HandlerMoves(s, h, Refused(s.handlers[h].e));
    HandlerMoves(s, h, Admitted(s.handlers[h].e));
  }

  lemma QueueLawKept(c: Config, s: State, step: Step)
    requires QueueLaw(c, s) && Enabled(c, s, step)
    ensures QueueLaw(c, Do(c, s, step))
  {
    match step
    case See(h, e) => HandlerMoves(s, h, Recorded(e));
    case Check(h) => CheckKeepsQueue(c, s, h);
    case Send(h) => HandlerMoves(s, h, Idle);
    case GiveUp(h, gone) => HandlerMoves(s, h, Refused(s.handlers[h].e));
    case Rollback(h) => HandlerMoves(s, h, Idle);
    case _ =>
  }

  lemma EndLawKept(c: Config, s: State, step: Step)
    requires EndLaw(s) && LockLaw(s) && Enabled(c, s, step)
    ensures EndLaw(Do(c, s, step))
  {
  }

  // ---------- whole runs ----------

  /** What the queue's options guarantee. */
  predicate WellConfigured(c: Config) {
    c.capacity > 0 && c.bufferSize > 0
  }

  lemma LawsAtStart(c: Config, handlers: nat, workers: nat)
    requires WellConfigured(c)
    ensures Laws(c, Init(handlers, workers))
  {
    var s := Init(handlers, workers);
    NothingAtStart(handlers, workers);
    assert UpdatesFor(s.applied, c.weights, c.defaultWeight) == [];
  }

  lemma NothingAtStart(handlers: nat, workers: nat)
    ensures var s := Init(handlers, workers);
            && Gather(s.handlers, HandlerEvent) == multiset{} && Gather(s.handlers, AdmittedEvent) == multiset{}
            && Gather(s.forwarders, HeldEvent) == multiset{} && Gather(s.forwarders, FinishedOne) == multiset{}
            && Gather(s.workers, ProcessedEvent) == multiset{}
  {
    var s := Init(handlers, workers);
    GatherNothing(s.handlers, HandlerEvent);
    GatherNothing(s.handlers, AdmittedEvent);
    GatherNothing(s.forwarders, HeldEvent);
    GatherNothing(s.forwarders, FinishedOne);
    GatherNothing(s.workers, ProcessedEvent);
  }

  lemma LawsKeptBy(c: Config, s: State, step: Step)
    requires Laws(c, s) && Enabled(c, s, step)
    ensures Laws(c, Do(c, s, step))
  {
    IdLawKept(c, s, step);
    EventLawKept(c, s, step);
    LossLawKept(c, s, step);
    BoardLawKept(c, s, step);
    MetaLawKept(c, s, step);
    FifoLawKept(c, s, step);
    CompleteLawKept(c, s, step);
    LockLawKept(c, s, step);
    QueueLawKept(c, s, step);
    EndLawKept(c, s, step);
  }

  lemma {:induction false} LawsKept(c: Config, s: State, steps: seq<Step>, t: State)
    requires Laws(c, s) && Executes(c, s, steps, t)
    ensures Laws(c, t)
    decreases |steps|
  {
    if steps != [] {
      LawsKeptBy(c, s, steps[0]);
      LawsKept(c, Do(c, s, steps[0]), steps[1..], t);
    }
  }

  /** Every law holds in every state any interleaving can reach. */
  lemma LawsHold(c: Config, s: State)
    requires WellConfigured(c) && Reachable(c, s)
    ensures Laws(c, s)
  {
    var handlers, workers, steps :| Executes(c, Init(handlers, workers), steps, s);
    LawsAtStart(c, handlers, workers);
    LawsKept(c, Init(handlers, workers), steps, s);
  }

  lemma StoreReflectsApplied(c: Config, s: State)
    requires WellConfigured(c) && Reachable(c, s)
    ensures BoardLaw(c, s) && MetaLaw(c, s)
  {
    LawsHold(c, s);
  }

  lemma BoardIsReplay(c: Config, s: State)
    requires WellConfigured(c) && Reachable(c, s)
    ensures BoardLaw(c, s)
  {
    LawsHold(c, s);
  }

  // ---------- duplicates ----------

  /**
   An id is accepted at most once more often than it is evicted.  An id that was never evicted is
   accepted or in flight at most once altogether, and is remembered if and only if it is one of
   them: so a refused and rolled back id can be posted again unless another handler has it.
   */
  lemma AcceptedAtMostOnce(c: Config, s: State, id: string)
    requires WellConfigured(c) && Reachable(c, s)
    ensures AcceptedIds(s)[id] + InFlight(s)[id] <= s.evicted[id] + 1
    ensures s.evicted[id] == 0 ==>
              && AcceptedIds(s)[id] + InFlight(s)[id] <= 1
              && (id in s.ids <==> AcceptedIds(s)[id] + InFlight(s)[id] == 1)
  {
    LawsHold(c, s);
    assert IdBalance(s, id);
    NoRepeatsCount(s.ids, id);
  }

  lemma {:induction false} NoRepeatsCount(ids: seq<string>, id: string)
    requires Spec.NoRepeats(ids)
    ensures multiset(ids)[id] == if id in ids then 1 else 0
  {
    if ids != [] {
      assert ids == [ids[0]] + ids[1..];
      assert ids[0] !in ids[1..];
      NoRepeatsCount(ids[1..], id);
    }
  }

  // ---------- the scores in the end ----------

  /** Nothing is on its way any more. */
  ghost predicate Drained(s: State) {
    && s.queue == []
    && (forall w :: 0 <= w < |s.forwarders| ==> !s.forwarders[w].Holding?)
    && (forall w :: 0 <= w < |s.workers| ==> !s.workers[w].Processing?)
  }

  lemma DrainedAppliedAll(c: Config, s: State)
    requires WellConfigured(c) && Reachable(c, s) && Drained(s) && !s.cancelled
    ensures multiset(s.applied) == multiset(s.accepted)
  {
    LawsHold(c, s);
    GatherNothing(s.forwarders, HeldEvent);
    GatherNothing(s.workers, ProcessedEvent);
    forall e ensures multiset(s.applied)[e] == multiset(s.accepted)[e] {
      assert EventBalance(s, e);
    }
  }

  /**
   For every interleaving without cancellation: once drained, the store knows exactly the talents
   of accepted events, each with the best of their scores, and every stored score lies between 0
   and 100 where conversions are lossless.
   */
  lemma DrainedScores(c: Config, s: State, talent: string)
    requires WellConfigured(c) && Reachable(c, s) && Drained(s) && !s.cancelled
    ensures Consistent(s.board)
    ensures talent in s.board.best <==> exists e :: e in s.accepted && e.talentID == talent
    ensures talent in s.board.best ==>
              && (exists e :: e in s.accepted && e.talentID == talent && ScoreFor(c, e) == s.board.best[talent])
              && (forall e :: e in s.accepted && e.talentID == talent ==> ScoreFor(c, e) <= s.board.best[talent])
              && 0 <= s.board.best[talent] <= FULL_SCORE
  {
    BoardIsReplay(c, s);
    DrainedAppliedAll(c, s);
    var us := UpdatesFor(s.applied, c.weights, c.defaultWeight);
    ReplayKeepsConsistent(EMPTY, us);
    ReplayKeepsBest(us, talent);
    forall e ensures e in s.applied <==> e in s.accepted {
      assert e in multiset(s.applied) <==> e in multiset(s.accepted);
    }
    forall e | e in s.applied ensures UpdateFor(e, c.weights, c.defaultWeight) in us {
      var i :| 0 <= i < |s.applied| && s.applied[i] == e;
      assert us[i] == UpdateFor(e, c.weights, c.defaultWeight);
    }
    forall u | u in us ensures exists e :: e in s.applied && UpdateFor(e, c.weights, c.defaultWeight) == u {
      var i :| 0 <= i < |us| && us[i] == u;
      assert s.applied[i] in s.applied;
    }
    if talent in s.board.best {
      var e :| e in s.applied && UpdateFor(e, c.weights, c.defaultWeight) == Update(talent, s.board.best[talent]);
      StoredScoreIsLossless(e.rawMetric, WeightFor(c.weights, c.defaultWeight, e.skill));
    }
  }

  /** The fixed-point score of an event. */
  function ScoreFor(c: Config, e: Event): int {
    UpdateFor(e, c.weights, c.defaultWeight).score
  }

  /** And if no id was evicted, every accepted event carries an id of its own. */
  lemma AcceptedIdsAreDistinct(c: Config, s: State, i: nat, j: nat)
    requires WellConfigured(c) && Reachable(c, s) && i < j < |s.accepted|
    requires s.evicted[s.accepted[i].id] == 0
    ensures s.accepted[i].id != s.accepted[j].id
  {
    AcceptedAtMostOnce(c, s, s.accepted[i].id);
    if s.accepted[i].id == s.accepted[j].id {
      CountedTwice(s.accepted, i, j);
    }
  }

  lemma {:induction false} CountedTwice(es: seq<Event>, i: nat, j: nat)
    requires i < j < |es| && es[i].id == es[j].id
    ensures Gather(es, EventId)[es[i].id] >= 2
  {
    if i == 0 {
      GatherHas(es[1..], j - 1, EventId);
    } else {
      CountedTwice(es[1..], i - 1, j - 1);
    }
  }
}
