/**
 One request at a time through the service: mark the id as seen, enqueue, take the mark back when
 the queue refuses; and one worker's way from a delivered event to the store.
 */
module Ingest {
  import opened Float64
  import opened EventQueue
  import opened FixedPoint
  import opened Scoring
  import opened Leaderboard
  import opened TreapStore
  import opened Traversals
  import opened BestRecords
  import D = Dedupe
  import Spec = DedupeSpec

  datatype Request = Request(eventID: string, talentID: string, rawMetric: Float, skill: string)

  datatype Status = Accepted | Duplicate | Backpressure

  /** The event carries the request field for field, under its id or else one that names its contents. */
  predicate IsEventFor(e: Event, r: Request, formatted: string) {
    && e.talentID == r.talentID && e.rawMetric == r.rawMetric && e.skill == r.skill
    && (r.eventID != "" ==> e.id == r.eventID)
    && (r.eventID == "" ==> e.id == r.talentID + "_" + r.skill + "_" + formatted)
  }

  /** The event the workers see; an empty id is replaced by one made from the contents. */
  function EventOf(r: Request, formatted: string): (e: Event)
    ensures IsEventFor(e, r, formatted)
  {
    Event(if r.eventID == "" then r.talentID + "_" + r.skill + "_" + formatted else r.eventID,
          r.talentID, r.rawMetric, r.skill)
  }

  class Service {
    const deduper: D.InMemoryDeduper
    const eventQueue: InMemoryQueue
    const scorer: InMemoryScorer
    const leaderboard: TreapStore
    const workerPool: Pool

    /** The components are sound and share nothing that a request or a worker changes. */
    ghost predicate Valid()
      reads this, deduper, deduper.Repr, eventQueue, leaderboard, leaderboard.Repr
    {
      && deduper.Valid() && eventQueue.Valid() && leaderboard.Valid()
      && deduper.Repr !! leaderboard.Repr && eventQueue !in deduper.Repr + leaderboard.Repr
      && this !in deduper.Repr + leaderboard.Repr && scorer !in deduper.Repr + leaderboard.Repr
    }

    /**
     Starting the service gives the queue a buffer of exactly its capacity, the scorer the positive
     ones of the configured weights, and every worker that scorer and the one leaderboard.
     */
    constructor Start(dedupeSize: int, queueSize: int, skillWeights: map<string, Float>, defaultWeight: Float,
                      workerCount: int, cpus: nat)
      ensures Valid() && deduper.Ids == [] && eventQueue.events == [] && !eventQueue.closed
      ensures deduper.maxSize == dedupeSize
      ensures eventQueue.bufferSize == eventQueue.capacity == if queueSize > 0 then queueSize else DEFAULT_CAPACITY
      ensures leaderboard.Model() == EMPTY && leaderboard.rankSnapshot == map[]
      ensures scorer.skillWeights == map s | s in skillWeights && Positive(skillWeights[s]) :: skillWeights[s]
      ensures scorer.defaultWeight == if Positive(defaultWeight) then defaultWeight else Finite(100.0)
      ensures forall s, v :: s in skillWeights && skillWeights[s] == Finite(v) ==>
                if v > 0.0 then s in scorer.skillWeights && scorer.skillWeights[s] == Finite(v)
                else s !in scorer.skillWeights
      ensures forall s :: s in skillWeights ==>
                && (skillWeights[s].PosInf? ==> s in scorer.skillWeights && scorer.skillWeights[s] == PosInf)
                && (skillWeights[s].NegInf? || skillWeights[s].NaN? ==> s !in scorer.skillWeights)
      ensures defaultWeight.Finite? ==>
                scorer.defaultWeight == if defaultWeight.value > 0.0 then defaultWeight else Finite(100.0)
      ensures |workerPool.workers| == if workerCount < 1 then cpus * DEFAULT_WORKER_MULTIPLIER else workerCount
      ensures forall w :: w in workerPool.workers ==> w.scorer == scorer && w.updater == leaderboard && w.Valid()
    {
      var store := new TreapStore();
      leaderboard := store;
      deduper := new D.InMemoryDeduper(dedupeSize);
      eventQueue := new InMemoryQueue(queueSize, queueSize);
      var weighted := new InMemoryScorer();
      weighted.WithSkillWeightsFromConfig(skillWeights, defaultWeight);
      scorer := weighted;
      workerPool := new Pool(workerCount, cpus, weighted, store);
    }

    /**
     Refuses an event without talent or skill before it reaches the queue, and otherwise, unless
     the request is cancelled, exactly when the queue is closed or full.
     */
    method Enqueue(r: Request, formatted: string, cancelled: bool) returns (ok: bool)
      requires Valid()
      modifies eventQueue`events
      ensures Valid()
      ensures eventQueue.events == if ok then old(eventQueue.events) + [EventOf(r, formatted)]
                                   else old(eventQueue.events)
      ensures ok ==> eventQueue.events != [] && IsEventFor(eventQueue.events[|eventQueue.events| - 1], r, formatted)
      ensures ok ==> Admissible(r, old(eventQueue.events))
      ensures !ok ==> cancelled || !Admissible(r, old(eventQueue.events))
    {
      if r.talentID != "" && r.skill != "" {
        ok := eventQueue.Enqueue(EventOf(r, formatted), cancelled);
        return;
      }
      ok := false;
    }

    method SeenAndRecord(id: string) returns (seen: bool)
      requires Valid()
      modifies deduper.Repr
      ensures Valid() && fresh(deduper.Repr - old(deduper.Repr))
      ensures seen <==> id in old(deduper.Ids)
      ensures deduper.Ids == Spec.Record(old(deduper.Ids), id, deduper.maxSize)
    {
      seen := deduper.SeenAndRecord(id);
    }

    method Unrecord(id: string)
      requires Valid()
      modifies deduper.Repr
      ensures Valid() && deduper.Repr == old(deduper.Repr)
      ensures deduper.Ids == Spec.Unrecord(old(deduper.Ids), id)
    {
      deduper.Unrecord(id);
    }

    /** The request is complete, and the queue open and with room on top of what it holds. */
    predicate Admissible(r: Request, queued: seq<Event>)
      reads eventQueue
    {
      && r.talentID != "" && r.skill != ""
      && !eventQueue.closed && |queued| < eventQueue.capacity && |queued| < eventQueue.bufferSize
    }

    /**
     A duplicate changes nothing.  An accepted event is recorded and queued.  A refused one is
     neither, but recording it may have cost a full deduper its oldest id, which stays lost.  Unless
     cancelled, a new request is accepted if and only if it is complete and the queue has room.
     */
    method HandlePostEvent(r: Request, formatted: string, cancelled: bool) returns (status: Status)
      requires Valid()
      modifies deduper.Repr, eventQueue`events
      ensures Valid() && fresh(deduper.Repr - old(deduper.Repr))
      ensures status == Duplicate <==> r.eventID in old(deduper.Ids)
      ensures status == Accepted ==>
                eventQueue.events != [] && IsEventFor(eventQueue.events[|eventQueue.events| - 1], r, formatted)
      ensures status == Accepted ==> Admissible(r, old(eventQueue.events))
      ensures status == Backpressure ==> cancelled || !Admissible(r, old(eventQueue.events))
      ensures eventQueue.events == if status == Accepted then old(eventQueue.events) + [EventOf(r, formatted)]
                                   else old(eventQueue.events)
      ensures deduper.Ids == match status
                             case Duplicate => old(deduper.Ids)
                             case Accepted => Spec.Record(old(deduper.Ids), r.eventID, deduper.maxSize)
                             case Backpressure => Spec.Room(old(deduper.Ids), deduper.maxSize)
      ensures status == Backpressure ==>
                (deduper.Ids == old(deduper.Ids) <==> deduper.maxSize <= 0 || |old(deduper.Ids)| < deduper.maxSize)
    {
      var seen := SeenAndRecord(r.eventID);
      if seen {
        return Duplicate;
      }
      var ok := Enqueue(r, formatted, cancelled);
      if !ok {
        Spec.UnrecordUndoesRecordIff(old(deduper.Ids), r.eventID, deduper.maxSize);
        Unrecord(r.eventID);
        return Backpressure;
      }
      status := Accepted;
    }
  }

  /** The update a delivered event amounts to. */
  function UpdateFor(e: Event, weights: map<string, Float>, defaultWeight: Float): Update {
    Update(e.talentID, StoredScore(e.rawMetric, WeightFor(weights, defaultWeight, e.skill)))
  }

  function UpdatesFor(es: seq<Event>, weights: map<string, Float>, defaultWeight: Float): (us: seq<Update>)
    ensures |us| == |es|
    ensures forall i :: 0 <= i < |es| ==> us[i] == UpdateFor(es[i], weights, defaultWeight)
  {
    seq(|es|, i requires 0 <= i < |es| => UpdateFor(es[i], weights, defaultWeight))
  }

  /** What a delivered event would leave as its talent's best. */
  function BestFor(e: Event, weights: map<string, Float>, defaultWeight: Float): Best {
    Best(UpdateFor(e, weights, defaultWeight).score, e.id, e.skill, e.rawMetric)
  }

  /** The positions in `idx` rise, stay below `n`, and pick `part` from `all`. */
  ghost predicate Picks(part: seq<Event>, all: seq<Event>, n: nat, idx: seq<nat>) {
    && n <= |all| && |idx| == |part|
    && (forall i :: 0 <= i < |idx| ==> idx[i] < n && part[i] == all[idx[i]])
    && (forall i, j :: 0 <= i < j < |idx| ==> idx[i] < idx[j])
  }

  class InMemoryWorker {
    const scorer: InMemoryScorer
    const updater: TreapStore

    ghost predicate Valid()
      reads updater, updater.Repr
    {
      updater.Valid() && scorer !in updater.Repr
    }

    constructor (scorer: InMemoryScorer, updater: TreapStore)
      ensures this.scorer == scorer && this.updater == updater
    {
      this.scorer, this.updater := scorer, updater;
    }

    /** Scores the event and offers the score to the store, unless scoring is cancelled. */
    method ProcessEvent(e: Event, cancelled: bool) returns (ok: bool)
      requires Valid()
      modifies updater.Repr
      ensures Valid() && fresh(updater.Repr - old(updater.Repr))
      ensures ok <==> !cancelled
      ensures updater.Model()
           == if ok then Improve(old(updater.Model()), UpdateFor(e, scorer.skillWeights, scorer.defaultWeight))
              else old(updater.Model())
      ensures var best := BestFor(e, scorer.skillWeights, scorer.defaultWeight);
              updater.Bests() == if ok then BestsAfter(old(updater.Bests()), e.talentID, best) else old(updater.Bests())
      ensures ok ==>
                var weights := scorer.skillWeights;
                var weight := if e.skill in weights then weights[e.skill] else scorer.defaultWeight;
                && e.talentID in updater.Bests()
                && updater.Bests()[e.talentID].score >= StoredScore(e.rawMetric, weight)
    {
      var score;
      ok, score := scorer.Score(e.rawMetric, e.skill, cancelled);
      if ok {
        OfferIsMet(updater.Bests(), e.talentID, BestFor(e, scorer.skillWeights, scorer.defaultWeight));
        OfferScore(e, score);
      }
    }

    /** Offers the store a score for the event. */
    method OfferScore(e: Event, score: Float)
      requires Valid()
      modifies updater.Repr
      ensures Valid() && fresh(updater.Repr - old(updater.Repr))
      ensures updater.Model() == Improve(old(updater.Model()), Update(e.talentID, ToFixedPoint(score)))
      ensures updater.Bests() == BestsAfter(old(updater.Bests()), e.talentID,
                                            Best(ToFixedPoint(score), e.id, e.skill, e.rawMetric))
    {
      var updated := updater.UpdateBestWithMeta(e.talentID, score, e.id, e.skill, e.rawMetric);
    }

    /**
     The worker's loop over the events its channel delivers before it closes.  A cancelled context
     or a shutdown may end it early, and a cancelled context may fail the scoring of events.  The
     store becomes the replay of the events `applied`: without cancellation those before the exit,
     without shutdown either all of them.
     */
    method Run(delivered: seq<Event>, cancelled: bool, shutdown: bool)
      returns (n: nat, ghost applied: seq<Event>, ghost idx: seq<nat>)
      requires Valid()
      modifies updater.Repr
      ensures Valid() && fresh(updater.Repr - old(updater.Repr))
      ensures Picks(applied, delivered, n, idx)
      ensures !cancelled ==> applied == delivered[..n]
      ensures !cancelled && !shutdown ==> n == |delivered|
      ensures updater.Model()
           == Replay(old(updater.Model()), UpdatesFor(applied, scorer.skillWeights, scorer.defaultWeight))
    {
      n, applied, idx := 0, [], [];
      while n < |delivered|
        invariant Valid() && fresh(updater.Repr - old(updater.Repr))
        invariant Picks(applied, delivered, n, idx)
        invariant !cancelled ==> applied == delivered[..n]
        invariant updater.Model()
               == Replay(old(updater.Model()), UpdatesFor(applied, scorer.skillWeights, scorer.defaultWeight))
      {
        if cancelled || shutdown {
          if * { return; }
        }
        PicksGrow(applied, delivered, n, idx);
        var failing := *;
        var ok := ProcessEvent(delivered[n], cancelled && failing);
        if ok {
          ReplayOneMore(old(updater.Model()), applied, delivered[n], scorer.skillWeights, scorer.defaultWeight);
          applied, idx := applied + [delivered[n]], idx + [n];
        }
        n := n + 1;
      }
    }
  }

  const DEFAULT_WORKER_MULTIPLIER := 20

  class Pool {
    const workers: seq<InMemoryWorker>

    /** As many workers as asked for, or a multiple of the processors; all of them work for one store. */
    constructor (workerCount: int, cpus: nat, scorer: InMemoryScorer, updater: TreapStore)
      ensures |workers| == if workerCount < 1 then cpus * DEFAULT_WORKER_MULTIPLIER else workerCount
      ensures forall w :: w in workers ==> w.scorer == scorer && w.updater == updater
    {
      var count := if workerCount < 1 then cpus * DEFAULT_WORKER_MULTIPLIER else workerCount;
      var made: seq<InMemoryWorker> := [];
      while |made| < count
        invariant |made| <= count
        invariant forall w :: w in made ==> w.scorer == scorer && w.updater == updater
      {
        var w := new InMemoryWorker(scorer, updater);
        made := made + [w];
      }
      workers := made;
    }
  }

  /** A request's update is for its talent, by its metric under the weight of its skill, with its data. */
  lemma RequestBecomesUpdate(r: Request, formatted: string, weights: map<string, Float>, defaultWeight: Float)
    ensures var e := EventOf(r, formatted);
            var score := StoredScore(r.rawMetric, if r.skill in weights then weights[r.skill] else defaultWeight);
            && UpdateFor(e, weights, defaultWeight) == Update(r.talentID, score)
            && BestFor(e, weights, defaultWeight) == Best(score, e.id, r.skill, r.rawMetric)
  {
  }

  lemma PicksGrow(part: seq<Event>, all: seq<Event>, n: nat, idx: seq<nat>)
    requires n < |all| && Picks(part, all, n, idx)
    ensures all[..n + 1] == all[..n] + [all[n]]
    ensures Picks(part, all, n + 1, idx) && Picks(part + [all[n]], all, n + 1, idx + [n])
  {
  }

  lemma ReplayOneMore(b: Board, es: seq<Event>, e: Event, weights: map<string, Float>, defaultWeight: Float)
    ensures Replay(b, UpdatesFor(es + [e], weights, defaultWeight))
         == Improve(Replay(b, UpdatesFor(es, weights, defaultWeight)), UpdateFor(e, weights, defaultWeight))
  {
    var us, u := UpdatesFor(es, weights, defaultWeight), UpdateFor(e, weights, defaultWeight);
    assert UpdatesFor(es + [e], weights, defaultWeight) == us + [u];
    ReplayConcat(b, us, [u]);
    ReplayOne(Replay(b, us), u);
  }
}
