/**
 How long the pipeline takes to drain once its queue is closed, and that it never gets stuck before.
 */
module PipelineRuns {
  import opened Sequences
  import opened EventQueue
  import opened Gathering
  import opened Pipeline
  import opened PipelineLaws

  // ---------- draining ----------

  function StoppedOne(w: Worker): multiset<bool> {
    if w.Stopped? then multiset{true} else multiset{}
  }

  /** The steps forwarders and workers still have to take: three for an event in the queue. */
  function Remaining(s: State): int {
    3 * |s.queue| + 2 * |Gather(s.forwarders, HeldEvent)| + |Gather(s.workers, ProcessedEvent)|
    + (|s.forwarders| - |Gather(s.forwarders, FinishedOne)|) + (|s.workers| - |Gather(s.workers, StoppedOne)|)
  }

  /** The steps that forwarders and workers take when nothing is cancelled. */
  predicate Draining(step: Step) {
    step.Receive? || step.Finish? || step.Deliver? || step.Apply? || step.Stop?
  }

  lemma ForwarderCounts(s: State, w: nat, f: Forwarder)
    requires w < |s.forwarders|
    ensures |Gather(s.forwarders[w := f], HeldEvent)| + |HeldEvent(s.forwarders[w])|
         == |Gather(s.forwarders, HeldEvent)| + |HeldEvent(f)|
    ensures |Gather(s.forwarders[w := f], FinishedOne)| + |FinishedOne(s.forwarders[w])|
         == |Gather(s.forwarders, FinishedOne)| + |FinishedOne(f)|
  {
    GatherUpdate(s.forwarders, w, f, HeldEvent);
    GatherUpdate(s.forwarders, w, f, FinishedOne);
  }

  lemma WorkerCounts(s: State, w: nat, x: Worker)
    requires w < |s.workers|
    ensures |Gather(s.workers[w := x], ProcessedEvent)| + |ProcessedEvent(s.workers[w])|
         == |Gather(s.workers, ProcessedEvent)| + |ProcessedEvent(x)|
    ensures |Gather(s.workers[w := x], StoppedOne)| + |StoppedOne(s.workers[w])|
         == |Gather(s.workers, StoppedOne)| + |StoppedOne(x)|
  {
    GatherUpdate(s.workers, w, x, ProcessedEvent);
    GatherUpdate(s.workers, w, x, StoppedOne);
  }

  lemma ReceiveCounts(c: Config, s: State, w: nat)
    requires Enabled(c, s, Receive(w))
    ensures Remaining(Do(c, s, Receive(w))) == Remaining(s) - 1
  {
    ForwarderCounts(s, w, Holding(s.queue[0]));
  }

  lemma FinishCounts(c: Config, s: State, w: nat)
    requires Enabled(c, s, Finish(w))
    ensures Remaining(Do(c, s, Finish(w))) == Remaining(s) - 1
  {
    ForwarderCounts(s, w, Finished);
  }

  lemma DeliverCounts(c: Config, s: State, w: nat)
    requires Enabled(c, s, Deliver(w))
    ensures Remaining(Do(c, s, Deliver(w))) == Remaining(s) - 1
  {
    ForwarderCounts(s, w, Receiving);
    WorkerCounts(s, w, Processing(s.forwarders[w].e));
  }

  lemma ApplyCounts(c: Config, s: State, w: nat)
    requires Enabled(c, s, Apply(w))
    ensures Remaining(Do(c, s, Apply(w))) == Remaining(s) - 1
  {
    WorkerCounts(s, w, Waiting);
  }

  lemma StopCounts(c: Config, s: State, w: nat)
    requires Enabled(c, s, Stop(w))
    ensures Remaining(Do(c, s, Stop(w))) == Remaining(s) - 1
  {
    WorkerCounts(s, w, Stopped);
  }

  lemma DrainingCounts(c: Config, s: State, step: Step)
    requires Enabled(c, s, step) && Draining(step)
    ensures Remaining(Do(c, s, step)) == Remaining(s) - 1
  {
    match step
    case Receive(w) => ReceiveCounts(c, s, w);
    case Finish(w) => FinishCounts(c, s, w);
    case Deliver(w) => DeliverCounts(c, s, w);
    case Apply(w) => ApplyCounts(c, s, w);
    case Stop(w) => StopCounts(c, s, w);
  }

  /** Once closed, a step by anyone but the drainers adds nothing to what remains. */
  lemma ClosedStep(c: Config, s: State, step: Step)
    requires LockLaw(s) && s.closed && !s.cancelled && step != Cancel && Enabled(c, s, step)
    ensures var t := Do(c, s, step);
            && t.closed && !t.cancelled && t.accepted == s.accepted
            && Remaining(t) == Remaining(s) - if Draining(step) then 1 else 0
  {
    if Draining(step) { DrainingCounts(c, s, step); }
  }

  function CountDraining(steps: seq<Step>): nat {
    if steps == [] then 0 else (if Draining(steps[0]) then 1 else 0) + CountDraining(steps[1..])
  }

  /** After closing, however handlers interleave, every draining step brings the end one closer. */
  lemma {:induction false} DrainingRun(c: Config, s: State, steps: seq<Step>, t: State)
    requires Laws(c, s) && s.closed && !s.cancelled && Cancel !in steps
    requires Executes(c, s, steps, t)
    ensures t.closed && !t.cancelled && t.accepted == s.accepted
    ensures CountDraining(steps) == Remaining(s) - Remaining(t)
    decreases |steps|
  {
    if steps != [] {
      ClosedStep(c, s, steps[0]);
      LawsKeptBy(c, s, steps[0]);
      DrainingRun(c, Do(c, s, steps[0]), steps[1..], t);
    }
  }

  lemma RemainingIsNatural(s: State)
    ensures Remaining(s) >= 0
  {
    GatherAtMost(s.forwarders, FinishedOne);
    GatherAtMost(s.workers, StoppedOne);
  }

  /** As long as anything is left to do, some forwarder or worker can do something. */
  lemma SomethingEnabled(c: Config, s: State)
    requires Laws(c, s) && s.closed && !s.cancelled && |s.workers| > 0
    ensures (exists step :: Draining(step) && Enabled(c, s, step)) || (Drained(s) && AllEnded(s))
  {
    SomeoneCanMove(c, s);
  }

  lemma SomeoneCanMove(c: Config, s: State)
    requires EndLaw(s) && !s.panicked && s.closed && !s.cancelled && |s.workers| > 0
    ensures (exists step :: Draining(step) && Enabled(c, s, step)) || (Drained(s) && AllEnded(s))
  {
    if w :| 0 <= w < |s.workers| && !s.forwarders[w].Finished? {
      ForwarderCanMove(c, s, w);
    } else if w :| 0 <= w < |s.workers| && !s.workers[w].Stopped? {
      assert Enabled(c, s, if s.workers[w].Waiting? then Stop(w) else Apply(w));
    } else {
      assert s.forwarders[0].Finished?;
    }
  }

  lemma ForwarderCanMove(c: Config, s: State, w: nat)
    requires EndLaw(s) && !s.panicked && s.closed && !s.cancelled
    requires w < |s.workers| && !s.forwarders[w].Finished?
    ensures exists step :: Draining(step) && Enabled(c, s, step)
  {
    if s.forwarders[w].Receiving? {
      assert Enabled(c, s, if s.queue == [] then Finish(w) else Receive(w));
    } else {
      assert Enabled(c, s, if s.workers[w].Waiting? then Deliver(w) else Apply(w));
    }
  }

  ghost predicate AllEnded(s: State) {
    && (forall w :: 0 <= w < |s.forwarders| ==> s.forwarders[w].Finished?)
    && (forall w :: 0 <= w < |s.workers| ==> s.workers[w].Stopped?)
  }

  /**
   Closing the queue without cancelling drains it: any continuation takes at most as many draining
   steps as remained, and when none is possible any more every worker has stopped and exactly the
   accepted events have been applied.
   */
  lemma ClosingDrains(c: Config, s: State, steps: seq<Step>, t: State)
    requires WellConfigured(c) && Reachable(c, s) && s.closed && !s.cancelled && |s.workers| > 0
    requires Cancel !in steps && Executes(c, s, steps, t)
    ensures CountDraining(steps) <= Remaining(s)
    ensures (forall step :: Draining(step) ==> !Enabled(c, t, step)) ==>
              Drained(t) && AllEnded(t) && multiset(t.applied) == multiset(s.accepted)
  {
    LawsHold(c, s);
    DrainingRun(c, s, steps, t);
    RemainingIsNatural(t);
    LawsKept(c, s, steps, t);
    WorkersStay(c, s, steps, t);
    if forall step :: Draining(step) ==> !Enabled(c, t, step) {
      SomethingEnabled(c, t);
      RunsConcatenate(c, s, steps, t);
      DrainedAppliedAll(c, t);
    }
  }

  lemma {:induction false} WorkersStay(c: Config, s: State, steps: seq<Step>, t: State)
    requires Executes(c, s, steps, t)
    ensures |t.workers| == |s.workers| && |t.handlers| == |s.handlers|
    decreases |steps|
  {
    if steps != [] {
      WorkersStay(c, Do(c, s, steps[0]), steps[1..], t);
    }
  }

  lemma {:induction false} ExecutesConcat(c: Config, s: State, a: seq<Step>, t: State, b: seq<Step>, u: State)
    requires Executes(c, s, a, t) && Executes(c, t, b, u)
    ensures Executes(c, s, a + b, u)
    decreases |a|
  {
    if a == [] {
      assert a + b == b;
    } else {
      ExecutesConcat(c, Do(c, s, a[0]), a[1..], t, b, u);
      assert (a + b)[1..] == a[1..] + b;
    }
  }

  lemma RunsConcatenate(c: Config, s: State, steps: seq<Step>, t: State)
    requires Reachable(c, s) && Executes(c, s, steps, t)
    ensures Reachable(c, t)
  {
    var handlers, workers, before :| Executes(c, Init(handlers, workers), before, s);
    ExecutesConcat(c, Init(handlers, workers), before, s, steps, t);
  }

  // ---------- where things come from ----------

  /** The flags are what the steps made them. */
  lemma {:induction false} FlagsFollowSteps(c: Config, s: State, steps: seq<Step>, t: State)
    requires Executes(c, s, steps, t)
    ensures t.closed <==> s.closed || Close in steps
    ensures t.cancelled <==> s.cancelled || Cancel in steps
    decreases |steps|
  {
    if steps != [] {
      FlagsFollowSteps(c, Do(c, s, steps[0]), steps[1..], t);
      assert steps == [steps[0]] + steps[1..];
    }
  }

  /** Some request in `steps` carried exactly this event. */
  ghost predicate Posted(steps: seq<Step>, e: Event) {
    exists h: nat :: See(h, e) in steps
  }

  /** What handlers work on and what was accepted are the events posted, field for field. */
  ghost predicate PostedLaw(s: State, steps: seq<Step>) {
    && (forall h :: 0 <= h < |s.handlers| && !s.handlers[h].Idle? ==> Posted(steps, s.handlers[h].e))
    && (forall i :: 0 <= i < |s.accepted| ==> Posted(steps, s.accepted[i]))
  }

  lemma PostedLawKept(c: Config, s: State, done: seq<Step>, step: Step)
    requires PostedLaw(s, done) && Enabled(c, s, step)
    ensures PostedLaw(Do(c, s, step), done + [step])
  {
    var t, more := Do(c, s, step), done + [step];
    forall e | Posted(done, e) ensures Posted(more, e) {
      var h: nat :| See(h, e) in done;
      assert See(h, e) in more;
    }
    if step.See? {
      assert step in more;
      assert Posted(more, step.e);
    }
  }

  lemma {:induction false} PostedLawStays(c: Config, s: State, done: seq<Step>, steps: seq<Step>, t: State)
    requires PostedLaw(s, done) && Executes(c, s, steps, t)
    ensures PostedLaw(t, done + steps)
    decreases |steps|
  {
    if steps == [] {
      assert done + [] == done;
    } else {
      PostedLawKept(c, s, done, steps[0]);
      PostedLawStays(c, Do(c, s, steps[0]), done + [steps[0]], steps[1..], t);
      Reassociate(done, [steps[0]], steps[1..]);
      assert [steps[0]] + steps[1..] == steps;
    }
  }

  /** Every accepted event was posted in the run, and has a talent and a skill. */
  lemma AcceptedWerePosted(c: Config, handlers: nat, workers: nat, steps: seq<Step>, t: State, i: nat)
    requires WellConfigured(c) && Executes(c, Init(handlers, workers), steps, t) && i < |t.accepted|
    ensures Posted(steps, t.accepted[i])
    ensures t.accepted[i].talentID != "" && t.accepted[i].skill != ""
  {
    PostedLawStays(c, Init(handlers, workers), [], steps, t);
    assert [] + steps == steps;
    LawsHold(c, t);
    assert t.accepted[i] in t.accepted;
  }

  /** Events are taken from the queue in the order of their acceptance: the next is the first not yet taken. */
  lemma ReceivedInOrder(c: Config, s: State, w: nat)
    requires WellConfigured(c) && Reachable(c, s) && Enabled(c, s, Receive(w))
    ensures var taken := |s.accepted| - |s.queue|;
            && 0 <= taken < |s.accepted|
            && Do(c, s, Receive(w)).forwarders[w] == Holding(s.accepted[taken])
            && Do(c, s, Receive(w)).queue == s.accepted[taken + 1..]
  {
    LawsHold(c, s);
    var taken := |s.accepted| - |s.queue|;
    assert s.accepted[taken..][0] == s.accepted[taken] && s.accepted[taken..][1..] == s.accepted[taken + 1..];
  }
}
