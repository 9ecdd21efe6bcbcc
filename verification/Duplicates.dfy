/**
 What the answer "duplicate" promises: that the id was accepted before, if and only if requests are
 served one at a time.
 */
module Duplicates {
  import opened Gathering
  import opened Pipeline
  import opened PipelineLaws
  import opened QueueBound

  /** A request with this id would be answered as a duplicate. */
  ghost predicate IsDuplicate(s: State, id: string) {
    (exists h :: 0 <= h < |s.handlers| && s.handlers[h].Idle?) && id in s.ids
  }

  /** With one handler whatever is reported as a duplicate has been accepted. */
  lemma SoleDuplicateWasAccepted(c: Config, s: State, id: string)
    requires WellConfigured(c) && Reachable(c, s) && |s.handlers| == 1 && IsDuplicate(s, id)
    ensures AcceptedIds(s)[id] >= 1
  {
    LawsHold(c, s);
    GatherNothing(s.handlers, HandlerEvent);
    assert IdBalance(s, id);
  }

  /** What was accepted stays accepted. */
  lemma {:induction false} AcceptedStays(c: Config, s: State, steps: seq<Step>, t: State, id: string)
    requires Executes(c, s, steps, t)
    ensures AcceptedIds(s)[id] <= AcceptedIds(t)[id]
    decreases |steps|
  {
    if steps != [] {
      var u := Do(c, s, steps[0]);
      if steps[0].Send? && !s.closed {
        GatherAppend(s.accepted, s.handlers[steps[0].h].e, EventId);
      }
      AcceptedStays(c, u, steps[1..], t, id);
    }
  }

  /**
   At `s` a request is told its id is a duplicate, and yet in the end all requests have been answered
   and none with that id was accepted.
   */
  ghost predicate Misled(c: Config, s: State, steps: seq<Step>, t: State, id: string) {
    && Reachable(c, s) && IsDuplicate(s, id) && Executes(c, s, steps, t)
    && (forall h :: 0 <= h < |t.handlers| ==> t.handlers[h].Idle?) && AcceptedIds(t)[id] == 0
  }

  /** Another request that gives up on its id after it made the duplicate of it. */
  lemma SomeoneIsMisled(c: Config, k: nat) returns (s: State, steps: seq<Step>, t: State, id: string)
    requires WellConfigured(c) && k >= 2
    ensures |s.handlers| == k && Misled(c, s, steps, t, id)
  {
    var start := Init(k, 1);
    var e := FreshEvent(0);
    id := e.id;
    assert Executes(c, start, [], start);
    OneMore(c, start, See(0, e));
    s := Do(c, start, See(0, e));
    assert s.handlers[1].Idle? && id in s.ids;
    steps, t := GivesUp(c, s);
  }

  /** The only handler under way is cancelled inside the queue and takes its mark back. */
  lemma GivesUp(c: Config, s: State) returns (steps: seq<Step>, t: State)
    requires WellConfigured(c) && !s.panicked && !s.closed && |s.forwarders| == |s.workers| && s.queue == []
    requires |s.handlers| > 0 && s.handlers[0] == Recorded(FreshEvent(0))
    requires forall h :: 0 < h < |s.handlers| ==> s.handlers[h].Idle?
    ensures Executes(c, s, steps, t) && t.accepted == s.accepted
    ensures |t.handlers| == |s.handlers| && forall h :: 0 <= h < |t.handlers| ==> t.handlers[h].Idle?
  {
    steps := [Check(0), GiveUp(0, true), Rollback(0)];
    var u := Do(c, s, Check(0));
    var v := Do(c, u, GiveUp(0, true));
    t := Do(c, v, Rollback(0));
    assert steps[1..] == [GiveUp(0, true), Rollback(0)] && steps[1..][1..] == [Rollback(0)];
    assert Executes(c, t, [Rollback(0)][1..], t);
    assert Executes(c, v, [Rollback(0)], t);
    assert Executes(c, u, steps[1..], t);
  }

  /** So a duplicate may be one of an event that is never accepted if and only if requests overlap. */
  lemma MisledIff(c: Config, k: nat)
    requires WellConfigured(c) && k > 0
    ensures (exists s: State, steps, t, id :: |s.handlers| == k && Misled(c, s, steps, t, id)) <==> k >= 2
  {
    if k >= 2 {
      var s, steps, t, id := SomeoneIsMisled(c, k);
    }
    forall s: State, steps, t, id | |s.handlers| == k && Misled(c, s, steps, t, id) ensures k >= 2 {
      if k == 1 {
        SoleDuplicateWasAccepted(c, s, id);
        AcceptedStays(c, s, steps, t, id);
      }
    }
  }
}
