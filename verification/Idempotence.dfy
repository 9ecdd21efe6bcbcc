/**
 Replays are ignored for ever if and only if the deduper is unbounded.
 */
module Idempotence {
  import opened Float64
  import opened EventQueue
  import opened Pipeline
  import opened PipelineLaws
  import opened QueueBound
  import Spec = DedupeSpec

  /** Nothing under way at the first handler and the first worker; ids of at most `m` characters. */
  ghost predicate Calm(c: Config, s: State, m: nat) {
    && Reachable(c, s) && !s.panicked && !s.closed && s.queue == []
    && |s.handlers| > 0 && s.handlers[0].Idle?
    && |s.workers| == |s.forwarders| > 0 && s.forwarders[0].Receiving? && s.workers[0].Waiting?
    && forall id :: id in s.ids ==> |id| <= m
  }

  function EventWithId(id: string): Event {
    Event(id, "talent", Finite(1.0), "skill")
  }

  /** A new id goes all the way from the request to the store before anything else happens. */
  lemma Post(c: Config, s: State, m: nat, id: string) returns (t: State)
    requires WellConfigured(c) && Calm(c, s, m) && id !in s.ids && |id| <= m
    ensures Calm(c, t, m) && t.ids == Spec.Record(s.ids, id, c.maxSize)
    ensures t.accepted == s.accepted + [EventWithId(id)]
  {
    var a := PostSend(c, s, m, id);
    t := Work(c, a, m);
  }

  lemma PostSend(c: Config, s: State, m: nat, id: string) returns (t: State)
    requires WellConfigured(c) && Calm(c, s, m) && id !in s.ids && |id| <= m
    ensures Reachable(c, t) && |t.queue| == 1 && t.ids == Spec.Record(s.ids, id, c.maxSize)
    ensures t == s.(ids := t.ids, queue := t.queue, accepted := s.accepted + [EventWithId(id)], evicted := t.evicted)
  {
    OneMore(c, s, See(0, EventWithId(id)));
    var a := Do(c, s, See(0, EventWithId(id)));
    OneMore(c, a, Check(0));
    var b := Do(c, a, Check(0));
    OneMore(c, b, Send(0));
    t := Do(c, b, Send(0));
    assert t.handlers == s.handlers;
  }

  lemma Work(c: Config, s: State, m: nat) returns (t: State)
    requires Reachable(c, s) && !s.panicked && !s.closed && |s.queue| == 1 && |s.handlers| > 0 && s.handlers[0].Idle?
    requires |s.workers| == |s.forwarders| > 0 && s.forwarders[0].Receiving? && s.workers[0].Waiting?
    requires forall id :: id in s.ids ==> |id| <= m
    ensures Calm(c, t, m) && t.ids == s.ids && t.accepted == s.accepted
  {
    OneMore(c, s, Receive(0));
    var a := Do(c, s, Receive(0));
    OneMore(c, a, Deliver(0));
    var b := Do(c, a, Deliver(0));
    OneMore(c, b, Apply(0));
    t := Do(c, b, Apply(0));
  }

  lemma IdsAreBounded(c: Config, s: State)
    requires WellConfigured(c) && Reachable(c, s)
    ensures Spec.NoRepeats(s.ids) && (c.maxSize > 0 ==> |s.ids| <= c.maxSize)
  {
    LawsHold(c, s);
  }

  lemma RecordMoves(ids: seq<string>, i: nat, id: string, maxSize: int)
    requires Spec.NoRepeats(ids) && i < |ids| <= maxSize && id !in ids
    ensures var r := Spec.Record(ids, id, maxSize);
            if |ids| < maxSize then |r| == |ids| + 1 && r[i] == ids[i]
            else |r| == |ids| && if i > 0 then r[i - 1] == ids[i] else ids[i] !in r
  {
    Spec.RecordKeepsBound(ids, id, maxSize);
  }

  /** Enough further ids push any id out of a bounded deduper. */
  lemma {:induction false} PushOut(c: Config, s: State, m: nat, i: nat) returns (t: State, n: nat)
    requires WellConfigured(c) && c.maxSize > 0 && Calm(c, s, m) && i < |s.ids|
    ensures Calm(c, t, n) && s.ids[i] !in t.ids && s.accepted <= t.accepted && m <= n
    decreases c.maxSize - |s.ids|, i
  {
    IdsAreBounded(c, s);
    var id := FreshEvent(m).id;
    var u := Post(c, s, m + 1, id);
    RecordMoves(s.ids, i, id, c.maxSize);
    if |s.ids| < c.maxSize {
      t, n := PushOut(c, u, m + 1, i);
    } else if i > 0 {
      t, n := PushOut(c, u, m + 1, i - 1);
    } else {
      t, n := u, m + 1;
    }
  }

  /** With a bound, some interleaving accepts one id twice. */
  lemma SomeIdTwice(c: Config) returns (s: State, id: string)
    requires WellConfigured(c) && c.maxSize > 0
    ensures Reachable(c, s) && AcceptedIds(s)[id] >= 2
  {
    var start := Init(1, 1);
    assert Executes(c, start, [], start);
    id := "a";
    var a := Post(c, start, 1, id);
    LawsHold(c, a);
    var b, n := PushOut(c, a, 1, 0);
    s := Post(c, b, n, id);
    assert s.accepted[0].id == id && s.accepted[|b.accepted|].id == id;
    CountedTwice(s.accepted, 0, |b.accepted|);
  }

  /** No run accepts an id twice if and only if the deduper is configured without a bound. */
  lemma IdempotentIffUnbounded(c: Config)
    requires WellConfigured(c)
    ensures (forall s, id :: Reachable(c, s) ==> AcceptedIds(s)[id] <= 1) <==> c.maxSize <= 0
  {
    if c.maxSize > 0 {
      var s, id := SomeIdTwice(c);
      assert AcceptedIds(s)[id] > 1;
    } else {
      forall s, id | Reachable(c, s) ensures AcceptedIds(s)[id] <= 1 {
        LawsHold(c, s);
        AcceptedAtMostOnce(c, s, id);
      }
    }
  }
}
