/**
 How full the queue can get: the capacity check and the send are separate steps that other
 handlers may come between, and the least bound on all interleavings is attained by some.
 */
module QueueBound {
  import opened Float64
  import opened EventQueue
  import opened Pipeline
  import opened PipelineLaws
  import opened PipelineRuns
  import Spec = DedupeSpec

  /** The most events the queue can hold with `handlers` requests served at a time. */
  function MostQueued(c: Config, handlers: nat): int {
    if c.bufferSize < c.capacity - 1 + handlers then c.bufferSize else c.capacity - 1 + handlers
  }

  lemma QueueNeverExceeds(c: Config, s: State)
    requires WellConfigured(c) && Reachable(c, s)
    ensures |s.queue| <= MostQueued(c, |s.handlers|)
  {
    LawsHold(c, s);
  }

  /** An event whose id is longer than any of `m` characters at most. */
  function FreshEvent(m: nat): Event {
    Event(seq(m + 1, i => 'x'), "talent", Finite(1.0), "skill")
  }

  /** Handlers `lo` to `hi` are about to send, all others are idle, and `n` events are queued. */
  ghost predicate Stage(c: Config, s: State, k: nat, n: nat, m: nat, lo: nat, hi: nat) {
    && Reachable(c, s) && !s.panicked && !s.closed && |s.forwarders| == |s.workers|
    && |s.handlers| == k && |s.queue| == n && lo <= hi <= k
    && (forall id :: id in s.ids ==> |id| <= m)
    && (forall i :: 0 <= i < k ==> if lo <= i < hi then s.handlers[i].Admitted? else s.handlers[i].Idle?)
  }

  lemma OneMore(c: Config, s: State, step: Step)
    requires Reachable(c, s) && Enabled(c, s, step)
    ensures Reachable(c, Do(c, s, step))
  {
    var t := Do(c, s, step);
    assert Executes(c, t, [step][1..], t);
    RunsConcatenate(c, s, [step], t);
  }

  lemma RecordOne(c: Config, s: State, k: nat, n: nat, m: nat, lo: nat, hi: nat) returns (t: State)
    requires WellConfigured(c) && Stage(c, s, k, n, m, lo, hi) && hi < k
    ensures Reachable(c, t) && forall id :: id in t.ids ==> |id| <= m + 1
    ensures t == s.(ids := t.ids, handlers := s.handlers[hi := Recorded(FreshEvent(m))], evicted := t.evicted)
  {
    LawsHold(c, s);
    var e := FreshEvent(m);
    Spec.RecordKeepsBound(s.ids, e.id, c.maxSize);
    OneMore(c, s, See(hi, e));
    t := Do(c, s, See(hi, e));
  }

  lemma AdmitOne(c: Config, s: State, k: nat, n: nat, m: nat, lo: nat, hi: nat) returns (t: State)
    requires WellConfigured(c) && Stage(c, s, k, n, m, lo, hi) && hi < k && n < c.capacity
    ensures Stage(c, t, k, n, m + 1, lo, hi + 1)
  {
    var u := RecordOne(c, s, k, n, m, lo, hi);
    OneMore(c, u, Check(hi));
    t := Do(c, u, Check(hi));
  }

  lemma SendOne(c: Config, s: State, k: nat, n: nat, m: nat, lo: nat, hi: nat) returns (t: State)
    requires Stage(c, s, k, n, m, lo, hi) && lo < hi && n < c.bufferSize
    ensures Stage(c, t, k, n + 1, m, lo + 1, hi)
  {
    OneMore(c, s, Send(lo));
    t := Do(c, s, Send(lo));
  }

  /** One request at a time fills the queue up to the capacity check. */
  lemma {:induction false} FillOneByOne(c: Config, k: nat, workers: nat, n: nat) returns (s: State)
    requires WellConfigured(c) && k > 0 && n <= c.capacity && n <= c.bufferSize
    ensures Stage(c, s, k, n, n, 0, 0)
  {
    if n == 0 {
      s := Init(k, workers);
      assert Executes(c, s, [], s);
    } else {
      var a := FillOneByOne(c, k, workers, n - 1);
      var b := AdmitOne(c, a, k, n - 1, n - 1, 0, 0);
      s := SendOne(c, b, k, n - 1, n, 0, 1);
    }
  }

  /** Several handlers pass the check on the same queue length. */
  lemma {:induction false} AdmitMany(c: Config, s: State, k: nat, n: nat, r: nat) returns (t: State)
    requires WellConfigured(c) && Stage(c, s, k, n, n, 0, 0) && r <= k && n < c.capacity
    ensures Stage(c, t, k, n, n + r, 0, r)
  {
    if r == 0 {
      t := s;
    } else {
      var u := AdmitMany(c, s, k, n, r - 1);
      t := AdmitOne(c, u, k, n, n + r - 1, 0, r - 1);
    }
  }

  lemma {:induction false} SendMany(c: Config, s: State, k: nat, n: nat, m: nat, r: nat, j: nat) returns (t: State)
    requires Stage(c, s, k, n, m, 0, r) && j <= r && n + j <= c.bufferSize
    ensures Stage(c, t, k, n + j, m, j, r)
  {
    if j == 0 {
      t := s;
    } else {
      var u := SendMany(c, s, k, n, m, r, j - 1);
      t := SendOne(c, u, k, n + j - 1, m, j - 1, r);
    }
  }

  /** Some interleaving does fill the queue to the bound. */
  lemma MostQueuedIsReached(c: Config, k: nat, workers: nat) returns (s: State)
    requires WellConfigured(c) && k > 0
    ensures Reachable(c, s) && |s.handlers| == k && |s.queue| == MostQueued(c, k)
  {
    if c.bufferSize < c.capacity {
      s := FillOneByOne(c, k, workers, c.bufferSize);
    } else {
      var n, r := c.capacity - 1, MostQueued(c, k) - (c.capacity - 1);
      var a := FillOneByOne(c, k, workers, n);
      var b := AdmitMany(c, a, k, n, r);
      s := SendMany(c, b, k, n, n + r, r, r);
    }
  }

  /**
   The queue can come to hold more than its capacity if and only if its buffer is larger than the
   capacity and two requests are served at a time; a service's queue, with equal sizes, never does.
   */
  lemma OvershootIff(c: Config, k: nat)
    requires WellConfigured(c) && k > 0
    ensures (exists s :: Reachable(c, s) && |s.handlers| == k && |s.queue| > c.capacity)
       <==> c.bufferSize > c.capacity && k >= 2
  {
    if c.bufferSize > c.capacity && k >= 2 {
      var s := MostQueuedIsReached(c, k, 1);
    }
    forall s | Reachable(c, s) && |s.handlers| == k && |s.queue| > c.capacity
      ensures c.bufferSize > c.capacity && k >= 2
    {
      QueueNeverExceeds(c, s);
    }
  }
}
