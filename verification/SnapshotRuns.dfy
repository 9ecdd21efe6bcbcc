/**
 What lookups, lists and refreshes owe to the updates made before them, over whole runs.
 */
module SnapshotRuns {
  import opened Sequences
  import opened FixedPoint
  import opened Ranks
  import opened Traversals
  import opened BestRecords
  import opened TreapStore
  import opened Snapshots

  // ---------- versions and updates ----------

  function UpdateOf(step: Step): seq<Offer> {
    if step.Change? then [Offer(step.id, step.b)] else []
  }

  /** The updates in a run, in order. */
  function Updates(steps: seq<Step>): seq<Offer> {
    if steps == [] then [] else UpdateOf(steps[0]) + Updates(steps[1..])
  }

  /** There is one version for every update, reflecting that update and those before it. */
  ghost predicate Told(history: seq<Version>, os: seq<Offer>) {
    |history| == |os| + 1 && forall k :: 0 <= k < |history| ==> Reflects(history[k].bests, os[..k])
  }

  lemma ChangeTells(history: seq<Version>, os: seq<Offer>, id: string, b: Best)
    requires Told(history, os)
    ensures Told(history + [Changed(history[|os|], id, b)], os + [Offer(id, b)])
  {
    var h, more := history + [Changed(history[|os|], id, b)], os + [Offer(id, b)];
    assert os[..|os|] == os && more[..|more|] == more;
    ReflectsOneMore(history[|os|].bests, os, Offer(id, b));
    forall k | 0 <= k < |h| ensures Reflects(h[k].bests, more[..k]) {
      if k < |history| { assert more[..k] == os[..k]; }
    }
  }

  lemma StepTells(s: State, step: Step, os: seq<Offer>)
    requires Told(s.history, os) && Enabled(s, step)
    ensures Told(Do(s, step).history, os + UpdateOf(step))
  {
    if step.Change? {
      ChangeTells(s.history, os, step.id, step.b);
    } else {
      assert os + [] == os;
    }
  }

  lemma {:induction false} RunTells(s: State, steps: seq<Step>, t: State, os: seq<Offer>)
    requires Told(s.history, os) && Executes(s, steps, t)
    ensures Told(t.history, os + Updates(steps))
    decreases |steps|
  {
    if steps == [] {
      assert os + [] == os;
    } else {
      StepTells(s, steps[0], os);
      RunTells(Do(s, steps[0]), steps[1..], t, os + UpdateOf(steps[0]));
      Reassociate(os, UpdateOf(steps[0]), Updates(steps[1..]));
    }
  }

  /** In every interleaving each version holds exactly the first best of the updates up to it. */
  lemma VersionsReflectUpdates(readers: nat, listers: nat, steps: seq<Step>, t: State)
    requires Executes(Init(readers, listers), steps, t)
    ensures Told(t.history, Updates(steps))
  {
    ReflectsNothing();
    assert Told(Init(readers, listers).history, []);
    RunTells(Init(readers, listers), steps, t, []);
    assert [] + Updates(steps) == Updates(steps);
  }

  lemma {:induction false} UpdateIsListed(steps: seq<Step>, id: string, b: Best) returns (k: nat)
    requires Change(id, b) in steps
    ensures k < |Updates(steps)| && Updates(steps)[k] == Offer(id, b)
  {
    if steps[0] == Change(id, b) {
      k := 0;
    } else {
      k := UpdateIsListed(steps[1..], id, b);
      if steps[0].Change? { k := k + 1; }
    }
  }

  lemma {:induction false} ListedIsUpdate(steps: seq<Step>, k: nat)
    requires k < |Updates(steps)|
    ensures Change(Updates(steps)[k].id, Updates(steps)[k].b) in steps
  {
    if steps[0].Change? {
      if k > 0 { ListedIsUpdate(steps[1..], k - 1); }
    } else {
      ListedIsUpdate(steps[1..], k);
    }
  }

  lemma StoreReflectsUpdates(readers: nat, listers: nat, steps: seq<Step>, t: State)
    requires Executes(Init(readers, listers), steps, t)
    ensures t.history != [] && Current(t).board.best == ScoresIn(Current(t).bests)
    ensures Reflects(Current(t).bests, Updates(steps))
  {
    LawsAtStart(readers, listers);
    LawsKept(Init(readers, listers), steps, t);
    VersionsReflectUpdates(readers, listers, steps, t);
    assert Updates(steps)[..|Updates(steps)|] == Updates(steps) && Sound(Current(t));
  }

  /** After any run the store knows every talent updated, with no lower a score than any update gave it. */
  lemma UpdatesAreKept(readers: nat, listers: nat, steps: seq<Step>, t: State, id: string, b: Best)
    requires Executes(Init(readers, listers), steps, t) && Change(id, b) in steps
    ensures t.history != [] && id in Current(t).board.best && b.score <= Current(t).board.best[id]
  {
    StoreReflectsUpdates(readers, listers, steps, t);
    var k := UpdateIsListed(steps, id, b);
    OfferIsReflected(Current(t).bests, Updates(steps), k);
  }

  /** And whatever it holds was given to it by an update of that very talent, in full. */
  lemma NothingElseIsKept(readers: nat, listers: nat, steps: seq<Step>, t: State, id: string)
    requires Executes(Init(readers, listers), steps, t) && t.history != [] && id in Current(t).board.best
    ensures id in Current(t).bests && Current(t).bests[id].score == Current(t).board.best[id]
    ensures Change(id, Current(t).bests[id]) in steps
  {
    StoreReflectsUpdates(readers, listers, steps, t);
    var i: nat :| FirstBest(Updates(steps), id, i) && Updates(steps)[i].b == Current(t).bests[id];
    ListedIsUpdate(steps, i);
  }

  // ---------- lookups ----------

  /** Reader `r` has not been asked, or was asked for its talent in `steps` when there were `n` versions before. */
  ghost predicate AskedSince(t: State, r: nat, steps: seq<Step>, n: nat) {
    r < |t.readers| && (!t.readers[r].Off? ==> t.readers[r].start >= n && Look(r, t.readers[r].id) in steps)
  }

  lemma {:induction false} LookupGoesOn(s: State, steps: seq<Step>, t: State, r: nat)
    requires Executes(s, steps, t) && r < |s.readers| && !s.readers[r].Off?
    ensures r < |t.readers| && !t.readers[r].Off?
    ensures t.readers[r].id == s.readers[r].id && t.readers[r].start == s.readers[r].start
    decreases |steps|
  {
    if steps != [] { LookupGoesOn(Do(s, steps[0]), steps[1..], t, r); }
  }

  lemma {:induction false} LookupBeginsLater(s: State, steps: seq<Step>, t: State, r: nat, n: nat)
    requires Executes(s, steps, t) && r < |s.readers| && s.readers[r].Off? && n < |s.history|
    ensures AskedSince(t, r, steps, n)
    decreases |steps|
  {
    if steps != [] {
      var u := Do(s, steps[0]);
      if steps[0].Look? && steps[0].r == r {
        LookupGoesOn(u, steps[1..], t, r);
      } else {
        LookupBeginsLater(u, steps[1..], t, r, n);
      }
    }
  }

  /**
   A lookup begun after an update of its talent finds the talent, and reports at least the score of
   that update.
   */
  lemma LookupSeesUpdates(readers: nat, listers: nat, before: seq<Step>, s: State, after: seq<Step>, t: State,
                          r: nat, b: Best)
    requires Executes(Init(readers, listers), before, s) && Executes(s, after, t)
    requires r < |s.readers| && s.readers[r].Off? && r < |t.readers| && !t.readers[r].Off?
    requires Change(t.readers[r].id, b) in before
    ensures !t.readers[r].Absent? && Look(r, t.readers[r].id) in after
    ensures t.readers[r].Answered? ==> t.readers[r].score >= ToFloat(b.score)
  {
    LawsAtStart(readers, listers);
    LawsKept(Init(readers, listers), before, s);
    LawsKept(s, after, t);
    var a := t.readers[r];
    UpdatesAreKept(readers, listers, before, s, a.id, b);
    LookupBeginsLater(s, after, t, r, Now(s));
    assert ReaderLaw(t, a) && s.history[Now(s)] == t.history[Now(s)];
    assert NoWorse(t.history[Now(s)], t.history[a.start]);
    if a.Answered? {
      assert NoWorse(t.history[a.start], t.history[a.finish]);
      ToFloatIsMonotone(b.score, t.history[a.finish].board.best[a.id]);
    }
  }

  /** A lookup finds its talent if and only if some update of the talent was made before it began. */
  lemma FoundIffUpdated(readers: nat, listers: nat, steps: seq<Step>, t: State, r: nat)
    requires Executes(Init(readers, listers), steps, t) && r < |t.readers| && !t.readers[r].Off?
    ensures var a := t.readers[r];
            a.start <= |Updates(steps)| && (a.Absent? <==> !Offered(Updates(steps)[..a.start], a.id))
  {
    LawsAtStart(readers, listers);
    LawsKept(Init(readers, listers), steps, t);
    VersionsReflectUpdates(readers, listers, steps, t);
    var a := t.readers[r];
    assert ReaderLaw(t, a) && Sound(t.history[a.start]);
    assert Reflects(t.history[a.start].bests, Updates(steps)[..a.start]);
  }

  // ---------- refreshes ----------

  /** From the moment of collecting to that of publishing the refresher holds on to what it collected. */
  lemma {:induction false} RefresherHolds(s: State, steps: seq<Step>, t: State)
    requires Executes(s, steps, t) && s.refresher.Collected? && Publish !in steps
    ensures t.refresher == s.refresher
    decreases |steps|
  {
    if steps != [] { RefresherHolds(Do(s, steps[0]), steps[1..], t); }
  }

  /** Whatever comes in between, a refresh publishes the ranking of the moment it collected. */
  lemma RefreshTakesEffect(readers: nat, listers: nat, before: seq<Step>, s: State, between: seq<Step>, t: State)
    requires Executes(Init(readers, listers), before, s) && Enabled(s, Collect)
    requires Executes(Do(s, Collect), between, t) && Publish !in between
    ensures Enabled(t, Publish)
    ensures Do(t, Publish).snapshot == CompetitionRanks(Current(s).board.best) && Do(t, Publish).published == Now(s)
  {
    LawsAtStart(readers, listers);
    LawsKept(Init(readers, listers), before, s);
    RefresherHolds(Do(s, Collect), between, t);
    LawsKeptBy(s, Collect);
    LawsKept(Do(s, Collect), between, t);
    assert Sound(Current(s));
    RankedListingIsCompetition(Current(s).board, Current(s).bests);
  }

  /** A lookup of a talent that version `p` knew reports a rank published for that version or a later one. */
  ghost predicate RankedSince(t: State, r: nat, p: nat) {
    r < |t.readers| && p < |t.history| &&
    match t.readers[r]
    case Missed(id, start) => id !in t.history[p].board.best
    case Placed(id, start, rank, published, at) => id in t.history[p].board.best ==> published && at >= p
    case Answered(id, start, rank, published, at, score, finish) =>
      id in t.history[p].board.best ==> published && at >= p
    case _ => true
  }

  lemma RankedSinceKept(s: State, step: Step, r: nat, p: nat)
    requires Laws(s) && Enabled(s, step) && p <= s.published && RankedSince(s, r, p)
    ensures RankedSince(Do(s, step), r, p)
  {
    LawsKeptBy(s, step);
    if step.Place? && step.r == r {
      assert NoWorse(s.history[p], s.history[s.published]);
      assert s.snapshot.Keys == s.history[s.published].board.best.Keys;
    }
  }

  lemma {:induction false} RankedSinceStays(s: State, steps: seq<Step>, t: State, r: nat, p: nat)
    requires Laws(s) && Executes(s, steps, t) && p <= s.published && RankedSince(s, r, p)
    ensures RankedSince(t, r, p)
    decreases |steps|
  {
    if steps != [] {
      RankedSinceKept(s, steps[0], r, p);
      LawsKeptBy(s, steps[0]);
      RankedSinceStays(Do(s, steps[0]), steps[1..], t, r, p);
    }
  }

  /** A published talent's lookup uses the published rank, and one no older than when it began. */
  lemma LookupUsesPublished(readers: nat, listers: nat, before: seq<Step>, s: State, after: seq<Step>, t: State, r: nat)
    requires Executes(Init(readers, listers), before, s) && Executes(s, after, t)
    requires r < |s.readers| && s.readers[r].Off? && s.published >= 0
    ensures r < |t.readers|
    ensures t.readers[r].Answered? ==>
              var a := t.readers[r];
              s.published < |t.history| &&
              (a.id in t.history[s.published].board.best ==>
                 a.published && a.at >= s.published && a.at < |t.history| && a.id in t.history[a.at].board.best
                 && a.rank == CompetitionRank(t.history[a.at].board.best, a.id))
  {
    LawsAtStart(readers, listers);
    LawsKept(Init(readers, listers), before, s);
    RankedSinceStays(s, after, t, r, s.published);
    LawsKept(s, after, t);
    assert ReaderLaw(t, t.readers[r]);
  }

  // ---------- lists ----------

  /** Lister `l` was asked in `steps`, for a version from `n` on, with ranks published from `p` on. */
  ghost predicate ListedSince(t: State, l: nat, steps: seq<Step>, n: nat, p: int) {
    l < |t.listers| && n < |t.history| && p <= t.published &&
    match t.listers[l]
    case Unasked => true
    case Gathered(limit, items, at) => at >= n && Gather(l, limit) in steps
    case Listed(limit, entries, at, published) => at >= n && published >= p && Gather(l, limit) in steps
  }

  lemma ListedSinceKept(s: State, done: seq<Step>, step: Step, l: nat, n: nat, p: int)
    requires Laws(s) && Enabled(s, step) && ListedSince(s, l, done, n, p)
    ensures ListedSince(Do(s, step), l, done + [step], n, p)
  {
    LawsKeptBy(s, step);
    assert step in done + [step] && forall x :: x in done ==> x in done + [step];
  }

  lemma {:induction false} ListsAreRecentFrom(
    s: State, done: seq<Step>, steps: seq<Step>, t: State, l: nat, n: nat, p: int)
    requires Laws(s) && ListedSince(s, l, done, n, p) && Executes(s, steps, t)
    ensures ListedSince(t, l, done + steps, n, p)
    decreases |steps|
  {
    if steps == [] {
      assert done + [] == done;
    } else {
      LawsKeptBy(s, steps[0]);
      ListedSinceKept(s, done, steps[0], l, n, p);
      ListsAreRecentFrom(Do(s, steps[0]), done + [steps[0]], steps[1..], t, l, n, p);
      Reassociate(done, [steps[0]], steps[1..]);
      assert [steps[0]] + steps[1..] == steps;
    }
  }

  /** A list shows a version no older than when it was asked for, under ranks no older either. */
  lemma ListsAreRecent(readers: nat, listers: nat, before: seq<Step>, s: State, after: seq<Step>, t: State, l: nat)
    requires Executes(Init(readers, listers), before, s) && Executes(s, after, t)
    requires l < |s.listers| && s.listers[l].Unasked?
    ensures s.history != [] && ListedSince(t, l, after, Now(s), s.published)
  {
    LawsAtStart(readers, listers);
    LawsKept(Init(readers, listers), before, s);
    ListsAreRecentFrom(s, [], after, t, l, Now(s), s.published);
    assert [] + after == after;
  }
}
