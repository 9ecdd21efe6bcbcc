/**
 The rank snapshot under concurrency.  Updates, the two halves of a snapshot refresh, and the steps
 of single-talent lookups and of lists interleave freely; each locked section of the store is one
 step, except that a list holds the store's lock for reading through both of its steps.
 */
module Snapshots {
  import opened Keys
  import opened Float64
  import opened FixedPoint
  import opened Leaderboard
  import opened Ranks
  import opened TieRanks
  import opened Traversals
  import opened TreapStore
  import opened BestRecords

  /** What the store's lock protects, at one moment. */
  datatype Version = Version(board: Board, bests: map<string, Best>)

  /** The refresher: between rounds, or holding the entries it collected from some version. */
  datatype Refresher = Resting | Collected(items: seq<Entry>, from: nat)

  /** A lookup of one talent's rank; versions are kept to say when it began, ranked and ended. */
  datatype Reader =
    | Off
    | Absent(id: string, start: nat)
    | Known(id: string, start: nat)
    | Missed(id: string, start: nat)
    | Placed(id: string, start: nat, rank: int, published: bool, at: nat)
    | Answered(id: string, start: nat, rank: int, published: bool, at: nat, score: real, finish: nat)

  /** A list of the best talents: copied but not ranked yet, or returned with the ranks of its time. */
  datatype Lister =
    | Unasked
    | Gathered(n: int, items: seq<Entry>, at: nat)
    | Listed(n: int, entries: seq<Entry>, at: nat, published: int)

  /** `history` holds every version the store went through; the last one is current. */
  datatype State = State(history: seq<Version>, snapshot: map<string, int>, published: int,
                         refresher: Refresher, readers: seq<Reader>, listers: seq<Lister>)

  function Init(readers: nat, listers: nat): State {
    State([Version(EMPTY, map[])], map[], -1, Resting, seq(readers, i => Off), seq(listers, i => Unasked))
  }

  datatype Step =
    | Change(id: string, b: Best)  // UpdateBestWithMeta
    | Collect                      // refresh: copy all entries under the store's lock
    | Publish                      // refresh: rank the copy and swap the map in
    | Look(r: nat, id: string)     // Rank: find the record under the store's lock
    | Place(r: nat)                // Rank: look the talent up in the snapshot
    | Count(r: nat)                // Rank: if it was not there, count on the tree under the store's lock
    | Answer(r: nat)               // Rank: read the record's score
    | Gather(l: nat, n: int)       // TopN: take the store's lock for reading and copy the best entries
    | Attach(l: nat)               // TopN: rank them under the snapshot's lock and release both

  function Now(s: State): nat
    requires s.history != []
  {
    |s.history| - 1
  }

  function Current(s: State): Version
    requires s.history != []
  {
    s.history[Now(s)]
  }

  predicate NoneGathered(s: State) {
    forall i :: 0 <= i < |s.listers| ==> !s.listers[i].Gathered?
  }

  predicate Enabled(s: State, step: Step) {
    s.history != [] &&
    match step
    case Change(id, b) => NoneGathered(s)
    case Collect => s.refresher.Resting?
    case Publish => s.refresher.Collected?
    case Look(r, id) => r < |s.readers| && s.readers[r].Off?
    case Place(r) => r < |s.readers| && s.readers[r].Known?
    case Count(r) => r < |s.readers| && s.readers[r].Missed? && s.readers[r].id in Current(s).board.best
    case Answer(r) => r < |s.readers| && s.readers[r].Placed? && s.readers[r].id in Current(s).board.best
    case Gather(l, n) => l < |s.listers| && s.listers[l].Unasked? && n >= 1
    case Attach(l) => l < |s.listers| && s.listers[l].Gathered?
  }

  function Changed(v: Version, id: string, b: Best): Version {
    Version(Improve(v.board, Update(id, b.score)), BestsAfter(v.bests, id, b))
  }

  function Do(s: State, step: Step): State
    requires Enabled(s, step)
  {
    var now := Current(s);
    match step
    case Change(id, b) => s.(history := s.history + [Changed(now, id, b)])
    case Collect => s.(refresher := Collected(FullListing(now.board, now.bests), Now(s)))
    case Publish =>
      s.(snapshot := RankMap(Ranked(s.refresher.items)), published := s.refresher.from, refresher := Resting)
    case Look(r, id) =>
      s.(readers := s.readers[r := if id in now.board.best then Known(id, Now(s)) else Absent(id, Now(s))])
    case Place(r) =>
      var Known(id, start) := s.readers[r];
      var at := if s.published < 0 then 0 else s.published;
      s.(readers := s.readers[r := if id in s.snapshot then Placed(id, start, s.snapshot[id], true, at)
                                   else Missed(id, start)])
    case Count(r) =>
      var Missed(id, start) := s.readers[r];
      var shown := ToFixedPoint(Finite(ToFloat(now.board.best[id])));
      var rank := Ranks.CalculateRank(now.board.tree, Key(shown, id));
      s.(readers := s.readers[r := Placed(id, start, rank, false, Now(s))])
    case Answer(r) =>
      var Placed(id, start, rank, published, at) := s.readers[r];
      s.(readers := s.readers[r := Answered(id, start, rank, published, at, ToFloat(now.board.best[id]), Now(s))])
    case Gather(l, n) =>
      s.(listers := s.listers[l := Gathered(n, Take(FullListing(now.board, now.bests), n), Now(s))])
    case Attach(l) =>
      var Gathered(n, items, at) := s.listers[l];
      s.(listers := s.listers[l := Listed(n, WithRanks(items, s.snapshot), at, s.published)])
  }

  ghost predicate Executes(s: State, steps: seq<Step>, t: State)
    decreases |steps|
  {
    if steps == [] then s == t
    else Enabled(s, steps[0]) && Executes(Do(s, steps[0]), steps[1..], t)
  }

  // ---------- versions only get better ----------

  ghost predicate Sound(v: Version) {
    Consistent(v.board) && v.board.best == ScoresIn(v.bests)
  }

  /** Everything known stays known, with no lower score. */
  predicate NoWorse(v: Version, w: Version) {
    forall id :: id in v.board.best ==> id in w.board.best && v.board.best[id] <= w.board.best[id]
  }

  lemma ChangedIsSound(v: Version, id: string, b: Best)
    requires Sound(v)
    ensures Sound(Changed(v, id, b)) && NoWorse(v, Changed(v, id, b))
  {
    ImproveKeepsConsistent(v.board, Update(id, b.score));
    ScoresInUpdated(v.bests, id, b);
  }

  ghost predicate Improving(history: seq<Version>) {
    && history != []
    && (forall i :: 0 <= i < |history| ==> Sound(history[i]))
    && (forall i, j :: 0 <= i <= j < |history| ==> NoWorse(history[i], history[j]))
  }

  lemma ImprovingGrows(history: seq<Version>, v: Version)
    requires Improving(history) && Sound(v) && NoWorse(history[|history| - 1], v)
    ensures Improving(history + [v])
  {
    var h := history + [v];
    forall i, j | 0 <= i <= j < |h| ensures NoWorse(h[i], h[j]) {
      if i < |history| == j {
        assert NoWorse(history[i], history[|history| - 1]);
      }
    }
  }

  // ---------- the laws ----------

  /** The snapshot is empty, or the exact competition ranking of one past version. */
  ghost predicate SnapshotLaw(s: State) {
    if s.published < 0 then s.snapshot == map[]
    else s.published < |s.history| && s.snapshot == CompetitionRanks(s.history[s.published].board.best)
  }

  /** What is about to be published is no older than what is published. */
  ghost predicate RefreshLaw(s: State) {
    s.refresher.Collected? ==>
      && s.published <= s.refresher.from < |s.history|
      && var v := s.history[s.refresher.from]; s.refresher.items == FullListing(v.board, v.bests)
  }

  /** The rank a lookup has taken: published from a past version, or counted while it ran. */
  ghost predicate RankFrom(s: State, id: string, start: nat, rank: int, published: bool, at: nat)
  {
    && at < |s.history| && id in s.history[at].board.best
    && (published ==> rank == CompetitionRank(s.history[at].board.best, id))
    && (!published ==>
         && start <= at
         && rank == Ranks.CalculateRank(s.history[at].board.tree,
                                        Key(ToFixedPoint(Finite(ToFloat(s.history[at].board.best[id]))), id)))
  }

  /** A finished lookup reports the talent's best score of a version within its own duration. */
  ghost predicate ReaderLaw(s: State, r: Reader) {
    match r
    case Off => true
    case Absent(id, start) => start < |s.history| && id !in s.history[start].board.best
    case Known(id, start) => start < |s.history| && id in s.history[start].board.best
    case Missed(id, start) => start < |s.history| && id in s.history[start].board.best
    case Placed(id, start, rank, published, at) =>
      start < |s.history| && id in s.history[start].board.best && RankFrom(s, id, start, rank, published, at)
    case Answered(id, start, rank, published, at, score, finish) =>
      && start <= finish < |s.history| && at <= finish
      && id in s.history[start].board.best && id in s.history[finish].board.best
      && score == ToFloat(s.history[finish].board.best[id])
      && RankFrom(s, id, start, rank, published, at)
  }

  /** The best entries of a version, unranked. */
  function BestEntries(v: Version, n: int): seq<Entry> {
    Take(FullListing(v.board, v.bests), n)
  }

  /** The entries `es` ranked by the competition ranks of version `v`, which knows all their talents. */
  ghost predicate RankedBy(entries: seq<Entry>, es: seq<Entry>, v: Version) {
    && |entries| == |es|
    && forall i :: 0 <= i < |es| ==>
         && es[i].talentID in v.board.best
         && entries[i] == es[i].(rank := CompetitionRank(v.board.best, es[i].talentID))
  }

  ghost predicate KnowsAll(v: Version, es: seq<Entry>) {
    forall i :: 0 <= i < |es| ==> es[i].talentID in v.board.best
  }

  /**
   A list holds the best entries of one version.  If the version whose ranks were published at the
   time knows all their talents it ranks them all, otherwise the list's own version does.
   */
  ghost predicate ListerLaw(s: State, l: Lister) {
    match l
    case Unasked => true
    case Gathered(n, items, at) => s.history != [] && at == Now(s) && items == BestEntries(s.history[at], n)
    case Listed(n, entries, at, published) =>
      && published <= at < |s.history|
      && var es := BestEntries(s.history[at], n);
         if published >= 0 && KnowsAll(s.history[published], es) then RankedBy(entries, es, s.history[published])
         else RankedBy(entries, es, s.history[at])
  }

  ghost predicate Laws(s: State) {
    && Improving(s.history) && SnapshotLaw(s) && RefreshLaw(s)
    && (forall i :: 0 <= i < |s.readers| ==> ReaderLaw(s, s.readers[i]))
    && (forall i :: 0 <= i < |s.listers| ==> ListerLaw(s, s.listers[i]))
  }

  lemma ReaderLawStays(s: State, t: State, r: Reader)
    requires ReaderLaw(s, r) && s.history <= t.history
    ensures ReaderLaw(t, r)
  {
  }

  lemma PlaceKeeps(s: State, r: nat)
    requires Laws(s) && Enabled(s, Place(r))
    ensures ReaderLaw(Do(s, Place(r)), Do(s, Place(r)).readers[r])
  {
    var id := s.readers[r].id;
    assert ReaderLaw(s, s.readers[r]);
    if id in s.snapshot {
      assert id in CompetitionRanks(s.history[s.published].board.best);
    }
  }

  lemma CountKeeps(s: State, r: nat)
    requires Laws(s) && Enabled(s, Count(r))
    ensures ReaderLaw(Do(s, Count(r)), Do(s, Count(r)).readers[r])
  {
    assert ReaderLaw(s, s.readers[r]);
  }

  lemma AnswerKeeps(s: State, r: nat)
    requires Laws(s) && Enabled(s, Answer(r))
    ensures ReaderLaw(Do(s, Answer(r)), Do(s, Answer(r)).readers[r])
  {
    assert ReaderLaw(s, s.readers[r]);
  }

  lemma ListerLawStays(s: State, t: State, l: Lister)
    requires ListerLaw(s, l) && s.history <= t.history
    requires l.Gathered? ==> s.history == t.history
    ensures ListerLaw(t, l)
  {
  }

  lemma PublishedRanks(v: Version, es: seq<Entry>)
    ensures KnowsAll(v, es) <==> AllPublished(es, CompetitionRanks(v.board.best))
    ensures KnowsAll(v, es) ==> RankedBy(WithRanks(es, CompetitionRanks(v.board.best)), es, v)
  {
    if !KnowsAll(v, es) {
      var i :| 0 <= i < |es| && es[i].talentID !in v.board.best;
      assert es[i].talentID !in CompetitionRanks(v.board.best);
    }
  }

  lemma FreshRanks(v: Version, n: int, snapshot: map<string, int>)
    requires Sound(v)
    ensures var es := BestEntries(v, n);
            es == [] || !AllPublished(es, snapshot) ==> RankedBy(WithRanks(es, snapshot), es, v)
  {
    var es := BestEntries(v, n);
    if !AllPublished(es, snapshot) {
      forall i | 0 <= i < |es|
        ensures es[i].talentID in v.board.best
        ensures WithRanks(es, snapshot)[i] == es[i].(rank := CompetitionRank(v.board.best, es[i].talentID))
      {
        TopRanksAreExact(v.board, v.bests, n, snapshot, i);
      }
    }
  }

  lemma AttachKeeps(s: State, l: nat)
    requires Laws(s) && Enabled(s, Attach(l))
    ensures ListerLaw(Do(s, Attach(l)), Do(s, Attach(l)).listers[l])
  {
    assert ListerLaw(s, s.listers[l]);
    var Gathered(n, es, at) := s.listers[l];
    FreshRanks(s.history[at], n, s.snapshot);
    if s.published >= 0 {
      PublishedRanks(s.history[s.published], es);
    } else {
      assert es == [] || es[0].talentID !in s.snapshot;
    }
  }

  lemma PublishKeeps(s: State)
    requires Laws(s) && Enabled(s, Publish)
    ensures SnapshotLaw(Do(s, Publish)) && RefreshLaw(Do(s, Publish))
  {
    var v := s.history[s.refresher.from];
    assert Sound(v);
    RankedListingIsCompetition(v.board, v.bests);
  }

  lemma LawsKeptBy(s: State, step: Step)
    requires Laws(s) && Enabled(s, step)
    ensures Laws(Do(s, step))
    ensures s.published <= Do(s, step).published && s.history <= Do(s, step).history
  {
    var t := Do(s, step);
    if step.Change? {
      ChangedIsSound(Current(s), step.id, step.b);
      ImprovingGrows(s.history, Changed(Current(s), step.id, step.b));
    }
    assert s.history <= t.history;
    forall i | 0 <= i < |t.readers| ensures ReaderLaw(t, t.readers[i]) {
      assert ReaderLaw(s, s.readers[i]);
      ReaderLawStays(s, t, s.readers[i]);
      if step.Place? && i == step.r { PlaceKeeps(s, i); }
      if step.Count? && i == step.r { CountKeeps(s, i); }
      if step.Answer? && i == step.r { AnswerKeeps(s, i); }
    }
    forall i | 0 <= i < |t.listers| ensures ListerLaw(t, t.listers[i]) {
      assert ListerLaw(s, s.listers[i]);
      ListerLawStays(s, t, s.listers[i]);
      if step.Attach? && i == step.l { AttachKeeps(s, i); }
    }
    if step.Publish? { PublishKeeps(s); }
  }

  lemma {:induction false} LawsKept(s: State, steps: seq<Step>, t: State)
    requires Laws(s) && Executes(s, steps, t)
    ensures Laws(t) && s.published <= t.published && s.history <= t.history
    decreases |steps|
  {
    if steps != [] {
      LawsKeptBy(s, steps[0]);
      LawsKept(Do(s, steps[0]), steps[1..], t);
    }
  }

  lemma LawsAtStart(readers: nat, listers: nat)
    ensures Laws(Init(readers, listers))
  {
    var s := Init(readers, listers);
    assert NoWorse(s.history[0], s.history[0]);
    assert ScoresIn(map[]) == map[];
  }

  /**
   In every interleaving the snapshot is empty or the exact competition ranking of one version
   the store went through, the one numbered `published`, and names only present talents.  Versions
   keep their numbers, and the number published never goes down.
   */
  lemma SnapshotIsAlwaysExact(
    readers: nat, listers: nat, before: seq<Step>, s: State, after: seq<Step>, t: State)
    requires Executes(Init(readers, listers), before, s) && Executes(s, after, t)
    ensures t.snapshot == map[] || exists v :: v in t.history && t.snapshot == CompetitionRanks(v.board.best)
    ensures t.history != [] && t.snapshot.Keys <= Current(t).board.best.Keys
    ensures SnapshotLaw(s) && SnapshotLaw(t)
    ensures s.published <= t.published && s.history <= t.history
  {
    LawsAtStart(readers, listers);
    LawsKept(Init(readers, listers), before, s);
    LawsKept(s, after, t);
    if t.published >= 0 {
      assert t.history[t.published] in t.history;
      assert NoWorse(t.history[t.published], Current(t));
    }
  }

  /**
   The score a lookup reports lies between the talent's best when the lookup began and the
   talent's best when it ended.
   */
  lemma LookupScoreIsCurrent(readers: nat, listers: nat, steps: seq<Step>, s: State, r: nat)
    requires Executes(Init(readers, listers), steps, s) && r < |s.readers| && s.readers[r].Answered?
    ensures var a := s.readers[r];
            && a.start <= a.finish < |s.history|
            && a.id in s.history[a.start].board.best && a.id in s.history[a.finish].board.best
            && ToFloat(s.history[a.start].board.best[a.id]) <= a.score
            && a.score <= ToFloat(s.history[a.finish].board.best[a.id])
            && RankFrom(s, a.id, a.start, a.rank, a.published, a.at)
  {
    LawsAtStart(readers, listers);
    LawsKept(Init(readers, listers), steps, s);
    var a := s.readers[r];
    assert ReaderLaw(s, a);
    assert NoWorse(s.history[a.start], s.history[a.finish]);
    ToFloatIsMonotone(s.history[a.start].board.best[a.id], s.history[a.finish].board.best[a.id]);
  }

  /** A talent found stays findable, so a lookup once begun is never stuck. */
  lemma LookupNeverStuck(readers: nat, listers: nat, steps: seq<Step>, s: State, r: nat)
    requires Executes(Init(readers, listers), steps, s) && r < |s.readers|
    ensures s.readers[r].Known? ==> Enabled(s, Place(r))
    ensures s.readers[r].Missed? ==> Enabled(s, Count(r))
    ensures s.readers[r].Placed? ==> Enabled(s, Answer(r))
  {
    LawsAtStart(readers, listers);
    LawsKept(Init(readers, listers), steps, s);
    assert ReaderLaw(s, s.readers[r]);
    if s.readers[r].Missed? || s.readers[r].Placed? {
      assert NoWorse(s.history[s.readers[r].start], Current(s));
    }
  }

  /**
   A list returned in whatever interleaving holds the best entries of the one version current while
   it was made, with scores and metadata, all ranked by the version last published if that knows all
   their talents, and by the list's own version otherwise.
   */
  lemma ListIsOneVersion(readers: nat, listers: nat, steps: seq<Step>, s: State, l: nat)
    requires Executes(Init(readers, listers), steps, s) && l < |s.listers| && s.listers[l].Listed?
    ensures var Listed(n, entries, at, published) := s.listers[l];
            && published <= at < |s.history|
            && var es := BestEntries(s.history[at], n);
               if published >= 0 && KnowsAll(s.history[published], es) then RankedBy(entries, es, s.history[published])
               else RankedBy(entries, es, s.history[at])
  {
    LawsAtStart(readers, listers);
    LawsKept(Init(readers, listers), steps, s);
    assert ListerLaw(s, s.listers[l]);
  }
}
