/**
 End to end: what the service lists after the pipeline has drained and the snapshot was refreshed,
 in terms of the accepted events alone.
 */
module FinalRanking {
  import opened Keys
  import opened EventQueue
  import opened Float64
  import opened FixedPoint
  import opened Scoring
  import opened Leaderboard
  import opened Ranks
  import opened TieRanks
  import opened Traversals
  import opened TreapStore
  import opened BestRecords
  import opened Ingest
  import opened Pipeline
  import opened PipelineLaws
  import T = Treaps

  /** `x` is the best score an accepted event earned the talent. */
  ghost predicate FinalScore(c: Config, s: State, talent: string, x: int) {
    && (exists e :: e in s.accepted && e.talentID == talent && ScoreFor(c, e) == x)
    && (forall e :: e in s.accepted && e.talentID == talent ==> ScoreFor(c, e) <= x)
  }

  ghost function AcceptedTalents(s: State): set<string> {
    set e | e in s.accepted :: e.talentID
  }

  /** The talents with an accepted event that scored more than `x`. */
  ghost function TalentsAbove(c: Config, s: State, x: int): set<string> {
    set e | e in s.accepted && ScoreFor(c, e) > x :: e.talentID
  }

  /** The `n` best, after a refresh of the snapshot. */
  function ListAfterRefresh(s: State, n: int): seq<Entry> {
    WithRanks(Take(FullListing(s.board, s.bests), n), RankMap(Ranked(FullListing(s.board, s.bests))))
  }

  /** The pipeline has drained without cancellation. */
  ghost predicate Settled(c: Config, s: State) {
    WellConfigured(c) && Reachable(c, s) && Drained(s) && !s.cancelled
  }

  lemma BestIsFinal(c: Config, s: State, talent: string)
    requires Settled(c, s)
    ensures Consistent(s.board) && s.board.best == ScoresIn(s.bests)
    ensures talent in s.board.best <==> talent in AcceptedTalents(s)
    ensures talent in s.board.best ==>
              FinalScore(c, s, talent, s.board.best[talent]) && 0 <= s.board.best[talent] <= LOSSLESS
  {
    StoreReflectsApplied(c, s);
    DrainedScores(c, s, talent);
  }

  lemma AboveAreAbove(c: Config, s: State, x: int)
    requires Settled(c, s)
    ensures (set t | t in s.board.best && s.board.best[t] > x) == TalentsAbove(c, s, x)
  {
    forall t ensures t in s.board.best && s.board.best[t] > x <==> t in TalentsAbove(c, s, x) {
      BestIsFinal(c, s, t);
      if t in s.board.best && s.board.best[t] > x {
        var e :| e in s.accepted && e.talentID == t && ScoreFor(c, e) == s.board.best[t];
      }
    }
  }

  /**
   The entry shows an accepted event of its talent, the first applied of those that scored its best,
   and ranks behind the talents with a better event.
   */
  ghost predicate ShowsEvent(c: Config, s: State, entry: Entry, i: nat) {
    i < |s.applied| && var e := s.applied[i]; var x := ScoreFor(c, e);
      && e in s.accepted && e.talentID == entry.talentID && FinalScore(c, s, e.talentID, x)
      && (forall j :: 0 <= j < i && s.applied[j].talentID == e.talentID ==> ScoreFor(c, s.applied[j]) < x)
      && entry.score == ToFloat(x) && entry.eventID == e.id && entry.skill == e.skill
      && entry.rawMetric == e.rawMetric && entry.rank == 1 + |TalentsAbove(c, s, x)|
  }

  lemma RecordIsBestEvent(c: Config, s: State, talent: string) returns (i: nat)
    requires Settled(c, s) && talent in s.board.best
    ensures i < |s.applied|
    ensures var e := s.applied[i]; var x := ScoreFor(c, e);
            && talent in s.bests && s.bests[talent] == BestFor(e, c.weights, c.defaultWeight)
            && e in s.accepted && e.talentID == talent && x == s.board.best[talent] && FinalScore(c, s, talent, x)
            && forall j :: 0 <= j < i && s.applied[j].talentID == talent ==> ScoreFor(c, s.applied[j]) < x
  {
    BestIsFinal(c, s, talent);
    DrainedAppliedAll(c, s);
    i := FirstBestApplied(c, s, talent);
    assert s.applied[i] in multiset(s.applied);
  }

  lemma FirstBestApplied(c: Config, s: State, talent: string) returns (i: nat)
    requires Settled(c, s) && talent in s.bests
    ensures i < |s.applied| && s.applied[i].talentID == talent
    ensures s.bests[talent] == BestFor(s.applied[i], c.weights, c.defaultWeight)
    ensures forall j :: 0 <= j < i && s.applied[j].talentID == talent ==>
              ScoreFor(c, s.applied[j]) < s.bests[talent].score
  {
    StoreReflectsApplied(c, s);
    var os := Offers(c, s.applied);
    i :| FirstBest(os, talent, i) && os[i].b == s.bests[talent];
    forall j | 0 <= j < i && s.applied[j].talentID == talent ensures ScoreFor(c, s.applied[j]) < os[i].b.score {
      assert os[j].id == talent;
    }
  }

  /**
   Every entry of the list shows, in full, the first applied of its talent's best accepted events, and
   as its rank 1 plus the number of talents with a better accepted event.
   */
  lemma FinalEntries(c: Config, s: State, n: int, i: nat)
    requires Settled(c, s) && i < |ListAfterRefresh(s, n)|
    ensures exists k: nat :: ShowsEvent(c, s, ListAfterRefresh(s, n)[i], k)
  {
    var b := s.board;
    BestIsFinal(c, s, "");
    RankedListingIsCompetition(b, s.bests);
    TopRanksAreExact(b, s.bests, n, CompetitionRanks(b.best), i);
    var id := Take(FullListing(b, s.bests), n)[i].talentID;
    forall t | t in b.best ensures -LOSSLESS <= b.best[t] <= LOSSLESS { BestIsFinal(c, s, t); }
    CompetitionRankIsExact(b.best, id);
    AboveAreAbove(c, s, b.best[id]);
    var k := RecordIsBestEvent(c, s, id);
    assert ShowsEvent(c, s, ListAfterRefresh(s, n)[i], k);
  }

  lemma ListedKey(c: Config, s: State, n: int, i: nat)
    requires Settled(c, s) && i < |ListAfterRefresh(s, n)|
    ensures i < |T.InOrder(s.board.tree)|
    ensures var id := ListAfterRefresh(s, n)[i].talentID;
            id in s.board.best && Key(s.board.best[id], id) == T.InOrder(s.board.tree)[i]
  {
    BestIsFinal(c, s, "");
    assert T.InOrder(s.board.tree)[i] in T.InOrder(s.board.tree);
  }

  /** Talent `a` with score `x` comes before `b` with `y`: by the score, or else by the first difference. */
  ghost predicate ComesBefore(a: string, x: int, b: string, y: int) {
    x > y || (x == y && exists i: nat :: SmallerAt(a, b, i))
  }

  /** The list is in leaderboard order. */
  lemma FinalOrder(c: Config, s: State, n: int, i: nat, j: nat)
    requires Settled(c, s) && i < j < |ListAfterRefresh(s, n)|
    ensures var a, b := ListAfterRefresh(s, n)[i].talentID, ListAfterRefresh(s, n)[j].talentID;
            && a in s.board.best && b in s.board.best
            && ComesBefore(a, s.board.best[a], b, s.board.best[b])
  {
    BestIsFinal(c, s, "");
    ListedKey(c, s, n, i);
    ListedKey(c, s, n, j);
    var keys := T.InOrder(s.board.tree);
    LessIff(keys[i], keys[j]);
  }

  ghost predicate IsListed(list: seq<Entry>, talent: string) {
    exists i :: 0 <= i < |list| && list[i].talentID == talent
  }

  /** A talent with an accepted event is on the list, or else the list is full of better ones. */
  lemma FinalRest(c: Config, s: State, n: nat, talent: string)
    requires Settled(c, s) && talent in AcceptedTalents(s)
    ensures var list := ListAfterRefresh(s, n);
            IsListed(list, talent) || (|list| == n && talent in s.board.best && forall i :: 0 <= i < n ==>
              && list[i].talentID in s.board.best
              && ComesBefore(list[i].talentID, s.board.best[list[i].talentID], talent, s.board.best[talent]))
  {
    var list, keys := ListAfterRefresh(s, n), T.InOrder(s.board.tree);
    BestIsFinal(c, s, talent);
    assert Key(s.board.best[talent], talent) in keys;
    var m :| 0 <= m < |keys| && keys[m] == Key(s.board.best[talent], talent);
    if m < |list| {
      ListedKey(c, s, n, m);
      assert list[m].talentID == talent;
    } else {
      forall i | 0 <= i < n
        ensures list[i].talentID in s.board.best
        ensures ComesBefore(list[i].talentID, s.board.best[list[i].talentID], talent, s.board.best[talent])
      {
        ListedKey(c, s, n, i);
        LessIff(keys[i], keys[m]);
      }
    }
  }

  // ---------- in numbers ----------

  /** The weight in force for the event's own skill. */
  function WeightOf(c: Config, e: Event): Float {
    if e.skill in c.weights then c.weights[e.skill] else c.defaultWeight
  }

  /** An event that scores `r` times `w` points, before they are clipped. */
  predicate Earns(c: Config, e: Event, r: real, w: real) {
    e.rawMetric == Finite(r) && WeightOf(c, e) == Finite(w)
  }

  /** A unit of the fixed-point scale: 10^-12 points. */
  const UNIT := 0.000000000001

  /**
   The score listed for a talent is, up to 0.53 units, the clipped product of metric and weight of the
   event shown, and no accepted event of the talent earned more, up to as much.
   */
  lemma FinalScoreInPoints(c: Config, s: State, n: int, i: nat, k: nat, r: real, w: real)
    requires Settled(c, s) && i < |ListAfterRefresh(s, n)| && ShowsEvent(c, s, ListAfterRefresh(s, n)[i], k)
    requires Earns(c, s.applied[k], r, w)
    ensures Abs(ListAfterRefresh(s, n)[i].score - Clipped(r * w)) <= 0.53 * UNIT
  {
    StoredScoreIsClose(r, w);
  }

  lemma NoneEarnedMore(c: Config, s: State, n: int, i: nat, e: Event, r: real, w: real)
    requires Settled(c, s) && i < |ListAfterRefresh(s, n)|
    requires e in s.accepted && e.talentID == ListAfterRefresh(s, n)[i].talentID && Earns(c, e, r, w)
    ensures ListAfterRefresh(s, n)[i].score >= Clipped(r * w) - 0.53 * UNIT
  {
    FinalEntries(c, s, n, i);
    var k: nat :| ShowsEvent(c, s, ListAfterRefresh(s, n)[i], k);
    StoredScoreIsClose(r, w);
    ToFloatIsMonotone(ScoreFor(c, e), ScoreFor(c, s.applied[k]));
  }
}
