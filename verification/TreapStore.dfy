/**
 The leaderboard store: the treap, the records by talent id that its nodes alias, and the
 published rank snapshot.
 */
module TreapStore {
  import opened Keys
  import opened Float64
  import opened FixedPoint
  import opened TieRanks
  import opened TreapNodes
  import opened Traversals
  import opened Leaderboard
  import opened Ranks
  import T = Treaps

  datatype Lookup = Found(entry: Entry) | NotFound

  datatype TopResult = Top(entries: seq<Entry>) | InvalidLimit

  /** The competition rank of every talent. */
  function CompetitionRanks(best: map<string, int>): map<string, int> {
    map id | id in best :: CompetitionRank(best, id)
  }

  function ScoresIn(bests: map<string, Best>): map<string, int> {
    map id | id in bests :: bests[id].score
  }

  lemma ScoresInUpdated(bests: map<string, Best>, id: string, b: Best)
    ensures ScoresIn(bests[id := b]) == ScoresIn(bests)[id := b.score]
  {
  }

  /** The leaderboard with all its metadata, not yet ranked. */
  function FullListing(b: Board, bests: map<string, Best>): seq<Entry> {
    Listing(T.InOrder(b.tree), bests)
  }

  lemma ListingShows(b: Board, bests: map<string, Best>)
    requires Consistent(b) && b.best == ScoresIn(bests)
    ensures Scores(FullListing(b, bests)) == Shown(T.InOrder(b.tree))
    ensures forall e :: e in FullListing(b, bests) ==> e.talentID in b.best && e.score == ToFloat(b.best[e.talentID])
    ensures forall id :: id in b.best ==>
              exists i :: 0 <= i < |FullListing(b, bests)| && FullListing(b, bests)[i].talentID == id
  {
    var s, es := T.InOrder(b.tree), FullListing(b, bests);
    forall i | 0 <= i < |s|
      ensures s[i].id in b.best && es[i].talentID == s[i].id
      ensures es[i].score == ToFloat(s[i].score) == ToFloat(b.best[s[i].id])
    {
      assert s[i] in s;
    }
    forall id | id in b.best ensures exists i :: 0 <= i < |es| && es[i].talentID == id {
      assert Key(b.best[id], id) in s;
      var i :| 0 <= i < |s| && s[i] == Key(b.best[id], id);
      assert es[i].talentID == id;
    }
  }

  /**
   Ranking any prefix of the listing, or all of it, gives every talent its competition rank over
   the whole store.
   */
  lemma RankedPrefixIsExact(b: Board, bests: map<string, Best>, n: int, i: nat)
    requires Consistent(b) && b.best == ScoresIn(bests)
    requires i < |Take(FullListing(b, bests), n)|
    ensures var es := Take(FullListing(b, bests), n);
            && es[i].talentID in b.best
            && Ranked(es)[i].rank == CompetitionRank(b.best, es[i].talentID)
  {
    var all := FullListing(b, bests);
    ListingShows(b, bests);
    assert all[i] in all && Take(all, n)[i] == all[i];
    ShownDescends(T.InOrder(b.tree));
    RankedPrefix(all, Shown(T.InOrder(b.tree)), n, i);
    AboveIsCompetitionRank(b, all[i].talentID);
  }

  lemma RankedPrefix(all: seq<Entry>, scores: seq<real>, n: int, i: nat)
    requires Scores(all) == scores && Descending(scores) && i < |Take(all, n)|
    ensures Ranked(Take(all, n))[i].rank == 1 + Above(scores, all[i].score)
  {
    var es := Take(all, n);
    PrefixRanksAreGlobal(scores, |es|, i);
    assert Scores(es) == scores[..|es|];
  }

  /** The ranks in a list of entries, by talent. */
  function RankMap(es: seq<Entry>): (m: map<string, int>)
    ensures forall id :: id in m <==> exists i :: 0 <= i < |es| && es[i].talentID == id
  {
    if es == [] then map[]
    else
      var last := |es| - 1;
      var m := RankMap(es[..last])[es[last].talentID := es[last].rank];
      assert forall i :: 0 <= i < |es| ==> i == last || es[i] == es[..last][i];
      m
  }

  lemma {:induction false} RankMapHolds(es: seq<Entry>, id: string)
    requires id in RankMap(es)
    ensures exists i :: 0 <= i < |es| && es[i].talentID == id && es[i].rank == RankMap(es)[id]
  {
    var last := |es| - 1;
    if id != es[last].talentID {
      RankMapHolds(es[..last], id);
      var i :| 0 <= i < last && es[..last][i].talentID == id && es[..last][i].rank == RankMap(es)[id];
      assert es[i] == es[..last][i];
    }
  }

  lemma RankMapNames(b: Board, bests: map<string, Best>, id: string)
    requires Consistent(b) && b.best == ScoresIn(bests)
    ensures id in RankMap(Ranked(FullListing(b, bests))) <==> id in b.best
  {
    var all := FullListing(b, bests);
    var ranked := Ranked(all);
    ListingShows(b, bests);
    if id in b.best {
      var i :| 0 <= i < |all| && all[i].talentID == id;
      assert ranked[i].talentID == id;
    }
    if id in RankMap(ranked) {
      var i :| 0 <= i < |ranked| && ranked[i].talentID == id;
      assert all[i] in all;
    }
  }

  lemma RankMapRanks(b: Board, bests: map<string, Best>, id: string)
    requires Consistent(b) && b.best == ScoresIn(bests) && id in b.best
    ensures id in RankMap(Ranked(FullListing(b, bests)))
    ensures RankMap(Ranked(FullListing(b, bests)))[id] == CompetitionRank(b.best, id)
  {
    var all := FullListing(b, bests);
    var ranked := Ranked(all);
    RankMapNames(b, bests, id);
    RankMapHolds(ranked, id);
    var i :| 0 <= i < |ranked| && ranked[i].talentID == id && ranked[i].rank == RankMap(ranked)[id];
    assert Take(all, |all|) == all;
    RankedPrefixIsExact(b, bests, |all|, i);
  }

  /** Ranking the full listing and keeping talent and rank is the competition ranking. */
  lemma RankedListingIsCompetition(b: Board, bests: map<string, Best>)
    requires Consistent(b) && b.best == ScoresIn(bests)
    ensures RankMap(Ranked(FullListing(b, bests))) == CompetitionRanks(b.best)
  {
    var m := RankMap(Ranked(FullListing(b, bests)));
    forall id ensures id in m <==> id in b.best { RankMapNames(b, bests, id); }
    forall id | id in b.best ensures id in m && m[id] == CompetitionRank(b.best, id) { RankMapRanks(b, bests, id); }
  }

  predicate AllPublished(es: seq<Entry>, snapshot: map<string, int>) {
    forall i :: 0 <= i < |es| ==> es[i].talentID in snapshot
  }

  /** The entries with their published ranks, if all have one, or else with fresh ones. */
  function WithRanks(es: seq<Entry>, snapshot: map<string, int>): seq<Entry> {
    if AllPublished(es, snapshot) then
      seq(|es|, i requires 0 <= i < |es| => es[i].(rank := snapshot[es[i].talentID]))
    else Ranked(es)
  }

  lemma RankedForgetsRanks(es: seq<Entry>, fs: seq<Entry>)
    requires |es| == |fs| && forall i :: 0 <= i < |es| ==> es[i].(rank := fs[i].rank) == fs[i]
    ensures Ranked(es) == Ranked(fs)
  {
    assert Scores(es) == Scores(fs);
  }

  /**
   Whenever the list is ranked afresh, because some talent on it is unpublished, or the published
   map is current, each entry carries its competition rank over the whole current store.
   */
  lemma TopRanksAreExact(b: Board, bests: map<string, Best>, n: int, snapshot: map<string, int>, i: nat)
    requires Consistent(b) && b.best == ScoresIn(bests)
    requires i < |Take(FullListing(b, bests), n)|
    requires snapshot == CompetitionRanks(b.best) || !AllPublished(Take(FullListing(b, bests), n), snapshot)
    ensures var es := Take(FullListing(b, bests), n);
            && es[i].talentID in b.best
            && es[i] == EntryFor(Key(b.best[es[i].talentID], es[i].talentID), bests)
            && WithRanks(es, snapshot)[i] == es[i].(rank := CompetitionRank(b.best, es[i].talentID))
  {
    RankedPrefixIsExact(b, bests, n, i);
    ListingShows(b, bests);
    assert FullListing(b, bests)[i] in FullListing(b, bests);
  }

  /** A talent's best data, ranked by the snapshot or else by the count on the tree. */
  function LookupOf(b: Board, bests: map<string, Best>, snapshot: map<string, int>, id: string): Lookup {
    if id !in b.best then NotFound
    else
      var rank := if id in snapshot then snapshot[id]
                  else Ranks.CalculateRank(b.tree, Key(ToFixedPoint(Finite(ToFloat(b.best[id]))), id));
      Found(EntryFor(Key(b.best[id], id), bests).(rank := rank))
  }

  /**
   Without a published rank, a talent is given the position of the score it is shown with, less the
   size of the left subtree below that key.
   */
  lemma FallbackLookup(b: Board, bests: map<string, Best>, snapshot: map<string, int>, id: string)
    requires Consistent(b) && id in b.best && id !in snapshot
    ensures var k := Key(ToFixedPoint(Finite(ToFloat(b.best[id]))), id);
            LookupOf(b, bests, snapshot, id).entry.rank == T.Below(T.InOrder(b.tree), k) + 1 - LeftOf(b.tree, k)
  {
    var k := Key(ToFixedPoint(Finite(ToFloat(b.best[id]))), id);
    CountHigherFallsShort(b.tree, k);
    assert Key(b.best[id], id) in T.InOrder(b.tree);
  }

  /**
   A score in the lossless range is found again on the tree.  Then the lookup reports what the next
   refresh will publish if and only if the errors of the count cancel out.
   */
  lemma FallbackIsPublishedIff(b: Board, bests: map<string, Best>, snapshot: map<string, int>, id: string)
    requires Consistent(b) && id in b.best && id !in snapshot && -LOSSLESS <= b.best[id] <= LOSSLESS
    ensures var k := Key(b.best[id], id);
            LookupOf(b, bests, snapshot, id).entry.rank == CompetitionRanks(b.best)[id]
            <==> LeftOf(b.tree, k) == TiedAhead(T.InOrder(b.tree), k)
  {
    RoundTrip(b.best[id]);
    CountedIsPublishedIff(b, id);
  }

  /**
   The list and the single lookup report the same entry for a listed talent, whatever the snapshot,
   if it names all listed talents, stale or not.  Otherwise the list is ranked afresh, and they agree
   on a published talent if and only if its published rank is current, and on an unpublished one,
   in the lossless range, if and only if the errors of the count cancel out.
   */
  lemma TopAgreesWithLookup(b: Board, bests: map<string, Best>, n: int, snapshot: map<string, int>, i: nat)
    requires Consistent(b) && b.best == ScoresIn(bests)
    requires i < |Take(FullListing(b, bests), n)|
    ensures var es := Take(FullListing(b, bests), n);
            var entry, id := WithRanks(es, snapshot)[i], es[i].talentID;
            var agree := LookupOf(b, bests, snapshot, id) == Found(entry);
            && entry.talentID == id && id in b.best
            && (AllPublished(es, snapshot) ==> agree)
            && (!AllPublished(es, snapshot) && id in snapshot ==>
                  (agree <==> snapshot[id] == CompetitionRank(b.best, id)))
            && (id !in snapshot && -LOSSLESS <= b.best[id] <= LOSSLESS ==>
                  (agree <==> var k := Key(b.best[id], id); LeftOf(b.tree, k) == TiedAhead(T.InOrder(b.tree), k)))
  {
    var es := Take(FullListing(b, bests), n);
    var id := es[i].talentID;
    ListedEntry(b, bests, n, i);
    if !AllPublished(es, snapshot) {
      TopRanksAreExact(b, bests, n, snapshot, i);
    }
    if id !in snapshot && -LOSSLESS <= b.best[id] <= LOSSLESS {
      FallbackIsPublishedIff(b, bests, snapshot, id);
    }
  }

  lemma ListedEntry(b: Board, bests: map<string, Best>, n: int, i: nat)
    requires Consistent(b) && b.best == ScoresIn(bests)
    requires i < |Take(FullListing(b, bests), n)|
    ensures var e := Take(FullListing(b, bests), n)[i];
            e.talentID in b.best && e == EntryFor(Key(b.best[e.talentID], e.talentID), bests)
  {
    ListingShows(b, bests);
    assert FullListing(b, bests)[i] in FullListing(b, bests);
  }

  class TreapStore {
    var root: Node?
    var byID: map<string, Record>
    var rankSnapshot: map<string, int>
    /** This object and every node and record it ever used. */
    ghost var Repr: set<object>

    ghost function Bests(): map<string, Best>
      reads this`byID, byID.Values
    {
      map id | id in byID :: Contents(byID[id])
    }

    /** The value of the store: its tree and every talent's best score. */
    ghost function Model(): Board
      reads this`root, this`byID, root, byID.Values
    {
      Board(TreeOf(root), ScoresIn(Bests()))
    }

    /** The tree is well linked, nodes alias their talents' records, and no record is shared. */
    ghost predicate Linked()
      reads this, root, ReprOf(root)
    {
      && ValidTree(root)
      && (forall m :: m in ReprOf(root) ==> m.id in byID && m.record == byID[m.id])
      && (forall i, j :: i in byID && j in byID && i != j ==> byID[i] != byID[j])
    }

    /** And the tree is a treap over exactly the talents' current best scores. */
    ghost predicate Valid()
      reads this, Repr
    {
      && this in Repr && (root != null ==> root in Repr) && ReprOf(root) <= Repr && byID.Values <= Repr
      && Linked() && Consistent(Model())
    }

    /**
     What validity says of every node: its score is that of the record it shares with its talent,
     although the record changes in place and the node does not; and each talent has one node.
     */
    lemma NodesAgreeWithRecords()
      requires Valid()
      ensures forall m :: m in ReprOf(root) ==>
                && m.id in byID && m.record == byID[m.id] && m.score == byID[m.id].score
                && m.prio == Priority(Key(m.score, m.id))
      ensures forall id :: id in byID ==> exists m :: m in ReprOf(root) && m.id == id
      ensures forall m, n :: m in ReprOf(root) && n in ReprOf(root) && m.id == n.id ==> m == n
    {
      forall m | m in ReprOf(root)
        ensures m.id in byID && m.score == byID[m.id].score && m.prio == Priority(Key(m.score, m.id))
      {
        NodeIsKey(root, m);
        assert Holds(Model().best, Key(m.score, m.id));
      }
      forall id | id in byID ensures exists m :: m in ReprOf(root) && m.id == id {
        assert Holds(Model().best, Key(byID[id].score, id));
        var m := KeyIsNode(root, Key(byID[id].score, id));
      }
      forall m, n | m in ReprOf(root) && n in ReprOf(root) && m.id == n.id ensures m == n {
        NodesDiffer(root, m, n);
      }
    }

    constructor ()
      ensures Valid() && Model() == EMPTY && rankSnapshot == map[]
      ensures fresh(Repr)
    {
      root, byID, rankSnapshot, Repr := null, map[], map[], {this};
    }

    /**
     Only a strictly better fixed-point score changes anything; then the talent's record is
     rewritten in place between the removal of its node and the insertion of a new one.
     */
    method UpdateBestWithMeta(talentID: string, score: Float, eventID: string, skill: string, rawMetric: Float)
      returns (updated: bool)
      requires Valid()
      modifies Repr
      ensures Valid() && fresh(Repr - old(Repr))
      ensures Model() == Improve(old(Model()), Update(talentID, ToFixedPoint(score)))
      ensures updated <==> !(talentID in old(Bests()) && ToFixedPoint(score) <= old(Bests())[talentID].score)
      ensures Bests() == if updated then old(Bests())[talentID := Best(ToFixedPoint(score), eventID, skill, rawMetric)]
                         else old(Bests())
      ensures rankSnapshot == old(rankSnapshot)
    {
      ghost var next := Improve(Model(), Update(talentID, ToFixedPoint(score)));
      ImproveKeepsConsistent(Model(), Update(talentID, ToFixedPoint(score)));
      updated := Apply(talentID, Best(ToFixedPoint(score), eventID, skill, rawMetric));
      Cover();
      assert Model() == next && Consistent(next);
    }

    ghost method Cover()
      requires Linked()
      modifies this`Repr
      ensures Repr == old(Repr) + ReprOf(root) + byID.Values
      ensures Linked() && Model() == old(Model()) && Bests() == old(Bests())
    {
      Repr := Repr + ReprOf(root) + byID.Values;
    }

    method Apply(talentID: string, b: Best) returns (updated: bool)
      requires Linked()
      modifies this`root, this`byID, ReprOf(root), byID.Values
      ensures Linked()
      ensures fresh(ReprOf(root) - old(ReprOf(root))) && fresh(byID.Values - old(byID.Values))
      ensures Model() == Improve(old(Model()), Update(talentID, b.score))
      ensures updated <==> !(talentID in old(Bests()) && b.score <= old(Bests())[talentID].score)
      ensures Bests() == if updated then old(Bests())[talentID := b] else old(Bests())
    {
      ScoresInUpdated(Bests(), talentID, b);
      if talentID in byID {
        if b.score <= byID[talentID].score {
          return false;
        }
        ReplaceBest(talentID, b);
      } else {
        AddTalent(talentID, b);
      }
      updated := true;
    }

    method ReplaceBest(talentID: string, b: Best)
      requires Linked() && talentID in byID
      modifies this`root, ReprOf(root), byID[talentID]
      ensures Linked() && fresh(ReprOf(root) - old(ReprOf(root)))
      ensures var rest := T.Delete(old(TreeOf(root)), Key(old(byID[talentID].score), talentID));
              TreeOf(root) == T.Insert(rest, Key(b.score, talentID))
      ensures Bests() == old(Bests())[talentID := b]
    {
      var rec := byID[talentID];
      TakeOut(talentID, rec.score);
      Rewrite(talentID, b);
      PutIn(talentID, b.score, rec);
    }

    /** The record changes in place, and since it is not shared no other talent's does. */
    method Rewrite(talentID: string, b: Best)
      requires Linked() && talentID in byID
      modifies byID[talentID]
      ensures Linked()
      ensures Bests() == old(Bests())[talentID := b]
    {
      var rec := byID[talentID];
      rec.score := b.score;
      rec.eventID := b.eventID;
      rec.skill := b.skill;
      rec.rawMetric := b.rawMetric;
    }

    method TakeOut(talentID: string, score: int)
      requires Linked()
      modifies this`root, ReprOf(root)
      ensures Linked() && ReprOf(root) <= old(ReprOf(root))
      ensures TreeOf(root) == T.Delete(old(TreeOf(root)), Key(score, talentID))
      ensures Bests() == old(Bests())
    {
      root := DeleteNode(root, talentID, score);
    }

    method PutIn(talentID: string, score: int, rec: Record)
      requires Linked() && talentID in byID && byID[talentID] == rec
      modifies this`root, ReprOf(root)
      ensures Linked() && fresh(ReprOf(root) - old(ReprOf(root)))
      ensures TreeOf(root) == T.Insert(old(TreeOf(root)), Key(score, talentID))
      ensures Bests() == old(Bests())
    {
      ghost var before := ReprOf(root);
      root := Insert(root, talentID, score, rec);
      BestsUnchanged();
      assert forall m :: m in ReprOf(root) - before ==> m.id == talentID && m.record == rec;
    }

    twostate lemma BestsUnchanged()
      requires byID == old(byID) && forall id :: id in byID ==> unchanged(byID[id])
      ensures Bests() == old(Bests())
    {
    }

    method AddTalent(talentID: string, b: Best)
      requires Linked() && talentID !in byID
      modifies this`root, this`byID, ReprOf(root)
      ensures Linked() && fresh(ReprOf(root) - old(ReprOf(root)))
      ensures TreeOf(root) == T.Insert(old(TreeOf(root)), Key(b.score, talentID))
      ensures talentID in byID && byID == old(byID)[talentID := byID[talentID]] && fresh(byID[talentID])
      ensures Bests() == old(Bests())[talentID := b]
    {
      Enlist(talentID, b);
      PutIn(talentID, b.score, byID[talentID]);
    }

    method Enlist(talentID: string, b: Best)
      requires Linked() && talentID !in byID
      modifies this`byID
      ensures Linked()
      ensures talentID in byID && byID == old(byID)[talentID := byID[talentID]] && fresh(byID[talentID])
      ensures Bests() == old(Bests())[talentID := b]
    {
      var newRecord := new Record(b.score, b.eventID, b.skill, b.rawMetric);
      byID := byID[talentID := newRecord];
    }

    lemma RecordsAreCarried()
      requires Linked()
      ensures Carries(root, Bests())
    {
    }

    method Count() returns (n: int)
      requires Valid()
      ensures n == |Model().best|
    {
      n := |byID|;
      assert Model().best.Keys == byID.Keys;
    }

    /**
     A talent's best score, with the rank last published for it, or else with the count the
     fallback makes on the current tree.
     */
    method Rank(talentID: string) returns (r: Lookup)
      requires Valid()
      ensures r.NotFound? <==> talentID !in byID
      ensures r.Found? ==>
                && r.entry.talentID == talentID && r.entry.score == ToFloat(byID[talentID].score)
                && r.entry.eventID == byID[talentID].eventID && r.entry.skill == byID[talentID].skill
                && r.entry.rawMetric == byID[talentID].rawMetric
                && (talentID in rankSnapshot ==> r.entry.rank == rankSnapshot[talentID])
      ensures r == LookupOf(Model(), Bests(), rankSnapshot, talentID)
    {
      if talentID !in byID {
        return NotFound;
      }
      var record := byID[talentID];
      var rank;
      if talentID in rankSnapshot {
        rank := rankSnapshot[talentID];
      } else {
        rank := Traversals.CalculateRank(root, talentID, ToFloat(record.score));
      }
      return Found(Entry(rank, talentID, ToFloat(record.score), record.eventID, record.skill, record.rawMetric));
    }

    /**
     The best `n` entries in leaderboard order.  They carry the published ranks if all of them have
     one, otherwise every one of them is ranked afresh.
     */
    method TopN(n: int) returns (r: TopResult)
      requires Valid()
      ensures r == if n < 1 then InvalidLimit else Top(WithRanks(Take(FullListing(Model(), Bests()), n), rankSnapshot))
    {
      if n < 1 {
        return InvalidLimit;
      }
      var items := CollectBest(n);
      var entries := AttachRanks(items);
      return Top(entries);
    }

    method CollectBest(n: int) returns (items: seq<Entry>)
      requires Valid()
      ensures items == Take(FullListing(Model(), Bests()), n)
    {
      ghost var b, bests := Model(), Bests();
      RecordsAreCarried();
      var slice := new EntrySlice();
      ghost var entered := CollectTopN(root, n, slice, bests);
      items := slice.items;
      assert items == Take(FullListing(b, bests), n);
    }

    method AttachRanks(items: seq<Entry>) returns (entries: seq<Entry>)
      ensures entries == WithRanks(items, rankSnapshot)
    {
      var out := new Entry[|items|](i requires 0 <= i < |items| => items[i]);
      assert out[..] == items;
      for i := 0 to out.Length
        invariant forall j :: 0 <= j < i ==>
          items[j].talentID in rankSnapshot && out[j] == items[j].(rank := rankSnapshot[items[j].talentID])
        invariant forall j :: i <= j < out.Length ==> out[j] == items[j]
      {
        if out[i].talentID in rankSnapshot {
          out[i] := out[i].(rank := rankSnapshot[out[i].talentID]);
        } else {
          RankedForgetsRanks(out[..], items);
          AssignRanksWithTies(out);
          return out[..];
        }
      }
      entries := out[..];
    }

    /** The first half of a snapshot, under the store's lock: all entries of this moment. */
    method CollectForSnapshot() returns (items: seq<Entry>)
      requires Valid()
      ensures items == FullListing(Model(), Bests())
    {
      var slice := new EntrySlice();
      RecordsAreCarried();
      CollectAllEntries(root, slice, Bests());
      items := slice.items;
    }

    /** The second half, without that lock: rank what was collected, then swap the map in. */
    method PublishSnapshot(items: seq<Entry>)
      modifies this`rankSnapshot
      ensures rankSnapshot == RankMap(Ranked(items))
    {
      var entries := new Entry[|items|](i requires 0 <= i < |items| => items[i]);
      assert entries[..] == items;
      AssignRanksWithTies(entries);
      var newSnapshot := map[];
      for i := 0 to entries.Length
        invariant newSnapshot == RankMap(entries[..i])
      {
        assert entries[..i + 1][..i] == entries[..i];
        newSnapshot := newSnapshot[entries[i].talentID := entries[i].rank];
      }
      assert entries[..entries.Length] == entries[..];
      rankSnapshot := newSnapshot;
    }

    lemma RankedNow(items: seq<Entry>)
      requires Valid() && items == FullListing(Model(), Bests())
      ensures RankMap(Ranked(items)) == CompetitionRanks(Model().best)
    {
      RankedListingIsCompetition(Model(), Bests());
    }

    /** With no update in between, the published map is the exact competition ranking. */
    method UpdateRankSnapshot()
      requires Valid()
      modifies this`rankSnapshot
      ensures rankSnapshot == CompetitionRanks(Model().best)
    {
      var items := CollectForSnapshot();
      RankedNow(items);
      PublishSnapshot(items);
    }
  }
}
