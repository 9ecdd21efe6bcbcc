/**
 Three notions of rank and how they relate: the count the store's fallback makes, the position in
 leaderboard order, and the competition rank that ties share.
 */
module Ranks {
  import opened Keys
  import opened Treaps
  import opened Shapes
  import opened Leaderboard
  import opened FixedPoint

  // ---------- the counting traversal ----------

  /** The traversal stops at the target itself and so never sees the target's left subtree. */
  function CountHigher(t: Tree, k: Key): nat {
    if t.Leaf? then 0
    else if Less(t.key, k) then 1 + CountHigher(t.left, k) + CountHigher(t.right, k)
    else if Less(k, t.key) then CountHigher(t.left, k)
    else 0
  }

  function CalculateRank(t: Tree, k: Key): nat {
    if t.Leaf? then 0 else 1 + CountHigher(t, k)
  }

  /** The traversal that goes on into the left subtree of the target. */
  function CountHigherFully(t: Tree, k: Key): nat {
    if t.Leaf? then 0
    else if Less(t.key, k) then 1 + CountHigherFully(t.left, k) + CountHigherFully(t.right, k)
    else CountHigherFully(t.left, k)
  }

  /** The size of the left subtree of the node holding `k`; 0 when there is none. */
  function LeftOf(t: Tree, k: Key): nat {
    if t.Leaf? then 0
    else if k == t.key then Size(t.left)
    else if Less(k, t.key) then LeftOf(t.left, k)
    else LeftOf(t.right, k)
  }

  lemma {:induction false} NothingLeftOfAbsent(t: Tree, k: Key)
    requires k !in InOrder(t)
    ensures LeftOf(t, k) == 0
  {
    if t.Node? {
      assert InOrder(t)[Size(t.left)] == t.key;
      NothingLeftOfAbsent(t.left, k);
      NothingLeftOfAbsent(t.right, k);
    }
  }

  /** What the traversal counts falls short of the position by the target's left subtree. */
  lemma {:induction false} CountHigherFallsShort(t: Tree, k: Key)
    requires Sorted(InOrder(t))
    ensures CountHigher(t, k) + LeftOf(t, k) == Below(InOrder(t), k)
    ensures CountHigherFully(t, k) == Below(InOrder(t), k)
  {
    if t.Node? {
      var a, b := InOrder(t.left), InOrder(t.right);
      SortedJoin(a, t.key, b);
      BelowJoin(a, t.key, b, k);
      LessTotal(t.key, k);
      CountHigherFallsShort(t.left, k);
      CountHigherFallsShort(t.right, k);
      if Less(t.key, k) {
        AllBeforeGreater(a, t.key, k);
        NothingLeftOfAbsent(t.left, k);
      } else if k == t.key {
        BelowEnds(a, k);
        AllBeforeGreater(a, k, k);
        NothingLeftOfAbsent(t.left, k);
      }
    }
  }

  lemma AllBeforeGreater(a: seq<Key>, m: Key, k: Key)
    requires AllBefore(a, m) && (m == k || Less(m, k))
    ensures AllBefore(a, k) && Below(a, k) == |a| && k !in a
  {
    forall i | 0 <= i < |a| ensures Less(a[i], k) && a[i] != k {
      if m != k { LessTransitive(a[i], m, k); }
      LessTotal(a[i], k);
    }
    BelowEnds(a, k);
  }

  /**
   The rank of a present key as the store computes it is its position less the size of its left
   subtree: always between 1 and the number of talents, and the position if and only if the
   target's node has no left child.  Descending left at the target gives the position throughout.
   */
  lemma RankAsWritten(t: Tree, k: Key)
    requires IsTreap(t) && k in InOrder(t)
    ensures Below(InOrder(t), k) < Size(t) && InOrder(t)[Below(InOrder(t), k)] == k
    ensures CalculateRank(t, k) == Below(InOrder(t), k) + 1 - LeftOf(t, k)
    ensures 1 <= CalculateRank(t, k) <= Size(t)
    ensures CalculateRank(t, k) == Below(InOrder(t), k) + 1 <==> LeftOf(t, k) == 0
    ensures 1 + CountHigherFully(t, k) == Below(InOrder(t), k) + 1
  {
    CountHigherFallsShort(t, k);
    BelowSplitsSorted(InOrder(t), k);
  }

  /** A key's left subtree is empty when its predecessor stands above it, and only then. */
  lemma {:induction false} LeftOfByPriority(t: Tree, j: nat)
    requires IsTreap(t) && j < Size(t)
    ensures var s := InOrder(t);
            && (j == 0 || Priority(s[j - 1]) > Priority(s[j]) ==> LeftOf(t, s[j]) == 0)
            && (j > 0 && Priority(s[j - 1]) < Priority(s[j]) ==> LeftOf(t, s[j]) > 0)
  {
    var s, l := InOrder(t), Size(t.left);
    SubtreesAreTreaps(t);
    SlicesOfNode(t);
    if j < l {
      LeftOfByPriority(t.left, j);
      assert s[j] == InOrder(t.left)[j] && (j > 0 ==> s[j - 1] == InOrder(t.left)[j - 1]);
      LessTotal(s[j], t.key);
    } else if j > l {
      var i := j - l - 1;
      LeftOfByPriority(t.right, i);
      assert s[j] == InOrder(t.right)[i] && (i > 0 ==> s[j - 1] == InOrder(t.right)[i - 1]);
      LessTotal(s[j], t.key);
      assert s[j] in InOrder(t.right);
      PriorityAtMostTop(t.right, s[j]);
    } else if j > 0 {
      assert s[j - 1] == InOrder(t.left)[j - 1] && s[j - 1] in InOrder(t.left);
      PriorityAtMostTop(t.left, s[j - 1]);
    }
  }

  /**
   Where a key and its predecessor on the leaderboard differ in priority, as they do when priorities
   are separated, the counted rank is the position if and only if the predecessor's is the greater.
   */
  lemma CountedRankIsRightIff(t: Tree, j: nat)
    requires IsTreap(t) && j < Size(t)
    requires j > 0 ==> Priority(InOrder(t)[j - 1]) != Priority(InOrder(t)[j])
    ensures var s := InOrder(t);
            CalculateRank(t, s[j]) == j + 1 <==> j == 0 || Priority(s[j - 1]) > Priority(s[j])
  {
    var s := InOrder(t);
    assert s[j] in s;
    RankAsWritten(t, s[j]);
    LessTotal(s[j], s[Below(s, s[j])]);
    LeftOfByPriority(t, j);
  }

  /** Where priorities are separated that settles every rank. */
  lemma CountedRanksWhenSeparated(t: Tree, j: nat)
    requires IsTreap(t) && j < Size(t) && Separated(Priorities(InOrder(t)))
    ensures var s := InOrder(t);
            CalculateRank(t, s[j]) == j + 1 <==> j == 0 || Priority(s[j - 1]) > Priority(s[j])
  {
    var s := InOrder(t);
    var p := Priorities(s);
    if j > 0 {
      NeighboursDiffer(p, j);
      assert p[j - 1] == Priority(s[j - 1]) && p[j] == Priority(s[j]);
    }
    CountedRankIsRightIff(t, j);
  }

  // ---------- competition ranks ----------

  /** How many of the scores exceed `x`. */
  function Above(scores: seq<real>, x: real): nat {
    if scores == [] then 0
    else (if scores[0] > x then 1 else 0) + Above(scores[1..], x)
  }

  function Shown(s: seq<Key>): (scores: seq<real>)
    ensures |scores| == |s|
    ensures forall i :: 0 <= i < |s| ==> scores[i] == ToFloat(s[i].score)
  {
    seq(|s|, i requires 0 <= i < |s| => ToFloat(s[i].score))
  }

  /** 1 plus the number of talents shown with a higher score. */
  function CompetitionRank(best: map<string, int>, id: string): nat
    requires id in best
  {
    1 + |set j | j in best && ToFloat(best[j]) > ToFloat(best[id])|
  }

  /** While scores stay in the lossless range, being shown higher is being higher. */
  lemma CompetitionRankIsExact(best: map<string, int>, id: string)
    requires id in best
    requires forall j :: j in best ==> -LOSSLESS <= best[j] <= LOSSLESS
    ensures CompetitionRank(best, id) == 1 + |set j | j in best && best[j] > best[id]|
  {
    forall j | j in best ensures ToFloat(best[j]) > ToFloat(best[id]) <==> best[j] > best[id] {
      ToFloatIsStrict(best[id], best[j]);
    }
    assert (set j | j in best && ToFloat(best[j]) > ToFloat(best[id])) == (set j | j in best && best[j] > best[id]);
  }

  lemma {:induction false} AboveConcat(a: seq<real>, b: seq<real>, x: real)
    ensures Above(a + b, x) == Above(a, x) + Above(b, x)
  {
    if a == [] {
      assert a + b == b;
    } else {
      assert (a + b)[1..] == a[1..] + b;
      AboveConcat(a[1..], b, x);
    }
  }

  lemma {:induction false} NoneAbove(a: seq<real>, x: real)
    requires forall i :: 0 <= i < |a| ==> a[i] <= x
    ensures Above(a, x) == 0
  {
    if a != [] { NoneAbove(a[1..], x); }
  }

  ghost predicate Descending(a: seq<real>) {
    forall i, j :: 0 <= i < j < |a| ==> a[i] >= a[j]
  }

  lemma ShownDescends(s: seq<Key>)
    requires Sorted(s)
    ensures Descending(Shown(s))
  {
    forall i, j | 0 <= i < j < |s| ensures Shown(s)[i] >= Shown(s)[j] {
      assert Less(s[i], s[j]);
      ToFloatIsMonotone(s[j].score, s[i].score);
    }
  }

  /** Ranking a prefix of the leaderboard on its own gives the ranks of the whole leaderboard. */
  lemma PrefixRanksAreGlobal(scores: seq<real>, n: nat, i: nat)
    requires Descending(scores) && i < n <= |scores|
    ensures Above(scores[..n], scores[i]) == Above(scores, scores[i])
  {
    assert scores == scores[..n] + scores[n..];
    AboveConcat(scores[..n], scores[n..], scores[i]);
    NoneAbove(scores[n..], scores[i]);
  }

  /** The ids of the keys shown with a score above `x`. */
  ghost function IdsAbove(s: seq<Key>, x: real): set<string> {
    set i | 0 <= i < |s| && ToFloat(s[i].score) > x :: s[i].id
  }

  lemma IdsAboveStep(s: seq<Key>, x: real)
    requires DistinctIds(s) && s != []
    ensures s[0].id !in IdsAbove(s[1..], x)
    ensures IdsAbove(s, x) == (if ToFloat(s[0].score) > x then {s[0].id} else {}) + IdsAbove(s[1..], x)
  {
    var rest := s[1..];
    forall id ensures id in IdsAbove(s, x) <==> (ToFloat(s[0].score) > x && id == s[0].id) || id in IdsAbove(rest, x) {
      if id in IdsAbove(rest, x) {
        var i :| 0 <= i < |rest| && ToFloat(rest[i].score) > x && rest[i].id == id;
        assert s[i + 1] == rest[i];
      }
      if id in IdsAbove(s, x) {
        var i :| 0 <= i < |s| && ToFloat(s[i].score) > x && s[i].id == id;
        if i > 0 { assert rest[i - 1] == s[i]; }
      }
    }
  }

  lemma {:induction false} AboveCountsIds(s: seq<Key>, x: real)
    requires DistinctIds(s)
    ensures Above(Shown(s), x) == |IdsAbove(s, x)|
  {
    if s != [] {
      AboveCountsIds(s[1..], x);
      assert Shown(s)[1..] == Shown(s[1..]);
      IdsAboveStep(s, x);
    }
  }

  lemma ConsistentHasDistinctIds(b: Board)
    requires Consistent(b)
    ensures DistinctIds(InOrder(b.tree))
  {
    var s := InOrder(b.tree);
    forall i, j | 0 <= i < j < |s| ensures s[i].id != s[j].id {
      LessTotal(s[i], s[j]);
      assert s[i] in s && s[j] in s;
    }
  }

  /** Counting along the leaderboard gives the competition rank of every talent. */
  lemma AboveIsCompetitionRank(b: Board, id: string)
    requires Consistent(b) && id in b.best
    ensures 1 + Above(Shown(InOrder(b.tree)), ToFloat(b.best[id])) == CompetitionRank(b.best, id)
  {
    var s, x := InOrder(b.tree), ToFloat(b.best[id]);
    ConsistentHasDistinctIds(b);
    AboveCountsIds(s, x);
    forall j ensures j in IdsAbove(s, x) <==> j in b.best && ToFloat(b.best[j]) > x {
      if j in b.best {
        assert Key(b.best[j], j) in s;
        var i :| 0 <= i < |s| && s[i] == Key(b.best[j], j);
      }
      if j in IdsAbove(s, x) {
        var i :| 0 <= i < |s| && ToFloat(s[i].score) > x && s[i].id == j;
        assert s[i] in s;
      }
    }
    assert IdsAbove(s, x) == set j | j in b.best && ToFloat(b.best[j]) > x;
  }

  // ---------- position against competition rank ----------

  /** How many of the keys come before `k` although they are shown with the same score. */
  function TiedAhead(s: seq<Key>, k: Key): nat {
    if s == [] then 0
    else (if Less(s[0], k) && ToFloat(s[0].score) == ToFloat(k.score) then 1 else 0) + TiedAhead(s[1..], k)
  }

  /** Whatever comes before `k` is shown higher or tied, and whatever is shown higher comes before. */
  lemma {:induction false} PositionCountsTies(s: seq<Key>, k: Key)
    ensures Below(s, k) == Above(Shown(s), ToFloat(k.score)) + TiedAhead(s, k)
  {
    if s != [] {
      PositionCountsTies(s[1..], k);
      assert Shown(s)[1..] == Shown(s[1..]);
      if s[0].score <= k.score { ToFloatIsMonotone(s[0].score, k.score); }
      if s[0].score >= k.score { ToFloatIsMonotone(k.score, s[0].score); }
    }
  }

  lemma {:induction false} NoneTiedAhead(s: seq<Key>, k: Key)
    ensures TiedAhead(s, k) == 0
       <==> forall x :: x in s && ToFloat(x.score) == ToFloat(k.score) ==> !Less(x, k)
  {
    if s != [] {
      NoneTiedAhead(s[1..], k);
      assert forall x :: x in s <==> x == s[0] || x in s[1..];
    }
  }

  /** A talent's position is its competition rank plus the talents tied with it but ahead of it. */
  lemma PositionAgainstRank(b: Board, id: string)
    requires Consistent(b) && id in b.best
    ensures var s, k := InOrder(b.tree), Key(b.best[id], id);
            && Below(s, k) + 1 == CompetitionRank(b.best, id) + TiedAhead(s, k)
            && (Below(s, k) + 1 == CompetitionRank(b.best, id) <==>
                forall j :: j in b.best && ToFloat(b.best[j]) == ToFloat(b.best[id]) ==> !Less(Key(b.best[j], j), k))
  {
    var s, k := InOrder(b.tree), Key(b.best[id], id);
    PositionCountsTies(s, k);
    NoneTiedAhead(s, k);
    AboveIsCompetitionRank(b, id);
    forall j | j in b.best ensures Key(b.best[j], j) in s {
      assert Holds(b.best, Key(b.best[j], j));
    }
  }

  /** In the lossless range those are the talents with the same score and a smaller id. */
  lemma PositionIsRankIff(b: Board, id: string)
    requires Consistent(b) && id in b.best
    requires forall j :: j in b.best ==> -LOSSLESS <= b.best[j] <= LOSSLESS
    ensures Below(InOrder(b.tree), Key(b.best[id], id)) + 1 == CompetitionRank(b.best, id)
       <==> forall j :: j in b.best && b.best[j] == b.best[id] ==> !LexLess(j, id)
  {
    PositionAgainstRank(b, id);
    forall j | j in b.best ensures ToFloat(b.best[j]) == ToFloat(b.best[id]) <==> b.best[j] == b.best[id] {
      ToFloatIsStrict(b.best[j], b.best[id]);
    }
  }

  /**
   The rank the store counts and the competition rank a refresh would publish differ by two errors
   of opposite sign: they agree if and only if the target's left subtree is as large as the number
   of talents tied ahead of it.
   */
  lemma CountedIsPublishedIff(b: Board, id: string)
    requires Consistent(b) && id in b.best
    ensures var s, k := InOrder(b.tree), Key(b.best[id], id);
            && CalculateRank(b.tree, k) + LeftOf(b.tree, k) == CompetitionRank(b.best, id) + TiedAhead(s, k)
            && (CalculateRank(b.tree, k) == CompetitionRank(b.best, id) <==> LeftOf(b.tree, k) == TiedAhead(s, k))
  {
    assert Key(b.best[id], id) in InOrder(b.tree);
    RankAsWritten(b.tree, Key(b.best[id], id));
    PositionAgainstRank(b, id);
  }

  // ---------- where the fallback goes wrong ----------

  lemma HashOfOne(score: int, id: string)
    requires |id| == 1
    ensures Priority(Key(score, id))
         == var h := Wrap64(score * MULTIPLIER + ADDEND + id[0] as int); if h < 0 then -h else h
  {
    assert id[..0] == [];
    assert IdPolynomial(id) == id[0] as int;
  }

  /**
   Scores 0.010 and 0.008: the hash of the higher score wraps, the lower one becomes the root, and
   the second best talent is given rank 1.
   */
  lemma FallbackRankCanBeWrong()
    ensures var b := Replay(EMPTY, [Update("a", 8_000_000_000), Update("b", 10_000_000_000)]);
            && CalculateRank(b.tree, Key(8_000_000_000, "a")) == 1
            && Below(InOrder(b.tree), Key(8_000_000_000, "a")) + 1 == 2
            && CompetitionRank(b.best, "a") == 2
  {
    var lo, hi := Key(8_000_000_000, "a"), Key(10_000_000_000, "b");
    HashOfOne(lo.score, lo.id);
    HashOfOne(hi.score, hi.id);
    assert Priority(lo) == 8828121960000012442;
    assert Priority(hi) == 7411591623709539173;
    var us := [Update("a", lo.score), Update("b", hi.score)];
    ReplayTwo(EMPTY, us[0], us[1]);
    var low := Node(Leaf, lo, Priority(lo), Leaf);
    assert Improve(EMPTY, us[0]) == Board(low, map["a" := lo.score]);
    var b := Replay(EMPTY, us);
    assert b.tree == low.(left := Node(Leaf, hi, Priority(hi), Leaf));
    assert InOrder(b.tree) == [hi, lo];
    assert [hi, lo][1..] == [lo] && [lo][1..] == [];
    CompetitionRankIsExact(b.best, "a");
    assert (set j | j in b.best && b.best[j] > b.best["a"]) == {"b"};
  }
}
