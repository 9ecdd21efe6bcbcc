/**
 Assigning competition ranks to a slice of entries in any order: group by score, sort the distinct
 scores by exchanges, hand every group the rank after all better entries.
 */
module TieRanks {
  import opened Float64
  import opened Ranks

  datatype Entry = Entry(rank: int, talentID: string, score: real, eventID: string, skill: string, rawMetric: Float)

  function Scores(es: seq<Entry>): (scores: seq<real>)
    ensures |scores| == |es|
    ensures forall i :: 0 <= i < |es| ==> scores[i] == es[i].score
  {
    seq(|es|, i requires 0 <= i < |es| => es[i].score)
  }

  /** The entries with nothing but their ranks replaced by competition ranks. */
  function Ranked(es: seq<Entry>): (r: seq<Entry>)
    ensures |r| == |es|
    ensures forall i :: 0 <= i < |es| ==> r[i] == es[i].(rank := 1 + Above(Scores(es), es[i].score))
  {
    seq(|es|, i requires 0 <= i < |es| => es[i].(rank := 1 + Above(Scores(es), es[i].score)))
  }

  function Equal(scores: seq<real>, x: real): nat {
    if scores == [] then 0
    else (if scores[0] == x then 1 else 0) + Equal(scores[1..], x)
  }

  lemma {:induction false} EqualConcat(a: seq<real>, b: seq<real>, x: real)
    ensures Equal(a + b, x) == Equal(a, x) + Equal(b, x)
  {
    if a == [] {
      assert a + b == b;
    } else {
      assert (a + b)[1..] == a[1..] + b;
      EqualConcat(a[1..], b, x);
    }
  }

  lemma {:induction false} NoneEqual(a: seq<real>, x: real)
    requires x !in a
    ensures Equal(a, x) == 0
  {
    if a != [] { NoneEqual(a[1..], x); }
  }

  /** When `x` is the next score above `y`, the entries above `y` are those above or at `x`. */
  lemma {:induction false} AboveNext(scores: seq<real>, x: real, y: real)
    requires forall i :: 0 <= i < |scores| ==> (scores[i] > y <==> scores[i] >= x)
    ensures Above(scores, y) == Above(scores, x) + Equal(scores, x)
  {
    if scores != [] { AboveNext(scores[1..], x, y); }
  }

  /** `group` lists, without omission, the positions among the first entries holding `x`. */
  ghost predicate IsGroup(scores: seq<real>, x: real, group: seq<nat>) {
    && |group| == Equal(scores, x)
    && (forall j :: j in group ==> j < |scores| && scores[j] == x)
    && (forall j :: 0 <= j < |scores| && scores[j] == x ==> j in group)
  }

  ghost predicate AreGroups(scores: seq<real>, groups: map<real, seq<nat>>) {
    && (forall x :: x in groups <==> x in scores)
    && (forall x :: x in groups ==> IsGroup(scores, x, groups[x]))
  }

  lemma GroupGrows(scores: seq<real>, x: real, groups: map<real, seq<nat>>)
    requires AreGroups(scores, groups)
    ensures AreGroups(scores + [x], groups[x := (if x in groups then groups[x] else []) + [|scores|]])
  {
    var more := scores + [x];
    var group := (if x in groups then groups[x] else []) + [|scores|];
    forall y ensures Equal(more, y) == Equal(scores, y) + if y == x then 1 else 0 {
      EqualConcat(scores, [x], y);
      assert [x][1..] == [];
    }
    if x !in groups { NoneEqual(scores, x); }
    assert IsGroup(more, x, group);
    forall y | y in groups && y != x ensures IsGroup(more, y, groups[y]) {
      assert IsGroup(scores, y, groups[y]);
    }
  }

  method GroupByScore(entries: array<Entry>) returns (groups: map<real, seq<nat>>)
    ensures AreGroups(Scores(entries[..]), groups)
  {
    groups := map[];
    for i := 0 to entries.Length
      invariant AreGroups(Scores(entries[..i]), groups)
    {
      var x := entries[i].score;
      GroupGrows(Scores(entries[..i]), x, groups);
      assert Scores(entries[..i + 1]) == Scores(entries[..i]) + [x];
      groups := groups[x := (if x in groups then groups[x] else []) + [i]];
    }
    assert entries[..entries.Length] == entries[..];
  }

  ghost predicate Distinct(a: seq<real>) {
    forall i, j :: 0 <= i < j < |a| ==> a[i] != a[j]
  }

  /** The keys of the map in whatever order the iteration yields them. */
  method KeysInAnyOrder(groups: map<real, seq<nat>>) returns (keys: array<real>)
    ensures fresh(keys) && Distinct(keys[..])
    ensures forall x :: x in keys[..] <==> x in groups
  {
    var pending, out := groups.Items, [];
    while pending != {}
      invariant Distinct(out)
      invariant pending <= groups.Items
      invariant forall x :: x in out ==> x in groups
      invariant forall x :: x in groups ==> (x in out <==> (x, groups[x]) !in pending)
      decreases pending
    {
      var item :| item in pending;
      pending, out := pending - {item}, out + [item.0];
    }
    keys := new real[|out|](i requires 0 <= i < |out| => out[i]);
    assert keys[..] == out;
  }

  /** The exchange sort: each pass moves the greatest remaining score to its place. */
  method SortDescending(a: array<real>)
    requires Distinct(a[..])
    modifies a
    ensures Distinct(a[..]) && Descending(a[..])
    ensures multiset(a[..]) == multiset(old(a[..]))
  {
    for i := 0 to a.Length
      invariant Distinct(a[..]) && multiset(a[..]) == multiset(old(a[..]))
      invariant DescendingUpTo(a[..], i)
    {
      BringGreatest(a, i);
    }
  }

  ghost predicate DescendingUpTo(a: seq<real>, i: nat) {
    forall p, q :: 0 <= p < i && p < q < |a| ==> a[p] >= a[q]
  }

  /** One pass of exchanges behind position `i`. */
  method BringGreatest(a: array<real>, i: nat)
    requires i < a.Length && Distinct(a[..]) && DescendingUpTo(a[..], i)
    modifies a
    ensures Distinct(a[..]) && DescendingUpTo(a[..], i + 1)
    ensures multiset(a[..]) == multiset(old(a[..]))
  {
    for j := i + 1 to a.Length
      invariant Distinct(a[..]) && multiset(a[..]) == multiset(old(a[..]))
      invariant DescendingUpTo(a[..], i)
      invariant forall q :: i < q < j ==> a[i] >= a[q]
    {
      if a[i] < a[j] {
        ExchangeKeepsFront(a[..], i, j);
        Exchange(a, i, j);
      }
    }
  }

  lemma ExchangeKeepsFront(s: seq<real>, i: nat, j: nat)
    requires i < j < |s| && DescendingUpTo(s, i)
    ensures DescendingUpTo(s[i := s[j]][j := s[i]], i)
  {
  }

  method Exchange(a: array<real>, i: nat, j: nat)
    requires i < j < a.Length && Distinct(a[..])
    modifies a
    ensures a[..] == old(a[..])[i := old(a[j])][j := old(a[i])]
    ensures Distinct(a[..]) && multiset(a[..]) == multiset(old(a[..]))
  {
    a[i], a[j] := a[j], a[i];
  }

  ghost predicate RankedUpTo(entries: seq<Entry>, es: seq<Entry>, done: seq<real>) {
    && |entries| == |es|
    && forall i :: 0 <= i < |es| ==> entries[i] == if es[i].score in done then Ranked(es)[i] else es[i]
  }

  method RankGroup(
    entries: array<Entry>, group: seq<nat>, x: real, rank: int, ghost es: seq<Entry>, ghost done: seq<real>)
    requires RankedUpTo(entries[..], es, done)
    requires IsGroup(Scores(es), x, group) && rank == 1 + Above(Scores(es), x)
    modifies entries
    ensures RankedUpTo(entries[..], es, done + [x])
  {
    for n := 0 to |group|
      invariant |es| == entries.Length
      invariant forall i :: 0 <= i < |es| ==>
        entries[i] == if es[i].score in done || i in group[..n] then Ranked(es)[i] else es[i]
    {
      var idx := group[n];
      assert idx in group;
      assert es[idx].score == x;
      entries[idx] := entries[idx].(rank := rank);
    }
  }

  /**
   Every entry, in whatever order they come, ends with rank 1 plus the number of entries of higher
   score; nothing else about any entry changes.
   */
  method AssignRanksWithTies(entries: array<Entry>)
    modifies entries
    ensures entries[..] == Ranked(old(entries[..]))
  {
    if entries.Length == 0 { return; }
    ghost var es := entries[..];
    ghost var all := Scores(es);
    var groups := GroupByScore(entries);
    var scores := KeysInAnyOrder(groups);
    SortDescending(scores);
    assert forall x :: x in scores[..] <==> x in groups by {
      assert forall x :: x in scores[..] <==> x in multiset(scores[..]);
    }
    ghost var sorted := scores[..];
    var currentRank := 1;
    if scores.Length > 0 {
      forall i | 0 <= i < |all| ensures all[i] <= sorted[0] {
        assert all[i] in sorted;
      }
      NoneAbove(all, sorted[0]);
    }
    for g := 0 to scores.Length
      invariant scores[..] == sorted
      invariant RankedUpTo(entries[..], es, sorted[..g])
      invariant g < |sorted| ==> currentRank == 1 + Above(all, sorted[g])
    {
      var group := groups[scores[g]];
      assert IsGroup(all, scores[g], group);
      RankGroup(entries, group, scores[g], currentRank, es, sorted[..g]);
      assert sorted[..g + 1] == sorted[..g] + [sorted[g]];
      if g + 1 < |sorted| {
        NextScore(sorted, g, all);
        AboveNext(all, sorted[g], sorted[g + 1]);
      }
      currentRank := currentRank + |group|;
    }
    forall i | 0 <= i < |es| ensures es[i].score in sorted[..scores.Length] {
      assert all[i] in all && all[i] in sorted;
    }
  }

  lemma NextScore(sorted: seq<real>, g: nat, all: seq<real>)
    requires Distinct(sorted) && Descending(sorted) && g + 1 < |sorted|
    requires forall x :: x in all <==> x in sorted
    ensures forall m :: 0 <= m < |all| ==> (all[m] > sorted[g + 1] <==> all[m] >= sorted[g])
  {
    forall m | 0 <= m < |all| ensures all[m] > sorted[g + 1] <==> all[m] >= sorted[g] {
      assert all[m] in all;
      var i :| 0 <= i < |sorted| && sorted[i] == all[m];
    }
  }
}
