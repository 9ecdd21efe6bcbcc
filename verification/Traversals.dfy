/**
 The read-only walks over the node structure: the first entries of the leaderboard, all of them,
 and the count behind a single rank.
 */
module Traversals {
  import opened Keys
  import opened Sequences
  import opened Float64
  import opened FixedPoint
  import opened TieRanks
  import opened TreapNodes
  import Ranks
  import T = Treaps

  /** The contents of a record. */
  datatype Best = Best(score: int, eventID: string, skill: string, rawMetric: Float)

  function Contents(r: Record): Best
    reads r
  {
    Best(r.score, r.eventID, r.skill, r.rawMetric)
  }

  /** The unranked entry for a key, given what the records of all talents contain. */
  function EntryFor(k: Key, bests: map<string, Best>): Entry {
    if k.id in bests then
      var b := bests[k.id];
      Entry(0, k.id, ToFloat(b.score), b.eventID, b.skill, b.rawMetric)
    else Entry(0, k.id, 0.0, "", "", NaN)
  }

  function Listing(s: seq<Key>, bests: map<string, Best>): (es: seq<Entry>)
    ensures |es| == |s|
    ensures forall i :: 0 <= i < |s| ==> es[i] == EntryFor(s[i], bests)
  {
    seq(|s|, i requires 0 <= i < |s| => EntryFor(s[i], bests))
  }

  /** The nodes below `n` carry the records described by `bests`. */
  ghost predicate Carries(n: Node?, bests: map<string, Best>)
    reads n, ReprOf(n), set m | m in ReprOf(n) :: m.record
  {
    forall m :: m in ReprOf(n) ==> m.id in bests && Contents(m.record) == bests[m.id]
  }

  /** The first `n` elements, or all when there are fewer. */
  function Take<X>(s: seq<X>, n: int): seq<X> {
    if n <= 0 then [] else if n < |s| then s[..n] else s
  }

  /** `out` filled up from `s` to `limit` elements. */
  function Filled<X>(out: seq<X>, s: seq<X>, limit: int): seq<X> {
    out + Take(s, limit - |out|)
  }

  lemma FilledInTurn<X>(out: seq<X>, a: seq<X>, b: seq<X>, limit: int)
    ensures Filled(Filled(out, a, limit), b, limit) == Filled(out, a + b, limit)
  {
  }

  lemma FilledByOne<X>(out: seq<X>, x: X, limit: int)
    ensures Filled(out, [x], limit) == if |out| < limit then out + [x] else out
  {
  }

  lemma FilledLength<X>(out: seq<X>, s: seq<X>, limit: int)
    ensures |Filled(out, s, limit)|
         == |out| + if limit <= |out| then 0 else if limit < |out| + |s| then limit - |out| else |s|
    ensures |out| >= limit ==> Filled(out, s, limit) == out
  {
  }

  class EntrySlice {
    var items: seq<Entry>

    constructor ()
      ensures items == []
    {
      items := [];
    }
  }

  class Counter {
    var value: int

    constructor (n: int)
      ensures value == n
    {
      value := n;
    }
  }

  function CreateEntry(n: Node, rec: Record): Entry
    reads rec
  {
    Entry(0, n.id, ToFloat(rec.score), rec.eventID, rec.skill, rec.rawMetric)
  }

  /** What holds of a node's records holds of its subtrees', and the node's entry is its key's. */
  lemma CarriesBelow(n: Node, bests: map<string, Best>)
    requires n.Valid() && Carries(n, bests)
    ensures Carries(n.left, bests) && Carries(n.right, bests)
    ensures CreateEntry(n, n.record) == EntryFor(n.Tree.key, bests)
  {
    assert n in n.Repr;
  }

  /** How many nodes the walk enters with `room` entries left to find. */
  function Entered(t: T.Tree, room: int): nat {
    if t.Leaf? || room <= 0 then 0
    else 1 + Entered(t.left, room) + Entered(t.right, room - T.Size(t.left) - 1)
  }

  /** The cost of the early exit: the entries found plus the height of the tree. */
  lemma {:induction false} EnteredAtMost(t: T.Tree, room: int)
    ensures Entered(t, room) <= |Take(T.InOrder(t), room)| + T.Height(t)
    ensures room > T.Size(t) ==> Entered(t, room) == T.Size(t)
  {
    if t.Node? && room > 0 {
      EnteredAtMost(t.left, room);
      EnteredAtMost(t.right, room - T.Size(t.left) - 1);
    }
  }

  /**
   Appends the best entries below `n`, in order, as long as there are fewer than `limit`, and
   counts the nodes entered with work left to do.
   */
  method CollectTopN(n: Node?, limit: int, out: EntrySlice, ghost bests: map<string, Best>) returns (ghost entered: nat)
    requires ValidTree(n) && Carries(n, bests)
    modifies out
    ensures out.items == Filled(old(out.items), Listing(T.InOrder(TreeOf(n)), bests), limit)
    ensures entered == Entered(TreeOf(n), limit - |old(out.items)|)
    decreases TreeOf(n), 1
  {
    if n == null || |out.items| >= limit {
      return 0;
    }
    ghost var out0, t := out.items, n.Tree;
    CarriesBelow(n, bests);
    HeadThenRest(t, bests, out0, limit);
    ghost var more := 0;
    entered := CollectHead(n, limit, out, bests);
    if |out.items| < limit {
      more := CollectTopN(n.right, limit, out, bests);
    }
    entered := 1 + entered + more;
  }

  ghost function Head(t: T.Tree, bests: map<string, Best>): (es: seq<Entry>)
    requires t.Node?
    ensures |es| == T.Size(t.left) + 1
  {
    Listing(T.InOrder(t.left), bests) + [EntryFor(t.key, bests)]
  }

  lemma HeadThenRest(t: T.Tree, bests: map<string, Best>, out: seq<Entry>, limit: int)
    requires t.Node?
    ensures var out2, rest := Filled(out, Head(t, bests), limit), Listing(T.InOrder(t.right), bests);
            && Filled(out2, rest, limit) == Filled(out, Listing(T.InOrder(t), bests), limit)
            && (|out2| >= limit ==> Filled(out2, rest, limit) == out2)
            && (|out| < limit ==>
                  Entered(t, limit - |out|) == 1 + Entered(t.left, limit - |out|)
                                               + (if |out2| < limit then Entered(t.right, limit - |out2|) else 0))
  {
    var head, rest := Head(t, bests), Listing(T.InOrder(t.right), bests);
    ListingOfNode(t, bests);
    FilledInTurn(out, head, rest, limit);
    FilledLength(out, head, limit);
    FilledLength(Filled(out, head, limit), rest, limit);
  }

  /** The left subtree and the node itself. */
  method CollectHead(n: Node, limit: int, out: EntrySlice, ghost bests: map<string, Best>) returns (ghost entered: nat)
    requires n.Valid() && Carries(n, bests)
    modifies out
    ensures out.items == Filled(old(out.items), Head(n.Tree, bests), limit)
    ensures entered == Entered(n.Tree.left, limit - |old(out.items)|)
    decreases TreeOf(n), 0
  {
    CarriesBelow(n, bests);
    ghost var out0, t, k := out.items, n.Tree, EntryFor(n.Tree.key, bests);
    ghost var l := Listing(T.InOrder(t.left), bests);
    FilledInTurn(out0, l, [k], limit);
    FilledByOne(Filled(out0, l, limit), k, limit);
    entered := CollectTopN(n.left, limit, out, bests);
    if |out.items| < limit {
      out.items := out.items + [CreateEntry(n, n.record)];
    }
  }

  lemma ListingOfNode(t: T.Tree, bests: map<string, Best>)
    requires t.Node?
    ensures Listing(T.InOrder(t), bests)
         == Listing(T.InOrder(t.left), bests) + [EntryFor(t.key, bests)] + Listing(T.InOrder(t.right), bests)
  {
  }

  method CollectAllEntries(n: Node?, out: EntrySlice, ghost bests: map<string, Best>)
    requires ValidTree(n) && Carries(n, bests)
    modifies out
    ensures out.items == old(out.items) + Listing(T.InOrder(TreeOf(n)), bests)
    decreases TreeOf(n)
  {
    if n == null { return; }
    CarriesBelow(n, bests);
    ghost var out0, t, k := out.items, n.Tree, EntryFor(n.Tree.key, bests);
    ghost var l, r := Listing(T.InOrder(t.left), bests), Listing(T.InOrder(t.right), bests);
    ListingOfNode(t, bests);
    CollectAllEntries(n.left, out, bests);
    out.items := out.items + [CreateEntry(n, n.record)];
    assert out.items == out0 + l + [k];
    CollectAllEntries(n.right, out, bests);
    RegroupFront(out0, l, k, r);
  }

  /** Adds to the counter exactly what the counting traversal on values finds. */
  method CountHigherRanked(n: Node?, targetID: string, targetScore: int, rank: Counter)
    requires ValidTree(n)
    modifies rank
    ensures rank.value == old(rank.value) + Ranks.CountHigher(TreeOf(n), Key(targetScore, targetID))
    decreases TreeOf(n)
  {
    if n == null { return; }
    if Less(Key(n.score, n.id), Key(targetScore, targetID)) {
      rank.value := rank.value + 1;
      CountHigherRanked(n.left, targetID, targetScore, rank);
      CountHigherRanked(n.right, targetID, targetScore, rank);
    } else if Less(Key(targetScore, targetID), Key(n.score, n.id)) {
      CountHigherRanked(n.left, targetID, targetScore, rank);
    } else {
      // The order is total, so this is the target itself; the branches for another id are dead.
      LessTotal(Key(n.score, n.id), Key(targetScore, targetID));
      assert n.id == targetID;
    }
  }

  method CalculateRank(n: Node?, talentID: string, score: real) returns (rank: int)
    requires ValidTree(n)
    ensures rank == Ranks.CalculateRank(TreeOf(n), Key(ToFixedPoint(Finite(score)), talentID))
  {
    if n == null { return 0; }
    var counter := new Counter(1);
    CountHigherRanked(n, talentID, ToFixedPoint(Finite(score)), counter);
    rank := counter.value;
  }
}
