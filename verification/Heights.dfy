/**
 How high the tree is, read off the priorities of the keys in leaderboard order: the exact height
 where they force the shape, and the height of the worst history where they do not.
 */
module Heights {
  import opened Keys
  import opened Sequences
  import opened Treaps
  import opened Shapes
  import opened Leaderboard

  // ---------- depth ----------

  /** How many nodes lie on the way from the root to the `j`-th key, both included. */
  function Depth(t: Tree, j: nat): nat
    requires j < Size(t)
  {
    var r := Size(t.left);
    if j == r then 1
    else if j < r then 1 + Depth(t.left, j)
    else 1 + Depth(t.right, j - r - 1)
  }

  ghost predicate NoDeeper(t: Tree, h: int) {
    forall j :: 0 <= j < Size(t) ==> Depth(t, j) <= h
  }

  lemma {:induction false} HeightIsGreatestDepth(t: Tree, h: nat)
    ensures Height(t) <= h <==> NoDeeper(t, h)
  {
    if t.Node? {
      var r := Size(t.left);
      assert Depth(t, r) == 1;
      if h > 0 {
        HeightIsGreatestDepth(t.left, h - 1);
        HeightIsGreatestDepth(t.right, h - 1);
        DepthBelow(t, h);
      }
    }
  }

  lemma DepthBelow(t: Tree, h: nat)
    requires t.Node? && h > 0
    ensures NoDeeper(t, h) <==> NoDeeper(t.left, h - 1) && NoDeeper(t.right, h - 1)
  {
    var r := Size(t.left);
    if NoDeeper(t, h) {
      forall j | 0 <= j < r ensures Depth(t.left, j) <= h - 1 { assert Depth(t, j) <= h; }
      forall j | 0 <= j < Size(t.right) ensures Depth(t.right, j) <= h - 1 { assert Depth(t, r + 1 + j) <= h; }
    } else {
      var j :| 0 <= j < Size(t) && Depth(t, j) > h;
      assert j < r ==> Depth(t.left, j) > h - 1;
      assert j > r ==> Depth(t.right, j - r - 1) > h - 1;
    }
  }

  // ---------- the keys above a key ----------

  /** From position `i` to position `j` no priority, or none but that at `i`, is as great as that at `i`. */
  ghost predicate Tops(p: seq<nat>, i: int, j: int, strictly: bool)
    requires 0 <= i < |p|
  {
    forall m :: 0 <= m < |p| && m != i && (i < m <= j || j <= m < i) ==> if strictly then p[m] < p[i] else p[m] <= p[i]
  }

  /** The positions from `lo` to `hi` that top everything up to `j`. */
  ghost function Overs(p: seq<nat>, lo: int, hi: int, j: int, strictly: bool): set<int>
    requires 0 <= lo && hi <= |p|
  {
    set i | lo <= i < hi && Tops(p, i, j, strictly)
  }

  lemma SizeOfPart(a: set<int>, b: set<int>)
    requires a <= b
    ensures |a| <= |b|
  {
    assert b == a + (b - a);
  }

  /** Around a greatest priority at `r`, what tops `j` is `r` itself and what tops `j` on its side of `r`. */
  lemma OversAround(p: seq<nat>, lo: nat, r: nat, hi: nat, j: int)
    requires lo <= r < hi <= |p| && lo <= j < hi
    requires forall m :: lo <= m < hi ==> p[m] <= p[r]
    ensures var side := if j < r then Overs(p, lo, r, j, true) else if j > r then Overs(p, r + 1, hi, j, true) else {};
            Overs(p, lo, hi, j, true) <= side + {r}
    ensures var side := if j < r then Overs(p, lo, r, j, false)
                        else if j > r then Overs(p, r + 1, hi, j, false) else {};
            side + {r} <= Overs(p, lo, hi, j, false) && r !in side
  {
    forall i | lo <= i < hi && Tops(p, i, j, true) ensures !(i < r <= j) && !(j <= r < i) {
      assert p[i] <= p[r];
    }
  }

  /** `w` stands in `p` from position `lo` on. */
  ghost predicate Window(w: seq<nat>, p: seq<nat>, lo: int) {
    0 <= lo && lo + |w| <= |p| && forall m :: lo <= m < lo + |w| ==> p[m] == w[m - lo]
  }

  lemma WindowOfJoin(a: seq<nat>, x: nat, b: seq<nat>, p: seq<nat>, lo: nat, r: nat)
    requires Window(a + [x] + b, p, lo) && r == lo + |a|
    ensures Window(a, p, lo) && p[r] == x && Window(b, p, r + 1)
  {
    forall m | lo <= m < r ensures p[m] == a[m - lo] {
      assert p[m] == (a + [x] + b)[m - lo];
    }
  }

  lemma PeakOfWindow(t: Tree, p: seq<nat>, lo: nat)
    requires Heap(t) && Window(PrioOrder(t), p, lo)
    ensures forall m :: lo <= m < lo + Size(t) ==> p[m] <= TopPrio(t)
  {
    TopIsMax(t);
  }

  lemma DepthStep(t: Tree, j: nat)
    requires j < Size(t)
    ensures var r := Size(t.left);
            && (j == r ==> Depth(t, j) == 1)
            && (j < r ==> Depth(t, j) == 1 + Depth(t.left, j))
            && (j > r ==> Depth(t, j) == 1 + Depth(t.right, j - r - 1))
  {
  }

  /** Above a key stands whatever tops it strictly, and nothing that does not top it. */
  lemma {:induction false} DepthBetween(t: Tree, p: seq<nat>, lo: nat, hi: nat, j: nat)
    requires Heap(t) && Window(PrioOrder(t), p, lo) && hi == lo + Size(t) && lo <= j < hi
    ensures |Overs(p, lo, hi, j, true)| <= Depth(t, j - lo) <= |Overs(p, lo, hi, j, false)|
  {
    var r := lo + Size(t.left);
    WindowOfJoin(PrioOrder(t.left), t.prio, PrioOrder(t.right), p, lo, r);
    PeakOfWindow(t, p, lo);
    OversSize(p, lo, r, hi, j);
    DepthStep(t, j - lo);
    if j < r {
      DepthBetween(t.left, p, lo, r, j);
    } else if j > r {
      DepthBetween(t.right, p, r + 1, hi, j);
      assert j - lo - Size(t.left) - 1 == j - (r + 1);
    }
  }

  lemma OversSize(p: seq<nat>, lo: nat, r: nat, hi: nat, j: int)
    requires lo <= r < hi <= |p| && lo <= j < hi
    requires forall m :: lo <= m < hi ==> p[m] <= p[r]
    ensures j < r ==> |Overs(p, lo, hi, j, true)| <= |Overs(p, lo, r, j, true)| + 1
    ensures j < r ==> |Overs(p, lo, r, j, false)| + 1 <= |Overs(p, lo, hi, j, false)|
    ensures j > r ==> |Overs(p, lo, hi, j, true)| <= |Overs(p, r + 1, hi, j, true)| + 1
    ensures j > r ==> |Overs(p, r + 1, hi, j, false)| + 1 <= |Overs(p, lo, hi, j, false)|
    ensures j == r ==> |Overs(p, lo, hi, j, true)| <= 1 <= |Overs(p, lo, hi, j, false)|
  {
    OversAround(p, lo, r, hi, j);
    var some := if j < r then Overs(p, lo, r, j, true) else if j > r then Overs(p, r + 1, hi, j, true) else {};
    var all := if j < r then Overs(p, lo, r, j, false) else if j > r then Overs(p, r + 1, hi, j, false) else {};
    SizeOfPart(Overs(p, lo, hi, j, true), some + {r});
    SizeOfPart(all + {r}, Overs(p, lo, hi, j, false));
  }

  /** With separated priorities whatever tops a key tops it strictly. */
  lemma SeparatedTops(p: seq<nat>, i: nat, j: nat)
    requires Separated(p) && i < |p| && j < |p|
    ensures Tops(p, i, j, true) <==> Tops(p, i, j, false)
  {
    if Tops(p, i, j, false) {
      forall m | 0 <= m < |p| && m != i && (i < m <= j || j <= m < i) ensures p[m] < p[i] {
        if i < m { TieIsExceeded(p, i, m); } else { TieIsExceeded(p, m, i); }
      }
    }
  }

  // ---------- height ----------

  /** No key has more than `h` keys, itself included, that top everything up to it. */
  ghost predicate Overtopped(p: seq<nat>, h: int, strictly: bool) {
    forall j :: 0 <= j < |p| ==> |Overs(p, 0, |p|, j, strictly)| <= h
  }

  lemma HeightBetween(t: Tree, h: nat)
    requires Heap(t)
    ensures Overtopped(PrioOrder(t), h, false) ==> Height(t) <= h
    ensures Height(t) <= h ==> Overtopped(PrioOrder(t), h, true)
  {
    var p := PrioOrder(t);
    HeightIsGreatestDepth(t, h);
    forall j | 0 <= j < |p|
      ensures |Overs(p, 0, |p|, j, true)| <= Depth(t, j) <= |Overs(p, 0, |p|, j, false)|
    {
      DepthBetween(t, p, 0, |p|, j);
    }
    if Height(t) <= h {
      forall j | 0 <= j < |p| ensures |Overs(p, 0, |p|, j, true)| <= h { assert Depth(t, j) <= h; }
    }
  }

  /** With separated priorities that is the height exactly. */
  lemma HeightIff(t: Tree, h: nat)
    requires Heap(t) && Separated(PrioOrder(t))
    ensures Height(t) <= h <==> Overtopped(PrioOrder(t), h, true)
  {
    var p := PrioOrder(t);
    HeightBetween(t, h);
    forall j | 0 <= j < |p| ensures Overs(p, 0, |p|, j, true) == Overs(p, 0, |p|, j, false) {
      forall i | 0 <= i < |p| ensures Tops(p, i, j, true) <==> Tops(p, i, j, false) { SeparatedTops(p, i, j); }
    }
  }

  // ---------- the worst tree ----------

  /** Of several greatest priorities the first if it comes before position `j`, else the last. */
  function PeakFor(p: seq<nat>, j: nat): (m: nat)
    requires p != []
    ensures m < |p| && forall i :: 0 <= i < |p| ==> p[i] <= p[m]
    ensures m <= j ==> forall i :: 0 <= i < m ==> p[i] < p[m]
    ensures j <= m ==> forall i :: m < i < |p| ==> p[i] < p[m]
  {
    var first := MaxIndex(p, false);
    if first < j then first else MaxIndex(p, true)
  }

  lemma SomeHeap(s: seq<Key>, w: seq<nat>) returns (t: Tree)
    requires |s| == |w|
    ensures Heap(t) && InOrder(t) == s && PrioOrder(t) == w
  {
    t := Leaning(s, w, true);
    LeaningIsHeap(s, w, true);
  }

  /** Some heap-ordered tree puts every key that tops the one at `j` above it. */
  lemma {:induction false} Deepest(s: seq<Key>, w: seq<nat>, p: seq<nat>, lo: nat, hi: nat, j: nat) returns (t: Tree)
    requires |s| == |w| && Window(w, p, lo) && hi == lo + |w| && lo <= j < hi
    ensures Heap(t) && InOrder(t) == s && PrioOrder(t) == w
    ensures Depth(t, j - lo) >= |Overs(p, lo, hi, j, false)|
    decreases |s|
  {
    var m := PeakFor(w, j - lo);
    var r := lo + m;
    WindowAroundPeak(w, p, lo, hi, j, m);
    OversBesidesPeak(w, p, lo, hi, j, r);
    if j < r {
      var left := Deepest(s[..m], w[..m], p, lo, r, j);
      var right := SomeHeap(s[m + 1..], w[m + 1..]);
      t := HeapOfParts(left, right, s, w, m);
    } else if j > r {
      var left := SomeHeap(s[..m], w[..m]);
      var right := Deepest(s[m + 1..], w[m + 1..], p, r + 1, hi, j);
      t := HeapOfParts(left, right, s, w, m);
    } else {
      var left := SomeHeap(s[..m], w[..m]);
      var right := SomeHeap(s[m + 1..], w[m + 1..]);
      t := HeapOfParts(left, right, s, w, m);
    }
    DeepestStep(t, p, lo, hi, j, r);
  }

  lemma WindowAroundPeak(w: seq<nat>, p: seq<nat>, lo: nat, hi: nat, j: nat, m: nat)
    requires Window(w, p, lo) && hi == lo + |w| && lo <= j < hi && m == PeakFor(w, j - lo)
    ensures Window(w[..m], p, lo) && Window(w[m + 1..], p, lo + m + 1)
  {
    JoinOfSlices(w, m);
    WindowOfJoin(w[..m], w[m], w[m + 1..], p, lo, lo + m);
  }

  lemma DeepestStep(t: Tree, p: seq<nat>, lo: nat, hi: nat, j: nat, r: nat)
    requires t.Node? && lo + Size(t.left) == r && hi == lo + Size(t) && lo <= j < hi <= |p|
    requires j < r ==> Depth(t.left, j - lo) >= |Overs(p, lo, r, j, false)| >= |Overs(p, lo, hi, j, false)| - 1
    requires j > r ==>
               Depth(t.right, j - (r + 1)) >= |Overs(p, r + 1, hi, j, false)| >= |Overs(p, lo, hi, j, false)| - 1
    requires j == r ==> |Overs(p, lo, hi, j, false)| <= 1
    ensures Depth(t, j - lo) >= |Overs(p, lo, hi, j, false)|
  {
    DepthStep(t, j - lo);
    assert j > r ==> j - lo - Size(t.left) - 1 == j - (r + 1);
  }

  lemma OversBesidesPeak(w: seq<nat>, p: seq<nat>, lo: nat, hi: nat, j: nat, r: nat)
    requires Window(w, p, lo) && hi == lo + |w| && lo <= j < hi && r == lo + PeakFor(w, j - lo)
    ensures j < r ==> |Overs(p, lo, hi, j, false)| <= |Overs(p, lo, r, j, false)| + 1
    ensures j > r ==> |Overs(p, lo, hi, j, false)| <= |Overs(p, r + 1, hi, j, false)| + 1
    ensures j == r ==> |Overs(p, lo, hi, j, false)| <= 1
  {
    var side := if j < r then Overs(p, lo, r, j, false) else if j > r then Overs(p, r + 1, hi, j, false) else {};
    assert p[r] == w[r - lo];
    forall i | i in Overs(p, lo, hi, j, false) && i != r ensures i in side {
      assert p[i] == w[i - lo];
    }
    SizeOfPart(Overs(p, lo, hi, j, false), side + {r});
  }

  /** No treap over the sorted keys `s` is higher than `h`. */
  ghost predicate AllWithin(s: seq<Key>, h: int) {
    forall t :: IsTreap(t) && InOrder(t) == s ==> Height(t) <= h
  }

  lemma WorstTreap(s: seq<Key>, h: nat)
    requires Sorted(s)
    ensures AllWithin(s, h) <==> Overtopped(Priorities(s), h, false)
  {
    var p := Priorities(s);
    if Overtopped(p, h, false) {
      forall t | IsTreap(t) && InOrder(t) == s ensures Height(t) <= h {
        HashedPrioOrder(t);
        HeightBetween(t, h);
      }
    }
    if AllWithin(s, h) {
      forall j | 0 <= j < |p| ensures |Overs(p, 0, |p|, j, false)| <= h {
        var t := Deepest(s, p, p, 0, |p|, j);
        PrioritiesMakeHashed(t);
        assert IsTreap(t);
        HeightIsGreatestDepth(t, h);
      }
    }
  }

  // ---------- runs ----------

  /** The priorities of the present keys, in leaderboard order. */
  function PriorityProfile(us: seq<Update>): seq<nat> {
    Priorities(InOrder(Replay(EMPTY, us).tree))
  }

  /** Where the priorities force the shape, they give the height of the tree exactly. */
  lemma HeightOfRunIff(us: seq<Update>, h: nat)
    requires Separated(PriorityProfile(us))
    ensures Height(Replay(EMPTY, us).tree) <= h <==> Overtopped(PriorityProfile(us), h, true)
  {
    ReplayKeepsConsistent(EMPTY, us);
    HashedPrioOrder(Replay(EMPTY, us).tree);
    HeightIff(Replay(EMPTY, us).tree, h);
  }

  ghost predicate EveryHistoryWithin(us: seq<Update>, h: int) {
    forall vs :: Replay(EMPTY, vs).best == Replay(EMPTY, us).best ==> Height(Replay(EMPTY, vs).tree) <= h
  }

  /**
   And in general they give the height of the worst history: every run with the same best scores
   leaves a tree of height at most `h` if and only if no key is topped by more than `h`.
   */
  lemma WorstHistoryIff(us: seq<Update>, h: nat)
    ensures EveryHistoryWithin(us, h) <==> Overtopped(PriorityProfile(us), h, false)
  {
    var b := Replay(EMPTY, us);
    ReplayKeepsConsistent(EMPTY, us);
    WorstTreap(InOrder(b.tree), h);
    if AllWithin(InOrder(b.tree), h) {
      forall vs | Replay(EMPTY, vs).best == b.best ensures Height(Replay(EMPTY, vs).tree) <= h {
        ReplayKeepsConsistent(EMPTY, vs);
        ConsistentBoardsAgree(b, Replay(EMPTY, vs));
      }
    } else {
      var t :| IsTreap(t) && InOrder(t) == InOrder(b.tree) && Height(t) > h;
      var vs := EveryTreapIsReached(b, t);
      assert Replay(EMPTY, vs).best == b.best;
    }
  }
}
