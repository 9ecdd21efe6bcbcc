/**
 When the shape of a treap is forced by its keys, and when a deletion undoes an insertion.
 Both come down to ties between hashed priorities.
 */
module Shapes {
  import opened Keys
  import opened Sequences
  import opened Treaps

  // ---------- the priorities in leaderboard order ----------

  function PrioOrder(t: Tree): (p: seq<nat>)
    ensures |p| == Size(t)
  {
    match t
    case Leaf => []
    case Node(l, _, p, r) => PrioOrder(l) + [p] + PrioOrder(r)
  }

  function Priorities(s: seq<Key>): (p: seq<nat>)
    ensures |p| == |s|
    ensures forall i :: 0 <= i < |s| ==> p[i] == Priority(s[i])
  {
    seq(|s|, i requires 0 <= i < |s| => Priority(s[i]))
  }

  lemma {:induction false} HashedPrioOrder(t: Tree)
    requires Hashed(t)
    ensures PrioOrder(t) == Priorities(InOrder(t))
  {
    if t.Node? {
      HashedPrioOrder(t.left);
      HashedPrioOrder(t.right);
      var l, s := Size(t.left), InOrder(t);
      forall i | 0 <= i < |s| ensures PrioOrder(t)[i] == Priority(s[i]) {
        if i < l {
          assert PrioOrder(t)[i] == PrioOrder(t.left)[i];
        } else if i > l {
          assert PrioOrder(t)[i] == PrioOrder(t.right)[i - l - 1];
        }
      }
    }
  }

  lemma {:induction false} TopIsMax(t: Tree)
    requires Heap(t)
    ensures forall i :: 0 <= i < |PrioOrder(t)| ==> PrioOrder(t)[i] <= TopPrio(t)
  {
    if t.Node? {
      TopIsMax(t.left);
      TopIsMax(t.right);
    }
  }

  lemma {:induction false} PriorityAtMostTop(t: Tree, k: Key)
    requires Heap(t) && Hashed(t) && k in InOrder(t)
    ensures Priority(k) <= TopPrio(t)
  {
    HashedPrioOrder(t);
    TopIsMax(t);
    var i :| 0 <= i < |InOrder(t)| && InOrder(t)[i] == k;
    assert PrioOrder(t)[i] == Priority(k);
  }

  // ---------- one shape per key set ----------

  /** Between any two equal priorities stands a greater one. */
  ghost predicate Separated(p: seq<nat>) {
    forall i, j {:trigger ExceedsBetween(p, i, j)} :: 0 <= i < j < |p| && p[i] == p[j] ==> ExceedsBetween(p, i, j)
  }

  ghost predicate ExceedsBetween(p: seq<nat>, i: nat, j: nat)
    requires i < j < |p|
  {
    exists m :: i < m < j && p[m] > p[i]
  }

  lemma TieIsExceeded(p: seq<nat>, i: nat, j: nat)
    requires Separated(p) && i < j < |p|
    ensures p[i] == p[j] ==> exists m :: i < m < j && p[m] > p[i]
  {
    if p[i] == p[j] { assert ExceedsBetween(p, i, j); }
  }

  lemma NeighboursDiffer(p: seq<nat>, j: nat)
    requires Separated(p) && 0 < j < |p|
    ensures p[j - 1] != p[j]
  {
    TieIsExceeded(p, j - 1, j);
  }

  lemma SeparatedSlice(p: seq<nat>, lo: nat, hi: nat)
    requires Separated(p) && lo <= hi <= |p|
    ensures Separated(p[lo..hi])
  {
    var q := p[lo..hi];
    forall i, j | 0 <= i < j < |q| && q[i] == q[j] ensures ExceedsBetween(q, i, j) {
      assert ExceedsBetween(p, lo + i, lo + j);
      var m :| lo + i < m < lo + j && p[m] > p[lo + i];
      assert q[m - lo] == p[m];
    }
  }

  /** With separated priorities the keys leave room for one heap-ordered tree only. */
  lemma {:induction false} TreapUnique(t: Tree, u: Tree)
    requires Heap(t) && Heap(u)
    requires InOrder(t) == InOrder(u) && PrioOrder(t) == PrioOrder(u) && Separated(PrioOrder(t))
    ensures t == u
  {
    if t.Node? && u.Node? {
      var i, j, p := Size(t.left), Size(u.left), PrioOrder(t);
      TopIsMax(t);
      TopIsMax(u);
      assert p[i] == t.prio && p[j] == u.prio;
      if i < j { TieIsExceeded(p, i, j); }
      if j < i { TieIsExceeded(p, j, i); }
      SlicesOfNode(t);
      SlicesOfNode(u);
      SeparatedSlice(p, 0, i);
      SeparatedSlice(p, i + 1, |p|);
      TreapUnique(t.left, u.left);
      TreapUnique(t.right, u.right);
    }
  }

  lemma SlicesOfNode(t: Tree)
    requires t.Node?
    ensures var s, p, i := InOrder(t), PrioOrder(t), Size(t.left);
            && s[..i] == InOrder(t.left) && s[i] == t.key && s[i + 1..] == InOrder(t.right)
            && p[0..i] == PrioOrder(t.left) && p[i] == t.prio && p[i + 1..|p|] == PrioOrder(t.right)
  {
    SlicesOfJoin(InOrder(t.left), t.key, InOrder(t.right));
    SlicesOfJoin(PrioOrder(t.left), t.prio, PrioOrder(t.right));
  }

  lemma SlicesOfJoin<T>(a: seq<T>, x: T, b: seq<T>)
    ensures var s := a + [x] + b;
            s[..|a|] == a && s[0..|a|] == a && s[|a|] == x && s[|a| + 1..] == b && s[|a| + 1..|s|] == b
  {
  }

  /** The position of the greatest priority; of several, the first or the last one. */
  function MaxIndex(p: seq<nat>, last: bool): (m: nat)
    requires p != []
    ensures m < |p|
    ensures forall i :: 0 <= i < |p| ==> p[i] <= p[m]
    ensures last ==> forall i :: m < i < |p| ==> p[i] < p[m]
    ensures !last ==> forall i :: 0 <= i < m ==> p[i] < p[m]
  {
    if |p| == 1 then 0
    else
      var n := MaxIndex(p[1..], last);
      var keepFirst := if last then p[0] > p[1 + n] else p[0] >= p[1 + n];
      assert forall i :: 1 <= i < |p| ==> p[i] == p[1..][i - 1];
      if keepFirst then 0 else 1 + n
  }

  /** The heap-ordered tree over keys `s` with priorities `p` whose ties all lean one way. */
  function Leaning(s: seq<Key>, p: seq<nat>, last: bool): Tree
    requires |s| == |p|
    decreases |s|
  {
    if s == [] then Leaf
    else
      var m := MaxIndex(p, last);
      Node(Leaning(s[..m], p[..m], last), s[m], p[m], Leaning(s[m + 1..], p[m + 1..], last))
  }

  lemma HeapOfParts(l: Tree, r: Tree, s: seq<Key>, w: seq<nat>, m: nat) returns (t: Tree)
    requires |s| == |w| && m < |s| && forall i :: 0 <= i < |w| ==> w[i] <= w[m]
    requires Heap(l) && InOrder(l) == s[..m] && PrioOrder(l) == w[..m]
    requires Heap(r) && InOrder(r) == s[m + 1..] && PrioOrder(r) == w[m + 1..]
    ensures t == Node(l, s[m], w[m], r) && Heap(t) && InOrder(t) == s && PrioOrder(t) == w
    ensures Size(l) == m && Size(t) == |s|
  {
    t := Node(l, s[m], w[m], r);
    JoinOfSlices(s, m);
    JoinOfSlices(w, m);
    if l.Node? { assert w[..m][Size(l.left)] == l.prio; }
    if r.Node? { assert w[m + 1..][Size(r.left)] == r.prio; }
  }

  lemma {:induction false} LeaningIsHeap(s: seq<Key>, p: seq<nat>, last: bool)
    requires |s| == |p|
    ensures var t := Leaning(s, p, last); Heap(t) && InOrder(t) == s && PrioOrder(t) == p
    decreases |s|
  {
    if s != [] {
      var m := MaxIndex(p, last);
      LeaningIsHeap(s[..m], p[..m], last);
      LeaningIsHeap(s[m + 1..], p[m + 1..], last);
      var t := HeapOfParts(Leaning(s[..m], p[..m], last), Leaning(s[m + 1..], p[m + 1..], last), s, p, m);
      assert Leaning(s, p, last) == t;
    }
  }

  lemma {:induction false} PrioritiesMakeHashed(t: Tree)
    requires PrioOrder(t) == Priorities(InOrder(t))
    ensures Hashed(t)
  {
    if t.Node? {
      SlicesOfNode(t);
      assert Priorities(InOrder(t))[Size(t.left)] == Priority(t.key);
      assert Priorities(InOrder(t.left)) == PrioOrder(t.left);
      assert Priorities(InOrder(t.right)) == PrioOrder(t.right);
      PrioritiesMakeHashed(t.left);
      PrioritiesMakeHashed(t.right);
    }
  }

  lemma SeparatedAround(p: seq<nat>, m: nat)
    requires m < |p| && Separated(p[..m]) && Separated(p[m + 1..])
    requires forall i :: 0 <= i < |p| && i != m ==> p[i] < p[m]
    ensures Separated(p)
  {
    var a, b := p[..m], p[m + 1..];
    forall i, j | 0 <= i < j < |p| && p[i] == p[j] ensures ExceedsBetween(p, i, j) {
      if j < m {
        assert ExceedsBetween(a, i, j);
        var x :| i < x < j && a[x] > a[i];
        assert p[x] == a[x];
      } else if m < i {
        var i', j' := i - m - 1, j - m - 1;
        assert ExceedsBetween(b, i', j');
        var x :| i' < x < j' && b[x] > b[i'];
        assert p[m + 1 + x] == b[x];
      } else {
        assert i < m < j && p[m] > p[i];
      }
    }
  }

  /** When leaning either way gives the same tree, no two priorities tie unseparated. */
  lemma {:induction false} LeaningsAgree(s: seq<Key>, p: seq<nat>)
    requires |s| == |p| && Leaning(s, p, false) == Leaning(s, p, true)
    ensures Separated(p)
    decreases |s|
  {
    if s != [] {
      var m, n := MaxIndex(p, false), MaxIndex(p, true);
      LeaningIsHeap(s[..m], p[..m], false);
      LeaningIsHeap(s[..n], p[..n], true);
      assert m == n;
      LeaningsAgree(s[..m], p[..m]);
      LeaningsAgree(s[m + 1..], p[m + 1..]);
      SeparatedAround(p, m);
    }
  }

  lemma LeaningIsTreap(s: seq<Key>, last: bool)
    requires Sorted(s)
    ensures IsTreap(Leaning(s, Priorities(s), last))
    ensures InOrder(Leaning(s, Priorities(s), last)) == s
  {
    LeaningIsHeap(s, Priorities(s), last);
    PrioritiesMakeHashed(Leaning(s, Priorities(s), last));
  }

  ghost predicate ForcesShape(s: seq<Key>) {
    forall t, u :: IsTreap(t) && IsTreap(u) && InOrder(t) == s && InOrder(u) == s ==> t == u
  }

  /** Exactly one treap holds the sorted keys `s` if and only if their priorities are separated. */
  lemma ShapeForcedIffSeparated(s: seq<Key>)
    requires Sorted(s)
    ensures exists t :: IsTreap(t) && InOrder(t) == s
    ensures ForcesShape(s) <==> Separated(Priorities(s))
  {
    var first, last := Leaning(s, Priorities(s), false), Leaning(s, Priorities(s), true);
    LeaningIsTreap(s, false);
    LeaningIsTreap(s, true);
    assert IsTreap(first) && IsTreap(last);
    if ForcesShape(s) {
      assert first == last;
      LeaningsAgree(s, Priorities(s));
    }
    if Separated(Priorities(s)) {
      forall t, u | IsTreap(t) && IsTreap(u) && InOrder(t) == s && InOrder(u) == s ensures t == u {
        HashedPrioOrder(t);
        HashedPrioOrder(u);
        TreapUnique(t, u);
      }
    }
  }

  // ---------- every treap is built by some order of insertions ----------

  function PreOrder(t: Tree): seq<Key> {
    if t.Leaf? then [] else [t.key] + PreOrder(t.left) + PreOrder(t.right)
  }

  function InsertAll(t: Tree, ks: seq<Key>): Tree
    decreases |ks|
  {
    if ks == [] then t else InsertAll(Insert(t, ks[0]), ks[1..])
  }

  lemma {:induction false} InsertAllConcat(t: Tree, a: seq<Key>, b: seq<Key>)
    ensures InsertAll(t, a + b) == InsertAll(InsertAll(t, a), b)
    decreases a
  {
    if a == [] {
      assert a + b == b;
    } else {
      assert (a + b)[1..] == a[1..] + b;
      InsertAllConcat(Insert(t, a[0]), a[1..], b);
    }
  }

  lemma {:induction false} InsertAllOneSide(n: Tree, ks: seq<Key>)
    requires n.Node? && Heap(n) && Hashed(n)
    requires forall k :: k in ks ==> Priority(k) <= n.prio
    ensures (forall k :: k in ks ==> Less(k, n.key)) ==> InsertAll(n, ks) == n.(left := InsertAll(n.left, ks))
    ensures (forall k :: k in ks ==> !Less(k, n.key)) ==> InsertAll(n, ks) == n.(right := InsertAll(n.right, ks))
    decreases ks
  {
    if ks != [] {
      var k := ks[0];
      var n' := Insert(n, k);
      InsertIsSplitInsert(n, k);
      InsertIsSplitInsert(if Less(k, n.key) then n.left else n.right, k);
      InsertKeepsHeap(n, k);
      assert forall x :: x in ks[1..] ==> x in ks;
      InsertAllOneSide(n', ks[1..]);
    }
  }

  lemma {:induction false} PreOrderMembers(t: Tree)
    ensures forall k :: k in PreOrder(t) <==> k in InOrder(t)
  {
    if t.Node? {
      PreOrderMembers(t.left);
      PreOrderMembers(t.right);
    }
  }

  /** Inserting the keys of a treap from the root downwards rebuilds exactly that treap. */
  lemma {:induction false} PreOrderRebuilds(t: Tree)
    requires IsTreap(t)
    ensures InsertAll(Leaf, PreOrder(t)) == t
  {
    if t.Node? {
      SubtreesAreTreaps(t);
      PreOrderRebuilds(t.left);
      PreOrderRebuilds(t.right);
      var l, r := PreOrder(t.left), PreOrder(t.right);
      var n := Node(Leaf, t.key, t.prio, Leaf);
      LeftIsRebuilt(t, n);
      RightIsRebuilt(t, n.(left := t.left));
      InsertAllConcat(n, l, r);
      InsertAllFirst(Leaf, t.key, l + r);
      assert PreOrder(t) == [t.key] + (l + r);
    }
  }

  lemma LeftIsRebuilt(t: Tree, n: Tree)
    requires IsTreap(t) && t.Node? && n == Node(Leaf, t.key, t.prio, Leaf)
    ensures InsertAll(n, PreOrder(t.left)) == n.(left := InsertAll(Leaf, PreOrder(t.left)))
  {
    BelowRoot(t);
    InsertAllOneSide(n, PreOrder(t.left));
  }

  lemma RightIsRebuilt(t: Tree, n: Tree)
    requires IsTreap(t) && t.Node? && n == Node(t.left, t.key, t.prio, Leaf)
    ensures InsertAll(n, PreOrder(t.right)) == n.(right := InsertAll(Leaf, PreOrder(t.right)))
  {
    BelowRoot(t);
    InsertAllOneSide(n, PreOrder(t.right));
  }

  lemma InsertAllFirst(t: Tree, k: Key, ks: seq<Key>)
    ensures InsertAll(t, [k] + ks) == InsertAll(Insert(t, k), ks)
  {
    assert ([k] + ks)[1..] == ks;
  }

  lemma BelowRoot(t: Tree)
    requires IsTreap(t) && t.Node?
    ensures forall k :: k in PreOrder(t.left) ==> Less(k, t.key) && Priority(k) <= t.prio
    ensures forall k :: k in PreOrder(t.right) ==> !Less(k, t.key) && Priority(k) <= t.prio
  {
    SubtreesAreTreaps(t);
    PreOrderMembers(t.left);
    PreOrderMembers(t.right);
    forall k | k in InOrder(t.left) ensures Priority(k) <= t.prio { PriorityAtMostTop(t.left, k); }
    forall k | k in InOrder(t.right) ensures !Less(k, t.key) && Priority(k) <= t.prio {
      PriorityAtMostTop(t.right, k);
      LessTotal(k, t.key);
    }
  }

  // ---------- deletion after insertion ----------

  /**
   Some key `b` behind `k` lies in the right subtree of a key ahead of `k` with the same priority,
   and `k` has a greater one: inserting `k` separates the two.
   */
  ghost predicate TieAcross(t: Tree, k: Key) {
    t.Node? && (
      || (Less(t.key, k) && t.prio < Priority(k) &&
          exists b :: b in InOrder(t.right) && Less(k, b) && Priority(b) == t.prio)
      || TieAcross(t.left, k)
      || TieAcross(t.right, k))
  }

  lemma {:induction false} NoTieOnOneSide(t: Tree, k: Key)
    requires AllBefore(InOrder(t), k) || AllAfter(InOrder(t), k)
    ensures !TieAcross(t, k)
  {
    if t.Node? {
      var s, a := InOrder(t), |InOrder(t.left)|;
      assert s[a] == t.key;
      assert forall i :: 0 <= i < a ==> s[i] == InOrder(t.left)[i];
      assert forall i :: 0 <= i < |InOrder(t.right)| ==> s[a + 1 + i] == InOrder(t.right)[i];
      NoTieOnOneSide(t.left, k);
      NoTieOnOneSide(t.right, k);
      LessTotal(t.key, k);
      forall b | b in InOrder(t.right) ensures !(Less(t.key, k) && Less(k, b)) { LessTotal(b, k); }
    }
  }

  /** Only the side of the root where `k` belongs, and the root itself, can hold a tie across `k`. */
  lemma TieStep(t: Tree, k: Key)
    requires IsTreap(t) && t.Node? && k !in InOrder(t)
    ensures Less(k, t.key) || Less(t.key, k)
    ensures Less(k, t.key) ==> (TieAcross(t, k) <==> TieAcross(t.left, k)) && k !in InOrder(t.left)
    ensures Less(t.key, k) ==> !TieAcross(t.left, k) && k !in InOrder(t.right)
  {
    SubtreesAreTreaps(t);
    LessTotal(k, t.key);
    assert InOrder(t)[|InOrder(t.left)|] == t.key;
    if Less(k, t.key) {
      forall i | 0 <= i < Size(t.right) ensures Less(k, InOrder(t.right)[i]) {
        LessTransitive(k, t.key, InOrder(t.right)[i]);
      }
      NoTieOnOneSide(t.right, k);
    } else {
      forall i | 0 <= i < Size(t.left) ensures Less(InOrder(t.left)[i], k) {
        LessTransitive(InOrder(t.left)[i], t.key, k);
      }
      NoTieOnOneSide(t.left, k);
    }
  }

  lemma SplitRightHoldsTheRest(t: Tree, k: Key, b: Key)
    requires IsTreap(t) && k !in InOrder(t)
    ensures b in InOrder(SplitRight(t, k)) <==> b in InOrder(t) && Less(k, b)
  {
    SplitInOrder(t, k);
    BelowSplitsSorted(InOrder(t), k);
    RestOfSorted(InOrder(t), Below(InOrder(t), k), k, b);
  }

  lemma RestOfSorted(s: seq<Key>, i: nat, k: Key, b: Key)
    requires i <= |s| && AllBefore(s[..i], k) && forall j :: i <= j < |s| ==> s[j] == k || Less(k, s[j])
    requires k !in s
    ensures b in s[i..] <==> b in s && Less(k, b)
  {
    LessTotal(k, b);
    if b in s && Less(k, b) {
      var j :| 0 <= j < |s| && s[j] == b;
      assert forall p :: 0 <= p < i ==> Less(s[p], k) && s[p] != b by {
        forall p | 0 <= p < i ensures Less(s[p], k) && s[p] != b { assert s[..i][p] == s[p]; }
      }
      assert s[i..][j - i] == b;
    }
    if b in s[i..] {
      var j :| 0 <= j < |s[i..]| && s[i..][j] == b;
      assert s[i + j] == b;
    }
  }

  lemma {:induction false} MergeUndoesSplit(t: Tree, k: Key)
    requires IsTreap(t) && k !in InOrder(t) && TopPrio(t) < Priority(k)
    ensures Merge(SplitLeft(t, k), SplitRight(t, k)) == t <==> !TieAcross(t, k)
  {
    if t.Node? {
      SubtreesAreTreaps(t);
      TieStep(t, k);
      LessTotal(k, t.key);
      if Less(k, t.key) {
        MergeUndoesSplit(t.left, k);
        SplitKeepsHeap(t.left, k);
      } else {
        MergeUndoesSplit(t.right, k);
        var rest := SplitRight(t.right, k);
        SplitKeepsHeap(t.right, k);
        forall b | b in InOrder(rest) ensures Priority(b) <= TopPrio(rest) { PriorityAtMostTop(rest, b); }
        forall b ensures b in InOrder(rest) <==> b in InOrder(t.right) && Less(k, b) {
          SplitRightHoldsTheRest(t.right, k, b);
        }
        if rest.Node? {
          assert InOrder(rest)[Size(rest.left)] == rest.key;
          LessTotal(rest.key, t.key);
          if rest.prio == t.prio {
            assert rest.key in InOrder(t.right) && Less(k, rest.key) && Priority(rest.key) == t.prio;
          }
        }
      }
    }
  }

  /**
   Deleting a key right after inserting it gives back the very same treap if and only if the
   insertion separates no tied pair.  (The leaderboard order is restored in any case.)
   */
  lemma {:induction false} DeleteUndoesInsertIff(t: Tree, k: Key)
    requires IsTreap(t) && k !in InOrder(t)
    ensures Delete(Insert(t, k), k) == t <==> !TieAcross(t, k)
    ensures InOrder(Delete(Insert(t, k), k)) == InOrder(t)
  {
    InsertKeepsTreap(t, k);
    DeleteKeepsTreap(Insert(t, k), k);
    SortedUnique(InOrder(Delete(Insert(t, k), k)), InOrder(t));
    DeleteUndoesInsertShape(t, k);
  }

  lemma {:induction false} DeleteUndoesInsertShape(t: Tree, k: Key)
    requires IsTreap(t) && k !in InOrder(t)
    ensures Delete(Insert(t, k), k) == t <==> !TieAcross(t, k)
  {
    InsertIsSplitInsert(t, k);
    if t.Leaf? || Priority(k) > t.prio {
      DeleteRootIsMerge(Insert(t, k));
      MergeUndoesSplit(t, k);
    } else {
      SubtreesAreTreaps(t);
      TieStep(t, k);
      LessTotal(k, t.key);
      if Less(k, t.key) {
        InsertIsSplitInsert(t.left, k);
        DeleteUndoesInsertShape(t.left, k);
      } else {
        InsertIsSplitInsert(t.right, k);
        DeleteUndoesInsertShape(t.right, k);
      }
    }
  }

  lemma NoTieWithTop(t: Tree, b: Key)
    requires t.Node? && Heap(t) && Hashed(t) && Separated(PrioOrder(t)) && b in InOrder(t.right)
    ensures Priority(b) != t.prio
  {
    var j :| 0 <= j < Size(t.right) && InOrder(t.right)[j] == b;
    HashedPrioOrder(t.right);
    TopIsMax(t);
    TieIsExceeded(PrioOrder(t), Size(t.left), Size(t.left) + 1 + j);
  }

  lemma {:induction false} SeparatedHasNoTie(t: Tree, k: Key)
    requires Heap(t) && Hashed(t) && Separated(PrioOrder(t))
    ensures !TieAcross(t, k)
  {
    if t.Node? {
      var p, i := PrioOrder(t), Size(t.left);
      forall b | b in InOrder(t.right) ensures Priority(b) != t.prio { NoTieWithTop(t, b); }
      SlicesOfNode(t);
      SeparatedSlice(p, 0, i);
      SeparatedSlice(p, i + 1, |p|);
      SeparatedHasNoTie(t.left, k);
      SeparatedHasNoTie(t.right, k);
    }
  }

  /** In particular it does when the priorities force the shape of the tree. */
  lemma DeleteUndoesInsertWhenSeparated(t: Tree, k: Key)
    requires IsTreap(t) && k !in InOrder(t) && Separated(PrioOrder(t))
    ensures Delete(Insert(t, k), k) == t
  {
    SeparatedHasNoTie(t, k);
    DeleteUndoesInsertIff(t, k);
  }
}
