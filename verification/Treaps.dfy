/**
 Treaps as values: what the pointer-manipulating code of the store computes, and why it is right.
 */
module Treaps {
  import opened Keys
  import opened Sequences

  datatype Tree = Leaf | Node(left: Tree, key: Key, prio: nat, right: Tree)

  function Size(t: Tree): nat {
    match t
    case Leaf => 0
    case Node(l, _, _, r) => 1 + Size(l) + Size(r)
  }

  function Height(t: Tree): nat {
    match t
    case Leaf => 0
    case Node(l, _, _, r) => 1 + if Height(l) > Height(r) then Height(l) else Height(r)
  }

  /** The keys from best to worst. */
  function InOrder(t: Tree): (s: seq<Key>)
    ensures |s| == Size(t)
  {
    match t
    case Leaf => []
    case Node(l, k, _, r) => InOrder(l) + [k] + InOrder(r)
  }

  function TopPrio(t: Tree): int {
    if t.Leaf? then -1 else t.prio
  }

  function Max(a: int, b: int): int {
    if a > b then a else b
  }

  // ---------- the operations ----------

  function RotateRight(n: Tree): (r: Tree)
    requires n.Node? && n.left.Node?
    ensures r.Node? && Size(r.right) < Size(r) == Size(n)
  {
    var x := n.left;
    Node(x.left, x.key, x.prio, Node(x.right, n.key, n.prio, n.right))
  }

  function RotateLeft(n: Tree): (r: Tree)
    requires n.Node? && n.right.Node?
    ensures r.Node? && Size(r.left) < Size(r) == Size(n)
  {
    var y := n.right;
    Node(Node(n.left, n.key, n.prio, y.left), y.key, y.prio, y.right)
  }

  /** Rotations do not touch the leaderboard order. */
  lemma RotationsKeepOrder(n: Tree)
    requires n.Node?
    ensures n.left.Node? ==> InOrder(RotateRight(n)) == InOrder(n)
    ensures n.right.Node? ==> InOrder(RotateLeft(n)) == InOrder(n)
  {
    var l, r := n.left, n.right;
    if l.Node? { Regroup(InOrder(l.left), l.key, InOrder(l.right), n.key, InOrder(r)); }
    if r.Node? { Regroup(InOrder(l), n.key, InOrder(r.left), r.key, InOrder(r.right)); }
  }

  function Insert(t: Tree, k: Key): (r: Tree)
    ensures r.Node?
  {
    if t.Leaf? then Node(Leaf, k, Priority(k), Leaf)
    else if Less(k, t.key) then
      var n := t.(left := Insert(t.left, k));
      if n.left.prio > n.prio then RotateRight(n) else n
    else
      var n := t.(right := Insert(t.right, k));
      if n.right.prio > n.prio then RotateLeft(n) else n
  }

  /**
   Deletion rotates the target down until a child is missing.  On the way the target sits below
   a node of smaller priority, but the subtree it heads loses a node with every rotation.
   */
  function Delete(t: Tree, k: Key): Tree
    decreases Size(t)
  {
    if t.Leaf? then Leaf
    else if k == t.key then
      if t.left.Leaf? then t.right
      else if t.right.Leaf? then t.left
      else if t.left.prio > t.right.prio then
        var n := RotateRight(t);
        n.(right := Delete(n.right, k))
      else
        var n := RotateLeft(t);
        n.(left := Delete(n.left, k))
    else if Less(k, t.key) then t.(left := Delete(t.left, k))
    else t.(right := Delete(t.right, k))
  }

  // ---------- ordered sequences of keys ----------

  ghost predicate Sorted(s: seq<Key>) {
    forall i, j :: 0 <= i < j < |s| ==> Less(s[i], s[j])
  }

  ghost predicate AllBefore(s: seq<Key>, k: Key) {
    forall i :: 0 <= i < |s| ==> Less(s[i], k)
  }

  ghost predicate AllAfter(s: seq<Key>, k: Key) {
    forall i :: 0 <= i < |s| ==> Less(k, s[i])
  }

  /** How many keys of `s` come before `k`: its 0-based position in the leaderboard. */
  function Below(s: seq<Key>, k: Key): (n: nat)
    ensures n <= |s|
  {
    if s == [] then 0
    else (if Less(s[0], k) then 1 else 0) + Below(s[1..], k)
  }

  function InsertAt(s: seq<Key>, i: nat, k: Key): seq<Key>
    requires i <= |s|
  {
    s[..i] + [k] + s[i..]
  }

  lemma SortedJoin(a: seq<Key>, m: Key, b: seq<Key>)
    ensures Sorted(a + [m] + b) <==> Sorted(a) && Sorted(b) && AllBefore(a, m) && AllAfter(b, m)
  {
    var s := a + [m] + b;
    if Sorted(s) {
      assert forall i :: 0 <= i < |a| ==> s[i] == a[i];
      assert forall i :: 0 <= i < |b| ==> s[|a| + 1 + i] == b[i];
      assert s[|a|] == m;
    }
    if Sorted(a) && Sorted(b) && AllBefore(a, m) && AllAfter(b, m) {
      forall i, j | 0 <= i < j < |s| ensures Less(s[i], s[j]) {
        if i < |a| < j { LessTransitive(a[i], m, b[j - |a| - 1]); }
      }
    }
  }

  lemma {:induction false} BelowConcat(a: seq<Key>, b: seq<Key>, k: Key)
    ensures Below(a + b, k) == Below(a, k) + Below(b, k)
  {
    if a == [] {
      assert a + b == b;
    } else {
      assert (a + b)[1..] == a[1..] + b;
      BelowConcat(a[1..], b, k);
    }
  }

  lemma {:induction false} BelowEnds(s: seq<Key>, k: Key)
    ensures AllBefore(s, k) ==> Below(s, k) == |s|
    ensures AllAfter(s, k) ==> Below(s, k) == 0
  {
    if s != [] {
      BelowEnds(s[1..], k);
      LessTotal(s[0], k);
    }
  }

  /** Where `k` falls in a sorted sequence split at `m`. */
  lemma BelowJoin(a: seq<Key>, m: Key, b: seq<Key>, k: Key)
    requires Sorted(a + [m] + b)
    ensures Less(k, m) ==> Below(a + [m] + b, k) == Below(a, k)
    ensures Less(m, k) ==> Below(a + [m] + b, k) == |a| + 1 + Below(b, k)
    ensures k == m ==> Below(a + [m] + b, k) == |a|
  {
    SortedJoin(a, m, b);
    BelowConcat(a + [m], b, k);
    BelowConcat(a, [m], k);
    LessTotal(k, m);
    if Less(k, m) {
      forall i | 0 <= i < |b| ensures Less(k, b[i]) { LessTransitive(k, m, b[i]); }
      BelowEnds(b, k);
    } else if Less(m, k) {
      forall i | 0 <= i < |a| ensures Less(a[i], k) { LessTransitive(a[i], m, k); }
      BelowEnds(a, k);
    } else {
      BelowEnds(a, k);
      BelowEnds(b, k);
    }
  }

  /** The keys of a sorted sequence that come before `k` are exactly its first `Below(s, k)`. */
  lemma {:induction false} BelowSplitsSorted(s: seq<Key>, k: Key)
    requires Sorted(s)
    ensures AllBefore(s[..Below(s, k)], k)
    ensures forall i :: Below(s, k) <= i < |s| ==> s[i] == k || Less(k, s[i])
    ensures k in s <==> Below(s, k) < |s| && s[Below(s, k)] == k
  {
    if s != [] {
      LessTotal(s[0], k);
      BelowSplitsSorted(s[1..], k);
      if !Less(s[0], k) {
        forall i | 0 <= i < |s| ensures s[i] == k || Less(k, s[i]) {
          if 0 < i && s[0] != k { LessTransitive(k, s[0], s[i]); }
        }
        forall i | 1 <= i < |s| ensures Less(k, s[i]) {
          if s[0] != k { LessTransitive(k, s[0], s[i]); }
        }
        BelowEnds(s[1..], k);
        forall i | 1 <= i < |s| ensures s[i] != k { LessTotal(k, s[i]); }
      }
    }
  }

  lemma InsertAtKeepsSorted(s: seq<Key>, k: Key)
    requires Sorted(s) && k !in s
    ensures Sorted(InsertAt(s, Below(s, k), k))
  {
    BelowSplitsSorted(s, k);
    SortedJoin(s[..Below(s, k)], k, s[Below(s, k)..]);
  }

  /** A sorted sequence is determined by its set of keys. */
  lemma {:induction false} SortedUnique(s: seq<Key>, u: seq<Key>)
    requires Sorted(s) && Sorted(u)
    requires forall k :: k in s <==> k in u
    ensures s == u
  {
    assert s != [] ==> s[0] in u;
    assert u != [] ==> u[0] in s;
    if s != [] {
      LessTotal(s[0], u[0]);
      assert s[0] == u[0];
      forall k ensures k in s[1..] <==> k in u[1..] {
        LessTotal(s[0], k);
        if k in s[1..] { assert k in s && Less(s[0], k); }
        if k in u[1..] { assert k in u && Less(u[0], k); }
      }
      SortedUnique(s[1..], u[1..]);
      assert s == [s[0]] + s[1..] && u == [u[0]] + u[1..];
    }
  }

  // ---------- the invariant ----------

  ghost predicate Heap(t: Tree) {
    t.Node? ==> Heap(t.left) && Heap(t.right) && TopPrio(t.left) <= t.prio && TopPrio(t.right) <= t.prio
  }

  ghost predicate Hashed(t: Tree) {
    t.Node? ==> Hashed(t.left) && Hashed(t.right) && t.prio == Priority(t.key)
  }

  /** Search-tree order, heap order and the hashed priorities. */
  ghost predicate IsTreap(t: Tree) {
    Sorted(InOrder(t)) && Heap(t) && Hashed(t)
  }

  lemma SubtreesAreTreaps(t: Tree)
    requires IsTreap(t) && t.Node?
    ensures IsTreap(t.left) && IsTreap(t.right)
    ensures AllBefore(InOrder(t.left), t.key) && AllAfter(InOrder(t.right), t.key)
  {
    SortedJoin(InOrder(t.left), t.key, InOrder(t.right));
  }

  // ---------- the textbook forms ----------

  /** The part of `t` ahead of `k`. */
  function SplitLeft(t: Tree, k: Key): Tree {
    if t.Leaf? then Leaf
    else if Less(k, t.key) then SplitLeft(t.left, k)
    else t.(right := SplitLeft(t.right, k))
  }

  /** The part of `t` behind `k`. */
  function SplitRight(t: Tree, k: Key): Tree {
    if t.Leaf? then Leaf
    else if Less(k, t.key) then t.(left := SplitRight(t.left, k))
    else SplitRight(t.right, k)
  }

  /** Two treaps, one wholly ahead of the other, made one; on equal priorities `r` goes on top. */
  function Merge(l: Tree, r: Tree): Tree {
    if l.Leaf? then r
    else if r.Leaf? then l
    else if l.prio > r.prio then l.(right := Merge(l.right, r))
    else r.(left := Merge(l, r.left))
  }

  /** Insertion by splitting at the point where the new priority wins, without rotations. */
  function SplitInsert(t: Tree, k: Key): Tree {
    if t.Leaf? || Priority(k) > t.prio then Node(SplitLeft(t, k), k, Priority(k), SplitRight(t, k))
    else if Less(k, t.key) then t.(left := SplitInsert(t.left, k))
    else t.(right := SplitInsert(t.right, k))
  }

  /** Deletion by merging the two subtrees of the target, without rotations. */
  function MergeDelete(t: Tree, k: Key): Tree {
    if t.Leaf? then Leaf
    else if k == t.key then Merge(t.left, t.right)
    else if Less(k, t.key) then t.(left := MergeDelete(t.left, k))
    else t.(right := MergeDelete(t.right, k))
  }

  /** The bottom-up rotations of insertion amount to one split where the new priority wins. */
  lemma {:induction false} InsertIsSplitInsert(t: Tree, k: Key)
    requires Heap(t)
    ensures Insert(t, k) == SplitInsert(t, k)
    ensures TopPrio(Insert(t, k)) == Max(TopPrio(t), Priority(k))
  {
    if t.Node? {
      if Less(k, t.key) {
        InsertIsSplitInsert(t.left, k);
      } else {
        InsertIsSplitInsert(t.right, k);
      }
    }
  }

  lemma {:induction false} DeleteRootIsMerge(t: Tree)
    requires t.Node?
    ensures Delete(t, t.key) == Merge(t.left, t.right)
    decreases Size(t)
  {
    if t.left.Node? && t.right.Node? {
      if t.left.prio > t.right.prio {
        DeleteRootIsMerge(RotateRight(t).right);
      } else {
        DeleteRootIsMerge(RotateLeft(t).left);
      }
    }
  }

  /** The downward rotations of deletion amount to one merge of the target's subtrees. */
  lemma {:induction false} DeleteIsMergeDelete(t: Tree, k: Key)
    ensures Delete(t, k) == MergeDelete(t, k)
  {
    if t.Node? {
      if k == t.key {
        DeleteRootIsMerge(t);
      } else if Less(k, t.key) {
        DeleteIsMergeDelete(t.left, k);
      } else {
        DeleteIsMergeDelete(t.right, k);
      }
    }
  }

  // ---------- what insertion and deletion keep ----------

  lemma {:induction false} SplitKeepsOrder(t: Tree, k: Key)
    ensures InOrder(SplitLeft(t, k)) + InOrder(SplitRight(t, k)) == InOrder(t)
  {
    if t.Node? {
      if Less(k, t.key) {
        SplitKeepsOrder(t.left, k);
        RegroupFront(InOrder(SplitLeft(t.left, k)), InOrder(SplitRight(t.left, k)), t.key, InOrder(t.right));
      } else {
        SplitKeepsOrder(t.right, k);
        RegroupBack(InOrder(t.left), t.key, InOrder(SplitLeft(t.right, k)), InOrder(SplitRight(t.right, k)));
      }
    }
  }

  lemma {:induction false} SplitAtBelow(t: Tree, k: Key)
    requires Sorted(InOrder(t)) && k !in InOrder(t)
    ensures Size(SplitLeft(t, k)) == Below(InOrder(t), k)
  {
    if t.Node? {
      var a, b := InOrder(t.left), InOrder(t.right);
      SortedJoin(a, t.key, b);
      BelowJoin(a, t.key, b, k);
      MembersOfJoin(a, t.key, b, k);
      LessTotal(k, t.key);
      SplitAtBelow(if Less(k, t.key) then t.left else t.right, k);
    }
  }

  lemma SplitInOrder(t: Tree, k: Key)
    requires Sorted(InOrder(t)) && k !in InOrder(t)
    ensures InOrder(SplitLeft(t, k)) == InOrder(t)[..Below(InOrder(t), k)]
    ensures InOrder(SplitRight(t, k)) == InOrder(t)[Below(InOrder(t), k)..]
  {
    SplitKeepsOrder(t, k);
    SplitAtBelow(t, k);
  }

  lemma {:induction false} SplitKeepsHeap(t: Tree, k: Key)
    requires Heap(t) && Hashed(t)
    ensures Heap(SplitLeft(t, k)) && Heap(SplitRight(t, k))
    ensures Hashed(SplitLeft(t, k)) && Hashed(SplitRight(t, k))
    ensures TopPrio(SplitLeft(t, k)) <= TopPrio(t) && TopPrio(SplitRight(t, k)) <= TopPrio(t)
  {
    if t.Node? {
      SplitKeepsHeap(t.left, k);
      SplitKeepsHeap(t.right, k);
    }
  }

  lemma {:induction false} MergeKeepsHeap(l: Tree, r: Tree)
    requires Heap(l) && Heap(r) && Hashed(l) && Hashed(r)
    ensures Heap(Merge(l, r)) && Hashed(Merge(l, r))
    ensures TopPrio(Merge(l, r)) == Max(TopPrio(l), TopPrio(r))
    decreases l, r
  {
    if l.Node? && r.Node? {
      if l.prio > r.prio {
        MergeKeepsHeap(l.right, r);
      } else {
        MergeKeepsHeap(l, r.left);
      }
    }
  }

  lemma {:induction false} MergeInOrder(l: Tree, r: Tree)
    ensures InOrder(Merge(l, r)) == InOrder(l) + InOrder(r)
    decreases l, r
  {
    if l.Node? && r.Node? {
      if l.prio > r.prio {
        MergeInOrder(l.right, r);
        var a, b, c := InOrder(l.left) + [l.key], InOrder(l.right), InOrder(r);
        assert a + (b + c) == (a + b) + c;
      } else {
        MergeInOrder(l, r.left);
        var a, b, c := InOrder(l), InOrder(r.left), [r.key];
        assert (a + b) + c + InOrder(r.right) == a + (b + c + InOrder(r.right));
      }
    }
  }

  lemma {:induction false} InsertKeepsHeap(t: Tree, k: Key)
    requires Heap(t) && Hashed(t)
    ensures Heap(Insert(t, k)) && Hashed(Insert(t, k))
    ensures TopPrio(Insert(t, k)) == Max(TopPrio(t), Priority(k))
  {
    InsertIsSplitInsert(t, k);
    if t.Leaf? || Priority(k) > t.prio {
      SplitKeepsHeap(t, k);
    } else if Less(k, t.key) {
      InsertKeepsHeap(t.left, k);
      InsertIsSplitInsert(t.left, k);
    } else {
      InsertKeepsHeap(t.right, k);
      InsertIsSplitInsert(t.right, k);
    }
  }

  lemma InsertAtJoin(a: seq<Key>, m: Key, b: seq<Key>, i: nat, k: Key)
    ensures i <= |a| ==> InsertAt(a + [m] + b, i, k) == InsertAt(a, i, k) + [m] + b
    ensures i <= |b| ==> InsertAt(a + [m] + b, |a| + 1 + i, k) == a + [m] + InsertAt(b, i, k)
  {
    var s := a + [m] + b;
    if i <= |a| {
      assert s[..i] == a[..i] && s[i..] == a[i..] + [m] + b;
    }
    if i <= |b| {
      assert s[..|a| + 1 + i] == a + [m] + b[..i] && s[|a| + 1 + i..] == b[i..];
    }
  }

  lemma RemoveMiddle(a: seq<Key>, m: Key, b: seq<Key>)
    ensures RemoveAt(a + [m] + b, |a|) == a + b
  {
    assert (a + [m] + b)[..|a|] == a && (a + [m] + b)[|a| + 1..] == b;
  }

  lemma RemoveInFront(a: seq<Key>, m: Key, b: seq<Key>, i: nat)
    requires i < |a|
    ensures RemoveAt(a + [m] + b, i) == RemoveAt(a, i) + [m] + b
  {
    var s := a + [m] + b;
    assert s[..i] == a[..i] && s[i + 1..] == a[i + 1..] + [m] + b;
  }

  lemma RemoveBehind(a: seq<Key>, m: Key, b: seq<Key>, i: nat)
    requires i < |b|
    ensures RemoveAt(a + [m] + b, |a| + 1 + i) == a + [m] + RemoveAt(b, i)
  {
    var s := a + [m] + b;
    assert s[..|a| + 1 + i] == a + [m] + b[..i] && s[|a| + 1 + i + 1..] == b[i + 1..];
  }

  lemma MembersOfJoin(a: seq<Key>, m: Key, b: seq<Key>, k: Key)
    requires Sorted(a + [m] + b)
    ensures Less(k, m) ==> (k in a + [m] + b <==> k in a)
    ensures Less(m, k) ==> (k in a + [m] + b <==> k in b)
    ensures k == m ==> k in a + [m] + b
  {
    SortedJoin(a, m, b);
    LessTotal(k, m);
    assert (a + [m] + b)[|a|] == m;
    if k in a { assert Less(k, m); }
    if k in b { assert Less(m, k); }
  }

  lemma {:induction false} InsertStep(t: Tree, k: Key)
    requires t.Node?
    ensures Less(k, t.key) ==> InOrder(Insert(t, k)) == InOrder(Insert(t.left, k)) + [t.key] + InOrder(t.right)
    ensures !Less(k, t.key) ==> InOrder(Insert(t, k)) == InOrder(t.left) + [t.key] + InOrder(Insert(t.right, k))
  {
    if Less(k, t.key) {
      RotationsKeepOrder(t.(left := Insert(t.left, k)));
    } else {
      RotationsKeepOrder(t.(right := Insert(t.right, k)));
    }
  }

  lemma {:induction false} InsertInOrder(t: Tree, k: Key)
    requires Sorted(InOrder(t)) && k !in InOrder(t)
    ensures InOrder(Insert(t, k)) == InsertAt(InOrder(t), Below(InOrder(t), k), k)
  {
    if t.Node? {
      var a, b := InOrder(t.left), InOrder(t.right);
      SortedJoin(a, t.key, b);
      BelowJoin(a, t.key, b, k);
      MembersOfJoin(a, t.key, b, k);
      LessTotal(k, t.key);
      InsertStep(t, k);
      if Less(k, t.key) {
        InsertInOrder(t.left, k);
        InsertAtJoin(a, t.key, b, Below(a, k), k);
      } else {
        InsertInOrder(t.right, k);
        InsertAtJoin(a, t.key, b, Below(b, k), k);
      }
    }
  }

  lemma {:induction false} DeleteKeepsHeap(t: Tree, k: Key)
    requires Heap(t) && Hashed(t)
    ensures Heap(Delete(t, k)) && Hashed(Delete(t, k))
    ensures TopPrio(Delete(t, k)) <= TopPrio(t)
  {
    if t.Node? {
      if k == t.key {
        DeleteRootIsMerge(t);
        MergeKeepsHeap(t.left, t.right);
      } else if Less(k, t.key) {
        DeleteKeepsHeap(t.left, k);
      } else {
        DeleteKeepsHeap(t.right, k);
      }
    }
  }

  lemma {:induction false} MergeDeleteInOrder(t: Tree, k: Key)
    requires Sorted(InOrder(t)) && k in InOrder(t)
    ensures var i := Below(InOrder(t), k);
            i < |InOrder(t)| && InOrder(MergeDelete(t, k)) == RemoveAt(InOrder(t), i)
  {
    RemoveFromJoin(InOrder(t.left), t.key, InOrder(t.right), k);
    MergeDeleteStep(t, k);
    LessTotal(k, t.key);
    if Less(k, t.key) {
      MergeDeleteInOrder(t.left, k);
    } else if Less(t.key, k) {
      MergeDeleteInOrder(t.right, k);
    }
  }

  lemma RemoveFromJoin(a: seq<Key>, m: Key, b: seq<Key>, k: Key)
    requires Sorted(a + [m] + b) && k in a + [m] + b
    ensures Sorted(a) && Sorted(b)
    ensures var s := a + [m] + b;
            var i := Below(s, k);
            && (k == m ==> i < |s| && RemoveAt(s, i) == a + b)
            && (Less(k, m) ==> k in a && (Below(a, k) < |a| ==>
                  i < |s| && RemoveAt(s, i) == RemoveAt(a, Below(a, k)) + [m] + b))
            && (Less(m, k) ==> k in b && (Below(b, k) < |b| ==>
                  i < |s| && RemoveAt(s, i) == a + [m] + RemoveAt(b, Below(b, k))))
  {
    SortedJoin(a, m, b);
    BelowJoin(a, m, b, k);
    MembersOfJoin(a, m, b, k);
    LessTotal(k, m);
    if k == m {
      RemoveMiddle(a, m, b);
    } else if Less(k, m) {
      if Below(a, k) < |a| { RemoveInFront(a, m, b, Below(a, k)); }
    } else if Below(b, k) < |b| {
      RemoveBehind(a, m, b, Below(b, k));
    }
  }

  lemma MergeDeleteStep(t: Tree, k: Key)
    requires t.Node?
    ensures var a, m, b, r := InOrder(t.left), t.key, InOrder(t.right), InOrder(MergeDelete(t, k));
            && (k == m ==> r == a + b)
            && (k != m && Less(k, m) ==> r == InOrder(MergeDelete(t.left, k)) + [m] + b)
            && (k != m && !Less(k, m) ==> r == a + [m] + InOrder(MergeDelete(t.right, k)))
  {
    MergeInOrder(t.left, t.right);
  }

  lemma {:induction false} MergeDeleteAbsent(t: Tree, k: Key)
    requires k !in InOrder(t)
    ensures MergeDelete(t, k) == t
  {
    if t.Node? {
      assert InOrder(t)[Size(t.left)] == t.key;
      MergeDeleteAbsent(t.left, k);
      MergeDeleteAbsent(t.right, k);
    }
  }

  lemma RemoveAtSorted(s: seq<Key>, i: nat)
    requires Sorted(s) && i < |s|
    ensures Sorted(RemoveAt(s, i))
    ensures forall x :: x in RemoveAt(s, i) <==> x in s && x != s[i]
  {
    var a, k, b := s[..i], s[i], s[i + 1..];
    assert s == a + [k] + b;
    SortedJoin(a, k, b);
    forall p, q | 0 <= p < q < |a + b| ensures Less((a + b)[p], (a + b)[q]) {
      if p < |a| <= q { LessTransitive(a[p], k, b[q - |a|]); }
    }
    forall x ensures x in a + b <==> x in s && x != k {
      LessTotal(x, k);
      MembersOfJoin(a, k, b, x);
    }
  }

  /** Insertion puts the key at its place in the leaderboard order and keeps the treap. */
  lemma InsertKeepsTreap(t: Tree, k: Key)
    requires IsTreap(t) && k !in InOrder(t)
    ensures IsTreap(Insert(t, k))
    ensures InOrder(Insert(t, k)) == InsertAt(InOrder(t), Below(InOrder(t), k), k)
    ensures forall x :: x in InOrder(Insert(t, k)) <==> x in InOrder(t) || x == k
  {
    InsertKeepsHeap(t, k);
    InsertInOrder(t, k);
    InsertAtKeepsSorted(InOrder(t), k);
    var i := Below(InOrder(t), k);
    assert InOrder(t) == InOrder(t)[..i] + InOrder(t)[i..];
  }

  /**
   Deletion takes exactly the given key out of the leaderboard order, or nothing when the key is
   absent, and restores the treap although the target passes below smaller priorities.
   */
  lemma DeleteKeepsTreap(t: Tree, k: Key)
    requires IsTreap(t)
    ensures IsTreap(Delete(t, k))
    ensures k !in InOrder(t) ==> Delete(t, k) == t
    ensures k in InOrder(t) ==>
              var i := Below(InOrder(t), k);
              i < |InOrder(t)| && InOrder(t)[i] == k && InOrder(Delete(t, k)) == RemoveAt(InOrder(t), i)
    ensures forall x :: x in InOrder(Delete(t, k)) <==> x in InOrder(t) && x != k
  {
    DeleteKeepsHeap(t, k);
    DeleteIsMergeDelete(t, k);
    BelowSplitsSorted(InOrder(t), k);
    if k !in InOrder(t) {
      MergeDeleteAbsent(t, k);
    } else {
      MergeDeleteInOrder(t, k);
      RemoveAtSorted(InOrder(t), Below(InOrder(t), k));
    }
  }

  // ---------- who comes out on top ----------

  /** A new key only gets above keys of smaller priority: of a tie the older one stays above. */
  lemma TopAfterInsert(t: Tree, k: Key)
    requires IsTreap(t)
    ensures Insert(t, k).key == if t.Leaf? || Priority(k) > t.prio then k else t.key
  {
    InsertIsSplitInsert(t, k);
  }

  /** Of the subtrees of a deleted root the one of greater priority comes up, of a tie the right one. */
  lemma TopAfterDelete(t: Tree)
    requires t.Node? && t.left.Node? && t.right.Node?
    ensures var r := Delete(t, t.key);
            r.Node? && r.key == if t.left.prio > t.right.prio then t.left.key else t.right.key
  {
    DeleteRootIsMerge(t);
  }
}
