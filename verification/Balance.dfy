/**
 What the hashed priorities do to the shape of the tree.  They are meant to keep it balanced; where
 the hash does not wrap around they follow the scores and turn the tree into a list.
 */
module Balance {
  import opened Keys
  import opened Treaps
  import opened Shapes
  import opened Leaderboard
  import opened Ranks

  /** Better keys have greater priorities. */
  ghost predicate FollowsOrder(s: seq<Key>) {
    forall i, j :: 0 <= i < j < |s| ==> Priority(s[i]) > Priority(s[j])
  }

  lemma {:induction false} PolynomialIsNatural(id: string)
    ensures IdPolynomial(id) >= 0
  {
    if id != [] { PolynomialIsNatural(id[..|id| - 1]); }
  }

  /** As long as the sum fits 63 bits and the ids' hashes do not outweigh the score difference. */
  lemma PriorityFollowsScore(a: Key, b: Key)
    requires 0 <= b.score < a.score
    requires a.score * MULTIPLIER + ADDEND + IdPolynomial(a.id) < TWO_TO_THE_63
    requires IdPolynomial(b.id) - IdPolynomial(a.id) < (a.score - b.score) * MULTIPLIER
    ensures Less(a, b) && Priority(a) > Priority(b)
  {
    PolynomialIsNatural(a.id);
    PolynomialIsNatural(b.id);
  }

  // ---------- lists ----------

  /** Every node stands below all better ones: the tree is a list, and the fallback rank exact. */
  ghost predicate NoLeftChild(t: Tree) {
    forall k :: LeftOf(t, k) == 0
  }

  ghost predicate NeverRises(s: seq<Key>) {
    forall i, j :: 0 <= i < j < |s| ==> Priority(s[i]) >= Priority(s[j])
  }

  lemma NoLeftChildBelow(t: Tree)
    requires IsTreap(t) && t.Node?
    ensures NoLeftChild(t) <==> t.left.Leaf? && NoLeftChild(t.right)
  {
    SubtreesAreTreaps(t);
    if NoLeftChild(t) {
      assert LeftOf(t, t.key) == 0;
      forall k ensures LeftOf(t.right, k) == 0 {
        LessTotal(k, t.key);
        assert LeftOf(t, k) == 0;
        if k !in InOrder(t.right) { NothingLeftOfAbsent(t.right, k); }
      }
    }
    if t.left.Leaf? && NoLeftChild(t.right) {
      forall k ensures LeftOf(t, k) == 0 { assert LeftOf(t.right, k) == 0; }
    }
  }

  lemma {:induction false} ListIsHigh(t: Tree)
    requires IsTreap(t) && NoLeftChild(t)
    ensures Height(t) == Size(t) && NeverRises(InOrder(t))
  {
    if t.Node? {
      var s, rest := InOrder(t), InOrder(t.right);
      NoLeftChildBelow(t);
      SubtreesAreTreaps(t);
      ListIsHigh(t.right);
      assert s == [t.key] + rest;
      forall i, j | 0 <= i < j < |s| ensures Priority(s[i]) >= Priority(s[j]) {
        assert rest[j - 1] in rest;
        PriorityAtMostTop(t.right, rest[j - 1]);
      }
    }
  }

  lemma {:induction false} FollowingOrderMakesAList(t: Tree)
    requires IsTreap(t) && FollowsOrder(InOrder(t))
    ensures NoLeftChild(t) && Height(t) == Size(t)
  {
    if t.Node? {
      var s := InOrder(t);
      SubtreesAreTreaps(t);
      SlicesOfNode(t);
      assert s[0] in s && s[Size(t.left)] == t.key;
      PriorityAtMostTop(t, s[0]);
      forall i, j | 0 <= i < j < Size(t.right) ensures Priority(InOrder(t.right)[i]) > Priority(InOrder(t.right)[j]) {
        assert InOrder(t.right)[i] == s[i + 1] && InOrder(t.right)[j] == s[j + 1];
      }
      FollowingOrderMakesAList(t.right);
      NoLeftChildBelow(t);
    }
    ListIsHigh(t);
  }

  /** Where the priorities force the shape the tree is a list if and only if they follow the order. */
  lemma ListIff(t: Tree)
    requires IsTreap(t) && Separated(Priorities(InOrder(t)))
    ensures NoLeftChild(t) <==> FollowsOrder(InOrder(t))
  {
    var s, p := InOrder(t), Priorities(InOrder(t));
    if NoLeftChild(t) {
      ListIsHigh(t);
      forall i, j | 0 <= i < j < |s| ensures Priority(s[i]) > Priority(s[j]) {
        TieIsExceeded(p, i, j);
      }
    } else {
      assert FollowsOrder(s) ==> NoLeftChild(t) by { if FollowsOrder(s) { FollowingOrderMakesAList(t); } }
    }
  }

  function ListOf(s: seq<Key>): Tree {
    if s == [] then Leaf else Node(Leaf, s[0], Priority(s[0]), ListOf(s[1..]))
  }

  lemma {:induction false} ListOfIsTreap(s: seq<Key>)
    requires Sorted(s) && NeverRises(s)
    ensures InOrder(ListOf(s)) == s && IsTreap(ListOf(s)) && NoLeftChild(ListOf(s))
  {
    if s != [] {
      ListOfIsTreap(s[1..]);
      assert s == [s[0]] + s[1..];
      assert InOrder(ListOf(s)) == s;
      assert IsTreap(ListOf(s));
      NoLeftChildBelow(ListOf(s));
    }
  }

  /**
   Some history with the same best scores leaves a list if and only if the priorities of the keys
   never rise along the leaderboard.
   */
  lemma SomeHistoryMakesAListIff(us: seq<Update>)
    ensures (exists vs :: Replay(EMPTY, vs).best == Replay(EMPTY, us).best && NoLeftChild(Replay(EMPTY, vs).tree))
       <==> NeverRises(InOrder(Replay(EMPTY, us).tree))
  {
    var b := Replay(EMPTY, us);
    ReplayKeepsConsistent(EMPTY, us);
    if NeverRises(InOrder(b.tree)) {
      ListOfIsTreap(InOrder(b.tree));
      var vs := EveryTreapIsReached(b, ListOf(InOrder(b.tree)));
      assert Replay(EMPTY, vs).best == b.best;
    }
    if vs :| Replay(EMPTY, vs).best == b.best && NoLeftChild(Replay(EMPTY, vs).tree) {
      ReplayKeepsConsistent(EMPTY, vs);
      ConsistentBoardsAgree(b, Replay(EMPTY, vs));
      ListIsHigh(Replay(EMPTY, vs).tree);
    }
  }

  // ---------- small scores ----------

  /** A score small enough, and an id short enough, for the hash not to wrap around. */
  predicate Unwrapped(k: Key) {
    0 <= k.score && IdPolynomial(k.id) < MULTIPLIER && (k.score + 2) * MULTIPLIER < TWO_TO_THE_63
  }

  /** A store of talents with different scores in that range is a list. */
  lemma UnwrappedScoresMakeAList(b: Board)
    requires Consistent(b)
    requires forall id :: id in b.best ==> Unwrapped(Key(b.best[id], id))
    requires forall i, j :: i in b.best && j in b.best && i != j ==> b.best[i] != b.best[j]
    ensures NoLeftChild(b.tree) && Height(b.tree) == Size(b.tree)
  {
    var s := InOrder(b.tree);
    forall i, j | 0 <= i < j < |s| ensures Priority(s[i]) > Priority(s[j]) {
      assert s[i] in s && s[j] in s;
      LessTotal(s[i], s[j]);
      PolynomialIsNatural(s[i].id);
      PolynomialIsNatural(s[j].id);
      PriorityFollowsScore(s[i], s[j]);
    }
    FollowingOrderMakesAList(b.tree);
  }

  /** A different id of two characters for every number below its square. */
  const RADIX := 50_000

  function IdOf(i: nat): string
    requires i < RADIX * RADIX
  {
    [(i / RADIX) as char, (i % RADIX) as char]
  }

  lemma IdOfIsSmall(i: nat)
    requires i < RADIX * RADIX
    ensures IdPolynomial(IdOf(i)) < MULTIPLIER
  {
    var id := IdOf(i);
    assert id[..1][..0] == [] && id[..1] == [id[0]];
    assert IdPolynomial(id[..1]) == id[0] as int;
  }

  lemma IdOfIsInjective(i: nat, j: nat)
    requires i < RADIX * RADIX && j < RADIX * RADIX && IdOf(i) == IdOf(j)
    ensures i == j
  {
    assert IdOf(i)[0] as int * RADIX + IdOf(i)[1] as int == i;
    assert IdOf(j)[0] as int * RADIX + IdOf(j)[1] as int == j;
  }

  /** Every new talent is one fixed-point unit better than the last. */
  function Climb(n: nat): (us: seq<Update>)
    requires n <= RADIX * RADIX
  {
    if n == 0 then [] else Climb(n - 1) + [Update(IdOf(n - 1), n)]
  }

  /** The scores after `n` updates of the climb. */
  ghost predicate Climbed(best: map<string, int>, n: nat)
    requires n <= RADIX * RADIX
  {
    && (forall i :: 0 <= i < n ==> IdOf(i) in best && best[IdOf(i)] == i + 1)
    && (forall id :: id in best ==> exists i :: 0 <= i < n && IdOf(i) == id)
  }

  lemma ClimbedOneMore(best: map<string, int>, n: nat)
    requires n < RADIX * RADIX && Climbed(best, n)
    ensures IdOf(n) !in best && Climbed(best[IdOf(n) := n + 1], n + 1)
  {
    forall i | 0 <= i < n ensures IdOf(i) != IdOf(n) {
      if IdOf(i) == IdOf(n) { IdOfIsInjective(i, n); }
    }
  }

  lemma ClimbStep(n: nat)
    requires n < RADIX * RADIX
    ensures Replay(EMPTY, Climb(n + 1)) == Improve(Replay(EMPTY, Climb(n)), Update(IdOf(n), n + 1))
  {
    var u := Update(IdOf(n), n + 1);
    assert Climb(n + 1) == Climb(n) + [u];
    ReplayConcat(EMPTY, Climb(n), [u]);
    ReplayOne(Replay(EMPTY, Climb(n)), u);
  }

  lemma {:induction false} ClimbScores(n: nat)
    requires n <= RADIX * RADIX
    ensures Size(Replay(EMPTY, Climb(n)).tree) == n && Climbed(Replay(EMPTY, Climb(n)).best, n)
  {
    if n > 0 {
      var m := n - 1;
      ClimbScores(m);
      ClimbStep(m);
      ReplayKeepsConsistent(EMPTY, Climb(m));
      ClimbedOneMore(Replay(EMPTY, Climb(m)).best, m);
      NewTalent(Replay(EMPTY, Climb(m)), Update(IdOf(m), m + 1));
    }
  }

  lemma NewTalent(b: Board, u: Update)
    requires Consistent(b) && u.id !in b.best
    ensures Size(Improve(b, u).tree) == Size(b.tree) + 1 && Improve(b, u).best == b.best[u.id := u.score]
  {
    InsertKeepsTreap(b.tree, Key(u.score, u.id));
    assert Size(Improve(b, u).tree) == |InOrder(Improve(b, u).tree)|;
  }

  lemma ClimbedIsUnwrapped(best: map<string, int>, n: nat, id: string)
    requires n <= RADIX * RADIX && Climbed(best, n) && id in best
    ensures Unwrapped(Key(best[id], id))
  {
    var i :| 0 <= i < n && IdOf(i) == id;
    IdOfIsSmall(i);
  }

  lemma ClimbedIsList(b: Board, n: nat)
    requires n <= RADIX * RADIX && Consistent(b) && Climbed(b.best, n)
    ensures Height(b.tree) == Size(b.tree)
  {
    forall id | id in b.best ensures Unwrapped(Key(b.best[id], id)) { ClimbedIsUnwrapped(b.best, n, id); }
    UnwrappedScoresMakeAList(b);
  }

  /** A run, up to 2.5 billion talents long, after which the tree is as high as it has talents. */
  lemma ClimbMakesAList(n: nat)
    requires n <= RADIX * RADIX
    ensures Size(Replay(EMPTY, Climb(n)).tree) == Height(Replay(EMPTY, Climb(n)).tree) == n
  {
    ReplayKeepsConsistent(EMPTY, Climb(n));
    ClimbScores(n);
    ClimbedIsList(Replay(EMPTY, Climb(n)), n);
  }
}
