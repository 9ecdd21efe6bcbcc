/**
 The store's state as a value: a treap beside the best score of every talent, and what any run of
 updates makes of it.
 */
module Leaderboard {
  import opened Keys
  import opened Treaps
  import opened Shapes

  datatype Update = Update(id: string, score: int)

  datatype Board = Board(tree: Tree, best: map<string, int>)

  const EMPTY := Board(Leaf, map[])

  /** One update under the store's lock: only a strictly better score changes anything. */
  function Improve(b: Board, u: Update): Board {
    if u.id in b.best && u.score <= b.best[u.id] then b
    else
      var rest := if u.id in b.best then Delete(b.tree, Key(b.best[u.id], u.id)) else b.tree;
      Board(Insert(rest, Key(u.score, u.id)), b.best[u.id := u.score])
  }

  function Replay(b: Board, us: seq<Update>): Board
    decreases |us|
  {
    if us == [] then b else Replay(Improve(b, us[0]), us[1..])
  }

  lemma {:induction false} ReplayConcat(b: Board, us: seq<Update>, vs: seq<Update>)
    ensures Replay(b, us + vs) == Replay(Replay(b, us), vs)
    decreases |us|
  {
    if us == [] {
      assert us + vs == vs;
    } else {
      assert (us + vs)[1..] == us[1..] + vs;
      ReplayConcat(Improve(b, us[0]), us[1..], vs);
    }
  }

  lemma ReplayOne(b: Board, u: Update)
    ensures Replay(b, [u]) == Improve(b, u)
  {
    assert Replay(Improve(b, u), [u][1..]) == Improve(b, u);
  }

  predicate Holds(best: map<string, int>, k: Key) {
    k.id in best && best[k.id] == k.score
  }

  /** The tree is a treap over exactly one key per talent, the one carrying its best score. */
  ghost predicate Consistent(b: Board) {
    IsTreap(b.tree) && forall k :: k in InOrder(b.tree) <==> Holds(b.best, k)
  }

  lemma HoldsUpdated(best: map<string, int>, k: Key, x: Key)
    ensures Holds(best[k.id := k.score], x) <==> x == k || (Holds(best, x) && x.id != k.id)
  {
  }

  lemma ImproveKeepsConsistent(b: Board, u: Update)
    requires Consistent(b)
    ensures Consistent(Improve(b, u))
  {
    if !(u.id in b.best && u.score <= b.best[u.id]) {
      var k := Key(u.score, u.id);
      var rest := b.tree;
      if u.id in b.best {
        rest := Delete(b.tree, Key(b.best[u.id], u.id));
        DeleteKeepsTreap(b.tree, Key(b.best[u.id], u.id));
      }
      assert !Holds(b.best, k);
      InsertKeepsTreap(rest, k);
      forall x ensures x in InOrder(Improve(b, u).tree) <==> Holds(Improve(b, u).best, x) {
        HoldsUpdated(b.best, k, x);
      }
    }
  }

  /** Search order, heap order and the one-key-per-talent correspondence survive every run. */
  lemma {:induction false} ReplayKeepsConsistent(b: Board, us: seq<Update>)
    requires Consistent(b)
    ensures Consistent(Replay(b, us))
    decreases |us|
  {
    if us != [] {
      ImproveKeepsConsistent(b, us[0]);
      ReplayKeepsConsistent(Improve(b, us[0]), us[1..]);
    }
  }

  // ---------- the best score ----------

  ghost predicate IsBest(us: seq<Update>, id: string, score: int) {
    Update(id, score) in us && forall u :: u in us && u.id == id ==> u.score <= score
  }

  lemma {:induction false} ReplayBestFrom(b: Board, us: seq<Update>, id: string)
    ensures var r := Replay(b, us).best;
            && (id in r <==> id in b.best || exists u :: u in us && u.id == id)
            && (id in b.best ==> id in r && b.best[id] <= r[id])
            && (forall u :: u in us && u.id == id ==> id in r && u.score <= r[id])
            && (id in r ==> Update(id, r[id]) in us || (id in b.best && b.best[id] == r[id]))
    decreases |us|
  {
    if us != [] {
      ReplayBestFrom(Improve(b, us[0]), us[1..], id);
      assert us == [us[0]] + us[1..];
      assert forall u :: u in us <==> u == us[0] || u in us[1..];
      var r := Replay(b, us).best;
      if id in r && Improve(b, us[0]).best != b.best && id == us[0].id {
        assert Improve(b, us[0]).best[id] == us[0].score;
        assert Update(id, us[0].score) == us[0];
      }
    }
  }

  /** After any run a talent is present if and only if it was ever updated, with its best score. */
  lemma ReplayKeepsBest(us: seq<Update>, id: string)
    ensures id in Replay(EMPTY, us).best <==> exists u :: u in us && u.id == id
    ensures id in Replay(EMPTY, us).best ==> IsBest(us, id, Replay(EMPTY, us).best[id])
  {
    ReplayBestFrom(EMPTY, us, id);
  }

  /** Neither the order of updates nor repetitions of them matter to the best scores. */
  lemma BestIgnoresOrder(us: seq<Update>, vs: seq<Update>)
    requires forall u :: u in us <==> u in vs
    ensures Replay(EMPTY, us).best == Replay(EMPTY, vs).best
  {
    var r, q := Replay(EMPTY, us).best, Replay(EMPTY, vs).best;
    forall id ensures (id in r <==> id in q) && (id in r ==> r[id] == q[id]) {
      ReplayKeepsBest(us, id);
      ReplayKeepsBest(vs, id);
    }
  }

  // ---------- the shape of the tree ----------

  lemma ConsistentBoardsAgree(b: Board, c: Board)
    requires Consistent(b) && Consistent(c)
    ensures b.best == c.best <==> InOrder(b.tree) == InOrder(c.tree)
  {
    if b.best == c.best {
      SortedUnique(InOrder(b.tree), InOrder(c.tree));
    }
    if InOrder(b.tree) == InOrder(c.tree) {
      forall id ensures id in b.best ==> Holds(c.best, Key(b.best[id], id)) {
        if id in b.best { assert Key(b.best[id], id) in InOrder(b.tree); }
      }
      forall id ensures id in c.best ==> Holds(b.best, Key(c.best[id], id)) {
        if id in c.best { assert Key(c.best[id], id) in InOrder(c.tree); }
      }
    }
  }

  ghost predicate DistinctIds(ks: seq<Key>) {
    forall i, j :: 0 <= i < j < |ks| ==> ks[i].id != ks[j].id
  }

  function FirstUpdates(ks: seq<Key>): (us: seq<Update>)
    ensures |us| == |ks|
  {
    if ks == [] then [] else [Update(ks[0].id, ks[0].score)] + FirstUpdates(ks[1..])
  }

  lemma {:induction false} ReplayFirstUpdates(b: Board, ks: seq<Key>)
    requires DistinctIds(ks) && forall k :: k in ks ==> k.id !in b.best
    ensures Replay(b, FirstUpdates(ks)).tree == InsertAll(b.tree, ks)
    decreases |ks|
  {
    if ks != [] {
      var u := Update(ks[0].id, ks[0].score);
      assert FirstUpdates(ks)[0] == u && FirstUpdates(ks)[1..] == FirstUpdates(ks[1..]);
      assert Improve(b, u).tree == Insert(b.tree, ks[0]);
      forall k | k in ks[1..] ensures k.id !in Improve(b, u).best {
        assert k in ks;
      }
      ReplayFirstUpdates(Improve(b, u), ks[1..]);
    }
  }

  lemma DistinctIdsJoin(k: Key, a: seq<Key>, b: seq<Key>)
    requires DistinctIds(a) && DistinctIds(b)
    requires forall x :: x in a || x in b ==> x.id != k.id
    requires forall x, y :: x in a && y in b ==> x.id != y.id
    ensures DistinctIds([k] + a + b)
  {
  }

  lemma PartsShareNoKey(t: Tree, k: Key, m: Key)
    requires IsTreap(t) && t.Node? && k in InOrder(t.left) && m in InOrder(t.right)
    ensures k != m && k != t.key && m != t.key
  {
    SubtreesAreTreaps(t);
    LessTotal(k, t.key);
    LessTotal(m, t.key);
  }

  lemma PartsAreMembers(t: Tree, k: Key)
    requires t.Node? && (k == t.key || k in InOrder(t.left) || k in InOrder(t.right))
    ensures k in InOrder(t)
  {
    assert InOrder(t)[Size(t.left)] == t.key;
  }

  lemma {:induction false} PreOrderHasDistinctIds(t: Tree, best: map<string, int>)
    requires IsTreap(t) && forall k :: k in InOrder(t) ==> Holds(best, k)
    ensures DistinctIds(PreOrder(t))
  {
    if t.Node? {
      SubtreesAreTreaps(t);
      var l, r := PreOrder(t.left), PreOrder(t.right);
      PreOrderMembers(t.left);
      PreOrderMembers(t.right);
      PartsAreMembers(t, t.key);
      forall k | k in l ensures Holds(best, k) && k.id != t.key.id {
        PartsAreMembers(t, k);
        LessTotal(k, t.key);
      }
      forall k | k in r ensures Holds(best, k) && k.id != t.key.id {
        PartsAreMembers(t, k);
        LessTotal(k, t.key);
      }
      forall k, m | k in l && m in r ensures k.id != m.id { PartsShareNoKey(t, k, m); }
      PreOrderHasDistinctIds(t.left, best);
      PreOrderHasDistinctIds(t.right, best);
      DistinctIdsJoin(t.key, l, r);
    }
  }

  /** Every treap over the board's keys is the tree some other run leaves behind. */
  lemma EveryTreapIsReached(b: Board, t: Tree) returns (us: seq<Update>)
    requires Consistent(b) && IsTreap(t) && InOrder(t) == InOrder(b.tree)
    ensures Replay(EMPTY, us) == Board(t, b.best)
  {
    PreOrderHasDistinctIds(t, b.best);
    PreOrderRebuilds(t);
    us := FirstUpdates(PreOrder(t));
    ReplayFirstUpdates(EMPTY, PreOrder(t));
    ReplayKeepsConsistent(EMPTY, us);
    ConsistentBoardsAgree(b, Replay(EMPTY, us));
  }

  /** Whatever run leads to the same best scores leads to the same tree. */
  ghost predicate HistoryIndependent(us: seq<Update>) {
    forall vs :: Replay(EMPTY, vs).best == Replay(EMPTY, us).best ==> Replay(EMPTY, vs).tree == Replay(EMPTY, us).tree
  }

  /**
   The tree is a function of the best scores if and only if the priorities of the present keys,
   in leaderboard order, are separated; pairwise distinct priorities always are.
   */
  lemma HistoryIndependentIffSeparated(us: seq<Update>)
    ensures HistoryIndependent(us) <==> Separated(Priorities(InOrder(Replay(EMPTY, us).tree)))
  {
    var b := Replay(EMPTY, us);
    ReplayKeepsConsistent(EMPTY, us);
    ShapeForcedIffSeparated(InOrder(b.tree));
    if Separated(Priorities(InOrder(b.tree))) {
      forall vs | Replay(EMPTY, vs).best == b.best ensures Replay(EMPTY, vs).tree == b.tree {
        ReplayKeepsConsistent(EMPTY, vs);
        ConsistentBoardsAgree(b, Replay(EMPTY, vs));
      }
    } else {
      var t, u :| IsTreap(t) && IsTreap(u) && InOrder(t) == InOrder(b.tree) && InOrder(u) == InOrder(b.tree) && t != u;
      var other := EveryTreapIsReached(b, if t == b.tree then u else t);
      assert Replay(EMPTY, other).best == b.best && Replay(EMPTY, other).tree != b.tree;
    }
  }

  lemma HashOfTwo(score: int, id: string)
    requires |id| == 2
    ensures Priority(Key(score, id))
         == var h := Wrap64(score * MULTIPLIER + ADDEND + id[0] as int * HASH_MULTIPLIER + id[1] as int);
            if h < 0 then -h else h
  {
    assert id[..1][..0] == [] && id[..1] == [id[0]];
    assert IdPolynomial(id[..1]) == id[0] as int;
    assert IdPolynomial(id) == id[0] as int * HASH_MULTIPLIER + id[1] as int;
  }

  lemma ReplayTwo(b: Board, u: Update, v: Update)
    ensures Replay(b, [u, v]) == Improve(Improve(b, u), v)
  {
    assert [u, v][1..] == [v] && [v][1..] == [];
    assert Replay(Improve(b, u), [v]) == Replay(Improve(Improve(b, u), v), []);
  }

  predicate HasRoot(t: Tree, k: Key) {
    t.Node? && t.key == k
  }

  /** Two ids with one hash and one score: the tree remembers which came first, at its root. */
  lemma HistoryShowsOnTies()
    ensures var a, b := Update("Aa", 0), Update("BB", 0);
            && Replay(EMPTY, [a, b]).best == Replay(EMPTY, [b, a]).best
            && HasRoot(Replay(EMPTY, [a, b]).tree, Key(0, "Aa"))
            && HasRoot(Replay(EMPTY, [b, a]).tree, Key(0, "BB"))
  {
    var a, b := Update("Aa", 0), Update("BB", 0);
    HashOfTwo(0, "Aa");
    HashOfTwo(0, "BB");
    var p := Priority(Key(0, "Aa"));
    assert p == 14457 == Priority(Key(0, "BB"));
    assert Less(Key(0, "Aa"), Key(0, "BB")) && !Less(Key(0, "BB"), Key(0, "Aa"));
    BestIgnoresOrder([a, b], [b, a]);
    ReplayTwo(EMPTY, a, b);
    ReplayTwo(EMPTY, b, a);
    var ta, tb := Node(Leaf, Key(0, "Aa"), p, Leaf), Node(Leaf, Key(0, "BB"), p, Leaf);
    assert Improve(EMPTY, a) == Board(ta, map["Aa" := 0]);
    assert Improve(EMPTY, b) == Board(tb, map["BB" := 0]);
    assert Improve(Improve(EMPTY, a), b).tree == ta.(right := tb);
    assert Improve(Improve(EMPTY, b), a).tree == tb.(left := ta);
  }

  /** A key that comes between two tied ones and is deleted again leaves them the other way round. */
  lemma DeletionMayReshape()
    ensures var t := Insert(Insert(Leaf, Key(0, "Aa")), Key(0, "BB"));
            Delete(Insert(t, Key(0, "Az")), Key(0, "Az")) != t
  {
    var a, z, b := Key(0, "Aa"), Key(0, "Az"), Key(0, "BB");
    HashOfTwo(0, a.id);
    HashOfTwo(0, z.id);
    HashOfTwo(0, b.id);
    assert Priority(a) == 14457 == Priority(b) && Priority(z) == 14482;
    assert a.id[0] == 'A' == z.id[0] && b.id[0] == 'B' && a.id[1] == 'a' && z.id[1] == 'z';
    assert LexLess(a.id[1..], z.id[1..]) && LexLess(a.id, z.id) && LexLess(z.id, b.id) && LexLess(a.id, b.id);
    LessTotal(a, b);
    var t := Insert(Insert(Leaf, a), b);
    assert t == Node(Leaf, a, Priority(a), Node(Leaf, b, Priority(b), Leaf));
    assert InOrder(t) == [a, b];
    assert InOrder(t.right) == [b] && b in InOrder(t.right);
    assert TieAcross(t, z);
    DeleteUndoesInsertIff(t, z);
  }
}
