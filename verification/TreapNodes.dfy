/**
 The treap as it lives in memory: nodes linked by pointers, rewritten in place by rotations,
 insertion and deletion.  Every operation is proved to compute the function of the same name on
 the value the nodes represent, without ever sharing a node between two places of the tree.
 */
module TreapNodes {
  import opened Keys
  import opened Float64
  import T = Treaps

  /** A talent's best score with the event that earned it; updated in place. */
  class Record {
    var score: int
    var eventID: string
    var skill: string
    var rawMetric: Float

    constructor (score: int, eventID: string, skill: string, rawMetric: Float)
      ensures this.score == score && this.eventID == eventID && this.skill == skill && this.rawMetric == rawMetric
    {
      this.score, this.eventID, this.skill, this.rawMetric := score, eventID, skill, rawMetric;
    }
  }

  /** The id, score, priority and record of a node never change; its links and size do. */
  class Node {
    const id: string
    const score: int
    const prio: nat
    const record: Record
    var left: Node?
    var right: Node?
    var size: int
    ghost var Repr: set<Node>
    ghost var Tree: T.Tree

    constructor (id: string, score: int, prio: nat, record: Record)
      ensures Valid() && Repr == {this}
      ensures this.id == id && this.score == score && this.record == record
      ensures Tree == T.Node(T.Leaf, Key(score, id), prio, T.Leaf)
    {
      this.id, this.score, this.prio, this.record := id, score, prio, record;
      left, right, size := null, null, 1;
      Repr := {this};
      Tree := T.Node(T.Leaf, Key(score, id), prio, T.Leaf);
    }

    /** The value this node stands for, given its subtrees. */
    ghost function LinkedTree(): T.Tree
      reads this, left, right
    {
      T.Node(TreeOf(left), Key(score, id), prio, TreeOf(right))
    }

    ghost function LinkedRepr(): set<Node>
      reads this, left, right
    {
      {this} + ReprOf(left) + ReprOf(right)
    }

    /** Below this node are two separate, sound subtrees; its own size may be out of date. */
    ghost predicate Linked()
      reads this, left, right, ReprOf(left), ReprOf(right)
    {
      && ValidTree(left) && ValidTree(right)
      && this !in ReprOf(left) && this !in ReprOf(right) && ReprOf(left) !! ReprOf(right)
    }

    ghost predicate Valid()
      reads this, Repr
      ensures Valid() ==> this in Repr
      decreases Repr
    {
      && this in Repr
      && (left != null ==> left in Repr)
      && (right != null ==> right in Repr)
      && Repr == LinkedRepr() && Tree == LinkedTree() && size == T.Size(Tree)
      && this !in ReprOf(left) && this !in ReprOf(right) && ReprOf(left) !! ReprOf(right)
      && (left != null ==> left.Valid())
      && (right != null ==> right.Valid())
    }
  }

  ghost function ReprOf(n: Node?): set<Node>
    reads n
  {
    if n == null then {} else n.Repr
  }

  ghost function TreeOf(n: Node?): T.Tree
    reads n
  {
    if n == null then T.Leaf else n.Tree
  }

  ghost predicate ValidTree(n: Node?)
    reads n, ReprOf(n)
  {
    n != null ==> n.Valid()
  }

  function SizeOf(n: Node?): int
    reads n
  {
    if n == null then 0 else n.size
  }

  // ---------- the nodes and the keys of the tree they represent ----------

  /** Every node carries a key of the tree, with its hashed priority. */
  lemma {:induction false} NodeIsKey(n: Node?, m: Node)
    requires ValidTree(n) && T.Hashed(TreeOf(n)) && m in ReprOf(n)
    ensures Key(m.score, m.id) in T.InOrder(TreeOf(n)) && m.prio == Priority(Key(m.score, m.id))
    decreases TreeOf(n)
  {
    var l, k, r := T.InOrder(TreeOf(n.left)), n.Tree.key, T.InOrder(TreeOf(n.right));
    assert T.InOrder(n.Tree) == l + [k] + r;
    if m in ReprOf(n.left) {
      NodeIsKey(n.left, m);
    } else if m in ReprOf(n.right) {
      NodeIsKey(n.right, m);
    }
  }

  /** Every key is carried by some node. */
  lemma {:induction false} KeyIsNode(n: Node?, k: Key) returns (m: Node)
    requires ValidTree(n) && k in T.InOrder(TreeOf(n))
    ensures m in ReprOf(n) && Key(m.score, m.id) == k
    decreases TreeOf(n)
  {
    if k == n.Tree.key {
      m := n;
    } else if k in T.InOrder(TreeOf(n.left)) {
      m := KeyIsNode(n.left, k);
    } else {
      m := KeyIsNode(n.right, k);
    }
  }

  /** And by one node only. */
  lemma {:induction false} NodesDiffer(n: Node?, a: Node, b: Node)
    requires ValidTree(n) && T.IsTreap(TreeOf(n)) && a in ReprOf(n) && b in ReprOf(n)
    requires Key(a.score, a.id) == Key(b.score, b.id)
    ensures a == b
    decreases TreeOf(n)
  {
    T.SubtreesAreTreaps(n.Tree);
    var k := Key(a.score, a.id);
    LessTotal(k, n.Tree.key);
    if a in ReprOf(n.left) { NodeIsKey(n.left, a); }
    if b in ReprOf(n.left) { NodeIsKey(n.left, b); }
    if a in ReprOf(n.right) { NodeIsKey(n.right, a); }
    if b in ReprOf(n.right) { NodeIsKey(n.right, b); }
    if a in ReprOf(n.left) && b in ReprOf(n.left) {
      NodesDiffer(n.left, a, b);
    } else if a in ReprOf(n.right) && b in ReprOf(n.right) {
      NodesDiffer(n.right, a, b);
    }
  }

  // ---------- the operations ----------

  method Fix(n: Node?)
    requires n != null ==> n.Linked()
    modifies if n == null then {} else {n}`size, if n == null then {} else {n}`Repr, if n == null then {} else {n}`Tree
    ensures n != null ==> n.Valid() && n.Tree == old(n.LinkedTree()) && n.Repr == old(n.LinkedRepr())
  {
    if n != null {
      n.size := 1 + SizeOf(n.left) + SizeOf(n.right);
      n.Tree, n.Repr := n.LinkedTree(), n.LinkedRepr();
    }
  }

  /** `c` with its subtrees can hang below `p` beside the tree `other`. */
  ghost predicate HangsBeside(c: Node, p: Node, other: Node?)
    reads c, c.left, c.right, ReprOf(c.left), ReprOf(c.right), other, ReprOf(other)
  {
    && c.Linked() && c != p && ValidTree(other)
    && p !in ReprOf(other) && p !in c.LinkedRepr() && c.LinkedRepr() !! ReprOf(other)
  }

  /** Bringing `c` up to date leaves the tree beside it, and the room for `p`, as they are. */
  method FixBeside(c: Node, ghost p: Node, ghost other: Node?)
    requires HangsBeside(c, p, other)
    modifies c`size, c`Repr, c`Tree
    ensures c.Valid() && c.Tree == old(c.LinkedTree()) && c.Repr == old(c.LinkedRepr())
    ensures ValidTree(other) && TreeOf(other) == old(TreeOf(other)) && ReprOf(other) == old(ReprOf(other))
    ensures p !in c.Repr && p !in ReprOf(other) && c.Repr !! ReprOf(other)
  {
    Fix(c);
  }

  /** Three sound trees, wholly apart from each other and from two further nodes. */
  ghost predicate Apart(x: Node, y: Node, a: Node?, b: Node?, c: Node?)
    reads a, b, c, ReprOf(a), ReprOf(b), ReprOf(c)
  {
    && x != y && ValidTree(a) && ValidTree(b) && ValidTree(c)
    && x !in ReprOf(a) && x !in ReprOf(b) && x !in ReprOf(c)
    && y !in ReprOf(a) && y !in ReprOf(b) && y !in ReprOf(c)
    && ReprOf(a) !! ReprOf(b) && ReprOf(a) !! ReprOf(c) && ReprOf(b) !! ReprOf(c)
  }

  method RotateRight(y: Node) returns (x: Node)
    requires y.Linked() && y.left != null
    modifies y, y.left
    ensures x == old(y.left) && x.right == y && x.Valid()
    ensures x.Repr == old(y.LinkedRepr())
    ensures x.Tree == T.RotateRight(old(y.LinkedTree()))
  {
    x := y.left;
    PullUpLeft(x, y);
  }

  /** The rotation proper, on five parts known to be apart. */
  method PullUpLeft(x: Node, y: Node)
    requires Apart(x, y, x.left, x.right, y.right)
    modifies x, y
    ensures x.right == y && x.Valid()
    ensures x.Repr == {x} + old(ReprOf(x.left)) + ({y} + old(ReprOf(x.right) + ReprOf(y.right)))
    ensures x.Tree == old(T.Node(TreeOf(x.left), Key(x.score, x.id), x.prio,
                                 T.Node(TreeOf(x.right), Key(y.score, y.id), y.prio, TreeOf(y.right))))
  {
    HangRight(x, y);
    Fix(x);
  }

  /** `y` moves below `x` and is brought up to date there. */
  method HangRight(x: Node, y: Node)
    requires Apart(x, y, x.left, x.right, y.right)
    modifies x`right, y
    ensures x.right == y && x.Linked()
    ensures x.LinkedRepr() == {x} + old(ReprOf(x.left)) + ({y} + old(ReprOf(x.right) + ReprOf(y.right)))
    ensures x.LinkedTree() == old(T.Node(TreeOf(x.left), Key(x.score, x.id), x.prio,
                                         T.Node(TreeOf(x.right), Key(y.score, y.id), y.prio, TreeOf(y.right))))
  {
    RelinkRight(x, y);
    FixBeside(y, x, x.left);
  }

  method RelinkRight(x: Node, y: Node)
    requires Apart(x, y, x.left, x.right, y.right)
    modifies x`right, y`left
    ensures x.right == y && y.left == old(x.right)
    ensures HangsBeside(y, x, x.left)
    ensures y.LinkedTree() == old(T.Node(TreeOf(x.right), Key(y.score, y.id), y.prio, TreeOf(y.right)))
    ensures y.LinkedRepr() == {y} + old(ReprOf(x.right) + ReprOf(y.right))
    ensures TreeOf(x.left) == old(TreeOf(x.left)) && ReprOf(x.left) == old(ReprOf(x.left))
  {
    var t2 := x.right;
    x.right := y;
    y.left := t2;
  }

  method RotateLeft(x: Node) returns (y: Node)
    requires x.Linked() && x.right != null
    modifies x, x.right
    ensures y == old(x.right) && y.left == x && y.Valid()
    ensures y.Repr == old(x.LinkedRepr())
    ensures y.Tree == T.RotateLeft(old(x.LinkedTree()))
  {
    y := x.right;
    PullUpRight(x, y);
  }

  method PullUpRight(x: Node, y: Node)
    requires Apart(x, y, x.left, y.left, y.right)
    modifies x, y
    ensures y.left == x && y.Valid()
    ensures y.Repr == {y} + ({x} + old(ReprOf(x.left) + ReprOf(y.left))) + old(ReprOf(y.right))
    ensures y.Tree == old(T.Node(T.Node(TreeOf(x.left), Key(x.score, x.id), x.prio, TreeOf(y.left)),
                                 Key(y.score, y.id), y.prio, TreeOf(y.right)))
  {
    HangLeft(x, y);
    Fix(y);
  }

  method HangLeft(x: Node, y: Node)
    requires Apart(x, y, x.left, y.left, y.right)
    modifies x, y`left
    ensures y.left == x && y.Linked()
    ensures y.LinkedRepr() == {y} + ({x} + old(ReprOf(x.left) + ReprOf(y.left))) + old(ReprOf(y.right))
    ensures y.LinkedTree() == old(T.Node(T.Node(TreeOf(x.left), Key(x.score, x.id), x.prio, TreeOf(y.left)),
                                         Key(y.score, y.id), y.prio, TreeOf(y.right)))
  {
    RelinkLeft(x, y);
    FixBeside(x, y, y.right);
  }

  method RelinkLeft(x: Node, y: Node)
    requires Apart(x, y, x.left, y.left, y.right)
    modifies x`right, y`left
    ensures y.left == x && x.right == old(y.left)
    ensures HangsBeside(x, y, y.right)
    ensures x.LinkedTree() == old(T.Node(TreeOf(x.left), Key(x.score, x.id), x.prio, TreeOf(y.left)))
    ensures x.LinkedRepr() == {x} + old(ReprOf(x.left) + ReprOf(y.left))
    ensures TreeOf(y.right) == old(TreeOf(y.right)) && ReprOf(y.right) == old(ReprOf(y.right))
  {
    var t2 := y.left;
    y.left := x;
    x.right := t2;
  }

  /** The new tree uses all the old nodes, and any new node holds the given id, score and record. */
  method Insert(n: Node?, id: string, score: int, rec: Record) returns (r: Node)
    requires ValidTree(n)
    modifies ReprOf(n)
    ensures r.Valid() && r.Tree == T.Insert(old(TreeOf(n)), Key(score, id))
    ensures old(ReprOf(n)) <= r.Repr && fresh(r.Repr - old(ReprOf(n)))
    ensures forall m :: m in r.Repr - old(ReprOf(n)) ==> m.id == id && m.score == score && m.record == rec
    decreases TreeOf(n), 0
  {
    if n == null {
      var prio := ScoreToPriority(score, id);
      r := new Node(id, score, prio, rec);
    } else if Less(Key(score, id), Key(n.score, n.id)) {
      InsertLeft(n, id, score, rec);
      r := RaiseLeft(n);
    } else {
      InsertRight(n, id, score, rec);
      r := RaiseRight(n);
    }
  }

  method InsertLeft(n: Node, id: string, score: int, rec: Record)
    requires n.Valid()
    modifies n.Repr
    ensures n.Linked() && n.left != null
    ensures n.LinkedTree() == old(n.Tree).(left := T.Insert(old(n.Tree).left, Key(score, id)))
    ensures old(n.Repr) <= n.LinkedRepr() && fresh(n.LinkedRepr() - old(n.Repr))
    ensures forall m :: m in n.LinkedRepr() - old(n.Repr) ==> m.id == id && m.score == score && m.record == rec
    decreases n.Tree.left, 1
  {
    n.left := Insert(n.left, id, score, rec);
  }

  method InsertRight(n: Node, id: string, score: int, rec: Record)
    requires n.Valid()
    modifies n.Repr
    ensures n.Linked() && n.right != null
    ensures n.LinkedTree() == old(n.Tree).(right := T.Insert(old(n.Tree).right, Key(score, id)))
    ensures old(n.Repr) <= n.LinkedRepr() && fresh(n.LinkedRepr() - old(n.Repr))
    ensures forall m :: m in n.LinkedRepr() - old(n.Repr) ==> m.id == id && m.score == score && m.record == rec
    decreases n.Tree.right, 1
  {
    n.right := Insert(n.right, id, score, rec);
  }

  /** The left child changes places with its parent when its priority is greater. */
  method RaiseLeft(n: Node) returns (r: Node)
    requires n.Linked() && n.left != null
    modifies n, n.left
    ensures r.Valid() && r.Repr == old(n.LinkedRepr())
    ensures r.Tree == old(if n.left.prio > n.prio then T.RotateRight(n.LinkedTree()) else n.LinkedTree())
  {
    r := n;
    if n.left.prio > n.prio {
      r := RotateRight(n);
    }
    Fix(r);
  }

  method RaiseRight(n: Node) returns (r: Node)
    requires n.Linked() && n.right != null
    modifies n, n.right
    ensures r.Valid() && r.Repr == old(n.LinkedRepr())
    ensures r.Tree == old(if n.right.prio > n.prio then T.RotateLeft(n.LinkedTree()) else n.LinkedTree())
  {
    r := n;
    if n.right.prio > n.prio {
      r := RotateLeft(n);
    }
    Fix(r);
  }

  method DeleteNode(n: Node?, id: string, score: int) returns (r: Node?)
    requires ValidTree(n)
    modifies ReprOf(n)
    ensures ValidTree(r) && TreeOf(r) == T.Delete(old(TreeOf(n)), Key(score, id))
    ensures ReprOf(r) <= old(ReprOf(n))
    decreases T.Size(TreeOf(n)), 0
  {
    if n == null { return null; }
    r := n;
    if score == n.score && id == n.id {
      if n.left == null { return n.right; }
      if n.right == null { return n.left; }
      if n.left.prio > n.right.prio {
        r := RotateRight(n);
        DeleteRight(r, id, score);
      } else {
        r := RotateLeft(n);
        DeleteLeft(r, id, score);
      }
    } else if Less(Key(score, id), Key(n.score, n.id)) {
      DeleteLeft(n, id, score);
    } else {
      DeleteRight(n, id, score);
    }
  }

  method DeleteLeft(n: Node, id: string, score: int)
    requires n.Valid()
    modifies n.Repr
    ensures n.Valid() && n.Repr <= old(n.Repr)
    ensures n.Tree == old(n.Tree).(left := T.Delete(old(n.Tree).left, Key(score, id)))
    decreases T.Size(n.Tree.left), 1
  {
    n.left := DeleteNode(n.left, id, score);
    Fix(n);
  }

  method DeleteRight(n: Node, id: string, score: int)
    requires n.Valid()
    modifies n.Repr
    ensures n.Valid() && n.Repr <= old(n.Repr)
    ensures n.Tree == old(n.Tree).(right := T.Delete(old(n.Tree).right, Key(score, id)))
    decreases T.Size(n.Tree.right), 1
  {
    n.right := DeleteNode(n.right, id, score);
    Fix(n);
  }
}
