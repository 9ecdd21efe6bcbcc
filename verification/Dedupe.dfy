/**
 The deduper in memory: a map from id to list node, a singly linked list from the oldest to the
 newest id, and a pool of discarded nodes to be used again.
 */
module Dedupe {
  import opened Sequences
  import Spec = DedupeSpec

  class Node {
    var id: string
    var next: Node?

    constructor ()
      ensures id == "" && next == null
    {
      id, next := "", null;
    }

    method Reset()
      modifies this
      ensures id == "" && next == null
    {
      id := "";
      next := null;
    }
  }

  /** The nodes are distinct, each points to the following one and the last one to none. */
  ghost predicate Chained(c: seq<Node>)
    reads c
  {
    && (forall i, j :: 0 <= i < j < |c| ==> c[i] != c[j])
    && (forall i :: 0 <= i < |c| - 1 ==> c[i].next == c[i + 1])
    && (c != [] ==> c[|c| - 1].next == null)
  }

  /** The map knows exactly the given ids, each under the node of the chain that holds it. */
  ghost predicate IndexedBy(seen: map<string, Node?>, ids: seq<string>, c: seq<Node>)
    reads c`id
  {
    && Spec.NoRepeats(ids) && |c| == |ids|
    && (forall id :: id in seen <==> id in ids)
    && (forall i :: 0 <= i < |ids| ==> c[i].id == ids[i] && seen[ids[i]] == c[i])
  }

  lemma RemoveAtMembers(c: seq<Node>, k: nat, all: set<object>)
    requires k < |c| && Chained(c) && forall n :: n in c ==> n in all
    ensures forall n :: n in RemoveAt(c, k) ==> n in all && n != c[k]
  {
  }

  lemma IndexedWith(seen: map<string, Node?>, ids: seq<string>, c: seq<Node>, id: string, n: Node)
    requires IndexedBy(seen, ids, c) && id !in ids && n.id == id
    ensures IndexedBy(seen[id := n], ids + [id], c + [n])
  {
  }

  lemma IndexedWithout(seen: map<string, Node?>, ids: seq<string>, c: seq<Node>, k: nat)
    requires IndexedBy(seen, ids, c) && k < |ids|
    ensures IndexedBy(seen - {ids[k]}, RemoveAt(ids, k), RemoveAt(c, k))
  {
    var ids', c' := RemoveAt(ids, k), RemoveAt(c, k);
    Spec.WithoutOne(ids, k);
    forall i | 0 <= i < |ids'| ensures ids'[i] != ids[k] && c'[i].id == ids'[i] && seen[ids'[i]] == c'[i] {
      var j := if i < k then i else i + 1;
      assert ids'[i] == ids[j] && c'[i] == c[j];
    }
  }

  lemma {:induction false} SizeOfIds(ids: seq<string>, s: set<string>)
    requires Spec.NoRepeats(ids) && forall id :: id in s <==> id in ids
    ensures |s| == |ids|
  {
    if ids != [] {
      assert ids == [ids[0]] + ids[1..];
      SizeOfIds(ids[1..], s - {ids[0]});
    } else {
      assert s == {};
    }
  }

  class InMemoryDeduper {
    var seen: map<string, Node?>
    var head: Node?
    var tail: Node?
    const maxSize: int
    var size: int
    var nodePool: set<Node>
    /** The remembered ids from oldest to newest, and in bounded mode the nodes holding them. */
    ghost var Ids: seq<string>
    ghost var Chain: seq<Node>
    /** This object and every node it ever took from the heap. */
    ghost var Repr: set<object>

    /** `head` and `tail` are the ends of the chain, and no pooled node is on it. */
    ghost predicate Linked()
      reads this`Chain, this`head, this`tail, this`nodePool, Chain
    {
      && Chained(Chain)
      && head == (if Chain == [] then null else Chain[0])
      && tail == (if Chain == [] then null else Chain[|Chain| - 1])
      && forall n :: n in Chain ==> n !in nodePool
    }

    ghost predicate Indexed()
      reads this`Chain, this`Ids, this`seen, Chain`id
    {
      if maxSize > 0 then IndexedBy(seen, Ids, Chain)
      else
        && Spec.NoRepeats(Ids) && Chain == []
        && (forall id :: id in seen <==> id in Ids)
        && (forall id :: id in seen ==> seen[id] == null)
    }

    ghost predicate Covered()
      reads this`Chain, this`nodePool, this`Repr
    {
      this in Repr && nodePool <= Repr && forall n :: n in Chain ==> n in Repr
    }

    ghost predicate Valid()
      reads this, Repr
    {
      Covered() && Linked() && Indexed() && size == |Ids| && (maxSize > 0 ==> |Ids| <= maxSize)
    }

    constructor (maxSize: int)
      ensures Valid() && Ids == [] && this.maxSize == maxSize && fresh(Repr)
    {
      this.maxSize := maxSize;
      seen, head, tail, size, nodePool := map[], null, null, 0, {};
      Ids, Chain, Repr := [], [], {this};
    }

    /** Some pooled node, or a new one: which is up to the pool. */
    method GetNode() returns (n: Node)
      requires Linked()
      modifies this`nodePool
      ensures n !in Chain && n !in nodePool && nodePool <= old(nodePool)
      ensures n in old(nodePool) || fresh(n)
      ensures Linked()
    {
      if * {
        if p :| p in nodePool {
          nodePool := nodePool - {p};
          return p;
        }
      }
      n := new Node();
    }

    /** Reports whether the id was seen; if not, records it, first dropping the oldest when full. */
    method SeenAndRecord(id: string) returns (duplicate: bool)
      requires Valid()
      modifies Repr
      ensures Valid() && fresh(Repr - old(Repr))
      ensures duplicate <==> id in old(Ids)
      ensures Ids == Spec.Record(old(Ids), id, maxSize)
    {
      if id in seen {
        return true;
      }
      if maxSize > 0 {
        RecordBounded(id);
      } else {
        seen := seen[id := null];
        Ids := Ids + [id];
        size := size + 1;
      }
      duplicate := false;
    }

    method RecordBounded(id: string)
      requires Valid() && id !in seen && maxSize > 0
      modifies Repr
      ensures Valid() && fresh(Repr - old(Repr))
      ensures Ids == Spec.Record(old(Ids), id, maxSize)
    {
      MakeRoom(id);
      AppendNewest(id);
      size := size + 1;
    }

    method AppendNewest(id: string)
      requires Linked() && Indexed() && maxSize > 0 && id !in seen
      requires Covered()
      modifies this`head, this`tail, this`seen, this`Ids, this`Chain, this`nodePool, this`Repr, nodePool, tail
      ensures Covered() && Linked() && Indexed()
      ensures Ids == old(Ids) + [id] && |Chain| == |Ids|
      ensures fresh(Repr - old(Repr))
    {
      var n := GetNode();
      Repr := Repr + {n};
      Append(n, id);
    }

    method MakeRoom(id: string)
      requires Valid() && id !in seen && maxSize > 0
      modifies Repr
      ensures Valid() && id !in seen && |Ids| < maxSize
      ensures Repr == old(Repr)
      ensures Ids == Spec.Room(old(Ids), maxSize)
    {
      SizeOfIds(Ids, seen.Keys);
      if |seen| >= maxSize {
        assert RemoveAt(Ids, 0) == Ids[1..];
        EvictFIFO();
      }
    }

    method Append(n: Node, id: string)
      requires Linked() && Indexed() && maxSize > 0 && id !in seen && n !in Chain && n !in nodePool
      modifies this`head, this`tail, this`seen, this`Ids, this`Chain, n, tail
      ensures Linked() && Indexed()
      ensures Chain == old(Chain) + [n] && Ids == old(Ids) + [id]
    {
      Label(n, id);
      LinkLast(n);
    }

    /** Preparing a node that is not on the list leaves the list alone. */
    method Label(n: Node, id: string)
      requires Linked() && Indexed() && maxSize > 0 && id !in seen && n !in Chain
      modifies this`seen, this`Ids, n
      ensures Linked() && n.next == null
      ensures Ids == old(Ids) + [id] && IndexedBy(seen, Ids, Chain + [n])
    {
      n.id := id;
      n.next := null;
      assert IndexedBy(seen, Ids, Chain);
      IndexedWith(seen, Ids, Chain, id, n);
      seen, Ids := seen[id := n], Ids + [id];
    }

    /** Lengthening the list leaves the ids in its nodes alone. */
    method LinkLast(n: Node)
      requires Linked() && n !in Chain && n !in nodePool && n.next == null
      requires IndexedBy(seen, Ids, Chain + [n])
      modifies this`head, this`tail, this`Chain, tail
      ensures Linked() && Chain == old(Chain) + [n] && IndexedBy(seen, Ids, Chain)
    {
      if tail == null {
        head := n;
        tail := n;
      } else {
        tail.next := n;
        tail := n;
      }
      Chain := Chain + [n];
    }

    /** Drops the oldest id; its node goes to the pool. */
    method EvictFIFO()
      requires Valid() && maxSize > 0 && Ids != []
      modifies Repr
      ensures Valid() && Repr == old(Repr)
      ensures Ids == RemoveAt(old(Ids), 0)
    {
      SizeOfIds(Ids, seen.Keys);
      if |seen| == 0 || head == null {
        return;
      }
      // The same steps on map, list, pool and count as for taking back the id at the head.
      Unlink(head.id, 0);
    }

    method Unrecord(id: string)
      requires Valid()
      modifies Repr
      ensures Valid() && Repr == old(Repr)
      ensures Ids == Spec.Unrecord(old(Ids), id)
    {
      if maxSize > 0 {
        UnrecordBounded(id);
      } else {
        UnrecordUnbounded(id);
      }
    }

    method UnrecordUnbounded(id: string)
      requires Valid() && maxSize <= 0
      modifies this
      ensures Valid() && Repr == old(Repr)
      ensures Ids == Spec.Unrecord(old(Ids), id)
    {
      Spec.UnrecordKeepsBound(Ids, id);
      if id in seen {
        seen := seen - {id};
        size := size - 1;
      }
      Ids := Spec.Unrecord(Ids, id);
    }

    method UnrecordBounded(id: string)
      requires Valid() && maxSize > 0
      modifies Repr
      ensures Valid() && Repr == old(Repr)
      ensures Ids == Spec.Unrecord(old(Ids), id)
    {
      if id !in seen {
        Spec.UnrecordAbsent(Ids, id);
        return;
      }
      ghost var k :| 0 <= k < |Ids| && Ids[k] == id;
      Spec.UnrecordAt(Ids, k);
      Spec.UnrecordKeepsBound(Ids, id);
      Unlink(id, k);
    }

    method Unlink(id: string, ghost k: nat)
      requires Valid() && maxSize > 0 && k < |Ids| && Ids[k] == id
      modifies Repr
      ensures Valid() && Repr == old(Repr)
      ensures Ids == RemoveAt(old(Ids), k)
    {
      var node := seen[id];
      RemoveAtMembers(Chain, k, Repr);
      Cut(id, node, k);
      assert Covered();
      Discard(node);
    }

    method Cut(id: string, node: Node, ghost k: nat)
      requires Linked() && Indexed() && maxSize > 0 && k < |Ids| && Ids[k] == id && Chain[k] == node
      modifies this`seen, this`head, this`tail, this`Chain, this`Ids, Chain`next
      ensures Linked() && Indexed()
      ensures Chain == RemoveAt(old(Chain), k) && Ids == RemoveAt(old(Ids), k)
    {
      IndexedWithout(seen, Ids, Chain, k);
      seen, Ids := seen - {id}, RemoveAt(Ids, k);
      Detach(node, k);
    }

    /** Relinking the list leaves the ids in its nodes alone. */
    method Detach(node: Node, ghost k: nat)
      requires Linked() && k < |Chain| && Chain[k] == node && IndexedBy(seen, Ids, RemoveAt(Chain, k))
      modifies this`head, this`tail, this`Chain, Chain`next
      ensures Linked() && Chain == RemoveAt(old(Chain), k) && IndexedBy(seen, Ids, Chain)
    {
      ghost var c := RemoveAt(Chain, k);
      RemoveFromLinkedList(node, k);
      assert IndexedBy(seen, Ids, c);
    }

    /** A node taken off the list goes to the pool. */
    method Discard(node: Node)
      requires Linked() && Indexed() && Covered() && node !in Chain && node in Repr
      modifies node, this`nodePool, this`size
      ensures Linked() && Indexed() && Covered()
      ensures nodePool == old(nodePool) + {node} && size == old(size) - 1
    {
      node.Reset();
      nodePool := nodePool + {node};
      size := size - 1;
    }

    method RemoveFromLinkedList(node: Node, ghost k: nat)
      requires Linked() && k < |Chain| && Chain[k] == node
      modifies this`head, this`tail, this`Chain, Chain`next
      ensures Linked() && Chain == RemoveAt(old(Chain), k)
    {
      if head == node {
        RemoveHead();
      } else if tail == node {
        RemoveTail();
      } else {
        RemoveMiddle(node, k);
      }
    }

    method RemoveHead()
      requires Linked() && Chain != []
      modifies this`head, this`tail, this`Chain
      ensures Linked() && Chain == RemoveAt(old(Chain), 0)
    {
      assert RemoveAt(Chain, 0) == Chain[1..];
      head := head.next;
      if head == null {
        tail := null;
      }
      Chain := Chain[1..];
    }

    method RemoveTail()
      requires Linked() && |Chain| > 1
      modifies this`tail, this`Chain, Chain`next
      ensures Linked() && Chain == old(Chain)[..|old(Chain)| - 1]
    {
      var current := head;
      ghost var c := 0;
      while current != null && current.next != tail
        invariant c < |Chain| - 1 && current == Chain[c]
        decreases |Chain| - c
      {
        current := current.next;
        c := c + 1;
      }
      assert current.next == Chain[c + 1];
      if current != null {
        current.next := null;
        tail := current;
        Chain := Chain[..|Chain| - 1];
      }
    }

    method RemoveMiddle(node: Node, ghost k: nat)
      requires Linked() && 0 < k < |Chain| - 1 && Chain[k] == node
      modifies this`Chain, Chain`next
      ensures Linked() && Chain == RemoveAt(old(Chain), k)
    {
      var current := head;
      ghost var c := 0;
      while current != null && current.next != node
        invariant c < k && current == Chain[c]
        decreases |Chain| - c
      {
        current := current.next;
        c := c + 1;
      }
      assert current.next == Chain[c + 1];
      if current != null {
        current.next := node.next;
        Chain := RemoveAt(Chain, k);
      }
    }

    method Size() returns (n: int)
      requires Valid()
      ensures n == |Ids| == |seen|
    {
      SizeOfIds(Ids, seen.Keys);
      n := size;
    }
  }
}
