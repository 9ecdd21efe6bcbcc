/**
 What the deduper remembers, as a value: the recorded ids from oldest to newest, without
 repetitions, and how long any of them stays.
 */
module DedupeSpec {
  import opened Sequences

  ghost predicate NoRepeats(ids: seq<string>) {
    forall i, j :: 0 <= i < j < |ids| ==> ids[i] != ids[j]
  }

  /** The oldest ids make room when the bound is reached; a bound of zero or less is no bound. */
  function Room(ids: seq<string>, maxSize: int): seq<string> {
    if 0 < maxSize <= |ids| then ids[1..] else ids
  }

  function Record(ids: seq<string>, id: string, maxSize: int): seq<string> {
    if id in ids then ids else Room(ids, maxSize) + [id]
  }

  function Unrecord(ids: seq<string>, id: string): seq<string> {
    if ids == [] then []
    else if ids[0] == id then ids[1..]
    else [ids[0]] + Unrecord(ids[1..], id)
  }

  /** The id a recording drops. */
  predicate Evicts(ids: seq<string>, id: string, maxSize: int, victim: string) {
    id !in ids && 0 < maxSize <= |ids| && ids[0] == victim
  }

  lemma RecordKeepsBound(ids: seq<string>, id: string, maxSize: int)
    requires NoRepeats(ids) && (maxSize > 0 ==> |ids| <= maxSize)
    ensures NoRepeats(Record(ids, id, maxSize)) && id in Record(ids, id, maxSize)
    ensures maxSize > 0 ==> |Record(ids, id, maxSize)| <= maxSize
    ensures forall x :: x in Record(ids, id, maxSize) <==> x == id || (x in ids && !Evicts(ids, id, maxSize, x))
  {
    if id !in ids {
      var room := Room(ids, maxSize);
      forall x ensures x in room <==> x in ids && !Evicts(ids, id, maxSize, x) {
        if 0 < maxSize <= |ids| { assert ids == [ids[0]] + ids[1..]; }
      }
    }
  }

  lemma {:induction false} UnrecordAt(ids: seq<string>, i: nat)
    requires NoRepeats(ids) && i < |ids|
    ensures Unrecord(ids, ids[i]) == RemoveAt(ids, i)
  {
    if i > 0 {
      UnrecordAt(ids[1..], i - 1);
      RemoveAtBehind(ids, i);
    }
  }

  lemma {:induction false} UnrecordAbsent(ids: seq<string>, id: string)
    requires id !in ids
    ensures Unrecord(ids, id) == ids
  {
    if ids != [] {
      UnrecordAbsent(ids[1..], id);
      assert ids == [ids[0]] + ids[1..];
    }
  }

  lemma WithoutOne(ids: seq<string>, k: nat)
    requires NoRepeats(ids) && k < |ids|
    ensures NoRepeats(RemoveAt(ids, k))
    ensures forall id :: id in RemoveAt(ids, k) <==> id in ids && id != ids[k]
  {
    JoinOfSlices(ids, k);
  }

  lemma UnrecordKeepsBound(ids: seq<string>, id: string)
    requires NoRepeats(ids)
    ensures NoRepeats(Unrecord(ids, id)) && |Unrecord(ids, id)| == |ids| - (if id in ids then 1 else 0)
    ensures forall x :: x in Unrecord(ids, id) <==> x in ids && x != id
  {
    if id in ids {
      var i :| 0 <= i < |ids| && ids[i] == id;
      UnrecordAt(ids, i);
      WithoutOne(ids, i);
    } else {
      UnrecordAbsent(ids, id);
    }
  }

  /**
   Taking back a recording restores what was remembered if and only if the recording evicted
   nothing: after a rejected event a full deduper has forgotten its oldest id.
   */
  lemma UnrecordUndoesRecordIff(ids: seq<string>, id: string, maxSize: int)
    requires NoRepeats(ids) && id !in ids
    ensures Unrecord(Record(ids, id, maxSize), id) == Room(ids, maxSize)
    ensures Unrecord(Record(ids, id, maxSize), id) == ids <==> maxSize <= 0 || |ids| < maxSize
  {
    var room := Room(ids, maxSize);
    assert forall x :: x in room ==> x in ids;
    UnrecordAt(room + [id], |room|);
  }

  // ---------- how long an id is remembered ----------

  datatype Call = Seen(id: string) | Forget(id: string)

  function After(ids: seq<string>, calls: seq<Call>, maxSize: int): seq<string>
    decreases |calls|
  {
    if calls == [] then ids else After(Step(ids, calls[0], maxSize), calls[1..], maxSize)
  }

  function Step(ids: seq<string>, call: Call, maxSize: int): seq<string> {
    match call
    case Seen(id) => Record(ids, id, maxSize)
    case Forget(id) => Unrecord(ids, id)
  }

  /** The ids the calls record although not remembered at the time, in order. */
  function NewIds(ids: seq<string>, calls: seq<Call>, maxSize: int): seq<string>
    decreases |calls|
  {
    if calls == [] then []
    else (if calls[0].Seen? && calls[0].id !in ids then [calls[0].id] else [])
         + NewIds(Step(ids, calls[0], maxSize), calls[1..], maxSize)
  }

  function NewRecordings(ids: seq<string>, calls: seq<Call>, maxSize: int): nat {
    |NewIds(ids, calls, maxSize)|
  }

  lemma StepKeepsBound(ids: seq<string>, call: Call, maxSize: int)
    requires NoRepeats(ids) && (maxSize > 0 ==> |ids| <= maxSize)
    ensures var r := Step(ids, call, maxSize); NoRepeats(r) && (maxSize > 0 ==> |r| <= maxSize)
  {
    if call.Seen? { RecordKeepsBound(ids, call.id, maxSize); } else { UnrecordKeepsBound(ids, call.id); }
  }

  /** One step moves an id by at most the one place an eviction takes from the front. */
  lemma StepMoves(ids: seq<string>, i: nat, call: Call, maxSize: int) returns (k: nat)
    requires NoRepeats(ids) && i < |ids| && (maxSize > 0 ==> |ids| <= maxSize)
    requires call != Forget(ids[i])
    requires !(call.Seen? && i == 0 && Evicts(ids, call.id, maxSize, ids[0]))
    ensures var r := Step(ids, call, maxSize);
            && k < |r| && r[k] == ids[i]
            && |r| - k <= |ids| - i + (if call.Seen? && call.id !in ids then 1 else 0)
            && (call.Seen? ==> |r| - k == |ids| - i + (if call.id !in ids then 1 else 0))
  {
    match call
    case Seen(id) =>
      k := if id !in ids && 0 < maxSize <= |ids| then i - 1 else i;
    case Forget(id) =>
      k := ForgetMoves(ids, i, id);
  }

  lemma ForgetMoves(ids: seq<string>, i: nat, id: string) returns (k: nat)
    requires NoRepeats(ids) && i < |ids| && id != ids[i]
    ensures var r := Unrecord(ids, id); k < |r| && r[k] == ids[i] && |r| - k <= |ids| - i
  {
    if id in ids {
      var j :| 0 <= j < |ids| && ids[j] == id;
      UnrecordAt(ids, j);
      k := if j < i then i - 1 else i;
    } else {
      UnrecordAbsent(ids, id);
      k := i;
    }
  }

  /**
   An id that no call takes back stays as long as it and whatever is or comes behind it fit the
   bound, and without a bound for ever.
   */
  lemma {:induction false} StaysWhile(ids: seq<string>, i: nat, calls: seq<Call>, maxSize: int)
    requires NoRepeats(ids) && i < |ids| && (maxSize > 0 ==> |ids| <= maxSize)
    requires Forget(ids[i]) !in calls
    requires maxSize <= 0 || |ids| - i + NewRecordings(ids, calls, maxSize) <= maxSize
    ensures ids[i] in After(ids, calls, maxSize)
    decreases |calls|
  {
    if calls != [] {
      var k := StepMoves(ids, i, calls[0], maxSize);
      StepKeepsBound(ids, calls[0], maxSize);
      StaysWhile(Step(ids, calls[0], maxSize), k, calls[1..], maxSize);
    }
  }

  lemma {:induction false} NothingNew(ids: seq<string>, calls: seq<Call>, maxSize: int)
    requires (forall c :: c in calls ==> c.Seen?) && NewRecordings(ids, calls, maxSize) == 0
    ensures After(ids, calls, maxSize) == ids
    decreases |calls|
  {
    if calls != [] {
      assert forall c :: c in calls[1..] ==> c in calls;
      NothingNew(ids, calls[1..], maxSize);
    }
  }

  /** When nothing is taken back an id leaves with the first one too many, however often it is repeated. */
  lemma {:induction false} LeavesAt(ids: seq<string>, i: nat, calls: seq<Call>, maxSize: int)
    requires NoRepeats(ids) && i < |ids| <= maxSize
    requires forall c :: c in calls ==> c.Seen?
    requires |ids| - i + NewRecordings(ids, calls, maxSize) == maxSize + 1
    ensures ids[i] !in After(ids, calls, maxSize)
    decreases |calls|
  {
    var r := Step(ids, calls[0], maxSize);
    RecordKeepsBound(ids, calls[0].id, maxSize);
    assert forall c :: c in calls[1..] ==> c in calls;
    if i == 0 && Evicts(ids, calls[0].id, maxSize, ids[0]) {
      NothingNew(r, calls[1..], maxSize);
    } else {
      var k := StepMoves(ids, i, calls[0], maxSize);
      LeavesAt(r, k, calls[1..], maxSize);
    }
  }

  /**
   A freshly recorded id keeps being reported as seen until it is taken back or `maxSize` further
   ids are recorded, and for ever when there is no bound.
   */
  lemma WindowAtLeast(ids: seq<string>, id: string, calls: seq<Call>, maxSize: int)
    requires NoRepeats(ids) && id !in ids && (maxSize > 0 ==> |ids| <= maxSize)
    requires Forget(id) !in calls
    requires maxSize <= 0 || NewRecordings(Record(ids, id, maxSize), calls, maxSize) < maxSize
    ensures id in After(Record(ids, id, maxSize), calls, maxSize)
  {
    var r := Record(ids, id, maxSize);
    RecordKeepsBound(ids, id, maxSize);
    StaysWhile(r, |r| - 1, calls, maxSize);
  }

  /**
   While nothing is taken back the window is exact: up to and including the `maxSize`-th further id
   it is that one which evicts, and repeating an id does not prolong its stay.
   */
  lemma WindowExactly(ids: seq<string>, id: string, calls: seq<Call>, maxSize: int)
    requires NoRepeats(ids) && id !in ids && |ids| <= maxSize && 0 < maxSize
    requires forall c :: c in calls ==> c.Seen?
    requires NewRecordings(Record(ids, id, maxSize), calls, maxSize) <= maxSize
    ensures id in After(Record(ids, id, maxSize), calls, maxSize)
       <==> NewRecordings(Record(ids, id, maxSize), calls, maxSize) < maxSize
  {
    var r := Record(ids, id, maxSize);
    RecordKeepsBound(ids, id, maxSize);
    if NewRecordings(r, calls, maxSize) < maxSize {
      StaysWhile(r, |r| - 1, calls, maxSize);
    } else {
      LeavesAt(r, |r| - 1, calls, maxSize);
    }
  }

  // ---------- what is remembered after any number of recordings ----------

  /** The last `maxSize` elements, or all of them when there are no more or there is no bound. */
  function Newest(s: seq<string>, maxSize: int): seq<string> {
    if 0 < maxSize < |s| then s[|s| - maxSize..] else s
  }

  lemma NewestOfNewest(a: seq<string>, b: seq<string>, maxSize: int)
    ensures Newest(Newest(a, maxSize) + b, maxSize) == Newest(a + b, maxSize)
  {
  }

  lemma RecordIsNewest(ids: seq<string>, id: string, maxSize: int)
    requires id !in ids && (maxSize > 0 ==> |ids| <= maxSize)
    ensures Record(ids, id, maxSize) == Newest(ids + [id], maxSize)
  {
    if 0 < maxSize <= |ids| {
      assert (ids + [id])[1..] == ids[1..] + [id];
    }
  }

  lemma NewestAfterRecord(ids: seq<string>, id: string, later: seq<string>, maxSize: int)
    requires id !in ids && (maxSize > 0 ==> |ids| <= maxSize)
    ensures Newest(Record(ids, id, maxSize) + later, maxSize) == Newest(ids + ([id] + later), maxSize)
  {
    RecordIsNewest(ids, id, maxSize);
    NewestOfNewest(ids + [id], later, maxSize);
    Reassociate(ids, [id], later);
  }

  /**
   While nothing is taken back, what is remembered is always the newest `maxSize` of all ids newly
   recorded: first in, first out, over runs of any length.
   */
  lemma {:induction false} NewestAreRemembered(ids: seq<string>, calls: seq<Call>, maxSize: int)
    requires maxSize > 0 ==> |ids| <= maxSize
    requires forall c :: c in calls ==> c.Seen?
    ensures After(ids, calls, maxSize) == Newest(ids + NewIds(ids, calls, maxSize), maxSize)
    decreases |calls|
  {
    if calls == [] {
      assert ids + [] == ids;
    } else {
      var r, rest := Step(ids, calls[0], maxSize), calls[1..];
      assert forall c :: c in rest ==> c in calls;
      NewestAreRemembered(r, rest, maxSize);
      if calls[0].id !in ids {
        NewestAfterRecord(ids, calls[0].id, NewIds(r, rest, maxSize), maxSize);
      } else {
        assert [] + NewIds(r, rest, maxSize) == NewIds(r, rest, maxSize);
      }
    }
  }
}
