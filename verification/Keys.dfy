/**
 The ordering and the priorities of the leaderboard treap.

 A key is the pair (fixed-point score, talent id).  Keys with a higher score come first and
 equal scores are ordered by id.  Ids are sequences of Unicode code points: on valid UTF-8 the
 byte-wise comparison of two Go strings is the comparison of their code points.
 */
module Keys {

  datatype Key = Key(score: int, id: string)

  predicate LexLess(a: string, b: string) {
    if b == [] then false
    else if a == [] then true
    else a[0] < b[0] || (a[0] == b[0] && LexLess(a[1..], b[1..]))
  }

  predicate Less(a: Key, b: Key) {
    if a.score > b.score then true
    else if a.score < b.score then false
    else LexLess(a.id, b.id)
  }

  /** `a` and `b` agree up to a position where `a` ends and `b` does not, or has the smaller character. */
  ghost predicate SmallerAt(a: string, b: string, i: nat) {
    i <= |a| && i < |b| && a[..i] == b[..i] && (i == |a| || a[i] < b[i])
  }

  /** Ids are compared at their first difference, and a proper prefix comes first. */
  lemma {:induction false} LexLessIff(a: string, b: string)
    ensures LexLess(a, b) <==> exists i: nat :: SmallerAt(a, b, i)
  {
    if b != [] {
      if a == [] || a[0] < b[0] {
        assert SmallerAt(a, b, 0);
      } else {
        LexLessIff(a[1..], b[1..]);
        if i: nat :| SmallerAt(a[1..], b[1..], i) && a[0] == b[0] {
          assert a[..i + 1] == [a[0]] + a[1..][..i] && b[..i + 1] == [b[0]] + b[1..][..i];
          assert SmallerAt(a, b, i + 1);
        }
        if i: nat :| SmallerAt(a, b, i) {
          assert a[..i][0] == b[..i][0];
          assert a[1..][..i - 1] == a[..i][1..] && b[1..][..i - 1] == b[..i][1..];
          assert SmallerAt(a[1..], b[1..], i - 1);
        }
      }
    }
  }

  /** The better score comes first, and of equal scores the id that is smaller at the first difference. */
  lemma LessIff(a: Key, b: Key)
    ensures Less(a, b) <==> a.score > b.score || (a.score == b.score && exists i: nat :: SmallerAt(a.id, b.id, i))
  {
    LexLessIff(a.id, b.id);
  }

  lemma {:induction false} LexLessTotal(a: string, b: string)
    ensures !LexLess(a, a)
    ensures LexLess(a, b) || LexLess(b, a) || a == b
    ensures !(LexLess(a, b) && LexLess(b, a))
    decreases |a|
  {
    if a != [] {
      LexLessTotal(a[1..], a[1..]);
      if b != [] {
        LexLessTotal(a[1..], b[1..]);
        assert a == [a[0]] + a[1..] && b == [b[0]] + b[1..];
      }
    }
  }

  lemma {:induction false} LexLessTransitive(a: string, b: string, c: string)
    requires LexLess(a, b) && LexLess(b, c)
    ensures LexLess(a, c)
  {
    if a != [] && a[0] == b[0] && b[0] == c[0] {
      LexLessTransitive(a[1..], b[1..], c[1..]);
    }
  }

  /** `Less` is a strict total order: exactly one of "before", "after" and "equal" holds. */
  lemma LessTotal(a: Key, b: Key)
    ensures !Less(a, a)
    ensures Less(a, b) || Less(b, a) || a == b
    ensures !(Less(a, b) && Less(b, a))
  {
    LexLessTotal(a.id, a.id);
    LexLessTotal(a.id, b.id);
  }

  lemma LessTransitive(a: Key, b: Key, c: Key)
    requires Less(a, b) && Less(b, c)
    ensures Less(a, c)
  {
    if a.score == b.score == c.score {
      LexLessTransitive(a.id, b.id, c.id);
    }
  }

  // ---------- 64-bit priorities ----------

  const TWO_TO_THE_63 := 0x8000_0000_0000_0000
  const TWO_TO_THE_64 := 0x1_0000_0000_0000_0000
  const MULTIPLIER := 1103515245
  const ADDEND := 12345
  const HASH_MULTIPLIER := 31

  /** The value an `int64` holds after an operation whose exact result is `x`. */
  function Wrap64(x: int): int {
    (x + TWO_TO_THE_63) % TWO_TO_THE_64 - TWO_TO_THE_63
  }

  /** The id read as an exact, unbounded polynomial in the hash multiplier. */
  function IdPolynomial(id: string): int {
    if id == [] then 0
    else IdPolynomial(id[..|id| - 1]) * HASH_MULTIPLIER + id[|id| - 1] as int
  }

  /** The priority of a key: one wrap of the exact sum, then its magnitude. */
  function Priority(k: Key): nat {
    var h := Wrap64(k.score * MULTIPLIER + ADDEND + IdPolynomial(k.id));
    if h < 0 then -h else h
  }

  /** Wrapping keeps the value modulo 2^64 and brings it into the range of an `int64`. */
  lemma WrapIsInt64(x: int)
    ensures -TWO_TO_THE_63 <= Wrap64(x) < TWO_TO_THE_63
    ensures exists q: int :: Wrap64(x) == x + q * TWO_TO_THE_64
  {
    var q := (x + TWO_TO_THE_63) / TWO_TO_THE_64;
    assert Wrap64(x) == x + (-q) * TWO_TO_THE_64;
  }

  function PowerOf31(n: nat): nat {
    if n == 0 then 1 else 31 * PowerOf31(n - 1)
  }

  /** A single character is its code point, and what follows an id shifts it by a power of 31. */
  lemma {:induction false} PolynomialOfJoin(a: string, b: string)
    ensures IdPolynomial(a + b) == IdPolynomial(a) * PowerOf31(|b|) + IdPolynomial(b)
    ensures |a| == 1 ==> IdPolynomial(a) == a[0] as int
  {
    if |a| == 1 {
      assert a[..0] == [];
      assert IdPolynomial(a[..0]) == 0;
    }
    if b == [] {
      assert a + b == a;
    } else {
      var n := |b| - 1;
      PolynomialOfJoin(a, b[..n]);
      assert (a + b)[..|a + b| - 1] == a + b[..n];
      Distribute(IdPolynomial(a), PowerOf31(n), IdPolynomial(b[..n]));
    }
  }

  lemma Distribute(x: int, p: int, y: int)
    ensures (x * p + y) * 31 == x * (31 * p) + y * 31
  {
  }

  lemma WrapPeriodic(x: int, q: int)
    ensures Wrap64(x + q * TWO_TO_THE_64) == Wrap64(x)
  {
    var y := x + TWO_TO_THE_63;
    assert (y + q * TWO_TO_THE_64) % TWO_TO_THE_64 == y % TWO_TO_THE_64;
  }

  /** Wrapping an intermediate result does not change a later wrapped linear combination. */
  lemma WrapAbsorbs(x: int, m: int, c: int)
    ensures Wrap64(Wrap64(x) * m + c) == Wrap64(x * m + c)
  {
    var q := (x + TWO_TO_THE_63) / TWO_TO_THE_64;
    assert Wrap64(x) == x - q * TWO_TO_THE_64;
    WrapPeriodic(x * m + c, -q * m);
    assert x * m + c + (-q * m) * TWO_TO_THE_64 == Wrap64(x) * m + c;
  }

  /**
   The hash as the store computes it, wrapping after every step; the result is the priority
   defined above with a single wrap, and fits a `uint64`.
   */
  method ScoreToPriority(score: int, id: string) returns (prio: nat)
    ensures prio == Priority(Key(score, id))
    ensures prio <= TWO_TO_THE_63
  {
    var idHash := 0;
    for i := 0 to |id|
      invariant idHash == Wrap64(IdPolynomial(id[..i]))
    {
      WrapAbsorbs(IdPolynomial(id[..i]), HASH_MULTIPLIER, id[i] as int);
      WrapAbsorbs(idHash * HASH_MULTIPLIER, 1, id[i] as int);
      idHash := Wrap64(Wrap64(idHash * HASH_MULTIPLIER) + id[i] as int);
      assert id[..i + 1][..i] == id[..i];
    }
    assert id[..|id|] == id;
    var scaled := Wrap64(Wrap64(score * MULTIPLIER) + ADDEND);
    var result := Wrap64(scaled + idHash);
    WrapAbsorbs(score * MULTIPLIER, 1, ADDEND);
    WrapAbsorbs(score * MULTIPLIER + ADDEND, 1, idHash);
    WrapAbsorbs(IdPolynomial(id), 1, score * MULTIPLIER + ADDEND);
    prio := if result < 0 then -result else result;
  }

  /** Three priorities in numbers; the sum behind the last one wraps to a negative value. */
  lemma KnownPriorities()
    ensures Priority(Key(0, "Aa")) == 14457
    ensures Priority(Key(8_000_000_000, "a")) == 8_828_121_960_000_012_442
    ensures Priority(Key(10_000_000_000, "b")) == 7_411_591_623_709_539_173
  {
    PolynomialOfJoin("A", "a");
    PolynomialOfJoin("a", "");
    PolynomialOfJoin("b", "");
    assert "A" + "a" == "Aa" && PowerOf31(1) == 31;
  }
}
