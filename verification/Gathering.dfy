/**
 Summing up what the members of a sequence hold, each of them a small multiset.
 */
module Gathering {

  function Gather<T, E>(s: seq<T>, f: T -> multiset<E>): multiset<E> {
    if s == [] then multiset{} else f(s[0]) + Gather(s[1..], f)
  }

  /** Replacing one member exchanges its contribution. */
  lemma {:induction false} GatherUpdate<T, E(!new)>(s: seq<T>, i: nat, x: T, f: T -> multiset<E>)
    requires i < |s|
    ensures forall e :: Gather(s[i := x], f)[e] + f(s[i])[e] == Gather(s, f)[e] + f(x)[e]
    ensures |Gather(s[i := x], f)| + |f(s[i])| == |Gather(s, f)| + |f(x)|
  {
    var u := s[i := x];
    if i == 0 {
      assert u[1..] == s[1..];
    } else {
      assert u[1..] == s[1..][i - 1 := x] && u[0] == s[0] && s[1..][i - 1] == s[i];
      GatherUpdate(s[1..], i - 1, x, f);
    }
  }

  lemma {:induction false} GatherAppend<T, E(!new)>(s: seq<T>, x: T, f: T -> multiset<E>)
    ensures forall e :: Gather(s + [x], f)[e] == Gather(s, f)[e] + f(x)[e]
  {
    var u := s + [x];
    if s == [] {
      assert u[1..] == [];
    } else {
      assert u[1..] == s[1..] + [x] && u[0] == s[0];
      GatherAppend(s[1..], x, f);
    }
  }

  /** What one member holds is part of the whole. */
  lemma {:induction false} GatherHas<T, E>(s: seq<T>, i: nat, f: T -> multiset<E>)
    requires i < |s|
    ensures f(s[i]) <= Gather(s, f)
  {
    if i > 0 {
      GatherHas(s[1..], i - 1, f);
    }
  }

  lemma {:induction false} GatherNothing<T, E>(s: seq<T>, f: T -> multiset<E>)
    requires forall i :: 0 <= i < |s| ==> f(s[i]) == multiset{}
    ensures Gather(s, f) == multiset{}
  {
    if s != [] {
      GatherNothing(s[1..], f);
    }
  }

  lemma {:induction false} GatherAtMost<T, E>(s: seq<T>, f: T -> multiset<E>)
    requires forall i :: 0 <= i < |s| ==> |f(s[i])| <= 1
    ensures |Gather(s, f)| <= |s|
  {
    if s != [] {
      GatherAtMost(s[1..], f);
    }
  }
}
