/**
 Cutting sequences up and putting them together.
 */
module Sequences {

  function RemoveAt<X>(s: seq<X>, i: nat): seq<X>
    requires i < |s|
  {
    s[..i] + s[i + 1..]
  }

  lemma RemoveAtBehind<X>(s: seq<X>, i: nat)
    requires 0 < i < |s|
    ensures RemoveAt(s, i) == [s[0]] + RemoveAt(s[1..], i - 1)
  {
    assert s[1..][..i - 1] == s[1..i] && s[1..][i..] == s[i + 1..];
  }

  lemma JoinOfSlices<X>(s: seq<X>, m: nat)
    requires m < |s|
    ensures s == s[..m] + [s[m]] + s[m + 1..]
  {
  }

  lemma Reassociate<X>(a: seq<X>, b: seq<X>, c: seq<X>)
    ensures a + b + c == a + (b + c)
  {
  }

  lemma Regroup<X>(a: seq<X>, x: X, b: seq<X>, y: X, c: seq<X>)
    ensures (a + [x] + b) + [y] + c == a + [x] + (b + [y] + c)
  {
  }

  lemma RegroupFront<X>(a: seq<X>, b: seq<X>, x: X, c: seq<X>)
    ensures a + (b + [x] + c) == (a + b) + [x] + c
  {
  }

  lemma RegroupBack<X>(a: seq<X>, x: X, b: seq<X>, c: seq<X>)
    ensures (a + [x] + b) + c == a + [x] + (b + c)
  {
  }
}
