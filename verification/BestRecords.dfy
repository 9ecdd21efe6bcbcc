/**
 What the store keeps of a sequence of offers: for every talent the first of its best ones, in full.
 */
module BestRecords {
  import opened Traversals

  datatype Offer = Offer(id: string, b: Best)

  /** The best scores and their metadata after one more offer: only a strictly better one is taken. */
  function BestsAfter(bests: map<string, Best>, id: string, b: Best): map<string, Best> {
    if id in bests && b.score <= bests[id].score then bests else bests[id := b]
  }

  lemma OfferIsMet(bests: map<string, Best>, id: string, b: Best)
    ensures id in BestsAfter(bests, id, b) && BestsAfter(bests, id, b)[id].score >= b.score
  {
  }

  ghost predicate Offered(os: seq<Offer>, id: string) {
    exists i :: 0 <= i < |os| && os[i].id == id
  }

  /** The `i`-th offer is the talent's: none of its offers is better, and none before is as good. */
  ghost predicate FirstBest(os: seq<Offer>, id: string, i: nat) {
    && i < |os| && os[i].id == id
    && (forall j :: 0 <= j < |os| && os[j].id == id ==> os[j].b.score <= os[i].b.score)
    && (forall j :: 0 <= j < i && os[j].id == id ==> os[j].b.score < os[i].b.score)
  }

  /** `bests` names exactly the talents with an offer, each with the first of its best ones. */
  ghost predicate Reflects(bests: map<string, Best>, os: seq<Offer>) {
    && (forall id :: id in bests <==> Offered(os, id))
    && (forall id :: id in bests ==> exists i: nat :: FirstBest(os, id, i) && os[i].b == bests[id])
  }

  lemma OfferedOneMore(os: seq<Offer>, o: Offer, id: string)
    ensures Offered(os + [o], id) <==> Offered(os, id) || o.id == id
  {
    var more := os + [o];
    if Offered(os, id) {
      var i :| 0 <= i < |os| && os[i].id == id;
      assert more[i].id == id;
    }
    if o.id == id { assert more[|os|].id == id; }
  }

  lemma OtherOfferKeeps(os: seq<Offer>, o: Offer, id: string, i: nat)
    requires FirstBest(os, id, i) && (o.id != id || o.b.score <= os[i].b.score)
    ensures FirstBest(os + [o], id, i)
  {
  }

  lemma BetterOfferWins(os: seq<Offer>, o: Offer, bests: map<string, Best>)
    requires Reflects(bests, os) && !(o.id in bests && o.b.score <= bests[o.id].score)
    ensures FirstBest(os + [o], o.id, |os|)
  {
    if o.id in bests {
      var i: nat :| FirstBest(os, o.id, i) && os[i].b == bests[o.id];
    } else {
      assert !Offered(os, o.id);
    }
  }

  /** Every run of offers keeps that up. */
  lemma ReflectsOneMore(bests: map<string, Best>, os: seq<Offer>, o: Offer)
    requires Reflects(bests, os)
    ensures Reflects(BestsAfter(bests, o.id, o.b), os + [o])
  {
    var after, more := BestsAfter(bests, o.id, o.b), os + [o];
    forall id ensures id in after <==> Offered(more, id) { OfferedOneMore(os, o, id); }
    forall id | id in after ensures exists i: nat :: FirstBest(more, id, i) && more[i].b == after[id] {
      if id == o.id && !(id in bests && o.b.score <= bests[id].score) {
        BetterOfferWins(os, o, bests);
      } else {
        var i: nat :| FirstBest(os, id, i) && os[i].b == bests[id];
        OtherOfferKeeps(os, o, id, i);
        assert more[i] == os[i];
      }
    }
  }

  /** Nothing kept is worse than what was offered. */
  lemma OfferIsReflected(bests: map<string, Best>, os: seq<Offer>, k: nat)
    requires Reflects(bests, os) && k < |os|
    ensures os[k].id in bests && os[k].b.score <= bests[os[k].id].score
  {
    var id := os[k].id;
    assert Offered(os, id);
    var i: nat :| FirstBest(os, id, i) && os[i].b == bests[id];
  }

  lemma ReflectsNothing()
    ensures Reflects(map[], [])
  {
  }
}
