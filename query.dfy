/** The one kind of list query the routes send to the store:
    `Model.find().sort({field: order}).limit(n)`. The store's answer is
    specified relationally (the `n` highest-ranked documents, best first)
    and computed by a selection loop that meets that specification. */
module Query {
  import opened Models
  import Membership

  function Min(a: nat, b: nat): nat {
    if a < b then a else b
  }

  /** The ids of a list of documents. */
  function Ids<T>(r: seq<T>, id: T -> Id): (ids: seq<Id>)
    ensures |ids| == |r|
    ensures forall i :: 0 <= i < |r| ==> ids[i] == id(r[i])
  {
    seq(|r|, i requires 0 <= i < |r| => id(r[i]))
  }

  /** `r` is a correct answer to a sorted, limited query over collection `m`:
      it lists `min(limit, |m|)` distinct documents of `m`, in non-increasing
      rank, and no document left out ranks above one that was listed. Ties
      may come in any order. */
  ghost predicate IsTopK<T>(m: map<Id, T>, id: T -> Id, rank: T -> int, limit: nat, r: seq<T>) {
    && |r| == Min(limit, |m|)
    && (forall i :: 0 <= i < |r| ==> id(r[i]) in m && m[id(r[i])] == r[i])
    && Membership.NoDuplicates(Ids(r, id))
    && (forall i, j :: 0 <= i < j < |r| ==> rank(r[i]) >= rank(r[j]))
    && (forall k :: k in m && k !in Ids(r, id) ==>
          forall i :: 0 <= i < |r| ==> rank(m[k]) <= rank(r[i]))
  }

  /** A key of `s` whose document ranks highest. */
  method Best<T>(m: map<Id, T>, rank: T -> int, s: set<Id>) returns (best: Id)
    requires s != {} && s <= m.Keys
    ensures best in s
    ensures forall k :: k in s ==> rank(m[k]) <= rank(m[best])
  {
    best :| best in s;
    var todo := s - {best};
    while todo != {}
      invariant todo <= s && best in s
      invariant forall k :: k in s && k !in todo ==> rank(m[k]) <= rank(m[best])
      decreases todo
    {
      var k :| k in todo;
      if rank(m[k]) > rank(m[best]) {
        best := k;
      }
      todo := todo - {k};
    }
  }

  /** `find().sort({rank: -1}).limit(limit)` over a collection whose
      documents are stored under their own ids. */
  method TopK<T>(m: map<Id, T>, id: T -> Id, rank: T -> int, limit: nat) returns (r: seq<T>)
    requires forall k :: k in m ==> id(m[k]) == k
    ensures IsTopK(m, id, rank, limit, r)
  {
    r := [];
    var rest := m.Keys;
    assert |rest| == |m|;
    while |r| < limit && rest != {}
      invariant rest <= m.Keys
      invariant forall k :: k in m ==> (k in rest <==> k !in Ids(r, id))
      invariant |r| + |rest| == |m| && |r| <= limit
      invariant forall i :: 0 <= i < |r| ==> id(r[i]) in m && m[id(r[i])] == r[i]
      invariant Membership.NoDuplicates(Ids(r, id))
      invariant forall i, j :: 0 <= i < j < |r| ==> rank(r[i]) >= rank(r[j])
      invariant forall k :: k in rest ==> forall i :: 0 <= i < |r| ==> rank(m[k]) <= rank(r[i])
      decreases |rest|
    {
      var best := Best(m, rank, rest);
      assert Ids(r + [m[best]], id) == Ids(r, id) + [best];
      AppendFresh(Ids(r, id), best);
      AppendKeepsOrder(r, m[best], rank);
      AppendKeepsBound(m, rank, r, rest, best);
      r := r + [m[best]];
      rest := rest - {best};
    }
    assert |r| == limit || rest == {};
  }

  lemma AppendFresh(ids: seq<Id>, x: Id)
    requires Membership.NoDuplicates(ids) && x !in ids
    ensures Membership.NoDuplicates(ids + [x])
  {
  }

  /** A document ranked no higher than any listed one may follow them. */
  lemma AppendKeepsOrder<T>(r: seq<T>, x: T, rank: T -> int)
    requires forall i, j :: 0 <= i < j < |r| ==> rank(r[i]) >= rank(r[j])
    requires forall i :: 0 <= i < |r| ==> rank(x) <= rank(r[i])
    ensures forall i, j :: 0 <= i < j < |r + [x]| ==> rank((r + [x])[i]) >= rank((r + [x])[j])
  {
  }

  /** After the best remaining document is listed, every one still left
      ranks no higher than any listed one. */
  lemma AppendKeepsBound<T>(m: map<Id, T>, rank: T -> int, r: seq<T>, rest: set<Id>, best: Id)
    requires best in rest && rest <= m.Keys
    requires forall k :: k in rest ==> forall i :: 0 <= i < |r| ==> rank(m[k]) <= rank(r[i])
    requires forall k :: k in rest ==> rank(m[k]) <= rank(m[best])
    ensures forall i :: 0 <= i < |r| ==> rank(m[best]) <= rank(r[i])
    ensures forall k :: k in rest - {best} ==>
      forall i :: 0 <= i < |r + [m[best]]| ==> rank(m[k]) <= rank((r + [m[best]])[i])
  {
  }

  /** The document that outranks every other comes first in any answer. */
  lemma TopRankedComesFirst<T>(m: map<Id, T>, id: T -> Id, rank: T -> int, limit: nat, r: seq<T>, k: Id)
    requires IsTopK(m, id, rank, limit, r) && limit >= 1 && k in m
    requires forall j :: j in m && j != k ==> rank(m[j]) < rank(m[k])
    ensures |r| >= 1 && r[0] == m[k]
  {
    assert |m| >= 1 by {
      assert k in m.Keys;
    }
    assert forall i :: 0 <= i < |r| && id(r[i]) != k ==> rank(r[i]) < rank(m[k]);
    if id(r[0]) != k {
      assert false;
    }
  }
}
