/** The participant-list updates shared by post likes, event attendees and
    club members: `indexOf`, then `push` when absent or `splice(idx, 1)` when
    present; and the two MongoDB array operators the club routes apply to a
    user's `clubs` list, `$addToSet` and `$pull`. */
module Membership {

  predicate NoDuplicates<T(==)>(s: seq<T>) {
    forall i, j :: 0 <= i < j < |s| ==> s[i] != s[j]
  }

  /** `s.indexOf(x)`: the first position of `x`, or -1. */
  function IndexOf<T(==)>(s: seq<T>, x: T): (i: int)
    ensures -1 <= i < |s|
    ensures i == -1 <==> x !in s
    ensures 0 <= i ==> s[i] == x && x !in s[..i]
  {
    if |s| == 0 then -1
    else if s[0] == x then 0
    else
      var j := IndexOf(s[1..], x);
      assert 0 <= j ==> s[..j + 1] == [s[0]] + s[1..][..j];
      if j == -1 then -1 else j + 1
  }

  /** `s.splice(i, 1)` on a copy: `s` without its element at `i`. */
  function RemoveAt<T>(s: seq<T>, i: nat): seq<T>
    requires i < |s|
  {
    s[..i] + s[i + 1..]
  }

  /** The outcome of a toggle: the new list and whether the actor was added. */
  datatype Toggled<T> = Toggled(list: seq<T>, added: bool)

  /** The toggle every participant list uses: append `x` when absent,
      otherwise remove its first occurrence. */
  function Toggle<T(==)>(s: seq<T>, x: T): (t: Toggled<T>)
    ensures t.added <==> x !in s
    ensures t.added ==> t.list == s + [x]
    ensures |t.list| == if t.added then |s| + 1 else |s| - 1
  {
    var idx := IndexOf(s, x);
    if idx == -1 then Toggled(s + [x], true) else Toggled(RemoveAt(s, idx), false)
  }

  /** The other branch of a toggle: when `x` was present, its first
      occurrence, and nothing else, is removed. */
  lemma ToggleSpec<T>(s: seq<T>, x: T)
    ensures x in s ==> exists i :: 0 <= i < |s| && s[i] == x && x !in s[..i]
                                   && Toggle(s, x).list == s[..i] + s[i + 1..]
  {
    if x in s {
      var i := IndexOf(s, x);
      assert s[i] == x && x !in s[..i];
    }
  }

  /** Other participants are untouched by a toggle. */
  lemma ToggleKeepsOthers<T>(s: seq<T>, x: T, y: T)
    requires y != x
    ensures y in Toggle(s, x).list <==> y in s
  {
    if x in s {
      var i := IndexOf(s, x);
      assert s == s[..i] + [s[i]] + s[i + 1..];
    }
  }

  /** On a duplicate-free list, `x` is present afterwards exactly when the
      toggle reports that it was added. */
  lemma ToggleMembership<T>(s: seq<T>, x: T)
    requires NoDuplicates(s)
    ensures x in Toggle(s, x).list <==> Toggle(s, x).added
  {
    if x in s {
      var i := IndexOf(s, x);
      var r := Toggle(s, x).list;
      assert r == s[..i] + s[i + 1..];
      forall k | 0 <= k < |r| ensures r[k] != x {
        if k < i {
          assert r[k] == s[k];
        } else {
          assert r[k] == s[k + 1];
        }
      }
    }
  }

  /** A toggle keeps a duplicate-free list duplicate-free. */
  lemma ToggleKeepsNoDuplicates<T>(s: seq<T>, x: T)
    requires NoDuplicates(s)
    ensures NoDuplicates(Toggle(s, x).list)
  {
    var idx := IndexOf(s, x);
    var r := Toggle(s, x).list;
    if idx == -1 {
      forall i, j | 0 <= i < j < |r| ensures r[i] != r[j] {
        if j == |s| {
          assert r[i] == s[i];
        }
      }
    } else {
      forall i, j | 0 <= i < j < |r| ensures r[i] != r[j] {
        var i' := if i < idx then i else i + 1;
        var j' := if j < idx then j else j + 1;
        assert r[i] == s[i'] && r[j] == s[j'];
      }
    }
  }

  /** Toggling an absent actor twice restores the exact original list. */
  lemma {:induction false} ToggleTwiceFromAbsent<T>(s: seq<T>, x: T)
    requires x !in s
    ensures Toggle(Toggle(s, x).list, x) == Toggled(s, false)
  {
    var t := s + [x];
    assert Toggle(s, x).list == t;
    var i := IndexOf(t, x);
    assert t[|s|] == x;
    assert forall j :: 0 <= j < |s| ==> t[j] == s[j];
    assert i == |s|;
    assert t[..i] + t[i + 1..] == s;
  }

  /** Toggling a present actor twice moves it to the end: the same elements
      with the same multiplicities, hence the same set. */
  lemma ToggleTwiceFromPresent<T>(s: seq<T>, x: T)
    requires x in s
    ensures Toggle(Toggle(s, x).list, x).added == (x !in Toggle(s, x).list)
    ensures NoDuplicates(s) ==> Toggle(Toggle(s, x).list, x).added
    ensures NoDuplicates(s) ==> multiset(Toggle(Toggle(s, x).list, x).list) == multiset(s)
    ensures NoDuplicates(s) ==> (set y | y in Toggle(Toggle(s, x).list, x).list) == (set y | y in s)
  {
    var i := IndexOf(s, x);
    var r := Toggle(s, x).list;
    assert r == s[..i] + s[i + 1..];
    assert s == s[..i] + [x] + s[i + 1..];
    if NoDuplicates(s) {
      ToggleMembership(s, x);
      assert x !in r;
      var r2 := Toggle(r, x).list;
      assert r2 == r + [x];
      calc {
        multiset(r2);
        multiset(s[..i]) + multiset(s[i + 1..]) + multiset([x]);
        multiset(s[..i] + [x] + s[i + 1..]);
        multiset(s);
      }
      forall y ensures y in r2 <==> y in s {
        assert y in r2 <==> y in multiset(r2);
        assert y in s <==> y in multiset(s);
      }
    }
  }

  /** `$addToSet`: append unless already present. */
  function AddToSet<T(==,!new)>(s: seq<T>, x: T): (r: seq<T>)
    ensures x in r
    ensures forall y :: y in r <==> y in s || y == x
    ensures NoDuplicates(s) ==> NoDuplicates(r)
  {
    if x in s then s else s + [x]
  }

  /** `$pull`: remove every occurrence. */
  function Pull<T(==,!new)>(s: seq<T>, x: T): (r: seq<T>)
    ensures x !in r
    ensures forall y :: y in r <==> y in s && y != x
    ensures |r| <= |s|
  {
    if |s| == 0 then []
    else if s[0] == x then Pull(s[1..], x)
    else [s[0]] + Pull(s[1..], x)
  }
}
