/** Timestamp keys. A page of observations is a JavaScript object keyed by
    epoch seconds. JavaScript enumerates array-index keys (integers from 0 to
    2^32 - 2) in ascending numeric order, and epoch seconds are such keys, so
    `Object.keys(obs)` and `for (key in inter)` visit the timestamps smallest
    first. This module gives that order a definition
    (Ascending) and the loops that compute it. */
module Keys {

  /** A set that is not empty has an element to pick. */
  lemma HasElement(s: set<int>)
    requires s != {}
    ensures exists y :: y in s
  {
    if forall y :: y !in s {
      assert false;
    }
  }

  /** The largest timestamp of a non-empty set: the last of `Object.keys`. */
  ghost function Max(s: set<int>): (m: int)
    requires s != {}
    ensures m in s && forall y :: y in s ==> y <= m
  {
    HasElement(s);
    var x :| x in s;
    if s == {x} then
      assert forall y :: y in s ==> y == x;
      x
    else
      var m := Max(s - {x});
      assert forall y :: y in s ==> y == x || y in s - {x};
      if x < m then m else x
  }

  /** The smallest timestamp of a non-empty set: the first of `Object.keys`. */
  ghost function Min(s: set<int>): (m: int)
    requires s != {}
    ensures m in s && forall y :: y in s ==> m <= y
  {
    HasElement(s);
    var x :| x in s;
    if s == {x} then
      assert forall y :: y in s ==> y == x;
      x
    else
      var m := Min(s - {x});
      assert forall y :: y in s ==> y == x || y in s - {x};
      if m < x then m else x
  }

  ghost predicate StrictlyAscending(ks: seq<int>) {
    forall i, j :: 0 <= i < j < |ks| ==> ks[i] < ks[j]
  }

  /** The keys of a set in the order JavaScript enumerates them. */
  ghost function Ascending(s: set<int>): (ks: seq<int>)
    decreases |s|
  {
    if s == {} then []
    else
      var m := Min(s);
      [m] + Ascending(s - {m})
  }

  /** That order lists every key exactly once, smallest first. */
  lemma AscendingEnumerates(s: set<int>)
    ensures |Ascending(s)| == |s|
    ensures forall x :: x in s <==> x in Ascending(s)
    ensures StrictlyAscending(Ascending(s))
  {
    AscendingMembers(s);
    AscendingSorted(s);
  }

  lemma {:induction false} AscendingMembers(s: set<int>)
    ensures |Ascending(s)| == |s|
    ensures forall x :: x in s <==> x in Ascending(s)
    decreases |s|
  {
    if s != {} {
      var m := Min(s);
      AscendingMembers(s - {m});
      assert Ascending(s) == [m] + Ascending(s - {m});
    }
  }

  lemma {:induction false} AscendingSorted(s: set<int>)
    ensures StrictlyAscending(Ascending(s))
    decreases |s|
  {
    if s != {} {
      var m := Min(s);
      var rest := s - {m};
      AscendingSorted(rest);
      var tail := Ascending(rest);
      AboveAll(m, rest);
      PrependAscending(m, tail);
      assert Ascending(s) == [m] + tail;
    }
  }

  /** A bound below every key of a set is below every element of its order. */
  lemma AboveAll(m: int, rest: set<int>)
    requires forall y :: y in rest ==> m < y
    ensures forall k :: 0 <= k < |Ascending(rest)| ==> m < Ascending(rest)[k]
  {
    AscendingMembers(rest);
    var tail := Ascending(rest);
    forall k | 0 <= k < |tail|
      ensures m < tail[k]
    {
      assert tail[k] in rest;
    }
  }

  lemma PrependAscending(m: int, tail: seq<int>)
    requires StrictlyAscending(tail)
    requires forall k :: 0 <= k < |tail| ==> m < tail[k]
    ensures StrictlyAscending([m] + tail)
  {
    var ks := [m] + tail;
    forall i, j | 0 <= i < j < |ks|
      ensures ks[i] < ks[j]
    {
      assert ks[j] == tail[j - 1];
      if i > 0 {
        assert ks[i] == tail[i - 1];
      }
    }
  }

  /** `times[times.length - 1]` with `times = Object.keys(obs)`. */
  method LastKey(s: set<int>) returns (m: int)
    requires s != {}
    ensures m == Max(s)
  {
    HasElement(s);
    m :| m in s;
    var rest := s - {m};
    while rest != {}
      invariant rest <= s && m in s
      invariant forall x :: x in s && x !in rest ==> x <= m
      decreases rest
    {
      HasElement(rest);
      var x :| x in rest;
      if m < x {
        m := x;
      }
      rest := rest - {x};
    }
  }

  method FirstKey(s: set<int>) returns (m: int)
    requires s != {}
    ensures m == Min(s)
  {
    HasElement(s);
    m :| m in s;
    var rest := s - {m};
    while rest != {}
      invariant rest <= s && m in s
      invariant forall x :: x in s && x !in rest ==> m <= x
      decreases rest
    {
      HasElement(rest);
      var x :| x in rest;
      if x < m {
        m := x;
      }
      rest := rest - {x};
    }
  }

  /** The enumeration order of an object's array-index keys. */
  method AscendingKeys(s: set<int>) returns (ks: seq<int>)
    ensures ks == Ascending(s)
  {
    ks := [];
    var rest := s;
    while rest != {}
      invariant ks + Ascending(rest) == Ascending(s)
      decreases rest
    {
      var m := FirstKey(rest);
      ghost var tail := Ascending(rest - {m});
      assert Ascending(rest) == [m] + tail;
      assert ks + Ascending(rest) == (ks + [m]) + tail;
      ks := ks + [m];
      rest := rest - {m};
    }
  }
}
