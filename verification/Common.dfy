/** Shared datatypes and the few sequence facts every component relies on. */
module Common {

  datatype Option<+T> = None | Some(value: T) {
    predicate IsFailure() { None? }

    function PropagateFailure<U>(): Option<U>
      requires None?
    {
      None
    }

    function Extract(): T
      requires Some?
    {
      value
    }
  }

  datatype Result<+T, +E> = Ok(value: T) | Err(error: E)

  ghost predicate Distinct<T>(s: seq<T>) {
    forall i, j :: 0 <= i < j < |s| ==> s[i] != s[j]
  }

  function Elements<T>(s: seq<T>): set<T> {
    set x | x in s
  }

  /** Array.filter / Iterator::filter: keeps order. */
  function Filter<T(!new)>(s: seq<T>, p: T -> bool): (r: seq<T>)
    ensures |r| <= |s|
    ensures forall x :: x in r <==> x in s && p(x)
  {
    if s == [] then []
    else if p(s[0]) then [s[0]] + Filter(s[1..], p)
    else Filter(s[1..], p)
  }

  lemma {:induction false} FilterAppend<T(!new)>(s: seq<T>, t: seq<T>, p: T -> bool)
    ensures Filter(s + t, p) == Filter(s, p) + Filter(t, p)
  {
    if s == [] {
      assert s + t == t;
    } else {
      assert (s + t)[1..] == s[1..] + t;
      FilterAppend(s[1..], t, p);
    }
  }

  lemma {:induction false} FilterDistinct<T(!new)>(s: seq<T>, p: T -> bool)
    requires Distinct(s)
    ensures Distinct(Filter(s, p))
  {
    if s == [] {
    } else {
      assert forall x :: x in s[1..] ==> x != s[0];
      FilterDistinct(s[1..], p);
    }
  }

  lemma ConcatDistinct<T(!new)>(s: seq<T>, t: seq<T>)
    requires Distinct(s) && Distinct(t) && forall x :: x in s ==> x !in t
    ensures Distinct(s + t)
    ensures forall x :: x in s + t <==> x in s || x in t
  {
    var r := s + t;
    forall i, j | 0 <= i < j < |r|
      ensures r[i] != r[j]
    {
      if i < |s| <= j { assert s[i] in s && t[j - |s|] in t; }
    }
  }

  /** The integers lo, ..., hi - 1. */
  function Range(lo: int, hi: int): (r: set<int>)
    ensures forall i :: i in r <==> lo <= i < hi
    decreases hi - lo
  {
    if lo >= hi then {} else {lo} + Range(lo + 1, hi)
  }

  const TWO_32: int := 0x1_0000_0000

  /** Set.add on an insertion-ordered set. */
  function AddIfAbsent<T(==)>(xs: seq<T>, x: T): seq<T> {
    if x in xs then xs else xs + [x]
  }

  function Lookup<K(==), V>(m: map<K, V>, k: K): Option<V> {
    if k in m then Some(m[k]) else None
  }

  function RemoveAt<T>(s: seq<T>, k: nat): (r: seq<T>)
    requires k < |s|
    ensures |r| == |s| - 1
  {
    s[..k] + s[k + 1..]
  }

  lemma RemoveAtMultiset<T(!new)>(s: seq<T>, k: nat)
    requires k < |s|
    ensures multiset(s) == multiset{s[k]} + multiset(RemoveAt(s, k))
  {
    assert s == s[..k] + [s[k]] + s[k + 1..];
  }

  lemma RemoveAtMembers<T(!new)>(s: seq<T>, k: nat)
    requires k < |s| && Distinct(s)
    ensures Distinct(RemoveAt(s, k))
    ensures multiset(s) == multiset{s[k]} + multiset(RemoveAt(s, k))
    ensures forall x :: x in RemoveAt(s, k) <==> x in s && x != s[k]
  {
    var r := RemoveAt(s, k);
    RemoveAtMultiset(s, k);
    forall i, j | 0 <= i < j < |r|
      ensures r[i] != r[j]
    {
      assert s[if i < k then i else i + 1] != s[if j < k then j else j + 1];
    }
    forall x
      ensures x in r <==> x in s && x != s[k]
    {
      if x in s && x != s[k] {
        var i :| 0 <= i < |s| && s[i] == x;
        assert r[if i < k then i else i - 1] == x;
      }
      if x in r {
        var j :| 0 <= j < |r| && r[j] == x;
        assert s[if j < k then j else j + 1] == x;
      }
    }
  }

  lemma HasMember<T(!new)>(s: seq<T>)
    requires |s| > 0
    ensures exists x :: x in s
  {
    assert s[0] in s;
  }

  function Reversed<T>(s: seq<T>): (r: seq<T>)
    ensures |r| == |s| && forall i :: 0 <= i < |s| ==> r[i] == s[|s| - 1 - i]
  {
    seq(|s|, i requires 0 <= i < |s| => s[|s| - 1 - i])
  }

  ghost predicate SortedBy<T(!new)>(s: seq<T>, rank: T -> int) {
    forall i, j :: 0 <= i < j < |s| ==> rank(s[i]) <= rank(s[j])
  }

  lemma ConsOrder<T(!new)>(x: T, s: seq<T>, rank: T -> int)
    ensures s == [] ==> SortedBy(s, rank)
    ensures SortedBy([x] + s, rank) <==> SortedBy(s, rank) && forall y :: y in s ==> rank(x) <= rank(y)
  {
    var r := [x] + s;
    assert r[0] == x && forall i :: 0 <= i < |s| ==> r[i + 1] == s[i];
  }

  lemma HeadIsLeast<T(!new)>(s: seq<T>, rank: T -> int)
    ensures SortedBy(s, rank) ==> forall y :: y in s ==> rank(s[0]) <= rank(y)
  {
  }

  lemma ConsDistinct<T(!new)>(x: T, s: seq<T>)
    ensures s == [] ==> Distinct(s)
    ensures Distinct([x] + s) <==> x !in s && Distinct(s)
  {
    var r := [x] + s;
    assert r[0] == x && forall i :: 0 <= i < |s| ==> r[i + 1] == s[i];
  }

  /** Places `x` before the first element whose rank is not smaller. */
  function Insert<T(!new)>(x: T, s: seq<T>, rank: T -> int): (r: seq<T>)
    ensures |r| == |s| + 1 && multiset(r) == multiset(s) + multiset{x}
    ensures forall y :: y in r <==> y == x || y in s
    ensures SortedBy(s, rank) ==> SortedBy(r, rank)
    ensures Distinct(s) && x !in s ==> Distinct(r)
  {
    hide SortedBy, Distinct;
    if s == [] || rank(x) <= rank(s[0]) then
      ConsOrder(x, s, rank);
      ConsDistinct(x, s);
      HeadIsLeast(s, rank);
      [x] + s
    else
      var rest := Insert(x, s[1..], rank);
      assert s == [s[0]] + s[1..];
      ConsOrder(s[0], s[1..], rank);
      ConsDistinct(s[0], s[1..]);
      ConsOrder(s[0], rest, rank);
      ConsDistinct(s[0], rest);
      [s[0]] + rest
  }

  lemma NothingToSort<T(!new)>(s: seq<T>, rank: T -> int)
    requires s == []
    ensures SortedBy(s, rank) && Distinct(s)
  {
  }

  /** Array.sort with a numeric comparison: stable. */
  function SortBy<T(!new)>(s: seq<T>, rank: T -> int): (r: seq<T>)
    ensures |r| == |s| && SortedBy(r, rank) && multiset(r) == multiset(s)
    ensures forall y :: y in r <==> y in s
    ensures Distinct(s) ==> Distinct(r)
  {
    hide SortedBy, Distinct;
    if s == [] then
      NothingToSort(s, rank);
      []
    else
      assert s == [s[0]] + s[1..];
      ConsDistinct(s[0], s[1..]);
      Insert(s[0], SortBy(s[1..], rank), rank)
  }

  /** Two duplicate-free sequences with the same members have the same length
      and are permutations of each other. */
  lemma {:induction false} SameMembers<T(!new)>(s: seq<T>, t: seq<T>)
    requires Distinct(s) && Distinct(t)
    requires forall x :: x in s <==> x in t
    ensures |s| == |t|
    ensures multiset(s) == multiset(t)
  {
    if s == [] {
      if |t| > 0 { HasMember(t); }
    } else {
      assert s[0] in s && s[0] in t;
      var k :| 0 <= k < |t| && t[k] == s[0];
      RemoveAtMembers(s, 0);
      RemoveAtMembers(t, k);
      SameMembers(RemoveAt(s, 0), RemoveAt(t, k));
    }
  }
}
