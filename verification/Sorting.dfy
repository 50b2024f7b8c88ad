/** The sorts the source asks its standard library for, as one insertion sort
    over any total preorder. */
module Sorting {

  ghost predicate TotalPreorder<T(!new)>(le: (T, T) -> bool) {
    && (forall x, y :: le(x, y) || le(y, x))
    && (forall x, y, z :: le(x, y) && le(y, z) ==> le(x, z))
  }

  ghost predicate Sorted<T>(s: seq<T>, le: (T, T) -> bool) {
    forall i, j :: 0 <= i < j < |s| ==> le(s[i], s[j])
  }

  ghost predicate Distinct<T>(s: seq<T>) {
    forall i, j :: 0 <= i < j < |s| ==> s[i] != s[j]
  }

  /** An element that comes before everything in a sorted list leads it. */
  lemma SortedCons<T(!new)>(x: T, s: seq<T>, le: (T, T) -> bool)
    requires Sorted(s, le) && forall y :: y in multiset(s) ==> le(x, y)
    ensures Sorted([x] + s, le)
  {
    forall i, j | 0 <= i < j < |[x] + s|
      ensures le(([x] + s)[i], ([x] + s)[j])
    {
      assert s[j - 1] in multiset(s);
    }
  }

  lemma HeadIsLeast<T(!new)>(s: seq<T>, le: (T, T) -> bool)
    requires TotalPreorder(le) && Sorted(s, le) && s != []
    ensures forall y :: y in multiset(s) ==> le(s[0], y)
  {
    forall y | y in multiset(s)
      ensures le(s[0], y)
    {
      var i :| 0 <= i < |s| && s[i] == y;
    }
  }

  function Insert<T(!new)>(x: T, s: seq<T>, le: (T, T) -> bool): (r: seq<T>)
    requires TotalPreorder(le) && Sorted(s, le)
    ensures Sorted(r, le)
    ensures multiset(r) == multiset{x} + multiset(s)
  {
    if s == [] then [x]
    else if le(x, s[0]) then
      assert forall y :: le(s[0], y) ==> le(x, y);
      HeadIsLeast(s, le);
      SortedCons(x, s, le);
      [x] + s
    else
      var rest := Insert(x, s[1..], le);
      assert s == [s[0]] + s[1..];
      HeadIsLeast(s, le);
      SortedCons(s[0], rest, le);
      [s[0]] + rest
  }

  function Sort<T(!new)>(s: seq<T>, le: (T, T) -> bool): (r: seq<T>)
    requires TotalPreorder(le)
    ensures Sorted(r, le)
    ensures multiset(r) == multiset(s)
    ensures |r| == |s|
  {
    if s == [] then []
    else
      assert s == [s[0]] + s[1..];
      var r := Insert(s[0], Sort(s[1..], le), le);
      assert |r| == |multiset(r)| == |multiset(s)|;
      r
  }

  /** Sorting neither adds nor drops an element. */
  lemma SortKeeps<T(!new)>(s: seq<T>, le: (T, T) -> bool, x: T)
    requires TotalPreorder(le)
    ensures x in Sort(s, le) <==> x in s
  {
    assert x in Sort(s, le) <==> x in multiset(Sort(s, le));
    assert x in s <==> x in multiset(s);
  }

  /** What has no repeats is as many things as it is long. */
  lemma {:induction false} DistinctSize<T>(s: seq<T>)
    requires Distinct(s)
    ensures |set x | x in s| == |s|
  {
    if s == [] {
      assert (set x | x in s) == {};
    } else {
      DistinctSize(s[1..]);
      assert (set x | x in s) == {s[0]} + (set x | x in s[1..]);
    }
  }

  /** Two lists with the same elements, as often: one has no repeats if the
      other has none. */
  lemma {:induction false} DistinctByCount<T>(s: seq<T>, r: seq<T>)
    requires multiset(s) == multiset(r) && Distinct(s)
    ensures Distinct(r)
  {
    forall i, j | 0 <= i < j < |r|
      ensures r[i] != r[j]
    {
      if r[i] == r[j] {
        assert r == r[..j] + [r[j]] + r[j + 1..];
        assert r[i] in r[..j];
        assert multiset(r)[r[j]] >= 2;
        CountDistinct(s, r[j]);
      }
    }
  }

  lemma {:induction false} CountDistinct<T>(s: seq<T>, x: T)
    requires Distinct(s)
    ensures multiset(s)[x] <= 1
  {
    if s != [] {
      assert s == [s[0]] + s[1..];
      CountDistinct(s[1..], x);
      if x == s[0] {
        assert x !in s[1..];
      }
    }
  }

  ghost predicate Antisymmetric<T(!new)>(le: (T, T) -> bool) {
    forall x, y :: le(x, y) && le(y, x) ==> x == y
  }

  lemma NotYet<T(!new)>(s: seq<T>, x: T, le: (T, T) -> bool)
    requires Antisymmetric(le) && Sorted(s, le) && Distinct(s) && s != []
    requires le(s[|s| - 1], x) && x != s[|s| - 1]
    ensures x !in s
  {
  }

  /** Repeats removed from a sorted list, as the standard library's `dedup` does. */
  method Dedup<T(!new, ==)>(s: seq<T>, ghost le: (T, T) -> bool) returns (out: seq<T>)
    requires TotalPreorder(le) && Antisymmetric(le) && Sorted(s, le)
    ensures Sorted(out, le) && Distinct(out)
    ensures forall x :: x in out <==> x in s
  {
    out := [];
    for i := 0 to |s|
      invariant Sorted(out, le) && Distinct(out)
      invariant forall x :: x in out <==> x in s[..i]
      invariant i == 0 ==> out == []
      invariant i > 0 ==> out != [] && out[|out| - 1] == s[i - 1]
      invariant forall k :: 0 <= k < |out| && i > 0 ==> le(out[k], s[i - 1])
    {
      assert s[..i + 1] == s[..i] + [s[i]];
      assert i > 0 ==> le(s[i - 1], s[i]);
      if out == [] || out[|out| - 1] != s[i] {
        if out != [] { NotYet(out, s[i], le); }
        out := out + [s[i]];
      }
    }
    assert s[..|s|] == s;
  }
}
