/** `List<string>.Sort()` over listed paths, as an ordinal order on strings:
    compare character codes left to right; a proper prefix comes first. */
module Sorting {

  predicate LessEq(a: string, b: string)
    decreases |a|
  {
    a == [] || (b != [] && (a[0] < b[0] || (a[0] == b[0] && LessEq(a[1..], b[1..]))))
  }

  lemma {:induction false} LessEqTotal(a: string, b: string)
    ensures LessEq(a, b) || LessEq(b, a)
    decreases |a|
  {
    if a != [] && b != [] && a[0] == b[0] {
      LessEqTotal(a[1..], b[1..]);
    }
  }

  lemma {:induction false} LessEqTransitive(a: string, b: string, c: string)
    requires LessEq(a, b) && LessEq(b, c)
    ensures LessEq(a, c)
    decreases |a|
  {
    if a != [] && b[0] == a[0] && c[0] == b[0] {
      LessEqTransitive(a[1..], b[1..], c[1..]);
    }
  }

  lemma {:induction false} LessEqReflexive(a: string)
    ensures LessEq(a, a)
    decreases |a|
  {
    if a != [] {
      LessEqReflexive(a[1..]);
    }
  }

  lemma {:induction false} LessEqAntisymmetric(a: string, b: string)
    requires LessEq(a, b) && LessEq(b, a)
    ensures a == b
    decreases |a|
  {
    if a != [] {
      LessEqAntisymmetric(a[1..], b[1..]);
      assert a == [a[0]] + a[1..] && b == [b[0]] + b[1..];
    }
  }

  predicate Sorted(s: seq<string>) {
    forall i, j :: 0 <= i < j < |s| ==> LessEq(s[i], s[j])
  }

  /** `x` placed before the first element it does not exceed. */
  function Insert(x: string, s: seq<string>): (r: seq<string>)
    requires Sorted(s)
    ensures Sorted(r)
    ensures multiset(r) == multiset(s) + multiset{x}
    decreases |s|
  {
    if s == [] then [x]
    else if LessEq(x, s[0]) then
      InsertFront(x, s);
      [x] + s
    else
      LessEqTotal(x, s[0]);
      var t := Insert(x, s[1..]);
      InsertBehind(s, x, t);
      [s[0]] + t
  }

  lemma InsertFront(x: string, s: seq<string>)
    requires Sorted(s) && s != [] && LessEq(x, s[0])
    ensures Sorted([x] + s)
  {
    forall j | 0 < j < |s|
      ensures LessEq(x, s[j])
    {
      LessEqTransitive(x, s[0], s[j]);
    }
  }

  lemma InsertBehind(s: seq<string>, x: string, t: seq<string>)
    requires Sorted(s) && s != [] && LessEq(s[0], x)
    requires Sorted(t) && multiset(t) == multiset(s[1..]) + multiset{x}
    ensures Sorted([s[0]] + t)
    ensures multiset([s[0]] + t) == multiset(s) + multiset{x}
  {
    assert s == [s[0]] + s[1..];
    forall j | 0 <= j < |t|
      ensures LessEq(s[0], t[j])
    {
      assert t[j] in multiset(t);
      if t[j] != x {
        assert t[j] in multiset(s[1..]);
        var k :| 0 <= k < |s[1..]| && s[1..][k] == t[j];
        assert s[k + 1] == t[j];
      }
    }
  }

  /** Insertion sort: a sorted permutation of the listing. */
  function Sort(s: seq<string>): (r: seq<string>)
    ensures Sorted(r)
    ensures multiset(r) == multiset(s)
    decreases |s|
  {
    if s == [] then []
    else
      assert s == s[..|s| - 1] + [s[|s| - 1]];
      Insert(s[|s| - 1], Sort(s[..|s| - 1]))
  }

  lemma MultisetTail(a: seq<string>)
    requires a != []
    ensures multiset(a[1..]) == multiset(a) - multiset{a[0]}
  {
    assert a == [a[0]] + a[1..];
  }

  /** Two sorted permutations of each other start with the same element. */
  lemma {:induction false} SortedSameHead(a: seq<string>, b: seq<string>)
    requires a != [] && b != []
    requires Sorted(a) && Sorted(b) && multiset(a) == multiset(b)
    ensures a[0] == b[0]
  {
    assert a[0] in multiset(b) && b[0] in multiset(a);
    var i :| 0 <= i < |b| && b[i] == a[0];
    var j :| 0 <= j < |a| && a[j] == b[0];
    LessEqReflexive(a[0]);
    LessEqReflexive(b[0]);
    assert LessEq(b[0], b[i]) && LessEq(a[0], a[j]);
    LessEqAntisymmetric(a[0], b[0]);
  }

  /** Only one order is sorted: two sorted permutations of each other are equal. */
  lemma {:induction false} SortedUnique(a: seq<string>, b: seq<string>)
    requires Sorted(a) && Sorted(b) && multiset(a) == multiset(b)
    ensures a == b
    decreases |a|
  {
    assert |b| == |a| by { assert |multiset(a)| == |multiset(b)|; }
    if a != [] {
      SortedSameHead(a, b);
      MultisetTail(a);
      MultisetTail(b);
      SortedUnique(a[1..], b[1..]);
      assert a == [a[0]] + a[1..] && b == [b[0]] + b[1..];
    }
  }

  /** Sorting a sorted listing changes nothing. */
  lemma {:induction false} SortIdempotent(s: seq<string>)
    ensures Sort(Sort(s)) == Sort(s)
  {
    SortedUnique(Sort(Sort(s)), Sort(s));
  }
}
