/**
 * Sequence operations that the rendering code performs through JavaScript's
 * array methods: `indexOf`, `filter`, and the "first time seen" scan of a Set.
 */
module Sequences {

  /** `Array.prototype.indexOf` under `===`: the first index holding x, or -1. */
  function IndexOf<T(==)>(s: seq<T>, x: T): (i: int)
    ensures -1 <= i < |s|
    ensures i == -1 <==> x !in s
    ensures 0 <= i ==> s[i] == x && forall j :: 0 <= j < i ==> s[j] != x
  {
    if s == [] then -1
    else if s[0] == x then 0
    else
      var k := IndexOf(s[1..], x);
      if k == -1 then -1 else k + 1
  }

  /** Looking x up in a longer sequence finds the same first index when x already occurs in the prefix. */
  lemma {:induction false} IndexOfInPrefix<T>(a: seq<T>, b: seq<T>, x: T)
    requires x in a
    ensures IndexOf(a + b, x) == IndexOf(a, x)
  {
    if a[0] != x {
      assert (a + b)[1..] == a[1..] + b;
      IndexOfInPrefix(a[1..], b, x);
    }
  }

  /**
   * `s.substring(0, n)` and `s.slice(0, n)` for a non-negative n: the first n
   * elements of s, or all of s when it is shorter.
   */
  function Take<T>(s: seq<T>, n: nat): (r: seq<T>)
    ensures |r| == if |s| < n then |s| else n
    ensures r <= s
  {
    if |s| <= n then s else s[..n]
  }

  /** `Array.prototype.filter`: the elements satisfying p, in their original order. */
  function Filter<T>(s: seq<T>, p: T -> bool): (r: seq<T>)
    ensures |r| <= |s|
    ensures forall i :: 0 <= i < |r| ==> p(r[i])
    ensures forall i :: 0 <= i < |r| ==> r[i] in s
    ensures forall i :: 0 <= i < |s| && p(s[i]) ==> s[i] in r
  {
    if s == [] then []
    else (if p(s[0]) then [s[0]] else []) + Filter(s[1..], p)
  }

  /** Filtering distributes over concatenation, which is what "keeps the original order" means. */
  lemma {:induction false} FilterConcat<T>(a: seq<T>, b: seq<T>, p: T -> bool)
    ensures Filter(a + b, p) == Filter(a, p) + Filter(b, p)
  {
    if a == [] {
      assert a + b == b;
    } else {
      var head := if p(a[0]) then [a[0]] else [];
      assert (a + b)[0] == a[0] && (a + b)[1..] == a[1..] + b;
      FilterConcat(a[1..], b, p);
      calc {
        Filter(a + b, p);
        head + Filter(a[1..] + b, p);
        head + (Filter(a[1..], p) + Filter(b, p));
        (head + Filter(a[1..], p)) + Filter(b, p);
      }
    }
  }

  /** A sequence whose every element passes the test is its own filtering. */
  lemma {:induction false} FilterKeepsAll<T>(s: seq<T>, p: T -> bool)
    requires forall i :: 0 <= i < |s| ==> p(s[i])
    ensures Filter(s, p) == s
  {
    if s != [] {
      FilterKeepsAll(s[1..], p);
    }
  }

  /** A sequence none of whose elements passes the test filters to nothing. */
  lemma {:induction false} FilterDropsAll<T>(s: seq<T>, p: T -> bool)
    requires forall i :: 0 <= i < |s| ==> !p(s[i])
    ensures Filter(s, p) == []
  {
    if s != [] {
      FilterDropsAll(s[1..], p);
    }
  }

  /** Each element occurs in the filtered sequence as often as in the input if it passes, and never otherwise. */
  lemma {:induction false} FilterCount<T>(s: seq<T>, p: T -> bool, x: T)
    ensures multiset(Filter(s, p))[x] == if p(x) then multiset(s)[x] else 0
  {
    if s != [] {
      FilterCount(s[1..], p, x);
      var head := if p(s[0]) then [s[0]] else [];
      assert multiset(Filter(s, p)) == multiset(head) + multiset(Filter(s[1..], p));
      assert s == [s[0]] + s[1..];
      assert multiset(s) == multiset([s[0]]) + multiset(s[1..]);
    }
  }

  /** Filtering with a stronger test after a weaker one is the same as filtering with the stronger test alone. */
  lemma {:induction false} FilterNarrower<T>(s: seq<T>, p: T -> bool, q: T -> bool)
    requires forall x :: p(x) ==> q(x)
    ensures Filter(Filter(s, q), p) == Filter(s, p)
    ensures |Filter(s, p)| <= |Filter(s, q)|
  {
    if s != [] {
      FilterNarrower(s[1..], p, q);
      FilterConcat(if q(s[0]) then [s[0]] else [], Filter(s[1..], q), p);
    }
  }

  /** The elements of s in the order in which each first occurs, every one kept once. */
  function Distinct<T(==)>(s: seq<T>): (r: seq<T>)
    ensures forall i :: 0 <= i < |r| ==> r[i] in s
    ensures forall i :: 0 <= i < |s| ==> s[i] in r
  {
    if s == [] then []
    else
      var d := Distinct(s[..|s| - 1]);
      if s[|s| - 1] in d then d else d + [s[|s| - 1]]
  }

  /** Appending a value extends Distinct by that value exactly when the value is new. */
  lemma DistinctSnoc<T>(s: seq<T>, x: T)
    ensures Distinct(s + [x]) == if x in s then Distinct(s) else Distinct(s) + [x]
  {
    assert (s + [x])[..|s|] == s;
  }

  predicate NoDuplicates<T(==)>(s: seq<T>) {
    forall i, j :: 0 <= i < j < |s| ==> s[i] != s[j]
  }

  lemma {:induction false} DistinctHasNoDuplicates<T>(s: seq<T>)
    ensures NoDuplicates(Distinct(s))
  {
    if s != [] {
      DistinctHasNoDuplicates(s[..|s| - 1]);
    }
  }

  /** Every value of Distinct(s) comes before the values whose first occurrence in s comes later. */
  lemma {:induction false} DistinctFirstOccurrenceOrder<T>(s: seq<T>)
    ensures forall i, j :: 0 <= i < j < |Distinct(s)| ==>
      IndexOf(s, Distinct(s)[i]) < IndexOf(s, Distinct(s)[j])
  {
    if s != [] {
      var n := |s| - 1;
      var init := s[..n];
      var d := Distinct(init);
      DistinctFirstOccurrenceOrder(init);
      assert s == init + [s[n]];
      assert Distinct(s) == if s[n] in d then d else d + [s[n]];
      forall i, j | 0 <= i < j < |Distinct(s)|
        ensures IndexOf(s, Distinct(s)[i]) < IndexOf(s, Distinct(s)[j])
      {
        assert Distinct(s)[i] == d[i] && d[i] in init;
        IndexOfInPrefix(init, [s[n]], d[i]);
        if j < |d| {
          assert Distinct(s)[j] == d[j] && d[j] in init;
          IndexOfInPrefix(init, [s[n]], d[j]);
        } else {
          assert Distinct(s)[j] == s[n] && s[n] !in init;
        }
      }
    }
  }

  /** The set of values that occur in s. */
  function Elements<T(==)>(s: seq<T>): set<T> {
    set x | x in s
  }

  /** There are exactly as many entries in Distinct(s) as there are distinct values in s. */
  lemma {:induction false} DistinctLength<T>(s: seq<T>)
    ensures |Distinct(s)| == |Elements(s)|
  {
    if s == [] {
      assert Elements(s) == {};
    } else {
      var n := |s| - 1;
      var init := s[..n];
      DistinctLength(init);
      assert s == init + [s[n]];
      if s[n] in init {
        assert Elements(s) == Elements(init);
      } else {
        assert Elements(s) == Elements(init) + {s[n]};
      }
    }
  }
}
