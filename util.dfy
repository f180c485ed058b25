/** Small generic helpers shared by the board model and the planner:
    failure-carrying wrappers, filtering, first-match search and
    distinctness of sequences. */
module Util {

  datatype Option<T> = None | Some(value: T)

  datatype Result<T, E> = Ok(value: T) | Err(error: E)

  function Abs(x: int): nat
  {
    if x < 0 then -x else x
  }

  function Min(a: int, b: int): int
  {
    if a <= b then a else b
  }

  function Max(a: int, b: int): int
  {
    if a <= b then b else a
  }

  /** The elements of `s` that satisfy `f`, in their original order. */
  function Filter<T>(s: seq<T>, f: T -> bool): (r: seq<T>)
    ensures |r| <= |s|
  {
    if s == [] then []
    else
      var init := s[..|s| - 1];
      var last := s[|s| - 1];
      assert s == init + [last];
      var rest := Filter(init, f);
      if f(last) then rest + [last] else rest
  }

  lemma {:induction false} FilterAll<T>(s: seq<T>, f: T -> bool)
    requires forall i :: 0 <= i < |s| ==> f(s[i])
    ensures Filter(s, f) == s
  {
    if s != [] {
      FilterAll(s[..|s| - 1], f);
      assert s == s[..|s| - 1] + [s[|s| - 1]];
    }
  }

  /** The filtered elements are exactly the elements `f` accepts. */
  lemma {:induction false} FilterMembers<T>(s: seq<T>, f: T -> bool)
    ensures forall x :: x in Filter(s, f) <==> x in s && f(x)
  {
    if s != [] {
      var init, last := s[..|s| - 1], s[|s| - 1];
      assert s == init + [last];
      FilterMembers(init, f);
    }
  }

  /** Filtering one more element at the end. */
  lemma FilterSnoc<T>(s: seq<T>, x: T, f: T -> bool)
    ensures Filter(s + [x], f) == Filter(s, f) + (if f(x) then [x] else [])
  {
    assert (s + [x])[..|s|] == s;
  }

  lemma FilterSnocDropped<T>(s: seq<T>, x: T, f: T -> bool)
    requires !f(x)
    ensures Filter(s + [x], f) == Filter(s, f)
  {
    FilterSnoc(s, x, f);
  }

  function MapSeq<T, U>(s: seq<T>, f: T -> U): (r: seq<U>)
    ensures |r| == |s| && forall i :: 0 <= i < |s| ==> r[i] == f(s[i])
  {
    seq(|s|, i requires 0 <= i < |s| => f(s[i]))
  }

  /** The index of the first element of `s` satisfying `f`, or `|s|` if none does. */
  function FirstIndex<T>(s: seq<T>, f: T -> bool): (i: nat)
    ensures i <= |s|
    ensures i < |s| ==> f(s[i])
    ensures forall j :: 0 <= j < i ==> !f(s[j])
  {
    if s == [] then 0
    else if f(s[0]) then 0
    else 1 + FirstIndex(s[1..], f)
  }

  /** The first element satisfying `f` (Rust's `Iterator::find`). */
  function Find<T>(s: seq<T>, f: T -> bool): (r: Option<T>)
  {
    var i := FirstIndex(s, f);
    if i < |s| then Some(s[i]) else None
  }

  predicate Distinct<T(==)>(s: seq<T>)
  {
    forall a, b :: 0 <= a < b < |s| ==> s[a] != s[b]
  }

  ghost function Elems<T>(s: seq<T>): set<T>
  {
    set x | x in s
  }

  /** The set `{0, …, n-1}`. */
  ghost function Range(n: nat): (r: set<int>)
    ensures forall x :: x in r <==> 0 <= x < n
    ensures |r| == n
  {
    if n == 0 then {} else Range(n - 1) + {n - 1}
  }

  lemma {:induction false} ElemsCard<T>(s: seq<T>)
    ensures |Elems(s)| <= |s|
    ensures !Distinct(s) ==> |Elems(s)| < |s|
  {
    if s != [] {
      var init := s[..|s| - 1];
      var last := s[|s| - 1];
      ElemsCard(init);
      assert s == init + [last];
      assert Elems(s) == Elems(init) + {last};
      if !Distinct(s) {
        var a, b :| 0 <= a < b < |s| && s[a] == s[b];
        if b == |s| - 1 {
          assert s[a] == init[a];
          assert last in Elems(init);
          assert Elems(s) == Elems(init);
        } else {
          assert init[a] == s[a] && init[b] == s[b];
          assert !Distinct(init);
        }
      }
    }
  }

  /** Pigeonhole: a sequence of length `n` in which every value `0..n-1`
      occurs is a permutation of `0..n-1`. */
  lemma CoveringSeqIsPermutation(s: seq<int>, n: nat)
    requires |s| == n
    requires forall x :: 0 <= x < n ==> x in s
    ensures forall q :: 0 <= q < n ==> 0 <= s[q] < n
    ensures Distinct(s)
  {
    ElemsCard(s);
    assert Range(n) <= Elems(s);
    var extra := Elems(s) - Range(n);
    assert Elems(s) == Range(n) + extra;
    assert |Elems(s)| == |Range(n)| + |extra|;
    assert extra == {};
    forall q | 0 <= q < n
      ensures 0 <= s[q] < n
    {
      assert s[q] in Elems(s);
    }
  }
}
