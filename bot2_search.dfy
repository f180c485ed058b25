/** The searches of the Bot2 planner (src/bot/bot2.rs): the expanding
    diamond search `find_closest`, the random sampling `find_random` with the
    sampled points given as a parameter, and the stable sort of the samples
    by distance. */
module Bot2Search {
  import opened Util
  import opened Model
  import opened BodyWalk
  import opened Bot2Geometry

  // ---------------------------------------------------------------------
  // find_closest
  // ---------------------------------------------------------------------

  /** The `bounded` closure (bot2.rs:109-113): a point off the board is
      clamped onto it, coordinate by coordinate. */
  function Clamped(m: int, n: int, p: P): (q: P)
    ensures m >= 1 && n >= 1 ==> OnBoard(m, n, q)
    ensures OnBoard(m, n, p) ==> q == p
  {
    if 0 <= p.x < n && 0 <= p.y < m then p
    else P(Bound(p.x, 0, n - 1), Bound(p.y, 0, m - 1))
  }

  /** The four points `ps` tried for ring `r` and step `k` (bot2.rs:116-121),
      one on each edge of the diamond. */
  function Candidates(src: P, r: int, k: int): (ps: seq<P>)
    ensures |ps| == 4
  {
    [ P(src.x - k, src.y + r - k),
      P(src.x - r + k, src.y - k),
      P(src.x + k, src.y - r + k),
      P(src.x + r - k, src.y + k) ]
  }

  /** All the points of ring `r` before clamping, in the order the search
      tries them: step `k` outside, edge inside. */
  function Ring(src: P, r: nat): (ring: seq<P>)
    ensures |ring| == 4 * r
  {
    seq(4 * r, t requires 0 <= t < 4 * r => Candidates(src, r, t / 4)[t % 4])
  }

  /** Which edge and step of ring `r` produce a point at distance `r`. */
  function Slot(src: P, r: nat, q: P): (es: (nat, nat))
    requires r >= 1 && Distance(src, q) == r
    ensures es.0 < 4 && es.1 < r
  {
    var dx, dy := q.x - src.x, q.y - src.y;
    if dx <= 0 && dy > 0 then (0, -dx)
    else if dx < 0 && dy <= 0 then (1, -dy)
    else if dx >= 0 && dy < 0 then (2, dx)
    else (3, dy)
  }

  lemma SlotOfCandidate(src: P, r: nat, k: nat, e: nat)
    requires r >= 1 && k < r && e < 4
    ensures Distance(src, Candidates(src, r, k)[e]) == r
    ensures Slot(src, r, Candidates(src, r, k)[e]) == (e, k)
  {
  }

  /** Ring `r` is exactly the diamond of points at distance `r` from `src`,
      each of them once. */
  lemma RingIsDiamond(src: P, r: nat)
    requires r >= 1
    ensures |Ring(src, r)| == 4 * r
    ensures forall q :: q in Ring(src, r) <==> Distance(src, q) == r
    ensures Distinct(Ring(src, r))
  {
    var ring := Ring(src, r);
    forall t | 0 <= t < 4 * r
      ensures Distance(src, ring[t]) == r
      ensures Slot(src, r, ring[t]) == (t % 4, t / 4)
    {
      SlotOfCandidate(src, r, t / 4, t % 4);
    }
    forall q | Distance(src, q) == r
      ensures q in ring
    {
      var (e, k) := Slot(src, r, q);
      var t := 4 * k + e;
      assert t / 4 == k && t % 4 == e;
      assert ring[t] == q;
    }
    forall a, b | 0 <= a < b < 4 * r
      ensures ring[a] != ring[b]
    {
      assert Slot(src, r, ring[a]) == (a % 4, a / 4);
      assert Slot(src, r, ring[b]) == (b % 4, b / 4);
    }
  }

  /** The candidates of step `k` of ring `r`, clamped onto the board. */
  function Clamped4(m: int, n: int, src: P, r: int, k: int): (ps: seq<P>)
    ensures |ps| == 4
  {
    var c := Candidates(src, r, k);
    seq(4, e requires 0 <= e < 4 => Clamped(m, n, c[e]))
  }

  /** The points the search tries at ring `r`, step `k`, around `src` on
      the `m`×`n` board. */
  function SearchTries(m: int, n: int, src: P): (nat, nat) -> seq<P>
  {
    (r: nat, k: nat) => Clamped4(m, n, src, r, k)
  }

  /** Ring `r` tried up to step `k`, for tries `f`. */
  function Steps(f: (nat, nat) -> seq<P>, r: nat, k: nat): seq<P>
  {
    if k == 0 then [] else Steps(f, r, k - 1) + f(r, k - 1)
  }

  /** Rings `1` up to `r - 1`, for tries `f`. */
  function Rings(f: (nat, nat) -> seq<P>, r: nat): seq<P>
  {
    if r <= 1 then [] else Rings(f, r - 1) + Steps(f, r - 1, r - 1)
  }

  /** Every point `find_closest` tries before ring `r`, in order. */
  function SearchOrder(m: int, n: int, src: P, r: nat): seq<P>
  {
    Rings(SearchTries(m, n, src), r)
  }

  lemma {:induction false} StepsAt(f: (nat, nat) -> seq<P>, r: nat, k: nat, t: nat)
    requires forall kk: nat :: kk < k ==> |f(r, kk)| == 4
    requires t < 4 * k
    ensures |Steps(f, r, k)| == 4 * k
    ensures Steps(f, r, k)[t] == f(r, t / 4)[t % 4]
  {
    if t < 4 * (k - 1) {
      StepsAt(f, r, k - 1, t);
    } else {
      StepsLength(f, r, k - 1);
      assert t / 4 == k - 1 && t % 4 == t - 4 * (k - 1);
    }
  }

  lemma {:induction false} StepsLength(f: (nat, nat) -> seq<P>, r: nat, k: nat)
    requires forall kk: nat :: kk < k ==> |f(r, kk)| == 4
    ensures |Steps(f, r, k)| == 4 * k
  {
    if k > 0 {
      StepsLength(f, r, k - 1);
    }
  }

  /** A whole clamped ring is the clamped diamond, in ring order. */
  lemma ClampedRing(m: int, n: int, src: P, r: nat)
    ensures |Steps(SearchTries(m, n, src), r, r)| == |Ring(src, r)|
    ensures forall t :: 0 <= t < 4 * r ==> Steps(SearchTries(m, n, src), r, r)[t] == Clamped(m, n, Ring(src, r)[t])
  {
    var f := SearchTries(m, n, src);
    assert forall kk: nat :: kk < r ==> |f(r, kk)| == 4;
    StepsLength(f, r, r);
    forall t | 0 <= t < 4 * r
      ensures Steps(f, r, r)[t] == Clamped(m, n, Ring(src, r)[t])
    {
      StepsAt(f, r, r, t);
    }
  }

  predicate AllOnBoard(m: int, n: int, s: seq<P>)
  {
    forall t :: 0 <= t < |s| ==> OnBoard(m, n, s[t])
  }

  lemma AllOnBoardAppend(m: int, n: int, a: seq<P>, b: seq<P>)
    requires AllOnBoard(m, n, a) && AllOnBoard(m, n, b)
    ensures AllOnBoard(m, n, a + b)
  {
  }

  lemma {:induction false} StepsOnBoard(m: int, n: int, f: (nat, nat) -> seq<P>, r: nat, k: nat)
    requires forall rr: nat, kk: nat :: AllOnBoard(m, n, f(rr, kk))
    ensures AllOnBoard(m, n, Steps(f, r, k))
  {
    if k > 0 {
      StepsOnBoard(m, n, f, r, k - 1);
      AllOnBoardAppend(m, n, Steps(f, r, k - 1), f(r, k - 1));
    }
  }

  lemma {:induction false} RingsOnBoard(m: int, n: int, f: (nat, nat) -> seq<P>, r: nat)
    requires forall rr: nat, kk: nat :: AllOnBoard(m, n, f(rr, kk))
    ensures AllOnBoard(m, n, Rings(f, r))
  {
    if r > 1 {
      RingsOnBoard(m, n, f, r - 1);
      StepsOnBoard(m, n, f, r - 1, r - 1);
      AllOnBoardAppend(m, n, Rings(f, r - 1), Steps(f, r - 1, r - 1));
    }
  }

  /** On a board with at least one row and one column every point the
      search tries lies on the board. */
  lemma SearchOrderOnBoard(m: int, n: int, src: P, r: nat)
    requires m >= 1 && n >= 1
    ensures AllOnBoard(m, n, SearchOrder(m, n, src, r))
  {
    var f := SearchTries(m, n, src);
    forall rr: nat, kk: nat
      ensures AllOnBoard(m, n, f(rr, kk))
    {
      assert f(rr, kk) == Clamped4(m, n, src, rr, kk);
    }
    RingsOnBoard(m, n, f, r);
  }

  predicate IsPrefix(a: seq<P>, b: seq<P>)
  {
    |a| <= |b| && b[..|a|] == a
  }

  lemma PrefixOfAppend(a: seq<P>, b: seq<P>)
    ensures IsPrefix(a, a + b)
  {
    assert (a + b)[..|a|] == a;
  }

  lemma PrefixRefl(a: seq<P>)
    ensures IsPrefix(a, a)
  {
    assert a[..|a|] == a;
  }

  lemma PrefixTrans(a: seq<P>, b: seq<P>, c: seq<P>)
    requires IsPrefix(a, b) && IsPrefix(b, c)
    ensures IsPrefix(a, c)
  {
    assert c[..|a|] == c[..|b|][..|a|];
  }

  lemma PrefixUnderAppend(a: seq<P>, b: seq<P>, c: seq<P>)
    requires IsPrefix(b, c)
    ensures IsPrefix(a + b, a + c)
  {
    assert (a + c)[..|a + b|] == a + c[..|b|];
  }

  lemma {:induction false} StepsGrow(f: (nat, nat) -> seq<P>, r: nat, k: nat, k': nat)
    requires k <= k'
    ensures IsPrefix(Steps(f, r, k), Steps(f, r, k'))
    decreases k'
  {
    if k < k' {
      StepsGrow(f, r, k, k' - 1);
      PrefixOfAppend(Steps(f, r, k' - 1), f(r, k' - 1));
      PrefixTrans(Steps(f, r, k), Steps(f, r, k' - 1), Steps(f, r, k'));
    } else {
      PrefixRefl(Steps(f, r, k));
    }
  }

  lemma {:induction false} RingsGrow(f: (nat, nat) -> seq<P>, r: nat, r': nat)
    requires r <= r'
    ensures IsPrefix(Rings(f, r), Rings(f, r'))
    decreases r'
  {
    if r < r' {
      RingsGrow(f, r, r' - 1);
      if r' > 1 {
        PrefixOfAppend(Rings(f, r' - 1), Steps(f, r' - 1, r' - 1));
        PrefixTrans(Rings(f, r), Rings(f, r' - 1), Rings(f, r'));
      }
    } else {
      PrefixRefl(Rings(f, r));
    }
  }

  /** What the search has tried after step `k` of ring `r` is where the
      whole search order begins. */
  lemma SearchedSoFar(f: (nat, nat) -> seq<P>, r: nat, k: nat, last: nat)
    requires 1 <= r < last && k < r
    ensures IsPrefix(Rings(f, r) + Steps(f, r, k + 1), Rings(f, last))
  {
    var a := Rings(f, r);
    var b := Steps(f, r, k + 1);
    var c := Steps(f, r, r);
    StepsGrow(f, r, k + 1, r);
    PrefixUnderAppend(a, b, c);
    assert Rings(f, r + 1) == a + c;
    RingsGrow(f, r + 1, last);
    PrefixTrans(a + b, a + c, Rings(f, last));
  }

  lemma NoneAccepted(a: seq<P>, b: seq<P>, f: P -> bool)
    requires forall t :: 0 <= t < |a| ==> !f(a[t])
    requires forall t :: 0 <= t < |b| ==> !f(b[t])
    ensures forall t :: 0 <= t < |a + b| ==> !f((a + b)[t])
  {
  }

  /** A first match in `b` after a stretch `a` without one is the first
      match of anything that starts with `a + b`. */
  lemma FindAfterMisses(a: seq<P>, b: seq<P>, s: seq<P>, f: P -> bool)
    requires forall t :: 0 <= t < |a| ==> !f(a[t])
    requires Find(b, f).Some?
    requires IsPrefix(a + b, s)
    ensures Find(s, f) == Find(b, f)
  {
    var i := FirstIndex(b, f);
    assert s[|a| + i] == (a + b)[|a| + i] == b[i];
    FirstIndexAt(s, f, |a| + i);
  }

  lemma {:induction false} FirstIndexAt(s: seq<P>, f: P -> bool, i: nat)
    requires i < |s| && f(s[i])
    requires forall t :: 0 <= t < i ==> !f(s[t])
    ensures FirstIndex(s, f) == i
  {
    if i > 0 {
      FirstIndexAt(s[1..], f, i - 1);
    }
  }

  /** `find_closest` (bot2.rs:105-129): rings `1 .. m + n - 1` of the
      diamond around `src`, each step's four points clamped onto the
      board, and returns the first one `pred` accepts. */
  method FindClosest(m: nat, n: nat, src: P, pred: P -> bool) returns (res: Option<P>)
    ensures res == Find(SearchOrder(m, n, src, m + n), pred)
  {
    res := FirstAccepted(SearchTries(m, n, src), m + n, pred);
  }

  /** The nested loop of `find_closest` (bot2.rs:114-128) over rings
      `1 .. last - 1` and their steps, with the points of each step given by
      `f`: returns at the first step that has a point `pred` accepts, its
      first such point. */
  method FirstAccepted(f: (nat, nat) -> seq<P>, last: nat, pred: P -> bool) returns (res: Option<P>)
    ensures res == Find(Rings(f, last), pred)
  {
    var r := 1;
    while r < last
      invariant 1 <= r <= Max(last, 1)
      invariant forall t :: 0 <= t < |Rings(f, r)| ==> !pred(Rings(f, r)[t])
    {
      var k := 0;
      while k < r
        invariant k <= r
        invariant forall t :: 0 <= t < |Steps(f, r, k)| ==> !pred(Steps(f, r, k)[t])
      {
        var ps := f(r, k);
        var opt := Find(ps, pred);
        if opt.Some? {
          SearchedSoFar(f, r, k, last);
          ghost var seen := Rings(f, r) + Steps(f, r, k);
          assert Rings(f, r) + Steps(f, r, k + 1) == seen + ps;
          NoneAccepted(Rings(f, r), Steps(f, r, k), pred);
          FindAfterMisses(seen, ps, Rings(f, last), pred);
          return opt;
        }
        k := k + 1;
      }
      r := r + 1;
    }
    if last <= 1 {
      assert Rings(f, last) == [] == Rings(f, r);
    }
    res := None;
  }

  /** What `find_closest` returns: a point the predicate accepts, on the
      board when the board is not empty, with no earlier point of the search
      order accepted; and `None` exactly when no point of the search order
      is accepted. */
  lemma ClosestMeaning(m: nat, n: nat, src: P, pred: P -> bool)
    ensures var s, res := SearchOrder(m, n, src, m + n), Find(SearchOrder(m, n, src, m + n), pred);
      && (res.None? <==> forall t :: 0 <= t < |s| ==> !pred(s[t]))
      && (res.Some? ==> pred(res.value) && (m >= 1 && n >= 1 ==> OnBoard(m, n, res.value)))
      && (res.Some? ==> exists i :: 0 <= i < |s| && s[i] == res.value && forall t :: 0 <= t < i ==> !pred(s[t]))
  {
    var s := SearchOrder(m, n, src, m + n);
    if m >= 1 && n >= 1 {
      SearchOrderOnBoard(m, n, src, m + n);
    }
    var i := FirstIndex(s, pred);
    if i < |s| {
      assert s[i] == Find(s, pred).value;
    }
  }

  // ---------------------------------------------------------------------
  // find_random, find_random_empty, border_or_owned_partial
  // ---------------------------------------------------------------------

  /** `find_random` (bot2.rs:131-144) over the points the generator drew,
      `P(x, y)` with `x` drawn before `y`: keeps those `pred` accepts. */
  method FindRandom(draws: seq<P>, pred: P -> bool) returns (buf: seq<P>)
    ensures buf == Filter(draws, pred)
  {
    buf := [];
    for t := 0 to |draws|
      invariant buf == Filter(draws[..t], pred)
    {
      assert draws[..t + 1] == draws[..t] + [draws[t]];
      assert (draws[..t] + [draws[t]])[..t] == draws[..t];
      if pred(draws[t]) {
        buf := buf + [draws[t]];
      }
    }
    assert draws[..|draws|] == draws;
  }

  /** The test of `find_random_empty` (bot2.rs:146-148). */
  function EmptyTest(field: Field): P -> bool
  {
    q => field.Valid() && OnBoard(field.m, field.n, q) && Cells(field, q) == Empty
  }

  /** `find_random_empty` (bot2.rs:146-148). The generator draws `x` in
      `0..n` and `y` in `0..m`, so every drawn point is on the board. */
  method FindRandomEmpty(field: Field, draws: seq<P>) returns (empties: seq<P>)
    requires field.Valid()
    requires forall t :: 0 <= t < |draws| ==> OnBoard(field.m, field.n, draws[t])
    ensures empties == Filter(draws, EmptyTest(field))
  {
    empties := FindRandom(draws, EmptyTest(field));
  }

  /** The samples kept are drawn points whose cell is Empty, every such
      drawn point is kept, and there are no more of them than draws. */
  lemma EmptiesMeaning(field: Field, draws: seq<P>)
    requires field.Valid()
    ensures var es := Filter(draws, EmptyTest(field));
      && |es| <= |draws|
      && (forall q :: q in es ==> q in draws && OnBoard(field.m, field.n, q) && Cells(field, q) == Empty)
      && (forall q :: q in draws && OnBoard(field.m, field.n, q) && Cells(field, q) == Empty ==> q in es)
  {
    var es := Filter(draws, EmptyTest(field));
    FilterMembers(draws, EmptyTest(field));
    forall q | q in es
      ensures q in draws && OnBoard(field.m, field.n, q) && Cells(field, q) == Empty
    {
      assert EmptyTest(field)(q);
    }
    forall q | q in draws && OnBoard(field.m, field.n, q) && Cells(field, q) == Empty
      ensures q in es
    {
      assert EmptyTest(field)(q);
    }
  }

  /** `border_or_owned_partial` (bot2.rs:152-155): a non-Empty cell that
      the guard accepts for a loop from `o` through `a`. */
  predicate BorderOrOwnedPartial(field: Field, o: P, a: P, c: P)
    requires field.Valid() && OnBoard(field.m, field.n, c)
  {
    Cells(field, c) != Empty && MayBeSelected(o, a, c)
  }

  /** The closing test as the search applies it to clamped points. */
  function ClosingTest(field: Field, o: P, a: P): P -> bool
  {
    c => field.Valid() && OnBoard(field.m, field.n, c) && BorderOrOwnedPartial(field, o, a, c)
  }

  /** A point the closing search finds on a non-empty board is a non-Empty
      cell that the guard accepts. */
  lemma ClosingMeaning(field: Field, o: P, a: P)
    requires field.Valid() && field.m >= 1 && field.n >= 1
    ensures var res := Find(SearchOrder(field.m, field.n, a, field.m + field.n), ClosingTest(field, o, a));
      res.Some? ==> OnBoard(field.m, field.n, res.value) && Cells(field, res.value) != Empty && Beyond(o, a, res.value)
  {
    var res := Find(SearchOrder(field.m, field.n, a, field.m + field.n), ClosingTest(field, o, a));
    ClosestMeaning(field.m, field.n, a, ClosingTest(field, o, a));
    if res.Some? {
      assert ClosingTest(field, o, a)(res.value);
      MayBeSelectedMeaning(o, a, res.value);
    }
  }

  // ---------------------------------------------------------------------
  // Sorting the samples by distance (sort_by_key, stable)
  // ---------------------------------------------------------------------

  /** The samples ordered by their distance from `head`. */
  predicate SortedFrom(head: P, s: seq<P>)
  {
    forall a, b :: 0 <= a < b < |s| ==> Distance(head, s[a]) <= Distance(head, s[b])
  }

  /** `x` placed after every element of `s` not farther from `head`,
      scanning from the end. */
  function InsertByDistance(head: P, s: seq<P>, x: P): (r: seq<P>)
    ensures |r| == |s| + 1
    ensures multiset(r) == multiset(s) + multiset{x}
  {
    if s == [] then [x]
    else
      var init, last := s[..|s| - 1], s[|s| - 1];
      assert s == init + [last];
      if Distance(head, last) <= Distance(head, x) then s + [x]
      else InsertByDistance(head, init, x) + [last]
  }

  lemma {:induction false} InsertSorted(head: P, s: seq<P>, x: P)
    requires SortedFrom(head, s)
    ensures SortedFrom(head, InsertByDistance(head, s, x))
  {
    if s != [] {
      var init, last := s[..|s| - 1], s[|s| - 1];
      if Distance(head, last) > Distance(head, x) {
        assert forall t :: 0 <= t < |init| ==> init[t] == s[t];
        InsertSorted(head, init, x);
        InsertWithin(head, init, x, Distance(head, last));
        var r0 := InsertByDistance(head, init, x);
        assert forall t :: 0 <= t < |r0| ==> Distance(head, r0[t]) <= Distance(head, last);
        var r := r0 + [last];
        assert InsertByDistance(head, s, x) == r;
        forall a, b | 0 <= a < b < |r|
          ensures Distance(head, r[a]) <= Distance(head, r[b])
        {
          assert r[a] == r0[a];
          if b < |r0| {
            assert r[b] == r0[b];
            assert SortedFrom(head, r0);
          } else {
            assert r[b] == last;
            assert Distance(head, r0[a]) <= Distance(head, last);
          }
        }
      }
    }
  }

  /** Inserting keeps every element within a distance bound that all the
      elements meet. */
  lemma InsertWithin(head: P, s: seq<P>, x: P, d: nat)
    requires forall t :: 0 <= t < |s| ==> Distance(head, s[t]) <= d
    requires Distance(head, x) <= d
    ensures forall t :: 0 <= t < |InsertByDistance(head, s, x)| ==> Distance(head, InsertByDistance(head, s, x)[t]) <= d
  {
    var r := InsertByDistance(head, s, x);
    forall t | 0 <= t < |r|
      ensures Distance(head, r[t]) <= d
    {
      assert r[t] in multiset(r);
      if r[t] != x {
        assert r[t] in multiset(s);
        assert r[t] in s;
      }
    }
  }

  /** `sort_by_key(|p| distance(cur_head, p))`: a stable sort by distance. */
  function SortByDistance(head: P, ps: seq<P>): (s: seq<P>)
    ensures |s| == |ps| && multiset(s) == multiset(ps)
    ensures SortedFrom(head, s)
  {
    if ps == [] then []
    else
      assert ps == ps[..|ps| - 1] + [ps[|ps| - 1]];
      var sorted := SortByDistance(head, ps[..|ps| - 1]);
      InsertSorted(head, sorted, ps[|ps| - 1]);
      InsertByDistance(head, sorted, ps[|ps| - 1])
  }

  /** The test "at distance `d` from `head`". */
  function AtDistance(head: P, d: nat): P -> bool
  {
    q => Distance(head, q) == d
  }


  lemma {:induction false} InsertStable(head: P, s: seq<P>, x: P, d: nat)
    ensures Filter(InsertByDistance(head, s, x), AtDistance(head, d))
      == Filter(s, AtDistance(head, d)) + (if Distance(head, x) == d then [x] else [])
  {
    var f := AtDistance(head, d);
    if s != [] {
      var init, last := s[..|s| - 1], s[|s| - 1];
      assert s == init + [last];
      if Distance(head, last) <= Distance(head, x) {
        FilterSnoc(s, x, f);
      } else {
        InsertStable(head, init, x, d);
        FilterSnoc(InsertByDistance(head, init, x), last, f);
        FilterSnoc(init, last, f);
        assert !(f(x) && f(last));
      }
    }
  }

  /** The sort is stable: the samples at any one distance keep their draw
      order. */
  lemma {:induction false} SortStable(head: P, ps: seq<P>, d: nat)
    ensures Filter(SortByDistance(head, ps), AtDistance(head, d)) == Filter(ps, AtDistance(head, d))
  {
    if ps != [] {
      var init, last := ps[..|ps| - 1], ps[|ps| - 1];
      assert ps == init + [last];
      SortStable(head, init, d);
      InsertStable(head, SortByDistance(head, init), last, d);
      FilterSnoc(init, last, AtDistance(head, d));
    }
  }
}
