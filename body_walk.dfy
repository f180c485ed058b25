/** Rebuilding a player's body from the body layer of the board text
    (src/model.rs, `parse_string`): starting at the head, repeatedly step to
    the first neighbouring cell, in the fixed order left, up, right, down
    and clamped to the board, that holds the player's lower-case letter and
    is not yet part of the body, and put it in front of the body. */
module BodyWalk {
  import opened Util
  import opened Model
  import opened BoardText

  /** `bound` (model.rs:85-87): `x` clamped to `[l, r]`. */
  function Bound(x: int, l: int, r: int): (y: int)
    ensures l <= r ==> l <= y <= r
    ensures l <= x <= r ==> y == x
  {
    if x < l then l else if r < x then r else x
  }

  /** The neighbour offsets in the order the walk tries them (model.rs:88). */
  const Neighbourhood: seq<Point> := [Point(0, -1), Point(-1, 0), Point(0, 1), Point(1, 0)]

  /** The four neighbours of `t`, each coordinate clamped to the board. */
  function ClampedNeighbours(t: Point, m: nat, n: nat): (ps: seq<Point>)
    requires m >= 1 && n >= 1
    ensures |ps| == 4 && BodyInside(ps, m, n)
  {
    seq(4, q requires 0 <= q < 4 =>
      Point(Bound(t.i + Neighbourhood[q].i, 0, m - 1), Bound(t.j + Neighbourhood[q].j, 0, n - 1)))
  }

  /** A clamped neighbour of an on-board point is the point itself or a
      point one step away. */
  lemma ClampedNeighbourAdjacent(t: Point, m: nat, n: nat, q: nat)
    requires m >= 1 && n >= 1 && 0 <= t.i < m && 0 <= t.j < n && q < 4
    ensures var p := ClampedNeighbours(t, m, n)[q]; p == t || Adjacent(p, t)
  {
  }

  /** The cell the walk may take next: in bounds, not yet in the body, and
      holding the tail letter `ct`. */
  predicate Takes(layer1: seq<seq<Byte>>, m: nat, n: nat, ct: Byte, body: seq<Point>, p: Point)
    requires IsMatrix(layer1, m, n)
  {
    0 <= p.i < m && 0 <= p.j < n && p !in body && layer1[p.i][p.j] == ct
  }

  /** The first neighbour of `t` the walk may take (model.rs:156-165). */
  function NextPoint(layer1: seq<seq<Byte>>, m: nat, n: nat, ct: Byte, body: seq<Point>, t: Point): (r: Option<Point>)
    requires IsMatrix(layer1, m, n) && m >= 1 && n >= 1
    ensures r.Some? ==> Takes(layer1, m, n, ct, body, r.value) && r.value in ClampedNeighbours(t, m, n)
    ensures r.None? ==> forall q :: 0 <= q < 4 ==> !Takes(layer1, m, n, ct, body, ClampedNeighbours(t, m, n)[q])
  {
    Find(ClampedNeighbours(t, m, n), p => Takes(layer1, m, n, ct, body, p))
  }

  ghost function GridPoints(m: nat, n: nat): set<Point>
  {
    set i, j | 0 <= i < m && 0 <= j < n :: Point(i, j)
  }

  lemma InsideIsOnGrid(body: seq<Point>, m: nat, n: nat)
    requires BodyInside(body, m, n)
    ensures Elems(body) <= GridPoints(m, n)
  {
    forall p | p in Elems(body)
      ensures p in GridPoints(m, n)
    {
      var l :| 0 <= l < |body| && body[l] == p;
      assert Point(p.i, p.j) == p;
    }
  }

  /** The walk as a function: the body it ends with when it continues from
      `t` with `body` collected so far. */
  function Walk(layer1: seq<seq<Byte>>, m: nat, n: nat, ct: Byte, body: seq<Point>, t: Point): (r: seq<Point>)
    requires IsMatrix(layer1, m, n) && m >= 1 && n >= 1 && BodyInside(body, m, n)
    decreases GridPoints(m, n) - Elems(body)
  {
    match NextPoint(layer1, m, n, ct, body, t)
    case None => body
    case Some(p) =>
      InsideIsOnGrid(body, m, n);
      assert p in GridPoints(m, n) - Elems(body);
      assert Elems([p] + body) == Elems(body) + {p};
      Walk(layer1, m, n, ct, [p] + body, p)
  }

  /** The body loop of `parse_string` (model.rs:148-171) for player `k` with
      head `head`. */
  method BuildBody(layer1: seq<seq<Byte>>, m: nat, n: nat, k: nat, head: Point) returns (body: seq<Point>)
    requires IsMatrix(layer1, m, n) && m >= 1 && n >= 1 && 0 <= head.i < m && 0 <= head.j < n
    requires k < 256 - LOWER_A
    ensures body == Walk(layer1, m, n, LOWER_A + k, [head], head)
  {
    body := [head];
    var cp: Option<Point> := Some(head);
    var ct: Byte := LOWER_A + k;
    while cp.Some?
      invariant BodyInside(body, m, n) && body != []
      invariant cp.Some? ==> cp.value == body[0]
      invariant Walk(layer1, m, n, ct, [head], head) == if cp.Some? then Walk(layer1, m, n, ct, body, cp.value) else body
      decreases GridPoints(m, n) - Elems(body), if cp.Some? then 1 else 0
    {
      var t := cp.value;
      var point0 := NextPoint(layer1, m, n, ct, body, t);
      if point0.Some? {
        InsideIsOnGrid(body, m, n);
        assert Elems([point0.value] + body) == Elems(body) + {point0.value};
        body := [point0.value] + body;
      }
      cp := point0;
    }
  }

  /** Consecutive points of the body are one step apart. */
  predicate Chain(body: seq<Point>)
  {
    forall q :: 0 <= q < |body| - 1 ==> Adjacent(body[q], body[q + 1])
  }

  /** The walk from a body whose first point is where it continues keeps
      the old body at its end, so the head stays last. */
  lemma {:induction false} WalkKeepsBody(layer1: seq<seq<Byte>>, m: nat, n: nat, ct: Byte, body: seq<Point>)
    requires IsMatrix(layer1, m, n) && m >= 1 && n >= 1 && BodyInside(body, m, n) && body != []
    ensures var w := Walk(layer1, m, n, ct, body, body[0]);
      |w| >= |body| && w[|w| - |body|..] == body
    decreases GridPoints(m, n) - Elems(body)
  {
    var next := NextPoint(layer1, m, n, ct, body, body[0]);
    if next.Some? {
      var p := next.value;
      var body' := [p] + body;
      InsideIsOnGrid(body, m, n);
      assert Elems(body') == Elems(body) + {p};
      WalkKeepsBody(layer1, m, n, ct, body');
      var w := Walk(layer1, m, n, ct, body', p);
      var k := |w| - |body'|;
      assert body'[1..] == body;
      assert w[k + 1..] == w[k..][1..];
    }
  }

  /** Every point the walk adds lies on the board and holds the tail
      letter. */
  lemma {:induction false} WalkCells(layer1: seq<seq<Byte>>, m: nat, n: nat, ct: Byte, body: seq<Point>)
    requires IsMatrix(layer1, m, n) && m >= 1 && n >= 1 && BodyInside(body, m, n) && body != []
    ensures var w := Walk(layer1, m, n, ct, body, body[0]);
      && BodyInside(w, m, n)
      && (forall q :: 0 <= q < |w| - |body| ==> layer1[w[q].i][w[q].j] == ct)
    decreases GridPoints(m, n) - Elems(body)
  {
    var next := NextPoint(layer1, m, n, ct, body, body[0]);
    if next.Some? {
      var p := next.value;
      var body' := [p] + body;
      InsideIsOnGrid(body, m, n);
      assert Elems(body') == Elems(body) + {p};
      WalkCells(layer1, m, n, ct, body');
      WalkKeepsBody(layer1, m, n, ct, body');
      var w := Walk(layer1, m, n, ct, body', p);
      assert Walk(layer1, m, n, ct, body, body[0]) == w;
      forall q | 0 <= q < |w| - |body|
        ensures layer1[w[q].i][w[q].j] == ct
      {
        if q == |w| - |body'| {
          assert w[q] == w[|w| - |body'|..][0] == p;
        }
      }
    }
  }

  /** The walk never revisits a point. */
  lemma {:induction false} WalkDistinct(layer1: seq<seq<Byte>>, m: nat, n: nat, ct: Byte, body: seq<Point>)
    requires IsMatrix(layer1, m, n) && m >= 1 && n >= 1 && BodyInside(body, m, n) && body != []
    requires Distinct(body)
    ensures Distinct(Walk(layer1, m, n, ct, body, body[0]))
    decreases GridPoints(m, n) - Elems(body)
  {
    var next := NextPoint(layer1, m, n, ct, body, body[0]);
    if next.Some? {
      var p := next.value;
      var body' := [p] + body;
      InsideIsOnGrid(body, m, n);
      assert Elems(body') == Elems(body) + {p};
      assert Distinct(body');
      WalkDistinct(layer1, m, n, ct, body');
    }
  }

  /** Each step of the walk goes to a cell one step away. */
  lemma {:induction false} WalkChain(layer1: seq<seq<Byte>>, m: nat, n: nat, ct: Byte, body: seq<Point>)
    requires IsMatrix(layer1, m, n) && m >= 1 && n >= 1 && BodyInside(body, m, n) && body != []
    requires Chain(body)
    ensures Chain(Walk(layer1, m, n, ct, body, body[0]))
    decreases GridPoints(m, n) - Elems(body)
  {
    var next := NextPoint(layer1, m, n, ct, body, body[0]);
    if next.Some? {
      var p := next.value;
      var body' := [p] + body;
      InsideIsOnGrid(body, m, n);
      assert Elems(body') == Elems(body) + {p};
      var q :| 0 <= q < 4 && ClampedNeighbours(body[0], m, n)[q] == p;
      ClampedNeighbourAdjacent(body[0], m, n, q);
      assert Chain(body');
      WalkChain(layer1, m, n, ct, body');
    }
  }

  /** The walk stops only at a tail end none of whose clamped neighbours
      can be taken. */
  lemma {:induction false} WalkMaximal(layer1: seq<seq<Byte>>, m: nat, n: nat, ct: Byte, body: seq<Point>)
    requires IsMatrix(layer1, m, n) && m >= 1 && n >= 1 && BodyInside(body, m, n) && body != []
    ensures var w := Walk(layer1, m, n, ct, body, body[0]);
      w != [] && forall q :: 0 <= q < 4 ==> !Takes(layer1, m, n, ct, w, ClampedNeighbours(w[0], m, n)[q])
    decreases GridPoints(m, n) - Elems(body)
  {
    var next := NextPoint(layer1, m, n, ct, body, body[0]);
    if next.Some? {
      var p := next.value;
      var body' := [p] + body;
      InsideIsOnGrid(body, m, n);
      assert Elems(body') == Elems(body) + {p};
      WalkMaximal(layer1, m, n, ct, body');
    }
  }
}
