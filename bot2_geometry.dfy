/** The integer geometry of the Bot2 planner (src/bot/bot2.rs): Cartesian
    points, Manhattan distance, the move towards a point, the half-plane
    guard for closing a loop, and L-shaped routes. */
module Bot2Geometry {
  import opened Util
  import opened Model

  /** A Cartesian point `(x, y)`: `x` grows to the right and `y` grows
      upwards (bot2.rs:15-22). */
  datatype P = P(x: int, y: int)

  /** `distance` (bot2.rs:188-190): Manhattan distance. */
  function Distance(p: P, q: P): nat
  {
    Abs(p.x - q.x) + Abs(p.y - q.y)
  }

  /** Two points one unit step apart. */
  predicate UnitApart(p: P, q: P)
  {
    Distance(p, q) == 1
  }

  lemma DistanceSymmetric(p: P, q: P)
    ensures Distance(p, q) == Distance(q, p)
  {
  }

  lemma DistanceZero(p: P, q: P)
    ensures Distance(p, q) == 0 <==> p == q
  {
  }

  /** Where a move takes a point: Up and Down change `y`, Left and Right
      change `x`, and Stop stays put. */
  function StepBy(p: P, mv: Move): (q: P)
    ensures mv != Stop ==> UnitApart(p, q)
  {
    match mv
    case Right => P(p.x + 1, p.y)
    case Left => P(p.x - 1, p.y)
    case Up => P(p.x, p.y + 1)
    case Down => P(p.x, p.y - 1)
    case Stop => p
  }

  /** `direction` (bot2.rs:212-224): the move from `src` towards `dst`. */
  function Direction(src: P, dst: P): (mv: Move)
    ensures mv != Stop
  {
    if dst.x == src.x && dst.y <= src.y then Down
    else if dst.x == src.x && dst.y > src.y then Up
    else if dst.x < src.x then Left
    else Right
  }

  /** On the same column the move is vertical: Down when `dst` is not
      higher (so the direction from a point to itself is Down), Up when it
      is; on different columns it is horizontal, Left exactly when `dst`
      lies to the left. */
  lemma DirectionCases(src: P, dst: P)
    ensures dst.x == src.x ==> (Direction(src, dst) == Down <==> dst.y <= src.y)
    ensures dst.x == src.x ==> (Direction(src, dst) == Up <==> dst.y > src.y)
    ensures dst.x != src.x ==> (Direction(src, dst) == Left <==> dst.x < src.x)
    ensures dst.x != src.x ==> (Direction(src, dst) == Left || Direction(src, dst) == Right)
    ensures Direction(src, src) == Down
  {
  }

  /** Towards a point one step away, the move lands on it. */
  lemma DirectionStep(src: P, dst: P)
    requires UnitApart(src, dst)
    ensures StepBy(src, Direction(src, dst)) == dst
  {
  }

  // ---------------------------------------------------------------------
  // The closing guard
  // ---------------------------------------------------------------------

  /** `may_be_selected` (bot2.rs:192-210), branch for branch as written,
      including the `if false` head and the second test of `xb == xa && yb <
      ya`, which repeats the first. */
  predicate MayBeSelected(base: P, arrow: P, cur: P)
  {
    var xb, yb, xa, ya, xc, yc := base.x, base.y, arrow.x, arrow.y, cur.x, cur.y;
    if false then false
    else if xb == xa && yb < ya then ya <= yc
    else if xb > xa && yb < ya then xc <= xa && ya <= yc
    else if xb > xa && yb == ya then xc <= xa
    else if xb > xa && yb > ya then xc <= xa && yc <= ya
    else if xb == xa && yb > ya then yc <= ya
    else if xb < xa && yb > ya then xa <= xc && yc <= ya
    else if xb < xa && yb == ya then xa <= xc
    else if xb < xa && yb < ya then xa <= xc && ya <= yc
    else if xb == xa && yb < ya then ya <= yc
    else xa != xc && ya != yc
  }

  /** The guard as one rule: seen from `base`, `cur` must not lie back
      across `arrow` on either axis along which `arrow` moved away from
      `base`; when `base` and `arrow` coincide, `cur` must differ from them
      in both coordinates. */
  predicate Beyond(base: P, arrow: P, cur: P)
  {
    if base == arrow then arrow.x != cur.x && arrow.y != cur.y
    else
      && (base.x < arrow.x ==> arrow.x <= cur.x)
      && (base.x > arrow.x ==> cur.x <= arrow.x)
      && (base.y < arrow.y ==> arrow.y <= cur.y)
      && (base.y > arrow.y ==> cur.y <= arrow.y)
  }

  /** The eight compass branches and the final one together say `Beyond`;
      the repeated test at bot2.rs:208 can never be reached, because the
      same condition is taken at bot2.rs:200. */
  lemma MayBeSelectedMeaning(base: P, arrow: P, cur: P)
    ensures MayBeSelected(base, arrow, cur) <==> Beyond(base, arrow, cur)
    ensures base != arrow ==> MayBeSelected(base, arrow, arrow)
    ensures base == arrow ==> (MayBeSelected(base, arrow, cur) <==> arrow.x != cur.x && arrow.y != cur.y)
  {
  }

  // ---------------------------------------------------------------------
  // L-shaped routes (build_path)
  // ---------------------------------------------------------------------

  /** The coordinates strictly after `a` up to and including `b`, in order
      from `a` towards `b`: `(a+1)..=b` or `(b..a).rev()`. */
  function Leg(a: int, b: int): (s: seq<int>)
    ensures |s| == Abs(b - a)
    ensures forall t :: 0 <= t < |s| ==> s[t] == if a < b then a + 1 + t else a - 1 - t
  {
    if a < b then seq(b - a, t => a + 1 + t)
    else if b < a then seq(a - b, t => a - 1 - t)
    else []
  }

  /** `h` (bot2.rs:227-231): the horizontal leg on row `y` from `a` to `b`. */
  function H(y: int, a: int, b: int): (s: seq<P>)
    ensures |s| == Abs(b - a)
  {
    var l := Leg(a, b);
    seq(|l|, t requires 0 <= t < |l| => P(l[t], y))
  }

  /** `v` (bot2.rs:232-236): the vertical leg on column `x` from `a` to `b`. */
  function V(x: int, a: int, b: int): (s: seq<P>)
    ensures |s| == Abs(b - a)
  {
    var l := Leg(a, b);
    seq(|l|, t requires 0 <= t < |l| => P(x, l[t]))
  }

  /** The route `build_path` builds (bot2.rs:237-249): horizontally then
      vertically when `horzFirst`, otherwise vertically then horizontally. */
  function Route(src: P, dst: P, horzFirst: bool): seq<P>
  {
    if horzFirst then H(src.y, src.x, dst.x) + V(dst.x, src.y, dst.y)
    else V(src.x, src.y, dst.y) + H(dst.y, src.x, dst.x)
  }

  /** `build_path` (bot2.rs:226-250): appends the two legs to an empty
      path. */
  method BuildPath(src: P, dst: P, horzFirst: bool) returns (path: seq<P>)
    ensures path == Route(src, dst, horzFirst)
    ensures |path| == Distance(src, dst)
  {
    path := [];
    if horzFirst {
      path := path + H(src.y, src.x, dst.x);
      path := path + V(dst.x, src.y, dst.y);
    } else {
      path := path + V(src.x, src.y, dst.y);
      path := path + H(dst.y, src.x, dst.x);
    }
  }

  /** The `t`-th point of a route, coordinate by coordinate. */
  lemma RouteAt(src: P, dst: P, horzFirst: bool, t: nat)
    requires t < |Route(src, dst, horzFirst)|
    ensures var r := Route(src, dst, horzFirst);
      var ax, ay := Abs(dst.x - src.x), Abs(dst.y - src.y);
      if horzFirst then
        if t < ax then r[t] == P(if src.x < dst.x then src.x + 1 + t else src.x - 1 - t, src.y)
        else r[t] == P(dst.x, if src.y < dst.y then src.y + 1 + (t - ax) else src.y - 1 - (t - ax))
      else
        if t < ay then r[t] == P(src.x, if src.y < dst.y then src.y + 1 + t else src.y - 1 - t)
        else r[t] == P(if src.x < dst.x then src.x + 1 + (t - ay) else src.x - 1 - (t - ay), dst.y)
  {
  }

  /** A route is as long as the distance it covers, so it is empty exactly
      when it starts at its end. */
  lemma RouteLength(src: P, dst: P, horzFirst: bool)
    ensures |Route(src, dst, horzFirst)| == Distance(src, dst)
    ensures Route(src, dst, horzFirst) == [] <==> src == dst
  {
  }

  /** A non-empty route is a walk of unit steps from `src` that ends at
      `dst`. */
  lemma RouteWalk(src: P, dst: P, horzFirst: bool)
    requires src != dst
    ensures var r := Route(src, dst, horzFirst);
      && r != [] && r[|r| - 1] == dst && UnitApart(src, r[0])
      && forall t :: 0 <= t < |r| - 1 ==> UnitApart(r[t], r[t + 1])
  {
    var r := Route(src, dst, horzFirst);
    RouteLength(src, dst, horzFirst);
    RouteAt(src, dst, horzFirst, 0);
    RouteAt(src, dst, horzFirst, |r| - 1);
    forall t | 0 <= t < |r| - 1
      ensures UnitApart(r[t], r[t + 1])
    {
      RouteStep(src, dst, horzFirst, t);
    }
  }

  lemma RouteStep(src: P, dst: P, horzFirst: bool, t: nat)
    requires t + 1 < |Route(src, dst, horzFirst)|
    ensures var r := Route(src, dst, horzFirst); UnitApart(r[t], r[t + 1])
  {
    RouteAt(src, dst, horzFirst, t);
    RouteAt(src, dst, horzFirst, t + 1);
  }

  /** A route never visits a point twice and never returns to `src`. */
  lemma RouteDistinct(src: P, dst: P, horzFirst: bool)
    ensures Distinct(Route(src, dst, horzFirst))
    ensures src !in Route(src, dst, horzFirst)
  {
    var r := Route(src, dst, horzFirst);
    forall a, b | 0 <= a < b < |r|
      ensures r[a] != r[b]
    {
      RouteAt(src, dst, horzFirst, a);
      RouteAt(src, dst, horzFirst, b);
    }
    forall t | 0 <= t < |r|
      ensures r[t] != src
    {
      RouteAt(src, dst, horzFirst, t);
    }
  }

  /** The axis order: with `horzFirst` the first `|xd - xs|` points stay on
      the row of `src` and the rest on the column of `dst`; without it the
      first `|yd - ys|` points stay on the column of `src` and the rest on
      the row of `dst`. */
  lemma RouteAxes(src: P, dst: P, horzFirst: bool)
    ensures var r := Route(src, dst, horzFirst);
      var ax, ay := Abs(dst.x - src.x), Abs(dst.y - src.y);
      if horzFirst then
        && (forall t :: 0 <= t < ax ==> r[t].y == src.y)
        && (forall t :: ax <= t < |r| ==> r[t].x == dst.x)
      else
        && (forall t :: 0 <= t < ay ==> r[t].x == src.x)
        && (forall t :: ay <= t < |r| ==> r[t].y == dst.y)
  {
    var r := Route(src, dst, horzFirst);
    RouteLength(src, dst, horzFirst);
    forall t | 0 <= t < |r|
      ensures var ax, ay := Abs(dst.x - src.x), Abs(dst.y - src.y);
        if horzFirst then (t < ax ==> r[t].y == src.y) && (ax <= t ==> r[t].x == dst.x)
        else (t < ay ==> r[t].x == src.x) && (ay <= t ==> r[t].y == dst.y)
    {
      RouteAt(src, dst, horzFirst, t);
    }
  }

  /** Every point of a route lies in the bounding box of its ends. */
  lemma RouteInBox(src: P, dst: P, horzFirst: bool)
    ensures forall q :: q in Route(src, dst, horzFirst) ==>
      && Min(src.x, dst.x) <= q.x <= Max(src.x, dst.x)
      && Min(src.y, dst.y) <= q.y <= Max(src.y, dst.y)
  {
    var r := Route(src, dst, horzFirst);
    forall t | 0 <= t < |r|
      ensures Min(src.x, dst.x) <= r[t].x <= Max(src.x, dst.x)
      ensures Min(src.y, dst.y) <= r[t].y <= Max(src.y, dst.y)
    {
      RouteAt(src, dst, horzFirst, t);
    }
  }

  /** A closing route towards a point the guard accepts does not step back
      across `arrow` towards `base` on any axis along which `arrow` moved
      away from `base`. */
  lemma ClosingRouteStaysBeyond(base: P, arrow: P, cur: P, horzFirst: bool)
    requires base != arrow && MayBeSelected(base, arrow, cur)
    ensures forall q :: q in Route(arrow, cur, horzFirst) ==> Beyond(base, arrow, q)
  {
    MayBeSelectedMeaning(base, arrow, cur);
    RouteInBox(arrow, cur, horzFirst);
  }

  // ---------------------------------------------------------------------
  // Coordinates
  // ---------------------------------------------------------------------

  /** `to_decartes` (bot2.rs:166-170): row `i` of an `m`-row board becomes
      height `m - 1 - i`, column `j` becomes `x`. */
  function ToDecartes(m: int, p: Point): P
  {
    P(p.j, m - 1 - p.i)
  }

  /** The inverse conversion `cells` uses (bot2.rs:161-162). */
  function FromDecartes(m: int, q: P): (p: Point)
  {
    Point(m - 1 - q.y, q.x)
  }

  lemma DecartesRoundTrip(m: int, p: Point, q: P)
    ensures FromDecartes(m, ToDecartes(m, p)) == p
    ensures ToDecartes(m, FromDecartes(m, q)) == q
  {
  }

  /** A Cartesian point on the `m`×`n` board. */
  predicate OnBoard(m: int, n: int, q: P)
  {
    0 <= q.x < n && 0 <= q.y < m
  }

  lemma OnBoardIffContains(field: Field, p: Point)
    ensures OnBoard(field.m, field.n, ToDecartes(field.m, p)) <==> field.Contains(p)
  {
  }

  /** `cells` (bot2.rs:159-164): the cell under a Cartesian point; the
      `usize` conversions and the indexing need the point on the board. */
  function Cells(field: Field, q: P): Cell
    requires field.Valid() && OnBoard(field.m, field.n, q)
  {
    field.cells[field.m - 1 - q.y][q.x]
  }

  /** Looking a converted position up gives the cell at that position. */
  lemma CellsAtDecartes(field: Field, p: Point)
    requires field.Valid() && field.Contains(p)
    ensures OnBoard(field.m, field.n, ToDecartes(field.m, p))
    ensures Cells(field, ToDecartes(field.m, p)) == field.cells[p.i][p.j]
  {
  }

  /** `player` (bot2.rs:101-103): the body of player `idx` in Cartesian
      points, reversed so that the head comes first. */
  function PlayerBody(gs: GameState, idx: nat): seq<P>
    requires idx < |gs.players|
  {
    var body := gs.players[idx].body;
    seq(|body|, t requires 0 <= t < |body| => ToDecartes(gs.field.m, body[|body| - 1 - t]))
  }

  /** The converted body runs backwards: the head, the last point of the
      stored body, comes first and the tail end last; converting back gives
      the stored body reversed. */
  lemma PlayerBodyReversed(gs: GameState, idx: nat)
    requires idx < |gs.players|
    ensures var body, me := gs.players[idx].body, PlayerBody(gs, idx);
      && |me| == |body|
      && (body != [] ==> me[0] == ToDecartes(gs.field.m, body[|body| - 1]))
      && (body != [] ==> me[|me| - 1] == ToDecartes(gs.field.m, body[0]))
      && forall t :: 0 <= t < |me| ==> FromDecartes(gs.field.m, me[t]) == body[|body| - 1 - t]
  {
    var body := gs.players[idx].body;
    forall t | 0 <= t < |body|
      ensures FromDecartes(gs.field.m, PlayerBody(gs, idx)[t]) == body[|body| - 1 - t]
    {
      DecartesRoundTrip(gs.field.m, body[|body| - 1 - t], P(0, 0));
    }
  }
}
