/** The board entities of the territory-capture game (cells, points, moves,
    the field, statistics, players and the whole game state) and the total
    constructors that build default permutations, player origins and
    default fields (src/model.rs). */
module Model {
  import opened Util

  /** An unsigned 8-bit value (Rust `u8`); text is handled as bytes. */
  type Byte = b: int | 0 <= b < 256

  /** What a cell of the field holds. */
  datatype Cell = Empty | Border | Owned(k: Byte)

  /** A matrix position: row `i`, column `j` (Rust `i16`). */
  datatype Point = Point(i: int, j: int)

  datatype Move = Right | Up | Left | Down | Stop

  /** The terrain: `m` rows, `n` columns and the `m`×`n` matrix of cells. */
  datatype Field = Field(m: nat, n: nat, cells: seq<seq<Cell>>)
  {
    predicate Valid()
    {
      |cells| == m && forall i :: 0 <= i < m ==> |cells[i]| == n
    }

    predicate Contains(p: Point)
    {
      0 <= p.i < m && 0 <= p.j < n
    }
  }

  /** Counters updated by the match engine (Rust `u16`). */
  datatype Stats = Stats(
    iteration: nat,
    filledCount: nat,
    headToHeadCount: nat,
    ouroborosCount: nat,
    biteCount: nat,
    scores: seq<nat>)

  /** A body ordered tail first; the last point is the head. */
  datatype Player = Player(body: seq<Point>)

  datatype GameState = GameState(
    field: Field,
    players: seq<Player>,
    playerNames: seq<string>,
    origins: seq<Point>,
    stats: Stats,
    reordering: seq<Byte>)

  /** Two matrix positions that differ by one step along one axis. */
  predicate Adjacent(p: Point, q: Point)
  {
    Abs(p.i - q.i) + Abs(p.j - q.j) == 1
  }

  /** Every point of `body` lies on an `m`×`n` board. */
  predicate BodyInside(body: seq<Point>, m: int, n: int)
  {
    forall l :: 0 <= l < |body| ==> 0 <= body[l].i < m && 0 <= body[l].j < n
  }

  /** An in-bounds position on row 0, row m-1, column 0 or column n-1. */
  predicate OnPerimeter(m: int, n: int, p: Point)
  {
    0 <= p.i < m && 0 <= p.j < n && (p.i == 0 || p.i == m - 1 || p.j == 0 || p.j == n - 1)
  }

  // ---------------------------------------------------------------------
  // Default permutation
  // ---------------------------------------------------------------------

  /** `(0..np).map(|x| x as u8)`: the cast truncates to the low 8 bits. */
  function CreateDefaultPermutation(np: nat): (perm: seq<Byte>)
    ensures |perm| == np
  {
    seq(np, x => x % 256)
  }

  /** A list of length `np` in which every player index `0..np-1` occurs. */
  predicate IsPermutation(perm: seq<int>, np: nat)
  {
    |perm| == np && forall x :: 0 <= x < np ==> x in perm
  }

  lemma DefaultPermutationIsIdentity(np: nat)
    requires np <= 256
    ensures IsPermutation(CreateDefaultPermutation(np), np)
    ensures forall x :: 0 <= x < np ==> CreateDefaultPermutation(np)[x] == x
  {
    var perm := CreateDefaultPermutation(np);
    forall x | 0 <= x < np
      ensures x in perm
    {
      assert perm[x] == x;
    }
  }

  // ---------------------------------------------------------------------
  // Walk around the perimeter
  // ---------------------------------------------------------------------

  /** The number of cells on the perimeter of a `height`×`width` board. */
  function PerimeterLength(height: nat, width: nat): int
  {
    2 * (height + width) - 4
  }

  /** The perimeter cell at clockwise position `pos` (taken modulo the
      perimeter), starting at the top-left corner and walking right along
      row 0. The requires exclude the `i16` overflow and the division by a
      zero perimeter that make the source panic. */
  function BorderToPoint(height: nat, width: nat, pos: nat): Point
    requires height + width >= 3
    requires 2 * (height + width) < 32768 && pos < 32768
  {
    PerimeterCell(height, width, pos % PerimeterLength(height, width))
  }

  /** The four straight runs of the perimeter walk, for a position already
      reduced modulo the perimeter. */
  function PerimeterCell(m: nat, n: nat, pos: int): Point
  {
    if pos < n then Point(0, pos)
    else if pos < n + m - 2 then Point(pos - n + 1, n - 1)
    else if pos < n + n + m - 2 then Point(m - 1, n + n + m - 3 - pos)
    else Point(n + n + m + m - 4 - pos, 0)
  }

  lemma ModSmall(a: int, d: int)
    requires 0 <= a < d
    ensures a % d == a
  {
  }

  lemma BorderToPointOnPerimeter(height: nat, width: nat, pos: nat)
    requires height >= 2 && width >= 2
    requires 2 * (height + width) < 32768 && pos < 32768
    ensures OnPerimeter(height, width, BorderToPoint(height, width, pos))
  {
    var r := pos % PerimeterLength(height, width);
    assert 0 <= r < PerimeterLength(height, width);
  }

  lemma BorderToPointInjective(height: nat, width: nat, a: nat, b: nat)
    requires height >= 2 && width >= 2
    requires 2 * (height + width) < 32768
    requires a < PerimeterLength(height, width) && b < PerimeterLength(height, width)
    requires BorderToPoint(height, width, a) == BorderToPoint(height, width, b)
    ensures a == b
  {
    ModSmall(a, PerimeterLength(height, width));
    ModSmall(b, PerimeterLength(height, width));
  }

  /** Consecutive positions, including the step from the last position
      back to position 0, give adjacent cells. */
  lemma BorderToPointStep(height: nat, width: nat, pos: nat)
    requires height >= 2 && width >= 2
    requires 2 * (height + width) < 32768
    requires pos < PerimeterLength(height, width)
    ensures Adjacent(BorderToPoint(height, width, pos), BorderToPoint(height, width, pos + 1))
  {
    var P := PerimeterLength(height, width);
    ModSmall(pos, P);
    assert BorderToPoint(height, width, pos) == PerimeterCell(height, width, pos);
    if pos + 1 == P {
      assert (pos + 1) % P == 0;
      assert BorderToPoint(height, width, pos + 1) == PerimeterCell(height, width, 0);
    } else {
      ModSmall(pos + 1, P);
      assert BorderToPoint(height, width, pos + 1) == PerimeterCell(height, width, pos + 1);
    }
    PerimeterCellStep(height, width, pos);
  }

  /** The unreduced walk steps to an adjacent cell, and from its last
      position back to position 0. */
  lemma PerimeterCellStep(m: nat, n: nat, pos: int)
    requires m >= 2 && n >= 2 && 0 <= pos < PerimeterLength(m, n)
    ensures var next := if pos + 1 == PerimeterLength(m, n) then 0 else pos + 1;
      Adjacent(PerimeterCell(m, n, pos), PerimeterCell(m, n, next))
  {
  }

  /** Every perimeter cell is reached by some position of the walk. */
  lemma BorderToPointOnto(height: nat, width: nat, p: Point)
    requires height >= 2 && width >= 2
    requires 2 * (height + width) < 32768
    requires OnPerimeter(height, width, p)
    ensures exists pos :: 0 <= pos < PerimeterLength(height, width) && BorderToPoint(height, width, pos) == p
  {
    var m, n := height, width;
    var pos;
    if p.i == 0 {
      pos := p.j;
    } else if p.j == n - 1 {
      pos := n - 1 + p.i;
    } else if p.i == m - 1 {
      pos := n + n + m - 3 - p.j;
    } else {
      pos := n + n + m + m - 4 - p.i;
    }
    ModSmall(pos, PerimeterLength(m, n));
    assert BorderToPoint(m, n, pos) == p;
  }

  // ---------------------------------------------------------------------
  // Player origins
  // ---------------------------------------------------------------------

  /** The position of the first occurrence of `x` in `xs` (`index_of`). */
  function IndexOf(xs: seq<Byte>, x: int): (r: nat)
    requires x in xs
    ensures r < |xs| && xs[r] == x
    ensures forall q :: 0 <= q < r ==> xs[q] != x
  {
    if xs[0] == x then 0 else 1 + IndexOf(xs[1..], x)
  }

  /** The four corners in the order the source lists them. */
  function Corners(height: nat, width: nat): seq<Point>
  {
    [Point(0, 0), Point(height - 1, width - 1), Point(0, width - 1), Point(height - 1, 0)]
  }

  /** The distance between consecutive origins along the perimeter when
      there are five or more players. */
  function OriginStep(height: nat, width: nat, np: nat): nat
    requires height + width >= 2 && np > 0
  {
    2 * (height + width - 2) / np
  }

  lemma MulDivBound(k: nat, np: nat, total: nat)
    requires k < np
    ensures k * (total / np) <= total
  {
    var q := total / np;
    assert np * q <= total;
    MulLeft(k, np, q);
  }

  lemma MulLeft(a: nat, b: nat, c: nat)
    requires a <= b
    ensures a * c <= b * c
  {
  }

  /** The start of the player with index `k` when there are `np >= 5` players. */
  function PerimeterOrigin(height: nat, width: nat, np: nat, k: nat): Point
    requires 5 <= np && k < np
    requires height + width >= 3 && 2 * (height + width) < 32768
  {
    MulDivBound(k, np, 2 * (height + width - 2));
    BorderToPoint(height, width, k * OriginStep(height, width, np))
  }

  /** What `create_origins` returns: for up to four players, player `k`
      starts at corner number `IndexOf(perm, k)`; for five or more, the
      player at list position `q` starts `perm[q] * step` cells clockwise
      along the perimeter. */
  function OriginsSpec(height: nat, width: nat, perm: seq<Byte>): seq<Point>
    requires IsPermutation(perm, |perm|)
    requires |perm| >= 5 ==> height + width >= 3 && 2 * (height + width) < 32768
  {
    var np := |perm|;
    CoveringSeqIsPermutation(perm, np);
    if np == 0 then []
    else if np <= 4 then seq(np, k requires 0 <= k < np => Corners(height, width)[IndexOf(perm, k)])
    else seq(np, q requires 0 <= q < np => PerimeterOrigin(height, width, np, perm[q]))
  }

  /** `create_origins`: fills one slot per player and then unwraps them all.
      The requires are what keeps `index_of` and the unwrapping from
      panicking, plus the bound on `i16` arithmetic. */
  method CreateOrigins(height: nat, width: nat, perm: seq<Byte>) returns (origins: seq<Point>)
    requires IsPermutation(perm, |perm|)
    requires |perm| >= 5 ==> height + width >= 3 && 2 * (height + width) < 32768
    ensures |origins| == |perm|
    ensures origins == OriginsSpec(height, width, perm)
  {
    var np := |perm|;
    CoveringSeqIsPermutation(perm, np);
    var corners := Corners(height, width);
    if np == 0 {
      origins := [];
    } else if np <= 4 {
      origins := [];
      for k := 0 to np
        invariant |origins| == k
        invariant forall t :: 0 <= t < k ==> origins[t] == corners[IndexOf(perm, t)]
      {
        origins := origins + [corners[IndexOf(perm, k)]];
      }
    } else {
      var opts: seq<Option<Point>> := seq(np, _ => None);
      for k := 0 to np
        invariant |opts| == np
        invariant forall q :: 0 <= q < np ==> (opts[q].Some? <==> perm[q] < k)
        invariant forall q :: 0 <= q < np && opts[q].Some? ==> opts[q].value == PerimeterOrigin(height, width, np, perm[q])
      {
        var q := IndexOf(perm, k);
        opts := opts[q := Some(PerimeterOrigin(height, width, np, k))];
      }
      origins := seq(np, q requires 0 <= q < np => opts[q].value);
    }
  }

  /** `create_origins_n`: the origins for the identity permutation. */
  method CreateOriginsN(height: nat, width: nat, np: nat) returns (origins: seq<Point>)
    requires np <= 256
    requires np >= 5 ==> height + width >= 3 && 2 * (height + width) < 32768
    ensures origins == DefaultOrigins(height, width, np)
  {
    DefaultPermutationIsIdentity(np);
    origins := CreateOrigins(height, width, CreateDefaultPermutation(np));
  }

  function DefaultOrigins(height: nat, width: nat, np: nat): seq<Point>
    requires np <= 256
    requires np >= 5 ==> height + width >= 3 && 2 * (height + width) < 32768
  {
    DefaultPermutationIsIdentity(np);
    OriginsSpec(height, width, CreateDefaultPermutation(np))
  }

  /** Up to four players with the identity permutation start at the corners
      in the listed order; on a board at least 2×2 these are distinct
      perimeter cells. */
  lemma DefaultOriginsAtCorners(height: nat, width: nat, np: nat)
    requires 2 <= height && 2 <= width
    requires np <= 4
    ensures |DefaultOrigins(height, width, np)| == np
    ensures forall k :: 0 <= k < np ==> DefaultOrigins(height, width, np)[k] == Corners(height, width)[k]
    ensures forall k :: 0 <= k < np ==> OnPerimeter(height, width, DefaultOrigins(height, width, np)[k])
    ensures Distinct(DefaultOrigins(height, width, np))
  {
    DefaultPermutationIsIdentity(np);
    var perm := CreateDefaultPermutation(np);
    forall k | 0 <= k < np
      ensures DefaultOrigins(height, width, np)[k] == Corners(height, width)[k]
    {
      assert IndexOf(perm, k) == k;
    }
  }

  /** Two multiples of a positive step below `np` steps stay apart and below
      the perimeter the step was cut from. */
  lemma StepMultiplesApart(a: nat, b: nat, np: nat, total: nat)
    requires a < b < np
    requires total / np >= 1
    ensures a * (total / np) < b * (total / np) < total
  {
    var step := total / np;
    assert np * step + total % np == total;
    assert (b - a) * step >= 1;
    assert b * step == a * step + (b - a) * step;
    assert (np - b) * step >= 1;
    assert np * step == b * step + (np - b) * step;
  }

  /** With five or more players and the identity permutation, player `k`
      starts `k * step` cells clockwise from the top-left corner, on a
      perimeter cell. */
  lemma DefaultOriginAt(height: nat, width: nat, np: nat, k: nat)
    requires 2 <= height && 2 <= width && 2 * (height + width) < 32768
    requires 5 <= np <= 256 && k < np
    ensures |DefaultOrigins(height, width, np)| == np
    ensures DefaultOrigins(height, width, np)[k] == PerimeterOrigin(height, width, np, k)
    ensures OnPerimeter(height, width, DefaultOrigins(height, width, np)[k])
  {
    DefaultPermutationIsIdentity(np);
    assert CreateDefaultPermutation(np)[k] == k;
    MulDivBound(k, np, 2 * (height + width - 2));
    BorderToPointOnPerimeter(height, width, k * OriginStep(height, width, np));
  }

  /** With five or more players, the identity permutation and a step of at
      least one cell, no two players share an origin. */
  lemma DefaultOriginsDistinct(height: nat, width: nat, np: nat)
    requires 2 <= height && 2 <= width && 2 * (height + width) < 32768
    requires 5 <= np <= 256
    requires OriginStep(height, width, np) >= 1
    ensures Distinct(DefaultOrigins(height, width, np))
  {
    var origins := DefaultOrigins(height, width, np);
    var step := OriginStep(height, width, np);
    forall a, b | 0 <= a < b < np
      ensures origins[a] != origins[b]
    {
      DefaultOriginAt(height, width, np, a);
      DefaultOriginAt(height, width, np, b);
      StepMultiplesApart(a, b, np, PerimeterLength(height, width));
      if origins[a] == origins[b] {
        BorderToPointInjective(height, width, a * step, b * step);
      }
    }
  }

  // ---------------------------------------------------------------------
  // Default field
  // ---------------------------------------------------------------------

  /** `create_default_field`: an `m`×`n` field whose perimeter is Border and
      whose interior is Empty. */
  method CreateDefaultField(m: nat, n: nat) returns (field: Field)
    ensures field.m == m && field.n == n && field.Valid()
    ensures forall i, j :: 0 <= i < m && 0 <= j < n ==>
      (field.cells[i][j] == Border <==> OnPerimeter(m, n, Point(i, j))) &&
      (field.cells[i][j] == Empty <==> !OnPerimeter(m, n, Point(i, j)))
  {
    var cells: seq<seq<Cell>> := seq(m, _ => seq(n, _ => Empty));
    for i := 0 to m
      invariant |cells| == m && forall r :: 0 <= r < m ==> |cells[r]| == n
      invariant forall r, j :: 0 <= r < i && 0 <= j < n ==>
        cells[r][j] == if OnPerimeter(m, n, Point(r, j)) then Border else Empty
    {
      for j := 0 to n
        invariant |cells| == m && forall r :: 0 <= r < m ==> |cells[r]| == n
        invariant forall r, c :: 0 <= r < i && 0 <= c < n ==>
          cells[r][c] == if OnPerimeter(m, n, Point(r, c)) then Border else Empty
        invariant forall c :: 0 <= c < j ==>
          cells[i][c] == if OnPerimeter(m, n, Point(i, c)) then Border else Empty
      {
        var cell := if i == 0 || i == m - 1 || j == 0 || j == n - 1 then Border else Empty;
        cells := cells[i := cells[i][j := cell]];
      }
    }
    field := Field(m, n, cells);
  }
}
