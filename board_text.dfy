/** The text form of a board (src/model.rs): splitting the text into
    trimmed lines, keeping the rows that start with `*`, cutting each row
    into the cell layer and the body layer, and the cell codec. */
module BoardText {
  import opened Util
  import opened Model

  const NEWLINE: Byte := 10
  const SPACE: Byte := 32
  const STAR: Byte := 42
  const DOT: Byte := 46
  const DIGIT_ZERO: Byte := 48
  const DIGIT_NINE: Byte := 57
  const UPPER_A: Byte := 65
  const UPPER_Z: Byte := 90
  const LOWER_A: Byte := 97
  const LOWER_Z: Byte := 122

  /** ASCII white space: tab, line feed, vertical tab, form feed, carriage
      return and space. */
  predicate IsWhitespace(b: Byte)
  {
    b == SPACE || 9 <= b <= 13
  }

  predicate IsNewline(b: Byte)
  {
    b == NEWLINE
  }

  predicate IsUpper(b: Byte)
  {
    UPPER_A <= b <= UPPER_Z
  }

  // ---------------------------------------------------------------------
  // Lines
  // ---------------------------------------------------------------------

  /** `str.split("\n")`: the pieces between line feeds; a text ending in a
      line feed has an empty last piece. */
  function Split(s: seq<Byte>): (lines: seq<seq<Byte>>)
    ensures |lines| >= 1
    decreases |s|
  {
    var i := FirstIndex(s, IsNewline);
    if i == |s| then [s] else [s[..i]] + Split(s[i + 1..])
  }

  function TrimStart(s: seq<Byte>): (r: seq<Byte>)
    ensures r == [] || !IsWhitespace(r[0])
    ensures |r| <= |s| && r == s[|s| - |r|..]
  {
    if s != [] && IsWhitespace(s[0]) then TrimStart(s[1..]) else s
  }

  function TrimEnd(s: seq<Byte>): (r: seq<Byte>)
    ensures r == [] || !IsWhitespace(r[|r| - 1])
    ensures |r| <= |s| && r == s[..|r|]
  {
    if s != [] && IsWhitespace(s[|s| - 1]) then TrimEnd(s[..|s| - 1]) else s
  }

  /** `str::trim` restricted to ASCII white space. */
  function Trim(s: seq<Byte>): seq<Byte>
  {
    TrimEnd(TrimStart(s))
  }

  predicate NonEmpty(s: seq<Byte>)
  {
    s != []
  }

  predicate StartsWithStar(s: seq<Byte>)
  {
    s != [] && s[0] == STAR
  }

  predicate NotStartsWithStar(s: seq<Byte>)
  {
    !StartsWithStar(s)
  }

  /** The trimmed, non-empty lines of the text (model.rs:90-93). */
  function RawLines(text: seq<Byte>): seq<seq<Byte>>
  {
    Filter(MapSeq(Split(text), Trim), NonEmpty)
  }

  /** The grid rows: the raw lines that start with `*`. */
  function Rows(text: seq<Byte>): seq<seq<Byte>>
  {
    Filter(RawLines(text), StartsWithStar)
  }

  /** The metadata lines: the raw lines that do not start with `*`. */
  function RestLines(text: seq<Byte>): seq<seq<Byte>>
  {
    Filter(RawLines(text), NotStartsWithStar)
  }

  /** The loop at model.rs:96-102 that sorts the raw lines into grid rows
      and metadata lines, keeping the order of each. */
  method SplitRows(raw: seq<seq<Byte>>) returns (lines: seq<seq<Byte>>, rest: seq<seq<Byte>>)
    ensures lines == Filter(raw, StartsWithStar)
    ensures rest == Filter(raw, NotStartsWithStar)
    ensures |lines| + |rest| == |raw|
  {
    lines, rest := [], [];
    for t := 0 to |raw|
      invariant lines == Filter(raw[..t], StartsWithStar)
      invariant rest == Filter(raw[..t], NotStartsWithStar)
      invariant |lines| + |rest| == t
    {
      assert raw[..t + 1] == raw[..t] + [raw[t]];
      FilterSnoc(raw[..t], raw[t], StartsWithStar);
      FilterSnoc(raw[..t], raw[t], NotStartsWithStar);
      if StartsWithStar(raw[t]) {
        lines := lines + [raw[t]];
      } else {
        rest := rest + [raw[t]];
      }
    }
    assert raw[..|raw|] == raw;
  }

  /** `Trim` leaves no white space at either end. */
  lemma TrimmedEnds(s: seq<Byte>)
    ensures Trim(s) == [] || (!IsWhitespace(Trim(s)[0]) && !IsWhitespace(Trim(s)[|Trim(s)| - 1]))
  {
  }

  /** Each kept row is non-empty, starts with `*` and has no white space at
      either end; every metadata line is non-empty, has no white space at
      either end and does not start with `*`. */
  lemma RowsAreTrimmedStarLines(text: seq<Byte>)
    ensures forall r :: r in Rows(text) ==> StartsWithStar(r) && !IsWhitespace(r[|r| - 1])
    ensures forall r :: r in RestLines(text) ==>
      NonEmpty(r) && !StartsWithStar(r) && !IsWhitespace(r[0]) && !IsWhitespace(r[|r| - 1])
  {
    RawLinesTrimmed(text);
    var raw := RawLines(text);
    FilterMembers(raw, StartsWithStar);
    FilterMembers(raw, NotStartsWithStar);
    forall r | r in Rows(text)
      ensures StartsWithStar(r) && !IsWhitespace(r[|r| - 1])
    {
      assert r in raw;
    }
    forall r | r in RestLines(text)
      ensures NonEmpty(r) && !StartsWithStar(r) && !IsWhitespace(r[0]) && !IsWhitespace(r[|r| - 1])
    {
      assert r in raw;
    }
  }

  /** Every raw line is non-empty and has no white space at either end. */
  lemma RawLinesTrimmed(text: seq<Byte>)
    ensures forall r :: r in RawLines(text) ==> NonEmpty(r) && !IsWhitespace(r[0]) && !IsWhitespace(r[|r| - 1])
  {
    var pieces := MapSeq(Split(text), Trim);
    FilterMembers(pieces, NonEmpty);
    forall r | r in RawLines(text)
      ensures NonEmpty(r) && !IsWhitespace(r[0]) && !IsWhitespace(r[|r| - 1])
    {
      assert r in pieces && NonEmpty(r);
      var t :| 0 <= t < |pieces| && pieces[t] == r;
      TrimmedEnds(Split(text)[t]);
    }
  }

  /** A line with no white space at either end is its own trim. */
  lemma TrimOfTrimmed(s: seq<Byte>)
    requires s != [] && !IsWhitespace(s[0]) && !IsWhitespace(s[|s| - 1])
    ensures Trim(s) == s
  {
    assert TrimStart(s) == s;
  }

  // ---------------------------------------------------------------------
  // Layers
  // ---------------------------------------------------------------------

  /** The board width: the largest half-length of a row, 0 with no rows. */
  function Width(rows: seq<seq<Byte>>): (n: nat)
    ensures forall i :: 0 <= i < |rows| ==> |rows[i]| / 2 <= n
    ensures rows == [] ==> n == 0
    ensures rows != [] ==> exists i :: 0 <= i < |rows| && |rows[i]| / 2 == n
  {
    if rows == [] then 0
    else
      var init := rows[..|rows| - 1];
      var w := Width(init);
      var h := |rows[|rows| - 1]| / 2;
      assert forall i :: 0 <= i < |init| ==> init[i] == rows[i];
      if w < h then h else w
  }

  /** Every row holds at least `2 * n` bytes; a shorter row makes the
      source index past its end. */
  predicate RowsCoverWidth(rows: seq<seq<Byte>>, n: nat)
  {
    forall i :: 0 <= i < |rows| ==> |rows[i]| >= 2 * n
  }

  predicate IsMatrix<T>(layer: seq<seq<T>>, m: nat, n: nat)
  {
    |layer| == m && forall i :: 0 <= i < m ==> |layer[i]| == n
  }

  /** Layer `parity` of the rows: the byte at position `2 * k + parity` of
      row `i` lands at column `k`; parity 0 is the cell layer, 1 the body layer. */
  function Layer(rows: seq<seq<Byte>>, n: nat, parity: nat): (layer: seq<seq<Byte>>)
    requires parity < 2 && RowsCoverWidth(rows, n)
    ensures IsMatrix(layer, |rows|, n)
  {
    seq(|rows|, i requires 0 <= i < |rows| =>
      seq(n, k requires 0 <= k < n => rows[i][2 * k + parity]))
  }

  /** The nested loop at model.rs:105-117 that fills both layers in place. */
  method DecodeLayers(rows: seq<seq<Byte>>, n: nat) returns (layer0: seq<seq<Byte>>, layer1: seq<seq<Byte>>)
    requires RowsCoverWidth(rows, n)
    ensures IsMatrix(layer0, |rows|, n) && IsMatrix(layer1, |rows|, n)
    ensures forall i, k :: 0 <= i < |rows| && 0 <= k < n ==>
      layer0[i][k] == rows[i][2 * k] && layer1[i][k] == rows[i][2 * k + 1]
    ensures layer0 == Layer(rows, n, 0) && layer1 == Layer(rows, n, 1)
  {
    var m := |rows|;
    layer0 := seq(m, _ => seq(n, _ => SPACE));
    layer1 := seq(m, _ => seq(n, _ => DOT));
    for i := 0 to m
      invariant IsMatrix(layer0, m, n) && IsMatrix(layer1, m, n)
      invariant forall r, k :: 0 <= r < i && 0 <= k < n ==>
        layer0[r][k] == rows[r][2 * k] && layer1[r][k] == rows[r][2 * k + 1]
    {
      var cs := rows[i];
      for j := 0 to 2 * n
        invariant IsMatrix(layer0, m, n) && IsMatrix(layer1, m, n)
        invariant forall r, k :: 0 <= r < i && 0 <= k < n ==>
          layer0[r][k] == rows[r][2 * k] && layer1[r][k] == rows[r][2 * k + 1]
        invariant forall k :: 0 <= k < n && 2 * k < j ==> layer0[i][k] == cs[2 * k]
        invariant forall k :: 0 <= k < n && 2 * k + 1 < j ==> layer1[i][k] == cs[2 * k + 1]
      {
        var c := cs[j];
        if j % 2 == 0 {
          layer0 := layer0[i := layer0[i][j / 2 := c]];
        } else {
          layer1 := layer1[i := layer1[i][j / 2 := c]];
        }
      }
    }
    assert forall i :: 0 <= i < m ==> layer0[i] == Layer(rows, n, 0)[i];
    assert forall i :: 0 <= i < m ==> layer1[i] == Layer(rows, n, 1)[i];
  }

  // ---------------------------------------------------------------------
  // Cell codec
  // ---------------------------------------------------------------------

  /** model.rs:136-142: `*` is Border, a digit is Owned by that player,
      anything else is Empty. */
  function DecodeCell(b: Byte): (c: Cell)
    ensures c == Border <==> b == STAR
    ensures c.Owned? <==> DIGIT_ZERO <= b <= DIGIT_NINE
    ensures c.Owned? ==> c.k == b - DIGIT_ZERO && c.k <= 9
  {
    if b == STAR then Border
    else if DIGIT_ZERO <= b <= DIGIT_NINE then Owned(b - DIGIT_ZERO)
    else Empty
  }

  /** The cell layer of Display (model.rs:325-329); `'0' + k` must fit a byte. */
  function EncodeCell(c: Cell): Byte
    requires c.Owned? ==> c.k < 256 - DIGIT_ZERO
  {
    match c
    case Empty => SPACE
    case Border => STAR
    case Owned(k) => DIGIT_ZERO + k
  }

  /** Decoding inverts encoding for every cell the decoder can produce. */
  lemma CellRoundTrip(c: Cell)
    requires c.Owned? ==> c.k <= 9
    ensures DecodeCell(EncodeCell(c)) == c
  {
  }

  /** Encoding inverts decoding exactly on the bytes space, `*` and the digits. */
  lemma CellBytesRoundTrip(b: Byte)
    ensures EncodeCell(DecodeCell(b)) == b <==> b == SPACE || b == STAR || DIGIT_ZERO <= b <= DIGIT_NINE
  {
  }

  function DecodedCells(layer0: seq<seq<Byte>>): (cells: seq<seq<Cell>>)
    ensures |cells| == |layer0|
    ensures forall i :: 0 <= i < |layer0| ==> |cells[i]| == |layer0[i]|
  {
    seq(|layer0|, i requires 0 <= i < |layer0| =>
      seq(|layer0[i]|, j requires 0 <= j < |layer0[i]| => DecodeCell(layer0[i][j])))
  }

  /** The nested loop at model.rs:132-145 that decodes the cell layer. */
  method DecodeCells(layer0: seq<seq<Byte>>, m: nat, n: nat) returns (cells: seq<seq<Cell>>)
    requires IsMatrix(layer0, m, n)
    ensures IsMatrix(cells, m, n)
    ensures forall i, j :: 0 <= i < m && 0 <= j < n ==> cells[i][j] == DecodeCell(layer0[i][j])
    ensures cells == DecodedCells(layer0)
  {
    cells := seq(m, _ => seq(n, _ => Empty));
    for i := 0 to m
      invariant IsMatrix(cells, m, n)
      invariant forall r, j :: 0 <= r < i && 0 <= j < n ==> cells[r][j] == DecodeCell(layer0[r][j])
    {
      for j := 0 to n
        invariant IsMatrix(cells, m, n)
        invariant forall r, c :: 0 <= r < i && 0 <= c < n ==> cells[r][c] == DecodeCell(layer0[r][c])
        invariant forall c :: 0 <= c < j ==> cells[i][c] == DecodeCell(layer0[i][c])
      {
        cells := cells[i := cells[i][j := DecodeCell(layer0[i][j])]];
      }
    }
    assert forall i :: 0 <= i < m ==> cells[i] == DecodedCells(layer0)[i];
  }
}
