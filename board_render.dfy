/** The grid part of `Display for GameState` (src/model.rs): the cell layer,
    the body layer painted from the players' bodies, and the text that
    interleaves them row by row; and the round trip back through the
    row and layer decoding of BoardText. */
module BoardRender {
  import opened Util
  import opened Model
  import opened BoardText

  /** `u8::to_ascii_lowercase`. */
  function ToAsciiLowercase(b: Byte): Byte
  {
    if IsUpper(b) then b + 32 else b
  }

  predicate IsLetter(b: Byte)
  {
    UPPER_A <= b <= UPPER_Z || LOWER_A <= b <= LOWER_Z
  }

  /** What Display needs of a state to stay inside its buffers: a
      rectangular field, owners whose digit fits a byte, player letters that
      fit a byte, and bodies on the field. */
  predicate Renderable(gs: GameState)
  {
    && gs.field.Valid()
    && (forall i, j :: 0 <= i < gs.field.m && 0 <= j < gs.field.n && gs.field.cells[i][j].Owned? ==>
          gs.field.cells[i][j].k < 256 - DIGIT_ZERO)
    && |gs.players| <= 256 - UPPER_A
    && (forall k, l :: 0 <= k < |gs.players| && 0 <= l < |gs.players[k].body| ==>
          gs.field.Contains(gs.players[k].body[l]))
  }

  /** The cell layer (model.rs:320-331). */
  function EncodeLayer0(field: Field): (layer: seq<seq<Byte>>)
    requires field.Valid()
    requires forall i, j :: 0 <= i < field.m && 0 <= j < field.n && field.cells[i][j].Owned? ==>
      field.cells[i][j].k < 256 - DIGIT_ZERO
    ensures IsMatrix(layer, field.m, field.n)
  {
    seq(field.m, i requires 0 <= i < field.m =>
      seq(field.n, j requires 0 <= j < field.n => EncodeCell(field.cells[i][j])))
  }

  function Blank(m: nat, n: nat): (layer: seq<seq<Byte>>)
    ensures IsMatrix(layer, m, n)
  {
    seq(m, _ => seq(n, _ => DOT))
  }

  function PaintAt(layer: seq<seq<Byte>>, m: nat, n: nat, p: Point, b: Byte): (r: seq<seq<Byte>>)
    requires IsMatrix(layer, m, n) && 0 <= p.i < m && 0 <= p.j < n
    ensures IsMatrix(r, m, n)
  {
    var row: seq<Byte> := layer[p.i][p.j := b];
    layer[p.i := row]
  }

  /** Paints the first `len` points of one body: the head (the last point
      of the body) in the player's capital letter, the rest in lower case. */
  function PaintBody(layer: seq<seq<Byte>>, m: nat, n: nat, body: seq<Point>, ch: Byte, len: nat): (r: seq<seq<Byte>>)
    requires IsMatrix(layer, m, n) && BodyInside(body, m, n) && len <= |body|
    ensures IsMatrix(r, m, n)
  {
    if len == 0 then layer
    else
      var b := if len - 1 == |body| - 1 then ch else ToAsciiLowercase(ch);
      PaintAt(PaintBody(layer, m, n, body, ch, len - 1), m, n, body[len - 1], b)
  }

  predicate PlayersInside(players: seq<Player>, m: nat, n: nat)
  {
    forall k :: 0 <= k < |players| ==> BodyInside(players[k].body, m, n)
  }

  /** Paints the bodies of the first `count` players, player `k` with letter `'A' + k`. */
  function PaintPlayers(m: nat, n: nat, players: seq<Player>, count: nat): (r: seq<seq<Byte>>)
    requires PlayersInside(players, m, n) && count <= |players| && |players| <= 256 - UPPER_A
    ensures IsMatrix(r, m, n)
  {
    if count == 0 then Blank(m, n)
    else
      var k := count - 1;
      var body := players[k].body;
      PaintBody(PaintPlayers(m, n, players, k), m, n, body, UPPER_A + k, |body|)
  }

  /** The body layer (model.rs:321, 332-345). */
  function BodyLayer(gs: GameState): (layer: seq<seq<Byte>>)
    requires Renderable(gs)
    ensures IsMatrix(layer, gs.field.m, gs.field.n)
  {
    PaintPlayers(gs.field.m, gs.field.n, gs.players, |gs.players|)
  }

  /** One text row: cell byte and body byte of each column, in turn. */
  function Interleave(a: seq<Byte>, b: seq<Byte>): seq<Byte>
    requires |a| == |b|
  {
    if a == [] then []
    else Interleave(a[..|a| - 1], b[..|b| - 1]) + [a[|a| - 1], b[|b| - 1]]
  }

  /** Every line followed by a line feed. */
  function JoinLines(lines: seq<seq<Byte>>): seq<Byte>
  {
    if lines == [] then [] else lines[0] + [NEWLINE] + JoinLines(lines[1..])
  }

  function RenderedRows(layer0: seq<seq<Byte>>, layer1: seq<seq<Byte>>, m: nat, n: nat): (rows: seq<seq<Byte>>)
    requires IsMatrix(layer0, m, n) && IsMatrix(layer1, m, n)
    ensures |rows| == m
  {
    seq(m, i requires 0 <= i < m => Interleave(layer0[i], layer1[i]))
  }

  function GridText(layer0: seq<seq<Byte>>, layer1: seq<seq<Byte>>, m: nat, n: nat): seq<Byte>
    requires IsMatrix(layer0, m, n) && IsMatrix(layer1, m, n)
  {
    JoinLines(RenderedRows(layer0, layer1, m, n))
  }

  /** The grid part of `Display for GameState` (model.rs:314-353): fill the
      cell layer, paint the bodies, then write the interleaved rows. */
  method RenderGrid(gs: GameState) returns (text: seq<Byte>)
    requires Renderable(gs)
    ensures text == GridText(EncodeLayer0(gs.field), BodyLayer(gs), gs.field.m, gs.field.n)
  {
    var layer0 := FillCellLayer(gs.field);
    var layer1 := PaintBodies(gs);
    text := WriteRows(layer0, layer1, gs.field.m, gs.field.n);
  }

  /** model.rs:320-331. */
  method FillCellLayer(field: Field) returns (layer0: seq<seq<Byte>>)
    requires field.Valid()
    requires forall i, j :: 0 <= i < field.m && 0 <= j < field.n && field.cells[i][j].Owned? ==>
      field.cells[i][j].k < 256 - DIGIT_ZERO
    ensures layer0 == EncodeLayer0(field)
  {
    var m, n := field.m, field.n;
    layer0 := seq(m, _ => seq(n, _ => SPACE));
    for i := 0 to m
      invariant IsMatrix(layer0, m, n)
      invariant forall r, j :: 0 <= r < i && 0 <= j < n ==> layer0[r][j] == EncodeCell(field.cells[r][j])
    {
      for j := 0 to n
        invariant IsMatrix(layer0, m, n)
        invariant forall r, c :: 0 <= r < i && 0 <= c < n ==> layer0[r][c] == EncodeCell(field.cells[r][c])
        invariant forall c :: 0 <= c < j ==> layer0[i][c] == EncodeCell(field.cells[i][c])
      {
        var row: seq<Byte> := layer0[i][j := EncodeCell(field.cells[i][j])];
        layer0 := layer0[i := row];
      }
    }
    assert forall i :: 0 <= i < m ==> layer0[i] == EncodeLayer0(field)[i];
  }

  /** model.rs:332-345. */
  method PaintBodies(gs: GameState) returns (layer1: seq<seq<Byte>>)
    requires Renderable(gs)
    ensures layer1 == BodyLayer(gs)
  {
    var m, n, np := gs.field.m, gs.field.n, |gs.players|;
    layer1 := Blank(m, n);
    for k := 0 to np
      invariant layer1 == PaintPlayers(m, n, gs.players, k)
    {
      var player := gs.players[k].body;
      var ch: Byte := UPPER_A + k;
      for l := 0 to |player|
        invariant layer1 == PaintBody(PaintPlayers(m, n, gs.players, k), m, n, player, ch, l)
      {
        var p := player[l];
        if l == |player| - 1 {
          layer1 := PaintAt(layer1, m, n, p, ch);
        } else {
          layer1 := PaintAt(layer1, m, n, p, ToAsciiLowercase(ch));
        }
      }
    }
  }

  /** model.rs:346-352. */
  method WriteRows(layer0: seq<seq<Byte>>, layer1: seq<seq<Byte>>, m: nat, n: nat) returns (text: seq<Byte>)
    requires IsMatrix(layer0, m, n) && IsMatrix(layer1, m, n)
    ensures text == GridText(layer0, layer1, m, n)
  {
    ghost var rows := RenderedRows(layer0, layer1, m, n);
    text := [];
    for i := 0 to m
      invariant text == JoinLines(rows[..i])
    {
      var row := WriteRow(layer0[i], layer1[i]);
      assert rows[..i + 1] == rows[..i] + [rows[i]];
      JoinLinesSnoc(rows[..i], rows[i]);
      text := text + row + [NEWLINE];
    }
    assert rows[..m] == rows;
  }

  /** The inner loop of model.rs:347-350: the cell byte and the body byte
      of each column of one row, in turn. */
  method WriteRow(a: seq<Byte>, b: seq<Byte>) returns (row: seq<Byte>)
    requires |a| == |b|
    ensures row == Interleave(a, b)
  {
    row := [];
    for j := 0 to |a|
      invariant row == Interleave(a[..j], b[..j])
    {
      assert a[..j + 1][..j] == a[..j];
      assert b[..j + 1][..j] == b[..j];
      row := row + [a[j], b[j]];
    }
    assert a[..|a|] == a && b[..|b|] == b;
  }

  // ---------------------------------------------------------------------
  // Facts about the rendered text
  // ---------------------------------------------------------------------

  lemma {:induction false} InterleaveAt(a: seq<Byte>, b: seq<Byte>)
    requires |a| == |b|
    ensures |Interleave(a, b)| == 2 * |a|
    ensures forall k :: 0 <= k < |a| ==> Interleave(a, b)[2 * k] == a[k] && Interleave(a, b)[2 * k + 1] == b[k]
  {
    if a != [] {
      var a', b' := a[..|a| - 1], b[..|b| - 1];
      InterleaveAt(a', b');
      forall k | 0 <= k < |a|
        ensures Interleave(a, b)[2 * k] == a[k] && Interleave(a, b)[2 * k + 1] == b[k]
      {
        if k < |a'| {
          assert a'[k] == a[k] && b'[k] == b[k];
        }
      }
    }
  }

  lemma {:induction false} JoinLinesSnoc(lines: seq<seq<Byte>>, line: seq<Byte>)
    ensures JoinLines(lines + [line]) == JoinLines(lines) + line + [NEWLINE]
  {
    if lines != [] {
      assert (lines + [line])[1..] == lines[1..] + [line];
      JoinLinesSnoc(lines[1..], line);
    } else {
      assert [line][1..] == [];
    }
  }

  lemma SplitCons(a: seq<Byte>, b: seq<Byte>)
    requires NEWLINE !in a
    ensures Split(a + [NEWLINE] + b) == [a] + Split(b)
  {
    var s := a + [NEWLINE] + b;
    var i := FirstIndex(s, IsNewline);
    assert s[|a|] == NEWLINE;
    assert forall t :: 0 <= t < |a| ==> s[t] == a[t];
    assert i == |a|;
    assert s[..i] == a;
    assert s[i + 1..] == b;
  }

  /** Splitting the joined lines gives the lines back, plus the empty piece
      after the final line feed. */
  lemma {:induction false} SplitJoin(lines: seq<seq<Byte>>)
    requires forall t :: 0 <= t < |lines| ==> NEWLINE !in lines[t]
    ensures Split(JoinLines(lines)) == lines + [[]]
  {
    if lines != [] {
      SplitCons(lines[0], JoinLines(lines[1..]));
      SplitJoin(lines[1..]);
      assert lines == [lines[0]] + lines[1..];
    }
  }

  /** No byte of the cell layer is white space except the Empty cell's
      space, and none is a line feed. */
  lemma EncodeCellNotNewline(c: Cell)
    requires c.Owned? ==> c.k <= 9
    ensures EncodeCell(c) != NEWLINE
    ensures EncodeCell(c) == STAR <==> c == Border
  {
  }

  predicate ReadableRow(row: seq<Byte>)
  {
    NEWLINE !in row && StartsWithStar(row) && !IsWhitespace(row[|row| - 1])
  }

  lemma TrimRows(rows: seq<seq<Byte>>)
    requires forall t :: 0 <= t < |rows| ==> ReadableRow(rows[t])
    ensures MapSeq(rows + [[]], Trim) == rows + [[]]
  {
    var full := rows + [[]];
    var pieces := MapSeq(full, Trim);
    forall t | 0 <= t < |full|
      ensures pieces[t] == full[t]
    {
      if t < |rows| {
        var row := rows[t];
        assert full[t] == row && ReadableRow(row);
        TrimOfTrimmed(row);
      } else {
        assert full[t] == [];
        assert Trim([]) == [];
      }
    }
  }

  /** Star rows free of line feeds and of white space at their ends are
      exactly the rows `parse_string` reads back from their joined text. */
  lemma ReadBackRows(rows: seq<seq<Byte>>)
    requires forall t :: 0 <= t < |rows| ==> ReadableRow(rows[t])
    ensures Rows(JoinLines(rows)) == rows && RestLines(JoinLines(rows)) == []
  {
    var text := JoinLines(rows);
    SplitJoin(rows);
    TrimRows(rows);
    FilterSnocDropped(rows, [], NonEmpty);
    FilterAll(rows, NonEmpty);
    assert RawLines(text) == rows;
    FilterAll(rows, StartsWithStar);
    NoneKept(rows, NotStartsWithStar);
  }

  lemma NoneKept(rows: seq<seq<Byte>>, f: seq<Byte> -> bool)
    requires forall t :: 0 <= t < |rows| ==> !f(rows[t])
    ensures Filter(rows, f) == []
  {
  }

  /** One rendered row: twice as long as the field is wide, the cell byte at
      each even position and the body byte at each odd one. */
  lemma RenderedRowShape(a: seq<Byte>, b: seq<Byte>)
    requires |a| == |b| >= 1 && a[0] == STAR
    requires forall k :: 0 <= k < |a| ==> a[k] != NEWLINE && !IsWhitespace(b[k])
    ensures var row := Interleave(a, b);
      && |row| == 2 * |a|
      && (forall k :: 0 <= k < |a| ==> row[2 * k] == a[k] && row[2 * k + 1] == b[k])
      && ReadableRow(row)
  {
    var row := Interleave(a, b);
    InterleaveAt(a, b);
    forall t | 0 <= t < |row|
      ensures row[t] != NEWLINE
    {
      var k := t / 2;
      if t % 2 == 0 {
        assert t == 2 * k;
      } else {
        assert t == 2 * k + 1;
      }
    }
    assert row[0] == a[0];
    assert row[2 * (|a| - 1) + 1] == b[|a| - 1];
  }

  /** Rendering a field whose first column is Border, with any body layer
      free of white space, and reading the text back with the row split and
      the layer decoding of `parse_string` restores the field's size, its
      cells and the body layer, and leaves no metadata lines. */
  lemma GridRoundTrip(field: Field, layer1: seq<seq<Byte>>)
    requires field.Valid() && field.m >= 1 && field.n >= 1
    requires forall i :: 0 <= i < field.m ==> field.cells[i][0] == Border
    requires forall i, j :: 0 <= i < field.m && 0 <= j < field.n && field.cells[i][j].Owned? ==> field.cells[i][j].k <= 9
    requires IsMatrix(layer1, field.m, field.n)
    requires forall i, j :: 0 <= i < field.m && 0 <= j < field.n ==> !IsWhitespace(layer1[i][j])
    ensures var text := GridText(EncodeLayer0(field), layer1, field.m, field.n);
      && Rows(text) == RenderedRows(EncodeLayer0(field), layer1, field.m, field.n)
      && RestLines(text) == []
      && |Rows(text)| == field.m
      && Width(Rows(text)) == field.n
      && RowsCoverWidth(Rows(text), field.n)
      && DecodedCells(Layer(Rows(text), field.n, 0)) == field.cells
      && Layer(Rows(text), field.n, 1) == layer1
  {
    var m, n := field.m, field.n;
    var layer0 := EncodeLayer0(field);
    var rows := RenderedRows(layer0, layer1, m, n);
    forall i | 0 <= i < m
      ensures |rows[i]| == 2 * n
      ensures forall k :: 0 <= k < n ==> rows[i][2 * k] == layer0[i][k] && rows[i][2 * k + 1] == layer1[i][k]
      ensures ReadableRow(rows[i])
    {
      forall k | 0 <= k < n
        ensures layer0[i][k] != NEWLINE
      {
        EncodeCellNotNewline(field.cells[i][k]);
      }
      EncodeCellNotNewline(field.cells[i][0]);
      RenderedRowShape(layer0[i], layer1[i]);
    }
    ReadBackRows(rows);
    LayersOfRows(rows, layer0, layer1, m, n);
    DecodeEncodedLayer(field);
  }

  /** A renderable state whose grid text the parser reads back: at least
      one row and column, a Border first column, single-digit owners and
      at most 26 players. */
  predicate ReadableState(gs: GameState)
  {
    && Renderable(gs) && gs.field.m >= 1 && gs.field.n >= 1 && |gs.players| <= 26
    && (forall i :: 0 <= i < gs.field.m ==> gs.field.cells[i][0] == Border)
    && (forall i, j :: 0 <= i < gs.field.m && 0 <= j < gs.field.n && gs.field.cells[i][j].Owned? ==> gs.field.cells[i][j].k <= 9)
  }

  /** What `RenderGrid` writes for a state reads back: its rows are the
      board rows, with no metadata lines, giving the state's size, its
      cells and the painted body layer. This holds for a state with at most
      26 players, single-digit owners and a Border first column. */
  lemma RenderedStateReadsBack(gs: GameState)
    requires ReadableState(gs)
    ensures var m, n := gs.field.m, gs.field.n;
      var text := GridText(EncodeLayer0(gs.field), BodyLayer(gs), m, n);
      && RestLines(text) == []
      && |Rows(text)| == m && Width(Rows(text)) == n && RowsCoverWidth(Rows(text), n)
      && DecodedCells(Layer(Rows(text), n, 0)) == gs.field.cells
      && Layer(Rows(text), n, 1) == BodyLayer(gs)
  {
    var m, n := gs.field.m, gs.field.n;
    var layer1 := BodyLayer(gs);
    forall i, j | 0 <= i < m && 0 <= j < n
      ensures !IsWhitespace(layer1[i][j])
    {
      PaintPlayersLetters(m, n, gs.players, |gs.players|, i, j);
    }
    GridRoundTrip(gs.field, layer1);
  }

  /** Rows built by interleaving two layers have width `n` and split back
      into those layers. */
  lemma LayersOfRows(rows: seq<seq<Byte>>, layer0: seq<seq<Byte>>, layer1: seq<seq<Byte>>, m: nat, n: nat)
    requires IsMatrix(layer0, m, n) && IsMatrix(layer1, m, n) && |rows| == m >= 1
    requires forall i :: 0 <= i < m ==> |rows[i]| == 2 * n
    requires forall i :: 0 <= i < m ==> forall k :: 0 <= k < n ==>
      rows[i][2 * k] == layer0[i][k] && rows[i][2 * k + 1] == layer1[i][k]
    ensures Width(rows) == n && RowsCoverWidth(rows, n)
    ensures Layer(rows, n, 0) == layer0 && Layer(rows, n, 1) == layer1
  {
    var w :| 0 <= w < |rows| && |rows[w]| / 2 == Width(rows);
    assert |rows[w]| / 2 == n;
    assert forall i :: 0 <= i < m ==> Layer(rows, n, 0)[i] == layer0[i];
    assert forall i :: 0 <= i < m ==> Layer(rows, n, 1)[i] == layer1[i];
  }

  /** Decoding the rendered cell layer of a field whose owners are single
      digits gives its cells back. */
  lemma DecodeEncodedLayer(field: Field)
    requires field.Valid()
    requires forall i, j :: 0 <= i < field.m && 0 <= j < field.n && field.cells[i][j].Owned? ==> field.cells[i][j].k <= 9
    ensures DecodedCells(EncodeLayer0(field)) == field.cells
  {
    var layer0 := EncodeLayer0(field);
    forall i, j | 0 <= i < field.m && 0 <= j < field.n
      ensures DecodeCell(layer0[i][j]) == field.cells[i][j]
    {
      CellRoundTrip(field.cells[i][j]);
    }
    assert forall i :: 0 <= i < field.m ==> DecodedCells(layer0)[i] == field.cells[i];
  }

  /** A cell of the body layer is `.` exactly when no body passes through it;
      otherwise it holds a letter. */
  lemma {:induction false} PaintPlayersLetters(m: nat, n: nat, players: seq<Player>, count: nat, i: nat, j: nat)
    requires PlayersInside(players, m, n) && count <= |players| && |players| <= 26
    requires i < m && j < n
    ensures var b := PaintPlayers(m, n, players, count)[i][j];
      (b == DOT <==> forall k, l :: 0 <= k < count && 0 <= l < |players[k].body| ==> players[k].body[l] != Point(i, j))
      && (b != DOT ==> IsLetter(b))
  {
    if count > 0 {
      var k := count - 1;
      PaintPlayersLetters(m, n, players, k, i, j);
      PaintBodyLetters(PaintPlayers(m, n, players, k), m, n, players[k].body, UPPER_A + k, |players[k].body|, i, j);
    }
  }

  lemma {:induction false} PaintBodyLetters(layer: seq<seq<Byte>>, m: nat, n: nat, body: seq<Point>, ch: Byte, len: nat, i: nat, j: nat)
    requires IsMatrix(layer, m, n) && BodyInside(body, m, n) && len <= |body|
    requires UPPER_A <= ch <= UPPER_Z
    requires i < m && j < n
    requires layer[i][j] == DOT || IsLetter(layer[i][j])
    ensures var b := PaintBody(layer, m, n, body, ch, len)[i][j];
      (b == DOT <==> layer[i][j] == DOT && forall l :: 0 <= l < len ==> body[l] != Point(i, j))
      && (b != DOT ==> IsLetter(b))
  {
    if len > 0 {
      PaintBodyLetters(layer, m, n, body, ch, len - 1, i, j);
    }
  }
}
