/** The statistics `parse_string` counts on the decoded field
    (src/model.rs): the number of filled cells and each player's score. */
module BoardStats {
  import opened Util
  import opened Model

  /** The cells row after row. */
  function Flatten(cells: seq<seq<Cell>>): (flat: seq<Cell>)
  {
    if cells == [] then [] else Flatten(cells[..|cells| - 1]) + cells[|cells| - 1]
  }

  /** The kinds of cell that are counted. */
  datatype Kind = Filled | BorderCell | OwnedBy(k: nat)

  predicate Matches(kind: Kind, c: Cell)
  {
    match kind
    case Filled => !c.Empty?
    case BorderCell => c.Border?
    case OwnedBy(k) => c.Owned? && c.k == k
  }

  /** How many cells of `s` are of kind `kind`. */
  function Count(s: seq<Cell>, kind: Kind): (c: nat)
    ensures c <= |s|
  {
    if s == [] then 0 else Count(s[..|s| - 1], kind) + (if Matches(kind, s[|s| - 1]) then 1 else 0)
  }

  lemma CountSnoc(s: seq<Cell>, x: Cell, kind: Kind)
    ensures Count(s + [x], kind) == Count(s, kind) + (if Matches(kind, x) then 1 else 0)
  {
    assert (s + [x])[..|s|] == s;
  }

  /** Each player's score: the cells the player owns. */
  function Scores(flat: seq<Cell>, np: nat): (scores: seq<nat>)
    ensures |scores| == np
  {
    seq(np, k requires 0 <= k < np => Count(flat, OwnedBy(k)))
  }

  /** One more cell adds one to its owner's score and leaves the other
      scores alone. */
  lemma ScoresSnoc(s: seq<Cell>, x: Cell, np: nat)
    ensures Scores(s + [x], np) == if x.Owned? && x.k < np then Scores(s, np)[x.k := Scores(s, np)[x.k] + 1] else Scores(s, np)
  {
    forall k | 0 <= k < np
      ensures Count(s + [x], OwnedBy(k)) == Count(s, OwnedBy(k)) + (if Matches(OwnedBy(k), x) then 1 else 0)
    {
      CountSnoc(s, x, OwnedBy(k));
    }
  }

  /** Every owner digit names one of the `np` players; otherwise
      `scores[k as usize]` is out of bounds. */
  predicate OwnersBelow(flat: seq<Cell>, np: nat)
  {
    forall t :: 0 <= t < |flat| && flat[t].Owned? ==> flat[t].k < np
  }

  /** The counting loop of `parse_string` (model.rs:180-195). */
  method CountStats(field: Field, np: nat) returns (filledCount: nat, scores: seq<nat>)
    requires field.Valid()
    requires forall i, j :: 0 <= i < field.m && 0 <= j < field.n && field.cells[i][j].Owned? ==> field.cells[i][j].k < np
    ensures filledCount == Count(Flatten(field.cells), Filled)
    ensures scores == Scores(Flatten(field.cells), np)
  {
    var cells := field.cells;
    filledCount := 0;
    scores := seq(np, _ => 0);
    assert scores == Scores([], np);
    for i := 0 to field.m
      invariant filledCount == Count(Flatten(cells[..i]), Filled)
      invariant scores == Scores(Flatten(cells[..i]), np)
    {
      ghost var before := Flatten(cells[..i]);
      filledCount, scores := CountRow(before, cells[i], np, filledCount, scores);
      assert cells[..i + 1][..i] == cells[..i];
    }
    assert cells[..field.m] == cells;
  }

  /** The inner loop of model.rs:181-194 over one row, continuing the
      counts of the cells `before` it. */
  method CountRow(ghost before: seq<Cell>, row: seq<Cell>, np: nat, filled0: nat, scores0: seq<nat>)
    returns (filledCount: nat, scores: seq<nat>)
    requires forall j :: 0 <= j < |row| && row[j].Owned? ==> row[j].k < np
    requires filled0 == Count(before, Filled) && scores0 == Scores(before, np)
    ensures filledCount == Count(before + row, Filled)
    ensures scores == Scores(before + row, np)
  {
    filledCount, scores := filled0, scores0;
    assert before + row[..0] == before;
    for j := 0 to |row|
      invariant filledCount == Count(before + row[..j], Filled)
      invariant scores == Scores(before + row[..j], np)
    {
      ghost var seen := before + row[..j];
      assert before + row[..j + 1] == seen + [row[j]];
      CountSnoc(seen, row[j], Filled);
      ScoresSnoc(seen, row[j], np);
      match row[j]
      case Empty =>
      case Border =>
        filledCount := filledCount + 1;
      case Owned(k) =>
        filledCount := filledCount + 1;
        scores := scores[k := scores[k] + 1];
    }
    assert row[..|row|] == row;
  }

  function Sum(xs: seq<nat>): nat
  {
    if xs == [] then 0 else Sum(xs[..|xs| - 1]) + xs[|xs| - 1]
  }

  lemma {:induction false} SumIncrement(xs: seq<nat>, k: nat)
    requires k < |xs|
    ensures Sum(xs[k := xs[k] + 1]) == Sum(xs) + 1
  {
    var ys := xs[k := xs[k] + 1];
    if k < |xs| - 1 {
      assert ys[..|ys| - 1] == xs[..|xs| - 1][k := xs[k] + 1];
      SumIncrement(xs[..|xs| - 1], k);
    } else {
      assert ys[..|ys| - 1] == xs[..|xs| - 1];
    }
  }

  /** When every owner is one of the `np` players, each filled cell is a
      Border cell or counts towards exactly one score: the filled count is
      the number of Border cells plus the sum of the scores. */
  lemma {:induction false} FilledIsBorderPlusScores(flat: seq<Cell>, np: nat)
    requires OwnersBelow(flat, np)
    ensures Count(flat, Filled) == Count(flat, BorderCell) + Sum(Scores(flat, np))
  {
    if flat != [] {
      var init, x := flat[..|flat| - 1], flat[|flat| - 1];
      assert flat == init + [x];
      FilledIsBorderPlusScores(init, np);
      CountSnoc(init, x, Filled);
      CountSnoc(init, x, BorderCell);
      ScoresSnoc(init, x, np);
      assert Count(flat, Filled) == Count(init, Filled) + (if x.Empty? then 0 else 1);
      assert Count(flat, BorderCell) == Count(init, BorderCell) + (if x.Border? then 1 else 0);
      if x.Owned? {
        assert x.k < np;
        SumIncrement(Scores(init, np), x.k);
      }
    } else {
      SumZeros(Scores(flat, np));
    }
  }

  lemma {:induction false} SumZeros(xs: seq<nat>)
    requires forall t :: 0 <= t < |xs| ==> xs[t] == 0
    ensures Sum(xs) == 0
  {
    if xs != [] {
      SumZeros(xs[..|xs| - 1]);
    }
  }
}
