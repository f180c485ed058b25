/** What `parse_string` (src/model.rs) guarantees about the state it
    builds: the shape of every player's body, the checks on the metadata
    and the defaults it falls back to. */
module BoardFacts {
  import opened Util
  import opened Model
  import opened BoardText
  import opened BodyWalk
  import opened BoardStats
  import opened BoardParse

  /** Player `k`'s body as parsed: empty exactly when the body layer has no
      capital `'A' + k`; otherwise it ends at that head, never repeats a
      point, steps between 4-adjacent cells, stays on the board, and every
      point but the head holds the lower-case `'a' + k` (model.rs:148-171). */
  lemma BodyOfMeaning(layer1: seq<seq<Byte>>, m: nat, n: nat, k: nat)
    requires IsMatrix(layer1, m, n) && k < 26
    ensures var b, h := BodyOf(layer1, m, n, k), Heads(layer1);
      && (b == [] <==> k !in h)
      && (k in h ==>
            && b[|b| - 1] == h[k] && Distinct(b) && Chain(b) && BodyInside(b, m, n)
            && forall q :: 0 <= q < |b| - 1 ==> layer1[b[q].i][b[q].j] == LOWER_A + k)
  {
    var h := Heads(layer1);
    if k in h {
      HeadOnBoard(layer1, m, n, k);
      var body := [h[k]];
      WalkKeepsBody(layer1, m, n, LOWER_A + k, body);
      WalkCells(layer1, m, n, LOWER_A + k, body);
      WalkDistinct(layer1, m, n, LOWER_A + k, body);
      WalkChain(layer1, m, n, LOWER_A + k, body);
    }
  }

  lemma {:induction false} LastReorderingFrom(es: seq<MetaEntry>, t: nat)
    requires t <= |es|
    ensures LastReorderingIn(es, t).Some? ==> exists u :: 0 <= u < t && es[u] == ReorderingEntry(LastReorderingIn(es, t).value)
  {
    if t > 0 && !es[t - 1].ReorderingEntry? {
      LastReorderingFrom(es, t - 1);
    }
  }

  lemma {:induction false} LastStatsFrom(es: seq<MetaEntry>, t: nat)
    requires t <= |es|
    ensures LastStatsIn(es, t).Some? ==> exists u :: 0 <= u < t && es[u] == StatsEntry(LastStatsIn(es, t).value)
  {
    if t > 0 && !es[t - 1].StatsEntry? {
      LastStatsFrom(es, t - 1);
    }
  }

  lemma {:induction false} LastOriginsFrom(es: seq<MetaEntry>, t: nat)
    requires t <= |es|
    ensures LastOriginsIn(es, t).Some? ==> exists u :: 0 <= u < t && es[u] == OriginsEntry(LastOriginsIn(es, t).value)
  {
    if t > 0 && !es[t - 1].OriginsEntry? {
      LastOriginsFrom(es, t - 1);
    }
  }

  /** An owner bound on every cell of the matrix holds for every cell of
      its rows laid end to end. */
  lemma {:induction false} FlattenOwnersBelow(cells: seq<seq<Cell>>, np: nat)
    requires forall i, j :: 0 <= i < |cells| && 0 <= j < |cells[i]| && cells[i][j].Owned? ==> cells[i][j].k < np
    ensures OwnersBelow(Flatten(cells), np)
  {
    if cells != [] {
      var init, row := cells[..|cells| - 1], cells[|cells| - 1];
      assert forall i :: 0 <= i < |init| ==> init[i] == cells[i];
      FlattenOwnersBelow(init, np);
      var a: seq<Cell> := Flatten(init);
      forall t | 0 <= t < |a + row| && (a + row)[t].Owned?
        ensures (a + row)[t].k < np
      {
        if t >= |a| {
          assert (a + row)[t] == row[t - |a|];
        }
      }
    }
  }

  /** The counted statistics: with every owner digit naming a player, the
      filled count is the number of Border cells plus the sum of the
      scores, one score per player (model.rs:180-195, 209-216). */
  lemma CountedStatsMeaning(field: Field, np: nat)
    requires field.Valid()
    requires forall i, j :: 0 <= i < field.m && 0 <= j < field.n && field.cells[i][j].Owned? ==> field.cells[i][j].k < np
    ensures var st := CountedStats(field.cells, np);
      && |st.scores| == np
      && st.filledCount == Count(Flatten(field.cells), BorderCell) + Sum(st.scores)
  {
    FlattenOwnersBelow(field.cells, np);
    FilledIsBorderPlusScores(Flatten(field.cells), np);
  }

  /** `parse_string` fails exactly when a metadata entry fails its check
      (model.rs:206, 238-241, 260-262, 284-286). */
  lemma ParseFails(text: seq<Byte>, readers: Readers)
    requires Parseable(text, readers)
    ensures var np, es := PlayerCount(text), Entries(RestLines(text), readers);
      Parse(text, readers).Err? <==> exists t :: 0 <= t < |es| && !Accepted(np, es[t])
  {
    assert Parse(text, readers).Err? <==> RestSpec(PlayerCount(text), RestLines(text), readers).Err?;
    RestFails(PlayerCount(text), RestLines(text), readers);
  }

  lemma RestFails(np: nat, rest: seq<seq<Byte>>, readers: Readers)
    ensures var es := Entries(rest, readers);
      RestSpec(np, rest, readers).Err? <==> exists t :: 0 <= t < |es| && !Accepted(np, es[t])
  {
    OutcomeFails(np, Entries(rest, readers));
  }

  /** The outcome for a list of entries fails exactly when one of them is
      rejected. */
  lemma OutcomeFails(np: nat, es: seq<MetaEntry>)
    ensures RestOutcome(np, es).Err? <==> exists t :: 0 <= t < |es| && !Accepted(np, es[t])
    ensures RestOutcome(np, es).Ok? ==> forall t :: 0 <= t < |es| ==> Accepted(np, es[t])
  {
  }

  /** What a successful `parse_string` returns (model.rs:84-219): the
      board's size, the walked bodies (one per player index, see
      `BodyOfMeaning`) and one name per player index, a reordering
      that is a permutation of the player indices, one origin and one score
      per player, and each metadata value it lacks replaced by its
      default. */
  lemma ParseMeaning(text: seq<Byte>, readers: Readers)
    requires Parseable(text, readers)
    ensures var m, n, np, es := Height(text), WidthOf(text), PlayerCount(text), Entries(RestLines(text), readers);
      var res := Parse(text, readers);
      res.Ok? ==>
        var gs := res.value;
        && gs.field.m == m && gs.field.n == n && gs.field.Valid()
        && gs.field.cells == DecodedCells(CellLayer(text))
        && gs.players == Bodies(BodyLayerOf(text), m, n, np)
        && |gs.playerNames| == np && (forall k :: 0 <= k < np ==> gs.playerNames[k] == PlayerName(k))
        && IsPermutation(gs.reordering, np)
        && |gs.origins| == np && |gs.stats.scores| == np
        && (LastReordering(es).Some? ==> gs.reordering == LastReordering(es).value)
        && (LastOrigins(es).Some? ==> gs.origins == LastOrigins(es).value)
        && (LastStats(es).Some? ==> gs.stats == LastStats(es).value)
        && (LastReordering(es).None? ==> gs.reordering == CreateDefaultPermutation(np))
        && (LastOrigins(es).None? ==> gs.origins == DefaultOrigins(m, n, np))
        && (LastStats(es).None? ==>
              && gs.stats == CountedStats(gs.field.cells, np)
              && gs.stats.filledCount == Count(Flatten(gs.field.cells), BorderCell) + Sum(gs.stats.scores))
  {
    var m, n, np, es := Height(text), WidthOf(text), PlayerCount(text), Entries(RestLines(text), readers);
    var triple := RestSpec(np, RestLines(text), readers);
    if triple.Ok? {
      OutcomeFails(np, es);
      AcceptedMetadata(np, es);
      var field := Field(m, n, DecodedCells(CellLayer(text)));
      var players := Bodies(BodyLayerOf(text), m, n, np);
      assert Parse(text, readers) == Ok(Assemble(field, players, np, triple.value));
      AssembleMeaning(field, players, np, triple.value);
    }
  }

  /** The state built from a board and checked metadata. */
  lemma AssembleMeaning(field: Field, players: seq<Player>, np: nat, triple: RestResult)
    requires np < 256 && field.Valid()
    requires forall i, j :: 0 <= i < field.m && 0 <= j < field.n && field.cells[i][j].Owned? ==> field.cells[i][j].k < np
    requires np >= 5 && triple.origins.None? ==> field.m + field.n >= 3 && 2 * (field.m + field.n) < 32768
    requires triple.reordering.Some? ==> IsPermutation(triple.reordering.value, np)
    requires triple.stats.Some? ==> |triple.stats.value.scores| == np
    requires triple.origins.Some? ==> |triple.origins.value| == np
    ensures var gs := Assemble(field, players, np, triple);
      && gs.field == field && gs.players == players
      && |gs.playerNames| == np && (forall k :: 0 <= k < np ==> gs.playerNames[k] == PlayerName(k))
      && IsPermutation(gs.reordering, np)
      && |gs.origins| == np && |gs.stats.scores| == np
      && (triple.reordering.Some? ==> gs.reordering == triple.reordering.value)
      && (triple.origins.Some? ==> gs.origins == triple.origins.value)
      && (triple.stats.Some? ==> gs.stats == triple.stats.value)
      && (triple.reordering.None? ==> gs.reordering == CreateDefaultPermutation(np))
      && (triple.origins.None? ==> gs.origins == DefaultOrigins(field.m, field.n, np))
      && (triple.stats.None? ==>
            && gs.stats == CountedStats(field.cells, np)
            && gs.stats.filledCount == Count(Flatten(field.cells), BorderCell) + Sum(gs.stats.scores))
  {
    if triple.reordering.None? {
      DefaultPermutationIsIdentity(np);
    }
    if triple.stats.None? {
      CountedStatsMeaning(field, np);
    }
  }

  /** When every metadata entry passes its check, the reordering the last
      one gives is a permutation of the player indices and the scores and
      origins have one entry per player. */
  lemma AcceptedMetadata(np: nat, es: seq<MetaEntry>)
    requires np < 256
    requires forall t :: 0 <= t < |es| ==> Accepted(np, es[t])
    ensures LastReordering(es).Some? ==> IsPermutation(LastReordering(es).value, np)
    ensures LastStats(es).Some? ==> |LastStats(es).value.scores| == np
    ensures LastOrigins(es).Some? ==> |LastOrigins(es).value| == np
  {
    LastReorderingFrom(es, |es|);
    LastStatsFrom(es, |es|);
    LastOriginsFrom(es, |es|);
    if LastReordering(es).Some? {
      var list := LastReordering(es).value;
      var t :| 0 <= t < |es| && es[t] == ReorderingEntry(list);
      assert Accepted(np, es[t]);
      ReorderingAccepted(np, list);
    }
    if LastStats(es).Some? {
      var t :| 0 <= t < |es| && es[t] == StatsEntry(LastStats(es).value);
      assert Accepted(np, es[t]);
    }
    if LastOrigins(es).Some? {
      var t :| 0 <= t < |es| && es[t] == OriginsEntry(LastOrigins(es).value);
      assert Accepted(np, es[t]);
    }
  }
}
