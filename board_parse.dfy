/** `GameState::parse_string` and `GameState::parse_string_rest`
    (src/model.rs): the text of a board is split into star rows and
    metadata lines, the rows into a cell layer and a body layer, the body
    layer gives each player's head and body, and the metadata lines may
    override the reordering, the origins and the statistics. */
module BoardParse {
  import opened Util
  import opened Model
  import opened BoardText
  import opened BodyWalk
  import opened BoardStats

  // ---------------------------------------------------------------------
  // Heads
  // ---------------------------------------------------------------------

  /** Row `i` of the body layer scanned up to column `j`: every capital
      letter overwrites the entry of its player (model.rs:118-126). */
  function ScanRow(heads: map<nat, Point>, row: seq<Byte>, i: nat, j: nat): map<nat, Point>
    requires j <= |row|
  {
    if j == 0 then heads
    else
      var h := ScanRow(heads, row, i, j - 1);
      if IsUpper(row[j - 1]) then h[row[j - 1] - UPPER_A := Point(i, j - 1)] else h
  }

  /** The first `i` rows scanned. */
  function ScanRows(layer1: seq<seq<Byte>>, i: nat): map<nat, Point>
    requires i <= |layer1|
  {
    if i == 0 then map[] else ScanRow(ScanRows(layer1, i - 1), layer1[i - 1], i - 1, |layer1[i - 1]|)
  }

  function Heads(layer1: seq<seq<Byte>>): map<nat, Point>
  {
    ScanRows(layer1, |layer1|)
  }

  /** The nested loop at model.rs:118-126. */
  method FindHeads(layer1: seq<seq<Byte>>, m: nat, n: nat) returns (heads: map<nat, Point>)
    requires IsMatrix(layer1, m, n)
    ensures heads == Heads(layer1)
  {
    heads := map[];
    for i := 0 to m
      invariant heads == ScanRows(layer1, i)
    {
      for j := 0 to n
        invariant heads == ScanRow(ScanRows(layer1, i), layer1[i], i, j)
      {
        var c := layer1[i][j];
        if IsUpper(c) {
          heads := heads[c - UPPER_A := Point(i, j)];
        }
      }
    }
  }

  /** `(a, b)` does not come after `p` in row-major order. */
  predicate NotAfter(a: int, b: int, p: Point)
  {
    a < p.i || (a == p.i && b <= p.j)
  }

  /** The last column below `j` of `row` holding `c`. */
  function LastIndex(row: seq<Byte>, j: nat, c: int): (r: Option<nat>)
    requires j <= |row|
    ensures r.Some? ==> r.value < j && row[r.value] == c && forall b :: r.value < b < j ==> row[b] != c
    ensures r.None? ==> forall b :: 0 <= b < j ==> row[b] != c
  {
    if j == 0 then None else if row[j - 1] == c then Some(j - 1) else LastIndex(row, j - 1, c)
  }

  /** The last row below `i` holding `c`. */
  function LastRow(layer1: seq<seq<Byte>>, i: nat, c: int): (r: Option<nat>)
    requires i <= |layer1|
    ensures r.Some? ==> r.value < i && c in layer1[r.value] && forall a :: r.value < a < i ==> c !in layer1[a]
    ensures r.None? ==> forall a :: 0 <= a < i ==> c !in layer1[a]
  {
    if i == 0 then None else if c in layer1[i - 1] then Some(i - 1) else LastRow(layer1, i - 1, c)
  }

  /** The entry the row scan leaves for player `k`: the last capital
      `'A' + k` of the scanned part of the row, or the old entry. */
  lemma {:induction false} ScanRowKey(h: map<nat, Point>, row: seq<Byte>, i: nat, j: nat, k: nat)
    requires j <= |row|
    ensures var r := ScanRow(h, row, i, j);
      match LastIndex(row, j, UPPER_A + k)
      case Some(b) => k < 26 ==> k in r && r[k] == Point(i, b)
      case None => (k in r <==> k in h) && (k in h ==> r[k] == h[k])
    ensures k >= 26 ==> (k in ScanRow(h, row, i, j) <==> k in h)
  {
    if j > 0 {
      ScanRowKey(h, row, i, j - 1, k);
    }
  }

  /** The entry the whole scan leaves for player `k`. */
  lemma {:induction false} ScanRowsKey(layer1: seq<seq<Byte>>, i: nat, k: nat)
    requires i <= |layer1|
    ensures var r := ScanRows(layer1, i);
      match LastRow(layer1, i, UPPER_A + k)
      case Some(a) => k < 26 ==> k in r && r[k] == Point(a, LastIndex(layer1[a], |layer1[a]|, UPPER_A + k).value)
      case None => k !in r
    ensures k >= 26 ==> k !in ScanRows(layer1, i)
  {
    if i > 0 {
      var row := layer1[i - 1];
      ScanRowsKey(layer1, i - 1, k);
      ScanRowKey(ScanRows(layer1, i - 1), row, i - 1, |row|, k);
      if UPPER_A + k in row {
        var t :| 0 <= t < |row| && row[t] == UPPER_A + k;
        assert LastIndex(row, |row|, UPPER_A + k).Some?;
      }
    }
  }

  /** What the scan finds (model.rs:118-126): every key is a player
      index below 26 whose entry is on the board and holds the capital
      letter of that player, the last one in row-major order; and every
      capital letter on the board has an entry. */
  lemma HeadsMeaning(layer1: seq<seq<Byte>>, m: nat, n: nat)
    requires IsMatrix(layer1, m, n)
    ensures var h := Heads(layer1);
      && (forall k :: k in h ==>
            && k < 26 && 0 <= h[k].i < m && 0 <= h[k].j < n
            && layer1[h[k].i][h[k].j] == UPPER_A + k
            && forall a, b :: 0 <= a < m && 0 <= b < n && layer1[a][b] == UPPER_A + k ==> NotAfter(a, b, h[k]))
      && (forall a, b :: 0 <= a < m && 0 <= b < n && IsUpper(layer1[a][b]) ==> layer1[a][b] - UPPER_A in h)
  {
    var h := Heads(layer1);
    forall k | k in h
      ensures k < 26 && 0 <= h[k].i < m && 0 <= h[k].j < n
      ensures layer1[h[k].i][h[k].j] == UPPER_A + k
      ensures forall a, b :: 0 <= a < m && 0 <= b < n && layer1[a][b] == UPPER_A + k ==> NotAfter(a, b, h[k])
    {
      ScanRowsKey(layer1, m, k);
      var a := LastRow(layer1, m, UPPER_A + k).value;
      var t :| 0 <= t < n && layer1[a][t] == UPPER_A + k;
      assert LastIndex(layer1[a], n, UPPER_A + k).Some?;
      forall a', b' | 0 <= a' < m && 0 <= b' < n && layer1[a'][b'] == UPPER_A + k
        ensures NotAfter(a', b', h[k])
      {
        assert UPPER_A + k in layer1[a'];
      }
    }
    forall a, b | 0 <= a < m && 0 <= b < n && IsUpper(layer1[a][b])
      ensures layer1[a][b] - UPPER_A in h
    {
      var k := layer1[a][b] - UPPER_A;
      ScanRowsKey(layer1, m, k);
      assert UPPER_A + k in layer1[a];
    }
  }

  /** One more than the largest key (`keys().max()`, model.rs:127-131),
      0 for no keys, looking only below `c`. */
  function KeyBoundBelow(heads: map<nat, Point>, c: nat): (r: nat)
    requires forall k :: k in heads ==> k < c
    ensures forall k :: k in heads ==> k < r
    ensures r > 0 ==> r - 1 in heads
    ensures r <= c
  {
    if c == 0 then 0 else if c - 1 in heads then c else KeyBoundBelow(heads, c - 1)
  }

  /** The number of players: every index up to the largest head's gets an
      entry, so it is one more than the largest key. */
  function NumPlayers(heads: map<nat, Point>): (np: nat)
    requires forall k :: k in heads ==> k < 26
    ensures np <= 26
  {
    KeyBoundBelow(heads, 26)
  }

  // ---------------------------------------------------------------------
  // Metadata lines (parse_string_rest)
  // ---------------------------------------------------------------------

  const EQUALS: Byte := 61
  /** `"reordering"` */
  const REORDERING_KEY: seq<Byte> := [114, 101, 111, 114, 100, 101, 114, 105, 110, 103]
  /** `"stats"` */
  const STATS_KEY: seq<Byte> := [115, 116, 97, 116, 115]
  /** `"origins"` */
  const ORIGINS_KEY: seq<Byte> := [111, 114, 105, 103, 105, 110, 115]

  predicate IsEquals(b: Byte) { b == EQUALS }

  /** `split("=")` yields a second piece, so the second `unwrap` succeeds. */
  predicate HasEquals(s: seq<Byte>)
  {
    FirstIndex(s, IsEquals) < |s|
  }

  /** The first piece of `split("=")`, trimmed. */
  function KeyOf(s: seq<Byte>): (l: seq<Byte>)
  {
    Trim(s[..FirstIndex(s, IsEquals)])
  }

  /** The second piece of `split("=")`, trimmed. */
  function ValueOf(s: seq<Byte>): (r: seq<Byte>)
    requires HasEquals(s)
  {
    var after := s[FirstIndex(s, IsEquals) + 1..];
    Trim(after[..FirstIndex(after, IsEquals)])
  }

  /** What the regular expressions and number parsers make of a right-hand
      side: `None` when the bracket pattern does not match. */
  datatype Readers = Readers(
    reordering: seq<Byte> -> Option<seq<Byte>>,
    stats: seq<Byte> -> Option<Stats>,
    origins: seq<Byte> -> Option<seq<Point>>)

  datatype MetaEntry =
    | ReorderingEntry(order: seq<Byte>)
    | StatsEntry(stats: Stats)
    | OriginsEntry(points: seq<Point>)
    | Ignored
      /** A line without `=`: the second `unwrap` of model.rs:228 panics
          when the scan reaches it. */
    | Malformed

  /** What one metadata line contributes (model.rs:226-287). */
  function ReadEntry(s: seq<Byte>, readers: Readers): (e: MetaEntry)
  {
    if !HasEquals(s) then Malformed
    else
    var l, r := KeyOf(s), ValueOf(s);
    if l == REORDERING_KEY then
      match readers.reordering(r)
      case Some(list) => ReorderingEntry(list)
      case None => Ignored
    else if l == STATS_KEY then
      match readers.stats(r)
      case Some(st) => StatsEntry(st)
      case None => Ignored
    else if l == ORIGINS_KEY then
      match readers.origins(r)
      case Some(list) => OriginsEntry(list)
      case None => Ignored
    else Ignored
  }

  /** How one metadata line is read under `readers`. */
  function LineReader(readers: Readers): seq<Byte> -> MetaEntry
  {
    s => ReadEntry(s, readers)
  }

  /** What `read` makes of each line, in order. */
  function ReadAll(lines: seq<seq<Byte>>, read: seq<Byte> -> MetaEntry): (es: seq<MetaEntry>)
    ensures |es| == |lines|
  {
    seq(|lines|, t requires 0 <= t < |lines| => read(lines[t]))
  }

  /** The entries of the metadata lines, in order. */
  function Entries(rest: seq<seq<Byte>>, readers: Readers): (es: seq<MetaEntry>)
    ensures |es| == |rest|
  {
    ReadAll(rest, LineReader(readers))
  }

  /** The checks of model.rs:238-242, 260-262 and 280-282: a reordering has
      `np` entries and holds every index below `np as u8`; scores and
      origins have `np` entries. */
  predicate Accepted(np: nat, e: MetaEntry)
  {
    match e
    case ReorderingEntry(list) => |list| == np && forall x :: 0 <= x < np % 256 ==> x in list
    case StatsEntry(st) => |st.scores| == np
    case OriginsEntry(list) => |list| == np
    case Ignored => true
    case Malformed => false
  }

  /** The scan of model.rs:225-290 never reaches a line without `=`: each
      such line comes after a rejected entry, whose `return Err` ends the
      scan first. */
  predicate PanicFree(np: nat, es: seq<MetaEntry>)
  {
    forall t :: 0 <= t < |es| && es[t].Malformed? ==> exists u :: 0 <= u < t && !Accepted(np, es[u])
  }

  /** The order given by the last reordering entry among the first `t`. */
  function LastReorderingIn(es: seq<MetaEntry>, t: nat): Option<seq<Byte>>
    requires t <= |es|
  {
    if t == 0 then None
    else if es[t - 1].ReorderingEntry? then Some(es[t - 1].order)
    else LastReorderingIn(es, t - 1)
  }

  /** The statistics given by the last stats entry among the first `t`. */
  function LastStatsIn(es: seq<MetaEntry>, t: nat): Option<Stats>
    requires t <= |es|
  {
    if t == 0 then None
    else if es[t - 1].StatsEntry? then Some(es[t - 1].stats)
    else LastStatsIn(es, t - 1)
  }

  /** The points given by the last origins entry among the first `t`. */
  function LastOriginsIn(es: seq<MetaEntry>, t: nat): Option<seq<Point>>
    requires t <= |es|
  {
    if t == 0 then None
    else if es[t - 1].OriginsEntry? then Some(es[t - 1].points)
    else LastOriginsIn(es, t - 1)
  }

  function LastReordering(es: seq<MetaEntry>): Option<seq<Byte>>
  {
    LastReorderingIn(es, |es|)
  }

  function LastStats(es: seq<MetaEntry>): Option<Stats>
  {
    LastStatsIn(es, |es|)
  }

  function LastOrigins(es: seq<MetaEntry>): Option<seq<Point>>
  {
    LastOriginsIn(es, |es|)
  }

  datatype ParseError = ParseError

  datatype RestResult = RestResult(reordering: Option<seq<Byte>>, origins: Option<seq<Point>>, stats: Option<Stats>)

  /** The outcome `parse_string_rest` promises. */
  function RestSpec(np: nat, rest: seq<seq<Byte>>, readers: Readers): Result<RestResult, ParseError>
  {
    RestOutcome(np, Entries(rest, readers))
  }

  /** The outcome for the entries `es`: a failure when one of them is
      rejected, otherwise the last value of each kind. */
  function RestOutcome(np: nat, es: seq<MetaEntry>): Result<RestResult, ParseError>
  {
    if exists t :: 0 <= t < |es| && !Accepted(np, es[t]) then Err(ParseError)
    else Ok(RestResult(LastReordering(es), LastOrigins(es), LastStats(es)))
  }

  /** The first `t` entries are all accepted. */
  ghost predicate AllAccepted(np: nat, es: seq<MetaEntry>, t: nat)
    requires t <= |es|
  {
    t == 0 || (AllAccepted(np, es, t - 1) && Accepted(np, es[t - 1]))
  }

  lemma {:induction false} AllAcceptedMeaning(np: nat, es: seq<MetaEntry>, t: nat)
    requires t <= |es|
    ensures AllAccepted(np, es, t) <==> forall u :: 0 <= u < t ==> Accepted(np, es[u])
  {
    if t > 0 {
      AllAcceptedMeaning(np, es, t - 1);
    }
  }

  /** The length and presence checks of model.rs:238-241, 260-262 and
      280-282 on one entry. */
  method CheckEntry(np: nat, e: MetaEntry) returns (ok: bool)
    ensures ok <==> Accepted(np, e)
  {
    match e
    case ReorderingEntry(list) =>
      var allPresent := forall x :: 0 <= x < np % 256 ==> x in list;
      ok := |list| == np && allPresent;
    case StatsEntry(st) =>
      ok := |st.scores| == np;
    case OriginsEntry(list) =>
      ok := |list| == np;
    case Ignored =>
      ok := true;
    case Malformed =>
      // where the source panics; `PanicFree` keeps the scan from here
      ok := false;
  }

  /** model.rs:221-292: the metadata lines in order, failing at the first
      entry that does not fit `np` players; a later entry of a kind
      replaces an earlier one. */
  method ParseStringRest(np: nat, rest: seq<seq<Byte>>, readers: Readers) returns (r: Result<RestResult, ParseError>)
    requires PanicFree(np, Entries(rest, readers))
    ensures r == RestSpec(np, rest, readers)
    ensures var es := Entries(rest, readers);
      && (r.Err? <==> exists t :: 0 <= t < |es| && !Accepted(np, es[t]))
      && (r.Ok? ==> r.value == RestResult(LastReordering(es), LastOrigins(es), LastStats(es)))
  {
    r := ScanMetadata(np, rest, LineReader(readers));
  }

  /** The loop of model.rs:225-290 with each line read by `read`. */
  method ScanMetadata(np: nat, lines: seq<seq<Byte>>, read: seq<Byte> -> MetaEntry) returns (r: Result<RestResult, ParseError>)
    ensures r == RestOutcome(np, ReadAll(lines, read))
  {
    ghost var es := ReadAll(lines, read);
    var reordering: Option<seq<Byte>> := None;
    var origins: Option<seq<Point>> := None;
    var stats: Option<Stats> := None;
    for t := 0 to |lines|
      invariant AllAccepted(np, es, t)
      invariant reordering == LastReorderingIn(es, t)
      invariant origins == LastOriginsIn(es, t)
      invariant stats == LastStatsIn(es, t)
    {
      var ok;
      ok, reordering, origins, stats := RestStep(np, lines, read, t, reordering, origins, stats);
      if !ok {
        assert 0 <= t < |lines| && !Accepted(np, es[t]);
        return Err(ParseError);
      }
    }
    AllAcceptedMeaning(np, es, |lines|);
    return Ok(RestResult(reordering, origins, stats));
  }

  /** One pass of the loop of model.rs:225-290: read metadata line `t`,
      check its entry, and keep its value. */
  method RestStep(np: nat, lines: seq<seq<Byte>>, read: seq<Byte> -> MetaEntry, t: nat,
                  reordering: Option<seq<Byte>>, origins: Option<seq<Point>>, stats: Option<Stats>)
    returns (ok: bool, reordering': Option<seq<Byte>>, origins': Option<seq<Point>>, stats': Option<Stats>)
    requires t < |lines|
    requires var es := ReadAll(lines, read);
      reordering == LastReorderingIn(es, t) && origins == LastOriginsIn(es, t) && stats == LastStatsIn(es, t)
    ensures var es := ReadAll(lines, read);
      && (ok <==> Accepted(np, es[t]))
      && reordering' == LastReorderingIn(es, t + 1)
      && origins' == LastOriginsIn(es, t + 1)
      && stats' == LastStatsIn(es, t + 1)
  {
    var e := read(lines[t]);
    ok := CheckEntry(np, e);
    reordering', origins', stats' := Keep(e, reordering, origins, stats);
  }

  /** The assignments of model.rs:242, 263 and 287: an entry replaces the
      value of its own kind and leaves the other two alone. */
  method Keep(e: MetaEntry, reordering: Option<seq<Byte>>, origins: Option<seq<Point>>, stats: Option<Stats>)
    returns (reordering': Option<seq<Byte>>, origins': Option<seq<Point>>, stats': Option<Stats>)
    ensures reordering' == if e.ReorderingEntry? then Some(e.order) else reordering
    ensures origins' == if e.OriginsEntry? then Some(e.points) else origins
    ensures stats' == if e.StatsEntry? then Some(e.stats) else stats
  {
    reordering', origins', stats' := reordering, origins, stats;
    match e
    case ReorderingEntry(list) =>
      reordering' := Some(list);
    case StatsEntry(st) =>
      stats' := Some(st);
    case OriginsEntry(list) =>
      origins' := Some(list);
    case Ignored =>
    case Malformed =>
  }

  /** For fewer than 256 players an accepted reordering is a permutation of
      the player indices: all of them, each once, and nothing else; and
      every such permutation is accepted. */
  lemma ReorderingAccepted(np: nat, list: seq<Byte>)
    requires np < 256
    ensures Accepted(np, ReorderingEntry(list)) <==> IsPermutation(list, np)
    ensures Accepted(np, ReorderingEntry(list)) ==>
      Distinct(list) && forall q :: 0 <= q < np ==> 0 <= list[q] < np
  {
    if Accepted(np, ReorderingEntry(list)) {
      var ints: seq<int> := list;
      CoveringSeqIsPermutation(ints, np);
    }
  }

  // ---------------------------------------------------------------------
  // The whole parse
  // ---------------------------------------------------------------------

  predicate IsDigits(s: string)
  {
    forall t :: 0 <= t < |s| ==> '0' <= s[t] <= '9'
  }

  /** The decimal digits of `k` (`format!("{}", k)`). */
  function Decimal(k: nat): (s: string)
    ensures |s| >= 1 && IsDigits(s)
  {
    var d := ('0' as int + k % 10) as char;
    if k < 10 then [d] else Decimal(k / 10) + [d]
  }

  /** The number a string of decimal digits spells, most significant
      digit first. */
  function DigitsValue(s: string): nat
    requires IsDigits(s)
  {
    if s == [] then 0 else DigitsValue(s[..|s| - 1]) * 10 + (s[|s| - 1] as int - '0' as int)
  }

  /** `Decimal(k)` spells `k`, without leading zeros. */
  lemma {:induction false} DecimalValue(k: nat)
    ensures DigitsValue(Decimal(k)) == k
    ensures |Decimal(k)| > 1 ==> Decimal(k)[0] != '0'
  {
    var s := Decimal(k);
    if k < 10 {
      assert s[..0] == [];
    } else {
      var p := Decimal(k / 10);
      DecimalValue(k / 10);
      assert s[..|s| - 1] == p;
      assert s[0] == p[0];
      if |p| == 1 {
        assert p[..0] == [];
      }
    }
  }

  /** `format!("player-{}", k)` (model.rs:217). */
  function PlayerName(k: nat): string
  {
    "player-" + Decimal(k)
  }

  /** The names of players `0` to `np - 1` (model.rs:217). */
  function PlayerNames(np: nat): (names: seq<string>)
    ensures |names| == np && forall k :: 0 <= k < np ==> names[k] == PlayerName(k)
  {
    seq(np, (k: nat) requires k < np => PlayerName(k))
  }

  /** Different players get different names. */
  lemma PlayerNamesDistinct(a: nat, b: nat)
    ensures PlayerName(a) == PlayerName(b) ==> a == b
  {
    if PlayerName(a) == PlayerName(b) {
      assert Decimal(a) == PlayerName(a)[7..] == PlayerName(b)[7..] == Decimal(b);
      DecimalValue(a);
      DecimalValue(b);
    }
  }

  /** The number of rows and the width `parse_string` finds in `text`. */
  function Height(text: seq<Byte>): nat
  {
    |Rows(text)|
  }

  function WidthOf(text: seq<Byte>): nat
  {
    Width(Rows(text))
  }

  /** The cell layer and the body layer of the rows. */
  function CellLayer(text: seq<Byte>): (layer0: seq<seq<Byte>>)
    requires RowsCoverWidth(Rows(text), WidthOf(text))
    ensures IsMatrix(layer0, Height(text), WidthOf(text))
  {
    Layer(Rows(text), WidthOf(text), 0)
  }

  function BodyLayerOf(text: seq<Byte>): (layer1: seq<seq<Byte>>)
    requires RowsCoverWidth(Rows(text), WidthOf(text))
    ensures IsMatrix(layer1, Height(text), WidthOf(text))
  {
    Layer(Rows(text), WidthOf(text), 1)
  }

  /** The number of players: one more than the largest head's index. */
  function PlayerCount(text: seq<Byte>): (np: nat)
    requires RowsCoverWidth(Rows(text), WidthOf(text))
    ensures np <= 26
  {
    HeadsMeaning(BodyLayerOf(text), Height(text), WidthOf(text));
    NumPlayers(Heads(BodyLayerOf(text)))
  }

  /** What `parse_string` needs of its text to finish without a panic: rows
      at least `2 * n` bytes long (`cs[j]`), board coordinates and counts
      that fit the `i16` and `u16` fields, owner digits that name a player
      (`scores[k as usize]`), a `=` on every metadata line the scan reaches
      (the second `unwrap`), and, when the metadata is accepted and the
      default origins of five or more players are needed, no perimeter walk
      on a 1×1 board (a remainder by 0). */
  predicate Parseable(text: seq<Byte>, readers: Readers)
  {
    var m, n := Height(text), WidthOf(text);
    && RowsCoverWidth(Rows(text), n)
    && 2 * (m + n) < 32768 && m * n < 65536
    && var cells := DecodedCells(CellLayer(text));
       var np := PlayerCount(text);
       var es := Entries(RestLines(text), readers);
       && (forall i, j :: 0 <= i < m && 0 <= j < n && cells[i][j].Owned? ==> cells[i][j].k < np)
       && PanicFree(np, es)
       && (np >= 5 && RestOutcome(np, es).Ok? && LastOrigins(es) == None ==> m + n >= 3)
  }

  /** The bodies: player `k`'s is the walk from its head with tail letter
      `'a' + k`, or empty when the text has no head for `k`. */
  function Bodies(layer1: seq<seq<Byte>>, m: nat, n: nat, np: nat): (players: seq<Player>)
    requires IsMatrix(layer1, m, n) && np <= 26
    ensures |players| == np
  {
    seq(np, k requires 0 <= k < np => Player(BodyOf(layer1, m, n, k)))
  }

  function BodyOf(layer1: seq<seq<Byte>>, m: nat, n: nat, k: nat): seq<Point>
    requires IsMatrix(layer1, m, n) && k < 26
  {
    var heads := Heads(layer1);
    if k in heads then
      HeadOnBoard(layer1, m, n, k);
      Walk(layer1, m, n, LOWER_A + k, [heads[k]], heads[k])
    else []
  }

  lemma HeadOnBoard(layer1: seq<seq<Byte>>, m: nat, n: nat, k: nat)
    requires IsMatrix(layer1, m, n) && k in Heads(layer1)
    ensures 0 <= Heads(layer1)[k].i < m && 0 <= Heads(layer1)[k].j < n && m >= 1 && n >= 1
  {
    HeadsMeaning(layer1, m, n);
  }

  /** The statistics counted on the field when the text carries none. */
  function CountedStats(cells: seq<seq<Cell>>, np: nat): Stats
  {
    var flat := Flatten(cells);
    Stats(0, Count(flat, Filled), 0, 0, 0, Scores(flat, np))
  }

  /** The state built from the board and the metadata: each metadata value
      when present, otherwise its default (model.rs:196-218). */
  function Assemble(field: Field, players: seq<Player>, np: nat, triple: RestResult): (gs: GameState)
    requires np <= 256
    requires np >= 5 && triple.origins.None? ==> field.m + field.n >= 3 && 2 * (field.m + field.n) < 32768
  {
    GameState(
      field,
      players,
      PlayerNames(np),
      if triple.origins.Some? then triple.origins.value else DefaultOrigins(field.m, field.n, np),
      if triple.stats.Some? then triple.stats.value else CountedStats(field.cells, np),
      if triple.reordering.Some? then triple.reordering.value else CreateDefaultPermutation(np))
  }

  /** What `parse_string` returns (model.rs:84-219). */
  function Parse(text: seq<Byte>, readers: Readers): Result<GameState, ParseError>
    requires Parseable(text, readers)
  {
    var m, n, np := Height(text), WidthOf(text), PlayerCount(text);
    match RestSpec(np, RestLines(text), readers)
    case Err(e) => Err(e)
    case Ok(triple) =>
      Ok(Assemble(Field(m, n, DecodedCells(CellLayer(text))), Bodies(BodyLayerOf(text), m, n, np), np, triple))
  }

  /** Reads the board part of the text: the rows, their two layers, the
      heads and the number of players (model.rs:89-131). */
  method ReadBoard(text: seq<Byte>) returns (m: nat, n: nat, layer0: seq<seq<Byte>>, layer1: seq<seq<Byte>>,
                                             heads: map<nat, Point>, np: nat, rest: seq<seq<Byte>>)
    requires RowsCoverWidth(Rows(text), WidthOf(text))
    ensures m == Height(text) && n == WidthOf(text) && rest == RestLines(text)
    ensures layer0 == CellLayer(text) && layer1 == BodyLayerOf(text)
    ensures heads == Heads(layer1) && np == PlayerCount(text)
  {
    var lines;
    lines, rest := SplitRows(RawLines(text));
    m := |lines|;
    n := Width(lines);
    layer0, layer1 := DecodeLayers(lines, n);
    HeadsMeaning(layer1, m, n);
    heads := FindHeads(layer1, m, n);
    np := NumPlayers(heads);
  }

  /** Builds every player's body (model.rs:146-178). */
  method BuildBodies(layer1: seq<seq<Byte>>, m: nat, n: nat, heads: map<nat, Point>, np: nat) returns (players: seq<Player>)
    requires IsMatrix(layer1, m, n) && np <= 26 && heads == Heads(layer1)
    ensures players == Bodies(layer1, m, n, np)
  {
    players := [];
    for k := 0 to np
      invariant players == Bodies(layer1, m, n, np)[..k]
    {
      var body: seq<Point> := [];
      if k in heads {
        HeadOnBoard(layer1, m, n, k);
        body := BuildBody(layer1, m, n, k, heads[k]);
      }
      assert body == BodyOf(layer1, m, n, k);
      assert Bodies(layer1, m, n, np)[..k + 1] == Bodies(layer1, m, n, np)[..k] + [Player(body)];
      players := players + [Player(body)];
    }
  }

  /** `parse_string` (model.rs:84-219). */
  method ParseString(text: seq<Byte>, readers: Readers) returns (res: Result<GameState, ParseError>)
    requires Parseable(text, readers)
    ensures res == Parse(text, readers)
  {
    var m, n, layer0, layer1, heads, np, rest := ReadBoard(text);
    var cells := DecodeCells(layer0, m, n);
    var players := BuildBodies(layer1, m, n, heads, np);
    var field := Field(m, n, cells);
    var filledCount, scores := CountStats(field, np);
    var triple := ParseStringRest(np, rest, readers);
    if triple.Err? {
      return Err(ParseError);
    }
    var t := triple.value;
    assert t == RestSpec(np, rest, readers).value;
    var reordering := if t.reordering.Some? then t.reordering.value else CreateDefaultPermutation(np);
    var origins: seq<Point>;
    if t.origins.Some? {
      origins := t.origins.value;
    } else {
      origins := CreateOriginsN(m, n, np);
    }
    var stats := if t.stats.Some? then t.stats.value else Stats(0, filledCount, 0, 0, 0, scores);
    var names := PlayerNames(np);
    res := Ok(GameState(field, players, names, origins, stats, reordering));
  }
}
