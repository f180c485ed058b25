# xcg: the board codec and the `Bot2` planner, modelled in Dafny

xcg is a grid game in the style of Qix and Tron. Each player drives a head
that drags a body behind it over an `m × n` field of cells. A cell is
`Empty`, `Border` or `Owned(k)`. A player who closes a loop back onto Border
or owned cells captures the Empty cells inside it. This project models two
parts of the repository.

- **The game state and its text form** (`src/model.rs`).
  - A board is written as lines that start with `*`. Each line holds one pair
    of characters per cell: the cell (`*`, a digit or a space) and the body
    layer (`.`, a player's lower-case body letter, or the capital letter of
    the player's head). Lines of metadata (`key=value`) follow.
  - `parse_string` reads such a text. It splits the lines, decodes the two
    layers and finds each player's head. It rebuilds each body by walking
    from the head through neighbouring cells of the same letter. It counts
    the statistics and reads and checks the metadata, falling back to
    defaults for what is missing.
  - The grid part of `Display` writes a state back out.
  - Also modelled: the default permutation, the default origins (the
    corners, or points spaced out along the perimeter) and the default
    field.
- **The `Bot2` planner** (`src/bot/bot2.rs`).
  - Every turn it reads its own body.
  - It drops its plan when the body got shorter.
  - Otherwise it follows the plan one step at a time. When there is no plan
    left, it draws 20 random cells and keeps the Empty ones. It aims at the
    4th-closest of them (by Manhattan distance), or at the farthest when
    there are fewer than four.
  - It plans an L-shaped path to the target. It then searches rings around the
    target for a closing cell: one that is Border or owned and lies on the far
    side of the target, as seen from the head. A second L-shaped leg goes from
    the target to that cell.

The model is spread over several modules:

| module | contents |
|---|---|
| `Util` | shared helpers |
| `Model` | the entities and the constructors |
| `BoardText` | lines, trimming and the two layers |
| `BodyWalk` | the body walk |
| `BoardStats` | the cell counts |
| `BoardParse` | `parse_string` and `parse_string_rest` as methods, with the functions that specify them |
| `BoardFacts` | what a successful or failing parse guarantees |
| `BoardRender` | the grid part of `Display`, as methods, and the round trip back through the parser |
| `Bot2Geometry` | distance, direction, `may_be_selected`, `build_path` and the coordinate change |
| `Bot2Search` | `find_closest`, `find_random`, `find_random_empty` and the stable sort |
| `Bot2Planner` | the `Bot2` class, its `do_move` method, and the function `NextTurn` that specifies one turn |

## Model

| member | source | states |
|---|---|---|
| Model.CreateDefaultPermutation | src/model.rs:377-379 | the default reordering has one entry per player |
| Model.DefaultPermutationIsIdentity | src/model.rs:377-379 | the default reordering is a permutation of the player indices and maps every index to itself |
| Model.BorderToPointOnPerimeter | src/model.rs:455-468 | every position along the border walk lands on a perimeter cell of the field |
| Model.BorderToPointInjective | src/model.rs:455-468 | two positions within one lap of the perimeter give different cells |
| Model.BorderToPointStep | src/model.rs:455-468 | consecutive positions of the border walk are 4-adjacent cells |
| Model.BorderToPointOnto | src/model.rs:455-468 | every perimeter cell is reached by some position within one lap |
| Model.IndexOf | src/model.rs:396-398 | the result is the first index at which the value occurs |
| Model.CreateOrigins | src/model.rs:392-439 | one origin per entry of the permutation, each the origin (a corner, or a spaced perimeter point) of that entry's player |
| Model.CreateOriginsN | src/model.rs:387-390 | the origins for the identity permutation of `np` players |
| Model.DefaultOriginsAtCorners | src/model.rs:400-428 | with at most four players the origins are distinct corners, in the corner order of the source, all on the perimeter |
| Model.DefaultOriginAt | src/model.rs:429-437 | with five or more players each origin is the border point at its player's multiple of the step, on the perimeter |
| Model.DefaultOriginsDistinct | src/model.rs:429-437 | with five or more players and a step of at least one, no two players share an origin |
| Model.CreateDefaultField | src/model.rs:441-453 | an `m × n` field whose perimeter cells are Border and whose other cells are Empty |
| BoardText.Split | src/model.rs:90 | splitting on newlines gives at least one piece |
| BoardText.TrimStart | src/model.rs:91 | the result is a suffix of the input that does not start with whitespace |
| BoardText.TrimEnd | src/model.rs:91 | the result is a prefix of the input that does not end with whitespace |
| BoardText.TrimmedEnds | src/model.rs:91 | a trimmed line is empty or starts and ends with a non-whitespace byte |
| BoardText.TrimOfTrimmed | src/model.rs:91 | trimming is idempotent on a line that is already trimmed |
| BoardText.SplitRows | src/model.rs:94-102 | the lines starting with `*` become board rows and the other lines metadata, order kept and no line lost |
| BoardText.RowsAreTrimmedStarLines | src/model.rs:90-102 | every board row starts with `*` and is trimmed; every metadata line is non-empty, trimmed and does not start with `*` |
| BoardText.Width | src/model.rs:104 | the width is the largest half-length of any row, and 0 for no rows |
| BoardText.Layer | src/model.rs:105-117 | each layer is an `m × n` matrix |
| BoardText.DecodeLayers | src/model.rs:105-117 | cell `k` of layer 0 is byte `2k` of its row and cell `k` of layer 1 is byte `2k+1` |
| BoardText.DecodeCell | src/model.rs:136-142 | `*` is Border, a digit `d` is `Owned(d)`, every other byte is Empty |
| BoardText.CellRoundTrip | src/model.rs:136-142 | decoding the byte a cell (owner at most 9) is written as gives back the cell |
| BoardText.CellBytesRoundTrip | src/model.rs:136-142 | re-encoding a decoded byte gives it back exactly when it is a space, `*` or a digit |
| BoardText.DecodedCells | src/model.rs:132-145 | the decoded matrix has the layer's shape |
| BoardText.DecodeCells | src/model.rs:132-145 | every cell of the matrix is the decoding of the byte at the same place |
| BoardRender.EncodeLayer0 | src/model.rs:320-331 | the cell layer of a valid field is an `m × n` matrix |
| BoardRender.FillCellLayer | src/model.rs:320-331 | the cell loop builds the cell layer |
| BoardRender.PaintBody | src/model.rs:332-345 | painting a body on the board keeps an `m × n` layer |
| BoardRender.PaintPlayers | src/model.rs:332-345 | painting the players keeps an `m × n` layer |
| BoardRender.BodyLayer | src/model.rs:332-345 | the body layer of a state is an `m × n` matrix |
| BoardRender.PaintBodies | src/model.rs:332-345 | the body loop builds the body layer |
| BoardRender.PaintPlayersLetters | src/model.rs:332-345 | every byte of the painted body layer is `.` or a player letter |
| BoardRender.PaintBodyLetters | src/model.rs:332-345 | painting a body leaves only `.` or letters wherever it had only those |
| BoardRender.RenderedRows | src/model.rs:346-353 | one rendered row per field row |
| BoardRender.WriteRows | src/model.rs:346-353 | the write loop emits the grid text of the rows, one newline-terminated line per field row |
| BoardRender.RenderGrid | src/model.rs:314-353 | the grid text of a state interleaves its cell layer and its body layer |
| BoardRender.SplitJoin | src/model.rs:90 | joining newline-free lines with newlines and splitting gives them back, plus the empty last piece |
| BoardRender.ReadBackRows | src/model.rs:90-102 | rendered rows read back as the board rows, with no metadata lines |
| BoardRender.LayersOfRows | src/model.rs:104-117 | rendered rows decode back into the two layers they interleave, at the field's width |
| BoardRender.DecodeEncodedLayer | src/model.rs:132-145 | decoding the cell layer gives back the field's cells |
| BoardRender.GridRoundTrip | src/model.rs:84-145 | the grid text of a field reads back as that field's size, its two layers and its cells, and has no metadata |
| BoardRender.RenderedStateReadsBack | src/model.rs:314-353 | the grid that `Display` writes for a state with at most 26 players reads back as the state's size, its cells and its painted body layer, with no metadata lines |
| BoardStats.Count | src/model.rs:180-195 | a count never exceeds the number of cells |
| BoardStats.Scores | src/model.rs:180-195 | one score per player |
| BoardStats.CountStats | src/model.rs:180-195 | the filled count is the number of Border and owned cells, and score `k` is the number of cells owned by `k` |
| BoardStats.CountRow | src/model.rs:183-194 | scanning one more row adds that row's cells to both counts |
| BoardStats.FilledIsBorderPlusScores | src/model.rs:180-195 | when every owner names a player, filled = Border cells + the sum of the scores |
| BodyWalk.Bound | src/model.rs:85-87 | the value clamped into `[l, r]`, and left alone inside it |
| BodyWalk.ClampedNeighbours | src/model.rs:88 | four neighbour candidates, each on the board |
| BodyWalk.ClampedNeighbourAdjacent | src/model.rs:158-162 | a clamped neighbour is the point itself or one step away |
| BodyWalk.NextPoint | src/model.rs:158-166 | the walk's next point is a takeable clamped neighbour, and none is returned only when no neighbour can be taken |
| BodyWalk.BuildBody | src/model.rs:148-171 | the loop builds the body of the walk from the head |
| BodyWalk.WalkKeepsBody | src/model.rs:148-171 | the walk only puts points in front, so the head stays last |
| BodyWalk.WalkCells | src/model.rs:148-171 | every added point is on the board and holds the player's lower-case letter |
| BodyWalk.WalkDistinct | src/model.rs:148-171 | the walk never visits a point twice |
| BodyWalk.WalkChain | src/model.rs:148-171 | consecutive body points are 4-adjacent |
| BodyWalk.WalkMaximal | src/model.rs:148-171 | the walk stops only where no clamped neighbour of the tail can be taken |
| BoardParse.FindHeads | src/model.rs:118-126 | the scan finds the map of heads |
| BoardParse.ScanRowsKey | src/model.rs:118-126 | a player index has a head exactly when its capital letter occurs; indices of 26 and above never do |
| BoardParse.HeadsMeaning | src/model.rs:118-126 | each head is on the board, holds its player's capital, and is the last occurrence in row-major order; every capital has a head |
| BoardParse.KeyBoundBelow | src/model.rs:127-131 | the count is above every head index and is itself 0 or one past a present index |
| BoardParse.NumPlayers | src/model.rs:127-131 | there are at most 26 players |
| BoardParse.PlayerCount | src/model.rs:127-131 | a board text has at most 26 players |
| BoardParse.Entries | src/model.rs:225-228 | one metadata entry per metadata line; a line without `=` is a malformed entry |
| BoardParse.CheckEntry | src/model.rs:238-286 | the check passes exactly when the entry is accepted: a reordering that is a permutation of the player indices, stats with one score per player, one origin per player |
| BoardParse.ReorderingAccepted | src/model.rs:238-241 | a reordering is accepted exactly when it is a permutation of the player indices |
| BoardParse.AllAcceptedMeaning | src/model.rs:221-292 | the recursive form of "all accepted so far" agrees with the quantified one |
| BoardParse.ParseStringRest | src/model.rs:221-292 | when the scan reaches no line without `=`, it fails exactly when some metadata entry is rejected; otherwise each value is the one the last entry of its kind gives |
| BoardParse.ScanMetadata | src/model.rs:225-290 | the loop over the lines, whatever each line reads as, returns the failure or the last values that the entries read call for |
| BoardParse.RestStep | src/model.rs:225-290 | one pass: the check passes exactly when entry `t` is accepted, and each value becomes the last one of its kind among the first `t + 1` entries |
| BoardParse.Keep | src/model.rs:242-287 | an entry replaces the value of its own kind and leaves the other two as they were |
| BoardParse.Bodies | src/model.rs:196-203 | one body per player index |
| BoardParse.BuildBodies | src/model.rs:146-203 | the loop builds, for every player index, the body walked from its head |
| BoardParse.Decimal | src/model.rs:217 | a player number is written as a non-empty string of decimal digits |
| BoardParse.DecimalValue | src/model.rs:217 | the digits spell the number, with no leading zero |
| BoardParse.PlayerNames | src/model.rs:217 | player `k`'s name is `player-` followed by the digits of `k` |
| BoardParse.PlayerNamesDistinct | src/model.rs:217 | different players get different names |
| BoardParse.ReadBoard | src/model.rs:89-131 | the size, both layers, the heads, the player count and the metadata lines of the text |
| BoardParse.ParseString | src/model.rs:84-219 | the method computes the specification `Parse` of the text |
| BoardFacts.BodyOfMeaning | src/model.rs:148-171 | a body is empty exactly when its head letter is absent; otherwise it ends at the head, has no repeats, steps between 4-adjacent cells, stays on the board, and every other point holds the lower-case letter |
| BoardFacts.CountedStatsMeaning | src/model.rs:180-216 | counted statistics have one score per player, and filled = Border cells + the sum of the scores |
| BoardFacts.RestFails | src/model.rs:221-292 | the metadata check fails exactly when some entry is rejected |
| BoardFacts.ParseFails | src/model.rs:206-292 | `parse_string` fails exactly when some metadata entry is rejected |
| BoardFacts.AcceptedMetadata | src/model.rs:221-292 | when all entries are accepted, the last reordering is a permutation, the last stats have one score per player and the last origins one point per player |
| BoardFacts.AssembleMeaning | src/model.rs:196-218 | the state has the board and bodies, player `k` named `player-k`, a permutation as reordering, one origin and score per player; each value the metadata gives is used as given, and each missing value is its default, missing stats being `CountedStats` of the cells (iteration and the other counters 0, the filled count, and as score `k` the number of cells `Owned(k)`), whose filled count is the Border cells plus the sum of the scores |
| BoardFacts.ParseMeaning | src/model.rs:84-219 | a parsed state has the text's size and decoded cells, the walked bodies, player `k` named `player-k`, a permutation, one origin and score per player, the last metadata value of each kind when there is one, and the defaults for whatever is missing: the identity, the default origins, and `CountedStats` of the cells (iteration and the other counters 0, the filled count, and as score `k` the number of cells `Owned(k)`), with filled = Border cells + the sum of the scores |
| Bot2Geometry.DistanceSymmetric | src/bot/bot2.rs:188-190 | Manhattan distance is symmetric |
| Bot2Geometry.DistanceZero | src/bot/bot2.rs:188-190 | the distance is zero exactly between equal points |
| Bot2Geometry.StepBy | src/model.rs:31-33 | every move but Stop changes the head by one step |
| Bot2Geometry.Direction | src/bot/bot2.rs:212-224 | `direction` never answers Stop |
| Bot2Geometry.DirectionCases | src/bot/bot2.rs:212-224 | in the same column Down iff the target is not above, else Up; otherwise Left iff the target is to the left, else Right; the same point gives Down |
| Bot2Geometry.DirectionStep | src/bot/bot2.rs:212-224 | for a target one step away, the chosen move reaches it |
| Bot2Geometry.MayBeSelectedMeaning | src/bot/bot2.rs:192-210 | `may_be_selected` is the far-side test `Beyond`, accepts the arrow itself when it differs from the base, and for base = arrow accepts exactly the points off both of the arrow's axes |
| Bot2Geometry.ClosingRouteStaysBeyond | src/bot/bot2.rs:192-250 | an L-shaped leg from the arrow to a selectable point stays entirely on the far side |
| Bot2Geometry.Leg | src/bot/bot2.rs:227-236 | the run from `a` to `b` has `|b - a|` values, each one further toward `b` |
| Bot2Geometry.H | src/bot/bot2.rs:227-231 | the horizontal run has `|b - a|` points |
| Bot2Geometry.V | src/bot/bot2.rs:232-236 | the vertical run has `|b - a|` points |
| Bot2Geometry.BuildPath | src/bot/bot2.rs:226-250 | the path has as many points as the distance between its ends |
| Bot2Geometry.RouteAt | src/bot/bot2.rs:226-250 | each point of the path is the one the two runs give at its index |
| Bot2Geometry.RouteLength | src/bot/bot2.rs:226-250 | the path length is the Manhattan distance, empty exactly when its ends are equal |
| Bot2Geometry.RouteWalk | src/bot/bot2.rs:226-250 | the path starts one step from the source, moves one step at a time, and ends at the destination |
| Bot2Geometry.RouteStep | src/bot/bot2.rs:226-250 | consecutive path points are one step apart |
| Bot2Geometry.RouteDistinct | src/bot/bot2.rs:226-250 | the path never repeats a point and never contains the source |
| Bot2Geometry.RouteAxes | src/bot/bot2.rs:240-248 | the chosen axis is run first, then the other, with exactly one turn at most |
| Bot2Geometry.RouteInBox | src/bot/bot2.rs:226-250 | every path point lies inside the box spanned by its ends |
| Bot2Geometry.DecartesRoundTrip | src/bot/bot2.rs:159-170 | the change between matrix and Cartesian coordinates is a bijection: both round trips are the identity |
| Bot2Geometry.OnBoardIffContains | src/bot/bot2.rs:159-170 | a Cartesian point is on the board exactly when its matrix point is in the field |
| Bot2Geometry.CellsAtDecartes | src/bot/bot2.rs:159-164 | `cells` at a converted point is the field's cell there |
| Bot2Geometry.PlayerBodyReversed | src/bot/bot2.rs:101-103 | the bot's view of a body is the body reversed and converted, so the head comes first |
| Bot2Search.Clamped | src/bot/bot2.rs:109-113 | a clamped point is on a non-empty board, and points already on it are unchanged |
| Bot2Search.Candidates | src/bot/bot2.rs:116-121 | four candidates per step of a ring |
| Bot2Search.Ring | src/bot/bot2.rs:114-121 | ring `r` has `4r` candidates |
| Bot2Search.SlotOfCandidate | src/bot/bot2.rs:116-121 | each candidate is at distance `r` from the source and occupies its own slot |
| Bot2Search.RingIsDiamond | src/bot/bot2.rs:114-121 | ring `r` lists every point at distance `r` once, and nothing else |
| Bot2Search.ClampedRing | src/bot/bot2.rs:109-122 | the points tried on ring `r` are the ring's points clamped to the board, in order |
| Bot2Search.SearchOrderOnBoard | src/bot/bot2.rs:109-128 | every tried point is on the board |
| Bot2Search.FindClosest | src/bot/bot2.rs:105-129 | the nested loops return the first accepted point of rings `1` to `m + n - 1`, in the source's order |
| Bot2Search.FirstAccepted | src/bot/bot2.rs:114-128 | the loops over rings and steps return the first accepted point in search order |
| Bot2Search.ClosestMeaning | src/bot/bot2.rs:105-129 | the result is accepted, on the board, with no earlier tried point accepted; None exactly when no tried point is accepted |
| Bot2Search.FindRandom | src/bot/bot2.rs:131-144 | the draws the predicate accepts, in draw order |
| Bot2Search.FindRandomEmpty | src/bot/bot2.rs:146-148 | the drawn points whose cell is Empty, in draw order |
| Bot2Search.EmptiesMeaning | src/bot/bot2.rs:146-148 | every kept point is a draw on an Empty cell on the board, and every such draw is kept |
| Bot2Search.ClosingMeaning | src/bot/bot2.rs:152-155 | a closing cell found is on the board, not Empty, and beyond the target as seen from the head |
| Bot2Search.InsertByDistance | src/bot/bot2.rs:75 | inserting adds exactly the one point |
| Bot2Search.InsertSorted | src/bot/bot2.rs:75 | inserting into a distance-sorted list keeps it sorted |
| Bot2Search.SortByDistance | src/bot/bot2.rs:75 | the sorted samples are a permutation of the samples, in non-decreasing distance |
| Bot2Search.InsertStable | src/bot/bot2.rs:75 | inserting keeps the order of the points at each distance |
| Bot2Search.SortStable | src/bot/bot2.rs:75 | the sort is stable: the points at any one distance keep their draw order |
| Bot2Planner.Target | src/bot/bot2.rs:76-78 | there is a target exactly when some sample is Empty, and it is one of them |
| Bot2Planner.PickTarget | src/bot/bot2.rs:74-78 | the sort and selection compute `Target` |
| Bot2Planner.RankIn | src/bot/bot2.rs:75-78 | the element at rank `k` of a distance-sorted permutation is no nearer than those before it and no farther than those after |
| Bot2Planner.TargetRank | src/bot/bot2.rs:75-78 | the target is the `min(4, count)`-th closest sample: earlier ones no farther, later no nearer, strictly nearer ones among the at most three before it, and with four or fewer a farthest one |
| Bot2Planner.Observed | src/bot/bot2.rs:53-63 | the previous body and the current body are recorded; a shrunk body drops the plan |
| Bot2Planner.ShrinkDropsPlan | src/bot/bot2.rs:59-92 | after a shrink the old plan is never followed: the bot ends with no plan or a fresh one |
| Bot2Planner.NextTurn | src/bot/bot2.rs:49-96 | a turn keeps the index and size, and records the previous and current body |
| Bot2Planner.StopsExactly | src/bot/bot2.rs:54-92 | the bot stops exactly when it has no body, or has no plan to follow and drew no Empty cell |
| Bot2Planner.FollowsPlan | src/bot/bot2.rs:68-72 | while following, the plan is kept, the cursor moves on by one, and the move reaches the next plan point when it is one step away |
| Bot2Planner.Replans | src/bot/bot2.rs:74-92 | a new plan goes through an Empty drawn target, is a walk from the head, panics exactly when it is empty, and otherwise its first point is reached with the cursor at 1 |
| Bot2Planner.CursorWithinPlan | src/bot/bot2.rs:60-92 | unless the turn panics, the cursor never passes the end of the plan |
| Bot2Planner.OutboundShape | src/bot/bot2.rs:79-80 | the outbound leg runs horizontally first exactly when the target is in another column |
| Bot2Planner.ClosingCell | src/bot/bot2.rs:81-85 | a closing cell differs from the target, is on the board, not Empty and beyond it, and the closing leg stays beyond |
| Bot2Planner.JoinedWalk | src/bot/bot2.rs:79-87 | outbound plus closing leg is a walk from the head, empty only when the head is on the target with no closing cell, and ends at the closing cell or the target |
| Bot2Planner.PlanMeaning | src/bot/bot2.rs:79-89 | the plan through an Empty target walks from the head and ends at the closing cell, or at the target when there is none |
| Bot2Planner.MakePlan | src/bot/bot2.rs:79-87 | the two `build_path` calls and the search compute `Plan` |
| Bot2Planner.RouteStepsFrom | src/bot/bot2.rs:226-250 | a path is a walk that starts one step from its source |
| Bot2Planner.StepsFromAppend | src/bot/bot2.rs:86 | appending a walk from the end of a walk gives a walk |
| Bot2Planner.Bot2.constructor | src/bot/bot2.rs:174-185 | a new bot has its index, no size, no bodies, no plan and cursor 0 |
| Bot2Planner.Bot2.Reset | src/bot/bot2.rs:42-47 | reset sets the index and the field size and changes nothing else |
| Bot2Planner.Bot2.DoMove | src/bot/bot2.rs:49-96 | the move returned and the bot's new state are the ones `NextTurn` gives |

## Left out

- Random numbers. The source draws from an `IsaacRng` that reset seeds and
  `Rc<RefCell>` shares. The model takes the 20 drawn points (`x` drawn before
  `y`, both on the board) and the coin for the closing leg as parameters of
  `DoMove`. For this reason the seed is not part of `Reset`, and
  `copy_shuffled_permutation` is not part of this model.
- Target choice. The comment at `bot2.rs:76-77` says the bot takes
  "approximately" the fifth closest sample. The code at `bot2.rs:78` takes
  the last of the first `min(4, count)` sorted samples, at index
  `min(4, count) - 1`, which is the fourth closest. The model follows the code.
- The panic on `self.path[0]`. When the head is already on the target and no
  closing cell is found, `DoMove` returns `Turn.Panicked`. The state after
  that turn has no meaning in the source.
- Parsing of numbers and the regular expressions. `parse_string_rest` reads
  metadata values with regexes and `parse().unwrap()`. The model takes these
  readers as the `Readers` parameter, so every value is abstract. The model
  checks only what the source checks once a value is read: permutation,
  score count and origin count.
- The panics in `parse_string`. These are preconditions
  (`BoardParse.Parseable`), not modelled errors:
  - a row shorter than twice the width;
  - an owner digit with no player;
  - a metadata line without `=` that the scan reaches, i.e. one with no
    rejected entry before it (`BoardParse.PanicFree`), since a rejected entry
    ends the scan with `Err` first;
  - a remainder by zero for the perimeter origins on a 1×1 board, which
    happens only when the metadata is accepted and gives no origins.

  Coordinates and counts must also fit `i16` and `u16`.
- `trim`. It is modelled for ASCII whitespace only. Input is a byte sequence,
  and UTF-8 decoding is not modelled.
- Integer widths.
  - The `i16` coordinates and the `u16` scores are unbounded integers. Where a
    bound matters, it is a precondition: `2 * (height + width) < 32768` for
    `border_to_point`.
  - `Bot2Geometry.Distance` does not model `i16` overflow.
- The metadata part of `Display`. It writes reordering, stats and origins, and
  is not part of this model. `BoardRender.GridRoundTrip` covers the grid only.
- `BoardRender.GridRoundTrip` holds only for fields whose first column is
  Border, whose owners are at most 9, and whose body layer has no whitespace.
  Other fields do not read back through the parser.
- `HashMap` iteration order in `parse_string`. It is not modelled, because the
  result does not depend on it. Heads are a `map`.
- The debug-only binding at `bot2.rs:64-66`. It has no effect.
- `eprintln!`, the `Bot` trait and `main.rs` are not part of this model.
- The engine's effect of a move. The model states it as `Bot2Geometry.StepBy`.
  `FollowsPlan` and `Replans` state where a move leads under that effect.
  Whether the engine applies it is outside this model.
- `sort_by_key`. It is modelled as a stable insertion sort, `SortByDistance`.
  Stability and the permutation property are proved, which is what
  `sort_by_key` promises.
- The bot's `m` and `n` fields. They are stored by `Reset` and never read by
  `do_move`, and they are kept in the state the same way.
