/** The `Bot2` player (src/bot/bot2.rs): each turn it looks at its own
    body, follows the path it planned before, or plans a new one: out to one
    of the Empty cells the random generator hit, then back to the closest
    Border or owned cell on the far side of that target. */
module Bot2Planner {
  import opened Util
  import opened Model
  import opened Bot2Geometry
  import opened Bot2Search

  /** How many random points a new plan draws (`find_random_empty(20)`). */
  const Attempts: nat := 20

  /** How a call of `do_move` ends: with a move, or with the panic of
      `self.path[0]` on an empty path (bot2.rs:87). */
  datatype Turn = Moved(mv: Move) | Panicked

  /** The fields of `Bot2` apart from its generator. */
  datatype BotState = BotState(idx: nat, m: nat, n: nat, curMe: seq<P>, lastMe: seq<P>, path: seq<P>, nextHeadPos: nat)

  /** The sample the bot heads for: after sorting the samples by their
      distance from the head, the fourth one, or the last when there are
      fewer (bot2.rs:75-78). */
  function Target(head: P, empties: seq<P>): (a: Option<P>)
    ensures a.None? <==> empties == []
    ensures a.Some? ==> a.value in empties
  {
    var sorted := SortByDistance(head, empties);
    if sorted == [] then None
    else
      var a := sorted[Min(4, |sorted|) - 1];
      assert a in multiset(sorted);
      Some(a)
  }

  /** The cell that closes the loop through target `a` (bot2.rs:81). */
  function Closing(field: Field, head: P, a: P): (b: Option<P>)
  {
    Find(SearchOrder(field.m, field.n, a, field.m + field.n), ClosingTest(field, head, a))
  }

  /** The outbound leg, horizontal first exactly when the first move
      towards the target is sideways (bot2.rs:79-80). */
  function Outbound(head: P, a: P): (path: seq<P>)
  {
    var d := Direction(head, a);
    Route(head, a, d == Left || d == Right)
  }

  /** The new plan: the outbound leg, then, when a closing cell is found,
      the leg from the target to it with the coin choosing its shape
      (bot2.rs:79-86). */
  function Plan(field: Field, head: P, a: P, coin: bool): (path: seq<P>)
  {
    Joined(head, a, Closing(field, head, a), coin)
  }

  /** The outbound leg followed by the closing leg to `b`, if any. */
  function Joined(head: P, a: P, b: Option<P>, coin: bool): (path: seq<P>)
  {
    match b
    case None => Outbound(head, a)
    case Some(c) => Outbound(head, a) + Route(a, c, coin)
  }

  /** The state after the bot has looked at its body: the bookkeeping of
      bot2.rs:53-54 and, when the body got shorter (flooded or bitten), the
      dropped plan of bot2.rs:60-63. */
  function Observed(s: BotState, gs: GameState): (s2: BotState)
    requires s.idx < |gs.players|
    ensures s2.idx == s.idx && s2.m == s.m && s2.n == s.n
    ensures s2.lastMe == s.curMe && s2.curMe == PlayerBody(gs, s.idx)
  {
    var me := PlayerBody(gs, s.idx);
    var s1 := s.(lastMe := s.curMe, curMe := me);
    if me != [] && |me| < |s.curMe| then s1.(path := [], nextHeadPos := 0) else s1
  }

  /** The bot still has a step of its plan to take (bot2.rs:68). */
  predicate Following(s: BotState)
  {
    s.path != [] && s.nextHeadPos < |s.path|
  }

  /** One turn of `do_move` (bot2.rs:49-96): the move and the new state.
      `draws` are the points the generator hits and `coin` is its boolean
      for the closing leg. */
  function NextTurn(s: BotState, gs: GameState, draws: seq<P>, coin: bool): (r: (Turn, BotState))
    requires s.idx < |gs.players|
    ensures r.1.idx == s.idx && r.1.m == s.m && r.1.n == s.n
    ensures r.1.lastMe == s.curMe && r.1.curMe == PlayerBody(gs, s.idx)
  {
    var s2 := Observed(s, gs);
    if s2.curMe == [] then (Moved(Stop), s2)
    else
      var head := s2.curMe[0];
      if Following(s2) then
        (Moved(Direction(head, s2.path[s2.nextHeadPos])), s2.(nextHeadPos := s2.nextHeadPos + 1))
      else
        match Target(head, Filter(draws, EmptyTest(gs.field)))
        case None => (Moved(Stop), s2)
        case Some(a) =>
          var path := Plan(gs.field, head, a, coin);
          if path == [] then (Panicked, s2.(path := path))
          else (Moved(Direction(head, path[0])), s2.(path := path, nextHeadPos := 1))
  }

  /** `Bot2` (bot2.rs:24-34, 173-185, 41-96). */
  class Bot2 {
    var idx: nat
    var m: nat
    var n: nat
    var curMe: seq<P>
    var lastMe: seq<P>
    var path: seq<P>
    var nextHeadPos: nat

    function State(): (s: BotState)
      reads this
    {
      BotState(idx, m, n, curMe, lastMe, path, nextHeadPos)
    }

    /** `Bot2::new` (bot2.rs:174-185). */
    constructor (idx: Byte)
      ensures State() == BotState(idx, 0, 0, [], [], [], 0)
    {
      this.idx := idx;
      m, n := 0, 0;
      curMe, lastMe, path := [], [], [];
      nextHeadPos := 0;
    }

    /** `reset` (bot2.rs:42-47): the player index and the board size; the
        plan and the bodies seen are kept. */
    method Reset(gs: GameState, idx: Byte)
      modifies this
      ensures State() == old(State()).(idx := idx, m := gs.field.m, n := gs.field.n)
    {
      this.idx := idx;
      m := gs.field.m;
      n := gs.field.n;
    }

    /** `do_move` (bot2.rs:49-96). */
    method DoMove(gs: GameState, draws: seq<P>, coin: bool) returns (t: Turn)
      requires idx < |gs.players| && gs.field.Valid()
      requires |draws| == Attempts && forall k :: 0 <= k < |draws| ==> OnBoard(gs.field.m, gs.field.n, draws[k])
      modifies this
      ensures (t, State()) == NextTurn(old(State()), gs, draws, coin)
    {
      lastMe := curMe;
      curMe := PlayerBody(gs, idx);
      if curMe == [] {
        return Moved(Stop);
      }
      var curHead := curMe[0];
      if |curMe| < |lastMe| {
        path := [];
        nextHeadPos := 0;
      }
      if path != [] && nextHeadPos < |path| {
        var newHead := path[nextHeadPos];
        nextHeadPos := nextHeadPos + 1;
        t := Moved(Direction(curHead, newHead));
      } else {
        var empties := FindRandomEmpty(gs.field, draws);
        var target := PickTarget(curHead, empties);
        if target.Some? {
          path := MakePlan(gs.field, curHead, target.value, coin);
          if path == [] {
            return Panicked;
          }
          nextHeadPos := 1;
          t := Moved(Direction(curHead, path[0]));
        } else {
          t := Moved(Stop);
        }
      }
    }
  }

  /** The sort and pick of bot2.rs:75-78. */
  method PickTarget(head: P, empties: seq<P>) returns (target: Option<P>)
    ensures target == Target(head, empties)
  {
    var sorted := SortByDistance(head, empties);
    if sorted != [] {
      target := Some(sorted[Min(4, |sorted|) - 1]);
    } else {
      target := None;
    }
  }

  /** The path building of bot2.rs:79-86. */
  method MakePlan(field: Field, head: P, theEmpty: P, coin: bool) returns (path: seq<P>)
    ensures path == Plan(field, head, theEmpty, coin)
  {
    var theDirection := Direction(head, theEmpty);
    path := BuildPath(head, theEmpty, theDirection == Left || theDirection == Right);
    assert path == Outbound(head, theEmpty);
    var border := FindClosest(field.m, field.n, theEmpty, ClosingTest(field, head, theEmpty));
    assert border == Closing(field, head, theEmpty);
    if border.Some? {
      var appendix := BuildPath(theEmpty, border.value, coin);
      path := path + appendix;
    }
  }

  // ---------------------------------------------------------------------
  // What a turn guarantees
  // ---------------------------------------------------------------------

  /** `path` is a walk from `head`: each point is one step from the one
      before it. */
  predicate StepsFrom(head: P, path: seq<P>)
  {
    path != [] ==> UnitApart(head, path[0]) && forall t :: 0 <= t < |path| - 1 ==> UnitApart(path[t], path[t + 1])
  }

  lemma RouteStepsFrom(src: P, dst: P, horzFirst: bool)
    ensures StepsFrom(src, Route(src, dst, horzFirst))
  {
    RouteLength(src, dst, horzFirst);
    if src != dst {
      RouteWalk(src, dst, horzFirst);
    }
  }

  lemma StepsFromAppend(head: P, p: seq<P>, q: seq<P>)
    requires p != [] && StepsFrom(head, p) && StepsFrom(p[|p| - 1], q)
    ensures StepsFrom(head, p + q)
  {
    var w := p + q;
    forall t | 0 <= t < |w| - 1
      ensures UnitApart(w[t], w[t + 1])
    {
      if t + 1 < |p| {
      } else if t + 1 == |p| {
        assert w[t] == p[|p| - 1] && w[t + 1] == q[0];
      } else {
        assert w[t] == q[t - |p|] && w[t + 1] == q[t - |p| + 1];
      }
    }
  }

  /** The outbound leg and a closing leg to a cell other than the target
      make a walk from the head that is empty exactly when the head is on the
      target and there is no closing leg, and that ends at the closing cell,
      or at the target when there is none. */
  lemma JoinedWalk(head: P, a: P, b: Option<P>, coin: bool)
    requires b.Some? ==> b.value != a
    ensures var path := Joined(head, a, b, coin);
      && StepsFrom(head, path)
      && (path == [] <==> head == a && b.None?)
      && (b.None? && head != a ==> path[|path| - 1] == a)
      && (b.Some? ==> path[|path| - 1] == b.value)
  {
    var d := Direction(head, a);
    var out := Outbound(head, a);
    RouteStepsFrom(head, a, d == Left || d == Right);
    RouteLength(head, a, d == Left || d == Right);
    if head != a {
      RouteWalk(head, a, d == Left || d == Right);
    }
    if b.Some? {
      var back := Route(a, b.value, coin);
      RouteStepsFrom(a, b.value, coin);
      RouteWalk(a, b.value, coin);
      if out != [] {
        StepsFromAppend(head, out, back);
      }
      assert (out + back)[|out + back| - 1] == back[|back| - 1];
    }
  }

  /** The closing cell, when there is one, is a non-Empty cell on the far
      side of an Empty target, and when the head is not on the target the
      whole closing leg stays on that side. */
  lemma ClosingCell(field: Field, head: P, a: P, coin: bool)
    requires field.Valid() && field.m >= 1 && field.n >= 1
    requires OnBoard(field.m, field.n, a) && Cells(field, a) == Empty
    ensures var b := Closing(field, head, a);
      b.Some? ==>
        && b.value != a && OnBoard(field.m, field.n, b.value)
        && Cells(field, b.value) != Empty && Beyond(head, a, b.value)
        && (head != a ==> forall q :: q in Route(a, b.value, coin) ==> Beyond(head, a, q))
  {
    var b := Closing(field, head, a);
    ClosingMeaning(field, head, a);
    if b.Some? && head != a {
      ClosestMeaning(field.m, field.n, a, ClosingTest(field, head, a));
      assert ClosingTest(field, head, a)(b.value);
      ClosingRouteStaysBeyond(head, a, b.value, coin);
    }
  }

  /** The plan through an Empty target: a walk from the head, empty exactly
      when the head is on the target and no closing cell is found, ending at
      the closing cell when there is one and at the target otherwise. */
  lemma PlanMeaning(field: Field, head: P, a: P, coin: bool)
    requires field.Valid() && field.m >= 1 && field.n >= 1
    requires OnBoard(field.m, field.n, a) && Cells(field, a) == Empty
    ensures var path, b := Plan(field, head, a, coin), Closing(field, head, a);
      && StepsFrom(head, path)
      && (path == [] <==> head == a && b.None?)
      && (b.None? && head != a ==> path[|path| - 1] == a)
      && (b.Some? ==> path[|path| - 1] == b.value)
  {
    ClosingCell(field, head, a, coin);
    JoinedWalk(head, a, Closing(field, head, a), coin);
  }

  /** The bot keeps its cursor within its plan: `next_head_pos` never passes
      the end of `path`, unless the turn panics. */
  lemma CursorWithinPlan(s: BotState, gs: GameState, draws: seq<P>, coin: bool)
    requires s.idx < |gs.players| && s.nextHeadPos <= |s.path|
    ensures var r := NextTurn(s, gs, draws, coin);
      r.0 != Panicked ==> r.1.nextHeadPos <= |r.1.path|
  {
  }

  /** While following its plan the bot keeps it and moves the cursor on by
      one; when the engine moved it as asked on the turn before, so that the
      next point of the plan is one step away, its move takes it there. */
  lemma FollowsPlan(s: BotState, gs: GameState, draws: seq<P>, coin: bool)
    requires s.idx < |gs.players|
    requires var s2 := Observed(s, gs); s2.curMe != [] && Following(s2)
    ensures var s2, r := Observed(s, gs), NextTurn(s, gs, draws, coin);
      && r.0.Moved? && r.0.mv != Stop
      && r.1.path == s2.path && r.1.nextHeadPos == s2.nextHeadPos + 1
      && (UnitApart(s2.curMe[0], s2.path[s2.nextHeadPos]) ==> StepBy(s2.curMe[0], r.0.mv) == s2.path[s2.nextHeadPos])
  {
    var s2 := Observed(s, gs);
    if UnitApart(s2.curMe[0], s2.path[s2.nextHeadPos]) {
      DirectionStep(s2.curMe[0], s2.path[s2.nextHeadPos]);
    }
  }

  /** A turn that plans: with no drawn Empty cell the bot stops and keeps
      its state; otherwise it heads for an Empty cell it drew, its new plan
      is the walk `Plan` from the head through that cell, it panics exactly
      when that plan is empty, and otherwise its move takes it to the
      plan's first point and the cursor is on the second. */
  lemma Replans(s: BotState, gs: GameState, draws: seq<P>, coin: bool)
    requires s.idx < |gs.players| && gs.field.Valid() && gs.field.m >= 1 && gs.field.n >= 1
    requires var s2 := Observed(s, gs); s2.curMe != [] && !Following(s2)
    ensures var s2, r := Observed(s, gs), NextTurn(s, gs, draws, coin);
      var head, a := s2.curMe[0], Target(s2.curMe[0], Filter(draws, EmptyTest(gs.field)));
      && (a.None? ==> r == (Moved(Stop), s2))
      && (a.Some? ==>
            && a.value in draws && OnBoard(gs.field.m, gs.field.n, a.value) && Cells(gs.field, a.value) == Empty
            && r.1.path == Plan(gs.field, head, a.value, coin) && StepsFrom(head, r.1.path)
            && (r.0 == Panicked <==> head == a.value && Closing(gs.field, head, a.value).None?)
            && (r.0 != Panicked ==> r.0.Moved? && r.0.mv != Stop && StepBy(head, r.0.mv) == r.1.path[0] && r.1.nextHeadPos == 1))
  {
    var s2 := Observed(s, gs);
    var head := s2.curMe[0];
    var es := Filter(draws, EmptyTest(gs.field));
    var a := Target(head, es);
    if a.Some? {
      EmptiesMeaning(gs.field, draws);
      PlanMeaning(gs.field, head, a.value, coin);
      var path := Plan(gs.field, head, a.value, coin);
      if path != [] {
        DirectionStep(head, path[0]);
      }
    }
  }

  /** The bot stops exactly when it has no body, or when it has no plan to
      follow and drew no Empty cell. */
  lemma StopsExactly(s: BotState, gs: GameState, draws: seq<P>, coin: bool)
    requires s.idx < |gs.players|
    ensures var s2, r := Observed(s, gs), NextTurn(s, gs, draws, coin);
      r.0 == Moved(Stop) <==> s2.curMe == [] || (!Following(s2) && Filter(draws, EmptyTest(gs.field)) == [])
  {
  }

  /** The outbound leg goes sideways first exactly when the target is not
      in the head's column. */
  lemma OutboundShape(head: P, a: P)
    ensures Outbound(head, a) == Route(head, a, head.x != a.x)
  {
    DirectionCases(head, a);
  }

  /** A bot whose body got shorter (flooded or bitten) never continues its
      old plan: it ends the turn with no plan or with a fresh one. */
  lemma ShrinkDropsPlan(s: BotState, gs: GameState, draws: seq<P>, coin: bool)
    requires s.idx < |gs.players|
    requires var me := PlayerBody(gs, s.idx); me != [] && |me| < |s.curMe|
    ensures var r, head := NextTurn(s, gs, draws, coin), PlayerBody(gs, s.idx)[0];
      var a := Target(head, Filter(draws, EmptyTest(gs.field)));
      && (a.None? ==> r == (Moved(Stop), r.1) && r.1.path == [] && r.1.nextHeadPos == 0)
      && (a.Some? ==> r.1.path == Plan(gs.field, head, a.value, coin))
  {
  }

  /** The target's rank among the samples: the samples before it in the
      distance order are no farther, those after it no nearer, every sample
      strictly nearer is one of the (at most three) before it, and with four
      samples or fewer it is a farthest one. */
  lemma TargetRank(head: P, es: seq<P>)
    ensures var a, sorted, k := Target(head, es), SortByDistance(head, es), Min(4, |es|);
      a.Some? ==>
        && a.value == sorted[k - 1]
        && (forall t :: 0 <= t < k - 1 ==> Distance(head, sorted[t]) <= Distance(head, a.value))
        && (forall t :: k - 1 <= t < |sorted| ==> Distance(head, a.value) <= Distance(head, sorted[t]))
        && (forall q :: q in es && Distance(head, q) < Distance(head, a.value) ==> q in sorted[..k - 1])
        && (|es| <= 4 ==> forall q :: q in es ==> Distance(head, q) <= Distance(head, a.value))
  {
    if es != [] {
      RankIn(head, es, SortByDistance(head, es), Min(4, |es|));
    }
  }

  /** Entry `k - 1` of a distance-sorted permutation of `es`: what
      `TargetRank` states, for any such sequence. */
  lemma RankIn(head: P, es: seq<P>, sorted: seq<P>, k: nat)
    requires SortedFrom(head, sorted) && multiset(sorted) == multiset(es)
    requires 1 <= k <= |sorted| && (|es| <= 4 ==> k == |es|)
    ensures var a := sorted[k - 1];
      && (forall t :: 0 <= t < k - 1 ==> Distance(head, sorted[t]) <= Distance(head, a))
      && (forall t :: k - 1 <= t < |sorted| ==> Distance(head, a) <= Distance(head, sorted[t]))
      && (forall q :: q in es && Distance(head, q) < Distance(head, a) ==> q in sorted[..k - 1])
      && (|es| <= 4 ==> forall q :: q in es ==> Distance(head, q) <= Distance(head, a))
  {
    var a := sorted[k - 1];
    assert |sorted| == |multiset(es)| == |es|;
    forall q | q in es
      ensures exists t :: 0 <= t < |sorted| && sorted[t] == q
    {
      assert q in multiset(es);
      assert q in sorted;
    }
    forall q | q in es && Distance(head, q) < Distance(head, a)
      ensures q in sorted[..k - 1]
    {
      var t :| 0 <= t < |sorted| && sorted[t] == q;
      assert sorted[..k - 1][t] == q;
    }
  }
}
