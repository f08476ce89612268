/**
 * The 8-puzzle problem handed to the informed-search engine: blank-tile moves on a
 * 3x3 grid holding the tiles 1..8 and the blank 0, the goal test, the unit step cost
 * and the Manhattan-distance heuristic.
 */
module EightPuzzle {
  import opened Grids

  const DefaultGoal: Grid := [[1, 2, 3], [8, 0, 4], [7, 6, 5]]
  const DefaultInitial: Grid := [[2, 8, 3], [1, 6, 4], [7, 0, 5]]

  /** A state that is a permutation of the tiles 0..8: each occurs exactly once, nothing else occurs. */
  ghost predicate ValidGrid(g: Grid) {
    IsGrid(g) && forall x :: multiset(Flatten(g))[x] == if 0 <= x <= 8 then 1 else 0
  }

  // ---------------------------------------------------------------------------
  // Locating a value (_find_empty, _find_goal_position)
  // ---------------------------------------------------------------------------

  /** The first cell at or after (i, j), in row-major order, that holds v. */
  function PositionFrom(g: Grid, v: int, i: int, j: int): (r: Option<Pos>)
    requires IsGrid(g) && 0 <= i <= 3 && 0 <= j <= 3
    ensures r.Some? ==> InBoard(r.value) && 3 * i + j <= Index(r.value) && At(g, r.value) == v
    decreases |g| - i, 3 - j
  {
    if i == 3 then None
    else if j == 3 then PositionFrom(g, v, i + 1, 0)
    else if g[i][j] == v then Some(Pos(i, j))
    else PositionFrom(g, v, i, j + 1)
  }

  /** PositionFrom finds the first cell holding v from (i, j) on, and finds none only when there is none. */
  lemma {:induction false} PositionFromFirst(g: Grid, v: int, i: int, j: int)
    requires IsGrid(g) && 0 <= i <= 3 && 0 <= j <= 3
    ensures var r := PositionFrom(g, v, i, j);
      && (r.Some? ==> forall q :: InBoard(q) && 3 * i + j <= Index(q) < Index(r.value) ==> At(g, q) != v)
      && (r.None? ==> forall q :: InBoard(q) && 3 * i + j <= Index(q) ==> At(g, q) != v)
    decreases |g| - i, 3 - j
  {
    if i == 3 {
    } else if j == 3 {
      PositionFromFirst(g, v, i + 1, 0);
    } else if g[i][j] != v {
      PositionFromFirst(g, v, i, j + 1);
      forall q | InBoard(q) && 3 * i + j == Index(q)
        ensures q == Pos(i, j)
      {
      }
    }
  }

  /** The first cell, in row-major order, that holds v. */
  function Position(g: Grid, v: int): Option<Pos>
    requires IsGrid(g)
  {
    PositionFrom(g, v, 0, 0)
  }

  /** Position is the first cell holding v, and None exactly when no cell holds v. */
  lemma PositionCharacterised(g: Grid, v: int)
    requires IsGrid(g)
    ensures Position(g, v).Some? ==> InBoard(Position(g, v).value) && At(g, Position(g, v).value) == v
    ensures Position(g, v).Some? ==>
      forall q :: InBoard(q) && Index(q) < Index(Position(g, v).value) ==> At(g, q) != v
    ensures Position(g, v).None? <==> forall q :: InBoard(q) ==> At(g, q) != v
  {
    PositionFromFirst(g, v, 0, 0);
  }

  /** Position is characterised by "holds v, and no earlier cell does". */
  lemma PositionIsFirst(g: Grid, v: int, p: Pos)
    requires IsGrid(g) && InBoard(p) && At(g, p) == v
    requires forall q :: InBoard(q) && Index(q) < Index(p) ==> At(g, q) != v
    ensures Position(g, v) == Some(p)
  {
    PositionCharacterised(g, v);
    var r := Position(g, v);
    assert r.Some?;
    assert !(Index(r.value) < Index(p));
    assert !(Index(p) < Index(r.value));
    PosAtIndex(p);
    PosAtIndex(r.value);
  }

  /** _find_empty: nested row-major scan with an early return. */
  method FindEmpty(state: Grid) returns (pos: Option<Pos>)
    requires IsGrid(state)
    ensures pos == Position(state, 0)
  {
    pos := Scan(state, 0);
  }

  /** _find_goal_position: the same scan over the goal grid. */
  method FindGoalPosition(goal: Grid, value: int) returns (pos: Option<Pos>)
    requires IsGrid(goal)
    ensures pos == Position(goal, value)
  {
    pos := Scan(goal, value);
  }

  /** The nested loop shared by _find_empty and _find_goal_position. */
  method Scan(g: Grid, v: int) returns (pos: Option<Pos>)
    requires IsGrid(g)
    ensures pos == Position(g, v)
  {
    var i := 0;
    while i < 3
      invariant 0 <= i <= 3
      invariant forall q :: InBoard(q) && Before(q, Pos(i, 0)) ==> At(g, q) != v
    {
      var j := 0;
      while j < 3
        invariant 0 <= j <= 3
        invariant forall q :: InBoard(q) && Before(q, Pos(i, j)) ==> At(g, q) != v
      {
        if g[i][j] == v {
          PositionIsFirst(g, v, Pos(i, j));
          return Some(Pos(i, j));
        }
        j := j + 1;
      }
      i := i + 1;
    }
    return None;
  }

  // ---------------------------------------------------------------------------
  // Permutation grids
  // ---------------------------------------------------------------------------

  /** In a valid grid every cell holds a tile from 0..8. */
  lemma ValidGridRange(g: Grid, p: Pos)
    requires ValidGrid(g) && InBoard(p)
    ensures 0 <= At(g, p) <= 8
  {
    FlattenAt(g, p);
    var x := At(g, p);
    assert x in multiset(Flatten(g));
  }

  /** In a valid grid no tile occurs twice. */
  lemma ValidGridDistinct(g: Grid, p: Pos, q: Pos)
    requires ValidGrid(g) && InBoard(p) && InBoard(q) && At(g, p) == At(g, q)
    ensures p == q
  {
    if p != q {
      var f := Flatten(g);
      FlattenAt(g, p);
      FlattenAt(g, q);
      var a, b := Index(p), Index(q);
      if a > b { a, b := b, a; }
      assert a != b by { PosAtIndex(p); PosAtIndex(q); }
      TwiceCounted(f, a, b);
      assert false;
    }
  }

  /** A value found at two indices is counted at least twice. */
  lemma TwiceCounted(f: seq<int>, a: int, b: int)
    requires 0 <= a < b < |f| && f[a] == f[b]
    ensures multiset(f)[f[a]] >= 2
  {
    assert f == f[..b] + f[b..];
    assert f[..b][a] == f[a] && f[b..][0] == f[b];
    assert f[a] in multiset(f[..b]) && f[a] in multiset(f[b..]);
  }

  /** In a valid grid every tile 0..8 occurs. */
  lemma ValidGridContains(g: Grid, v: int)
    requires ValidGrid(g) && 0 <= v <= 8
    ensures Position(g, v).Some?
  {
    assert v in multiset(Flatten(g));
    var k :| 0 <= k < 9 && Flatten(g)[k] == v;
    FlattenAt(g, PosAt(k));
    PositionCharacterised(g, v);
  }

  /** In a valid grid the position of the tile found at p is p itself. */
  lemma ValidGridPosition(g: Grid, p: Pos)
    requires ValidGrid(g) && InBoard(p)
    ensures Position(g, At(g, p)) == Some(p)
  {
    PositionCharacterised(g, At(g, p));
    var r := Position(g, At(g, p));
    assert r.Some?;
    ValidGridDistinct(g, r.value, p);
  }

  /** _find_empty on a valid grid finds the unique blank. */
  lemma BlankUnique(g: Grid)
    requires ValidGrid(g)
    ensures Position(g, 0).Some?
    ensures forall q :: InBoard(q) && At(g, q) == 0 ==> q == Position(g, 0).value
  {
    ValidGridContains(g, 0);
    forall q | InBoard(q) && At(g, q) == 0
      ensures q == Position(g, 0).value
    {
      ValidGridDistinct(g, q, Position(g, 0).value);
    }
  }

  // ---------------------------------------------------------------------------
  // Actions (actions, _get_valid_actions)
  // ---------------------------------------------------------------------------

  datatype Action = Up | Down | Left | Right

  /** The tie order in which the source lists the actions. */
  function Rank(a: Action): int {
    match a
    case Up => 0
    case Down => 1
    case Left => 2
    case Right => 3
  }

  const Directions: seq<Action> := [Up, Down, Left, Right]

  /** The cell the blank at b trades places with under a. */
  function Target(b: Pos, a: Action): Pos {
    match a
    case Up => Pos(b.row - 1, b.col)
    case Down => Pos(b.row + 1, b.col)
    case Left => Pos(b.row, b.col - 1)
    case Right => Pos(b.row, b.col + 1)
  }

  function Opposite(a: Action): Action {
    match a
    case Up => Down
    case Down => Up
    case Left => Right
    case Right => Left
  }

  predicate HasBlank(g: Grid)
    requires IsGrid(g)
  {
    Position(g, 0).Some?
  }

  function Blank(g: Grid): (b: Pos)
    requires IsGrid(g) && HasBlank(g)
    ensures InBoard(b) && At(g, b) == 0
  {
    Position(g, 0).value
  }

  /** The action a if the blank at b can make it, else nothing. */
  function Keep(b: Pos, a: Action): seq<Action> {
    if InBoard(Target(b, a)) then [a] else []
  }

  /** The candidates, in their order, whose target cell lies on the board. */
  function OnBoard(b: Pos, candidates: seq<Action>): seq<Action> {
    if candidates == [] then []
    else
      var last := candidates[|candidates| - 1];
      OnBoard(b, candidates[..|candidates| - 1]) + Keep(b, last)
  }

  /** Reference definition of the legal moves: the directions that keep the blank on the board. */
  function ValidActions(g: Grid): seq<Action>
    requires IsGrid(g) && HasBlank(g)
  {
    OnBoard(Blank(g), Directions)
  }

  /** A candidate survives exactly when its target cell is on the board. */
  lemma {:induction false} OnBoardMember(b: Pos, candidates: seq<Action>, a: Action)
    ensures a in OnBoard(b, candidates) <==> a in candidates && InBoard(Target(b, a))
  {
    if candidates != [] {
      var init := candidates[..|candidates| - 1];
      OnBoardMember(b, init, a);
      assert candidates == init + [candidates[|candidates| - 1]];
    }
  }

  /** The source's four tests, one per direction, in their order, for a blank at b. */
  function Tests(b: Pos): seq<Action> {
    (if b.row > 0 then [Up] else []) + (if b.row < 2 then [Down] else [])
    + (if b.col > 0 then [Left] else []) + (if b.col < 2 then [Right] else [])
  }

  /** Filtering the four directions is the same as running the four tests. */
  lemma ValidActionsUnfold(g: Grid)
    requires IsGrid(g) && HasBlank(g)
    ensures ValidActions(g) == Tests(Blank(g))
  {
    DirectionsUnfold(Blank(g));
  }

  lemma DirectionsUnfold(b: Pos)
    requires InBoard(b)
    ensures OnBoard(b, Directions) == Tests(b)
  {
    DirectionsKept(b);
    assert Keep(b, Up) == (if b.row > 0 then [Up] else []);
    assert Keep(b, Down) == (if b.row < 2 then [Down] else []);
    assert Keep(b, Left) == (if b.col > 0 then [Left] else []);
    assert Keep(b, Right) == (if b.col < 2 then [Right] else []);
  }

  /** Filtering the four directions keeps or drops each of them in turn. */
  lemma DirectionsKept(b: Pos)
    ensures OnBoard(b, Directions) == Keep(b, Up) + Keep(b, Down) + Keep(b, Left) + Keep(b, Right)
  {
    var up, down, left, right := Keep(b, Up), Keep(b, Down), Keep(b, Left), Keep(b, Right);
    assert OnBoard(b, [Up]) == up by {
      OnBoardSnoc(b, [], Up);
      assert [] + [Up] == [Up];
    }
    assert OnBoard(b, [Up, Down]) == up + down by {
      OnBoardSnoc(b, [Up], Down);
      assert [Up] + [Down] == [Up, Down];
    }
    assert OnBoard(b, [Up, Down, Left]) == up + down + left by {
      OnBoardSnoc(b, [Up, Down], Left);
      assert [Up, Down] + [Left] == [Up, Down, Left];
    }
    OnBoardSnoc(b, [Up, Down, Left], Right);
    assert [Up, Down, Left] + [Right] == Directions;
  }

  /** One more candidate is kept or dropped on its own. */
  lemma OnBoardSnoc(b: Pos, init: seq<Action>, last: Action)
    ensures OnBoard(b, init + [last]) == OnBoard(b, init) + Keep(b, last)
  {
    assert (init + [last])[..|init|] == init;
  }

  /** UP iff row > 0, DOWN iff row < 2, LEFT iff col > 0, RIGHT iff col < 2; 2 to 4 of them, in order. */
  lemma ValidActionsCharacterised(g: Grid)
    requires IsGrid(g) && HasBlank(g)
    ensures var acts, b := ValidActions(g), Blank(g);
      && (Up in acts <==> b.row > 0)
      && (Down in acts <==> b.row < 2)
      && (Left in acts <==> b.col > 0)
      && (Right in acts <==> b.col < 2)
      && 2 <= |acts| <= 4
      && forall i, j :: 0 <= i < j < |acts| ==> Rank(acts[i]) < Rank(acts[j])
  {
    var b := Blank(g);
    ValidActionsUnfold(g);
    TestsMembers(b);
    TestsCount(b);
    TestsOrdered(b);
  }

  lemma TestsMembers(b: Pos)
    ensures var acts := Tests(b);
      && (Up in acts <==> b.row > 0)
      && (Down in acts <==> b.row < 2)
      && (Left in acts <==> b.col > 0)
      && (Right in acts <==> b.col < 2)
  {
  }

  lemma TestsCount(b: Pos)
    requires InBoard(b)
    ensures 2 <= |Tests(b)| <= 4
  {
  }

  lemma TestsOrdered(b: Pos)
    ensures forall i, j :: 0 <= i < j < |Tests(b)| ==> Rank(Tests(b)[i]) < Rank(Tests(b)[j])
  {
  }

  /** actions(state): the UP/DOWN/LEFT/RIGHT tests appended in order. */
  method Actions(state: Grid) returns (actions: seq<Action>)
    requires IsGrid(state) && HasBlank(state)
    ensures actions == ValidActions(state)
  {
    actions := LegalMoves(state);
  }

  /** _get_valid_actions(state): a second copy of the same code. */
  method GetValidActions(state: Grid) returns (actions: seq<Action>)
    requires IsGrid(state) && HasBlank(state)
    ensures actions == ValidActions(state)
  {
    actions := LegalMoves(state);
  }

  /** The body shared by actions and _get_valid_actions. */
  method LegalMoves(state: Grid) returns (actions: seq<Action>)
    requires IsGrid(state) && HasBlank(state)
    ensures actions == ValidActions(state)
  {
    actions := [];
    var empty := FindEmpty(state);
    var emptyRow, emptyCol := empty.value.row, empty.value.col;
    if emptyRow > 0 {
      actions := actions + [Up];
    }
    if emptyRow < 2 {
      actions := actions + [Down];
    }
    if emptyCol > 0 {
      actions := actions + [Left];
    }
    if emptyCol < 2 {
      actions := actions + [Right];
    }
    ValidActionsUnfold(state);
  }

  // ---------------------------------------------------------------------------
  // Transition (result, _apply_action)
  // ---------------------------------------------------------------------------

  /**
   * The source indexes row or column blank+1 without a bounds check, which raises
   * IndexError past the last row or column; blank-1 = -1 silently wraps to index 2.
   */
  predicate CanApply(g: Grid, a: Action)
    requires IsGrid(g) && HasBlank(g)
  {
    Target(Blank(g), a).row < 3 && Target(Blank(g), a).col < 3
  }

  /** The swapping cell, after Python's index wrap-around. */
  function Partner(g: Grid, a: Action): (t: Pos)
    requires IsGrid(g) && HasBlank(g) && CanApply(g, a)
    ensures InBoard(t) && t != Blank(g)
  {
    Wrap(Target(Blank(g), a))
  }

  /** The successor state: blank and partner cell trade places. */
  function Moved(g: Grid, a: Action): Grid
    requires IsGrid(g) && HasBlank(g) && CanApply(g, a)
  {
    var b, t := Blank(g), Partner(g, a);
    Update(Update(g, b, At(g, t)), t, 0)
  }

  /** result(state, action): copy the rows, overwrite the blank and its partner, freeze. */
  method Result(state: Grid, action: Action) returns (next: Grid)
    requires IsGrid(state) && HasBlank(state) && CanApply(state, action)
    ensures next == Moved(state, action)
  {
    next := Swap(state, action);
  }

  /** _apply_action(state, action): a second copy of the same code. */
  method ApplyAction(state: Grid, action: Action) returns (next: Grid)
    requires IsGrid(state) && HasBlank(state) && CanApply(state, action)
    ensures next == Moved(state, action)
  {
    next := Swap(state, action);
  }

  /** The body shared by result and _apply_action. */
  method Swap(state: Grid, action: Action) returns (newState: Grid)
    requires IsGrid(state) && HasBlank(state) && CanApply(state, action)
    ensures newState == Moved(state, action)
  {
    newState := state;
    var empty := FindEmpty(state);
    var emptyRow, emptyCol := empty.value.row, empty.value.col;
    var r, c;
    match action {
      case Up => r, c := PyIndex(emptyRow - 1), emptyCol;
      case Down => r, c := emptyRow + 1, emptyCol;
      case Left => r, c := emptyRow, PyIndex(emptyCol - 1);
      case Right => r, c := emptyRow, emptyCol + 1;
    }
    newState := newState[emptyRow := newState[emptyRow][emptyCol := newState[r][c]]];
    newState := newState[r := newState[r][c := 0]];
  }

  /** Every transition, legal or wrapped, keeps the same multiset of tiles. */
  lemma MovePreservesTiles(g: Grid, a: Action)
    requires IsGrid(g) && HasBlank(g) && CanApply(g, a)
    ensures IsGrid(Moved(g, a))
    ensures multiset(Flatten(Moved(g, a))) == multiset(Flatten(g))
  {
    var b, t := Blank(g), Partner(g, a);
    var x := At(g, t);
    var g1 := Update(g, b, x);
    FlattenUpdate(g, b, x);
    FlattenUpdate(g1, t, 0);
    FlattenAt(g, b);
    FlattenAt(g, t);
    FlattenAt(g1, t);
    PosAtIndex(b);
    PosAtIndex(t);
    var f := Flatten(g);
    assert Index(b) != Index(t);
    assert Flatten(Moved(g, a)) == f[Index(b) := f[Index(t)]][Index(t) := f[Index(b)]];
    SwapCounts(f, Index(b), Index(t));
  }

  /** Exchanging two entries of a sequence keeps its multiset. */
  lemma SwapCounts(f: seq<int>, i: int, k: int)
    requires 0 <= i < |f| && 0 <= k < |f| && i != k
    ensures multiset(f[i := f[k]][k := f[i]]) == multiset(f)
  {
    var f1 := f[i := f[k]];
    assert f1[k] == f[k];
    assert multiset(f1) == multiset(f) - multiset{f[i]} + multiset{f[k]};
  }

  lemma MovePreservesValid(g: Grid, a: Action)
    requires ValidGrid(g) && HasBlank(g) && CanApply(g, a)
    ensures ValidGrid(Moved(g, a))
  {
    MovePreservesTiles(g, a);
  }

  /**
   * A legal move slides the blank one cell in the named direction: the blank's old cell
   * receives the tile from the target cell, and no other cell changes.
   */
  lemma MoveEffect(g: Grid, a: Action)
    requires ValidGrid(g) && HasBlank(g) && a in ValidActions(g)
    ensures CanApply(g, a)
    ensures var b, s := Blank(g), Moved(g, a);
      && IsGrid(s) && HasBlank(s)
      && Blank(s) == Target(b, a)
      && At(s, b) == At(g, Target(b, a))
      && forall q :: InBoard(q) && q != b && q != Target(b, a) ==> At(s, q) == At(g, q)
  {
    var b := Blank(g);
    var t := Target(b, a);
    OnBoardMember(b, Directions, a);
    assert InBoard(t) && Partner(g, a) == t;
    var s := Moved(g, a);
    assert At(s, t) == 0 && At(s, b) == At(g, t);
    MovePreservesValid(g, a);
    BlankUnique(s);
  }

  /** Opposite moves cancel: result(result(s, a), opposite(a)) == s. */
  lemma OppositeUndoes(g: Grid, a: Action)
    requires ValidGrid(g) && HasBlank(g) && a in ValidActions(g)
    ensures CanApply(g, a)
    ensures var s := Moved(g, a);
      && HasBlank(s) && Opposite(a) in ValidActions(s)
      && CanApply(s, Opposite(a)) && Moved(s, Opposite(a)) == g
  {
    MoveEffect(g, a);
    var b, s := Blank(g), Moved(g, a);
    var t := Target(b, a);
    MovePreservesValid(g, a);
    assert Target(t, Opposite(a)) == b;
    OnBoardMember(t, Directions, Opposite(a));
    MoveEffect(s, Opposite(a));
    var back := Moved(s, Opposite(a));
    forall q | InBoard(q)
      ensures At(back, q) == At(g, q)
    {
      if q == b {
      } else if q == t {
      } else {
      }
    }
    GridExtensionality(back, g);
  }

  // ---------------------------------------------------------------------------
  // Goal test, cost, heuristic
  // ---------------------------------------------------------------------------

  /** is_goal: structural equality with the goal grid. */
  predicate IsGoal(state: Grid, goal: Grid) {
    state == goal
  }

  /** cost: every step costs 1. */
  function Cost(state1: Grid, action: Action, state2: Grid): (c: int)
    ensures c > 0
  {
    1
  }

  function Abs(x: int): nat {
    if x < 0 then -x else x
  }

  /**
   * Every tile of the state occurs in the goal; otherwise _find_goal_position
   * returns None and unpacking it raises.
   */
  ghost predicate TilesFound(state: Grid, goal: Grid)
    requires IsGrid(state) && IsGrid(goal)
  {
    forall p :: InBoard(p) && At(state, p) != 0 ==> Position(goal, At(state, p)).Some?
  }

  /**
   * Distance of the tile at p from its goal cell; the blank contributes nothing.
   * A tile missing from the goal is given 0 here: the source crashes on it, and
   * ManhattanDistance excludes it by requiring TilesFound.
   */
  function TileDistance(state: Grid, goal: Grid, p: Pos): nat
    requires IsGrid(state) && IsGrid(goal) && InBoard(p)
  {
    if At(state, p) == 0 then 0
    else
      match Position(goal, At(state, p))
      case None => 0
      case Some(home) => Abs(p.row - home.row) + Abs(p.col - home.col)
  }

  /** Sum of the tile distances over the cells from (i, j) on, in row-major order. */
  function DistanceFrom(state: Grid, goal: Grid, i: int, j: int): nat
    requires IsGrid(state) && IsGrid(goal)
    requires 0 <= i <= 3 && 0 <= j <= 3
    decreases |state| - i, 3 - j
  {
    if i == 3 then 0
    else if j == 3 then DistanceFrom(state, goal, i + 1, 0)
    else TileDistance(state, goal, Pos(i, j)) + DistanceFrom(state, goal, i, j + 1)
  }

  /** Reference definition of the heuristic: the sum of per-tile Manhattan distances. */
  function Manhattan(state: Grid, goal: Grid): nat
    requires IsGrid(state) && IsGrid(goal)
  {
    DistanceFrom(state, goal, 0, 0)
  }

  /** _manhattan_distance: accumulate the distances of the non-blank tiles in nested loops. */
  method ManhattanDistance(state: Grid, goal: Grid) returns (distance: int)
    requires IsGrid(state) && IsGrid(goal) && TilesFound(state, goal)
    ensures distance == Manhattan(state, goal)
  {
    distance := 0;
    var i := 0;
    while i < 3
      invariant 0 <= i <= 3
      invariant distance + DistanceFrom(state, goal, i, 0) == Manhattan(state, goal)
    {
      var j := 0;
      while j < 3
        invariant 0 <= j <= 3
        invariant distance + DistanceFrom(state, goal, i, j) == Manhattan(state, goal)
      {
        if state[i][j] != 0 {
          var value := state[i][j];
          assert At(state, Pos(i, j)) == value;
          var home := FindGoalPosition(goal, value);
          TileCell(state, goal, i, j, home.value);
          distance := distance + Abs(i - home.value.row) + Abs(j - home.value.col);
        } else {
          BlankCell(state, goal, i, j);
        }
        j := j + 1;
      }
      RowEnd(state, goal, i);
      i := i + 1;
    }
  }

  /** A tile whose goal cell is home adds its distance from home to the running sum. */
  lemma TileCell(state: Grid, goal: Grid, i: int, j: int, home: Pos)
    requires IsGrid(state) && IsGrid(goal) && 0 <= i < 3 && 0 <= j < 3
    requires state[i][j] != 0 && Position(goal, state[i][j]) == Some(home)
    ensures DistanceFrom(state, goal, i, j) == Abs(i - home.row) + Abs(j - home.col) + DistanceFrom(state, goal, i, j + 1)
  {
  }

  /** The blank adds nothing to the running sum. */
  lemma BlankCell(state: Grid, goal: Grid, i: int, j: int)
    requires IsGrid(state) && IsGrid(goal) && 0 <= i < 3 && 0 <= j < 3 && state[i][j] == 0
    ensures DistanceFrom(state, goal, i, j) == DistanceFrom(state, goal, i, j + 1)
  {
  }

  /** The sum from the end of row i is the sum from the start of row i + 1. */
  lemma RowEnd(state: Grid, goal: Grid, i: int)
    requires IsGrid(state) && IsGrid(goal) && 0 <= i < 3
    ensures DistanceFrom(state, goal, i, 3) == DistanceFrom(state, goal, i + 1, 0)
  {
  }

  /** heuristic(state): the Manhattan distance to the goal. */
  method Heuristic(state: Grid, goal: Grid) returns (h: int)
    requires IsGrid(state) && IsGrid(goal) && TilesFound(state, goal)
    ensures h == Manhattan(state, goal)
  {
    h := ManhattanDistance(state, goal);
  }

  lemma ValidTilesFound(state: Grid, goal: Grid)
    requires ValidGrid(state) && ValidGrid(goal)
    ensures TilesFound(state, goal)
  {
    forall p | InBoard(p) && At(state, p) != 0
      ensures Position(goal, At(state, p)).Some?
    {
      ValidGridRange(state, p);
      ValidGridContains(goal, At(state, p));
    }
  }

  /** Two valid grids: the heuristic is 0 exactly on the goal. */
  lemma GoalIffZeroHeuristic(state: Grid, goal: Grid)
    requires ValidGrid(state) && ValidGrid(goal)
    ensures TilesFound(state, goal)
    ensures IsGoal(state, goal) <==> Manhattan(state, goal) == 0
  {
    ValidTilesFound(state, goal);
    if IsGoal(state, goal) {
      GoalHasZeroHeuristic(goal);
    }
    if Manhattan(state, goal) == 0 {
      ZeroHeuristicIsGoal(state, goal);
    }
  }

  lemma GoalHasZeroHeuristic(goal: Grid)
    requires ValidGrid(goal)
    ensures TilesFound(goal, goal) && Manhattan(goal, goal) == 0
  {
    ValidTilesFound(goal, goal);
    forall p | InBoard(p)
      ensures TileDistance(goal, goal, p) == 0
    {
      ValidGridPosition(goal, p);
    }
    ZeroTerms(goal, goal, 0, 0);
  }

  lemma ZeroHeuristicIsGoal(state: Grid, goal: Grid)
    requires ValidGrid(state) && ValidGrid(goal)
    requires Manhattan(state, goal) == 0
    ensures state == goal
  {
    forall p | InBoard(p)
      ensures At(state, p) == At(goal, p)
    {
      ZeroHeuristicCell(state, goal, p);
    }
    GridExtensionality(state, goal);
  }

  /** With a zero heuristic, each cell of the state agrees with the goal. */
  lemma ZeroHeuristicCell(state: Grid, goal: Grid, p: Pos)
    requires ValidGrid(state) && ValidGrid(goal) && InBoard(p)
    requires Manhattan(state, goal) == 0
    ensures At(state, p) == At(goal, p)
  {
    ValidTilesFound(state, goal);
    TermAtMostSum(state, goal, 0, 0, p);
    if At(state, p) != 0 {
      ZeroDistanceAtHome(state, goal, p);
    } else if At(goal, p) != 0 {
      // The tile the goal keeps at p sits elsewhere in the state, at distance > 0.
      var y := At(goal, p);
      ValidGridRange(goal, p);
      ValidGridContains(state, y);
      var q := Position(state, y).value;
      TermAtMostSum(state, goal, 0, 0, q);
      ZeroDistanceAtHome(state, goal, q);
      ValidGridDistinct(goal, p, q);
    }
  }

  /** A tile at distance 0 sits on the goal cell that holds the same tile. */
  lemma ZeroDistanceAtHome(state: Grid, goal: Grid, p: Pos)
    requires IsGrid(state) && IsGrid(goal) && InBoard(p) && Position(goal, At(state, p)).Some?
    requires At(state, p) != 0 && TileDistance(state, goal, p) == 0
    ensures At(goal, p) == At(state, p)
  {
    var home := Position(goal, At(state, p)).value;
    assert Abs(p.row - home.row) + Abs(p.col - home.col) == 0;
    assert home == p;
  }

  /** Each tile distance is bounded by the sum it contributes to. */
  lemma {:induction false} TermAtMostSum(state: Grid, goal: Grid, i: int, j: int, q: Pos)
    requires IsGrid(state) && IsGrid(goal)
    requires 0 <= i <= 3 && 0 <= j <= 3 && InBoard(q) && !Before(q, Pos(i, j))
    ensures TileDistance(state, goal, q) <= DistanceFrom(state, goal, i, j)
    decreases 3 - i, 3 - j
  {
    if j == 3 {
      TermAtMostSum(state, goal, i + 1, 0, q);
    } else if q != Pos(i, j) {
      TermAtMostSum(state, goal, i, j + 1, q);
    }
  }

  /** A sum whose every term is zero is zero. */
  lemma {:induction false} ZeroTerms(state: Grid, goal: Grid, i: int, j: int)
    requires IsGrid(state) && IsGrid(goal)
    requires 0 <= i <= 3 && 0 <= j <= 3
    requires forall q :: InBoard(q) && !Before(q, Pos(i, j)) ==> TileDistance(state, goal, q) == 0
    ensures DistanceFrom(state, goal, i, j) == 0
    decreases 3 - i, 3 - j
  {
    if i == 3 {
    } else if j == 3 {
      ZeroTerms(state, goal, i + 1, 0);
    } else {
      assert TileDistance(state, goal, Pos(i, j)) == 0;
      ZeroTerms(state, goal, i, j + 1);
    }
  }

  /** The change of the term at cell p from s to s', still to come in a sum that starts at (i, j). */
  function Pending(s: Grid, s': Grid, goal: Grid, p: Pos, i: int, j: int): int
    requires IsGrid(s) && IsGrid(s') && IsGrid(goal) && InBoard(p)
  {
    if Before(p, Pos(i, j)) then 0 else TileDistance(s', goal, p) - TileDistance(s, goal, p)
  }

  lemma PendingStep(s: Grid, s': Grid, goal: Grid, p: Pos, i: int, j: int)
    requires IsGrid(s) && IsGrid(s') && IsGrid(goal) && InBoard(p) && 0 <= i < 3 && 0 <= j < 3
    ensures Pending(s, s', goal, p, i, j) ==
      (if p == Pos(i, j) then TileDistance(s', goal, p) - TileDistance(s, goal, p) else 0) +
      Pending(s, s', goal, p, i, j + 1)
  {
  }

  lemma PendingRow(s: Grid, s': Grid, goal: Grid, p: Pos, i: int)
    requires IsGrid(s) && IsGrid(s') && IsGrid(goal) && InBoard(p) && 0 <= i < 3
    ensures Pending(s, s', goal, p, i, 3) == Pending(s, s', goal, p, i + 1, 0)
  {
  }

  /** Two grids that differ only at the cells p and q: their sums differ by those cells' terms. */
  lemma {:induction false} DistanceDifference(s: Grid, s': Grid, goal: Grid, p: Pos, q: Pos, i: int, j: int)
    requires IsGrid(s) && IsGrid(s') && IsGrid(goal)
    requires InBoard(p) && InBoard(q) && p != q && 0 <= i <= 3 && 0 <= j <= 3
    requires forall c :: InBoard(c) && c != p && c != q ==> At(s', c) == At(s, c)
    ensures DistanceFrom(s', goal, i, j) - DistanceFrom(s, goal, i, j) ==
      Pending(s, s', goal, p, i, j) + Pending(s, s', goal, q, i, j)
    decreases 3 - i, 3 - j
  {
    if i == 3 {
    } else if j == 3 {
      DistanceDifference(s, s', goal, p, q, i + 1, 0);
      DifferenceRow(s, s', goal, p, q, i);
    } else {
      DistanceDifference(s, s', goal, p, q, i, j + 1);
      DifferenceStep(s, s', goal, p, q, i, j);
    }
  }

  /** The end of a row in the induction in DistanceDifference. */
  lemma DifferenceRow(s: Grid, s': Grid, goal: Grid, p: Pos, q: Pos, i: int)
    requires IsGrid(s) && IsGrid(s') && IsGrid(goal) && InBoard(p) && InBoard(q) && 0 <= i < 3
    requires DistanceFrom(s', goal, i + 1, 0) - DistanceFrom(s, goal, i + 1, 0) ==
      Pending(s, s', goal, p, i + 1, 0) + Pending(s, s', goal, q, i + 1, 0)
    ensures DistanceFrom(s', goal, i, 3) - DistanceFrom(s, goal, i, 3) ==
      Pending(s, s', goal, p, i, 3) + Pending(s, s', goal, q, i, 3)
  {
    PendingRow(s, s', goal, p, i);
    PendingRow(s, s', goal, q, i);
  }

  /** One cell of the induction in DistanceDifference. */
  lemma DifferenceStep(s: Grid, s': Grid, goal: Grid, p: Pos, q: Pos, i: int, j: int)
    requires IsGrid(s) && IsGrid(s') && IsGrid(goal)
    requires InBoard(p) && InBoard(q) && p != q && 0 <= i < 3 && 0 <= j < 3
    requires Pos(i, j) != p && Pos(i, j) != q ==> At(s', Pos(i, j)) == At(s, Pos(i, j))
    requires DistanceFrom(s', goal, i, j + 1) - DistanceFrom(s, goal, i, j + 1) ==
      Pending(s, s', goal, p, i, j + 1) + Pending(s, s', goal, q, i, j + 1)
    ensures DistanceFrom(s', goal, i, j) - DistanceFrom(s, goal, i, j) ==
      Pending(s, s', goal, p, i, j) + Pending(s, s', goal, q, i, j)
  {
    PendingStep(s, s', goal, p, i, j);
    PendingStep(s, s', goal, q, i, j);
    var c := Pos(i, j);
    assert DistanceFrom(s, goal, i, j) == TileDistance(s, goal, c) + DistanceFrom(s, goal, i, j + 1);
    assert DistanceFrom(s', goal, i, j) == TileDistance(s', goal, c) + DistanceFrom(s', goal, i, j + 1);
    if c != p && c != q {
      assert TileDistance(s', goal, c) == TileDistance(s, goal, c);
    }
  }

  /**
   * The Manhattan heuristic is consistent: one legal move changes it by exactly one
   * step cost, so it never drops by more than the cost of the move.
   */
  lemma HeuristicConsistent(state: Grid, goal: Grid, a: Action)
    requires ValidGrid(state) && ValidGrid(goal) && HasBlank(state) && a in ValidActions(state)
    ensures CanApply(state, a)
    ensures var next := Moved(state, a);
      && ValidGrid(next) && TilesFound(state, goal) && TilesFound(next, goal)
      && (Manhattan(next, goal) == Manhattan(state, goal) + 1 ||
          Manhattan(next, goal) == Manhattan(state, goal) - 1)
      && Manhattan(state, goal) <= Cost(state, a, next) + Manhattan(next, goal)
  {
    MoveEffect(state, a);
    MovePreservesValid(state, a);
    ValidTilesFound(state, goal);
    ValidTilesFound(Moved(state, a), goal);
    var b := Blank(state);
    var t := Target(b, a);
    MovedTileDistance(state, goal, a);
    DistanceDifference(state, Moved(state, a), goal, b, t, 0, 0);
  }

  /**
   * Under a legal move only the moved tile changes its distance, and by exactly one:
   * the blank contributes nothing before or after.
   */
  lemma MovedTileDistance(state: Grid, goal: Grid, a: Action)
    requires ValidGrid(state) && ValidGrid(goal) && HasBlank(state) && a in ValidActions(state)
    ensures CanApply(state, a)
    ensures var next, b := Moved(state, a), Blank(state);
      var t := Target(b, a);
      && InBoard(t) && b != t && ValidGrid(next)
      && (forall c :: InBoard(c) && c != b && c != t ==> At(next, c) == At(state, c))
      && TileDistance(state, goal, b) == 0 && TileDistance(next, goal, t) == 0
      && (TileDistance(next, goal, b) == TileDistance(state, goal, t) + 1 ||
          TileDistance(next, goal, b) == TileDistance(state, goal, t) - 1)
  {
    MoveEffect(state, a);
    var next := Moved(state, a);
    MovePreservesValid(state, a);
    var b := Blank(state);
    var t := Target(b, a);
    assert At(state, t) != 0 by {
      if At(state, t) == 0 { ValidGridDistinct(state, b, t); }
    }
    ValidGridRange(state, t);
    ValidGridContains(goal, At(state, t));
    StepDistance(state, next, goal, b, t);
  }

  /** A tile slid from t to the adjacent blank cell b moves one step nearer to or farther from home. */
  lemma StepDistance(s: Grid, next: Grid, goal: Grid, b: Pos, t: Pos)
    requires IsGrid(s) && IsGrid(next) && IsGrid(goal)
    requires InBoard(b) && InBoard(t) && Abs(b.row - t.row) + Abs(b.col - t.col) == 1
    requires At(s, b) == 0 && At(next, t) == 0 && At(next, b) == At(s, t) != 0
    requires Position(goal, At(s, t)).Some?
    ensures TileDistance(s, goal, b) == 0 && TileDistance(next, goal, t) == 0
    ensures TileDistance(next, goal, b) == TileDistance(s, goal, t) + 1 ||
            TileDistance(next, goal, b) == TileDistance(s, goal, t) - 1
  {
    var home := Position(goal, At(s, t)).value;
    HomeDistance(next, goal, b, home);
    HomeDistance(s, goal, t, home);
    AdjacentDistance(b, t, home);
  }

  /** The distance of a tile whose goal cell is home. */
  lemma HomeDistance(state: Grid, goal: Grid, p: Pos, home: Pos)
    requires IsGrid(state) && IsGrid(goal) && InBoard(p) && At(state, p) != 0
    requires Position(goal, At(state, p)) == Some(home)
    ensures TileDistance(state, goal, p) == Abs(p.row - home.row) + Abs(p.col - home.col)
  {
  }

  /** Adjacent cells are one step apart from any third cell's point of view. */
  lemma AdjacentDistance(b: Pos, t: Pos, home: Pos)
    requires Abs(b.row - t.row) + Abs(b.col - t.col) == 1
    ensures Abs(b.row - home.row) + Abs(b.col - home.col) == Abs(t.row - home.row) + Abs(t.col - home.col) + 1 ||
            Abs(b.row - home.row) + Abs(b.col - home.col) == Abs(t.row - home.row) + Abs(t.col - home.col) - 1
  {
  }

  /** The default goal and initial state are valid grids, and the heuristic vanishes on the goal. */
  lemma DefaultGoalHeuristic()
    ensures ValidGrid(DefaultGoal) && ValidGrid(DefaultInitial)
    ensures TilesFound(DefaultGoal, DefaultGoal) && Manhattan(DefaultGoal, DefaultGoal) == 0
  {
    DefaultGridsValid();
    GoalHasZeroHeuristic(DefaultGoal);
  }

  lemma DefaultGridsValid()
    ensures ValidGrid(DefaultGoal) && ValidGrid(DefaultInitial)
  {
    DefaultGoalValid();
    DefaultInitialValid();
  }

  lemma DefaultGoalValid()
    ensures ValidGrid(DefaultGoal)
  {
    TilesAsRows(DefaultGoal);
  }

  lemma DefaultInitialValid()
    ensures ValidGrid(DefaultInitial)
  {
    TilesAsRows(DefaultInitial);
  }

  /** A grid is valid when its three rows together hold each tile once. */
  lemma TilesAsRows(g: Grid)
    requires IsGrid(g)
    requires multiset(g[0]) + multiset(g[1]) + multiset(g[2]) == multiset{0, 1, 2, 3, 4, 5, 6, 7, 8}
    ensures ValidGrid(g)
  {
    assert multiset(Flatten(g)) == multiset(g[0]) + multiset(g[1]) + multiset(g[2]);
    forall x
      ensures multiset(Flatten(g))[x] == if 0 <= x <= 8 then 1 else 0
    {
      TileSetCount(x);
    }
  }

  lemma TileSetCount(x: int)
    ensures multiset{0, 1, 2, 3, 4, 5, 6, 7, 8}[x] == if 0 <= x <= 8 then 1 else 0
  {
  }

  /** On the default initial state the heuristic is 5 (tiles 2, 1 and 6 one step away, tile 8 two). */
  lemma DefaultInitialHeuristic()
    ensures ValidGrid(DefaultInitial) && ValidGrid(DefaultGoal)
    ensures TilesFound(DefaultInitial, DefaultGoal) && Manhattan(DefaultInitial, DefaultGoal) == 5
  {
    DefaultGridsValid();
    ValidTilesFound(DefaultInitial, DefaultGoal);
    GoalHomes(DefaultGoal);
    InitialAgainstGoal(DefaultInitial, DefaultGoal);
  }

  /** The default initial state, described cell by cell, against a goal that keeps the tiles where the default goal does. */
  lemma InitialAgainstGoal(s: Grid, g: Grid)
    requires IsGrid(s) && IsGrid(g)
    requires s[0] == [2, 8, 3] && s[1] == [1, 6, 4] && s[2] == [7, 0, 5]
    requires Position(g, 1) == Some(Pos(0, 0)) && Position(g, 2) == Some(Pos(0, 1))
    requires Position(g, 3) == Some(Pos(0, 2)) && Position(g, 4) == Some(Pos(1, 2))
    requires Position(g, 5) == Some(Pos(2, 2)) && Position(g, 6) == Some(Pos(2, 1))
    requires Position(g, 7) == Some(Pos(2, 0)) && Position(g, 8) == Some(Pos(1, 0))
    ensures Manhattan(s, g) == 5
  {
    InitialRow0(s, g);
    InitialRow1(s, g);
    InitialRow2(s, g);
  }

  /** Where the default goal keeps each tile of the default initial state. */
  lemma GoalHomes(g: Grid)
    requires ValidGrid(g)
    requires g[0] == [1, 2, 3] && g[1] == [8, 0, 4] && g[2] == [7, 6, 5]
    ensures Position(g, 1) == Some(Pos(0, 0)) && Position(g, 2) == Some(Pos(0, 1))
    ensures Position(g, 3) == Some(Pos(0, 2)) && Position(g, 4) == Some(Pos(1, 2))
    ensures Position(g, 5) == Some(Pos(2, 2)) && Position(g, 6) == Some(Pos(2, 1))
    ensures Position(g, 7) == Some(Pos(2, 0)) && Position(g, 8) == Some(Pos(1, 0))
  {
    ValidGridPosition(g, Pos(0, 0));
    ValidGridPosition(g, Pos(0, 1));
    ValidGridPosition(g, Pos(0, 2));
    ValidGridPosition(g, Pos(1, 0));
    ValidGridPosition(g, Pos(1, 2));
    ValidGridPosition(g, Pos(2, 0));
    ValidGridPosition(g, Pos(2, 1));
    ValidGridPosition(g, Pos(2, 2));
  }

  lemma InitialRow0(s: Grid, g: Grid)
    requires IsGrid(s) && IsGrid(g) && s[0] == [2, 8, 3]
    requires Position(g, 2) == Some(Pos(0, 1)) && Position(g, 8) == Some(Pos(1, 0))
    requires Position(g, 3) == Some(Pos(0, 2))
    ensures DistanceFrom(s, g, 0, 0) == 3 + DistanceFrom(s, g, 1, 0)
  {
    DistanceRow(s, g, 0);
  }

  lemma InitialRow1(s: Grid, g: Grid)
    requires IsGrid(s) && IsGrid(g) && s[1] == [1, 6, 4]
    requires Position(g, 1) == Some(Pos(0, 0)) && Position(g, 6) == Some(Pos(2, 1))
    requires Position(g, 4) == Some(Pos(1, 2))
    ensures DistanceFrom(s, g, 1, 0) == 2 + DistanceFrom(s, g, 2, 0)
  {
    DistanceRow(s, g, 1);
  }

  lemma InitialRow2(s: Grid, g: Grid)
    requires IsGrid(s) && IsGrid(g) && s[2] == [7, 0, 5]
    requires Position(g, 7) == Some(Pos(2, 0)) && Position(g, 5) == Some(Pos(2, 2))
    ensures DistanceFrom(s, g, 2, 0) == 0
  {
    DistanceRow(s, g, 2);
  }

  /** One row of the sum. */
  lemma DistanceRow(state: Grid, goal: Grid, i: int)
    requires IsGrid(state) && IsGrid(goal) && 0 <= i < 3
    ensures DistanceFrom(state, goal, i, 0) ==
      TileDistance(state, goal, Pos(i, 0)) + TileDistance(state, goal, Pos(i, 1)) +
      TileDistance(state, goal, Pos(i, 2)) + DistanceFrom(state, goal, i + 1, 0)
  {
    assert DistanceFrom(state, goal, i, 2) == TileDistance(state, goal, Pos(i, 2)) + DistanceFrom(state, goal, i + 1, 0);
  }

}
