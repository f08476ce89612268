/**
 * The 8-queens problem handed to the search engine: a state is the tuple of the
 * columns of the queens placed so far, one per row from row 0 down; a move places
 * the next queen in a column no earlier queen attacks.
 */
module EightQueens {

  /** The columns of the queens of rows 0, 1, ..., |state| - 1. */
  type State = seq<int>

  const Size: int := 8

  function Abs(x: int): nat {
    if x < 0 then -x else x
  }

  /** A queen at (r1, c1) and one at (r2, c2) share a column or a diagonal. */
  predicate Attacks(r1: int, c1: int, r2: int, c2: int) {
    c1 == c2 || Abs(r1 - r2) == Abs(c1 - c2)
  }

  /** No queen of the state attacks (row, col). */
  predicate Safe(state: State, row: int, col: int) {
    forall k :: 0 <= k < |state| ==> !Attacks(k, state[k], row, col)
  }

  /** _is_safe: scan the placed queens, return False at the first one that attacks. */
  method IsSafe(state: State, row: int, col: int) returns (safe: bool)
    ensures safe <==> Safe(state, row, col)
  {
    var k := 0;
    while k < |state|
      invariant 0 <= k <= |state|
      invariant forall m :: 0 <= m < k ==> !Attacks(m, state[m], row, col)
    {
      if state[k] == col {
        return false;
      }
      if Abs(k - row) == Abs(state[k] - col) {
        return false;
      }
      k := k + 1;
    }
    return true;
  }

  // ---------------------------------------------------------------------------
  // Legal moves (actions, result, is_goal, cost)
  // ---------------------------------------------------------------------------

  /** The columns 0, 1, ..., c - 1 that are safe for row, in ascending order. */
  function SafeBelow(state: State, row: int, c: int): (cols: seq<int>)
    requires 0 <= c <= Size
    ensures |cols| <= c
  {
    if c == 0 then []
    else SafeBelow(state, row, c - 1) + (if Safe(state, row, c - 1) then [c - 1] else [])
  }

  /** Only safe columns below c are listed, in ascending order. */
  lemma {:induction false} SafeBelowSound(state: State, row: int, c: int)
    requires 0 <= c <= Size
    ensures forall i :: 0 <= i < |SafeBelow(state, row, c)| ==>
      0 <= SafeBelow(state, row, c)[i] < c && Safe(state, row, SafeBelow(state, row, c)[i])
    ensures forall i, j :: 0 <= i < j < |SafeBelow(state, row, c)| ==>
      SafeBelow(state, row, c)[i] < SafeBelow(state, row, c)[j]
  {
    if c > 0 {
      SafeBelowSound(state, row, c - 1);
      var prev := SafeBelow(state, row, c - 1);
      var cols := SafeBelow(state, row, c);
      assert cols == prev + (if Safe(state, row, c - 1) then [c - 1] else []);
      forall i | 0 <= i < |cols|
        ensures 0 <= cols[i] < c && Safe(state, row, cols[i])
      {
        if i < |prev| {
          assert cols[i] == prev[i];
        } else {
          assert Safe(state, row, c - 1) && cols[i] == c - 1;
        }
      }
      forall i, j | 0 <= i < j < |cols|
        ensures cols[i] < cols[j]
      {
        assert cols[i] == prev[i];
        if j < |prev| {
          assert cols[j] == prev[j];
        }
      }
    }
  }

  /** Every safe column below c is listed. */
  lemma {:induction false} SafeBelowComplete(state: State, row: int, c: int, x: int)
    requires 0 <= x < c <= Size && Safe(state, row, x)
    ensures x in SafeBelow(state, row, c)
  {
    if x < c - 1 {
      SafeBelowComplete(state, row, c - 1, x);
    }
  }

  /** Reference definition of actions: none on a full board, else the safe columns of the next row. */
  function SafeColumns(state: State): seq<int> {
    if |state| == Size then [] else SafeBelow(state, |state|, Size)
  }

  /** actions(state): try every column of the next row in order and collect the safe ones. */
  method Actions(state: State) returns (validPositions: seq<int>)
    ensures validPositions == SafeColumns(state)
  {
    if |state| == Size {
      return [];
    }
    validPositions := [];
    var row := |state|;
    var col := 0;
    while col < Size
      invariant 0 <= col <= Size
      invariant validPositions == SafeBelow(state, row, col)
    {
      var safe := IsSafe(state, row, col);
      if safe {
        validPositions := validPositions + [col];
      }
      col := col + 1;
    }
  }

  /** The legal moves, as the search sees them. */
  lemma ActionsCharacterised(state: State, col: int)
    ensures |state| == Size ==> SafeColumns(state) == []
    ensures col in SafeColumns(state) <==> |state| != Size && 0 <= col < Size && Safe(state, |state|, col)
    ensures forall i, j :: 0 <= i < j < |SafeColumns(state)| ==> SafeColumns(state)[i] < SafeColumns(state)[j]
  {
    if |state| != Size {
      SafeBelowSound(state, |state|, Size);
      if 0 <= col < Size && Safe(state, |state|, col) {
        SafeBelowComplete(state, |state|, Size, col);
      }
    }
  }

  /** result(state, action): the tuple with the new queen's column appended. */
  function Result(state: State, action: int): (r: State)
    ensures |r| == |state| + 1 && r[..|state|] == state && r[|state|] == action
  {
    state + [action]
  }

  /** is_goal: all eight rows hold a queen, so the search offers no further action. */
  predicate IsGoal(state: State): (b: bool)
    ensures b ==> SafeColumns(state) == []
  {
    |state| == Size
  }

  /** cost: every placement costs 1. */
  function Cost(state1: State, action: int, state2: State): (c: int)
    ensures c > 0
  {
    1
  }

  /** The cost the search accumulates along the placements that build s from (). */
  function PathCost(s: State): int
    decreases |s|
  {
    if s == [] then 0 else PathCost(s[..|s| - 1]) + Cost(s[..|s| - 1], s[|s| - 1], s)
  }

  /** A state's path cost is its number of queens: a complete placement costs 8. */
  lemma {:induction false} PathCostIsDepth(s: State)
    ensures PathCost(s) == |s|
    ensures IsGoal(s) ==> PathCost(s) == Size
  {
    if s != [] {
      PathCostIsDepth(s[..|s| - 1]);
    }
  }

  // ---------------------------------------------------------------------------
  // The invariant of the search space
  // ---------------------------------------------------------------------------

  /** At most 8 queens, all on the board, no two sharing a column or a diagonal. */
  predicate Consistent(s: State) {
    && |s| <= Size
    && (forall k :: 0 <= k < |s| ==> 0 <= s[k] < Size)
    && (forall i, j :: 0 <= i < j < |s| ==> !Attacks(i, s[i], j, s[j]))
  }

  /** The states the search reaches from the empty tuple through actions and result. */
  ghost predicate Reachable(s: State)
    decreases |s|
  {
    s == [] || (Reachable(s[..|s| - 1]) && s[|s| - 1] in SafeColumns(s[..|s| - 1]))
  }

  /** Appending a column keeps a placement consistent exactly when the move is legal. */
  lemma ResultConsistent(s: State, col: int)
    requires Consistent(s)
    ensures Consistent(Result(s, col)) <==> col in SafeColumns(s)
  {
    var t := Result(s, col);
    assert t[..|s|] == s;
    if Consistent(t) {
      forall k | 0 <= k < |s|
        ensures !Attacks(k, s[k], |s|, col)
      {
        assert t[k] == s[k] && t[|s|] == col;
      }
      ActionsCharacterised(s, col);
    }
    if col in SafeColumns(s) {
      ActionsCharacterised(s, col);
      forall i, j | 0 <= i < j < |t|
        ensures !Attacks(i, t[i], j, t[j])
      {
        if j == |s| {
          assert !Attacks(i, s[i], |s|, col);
        }
      }
    }
  }

  /** Every reachable state is consistent. */
  lemma {:induction false} ReachableIsConsistent(s: State)
    requires Reachable(s)
    ensures Consistent(s)
  {
    if s != [] {
      var p := s[..|s| - 1];
      ReachableIsConsistent(p);
      ResultConsistent(p, s[|s| - 1]);
      assert Result(p, s[|s| - 1]) == s;
    }
  }

  /** Removing the last queens keeps a placement consistent. */
  lemma PrefixConsistent(s: State, n: int)
    requires Consistent(s) && 0 <= n <= |s|
    ensures Consistent(s[..n])
  {
    var p := s[..n];
    forall i, j | 0 <= i < j < |p|
      ensures !Attacks(i, p[i], j, p[j])
    {
      assert p[i] == s[i] && p[j] == s[j];
    }
  }

  /** Every consistent state is reachable: the search space is exactly the consistent placements. */
  lemma {:induction false} ConsistentIsReachable(s: State)
    requires Consistent(s)
    ensures Reachable(s)
  {
    if s != [] {
      var p, col := s[..|s| - 1], s[|s| - 1];
      PrefixConsistent(s, |s| - 1);
      ConsistentIsReachable(p);
      assert Result(p, col) == s;
      ResultConsistent(p, col);
      ExtendReachable(p, col);
    }
  }

  /** A legal move from a reachable state reaches its result. */
  lemma ExtendReachable(p: State, col: int)
    requires Reachable(p) && col in SafeColumns(p)
    ensures Reachable(Result(p, col))
  {
    assert Result(p, col)[..|p|] == p;
  }

  // ---------------------------------------------------------------------------
  // Heuristic
  // ---------------------------------------------------------------------------

  /** The heuristic's value: a count, or float('inf') for a dead end. */
  datatype HValue = Finite(n: int) | Infinity

  /** The key order Python's comparison gives: every count is below infinity. */
  predicate KeyLe(a: HValue, b: HValue) {
    b.Infinity? || (a.Finite? && a.n <= b.n)
  }

  /** The diagonal conflicts of queen i with the queens j, j + 1, ... below it. */
  function ConflictsWith(s: State, i: int, j: int): (n: nat)
    requires 0 <= i < |s| && i < j <= |s|
    ensures n == 0 <==> forall m :: j <= m < |s| ==> Abs(i - m) != Abs(s[i] - s[m])
    decreases |s| - j
  {
    if j == |s| then 0
    else (if Abs(i - j) == Abs(s[i] - s[j]) then 1 else 0) + ConflictsWith(s, i, j + 1)
  }

  /** The diagonal conflicts of the pairs whose upper queen is i or below. */
  function ConflictsFrom(s: State, i: int): (n: nat)
    requires 0 <= i <= |s|
    ensures n == 0 <==> forall a, b :: i <= a < b < |s| ==> Abs(a - b) != Abs(s[a] - s[b])
    decreases |s| - i
  {
    if i == |s| then 0
    else
      var here := ConflictsWith(s, i, i + 1);
      assert here == 0 <==> forall b :: i < b < |s| ==> Abs(i - b) != Abs(s[i] - s[b]);
      here + ConflictsFrom(s, i + 1)
  }

  /** Reference definition of the conflicts counter: the pairs of queens on a common diagonal. */
  function DiagonalConflicts(s: State): nat {
    ConflictsFrom(s, 0)
  }

  /** Reference definition of the heuristic. */
  function HeuristicValue(s: State): HValue {
    if IsGoal(s) then Finite(0)
    else
      var remaining := Size - |s|;
      var available := |SafeBelow(s, |s|, Size)|;
      if available == 0 && remaining > 0 then Infinity
      else Finite(remaining + DiagonalConflicts(s) + (Size - available))
  }

  /** heuristic(state): 0 on a goal, else the diagonal-conflict and available-column counters. */
  method Heuristic(state: State) returns (h: HValue)
    ensures h == HeuristicValue(state)
  {
    if |state| == Size {
      return Finite(0);
    }
    var remainingQueens := Size - |state|;
    var conflicts := DiagonalConflictCount(state);
    var availableCols := AvailableColumns(state, |state|);
    if availableCols == 0 && remainingQueens > 0 {
      return Infinity;
    }
    return Finite(remainingQueens + conflicts + (Size - availableCols));
  }

  /** The double loop of heuristic that counts pairs on a common diagonal. */
  method DiagonalConflictCount(state: State) returns (conflicts: int)
    ensures conflicts == DiagonalConflicts(state)
  {
    conflicts := 0;
    var i := 0;
    while i < |state|
      invariant 0 <= i <= |state|
      invariant conflicts + ConflictsFrom(state, i) == DiagonalConflicts(state)
    {
      var j := i + 1;
      while j < |state|
        invariant i + 1 <= j <= |state|
        invariant conflicts + ConflictsWith(state, i, j) + ConflictsFrom(state, i + 1) == DiagonalConflicts(state)
      {
        if Abs(i - j) == Abs(state[i] - state[j]) {
          conflicts := conflicts + 1;
        }
        j := j + 1;
      }
      i := i + 1;
    }
  }

  /** The loop of heuristic that counts the safe columns of the next row. */
  method AvailableColumns(state: State, nextRow: int) returns (availableCols: int)
    ensures availableCols == |SafeBelow(state, nextRow, Size)|
  {
    availableCols := 0;
    var col := 0;
    while col < Size
      invariant 0 <= col <= Size
      invariant availableCols == |SafeBelow(state, nextRow, col)|
    {
      var safe := IsSafe(state, nextRow, col);
      if safe {
        availableCols := availableCols + 1;
      }
      col := col + 1;
    }
  }

  /** A consistent placement has no diagonal conflicts, so on the search space that term is 0. */
  lemma ConsistentNoConflicts(s: State)
    requires Consistent(s)
    ensures DiagonalConflicts(s) == 0
  {
    forall a, b | 0 <= a < b < |s|
      ensures Abs(a - b) != Abs(s[a] - s[b])
    {
      assert !Attacks(a, s[a], b, s[b]);
    }
  }

  /**
   * The value of the heuristic on the search space: 0 exactly on goals, infinity exactly
   * on dead ends, and otherwise the queens still to place plus the columns the next row
   * loses, which is at least the number of queens still to place.
   */
  lemma HeuristicOnConsistent(s: State)
    requires Consistent(s)
    ensures IsGoal(s) ==> HeuristicValue(s) == Finite(0)
    ensures HeuristicValue(s) == Infinity <==> !IsGoal(s) && SafeColumns(s) == []
    ensures !IsGoal(s) && SafeColumns(s) != [] ==>
      HeuristicValue(s) == Finite((Size - |s|) + (Size - |SafeColumns(s)|))
    ensures HeuristicValue(s).Finite? ==> HeuristicValue(s).n >= Size - |s|
  {
    ConsistentNoConflicts(s);
  }
}
