/**
 * The exhaustive enumerations of find_all_solutions and find_all_with_algorithm:
 * a depth-first placement of one queen per row that appends every complete
 * placement it reaches to a shared list, skipping those already in a shared
 * visited set. The plain and greedy variants try the safe columns in ascending
 * order; the guided variant tries them sorted by the problem's heuristic.
 */
module QueenSearch {
  import opened EightQueens

  // ---------------------------------------------------------------------------
  // The depth-first search tree
  // ---------------------------------------------------------------------------

  /** The complete placements below t, in the order the plain depth-first search reaches them. */
  function Completions(t: State): seq<State>
    requires |t| <= Size
    decreases Size - |t|, 1
  {
    if |t| == Size then [t] else CompletionsOf(t, SafeColumns(t))
  }

  /** The completions below t + [c] for each c of cols, one after another. */
  function CompletionsOf(t: State, cols: seq<int>): seq<State>
    requires |t| < Size
    decreases Size - |t|, 0, |cols|
  {
    if cols == [] then [] else Completions(t + [cols[0]]) + CompletionsOf(t, cols[1..])
  }

  /** The safe columns of the next row with the heuristic value of the state each one leads to. */
  function Scored(t: State, cols: seq<int>): (r: seq<(int, HValue)>)
    ensures |r| == |cols|
    ensures forall i :: 0 <= i < |cols| ==> r[i] == (cols[i], HeuristicValue(t + [cols[i]]))
  {
    seq(|cols|, i requires 0 <= i < |cols| => (cols[i], HeuristicValue(t + [cols[i]])))
  }

  /** The columns of a list of scored moves. */
  function Columns(moves: seq<(int, HValue)>): (cols: seq<int>)
    ensures |cols| == |moves|
    ensures forall i :: 0 <= i < |moves| ==> cols[i] == moves[i].0
  {
    seq(|moves|, i requires 0 <= i < |moves| => moves[i].0)
  }

  /** The order in which guided_dfs tries the safe columns: sorted by the heuristic. */
  function GuidedOrder(t: State): seq<int> {
    Columns(SortByKey(Scored(t, SafeColumns(t))))
  }

  /** The complete placements below t, in the order guided_dfs reaches them. */
  function GuidedCompletions(t: State): seq<State>
    requires |t| <= Size
    decreases Size - |t|, 1
  {
    if |t| == Size then [t] else GuidedCompletionsOf(t, GuidedOrder(t))
  }

  function GuidedCompletionsOf(t: State, cols: seq<int>): seq<State>
    requires |t| < Size
    decreases Size - |t|, 0, |cols|
  {
    if cols == [] then [] else GuidedCompletions(t + [cols[0]]) + GuidedCompletionsOf(t, cols[1..])
  }

  // ---------------------------------------------------------------------------
  // The stable sort of guided_dfs (list.sort with a key)
  // ---------------------------------------------------------------------------

  /** Insert x before the first element whose key is not below x's. */
  function Insert(x: (int, HValue), s: seq<(int, HValue)>): (r: seq<(int, HValue)>)
    ensures multiset(r) == multiset(s) + multiset{x}
    ensures |r| == |s| + 1
    ensures r[0] == x || (s != [] && r[0] == s[0])
  {
    if s == [] then [x]
    else if KeyLe(x.1, s[0].1) then [x] + s
    else
      assert s == [s[0]] + s[1..];
      [s[0]] + Insert(x, s[1..])
  }

  /** Insertion sort by the heuristic value; among equal keys the input order is kept. */
  function SortByKey(s: seq<(int, HValue)>): (r: seq<(int, HValue)>)
    ensures multiset(r) == multiset(s)
  {
    if s == [] then []
    else
      assert s == [s[0]] + s[1..];
      Insert(s[0], SortByKey(s[1..]))
  }

  predicate SortedByKey(s: seq<(int, HValue)>) {
    forall i :: 0 <= i < |s| - 1 ==> KeyLe(s[i].1, s[i + 1].1)
  }

  lemma {:induction false} InsertSorted(x: (int, HValue), s: seq<(int, HValue)>)
    requires SortedByKey(s)
    ensures SortedByKey(Insert(x, s))
  {
    if s != [] && !KeyLe(x.1, s[0].1) {
      InsertSorted(x, s[1..]);
      var r := Insert(x, s[1..]);
      assert Insert(x, s) == [s[0]] + r;
      assert KeyLe(s[0].1, r[0].1) by {
        if r[0] != x {
          assert s[1..] != [] && r[0] == s[1];
        }
      }
    }
  }

  /** The sort orders its input by key. */
  lemma {:induction false} SortByKeySorted(s: seq<(int, HValue)>)
    ensures SortedByKey(SortByKey(s))
  {
    if s != [] {
      SortByKeySorted(s[1..]);
      InsertSorted(s[0], SortByKey(s[1..]));
    }
  }

  /** Sorting keeps the moves, so it keeps the set of columns. */
  lemma SortedColumns(s: seq<(int, HValue)>, c: int)
    ensures c in Columns(SortByKey(s)) <==> c in Columns(s)
  {
    var r := SortByKey(s);
    if c in Columns(r) {
      var i :| 0 <= i < |r| && Columns(r)[i] == c;
      assert r[i] in multiset(s);
      var j :| 0 <= j < |s| && s[j] == r[i];
      assert Columns(s)[j] == c;
    }
    if c in Columns(s) {
      var j :| 0 <= j < |s| && Columns(s)[j] == c;
      assert s[j] in multiset(r);
      var i :| 0 <= i < |r| && r[i] == s[j];
      assert Columns(r)[i] == c;
    }
  }

  /** guided_dfs tries exactly the safe columns, in an order sorted by the heuristic. */
  lemma GuidedOrderColumns(t: State, c: int)
    ensures c in GuidedOrder(t) <==> c in SafeColumns(t)
    ensures SortedByKey(SortByKey(Scored(t, SafeColumns(t))))
  {
    var cols := SafeColumns(t);
    SortedColumns(Scored(t, cols), c);
    assert Columns(Scored(t, cols)) == cols;
    SortByKeySorted(Scored(t, cols));
  }

  // ---------------------------------------------------------------------------
  // What the search tree contains
  // ---------------------------------------------------------------------------

  lemma {:induction false} CompletionsOfMember(t: State, cols: seq<int>, x: State)
    requires |t| < Size
    ensures x in CompletionsOf(t, cols) <==> exists i :: 0 <= i < |cols| && x in Completions(t + [cols[i]])
    decreases |cols|
  {
    if cols != [] {
      CompletionsOfMember(t, cols[1..], x);
      if x in CompletionsOf(t, cols[1..]) {
        var i :| 0 <= i < |cols| - 1 && x in Completions(t + [cols[1..][i]]);
        assert x in Completions(t + [cols[i + 1]]);
      }
      if exists i :: 0 <= i < |cols| && x in Completions(t + [cols[i]]) {
        var i :| 0 <= i < |cols| && x in Completions(t + [cols[i]]);
        if i > 0 {
          assert cols[1..][i - 1] == cols[i];
        }
      }
    }
  }

  lemma {:induction false} GuidedCompletionsOfMember(t: State, cols: seq<int>, x: State)
    requires |t| < Size
    ensures x in GuidedCompletionsOf(t, cols) <==> exists i :: 0 <= i < |cols| && x in GuidedCompletions(t + [cols[i]])
    decreases |cols|
  {
    if cols != [] {
      GuidedCompletionsOfMember(t, cols[1..], x);
      if x in GuidedCompletionsOf(t, cols[1..]) {
        var i :| 0 <= i < |cols| - 1 && x in GuidedCompletions(t + [cols[1..][i]]);
        assert x in GuidedCompletions(t + [cols[i + 1]]);
      }
      if exists i :: 0 <= i < |cols| && x in GuidedCompletions(t + [cols[i]]) {
        var i :| 0 <= i < |cols| && x in GuidedCompletions(t + [cols[i]]);
        if i > 0 {
          assert cols[1..][i - 1] == cols[i];
        }
      }
    }
  }

  /** Every placement the search collects below t is complete and extends t. */
  lemma {:induction false} CompletionsExtend(t: State, x: State)
    requires |t| <= Size && x in Completions(t)
    ensures |x| == Size && x[..|t|] == t
    decreases Size - |t|
  {
    if |t| < Size {
      CompletionsOfMember(t, SafeColumns(t), x);
      var i :| 0 <= i < |SafeColumns(t)| && x in Completions(t + [SafeColumns(t)[i]]);
      var u := t + [SafeColumns(t)[i]];
      CompletionsExtend(u, x);
      assert x[..|t|] == u[..|t|];
    }
  }

  /** Below a consistent t the search collects only solutions of the 8-queens problem. */
  lemma {:induction false} CompletionsSound(t: State, x: State)
    requires Consistent(t) && x in Completions(t)
    ensures |x| == Size && Consistent(x) && x[..|t|] == t
    decreases Size - |t|
  {
    if |t| == Size {
    } else {
      CompletionsOfMember(t, SafeColumns(t), x);
      var i :| 0 <= i < |SafeColumns(t)| && x in Completions(t + [SafeColumns(t)[i]]);
      var c := SafeColumns(t)[i];
      ResultConsistent(t, c);
      CompletionsSound(t + [c], x);
      assert x[..|t|] == (t + [c])[..|t|];
    }
  }

  /** Below a consistent t the search collects every solution that extends t. */
  lemma {:induction false} CompletionsComplete(t: State, x: State)
    requires Consistent(t) && |x| == Size && Consistent(x) && |t| <= |x| && x[..|t|] == t
    ensures x in Completions(t)
    decreases Size - |t|
  {
    if |t| == Size {
      assert x == x[..|t|];
    } else {
      var c := x[|t|];
      var u := t + [c];
      assert x[..|t| + 1] == u;
      PrefixConsistent(x, |t| + 1);
      ResultConsistent(t, c);
      CompletionsComplete(u, x);
      var i :| 0 <= i < |SafeColumns(t)| && SafeColumns(t)[i] == c;
      CompletionsOfMember(t, SafeColumns(t), x);
    }
  }

  /** The guided search reaches the same placements as the plain one. */
  lemma {:induction false} GuidedSameMembers(t: State, x: State)
    requires |t| <= Size
    ensures x in GuidedCompletions(t) <==> x in Completions(t)
    decreases Size - |t|
  {
    if |t| < Size {
      CompletionsOfMember(t, SafeColumns(t), x);
      GuidedCompletionsOfMember(t, GuidedOrder(t), x);
      if x in Completions(t) {
        var i :| 0 <= i < |SafeColumns(t)| && x in Completions(t + [SafeColumns(t)[i]]);
        var c := SafeColumns(t)[i];
        GuidedOrderColumns(t, c);
        var j :| 0 <= j < |GuidedOrder(t)| && GuidedOrder(t)[j] == c;
        GuidedSameMembers(t + [c], x);
      }
      if x in GuidedCompletions(t) {
        var j :| 0 <= j < |GuidedOrder(t)| && x in GuidedCompletions(t + [GuidedOrder(t)[j]]);
        var c := GuidedOrder(t)[j];
        GuidedOrderColumns(t, c);
        var i :| 0 <= i < |SafeColumns(t)| && SafeColumns(t)[i] == c;
        GuidedSameMembers(t + [c], x);
      }
    }
  }

  // ---------------------------------------------------------------------------
  // Order of the plain search
  // ---------------------------------------------------------------------------

  /** a comes strictly before b in lexicographic order. */
  predicate LexLess(a: State, b: State) {
    exists k :: 0 <= k < |a| && k < |b| && a[..k] == b[..k] && a[k] < b[k]
  }

  predicate LexIncreasing(xs: seq<State>) {
    forall i, j :: 0 <= i < j < |xs| ==> LexLess(xs[i], xs[j])
  }

  lemma LexLessIrreflexive(a: State)
    ensures !LexLess(a, a)
  {
  }

  /** Two increasing lists, every element of the first below every element of the second. */
  lemma ConcatIncreasing(xs: seq<State>, ys: seq<State>)
    requires LexIncreasing(xs) && LexIncreasing(ys)
    requires forall i, j :: 0 <= i < |xs| && 0 <= j < |ys| ==> LexLess(xs[i], ys[j])
    ensures LexIncreasing(xs + ys)
  {
    var zs := xs + ys;
    forall i, j | 0 <= i < j < |zs|
      ensures LexLess(zs[i], zs[j])
    {
      if j < |xs| {
        assert zs[i] == xs[i] && zs[j] == xs[j];
      } else if i >= |xs| {
        assert zs[i] == ys[i - |xs|] && zs[j] == ys[j - |xs|];
      } else {
        assert zs[i] == xs[i] && zs[j] == ys[j - |xs|];
      }
    }
  }

  /** Placements below t + [c] precede placements below t + [d] when c < d. */
  lemma BranchOrder(t: State, c: int, d: int, a: State, b: State)
    requires |t| < Size && c < d
    requires a in Completions(t + [c]) && b in Completions(t + [d])
    ensures LexLess(a, b)
  {
    CompletionsExtend(t + [c], a);
    CompletionsExtend(t + [d], b);
    assert a[..|t|] == (t + [c])[..|t|] == t;
    assert b[..|t|] == (t + [d])[..|t|] == t;
    assert a[|t|] == (t + [c])[|t|] == c;
    assert b[|t|] == (t + [d])[|t|] == d;
  }

  /** The plain search lists the completions below t + [c], c in ascending cols, in lexicographic order. */
  lemma {:induction false} CompletionsOfIncreasing(t: State, cols: seq<int>)
    requires |t| < Size
    requires forall i, j :: 0 <= i < j < |cols| ==> cols[i] < cols[j]
    ensures LexIncreasing(CompletionsOf(t, cols))
    decreases Size - |t|, 0, |cols|
  {
    if cols != [] {
      var xs, ys := Completions(t + [cols[0]]), CompletionsOf(t, cols[1..]);
      CompletionsIncreasing(t + [cols[0]]);
      CompletionsOfIncreasing(t, cols[1..]);
      forall i, j | 0 <= i < |xs| && 0 <= j < |ys|
        ensures LexLess(xs[i], ys[j])
      {
        CompletionsOfMember(t, cols[1..], ys[j]);
        var k :| 0 <= k < |cols[1..]| && ys[j] in Completions(t + [cols[1..][k]]);
        BranchOrder(t, cols[0], cols[1..][k], xs[i], ys[j]);
      }
      ConcatIncreasing(xs, ys);
    }
  }

  /** The plain search lists the completions below t in strictly increasing lexicographic order. */
  lemma {:induction false} CompletionsIncreasing(t: State)
    requires |t| <= Size
    ensures LexIncreasing(Completions(t))
    decreases Size - |t|, 1
  {
    if |t| < Size {
      ActionsCharacterised(t, 0);
      CompletionsOfIncreasing(t, SafeColumns(t));
    }
  }

  // ---------------------------------------------------------------------------
  // The visited set
  // ---------------------------------------------------------------------------

  function Elems(xs: seq<State>): set<State> {
    set x | x in xs
  }

  lemma ElemsCons(xs: seq<State>)
    requires xs != []
    ensures Elems(xs) == {xs[0]} + Elems(xs[1..])
  {
    assert xs == [xs[0]] + xs[1..];
  }

  lemma ElemsConcat(xs: seq<State>, ys: seq<State>)
    ensures Elems(xs + ys) == Elems(xs) + Elems(ys)
  {
    forall y | y in Elems(xs + ys)
      ensures y in Elems(xs) + Elems(ys)
    {
      var k :| 0 <= k < |xs + ys| && (xs + ys)[k] == y;
      if k >= |xs| {
        assert ys[k - |xs|] == y;
      }
    }
  }

  predicate Distinct(xs: seq<State>) {
    forall i, j :: 0 <= i < j < |xs| ==> xs[i] != xs[j]
  }

  /** What reaches all_solutions when xs are visited in turn: each one not seen before, once. */
  function Fresh(xs: seq<State>, seen: set<State>): (r: seq<State>)
    ensures Elems(r) == Elems(xs) - seen
  {
    if xs == [] then []
    else
      ElemsCons(xs);
      if xs[0] in seen then Fresh(xs[1..], seen)
    else
      var rest := Fresh(xs[1..], seen + {xs[0]});
      ElemsConcat([xs[0]], rest);
      [xs[0]] + rest
  }

  /** Nothing reaches all_solutions twice. */
  lemma {:induction false} FreshDistinct(xs: seq<State>, seen: set<State>)
    ensures Distinct(Fresh(xs, seen))
  {
    if xs != [] {
      ElemsCons(xs);
      if xs[0] in seen {
        FreshDistinct(xs[1..], seen);
      } else {
        var rest := Fresh(xs[1..], seen + {xs[0]});
        FreshDistinct(xs[1..], seen + {xs[0]});
        var r := [xs[0]] + rest;
        forall i, j | 0 <= i < j < |r|
          ensures r[i] != r[j]
        {
          assert r[j] == rest[j - 1] && rest[j - 1] in Elems(rest);
          if i > 0 {
            assert r[i] == rest[i - 1];
          }
        }
      }
    }
  }

  /** Visiting xs then ys is visiting xs, then ys with everything of xs seen. */
  lemma {:induction false} FreshSplit(xs: seq<State>, ys: seq<State>, seen: set<State>)
    ensures Fresh(xs + ys, seen) == Fresh(xs, seen) + Fresh(ys, seen + Elems(xs))
  {
    if xs == [] {
      assert xs + ys == ys;
      assert seen + Elems(xs) == seen;
    } else {
      assert (xs + ys)[1..] == xs[1..] + ys;
      assert (xs + ys)[0] == xs[0];
      ElemsCons(xs);
      if xs[0] in seen {
        FreshSplit(xs[1..], ys, seen);
        assert seen + Elems(xs[1..]) == seen + Elems(xs);
      } else {
        FreshSplit(xs[1..], ys, seen + {xs[0]});
        assert seen + {xs[0]} + Elems(xs[1..]) == seen + Elems(xs);
        var a, b := Fresh(xs[1..], seen + {xs[0]}), Fresh(ys, seen + Elems(xs));
        assert [xs[0]] + (a + b) == ([xs[0]] + a) + b;
      }
    }
  }

  /** A list of distinct, unseen placements passes the visited check unchanged. */
  lemma {:induction false} FreshOfDistinct(xs: seq<State>, seen: set<State>)
    requires Distinct(xs) && Elems(xs) !! seen
    ensures Fresh(xs, seen) == xs
  {
    if xs != [] {
      assert xs[0] in Elems(xs);
      assert Distinct(xs[1..]);
      assert Elems(xs[1..]) !! seen + {xs[0]} by {
        forall y | y in Elems(xs[1..])
          ensures y != xs[0]
        {
          var k :| 0 <= k < |xs[1..]| && xs[1..][k] == y;
          assert xs[k + 1] == y;
        }
      }
      FreshOfDistinct(xs[1..], seen + {xs[0]});
    }
  }

  lemma IncreasingDistinct(xs: seq<State>)
    requires LexIncreasing(xs)
    ensures Distinct(xs)
  {
    forall i, j | 0 <= i < j < |xs|
      ensures xs[i] != xs[j]
    {
      LexLessIrreflexive(xs[i]);
    }
  }

  lemma CompletionsOfSnoc(t: State, cols: seq<int>, c: int)
    requires |t| < Size
    ensures CompletionsOf(t, cols + [c]) == CompletionsOf(t, cols) + Completions(t + [c])
    decreases |cols|
  {
    if cols == [] {
      assert ([c])[1..] == [];
    } else {
      assert (cols + [c])[1..] == cols[1..] + [c];
      CompletionsOfSnoc(t, cols[1..], c);
    }
  }

  lemma GuidedCompletionsOfSnoc(t: State, cols: seq<int>, c: int)
    requires |t| < Size
    ensures GuidedCompletionsOf(t, cols + [c]) == GuidedCompletionsOf(t, cols) + GuidedCompletions(t + [c])
    decreases |cols|
  {
    if cols == [] {
      assert ([c])[1..] == [];
    } else {
      assert (cols + [c])[1..] == cols[1..] + [c];
      GuidedCompletionsOfSnoc(t, cols[1..], c);
    }
  }

  // ---------------------------------------------------------------------------
  // The searches (dfs_all, greedy_dfs, guided_dfs) and their drivers
  // ---------------------------------------------------------------------------

  /** is_safe_position: the nested copy of _is_safe each search uses. */
  method IsSafePosition(state: State, row: int, col: int) returns (safe: bool)
    ensures safe <==> Safe(state, row, col)
  {
    safe := IsSafe(state, row, col);
  }

  /**
   * The all_solutions list and the visited set that the nested search functions
   * close over and update.
   */
  class SolutionCollector {
    var allSolutions: seq<State>
    var visited: set<State>

    /** visited holds exactly the collected solutions. */
    ghost predicate Valid()
      reads this
    {
      visited == Elems(allSolutions)
    }

    constructor ()
      ensures Valid() && allSolutions == [] && visited == {}
    {
      allSolutions := [];
      visited := {};
    }

    /** The leaf step of every search: a complete placement not yet visited is recorded once. */
    method Record(state: State)
      requires Valid()
      modifies this
      ensures Valid()
      ensures allSolutions == old(allSolutions) + Fresh([state], old(visited))
      ensures visited == old(visited) + {state}
    {
      assert Fresh([state], visited) == if state in visited then [] else [state];
      if state !in visited {
        ElemsConcat(allSolutions, [state]);
        assert Elems([state]) == {state};
        visited := visited + {state};
        allSolutions := allSolutions + [state];
      }
    }

    /** dfs_all(state): recurse into every safe column of the next row, in ascending order. */
    method DfsAll(state: State)
      requires Valid() && |state| <= Size
      modifies this
      ensures Valid()
      ensures allSolutions == old(allSolutions) + Fresh(Completions(state), old(visited))
      ensures visited == old(visited) + Elems(Completions(state))
      decreases Size - |state|
    {
      if |state| == Size {
        Record(state);
        assert Elems([state]) == {state};
        return;
      }
      var row := |state|;
      var col := 0;
      ghost var before, seen := allSolutions, visited;
      ghost var tried: seq<int> := [];
      while col < Size
        invariant 0 <= col <= Size && Valid()
        invariant tried == SafeBelow(state, row, col)
        invariant allSolutions == before + Fresh(CompletionsOf(state, tried), seen)
        invariant visited == seen + Elems(CompletionsOf(state, tried))
      {
        var safe := IsSafePosition(state, row, col);
        if safe {
          DfsAll(state + [col]);
          PlainVisitStep(before, seen, state, tried, col);
          tried := tried + [col];
        }
        col := col + 1;
      }
      assert tried == SafeColumns(state) && Completions(state) == CompletionsOf(state, tried);
    }

    /** greedy_dfs(state): the same exhaustive search as dfs_all. */
    method GreedyDfs(state: State)
      requires Valid() && |state| <= Size
      modifies this
      ensures Valid()
      ensures allSolutions == old(allSolutions) + Fresh(Completions(state), old(visited))
      ensures visited == old(visited) + Elems(Completions(state))
    {
      DfsAll(state);
    }

    /**
     * guided_dfs(state, heuristic): score every safe column by the heuristic of the state
     * it leads to, sort the moves by that score, and recurse in the sorted order.
     */
    method GuidedDfs(state: State)
      requires Valid() && |state| <= Size
      modifies this
      ensures Valid()
      ensures allSolutions == old(allSolutions) + Fresh(GuidedCompletions(state), old(visited))
      ensures visited == old(visited) + Elems(GuidedCompletions(state))
      decreases Size - |state|
    {
      if |state| == Size {
        Record(state);
        assert Elems([state]) == {state};
        return;
      }
      var actions := ScoreMoves(state);
      actions := SortByKey(actions);
      ghost var order := GuidedOrder(state);
      assert |order| == |actions|;
      var k := 0;
      while k < |actions|
        invariant 0 <= k <= |actions| && Valid()
        invariant allSolutions == old(allSolutions) + Fresh(GuidedCompletionsOf(state, order[..k]), old(visited))
        invariant visited == old(visited) + Elems(GuidedCompletionsOf(state, order[..k]))
      {
        var c := actions[k].0;
        assert c == order[k];
        GuidedDfs(state + [c]);
        GuidedVisitStep(old(allSolutions), old(visited), state, order, k);
        k := k + 1;
      }
      assert order[..|actions|] == order;
    }
  }

  /** One recursive call of dfs_all's loop: the column's completions are visited after those before it. */
  lemma PlainVisitStep(before: seq<State>, seen: set<State>, state: State, tried: seq<int>, col: int)
    requires |state| < Size
    ensures var done, more := CompletionsOf(state, tried), Completions(state + [col]);
      && (before + Fresh(done, seen)) + Fresh(more, seen + Elems(done))
         == before + Fresh(CompletionsOf(state, tried + [col]), seen)
      && (seen + Elems(done)) + Elems(more) == seen + Elems(CompletionsOf(state, tried + [col]))
  {
    CompletionsOfSnoc(state, tried, col);
    VisitInTurn(before, CompletionsOf(state, tried), Completions(state + [col]), seen);
  }

  /** One round of guided_dfs's loop: the k-th column's completions are visited after those before it. */
  lemma GuidedVisitStep(before: seq<State>, seen: set<State>, state: State, order: seq<int>, k: int)
    requires |state| < Size && 0 <= k < |order|
    ensures var done, more := GuidedCompletionsOf(state, order[..k]), GuidedCompletions(state + [order[k]]);
      && (before + Fresh(done, seen)) + Fresh(more, seen + Elems(done))
         == before + Fresh(GuidedCompletionsOf(state, order[..k + 1]), seen)
      && (seen + Elems(done)) + Elems(more) == seen + Elems(GuidedCompletionsOf(state, order[..k + 1]))
  {
    assert order[..k + 1] == order[..k] + [order[k]];
    GuidedCompletionsOfSnoc(state, order[..k], order[k]);
    VisitInTurn(before, GuidedCompletionsOf(state, order[..k]), GuidedCompletions(state + [order[k]]), seen);
  }

  /** Two visits in turn are one visit of the concatenation. */
  lemma VisitInTurn(before: seq<State>, done: seq<State>, more: seq<State>, seen: set<State>)
    ensures (before + Fresh(done, seen)) + Fresh(more, seen + Elems(done)) == before + Fresh(done + more, seen)
    ensures (seen + Elems(done)) + Elems(more) == seen + Elems(done + more)
  {
    FreshSplit(done, more, seen);
    ElemsConcat(done, more);
  }

  /** The scoring loop of guided_dfs: each safe column with the heuristic of the state it leads to. */
  method ScoreMoves(state: State) returns (actions: seq<(int, HValue)>)
    requires |state| < Size
    ensures actions == Scored(state, SafeColumns(state))
  {
    var row := |state|;
    actions := [];
    var col := 0;
    while col < Size
      invariant 0 <= col <= Size
      invariant actions == Scored(state, SafeBelow(state, row, col))
    {
      var safe := IsSafePosition(state, row, col);
      if safe {
        var nextState := state + [col];
        var hValue := Heuristic(nextState);
        ScoredSnoc(state, SafeBelow(state, row, col), col);
        actions := actions + [(col, hValue)];
      }
      col := col + 1;
    }
  }

  /** Scoring one more column appends its move. */
  lemma ScoredSnoc(t: State, cols: seq<int>, c: int)
    ensures Scored(t, cols + [c]) == Scored(t, cols) + [(c, HeuristicValue(t + [c]))]
  {
  }

  /** From the empty board the plain search collects exactly the solutions, once each. */
  lemma RootCompletions(x: State)
    ensures x in Completions([]) <==> |x| == Size && Consistent(x)
    ensures LexIncreasing(Completions([])) && Fresh(Completions([]), {}) == Completions([])
  {
    if x in Completions([]) {
      CompletionsSound([], x);
    }
    if |x| == Size && Consistent(x) {
      CompletionsComplete([], x);
    }
    CompletionsIncreasing([]);
    IncreasingDistinct(Completions([]));
    FreshOfDistinct(Completions([]), {});
  }

  /** find_all_solutions: run dfs_all from the empty tuple and return all_solutions. */
  method FindAllSolutions() returns (solutions: seq<State>)
    ensures forall x :: x in solutions <==> |x| == Size && Consistent(x)
    ensures LexIncreasing(solutions) && Distinct(solutions)
  {
    var collector := new SolutionCollector();
    collector.DfsAll([]);
    solutions := collector.allSolutions;
    RootCompletions([]);
    forall x
      ensures x in solutions <==> |x| == Size && Consistent(x)
    {
      RootCompletions(x);
    }
  }

  /**
   * find_all_with_algorithm(name): guided_dfs with the problem's heuristic for "A*",
   * greedy_dfs for any other name. Both collect every solution exactly once; the
   * greedy one in lexicographic order.
   */
  method FindAllWithAlgorithm(algorithmName: string) returns (solutions: seq<State>)
    ensures forall x :: x in solutions <==> |x| == Size && Consistent(x)
    ensures Distinct(solutions)
    ensures algorithmName != "A*" ==> LexIncreasing(solutions)
  {
    var collector := new SolutionCollector();
    if algorithmName == "A*" {
      collector.GuidedDfs([]);
      RootGuided();
    } else {
      collector.GreedyDfs([]);
      RootPlain();
    }
    solutions := collector.allSolutions;
  }

  lemma RootPlain()
    ensures forall x :: x in Fresh(Completions([]), {}) <==> |x| == Size && Consistent(x)
    ensures LexIncreasing(Fresh(Completions([]), {}))
  {
    forall x
      ensures x in Fresh(Completions([]), {}) <==> |x| == Size && Consistent(x)
    {
      RootCompletions(x);
    }
    RootCompletions([]);
  }

  /** From the empty board the guided search collects exactly the solutions, once each. */
  lemma RootGuided()
    ensures forall x :: x in Fresh(GuidedCompletions([]), {}) <==> |x| == Size && Consistent(x)
    ensures Distinct(Fresh(GuidedCompletions([]), {}))
  {
    FreshDistinct(GuidedCompletions([]), {});
    var r := Fresh(GuidedCompletions([]), {});
    forall x
      ensures x in r <==> |x| == Size && Consistent(x)
    {
      assert x in r <==> x in Elems(r);
      assert x in GuidedCompletions([]) <==> x in Elems(GuidedCompletions([]));
      GuidedSameMembers([], x);
      RootCompletions(x);
    }
  }
}
