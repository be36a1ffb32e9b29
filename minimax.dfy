/** The plain minimax engine of minimax.py: a MAX and a MIN search over any
    game given by its actions, its transition, its terminal test and its
    utility, the move chooser that picks the side from the number of filled
    cells, and `play`, which names the winner from the root value.  The
    search explores every action (its alpha-beta pruning is commented out in
    the code), so alpha, beta, depth and iterations never change a result. */
module Minimax {
  import opened SearchValues
  import TicTacToe

  /** A game as the engine sees it.  `rank` is not part of the code: it is
      a measure every move lowers, which is the engine's termination
      argument (for Tic-Tac-Toe, the number of empty cells). */
  datatype Game<!S, !A> = Game(
    actions: S -> seq<A>,
    result: (S, A) -> S,
    isTerminal: S -> bool,
    utility: S -> int,
    rank: S -> nat)

  /** Every legal move from a non-terminal state lowers the rank. */
  ghost predicate Decreasing<S(!new), A(!new)>(g: Game<S, A>)
  {
    forall s, a :: !g.isTerminal(s) && a in g.actions(s) ==> g.rank(g.result(s, a)) < g.rank(s)
  }

  /** A non-terminal state always has a move. */
  ghost predicate Live<S(!new), A(!new)>(g: Game<S, A>)
  {
    forall s :: !g.isTerminal(s) ==> |g.actions(s)| > 0
  }

  ghost predicate UtilityWithin<S(!new), A(!new)>(g: Game<S, A>, lo: int, hi: int)
  {
    forall s :: lo <= g.utility(s) <= hi
  }

  predicate InRange(v: ExtInt, lo: int, hi: int)
  {
    v.Fin? && lo <= v.n <= hi
  }

  /** The value MIN obtains after MAX plays the `i`-th action of `s`. */
  function ChildMin<S(!new), A(!new)>(g: Game<S, A>, s: S, i: nat): ExtInt
    requires Decreasing(g) && !g.isTerminal(s) && i < |g.actions(s)|
    decreases g.rank(s), 0, i
  {
    var a := g.actions(s)[i];
    assert a in g.actions(s);
    MinNode(g, g.result(s, a)).0
  }

  /** The value MAX obtains after MIN plays the `i`-th action of `s`. */
  function ChildMax<S(!new), A(!new)>(g: Game<S, A>, s: S, i: nat): ExtInt
    requires Decreasing(g) && !g.isTerminal(s) && i < |g.actions(s)|
    decreases g.rank(s), 0, i
  {
    var a := g.actions(s)[i];
    assert a in g.actions(s);
    MaxNode(g, g.result(s, a)).0
  }

  /** MAX's running value and move after the first `k` actions: a child at
      least as good as the current value replaces it. */
  function MaxScan<S(!new), A(!new)>(g: Game<S, A>, s: S, k: nat): (r: (ExtInt, Option<A>))
    requires Decreasing(g) && !g.isTerminal(s) && k <= |g.actions(s)|
    ensures r.1.Some? <==> k > 0
    ensures r.1.Some? ==> r.1.value in g.actions(s)
    decreases g.rank(s), 0, k
  {
    if k == 0 then (NegInf, None)
    else
      var prev := MaxScan(g, s, k - 1);
      var v2 := ChildMin(g, s, k - 1);
      if prev.0.Le(v2) then (v2, Some(g.actions(s)[k - 1])) else prev
  }

  /** MIN's running value and move after the first `k` actions: only a
      strictly better child replaces the current value. */
  function MinScan<S(!new), A(!new)>(g: Game<S, A>, s: S, k: nat): (r: (ExtInt, Option<A>))
    requires Decreasing(g) && !g.isTerminal(s) && k <= |g.actions(s)|
    ensures r.1.None? <==> r.0 == PosInf
    ensures r.1.Some? ==> r.1.value in g.actions(s)
    decreases g.rank(s), 0, k
  {
    if k == 0 then (PosInf, None)
    else
      var prev := MinScan(g, s, k - 1);
      var v2 := ChildMax(g, s, k - 1);
      if v2.Lt(prev.0) then (v2, Some(g.actions(s)[k - 1])) else prev
  }

  /** What `max_value` returns for `s`: a move exactly when the state is
      not terminal and has an action, and then one of its actions. */
  function MaxNode<S(!new), A(!new)>(g: Game<S, A>, s: S): (r: (ExtInt, Option<A>))
    requires Decreasing(g)
    ensures r.1.Some? <==> !g.isTerminal(s) && |g.actions(s)| > 0
    ensures r.1.Some? ==> r.1.value in g.actions(s)
    decreases g.rank(s), 1, 0
  {
    if g.isTerminal(s) then (Fin(g.utility(s)), None) else MaxScan(g, s, |g.actions(s)|)
  }

  /** What `min_value` returns for `s`: no move exactly when the state is
      terminal or no child improves on +infinity; a move is one of the
      state's actions. */
  function MinNode<S(!new), A(!new)>(g: Game<S, A>, s: S): (r: (ExtInt, Option<A>))
    requires Decreasing(g)
    ensures r.1.None? <==> g.isTerminal(s) || r.0 == PosInf
    ensures r.1.Some? ==> r.1.value in g.actions(s)
    decreases g.rank(s), 1, 0
  {
    if g.isTerminal(s) then (Fin(g.utility(s)), None) else MinScan(g, s, |g.actions(s)|)
  }

  /** `max_value`: the best value MAX can force from `s`, and the action
      that reaches it. */
  method MaxValue<S(!new), A(!new)>(g: Game<S, A>, s: S, alpha: ExtInt, beta: ExtInt, depth: int, iterations: int)
    returns (v: ExtInt, bestMove: Option<A>)
    requires Decreasing(g)
    ensures (v, bestMove) == MaxNode(g, s)
    decreases g.rank(s), 1
  {
    if g.isTerminal(s) {
      return Fin(g.utility(s)), None;
    }
    bestMove := None;
    v := NegInf;
    var acts := g.actions(s);
    for i := 0 to |acts|
      invariant (v, bestMove) == MaxScan(g, s, i)
    {
      var a := acts[i];
      assert a in g.actions(s);
      var newState := g.result(s, a);
      var v2, a2 := MinValue(g, newState, alpha, beta, depth + 1, iterations - 1);
      if v.Le(v2) {
        v := v2;
        bestMove := Some(a);
      }
    }
  }

  /** `min_value`: the best value MIN can force from `s`, and the action
      that reaches it. */
  method MinValue<S(!new), A(!new)>(g: Game<S, A>, s: S, alpha: ExtInt, beta: ExtInt, depth: int, iterations: int)
    returns (v: ExtInt, bestMove: Option<A>)
    requires Decreasing(g)
    ensures (v, bestMove) == MinNode(g, s)
    decreases g.rank(s), 1
  {
    v := PosInf;
    bestMove := None;
    if g.isTerminal(s) {
      v := Fin(g.utility(s));
    } else {
      var acts := g.actions(s);
      for i := 0 to |acts|
        invariant (v, bestMove) == MinScan(g, s, i)
      {
        var a := acts[i];
        assert a in g.actions(s);
        var newState := g.result(s, a);
        var v2, a2 := MaxValue(g, newState, alpha, beta, depth + 1, iterations - 1);
        if v2.Lt(v) {
          bestMove := Some(a);
          v := v2;
        }
      }
    }
  }

  /** After `k > 0` actions MAX holds the LAST child of greatest value: it is
      at least every child seen, and every later one is strictly worse. */
  lemma {:induction false} MaxScanLastBest<S(!new), A(!new)>(g: Game<S, A>, s: S, k: nat) returns (i: nat)
    requires Decreasing(g) && !g.isTerminal(s) && 0 < k <= |g.actions(s)|
    ensures i < k
    ensures MaxScan(g, s, k) == (ChildMin(g, s, i), Some(g.actions(s)[i]))
    ensures forall j :: 0 <= j < k ==> ChildMin(g, s, j).Le(ChildMin(g, s, i))
    ensures forall j :: i < j < k ==> ChildMin(g, s, j).Lt(ChildMin(g, s, i))
    decreases k
  {
    if k == 1 {
      i := 0;
      LeTotal(NegInf, ChildMin(g, s, 0));
    } else {
      var i' := MaxScanLastBest(g, s, k - 1);
      var best := ChildMin(g, s, i');
      var v2 := ChildMin(g, s, k - 1);
      if best.Le(v2) {
        i := k - 1;
        forall j | 0 <= j < k ensures ChildMin(g, s, j).Le(v2) {
          if j < k - 1 {
            LeTrans(ChildMin(g, s, j), best, v2);
          }
        }
      } else {
        i := i';
      }
    }
  }

  /** After `k` actions MIN holds the FIRST child of least value, or nothing
      and +infinity when every child seen is +infinity. */
  lemma {:induction false} MinScanFirstBest<S(!new), A(!new)>(g: Game<S, A>, s: S, k: nat) returns (i: nat)
    requires Decreasing(g) && !g.isTerminal(s) && k <= |g.actions(s)|
    ensures forall j :: 0 <= j < k ==> MinScan(g, s, k).0.Le(ChildMax(g, s, j))
    ensures MinScan(g, s, k).1.None? <==> MinScan(g, s, k).0 == PosInf
    ensures MinScan(g, s, k).1.None? ==> forall j :: 0 <= j < k ==> ChildMax(g, s, j) == PosInf
    ensures MinScan(g, s, k).1.Some? ==>
      i < k && MinScan(g, s, k) == (ChildMax(g, s, i), Some(g.actions(s)[i])) &&
      forall j :: 0 <= j < i ==> ChildMax(g, s, i).Lt(ChildMax(g, s, j))
    decreases k
  {
    if k == 0 {
      i := 0;
    } else {
      var i' := MinScanFirstBest(g, s, k - 1);
      var prev := MinScan(g, s, k - 1);
      var v2 := ChildMax(g, s, k - 1);
      if v2.Lt(prev.0) {
        i := k - 1;
        forall j | 0 <= j < k ensures v2.Le(ChildMax(g, s, j)) {
          LeTotal(v2, prev.0);
          if j < k - 1 {
            LeTrans(v2, prev.0, ChildMax(g, s, j));
          }
        }
        forall j | 0 <= j < i ensures v2.Lt(ChildMax(g, s, j)) {
          if !v2.Lt(ChildMax(g, s, j)) {
            LeTotal(v2, prev.0);
            LeTrans(prev.0, ChildMax(g, s, j), v2);
          }
        }
      } else {
        i := i';
        LeTotal(v2, prev.0);
      }
    }
  }

  /** On a terminal state both searches stop at its utility, with no move. */
  lemma TerminalLeaf<S(!new), A(!new)>(g: Game<S, A>, s: S)
    requires Decreasing(g) && g.isTerminal(s)
    ensures MaxNode(g, s) == (Fin(g.utility(s)), None)
    ensures MinNode(g, s) == (Fin(g.utility(s)), None)
  {
  }

  /** On a state with moves MAX's value is the greatest child value, and
      its move is the last action reaching it (later actions are strictly
      worse): `v <= v2` lets a later tie win. */
  lemma MaxNodeChoice<S(!new), A(!new)>(g: Game<S, A>, s: S) returns (i: nat)
    requires Decreasing(g) && !g.isTerminal(s) && |g.actions(s)| > 0
    ensures i < |g.actions(s)|
    ensures MaxNode(g, s) == (ChildMin(g, s, i), Some(g.actions(s)[i]))
    ensures forall j :: 0 <= j < |g.actions(s)| ==> ChildMin(g, s, j).Le(MaxNode(g, s).0)
    ensures forall j :: i < j < |g.actions(s)| ==> ChildMin(g, s, j).Lt(MaxNode(g, s).0)
  {
    i := MaxScanLastBest(g, s, |g.actions(s)|);
  }

  /** On a state with a child of value below +infinity MIN's value is the
      least child value, and its move is the first action reaching it
      (earlier actions are strictly worse): `v2 < v` keeps the first tie. */
  lemma MinNodeChoice<S(!new), A(!new)>(g: Game<S, A>, s: S, some: nat) returns (i: nat)
    requires Decreasing(g) && !g.isTerminal(s) && some < |g.actions(s)|
    requires ChildMax(g, s, some) != PosInf
    ensures i < |g.actions(s)|
    ensures MinNode(g, s) == (ChildMax(g, s, i), Some(g.actions(s)[i]))
    ensures forall j :: 0 <= j < |g.actions(s)| ==> MinNode(g, s).0.Le(ChildMax(g, s, j))
    ensures forall j :: 0 <= j < i ==> MinNode(g, s).0.Lt(ChildMax(g, s, j))
  {
    i := MinScanFirstBest(g, s, |g.actions(s)|);
  }

  /** When every utility lies in [lo, hi] and no non-terminal state is
      stuck, both searches return a finite value in [lo, hi]. */
  lemma {:induction false} NodeBounds<S(!new), A(!new)>(g: Game<S, A>, s: S, lo: int, hi: int)
    requires Decreasing(g) && Live(g) && UtilityWithin(g, lo, hi)
    ensures InRange(MaxNode(g, s).0, lo, hi)
    ensures InRange(MinNode(g, s).0, lo, hi)
    decreases g.rank(s)
  {
    if !g.isTerminal(s) {
      var acts := g.actions(s);
      var i := MaxScanLastBest(g, s, |acts|);
      assert acts[i] in acts;
      NodeBounds(g, g.result(s, acts[i]), lo, hi);
      assert acts[0] in acts;
      NodeBounds(g, g.result(s, acts[0]), lo, hi);
      var j := MinScanFirstBest(g, s, |acts|);
      assert ChildMax(g, s, 0) == MaxNode(g, g.result(s, acts[0])).0;
      assert MinScan(g, s, |acts|).1.Some?;
      assert acts[j] in acts;
      NodeBounds(g, g.result(s, acts[j]), lo, hi);
    }
  }

  /** When no non-terminal state is stuck, both searches return a finite
      value: utilities are integers, and every node has a child. */
  lemma {:induction false} NodeFinite<S(!new), A(!new)>(g: Game<S, A>, s: S)
    requires Decreasing(g) && Live(g)
    ensures MaxNode(g, s).0.Fin? && MinNode(g, s).0.Fin?
    decreases g.rank(s)
  {
    if !g.isTerminal(s) {
      var acts := g.actions(s);
      var i := MaxScanLastBest(g, s, |acts|);
      assert acts[i] in acts;
      NodeFinite(g, g.result(s, acts[i]));
      assert acts[0] in acts;
      NodeFinite(g, g.result(s, acts[0]));
      var j := MinScanFirstBest(g, s, |acts|);
      assert ChildMax(g, s, 0) == MaxNode(g, g.result(s, acts[0])).0;
      assert MinScan(g, s, |acts|).1.Some?;
      assert acts[j] in acts;
      NodeFinite(g, g.result(s, acts[j]));
    }
  }

  /** When no non-terminal state is stuck, both searches name a legal
      action exactly when the state is not terminal. */
  lemma BestMoveIsAction<S(!new), A(!new)>(g: Game<S, A>, s: S)
    requires Decreasing(g) && Live(g)
    ensures MaxNode(g, s).1.Some? <==> !g.isTerminal(s)
    ensures MinNode(g, s).1.Some? <==> !g.isTerminal(s)
    ensures MaxNode(g, s).1.Some? ==> MaxNode(g, s).1.value in g.actions(s)
    ensures MinNode(g, s).1.Some? ==> MinNode(g, s).1.value in g.actions(s)
  {
    NodeFinite(g, s);
  }

  /** `minimax_move`: counts the filled cells; with an even count MAX is to
      move and its search gives the move, otherwise MIN's does. */
  method MinimaxMove<A(!new)>(g: Game<TicTacToe.Board, A>, state: TicTacToe.Board, depth: int, iterations: int)
    returns (move: Option<A>)
    requires Decreasing(g)
    ensures TicTacToe.Filled(state) % 2 == 0 ==> move == MaxNode(g, state).1
    ensures TicTacToe.Filled(state) % 2 == 1 ==> move == MinNode(g, state).1
  {
    var curDepth := 0;
    for i := 0 to |state|
      invariant curDepth == TicTacToe.Filled(state[..i])
    {
      TicTacToe.FilledConcat(state[..i], [state[i]]);
      assert state[..i + 1] == state[..i] + [state[i]];
      if state[i] != 0 {
        curDepth := curDepth + 1;
      }
    }
    assert state[..|state|] == state;
    var v;
    if curDepth % 2 == 0 {
      v, move := MaxValue(g, state, NegInf, PosInf, depth, iterations);
    } else {
      v, move := MinValue(g, state, NegInf, PosInf, depth, iterations);
    }
  }

  /** `play`: the verdict read off MAX's value of `state`. */
  method Play<S(!new), A(!new)>(g: Game<S, A>, state: S, iterations: int) returns (winner: string)
    requires Decreasing(g)
    ensures winner == Verdict(MaxNode(g, state).0)
    ensures winner == "Max" <==> Fin(0).Lt(MaxNode(g, state).0)
    ensures winner == "Min" <==> MaxNode(g, state).0.Lt(Fin(0))
  {
    var dif, m := MaxValue(g, state, NegInf, PosInf, 0, iterations);
    if Fin(0).Lt(dif) {
      winner := "Max";
    } else if dif.Lt(Fin(0)) {
      winner := "Min";
    } else {
      winner := "Tie";
    }
  }

  /** Tic-Tac-Toe as the engine plays it, ranked by its empty cells. */
  function TicTacToeGame(): Game<TicTacToe.Board, TicTacToe.Cell>
  {
    Game(TicTacToe.Actions, TicTacToe.Result, TicTacToe.IsTerminal, TicTacToe.Utility, TicTacToe.EmptyCount)
  }

  /** Tic-Tac-Toe meets the engine's conditions: each move fills a cell, a
      board that is not over has an empty cell, and utilities are -1, 0, 1. */
  lemma TicTacToeWellFormed()
    ensures Decreasing(TicTacToeGame())
    ensures Live(TicTacToeGame())
    ensures UtilityWithin(TicTacToeGame(), -1, 1)
  {
    var g := TicTacToeGame();
    forall s, a | !g.isTerminal(s) && a in g.actions(s)
      ensures g.rank(g.result(s, a)) < g.rank(s)
    {
      TicTacToe.ActionsAreEmptyCells(s);
      TicTacToe.ResultFillsOne(s, a);
    }
    forall s | !g.isTerminal(s) ensures |g.actions(s)| > 0 {
      TicTacToe.ActionsAreEmptyCells(s);
    }
  }

  /** On every board both searches return -1, 0 or 1, and on a board that
      is not over they choose an empty cell. */
  lemma TicTacToeSearch(s: TicTacToe.Board)
    ensures Decreasing(TicTacToeGame())
    ensures InRange(MaxNode(TicTacToeGame(), s).0, -1, 1)
    ensures InRange(MinNode(TicTacToeGame(), s).0, -1, 1)
    ensures !TicTacToe.IsTerminal(s) ==>
      MaxNode(TicTacToeGame(), s).1.Some? && s[MaxNode(TicTacToeGame(), s).1.value] == 0
    ensures !TicTacToe.IsTerminal(s) ==>
      MinNode(TicTacToeGame(), s).1.Some? && s[MinNode(TicTacToeGame(), s).1.value] == 0
  {
    TicTacToeWellFormed();
    NodeBounds(TicTacToeGame(), s, -1, 1);
    BestMoveIsAction(TicTacToeGame(), s);
    TicTacToe.ActionsAreEmptyCells(s);
  }
}
