/** Tic-Tac-Toe rules (game_tic_tac_toe.py): a 3x3 board of cells holding
    1 (X, the maximiser), -1 (O, the minimiser) or 0 (empty), the eight
    winning lines, the legal moves, the utility, the copy-on-write move
    and the text picture of a board. */
module TicTacToe {
  import opened Builtins
  import GameBase

  /** A board: nine cells, row by row. */
  type Board = s: seq<int> | |s| == 9 witness [0, 0, 0, 0, 0, 0, 0, 0, 0]

  /** A cell index, which is also the action of marking that cell. */
  type Cell = i: int | 0 <= i < 9

  const EmptyBoard: Board := [0, 0, 0, 0, 0, 0, 0, 0, 0]

  const Rules: string := "The game is played on a 3x3 grid. Players take turns placing their symbol (X or O) in an empty square. The player who gets 3 of their symbols in a row wins."

  /** A goal line: three cells. */
  datatype Line = Line(a: Cell, b: Cell, c: Cell)

  /** `GOAL_STATES`: the three rows, the three columns and the two diagonals. */
  const GoalStates: seq<Line> := [
    Line(0, 1, 2), Line(3, 4, 5), Line(6, 7, 8), Line(0, 3, 6),
    Line(1, 4, 7), Line(2, 5, 8), Line(0, 4, 8), Line(2, 4, 6)]

  /** `all(state[i] == player for i in combo)`. */
  predicate Holds(s: Board, combo: Line, player: int)
  {
    s[combo.a] == player && s[combo.b] == player && s[combo.c] == player
  }

  /** Some goal line is all `player`. */
  ghost predicate HasLine(s: Board, player: int)
  {
    exists k :: 0 <= k < |GoalStates| && Holds(s, GoalStates[k], player)
  }

  /** The scan `for combo in GOAL_STATES` from line `k` on, true at the first
      line that is all `player`. */
  function LineFrom(s: Board, player: int, k: nat): (found: bool)
    requires k <= |GoalStates|
    ensures found <==> exists j :: k <= j < |GoalStates| && Holds(s, GoalStates[j], player)
    decreases |GoalStates| - k
  {
    if k == |GoalStates| then false
    else if Holds(s, GoalStates[k], player) then true
    else LineFrom(s, player, k + 1)
  }

  lemma LineFromStart(s: Board, player: int)
    ensures LineFrom(s, player, 0) <==> HasLine(s, player)
  {
  }

  /** The nested scan `for player in players: for combo in GOAL_STATES`:
      the first player in `players` owning a line, or 0. */
  function FirstWinner(s: Board, players: seq<int>): int
  {
    if players == [] then 0
    else if LineFrom(s, players[0], 0) then players[0]
    else FirstWinner(s, players[1..])
  }

  lemma FirstWinnerOfTwo(s: Board, p: int, q: int)
    ensures FirstWinner(s, [p, q]) ==
      if HasLine(s, p) then p else if HasLine(s, q) then q else 0
  {
    LineFromStart(s, p);
    LineFromStart(s, q);
    var ps := [p, q];
    assert ps[0] == p && ps[1..] == [q];
    assert [q][0] == q && [q][1..] == [];
    assert FirstWinner(s, [q]) == if LineFrom(s, q, 0) then q else 0;
  }

  /** `utility`: -1 if O owns a line, else 1 if X owns one, else 0. The
      source also takes a `player` argument that the body never reads; it
      is dropped here. */
  function Utility(s: Board): (u: int)
    ensures u == -1 <==> HasLine(s, -1)
    ensures u == 1 <==> !HasLine(s, -1) && HasLine(s, 1)
    ensures u == 0 <==> !HasLine(s, -1) && !HasLine(s, 1)
  {
    FirstWinnerOfTwo(s, -1, 1);
    FirstWinner(s, [-1, 1])
  }

  /** `is_terminal`: the board is full or a line is complete. Its `player`
      argument is overwritten by the loop before it is read; it is dropped. */
  function IsTerminal(s: Board): (t: bool)
    ensures t <==> 0 !in s || HasLine(s, 1) || HasLine(s, -1)
  {
    FirstWinnerOfTwo(s, 1, -1);
    if 0 !in s then true else FirstWinner(s, [1, -1]) != 0
  }

  /** A line three equal marks other than 0. */
  predicate Won(s: Board, line: Line)
  {
    s[line.a] != 0 && s[line.a] == s[line.b] && s[line.b] == s[line.c]
  }

  /** Terminal exactly when no cell is empty or some goal line holds three
      equal marks other than 0. */
  lemma TerminalIff(s: Board)
    requires Marks(s)
    ensures IsTerminal(s) <==>
      (forall i :: 0 <= i < 9 ==> s[i] != 0) ||
      (exists k :: 0 <= k < |GoalStates| && Won(s, GoalStates[k]))
  {
    if exists k :: 0 <= k < |GoalStates| && Won(s, GoalStates[k]) {
      var k :| 0 <= k < |GoalStates| && Won(s, GoalStates[k]);
      assert s[GoalStates[k].a] in {-1, 0, 1};
      assert Holds(s, GoalStates[k], s[GoalStates[k].a]);
    }
    if HasLine(s, 1) {
      var k :| 0 <= k < |GoalStates| && Holds(s, GoalStates[k], 1);
      assert Won(s, GoalStates[k]);
    }
    if HasLine(s, -1) {
      var k :| 0 <= k < |GoalStates| && Holds(s, GoalStates[k], -1);
      assert Won(s, GoalStates[k]);
    }
    if 0 in s {
      var i :| 0 <= i < 9 && s[i] == 0;
    }
  }

  /** The indices `i` from `from` on with `s[i] == 0`, ascending. */
  function EmptyCellsFrom(s: Board, from: nat): (r: seq<Cell>)
    requires from <= 9
    ensures forall j :: 0 <= j < |r| ==> from <= r[j] && s[r[j]] == 0
    ensures forall c: Cell :: from <= c && s[c] == 0 ==> c in r
    ensures forall j, k :: 0 <= j < k < |r| ==> r[j] < r[k]
    decreases 9 - from
  {
    if from == 9 then []
    else if s[from] == 0 then [from as Cell] + EmptyCellsFrom(s, from + 1)
    else EmptyCellsFrom(s, from + 1)
  }

  /** `actions`: no move once the game is over, otherwise every empty cell. */
  function Actions(s: Board): (r: seq<Cell>)
    ensures IsTerminal(s) ==> r == []
    ensures forall j :: 0 <= j < |r| ==> s[r[j]] == 0
    ensures !IsTerminal(s) ==> forall c: Cell :: s[c] == 0 ==> c in r
  {
    if IsTerminal(s) then [] else EmptyCellsFrom(s, 0)
  }

  /** On a terminal board there is no move; otherwise the moves are exactly
      the empty cells, in ascending order and each once. */
  lemma ActionsAreEmptyCells(s: Board)
    ensures IsTerminal(s) ==> Actions(s) == []
    ensures !IsTerminal(s) ==> forall c: Cell :: c in Actions(s) <==> s[c] == 0
    ensures forall j, k :: 0 <= j < k < |Actions(s)| ==> Actions(s)[j] < Actions(s)[k]
    ensures !IsTerminal(s) ==> |Actions(s)| > 0
  {
    if !IsTerminal(s) {
      var i :| 0 <= i < 9 && s[i] == 0;
      assert (i as Cell) in EmptyCellsFrom(s, 0);
    }
  }

  /** The number of cells holding a mark. */
  function Filled(s: seq<int>): (r: nat)
    ensures r <= |s|
  {
    if s == [] then 0 else (if s[0] != 0 then 1 else 0) + Filled(s[1..])
  }

  lemma {:induction false} FilledConcat(a: seq<int>, b: seq<int>)
    ensures Filled(a + b) == Filled(a) + Filled(b)
  {
    if a == [] {
      assert a + b == b;
    } else {
      assert (a + b)[1..] == a[1..] + b;
      FilledConcat(a[1..], b);
    }
  }

  /** The number of empty cells: the search's measure of progress. */
  function EmptyCount(s: Board): nat
  {
    9 - Filled(s)
  }

  /** The mark the next move writes: O (-1) when the marks sum above 0,
      X (1) otherwise.  On a reachable board X moves exactly when both
      sides have played equally often. */
  function Mover(s: Board): (m: int)
    ensures m == 1 || m == -1
    ensures Balanced(s) ==> (m == 1 <==> Sum(s) == 0)
  {
    if Sum(s) > 0 then -1 else 1
  }

  /** `result` as a value: the board with the mover's mark at `action`. */
  function Result(s: Board, action: Cell): (r: Board)
    ensures forall i :: 0 <= i < 9 && i != action ==> r[i] == s[i]
    ensures r[action] == Mover(s) && r[action] != 0
  {
    s[action := Mover(s)]
  }

  /** `result` as the source runs it: copy the caller's list, then write one
      cell of the copy. The caller's array is outside the frame, so it is
      left as it was. */
  method ResultCopy(state: array<int>, action: Cell) returns (newState: array<int>)
    requires state.Length == 9
    ensures fresh(newState)
    ensures newState[..] == Result(state[..], action)
  {
    newState := new int[9](i requires 0 <= i < 9 reads state => state[i]);
    assert newState[..] == state[..];
    if Sum(state[..]) > 0 {
      newState[action] := -1;
    } else {
      newState[action] := 1;
    }
  }

  lemma {:induction false} FilledUpdate(s: seq<int>, i: nat, x: int)
    requires i < |s| && s[i] == 0 && x != 0
    ensures Filled(s[i := x]) == Filled(s) + 1
  {
    if i > 0 {
      assert s[i := x][1..] == s[1..][i - 1 := x];
      FilledUpdate(s[1..], i - 1, x);
    }
  }

  lemma {:induction false} SumUpdate(s: seq<int>, i: nat, x: int)
    requires i < |s|
    ensures Sum(s[i := x]) == Sum(s) - s[i] + x
  {
    if i > 0 {
      assert s[i := x][1..] == s[1..][i - 1 := x];
      SumUpdate(s[1..], i - 1, x);
    }
  }

  /** Marking an empty cell fills exactly one more cell, so one fewer is
      empty. */
  lemma ResultFillsOne(s: Board, action: Cell)
    requires s[action] == 0
    ensures Filled(Result(s, action)) == Filled(s) + 1
    ensures EmptyCount(Result(s, action)) == EmptyCount(s) - 1
  {
    FilledUpdate(s, action, Mover(s));
  }

  /** Every cell is empty, X or O. */
  predicate Marks(s: seq<int>)
  {
    forall i :: 0 <= i < |s| ==> s[i] in {-1, 0, 1}
  }

  /** A board reachable by alternating play from the empty board: only marks,
      and X is at most one mark ahead of O. */
  predicate Balanced(s: Board)
  {
    Marks(s) && (Sum(s) == 0 || Sum(s) == 1)
  }

  /** From a balanced board, a move on an empty cell gives a balanced board
      on which the other side moves. */
  lemma ResultAlternates(s: Board, action: Cell)
    requires Balanced(s) && s[action] == 0
    ensures Balanced(Result(s, action))
    ensures Sum(Result(s, action)) == 1 - Sum(s)
    ensures Mover(Result(s, action)) == -Mover(s)
  {
    SumUpdate(s, action, Mover(s));
  }

  lemma {:induction false} FilledParity(s: seq<int>)
    requires Marks(s)
    ensures (Filled(s) - Sum(s)) % 2 == 0
  {
    if s != [] {
      assert Marks(s[1..]) by {
        forall i | 0 <= i < |s[1..]| ensures s[1..][i] in {-1, 0, 1} {
          assert s[1..][i] == s[i + 1];
        }
      }
      FilledParity(s[1..]);
      assert s[0] in {-1, 0, 1};
    }
  }

  /** On a balanced board X moves exactly when an even number of cells are
      filled, so the sign of the sum and the parity of the filled cells
      name the same side. */
  lemma ParityNamesMover(s: Board)
    requires Balanced(s)
    ensures Filled(s) % 2 == 0 <==> Mover(s) == 1
  {
    FilledParity(s);
  }

  /** No line can be complete on a board whose every cell is empty. */
  lemma NoLineOnEmpty(s: Board, player: int)
    requires player != 0 && forall i :: 0 <= i < 9 ==> s[i] == 0
    ensures !HasLine(s, player)
  {
    forall k | 0 <= k < |GoalStates| ensures !Holds(s, GoalStates[k], player) {
      assert s[GoalStates[k].a] == 0;
    }
  }

  /** The empty board the game starts from and resets to is not over, and
      all nine cells are moves, in order. */
  lemma EmptyBoardOpen(s: Board)
    requires forall i :: 0 <= i < 9 ==> s[i] == 0
    ensures !IsTerminal(s)
    ensures |Actions(s)| == 9 && forall i :: 0 <= i < 9 ==> Actions(s)[i] == i
    ensures Balanced(s)
  {
    NoLineOnEmpty(s, 1);
    NoLineOnEmpty(s, -1);
    assert s[0] == 0;
    EmptyCellsAreMoves(s);
    SumZeros(s);
  }

  /** On an open board whose every cell is empty the moves are 0 to 8. */
  lemma EmptyCellsAreMoves(s: Board)
    requires forall i :: 0 <= i < 9 ==> s[i] == 0
    requires !IsTerminal(s)
    ensures |Actions(s)| == 9 && forall i :: 0 <= i < 9 ==> Actions(s)[i] == i
  {
    var acts := EmptyCellsFrom(s, 0);
    assert Actions(s) == acts;
    EmptyCellsOfZeros(s, 0);
    forall i | 0 <= i < 9 ensures acts[i] == i {
      assert acts[i] == 0 + i;
    }
  }

  lemma {:induction false} EmptyCellsOfZeros(s: Board, from: nat)
    requires from <= 9
    requires forall i :: 0 <= i < 9 ==> s[i] == 0
    ensures |EmptyCellsFrom(s, from)| == 9 - from
    ensures forall i :: 0 <= i < 9 - from ==> EmptyCellsFrom(s, from)[i] == from + i
    decreases 9 - from
  {
    if from < 9 {
      EmptyCellsOfZeros(s, from + 1);
      assert s[from] == 0;
    }
  }

  lemma {:induction false} SumZeros(s: seq<int>)
    requires forall i :: 0 <= i < |s| ==> s[i] == 0
    ensures Sum(s) == 0
  {
    if s != [] {
      assert s[0] == 0;
      SumZeros(s[1..]);
    }
  }

  /** A full board without a line: the game is over, there is no move, and
      its utility is 0. */
  lemma DrawnBoard()
    ensures IsTerminal([1, -1, 1, -1, 1, -1, -1, 1, -1])
    ensures Actions([1, -1, 1, -1, 1, -1, -1, 1, -1]) == []
    ensures Utility([1, -1, 1, -1, 1, -1, -1, 1, -1]) == 0
  {
    var s: Board := [1, -1, 1, -1, 1, -1, -1, 1, -1];
    forall k | 0 <= k < |GoalStates|
      ensures !Holds(s, GoalStates[k], 1) && !Holds(s, GoalStates[k], -1)
    {
      if k == 0 {} else if k == 1 {} else if k == 2 {} else if k == 3 {}
      else if k == 4 {} else if k == 5 {} else if k == 6 {} else {}
    }
    assert forall i :: 0 <= i < 9 ==> s[i] != 0;
  }

  // ---------------------------------------------------------------- text

  /** The symbol `print_state` writes for a mark. */
  function Symbol(m: int): char
    requires m in {-1, 0, 1}
  {
    if m == 0 then ' ' else if m == 1 then 'X' else 'O'
  }

  /** The mark a symbol stands for. */
  function MarkOf(c: char): int
  {
    if c == 'X' then 1 else if c == 'O' then -1 else 0
  }

  /** What `print_state` writes after cell `i`. */
  function CellSeparator(i: nat): string
  {
    if i % 3 == 2 then "\n" else " | "
  }

  /** The picture `print_state` builds of `s`: each cell's symbol lands at
      `SymbolPos`, so the whole picture is `SymbolPos(|s|)` long. */
  function Picture(s: seq<int>): (r: string)
    requires Marks(s)
    ensures |r| == SymbolPos(|s|)
  {
    if s == [] then ""
    else Picture(s[..|s| - 1]) + [Symbol(s[|s| - 1])] + CellSeparator(|s| - 1)
  }

  /** Where the symbol of cell `i` lands: after the symbols and separators
      of the cells before it. */
  function SymbolPos(i: nat): nat
  {
    if i == 0 then 0 else SymbolPos(i - 1) + 1 + |CellSeparator(i - 1)|
  }

  /** Ten characters per row of three ("a | b | c" and a newline), four per
      cell within a row. */
  lemma {:induction false} SymbolPosRows(i: nat)
    ensures SymbolPos(i) == (i / 3) * 10 + (i % 3) * 4
  {
    if i > 0 {
      SymbolPosRows(i - 1);
      var q, r := (i - 1) / 3, (i - 1) % 3;
      assert i - 1 == 3 * q + r && 0 <= r < 3;
      if r == 2 {
        assert i == 3 * (q + 1);
      } else {
        assert i == 3 * q + (r + 1) && r + 1 < 3;
      }
    }
  }

  lemma MarksFront(s: seq<int>)
    requires Marks(s) && s != []
    ensures Marks(s[..|s| - 1])
  {
    var front := s[..|s| - 1];
    forall i | 0 <= i < |front| ensures front[i] in {-1, 0, 1} {
      assert front[i] == s[i];
    }
  }

  /** The last cell adds a newline to the picture exactly when it closes a
      row. */
  lemma NewlineStep(head: string, x: int, n: nat)
    requires x in {-1, 0, 1}
    ensures Count(head + [Symbol(x)] + CellSeparator(n), '\n') == Count(head, '\n') + (if n % 3 == 2 then 1 else 0)
  {
    CountConcat(head, [Symbol(x)], '\n');
    CountConcat(head + [Symbol(x)], CellSeparator(n), '\n');
    assert [Symbol(x)][1..] == [];
    if n % 3 == 2 {
      assert CellSeparator(n)[1..] == [];
    } else {
      CountAbsent(CellSeparator(n), '\n');
    }
  }

  lemma {:induction false} PictureNewlines(s: seq<int>)
    requires Marks(s)
    ensures Count(Picture(s), '\n') == |s| / 3
    decreases |s|
  {
    if s != [] {
      var n := |s| - 1;
      var front := s[..n];
      MarksFront(s);
      PictureNewlines(front);
      NewlineStep(Picture(front), s[n], n);
      GameBase.ThirdsStep(n);
    }
  }

  /** Reads the marks of `n` cells back from a picture, last cell first:
      the last cell's symbol stands just before its separator, and what
      precedes it is the picture of the cells before. */
  function ParsePicture(t: string, n: nat): seq<int>
    decreases n
  {
    if n == 0 || |t| < 1 + |CellSeparator(n - 1)| then []
    else
      var k := |t| - 1 - |CellSeparator(n - 1)|;
      ParsePicture(t[..k], n - 1) + [MarkOf(t[k])]
  }

  /** Parsing a picture that ends in the symbol of mark `x` and the
      separator of cell `n - 1` reads `x` last, after parsing what precedes
      it. */
  lemma ParseLast(head: string, x: int, n: nat)
    requires n > 0 && x in {-1, 0, 1}
    ensures ParsePicture(head + [Symbol(x)] + CellSeparator(n - 1), n) == ParsePicture(head, n - 1) + [x]
  {
    var t := head + [Symbol(x)] + CellSeparator(n - 1);
    assert t[..|head|] == head;
    assert t[|head|] == Symbol(x);
  }

  lemma {:induction false} PictureParses(s: seq<int>)
    requires Marks(s)
    ensures ParsePicture(Picture(s), |s|) == s
    decreases |s|
  {
    if s != [] {
      var n := |s| - 1;
      var front, last := s[..n], s[n];
      assert s == front + [last];
      MarksFront(s);
      PictureParses(front);
      ParseLast(Picture(front), last, |s|);
    }
  }

  /** One symbol per cell, followed by a newline after every third cell and
      by " | " after the others: ten characters per row of three, so reading
      the symbols back gives the board again. */
  lemma PictureRoundTrip(s: seq<int>)
    requires Marks(s)
    ensures |Picture(s)| == SymbolPos(|s|) == (|s| / 3) * 10 + (|s| % 3) * 4
    ensures Count(Picture(s), '\n') == |s| / 3
    ensures ParsePicture(Picture(s), |s|) == s
  {
    SymbolPosRows(|s|);
    PictureNewlines(s);
    PictureParses(s);
  }

  /** `print_state(state)`: the picture, built symbol by symbol. */
  method PrintState(state: seq<int>) returns (ret: string)
    requires Marks(state)
    ensures ret == Picture(state)
    ensures |ret| == SymbolPos(|state|)
    ensures ParsePicture(ret, |state|) == state
  {
    ret := "";
    for i := 0 to |state|
      invariant Marks(state[..i])
      invariant ret == Picture(state[..i])
    {
      assert state[..i + 1][..i] == state[..i];
      ret := ret + [Symbol(state[i])];
      ret := ret + CellSeparator(i);
    }
    assert state[..|state|] == state;
    PictureRoundTrip(state);
  }

  // ---------------------------------------------------------------- object

  /** The game object: the base fields (game.py) with the board as state. */
  class TicTacToeGame {
    const base: GameBase.GameLogic

    /** A new game: the rules text set, the empty board, scores 0. */
    constructor ()
      ensures fresh(base)
      ensures base.state == EmptyBoard && base.rules == Rules
      ensures base.playerScore == 0 && base.computerScore == 0
    {
      var b := new GameBase.GameLogic();
      b.rules := Rules;
      b.state := EmptyBoard;
      base := b;
    }

    /** `reset`: the base reset, then the empty board again. */
    method Reset()
      modifies base
      ensures base.state == EmptyBoard
      ensures base.playerScore == 0 && base.computerScore == 0
      ensures base.rules == old(base.rules)
    {
      base.Reset();
      base.state := EmptyBoard;
    }

    /** `print_state()` with no argument: the picture of the current board. */
    method PrintCurrent() returns (ret: string)
      requires Marks(base.state)
      ensures ret == Picture(base.state)
    {
      ret := PrintState(base.state);
    }
  }
}
