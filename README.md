# DeepDarkBlueMiniMax search core in Dafny

This project models the adversarial-search core of DeepDarkBlueMiniMax. It has two engines:

- **Plain minimax** over an abstract game (`minimax.py`), instantiated with Tic-Tac-Toe.
- **Alpha-beta search for the stone game** (`minigame.py`, class `Minimax`). It carries the running score difference `dif` and records every node it visits in a graph.

Around the engines sit the rule sets they search (`game_tic_tac_toe.py`, `game_stone_game.py`) and the base game object (`game.py`).

Modules, one per concern:

- `Builtins` (builtins.dfy): Python's `sum`, slices with clamped and negative bounds, `str` of an integer, and character counts.
- `SearchValues` (search_values.dfy): `ExtInt`, the integers extended with `-inf` and `inf`; `max`/`min` over them; `Option` for `None`; the "Max"/"Min"/"Tie" verdict.
- `GameBase` (game_base.dfy): class `GameLogic` with `__init__`, `reset` and `__str__`.
- `StoneGame` (stone_game.dfy): the pile rules and class `StoneGame`.
- `TicTacToe` (tic_tac_toe.dfy): the board, the goal lines, the rules, copy-on-write `result` over an array, `print_state`, and class `TicTacToeGame`.
- `Minimax` (minimax.dfy): the generic engine. A game is a datatype of function values (`actions`, `result`, `isTerminal`, `utility`), plus a `rank` that every move lowers. The rank is the termination argument; the code has no such field.
- `StoneSearch` (stone_search.dfy): the stone-game search, in two layers.
  - Value layer. `MaxGameValue`/`MinGameValue` give the plain minimax value of a pile. `AbMax`/`AbMin` give what the pruned search returns, loop turn by loop turn (`AbMaxScan`/`AbMinScan`).
  - Imperative layer. Class `Minimax` holds the graph as a map from `NodeKey(level, pile, dif)` to `NodeData(level, value)` and a set of edges. Its methods are proved to return exactly what the value layer says and to leave the graph in the stated shape.

Inheritance (`TicTacToe(GameLogic)`, `StoneGame(GameLogic)`) is modelled by composition: each game object holds a `GameLogic` in `base`.

Four design decisions:

- **Move rule.** The code's move rule ("report the child's move when it is not 0") is a parameter `Rule`. `ChildMove` is the code as written; `OwnAction` is the correction (see Findings). Both `stoneGameIII` and `ply` use `ChildMove`, as the code does. `OptimalPly` is `ply` with the corrected rule.
- **Break.** The loop's `break` is a flag `pruned` in the loop condition.
- **Plain engine inputs.** In `minimax.py`, `alpha`, `beta`, `depth` and `iterations` are parameters on which no decision depends. The searches only pass them on (`depth + 1`, `iterations - 1`): the pruning is commented out, and there is no depth cut-off. The stone-game search does prune, and its model tracks `alpha` and `beta`.
- **Stone game winner.** The stone game's rules text says the player who takes the last stone loses. `check_winner` compares the two scores instead, and the model follows `check_winner`.

`StoneGame.Utility` is the constant 0, as in the code. The class `Minimax` of minigame.py has its own `actions` and `result` (minigame.py:52-63); their text is the same as `StoneGame.actions`/`result`, so the model uses `StoneGame.Actions` and `StoneGame.Result` for both. `TicTacToe.GoalStates` is the list `GOAL_STATES`.

## Model

| member | source | states |
|---|---|---|
| SearchValues.Max | minigame.py:93 | `max` over extended integers is at least both arguments and is one of them |
| SearchValues.Min | minigame.py:130 | `min` over extended integers is at most both arguments and is one of them |
| SearchValues.Verdict | minimax.py:39-44 | "Max" exactly when the value is above 0, "Min" exactly when below, "Tie" exactly at 0 |
| Builtins.SliceIndex | game_stone_game.py:37-38 | a slice bound lands in the list; negative bounds count from the end and out-of-range bounds are clamped |
| Builtins.SplitAt | game_stone_game.py:37-38 | `s[:k] + s[k:] == s` for every integer `k`, and the sums (and absolute sums) of the two parts add up to those of `s` |
| Builtins.IntTextNoBlanks | game.py:48 | `str` of an integer contains no newline and no space |
| GameBase.GameLogic.constructor | game.py:13-17 | empty state, empty rules text, both scores 0 |
| GameBase.GameLogic.Reset | game.py:31-34 | state empty and both scores 0; the rules text is unchanged |
| GameBase.GameLogic.ToText | game.py:42-53 | the loop builds the rendering of the state; it holds `len(state) / 3` newlines (integer division) and one space for every other element |
| GameBase.Render | game.py:42-53 | the rendering `__str__` builds: each element's `str` and one separator, so at least two characters per element |
| GameBase.RenderSeparators | game.py:47-52 | every element is followed by exactly one separator, every third of them a newline |
| StoneGame.Actions | game_stone_game.py:27-31 | the counts 1 to `min(3, len(state))` in ascending order; empty exactly on an empty pile |
| StoneGame.ActionsAreTakes | game_stone_game.py:27-31 | `a` is an action exactly when `1 <= a <= 3` and `a <= len(state)`; the actions strictly ascend |
| StoneGame.Result | game_stone_game.py:33-38 | for a take within the pile, the pile left is shorter by exactly the number taken |
| StoneGame.ResultSplits | game_stone_game.py:33-38 | the taken prefix followed by the pile left is the old pile; the score plus the sum left is the old sum; for a take within the pile these are `state[a:]` and `sum(state[:a])` |
| StoneGame.StartPile | game_stone_game.py:52 | the pile `[0, 1, ..., 14]` |
| StoneGame.StoneGame.constructor | game_stone_game.py:21-25 | the rules text, the given pile of 14 to 17 values in 0..10, both scores 0 |
| StoneGame.StoneGame.Reset | game_stone_game.py:47-52 | base reset (scores 0, rules kept), then the pile 0 to 14 |
| StoneGame.StoneGame.CheckWinner | game_stone_game.py:54-65 | "No winner yet" exactly on a non-empty pile; on an empty pile "Player", "Computer" or "Tie" exactly as the player's score is above, below or equal to the computer's |
| TicTacToe.LineFrom | game_tic_tac_toe.py:87-89 | the scan over `GOAL_STATES` from line `k` finds a line exactly when some later goal line is all `player` |
| TicTacToe.FirstWinnerOfTwo | game_tic_tac_toe.py:46-50 | the nested scan over two players returns the first one owning a line, else 0 |
| TicTacToe.Utility | game_tic_tac_toe.py:42-50 | -1 exactly when O owns a line; 1 exactly when X does and O does not; 0 otherwise (the `player` argument is never read) |
| TicTacToe.IsTerminal | game_tic_tac_toe.py:76-90 | true exactly when no cell is 0 or a player owns a goal line |
| TicTacToe.TerminalIff | game_tic_tac_toe.py:83-90 | on a board of marks: terminal exactly when every cell is filled or some goal line holds three equal non-zero marks |
| TicTacToe.EmptyCellsFrom | game_tic_tac_toe.py:40 | the indices from `from` on holding 0: each listed index is empty, each empty index is listed, ascending |
| TicTacToe.Actions | game_tic_tac_toe.py:33-40 | no action on a terminal board; every action is an empty cell; on a board not over, every empty cell is an action |
| TicTacToe.ActionsAreEmptyCells | game_tic_tac_toe.py:33-40 | no action on a terminal board; otherwise a cell is an action exactly when it is empty, the actions ascend, and there is at least one |
| TicTacToe.ResultCopy | game_tic_tac_toe.py:52-67 | `result` on an array: a fresh array equal to the board with the mover's mark at `action`; the caller's array is not written |
| TicTacToe.Mover | game_tic_tac_toe.py:62-66 | the mark written is 1 or -1; on a reachable board it is X (1) exactly when both sides have played equally often |
| TicTacToe.Result | game_tic_tac_toe.py:52-67 | `result` as a value: only the cell `action` changes, and it gets the mover's mark, which is not 0 |
| TicTacToe.ResultFillsOne | game_tic_tac_toe.py:60-66 | marking an empty cell fills exactly one more cell |
| TicTacToe.ResultAlternates | game_tic_tac_toe.py:62-66 | from a reachable board (marks only, sum 0 or 1), a move on an empty cell gives a reachable board where the other side moves |
| TicTacToe.ParityNamesMover | game_tic_tac_toe.py:62-66 | on a reachable board, X is to move exactly when an even number of cells are filled |
| TicTacToe.EmptyBoardOpen | game_tic_tac_toe.py:69-74 | the all-empty board is not terminal, its actions are exactly 0, 1, ..., 8, and it is reachable |
| TicTacToe.DrawnBoard | game_tic_tac_toe.py:76-90 | the full board without a line is terminal, has no action, and has utility 0 |
| TicTacToe.Picture | game_tic_tac_toe.py:101-109 | the text `print_state` builds is `SymbolPos(len(state))` characters long, the position after the last cell's separator |
| TicTacToe.SymbolPosRows | game_tic_tac_toe.py:103-108 | cell `i`'s symbol is at `(i / 3) * 10 + (i % 3) * 4`: ten characters per row, four per cell |
| TicTacToe.PictureRoundTrip | game_tic_tac_toe.py:101-109 | the picture has `SymbolPos(len(state))` characters and `len(state) / 3` newlines, and reading its symbols back returns the board |
| TicTacToe.PrintState | game_tic_tac_toe.py:95-109 | the loop builds the picture; its length is as above; parsing it gives the board back |
| TicTacToe.TicTacToeGame.constructor | game_tic_tac_toe.py:28-31 | the rules text, the nine-zero board, both scores 0 |
| TicTacToe.TicTacToeGame.Reset | game_tic_tac_toe.py:69-74 | base reset (scores 0, rules kept), then the nine-zero board |
| TicTacToe.TicTacToeGame.PrintCurrent | game_tic_tac_toe.py:111-115 | the picture of the current board |
| Minimax.MaxValue | minimax.py:62-84 | the loop's result is what `MaxNode` says: the utility and no move on a terminal state, otherwise the scan with `<=`; alpha, beta, depth and iterations do not matter |
| Minimax.MinValue | minimax.py:86-106 | the same for MIN with `<` |
| Minimax.MaxNode | minimax.py:62-84 | what `max_value` returns: a move exactly when the state is not terminal and has an action, and then one of its actions |
| Minimax.MinNode | minimax.py:86-106 | what `min_value` returns: no move exactly when the state is terminal or every child is `inf`; a move is one of the state's actions |
| Minimax.MaxScanLastBest | minimax.py:72-79 | after `k > 0` actions MAX holds the last child of greatest value: at least every child seen, every later one strictly less |
| Minimax.MinScanFirstBest | minimax.py:95-102 | after `k` actions MIN holds the first child of least value, or no move and `inf` exactly when every child seen is `inf` |
| Minimax.TerminalLeaf | minimax.py:66-68 | on a terminal state both searches return the utility and no move, exploring nothing |
| Minimax.MaxNodeChoice | minimax.py:70-79 | on a state with moves, MAX's value is the greatest child value and its move the last action reaching it |
| Minimax.MinNodeChoice | minimax.py:90-102 | once some child is below `inf`, MIN's value is the least child value and its move the first action reaching it |
| Minimax.NodeBounds | minimax.py:71-79 | when utilities lie in `[lo, hi]` and a non-terminal state always has a move, both values are finite and in `[lo, hi]` |
| Minimax.NodeFinite | minimax.py:66-106 | when a non-terminal state always has a move, both values are finite: utilities are integers and every node has a child |
| Minimax.BestMoveIsAction | minimax.py:70-106 | when a non-terminal state always has a move, the move is not `None` exactly on a non-terminal state, and then it is one of `actions(state)` |
| Minimax.MinimaxMove | minimax.py:46-60 | counts the filled cells; with an even count the move is MAX's search move, with an odd count MIN's |
| Minimax.Play | minimax.py:31-44 | "Max" exactly when the root value is above 0, "Min" exactly when below, otherwise "Tie" |
| Minimax.TicTacToeWellFormed | game_tic_tac_toe.py:33-67 | Tic-Tac-Toe meets the engine's conditions: each move fills a cell, a board not over has a move, utilities are -1, 0 or 1 |
| Minimax.TicTacToeSearch | minimax.py:62-106 | on every board both searches return -1, 0 or 1; on a board not over they choose an empty cell |
| StoneSearch.AbMaxScan | minigame.py:77-96 | MAX's loop state after `k` takes; once one child is seen its value is finite (the first child always beats `-inf`) and its move is a legal take |
| StoneSearch.AbMinScan | minigame.py:112-134 | MIN's loop state after `k` takes; once one child is seen its value is finite and its move is a legal take |
| StoneSearch.AbMax | minigame.py:65-98 | what `max_value` returns: `(dif, 0)` on an empty pile; otherwise a move from 1 to `min(3, len(state))`, under either move rule |
| StoneSearch.AbMin | minigame.py:100-137 | what `min_value` returns, with the same move range |
| StoneSearch.AbMaxScanInv | minigame.py:77-96 | MAX's loop invariant: alpha is the larger of its start and `v`; unpruned, `v` bounds the plain best of the children seen and equals it above alpha; after a cut, `v` is a lower bound of it |
| StoneSearch.AbMinScanInv | minigame.py:112-134 | MIN's loop invariant, the mirror image |
| StoneSearch.AbMaxSound | minigame.py:65-98 | in every window `alpha < beta` the pruned MAX value is fail-soft: at or below alpha it is an upper bound of the plain value, at or above beta a lower bound, strictly inside it equals it; with the own-action rule, a result strictly inside comes with a legal move reaching the plain value |
| StoneSearch.AbMinSound | minigame.py:100-137 | the same fail-soft relation for MIN |
| StoneSearch.RootValue | minigame.py:33-34 | in the window (-inf, inf) used by `stoneGameIII` and `ply`, either search returns the plain minimax value, under either move rule |
| StoneSearch.OwnActionOptimal | minigame.py:87-92 | with the corrected rule, the root move on a non-empty pile is a take of 1 to 3 stones whose child has the root's value |
| StoneSearch.AbMaxScanFirstBest | minigame.py:87-92 | `v < v2` keeps the first child returning the greatest value: earlier children returned strictly less, later explored ones no more, and the move is what that child's take reports |
| StoneSearch.AbMinScanFirstBest | minigame.py:124-129 | `v > v2` keeps the first child returning the least value |
| StoneSearch.MaxCutPersists | minigame.py:94-96 | after MAX's break no further action changes the loop state |
| StoneSearch.MinCutPersists | minigame.py:131-134 | after MIN's break no further action changes the loop state |
| StoneSearch.ChildMoveCounterexample | minigame.py:89-92 | as written, on the pile 0, -5, 1 the root returns (4, 2): the value 4 is reached by taking one stone, while taking two is worth -6 |
| StoneSearch.ValueShift | minigame.py:85-86 | the starting difference only shifts the value: `dif` accumulates additively |
| StoneSearch.ValueWithinStones | minigame.py:66-69 | the final difference is within the sum of absolute stone values of the starting one |
| StoneSearch.Minimax.constructor | minigame.py:24-26 | an empty graph and no stones |
| StoneSearch.Minimax.AddSon | minigame.py:80-84 | `add_node`/`add_edge`: the son is recorded at its level with any value it had, the edge is added, the graph stays well formed |
| StoneSearch.Minimax.SetValue | minigame.py:97 | writes a node's value, keeping its level and every other node |
| StoneSearch.Minimax.MaxExplore | minigame.py:78-86 | records the son of a take and the edge to it, then returns MIN's search of the son with `dif + score` |
| StoneSearch.Minimax.MinExplore | minigame.py:113-123 | records the son and the edge, then returns MAX's search of the son with `dif - score` |
| StoneSearch.Minimax.MaxTurn | minigame.py:77-96 | one loop turn takes the loop state after `i` actions to the one after `i + 1`, records the edge, and on a cut marks the son `inf` |
| StoneSearch.Minimax.MinTurn | minigame.py:112-134 | the same for MIN, marking a cut son `-inf` |
| StoneSearch.Minimax.MaxSons | minigame.py:75-96 | the loop (with `break`) ends in the loop state after all actions and leaves an edge to every son it explored |
| StoneSearch.Minimax.MinSons | minigame.py:110-134 | the same for MIN |
| StoneSearch.Minimax.MaxValue | minigame.py:65-98 | returns exactly `AbMax`; writes `dif` into an empty pile's node and the backed-up value into the node; leaves the edges to the explored sons and the cut mark; nodes above its level keep their data; the graph stays well formed |
| StoneSearch.Minimax.MinValue | minigame.py:100-137 | the same for MIN with `AbMin` |
| StoneSearch.Minimax.Ply | minigame.py:42-50 | searches `state[:max_depth]` with the code's move rule; returns its plain value and the move the search reports, 0 on an empty crop and otherwise a take the crop can supply (not always one reaching the value, see Findings); leaves the root node holding that value, with the edges to its explored sons and any cut mark; no node is removed from the graph |
| StoneSearch.Minimax.OptimalPly | minigame.py:42-50 | `ply` with the corrected move rule: the same value and graph, and on a non-empty crop a take whose child has the root's value |
| StoneSearch.Minimax.StoneGameIII | minigame.py:28-40 | stores the stones and returns "Max", "Min" or "Tie" exactly as the plain value of the pile is above, below or equal to 0; leaves the root node holding that value, with the edges to its explored sons and any cut mark |

## Left out

- GUI, plotting and the demo: `StoneGameGUI`, `plot_mini_max_tree`, the tkinter/networkx drawing, and the `__main__` block of minimax.py are not part of this model.
- Randomness: the random pile of `StoneGame.__init__` is a constructor parameter, constrained to the code's ranges (14 to 17 values in 0..10).
- The `print` of a pruned son at minigame.py:133 is output only; it is left out.
- Floating point: `-inf`/`inf` are the `ExtInt` constants. Stone-game values are integers, so `AbMax`/`AbMin` return `int`.
- `GameTree(state)`, `self.state` and `self.game_tree` in `Minimax.play` record nothing the search reads; `play` takes the state as a parameter.
- `__type__` returns a constant name and is not modelled.
- Graph node ids are the strings `str(level) + str(tuple(state)) + str(dif)`. The model keys nodes by the triple `NodeKey(level, state, dif)`; the tuple's parentheses keep the string form unambiguous.
- Python's dynamic defaults: `is_terminal(state=None)` and `print_state(state=None)` use the current board. Only `print_state()` is modelled, as `PrintCurrent`. The `player` arguments of `is_terminal`, `utility`, `ply`, `play` and `minimax_move` are never read and are dropped.
- `minimax.py:67` calls `utility(state)` with one argument where the Tic-Tac-Toe method wants two. The model's utility takes the board only, as its body reads.
- The engine is paired with Tic-Tac-Toe only: the stone game has no `is_terminal`, and its `result` returns a pair.
- The root of `ply`/`stoneGameIII` on an empty pile writes into a node that must already exist (a `KeyError` otherwise). The model makes this precondition explicit.
- StoneGame.Utility: no contract beyond its body, the constant 0.
- TicTacToe.Picture: stated for boards of marks -1, 0, 1 only; `symbols[s]` raises `KeyError` on any other value.

## Findings

| source | as written | input that shows it | evidently intended | confidence | as-written member | corrected member |
|---|---|---|---|---|---|---|
| minigame.py:89-92 | a node reports its child's move when it is not 0, so the root returns the last move of the line it expects, not its own take | `ply([0, -5, 1])` returns (4, 2); the value 4 is reached by taking one stone, while taking two is worth -6 | report the node's own action `a` | high; derived by proof, not executed | StoneSearch.ChildMoveCounterexample | StoneSearch.Minimax.OptimalPly |

The same rule appears at minigame.py:125-128 for MIN. `StoneSearch.Minimax.Ply` keeps the rule as written; `StoneSearch.Minimax.OptimalPly` uses the corrected one, and `StoneSearch.OwnActionOptimal` proves that its move reaches the value.
