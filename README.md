# Tic-Tac-Toe engine and shopping evaluation, in Dafny

This project models two parts of a set of small AI exercises.

**The Tic-Tac-Toe engine** (`tictactoe.dfy`, module `TicTacToe`) has these parts:

- a 3x3 board of cells `Empty | X | O`;
- the player to move, inferred from the mark counts;
- the set of legal actions;
- `result`, which copies the board and writes one mark;
- the line-based `winner`, `terminal` and `utility`;
- the mutually recursive `MaxValue` / `MinValue` search, with its early exit at 1 / -1;
- `minimax`, which picks the action.

A board is an immutable `seq<seq<Cell>>` value, so `result` cannot change its input, and parent and child boards never alias. Where the source loops over rows, cells or actions, the model is a method with a loop:

- `Player`, `Actions`, `Winner` and `Terminal` are proved against the functions `NextPlayer`, `LegalMoves`, `LineWinner` and `IsTerminal`.
- `MaxValue` and `MinValue` are proved against `MaxScore` and `MinScore`. These two spec functions give the minimax value of a board as a maximum (or minimum) over the legal moves.
- The lemmas `MaxScoreIsBest` and `MinScoreIsBest` prove that maximum (minimum) property.

The search methods take actions from the action set in an arbitrary order (`:|`), as Python's set iteration does. So the model proves only that the chosen action is legal and optimal, never which of several equally good actions is chosen.

`winner` is modelled as written. It returns the shared value of the FIRST line whose three cells are equal, even if that value is EMPTY. An all-EMPTY row or column therefore hides a complete X or O line that comes after it. `EmptyRowMasksLaterLine` shows a board on which X owns row 1 but no winner is reported and the game is not over. The board is reachable by play: row 0 is all EMPTY on it and on every board before it, and `TopRowEmptyGoesOn` proves that no such board is over. (`Balanced`, equal mark counts or one more X, is only a necessary condition for reachability.) A textbook winner check would skip all-EMPTY lines; the code does not, and the model follows the code. Under the code's rule, the board `[[X, O, X], [X, O, -], [O, -, -]]` has no winner: column 1 is `O, O, EMPTY`.

The same rule means the winner after a move need not be the player who just moved. A move that breaks up a masking all-EMPTY line can reveal a line of the opponent's. `MoveRevealsOpponentLine` shows this on the balanced board `[[-, -, -], [O, O, O], [X, X, X]]` with X to move. Every move X has fills a cell of row 0, which reveals O's row 1, and the rows-first scan finds it before X's row 2. X completed a line first and still loses: the position is worth -1. So the rule changes the game itself, not only how a finished game is reported.

**The shopping evaluation** (`shopping.dfy`, module `Shopping`) covers:

- the three string-to-int converters used when reading the data;
- `evaluate`, which counts true/false positives/negatives over the labels and forms sensitivity and specificity.

The rates are exact `real`s. The exceptions Python raises (ValueError from `list.index`, ZeroDivisionError in `evaluate`) are `Failure` values of a `Result` type (`wrappers.dfy`).

## Model

| member | source | states |
|---|---|---|
| `TicTacToe.InitialState` | tictactoe/tictactoe.py:13-19 | every cell is EMPTY: nine EMPTY cells, no marks, X to move, not terminal |
| `TicTacToe.CountIn` | tictactoe/tictactoe.py:29-30 | `row.count(c)`: never more than the row's length |
| `TicTacToe.CountInZero` | tictactoe/tictactoe.py:29-30 | `row.count(c)` is zero exactly when `c` does not occur in the row |
| `TicTacToe.NextPlayer` | tictactoe/tictactoe.py:31-33 | the player to move is always X or O, never EMPTY; on a board where X has as many marks as O or one more, X moves exactly when an even number of marks has been placed |
| `TicTacToe.Player` | tictactoe/tictactoe.py:22-33 | returns X exactly when the X and O counts are equal, and O otherwise |
| `TicTacToe.TurnAlternates` | tictactoe/tictactoe.py:22-55 | on a board where X has as many marks as O or one more, a legal move keeps that balance and hands the turn to the other player |
| `TicTacToe.LegalMoves` | tictactoe/tictactoe.py:35-44 | a move is in the set exactly when its cell is EMPTY; coordinates are 0..2 by type |
| `TicTacToe.Actions` | tictactoe/tictactoe.py:35-44 | the row-by-row scan collects exactly `LegalMoves(b)` |
| `TicTacToe.Result` | tictactoe/tictactoe.py:47-55 | ValueError exactly when the target cell is not EMPTY; otherwise the target holds the player to move, the EMPTY count drops by one and that player's count rises by one |
| `TicTacToe.ResultKeepsOtherCells` | tictactoe/tictactoe.py:53-55 | every cell other than the target is unchanged in the new board |
| `TicTacToe.TopRowEmptyGoesOn` | tictactoe/tictactoe.py:58-87 | while row 0 is all EMPTY, no winner is reported and the game is not over, whatever the other rows hold |
| `TicTacToe.Winner` | tictactoe/tictactoe.py:58-75 | checks rows, then columns, then the main and anti-diagonal, and returns `LineWinner(b)` |
| `TicTacToe.LineWinnerIsFirstUniform` | tictactoe/tictactoe.py:58-75 | when line k is the first line whose three cells are equal, the winner is their shared value, EMPTY included |
| `TicTacToe.NoUniformNoWinner` | tictactoe/tictactoe.py:58-75 | when no line has three equal cells, there is no winner |
| `TicTacToe.WinnerOwnsLine` | tictactoe/tictactoe.py:58-75 | a reported winner owns all three cells of some line |
| `TicTacToe.EmptyRowMasksLaterLine` | tictactoe/tictactoe.py:63-65 | an all-EMPTY row 0 hides X's full row 1: no winner, game not over, utility 0, on a balanced board |
| `TicTacToe.IsTerminal` | tictactoe/tictactoe.py:78-87 | a game that is not over always has a legal action |
| `TicTacToe.Terminal` | tictactoe/tictactoe.py:78-87 | true exactly when a winner is reported or no cell is EMPTY |
| `TicTacToe.Utility` | tictactoe/tictactoe.py:90-99 | 1 exactly when the winner is X, -1 exactly when it is O, 0 exactly when there is none; a nonzero utility implies the game is over |
| `TicTacToe.MaxScore` | tictactoe/tictactoe.py:101-114 | the value of a board with the maximiser to move lies in -1..1 |
| `TicTacToe.MinScore` | tictactoe/tictactoe.py:117-130 | the value of a board with the minimiser to move lies in -1..1 |
| `TicTacToe.BestForMax` | tictactoe/tictactoe.py:106-111 | the running maximum starts at -infinity and stays there exactly while no EMPTY cell has been seen; after one, it lies in -1..1 |
| `TicTacToe.BestForMin` | tictactoe/tictactoe.py:122-127 | the running minimum starts at +infinity and stays there exactly while no EMPTY cell has been seen; after one, it lies in -1..1 |
| `TicTacToe.BestForMaxBounds` | tictactoe/tictactoe.py:106-111 | the running maximum is at least the value of every tried legal move |
| `TicTacToe.BestForMaxReached` | tictactoe/tictactoe.py:106-111 | once a legal move has been tried, the running maximum is the value of one of them |
| `TicTacToe.BestForMinBounds` | tictactoe/tictactoe.py:122-127 | the running minimum is at most the value of every tried legal move |
| `TicTacToe.BestForMinReached` | tictactoe/tictactoe.py:122-127 | once a legal move has been tried, the running minimum is the value of one of them |
| `TicTacToe.MaxScoreIsBest` | tictactoe/tictactoe.py:101-114 | on a board that is not over there is a legal move; MaxScore is at least the min-value after every legal move and equals it after some legal move |
| `TicTacToe.MinScoreIsBest` | tictactoe/tictactoe.py:117-130 | on a board that is not over there is a legal move; MinScore is at most the max-value after every legal move and equals it after some legal move |
| `TicTacToe.MaxValue` | tictactoe/tictactoe.py:101-114 | returns MaxScore whether or not it exits early at 1; on a terminal board returns (utility, None); otherwise returns a legal play whose min-value is the returned value |
| `TicTacToe.MinValue` | tictactoe/tictactoe.py:117-130 | returns MinScore whether or not it exits early at -1; on a terminal board returns (utility, None); otherwise returns a legal play whose max-value is the returned value |
| `TicTacToe.Minimax` | tictactoe/tictactoe.py:132-142 | None exactly on a terminal board; otherwise a legal action that reaches the board's value for the player to move, no worse than any other legal action |
| `TicTacToe.ImmediateWinForX` | tictactoe/tictactoe.py:101-114 | with X to move on `[[X, X, -], [O, O, -], [-, -, -]]`, playing (0, 2) wins and the position is worth 1; every other legal move is worth at most 0 (a bottom-row move lets O complete row 1; (1, 2) is met by O's block at (0, 2)) |
| `TicTacToe.MinimaxTakesImmediateWin` | tictactoe/tictactoe.py:132-142 | `minimax` on that board returns (0, 2) |
| `TicTacToe.MoveRevealsOpponentLine` | tictactoe/tictactoe.py:58-75 | on the balanced board `[[-, -, -], [O, O, O], [X, X, X]]`, X to move, game not over: X owns row 2, yet every legal move makes O the reported winner, and the position is worth -1 |
| `Shopping.IndexOf` | shopping/shopping.py:93 | `list.index`: ValueError exactly when the string is absent, else the index of its first occurrence |
| `Shopping.MonthToInt` | shopping/shopping.py:91-93 | succeeds exactly for the twelve listed month names, with a result in 0..11 that names the month; ValueError otherwise |
| `Shopping.JuneIsMonthFive` | shopping/shopping.py:92-93 | "June" maps to 5 |
| `Shopping.JunIsRejected` | shopping/shopping.py:92-93 | "Jun" raises ValueError |
| `Shopping.MonthRoundTrip` | shopping/shopping.py:91-93 | each of the twelve listed names converts back to its own position in the list, so no two names share a number |
| `Shopping.VisitorTypeToInt` | shopping/shopping.py:95-98 | 1 exactly for "Returning_Visitor", 0 for every other string |
| `Shopping.TextToInt` | shopping/shopping.py:100-103 | 1 exactly for "TRUE", 0 for every other string, "True" and "true" included |
| `Shopping.Tally` | shopping/shopping.py:130-144 | the four counters after the loop; each index bumps exactly one of them, so they sum to len(labels) |
| `Shopping.TallyPartitions` | shopping/shopping.py:130-144 | tp + fn is the number of labels equal to 1, and tn + fp the number of the others |
| `Shopping.TallyPrefix` | shopping/shopping.py:134-141 | the counts depend only on the predictions at indices below len(labels) |
| `Shopping.TallyPerfect` | shopping/shopping.py:130-144 | with 0/1 labels predicted exactly, there are no false negatives or false positives |
| `Shopping.Rate` | shopping/shopping.py:145-146 | the ratio of a part to a nonempty whole lies in [0, 1] |
| `Shopping.Evaluate` | shopping/shopping.py:115-147 | ZeroDivisionError exactly when no label is 1 or every label is 1; otherwise sensitivity = tp / positives and specificity = tn / negatives, both in [0, 1] |

## Left out

- The search's value on the empty board is not established. Under the winner rule as written the game differs from textbook tic-tac-toe (see `MoveRevealsOpponentLine`), so the textbook draw cannot be assumed. Computing the value would require the verifier to evaluate the whole game tree.
- Python's unordered set iteration is modelled as an arbitrary choice of the next action. Which of several equally good actions is returned is left open.
- `-math.inf` and `math.inf` are the integers -2 and 2. Every utility lies in -1..1, so all comparisons come out as with the infinities.
- `result` with a coordinate outside 0..2 (an IndexError, or Python's negative indexing) is excluded by the `Coord` type. The engine only passes actions it generated itself.
- `evaluate` requires at least as many predictions as labels. With fewer, Python raises IndexError.
- Rates are exact reals; floating-point rounding of the divisions is not modelled.
- `load_data` and `main` of the shopping program are not modelled: CSV reading, float parsing and printing are I/O.
- `train_model` is not modelled: it is a call into the scikit-learn k-nearest-neighbour classifier, which is not part of this model.
- pagerank/pagerank.py is not part of this model: directory crawling, random sampling and floating-point iteration.
- parser/parser.py is not part of this model: its grammar, chart parser and tokenizer come from the nltk library.
