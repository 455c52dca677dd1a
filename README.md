# Two-player tic-tac-toe over a direct connection: a Dafny model

The original program is a terminal tic-tac-toe. Two processes play it over a
TCP connection. The host listens and plays `O`. The joiner connects and plays
`X`. Both keep their own copy of the board. After each local move, the line the
player typed (`"<row> <col>"`) is sent to the other side, which parses it and
applies it to its own board.

This project models, in Dafny:

- the cell values and the step from one mark to the other (`Marks`);
- the board as a value, which serves as the specification (`Grid`). It covers
  what a placement does, when a board has a winner (8 index triples), how flat
  indices relate to rows and columns, and how many cells are filled;
- the in-place board, `TicTacToe`, a class over an `array<Tic>` of nine cells
  (`Board`). It has `Set`, which writes an empty cell or reports the occupant,
  the `Same3` line test, and the `Digest` winner scan with its two loops;
- the move parser over one line's tokens (`NetInput`);
- one round of the host loop and one round of the joiner loop, with the
  prompt-until-accepted loop, written the way the code is (`Rounds`). The
  terminal and the peer are abstract line sequences. The peer's move is
  applied with `set`, and the result is ignored. The line sent to the peer is
  the first one typed in the round, not the re-prompted one;
- worked games on the class (`Scenarios`).

A line of text is modelled as the sequence of its whitespace-separated tokens,
each already read as a natural number. Panics of the original (a missing
token, an index off the board, or the end of terminal input) end a round with
status `Aborted`. Reading past the end of the local input yields the empty
line, as `read_line` does at end of file. `Set` itself requires its index to be
on the board, which is the original's bounds check.

## Model

| member | source | states |
|---|---|---|
| Marks.Next | src/main.rs:18-24 | the next mark is never `Nil`, always differs from its argument, and is `O` after `Nil` |
| Marks.NextInvolutive | src/main.rs:18-24 | on `O` and `X`, two steps of `next` return the original mark |
| Marks.RolesAreOpponents | src/main.rs:126 | `next` of the host's `O` is the joiner's `X`, and the other way round (the joiner's mark is line 194) |
| Marks.AdvanceAlternates | src/main.rs:18-24 | iterating `next` from `O` gives `O` after an even number of applications and `X` after an odd number (the program applies `next` once per role, so this is a property of the function, not of a turn counter) |
| Grid.Empty | src/main.rs:45-49 | a new board has nine cells, all `Nil` |
| Grid.EmptyHasNoWinner | src/main.rs:45-49 | a new board has no winner |
| Grid.RowMajor | src/main.rs:52 | row `r`, column `c` is a flat index below 9 |
| Grid.RowMajorInverse | src/main.rs:52 | the flat index gives back its row (`/ 3`) and its column (`% 3`), so distinct cells have distinct indices |
| Grid.PutOnEmpty | src/main.rs:55-57 | a placement on an empty cell writes that cell and leaves the other eight unchanged |
| Grid.PutOnOccupied | src/main.rs:53-54 | a placement on an occupied cell changes nothing, and repeating it also changes nothing |
| Grid.PutKeepsMarks | src/main.rs:51-59 | no placement turns a marked cell back into `Nil` or changes its mark |
| Grid.Filled | src/main.rs:41 | the number of filled cells is at most the number of cells |
| Grid.FilledAll | src/main.rs:41 | every cell is filled iff the filled count equals the board size |
| Grid.FilledAfterPut | src/main.rs:51-59 | a successful placement of a mark adds exactly one filled cell |
| Grid.HasWinnerUnrolled | src/main.rs:89-103 | a winner means an owned line among rows 0-2, columns 0-2 and the two diagonals, in the order the scan checks them |
| Grid.HasWinnerIffRowColumnDiagonal | src/main.rs:89-103 | the index-triple table is exactly the rows, columns and diagonals of the row-major grid: a winner exists iff one mark fills a whole row, column or diagonal |
| Grid.WinnerHasThreeMarks | src/main.rs:85-87 | a board with a winner holds at least three `O`s or at least three `X`s |
| Grid.WinnerAfterPut | src/main.rs:85-103 | on a board without a winner, placing `m` on an empty cell creates a winner iff some line through that cell is then all `m` |
| Board.TicTacToe.constructor | src/main.rs:45-49 | the board starts as nine `Nil` cells, with no winner |
| Board.TicTacToe.Set | src/main.rs:51-59 | on an empty cell at index `x + 3*y`, writes `what`, returns `Ok` and, for a mark, adds one filled cell. On an occupied cell, returns `Err(occupant)` and the board is unchanged. A marked cell never changes |
| Board.TicTacToe.Same3 | src/main.rs:85-87 | true iff one player's mark (`O` or `X`) is in all three cells |
| Board.TicTacToe.Digest | src/main.rs:89-103 | the two loops and the diagonal test return exactly whether some line of the board is owned. The method reads the board and does not modify it |
| NetInput.ProcessNetInput | src/main.rs:106-112 | defined iff the line has at least two tokens; the first token becomes `y` (the row), the second `x` (the column) |
| NetInput.Target | src/main.rs:106-112 | a line that is accepted has two tokens and addresses an index below 9 |
| NetInput.TargetOfParsed | src/main.rs:52-53 | the index a line addresses is the one `set` computes from the parsed pair, when that index is on the board |
| NetInput.TargetDefined | src/main.rs:106-112 | a line is accepted iff it has two tokens and `col + 3*row < 9`, and it then addresses `col + 3*row` |
| NetInput.TargetIsRowColumn | src/main.rs:106-112 | a line starting with row `r` and column `c` (both below 3) addresses the cell at row `r`, column `c`, whatever follows |
| NetInput.EncodeRoundTrip | src/main.rs:106-112 | the line typed for a cell is read back as that cell's row and column |
| NetInput.ColumnOverflowsIntoNextRow | src/main.rs:52 | columns are not range-checked: `"1 5"` is accepted and lands on row 2, column 2 |
| Rounds.Accepted | src/main.rs:164-175 | the line the prompt loop accepts comes from the input, at or after the start, and its cell is on the board |
| Rounds.AcceptedIsFirstEmpty | src/main.rs:164-175 | the accepted line names an empty cell, and every line before it names an occupied cell |
| Rounds.FirstEmptyIsAccepted | src/main.rs:164-175 | conversely, the first line that names an empty cell, after lines that name occupied cells, is the one accepted |
| Rounds.PromptUntilPlaced | src/main.rs:164-175 | the loop returns the accepted line and cell. The board then holds the mark on that cell, and no other cell changes. With no accepted line, the board is unchanged |
| Rounds.HostRound | src/main.rs:140-188 | applies the peer's move as `X`, whether or not `set` refuses it. Stops with the opponent's win, or else places `O` via the prompt loop. Sends the first line typed, and reports the local win or no result. A panic is a round with status `Aborted` |
| Rounds.JoinRound | src/main.rs:200-245 | places `X` via the prompt loop and sends the first line typed. Stops on the local win, or else applies the peer's move as `O`, whether or not `set` refuses it, and reports the opponent's win or no result |
| Rounds.SentLineSyncsIffFirstTry | src/main.rs:161-181 | the peer's board matches the sender's after the move iff the first line typed was the one accepted. A re-prompted move is lost on the peer |
| Rounds.AcceptedLine | src/main.rs:171-174 | a line to send exists iff the prompt loop accepts one |
| Rounds.AcceptedLineSyncs | src/main.rs:171-174 | sending the accepted line keeps both boards equal: the peer's `set` on it hits the same empty cell |
| Scenarios.Play | src/main.rs:164-165 | a typed row and column, parsed and handed to `set`, place the mark at that row and column |
| Scenarios.DiagonalWin | src/main.rs:89-103 | `O` on (0,0), (1,1) and (2,2), with `X` moves elsewhere, gives a winner |
| Scenarios.OccupiedCell | src/main.rs:53-54 | a second and a third `set` on a taken cell both return `Err(O)`, and the board keeps one `O` |
| Scenarios.FullBoardNoWinner | src/main.rs:89-103 | the board filled row by row as OXO/OXX/XOO is full and `Digest` reports no winner on it |
| Scenarios.RepromptedMoveLost | src/main.rs:161-181 | the host re-prompted from "0 0" to "1 1" sends "0 0", and the two boards then differ |

## Left out

- Network I/O: bind, listen, accept, connect, stream reads, writes and flushes, and `BufReader`. The peer's line is a parameter of a round, and the line sent is part of the round's result.
- Terminal input: the lines typed are a sequence given to a round. I/O errors that `?` propagates are not modelled.
- Presentation: `show`, `clean_term`, the `Display` impl of `Tic` and the colour and style output.
- Command-line dispatch between `serve` and `join`, and the endpoint address.
- Decimal conversion of tokens (`str::parse`), and the splitting of a line on whitespace. A line is its token sequence of naturals. A token that fails to parse is not modelled; only a line with fewer than two tokens is.
- Integer width: `x + y * 3` is computed on unbounded naturals. The wrap-around or overflow panic of `usize` arithmetic for huge tokens is not modelled.
- The outer `loop` of each role: one round is modelled, not a whole game.
- Draw detection: the original has none, and none is added.

## Findings

| source | as written | input that shows it | evidently intended | confidence | as-written member | corrected member |
|---|---|---|---|---|---|---|
| src/main.rs:161-181 (and 204-220 for the joiner) | the retry loop reads each new attempt into an inner `input` that shadows the outer one. The line written to the peer is therefore the first line typed, even when `set` refused it and the player typed another | joiner plays "0 0"; host types "0 0" (taken), then "1 1"; host sends "0 0", which the joiner's `set` silently refuses; the host's board has `O` at (1,1) and the joiner's does not | send the line that was accepted, so both boards stay equal | high; not executed | Rounds.SentLineSyncsIffFirstTry (with Rounds.HostRound, Rounds.JoinRound and Scenarios.RepromptedMoveLost) | Rounds.AcceptedLineSyncs (on Rounds.AcceptedLine) |

The round methods keep the behaviour as written, because they model the code.
The corrected line choice is `Rounds.AcceptedLine`, and `Rounds.AcceptedLineSyncs`
proves that it keeps both boards equal.
