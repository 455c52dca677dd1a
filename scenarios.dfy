/** Worked games on the in-place board, driven through the same parse and
    `set` calls as the turn loop. */
module Scenarios {
  import opened Wrappers
  import opened Marks
  import opened Grid
  import opened Board
  import opened NetInput
  import opened Rounds

  /** Place `mark` at row `r`, column `c` as the turn loop does: the typed
      line is parsed and handed to `set`. */
  method Play(board: TicTacToe, r: nat, c: nat, mark: Tic) returns (res: SetResult)
    requires board.Valid() && r < 3 && c < 3
    modifies board.grid
    ensures board.grid[..] == Put(old(board.grid[..]), RowMajor(r, c), mark)
    ensures res == if old(board.grid[RowMajor(r, c)]) == Nil then Ok else Err(old(board.grid[RowMajor(r, c)]))
  {
    var move := ProcessNetInput(Encode(r, c)).value;
    res := board.Set(move.0, move.1, mark);
  }

  /** Play the three cells of row `r`, left to right, on an empty row. */
  method PlayRow(board: TicTacToe, r: nat, m0: Tic, m1: Tic, m2: Tic)
    requires board.Valid() && r < 3
    requires board.grid[3 * r] == Nil && board.grid[3 * r + 1] == Nil && board.grid[3 * r + 2] == Nil
    modifies board.grid
    ensures board.grid[..] == old(board.grid[..])[3 * r := m0][3 * r + 1 := m1][3 * r + 2 := m2]
  {
    var _ := Play(board, r, 0, m0);
    var _ := Play(board, r, 1, m1);
    var _ := Play(board, r, 2, m2);
  }

  lemma DiagonalBoardWins()
    ensures HasWinner([O, X, X, Nil, O, Nil, Nil, Nil, O])
  {
    HasWinnerUnrolled([O, X, X, Nil, O, Nil, Nil, Nil, O]);
  }

  /** `O` on the three cells of the main diagonal wins. */
  method DiagonalWin() returns (win: bool)
    ensures win
  {
    var board := new TicTacToe();
    var _ := Play(board, 0, 0, O);
    var _ := Play(board, 0, 1, X);
    var _ := Play(board, 1, 1, O);
    var _ := Play(board, 0, 2, X);
    assert board.grid[..] == [O, X, X, Nil, O, Nil, Nil, Nil, Nil];
    var _ := Play(board, 2, 2, O);
    assert board.grid[..] == [O, X, X, Nil, O, Nil, Nil, Nil, O];
    DiagonalBoardWins();
    win := board.Digest();
  }

  /** A second mark on an occupied cell is refused with the occupant, as
      often as it is tried, and the board does not change. */
  method OccupiedCell() returns (first: SetResult, second: SetResult, third: SetResult, cells: seq<Tic>)
    ensures first == Ok && second == Err(O) && third == Err(O)
    ensures cells == Empty()[0 := O]
  {
    var board := new TicTacToe();
    first := Play(board, 0, 0, O);
    second := Play(board, 0, 0, X);
    third := Play(board, 0, 0, X);
    cells := board.grid[..];
  }

  lemma DrawBoardHasNoWinner()
    ensures !HasWinner([O, X, O, O, X, X, X, O, O])
  {
    HasWinnerUnrolled([O, X, O, O, X, X, X, O, O]);
  }

  /** The full board OXO/OXX/XOO, which has no three in a line, has no
      winner. */
  method FullBoardNoWinner() returns (cells: seq<Tic>, win: bool)
    ensures cells == [O, X, O, O, X, X, X, O, O]
    ensures |cells| == Size && (forall i :: 0 <= i < |cells| ==> cells[i] != Nil) && !win
  {
    var board := new TicTacToe();
    PlayRow(board, 0, O, X, O);
    PlayRow(board, 1, O, X, X);
    PlayRow(board, 2, X, O, O);
    cells := board.grid[..];
    assert cells == [O, X, O, O, X, X, X, O, O];
    DrawBoardHasNoWinner();
    win := board.Digest();
  }

  // The boards and lines of the re-prompt game below, one fact at a time.

  lemma JoinerFirstLineAccepted()
    ensures Accepted(Empty(), [[0, 0]], 0) == Some((0, 0))
  {
  }

  lemma JoinerMoveHasNoWinner()
    ensures Put(Empty(), 0, JoinMark) == [X, Nil, Nil, Nil, Nil, Nil, Nil, Nil, Nil]
    ensures !HasWinner([X, Nil, Nil, Nil, Nil, Nil, Nil, Nil, Nil])
  {
    HasWinnerUnrolled([X, Nil, Nil, Nil, Nil, Nil, Nil, Nil, Nil]);
  }

  lemma HostSecondLineAccepted()
    ensures Target([0, 0]) == Some(0)
    ensures Accepted([X, Nil, Nil, Nil, Nil, Nil, Nil, Nil, Nil], [[0, 0], [1, 1]], 0) == Some((1, 4))
  {
  }

  /** The joiner plays "0 0". The host types "0 0" too, is re-prompted and
      plays "1 1", but sends "0 0"; the joiner's `set` refuses it silently, and
      the two boards differ after the round. */
  method RepromptedMoveLost() returns (hostSent: Option<seq<nat>>, same: bool)
    ensures hostSent == Some([0, 0]) && !same
  {
    var host := new TicTacToe();
    var joiner := new TicTacToe();
    JoinerFirstLineAccepted();
    JoinerMoveHasNoWinner();
    HostSecondLineAccepted();
    var joinOut := JoinRound(joiner, [[0, 0]], [0, 0]);
    var hostOut := HostRound(host, [0, 0], [[0, 0], [1, 1]]);
    hostSent := hostOut.sent;
    assert host.grid[4] == O && joiner.grid[4] == Nil;
    same := host.grid[..] == joiner.grid[..];
  }
}
