/** The board of one game, updated in place: a flat array of nine cells that
    only `Set` writes. */
module Board {
  import opened Marks
  import opened Grid

  /** The outcome of `Set`: `Ok` when the mark was placed, `Err` with the
      mark already in the cell otherwise. */
  datatype SetResult = Ok | Err(occupant: Tic)

  class TicTacToe {
    const grid: array<Tic>

    ghost predicate Valid()
    {
      grid.Length == Size
    }

    /** A new game: nine empty cells and no winner. */
    constructor ()
      ensures Valid() && fresh(grid)
      ensures grid[..] == Empty()
      ensures !HasWinner(grid[..])
    {
      grid := new Tic[9] [Nil, Nil, Nil, Nil, Nil, Nil, Nil, Nil, Nil];
      new;
      EmptyHasNoWinner();
    }

    /** Place `what` in column `x`, row `y`, if that cell is empty; otherwise
        report who holds it and change nothing. The cell must exist: the
        index `x + 3*y` is out of bounds otherwise. */
    method Set(x: nat, y: nat, what: Tic) returns (r: SetResult)
      requires Valid() && Pos(x, y) < Size
      modifies grid
      ensures Valid()
      ensures grid[..] == Put(old(grid[..]), Pos(x, y), what)
      ensures r == if old(grid[Pos(x, y)]) == Nil then Ok else Err(old(grid[Pos(x, y)]))
      ensures r.Ok? && what != Nil ==> Filled(grid[..]) == Filled(old(grid[..])) + 1
      ensures forall i :: 0 <= i < Size && old(grid[i]) != Nil ==> grid[i] == old(grid[i])
    {
      var pos := x + y * 3;
      if grid[pos] != Nil {
        r := Err(grid[pos]);
      } else {
        grid[pos] := what;
        r := Ok;
        if what != Nil {
          FilledAfterPut(old(grid[..]), pos, what);
        }
      }
    }

    /** Cells `a`, `b` and `c` hold the same mark and it is not `Nil`. */
    function Same3(a: nat, b: nat, c: nat): (r: bool)
      requires Valid() && a < Size && b < Size && c < Size
      reads grid
      ensures r <==> Owned(grid[..], a, b, c)
    {
      grid[a] == grid[b] && grid[c] == grid[b] && grid[a] != Nil
    }

    /** Whether one of the 8 lines is owned by a player: the three rows, then
        the three columns, then the two diagonals. */
    method Digest() returns (win: bool)
      requires Valid()
      ensures win == HasWinner(grid[..])
    {
      ghost var g := grid[..];
      win := false;
      for a := 0 to 3
        invariant win == exists i :: 0 <= i < a && Owned(g, Lines[i].0, Lines[i].1, Lines[i].2)
      {
        var b := a * 3;
        assert Lines[a] == (b, b + 1, b + 2);
        win := win || Same3(b, b + 1, b + 2);
      }
      for a := 0 to 3
        invariant win == exists i :: 0 <= i < 3 + a && Owned(g, Lines[i].0, Lines[i].1, Lines[i].2)
      {
        assert Lines[3 + a] == (a, a + 3, a + 6);
        win := win || Same3(a, a + 3, a + 6);
      }
      assert Lines[6] == (0, 4, 8) && Lines[7] == (2, 4, 6);
      win := win || Same3(0, 4, 8) || Same3(2, 4, 6);
    }
  }
}
