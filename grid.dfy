/** The board as a value: nine cells stored row-major in a flat sequence.
    This module holds the specification the in-place board of module Board is
    proved against: what a placement does, when a board has a winner, and how
    the flat indices relate to rows and columns. */
module Grid {
  import opened Marks

  /** The board has nine cells. */
  const Size: nat := 9

  /** `Tic::Nil` in every cell: the board of a new game. */
  function Empty(): (g: seq<Tic>)
    ensures |g| == Size
    ensures forall i :: 0 <= i < |g| ==> g[i] == Nil
  {
    [Nil, Nil, Nil, Nil, Nil, Nil, Nil, Nil, Nil]
  }

  /** The flat index that the board's `set(x, y, _)` addresses. */
  function Pos(x: nat, y: nat): int
  {
    x + y * 3
  }

  /** The flat index of row `r`, column `c` in a row-major 3x3 grid. */
  function RowMajor(r: nat, c: nat): (p: nat)
    requires r < 3 && c < 3
    ensures p < Size
  {
    3 * r + c
  }

  /** The row and the column are recovered from the flat index, so distinct
      (row, column) pairs address distinct cells. */
  lemma RowMajorInverse(r: nat, c: nat)
    requires r < 3 && c < 3
    ensures RowMajor(r, c) / 3 == r && RowMajor(r, c) % 3 == c
    ensures forall r2: nat, c2: nat :: r2 < 3 && c2 < 3 && RowMajor(r2, c2) == RowMajor(r, c) ==> r2 == r && c2 == c
  {
  }

  /** The effect of a placement on the board: an empty cell takes `what`, an
      occupied cell is left as it is. */
  function Put(g: seq<Tic>, pos: nat, what: Tic): seq<Tic>
    requires pos < |g|
  {
    if g[pos] == Nil then g[pos := what] else g
  }

  /** A placement on an empty cell writes that cell and no other. */
  lemma PutOnEmpty(g: seq<Tic>, pos: nat, what: Tic)
    requires pos < |g| && g[pos] == Nil
    ensures |Put(g, pos, what)| == |g|
    ensures Put(g, pos, what)[pos] == what
    ensures forall i :: 0 <= i < |g| && i != pos ==> Put(g, pos, what)[i] == g[i]
  {
  }

  /** A placement on an occupied cell changes nothing, so repeating it changes
      nothing either. */
  lemma PutOnOccupied(g: seq<Tic>, pos: nat, what: Tic, again: Tic)
    requires pos < |g| && g[pos] != Nil
    ensures Put(g, pos, what) == g
    ensures Put(Put(g, pos, what), pos, again) == g
  {
  }

  /** A placement never empties a cell. */
  lemma PutKeepsMarks(g: seq<Tic>, pos: nat, what: Tic)
    requires pos < |g|
    ensures forall i :: 0 <= i < |g| && g[i] != Nil ==> Put(g, pos, what)[i] == g[i]
  {
  }

  /** The number of non-empty cells. */
  function Filled(g: seq<Tic>): (n: nat)
    ensures n <= |g|
  {
    if g == [] then 0 else (if g[0] != Nil then 1 else 0) + Filled(g[1..])
  }

  /** Every cell is filled iff the count of filled cells is the board size. */
  lemma {:induction false} FilledAll(g: seq<Tic>)
    ensures Filled(g) == |g| <==> forall i :: 0 <= i < |g| ==> g[i] != Nil
  {
    if g != [] {
      FilledAll(g[1..]);
      if Filled(g) == |g| {
        forall i | 0 <= i < |g| ensures g[i] != Nil {
          if i > 0 {
            assert g[i] == g[1..][i - 1];
          }
        }
      }
      if forall i :: 0 <= i < |g| ==> g[i] != Nil {
        assert forall i :: 0 <= i < |g| - 1 ==> g[1..][i] == g[i + 1];
      }
    }
  }

  /** The number of cells holding `m`. */
  function CountOf(g: seq<Tic>, m: Tic): (n: nat)
    ensures n <= |g|
  {
    if g == [] then 0 else (if g[0] == m then 1 else 0) + CountOf(g[1..], m)
  }

  /** Monotonic fill: placing a mark on an empty cell adds exactly one filled
      cell. */
  lemma {:induction false} FilledAfterPut(g: seq<Tic>, pos: nat, what: Tic)
    requires pos < |g| && g[pos] == Nil && what != Nil
    ensures Filled(Put(g, pos, what)) == Filled(g) + 1
  {
    var h := g[pos := what];
    assert h[0] == (if pos == 0 then what else g[0]);
    if pos == 0 {
      assert h[1..] == g[1..];
    } else {
      assert g[pos := what][1..] == g[1..][pos - 1 := what];
      FilledAfterPut(g[1..], pos - 1, what);
    }
  }

  /** The 8 lines that decide a game, as index triples: the three rows, the
      three columns and the two diagonals. */
  const Lines: seq<(nat, nat, nat)> :=
    [(0, 1, 2), (3, 4, 5), (6, 7, 8),
     (0, 3, 6), (1, 4, 7), (2, 5, 8),
     (0, 4, 8), (2, 4, 6)]

  /** Cells `a`, `b` and `c` all hold `m`. */
  predicate Holds(g: seq<Tic>, a: nat, b: nat, c: nat, m: Tic)
    requires a < |g| && b < |g| && c < |g|
  {
    g[a] == m && g[b] == m && g[c] == m
  }

  /** One of the players owns all three cells `a`, `b` and `c`. */
  predicate Owned(g: seq<Tic>, a: nat, b: nat, c: nat)
    requires a < |g| && b < |g| && c < |g|
  {
    Holds(g, a, b, c, O) || Holds(g, a, b, c, X)
  }

  /** Some line of the board is owned by one player. */
  predicate HasWinner(g: seq<Tic>)
    requires |g| == Size
  {
    exists i :: 0 <= i < |Lines| && Owned(g, Lines[i].0, Lines[i].1, Lines[i].2)
  }

  /** The line table written out: a winner is an owned row, column or
      diagonal, in the order the board checks them. */
  lemma HasWinnerUnrolled(g: seq<Tic>)
    requires |g| == Size
    ensures HasWinner(g) <==>
      Owned(g, 0, 1, 2) || Owned(g, 3, 4, 5) || Owned(g, 6, 7, 8) ||
      Owned(g, 0, 3, 6) || Owned(g, 1, 4, 7) || Owned(g, 2, 5, 8) ||
      Owned(g, 0, 4, 8) || Owned(g, 2, 4, 6)
  {
    assert Lines[0] == (0, 1, 2) && Lines[1] == (3, 4, 5) && Lines[2] == (6, 7, 8);
    assert Lines[3] == (0, 3, 6) && Lines[4] == (1, 4, 7) && Lines[5] == (2, 5, 8);
    assert Lines[6] == (0, 4, 8) && Lines[7] == (2, 4, 6);
    if HasWinner(g) {
      var i :| 0 <= i < |Lines| && Owned(g, Lines[i].0, Lines[i].1, Lines[i].2);
      assert i in {0, 1, 2, 3, 4, 5, 6, 7};
    }
  }

  /** A fresh board has no winner. */
  lemma EmptyHasNoWinner()
    ensures !HasWinner(Empty())
  {
  }

  // Row and column view of the board, independent of the line table.

  function Cell(g: seq<Tic>, r: nat, c: nat): Tic
    requires |g| == Size && r < 3 && c < 3
  {
    g[RowMajor(r, c)]
  }

  predicate RowOf(g: seq<Tic>, r: nat, m: Tic)
    requires |g| == Size && r < 3
  {
    forall c :: 0 <= c < 3 ==> Cell(g, r, c) == m
  }

  predicate ColumnOf(g: seq<Tic>, c: nat, m: Tic)
    requires |g| == Size && c < 3
  {
    forall r :: 0 <= r < 3 ==> Cell(g, r, c) == m
  }

  predicate DiagonalOf(g: seq<Tic>, m: Tic)
    requires |g| == Size
  {
    Cell(g, 0, 0) == m && Cell(g, 1, 1) == m && Cell(g, 2, 2) == m
  }

  predicate AntiDiagonalOf(g: seq<Tic>, m: Tic)
    requires |g| == Size
  {
    Cell(g, 0, 2) == m && Cell(g, 1, 1) == m && Cell(g, 2, 0) == m
  }

  /** Mark `m` fills a whole row, a whole column or a whole diagonal. */
  predicate Wins(g: seq<Tic>, m: Tic)
    requires |g| == Size
  {
    (exists r :: 0 <= r < 3 && RowOf(g, r, m)) ||
    (exists c :: 0 <= c < 3 && ColumnOf(g, c, m)) ||
    DiagonalOf(g, m) || AntiDiagonalOf(g, m)
  }

  lemma RowsAreLines(g: seq<Tic>, r: nat, m: Tic)
    requires |g| == Size && r < 3
    ensures RowOf(g, r, m) <==> Holds(g, Lines[r].0, Lines[r].1, Lines[r].2, m)
  {
    assert Lines[r] == (3 * r, 3 * r + 1, 3 * r + 2);
    assert Cell(g, r, 0) == g[3 * r] && Cell(g, r, 1) == g[3 * r + 1] && Cell(g, r, 2) == g[3 * r + 2];
  }

  lemma ColumnsAreLines(g: seq<Tic>, c: nat, m: Tic)
    requires |g| == Size && c < 3
    ensures ColumnOf(g, c, m) <==> Holds(g, Lines[3 + c].0, Lines[3 + c].1, Lines[3 + c].2, m)
  {
    if c == 0 {
      assert Lines[3] == (0, 3, 6);
    } else if c == 1 {
      assert Lines[4] == (1, 4, 7);
    } else {
      assert Lines[5] == (2, 5, 8);
    }
    assert Cell(g, 0, c) == g[c] && Cell(g, 1, c) == g[c + 3] && Cell(g, 2, c) == g[c + 6];
  }

  lemma DiagonalsAreLines(g: seq<Tic>, m: Tic)
    requires |g| == Size
    ensures DiagonalOf(g, m) <==> Holds(g, 0, 4, 8, m)
    ensures AntiDiagonalOf(g, m) <==> Holds(g, 2, 4, 6, m)
  {
    assert Cell(g, 0, 0) == g[0] && Cell(g, 1, 1) == g[4] && Cell(g, 2, 2) == g[8];
    assert Cell(g, 0, 2) == g[2] && Cell(g, 2, 0) == g[6];
  }

  /** The line table is exactly the rows, columns and diagonals of the
      row-major grid: the board has a winner iff one player's mark fills a
      row, a column or a diagonal. */
  lemma HasWinnerIffRowColumnDiagonal(g: seq<Tic>)
    requires |g| == Size
    ensures HasWinner(g) <==> Wins(g, O) || Wins(g, X)
  {
    DiagonalsAreLines(g, O);
    DiagonalsAreLines(g, X);
    if HasWinner(g) {
      var i :| 0 <= i < |Lines| && Owned(g, Lines[i].0, Lines[i].1, Lines[i].2);
      if i < 3 {
        RowsAreLines(g, i, O);
        RowsAreLines(g, i, X);
      } else if i < 6 {
        ColumnsAreLines(g, i - 3, O);
        ColumnsAreLines(g, i - 3, X);
      } else {
        assert Lines[i] == (0, 4, 8) || Lines[i] == (2, 4, 6);
      }
    }
    if Wins(g, O) || Wins(g, X) {
      if r :| 0 <= r < 3 && (RowOf(g, r, O) || RowOf(g, r, X)) {
        RowsAreLines(g, r, O);
        RowsAreLines(g, r, X);
        assert Owned(g, Lines[r].0, Lines[r].1, Lines[r].2);
      } else if c :| 0 <= c < 3 && (ColumnOf(g, c, O) || ColumnOf(g, c, X)) {
        ColumnsAreLines(g, c, O);
        ColumnsAreLines(g, c, X);
        assert Owned(g, Lines[3 + c].0, Lines[3 + c].1, Lines[3 + c].2);
      } else if DiagonalOf(g, O) || DiagonalOf(g, X) {
        assert Owned(g, Lines[6].0, Lines[6].1, Lines[6].2);
      } else {
        assert Owned(g, Lines[7].0, Lines[7].1, Lines[7].2);
      }
    }
  }

  /** Three distinct cells holding `m` put at least three `m`s on the board. */
  lemma {:induction false} CountOfThree(g: seq<Tic>, a: nat, b: nat, c: nat, m: Tic)
    requires a < b < c < |g|
    requires Holds(g, a, b, c, m)
    ensures CountOf(g, m) >= 3
    decreases |g|
  {
    if a > 0 {
      CountOfThree(g[1..], a - 1, b - 1, c - 1, m);
    } else {
      CountOfTwo(g[1..], b - 1, c - 1, m);
    }
  }

  lemma {:induction false} CountOfTwo(g: seq<Tic>, b: nat, c: nat, m: Tic)
    requires b < c < |g| && g[b] == m && g[c] == m
    ensures CountOf(g, m) >= 2
    decreases |g|
  {
    if b > 0 {
      CountOfTwo(g[1..], b - 1, c - 1, m);
    } else {
      CountOfOne(g[1..], c - 1, m);
    }
  }

  lemma {:induction false} CountOfOne(g: seq<Tic>, c: nat, m: Tic)
    requires c < |g| && g[c] == m
    ensures CountOf(g, m) >= 1
    decreases |g|
  {
    if c > 0 {
      CountOfOne(g[1..], c - 1, m);
    }
  }

  /** A winner needs three marks: a board on which neither player has placed
      three marks has no winner. */
  lemma WinnerHasThreeMarks(g: seq<Tic>)
    requires |g| == Size && HasWinner(g)
    ensures CountOf(g, O) >= 3 || CountOf(g, X) >= 3
  {
    var i :| 0 <= i < |Lines| && Owned(g, Lines[i].0, Lines[i].1, Lines[i].2);
    var l := Lines[i];
    assert l.0 < l.1 < l.2 < Size;
    if Holds(g, l.0, l.1, l.2, O) {
      CountOfThree(g, l.0, l.1, l.2, O);
    } else {
      CountOfThree(g, l.0, l.1, l.2, X);
    }
  }

  /** Line `l` passes through cell `pos`. */
  predicate Through(l: (nat, nat, nat), pos: nat)
  {
    l.0 == pos || l.1 == pos || l.2 == pos
  }

  /** On a board without a winner, placing `m` on an empty cell produces a
      winner iff it completes a line through that cell with two earlier `m`s. */
  lemma WinnerAfterPut(g: seq<Tic>, pos: nat, m: Tic)
    requires |g| == Size && pos < Size && g[pos] == Nil && m != Nil
    requires !HasWinner(g)
    ensures HasWinner(Put(g, pos, m)) <==>
      exists i :: 0 <= i < |Lines| && Through(Lines[i], pos) &&
        Holds(Put(g, pos, m), Lines[i].0, Lines[i].1, Lines[i].2, m)
  {
    var h := Put(g, pos, m);
    forall i | 0 <= i < |Lines| && Owned(h, Lines[i].0, Lines[i].1, Lines[i].2)
      ensures Through(Lines[i], pos) && Holds(h, Lines[i].0, Lines[i].1, Lines[i].2, m)
    {
      var l := Lines[i];
      assert l.0 < Size && l.1 < Size && l.2 < Size;
      assert !Owned(g, l.0, l.1, l.2);
      if !Through(l, pos) {
        assert false;
      }
      assert h[pos] == m;
    }
    if exists i :: 0 <= i < |Lines| && Through(Lines[i], pos) &&
        Holds(h, Lines[i].0, Lines[i].1, Lines[i].2, m) {
      var i :| 0 <= i < |Lines| && Through(Lines[i], pos) &&
        Holds(h, Lines[i].0, Lines[i].1, Lines[i].2, m);
      assert Owned(h, Lines[i].0, Lines[i].1, Lines[i].2);
    }
  }
}
