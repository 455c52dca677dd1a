/** An optional value, for operations that panic on some inputs. */
module Wrappers {
  datatype Option<T> = None | Some(value: T)
}

/** Reading a move from one line of text. A line is modelled as the sequence
    of its whitespace-separated tokens, each already read as a natural number. */
module NetInput {
  import opened Wrappers
  import opened Grid

  /** The `(x, y)` pair that `set` takes, from a line `"<row> <col>"`: the
      first token is `y`, the second `x`, and further tokens are ignored.
      `None` when the line has fewer than two tokens, where the source
      panics. */
  function ProcessNetInput(words: seq<nat>): (r: Option<(nat, nat)>)
    ensures r.Some? <==> |words| >= 2
    ensures r.Some? ==> r.value.1 == words[0] && r.value.0 == words[1]
  {
    if |words| < 2 then None else Some((words[1], words[0]))
  }

  /** The flat board index a line addresses once parsed and handed to `set`;
      `None` when reading or indexing would panic. */
  function Target(words: seq<nat>): (r: Option<nat>)
    ensures r.Some? ==> |words| >= 2 && r.value < Size
  {
    if |words| < 2 then None
    else if Pos(words[1], words[0]) < Size then Some(Pos(words[1], words[0]))
    else None
  }

  /** `Target` is the index `set` computes from the pair `ProcessNetInput`
      returns, when that index is on the board. */
  lemma TargetOfParsed(words: seq<nat>)
    ensures ProcessNetInput(words).None? ==> Target(words).None?
    ensures ProcessNetInput(words).Some? ==>
      var (x, y) := ProcessNetInput(words).value;
      Target(words) == if Pos(x, y) < Size then Some(Pos(x, y)) else None
  {
  }

  /** The line a player types for row `r`, column `c`. */
  function Encode(r: nat, c: nat): seq<nat>
  {
    [r, c]
  }

  /** Row then column: a line whose first two tokens are a row `r` and a column
      `c` of the grid addresses the cell at row `r`, column `c` of the
      row-major board, whatever follows them. */
  lemma TargetIsRowColumn(words: seq<nat>)
    requires |words| >= 2 && words[0] < 3 && words[1] < 3
    ensures Target(words) == Some(RowMajor(words[0], words[1]))
  {
  }

  /** Every cell is reachable, and encoding a cell and reading it back
      recovers its row and column. */
  lemma EncodeRoundTrip(r: nat, c: nat)
    requires r < 3 && c < 3
    ensures ProcessNetInput(Encode(r, c)) == Some((c, r))
    ensures Target(Encode(r, c)).Some?
    ensures Target(Encode(r, c)).value / 3 == r && Target(Encode(r, c)).value % 3 == c
  {
    TargetIsRowColumn(Encode(r, c));
    RowMajorInverse(r, c);
  }

  /** A line is accepted iff it has two tokens whose index stays on the board;
      the index is then column plus three times row. */
  lemma TargetDefined(words: seq<nat>)
    ensures Target(words).Some? <==> |words| >= 2 && words[1] + 3 * words[0] < Size
    ensures Target(words).Some? ==> Target(words).value == words[1] + 3 * words[0]
  {
  }

  /** Columns are not range-checked: "1 5" is accepted and lands on row 2,
      column 2, as the index arithmetic dictates. */
  lemma ColumnOverflowsIntoNextRow()
    ensures Target([1, 5]) == Some(RowMajor(2, 2))
  {
  }
}
