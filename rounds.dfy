/** One round of the turn loop, for each role, over abstract inputs: the
    lines the local player types and the line the peer sends. Moves travel
    as the raw line typed; each side parses it with `ProcessNetInput`. */
module Rounds {
  import opened Wrappers
  import opened Marks
  import opened Grid
  import opened Board
  import opened NetInput

  /** How a round ends. `Aborted` is a panic of the source: a line with fewer
      than two tokens, or one whose index falls off the board. */
  datatype Status = OpponentWon | LocalWon | Undecided | Aborted

  /** What a round sent to the peer (if anything) and how it ended. */
  datatype Outcome = Outcome(sent: Option<seq<nat>>, status: Status)

  /** Line `i` of the local input; past its end the terminal yields the empty
      line. */
  function ReadLine(lines: seq<seq<nat>>, i: nat): seq<nat>
  {
    if i < |lines| then lines[i] else []
  }

  /** The prompt loop on board `g`, from line `i` on: the index of the first
      line that names an empty cell, with that cell; `None` when a line that
      cannot be read as a cell of the board comes first. */
  function Accepted(g: seq<Tic>, lines: seq<seq<nat>>, i: nat): (r: Option<(nat, nat)>)
    requires |g| == Size
    ensures r.Some? ==> i <= r.value.0 < |lines| && r.value.1 < Size
    decreases |lines| - i
  {
    match Target(ReadLine(lines, i))
    case None => None
    case Some(p) => if g[p] == Nil then Some((i, p)) else Accepted(g, lines, i + 1)
  }

  /** The accepted line is the first one that names an empty cell: every line
      before it names an occupied cell, and it names the empty cell reported. */
  lemma {:induction false} AcceptedIsFirstEmpty(g: seq<Tic>, lines: seq<seq<nat>>, i: nat, k: nat, p: nat)
    requires |g| == Size
    requires Accepted(g, lines, i) == Some((k, p))
    ensures i <= k < |lines| && Target(lines[k]) == Some(p) && g[p] == Nil
    ensures forall j :: i <= j < k ==> Target(lines[j]).Some? && g[Target(lines[j]).value] != Nil
    decreases |lines| - i
  {
    if Target(ReadLine(lines, i)) != Some(p) || g[p] != Nil {
      AcceptedIsFirstEmpty(g, lines, i + 1, k, p);
    }
  }

  /** Conversely, a line naming an empty cell after lines naming occupied
      cells is the one accepted. */
  lemma {:induction false} FirstEmptyIsAccepted(g: seq<Tic>, lines: seq<seq<nat>>, i: nat, k: nat)
    requires |g| == Size && i <= k < |lines|
    requires Target(lines[k]).Some? && g[Target(lines[k]).value] == Nil
    requires forall j :: i <= j < k ==> Target(lines[j]).Some? && g[Target(lines[j]).value] != Nil
    ensures Accepted(g, lines, i) == Some((k, Target(lines[k]).value))
    decreases k - i
  {
    if i < k {
      FirstEmptyIsAccepted(g, lines, i + 1, k);
    }
  }

  /** Read lines and call `set` with `mark` until one succeeds. Failed calls
      leave the board as it is, so only the accepted line changes it. */
  method PromptUntilPlaced(board: TicTacToe, lines: seq<seq<nat>>, mark: Tic) returns (k: Option<(nat, nat)>)
    requires board.Valid()
    modifies board.grid
    ensures k == Accepted(old(board.grid[..]), lines, 0)
    ensures board.grid[..] == if k.Some? then Put(old(board.grid[..]), k.value.1, mark) else old(board.grid[..])
  {
    ghost var g := board.grid[..];
    var i := 0;
    var t := Target(ReadLine(lines, i));
    if t.None? {
      return None;
    }
    var (x, y) := ProcessNetInput(ReadLine(lines, i)).value;
    var r := board.Set(x, y, mark);
    while r.Err?
      invariant i < |lines| && t == Target(ReadLine(lines, i)) && t.Some? && Pos(x, y) == t.value
      invariant Accepted(g, lines, 0) == Accepted(g, lines, i)
      invariant r.Err? ==> board.grid[..] == g && g[t.value] != Nil
      invariant r.Ok? ==> g[t.value] == Nil && board.grid[..] == Put(g, t.value, mark)
      decreases |lines| - i
    {
      i := i + 1;
      t := Target(ReadLine(lines, i));
      if t.None? {
        return None;
      }
      var move := ProcessNetInput(ReadLine(lines, i)).value;
      x, y := move.0, move.1;
      r := board.Set(x, y, mark);
    }
    k := Some((i, t.value));
  }

  /** One round of the host (`O`): apply the peer's move as `X`, ignoring
      whether `set` accepted it; stop if that wins; otherwise prompt until a
      local move is placed, send the FIRST line typed this round, and report
      whether the local move wins. */
  method HostRound(board: TicTacToe, peer: seq<nat>, local: seq<seq<nat>>) returns (outcome: Outcome)
    requires board.Valid()
    modifies board.grid
    ensures Target(peer).None? ==> outcome == Outcome(None, Aborted) && board.grid[..] == old(board.grid[..])
    ensures Target(peer).Some? ==>
      var g1 := Put(old(board.grid[..]), Target(peer).value, JoinMark);
      if HasWinner(g1) then
        outcome == Outcome(None, OpponentWon) && board.grid[..] == g1
      else
        match Accepted(g1, local, 0)
        case None => outcome == Outcome(None, Aborted) && board.grid[..] == g1
        case Some((_, p)) =>
          var g2 := Put(g1, p, HostMark);
          board.grid[..] == g2 &&
          outcome == Outcome(Some(ReadLine(local, 0)), if HasWinner(g2) then LocalWon else Undecided)
  {
    var remote := Target(peer);
    if remote.None? {
      return Outcome(None, Aborted);
    }
    var (x, y) := ProcessNetInput(peer).value;
    var _ := board.Set(x, y, Next(HostMark));
    var won := board.Digest();
    if won {
      return Outcome(None, OpponentWon);
    }
    var input := ReadLine(local, 0);
    var k := PromptUntilPlaced(board, local, HostMark);
    if k.None? {
      return Outcome(None, Aborted);
    }
    won := board.Digest();
    outcome := Outcome(Some(input), if won then LocalWon else Undecided);
  }

  /** One round of the joiner (`X`): prompt until a local move is placed, send
      the FIRST line typed this round, stop if the local move wins; otherwise
      apply the peer's move as `O`, ignoring whether `set` accepted it, and
      report whether that wins. */
  method JoinRound(board: TicTacToe, local: seq<seq<nat>>, peer: seq<nat>) returns (outcome: Outcome)
    requires board.Valid()
    modifies board.grid
    ensures
      var g0 := old(board.grid[..]);
      match Accepted(g0, local, 0)
      case None => outcome == Outcome(None, Aborted) && board.grid[..] == g0
      case Some((_, p)) =>
        var g1 := Put(g0, p, JoinMark);
        var sent := Some(ReadLine(local, 0));
        if HasWinner(g1) then
          outcome == Outcome(sent, LocalWon) && board.grid[..] == g1
        else if Target(peer).None? then
          outcome == Outcome(sent, Aborted) && board.grid[..] == g1
        else
          var g2 := Put(g1, Target(peer).value, HostMark);
          board.grid[..] == g2 &&
          outcome == Outcome(sent, if HasWinner(g2) then OpponentWon else Undecided)
  {
    var input := ReadLine(local, 0);
    var k := PromptUntilPlaced(board, local, JoinMark);
    if k.None? {
      return Outcome(None, Aborted);
    }
    var won := board.Digest();
    if won {
      return Outcome(Some(input), LocalWon);
    }
    var remote := Target(peer);
    if remote.None? {
      return Outcome(Some(input), Aborted);
    }
    var (x, y) := ProcessNetInput(peer).value;
    var _ := board.Set(x, y, Next(JoinMark));
    won := board.Digest();
    outcome := Outcome(Some(input), if won then OpponentWon else Undecided);
  }

  /** The peer, whose board equals ours before our move, applies the line we
      send with the `set` whose result it ignores. With the line sent as
      written (the first one typed), the peer's board matches ours after the
      move iff that first line was the accepted one. A re-prompted move is lost
      on the peer: the first line named an occupied cell, so the peer's `set`
      refuses it silently. */
  lemma SentLineSyncsIffFirstTry(g: seq<Tic>, local: seq<seq<nat>>, m: Tic)
    requires |g| == Size && m != Nil
    requires Accepted(g, local, 0).Some?
    ensures Target(ReadLine(local, 0)).Some?
    ensures Put(g, Target(ReadLine(local, 0)).value, m) == Put(g, Accepted(g, local, 0).value.1, m)
      <==> Accepted(g, local, 0).value.0 == 0
  {
    var (k, p) := Accepted(g, local, 0).value;
    AcceptedIsFirstEmpty(g, local, 0, k, p);
    assert Put(g, p, m)[p] == m;
    if k > 0 {
      assert Put(g, Target(ReadLine(local, 0)).value, m) == g;
      assert g[p] != Put(g, p, m)[p];
    }
  }

  /** The line a driver that sends the accepted move transmits. */
  function AcceptedLine(g: seq<Tic>, local: seq<seq<nat>>): (line: Option<seq<nat>>)
    requires |g| == Size
    ensures line.Some? <==> Accepted(g, local, 0).Some?
  {
    match Accepted(g, local, 0)
    case None => None
    case Some((k, _)) => Some(ReadLine(local, k))
  }

  /** Sending the accepted line keeps the two boards equal: the peer's `set`
      on it succeeds and writes the same cell. */
  lemma AcceptedLineSyncs(g: seq<Tic>, local: seq<seq<nat>>, m: Tic)
    requires |g| == Size
    requires Accepted(g, local, 0).Some?
    ensures Target(AcceptedLine(g, local).value) == Some(Accepted(g, local, 0).value.1)
    ensures g[Accepted(g, local, 0).value.1] == Nil
    ensures Put(g, Target(AcceptedLine(g, local).value).value, m) == Put(g, Accepted(g, local, 0).value.1, m)
  {
    var (k, p) := Accepted(g, local, 0).value;
    AcceptedIsFirstEmpty(g, local, 0, k, p);
  }
}
