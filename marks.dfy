/** The three values a cell of the board can hold, and the step from one
    player's mark to the other's. */
module Marks {

  /** `Nil` is an empty cell; `O` and `X` are the two players' marks. */
  datatype Tic = Nil | O | X

  /** The host plays `O`, the joiner plays `X`. */
  const HostMark: Tic := O
  const JoinMark: Tic := X

  /** The mark that follows `t`: the other player's mark, and `O` after an
      empty cell. The result is never empty. */
  function Next(t: Tic): (r: Tic)
    ensures r != Nil
    ensures r != t
    ensures t == Nil ==> r == O
  {
    match t
    case Nil => O
    case O => X
    case X => O
  }

  /** On a player's mark, `Next` is an involution: two steps lead back. */
  lemma NextInvolutive(t: Tic)
    requires t != Nil
    ensures Next(Next(t)) == t
  {
  }

  /** Each role's opponent mark, `Next` of its own, is the other role's mark. */
  lemma RolesAreOpponents()
    ensures Next(HostMark) == JoinMark && Next(JoinMark) == HostMark
  {
  }

  /** The mark reached from `t` after `n` steps of `Next`. */
  function Advance(t: Tic, n: nat): Tic
  {
    if n == 0 then t else Next(Advance(t, n - 1))
  }

  /** Iterating `Next` from `O` alternates strictly between the two marks:
      an even number of applications gives `O`, an odd number gives `X`. */
  lemma {:induction false} AdvanceAlternates(n: nat)
    ensures Advance(O, n) == if n % 2 == 0 then O else X
  {
    if n > 0 {
      AdvanceAlternates(n - 1);
    }
  }
}
