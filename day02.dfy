/**
 * Day 2: rock, paper, scissors. Each line is "<opponent> <column>"; part A
 * reads the column as the player's hand, part B as the outcome to reach.
 * Hands and outcomes are numbered by their discriminants, and every
 * calculation is modulo 3.
 */
module Day02 {
  import opened Common

  datatype Hand = Rock | Paper | Scissors
  {
    /** `usize::from(hand)`: the discriminant. */
    function Index(): (i: nat)
      ensures i < 3
    {
      match this
      case Rock => 0
      case Paper => 1
      case Scissors => 2
    }

    /** `score`: one more than the discriminant. */
    function Score(): (s: nat)
      ensures 1 <= s <= 3 && s == Index() + 1
    {
      Index() + 1
    }
  }

  /** `Hand::from(usize)`, derived with `#[default] Rock`: out-of-range values give Rock. */
  function HandFromIndex(i: nat): (h: Hand)
    ensures i < 3 ==> h.Index() == i
    ensures i >= 3 ==> h == Rock
  {
    if i == 1 then Paper else if i == 2 then Scissors else Rock
  }

  datatype Outcome = Draw | Win | Lose
  {
    function Index(): (i: nat)
      ensures i < 3
    {
      match this
      case Draw => 0
      case Win => 1
      case Lose => 2
    }

    /** Lose scores 0, Draw 3 and Win 6. */
    function Score(): (s: nat)
      ensures s == 3 * ((Index() + 1) % 3)
    {
      match this
      case Lose => 0
      case Draw => 3
      case Win => 6
    }
  }

  predicate IsHandByte(c: char) { c in "ABCXYZ" }

  /** `Hand::from(u8)`: A and X are Rock, B and Y Paper, C and Z Scissors. */
  function DecodeHand(c: char): (h: Hand)
    requires IsHandByte(c)
    ensures (c == 'A' || c == 'X') <==> h == Rock
    ensures (c == 'B' || c == 'Y') <==> h == Paper
    ensures (c == 'C' || c == 'Z') <==> h == Scissors
  {
    if c == 'A' || c == 'X' then Rock
    else if c == 'B' || c == 'Y' then Paper
    else Scissors
  }

  predicate IsOutcomeByte(c: char) { c in "XYZ" }

  /** `Outcome::from(u8)`: X is Lose, Y Draw and Z Win. */
  function DecodeOutcome(c: char): (o: Outcome)
    requires IsOutcomeByte(c)
    ensures c == 'X' <==> o == Lose
    ensures c == 'Y' <==> o == Draw
    ensures c == 'Z' <==> o == Win
  {
    if c == 'X' then Lose else if c == 'Y' then Draw else Win
  }

  /**
   * `compute_outcome`: the player wins when their hand is the next one
   * after the opponent's modulo 3, draws on equal hands, and loses
   * otherwise (when the opponent's hand is the next after theirs).
   */
  function ComputeOutcome(opponent: Hand, player: Hand): (o: Outcome)
    ensures o == Win <==> player.Index() == (opponent.Index() + 1) % 3
    ensures o == Draw <==> player == opponent
    ensures o == Lose <==> opponent.Index() == (player.Index() + 1) % 3
  {
    if (opponent.Index() + 1) % 3 == player.Index() then Win
    else if opponent.Index() == player.Index() then Draw
    else Lose
  }

  /** `compute_hand`: the hand `outcome.Index()` steps after the opponent's, modulo 3. */
  function ComputeHand(opponent: Hand, outcome: Outcome): (h: Hand)
    ensures h.Index() == (opponent.Index() + outcome.Index()) % 3
  {
    HandFromIndex((opponent.Index() + outcome.Index()) % 3)
  }

  /** Playing the hand chosen for an outcome gives that outcome. */
  lemma HandGivesOutcome(opponent: Hand, outcome: Outcome)
    ensures ComputeOutcome(opponent, ComputeHand(opponent, outcome)) == outcome
  {
  }

  /** The hand that gives an outcome is the only hand that does: choosing is inverse to playing. */
  lemma OutcomeDeterminesHand(opponent: Hand, player: Hand)
    ensures ComputeHand(opponent, ComputeOutcome(opponent, player)) == player
  {
  }

  predicate WellFormed(game: string)
  {
    |game| >= 3 && IsHandByte(game[0])
  }

  /** The score of one game of part A: outcome score plus the player's hand score. */
  function ScoreA(game: string): (s: nat)
    requires WellFormed(game) && IsHandByte(game[2])
    ensures 1 <= s <= 9
  {
    var opponent := DecodeHand(game[0]);
    var player := DecodeHand(game[2]);
    ComputeOutcome(opponent, player).Score() + player.Score()
  }

  /** The score of one game of part B: the wanted outcome's score plus the hand that reaches it. */
  function ScoreB(game: string): (s: nat)
    requires WellFormed(game) && IsOutcomeByte(game[2])
    ensures 1 <= s <= 9
    ensures s == ScoreA([game[0], game[1], "XYZ"[ComputeHand(DecodeHand(game[0]), DecodeOutcome(game[2])).Index()]])
  {
    var opponent := DecodeHand(game[0]);
    var outcome := DecodeOutcome(game[2]);
    HandGivesOutcome(opponent, outcome);
    outcome.Score() + ComputeHand(opponent, outcome).Score()
  }

  /** `part_a`: the sum of the game scores; between 1 and 9 points per game. */
  function PartA(games: seq<string>): (r: nat)
    requires forall g | g in games :: WellFormed(g) && IsHandByte(g[2])
    ensures |games| <= r <= 9 * |games|
  {
    if games == [] then 0
    else PartA(games[..|games| - 1]) + ScoreA(games[|games| - 1])
  }

  /** `part_b`: the sum of the game scores when the column is the outcome to reach. */
  function PartB(games: seq<string>): (r: nat)
    requires forall g | g in games :: WellFormed(g) && IsOutcomeByte(g[2])
    ensures |games| <= r <= 9 * |games|
  {
    if games == [] then 0
    else PartB(games[..|games| - 1]) + ScoreB(games[|games| - 1])
  }

  /** Both answers add up over a concatenation of game lists. */
  lemma {:induction false} PartAAppend(a: seq<string>, b: seq<string>)
    requires forall g | g in a + b :: WellFormed(g) && IsHandByte(g[2])
    ensures PartA(a + b) == PartA(a) + PartA(b)
  {
    if b != [] {
      assert (a + b)[..|a + b| - 1] == a + b[..|b| - 1];
      PartAAppend(a, b[..|b| - 1]);
    } else {
      assert a + b == a;
    }
  }
}
