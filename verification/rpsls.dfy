/** The rules, choices, opponents and scoring of
    RPS_game/rps_game_bonus.rb: rock, paper, scissors, lizard, Spock. */
module Rpsls {
  import opened Outcomes

  datatype Move = Rock | Paper | Scissors | Lizard | Spock

  /** Move::VALID_CHOICES, the letters a player types. */
  const ValidChoices: seq<string> := ["r", "p", "s", "l", "k"]

  /** RPSGame::WINNING_SCORE */
  const WinningScore: nat := 5

  /** Move#value as each subclass sets it. */
  function Value(m: Move): string
  {
    match m
    case Rock => "rock"
    case Paper => "paper"
    case Scissors => "scissors"
    case Lizard => "lizard"
    case Spock => "spock"
  }

  /** Move#beats as each subclass sets it. */
  function Beats(m: Move): seq<string>
  {
    match m
    case Rock => ["scissors", "lizard"]
    case Paper => ["rock", "spock"]
    case Scissors => ["paper", "lizard"]
    case Lizard => ["paper", "spock"]
    case Spock => ["rock", "scissors"]
  }

  /** Move#>: the other move's value is in this move's beats list. */
  predicate Greater(a: Move, b: Move)
  {
    Value(b) in Beats(a)
  }

  // ---------------------------------------------------------------------------
  // The beats relation

  /** The ten rules the game prints, each as (winner, loser). */
  const Rules: seq<(Move, Move)> := [
    (Scissors, Paper), (Paper, Rock), (Rock, Lizard), (Lizard, Spock), (Spock, Scissors),
    (Scissors, Lizard), (Lizard, Paper), (Paper, Spock), (Spock, Rock), (Rock, Scissors)]

  /** Distinct moves have distinct values, so the tables name moves
      unambiguously. */
  lemma ValueInjective(a: Move, b: Move)
    ensures Value(a) == Value(b) <==> a == b
  {
  }

  /** The beats tables say exactly what the printed rules say. */
  lemma BeatsFollowsTheRules(a: Move, b: Move)
    ensures Greater(a, b) <==> (a, b) in Rules
  {
  }

  /** No move beats itself. */
  lemma NoMoveBeatsItself(m: Move)
    ensures !Greater(m, m)
  {
  }

  /** Of two different moves exactly one beats the other: the relation is a
      tournament on the five moves. */
  lemma ExactlyOneOfTwoWins(a: Move, b: Move)
    requires a != b
    ensures Greater(a, b) != Greater(b, a)
  {
  }

  /** Each beats list names two different moves, neither of them the move
      itself. */
  lemma BeatsListShape(m: Move)
    ensures |Beats(m)| == 2 && Beats(m)[0] != Beats(m)[1]
    ensures forall s :: s in Beats(m) ==> exists o: Move :: o != m && Value(o) == s
  {
    forall s | s in Beats(m)
      ensures exists o: Move :: o != m && Value(o) == s
    {
      NoMoveBeatsItself(m);
      if s == "rock" { assert Value(Rock) == s; }
      else if s == "paper" { assert Value(Paper) == s; }
      else if s == "scissors" { assert Value(Scissors) == s; }
      else if s == "lizard" { assert Value(Lizard) == s; }
      else { assert Value(Spock) == s; }
    }
  }

  // ---------------------------------------------------------------------------
  // Choices

  /** Player#move_choice: the move for a letter of VALID_CHOICES, nil for
      anything else. */
  function MoveChoice(choice: string): (r: Option<Move>)
    ensures r.Some? <==> choice in ValidChoices
  {
    if choice == "r" then Some(Rock)
    else if choice == "p" then Some(Paper)
    else if choice == "s" then Some(Scissors)
    else if choice == "l" then Some(Lizard)
    else if choice == "k" then Some(Spock)
    else None
  }

  /** The letter that selects a move: its initial, and "k" for Spock,
      as the choice prompt spells it. */
  function Letter(m: Move): (c: string)
    ensures c in ValidChoices
    ensures |c| == 1 && c[0] in Value(m)
  {
    match m
    case Rock => "r"
    case Paper => "p"
    case Scissors => "s"
    case Lizard => "l"
    case Spock => "k"
  }

  /** Letter and MoveChoice are inverse: every move has exactly one letter
      that selects it. */
  lemma ChoiceRoundTrip(m: Move, c: string)
    ensures MoveChoice(Letter(m)) == Some(m)
    ensures MoveChoice(c) == Some(m) <==> c == Letter(m)
  {
  }

  // ---------------------------------------------------------------------------
  // Opponents

  datatype Personality = Edd | Airiam | MechanicalHound | Diana

  /** The list holding `x` n times. */
  function Repeat(x: string, n: nat): (r: seq<string>)
    ensures |r| == n
    ensures forall i :: 0 <= i < n ==> r[i] == x
  {
    if n == 0 then [] else [x] + Repeat(x, n - 1)
  }

  /** The `values` each opponent samples its letter from. */
  function Values(p: Personality): seq<string>
  {
    match p
    case Edd => ValidChoices + Repeat(ValidChoices[2], 5)
    case Airiam => ValidChoices + Repeat(ValidChoices[4], 5)
    case MechanicalHound => [ValidChoices[2]] + [ValidChoices[3]]
    case Diana => ValidChoices + Repeat(ValidChoices[3], 5)
  }

  /** The letter each opponent favours, if any. */
  function Favourite(p: Personality): Option<Move>
  {
    match p
    case Edd => Some(Scissors)
    case Airiam => Some(Spock)
    case MechanicalHound => None
    case Diana => Some(Lizard)
  }

  /** Every opponent samples only valid letters, so its sampled choice
      always maps to a move. Edd, Airiam and Diana list all five letters and
      their favourite five more times (six chances in ten); Mechanical Hound
      only ever plays scissors or lizard. */
  lemma PersonalityValues(p: Personality)
    ensures |Values(p)| > 0
    ensures forall c :: c in Values(p) ==> c in ValidChoices
    ensures Favourite(p).Some? ==> (|Values(p)| == 10 && Values(p)[..5] == ValidChoices
      && forall i :: 5 <= i < 10 ==> MoveChoice(Values(p)[i]) == Favourite(p))
    ensures Favourite(p).None? ==> forall c :: c in Values(p) ==>
      MoveChoice(c) == Some(Scissors) || MoveChoice(c) == Some(Lizard)
  {
  }

  /** Computer#choose: `move_choice(personality.values.sample)`, the
      sampled letter being any entry of the opponent's values. */
  method ComputerChoose(p: Personality) returns (m: Move)
    ensures exists c :: c in Values(p) && MoveChoice(c) == Some(m)
    ensures p == MechanicalHound ==> m == Scissors || m == Lizard
  {
    PersonalityValues(p);
    assert Values(p)[0] in Values(p);
    var c :| c in Values(p);
    m := MoveChoice(c).value;
  }

  // ---------------------------------------------------------------------------
  // Scoring

  datatype Scores = Scores(human: nat, computer: nat)

  datatype Outcome = HumanWon | ComputerWon | Tie

  /** The winner test shared by RPSGame#round_result and update_score. */
  function RoundResult(human: Move, computer: Move): Outcome
  {
    if Greater(human, computer) then HumanWon
    else if Greater(computer, human) then ComputerWon
    else Tie
  }

  /** A round is tied exactly when both sides chose the same move. */
  lemma TieIffSameMove(human: Move, computer: Move)
    ensures RoundResult(human, computer) == Tie <==> human == computer
    ensures RoundResult(human, computer) == HumanWon <==> (human, computer) in Rules
  {
    if human != computer {
      ExactlyOneOfTwoWins(human, computer);
    }
    NoMoveBeatsItself(human);
    BeatsFollowsTheRules(human, computer);
  }

  /** RPSGame#update_score via Player#add_a_point: the round's winner gains
      one point, a tie changes nothing, and never both. */
  function UpdateScore(s: Scores, human: Move, computer: Move): (r: Scores)
    ensures Greater(human, computer) ==> r == Scores(s.human + 1, s.computer)
    ensures Greater(computer, human) ==> r == Scores(s.human, s.computer + 1)
    ensures human == computer ==> r == s
    ensures r.human + r.computer == s.human + s.computer + (if human == computer then 0 else 1)
  {
    NoMoveBeatsItself(human);
    if Greater(human, computer) then Scores(s.human + 1, s.computer)
    else if Greater(computer, human) then Scores(s.human, s.computer + 1)
    else s
  }

  /** RPSGame#reset_score via Player#reset_score. */
  function ResetScore(s: Scores): (r: Scores)
    ensures r.human == 0 && r.computer == 0
    ensures !GrandWinner(r)
  {
    Scores(0, 0)
  }

  /** RPSGame#grand_winner? */
  predicate GrandWinner(s: Scores)
  {
    s.human == WinningScore || s.computer == WinningScore
  }

  /** The match runs rounds until grand_winner?; since a round adds at most
      one point, scores never pass WINNING_SCORE and the match ends exactly
      when one side reaches it. */
  lemma ScoresStayBounded(s: Scores, human: Move, computer: Move)
    requires s.human <= WinningScore && s.computer <= WinningScore && !GrandWinner(s)
    ensures UpdateScore(s, human, computer).human <= WinningScore
    ensures UpdateScore(s, human, computer).computer <= WinningScore
  {
  }

  /** When a round ends the match, RPSGame#print_final_winner names one
      side: exactly one score is at WINNING_SCORE, and it belongs to the
      side whose move won this round. */
  lemma GrandWinnerIsOneSide(s: Scores, human: Move, computer: Move)
    requires s.human <= WinningScore && s.computer <= WinningScore && !GrandWinner(s)
    ensures var r := UpdateScore(s, human, computer);
      GrandWinner(r) ==> (r.human == WinningScore) != (r.computer == WinningScore)
    ensures UpdateScore(s, human, computer).human == WinningScore ==> Greater(human, computer)
    ensures UpdateScore(s, human, computer).computer == WinningScore ==> Greater(computer, human)
  {
  }
}
