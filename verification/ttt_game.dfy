/** The game-level logic of TTT_game/ttt_game_bonus.rb around the board: the
    computer's marker, its move policy (attack, block, centre, any free
    square), the list of free squares shown to the human, and the round and
    game scoring. */
module TicTacToeGame {
  import opened Outcomes
  import opened Strings
  import opened TicTacToeBoard
  import opened TicTacToeBoardLemmas

  /** TTTGame::POINTS_TO_WIN */
  const PointsToWin: nat := 3

  /** Computer#player_marker: 'X' against an 'O', 'O' against anything else,
      so the two players never share a marker. */
  function ComputerMarker(humanMarker: char): (r: char)
    ensures r != humanMarker
    ensures r != InitialMarker
    ensures r == 'X' || r == 'O'
    ensures humanMarker != 'O' ==> r == 'O'
  {
    if humanMarker == 'O' then 'X' else 'O'
  }

  // ---------------------------------------------------------------------------
  // The human's marker

  /** Human#ask_user_marker's test as written, on the capitalized input:
      anything of exactly one character is accepted, the blank included. */
  predicate MarkerAcceptedAsWritten(input: string)
  {
    !(|input| == 0 || |input| > 1)
  }

  /** The blank is accepted as a marker, and then a human move leaves the
      board as it was: the square stays unmarked and nothing is recorded. */
  lemma BlankMarkerLosesMoves(b: Board, k: Key)
    requires At(b, k).Unmarked()
    ensures MarkerAcceptedAsWritten([InitialMarker])
    ensures SetMarker(b, k, InitialMarker) == b
    ensures UnmarkedSquares(SetMarker(b, k, InitialMarker)) == UnmarkedSquares(b)
  {
    var b' := SetMarker(b, k, InitialMarker);
    assert forall j: Key :: At(b', j) == At(b, j);
    assert forall i :: 0 <= i < 9 ==> b'[i] == At(b', (i + 1) as Key);
  }

  /** The marker test as evidently intended: one character, not the blank. */
  predicate MarkerAccepted(input: string)
  {
    |input| == 1 && input[0] != InitialMarker
  }

  /** With the corrected test the human's marker is a real marker distinct
      from the computer's, and each human move takes one free square. */
  lemma AcceptedMarkerIsReal(input: string, b: Board, k: Key)
    requires MarkerAccepted(input)
    requires k in UnmarkedSquares(b)
    ensures MarkerAcceptedAsWritten(input)
    ensures input[0] != InitialMarker && ComputerMarker(input[0]) != input[0]
    ensures |UnmarkedSquares(HumanMoves(b, k, input[0]))| == |UnmarkedSquares(b)| - 1
  {
  }

  // ---------------------------------------------------------------------------
  // Move policy

  datatype Strategy = AttackMove | DefenseMove

  /** TTTGame#find_computer_best_move: attack when the computer threatens a
      square, defend when only the human does, None otherwise. */
  function FindComputerBestMove(b: Board, computer: char, human: char): (r: Option<Strategy>)
    ensures r == Some(AttackMove) <==> SquareThreatenedByQ(b, computer)
    ensures r == Some(DefenseMove) <==> !SquareThreatenedByQ(b, computer) && SquareThreatenedByQ(b, human)
  {
    if SquareThreatenedByQ(b, computer) then Some(AttackMove)
    else if SquareThreatenedByQ(b, human) then Some(DefenseMove)
    else None
  }

  /** TTTGame#computer_moves with mark_strategic_square, mark_center_square
      and mark_random_square: the square chosen by the greedy ladder and the
      board after the computer's marker is placed there. The random pick of
      `unmarked_squares.sample` is any free key. */
  method ComputerMoves(b: Board, computer: char, human: char) returns (k: Key, b': Board)
    requires computer != InitialMarker
    requires !Full(b)
    ensures k in UnmarkedSquares(b) && At(b, k).Unmarked()
    ensures b' == Place(b, k, computer)
    ensures |UnmarkedSquares(b')| == |UnmarkedSquares(b)| - 1
    ensures SquareThreatenedBy(b, computer).Some? ==> k == SquareThreatenedBy(b, computer).value
    ensures SquareThreatenedBy(b, computer).None? && SquareThreatenedBy(b, human).Some? ==>
      k == SquareThreatenedBy(b, human).value
    ensures (SquareThreatenedBy(b, computer).None? && SquareThreatenedBy(b, human).None? &&
      CenterAvailable(b)) ==> k == 5
  {
    var best := FindComputerBestMove(b, computer, human);
    if best == Some(AttackMove) {
      k := SquareThreatenedBy(b, computer).value;
    } else if best == Some(DefenseMove) {
      k := SquareThreatenedBy(b, human).value;
    } else if CenterAvailable(b) {
      k := 5;
    } else {
      k :| k in UnmarkedSquares(b);
    }
    b' := Place(b, k, computer);
    PlaceShrinksUnmarked(b, k, computer);
  }

  /** TTTGame#human_moves after its input loop: the chosen key is one of the
      free keys, and the human's marker goes there. */
  function HumanMoves(b: Board, k: Key, human: char): (b': Board)
    requires k in UnmarkedSquares(b)
    requires human != InitialMarker
    ensures At(b', k).marker == human
    ensures forall j: Key :: j != k ==> At(b', j) == At(b, j)
    ensures |UnmarkedSquares(b')| == |UnmarkedSquares(b)| - 1
    ensures k !in UnmarkedSquares(b')
  {
    PlaceShrinksUnmarked(b, k, human);
    Place(b, k, human)
  }

  /** Every square marked on `b` is still marked on `b'`. */
  ghost predicate KeepsMarks(b: Board, b': Board)
  {
    forall j: Key :: At(b, j).Marked() ==> At(b', j).Marked()
  }

  /** Every key the run played is marked on `b'`. */
  ghost predicate MarksPlayed(b': Board, moves: seq<(Key, char)>)
  {
    forall i :: 0 <= i < |moves| ==> At(b', moves[i].0).Marked()
  }

  /** A run of placements, each of which must hit a free key; None when one
      of them would land on a marked square, which the game never does. */
  function ApplyMoves(b: Board, moves: seq<(Key, char)>): (r: Option<Board>)
    requires forall i :: 0 <= i < |moves| ==> moves[i].1 != InitialMarker
    ensures r.Some? ==> |UnmarkedSquares(r.value)| == |UnmarkedSquares(b)| - |moves|
    ensures r.Some? ==> KeepsMarks(b, r.value)
    ensures r.Some? ==> MarksPlayed(r.value, moves)
    decreases |moves|
  {
    if |moves| == 0 then Some(b)
    else
      var (k, m) := moves[0];
      if At(b, k).Unmarked() then
        var b' := Place(b, k, m);
        PlaceShrinksUnmarked(b, k, m);
        var r := ApplyMoves(b', moves[1..]);
        if r.Some? then
          PlayedStep(b, b', r.value, moves);
          r
        else r
      else None
  }

  /** One step of ApplyMoves keeps the marks and the played keys: the first
      move is marked on `b'` and the rest are marked on the final board. */
  lemma PlayedStep(b: Board, b': Board, r: Board, moves: seq<(Key, char)>)
    requires |moves| > 0 && moves[0].1 != InitialMarker && At(b, moves[0].0).Unmarked()
    requires b' == Place(b, moves[0].0, moves[0].1)
    requires KeepsMarks(b', r) && MarksPlayed(r, moves[1..])
    ensures KeepsMarks(b, r) && MarksPlayed(r, moves)
  {
    var k := moves[0].0;
    PlaceShrinksUnmarked(b, k, moves[0].1);
    forall j: Key | At(b, j).Marked()
      ensures At(r, j).Marked()
    {
      assert j != k;
      assert At(b', j) == At(b, j);
    }
    forall i | 0 <= i < |moves|
      ensures At(r, moves[i].0).Marked()
    {
      if i == 0 {
        assert At(b', k).Marked();
      } else {
        assert moves[i] == moves[1..][i - 1];
      }
    }
  }

  /** Every move of the run targets a key that is free on `b`, and no two
      moves target the same key. */
  ghost predicate FreshMoves(b: Board, moves: seq<(Key, char)>)
  {
    && (forall i :: 0 <= i < |moves| ==> At(b, moves[i].0).Unmarked())
    && (forall i, j :: 0 <= i < j < |moves| ==> moves[i].0 != moves[j].0)
  }

  /** After the first move lands on a free key, the rest of the run is
      fresh on the new board exactly when the whole run was fresh. */
  lemma FreshAfterFirstMove(b: Board, moves: seq<(Key, char)>)
    requires |moves| > 0 && moves[0].1 != InitialMarker && At(b, moves[0].0).Unmarked()
    ensures FreshMoves(b, moves) <==> FreshMoves(Place(b, moves[0].0, moves[0].1), moves[1..])
  {
    if FreshMoves(b, moves) {
      FreshRestAfterFirst(b, moves);
    }
    if FreshMoves(Place(b, moves[0].0, moves[0].1), moves[1..]) {
      FreshFromRest(b, moves);
    }
  }

  lemma FreshRestAfterFirst(b: Board, moves: seq<(Key, char)>)
    requires |moves| > 0 && moves[0].1 != InitialMarker && At(b, moves[0].0).Unmarked()
    requires FreshMoves(b, moves)
    ensures FreshMoves(Place(b, moves[0].0, moves[0].1), moves[1..])
  {
    var (k, m) := moves[0];
    var b', rest := Place(b, k, m), moves[1..];
    PlaceShrinksUnmarked(b, k, m);
    forall i | 0 <= i < |rest|
      ensures At(b', rest[i].0).Unmarked()
    {
      assert rest[i] == moves[i + 1];
    }
    forall i, j | 0 <= i < j < |rest|
      ensures rest[i].0 != rest[j].0
    {
      assert rest[i] == moves[i + 1] && rest[j] == moves[j + 1];
    }
  }

  lemma FreshFromRest(b: Board, moves: seq<(Key, char)>)
    requires |moves| > 0 && moves[0].1 != InitialMarker && At(b, moves[0].0).Unmarked()
    requires FreshMoves(Place(b, moves[0].0, moves[0].1), moves[1..])
    ensures FreshMoves(b, moves)
  {
    var (k, m) := moves[0];
    var b', rest := Place(b, k, m), moves[1..];
    PlaceShrinksUnmarked(b, k, m);
    assert At(b', k).Marked();
    forall i | 0 <= i < |moves|
      ensures At(b, moves[i].0).Unmarked() && (i > 0 ==> moves[i].0 != k)
    {
      if i > 0 {
        assert moves[i] == rest[i - 1];
      }
    }
    forall i, j | 0 <= i < j < |moves|
      ensures moves[i].0 != moves[j].0
    {
      if i > 0 {
        assert moves[i] == rest[i - 1] && moves[j] == rest[j - 1];
      }
    }
  }

  /** A run of placements goes through exactly when every move targets a
      key free at the start and no key is targeted twice. */
  lemma {:induction false} ApplyMovesSucceeds(b: Board, moves: seq<(Key, char)>)
    requires forall i :: 0 <= i < |moves| ==> moves[i].1 != InitialMarker
    ensures ApplyMoves(b, moves).Some? <==> FreshMoves(b, moves)
    decreases |moves|
  {
    if |moves| > 0 {
      var (k, m) := moves[0];
      if At(b, k).Unmarked() {
        ApplyMovesSucceeds(Place(b, k, m), moves[1..]);
        FreshAfterFirstMove(b, moves);
      }
    }
  }

  /** From a reset board a run of moves on distinct keys goes through, has
      at most nine placements, and the ninth fills the board. */
  lemma AtMostNinePlacements(moves: seq<(Key, char)>)
    requires forall i :: 0 <= i < |moves| ==> moves[i].1 != InitialMarker
    requires FreshMoves(Reset(), moves)
    ensures ApplyMoves(Reset(), moves).Some?
    ensures |moves| <= 9
    ensures Full(ApplyMoves(Reset(), moves).value) <==> |moves| == 9
  {
    ApplyMovesSucceeds(Reset(), moves);
    ResetUnmarked();
  }

  // ---------------------------------------------------------------------------
  // The list of free squares

  /** The keys as the strings Integer#to_s gives them. */
  function KeyStrings(keys: seq<Key>): (r: seq<string>)
    ensures |r| == |keys|
    ensures forall i :: 0 <= i < |keys| ==> r[i] == DigitString(keys[i])
  {
    if |keys| == 0 then [] else [DigitString(keys[0])] + KeyStrings(keys[1..])
  }

  /** TTTGame#joinor: "1, 2 or 3" for three or more keys, "1 or 2" for two,
      the key itself for one and "" for none. */
  function Joinor(keys: seq<Key>): (r: string)
  {
    var parts := KeyStrings(keys);
    if |parts| > 2 then Join(parts[..|parts| - 1], ", ") + " or " + parts[|parts| - 1]
    else if |parts| == 2 then Join(parts, " or ")
    else Join(parts, "")
  }

  /** Reading the digits back out of joinor's text gives the keys in order:
      the separators add no digit and drop no key. */
  lemma JoinorDigits(keys: seq<Key>)
    ensures Digits(Joinor(keys)) == Concat(KeyStrings(keys))
  {
    var parts := KeyStrings(keys);
    ConcatOfKeysIsDigits(keys);
    DigitsOfDigitString(Concat(parts));
    if |parts| > 2 {
      JoinorDigitsLong(keys);
    } else if |parts| == 2 {
      assert Digits(" or ") == "";
      DigitsOfJoin(parts, " or ");
    } else {
      DigitsOfJoin(parts, "");
    }
  }

  lemma JoinorDigitsLong(keys: seq<Key>)
    requires |keys| > 2
    ensures Digits(Joinor(keys)) == Concat(KeyStrings(keys))
  {
    var parts := KeyStrings(keys);
    var init := parts[..|parts| - 1];
    var last := parts[|parts| - 1];
    JoinorLongDigits(keys);
    assert init == KeyStrings(keys[..|keys| - 1]);
    CommaListDigits(keys[..|keys| - 1]);
    DigitsOfLength1(last);
    assert Concat(parts) == Concat(init) + last;
  }

  /** The " or " before the last key adds no digit. */
  lemma JoinorLongDigits(keys: seq<Key>)
    requires |keys| > 2
    ensures var parts := KeyStrings(keys);
      Digits(Joinor(keys)) == Digits(Join(parts[..|parts| - 1], ", ")) + Digits(parts[|parts| - 1])
  {
    var parts := KeyStrings(keys);
    var prefix := Join(parts[..|parts| - 1], ", ");
    assert Joinor(keys) == prefix + " or " + parts[|parts| - 1];
    assert Digits(" or ") == "";
    DigitsAroundSep(prefix, " or ", parts[|parts| - 1]);
  }

  /** The keys joined by ", " carry exactly the keys' digits. */
  lemma CommaListDigits(keys: seq<Key>)
    ensures Digits(Join(KeyStrings(keys), ", ")) == Concat(KeyStrings(keys))
  {
    assert Digits(", ") == "";
    DigitsOfJoin(KeyStrings(keys), ", ");
    ConcatOfKeysIsDigits(keys);
    DigitsOfDigitString(Concat(KeyStrings(keys)));
  }

  /** Each key string is one digit, so the keys' text is all digits. */
  lemma {:induction false} ConcatOfKeysIsDigits(keys: seq<Key>)
    ensures forall i :: 0 <= i < |Concat(KeyStrings(keys))| ==> IsDigit(Concat(KeyStrings(keys))[i])
  {
    if |keys| > 0 {
      var init := keys[..|keys| - 1];
      ConcatOfKeysIsDigits(init);
      assert KeyStrings(keys)[..|keys| - 1] == KeyStrings(init);
    }
  }

  lemma DigitsOfLength1(s: string)
    requires |s| == 1 && IsDigit(s[0])
    ensures Digits(s) == s
  {
    assert s[1..] == "";
  }

  lemma {:induction false} DigitsOfDigitString(s: string)
    requires forall i :: 0 <= i < |s| ==> IsDigit(s[i])
    ensures Digits(s) == s
  {
    if |s| > 0 {
      DigitsOfDigitString(s[1..]);
      assert s == [s[0]] + s[1..];
    }
  }

  // ---------------------------------------------------------------------------
  // Scores

  datatype Scores = Scores(human: nat, computer: nat)

  /** TTTGame#human_won? */
  predicate HumanWon(b: Board, human: char)
  {
    WinningMarker(b) == Some(human)
  }

  /** TTTGame#computer_won? */
  predicate ComputerWon(b: Board, computer: char)
  {
    WinningMarker(b) == Some(computer)
  }

  /** Marker `m` fills a winning line, and no line listed earlier is filled
      by any marker. */
  ghost predicate FirstCompletedBy(b: Board, m: char)
  {
    exists j :: (0 <= j < |WinningLines| && CompletedBy(b, WinningLines[j], m)
      && forall l, m' :: 0 <= l < j ==> !CompletedBy(b, WinningLines[l], m'))
  }

  /** TTTGame#human_won? and computer_won? hold for a marker exactly when it
      fills the first completed winning line. */
  lemma WonIffFirstCompletedLine(b: Board, m: char)
    ensures HumanWon(b, m) <==> FirstCompletedBy(b, m)
    ensures ComputerWon(b, m) <==> FirstCompletedBy(b, m)
  {
    WinningMarkerSpec(b);
    if FirstCompletedBy(b, m) {
      var j :| 0 <= j < |WinningLines| && CompletedBy(b, WinningLines[j], m)
        && forall l, m' :: 0 <= l < j ==> !CompletedBy(b, WinningLines[l], m');
      var w := WinningMarker(b).value;
      var j' :| 0 <= j' < |WinningLines| && CompletedBy(b, WinningLines[j'], w)
        && forall l, m' :: 0 <= l < j' ==> !CompletedBy(b, WinningLines[l], m');
      assert j == j';
      LineOfThree(j);
      assert WinningLines[j][0] in WinningLines[j];
    }
  }

  /** TTTGame#update_general_score: the round's winner gains one point; a
      tied round changes nothing. */
  function UpdateGeneralScore(s: Scores, b: Board, human: char, computer: char): (r: Scores)
    ensures HumanWon(b, human) ==> r == Scores(s.human + 1, s.computer)
    ensures !HumanWon(b, human) && ComputerWon(b, computer) ==> r == Scores(s.human, s.computer + 1)
    ensures !SomeoneWon(b) ==> r == s
    ensures r.human + r.computer <= s.human + s.computer + 1
  {
    if HumanWon(b, human) then Scores(s.human + 1, s.computer)
    else if ComputerWon(b, computer) then Scores(s.human, s.computer + 1)
    else s
  }

  /** With the computer's marker derived from the human's, a board with a
      winner credits exactly one of the two players. */
  lemma WinnerIsCreditedOnce(s: Scores, b: Board, human: char)
    requires human != InitialMarker
    requires WinningMarker(b) == Some(human) || WinningMarker(b) == Some(ComputerMarker(human))
    ensures UpdateGeneralScore(s, b, human, ComputerMarker(human)).human + UpdateGeneralScore(s, b, human, ComputerMarker(human)).computer
      == s.human + s.computer + 1
    ensures HumanWon(b, human) != ComputerWon(b, ComputerMarker(human))
  {
  }

  /** TTTGame#final_winner?: someone has reached POINTS_TO_WIN. */
  predicate FinalWinner(s: Scores)
  {
    s.human == PointsToWin || s.computer == PointsToWin
  }

  /** The game loop runs rounds while nobody has the final win; each round
      adds at most one point, so scores never pass POINTS_TO_WIN and the
      loop stops exactly when one of them reaches it. */
  lemma ScoresStayBounded(s: Scores, b: Board, human: char, computer: char)
    requires s.human <= PointsToWin && s.computer <= PointsToWin && !FinalWinner(s)
    ensures UpdateGeneralScore(s, b, human, computer).human <= PointsToWin
    ensures UpdateGeneralScore(s, b, human, computer).computer <= PointsToWin
  {
  }

  /** When a round ends the game, TTTGame#display_final_winner names one
      side: exactly one score is at POINTS_TO_WIN, and it is the side that
      won this round. */
  lemma FinalWinnerIsOneSide(s: Scores, b: Board, human: char)
    requires human != InitialMarker
    requires s.human <= PointsToWin && s.computer <= PointsToWin && !FinalWinner(s)
    ensures var r := UpdateGeneralScore(s, b, human, ComputerMarker(human));
      FinalWinner(r) ==> (r.human == PointsToWin) != (r.computer == PointsToWin)
    ensures UpdateGeneralScore(s, b, human, ComputerMarker(human)).human == PointsToWin ==> HumanWon(b, human)
    ensures UpdateGeneralScore(s, b, human, ComputerMarker(human)).computer == PointsToWin ==>
      ComputerWon(b, ComputerMarker(human))
  {
  }
}
