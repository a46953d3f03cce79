# RB120 games in Dafny

A Dafny model of the game logic in three terminal games from the RB120
repository:

- **Tic Tac Toe** (`TTT_game/ttt_game_bonus.rb`). The model covers:
  - the 3×3 board and its eight winning lines;
  - the free-square and threat queries;
  - winner detection;
  - the computer's move ladder: attack, then defend, then take the centre, then a random square;
  - the square-list formatting (`joinor`);
  - the match score kept up to three round wins.
- **Twenty-One** (`21_game/21_game_bonus.rb`). The model covers:
  - card values, and the ace correction that counts an ace as 11 or 1;
  - busting;
  - the 52-card shuffled deck, dealing from its end, and the initial deal;
  - the dealer's draw-to-17 loop;
  - the round-winner decision.
- **Rock Paper Scissors Lizard Spock** (`RPS_game/rps_game_bonus.rb`). The model covers:
  - the five moves and their `beats` tables;
  - parsing the one-letter choices;
  - the four computer personalities and their weighted choice lists;
  - the scoring up to five points.

Modules, one per file:

| module | file | contents |
|---|---|---|
| `Outcomes` | `outcomes.dfy` | `Option` and `Result` for the error paths |
| `Strings` | `strings.dfy` | `Array#join` and the digits of a string |
| `TicTacToeBoard` | `ttt_board.dfy` | `Board` and `Square`: the board and its queries |
| `TicTacToeBoardLemmas` | `ttt_board_lemmas.dfy` | geometry of the winning lines; independent characterisations of threats and winners; reset and placement facts |
| `TicTacToeGame` | `ttt_game.dfy` | markers, the human and computer moves, `joinor`, scores |
| `TwentyOne` | `twenty_one.dfy` | cards, hand values, busting, display, round winner |
| `TwentyOneDeck` | `twenty_one_deck.dfy` | deck composition, shuffling, dealing, the dealer's turn |
| `Rpsls` | `rpsls.dfy` | moves, choices, personalities, scores |

Modelling decisions:

- **Tic Tac Toe board.** The board is a sequence of nine `Square`s. Key `k` (1..9) is at index `k-1`. Markers are characters, and the blank marker is `' '`.
- **Card numbers.** These stay strings, as in the Ruby source. `String#to_i` is modelled for strings of leading decimal digits, which covers every card number.
- **Shuffling.** `Array#shuffle!` is modelled as "any permutation of the ordered deck", stated as a multiset equality.
- **Random picks.** `Array#sample` is a nondeterministic choice from the list (`:|`). The contract states only membership.
- **Dealing from an empty deck.** The Ruby code takes `nil` from the empty deck and then fails. The model returns a `Failure` in that case.

## Model

| member | source | states |
|---|---|---|
| TicTacToeBoardLemmas.WinningLinesShape | TTT_game/ttt_game_bonus.rb:53-55 | there are eight winning lines, each of three distinct keys in ascending order: the three rows, the three columns and the two diagonals |
| TicTacToeBoardLemmas.WinningLinesAreGridLines | TTT_game/ttt_game_bonus.rb:53-55 | three ascending keys form a winning line exactly when they are collinear on the 3×3 grid (same row, same column or a full diagonal) |
| TicTacToeBoard.Reset | TTT_game/ttt_game_bonus.rb:62-64 | after a reset every one of the nine squares is unmarked |
| TicTacToeBoardLemmas.ResetUnmarked | TTT_game/ttt_game_bonus.rb:62-64 | after a reset the free squares are exactly 1..9 in order and the board is not full |
| TicTacToeBoardLemmas.ResetNoWinner | TTT_game/ttt_game_bonus.rb:62-64 | a reset board has no winning marker |
| TicTacToeBoardLemmas.ResetNoThreat | TTT_game/ttt_game_bonus.rb:62-64 | a reset board has no threatened square for any marker, the blank included |
| TicTacToeBoard.SetMarker | TTT_game/ttt_game_bonus.rb:82-84 | `[]=` gives square k the marker and leaves every other square as it was |
| TicTacToeBoard.Place | TTT_game/ttt_game_bonus.rb:82-84 | placing a real marker on a free square marks exactly that square and no other |
| TicTacToeBoardLemmas.PlaceShrinksUnmarked | TTT_game/ttt_game_bonus.rb:82-88 | after a placement the free squares are the old ones with k removed, so there is exactly one fewer |
| TicTacToeBoard.UnmarkedSquares | TTT_game/ttt_game_bonus.rb:86-88 | a key is listed exactly when its square is unmarked, and the list is in ascending key order (hash insertion order) |
| TicTacToeBoardLemmas.FullIffAllMarked | TTT_game/ttt_game_bonus.rb:90-91 | `full?` (Full) holds exactly when all nine squares are marked |
| TicTacToeBoardLemmas.CenterAvailableIffFree | TTT_game/ttt_game_bonus.rb:94-96 | `center_available?` (CenterAvailable) holds exactly when key 5 is among the free keys, so a full board never offers it |
| TicTacToeBoardLemmas.UnmarkedCount | TTT_game/ttt_game_bonus.rb:86-91 | the number of free squares is nine minus the number of marked squares |
| TicTacToeBoard.FirstUnmarkedIn | TTT_game/ttt_game_bonus.rb:103-105 | on a line with a blank, the square found is unmarked, lies on the line, and no square before it on the line is unmarked |
| TicTacToeBoard.ThreatScan | TTT_game/ttt_game_bonus.rb:98-109 | scanning lines from i returns none exactly when no line from i holds one blank and two of the marker; otherwise it returns the free square of the first such line |
| TicTacToeBoard.SquareThreatenedBy | TTT_game/ttt_game_bonus.rb:98-109 | the threatened square exists exactly when some winning line holds one blank and two of the marker; it is the free square of the first such line |
| TicTacToeBoardLemmas.ThreatenedIffSomeLine | TTT_game/ttt_game_bonus.rb:111-113 | `square_threatened_by?` (SquareThreatenedByQ) holds for a real marker exactly when some winning line holds the multiset {m, m, blank}; a threatened board is never full |
| TicTacToeBoardLemmas.ThreatIsTwoAndBlank | TTT_game/ttt_game_bonus.rb:100-102 | a line is a threat exactly when its markers are, as a multiset, two of the marker and one blank |
| TicTacToeBoardLemmas.ThreatenedSquareSpec | TTT_game/ttt_game_bonus.rb:98-109 | the threatened square, restated by multisets of line markers: it is unmarked, lies on the first qualifying line, and exists exactly when such a line exists |
| TicTacToeBoard.MarkedMarkers | TTT_game/ttt_game_bonus.rb:132 | a character is kept exactly when some marked square holds it, so no blank is kept; the result has one entry per marked square; it is as long as the input exactly when every square is marked, and then it is their markers in order |
| TicTacToeBoardLemmas.MarkedMarkers3 | TTT_game/ttt_game_bonus.rb:132 | for the three squares of a line the result is the markers of the marked ones, in the line's order |
| TicTacToeBoard.WinnerScan | TTT_game/ttt_game_bonus.rb:115-123 | scanning from line i returns the marker of the first line whose three squares carry one identical real marker, or none when there is none |
| TicTacToeBoard.WinningMarker | TTT_game/ttt_game_bonus.rb:115-123 | the winning marker is the marker of the first winning line with three identical marked squares, and none exactly when no line has them |
| TicTacToeBoardLemmas.ThreeIdenticalIsCompleted | TTT_game/ttt_game_bonus.rb:131-135 | `three_identical_markers?` (the predicate ThreeIdenticalMarkers) holds exactly when all three squares of the line carry one and the same non-blank marker |
| TicTacToeBoardLemmas.WinningMarkerSpec | TTT_game/ttt_game_bonus.rb:115-135 | the winner is never the blank; it is none exactly when no line is completed by any marker; otherwise it is the marker completing the first completed line |
| TicTacToeBoardLemmas.CompletedLineWins | TTT_game/ttt_game_bonus.rb:125-127 | if any line is completed by a marker, someone has won |
| TicTacToeBoardLemmas.SomeoneWonIffCompletedLine | TTT_game/ttt_game_bonus.rb:125-127 | `someone_won?` (SomeoneWon) holds exactly when some marker completes some winning line |
| TicTacToeGame.ComputerMarker | TTT_game/ttt_game_bonus.rb:233-239 | the computer's marker is 'X' when the human took 'O' and 'O' otherwise, so it never equals the human's marker and is never blank |
| TicTacToeGame.WonIffFirstCompletedLine | TTT_game/ttt_game_bonus.rb:450-456 | `human_won?` and `computer_won?` (HumanWon, ComputerWon) hold for a marker exactly when it fills the first completed winning line, with no earlier line completed by anyone |
| TicTacToeGame.BlankMarkerLosesMoves | TTT_game/ttt_game_bonus.rb:202-211 | the marker test as written accepts the blank, and a move made with the blank leaves the board and its free squares unchanged |
| TicTacToeGame.AcceptedMarkerIsReal | TTT_game/ttt_game_bonus.rb:202-211 | under the corrected marker test the accepted marker is also accepted as written, is not blank, differs from the computer's, and each human move takes exactly one free square |
| TicTacToeGame.FindComputerBestMove | TTT_game/ttt_game_bonus.rb:430-436 | attack exactly when the computer's marker threatens a square; defence exactly when it does not but the human's does; nothing otherwise |
| TicTacToeGame.ComputerMoves | TTT_game/ttt_game_bonus.rb:417-448 | the computer marks one free square: the winning square if it has one; else the square blocking the human; else the centre if free; else any free square. The free squares shrink by one |
| TicTacToeGame.HumanMoves | TTT_game/ttt_game_bonus.rb:403-415 | a human move on a free square marks that square with the human's marker, leaves every other square as it was, and removes the square from the free squares |
| TicTacToeGame.ApplyMoves | TTT_game/ttt_game_bonus.rb:292-298 | a run that goes through takes exactly as many free squares as there are moves, keeps every marked square marked, and leaves every played key marked |
| TicTacToeGame.ApplyMovesSucceeds | TTT_game/ttt_game_bonus.rb:403-415 | a run of placements goes through exactly when every move targets a key free at the start and no key is targeted twice, which is what the input check of `human_moves` and the computer's choice of a free key guarantee |
| TicTacToeGame.AtMostNinePlacements | TTT_game/ttt_game_bonus.rb:284-298 | from a reset board a run of moves on distinct keys goes through, holds at most nine placements, and fills the board exactly at the ninth |
| TicTacToeGame.JoinorDigits | TTT_game/ttt_game_bonus.rb:393-401 | `joinor` (Joinor) lists every free key, in order, each exactly once, with only separators between them: its digits are the keys' digits |
| TicTacToeGame.UpdateGeneralScore | TTT_game/ttt_game_bonus.rb:462-468 | the human gains a point when the human's marker won; else the computer gains one when its marker won; a round with no winner changes nothing; the total grows by at most one |
| TicTacToeGame.WinnerIsCreditedOnce | TTT_game/ttt_game_bonus.rb:450-468 | with distinct markers, a round with a winner credits exactly one player with exactly one point |
| TicTacToeGame.ScoresStayBounded | TTT_game/ttt_game_bonus.rb:272-282 | while no one has reached three points, one more round leaves both scores at most three, so `final_winner?` is reached by equality |
| TicTacToeGame.FinalWinnerIsOneSide | TTT_game/ttt_game_bonus.rb:462-477 | when a round makes `final_winner?` (FinalWinner) true, exactly one score is at three, and it belongs to the side that won that round |
| TwentyOne.CardValuesFollowTheRules | 21_game/21_game_bonus.rb:204-217 | each of the 13 card numbers scores its rank value under the per-card rule of `cards_total_value` (CardValue): 2..10 at face value, J/Q/K at 10, the ace at 11 |
| TwentyOne.TotalValueAppend | 21_game/21_game_bonus.rb:204-217 | `cards_total_value` (TotalValue) is additive: two hands laid end to end total the sum of their totals |
| TwentyOne.TotalValueBounds | 21_game/21_game_bonus.rb:204-217 | a hand of deck cards totals between 2 and 11 points per card |
| TwentyOne.AceCount | 21_game/21_game_bonus.rb:179 | the hand holds no more aces than cards |
| TwentyOne.Demote | 21_game/21_game_bonus.rb:177-183 | the corrected sum is between the sum minus ten per ace and the sum; a sum already at most 21 is kept; a sum left above 21 had every ace demoted |
| TwentyOne.DemoteClosedForm | 21_game/21_game_bonus.rb:179-181 | the loop demotes exactly the fewest aces needed to reach 21, capped by the number of aces |
| TwentyOne.AceCorrection | 21_game/21_game_bonus.rb:177-183 | `cards_corrected_value` (CorrectedValue): a hand without aces keeps its total; otherwise the value is the total minus ten per demoted ace, the largest such value at most 21 when one exists, and all aces demoted when none does |
| TwentyOne.CorrectedAtLeastHard | 21_game/21_game_bonus.rb:177-183 | the corrected value is never below the value with every ace counted as 1, nor above the raw total |
| TwentyOne.BustedDealerStays | 21_game/21_game_bonus.rb:444-449 | a busted hand is also a hand the dealer stays on, so the dealer's loop test is the stay test |
| TwentyOne.BustedIffHardTotalOver | 21_game/21_game_bonus.rb:185-187 | `busted?` (Busted) holds exactly when the hand is over 21 even with every ace counted as 1 |
| TwentyOne.DealerStaysIffReachable | 21_game/21_game_bonus.rb:368-370 | `stay?` (DealerStays) holds exactly when the hand is busted or some choice of aces counted as 1 puts it between 17 and 21 |
| TwentyOne.AddCard | 21_game/21_game_bonus.rb:189-191 | adding a card appends it at the end and keeps the earlier cards |
| TwentyOne.AddCardValue | 21_game/21_game_bonus.rb:189-191 | adding a card raises the raw total by that card's value and the ace count by one exactly for an ace |
| TwentyOne.CardStrings | 21_game/21_game_bonus.rb:194-197 | each card is shown as its number followed by its suit, in hand order |
| TwentyOne.DisplayIsCommaListWithAnd | 21_game/21_game_bonus.rb:193-199 | `display_num_and_suit` (DisplayNumAndSuit), for two or more cards: the comma list of all but the last card, then " and ", then the last card |
| TwentyOne.DealerName | 21_game/21_game_bonus.rb:337-343 | the dealer is "Boss" when the user is called "Dealer" and "Dealer" otherwise, never the user's name |
| TwentyOne.WinnerOnPoints | 21_game/21_game_bonus.rb:457-469 | with both sides at most 21, the higher points win and equal points tie; there is no winner exactly when a side is over 21 |
| TwentyOne.DetectRoundWinner | 21_game/21_game_bonus.rb:457-469 | there is no round winner exactly when a hand is busted; otherwise the higher corrected value wins and equal values tie |
| TwentyOne.WinnerIsSymmetric | 21_game/21_game_bonus.rb:462-468 | swapping the two hands mirrors the verdict |
| TwentyOne.UserWinsExactly | 21_game/21_game_bonus.rb:457-469 | the user wins exactly when neither hand is busted and the user's corrected value is higher |
| TwentyOneDeck.Cards | 21_game/21_game_bonus.rb:159-165 | the nested loop makes as many cards as numbers times suits |
| TwentyOneDeck.OrderedDeckComposition | 21_game/21_game_bonus.rb:159-165 | the unshuffled deck has 52 cards, and holds each of the 13×4 cards exactly once and nothing else |
| TwentyOneDeck.ShuffledDeckComposition | 21_game/21_game_bonus.rb:159-167 | any shuffle of the deck has 52 distinct cards and contains a card exactly when it is one of the 13×4 valid cards |
| TwentyOneDeck.DealCards | 21_game/21_game_bonus.rb:169-171 | dealing takes the last card and leaves the rest in order; an empty deck deals nothing and is unchanged; no card is lost or made |
| TwentyOneDeck.DealInitialCards | 21_game/21_game_bonus.rb:413-418 | the user gets the last and third-last cards, the dealer the second- and fourth-last, in that order, and the deck loses those four |
| TwentyOneDeck.DealInitialConservesCards | 21_game/21_game_bonus.rb:413-418 | the initial deal moves cards between deck and hands without losing or making any |
| TwentyOneDeck.DealerTurn | 21_game/21_game_bonus.rb:444-449 | the dealer draws from the end of the deck and stops at the first hand that is busted or worth 17 or more. The deck is whatever is left; failure exactly when the deck runs out before that |
| TwentyOneDeck.EnoughCardsForTheDealer | 21_game/21_game_bonus.rb:444-449 | when the hand and the deck together are worth at least 17 with aces as 1, the dealer's turn does not run out of cards |
| Rpsls.ValueInjective | RPS_game/rps_game_bonus.rb:209-242 | the five moves have five different names |
| Rpsls.BeatsFollowsTheRules | RPS_game/rps_game_bonus.rb:22-31 | `>` holds exactly for the ten (winner, loser) pairs the game's rules list |
| Rpsls.NoMoveBeatsItself | RPS_game/rps_game_bonus.rb:200-202 | `Move#>` (Greater) is irreflexive: no move beats itself |
| Rpsls.ExactlyOneOfTwoWins | RPS_game/rps_game_bonus.rb:200-242 | of two different moves exactly one beats the other |
| Rpsls.BeatsListShape | RPS_game/rps_game_bonus.rb:209-242 | every move beats exactly two moves, both different from itself |
| Rpsls.MoveChoice | RPS_game/rps_game_bonus.rb:252-260 | a choice gives a move exactly when it is one of the five valid letters |
| Rpsls.Letter | RPS_game/rps_game_bonus.rb:196 | each move has a one-character valid choice taken from its name |
| Rpsls.ChoiceRoundTrip | RPS_game/rps_game_bonus.rb:252-260 | `move_choice` is inverse to the letter of a move: a choice selects a move exactly when it is that move's letter |
| Rpsls.PersonalityValues | RPS_game/rps_game_bonus.rb:300-338 | the `values` lists (Values): Edd, Airiam and Diana list all five letters plus five extra copies of their favourite; the Mechanical Hound lists only scissors and lizard; every listed letter is valid |
| Rpsls.ComputerChoose | RPS_game/rps_game_bonus.rb:295-297 | the computer's move comes from a letter in its personality's list; the Mechanical Hound only plays scissors or lizard |
| Rpsls.TieIffSameMove | RPS_game/rps_game_bonus.rb:381-389 | the winner test of `round_result` (RoundResult): a tie exactly when both chose the same move; the human wins exactly on a rule pair (human, computer) |
| Rpsls.UpdateScore | RPS_game/rps_game_bonus.rb:368-374 | the winner of the round gains one point and the other score is kept; the total grows by one exactly when the moves differ |
| Rpsls.ResetScore | RPS_game/rps_game_bonus.rb:376-379 | both scores are zero and no one is a grand winner |
| Rpsls.ScoresStayBounded | RPS_game/rps_game_bonus.rb:395-410 | while no one has five points, one more round keeps both scores at most five |
| Rpsls.GrandWinnerIsOneSide | RPS_game/rps_game_bonus.rb:368-401 | when a round makes `grand_winner?` (GrandWinner) true, exactly one score is at five, and it belongs to the side whose move won that round |

## Left out

- All terminal I/O is left out: prompts, `puts`, `sleep`, `clear`, the banners, the card drawings, and the ASCII board `draw`.
- The input loops are left out: names, the play-again prompt, who plays first, and the user's hit/stay answers. The input they finally accept becomes a parameter (the human's square, the human's move).
- The outer game loops (`play`, `main_game`, `round`, `turns`, `user_turn`) are left out; they only sequence the modelled operations. `ApplyMoves` and the score lemmas cover one round step.
- Randomness is left out. The model does not state the uniform distributions of `shuffle!` and `sample`, only that the result is a permutation or a member.
- The Rock Paper Scissors round history and `print_history` are left out. They are formatting only.
- Player names and mottos are left out, except the Twenty-One dealer's name, which depends on the user's.
- TicTacToeGame.ComputerMoves: the random fallback is stated as "some free square", not as a uniform pick.
- TwentyOne.CardValuesFollowTheRules: `String#to_i` is modelled only on the card numbers the deck can hold, with their leading decimal digits. The `'1'` in the J/Q/K list can never match a card, since "10" scores 10 through `to_i`. This changes no value.
- TwentyOneDeck.DealerTurn: the Ruby dealer loop on an exhausted deck appends `nil` and then fails. This is modelled as `Failure`, not as Ruby's exception.
- TwentyOne.DisplayIsCommaListWithAnd: stated for two or more cards, the only hands the game displays. An empty hand makes Ruby fail, so the display function requires at least one card.

## Findings

| source | as written | input that shows it | evidently intended | confidence | as-written member | corrected member |
|---|---|---|---|---|---|---|
| TTT_game/ttt_game_bonus.rb:207 | the human's marker is accepted whenever it is one character long, the blank `' '` included | the human types a single space as the marker; each of their moves then writes `' '` onto a free square, which stays free | the marker must also differ from the blank square marker `' '` | high (not executed) | TicTacToeGame.BlankMarkerLosesMoves | TicTacToeGame.AcceptedMarkerIsReal |
