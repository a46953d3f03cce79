/** Hand scoring, the deck and the dealer of 21_game/21_game_bonus.rb. */
module TwentyOne {
  import opened Outcomes
  import opened Strings

  /** A card as the Ruby Card object holds it: two strings. */
  datatype Card = Card(number: string, suit: string)

  type Hand = seq<Card>

  /** Card::CARDS[0], the numbers '2'..'10', 'J', 'Q', 'K', 'A'. */
  const Numbers: seq<string> := ["2", "3", "4", "5", "6", "7", "8", "9", "10", "J", "Q", "K", "A"]

  /** Card::CARDS[1], the suits clubs, diamonds, hearts, spades. */
  const Suits: seq<string> := ["\U{2663}", "\U{2666}", "\U{2665}", "\U{2660}"]

  /** Hand::OPTIMAL_POINTS */
  const OptimalPoints: int := 21

  /** Dealer::DEALER_MAX_RISK */
  const DealerMaxRisk: int := 17

  // ---------------------------------------------------------------------------
  // Card values

  /** String#to_i on a string of leading decimal digits: the value of the
      longest digit prefix, accumulated onto `acc`. */
  function LeadingDigits(s: string, acc: nat): nat
  {
    if |s| == 0 || !IsDigit(s[0]) then acc
    else LeadingDigits(s[1..], acc * 10 + (s[0] as int - 48))
  }

  function ToI(s: string): nat { LeadingDigits(s, 0) }

  /** One card's contribution to `cards_total_value`: 11 for an ace, 10 for
      the listed letters, the number's integer value otherwise. */
  function CardValue(number: string): int
  {
    if number == "A" then 11
    else if number in ["1", "J", "Q", "K"] then 10
    else ToI(number)
  }

  /** The value printed in the game's rules for the i-th entry of
      Card::CARDS[0]: face value for 2..10, 10 for a face card, 11 for an ace. */
  function RuleValue(i: nat): int
    requires i < |Numbers|
  {
    if i < 9 then i + 2 else if i < 12 then 10 else 11
  }

  /** Every number of the deck is worth what the rules say it is. */
  lemma CardValuesFollowTheRules(i: nat)
    requires i < |Numbers|
    ensures CardValue(Numbers[i]) == RuleValue(i)
  {
    if i == 8 {
      assert Numbers[8] == "10";
      assert "10"[1..] == "0";
      assert "0"[1..] == "";
      assert LeadingDigits("10", 0) == LeadingDigits("0", 1);
      assert LeadingDigits("0", 1) == LeadingDigits("", 10);
    } else if i < 8 {
      var s := Numbers[i];
      assert |s| == 1 && s[1..] == "";
      assert LeadingDigits(s, 0) == LeadingDigits("", s[0] as int - 48);
    }
  }

  /** Hand#cards_total_value: the sum of the card values, aces at 11. */
  function TotalValue(h: Hand): int
  {
    if |h| == 0 then 0 else TotalValue(h[..|h| - 1]) + CardValue(h[|h| - 1].number)
  }

  /** The total of two hands laid end to end is the sum of their totals. */
  lemma {:induction false} TotalValueAppend(h: Hand, h': Hand)
    ensures TotalValue(h + h') == TotalValue(h) + TotalValue(h')
    decreases |h'|
  {
    if |h'| > 0 {
      var init := h'[..|h'| - 1];
      assert (h + h')[..|h + h'| - 1] == h + init;
      assert (h + h')[|h + h'| - 1] == h'[|h'| - 1];
      TotalValueAppend(h, init);
    } else {
      assert h + h' == h;
    }
  }

  /** Every number of the deck is worth between 2 and 11. */
  lemma NumberValueInRange(number: string)
    requires number in Numbers
    ensures 2 <= CardValue(number) <= 11
  {
    var i :| 0 <= i < |Numbers| && Numbers[i] == number;
    CardValuesFollowTheRules(i);
  }

  /** A hand of deck cards totals between 2 and 11 points per card. */
  lemma {:induction false} TotalValueBounds(h: Hand)
    requires forall i :: 0 <= i < |h| ==> h[i].number in Numbers
    ensures 2 * |h| <= TotalValue(h) <= 11 * |h|
  {
    if |h| > 0 {
      TotalValueBounds(h[..|h| - 1]);
      NumberValueInRange(h[|h| - 1].number);
    }
  }

  /** The number of aces in the hand, as Hand#cards_corrected_value counts them. */
  function AceCount(h: Hand): (r: nat)
    ensures r <= |h|
  {
    if |h| == 0 then 0 else AceCount(h[..|h| - 1]) + (if h[|h| - 1].number == "A" then 1 else 0)
  }

  /** The value of a card with an ace counted as 1. */
  function HardValue(number: string): int
  {
    if number == "A" then 1 else CardValue(number)
  }

  /** The hand's total with every ace counted as 1. */
  function HardTotal(h: Hand): int
  {
    if |h| == 0 then 0 else HardTotal(h[..|h| - 1]) + HardValue(h[|h| - 1].number)
  }

  lemma {:induction false} HardTotalIsAllAcesDemoted(h: Hand)
    ensures HardTotal(h) == TotalValue(h) - 10 * AceCount(h)
  {
    if |h| > 0 {
      HardTotalIsAllAcesDemoted(h[..|h| - 1]);
    }
  }

  // ---------------------------------------------------------------------------
  // Ace correction

  /** The loop of Hand#cards_corrected_value: `n` rounds, each taking 10 off
      the running sum when it is over OPTIMAL_POINTS. */
  function Demote(sum: int, n: nat): (r: int)
    ensures sum - 10 * n <= r <= sum
    ensures sum <= OptimalPoints ==> r == sum
    ensures r > OptimalPoints ==> r == sum - 10 * n
  {
    if n == 0 then sum
    else Demote(if sum > OptimalPoints then sum - 10 else sum, n - 1)
  }

  /** How many aces must drop to 1 to bring `sum` to OPTIMAL_POINTS or below. */
  function Needed(sum: int): nat
  {
    if sum <= OptimalPoints then 0 else (sum - OptimalPoints + 9) / 10
  }

  /** Needed(sum) demotions bring the sum to 21 or below, one fewer do not. */
  lemma NeededIsExact(sum: int)
    ensures sum - 10 * Needed(sum) <= OptimalPoints
    ensures Needed(sum) > 0 ==> sum - 10 * (Needed(sum) - 1) > OptimalPoints
  {
    if sum > OptimalPoints {
      var q := (sum - OptimalPoints + 9) / 10;
      assert sum - OptimalPoints + 9 == 10 * q + (sum - OptimalPoints + 9) % 10;
    }
  }

  function Min(a: int, b: int): int { if a <= b then a else b }

  /** The loop demotes exactly as many aces as are needed, or all of them. */
  lemma {:induction false} DemoteClosedForm(sum: int, n: nat)
    ensures Demote(sum, n) == sum - 10 * Min(n, Needed(sum))
  {
    if n > 0 {
      if sum > OptimalPoints {
        DemoteClosedForm(sum - 10, n - 1);
        assert Needed(sum - 10) == Needed(sum) - 1;
      } else {
        DemoteClosedForm(sum, n - 1);
      }
    }
  }

  /** Hand#cards_corrected_value */
  function CorrectedValue(h: Hand): int
  {
    Demote(TotalValue(h), AceCount(h))
  }

  /** The corrected value is the total less 10 for each of j demoted aces,
      j at most the number of aces; an ace is demoted only while the running
      sum is over 21; a corrected value over 21 means every ace was demoted;
      and it is the best value at most 21 that any choice of demotions gives. */
  lemma AceCorrection(h: Hand)
    ensures AceCount(h) == 0 ==> CorrectedValue(h) == TotalValue(h)
    ensures exists j :: (0 <= j <= AceCount(h)
      && CorrectedValue(h) == TotalValue(h) - 10 * j
      && (j > 0 ==> TotalValue(h) - 10 * (j - 1) > OptimalPoints)
      && (CorrectedValue(h) > OptimalPoints ==> j == AceCount(h)))
    ensures forall i :: 0 <= i <= AceCount(h) && TotalValue(h) - 10 * i <= OptimalPoints ==>
      TotalValue(h) - 10 * i <= CorrectedValue(h) <= OptimalPoints
  {
    var s, n := TotalValue(h), AceCount(h);
    DemoteClosedForm(s, n);
    NeededIsExact(s);
    var j := Min(n, Needed(s));
    assert CorrectedValue(h) == s - 10 * j;
    assert 0 <= j <= n && (j > 0 ==> s - 10 * (j - 1) > OptimalPoints);
    forall i | 0 <= i <= n && s - 10 * i <= OptimalPoints
      ensures s - 10 * i <= CorrectedValue(h) <= OptimalPoints
    {
      assert Needed(s) <= i;
      assert j == Needed(s);
    }
  }

  /** Demoting can only lower the total, never below the all-aces-as-1 total. */
  lemma CorrectedAtLeastHard(h: Hand)
    ensures HardTotal(h) <= CorrectedValue(h) <= TotalValue(h)
  {
    HardTotalIsAllAcesDemoted(h);
  }

  /** Hand#busted? */
  predicate Busted(h: Hand)
  {
    CorrectedValue(h) > OptimalPoints
  }

  /** Dealer#stay? */
  predicate DealerStays(h: Hand)
  {
    CorrectedValue(h) >= DealerMaxRisk
  }

  /** A hand is busted exactly when it is over 21 even with every ace
      counted as 1. */
  lemma BustedIffHardTotalOver(h: Hand)
    ensures Busted(h) <==> HardTotal(h) > OptimalPoints
  {
    CorrectedAtLeastHard(h);
    HardTotalIsAllAcesDemoted(h);
    AceCorrection(h);
    if Busted(h) {
      var j :| 0 <= j <= AceCount(h)
        && CorrectedValue(h) == TotalValue(h) - 10 * j
        && (j > 0 ==> TotalValue(h) - 10 * (j - 1) > OptimalPoints)
        && (CorrectedValue(h) > OptimalPoints ==> j == AceCount(h));
    }
  }

  /** The dealer stays exactly when busted, or when some choice of aces
      counted as 1 puts the hand between 17 and 21. */
  lemma DealerStaysIffReachable(h: Hand)
    ensures DealerStays(h) <==> Busted(h) || exists i :: (0 <= i <= AceCount(h)
      && DealerMaxRisk <= TotalValue(h) - 10 * i <= OptimalPoints)
  {
    AceCorrection(h);
    if DealerStays(h) && !Busted(h) {
      var j :| 0 <= j <= AceCount(h)
        && CorrectedValue(h) == TotalValue(h) - 10 * j
        && (j > 0 ==> TotalValue(h) - 10 * (j - 1) > OptimalPoints)
        && (CorrectedValue(h) > OptimalPoints ==> j == AceCount(h));
      assert DealerMaxRisk <= TotalValue(h) - 10 * j <= OptimalPoints;
    }
  }

  /** A busted dealer always stays, so the dealer's loop condition
      `busted? || stay?` is the stay rule alone. */
  lemma BustedDealerStays(h: Hand)
    ensures Busted(h) ==> DealerStays(h)
  {
  }

  /** Hand#add_card */
  function AddCard(h: Hand, c: Card): (h': Hand)
    ensures |h'| == |h| + 1 && h'[..|h|] == h && h'[|h|] == c
  {
    h + [c]
  }

  /** Adding a card adds its value to the total and counts an ace. */
  lemma AddCardValue(h: Hand, c: Card)
    ensures TotalValue(AddCard(h, c)) == TotalValue(h) + CardValue(c.number)
    ensures AceCount(AddCard(h, c)) == AceCount(h) + (if c.number == "A" then 1 else 0)
  {
    assert AddCard(h, c)[..|h|] == h;
  }

  // ---------------------------------------------------------------------------
  // Display

  /** Each card shown as its number followed by its suit, in hand order. */
  function CardStrings(h: Hand): (r: seq<string>)
    ensures |r| == |h|
    ensures forall i :: 0 <= i < |h| ==> r[i] == h[i].number + h[i].suit
  {
    if |h| == 0 then [] else [h[0].number + h[0].suit] + CardStrings(h[1..])
  }

  /** Hand#display_num_and_suit: all but the last card joined by ", ", then
      " and ", then the last card. Ruby raises on an empty hand (a String
      plus nil), so a hand must hold a card. */
  function DisplayNumAndSuit(h: Hand): string
    requires |h| >= 1
  {
    var parts := CardStrings(h);
    Join(parts[..|parts| - 1], ", ") + " and " + parts[|parts| - 1]
  }

  /** For two or more cards the display is the plain comma-separated list
      with its last ", " replaced by " and ": both share one prefix and end
      with the last card. */
  lemma DisplayIsCommaListWithAnd(h: Hand)
    requires |h| >= 2
    ensures exists prefix :: (DisplayNumAndSuit(h) == prefix + " and " + CardStrings(h)[|h| - 1]
      && Join(CardStrings(h), ", ") == prefix + ", " + CardStrings(h)[|h| - 1])
    ensures |DisplayNumAndSuit(h)| == |Join(CardStrings(h), ", ")| + 3
  {
    var parts := CardStrings(h);
    var prefix := Join(parts[..|parts| - 1], ", ");
    assert Join(parts, ", ") == prefix + ", " + parts[|parts| - 1];
  }

  // ---------------------------------------------------------------------------
  // Names

  /** Dealer#dealer_name: "Boss" when the user is called "Dealer", "Dealer"
      otherwise, so the two players are never announced under one name. */
  function DealerName(userName: string): (r: string)
    ensures r != userName
    ensures r == "Dealer" || r == "Boss"
    ensures userName != "Dealer" ==> r == "Dealer"
  {
    if userName == "Dealer" then "Boss" else "Dealer"
  }

  // ---------------------------------------------------------------------------
  // Round winner

  datatype Winner = UserWins | DealerWins | Tie

  function Mirror(w: Winner): Winner
  {
    match w
    case UserWins => DealerWins
    case DealerWins => UserWins
    case Tie => Tie
  }

  /** Game#detect_round_winner on the two corrected values: nil when either
      side is over 21, otherwise the strictly larger side, or a tie. */
  function WinnerOnPoints(userPoints: int, dealerPoints: int): (r: Option<Winner>)
    ensures r.None? <==> userPoints > OptimalPoints || dealerPoints > OptimalPoints
    ensures r == Some(UserWins) <==> dealerPoints < userPoints <= OptimalPoints
    ensures r == Some(DealerWins) <==> userPoints < dealerPoints <= OptimalPoints
    ensures r == Some(Tie) <==> userPoints == dealerPoints <= OptimalPoints
  {
    if !(userPoints > OptimalPoints) && !(dealerPoints > OptimalPoints) then
      if userPoints > dealerPoints then Some(UserWins)
      else if dealerPoints > userPoints then Some(DealerWins)
      else Some(Tie)
    else None
  }

  /** Game#detect_round_winner */
  function DetectRoundWinner(user: Hand, dealer: Hand): (r: Option<Winner>)
    ensures r.None? <==> Busted(user) || Busted(dealer)
    ensures r == Some(UserWins) <==> CorrectedValue(dealer) < CorrectedValue(user) <= OptimalPoints
    ensures r == Some(DealerWins) <==> CorrectedValue(user) < CorrectedValue(dealer) <= OptimalPoints
    ensures r == Some(Tie) <==> CorrectedValue(user) == CorrectedValue(dealer) <= OptimalPoints
  {
    WinnerOnPoints(CorrectedValue(user), CorrectedValue(dealer))
  }

  /** The comparison is fair: swapping the two totals swaps the winner. */
  lemma WinnerIsSymmetric(u: int, d: int)
    ensures WinnerOnPoints(d, u).None? <==> WinnerOnPoints(u, d).None?
    ensures WinnerOnPoints(u, d).Some? ==> WinnerOnPoints(d, u) == Some(Mirror(WinnerOnPoints(u, d).value))
  {
  }

  /** The user wins a round exactly when neither side is over 21 and the
      user's corrected value is the larger. */
  lemma UserWinsExactly(user: Hand, dealer: Hand)
    ensures DetectRoundWinner(user, dealer) == Some(UserWins) <==>
      CorrectedValue(dealer) < CorrectedValue(user) <= OptimalPoints
  {
  }
}
