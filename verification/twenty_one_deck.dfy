/** The deck of 21_game/21_game_bonus.rb and the two places the game deals
    from it: the initial deal and the dealer's turn. */
module TwentyOneDeck {
  import opened Outcomes
  import opened TwentyOne

  type Deck = seq<Card>

  predicate Distinct<T(==)>(s: seq<T>)
  {
    forall i, j :: 0 <= i < j < |s| ==> s[i] != s[j]
  }

  // ---------------------------------------------------------------------------
  // Composition

  /** One card of the given number in each suit, in suit order, as the
      inner loop of Deck#initialize adds them. */
  function SuitRow(number: string, suits: seq<string>): (r: seq<Card>)
    ensures |r| == |suits|
    ensures forall i :: 0 <= i < |suits| ==> r[i] == Card(number, suits[i])
  {
    if |suits| == 0 then [] else [Card(number, suits[0])] + SuitRow(number, suits[1..])
  }

  /** The nested loops of Deck#initialize_deck, before the shuffle. */
  function Cards(numbers: seq<string>, suits: seq<string>): (r: seq<Card>)
    ensures |r| == |numbers| * |suits|
  {
    if |numbers| == 0 then [] else SuitRow(numbers[0], suits) + Cards(numbers[1..], suits)
  }

  /** A card of Card::CARDS: one of its numbers with one of its suits. */
  predicate ValidCard(c: Card)
  {
    c.number in Numbers && c.suit in Suits
  }

  function OrderedDeck(): Deck
  {
    Cards(Numbers, Suits)
  }

  lemma DistinctTail<T>(s: seq<T>)
    requires Distinct(s) && |s| > 0
    ensures Distinct(s[1..]) && s[0] !in s[1..]
  {
    assert forall j :: 0 <= j < |s| - 1 ==> s[1..][j] == s[j + 1];
  }

  lemma {:induction false} SuitRowCount(number: string, suits: seq<string>, c: Card)
    requires Distinct(suits)
    ensures multiset(SuitRow(number, suits))[c] == if c.number == number && c.suit in suits then 1 else 0
  {
    if |suits| > 0 {
      var tail := suits[1..];
      DistinctTail(suits);
      SuitRowCount(number, tail, c);
      var row := SuitRow(number, suits);
      assert row == [Card(number, suits[0])] + SuitRow(number, tail);
      assert multiset(row) == multiset{Card(number, suits[0])} + multiset(SuitRow(number, tail));
      assert c.suit in suits <==> c.suit == suits[0] || c.suit in tail;
    }
  }

  lemma {:induction false} CardsCount(numbers: seq<string>, suits: seq<string>, c: Card)
    requires Distinct(numbers) && Distinct(suits)
    ensures multiset(Cards(numbers, suits))[c] == if c.number in numbers && c.suit in suits then 1 else 0
  {
    if |numbers| > 0 {
      var tail := numbers[1..];
      DistinctTail(numbers);
      CardsCount(tail, suits, c);
      SuitRowCount(numbers[0], suits, c);
      assert multiset(Cards(numbers, suits)) == multiset(SuitRow(numbers[0], suits)) + multiset(Cards(tail, suits));
      assert c.number in numbers <==> c.number == numbers[0] || c.number in tail;
    }
  }

  lemma NumbersAndSuitsDistinct()
    ensures Distinct(Numbers) && Distinct(Suits)
  {
  }

  /** Every card whose number is among `numbers` and whose suit is among
      `suits` occurs in `d` exactly once, and no other card occurs. */
  ghost predicate EachCardOnce(d: Deck, numbers: seq<string>, suits: seq<string>)
  {
    forall c: Card :: multiset(d)[c] == if c.number in numbers && c.suit in suits then 1 else 0
  }

  /** The nested loops over distinct numbers and distinct suits make each
      (number, suit) pair exactly once and nothing else. */
  lemma CardsComposition(numbers: seq<string>, suits: seq<string>)
    requires Distinct(numbers) && Distinct(suits)
    ensures EachCardOnce(Cards(numbers, suits), numbers, suits)
  {
    forall c: Card
      ensures multiset(Cards(numbers, suits))[c] == if c.number in numbers && c.suit in suits then 1 else 0
    {
      CardsCount(numbers, suits, c);
    }
  }

  /** Deck#initialize_deck lays out 13 numbers times 4 suits: 52 cards, each
      number/suit pair exactly once and nothing else. */
  lemma OrderedDeckComposition()
    ensures |OrderedDeck()| == 52
    ensures EachCardOnce(OrderedDeck(), Numbers, Suits)
  {
    OrderedDeckLength();
    NumbersAndSuitsDistinct();
    CardsComposition(Numbers, Suits);
  }

  lemma OrderedDeckLength()
    ensures |OrderedDeck()| == 52
  {
    assert |Numbers| == 13 && |Suits| == 4;
  }

  /** Deck#initialize shuffles the cards, which may leave them in any order. */
  predicate IsShuffledDeck(d: Deck)
  {
    multiset(d) == multiset(OrderedDeck())
  }

  lemma {:induction false} RepeatCountsTwice<T>(s: seq<T>, i: nat, j: nat)
    requires i < j < |s| && s[i] == s[j]
    ensures multiset(s)[s[i]] >= 2
  {
    assert s == s[..j] + s[j..];
    assert s[i] in s[..j];
    assert s[j] in s[j..];
  }

  lemma SameMultisetSameLength<T>(a: seq<T>, b: seq<T>)
    requires multiset(a) == multiset(b)
    ensures |a| == |b|
  {
    assert |a| == |multiset(a)|;
  }

  /** How many times each card occurs in a shuffled deck. */
  lemma ShuffledDeckCounts(d: Deck)
    requires IsShuffledDeck(d)
    ensures |d| == 52
    ensures EachCardOnce(d, Numbers, Suits)
  {
    OrderedDeckComposition();
    SameMultisetSameLength(d, OrderedDeck());
  }

  /** A deck holding every valid card once and nothing else has pairwise
      distinct cards, and exactly the valid ones. */
  lemma {:induction false} UnitCountsDeck(d: Deck)
    requires EachCardOnce(d, Numbers, Suits)
    ensures Distinct(d)
    ensures forall c :: c in d <==> ValidCard(c)
  {
    CountsAtMostOneIsDistinct(d);
    forall c
      ensures c in d <==> ValidCard(c)
    {
      assert c in d <==> c in multiset(d);
    }
  }

  /** Whatever the shuffle did, a fresh deck holds 52 pairwise distinct
      cards, each a valid number and suit, every such pair present. */
  lemma ShuffledDeckComposition(d: Deck)
    requires IsShuffledDeck(d)
    ensures |d| == 52
    ensures Distinct(d)
    ensures forall c :: c in d <==> ValidCard(c)
  {
    ShuffledDeckCounts(d);
    UnitCountsDeck(d);
  }

  lemma CountsAtMostOneIsDistinct<T>(s: seq<T>)
    requires forall x :: multiset(s)[x] <= 1
    ensures Distinct(s)
  {
    forall i, j | 0 <= i < j < |s|
      ensures s[i] != s[j]
    {
      if s[i] == s[j] {
        RepeatCountsTwice(s, i, j);
      }
    }
  }

  // ---------------------------------------------------------------------------
  // Dealing

  /** Deck#deal_cards, i.e. Array#pop: the last card and the rest, or nil
      and an unchanged deck when it is empty. */
  function DealCards(d: Deck): (r: (Option<Card>, Deck))
    ensures |d| == 0 ==> r == (None, d)
    ensures |d| > 0 ==> r.0 == Some(d[|d| - 1]) && r.1 == d[..|d| - 1] && r.1 + [r.0.value] == d
    ensures |d| > 0 ==> multiset(r.1) + multiset{r.0.value} == multiset(d) && |r.1| == |d| - 1
  {
    if |d| == 0 then (None, d)
    else
      assert d == d[..|d| - 1] + [d[|d| - 1]];
      (Some(d[|d| - 1]), d[..|d| - 1])
  }

  /** Popping a prefix of the deck takes its last card. */
  lemma PopPrefix(d: Deck, k: nat)
    requires 0 < k <= |d|
    ensures DealCards(d[..k]) == (Some(d[k - 1]), d[..k - 1])
  {
    assert d[..k][..k - 1] == d[..k - 1];
  }

  /** Game#deal_initial_cards: twice, one card to the user then one to the
      dealer, each popped off the end. A round starts on a fresh deck, so
      four cards are there. */
  function DealInitialCards(user: Hand, dealer: Hand, d: Deck): (r: (Hand, Hand, Deck))
    requires |d| >= 4
    ensures var n := |d|;
      && r.0 == user + [d[n - 1], d[n - 3]]
      && r.1 == dealer + [d[n - 2], d[n - 4]]
      && r.2 == d[..n - 4]
  {
    var n := |d|;
    assert d[..n] == d;
    PopPrefix(d, n);
    var p1 := DealCards(d);
    PopPrefix(d, n - 1);
    var p2 := DealCards(p1.1);
    PopPrefix(d, n - 2);
    var p3 := DealCards(p2.1);
    PopPrefix(d, n - 3);
    var p4 := DealCards(p3.1);
    (user + [p1.0.value] + [p3.0.value], dealer + [p2.0.value] + [p4.0.value], p4.1)
  }

  /** The initial deal moves four cards from the deck into the hands: no
      card is lost, duplicated or made up. */
  lemma DealInitialConservesCards(user: Hand, dealer: Hand, d: Deck)
    requires |d| >= 4
    ensures var r := DealInitialCards(user, dealer, d);
      multiset(r.0) + multiset(r.1) + multiset(r.2) == multiset(user) + multiset(dealer) + multiset(d)
      && |r.2| == |d| - 4
  {
    var n := |d|;
    assert d == d[..n - 4] + [d[n - 4], d[n - 3], d[n - 2], d[n - 1]];
  }

  // ---------------------------------------------------------------------------
  // Dealer's turn

  /** The cards of `s` in the order repeated pops take them. */
  function Reverse<T>(s: seq<T>): (r: seq<T>)
    ensures |r| == |s|
  {
    if |s| == 0 then [] else [s[|s| - 1]] + Reverse(s[..|s| - 1])
  }

  /** The i-th card popped is the i-th from the end. */
  lemma {:induction false} ReverseAt<T>(s: seq<T>, i: nat)
    requires i < |s|
    ensures Reverse(s)[i] == s[|s| - 1 - i]
  {
    if i > 0 {
      ReverseAt(s[..|s| - 1], i - 1);
    }
  }

  /** Game#dealer_turn: the dealer draws from the end of the deck until the
      hand is busted or stays. On success the drawn cards are the deck's
      tail, last card first, the final hand stays (a busted hand stays too),
      and no hand before it did. When the deck runs out first, Ruby adds nil
      to the hand and raises on the next valuation; that is the Failure. */
  method DealerTurn(hand: Hand, d: Deck) returns (r: Result<(Hand, Deck)>)
    ensures r.Success? ==> var (h', d') := r.value;
      && |d'| <= |d| && d' == d[..|d'|]
      && h' == hand + Reverse(d[|d'|..])
      && (Busted(h') || DealerStays(h'))
      && forall k :: |hand| <= k < |h'| ==> !Busted(h'[..k]) && !DealerStays(h'[..k])
    ensures r.Failure? <==>
      forall k :: |hand| <= k <= |hand| + |d| ==> !DealerStays((hand + Reverse(d))[..k])
    ensures HardTotal(hand) + HardTotal(d) >= DealerMaxRisk ==> r.Success?
  {
    var h := hand;
    var rest := d;
    while !(Busted(h) || DealerStays(h))
      invariant |rest| <= |d| && rest == d[..|rest|]
      invariant h == hand + Reverse(d[|rest|..])
      invariant forall k :: |hand| <= k < |h| ==> !Busted(h[..k]) && !DealerStays(h[..k])
      decreases |rest|
    {
      if |rest| == 0 {
        assert d[|rest|..] == d;
        DeckExhausted(hand, d, h);
        EnoughCardsForTheDealer(hand, d);
        return Failure("the deck ran out of cards");
      }
      var (c, rest') := DealCards(rest);
      DrawStep(hand, d, h, rest);
      h := AddCard(h, c.value);
      rest := rest';
    }
    r := Success((h, rest));
    FailureMeansDeckExhausted(hand, d, h, rest);
  }

  /** One draw keeps the loop's invariant: the card popped from the deck's
      end joins the hand, and the hand before it did not stay. */
  lemma DrawStep(hand: Hand, d: Deck, h: Hand, rest: Deck)
    requires 0 < |rest| <= |d| && rest == d[..|rest|]
    requires h == hand + Reverse(d[|rest|..])
    requires forall k :: |hand| <= k < |h| ==> !Busted(h[..k]) && !DealerStays(h[..k])
    requires !Busted(h) && !DealerStays(h)
    ensures var rest' := rest[..|rest| - 1];
      var h' := h + [rest[|rest| - 1]];
      && rest' == d[..|rest'|]
      && h' == hand + Reverse(d[|rest'|..])
      && forall k :: |hand| <= k < |h'| ==> !Busted(h'[..k]) && !DealerStays(h'[..k])
  {
    var rest' := rest[..|rest| - 1];
    var c := rest[|rest| - 1];
    var h' := h + [c];
    assert Reverse(d[|rest'|..]) == Reverse(d[|rest|..]) + [c] by {
      assert d[|rest'|..] == [c] + d[|rest|..];
      ReverseAppend([c], d[|rest|..]);
      assert Reverse([c]) == [c];
    }
    assert forall k :: 0 <= k <= |h| ==> h'[..k] == h[..k];
  }

  /** With the whole deck drawn and no hand on the way staying, no prefix
      of the full draw stays. */
  lemma DeckExhausted(hand: Hand, d: Deck, h: Hand)
    requires h == hand + Reverse(d)
    requires forall k :: |hand| <= k < |h| ==> !Busted(h[..k]) && !DealerStays(h[..k])
    requires !DealerStays(h)
    ensures forall k :: |hand| <= k <= |hand| + |d| ==> !DealerStays((hand + Reverse(d))[..k])
  {
    assert |h| == |hand| + |d|;
    forall k | |hand| <= k <= |hand| + |d|
      ensures !DealerStays(h[..k])
    {
      if k == |h| {
        assert h[..k] == h;
      }
    }
  }

  /** Drawing the deck `rest + tail` down to `rest` gives a prefix of the
      hand after drawing all of it. */
  lemma DrawnHandIsPrefix(hand: Hand, rest: Deck, tail: Deck)
    ensures (hand + Reverse(rest + tail))[..|hand| + |tail|] == hand + Reverse(tail)
  {
    ReverseAppend(rest, tail);
    var a := hand + Reverse(tail);
    assert hand + Reverse(rest + tail) == hand + (Reverse(tail) + Reverse(rest));
    assert hand + (Reverse(tail) + Reverse(rest)) == a + Reverse(rest);
    PrefixOfConcat(a, Reverse(rest));
    assert |a| == |hand| + |tail|;
  }

  lemma PrefixOfConcat<T>(a: seq<T>, b: seq<T>)
    ensures (a + b)[..|a|] == a
  {
  }

  /** A hand at which the dealer stopped is a prefix of the full draw,
      so the full draw has a prefix that stays. */
  lemma FailureMeansDeckExhausted(hand: Hand, d: Deck, h: Hand, rest: Deck)
    requires |rest| <= |d| && rest == d[..|rest|]
    requires h == hand + Reverse(d[|rest|..])
    requires Busted(h) || DealerStays(h)
    ensures exists k :: |hand| <= k <= |hand| + |d| && DealerStays((hand + Reverse(d))[..k])
  {
    BustedDealerStays(h);
    var tail := d[|rest|..];
    assert rest + tail == d;
    DrawnHandIsPrefix(hand, rest, tail);
    assert (hand + Reverse(d))[..|hand| + |tail|] == h;
  }

  lemma {:induction false} ReverseAppend<T>(a: seq<T>, b: seq<T>)
    ensures Reverse(a + b) == Reverse(b) + Reverse(a)
  {
    if |b| == 0 {
      assert a + b == a;
    } else {
      var init, last := b[..|b| - 1], b[|b| - 1];
      ReverseAppend(a, init);
      assert (a + b)[..|a + b| - 1] == a + init;
      assert (a + b)[|a + b| - 1] == last;
      assert Reverse(a + b) == [last] + Reverse(a + init);
      assert Reverse(b) == [last] + Reverse(init);
    }
  }

  /** When the hand and the deck, every ace counted as 1, reach 17, the
      hand with the whole deck drawn stays. */
  lemma EnoughCardsForTheDealer(hand: Hand, d: Deck)
    ensures HardTotal(hand) + HardTotal(d) >= DealerMaxRisk ==> DealerStays(hand + Reverse(d))
  {
    HardTotalAppend(hand, Reverse(d));
    HardTotalReverse(d);
    CorrectedAtLeastHard(hand + Reverse(d));
  }

  lemma {:induction false} HardTotalAppend(a: Hand, b: Hand)
    ensures HardTotal(a + b) == HardTotal(a) + HardTotal(b)
  {
    if |b| == 0 {
      assert a + b == a;
    } else {
      HardTotalAppend(a, b[..|b| - 1]);
      assert (a + b)[..|a + b| - 1] == a + b[..|b| - 1];
    }
  }

  lemma {:induction false} HardTotalReverse(d: Deck)
    ensures HardTotal(Reverse(d)) == HardTotal(d)
  {
    if |d| > 0 {
      var init := d[..|d| - 1];
      HardTotalReverse(init);
      assert Reverse(d) == [d[|d| - 1]] + Reverse(init);
      HardTotalAppend([d[|d| - 1]], Reverse(init));
      assert [d[|d| - 1]][..0] == [];
    }
  }
}
