/** Properties of the tic-tac-toe board: the geometry of the winning lines,
    what a reset and a placement do to the queries, and set-level readings of
    the counting tests in the threat and win scans. */
module TicTacToeBoardLemmas {
  import opened Outcomes
  import opened TicTacToeBoard

  // ---------------------------------------------------------------------------
  // Geometry of WINNING_LINES

  /** Row and column of key k on the 3x3 grid, counted from 0. */
  function Row(k: Key): int { (k - 1) / 3 }
  function Col(k: Key): int { (k - 1) % 3 }

  /** Three cells lie on one straight line of the grid. */
  predicate Collinear(a: Key, b: Key, c: Key)
  {
    (Row(b) - Row(a)) * (Col(c) - Col(a)) == (Row(c) - Row(a)) * (Col(b) - Col(a))
  }

  /** WINNING_LINES lists 8 triples of distinct keys: rows 0..2 top to bottom,
      then columns 0..2 left to right, then the two diagonals. */
  lemma WinningLinesShape()
    ensures |WinningLines| == 8
    ensures forall i :: 0 <= i < 8 ==>
      |WinningLines[i]| == 3 && WinningLines[i][0] < WinningLines[i][1] < WinningLines[i][2]
    ensures forall i :: 0 <= i < 3 ==> forall p :: 0 <= p < 3 ==>
      Row(WinningLines[i][p]) == i && Col(WinningLines[i][p]) == p
    ensures forall i :: 3 <= i < 6 ==> forall p :: 0 <= p < 3 ==>
      Col(WinningLines[i][p]) == i - 3 && Row(WinningLines[i][p]) == p
    ensures forall p :: 0 <= p < 3 ==>
      Row(WinningLines[6][p]) == p && Col(WinningLines[6][p]) == p
    ensures forall p :: 0 <= p < 3 ==>
      Row(WinningLines[7][p]) == p && Col(WinningLines[7][p]) == 2 - p
  {
  }

  /** Row and column of a key without division. */
  lemma RowCol(k: Key)
    ensures Row(k) == (if k <= 3 then 0 else if k <= 6 then 1 else 2)
    ensures Col(k) == k - 1 - 3 * Row(k)
  {
  }

  /** Membership of a triple in WINNING_LINES, one disjunct per line. */
  lemma LineMembership(a: Key, b: Key, c: Key)
    ensures [a, b, c] in WinningLines <==>
      || (a, b, c) == (1, 2, 3) || (a, b, c) == (4, 5, 6) || (a, b, c) == (7, 8, 9)
      || (a, b, c) == (1, 4, 7) || (a, b, c) == (2, 5, 8) || (a, b, c) == (3, 6, 9)
      || (a, b, c) == (1, 5, 9) || (a, b, c) == (3, 5, 7)
  {
    var t := [a, b, c];
    assert t[0] == a && t[1] == b && t[2] == c;
  }

  /** The eight lines are exactly the straight three-in-a-rows of the grid:
      an ascending triple of keys is a winning line iff it is collinear. */
  lemma WinningLinesAreGridLines(a: Key, b: Key, c: Key)
    requires a < b < c
    ensures Collinear(a, b, c) <==> [a, b, c] in WinningLines
  {
    LineMembership(a, b, c);
    RowCol(a);
    RowCol(b);
    RowCol(c);
    // The split on a and b gives the solver one small case each; without
    // it the arithmetic on Row and Col is expensive on some solver seeds.
    if a == 1 {
      if b == 2 { } else if b == 3 { } else if b == 4 { } else if b == 5 { }
      else if b == 6 { } else if b == 7 { } else { }
    } else if a == 2 {
      if b == 3 { } else if b == 4 { } else if b == 5 { } else if b == 6 { }
      else if b == 7 { } else { }
    } else if a == 3 {
      if b == 4 { } else if b == 5 { } else if b == 6 { } else if b == 7 { } else { }
    } else if a == 4 {
      if b == 5 { } else if b == 6 { } else if b == 7 { } else { }
    } else if a == 5 {
      if b == 6 { } else if b == 7 { } else { }
    } else if a == 6 {
    } else {
    }
  }

  // ---------------------------------------------------------------------------
  // Lines of three

  lemma LineOfThree(j: int)
    requires 0 <= j < |WinningLines|
    ensures |WinningLines[j]| == 3
  {
  }

  lemma LineMarkers(b: Board, line: seq<Key>)
    requires |line| == 3
    ensures MarkersIn(b, line) == [At(b, line[0]).marker, At(b, line[1]).marker, At(b, line[2]).marker]
  {
  }

  lemma Count3(x: char, y: char, z: char, c: char)
    ensures Count([x, y, z], c) == (if x == c then 1 else 0) + (if y == c then 1 else 0) + (if z == c then 1 else 0)
  {
    assert [x, y, z][1..] == [y, z];
    assert [y, z][1..] == [z];
    assert [z][1..] == [];
    assert Count([z], c) == (if z == c then 1 else 0) + Count([], c);
    assert Count([y, z], c) == (if y == c then 1 else 0) + Count([z], c);
    assert Count([x, y, z], c) == (if x == c then 1 else 0) + Count([y, z], c);
  }

  lemma MarkedMarkers3(x: Square, y: Square, z: Square)
    ensures MarkedMarkers([x, y, z]) ==
      (if x.Marked() then [x.marker] else []) + (if y.Marked() then [y.marker] else []) +
      (if z.Marked() then [z.marker] else [])
  {
    assert [x, y, z][1..] == [y, z];
    assert [y, z][1..] == [z];
    assert [z][1..] == [];
    assert MarkedMarkers([z]) == (if z.Marked() then [z.marker] else []) + MarkedMarkers([]);
    assert MarkedMarkers([y, z]) == (if y.Marked() then [y.marker] else []) + MarkedMarkers([z]);
    assert MarkedMarkers([x, y, z]) == (if x.Marked() then [x.marker] else []) + MarkedMarkers([y, z]);
  }

  lemma Uniq3(x: char, y: char, z: char)
    ensures |Uniq([x, y, z])| == 1 <==> x == y == z
  {
    assert [x, y, z][..2] == [x, y];
    assert [x, y][..1] == [x];
    assert [x][..0] == [];
    assert Uniq([x]) == [x];
    assert Uniq([x, y]) == if y == x then [x] else [x, y];
    var u2 := Uniq([x, y]);
    assert Uniq([x, y, z]) == if z in u2 then u2 else u2 + [z];
  }

  lemma LineSquares(b: Board, line: seq<Key>)
    requires |line| == 3
    ensures SquaresIn(b, line) == [At(b, line[0]), At(b, line[1]), At(b, line[2])]
  {
  }

  // ---------------------------------------------------------------------------
  // Reset

  /** After Board#reset all nine keys are free and the board is not full. */
  lemma ResetUnmarked()
    ensures UnmarkedSquares(Reset()) == [1, 2, 3, 4, 5, 6, 7, 8, 9]
    ensures !Full(Reset())
  {
    var b := Reset();
    UnmarkedCount(b);
    assert MarkedCount(b, 9) == 0;
    AscendingFullRange(UnmarkedSquares(b));
  }

  /** After Board#reset nobody has won. */
  lemma ResetNoWinner()
    ensures WinningMarker(Reset()) == None
  {
    var b := Reset();
    forall j | 0 <= j < |WinningLines|
      ensures !LineWon(b, j)
    {
      LineOfThree(j);
      var line := WinningLines[j];
      LineSquares(b, line);
      var x, y, z := At(b, line[0]), At(b, line[1]), At(b, line[2]);
      assert x.Unmarked() && y.Unmarked() && z.Unmarked();
      MarkedMarkers3(x, y, z);
    }
  }

  /** After Board#reset no marker threatens a square, the blank included. */
  lemma ResetNoThreat(m: char)
    ensures SquareThreatenedBy(Reset(), m) == None
  {
    var b := Reset();
    forall j | 0 <= j < |WinningLines|
      ensures !Threat(b, m, WinningLines[j])
    {
      LineOfThree(j);
      var line := WinningLines[j];
      LineMarkers(b, line);
      assert At(b, line[0]).Unmarked() && At(b, line[1]).Unmarked() && At(b, line[2]).Unmarked();
      Count3(InitialMarker, InitialMarker, InitialMarker, m);
    }
  }

  /** A strictly ascending list of nine keys is 1..9. */
  lemma AscendingFullRange(u: seq<Key>)
    requires Ascending(u) && |u| == 9
    ensures u == [1, 2, 3, 4, 5, 6, 7, 8, 9]
  {
    forall i | 0 <= i < 9
      ensures u[i] == i + 1
    {
      AscendingBounds(u, i);
    }
  }

  lemma {:induction false} AscendingBounds(u: seq<Key>, i: nat)
    requires Ascending(u) && i < |u|
    ensures u[i] >= i + 1
    ensures u[i] <= 9 - (|u| - 1 - i)
  {
    if i > 0 {
      AscendingBounds(u, i - 1);
    }
    if i < |u| - 1 {
      AscendingBoundsUp(u, i);
    }
  }

  lemma {:induction false} AscendingBoundsUp(u: seq<Key>, i: nat)
    requires Ascending(u) && i < |u|
    ensures u[i] <= 9 - (|u| - 1 - i)
    decreases |u| - i
  {
    if i < |u| - 1 {
      AscendingBoundsUp(u, i + 1);
    }
  }

  // ---------------------------------------------------------------------------
  // Placement

  /** The list with every occurrence of x dropped. */
  function Remove(s: seq<Key>, x: Key): seq<Key>
  {
    if |s| == 0 then [] else (if s[0] == x then [] else [s[0]]) + Remove(s[1..], x)
  }

  lemma {:induction false} PlaceUnmarkedFrom(b: Board, k: Key, m: char, from: int)
    requires At(b, k).Unmarked() && m != InitialMarker
    requires 1 <= from <= 10
    ensures UnmarkedFrom(Place(b, k, m), from) == Remove(UnmarkedFrom(b, from), k)
    decreases 10 - from
  {
    if from < 10 {
      PlaceUnmarkedFrom(b, k, m, from + 1);
      var rest := UnmarkedFrom(b, from + 1);
      if At(b, from).Unmarked() {
        assert ([from as Key] + rest)[1..] == rest;
      }
    }
  }

  lemma {:induction false} RemovePresentOnce(s: seq<Key>, x: Key)
    requires Ascending(s) && x in s
    ensures |Remove(s, x)| == |s| - 1
  {
    if s[0] == x {
      RemoveAbsent(s[1..], x);
    } else {
      RemovePresentOnce(s[1..], x);
    }
  }

  lemma {:induction false} RemoveAbsent(s: seq<Key>, x: Key)
    requires x !in s
    ensures Remove(s, x) == s
  {
    if |s| > 0 {
      RemoveAbsent(s[1..], x);
      assert [s[0]] + s[1..] == s;
    }
  }

  /** Board#[]= at a free key k changes square k only; the free keys lose
      exactly k, keep their ascending order, and number one fewer. */
  lemma PlaceShrinksUnmarked(b: Board, k: Key, m: char)
    requires At(b, k).Unmarked() && m != InitialMarker
    ensures forall j: Key :: j != k ==> At(Place(b, k, m), j) == At(b, j)
    ensures UnmarkedSquares(Place(b, k, m)) == Remove(UnmarkedSquares(b), k)
    ensures k !in UnmarkedSquares(Place(b, k, m))
    ensures |UnmarkedSquares(Place(b, k, m))| == |UnmarkedSquares(b)| - 1
  {
    PlaceUnmarkedFrom(b, k, m, 1);
    RemovePresentOnce(UnmarkedSquares(b), k);
  }

  lemma {:induction false} UnmarkedFromCount(b: Board, from: int)
    requires 1 <= from <= 10
    ensures |UnmarkedFrom(b, from)| == (10 - from) - (MarkedCount(b, 9) - MarkedCount(b, from - 1))
    decreases 10 - from
  {
    if from < 10 {
      UnmarkedFromCount(b, from + 1);
    }
  }

  /** The free keys number nine minus the marked squares. */
  lemma UnmarkedCount(b: Board)
    ensures |UnmarkedSquares(b)| == 9 - MarkedCount(b, 9)
  {
    UnmarkedFromCount(b, 1);
  }

  // ---------------------------------------------------------------------------
  // Threats

  /** One blank and two m among three markers is the multiset {m, m, blank}. */
  lemma TwoAndBlank(x: char, y: char, z: char, m: char)
    requires m != InitialMarker
    ensures (Count([x, y, z], InitialMarker) == 1 && Count([x, y, z], m) == 2)
      <==> multiset{x, y, z} == multiset{m, m, InitialMarker}
  {
    Count3(x, y, z, m);
    Count3(x, y, z, InitialMarker);
    var target := multiset{m, m, InitialMarker};
    if multiset{x, y, z} == target {
      assert x in target && y in target && z in target;
      assert multiset{x, y, z}[m] == 2;
    }
  }

  /** For a real marker m the counting test of square_threatened_by says
      that the line's markers are m, m and one blank, in some order. */
  lemma ThreatIsTwoAndBlank(b: Board, m: char, line: seq<Key>)
    requires |line| == 3 && m != InitialMarker
    ensures Threat(b, m, line) <==> multiset(MarkersIn(b, line)) == multiset{m, m, InitialMarker}
  {
    LineMarkers(b, line);
    var x, y, z := At(b, line[0]).marker, At(b, line[1]).marker, At(b, line[2]).marker;
    assert multiset([x, y, z]) == multiset{x, y, z};
    TwoAndBlank(x, y, z, m);
  }

  /** square_threatened_by(m) is None exactly when no winning line holds m,
      m and a blank; otherwise it is the blank square of the first line, in
      WINNING_LINES order, that does. */
  lemma ThreatenedSquareSpec(b: Board, m: char)
    requires m != InitialMarker
    ensures SquareThreatenedBy(b, m).None? <==>
      forall j :: 0 <= j < |WinningLines| ==>
        multiset(MarkersIn(b, WinningLines[j])) != multiset{m, m, InitialMarker}
    ensures SquareThreatenedBy(b, m).Some? ==> exists j :: (0 <= j < |WinningLines|
      && multiset(MarkersIn(b, WinningLines[j])) == multiset{m, m, InitialMarker}
      && (forall l :: 0 <= l < j ==> multiset(MarkersIn(b, WinningLines[l])) != multiset{m, m, InitialMarker})
      && SquareThreatenedBy(b, m).value in WinningLines[j]
      && At(b, SquareThreatenedBy(b, m).value).Unmarked())
  {
    forall j | 0 <= j < |WinningLines|
      ensures Threat(b, m, WinningLines[j]) <==>
        multiset(MarkersIn(b, WinningLines[j])) == multiset{m, m, InitialMarker}
    {
      LineOfThree(j);
      ThreatIsTwoAndBlank(b, m, WinningLines[j]);
    }
  }

  // ---------------------------------------------------------------------------
  // Winner

  /** For a line of three, three_identical_markers? says that all three
      squares carry the same real marker. */
  lemma ThreeIdenticalIsCompleted(b: Board, line: seq<Key>)
    requires |line| == 3
    ensures ThreeIdenticalMarkers(SquaresIn(b, line)) <==> CompletedBy(b, line, At(b, line[0]).marker)
  {
    LineSquares(b, line);
    var x, y, z := At(b, line[0]), At(b, line[1]), At(b, line[2]);
    MarkedMarkers3(x, y, z);
    Uniq3(x.marker, y.marker, z.marker);
    assert forall k :: k in line ==> k == line[0] || k == line[1] || k == line[2];
    if CompletedBy(b, line, x.marker) {
      assert line[1] in line && line[2] in line;
      assert MarkedMarkers([x, y, z]) == [x.marker, y.marker, z.marker];
    }
    if ThreeIdenticalMarkers(SquaresIn(b, line)) {
      assert x.Marked() && y.Marked() && z.Marked();
      assert MarkedMarkers([x, y, z]) == [x.marker, y.marker, z.marker];
      assert x.marker == y.marker == z.marker;
    }
  }

  /** A winning line is won exactly when its first square's marker
      completes it, and no other marker can complete it. */
  lemma LineVerdict(b: Board, j: nat)
    requires j < |WinningLines|
    ensures LineWon(b, j) <==> CompletedBy(b, WinningLines[j], At(b, WinningLines[j][0]).marker)
    ensures forall m :: CompletedBy(b, WinningLines[j], m) ==> m == At(b, WinningLines[j][0]).marker
  {
    LineOfThree(j);
    ThreeIdenticalIsCompleted(b, WinningLines[j]);
    assert WinningLines[j][0] in WinningLines[j];
  }

  /** winning_marker never answers the blank. */
  lemma WinningMarkerNotBlank(b: Board)
    ensures WinningMarker(b).Some? ==> WinningMarker(b).value != InitialMarker
  {
    var w := WinningMarker(b);
    if w.Some? {
      var j :| 0 <= j < |WinningLines| && LineWon(b, j) && w.value == At(b, WinningLines[j][0]).marker;
      LineVerdict(b, j);
    }
  }

  /** winning_marker answers None exactly when no marker completes any
      winning line. */
  lemma WinningMarkerNone(b: Board)
    ensures WinningMarker(b).None? <==>
      forall j, m :: 0 <= j < |WinningLines| ==> !CompletedBy(b, WinningLines[j], m)
  {
    if WinningMarker(b).None? {
      forall j, m | 0 <= j < |WinningLines|
        ensures !CompletedBy(b, WinningLines[j], m)
      {
        LineVerdict(b, j);
      }
    } else {
      var j :| 0 <= j < |WinningLines| && LineWon(b, j);
      LineVerdict(b, j);
    }
  }

  /** The marker winning_marker answers completes a winning line, and no
      earlier line is completed by any marker. */
  lemma WinningMarkerFirstLine(b: Board)
    ensures WinningMarker(b).Some? ==> exists j :: (0 <= j < |WinningLines|
      && CompletedBy(b, WinningLines[j], WinningMarker(b).value)
      && forall l, m :: 0 <= l < j ==> !CompletedBy(b, WinningLines[l], m))
  {
    var w := WinningMarker(b);
    if w.Some? {
      var j :| 0 <= j < |WinningLines| && LineWon(b, j)
        && (forall l :: 0 <= l < j ==> !LineWon(b, l))
        && w.value == At(b, WinningLines[j][0]).marker;
      LineVerdict(b, j);
      forall l, m | 0 <= l < j
        ensures !CompletedBy(b, WinningLines[l], m)
      {
        LineVerdict(b, l);
      }
    }
  }

  /** winning_marker never answers the blank; it answers None exactly when
      no line is completed; otherwise it answers the marker of the first
      completed line. */
  lemma WinningMarkerSpec(b: Board)
    ensures WinningMarker(b).Some? ==> WinningMarker(b).value != InitialMarker
    ensures WinningMarker(b).None? <==>
      forall j, m :: 0 <= j < |WinningLines| ==> !CompletedBy(b, WinningLines[j], m)
    ensures WinningMarker(b).Some? ==> exists j :: (0 <= j < |WinningLines|
      && CompletedBy(b, WinningLines[j], WinningMarker(b).value)
      && forall l, m :: 0 <= l < j ==> !CompletedBy(b, WinningLines[l], m))
  {
    WinningMarkerNotBlank(b);
    WinningMarkerNone(b);
    WinningMarkerFirstLine(b);
  }

  /** A line completed by m makes someone the winner (8 positive cases). */
  lemma CompletedLineWins(b: Board, j: nat, m: char)
    requires j < |WinningLines| && CompletedBy(b, WinningLines[j], m)
    ensures SomeoneWon(b)
  {
    WinningMarkerSpec(b);
  }

  /** Board#someone_won? holds exactly when some marker completes some
      winning line. */
  lemma SomeoneWonIffCompletedLine(b: Board)
    ensures SomeoneWon(b) <==> exists j, m :: 0 <= j < |WinningLines| && CompletedBy(b, WinningLines[j], m)
  {
    WinningMarkerNone(b);
  }

  // ---------------------------------------------------------------------------
  // Free squares

  /** Board#full? holds exactly when all nine squares are marked. */
  lemma FullIffAllMarked(b: Board)
    ensures Full(b) <==> forall k: Key :: At(b, k).Marked()
  {
    var free := UnmarkedSquares(b);
    if !Full(b) {
      assert free[0] in free;
    }
  }

  /** Board#center_available? holds exactly when key 5 is among the free
      keys, so a full board never offers the centre. */
  lemma CenterAvailableIffFree(b: Board)
    ensures CenterAvailable(b) <==> 5 in UnmarkedSquares(b)
    ensures Full(b) ==> !CenterAvailable(b)
  {
  }

  /** Board#square_threatened_by?(m) holds exactly when some winning line
      holds two of m and one blank; a threatened board is never full. */
  lemma ThreatenedIffSomeLine(b: Board, m: char)
    requires m != InitialMarker
    ensures SquareThreatenedByQ(b, m) <==> exists j :: (0 <= j < |WinningLines| &&
      multiset(MarkersIn(b, WinningLines[j])) == multiset{m, m, InitialMarker})
    ensures SquareThreatenedByQ(b, m) ==> !Full(b)
  {
    ThreatenedSquareSpec(b, m);
    if SquareThreatenedByQ(b, m) {
      assert SquareThreatenedBy(b, m).value in UnmarkedSquares(b);
    }
  }
}
