/** The tic-tac-toe board of TTT_game/ttt_game_bonus.rb: nine squares keyed
    1..9, the eight winning lines, and the occupancy, threat and win queries
    the game loop and the computer player ask of it. */
module TicTacToeBoard {
  import opened Outcomes

  /** Square::INITIAL_MARKER, the marker of an empty square. */
  const InitialMarker: char := ' '

  datatype Square = Square(marker: char) {
    predicate Unmarked() { marker == InitialMarker }
    predicate Marked() { marker != InitialMarker }
  }

  /** A board key: the squares are numbered 1..9 row by row. */
  type Key = k: int | 1 <= k <= 9 witness 5

  const Blank: Square := Square(InitialMarker)

  const EmptySquares: seq<Square> := [Blank, Blank, Blank, Blank, Blank, Blank, Blank, Blank, Blank]

  /** The squares in key order: key k lives at index k - 1. */
  type Board = s: seq<Square> | |s| == 9 witness EmptySquares

  function At(b: Board, k: Key): Square { b[k - 1] }

  /** WINNING_LINES: three rows, three columns, two diagonals. */
  const WinningLines: seq<seq<Key>> :=
    [[1, 2, 3], [4, 5, 6], [7, 8, 9]] +
    [[1, 4, 7], [2, 5, 8], [3, 6, 9]] +
    [[1, 5, 9], [3, 5, 7]]

  // ---------------------------------------------------------------------------
  // Mutation

  /** Board#reset: nine fresh squares. */
  function Reset(): (b: Board)
    ensures forall k: Key :: At(b, k).Unmarked()
  {
    EmptySquares
  }

  /** Board#[]= exactly as Ruby runs it: square `k` gets marker `m`, with no
      look at the square or the marker. */
  function SetMarker(b: Board, k: Key, m: char): (b': Board)
    ensures At(b', k).marker == m
    ensures forall j: Key :: j != k ==> At(b', j) == At(b, j)
  {
    b[k - 1 := Square(m)]
  }

  /** Board#[]= as the game uses it: every caller places only on an
      unmarked square, with a real (non-blank) marker. */
  function Place(b: Board, k: Key, m: char): (b': Board)
    requires At(b, k).Unmarked()
    requires m != InitialMarker
    ensures At(b', k) == Square(m) && At(b', k).Marked()
    ensures forall j: Key :: j != k ==> At(b', j) == At(b, j)
  {
    SetMarker(b, k, m)
  }

  // ---------------------------------------------------------------------------
  // Occupancy queries

  /** Board#unmarked_squares: the keys of the empty squares, in the hash's
      insertion order, which is ascending key order. */
  function UnmarkedSquares(b: Board): (r: seq<Key>)
    ensures forall k: Key :: k in r <==> At(b, k).Unmarked()
    ensures Ascending(r)
  {
    UnmarkedFrom(b, 1)
  }

  /** The keys k with `from <= k <= 9` whose square is empty, ascending. */
  function UnmarkedFrom(b: Board, from: int): (r: seq<Key>)
    requires 1 <= from <= 10
    ensures forall k: Key :: k in r <==> from <= k && At(b, k).Unmarked()
    ensures forall i :: 0 <= i < |r| ==> from <= r[i]
    ensures Ascending(r)
    decreases 10 - from
  {
    if from == 10 then []
    else if At(b, from).Unmarked() then [from as Key] + UnmarkedFrom(b, from + 1)
    else UnmarkedFrom(b, from + 1)
  }

  predicate Ascending(s: seq<int>)
  {
    forall i, j :: 0 <= i < j < |s| ==> s[i] < s[j]
  }

  /** Board#full?: no key is left to play. */
  predicate Full(b: Board)
  {
    |UnmarkedSquares(b)| == 0
  }

  /** Board#center_available?: square 5 is empty. */
  predicate CenterAvailable(b: Board)
  {
    At(b, 5).Unmarked()
  }

  /** The number of marked squares among keys 1..n. */
  function MarkedCount(b: Board, n: nat): nat
    requires n <= 9
  {
    if n == 0 then 0 else MarkedCount(b, n - 1) + (if At(b, n).Marked() then 1 else 0)
  }

  // ---------------------------------------------------------------------------
  // Lines

  /** The markers on the squares of a line, in the line's order. */
  function MarkersIn(b: Board, line: seq<Key>): (r: seq<char>)
    ensures |r| == |line|
    ensures forall i :: 0 <= i < |line| ==> r[i] == At(b, line[i]).marker
  {
    if |line| == 0 then [] else [At(b, line[0]).marker] + MarkersIn(b, line[1..])
  }

  /** Array#count(c) */
  function Count(s: seq<char>, c: char): nat
  {
    if |s| == 0 then 0 else (if s[0] == c then 1 else 0) + Count(s[1..], c)
  }

  /** The threat test of `square_threatened_by`: one blank and two `m`. */
  predicate Threat(b: Board, m: char, line: seq<Key>)
  {
    var markers := MarkersIn(b, line);
    Count(markers, InitialMarker) == 1 && Count(markers, m) == 2
  }

  /** Every square of `line` before position `i` is marked. */
  ghost predicate MarkedBefore(b: Board, line: seq<Key>, i: int)
    requires 0 <= i <= |line|
  {
    forall p :: 0 <= p < i ==> At(b, line[p]).Marked()
  }

  /** The first unmarked square of a line, as the inner loop of
      Board#square_threatened_by finds it; None when all are marked. */
  function FirstUnmarkedIn(b: Board, line: seq<Key>): (r: Option<Key>)
    ensures r.Some? ==> r.value in line && At(b, r.value).Unmarked()
    ensures r.Some? ==> exists i :: 0 <= i < |line| && line[i] == r.value && MarkedBefore(b, line, i)
    ensures r.None? <==> forall k :: k in line ==> At(b, k).Marked()
  {
    if |line| == 0 then None
    else if At(b, line[0]).Unmarked() then Some(line[0])
    else FirstUnmarkedIn(b, line[1..])
  }

  /** A line that has a blank also has a first unmarked square. */
  lemma {:induction false} CountBlankFindsSquare(b: Board, line: seq<Key>)
    requires Count(MarkersIn(b, line), InitialMarker) > 0
    ensures FirstUnmarkedIn(b, line).Some?
  {
    if At(b, line[0]).Marked() {
      assert MarkersIn(b, line)[1..] == MarkersIn(b, line[1..]);
      CountBlankFindsSquare(b, line[1..]);
    }
  }

  /** No winning line from index `i` on is threatened by `m`. */
  ghost predicate NoThreatFrom(b: Board, m: char, i: nat)
  {
    forall j :: i <= j < |WinningLines| ==> !Threat(b, m, WinningLines[j])
  }

  /** Line `j` is the first winning line from index `i` on that `m`
      threatens. */
  ghost predicate FirstThreatFrom(b: Board, m: char, i: nat, j: int)
  {
    && i <= j < |WinningLines|
    && Threat(b, m, WinningLines[j])
    && forall l :: i <= l < j ==> !Threat(b, m, WinningLines[l])
  }

  /** The index of the first winning line that `m` threatens. */
  ghost predicate FirstThreatAt(b: Board, m: char, j: int)
  {
    FirstThreatFrom(b, m, 0, j)
  }

  /** Skipping a line that is no threat changes neither scan predicate. */
  lemma SkipNonThreat(b: Board, m: char, i: nat)
    requires i < |WinningLines| && !Threat(b, m, WinningLines[i])
    ensures NoThreatFrom(b, m, i) <==> NoThreatFrom(b, m, i + 1)
    ensures forall j :: FirstThreatFrom(b, m, i + 1, j) ==> FirstThreatFrom(b, m, i, j)
  {
  }

  /** The scan of Board#square_threatened_by from line `i` on. */
  function ThreatScan(b: Board, m: char, i: nat): (r: Option<Key>)
    requires i <= |WinningLines|
    ensures r.None? <==> NoThreatFrom(b, m, i)
    ensures r.Some? ==> At(b, r.value).Unmarked()
    ensures r.Some? ==> exists j :: FirstThreatFrom(b, m, i, j) && r == FirstUnmarkedIn(b, WinningLines[j])
    decreases |WinningLines| - i
  {
    if i == |WinningLines| then None
    else if Threat(b, m, WinningLines[i]) then
      CountBlankFindsSquare(b, WinningLines[i]);
      assert FirstThreatFrom(b, m, i, i);
      FirstUnmarkedIn(b, WinningLines[i])
    else
      SkipNonThreat(b, m, i);
      ThreatScan(b, m, i + 1)
  }

  /** Board#square_threatened_by(marker): the empty square of the first
      winning line, in WINNING_LINES order, that holds one blank and two
      `m`; None when no line does. */
  function SquareThreatenedBy(b: Board, m: char): (r: Option<Key>)
    ensures r.None? <==> forall j :: 0 <= j < |WinningLines| ==> !Threat(b, m, WinningLines[j])
    ensures r.Some? ==> At(b, r.value).Unmarked()
    ensures r.Some? ==> exists j :: FirstThreatAt(b, m, j) && r.value in WinningLines[j]
  {
    ThreatScan(b, m, 0)
  }

  /** Board#square_threatened_by?(marker) */
  predicate SquareThreatenedByQ(b: Board, m: char)
  {
    SquareThreatenedBy(b, m).Some?
  }

  // ---------------------------------------------------------------------------
  // Winner

  /** Some marked square among `squares` holds `c`. */
  ghost predicate MarkerOfMarkedSquare(squares: seq<Square>, c: char)
  {
    exists i :: 0 <= i < |squares| && squares[i].Marked() && squares[i].marker == c
  }

  /** How many of `squares` are marked. */
  ghost function MarkedSquareCount(squares: seq<Square>): nat
  {
    if |squares| == 0 then 0
    else (if squares[0].Marked() then 1 else 0) + MarkedSquareCount(squares[1..])
  }

  ghost predicate AllMarked(squares: seq<Square>)
  {
    forall i :: 0 <= i < |squares| ==> squares[i].Marked()
  }

  /** The markers of the marked squares, in order, as
      Board#three_identical_markers? collects them. */
  function MarkedMarkers(squares: seq<Square>): (r: seq<char>)
    ensures |r| <= |squares|
    ensures forall c :: c in r ==> c != InitialMarker
    ensures forall c :: c in r <==> MarkerOfMarkedSquare(squares, c)
    ensures |r| == MarkedSquareCount(squares)
    ensures |r| == |squares| <==> AllMarked(squares)
    ensures AllMarked(squares) ==> forall i :: 0 <= i < |r| ==> r[i] == squares[i].marker
  {
    if |squares| == 0 then []
    else (if squares[0].Marked() then [squares[0].marker] else []) + MarkedMarkers(squares[1..])
  }

  /** Array#uniq: first occurrences, in order. */
  function Uniq(s: seq<char>): (r: seq<char>)
    ensures forall c :: c in r <==> c in s
    ensures |r| <= |s|
  {
    if |s| == 0 then []
    else var rest := Uniq(s[..|s| - 1]);
      if s[|s| - 1] in rest then rest else rest + [s[|s| - 1]]
  }

  /** Board#three_identical_markers?(squares) */
  predicate ThreeIdenticalMarkers(squares: seq<Square>)
  {
    var markers := MarkedMarkers(squares);
    |markers| == 3 && |Uniq(markers)| == 1
  }

  /** The squares of a line, in the line's order. */
  function SquaresIn(b: Board, line: seq<Key>): (r: seq<Square>)
    ensures |r| == |line|
    ensures forall i :: 0 <= i < |line| ==> r[i] == At(b, line[i])
  {
    if |line| == 0 then [] else [At(b, line[0])] + SquaresIn(b, line[1..])
  }

  /** The line is completed by the real marker `m`. */
  ghost predicate CompletedBy(b: Board, line: seq<Key>, m: char)
  {
    m != InitialMarker && forall k :: k in line ==> At(b, k).marker == m
  }

  /** Winning line `j` holds three identical markers. */
  predicate LineWon(b: Board, j: nat)
    requires j < |WinningLines|
  {
    ThreeIdenticalMarkers(SquaresIn(b, WinningLines[j]))
  }

  /** No winning line from index `i` on has three identical markers. */
  ghost predicate NoWinFrom(b: Board, i: nat)
  {
    forall j :: i <= j < |WinningLines| ==> !LineWon(b, j)
  }

  /** Line `j` is the first winning line from index `i` on with three
      identical markers. */
  ghost predicate FirstWinFrom(b: Board, i: nat, j: int)
  {
    && i <= j < |WinningLines|
    && LineWon(b, j)
    && forall l :: i <= l < j ==> !LineWon(b, l)
  }

  /** Skipping a line without three identical markers changes neither scan
      predicate. */
  lemma SkipNonWin(b: Board, i: nat)
    requires i < |WinningLines| && !LineWon(b, i)
    ensures NoWinFrom(b, i) <==> NoWinFrom(b, i + 1)
    ensures forall j :: FirstWinFrom(b, i + 1, j) ==> FirstWinFrom(b, i, j)
  {
  }

  /** The scan of Board#winning_marker from line `i` on. */
  function WinnerScan(b: Board, i: nat): (r: Option<char>)
    requires i <= |WinningLines|
    ensures r.None? <==> NoWinFrom(b, i)
    ensures r.Some? ==> exists j :: FirstWinFrom(b, i, j) && r.value == At(b, WinningLines[j][0]).marker
    decreases |WinningLines| - i
  {
    if i == |WinningLines| then None
    else
      var squares := SquaresIn(b, WinningLines[i]);
      if ThreeIdenticalMarkers(squares) then
        assert FirstWinFrom(b, i, i);
        Some(squares[0].marker)
      else
        SkipNonWin(b, i);
        WinnerScan(b, i + 1)
  }

  /** Board#winning_marker: the marker of the first winning line whose three
      squares hold one and the same real marker; None when no line does. */
  function WinningMarker(b: Board): (r: Option<char>)
    ensures r.None? <==> forall j :: 0 <= j < |WinningLines| ==> !LineWon(b, j)
    ensures r.Some? ==> exists j :: (0 <= j < |WinningLines|
      && LineWon(b, j)
      && (forall l :: 0 <= l < j ==> !LineWon(b, l))
      && r.value == At(b, WinningLines[j][0]).marker)
  {
    WinnerScan(b, 0)
  }

  /** Board#someone_won? */
  predicate SomeoneWon(b: Board)
  {
    WinningMarker(b).Some?
  }
}
