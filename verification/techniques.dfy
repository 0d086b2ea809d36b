/** The per-cell deduction techniques: Sole Candidate and Unique Candidate,
    the latter in both source variants. Each is a pure function of the
    board; `None` models the source's `return false`. */
module Techniques {
  import opened Common
  import opened Digits
  import opened Grid

  /** soleCandidate: if the deduplicated values gathered from the nonet,
      row and column number eight, the ninth is 45 minus their sum. */
  function SoleCandidate(b: Board, n: int, r: int, c: int): (res: Option<int>)
    requires ValidBoard(b) && 0 <= n < 9 && 0 <= r < 9 && 0 <= c < 9
    ensures res.Some? ==> OnlyAbsent(Gathered(b, n, r, c), res.value)
    ensures res.None? ==> forall d :: !OnlyAbsent(Gathered(b, n, r, c), d)
  {
    var g := Gathered(b, n, r, c);
    var u := Dedup(g);
    MissingBySum(g);
    if |u| == 8 then Some(45 - Sum(u)) else None
  }

  /** For a cell of nonet n, Sole Candidate answers d exactly when d is the
      one digit Sudoku's rule still admits there. */
  lemma SoleCandidateForced(b: Board, r: int, c: int, d: int)
    requires ValidBoard(b) && 0 <= r < 9 && 0 <= c < 9
    ensures SoleCandidate(b, GetNonet(r, c), r, c) == Some(d) <==>
      IsDigit(d) && Admissible(b, r, c, d) && forall e | IsDigit(e) && e != d :: !Admissible(b, r, c, e)
  {
    var g := Gathered(b, GetNonet(r, c), r, c);
    forall e | IsDigit(e) ensures e in g <==> !Admissible(b, r, c, e) {
      GatheredIsForbidden(b, r, c, e);
    }
    if IsDigit(d) && Admissible(b, r, c, d) && forall e | IsDigit(e) && e != d :: !Admissible(b, r, c, e) {
      assert OnlyAbsent(g, d);
    }
  }

  /** Sole Candidate never contradicts a solution of the puzzle. */
  lemma SoleCandidateSound(b: Board, s: Board, r: int, c: int)
    requires ValidBoard(b) && Solution(b, s) && 0 <= r < 9 && 0 <= c < 9 && b[r][c] == 0
    requires SoleCandidate(b, GetNonet(r, c), r, c).Some?
    ensures SoleCandidate(b, GetNonet(r, c), r, c).value == s[r][c]
  {
    var d := SoleCandidate(b, GetNonet(r, c), r, c).value;
    SoleCandidateForced(b, r, c, d);
    SolutionAdmissible(b, s, r, c);
  }

  /** Digit d already lies in row r or column c. */
  predicate RowOrColHas(b: Board, r: int, c: int, d: int)
    requires ValidBoard(b) && 0 <= r < 9 && 0 <= c < 9
  {
    d in ExtractRow(b, r) || d in ExtractCol(b, c)
  }

  /** The pre-check on digit d: absent from the nonet, and, in the
      elimination variant only, also from the current row and column. */
  predicate PreCheck(v: Variant, b: Board, n: int, r: int, c: int, d: int)
    requires ValidBoard(b) && 0 <= n < 9 && 0 <= r < 9 && 0 <= c < 9
  {
    d !in ExtractNonet(b, n) && (v == Original || (d !in ExtractRow(b, r) && d !in ExtractCol(b, c)))
  }

  /** Every blank cell of nonet n other than (r, c) sees d in its own row
      or column. */
  predicate Winner(b: Board, n: int, r: int, c: int, d: int)
    requires ValidBoard(b) && 0 <= n < 9
  {
    forall k | 0 <= k < 9 ::
      b[NonetRow(n, k)][NonetCol(n, k)] == 0 && !RowOrColHas(b, NonetRow(n, k), NonetCol(n, k), d)
      ==> NonetRow(n, k) == r && NonetCol(n, k) == c
  }

  predicate Qualifies(v: Variant, b: Board, n: int, r: int, c: int, d: int)
    requires ValidBoard(b) && 0 <= n < 9 && 0 <= r < 9 && 0 <= c < 9
  {
    PreCheck(v, b, n, r, c, d) && Winner(b, n, r, c, d)
  }

  /** The loop `for (i = ...; i <= 9; i++)` of uniqueCandidate from i on. */
  function UniqueFrom(v: Variant, b: Board, n: int, r: int, c: int, i: int): (res: Option<int>)
    requires ValidBoard(b) && 0 <= n < 9 && 0 <= r < 9 && 0 <= c < 9 && 1 <= i <= 10
    ensures res.Some? ==> i <= res.value <= 9 && Qualifies(v, b, n, r, c, res.value)
    ensures res.Some? ==> forall d | i <= d < res.value :: !Qualifies(v, b, n, r, c, d)
    ensures res.None? ==> forall d | i <= d <= 9 :: !Qualifies(v, b, n, r, c, d)
    decreases 10 - i
  {
    if i > 9 then None
    else if PreCheck(v, b, n, r, c, i) && Winner(b, n, r, c, i) then Some(i)
    else UniqueFrom(v, b, n, r, c, i + 1)
  }

  /** uniqueCandidate: the smallest digit that passes the pre-check and
      that no other blank cell of the nonet can take. The elimination
      variant reads the current cell's row and column lists, which exist
      only for a cell of nonet n. */
  function UniqueCandidate(v: Variant, b: Board, n: int, r: int, c: int): (res: Option<int>)
    requires ValidBoard(b) && 0 <= n < 9 && 0 <= r < 9 && 0 <= c < 9
    requires v == Elimination ==> GetNonet(r, c) == n
    ensures res.Some? ==> IsDigit(res.value) && Qualifies(v, b, n, r, c, res.value)
    ensures res.Some? ==> forall d | 1 <= d < res.value :: !Qualifies(v, b, n, r, c, d)
    ensures res.None? ==> forall d | 1 <= d <= 9 :: !Qualifies(v, b, n, r, c, d)
  {
    UniqueFrom(v, b, n, r, c, 1)
  }

  /** The elimination variant only returns digits Sudoku's rule admits. */
  lemma UniqueCandidateLegal(b: Board, r: int, c: int)
    requires ValidBoard(b) && 0 <= r < 9 && 0 <= c < 9
    requires UniqueCandidate(Elimination, b, GetNonet(r, c), r, c).Some?
    ensures Admissible(b, r, c, UniqueCandidate(Elimination, b, GetNonet(r, c), r, c).value)
  {
    var d := UniqueCandidate(Elimination, b, GetNonet(r, c), r, c).value;
    LegalIsAdmissible(b, r, c, d);
  }

  /** Both variants never contradict a solution of the puzzle: the digit
      must sit somewhere in the nonet, not in a filled cell, and not in a
      blank cell whose row or column already holds it. */
  lemma UniqueCandidateSound(v: Variant, b: Board, s: Board, r: int, c: int)
    requires ValidBoard(b) && Solution(b, s) && 0 <= r < 9 && 0 <= c < 9 && b[r][c] == 0
    requires UniqueCandidate(v, b, GetNonet(r, c), r, c).Some?
    ensures UniqueCandidate(v, b, GetNonet(r, c), r, c).value == s[r][c]
  {
    var n := GetNonet(r, c);
    var d := UniqueCandidate(v, b, n, r, c).value;
    NonetHasEveryDigit(s, n, d);
    var k :| 0 <= k < 9 && s[NonetRow(n, k)][NonetCol(n, k)] == d;
    var rk, ck := NonetRow(n, k), NonetCol(n, k);
    assert b[rk][ck] == 0;
    assert rk == r && ck == c;
  }

  /** A consistent board on which digit 1 has no legal cell left in nonet 0:
      row 0 holds 1 at column 3, and columns 1 and 2 hold 1 further down. */
  const GapBoard: Board := [
    [0, 0, 0, 1, 0, 0, 0, 0, 0],
    [2, 0, 0, 0, 0, 0, 0, 0, 0],
    [3, 0, 0, 0, 0, 0, 0, 0, 0],
    [0, 1, 0, 0, 0, 0, 0, 0, 0],
    [0, 0, 0, 0, 0, 0, 0, 0, 0],
    [0, 0, 0, 0, 0, 0, 0, 0, 0],
    [0, 0, 1, 0, 0, 0, 0, 0, 0],
    [0, 0, 0, 0, 0, 0, 0, 0, 0],
    [0, 0, 0, 0, 0, 0, 0, 0, 0]
  ]

  /** The older uniqueCandidate, which pre-checks only the nonet, returns 1
      for cell (0, 0) although row 0 already holds 1; the elimination
      variant does not. */
  lemma OriginalUniqueWritesConflict()
    ensures ValidBoard(GapBoard)
    ensures UniqueCandidate(Original, GapBoard, 0, 0, 0) == Some(1)
    ensures !Admissible(GapBoard, 0, 0, 1)
    ensures UniqueCandidate(Elimination, GapBoard, 0, 0, 0) != Some(1)
  {
    GapBoardFacts();
    GapWinner();
    assert Qualifies(Original, GapBoard, 0, 0, 0, 1);
    assert !PreCheck(Elimination, GapBoard, 0, 0, 0, 1);
  }

  lemma GapValid()
    ensures ValidBoard(GapBoard)
  {
  }

  lemma GapBoardFacts()
    ensures ValidBoard(GapBoard)
    ensures 1 in ExtractRow(GapBoard, 0)
    ensures 1 in ExtractCol(GapBoard, 1)
    ensures 1 in ExtractCol(GapBoard, 2)
    ensures 1 !in ExtractNonet(GapBoard, 0)
  {
    GapValid();
    var b := GapBoard;
    assert b[0][3] == 1 && b[3][1] == 1 && b[6][2] == 1;
    assert forall k | 0 <= k < 9 :: b[NonetRow(0, k)][NonetCol(0, k)] != 1;
  }

  lemma GapWinner()
    ensures ValidBoard(GapBoard)
    ensures Winner(GapBoard, 0, 0, 0, 1)
  {
    GapBoardFacts();
    GapGivenCells();
    forall k | 0 <= k < 9
      ensures GapBoard[NonetRow(0, k)][NonetCol(0, k)] == 0 && !RowOrColHas(GapBoard, NonetRow(0, k), NonetCol(0, k), 1)
        ==> NonetRow(0, k) == 0 && NonetCol(0, k) == 0
    {
      if k != 0 && k != 3 && k != 6 {
        GapBlockedCell(k);
      }
    }
  }

  /** Cells 1, 2, 4, 5, 7, 8 of nonet 0 see a 1 in their row or column. */
  lemma GapBlockedCell(k: int)
    requires 0 < k < 9 && k != 3 && k != 6
    ensures ValidBoard(GapBoard)
    ensures RowOrColHas(GapBoard, NonetRow(0, k), NonetCol(0, k), 1)
  {
    GapBoardFacts();
    if k < 3 {
      assert NonetRow(0, k) == 0;
    } else if k == 4 || k == 7 {
      assert NonetCol(0, k) == 1;
    } else {
      assert NonetCol(0, k) == 2;
    }
  }

  /** Cells 3 and 6 of nonet 0 are filled. */
  lemma GapGivenCells()
    ensures ValidBoard(GapBoard)
    ensures GapBoard[NonetRow(0, 3)][NonetCol(0, 3)] != 0
    ensures GapBoard[NonetRow(0, 6)][NonetCol(0, 6)] != 0
  {
    GapValid();
    assert NonetRow(0, 3) == 1 && NonetRow(0, 6) == 2;
    assert NonetCol(0, 3) == 0 && NonetCol(0, 6) == 0;
  }
}
