/** The recursive solver: depth-first search over the blank cells in
    row-major order, trying digits 1 to 9 in ascending order. The source
    mutates one global board and resets a cell to blank when every digit
    failed there; here the board is threaded through explicitly and each
    call returns its success flag with the board it leaves behind. */
module Backtracking {
  import opened Common
  import opened Digits
  import opened Grid

  // ---------------------------------------------------------------------
  // findNextNull

  /** Cell (r', c') comes before cell (r, c) in row-major order. */
  predicate Before(r': int, c': int, r: int, c: int) {
    r' < r || (r' == r && c' < c)
  }

  /** The inner loop of findNextNull: the first blank of row r from column c. */
  function FindInRow(b: Board, r: int, c: int): (res: Option<(int, int)>)
    requires ValidBoard(b) && 0 <= r < 9 && 0 <= c <= 9
    ensures res.None? <==> forall k | c <= k < 9 :: b[r][k] != 0
    ensures res.Some? ==> res.value.0 == r && c <= res.value.1 < 9 && b[r][res.value.1] == 0
    ensures res.Some? ==> forall k | c <= k < res.value.1 :: b[r][k] != 0
    decreases 9 - c
  {
    if c == 9 then None
    else if b[r][c] == 0 then Some((r, c))
    else FindInRow(b, r, c + 1)
  }

  /** The outer loop of findNextNull, from row r on. */
  function FindFromRow(b: Board, r: int): (res: Option<(int, int)>)
    requires ValidBoard(b) && 0 <= r <= 9
    ensures res.None? <==> forall r', c' | r <= r' < 9 && 0 <= c' < 9 :: b[r'][c'] != 0
    ensures res.Some? ==> r <= res.value.0 < 9 && 0 <= res.value.1 < 9 && b[res.value.0][res.value.1] == 0
    ensures res.Some? ==> forall r', c' | r <= r' < 9 && 0 <= c' < 9 && Before(r', c', res.value.0, res.value.1) :: b[r'][c'] != 0
    decreases 9 - r
  {
    if r == 9 then None
    else
      match FindInRow(b, r, Start())
      case Some(rc) => Some(rc)
      case None => FindFromRow(b, r + 1)
  }

  /** findNextNull: the first blank cell in row-major order, or None (the
      source's `false`) when there is none. */
  function FindNextNull(b: Board): (res: Option<(int, int)>)
    requires ValidBoard(b)
    ensures res.Some? ==> 0 <= res.value.0 < 9 && 0 <= res.value.1 < 9 && b[res.value.0][res.value.1] == 0
  {
    FindFromRow(b, Start())
  }

  /** findNextNull reports no blank exactly when the board is full. */
  lemma FindNextNullNone(b: Board)
    requires ValidBoard(b)
    ensures FindNextNull(b).None? <==> Full(b)
  {
  }

  /** findNextNull returns (r, c) exactly when (r, c) is blank and every
      cell before it in row-major order is filled. */
  lemma FindNextNullFirst(b: Board, r: int, c: int)
    requires ValidBoard(b) && 0 <= r < 9 && 0 <= c < 9
    ensures FindNextNull(b) == Some((r, c)) <==>
      b[r][c] == 0 && forall r', c' | 0 <= r' < 9 && 0 <= c' < 9 && Before(r', c', r, c) :: b[r'][c'] != 0
  {
    var res := FindNextNull(b);
    if b[r][c] == 0 && forall r', c' | 0 <= r' < 9 && 0 <= c' < 9 && Before(r', c', r, c) :: b[r'][c'] != 0 {
      assert res.Some?;
      var (r1, c1) := res.value;
      assert !Before(r1, c1, r, c);
      assert !Before(r, c, r1, c1);
    }
  }

  // ---------------------------------------------------------------------
  // Counting blank cells

  function Blank(x: int): nat {
    if x == 0 then 1 else 0
  }

  /** Blank cells at flat positions p..80, position p being cell (p / 9, p % 9). */
  function BlanksFrom(b: Board, p: int): nat
    requires ValidBoard(b) && 0 <= p <= 81
    decreases 81 - p
  {
    if p == 81 then 0 else Blank(b[p / 9][p % 9]) + BlanksFrom(b, p + 1)
  }

  /** The number of blank cells of the board. */
  function Blanks(b: Board): nat
    requires ValidBoard(b)
  {
    BlanksFrom(b, Start())
  }

  lemma {:induction false} BlanksFromSet(b: Board, r: int, c: int, v: int, p: int)
    requires ValidBoard(b) && 0 <= r < 9 && 0 <= c < 9 && 0 <= v <= 9 && 0 <= p <= 81
    ensures BlanksFrom(Set(b, r, c, v), p) + (if p <= 9 * r + c then Blank(b[r][c]) else 0)
         == BlanksFrom(b, p) + (if p <= 9 * r + c then Blank(v) else 0)
    decreases 81 - p
  {
    if p < 81 {
      BlanksFromSet(b, r, c, v, p + 1);
      assert p == 9 * (p / 9) + p % 9;
      assert p / 9 == r && p % 9 == c <==> p == 9 * r + c;
    }
  }

  /** Overwriting one cell changes the blank count by that cell alone. */
  lemma BlanksSet(b: Board, r: int, c: int, v: int)
    requires ValidBoard(b) && 0 <= r < 9 && 0 <= c < 9 && 0 <= v <= 9
    ensures Blanks(Set(b, r, c, v)) + Blank(b[r][c]) == Blanks(b) + Blank(v)
  {
    BlanksFromSet(b, r, c, v, Start());
  }

  /** Writing a cell's own value back leaves the board as it is. */
  lemma SetSame(b: Board, r: int, c: int)
    requires ValidBoard(b) && 0 <= r < 9 && 0 <= c < 9
    ensures Set(b, r, c, b[r][c]) == b
  {
    assert b[r][c := b[r][c]] == b[r];
  }

  /** A second write to a cell hides the first. */
  lemma SetTwice(b: Board, r: int, c: int, v: int, w: int)
    requires ValidBoard(b) && 0 <= r < 9 && 0 <= c < 9 && 0 <= v <= 9 && 0 <= w <= 9
    ensures Set(Set(b, r, c, v), r, c, w) == Set(b, r, c, w)
  {
    assert b[r][c := v][c := w] == b[r][c := w];
  }

  /** Writing a digit into the blank of a board: one blank fewer. */
  lemma TrialFewerBlanks(cur: Board, r: int, c: int, d: int)
    requires ValidBoard(cur) && 0 <= r < 9 && 0 <= c < 9 && IsDigit(d)
    ensures Blanks(Set(cur, r, c, d)) < Blanks(Set(cur, r, c, 0))
  {
    var base := Set(cur, r, c, 0);
    SetTwice(cur, r, c, 0, d);
    BlanksSet(base, r, c, d);
  }

  // ---------------------------------------------------------------------
  // solveRecursive

  /** solveRecursive on board b: `true` with the completed board, or
      `false` with the board exactly as it was on entry. */
  function Solve(b: Board): (res: (bool, Board))
    requires ValidBoard(b)
    ensures ValidBoard(res.1)
    ensures res.0 ==> Full(res.1)
    ensures !res.0 ==> res.1 == b
    ensures FillsBlanks(b, res.1)
    decreases Blanks(b), 1, 0
  {
    match FindNextNull(b)
    case None =>
      FindNextNullNone(b);
      (true, b)
    case Some((r, c)) =>
      SetSame(b, r, c);
      TryDigits(b, r, c, 1)
  }

  /** The digit loop of solveRecursive at blank (r, c), from digit i on.
      `cur` is the board with (r, c) blank or holding the last digit tried,
      which the next failing attempt leaves in place; after digit 9 the
      cell is reset to blank. */
  function TryDigits(cur: Board, r: int, c: int, i: int): (res: (bool, Board))
    requires ValidBoard(cur) && 0 <= r < 9 && 0 <= c < 9 && 1 <= i <= 10
    requires cur[r][c] < i
    ensures ValidBoard(res.1)
    ensures res.0 ==> Full(res.1)
    ensures !res.0 ==> res.1 == Set(cur, r, c, 0)
    ensures FillsBlanks(Set(cur, r, c, 0), res.1)
    decreases Blanks(Set(cur, r, c, 0)), 0, 10 - i
  {
    if i == 10 then (false, Set(cur, r, c, 0))
    else if Legal(cur, r, c, i) then
      var trial := Set(cur, r, c, i);
      TrialFewerBlanks(cur, r, c, i);
      var rec := Solve(trial);
      SetTwice(cur, r, c, i, 0);
      if rec.0 then rec else TryDigits(rec.1, r, c, i + 1)
    else TryDigits(cur, r, c, i + 1)
  }

  /** The last digit tried, left in the current cell, does not change the
      legality test for a later digit. */
  lemma LegalIgnoresTrial(cur: Board, r: int, c: int, d: int)
    requires ValidBoard(cur) && 0 <= r < 9 && 0 <= c < 9 && IsDigit(d) && cur[r][c] != d
    ensures Legal(cur, r, c, d) <==> Admissible(Set(cur, r, c, 0), r, c, d)
  {
    LegalIsAdmissible(cur, r, c, d);
    LegalIsAdmissible(Set(cur, r, c, 0), r, c, d);
  }

  // ---------------------------------------------------------------------
  // Soundness and completeness

  /** On a puzzle without duplicates, a `true` answer is a solution of it. */
  lemma {:induction false} SolveSound(b: Board)
    requires ValidBoard(b) && Consistent(b)
    ensures Solve(b).0 ==> Solution(b, Solve(b).1)
    decreases Blanks(b), 1, 0, 0
  {
    match FindNextNull(b)
    case None =>
    case Some((r, c)) =>
      SetSame(b, r, c);
      TryDigitsSound(b, r, c, 0, 1);
  }

  /** The digit loop at blank (r, c) of `base` only succeeds with a
      solution of `base`. */
  lemma {:induction false} TryDigitsSound(base: Board, r: int, c: int, prev: int, i: int)
    requires ValidBoard(base) && 0 <= r < 9 && 0 <= c < 9 && base[r][c] == 0
    requires 0 <= prev < i <= 10 && Consistent(base)
    ensures TryDigits(Set(base, r, c, prev), r, c, i).0 ==> Solution(base, TryDigits(Set(base, r, c, prev), r, c, i).1)
    decreases Blanks(base), 0, 10 - i, 2
  {
    if i < 10 {
      if Legal(Set(base, r, c, prev), r, c, i) {
        SoundAtLegalDigit(base, r, c, prev, i);
      } else {
        TryDigitsSound(base, r, c, prev, i + 1);
      }
    }
  }

  /** A legal digit keeps the board free of duplicates, so a success
      below it is a solution, and a failure hands on to the next digit. */
  lemma {:induction false} SoundAtLegalDigit(base: Board, r: int, c: int, prev: int, i: int)
    requires ValidBoard(base) && 0 <= r < 9 && 0 <= c < 9 && base[r][c] == 0
    requires 0 <= prev < i < 10 && Consistent(base) && Legal(Set(base, r, c, prev), r, c, i)
    ensures TryDigits(Set(base, r, c, prev), r, c, i).0 ==> Solution(base, TryDigits(Set(base, r, c, prev), r, c, i).1)
    decreases Blanks(base), 0, 10 - i, 1
  {
    TrialStep(base, r, c, prev, i);
    if Solve(Set(base, r, c, i)).0 {
      SoundTrialSolved(base, r, c, prev, i);
    } else {
      TryDigitsSound(base, r, c, i, i + 1);
      SolvedAlike(TryDigits(Set(base, r, c, prev), r, c, i), TryDigits(Set(base, r, c, i), r, c, i + 1), base);
    }
  }

  /** The recursive call on the trial board succeeded: its board solves `base`. */
  lemma {:induction false} SoundTrialSolved(base: Board, r: int, c: int, prev: int, i: int)
    requires ValidBoard(base) && 0 <= r < 9 && 0 <= c < 9 && base[r][c] == 0
    requires 0 <= prev < i < 10 && Consistent(base) && Legal(Set(base, r, c, prev), r, c, i)
    ensures Solve(Set(base, r, c, i)).0 ==> Solution(base, Solve(Set(base, r, c, i)).1)
    decreases Blanks(base), 0, 10 - i, 0
  {
    var trial := Set(base, r, c, i);
    TrialConsistent(base, r, c, prev, i);
    TrialFewerBlanks(base, r, c, i);
    SetSame(base, r, c);
    SolveSound(trial);
    if Solve(trial).0 {
      SolutionOfTrial(base, r, c, i, Solve(trial).1);
    }
  }

  lemma SolvedAlike(x: (bool, Board), y: (bool, Board), base: Board)
    requires ValidBoard(base) && x == y && (y.0 ==> Solution(base, y.1))
    ensures x.0 ==> Solution(base, x.1)
  {
  }

  /** Writing a legal digit into the blank keeps the board free of duplicates. */
  lemma TrialConsistent(base: Board, r: int, c: int, prev: int, i: int)
    requires ValidBoard(base) && 0 <= r < 9 && 0 <= c < 9 && base[r][c] == 0
    requires 0 <= prev < i < 10 && Consistent(base) && Legal(Set(base, r, c, prev), r, c, i)
    ensures Consistent(Set(base, r, c, i))
  {
    SetTwice(base, r, c, prev, 0);
    SetSame(base, r, c);
    LegalIgnoresTrial(Set(base, r, c, prev), r, c, i);
    WriteKeepsConsistent(base, r, c, i);
  }

  /** One step of the digit loop at a legal digit, on boards written from `base`. */
  lemma TrialStep(base: Board, r: int, c: int, prev: int, i: int)
    requires ValidBoard(base) && 0 <= r < 9 && 0 <= c < 9 && base[r][c] == 0
    requires 0 <= prev < i < 10 && Legal(Set(base, r, c, prev), r, c, i)
    ensures TryDigits(Set(base, r, c, prev), r, c, i) ==
      if Solve(Set(base, r, c, i)).0 then Solve(Set(base, r, c, i))
      else TryDigits(Set(base, r, c, i), r, c, i + 1)
  {
    SetTwice(base, r, c, prev, i);
  }

  /** One step of the digit loop at an illegal digit: on to the next. */
  lemma SkipStep(cur: Board, r: int, c: int, i: int)
    requires ValidBoard(cur) && 0 <= r < 9 && 0 <= c < 9 && 0 <= cur[r][c] < i < 10
    requires !Legal(cur, r, c, i)
    ensures TryDigits(cur, r, c, i) == TryDigits(cur, r, c, i + 1)
  {
  }

  /** A solution of the board with a digit written into a blank is a
      solution of the board itself. */
  lemma SolutionOfTrial(base: Board, r: int, c: int, d: int, s: Board)
    requires ValidBoard(base) && 0 <= r < 9 && 0 <= c < 9 && base[r][c] == 0 && IsDigit(d)
    requires Solution(Set(base, r, c, d), s)
    ensures Solution(base, s)
  {
  }

  /** A puzzle that has a solution is never answered `false`: the search
      misses no legal completion. */
  lemma {:induction false} SolveComplete(b: Board, s: Board)
    requires ValidBoard(b) && Solution(b, s)
    ensures Solve(b).0
    decreases Blanks(b), 1, 0, 0
  {
    match FindNextNull(b)
    case None =>
    case Some((r, c)) =>
      SetSame(b, r, c);
      TryDigitsComplete(b, r, c, 0, 1, s);
  }

  /** The digit loop at blank (r, c) of `base`, with `prev` (0 or the last
      digit tried) in the cell, succeeds while the solution's digit is
      still ahead. */
  lemma {:induction false} TryDigitsComplete(base: Board, r: int, c: int, prev: int, i: int, s: Board)
    requires ValidBoard(base) && 0 <= r < 9 && 0 <= c < 9 && base[r][c] == 0
    requires 0 <= prev < i <= 10 && Solution(base, s) && i <= s[r][c]
    ensures TryDigits(Set(base, r, c, prev), r, c, i).0
    decreases Blanks(base), 0, 10 - i, 1
  {
    if i == s[r][c] {
      CompleteAtDigit(base, r, c, prev, s);
    } else {
      CompleteBeforeDigit(base, r, c, prev, i, s);
    }
  }

  /** At the solution's digit the trial board has that solution, so the
      recursive call succeeds. */
  lemma {:induction false} CompleteAtDigit(base: Board, r: int, c: int, prev: int, s: Board)
    requires ValidBoard(base) && 0 <= r < 9 && 0 <= c < 9 && base[r][c] == 0
    requires Solution(base, s) && 0 <= prev < s[r][c]
    ensures TryDigits(Set(base, r, c, prev), r, c, s[r][c]).0
    decreases Blanks(base), 0, 10 - s[r][c], 0
  {
    var cur := Set(base, r, c, prev);
    var d := s[r][c];
    SolutionDigitTried(base, r, c, prev, s);
    SetTwice(base, r, c, prev, d);
    SetTwice(base, r, c, prev, 0);
    SetSame(base, r, c);
    TrialFewerBlanks(cur, r, c, d);
    SolveComplete(Set(base, r, c, d), s);
  }

  /** Before the solution's digit, a digit either completes the board or
      fails and leaves the loop to go on with the next digit. */
  lemma {:induction false} CompleteBeforeDigit(base: Board, r: int, c: int, prev: int, i: int, s: Board)
    requires ValidBoard(base) && 0 <= r < 9 && 0 <= c < 9 && base[r][c] == 0
    requires 0 <= prev < i && Solution(base, s) && i < s[r][c]
    ensures TryDigits(Set(base, r, c, prev), r, c, i).0
    decreases Blanks(base), 0, 10 - i, 0
  {
    if Legal(Set(base, r, c, prev), r, c, i) {
      TrialStep(base, r, c, prev, i);
      if !Solve(Set(base, r, c, i)).0 {
        TryDigitsComplete(base, r, c, i, i + 1, s);
      }
    } else {
      SkipStep(Set(base, r, c, prev), r, c, i);
      TryDigitsComplete(base, r, c, prev, i + 1, s);
    }
  }

  /** When the search reaches the solution's digit at (r, c), that digit
      passes the legality test and the solution still extends the board
      with it written. */
  lemma SolutionDigitTried(base: Board, r: int, c: int, prev: int, s: Board)
    requires ValidBoard(base) && 0 <= r < 9 && 0 <= c < 9 && base[r][c] == 0
    requires Solution(base, s) && 0 <= prev < s[r][c]
    ensures Legal(Set(base, r, c, prev), r, c, s[r][c])
    ensures Solution(Set(base, r, c, s[r][c]), s)
  {
    SolutionAdmissible(base, s, r, c);
    SetTwice(base, r, c, prev, 0);
    SetSame(base, r, c);
    LegalIgnoresTrial(Set(base, r, c, prev), r, c, s[r][c]);
    SolutionAfterWrite(base, s, r, c);
  }

  /** solveRecursive answers `true` exactly when the puzzle has a legal
      completion, provided the givens hold no duplicate. */
  lemma SolveIffSolvable(b: Board)
    requires ValidBoard(b) && Consistent(b)
    ensures Solve(b).0 <==> exists s :: Solution(b, s)
  {
    SolveSound(b);
    if exists s :: Solution(b, s) {
      var s :| Solution(b, s);
      SolveComplete(b, s);
    }
  }
}
