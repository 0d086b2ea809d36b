/** The 9x9 board and its geometric queries: nonet (3x3 block) numbering,
    extraction of row, column and nonet values, and the board-level
    predicates the rest of the model states its properties with.
    A board cell holds 0 for blank (the source's `null`) or a digit 1..9. */
module Grid {
  import opened Digits

  type Board = seq<seq<int>>

  predicate ValidBoard(b: Board) {
    && |b| == 9
    && (forall r | 0 <= r < 9 :: |b[r]| == 9)
    && (forall r, c | 0 <= r < 9 && 0 <= c < 9 :: 0 <= b[r][c] <= 9)
  }

  /** Top-left (row, column) of nonet `n`, as the source's switch lists it. */
  function NonetXY(n: int): (rc: (int, int))
    requires 0 <= n < 9
    ensures rc == (3 * (n / 3), 3 * (n % 3))
  {
    if n == 0 then (0, 0)
    else if n == 1 then (0, 3)
    else if n == 2 then (0, 6)
    else if n == 3 then (3, 0)
    else if n == 4 then (3, 3)
    else if n == 5 then (3, 6)
    else if n == 6 then (6, 0)
    else if n == 7 then (6, 3)
    else (6, 6)
  }

  /** Nonet number of cell (r, c), by the source's nested comparisons. */
  function GetNonet(r: int, c: int): (n: int)
    requires 0 <= r < 9 && 0 <= c < 9
    ensures 0 <= n < 9
    ensures n == 3 * (r / 3) + c / 3
    ensures NonetXY(n) == (3 * (r / 3), 3 * (c / 3))
  {
    if r < 3 then (if c < 3 then 0 else if c < 6 then 1 else 2)
    else if r < 6 then (if c < 3 then 3 else if c < 6 then 4 else 5)
    else (if c < 3 then 6 else if c < 6 then 7 else 8)
  }

  /** Row and column of the k-th cell (row-major) of nonet n. */
  function NonetRow(n: int, k: int): (r: int)
    requires 0 <= n < 9 && 0 <= k < 9
    ensures 0 <= r < 9
  {
    NonetXY(n).0 + k / 3
  }

  function NonetCol(n: int, k: int): (c: int)
    requires 0 <= n < 9 && 0 <= k < 9
    ensures 0 <= c < 9
  {
    NonetXY(n).1 + k % 3
  }

  /** Cell (r, c) lies in the 3x3 square anchored at NonetXY(n). */
  predicate InNonet(n: int, r: int, c: int)
    requires 0 <= n < 9
  {
    NonetXY(n).0 <= r < NonetXY(n).0 + 3 && NonetXY(n).1 <= c < NonetXY(n).1 + 3
  }

  predicate SameNonet(r1: int, c1: int, r2: int, c2: int) {
    r1 / 3 == r2 / 3 && c1 / 3 == c2 / 3
  }

  /** The nine squares partition the board: each cell lies in exactly the
      square of its own nonet number. */
  lemma NonetPartition(n: int, r: int, c: int)
    requires 0 <= n < 9 && 0 <= r < 9 && 0 <= c < 9
    ensures InNonet(n, r, c) <==> n == GetNonet(r, c)
  {
  }

  /** Every cell is the k-th cell of its nonet for exactly one k, and the
      k-th cell of nonet n lies in nonet n. */
  lemma NonetIndex(r: int, c: int) returns (k: int)
    requires 0 <= r < 9 && 0 <= c < 9
    ensures 0 <= k < 9
    ensures NonetRow(GetNonet(r, c), k) == r && NonetCol(GetNonet(r, c), k) == c
  {
    k := 3 * (r % 3) + c % 3;
  }

  lemma NonetCellsInNonet(n: int, k: int)
    requires 0 <= n < 9 && 0 <= k < 9
    ensures GetNonet(NonetRow(n, k), NonetCol(n, k)) == n
    ensures InNonet(n, NonetRow(n, k), NonetCol(n, k))
  {
  }

  lemma NonetCellsDistinct(n: int, k1: int, k2: int)
    requires 0 <= n < 9 && 0 <= k1 < 9 && 0 <= k2 < 9 && k1 != k2
    ensures NonetRow(n, k1) != NonetRow(n, k2) || NonetCol(n, k1) != NonetCol(n, k2)
    ensures SameNonet(NonetRow(n, k1), NonetCol(n, k1), NonetRow(n, k2), NonetCol(n, k2))
  {
    NonetCellBlock(n, k1);
    NonetCellBlock(n, k2);
  }

  lemma NonetCellBlock(n: int, k: int)
    requires 0 <= n < 9 && 0 <= k < 9
    ensures NonetRow(n, k) / 3 == n / 3 && NonetCol(n, k) / 3 == n % 3
  {
    var q := n / 3;
    assert 3 * q <= NonetRow(n, k) < 3 * q + 3;
    assert 3 * (n % 3) <= NonetCol(n, k) < 3 * (n % 3) + 3;
  }

  /** The non-blank values of a list, in order. */
  function NonZero(s: seq<int>): (r: seq<int>)
    ensures forall x :: x in r <==> x in s && x != 0
    ensures |r| <= |s|
  {
    if |s| == 0 then []
    else if s[0] != 0 then [s[0]] + NonZero(s[1..])
    else NonZero(s[1..])
  }

  function Column(b: Board, c: int): (col: seq<int>)
    requires ValidBoard(b) && 0 <= c < 9
    ensures |col| == 9 && forall r | 0 <= r < 9 :: col[r] == b[r][c]
  {
    seq(9, r requires 0 <= r < 9 => b[r][c])
  }

  /** extractRow: the non-blank values of row r. */
  function ExtractRow(b: Board, r: int): (vals: seq<int>)
    requires ValidBoard(b) && 0 <= r < 9
    ensures forall v :: v in vals <==> v != 0 && exists c | 0 <= c < 9 :: b[r][c] == v
  {
    NonZero(b[r])
  }

  /** extractCol: the non-blank values of column c. */
  function ExtractCol(b: Board, c: int): (vals: seq<int>)
    requires ValidBoard(b) && 0 <= c < 9
    ensures forall v :: v in vals <==> v != 0 && exists r | 0 <= r < 9 :: b[r][c] == v
  {
    NonZero(Column(b, c))
  }

  /** extractNonetAll: the nine cells of nonet n, blanks included, row-major. */
  function ExtractNonetAll(b: Board, n: int): (vals: seq<int>)
    requires ValidBoard(b) && 0 <= n < 9
    ensures |vals| == 9
    ensures forall k | 0 <= k < 9 :: vals[k] == b[NonetRow(n, k)][NonetCol(n, k)]
  {
    var (r0, c0) := NonetXY(n);
    var vals := b[r0][c0..c0 + 3] + b[r0 + 1][c0..c0 + 3] + b[r0 + 2][c0..c0 + 3];
    assert forall k | 0 <= k < 9 :: vals[k] == b[NonetRow(n, k)][NonetCol(n, k)] by {
      forall k | 0 <= k < 9 ensures vals[k] == b[NonetRow(n, k)][NonetCol(n, k)] {
        if k < 3 { } else if k < 6 { } else { }
      }
    }
    vals
  }

  /** extractNonetUnique (and extractNonet of the recursive solver): the
      non-blank values of nonet n. */
  function ExtractNonet(b: Board, n: int): (vals: seq<int>)
    requires ValidBoard(b) && 0 <= n < 9
    ensures forall v :: v in vals <==> v != 0 && exists k | 0 <= k < 9 :: b[NonetRow(n, k)][NonetCol(n, k)] == v
  {
    NonZero(ExtractNonetAll(b, n))
  }

  /** The values soleCandidate and trackerObjUpdate gather for a cell:
      nonet n's, then row r's, then column c's non-blank values. */
  function Gathered(b: Board, n: int, r: int, c: int): (g: seq<int>)
    requires ValidBoard(b) && 0 <= n < 9 && 0 <= r < 9 && 0 <= c < 9
    ensures AllDigits(g)
    ensures forall v :: v in g <==> v in ExtractNonet(b, n) || v in ExtractRow(b, r) || v in ExtractCol(b, c)
  {
    var g := ExtractNonet(b, n) + ExtractRow(b, r) + ExtractCol(b, c);
    assert AllDigits(g) by {
      forall i | 0 <= i < |g| ensures IsDigit(g[i]) {
        assert g[i] in g;
      }
    }
    g
  }

  /** For a cell's own nonet, a digit is gathered exactly when Sudoku's
      rule forbids it there. */
  lemma GatheredIsForbidden(b: Board, r: int, c: int, d: int)
    requires ValidBoard(b) && 0 <= r < 9 && 0 <= c < 9 && d != 0
    ensures d in Gathered(b, GetNonet(r, c), r, c) <==> !Admissible(b, r, c, d)
  {
    LegalIsAdmissible(b, r, c, d);
  }

  /** The board with cell (r, c) overwritten by v. */
  function Set(b: Board, r: int, c: int, v: int): (b': Board)
    requires ValidBoard(b) && 0 <= r < 9 && 0 <= c < 9 && 0 <= v <= 9
    ensures ValidBoard(b')
    ensures b'[r][c] == v
    ensures forall r2, c2 | 0 <= r2 < 9 && 0 <= c2 < 9 && (r2 != r || c2 != c) :: b'[r2][c2] == b[r2][c2]
  {
    b[r := b[r][c := v]]
  }

  /** Every non-blank cell of b keeps its value in b', so no given and no
      earlier deduction is ever overwritten or blanked. */
  predicate FillsBlanks(b: Board, b': Board)
    requires ValidBoard(b) && ValidBoard(b')
  {
    forall r, c | 0 <= r < 9 && 0 <= c < 9 :: b[r][c] != 0 ==> b'[r][c] == b[r][c]
  }

  /** The legality test the source applies before writing digit d at (r, c):
      absent from the cell's nonet, row and column values. */
  predicate Legal(b: Board, r: int, c: int, d: int)
    requires ValidBoard(b) && 0 <= r < 9 && 0 <= c < 9
  {
    d !in ExtractNonet(b, GetNonet(r, c)) && d !in ExtractRow(b, r) && d !in ExtractCol(b, c)
  }

  /** Sudoku's rule, stated cell by cell: no cell sharing a row, column or
      nonet with (r, c) holds d. */
  ghost predicate Admissible(b: Board, r: int, c: int, d: int)
    requires ValidBoard(b) && 0 <= r < 9 && 0 <= c < 9
  {
    && (forall k | 0 <= k < 9 :: b[r][k] != d)
    && (forall k | 0 <= k < 9 :: b[k][c] != d)
    && (forall r2, c2 | 0 <= r2 < 9 && 0 <= c2 < 9 && SameNonet(r, c, r2, c2) :: b[r2][c2] != d)
  }

  lemma NonetMembers(b: Board, r: int, c: int, d: int)
    requires ValidBoard(b) && 0 <= r < 9 && 0 <= c < 9 && d != 0
    ensures d in ExtractNonet(b, GetNonet(r, c)) <==>
            exists r2, c2 | 0 <= r2 < 9 && 0 <= c2 < 9 && SameNonet(r, c, r2, c2) :: b[r2][c2] == d
  {
    var n := GetNonet(r, c);
    if d in ExtractNonet(b, n) {
      var k :| 0 <= k < 9 && b[NonetRow(n, k)][NonetCol(n, k)] == d;
      assert SameNonet(r, c, NonetRow(n, k), NonetCol(n, k));
    }
    if exists r2, c2 | 0 <= r2 < 9 && 0 <= c2 < 9 && SameNonet(r, c, r2, c2) :: b[r2][c2] == d {
      var r2, c2 :| 0 <= r2 < 9 && 0 <= c2 < 9 && SameNonet(r, c, r2, c2) && b[r2][c2] == d;
      assert GetNonet(r2, c2) == n;
      var k := NonetIndex(r2, c2);
      assert b[NonetRow(n, k)][NonetCol(n, k)] == d;
    }
  }

  /** The source's extraction-based test is exactly Sudoku's rule. */
  lemma LegalIsAdmissible(b: Board, r: int, c: int, d: int)
    requires ValidBoard(b) && 0 <= r < 9 && 0 <= c < 9 && d != 0
    ensures Legal(b, r, c, d) <==> Admissible(b, r, c, d)
  {
    NonetMembers(b, r, c, d);
  }

  predicate Full(b: Board)
    requires ValidBoard(b)
  {
    forall r, c | 0 <= r < 9 && 0 <= c < 9 :: b[r][c] != 0
  }

  /** No row, column or nonet holds the same digit twice. */
  ghost predicate Consistent(b: Board)
    requires ValidBoard(b)
  {
    && (forall r, c1, c2 | 0 <= r < 9 && 0 <= c1 < 9 && 0 <= c2 < 9 && c1 != c2 ::
          b[r][c1] != 0 ==> b[r][c1] != b[r][c2])
    && (forall r1, r2, c | 0 <= r1 < 9 && 0 <= r2 < 9 && 0 <= c < 9 && r1 != r2 ::
          b[r1][c] != 0 ==> b[r1][c] != b[r2][c])
    && (forall r1, c1, r2, c2 | 0 <= r1 < 9 && 0 <= c1 < 9 && 0 <= r2 < 9 && 0 <= c2 < 9
          && SameNonet(r1, c1, r2, c2) && (r1 != r2 || c1 != c2) ::
          b[r1][c1] != 0 ==> b[r1][c1] != b[r2][c2])
  }

  /** s agrees with every non-blank cell of b. */
  ghost predicate Extends(s: Board, b: Board)
    requires ValidBoard(s) && ValidBoard(b)
  {
    forall r, c | 0 <= r < 9 && 0 <= c < 9 :: b[r][c] != 0 ==> s[r][c] == b[r][c]
  }

  /** s is a legal completion of the puzzle b. */
  ghost predicate Solution(b: Board, s: Board)
    requires ValidBoard(b)
  {
    ValidBoard(s) && Full(s) && Consistent(s) && Extends(s, b)
  }

  /** Writing a digit Sudoku's rule admits keeps a board consistent. */
  lemma WriteKeepsConsistent(b: Board, r: int, c: int, d: int)
    requires ValidBoard(b) && 0 <= r < 9 && 0 <= c < 9 && IsDigit(d)
    requires Consistent(b) && Admissible(b, r, c, d)
    ensures Consistent(Set(b, r, c, d))
  {
    var b' := Set(b, r, c, d);
    forall r1, c1, r2, c2 | 0 <= r1 < 9 && 0 <= c1 < 9 && 0 <= r2 < 9 && 0 <= c2 < 9
      && SameNonet(r1, c1, r2, c2) && (r1 != r2 || c1 != c2) && b'[r1][c1] != 0
      ensures b'[r1][c1] != b'[r2][c2]
    {
      if r1 == r && c1 == c {
        assert SameNonet(r, c, r2, c2);
      } else if r2 == r && c2 == c {
        assert SameNonet(r, c, r1, c1);
      }
    }
  }

  /** A puzzle that has a solution is itself consistent. */
  lemma SolutionConsistent(b: Board, s: Board)
    requires ValidBoard(b) && Solution(b, s)
    ensures Consistent(b)
  {
  }

  /** In a puzzle with solution s, the solution's digit is admissible at
      every blank cell. */
  lemma SolutionAdmissible(b: Board, s: Board, r: int, c: int)
    requires ValidBoard(b) && Solution(b, s) && 0 <= r < 9 && 0 <= c < 9 && b[r][c] == 0
    ensures Admissible(b, r, c, s[r][c])
  {
    forall r2, c2 | 0 <= r2 < 9 && 0 <= c2 < 9 && SameNonet(r, c, r2, c2)
      ensures b[r2][c2] != s[r][c]
    {
      if b[r2][c2] != 0 {
        assert s[r2][c2] == b[r2][c2];
      }
    }
  }

  /** Writing the solution's digit keeps s a solution. */
  lemma SolutionAfterWrite(b: Board, s: Board, r: int, c: int)
    requires ValidBoard(b) && Solution(b, s) && 0 <= r < 9 && 0 <= c < 9
    ensures Solution(Set(b, r, c, s[r][c]), s)
  {
  }

  lemma ConsistentNonetPair(s: Board, r1: int, c1: int, r2: int, c2: int)
    requires ValidBoard(s) && Full(s) && Consistent(s)
    requires 0 <= r1 < 9 && 0 <= c1 < 9 && 0 <= r2 < 9 && 0 <= c2 < 9
    requires SameNonet(r1, c1, r2, c2) && (r1 != r2 || c1 != c2)
    ensures s[r1][c1] != s[r2][c2]
  {
  }

  /** Pigeonhole on a nonet of a completed consistent board: every digit
      occurs in it. */
  lemma NonetHasEveryDigit(s: Board, n: int, d: int)
    requires ValidBoard(s) && Full(s) && Consistent(s) && 0 <= n < 9 && IsDigit(d)
    ensures exists k | 0 <= k < 9 :: s[NonetRow(n, k)][NonetCol(n, k)] == d
  {
    var vals := ExtractNonetAll(s, n);
    forall i, j | 0 <= i < j < 9 ensures vals[i] != vals[j] {
      NonetCellsDistinct(n, i, j);
      ConsistentNonetPair(s, NonetRow(n, i), NonetCol(n, i), NonetRow(n, j), NonetCol(n, j));
    }
    NineDistinctDigits(vals);
    assert d in vals;
  }

  /** errorCheckBoard's test: every nonet, row and column holds each digit. */
  predicate ErrorFree(b: Board)
    requires ValidBoard(b)
  {
    forall i, j | 0 <= i < 9 && 1 <= j <= 9 ::
      j in ExtractNonet(b, i) && j in ExtractRow(b, i) && j in ExtractCol(b, i)
  }

  /** errorCheckBoard finds no error exactly on completed consistent boards. */
  lemma ErrorFreeIffSolved(b: Board)
    requires ValidBoard(b)
    ensures ErrorFree(b) <==> Full(b) && Consistent(b)
  {
    if ErrorFree(b) {
      ErrorFreeSolved(b);
    }
    if Full(b) && Consistent(b) {
      forall i, j | 0 <= i < 9 && 1 <= j <= 9
        ensures j in ExtractNonet(b, i) && j in ExtractRow(b, i) && j in ExtractCol(b, i)
      {
        NonetHasEveryDigit(b, i, j);
        var row := b[i];
        assert NoDup(row) && AllDigits(row) by {
          forall c1, c2 | 0 <= c1 < c2 < 9 ensures row[c1] != row[c2] { }
        }
        NineDistinctDigits(row);
        var col := Column(b, i);
        assert NoDup(col) && AllDigits(col) by {
          forall r1, r2 | 0 <= r1 < r2 < 9 ensures col[r1] != col[r2] { }
        }
        NineDistinctDigits(col);
        assert j in col;
      }
    }
  }

  lemma ErrorFreeSolved(b: Board)
    requires ValidBoard(b) && ErrorFree(b)
    ensures Full(b) && Consistent(b)
  {
    forall r, c | 0 <= r < 9 && 0 <= c < 9 ensures b[r][c] != 0 {
      ErrorFreeRow(b, r);
      assert IsDigit(b[r][c]);
    }
    forall r, c1, c2 | 0 <= r < 9 && 0 <= c1 < 9 && 0 <= c2 < 9 && c1 != c2
      ensures b[r][c1] != b[r][c2]
    {
      ErrorFreeRow(b, r);
      if c1 < c2 { assert b[r][c1] != b[r][c2]; } else { assert b[r][c2] != b[r][c1]; }
    }
    forall r1, r2, c | 0 <= r1 < 9 && 0 <= r2 < 9 && 0 <= c < 9 && r1 != r2
      ensures b[r1][c] != b[r2][c]
    {
      ErrorFreeCol(b, c);
      var col := Column(b, c);
      if r1 < r2 { assert col[r1] != col[r2]; } else { assert col[r2] != col[r1]; }
    }
    forall r1, c1, r2, c2 | 0 <= r1 < 9 && 0 <= c1 < 9 && 0 <= r2 < 9 && 0 <= c2 < 9
      && SameNonet(r1, c1, r2, c2) && (r1 != r2 || c1 != c2)
      ensures b[r1][c1] != b[r2][c2]
    {
      ErrorFreeNonetPair(b, r1, c1, r2, c2);
    }
  }

  lemma ErrorFreeRow(b: Board, r: int)
    requires ValidBoard(b) && ErrorFree(b) && 0 <= r < 9
    ensures NoDup(b[r]) && AllDigits(b[r])
  {
    forall d | 1 <= d <= 9 ensures d in b[r] {
      assert d in ExtractRow(b, r);
    }
    NineCoveringValues(b[r]);
  }

  lemma ErrorFreeCol(b: Board, c: int)
    requires ValidBoard(b) && ErrorFree(b) && 0 <= c < 9
    ensures NoDup(Column(b, c)) && AllDigits(Column(b, c))
  {
    forall d | 1 <= d <= 9 ensures d in Column(b, c) {
      assert d in ExtractCol(b, c);
    }
    NineCoveringValues(Column(b, c));
  }

  lemma ErrorFreeNonetPair(b: Board, r1: int, c1: int, r2: int, c2: int)
    requires ValidBoard(b) && ErrorFree(b)
    requires 0 <= r1 < 9 && 0 <= c1 < 9 && 0 <= r2 < 9 && 0 <= c2 < 9
    requires SameNonet(r1, c1, r2, c2) && (r1 != r2 || c1 != c2)
    ensures b[r1][c1] != b[r2][c2]
  {
    var n := GetNonet(r1, c1);
    assert GetNonet(r2, c2) == n;
    var vals := ExtractNonetAll(b, n);
    forall d | 1 <= d <= 9 ensures d in vals {
      assert d in ExtractNonet(b, n);
    }
    NineCoveringValues(vals);
    var k1 := NonetIndex(r1, c1);
    var k2 := NonetIndex(r2, c2);
    assert k1 != k2;
    if k1 < k2 { assert vals[k1] != vals[k2]; } else { assert vals[k2] != vals[k1]; }
  }

  /** No cell of nonet n is blank. */
  predicate NonetFull(b: Board, n: int)
    requires ValidBoard(b) && 0 <= n < 9
  {
    forall k | 0 <= k < 9 :: b[NonetRow(n, k)][NonetCol(n, k)] != 0
  }

  /** updateNonetStatus's test: on a consistent board, a nonet's cells sum
      to 45 (blank counted as 0) exactly when the nonet is full. */
  lemma NonetSumFull(b: Board, n: int)
    requires ValidBoard(b) && Consistent(b) && 0 <= n < 9
    ensures Sum(ExtractNonetAll(b, n)) == 45 <==> NonetFull(b, n)
  {
    var vals := ExtractNonetAll(b, n);
    forall i, j | 0 <= i < j < 9 && vals[i] != 0 ensures vals[i] != vals[j] {
      NonetCellsDistinct(n, i, j);
    }
    NineSumTest(vals);
    assert 0 in vals <==> !NonetFull(b, n);
  }

  /** When every nonet is full, so is the board. */
  lemma NonetsFullBoard(b: Board)
    requires ValidBoard(b)
    requires forall n | 0 <= n < 9 :: NonetFull(b, n)
    ensures Full(b)
  {
    forall r, c | 0 <= r < 9 && 0 <= c < 9 ensures b[r][c] != 0 {
      var k := NonetIndex(r, c);
      assert NonetFull(b, GetNonet(r, c));
    }
  }
}
