/** The candidate tracker (`trackerObj`): for every cell, an ascending list
    of digits still possible there. Keys "r{row}c{col}" become indices. */
module Tracker {
  import opened Digits
  import opened Grid

  type Cands = seq<seq<seq<int>>>

  predicate Shaped(t: Cands) {
    |t| == 9 && forall r | 0 <= r < 9 :: |t[r]| == 9
  }

  predicate Ascending(l: seq<int>) {
    forall i, j | 0 <= i < j < |l| :: l[i] < l[j]
  }

  /** Every list holds digits only, in strictly ascending order. */
  predicate WellFormed(t: Cands) {
    && Shaped(t)
    && CandDigits(t)
    && (forall r, c | 0 <= r < 9 && 0 <= c < 9 :: Ascending(t[r][c]))
  }

  /** `a` is obtained from `b` by deleting elements. */
  predicate Sublist(a: seq<int>, b: seq<int>)
    decreases |b|
  {
    if |b| == 0 then |a| == 0
    else (|a| > 0 && a[0] == b[0] && Sublist(a[1..], b[1..])) || Sublist(a, b[1..])
  }

  lemma {:induction false} SublistFacts(a: seq<int>, b: seq<int>)
    requires Sublist(a, b)
    ensures |a| <= |b|
    ensures forall x :: x in a ==> x in b
    ensures Ascending(b) ==> Ascending(a)
    decreases |b|
  {
    if |b| > 0 {
      if |a| > 0 && a[0] == b[0] && Sublist(a[1..], b[1..]) {
        SublistFacts(a[1..], b[1..]);
        assert a == [a[0]] + a[1..];
        if Ascending(b) {
          assert Ascending(b[1..]);
          forall i, j | 0 <= i < j < |a| ensures a[i] < a[j] {
            if i > 0 {
              assert a[i] == a[1..][i - 1] && a[j] == a[1..][j - 1];
            } else {
              assert a[j] == a[1..][j - 1];
              assert a[j] in b[1..];
            }
          }
        }
      } else {
        SublistFacts(a, b[1..]);
        if Ascending(b) {
          assert Ascending(b[1..]);
        }
      }
    }
  }

  /** Every list may shrink but never gains a value. */
  predicate Shrinks(t: Cands, t': Cands)
    requires Shaped(t) && Shaped(t')
  {
    forall r, c | 0 <= r < 9 && 0 <= c < 9 ::
      && |t'[r][c]| <= |t[r][c]|
      && (forall i | 0 <= i < |t'[r][c]| :: t'[r][c][i] in t[r][c])
  }

  lemma ShrinksTransitive(t1: Cands, t2: Cands, t3: Cands)
    requires Shaped(t1) && Shaped(t2) && Shaped(t3)
    requires Shrinks(t1, t2) && Shrinks(t2, t3)
    ensures Shrinks(t1, t3)
  {
    forall r, c, i | 0 <= r < 9 && 0 <= c < 9 && 0 <= i < |t3[r][c]|
      ensures t3[r][c][i] in t1[r][c]
    {
      var j :| 0 <= j < |t2[r][c]| && t2[r][c][j] == t3[r][c][i];
    }
  }

  const AllCandidates: seq<int> := [1, 2, 3, 4, 5, 6, 7, 8, 9]

  /** trackerObjDefaults: every cell may hold every digit. */
  function Defaults(): (t: Cands)
    ensures WellFormed(t)
    ensures forall r, c, d | 0 <= r < 9 && 0 <= c < 9 :: d in t[r][c] <==> IsDigit(d)
  {
    seq(9, _ => seq(9, _ => AllCandidates))
  }

  /** trackerObjRemove: the list without the values of `arr`, in order. */
  function Remove(l: seq<int>, arr: seq<int>): (r: seq<int>)
    ensures forall x :: x in r <==> x in l && x !in arr
    ensures Sublist(r, l)
    ensures |r| <= |l|
    ensures Ascending(l) ==> Ascending(r)
    ensures AllDigits(l) ==> AllDigits(r)
    ensures (forall i | 0 <= i < |l| :: l[i] !in arr) ==> r == l
  {
    var r := RemoveFrom(l, arr);
    SublistFacts(r, l);
    assert forall i | 0 <= i < |r| :: r[i] in l;
    r
  }

  function RemoveFrom(l: seq<int>, arr: seq<int>): (r: seq<int>)
    ensures forall x :: x in r <==> x in l && x !in arr
    ensures Sublist(r, l)
    ensures (forall i | 0 <= i < |l| :: l[i] !in arr) ==> r == l
  {
    if |l| == 0 then []
    else if l[0] !in arr then [l[0]] + RemoveFrom(l[1..], arr)
    else RemoveFrom(l[1..], arr)
  }

  /** No candidate of a blank cell is gathered from its row, column or
      nonet, and every filled cell has no candidates. */
  predicate Settled(b: Board, t: Cands)
    requires ValidBoard(b) && Shaped(t)
  {
    forall r, c | 0 <= r < 9 && 0 <= c < 9 ::
      && (b[r][c] != 0 ==> t[r][c] == [])
      && (b[r][c] == 0 ==> forall i | 0 <= i < |t[r][c]| :: t[r][c][i] !in Gathered(b, GetNonet(r, c), r, c))
  }

  /** Every filled cell has an empty candidate list. */
  predicate FilledCleared(b: Board, t: Cands)
    requires ValidBoard(b) && Shaped(t)
  {
    forall r, c | 0 <= r < 9 && 0 <= c < 9 :: b[r][c] != 0 ==> t[r][c] == []
  }

  /** trackerObjUpdate: filled cells get []; a blank cell keeps those of
      its current candidates not gathered from its nonet, row and column.
      The lists are filtered, never reset to 1..9. */
  function Rebuild(b: Board, t: Cands): (t': Cands)
    requires ValidBoard(b) && Shaped(t)
    ensures Shaped(t')
    ensures Settled(b, t')
    ensures Shrinks(t, t')
    ensures WellFormed(t) ==> WellFormed(t')
  {
    var t' := seq(9, r requires 0 <= r < 9 => seq(9, c requires 0 <= c < 9 => RebuildCell(b, t, r, c)));
    assert forall r, c | 0 <= r < 9 && 0 <= c < 9 :: t'[r][c] == RebuildCell(b, t, r, c);
    t'
  }

  /** One cell of trackerObjUpdate. */
  function RebuildCell(b: Board, t: Cands, r: int, c: int): (l: seq<int>)
    requires ValidBoard(b) && Shaped(t) && 0 <= r < 9 && 0 <= c < 9
    ensures b[r][c] != 0 ==> l == []
    ensures b[r][c] == 0 ==> forall i | 0 <= i < |l| :: l[i] !in Gathered(b, GetNonet(r, c), r, c)
    ensures |l| <= |t[r][c]| && forall i | 0 <= i < |l| :: l[i] in t[r][c]
    ensures Ascending(t[r][c]) ==> Ascending(l)
    ensures AllDigits(t[r][c]) ==> AllDigits(l)
  {
    if b[r][c] != 0 then []
    else Remove(t[r][c], Dedup(Gathered(b, GetNonet(r, c), r, c)))
  }

  /** A blank cell's rebuilt list holds exactly its old candidates that
      Sudoku's rule still admits. */
  lemma RebuildKeepsAdmissible(b: Board, t: Cands, r: int, c: int, d: int)
    requires ValidBoard(b) && Shaped(t) && 0 <= r < 9 && 0 <= c < 9 && b[r][c] == 0 && d != 0
    ensures d in Rebuild(b, t)[r][c] <==> d in t[r][c] && Admissible(b, r, c, d)
  {
    GatheredIsForbidden(b, r, c, d);
  }

  /** A settled tracker is left alone by a rebuild. */
  lemma SettledIsFixed(b: Board, t: Cands)
    requires ValidBoard(b) && Shaped(t) && Settled(b, t)
    ensures Rebuild(b, t) == t
  {
    var t' := Rebuild(b, t);
    forall r | 0 <= r < 9 ensures t'[r] == t[r] {
      forall c | 0 <= c < 9 ensures t'[r][c] == t[r][c] {
        if b[r][c] == 0 {
          var g := Dedup(Gathered(b, GetNonet(r, c), r, c));
          assert forall i | 0 <= i < |t[r][c]| :: t[r][c][i] !in g;
        }
      }
    }
  }

  /** Rebuilding twice with no board change gives the same lists. */
  lemma RebuildIdempotent(b: Board, t: Cands)
    requires ValidBoard(b) && Shaped(t)
    ensures Rebuild(b, Rebuild(b, t)) == Rebuild(b, t)
  {
    SettledIsFixed(b, Rebuild(b, t));
  }

  /** The candidates of blank cells include the digit of solution s. */
  ghost predicate Respects(b: Board, t: Cands, s: Board)
    requires ValidBoard(b) && Shaped(t) && ValidBoard(s)
  {
    forall r, c | 0 <= r < 9 && 0 <= c < 9 :: b[r][c] == 0 ==> s[r][c] in t[r][c]
  }

  /** Going from lists t to lists t' discards no digit of any solution
      of board b that t allowed. */
  ghost predicate Keeps(b: Board, t: Cands, t': Cands)
    requires ValidBoard(b) && Shaped(t) && Shaped(t')
  {
    forall sol | Solution(b, sol) && Respects(b, t, sol) :: Respects(b, t', sol)
  }

  /** A rebuild never discards a solution's digit. */
  lemma RebuildSound(b: Board, t: Cands, s: Board)
    requires ValidBoard(b) && Shaped(t) && Solution(b, s) && Respects(b, t, s)
    ensures Respects(b, Rebuild(b, t), s)
  {
    forall r, c | 0 <= r < 9 && 0 <= c < 9 && b[r][c] == 0
      ensures s[r][c] in Rebuild(b, t)[r][c]
    {
      SolutionAdmissible(b, s, r, c);
      RebuildKeepsAdmissible(b, t, r, c, s[r][c]);
    }
  }

  /** Filling more cells keeps Respects: fewer blank cells to check. */
  lemma RespectsFewerBlanks(b: Board, b': Board, t: Cands, s: Board)
    requires ValidBoard(b) && ValidBoard(b') && Shaped(t) && ValidBoard(s)
    requires Respects(b, t, s)
    requires forall r, c | 0 <= r < 9 && 0 <= c < 9 :: b[r][c] != 0 ==> b'[r][c] != 0
    ensures Respects(b', t, s)
  {
  }

  /** Every list of the tracker holds digits only. */
  predicate CandDigits(t: Cands)
    requires Shaped(t)
  {
    forall r, c | 0 <= r < 9 && 0 <= c < 9 :: AllDigits(t[r][c])
  }

  /** trackerObjCheck: the single candidate of every one-element list is
      written to its cell, then the tracker is rebuilt. */
  function ApplySingletons(b: Board, t: Cands): (res: (Board, Cands))
    requires ValidBoard(b) && Shaped(t) && CandDigits(t)
    ensures ValidBoard(res.0) && Shaped(res.1)
    ensures forall r, c | 0 <= r < 9 && 0 <= c < 9 :: |t[r][c]| == 1 ==> res.0[r][c] == t[r][c][0]
    ensures forall r, c | 0 <= r < 9 && 0 <= c < 9 :: |t[r][c]| != 1 ==> res.0[r][c] == b[r][c]
    ensures Settled(res.0, res.1)
    ensures forall r, c | 0 <= r < 9 && 0 <= c < 9 :: res.0[r][c] != 0 ==> res.1[r][c] == []
    ensures Shrinks(t, res.1)
    ensures WellFormed(t) ==> WellFormed(res.1)
    ensures FilledCleared(b, t) ==> FillsBlanks(b, res.0)
  {
    var b' := seq(9, r requires 0 <= r < 9 => seq(9, c requires 0 <= c < 9 =>
      if |t[r][c]| == 1 then t[r][c][0] else b[r][c]));
    assert forall r, c | 0 <= r < 9 && 0 <= c < 9 ::
      b'[r][c] == if |t[r][c]| == 1 then t[r][c][0] else b[r][c];
    assert ValidBoard(b') by {
      forall r, c | 0 <= r < 9 && 0 <= c < 9 ensures 0 <= b'[r][c] <= 9 {
        if |t[r][c]| == 1 {
          assert IsDigit(t[r][c][0]);
        }
      }
    }
    (b', Rebuild(b', t))
  }

  /** On a settled tracker, singleton placement only fills blank cells,
      and each digit it writes is admissible on the board it started from. */
  lemma SingletonsFillBlanksLegally(b: Board, t: Cands)
    requires ValidBoard(b) && Shaped(t) && CandDigits(t) && Settled(b, t)
    ensures forall r, c | 0 <= r < 9 && 0 <= c < 9 && b[r][c] != 0 :: ApplySingletons(b, t).0[r][c] == b[r][c]
    ensures forall r, c | 0 <= r < 9 && 0 <= c < 9 && b[r][c] == 0 && |t[r][c]| == 1 ::
      Admissible(b, r, c, ApplySingletons(b, t).0[r][c])
  {
    forall r, c | 0 <= r < 9 && 0 <= c < 9 && b[r][c] == 0 && |t[r][c]| == 1
      ensures Admissible(b, r, c, t[r][c][0])
    {
      assert IsDigit(t[r][c][0]);
      GatheredIsForbidden(b, r, c, t[r][c][0]);
    }
  }

  /** With no one-element list, singleton placement changes nothing. */
  lemma SingletonsNoop(b: Board, t: Cands)
    requires ValidBoard(b) && Shaped(t) && CandDigits(t) && Settled(b, t)
    requires forall r, c | 0 <= r < 9 && 0 <= c < 9 :: |t[r][c]| != 1
    ensures ApplySingletons(b, t) == (b, t)
  {
    var b' := ApplySingletons(b, t).0;
    forall r | 0 <= r < 9 ensures b'[r] == b[r] {
      assert forall c | 0 <= c < 9 :: b'[r][c] == b[r][c];
    }
    assert b' == b;
    SettledIsFixed(b, t);
  }

  /** Singleton placement never writes a digit that contradicts solution s
      when every filled cell has no candidates. */
  lemma SingletonsSound(b: Board, t: Cands, s: Board)
    requires ValidBoard(b) && Shaped(t) && CandDigits(t)
    requires FilledCleared(b, t)
    requires Solution(b, s) && Respects(b, t, s)
    ensures Solution(ApplySingletons(b, t).0, s)
    ensures Respects(ApplySingletons(b, t).0, ApplySingletons(b, t).1, s)
  {
    var b' := ApplySingletons(b, t).0;
    SingletonsKeepSolution(b, t, s);
    RespectsFewerBlanks(b, b', t, s);
    RebuildSound(b', t, s);
  }

  lemma SingletonsKeepSolution(b: Board, t: Cands, s: Board)
    requires ValidBoard(b) && Shaped(t) && CandDigits(t)
    requires FilledCleared(b, t)
    requires Solution(b, s) && Respects(b, t, s)
    ensures Solution(ApplySingletons(b, t).0, s)
    ensures forall r, c | 0 <= r < 9 && 0 <= c < 9 :: b[r][c] != 0 ==> ApplySingletons(b, t).0[r][c] != 0
  {
    var b' := ApplySingletons(b, t).0;
    forall r, c | 0 <= r < 9 && 0 <= c < 9 && b'[r][c] != 0 ensures s[r][c] == b'[r][c] {
      if |t[r][c]| == 1 {
        assert b[r][c] == 0;
        assert s[r][c] in t[r][c];
        assert t[r][c] == [t[r][c][0]];
      }
    }
  }
}
