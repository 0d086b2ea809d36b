/** Naked Subset: two cells of one line whose candidate lists are the same
    two digits claim those digits, so the other cells of that line lose
    them. Both source variants and three scan orientations share one
    definition: `Rows` and `Cols` are the intended row and column scans;
    `ColsAsWritten` is the older column scan, whose cell keys swap the
    loop indices so that it pairs and prunes along a row and may pair a
    cell with itself. */
module NakedSubset {
  import opened Common
  import opened Digits
  import opened Grid
  import opened Tracker

  datatype Orientation = Rows | Cols | ColsAsWritten

  /** The cell at position k of the line that scan step (i, j) works on:
      i is the outer loop index and j the anchor loop index. */
  function LineRow(o: Orientation, i: int, j: int, k: int): int {
    match o
    case Rows => i
    case Cols => k
    case ColsAsWritten => j
  }

  function LineCol(o: Orientation, i: int, j: int, k: int): int {
    match o
    case Rows => k
    case Cols => i
    case ColsAsWritten => k
  }

  /** Position of the anchor cell (i, j) within its line. */
  function AnchorPos(o: Orientation, i: int, j: int): int {
    if o == ColsAsWritten then i else j
  }

  function AnchorRow(o: Orientation, i: int, j: int): int {
    LineRow(o, i, j, AnchorPos(o, i, j))
  }

  function AnchorCol(o: Orientation, i: int, j: int): int {
    LineCol(o, i, j, AnchorPos(o, i, j))
  }

  /** Cell (r, c) lies on the line of scan step (i, j). */
  predicate OnLine(o: Orientation, i: int, j: int, r: int, c: int) {
    match o
    case Rows => r == i
    case Cols => c == i
    case ColsAsWritten => r == j
  }

  /** The cells a scan step reads. The row scan anchors at (i, j) and walks
      row i; the intended column scan anchors at (j, i) and walks column i.
      The older column scan anchors at (j, i) too but walks row j, so its
      partner at position i is the anchor itself. */
  lemma ScanKeys(o: Orientation, i: int, j: int)
    ensures OnLine(o, i, j, AnchorRow(o, i, j), AnchorCol(o, i, j))
    ensures o == Rows ==> AnchorRow(o, i, j) == i && AnchorCol(o, i, j) == j
    ensures o != Rows ==> AnchorRow(o, i, j) == j && AnchorCol(o, i, j) == i
    ensures o == Rows ==> forall k :: LineRow(o, i, j, k) == i && LineCol(o, i, j, k) == k
    ensures o == Cols ==> forall k :: LineRow(o, i, j, k) == k && LineCol(o, i, j, k) == i
    ensures o == ColsAsWritten ==> forall k :: LineRow(o, i, j, k) == j && LineCol(o, i, j, k) == k
    ensures o == ColsAsWritten ==> LineRow(o, i, j, i) == AnchorRow(o, i, j) && LineCol(o, i, j, i) == AnchorCol(o, i, j)
    ensures o != ColsAsWritten ==> forall k :: k != j ==> LineRow(o, i, j, k) != AnchorRow(o, i, j) || LineCol(o, i, j, k) != AnchorCol(o, i, j)
  {
  }

  /** The element at index p, or None where JavaScript reads `undefined`. */
  function At(l: seq<int>, p: nat): Option<int> {
    if p < |l| then Some(l[p]) else None
  }

  /** The removal test on a cell's list l for the pair pS: more than two
      candidates and, in the elimination variant, both pair digits present. */
  predicate Triggered(v: Variant, l: seq<int>, pS: seq<int>)
    requires |pS| == 2
  {
    |l| > 2 && (v == Original || (pS[0] in l && pS[1] in l))
  }

  /** The match test of a partner list p against the anchor's list a. */
  predicate Matches(a: seq<int>, p: seq<int>) {
    |p| == 2 && At(a, 0) == At(p, 0) && At(a, 1) == At(p, 1)
  }

  /** A match copies the anchor's first two candidates. */
  lemma MatchesPair(a: seq<int>, p: seq<int>)
    requires Matches(a, p)
    ensures |a| >= 2 && p == [a[0], a[1]]
  {
    assert At(p, 0) == Some(p[0]) && At(p, 1) == Some(p[1]);
  }

  function Put(t: Cands, r: int, c: int, l: seq<int>): (t': Cands)
    requires Shaped(t) && 0 <= r < 9 && 0 <= c < 9
    ensures Shaped(t') && t'[r][c] == l
    ensures forall r', c' | 0 <= r' < 9 && 0 <= c' < 9 && (r' != r || c' != c) :: t'[r'][c'] == t[r'][c']
  {
    t[r := t[r][c := l]]
  }

  /** One iteration of the removal loop, at position k: a triggered cell
      loses the pair's digits, and the elimination variant then rebuilds
      the whole tracker. */
  function SweepStep(v: Variant, o: Orientation, b: Board, t: Cands, i: int, j: int, pS: seq<int>, k: int): (t': Cands)
    requires ValidBoard(b) && Shaped(t) && 0 <= i < 9 && 0 <= j < 9 && 0 <= k < 9 && |pS| == 2
    ensures Shaped(t')
    ensures WellFormed(t) ==> WellFormed(t')
  {
    var r, c := LineRow(o, i, j, k), LineCol(o, i, j, k);
    if !Triggered(v, t[r][c], pS) then t
    else
      var l := Remove(t[r][c], pS);
      assert forall x | 0 <= x < |l| :: l[x] in t[r][c];
      var t1 := Put(t, r, c, l);
      if v == Elimination then Rebuild(b, t1) else t1
  }

  /** The removal loop from position k to the end of the line. */
  function Sweep(v: Variant, o: Orientation, b: Board, t: Cands, i: int, j: int, pS: seq<int>, k: int): (t': Cands)
    requires ValidBoard(b) && Shaped(t) && 0 <= i < 9 && 0 <= j < 9 && 0 <= k <= 9 && |pS| == 2
    ensures Shaped(t')
    ensures WellFormed(t) ==> WellFormed(t')
    decreases 9 - k
  {
    if k == 9 then t
    else
      var t1 := SweepStep(v, o, b, t, i, j, pS, k);
      Sweep(v, o, b, t1, i, j, pS, k + 1)
  }

  /** One iteration of the partner loop: a partner at position k whose
      list matches the anchor's current list starts a sweep. */
  function PartnerStep(v: Variant, o: Orientation, b: Board, t: Cands, i: int, j: int, pS: seq<int>, k: int): (t': Cands)
    requires ValidBoard(b) && Shaped(t) && 0 <= i < 9 && 0 <= j < 9 && 0 <= k < 9 && |pS| == 2
    ensures Shaped(t')
    ensures WellFormed(t) ==> WellFormed(t')
  {
    var a := t[AnchorRow(o, i, j)][AnchorCol(o, i, j)];
    var p := t[LineRow(o, i, j, k)][LineCol(o, i, j, k)];
    if Matches(a, p) then Sweep(v, o, b, t, i, j, pS, Start()) else t
  }

  /** The partner loop from position k: every later cell whose list matches
      the anchor's current list starts a sweep with the anchor's pair pS. */
  function Partners(v: Variant, o: Orientation, b: Board, t: Cands, i: int, j: int, pS: seq<int>, k: int): (t': Cands)
    requires ValidBoard(b) && Shaped(t) && 0 <= i < 9 && 0 <= j < 9 && 0 <= k <= 9 && |pS| == 2
    ensures Shaped(t')
    ensures WellFormed(t) ==> WellFormed(t')
    decreases 9 - k
  {
    if k == 9 then t
    else
      var t1 := PartnerStep(v, o, b, t, i, j, pS, k);
      Partners(v, o, b, t1, i, j, pS, k + 1)
  }

  /** One iteration of the anchor loop: an anchor with exactly two
      candidates is compared with the cells after it. */
  function AnchorStep(v: Variant, o: Orientation, b: Board, t: Cands, i: int, j: int): (t': Cands)
    requires ValidBoard(b) && Shaped(t) && 0 <= i < 9 && 0 <= j < 9
    ensures Shaped(t')
    ensures WellFormed(t) ==> WellFormed(t')
  {
    var a := t[AnchorRow(o, i, j)][AnchorCol(o, i, j)];
    if |a| == 2 then Partners(v, o, b, t, i, j, a, j + 1) else t
  }

  /** The anchor loop of line i from anchor j: an anchor with exactly two
      candidates is compared with the cells after it. */
  function ScanLine(v: Variant, o: Orientation, b: Board, t: Cands, i: int, j: int): (t': Cands)
    requires ValidBoard(b) && Shaped(t) && 0 <= i < 9 && 0 <= j <= 9
    ensures Shaped(t')
    ensures WellFormed(t) ==> WellFormed(t')
    decreases 9 - j
  {
    if j == 9 then t
    else
      var t1 := AnchorStep(v, o, b, t, i, j);
      ScanLine(v, o, b, t1, i, j + 1)
  }

  /** The outer loop over lines i to 8. */
  function ScanLines(v: Variant, o: Orientation, b: Board, t: Cands, i: int): (t': Cands)
    requires ValidBoard(b) && Shaped(t) && 0 <= i <= 9
    ensures Shaped(t')
    ensures WellFormed(t) ==> WellFormed(t')
    decreases 9 - i
  {
    if i == 9 then t
    else
      var t1 := ScanLine(v, o, b, t, i, Start());
      ScanLines(v, o, b, t1, i + 1)
  }

  /** The column scan each variant runs. */
  function ColumnScan(v: Variant): Orientation {
    if v == Elimination then Cols else ColsAsWritten
  }

  /** nakedSubset: the row scan, then the column scan. Candidates are only
      ever removed, and well-formed lists stay well-formed. */
  function Run(v: Variant, b: Board, t: Cands): (t': Cands)
    requires ValidBoard(b) && Shaped(t)
    ensures Shaped(t')
    ensures WellFormed(t) ==> WellFormed(t')
  {
    RowsThenCols(v, b, t, Start())
  }

  /** Both scans, each over lines i to 8. */
  function RowsThenCols(v: Variant, b: Board, t: Cands, i: int): (t': Cands)
    requires ValidBoard(b) && Shaped(t) && 0 <= i <= 9
    ensures Shaped(t')
    ensures WellFormed(t) ==> WellFormed(t')
  {
    var t1 := ScanLines(v, Rows, b, t, i);
    ScanLines(v, ColumnScan(v), b, t1, i)
  }

  // One unfolding of each loop, as a separate fact.

  lemma SweepUnfold(v: Variant, o: Orientation, b: Board, t: Cands, i: int, j: int, pS: seq<int>, k: int)
    requires ValidBoard(b) && Shaped(t) && 0 <= i < 9 && 0 <= j < 9 && 0 <= k < 9 && |pS| == 2
    ensures Sweep(v, o, b, t, i, j, pS, k) == Sweep(v, o, b, SweepStep(v, o, b, t, i, j, pS, k), i, j, pS, k + 1)
  {
  }

  lemma PartnersUnfold(v: Variant, o: Orientation, b: Board, t: Cands, i: int, j: int, pS: seq<int>, k: int)
    requires ValidBoard(b) && Shaped(t) && 0 <= i < 9 && 0 <= j < 9 && 0 <= k < 9 && |pS| == 2
    ensures Partners(v, o, b, t, i, j, pS, k) == Partners(v, o, b, PartnerStep(v, o, b, t, i, j, pS, k), i, j, pS, k + 1)
  {
  }

  lemma ScanLineUnfold(v: Variant, o: Orientation, b: Board, t: Cands, i: int, j: int)
    requires ValidBoard(b) && Shaped(t) && 0 <= i < 9 && 0 <= j < 9
    ensures ScanLine(v, o, b, t, i, j) == ScanLine(v, o, b, AnchorStep(v, o, b, t, i, j), i, j + 1)
  {
  }

  lemma ScanLinesUnfold(v: Variant, o: Orientation, b: Board, t: Cands, i: int)
    requires ValidBoard(b) && Shaped(t) && 0 <= i < 9
    ensures ScanLines(v, o, b, t, i) == ScanLines(v, o, b, ScanLine(v, o, b, t, i, Start()), i + 1)
  {
  }

  // ---------------------------------------------------------------------
  // Candidates are only ever removed

  lemma SweepStepShrinks(v: Variant, o: Orientation, b: Board, t: Cands, i: int, j: int, pS: seq<int>, k: int)
    requires ValidBoard(b) && Shaped(t) && 0 <= i < 9 && 0 <= j < 9 && 0 <= k < 9 && |pS| == 2
    ensures Shrinks(t, SweepStep(v, o, b, t, i, j, pS, k))
  {
    var r, c := LineRow(o, i, j, k), LineCol(o, i, j, k);
    if Triggered(v, t[r][c], pS) {
      var l := Remove(t[r][c], pS);
      var t1 := Put(t, r, c, l);
      assert Shrinks(t, t1);
      if v == Elimination {
        ShrinksTransitive(t, t1, Rebuild(b, t1));
      }
    }
  }

  lemma {:induction false} SweepShrinks(v: Variant, o: Orientation, b: Board, t: Cands, i: int, j: int, pS: seq<int>, k: int)
    requires ValidBoard(b) && Shaped(t) && 0 <= i < 9 && 0 <= j < 9 && 0 <= k <= 9 && |pS| == 2
    ensures Shrinks(t, Sweep(v, o, b, t, i, j, pS, k))
    decreases 9 - k
  {
    if k < 9 {
      var t1 := SweepStep(v, o, b, t, i, j, pS, k);
      SweepUnfold(v, o, b, t, i, j, pS, k);
      SweepStepShrinks(v, o, b, t, i, j, pS, k);
      SweepShrinks(v, o, b, t1, i, j, pS, k + 1);
      ShrinksTransitive(t, t1, Sweep(v, o, b, t1, i, j, pS, k + 1));
    }
  }

  lemma PartnerStepShrinks(v: Variant, o: Orientation, b: Board, t: Cands, i: int, j: int, pS: seq<int>, k: int)
    requires ValidBoard(b) && Shaped(t) && 0 <= i < 9 && 0 <= j < 9 && 0 <= k < 9 && |pS| == 2
    ensures Shrinks(t, PartnerStep(v, o, b, t, i, j, pS, k))
  {
    SweepShrinks(v, o, b, t, i, j, pS, Start());
  }

  lemma {:induction false} PartnersShrinks(v: Variant, o: Orientation, b: Board, t: Cands, i: int, j: int, pS: seq<int>, k: int)
    requires ValidBoard(b) && Shaped(t) && 0 <= i < 9 && 0 <= j < 9 && 0 <= k <= 9 && |pS| == 2
    ensures Shrinks(t, Partners(v, o, b, t, i, j, pS, k))
    decreases 9 - k
  {
    if k < 9 {
      var t1 := PartnerStep(v, o, b, t, i, j, pS, k);
      PartnersUnfold(v, o, b, t, i, j, pS, k);
      PartnerStepShrinks(v, o, b, t, i, j, pS, k);
      PartnersShrinks(v, o, b, t1, i, j, pS, k + 1);
      ShrinksTransitive(t, t1, Partners(v, o, b, t1, i, j, pS, k + 1));
    }
  }

  lemma AnchorStepShrinks(v: Variant, o: Orientation, b: Board, t: Cands, i: int, j: int)
    requires ValidBoard(b) && Shaped(t) && 0 <= i < 9 && 0 <= j < 9
    ensures Shrinks(t, AnchorStep(v, o, b, t, i, j))
  {
    var a := t[AnchorRow(o, i, j)][AnchorCol(o, i, j)];
    if |a| == 2 {
      PartnersShrinks(v, o, b, t, i, j, a, j + 1);
    }
  }

  lemma {:induction false} ScanLineShrinks(v: Variant, o: Orientation, b: Board, t: Cands, i: int, j: int)
    requires ValidBoard(b) && Shaped(t) && 0 <= i < 9 && 0 <= j <= 9
    ensures Shrinks(t, ScanLine(v, o, b, t, i, j))
    decreases 9 - j
  {
    if j < 9 {
      var t1 := AnchorStep(v, o, b, t, i, j);
      ScanLineUnfold(v, o, b, t, i, j);
      AnchorStepShrinks(v, o, b, t, i, j);
      ScanLineShrinks(v, o, b, t1, i, j + 1);
      ShrinksTransitive(t, t1, ScanLine(v, o, b, t1, i, j + 1));
    }
  }

  lemma {:induction false} ScanLinesShrinks(v: Variant, o: Orientation, b: Board, t: Cands, i: int)
    requires ValidBoard(b) && Shaped(t) && 0 <= i <= 9
    ensures Shrinks(t, ScanLines(v, o, b, t, i))
    decreases 9 - i
  {
    if i < 9 {
      var t1 := ScanLine(v, o, b, t, i, Start());
      ScanLinesUnfold(v, o, b, t, i);
      ScanLineShrinks(v, o, b, t, i, Start());
      ScanLinesShrinks(v, o, b, t1, i + 1);
      ShrinksTransitive(t, t1, ScanLines(v, o, b, t1, i + 1));
    }
  }

  /** nakedSubset only ever removes candidates: every list afterwards is
      no longer than before and holds only digits it held before. */
  lemma RunShrinks(v: Variant, b: Board, t: Cands)
    requires ValidBoard(b) && Shaped(t)
    ensures Shrinks(t, Run(v, b, t))
  {
    var t1 := ScanLines(v, Rows, b, t, Start());
    ScanLinesShrinks(v, Rows, b, t, Start());
    ScanLinesShrinks(v, ColumnScan(v), b, t1, Start());
    ShrinksTransitive(t, t1, Run(v, b, t));
  }

  // ---------------------------------------------------------------------
  // What one sweep does

  /** Removing values from one list of a settled tracker keeps it settled. */
  lemma PutRemoveSettled(b: Board, t: Cands, r: int, c: int, arr: seq<int>)
    requires ValidBoard(b) && Shaped(t) && Settled(b, t) && 0 <= r < 9 && 0 <= c < 9
    ensures Settled(b, Put(t, r, c, Remove(t[r][c], arr)))
  {
    var l := Remove(t[r][c], arr);
    assert forall x | 0 <= x < |l| :: l[x] in t[r][c];
  }

  /** A cell's position within a line it lies on. */
  function Pos(o: Orientation, r: int, c: int): int {
    if o == Cols then r else c
  }

  /** The cell at position k of a line is the cell of that line whose
      position is k. */
  lemma LinePos(o: Orientation, i: int, j: int, k: int)
    ensures forall r, c :: (r == LineRow(o, i, j, k) && c == LineCol(o, i, j, k)) <==> (OnLine(o, i, j, r, c) && Pos(o, r, c) == k)
  {
  }

  /** Cell (r, c) after the removal loop has run from position k: a cell of
      the line at position k or later that passes the removal test has
      lost the pair's digits. */
  function Swept(v: Variant, o: Orientation, t: Cands, i: int, j: int, pS: seq<int>, k: int, r: int, c: int): seq<int>
    requires Shaped(t) && 0 <= r < 9 && 0 <= c < 9 && |pS| == 2
  {
    if OnLine(o, i, j, r, c) && k <= Pos(o, r, c) && Triggered(v, t[r][c], pS) then Remove(t[r][c], pS) else t[r][c]
  }

  /** On a settled tracker (always, in the older variant) one step changes
      only the cell at position k, and only when it is triggered. */
  lemma SweepStepEffect(v: Variant, o: Orientation, b: Board, t: Cands, i: int, j: int, pS: seq<int>, k: int)
    requires ValidBoard(b) && Shaped(t) && 0 <= i < 9 && 0 <= j < 9 && 0 <= k < 9 && |pS| == 2
    requires v == Elimination ==> Settled(b, t)
    ensures v == Elimination ==> Settled(b, SweepStep(v, o, b, t, i, j, pS, k))
    ensures forall r, c | 0 <= r < 9 && 0 <= c < 9 ::
      SweepStep(v, o, b, t, i, j, pS, k)[r][c] ==
        if OnLine(o, i, j, r, c) && Pos(o, r, c) == k && Triggered(v, t[r][c], pS) then Remove(t[r][c], pS) else t[r][c]
  {
    LinePos(o, i, j, k);
    var r, c := LineRow(o, i, j, k), LineCol(o, i, j, k);
    if Triggered(v, t[r][c], pS) && v == Elimination {
      PutRemoveSettled(b, t, r, c, pS);
      SettledIsFixed(b, Put(t, r, c, Remove(t[r][c], pS)));
    }
  }

  /** Running the loop from k + 1 after step k is running it from k. */
  lemma SweptStep(v: Variant, o: Orientation, b: Board, t: Cands, i: int, j: int, pS: seq<int>, k: int)
    requires ValidBoard(b) && Shaped(t) && 0 <= i < 9 && 0 <= j < 9 && 0 <= k < 9 && |pS| == 2
    requires v == Elimination ==> Settled(b, t)
    ensures v == Elimination ==> Settled(b, SweepStep(v, o, b, t, i, j, pS, k))
    ensures forall r, c | 0 <= r < 9 && 0 <= c < 9 ::
      Swept(v, o, SweepStep(v, o, b, t, i, j, pS, k), i, j, pS, k + 1, r, c) == Swept(v, o, t, i, j, pS, k, r, c)
  {
    SweepStepEffect(v, o, b, t, i, j, pS, k);
  }

  /** The removal loop from position k on a settled tracker: every cell of
      the line at position k or later that passes the removal test loses
      the pair's digits, and nothing else changes. */
  lemma {:induction false} SweepFrom(v: Variant, o: Orientation, b: Board, t: Cands, i: int, j: int, pS: seq<int>, k: int)
    requires ValidBoard(b) && Shaped(t) && 0 <= i < 9 && 0 <= j < 9 && 0 <= k <= 9 && |pS| == 2
    requires v == Elimination ==> Settled(b, t)
    ensures forall r, c | 0 <= r < 9 && 0 <= c < 9 ::
      Sweep(v, o, b, t, i, j, pS, k)[r][c] == Swept(v, o, t, i, j, pS, k, r, c)
    decreases 9 - k
  {
    if k < 9 {
      SweepUnfold(v, o, b, t, i, j, pS, k);
      SweptStep(v, o, b, t, i, j, pS, k);
      SweepFrom(v, o, b, SweepStep(v, o, b, t, i, j, pS, k), i, j, pS, k + 1);
    } else {
      forall r, c | 0 <= r < 9 && 0 <= c < 9 && OnLine(o, i, j, r, c)
        ensures Pos(o, r, c) < 9
      {
      }
    }
  }

  /** A whole sweep on a settled tracker. In the elimination variant a cell
      of the line loses both pair digits exactly when it has more than two
      candidates and holds both; in the older variant every cell with more
      than two candidates loses whichever pair digits it holds. */
  lemma SweepEffect(v: Variant, o: Orientation, b: Board, t: Cands, i: int, j: int, pS: seq<int>)
    requires ValidBoard(b) && Shaped(t) && 0 <= i < 9 && 0 <= j < 9 && |pS| == 2
    requires v == Elimination ==> Settled(b, t)
    ensures forall r, c | 0 <= r < 9 && 0 <= c < 9 ::
      Sweep(v, o, b, t, i, j, pS, Start())[r][c] ==
        if OnLine(o, i, j, r, c) && Triggered(v, t[r][c], pS) then Remove(t[r][c], pS) else t[r][c]
  {
    SweepFrom(v, o, b, t, i, j, pS, Start());
    forall r, c | 0 <= r < 9 && 0 <= c < 9
      ensures Swept(v, o, t, i, j, pS, Start(), r, c) ==
        if OnLine(o, i, j, r, c) && Triggered(v, t[r][c], pS) then Remove(t[r][c], pS) else t[r][c]
    {
      assert 0 <= Pos(o, r, c);
    }
  }

  // ---------------------------------------------------------------------
  // Soundness of the intended scans

  /** Two cells at distinct positions of a line of a full, consistent board
      hold distinct digits. */
  lemma LineDistinct(o: Orientation, i: int, j: int, s: Board, q1: int, q2: int)
    requires ValidBoard(s) && Full(s) && Consistent(s)
    requires 0 <= i < 9 && 0 <= j < 9 && 0 <= q1 < 9 && 0 <= q2 < 9 && q1 != q2
    ensures s[LineRow(o, i, j, q1)][LineCol(o, i, j, q1)] != s[LineRow(o, i, j, q2)][LineCol(o, i, j, q2)]
  {
  }

  /** Two distinct members of a two-element list leave no room for a third
      value. */
  lemma PairExcludes(pS: seq<int>, d1: int, d2: int, e: int)
    requires |pS| == 2 && d1 in pS && d2 in pS && d1 != d2 && e != d1 && e != d2
    ensures e !in pS
  {
  }

  /** One removal step keeps every solution digit when the solution's
      digit at the step's cell, if that cell is blank and triggered, lies
      outside the pair. */
  lemma SweepStepSound(v: Variant, o: Orientation, b: Board, t: Cands, i: int, j: int, pS: seq<int>, k: int, s: Board)
    requires ValidBoard(b) && Shaped(t) && 0 <= i < 9 && 0 <= j < 9 && 0 <= k < 9 && |pS| == 2
    requires Solution(b, s) && Respects(b, t, s) && FilledCleared(b, t)
    requires var r, c := LineRow(o, i, j, k), LineCol(o, i, j, k);
      b[r][c] == 0 && Triggered(v, t[r][c], pS) ==> s[r][c] !in pS
    ensures Respects(b, SweepStep(v, o, b, t, i, j, pS, k), s)
    ensures FilledCleared(b, SweepStep(v, o, b, t, i, j, pS, k))
  {
    var r, c := LineRow(o, i, j, k), LineCol(o, i, j, k);
    if Triggered(v, t[r][c], pS) {
      var t0 := Put(t, r, c, Remove(t[r][c], pS));
      assert Respects(b, t0, s);
      if v == Elimination {
        RebuildSound(b, t0, s);
      }
    }
  }

  /** A cell of the line other than x and y misses the pair in the
      solution when x and y hold pair digits there. */
  lemma TargetSpared(o: Orientation, i: int, j: int, pS: seq<int>, s: Board, x: int, y: int, k: int)
    requires ValidBoard(s) && Full(s) && Consistent(s) && 0 <= i < 9 && 0 <= j < 9 && |pS| == 2
    requires 0 <= x < 9 && 0 <= y < 9 && 0 <= k < 9 && x != y && k != x && k != y
    requires s[LineRow(o, i, j, x)][LineCol(o, i, j, x)] in pS && s[LineRow(o, i, j, y)][LineCol(o, i, j, y)] in pS
    ensures s[LineRow(o, i, j, k)][LineCol(o, i, j, k)] !in pS
  {
    LineDistinct(o, i, j, s, k, x);
    LineDistinct(o, i, j, s, k, y);
    LineDistinct(o, i, j, s, x, y);
    PairExcludes(pS, s[LineRow(o, i, j, x)][LineCol(o, i, j, x)], s[LineRow(o, i, j, y)][LineCol(o, i, j, y)],
      s[LineRow(o, i, j, k)][LineCol(o, i, j, k)]);
  }

  /** One step of SweepSound's induction: the step is sound, and x and y
      still have at most two candidates after it. */
  lemma SweepStepKeeps(v: Variant, o: Orientation, b: Board, t: Cands, i: int, j: int, pS: seq<int>, k: int, s: Board, x: int, y: int)
    requires ValidBoard(b) && Shaped(t) && 0 <= i < 9 && 0 <= j < 9 && 0 <= k < 9 && |pS| == 2
    requires Solution(b, s) && Respects(b, t, s) && FilledCleared(b, t)
    requires 0 <= x < 9 && 0 <= y < 9 && x != y
    requires |t[LineRow(o, i, j, x)][LineCol(o, i, j, x)]| <= 2 && |t[LineRow(o, i, j, y)][LineCol(o, i, j, y)]| <= 2
    requires s[LineRow(o, i, j, x)][LineCol(o, i, j, x)] in pS && s[LineRow(o, i, j, y)][LineCol(o, i, j, y)] in pS
    ensures var t1 := SweepStep(v, o, b, t, i, j, pS, k);
      && Respects(b, t1, s) && FilledCleared(b, t1)
      && |t1[LineRow(o, i, j, x)][LineCol(o, i, j, x)]| <= 2 && |t1[LineRow(o, i, j, y)][LineCol(o, i, j, y)]| <= 2
  {
    var r, c := LineRow(o, i, j, k), LineCol(o, i, j, k);
    if Triggered(v, t[r][c], pS) {
      TargetSpared(o, i, j, pS, s, x, y, k);
    }
    SweepStepSound(v, o, b, t, i, j, pS, k, s);
  }

  /** A sweep for a pair pS never removes a solution digit, provided two
      distinct cells x and y of the line have at most two candidates and
      hold, in the solution, digits of pS. */
  lemma {:induction false} SweepSound(v: Variant, o: Orientation, b: Board, t: Cands, i: int, j: int, pS: seq<int>, k: int, s: Board, x: int, y: int)
    requires ValidBoard(b) && Shaped(t) && 0 <= i < 9 && 0 <= j < 9 && 0 <= k <= 9 && |pS| == 2
    requires Solution(b, s) && Respects(b, t, s) && FilledCleared(b, t)
    requires 0 <= x < 9 && 0 <= y < 9 && x != y
    requires |t[LineRow(o, i, j, x)][LineCol(o, i, j, x)]| <= 2 && |t[LineRow(o, i, j, y)][LineCol(o, i, j, y)]| <= 2
    requires s[LineRow(o, i, j, x)][LineCol(o, i, j, x)] in pS && s[LineRow(o, i, j, y)][LineCol(o, i, j, y)] in pS
    ensures Respects(b, Sweep(v, o, b, t, i, j, pS, k), s)
    ensures FilledCleared(b, Sweep(v, o, b, t, i, j, pS, k))
    decreases 9 - k
  {
    if k < 9 {
      SweepUnfold(v, o, b, t, i, j, pS, k);
      SweepStepKeeps(v, o, b, t, i, j, pS, k, s, x, y);
      SweepSound(v, o, b, SweepStep(v, o, b, t, i, j, pS, k), i, j, pS, k + 1, s, x, y);
    }
  }

  /** One partner step keeps every solution digit, and keeps the anchor's
      list within pS and at most two long. */
  lemma PartnerStepSound(v: Variant, o: Orientation, b: Board, t: Cands, i: int, j: int, pS: seq<int>, k: int, s: Board)
    requires ValidBoard(b) && Shaped(t) && 0 <= i < 9 && 0 <= j < 9 && 0 <= k < 9 && |pS| == 2
    requires Solution(b, s) && Respects(b, t, s) && FilledCleared(b, t)
    requires 0 <= AnchorPos(o, i, j) < k
    requires b[AnchorRow(o, i, j)][AnchorCol(o, i, j)] == 0
    requires |t[AnchorRow(o, i, j)][AnchorCol(o, i, j)]| <= 2
    requires forall e | e in t[AnchorRow(o, i, j)][AnchorCol(o, i, j)] :: e in pS
    ensures var t1 := PartnerStep(v, o, b, t, i, j, pS, k);
      && Respects(b, t1, s) && FilledCleared(b, t1)
      && |t1[AnchorRow(o, i, j)][AnchorCol(o, i, j)]| <= 2
      && forall e | e in t1[AnchorRow(o, i, j)][AnchorCol(o, i, j)] :: e in pS
  {
    var ar, ac := AnchorRow(o, i, j), AnchorCol(o, i, j);
    var pr, pc := LineRow(o, i, j, k), LineCol(o, i, j, k);
    var t1 := PartnerStep(v, o, b, t, i, j, pS, k);
    if Matches(t[ar][ac], t[pr][pc]) {
      MatchSound(v, o, b, t, i, j, pS, k, s);
      assert t1 == Sweep(v, o, b, t, i, j, pS, Start());
    } else {
      assert t1 == t;
    }
    PartnerStepShrinks(v, o, b, t, i, j, pS, k);
    ShrunkWithin(t[ar][ac], t1[ar][ac], pS);
  }

  lemma ClearedBlank(b: Board, t: Cands, r: int, c: int)
    requires ValidBoard(b) && Shaped(t) && FilledCleared(b, t) && 0 <= r < 9 && 0 <= c < 9 && t[r][c] != []
    ensures b[r][c] == 0
  {
  }

  lemma SelfWithin(l: seq<int>)
    ensures forall e | e in l :: e in l
  {
  }

  /** A list that only lost elements stays within pS. */
  lemma ShrunkWithin(l: seq<int>, l': seq<int>, pS: seq<int>)
    requires forall e | e in l :: e in pS
    requires forall m | 0 <= m < |l'| :: l'[m] in l
    ensures forall e | e in l' :: e in pS
  {
  }

  /** A genuine match: the partner is a second blank cell of the line whose
      solution digit lies in pS, so the sweep it starts is sound. */
  lemma MatchSound(v: Variant, o: Orientation, b: Board, t: Cands, i: int, j: int, pS: seq<int>, k: int, s: Board)
    requires ValidBoard(b) && Shaped(t) && 0 <= i < 9 && 0 <= j < 9 && 0 <= k < 9 && |pS| == 2
    requires Solution(b, s) && Respects(b, t, s) && FilledCleared(b, t)
    requires 0 <= AnchorPos(o, i, j) < k
    requires b[AnchorRow(o, i, j)][AnchorCol(o, i, j)] == 0
    requires |t[AnchorRow(o, i, j)][AnchorCol(o, i, j)]| <= 2
    requires forall e | e in t[AnchorRow(o, i, j)][AnchorCol(o, i, j)] :: e in pS
    requires Matches(t[AnchorRow(o, i, j)][AnchorCol(o, i, j)], t[LineRow(o, i, j, k)][LineCol(o, i, j, k)])
    ensures Respects(b, Sweep(v, o, b, t, i, j, pS, Start()), s)
    ensures FilledCleared(b, Sweep(v, o, b, t, i, j, pS, Start()))
  {
    var ar, ac := AnchorRow(o, i, j), AnchorCol(o, i, j);
    var pr, pc := LineRow(o, i, j, k), LineCol(o, i, j, k);
    var a, p := t[ar][ac], t[pr][pc];
    MatchesPair(a, p);
    assert b[pr][pc] == 0;
    assert s[pr][pc] in a;
    SweepSound(v, o, b, t, i, j, pS, Start(), s, AnchorPos(o, i, j), k);
  }

  /** The partner loop keeps every solution digit, as long as its partners
      lie past the anchor and the anchor is a blank cell whose list holds
      at most two digits, all of them in pS. */
  lemma {:induction false} PartnersSound(v: Variant, o: Orientation, b: Board, t: Cands, i: int, j: int, pS: seq<int>, k: int, s: Board)
    requires ValidBoard(b) && Shaped(t) && 0 <= i < 9 && 0 <= j < 9 && 0 <= k <= 9 && |pS| == 2
    requires Solution(b, s) && Respects(b, t, s) && FilledCleared(b, t)
    requires 0 <= AnchorPos(o, i, j) < k
    requires b[AnchorRow(o, i, j)][AnchorCol(o, i, j)] == 0
    requires |t[AnchorRow(o, i, j)][AnchorCol(o, i, j)]| <= 2
    requires forall e | e in t[AnchorRow(o, i, j)][AnchorCol(o, i, j)] :: e in pS
    ensures Respects(b, Partners(v, o, b, t, i, j, pS, k), s)
    ensures FilledCleared(b, Partners(v, o, b, t, i, j, pS, k))
    decreases 9 - k
  {
    if k < 9 {
      PartnersUnfold(v, o, b, t, i, j, pS, k);
      PartnerStepSound(v, o, b, t, i, j, pS, k, s);
      PartnersSound(v, o, b, PartnerStep(v, o, b, t, i, j, pS, k), i, j, pS, k + 1, s);
    }
  }

  /** One anchor step of an intended scan keeps every solution digit. */
  lemma AnchorStepSound(v: Variant, o: Orientation, b: Board, t: Cands, i: int, j: int, s: Board)
    requires ValidBoard(b) && Shaped(t) && 0 <= i < 9 && 0 <= j < 9 && o != ColsAsWritten
    requires Solution(b, s) && Respects(b, t, s) && FilledCleared(b, t)
    ensures Respects(b, AnchorStep(v, o, b, t, i, j), s)
    ensures FilledCleared(b, AnchorStep(v, o, b, t, i, j))
  {
    var ar, ac := AnchorRow(o, i, j), AnchorCol(o, i, j);
    var a := t[ar][ac];
    if |a| == 2 {
      ClearedBlank(b, t, ar, ac);
      SelfWithin(a);
      PartnersSound(v, o, b, t, i, j, a, j + 1, s);
      assert AnchorStep(v, o, b, t, i, j) == Partners(v, o, b, t, i, j, a, j + 1);
    } else {
      assert AnchorStep(v, o, b, t, i, j) == t;
    }
  }

  /** The intended row and column scans of one line keep every solution
      digit. */
  lemma {:induction false} ScanLineSound(v: Variant, o: Orientation, b: Board, t: Cands, i: int, j: int, s: Board)
    requires ValidBoard(b) && Shaped(t) && 0 <= i < 9 && 0 <= j <= 9 && o != ColsAsWritten
    requires Solution(b, s) && Respects(b, t, s) && FilledCleared(b, t)
    ensures Respects(b, ScanLine(v, o, b, t, i, j), s)
    ensures FilledCleared(b, ScanLine(v, o, b, t, i, j))
    decreases 9 - j
  {
    if j < 9 {
      ScanLineUnfold(v, o, b, t, i, j);
      AnchorStepSound(v, o, b, t, i, j, s);
      ScanLineSound(v, o, b, AnchorStep(v, o, b, t, i, j), i, j + 1, s);
    }
  }

  lemma {:induction false} ScanLinesSound(v: Variant, o: Orientation, b: Board, t: Cands, i: int, s: Board)
    requires ValidBoard(b) && Shaped(t) && 0 <= i <= 9 && o != ColsAsWritten
    requires Solution(b, s) && Respects(b, t, s) && FilledCleared(b, t)
    ensures Respects(b, ScanLines(v, o, b, t, i), s)
    ensures FilledCleared(b, ScanLines(v, o, b, t, i))
    decreases 9 - i
  {
    if i < 9 {
      ScanLinesUnfold(v, o, b, t, i);
      ScanLineSound(v, o, b, t, i, Start(), s);
      ScanLinesSound(v, o, b, ScanLine(v, o, b, t, i, Start()), i + 1, s);
    }
  }

  /** The elimination variant's Naked Subset never removes the digit a
      solution of the puzzle puts in a blank cell. */
  lemma NakedSubsetSound(b: Board, t: Cands, s: Board)
    requires ValidBoard(b) && Shaped(t)
    requires Solution(b, s) && Respects(b, t, s) && FilledCleared(b, t)
    ensures Respects(b, Run(Elimination, b, t), s)
    ensures FilledCleared(b, Run(Elimination, b, t))
  {
    RowsThenColsSound(b, t, s, Start());
  }

  lemma RowsThenColsSound(b: Board, t: Cands, s: Board, i: int)
    requires ValidBoard(b) && Shaped(t) && 0 <= i <= 9
    requires Solution(b, s) && Respects(b, t, s) && FilledCleared(b, t)
    ensures Respects(b, RowsThenCols(Elimination, b, t, i), s)
    ensures FilledCleared(b, RowsThenCols(Elimination, b, t, i))
  {
    ScanLinesSound(Elimination, Rows, b, t, i, s);
    ScanLinesSound(Elimination, Cols, b, ScanLines(Elimination, Rows, b, t, i), i, s);
  }

  // ---------------------------------------------------------------------
  // The older column scan pairs a cell with itself

  const EmptyBoard: Board := seq(9, _ => seq(9, _ => 0))

  /** Row 0 holds [1, 2] at column 1 and [1, 2, 3] at column 2; every other
      list is empty. No two cells share a pair. */
  const LonePair: Cands :=
    seq(9, r => seq(9, c => if r == 0 && c == 1 then [1, 2] else if r == 0 && c == 2 then [1, 2, 3] else []))

  /** In the older column scan, for column 1 and anchor row 0, the first
      partner examined is the anchor cell itself, so the lone pair [1, 2]
      strips 1 and 2 from cell (0, 2). The intended scans never examine
      the anchor, since their partners lie past it. */
  lemma ColsAsWrittenSelfPair()
    ensures ValidBoard(EmptyBoard) && Shaped(LonePair)
    ensures AnchorRow(ColsAsWritten, 1, 0) == LineRow(ColsAsWritten, 1, 0, 1)
    ensures AnchorCol(ColsAsWritten, 1, 0) == LineCol(ColsAsWritten, 1, 0, 1)
    ensures LonePair[0][2] == [1, 2, 3]
    ensures Partners(Original, ColsAsWritten, EmptyBoard, LonePair, 1, 0, [1, 2], 1)[0][2] == [3]
  {
    assert ValidBoard(EmptyBoard);
    SelfPairStrips(EmptyBoard, LonePair);
  }

  /** The self-comparison on any tracker whose row 0 is [], [1, 2],
      [1, 2, 3], then [] throughout. */
  lemma SelfPairStrips(b: Board, t: Cands)
    requires ValidBoard(b) && Shaped(t)
    requires t[0][0] == [] && t[0][1] == [1, 2] && t[0][2] == [1, 2, 3]
    requires forall c | 3 <= c < 9 :: t[0][c] == []
    ensures Partners(Original, ColsAsWritten, b, t, 1, 0, [1, 2], 1)[0][2] == [3]
  {
    var pS := [1, 2];
    var t1 := Sweep(Original, ColsAsWritten, b, t, 1, 0, pS, Start());
    SelfPairSweep(b, t);
    assert Matches(t[0][1], t[0][1]);
    assert PartnerStep(Original, ColsAsWritten, b, t, 1, 0, pS, 1) == t1;
    PartnersUnfold(Original, ColsAsWritten, b, t, 1, 0, pS, 1);
    LonePairNoMatch(t1);
    PartnersNoMatch(Original, ColsAsWritten, b, t1, 1, 0, pS, 2);
  }

  /** After the sweep, no later cell of row 0 matches the anchor (0, 1). */
  lemma LonePairNoMatch(t: Cands)
    requires Shaped(t) && t[0][2] == [3] && forall c | 3 <= c < 9 :: t[0][c] == []
    ensures forall q | 2 <= q < 9 ::
      !Matches(t[AnchorRow(ColsAsWritten, 1, 0)][AnchorCol(ColsAsWritten, 1, 0)], t[LineRow(ColsAsWritten, 1, 0, q)][LineCol(ColsAsWritten, 1, 0, q)])
  {
  }

  /** The sweep started by the self-comparison: row 0 becomes [], [1, 2],
      [3], then [] throughout. */
  lemma SelfPairSweep(b: Board, t: Cands)
    requires ValidBoard(b) && Shaped(t)
    requires t[0][0] == [] && t[0][1] == [1, 2] && t[0][2] == [1, 2, 3]
    requires forall c | 3 <= c < 9 :: t[0][c] == []
    ensures var t1 := Sweep(Original, ColsAsWritten, b, t, 1, 0, [1, 2], Start());
      && t1[0][0] == [] && t1[0][1] == [1, 2] && t1[0][2] == [3]
      && forall c | 3 <= c < 9 :: t1[0][c] == []
  {
    var pS := [1, 2];
    var t1 := Sweep(Original, ColsAsWritten, b, t, 1, 0, pS, Start());
    SweepEffect(Original, ColsAsWritten, b, t, 1, 0, pS);
    assert !Triggered(Original, [], pS) && !Triggered(Original, [1, 2], pS);
    assert t1[0][2] == Remove([1, 2, 3], pS);
    RemovePair();
  }

  lemma RemovePair()
    ensures Remove([1, 2, 3], [1, 2]) == [3]
  {
    assert RemoveFrom([3], [1, 2]) == [3];
  }

  /** Once no cell of the line past position k matches the anchor, the
      partner loop changes nothing. */
  lemma {:induction false} PartnersNoMatch(v: Variant, o: Orientation, b: Board, t: Cands, i: int, j: int, pS: seq<int>, k: int)
    requires ValidBoard(b) && Shaped(t) && 0 <= i < 9 && 0 <= j < 9 && 0 <= k <= 9 && |pS| == 2
    requires forall q | k <= q < 9 ::
      !Matches(t[AnchorRow(o, i, j)][AnchorCol(o, i, j)], t[LineRow(o, i, j, q)][LineCol(o, i, j, q)])
    ensures Partners(v, o, b, t, i, j, pS, k) == t
    decreases 9 - k
  {
    if k < 9 {
      PartnersUnfold(v, o, b, t, i, j, pS, k);
      PartnersNoMatch(v, o, b, t, i, j, pS, k + 1);
    }
  }
}
