/** The propagation driver: loopNonets and loopNonetCells apply a technique
    to every blank cell of the nonets not yet flagged complete,
    updateNonetStatus flags a nonet whose cells sum to 45, and the bounded
    pass loop runs the techniques in a fixed order: six passes in
    elimSolveIt, five in the older solveIt. The global board, tracker and
    nonetsStatus become one explicit state value. */
module Driver {
  import opened Common
  import opened Digits
  import opened Grid
  import opened Tracker
  import opened Techniques
  import NakedSubset

  /** The callback handed to loopNonets. */
  datatype Technique = Sole | Unique(v: Variant)

  /** nonetsStatus: one completion flag per nonet. */
  type Status = seq<bool>

  /** The engine's global state between two steps of a pass. */
  datatype State = State(board: Board, cands: Cands, status: Status)

  predicate Good(s: State) {
    ValidBoard(s.board) && WellFormed(s.cands) && |s.status| == 9
  }

  /** Every flagged nonet is full. */
  predicate Flagged(b: Board, st: Status)
    requires ValidBoard(b) && |st| == 9
  {
    forall n | 0 <= n < 9 :: st[n] ==> NonetFull(b, n)
  }

  /** The value the technique proposes for cell (r, c) of nonet n, or None
      for the source's `false`. */
  function Propose(f: Technique, b: Board, n: int, r: int, c: int): (res: Option<int>)
    requires ValidBoard(b) && 0 <= n < 9 && 0 <= r < 9 && 0 <= c < 9 && GetNonet(r, c) == n
    ensures res.Some? ==> IsDigit(res.value)
  {
    match f
    case Sole => SoleCandidate(b, n, r, c)
    case Unique(v) => UniqueCandidate(v, b, n, r, c)
  }

  /** A proposal never contradicts a solution of the puzzle. */
  lemma ProposeSound(f: Technique, b: Board, r: int, c: int, s: Board)
    requires ValidBoard(b) && Solution(b, s) && 0 <= r < 9 && 0 <= c < 9 && b[r][c] == 0
    requires Propose(f, b, GetNonet(r, c), r, c).Some?
    ensures Propose(f, b, GetNonet(r, c), r, c).value == s[r][c]
  {
    match f
    case Sole => SoleCandidateSound(b, s, r, c);
    case Unique(v) => UniqueCandidateSound(v, b, s, r, c);
  }

  /** One iteration of loopNonetCells, at the k-th cell (row-major) of
      nonet n: a blank cell takes the value the technique proposes. */
  function CellStep(f: Technique, b: Board, n: int, k: int): (b': Board)
    requires ValidBoard(b) && 0 <= n < 9 && 0 <= k < 9
    ensures ValidBoard(b')
    ensures forall r, c | 0 <= r < 9 && 0 <= c < 9 && b'[r][c] != b[r][c] ::
      r == NonetRow(n, k) && c == NonetCol(n, k) && b[r][c] == 0
  {
    var r, c := NonetRow(n, k), NonetCol(n, k);
    NonetCellsInNonet(n, k);
    if b[r][c] != 0 then b
    else match Propose(f, b, n, r, c)
      case Some(d) => Set(b, r, c, d)
      case None => b
  }

  /** loopNonetCells from the k-th cell of nonet n on. */
  function NonetCells(f: Technique, b: Board, n: int, k: int): (b': Board)
    requires ValidBoard(b) && 0 <= n < 9 && 0 <= k <= 9
    ensures ValidBoard(b') && FillsBlanks(b, b')
    ensures forall r, c | 0 <= r < 9 && 0 <= c < 9 && GetNonet(r, c) != n :: b'[r][c] == b[r][c]
    decreases 9 - k
  {
    if k == 9 then b
    else
      var b1 := CellStep(f, b, n, k);
      NonetCellsInNonet(n, k);
      NonetCells(f, b1, n, k + 1)
  }

  /** loopNonetCells: the technique is applied to the blank cells of
      nonet n in row-major order, each write visible to the next call. */
  function LoopNonetCells(f: Technique, b: Board, n: int): (b': Board)
    requires ValidBoard(b) && 0 <= n < 9
    ensures ValidBoard(b') && FillsBlanks(b, b')
    ensures forall r, c | 0 <= r < 9 && 0 <= c < 9 && GetNonet(r, c) != n :: b'[r][c] == b[r][c]
  {
    NonetCells(f, b, n, Start())
  }

  /** updateNonetStatus: nonet n is flagged once its nine cells sum to 45,
      blanks counting as 0; a flag is never cleared. */
  function UpdateNonetStatus(b: Board, st: Status, n: int): (st': Status)
    requires ValidBoard(b) && |st| == 9 && 0 <= n < 9
    ensures |st'| == 9
    ensures forall i | 0 <= i < 9 && i != n :: st'[i] == st[i]
    ensures st'[n] <==> st[n] || Sum(ExtractNonetAll(b, n)) == 45
  {
    if Sum(ExtractNonetAll(b, n)) == 45 then st[n := true] else st
  }

  /** One iteration of loopNonets, at nonet n: a nonet whose flag is false
      gets its cells visited, then its flag updated. */
  function NonetStep(f: Technique, b: Board, st: Status, n: int): (res: (Board, Status))
    requires ValidBoard(b) && |st| == 9 && 0 <= n < 9
    ensures ValidBoard(res.0) && |res.1| == 9 && FillsBlanks(b, res.0)
    ensures forall r, c | 0 <= r < 9 && 0 <= c < 9 && (st[n] || GetNonet(r, c) != n) :: res.0[r][c] == b[r][c]
    ensures forall i | 0 <= i < 9 && i != n :: res.1[i] == st[i]
    ensures res.1[n] <==> st[n] || Sum(ExtractNonetAll(res.0, n)) == 45
  {
    if st[n] then (b, st)
    else
      var b1 := LoopNonetCells(f, b, n);
      (b1, UpdateNonetStatus(b1, st, n))
  }

  /** loopNonets from nonet n on. */
  function NonetsFrom(f: Technique, b: Board, st: Status, n: int): (res: (Board, Status))
    requires ValidBoard(b) && |st| == 9 && 0 <= n <= 9
    ensures ValidBoard(res.0) && |res.1| == 9
    ensures FillsBlanks(b, res.0)
    ensures forall i | 0 <= i < 9 :: st[i] ==> res.1[i]
    decreases 9 - n
  {
    if n == 9 then (b, st)
    else
      var (b1, st1) := NonetStep(f, b, st, n);
      NonetsFrom(f, b1, st1, n + 1)
  }

  /** Nonets before n and nonets already flagged keep their cells. */
  lemma {:induction false} NonetsFromSkips(f: Technique, b: Board, st: Status, n: int)
    requires ValidBoard(b) && |st| == 9 && 0 <= n <= 9
    ensures forall r, c | 0 <= r < 9 && 0 <= c < 9 && (GetNonet(r, c) < n || st[GetNonet(r, c)]) ::
      NonetsFrom(f, b, st, n).0[r][c] == b[r][c]
    decreases 9 - n
  {
    if n < 9 {
      var (b1, st1) := NonetStep(f, b, st, n);
      NonetsFromSkips(f, b1, st1, n + 1);
    }
  }

  /** From nonet n on, a flag ends up set exactly when it was set before
      or its nonet's final cells sum to 45. */
  lemma {:induction false} NonetsFromFlags(f: Technique, b: Board, st: Status, n: int)
    requires ValidBoard(b) && |st| == 9 && 0 <= n <= 9
    ensures forall i | 0 <= i < 9 ::
      NonetsFrom(f, b, st, n).1[i] <==> st[i] || (n <= i && Sum(ExtractNonetAll(NonetsFrom(f, b, st, n).0, i)) == 45)
    decreases 9 - n
  {
    if n < 9 {
      var (b1, st1) := NonetStep(f, b, st, n);
      var res := NonetsFrom(f, b1, st1, n + 1);
      assert res == NonetsFrom(f, b, st, n);
      NonetsFromFlags(f, b1, st1, n + 1);
      NonetsFromSkips(f, b1, st1, n + 1);
      NonetUnchanged(b1, res.0, n);
    }
  }

  /** Boards agreeing on every cell of nonet n have the same nonet values. */
  lemma NonetUnchanged(b: Board, b': Board, n: int)
    requires ValidBoard(b) && ValidBoard(b') && 0 <= n < 9
    requires forall r, c | 0 <= r < 9 && 0 <= c < 9 && GetNonet(r, c) <= n :: b'[r][c] == b[r][c]
    ensures ExtractNonetAll(b', n) == ExtractNonetAll(b, n)
  {
    forall k | 0 <= k < 9 ensures ExtractNonetAll(b', n)[k] == ExtractNonetAll(b, n)[k] {
      NonetCellsInNonet(n, k);
    }
  }

  /** loopNonets: every nonet visited from nonet 0 on. */
  function LoopNonets(f: Technique, b: Board, st: Status): (res: (Board, Status))
    requires ValidBoard(b) && |st| == 9
    ensures ValidBoard(res.0) && |res.1| == 9
    ensures FillsBlanks(b, res.0)
    ensures forall i | 0 <= i < 9 :: st[i] ==> res.1[i]
  {
    NonetsFrom(f, b, st, Start())
  }

  /** loopNonets only visits nonets whose flag is false, and updates the
      flag of each visited nonet: a flag ends up set exactly when it was
      set before or its nonet's cells sum to 45. */
  lemma LoopNonetsVisits(f: Technique, b: Board, st: Status)
    requires ValidBoard(b) && |st| == 9
    ensures forall r, c | 0 <= r < 9 && 0 <= c < 9 && st[GetNonet(r, c)] :: LoopNonets(f, b, st).0[r][c] == b[r][c]
    ensures forall i | 0 <= i < 9 ::
      LoopNonets(f, b, st).1[i] <==> st[i] || Sum(ExtractNonetAll(LoopNonets(f, b, st).0, i)) == 45
  {
    NonetsFromSkips(f, b, st, Start());
    NonetsFromFlags(f, b, st, Start());
  }

  /** The two loopNonets calls of a pass: Sole Candidate, then Unique
      Candidate of variant v. */
  function Deduce(v: Variant, b: Board, st: Status): (res: (Board, Status))
    requires ValidBoard(b) && |st| == 9
    ensures ValidBoard(res.0) && |res.1| == 9
    ensures FillsBlanks(b, res.0)
    ensures forall i | 0 <= i < 9 :: st[i] ==> res.1[i]
  {
    var (b1, st1) := LoopNonets(Sole, b, st);
    LoopNonets(Unique(v), b1, st1)
  }

  /** A filled cell with no candidates keeps none when lists shrink. */
  lemma ClearedStaysCleared(b: Board, t: Cands, t': Cands)
    requires ValidBoard(b) && Shaped(t) && Shaped(t') && FilledCleared(b, t) && Shrinks(t, t')
    ensures FilledCleared(b, t')
  {
  }


  /** The while loop of elimSolveIt and solveIt: passes run while some
      flag is false and fewer than `limit` passes are done. */
  method Drive(v: Variant, limit: nat, s0: State) returns (s: State, passes: nat)
    requires Good(s0)
    ensures Good(s) && passes <= limit
    ensures passes < limit ==> false !in s.status
    ensures false !in s0.status ==> s == s0 && passes == 0
    ensures FillsBlanks(s0.board, s.board)
    ensures forall i | 0 <= i < 9 :: s0.status[i] ==> s.status[i]
    ensures forall sol | Solution(s0.board, sol) && Respects(s0.board, s0.cands, sol) && v == Elimination ::
      Solution(s.board, sol)
    ensures forall sol | Solution(s0.board, sol) && Respects(s0.board, s0.cands, sol) && v == Elimination ::
      Flagged(s0.board, s0.status) ==> Flagged(s.board, s.status)
  {
    s, passes := s0, 0;
    while false in s.status && passes < limit
      invariant Good(s) && passes <= limit
      invariant false !in s0.status ==> s == s0 && passes == 0
      invariant FillsBlanks(s0.board, s.board)
      invariant forall i | 0 <= i < 9 :: s0.status[i] ==> s.status[i]
      invariant forall sol | Solution(s0.board, sol) && Respects(s0.board, s0.cands, sol) && v == Elimination ::
        Solution(s.board, sol) && Respects(s.board, s.cands, sol)
      invariant forall sol | Solution(s0.board, sol) && Respects(s0.board, s0.cands, sol) && v == Elimination ::
        Flagged(s0.board, s0.status) ==> Flagged(s.board, s.status)
      decreases limit - passes
    {
      s := Step(v, s);
      passes := passes + 1;
    }
  }

  /** One pass of the while loop: Sole Candidate over the nonets, Unique
      Candidate over the nonets, trackerObjUpdate, nakedSubset, then
      trackerObjCheck. The flags change only inside loopNonets. */
  method Step(v: Variant, s: State) returns (s': State)
    requires Good(s)
    ensures Good(s')
    ensures FillsBlanks(s.board, s'.board)
    ensures forall i | 0 <= i < 9 :: s.status[i] ==> s'.status[i]
    ensures forall sol | Solution(s.board, sol) && Respects(s.board, s.cands, sol) && v == Elimination ::
      Solution(s'.board, sol) && Respects(s'.board, s'.cands, sol)
    ensures forall sol | Solution(s.board, sol) && Respects(s.board, s.cands, sol) && v == Elimination ::
      Flagged(s.board, s.status) ==> Flagged(s'.board, s'.status)
  {
    var b2, st2 := DeduceStep(v, s.board, s.status);
    forall sol | Solution(s.board, sol) && Respects(s.board, s.cands, sol)
      ensures Respects(b2, s.cands, sol)
    {
      RespectsFewerBlanks(s.board, b2, s.cands, sol);
    }
    var b3, t3 := EliminateStep(v, b2, s.cands);
    if Flagged(b2, st2) {
      FlaggedStaysFlagged(b2, b3, st2);
    }
    s' := State(b3, t3, st2);
  }

  /** The two loopNonets calls of a pass, seen through their contract. */
  method DeduceStep(v: Variant, b: Board, st: Status) returns (b': Board, st': Status)
    requires ValidBoard(b) && |st| == 9
    ensures ValidBoard(b') && |st'| == 9 && FillsBlanks(b, b')
    ensures forall i | 0 <= i < 9 :: st[i] ==> st'[i]
    ensures forall sol | Solution(b, sol) :: Solution(b', sol)
    ensures forall sol | Solution(b, sol) :: Flagged(b, st) ==> Flagged(b', st')
  {
    b', st' := Deduce(v, b, st).0, Deduce(v, b, st).1;
    forall sol | Solution(b, sol) ensures Solution(b', sol) && (Flagged(b, st) ==> Flagged(b', st')) {
      DeduceSound(v, b, st, sol);
      if Flagged(b, st) {
        DeduceFlagged(v, b, st, sol);
      }
    }
  }

  /** The tracker half of a pass, seen through its contract:
      trackerObjUpdate, nakedSubset, then trackerObjCheck. */
  method EliminateStep(v: Variant, b: Board, t: Cands) returns (b': Board, t': Cands)
    requires ValidBoard(b) && WellFormed(t)
    ensures ValidBoard(b') && WellFormed(t') && FillsBlanks(b, b')
    ensures forall sol | Solution(b, sol) && Respects(b, t, sol) && v == Elimination ::
      Solution(b', sol) && Respects(b', t', sol)
  {
    var t2 := PruneStep(v, b, t);
    b', t' := ApplySingletons(b, t2).0, ApplySingletons(b, t2).1;
    forall sol | Solution(b, sol) && Respects(b, t2, sol)
      ensures Solution(b', sol) && Respects(b', t', sol)
    {
      SingletonsSound(b, t2, sol);
    }
  }

  /** trackerObjUpdate then nakedSubset, seen through its contract. */
  method PruneStep(v: Variant, b: Board, t: Cands) returns (t': Cands)
    requires ValidBoard(b) && WellFormed(t)
    ensures WellFormed(t') && FilledCleared(b, t')
    ensures v == Elimination ==> Keeps(b, t, t')
  {
    var t1 := RebuildStep(b, t);
    t' := NakedStep(v, b, t1);
  }

  /** trackerObjUpdate inside elimination(): the lists are filtered
      against the board, so every filled cell's list becomes empty. */
  method RebuildStep(b: Board, t: Cands) returns (t': Cands)
    requires ValidBoard(b) && WellFormed(t)
    ensures WellFormed(t') && FilledCleared(b, t')
    ensures Keeps(b, t, t')
  {
    t' := Rebuild(b, t);
    forall sol | Solution(b, sol) && Respects(b, t, sol) ensures Respects(b, t', sol) {
      RebuildSound(b, t, sol);
    }
  }

  /** The naked-subset sweeps over rows then columns, on settled lists. */
  method NakedStep(v: Variant, b: Board, t: Cands) returns (t': Cands)
    requires ValidBoard(b) && WellFormed(t) && FilledCleared(b, t)
    ensures WellFormed(t') && FilledCleared(b, t')
    ensures v == Elimination ==> Keeps(b, t, t')
  {
    if v == Elimination {
      t' := NakedElimination(b, t);
    } else {
      t' := NakedOriginal(b, t);
    }
  }

  /** The elimination variant's sweeps keep every solution digit. */
  method NakedElimination(b: Board, t: Cands) returns (t': Cands)
    requires ValidBoard(b) && WellFormed(t) && FilledCleared(b, t)
    ensures WellFormed(t') && FilledCleared(b, t')
    ensures Keeps(b, t, t')
  {
    t' := NakedSubset.Run(Elimination, b, t);
    NakedSubset.RunShrinks(Elimination, b, t);
    ClearedStaysCleared(b, t, t');
    NakedSoundAll(b, t);
  }

  method NakedOriginal(b: Board, t: Cands) returns (t': Cands)
    requires ValidBoard(b) && WellFormed(t) && FilledCleared(b, t)
    ensures WellFormed(t') && FilledCleared(b, t')
  {
    t' := NakedSubset.Run(Original, b, t);
    NakedSubset.RunShrinks(Original, b, t);
    ClearedStaysCleared(b, t, t');
  }

  /** Every solution that the lists allow before the sweeps, they allow after. */
  lemma NakedSoundAll(b: Board, t: Cands)
    requires ValidBoard(b) && Shaped(t) && FilledCleared(b, t)
    ensures Keeps(b, t, NakedSubset.Run(Elimination, b, t))
  {
    forall sol | Solution(b, sol) && Respects(b, t, sol) ensures Respects(b, NakedSubset.Run(Elimination, b, t), sol) {
      NakedSubset.NakedSubsetSound(b, t, sol);
    }
  }

  /** The state the engine starts from: the puzzle, every digit a
      candidate everywhere (trackerObjDefaults), and no nonet flagged. */
  function Initial(b: Board): (s: State)
    requires ValidBoard(b)
    ensures Good(s) && s.board == b
    ensures forall i | 0 <= i < 9 :: !s.status[i]
  {
    State(b, Defaults(), seq(9, _ => false))
  }

  /** The initial tracker holds every solution digit, and no flag is set. */
  lemma InitialRespects(b: Board, sol: Board)
    requires ValidBoard(b) && Solution(b, sol)
    ensures Respects(b, Initial(b).cands, sol)
    ensures Flagged(b, Initial(b).status)
  {
  }

  const ElimPasses: nat := 6
  const OriginalPasses: nat := 5

  /** elimSolveIt: at most six passes, fewer only when every nonet is
      flagged. Givens are kept, a solution of the puzzle is never
      contradicted, and once every nonet is flagged the board is that
      solution. */
  method ElimSolveIt(b: Board) returns (s: State, passes: nat)
    requires ValidBoard(b)
    ensures Good(s) && passes <= ElimPasses
    ensures passes < ElimPasses ==> false !in s.status
    ensures FillsBlanks(b, s.board)
    ensures forall sol | Solution(b, sol) :: Solution(s.board, sol)
    ensures forall sol | Solution(b, sol) :: false !in s.status ==> s.board == sol
  {
    s, passes := Drive(Elimination, ElimPasses, Initial(b));
    forall sol | Solution(b, sol) ensures false !in s.status ==> s.board == sol {
      InitialRespects(b, sol);
      if false !in s.status {
        AllFlaggedSolved(s.board, s.status, sol);
      }
    }
  }

  /** solveIt of the older file: at most five passes, fewer only when
      every nonet is flagged; givens are kept. */
  method SolveIt(b: Board) returns (s: State, passes: nat)
    requires ValidBoard(b)
    ensures Good(s) && passes <= OriginalPasses
    ensures passes < OriginalPasses ==> false !in s.status
    ensures FillsBlanks(b, s.board)
  {
    s, passes := Drive(Original, OriginalPasses, Initial(b));
  }

  /** With every nonet flagged and full, a board extended by a solution is
      that solution. */
  lemma AllFlaggedSolved(b: Board, st: Status, sol: Board)
    requires ValidBoard(b) && |st| == 9 && false !in st && Flagged(b, st) && Solution(b, sol)
    ensures b == sol
  {
    forall n | 0 <= n < 9 ensures NonetFull(b, n) {
      assert st[n];
    }
    NonetsFullBoard(b);
    forall r | 0 <= r < 9 ensures b[r] == sol[r] {
      assert forall c | 0 <= c < 9 :: b[r][c] == sol[r][c];
    }
  }

  /* Soundness of the steps of a pass. */

  /** A cell step never contradicts a solution of the puzzle. */
  lemma CellStepSound(f: Technique, b: Board, n: int, k: int, sol: Board)
    requires ValidBoard(b) && 0 <= n < 9 && 0 <= k < 9 && Solution(b, sol)
    ensures Solution(CellStep(f, b, n, k), sol)
  {
    var r, c := NonetRow(n, k), NonetCol(n, k);
    NonetCellsInNonet(n, k);
    if b[r][c] == 0 && Propose(f, b, n, r, c).Some? {
      ProposeSound(f, b, r, c, sol);
      SolutionAfterWrite(b, sol, r, c);
    }
  }

  lemma {:induction false} NonetCellsSound(f: Technique, b: Board, n: int, k: int, sol: Board)
    requires ValidBoard(b) && 0 <= n < 9 && 0 <= k <= 9 && Solution(b, sol)
    ensures Solution(NonetCells(f, b, n, k), sol)
    decreases 9 - k
  {
    if k < 9 {
      CellStepSound(f, b, n, k, sol);
      NonetCellsSound(f, CellStep(f, b, n, k), n, k + 1, sol);
    }
  }

  lemma {:induction false} NonetsFromSound(f: Technique, b: Board, st: Status, n: int, sol: Board)
    requires ValidBoard(b) && |st| == 9 && 0 <= n <= 9 && Solution(b, sol)
    ensures Solution(NonetsFrom(f, b, st, n).0, sol)
    decreases 9 - n
  {
    if n < 9 {
      if !st[n] {
        NonetCellsSound(f, b, n, Start(), sol);
      }
      var (b1, st1) := NonetStep(f, b, st, n);
      NonetsFromSound(f, b1, st1, n + 1, sol);
    }
  }

  /** loopNonets never contradicts a solution of the puzzle, whichever
      technique and variant it runs. */
  lemma LoopNonetsSound(f: Technique, b: Board, st: Status, sol: Board)
    requires ValidBoard(b) && |st| == 9 && Solution(b, sol)
    ensures Solution(LoopNonets(f, b, st).0, sol)
  {
    NonetsFromSound(f, b, st, Start(), sol);
  }

  lemma DeduceSound(v: Variant, b: Board, st: Status, sol: Board)
    requires ValidBoard(b) && |st| == 9 && Solution(b, sol)
    ensures Solution(Deduce(v, b, st).0, sol)
  {
    var (b1, st1) := LoopNonets(Sole, b, st);
    LoopNonetsSound(Sole, b, st, sol);
    LoopNonetsSound(Unique(v), b1, st1, sol);
  }

  /** On a board that has a solution, the two loopNonets calls flag only
      full nonets. */
  lemma DeduceFlagged(v: Variant, b: Board, st: Status, sol: Board)
    requires ValidBoard(b) && |st| == 9 && Solution(b, sol) && Flagged(b, st)
    ensures Flagged(Deduce(v, b, st).0, Deduce(v, b, st).1)
  {
    var (b1, st1) := LoopNonets(Sole, b, st);
    LoopNonetsSound(Sole, b, st, sol);
    LoopNonetsFlagged(Sole, b, st, sol);
    LoopNonetsFlagged(Unique(v), b1, st1, sol);
  }

  /** On a board that has a solution, loopNonets flags only full nonets. */
  lemma LoopNonetsFlagged(f: Technique, b: Board, st: Status, sol: Board)
    requires ValidBoard(b) && |st| == 9 && Solution(b, sol) && Flagged(b, st)
    ensures Flagged(LoopNonets(f, b, st).0, LoopNonets(f, b, st).1)
  {
    var (b1, st1) := LoopNonets(f, b, st);
    LoopNonetsVisits(f, b, st);
    LoopNonetsSound(f, b, st, sol);
    FlaggedStaysFlagged(b, b1, st);
    forall n | 0 <= n < 9 && st1[n] ensures NonetFull(b1, n) {
      if !st[n] {
        NonetSumFull(b1, n);
      }
    }
  }

  /** Filling blanks keeps full nonets full. */
  lemma FlaggedStaysFlagged(b: Board, b': Board, st: Status)
    requires ValidBoard(b) && ValidBoard(b') && |st| == 9 && Flagged(b, st) && FillsBlanks(b, b')
    ensures Flagged(b', st)
  {
  }
}
