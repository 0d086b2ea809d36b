# Sudoku solver engine, modelled in Dafny

This project models the logic of a browser Sudoku solver that ships in three
JavaScript files:

- `sudokusolver-elimination.js` is the newer propagation engine. It applies
  the techniques Sole Candidate, Unique Candidate and Naked Subset (pair
  form) to the nonets (3x3 blocks). It keeps a per-cell candidate tracker
  (`trackerObj`) and runs at most six passes.
- `sudokusolver.js` is the older engine. Its Unique Candidate pre-check
  looks only at the nonet, and its Naked Subset has no both-present check
  and no rebuild. Its column scan builds its cell keys from swapped loop
  indices. It runs at most five passes.
- `sudokusolver-recursive.js` is a depth-first backtracking solver. It
  fills the first blank cell in row-major order with digits in ascending
  order.

The sdk helpers (`extract*`, `getNonetXY`, `trackerObj*`, `loopNonets`,
`loopNonetCells`, `updateNonetStatus`) are the same in both engines, so
they are defined once. Where the two engines differ, the `Variant`
parameter (`Elimination` or `Original`) selects the behaviour.

The board is a `seq<seq<int>>` of 9 rows of 9 cells, with 0 for a blank
(`null` in the source). The tracker is a 9x9 grid of ascending digit lists,
indexed by (row, column) instead of the string keys `"r{row}c{col}"`. The
global board, tracker and `nonetsStatus` array become explicit parameters
and results, collected in `Driver.State`.

Modules, one per file, from the bottom up:

- `Common`: `Option` and `Variant`.
- `Digits`: deduplication, sums, and the counting behind "45 minus the sum".
- `Grid`: nonet geometry, the extract helpers, and Sudoku's rule
  (`Admissible`, `Consistent`, `Solution`).
- `Tracker`: `trackerObj*`.
- `Techniques`: Sole Candidate and Unique Candidate.
- `NakedSubset`: `nakedSubset`, with its row and column scans.
- `Driver`: `loopNonets`, `updateNonetStatus`, and the pass loops
  `elimSolveIt` and `solveIt`.
- `Backtracking`: `findNextNull` and `solveRecursive`.

A recurring partner of the propagation steps is soundness against an
independent reference. `Grid.Solution(b, s)` says that `s` is a full board
without duplicates that agrees with every given of `b`. Every step that
writes a digit or drops a candidate is proved never to contradict such an
`s`.

## Model

| member | source | states |
|---|---|---|
| Grid.NonetXY | sudokusolver-elimination.js:481-502 | The switch on the nonet number gives the top-left corner (3·(n/3), 3·(n%3)) for every n in 0..8. |
| Grid.GetNonet | sudokusolver-recursive.js:107-134 | The nested row and column comparisons give the nonet 3·(r/3) + c/3. Its corner is the top-left of the 3x3 square holding (r, c). |
| Grid.NonetPartition | sudokusolver-elimination.js:481-502 | A cell lies in the square anchored at NonetXY(n) exactly when n is GetNonet of that cell, so the nine squares partition the 81 cells. |
| Grid.NonetIndex | sudokusolver-recursive.js:137-158 | Every cell is the k-th row-major cell of its own nonet for some k in 0..8. |
| Grid.NonetCellsInNonet | sudokusolver-elimination.js:408-412 | The k-th cell visited by a nonet's two nested loops lies in that nonet. |
| Grid.NonetCellsDistinct | sudokusolver-elimination.js:408-412 | The nine cells a nonet's loops visit are pairwise distinct. |
| Grid.NonZero | sudokusolver-elimination.js:449-457 | The skip-the-nulls filter keeps exactly the non-blank values. |
| Grid.ExtractRow | sudokusolver-elimination.js:449-457 | A value is extracted exactly when it is non-blank and some cell of the row holds it. |
| Grid.ExtractCol | sudokusolver-elimination.js:460-468 | A value is extracted exactly when it is non-blank and some cell of the column holds it. |
| Grid.ExtractNonetAll | sudokusolver-elimination.js:438-446 | Nine entries, where entry k is the k-th cell of the nonet, blanks included. |
| Grid.ExtractNonet | sudokusolver-recursive.js:72-82 | A value is extracted exactly when it is non-blank and some cell of the nonet holds it. This also models extractNonetUnique at sudokusolver-elimination.js:425-435. |
| Grid.Gathered | sudokusolver-elimination.js:39-43 | The concatenated nonet, row and column values hold digits only, and hold exactly the values of the three extractions. |
| Grid.GatheredIsForbidden | sudokusolver-elimination.js:39-43 | For a cell's own nonet, a digit is gathered exactly when Sudoku's rule forbids it at that cell. |
| Grid.Set | sudokusolver-recursive.js:43 | Writing one cell changes that cell and no other. |
| Grid.Legal | sudokusolver-recursive.js:41 | The three `indexOf` tests before a trial write: the digit is absent from the cell's nonet, row and column values. This is a definition. Its meaning, Sudoku's rule at the cell, is proved by Grid.LegalIsAdmissible. |
| Grid.LegalIsAdmissible | sudokusolver-recursive.js:34-41 | The source's test (absent from the extracted nonet, row and column) holds exactly when no other cell of the row, column or nonet holds the digit. |
| Grid.WriteKeepsConsistent | sudokusolver-recursive.js:41-43 | Writing a digit that passes the legality test into a board without duplicates keeps it free of duplicates. |
| Grid.SolutionConsistent | sudokusolver-recursive.js:17-55 | A puzzle that has a legal completion has no duplicates itself. |
| Grid.SolutionAdmissible | sudokusolver-recursive.js:34-41 | The digit a solution puts in a blank cell passes the legality test on the puzzle. |
| Grid.SolutionAfterWrite | sudokusolver-recursive.js:43 | Writing the solution's own digit into a cell keeps that solution a completion of the board. |
| Grid.NonetHasEveryDigit | sudokusolver-elimination.js:86-126 | A full board without duplicates holds every digit in every nonet. Unique Candidate relies on this. |
| Grid.ErrorFree | sudokusolver-elimination.js:236-270 | errorCheckBoard's three loops: every nonet, row and column holds each digit 1..9. This is a definition. Grid.ErrorFreeIffSolved proves it holds exactly on full boards without duplicates. |
| Grid.ErrorFreeIffSolved | sudokusolver-elimination.js:236-271 | errorCheckBoard reports no missing digit in any nonet, row or column exactly when the board is full and has no duplicates. |
| Grid.ErrorFreeSolved | sudokusolver-elimination.js:236-271 | A board that errorCheckBoard accepts is full and has no duplicates. |
| Grid.NonetSumFull | sudokusolver-elimination.js:472-477 | On a board without duplicates, a nonet's cells (blanks counted as 0) sum to 45 exactly when none of them is blank. |
| Grid.NonetsFullBoard | sudokusolver-elimination.js:216-218 | When every nonet is full, so is the board. The loop's exit on all flags set therefore means a full board. |
| Digits.Sum | sudokusolver-elimination.js:59 | The left-to-right sum that `reduce((a, b) => a + b)` computes. This is a definition. The source calls it only on non-empty lists, so reduce's error on an empty array never arises. Digits.MissingBySum and Digits.NineSumTest state what the sums mean. |
| Digits.DedupInto | sudokusolver-elimination.js:45-53 | The unique-values loop yields a duplicate-free list holding exactly the values of the accumulator and the input. |
| Digits.Dedup | sudokusolver-elimination.js:45-53 | The deduplicated list has no duplicates and the same members as the input. |
| Digits.MissingBySum | sudokusolver-elimination.js:55-62 | For a list of digits, the deduplicated list has 8 elements exactly when one digit of 1..9 is absent, and then that digit is 45 minus the deduplicated sum. |
| Digits.NineSumTest | sudokusolver-elimination.js:472-477 | Nine entries that are blanks or distinct digits sum to 45 exactly when none is blank. |
| Digits.NineDistinctDigits | sudokusolver-elimination.js:236-271 | Nine distinct digits are all of 1..9. |
| Digits.NineCoveringValues | sudokusolver-elimination.js:236-271 | Nine values covering all of 1..9 are distinct digits. This is the converse used by errorCheckBoard. |
| Techniques.SoleCandidate | sudokusolver-elimination.js:37-63 | A returned value is the only digit absent from the gathered values. `false` is returned exactly when no digit is the only absent one. |
| Techniques.SoleCandidateForced | sudokusolver.js:121-147 | For a cell's own nonet, Sole Candidate returns d exactly when d is the one digit Sudoku's rule still admits at the cell. This holds for both engines, which share the code. |
| Techniques.SoleCandidateSound | sudokusolver-elimination.js:37-63 | A digit returned for a blank cell equals that cell's digit in every solution of the puzzle. |
| Techniques.PreCheck | sudokusolver-elimination.js:89 | The pre-check on digit i. The digit must be absent from the nonet's values. In the elimination variant it must also be absent from the current cell's row and column values, while the older variant (sudokusolver.js:173) checks the nonet only. This is a definition, used by the contract of Techniques.UniqueCandidate. |
| Techniques.Winner | sudokusolver-elimination.js:93-116 | The blank-cell loop that clears `winnerFlag`. Every blank cell of the nonet, other than the current cell, whose row and column values both lack the digit makes it fail. This is a definition, used by the contract of Techniques.UniqueCandidate. |
| Techniques.UniqueFrom | sudokusolver-elimination.js:86-126 | The digit loop from i returns the first qualifying digit at or after i, or `false` when no digit from i to 9 qualifies. |
| Techniques.UniqueCandidate | sudokusolver-elimination.js:67-127 | Returns the smallest digit that passes the pre-check and that no other blank nonet cell can take, or `false` when no digit qualifies. The Variant selects the pre-check. |
| Techniques.UniqueCandidateLegal | sudokusolver-elimination.js:89 | The elimination variant only returns digits that Sudoku's rule admits at the cell. |
| Techniques.UniqueCandidateSound | sudokusolver.js:170-207 | On a puzzle with a solution, both variants return the solution's digit for the blank cell. |
| Techniques.OriginalUniqueWritesConflict | sudokusolver.js:173 | Exhibits a board on which the older pre-check returns 1 for a cell whose row already holds 1, while the elimination variant does not return 1. |
| Tracker.SublistFacts | sudokusolver-elimination.js:366-371 | A list obtained by deleting elements is no longer than the original, holds only its values, and stays ascending. |
| Tracker.ShrinksTransitive | sudokusolver-elimination.js:328-363 | "Only loses candidates" composes across successive tracker updates. |
| Tracker.Defaults | sudokusolver-elimination.js:319-325 | Every cell's list holds exactly the digits 1..9, ascending. |
| Tracker.Remove | sudokusolver-elimination.js:366-371 | The filter keeps exactly the list's values that are not in `arr`, in order. It is a sublist, ascending and digit-only when the input is, and the identity when nothing is removed. |
| Tracker.Rebuild | sudokusolver-elimination.js:328-363 | Afterwards filled cells have [] and no blank cell keeps a gathered value. Every list only shrinks and stays ascending digits. |
| Tracker.RebuildCell | sudokusolver-elimination.js:335-359 | A filled cell gets []. A blank cell's list drops the gathered values and keeps only old candidates. |
| Tracker.RebuildKeepsAdmissible | sudokusolver-elimination.js:328-363 | A blank cell keeps a candidate exactly when Sudoku's rule still admits it there. |
| Tracker.SettledIsFixed | sudokusolver-elimination.js:328-363 | Rebuilding a tracker that is already settled against the board changes nothing. |
| Tracker.RebuildIdempotent | sudokusolver-elimination.js:328-363 | Two rebuilds with no board change give the same lists as one. |
| Tracker.RebuildSound | sudokusolver-elimination.js:328-363 | A rebuild never drops the digit a solution puts in a blank cell. |
| Tracker.RespectsFewerBlanks | sudokusolver-elimination.js:413-417 | Filling more cells keeps the property "every blank cell's list holds the solution digit". |
| Tracker.ApplySingletons | sudokusolver-elimination.js:375-386 | Each one-element list's digit is written to its cell and no other cell changes. After the rebuild, filled cells have [], lists only shrink, and no given is overwritten when filled cells had no candidates. |
| Tracker.SingletonsFillBlanksLegally | sudokusolver.js:419-429 | On a settled tracker, singleton placement keeps every filled cell, and each digit it writes is admissible on the board it started from. |
| Tracker.SingletonsNoop | sudokusolver-elimination.js:375-386 | With no one-element list, placement leaves board and settled tracker unchanged. |
| Tracker.SingletonsSound | sudokusolver-elimination.js:375-386 | When every blank's list holds the solution digit, placement keeps the solution a completion of the board, and the rebuilt lists still hold it. |
| Tracker.SingletonsKeepSolution | sudokusolver-elimination.js:375-386 | Placement keeps the solution a completion of the board and never blanks a filled cell. |
| NakedSubset.MatchesPair | sudokusolver-elimination.js:146 | A two-element list that compares equal at index 0 and 1 is a copy of the anchor's first two candidates. |
| NakedSubset.LineRow | sudokusolver.js:246-261 | The row of the cell at position k of the line scanned in step (i, j): i for the row scan, k for the intended column scan, and j for the older column scan, whose keys `r{row}c{nextRow}` and `r{row}c{rowRemoval}` keep the anchor's row. The geometry is stated by NakedSubset.ScanKeys. |
| NakedSubset.LineCol | sudokusolver-elimination.js:173-190 | The column of the cell at position k of the scanned line: k for the row scan, i for the intended column scan, and k for the older column scan. The geometry is stated by NakedSubset.ScanKeys. |
| NakedSubset.AnchorPos | sudokusolver.js:246-251 | The position of the anchor `r{row}c{col}` within the line that scan step (i, j) walks: j for the row and intended column scans, and i (the column) for the older column scan, which walks the anchor's row. |
| NakedSubset.ScanKeys | sudokusolver.js:246-261 | The row scan anchors at (i, j) and walks row i. The intended column scan anchors at (j, i) and walks column i. The older column scan anchors at (j, i) but walks row j, so its partner at position i is the anchor itself, while in the other two scans only position j is the anchor. |
| NakedSubset.At | sudokusolver-elimination.js:146 | Reading index p of a list: the element, or `undefined` past the end. |
| NakedSubset.Matches | sudokusolver-elimination.js:145-146 | The partner test: the partner list has length 2, and its entries 0 and 1 equal the anchor's entries 0 and 1. This is a definition. NakedSubset.MatchesPair proves that a match is exactly the anchor's pair. |
| NakedSubset.Triggered | sudokusolver-elimination.js:153-155 | The removal test: more than two candidates and, in the elimination variant, both pair digits present. The older variant (sudokusolver.js:232) tests the length only. This is a definition. Its effect is stated by NakedSubset.SweepEffect. |
| NakedSubset.Put | sudokusolver-elimination.js:153 | Replacing one cell's list changes that list and no other. |
| NakedSubset.SweepStep | sudokusolver-elimination.js:148-158 | One removal step keeps lists shaped and well-formed. |
| NakedSubset.Sweep | sudokusolver-elimination.js:149-161 | The removal loop from position k keeps the tracker 9x9 and keeps every list ascending, duplicate-free and within 1..9. NakedSubset.SweepEffect gives its closed-form effect, and NakedSubset.SweepSound its soundness. |
| NakedSubset.PartnerStep | sudokusolver-elimination.js:145-162 | One partner test, followed by a sweep when the partner matches the anchor's current list, keeps the tracker's shape and well-formedness. Its soundness is NakedSubset.PartnerStepSound. |
| NakedSubset.Partners | sudokusolver-elimination.js:143-164 | The partner loop from position k keeps the tracker's shape and well-formedness. NakedSubset.PartnersSound proves it keeps solution digits, and NakedSubset.PartnersShrinks that it only removes candidates. |
| NakedSubset.AnchorStep | sudokusolver-elimination.js:140-165 | An anchor with exactly two candidates starts the partner loop at the next position, and the tracker keeps its shape and well-formedness. Its soundness is NakedSubset.AnchorStepSound. |
| NakedSubset.ScanLine | sudokusolver-elimination.js:137-166 | The anchor loop of one line keeps the tracker's shape and well-formedness. Its soundness is NakedSubset.ScanLineSound. |
| NakedSubset.ScanLines | sudokusolver-elimination.js:135-167 | The outer loop over lines i..8 keeps the tracker's shape and well-formedness. Its soundness is NakedSubset.ScanLinesSound. |
| NakedSubset.RowsThenCols | sudokusolver-elimination.js:210-211 | The row scan, then the variant's column scan (the intended one, or the older swapped-key one), keeps the tracker's shape and well-formedness. Its soundness for the elimination variant is NakedSubset.RowsThenColsSound. |
| NakedSubset.Run | sudokusolver-elimination.js:132-211 | nakedSubset (rows, then columns) keeps every list ascending digits. |
| NakedSubset.SweepStepShrinks | sudokusolver.js:229-236 | A removal step, with or without the rebuild, only removes candidates. |
| NakedSubset.SweepShrinks | sudokusolver-elimination.js:148-158 | The removal loop only removes candidates. |
| NakedSubset.PartnersShrinks | sudokusolver-elimination.js:141-160 | The partner loop only removes candidates. |
| NakedSubset.ScanLineShrinks | sudokusolver-elimination.js:136-163 | One line's anchor loop only removes candidates. |
| NakedSubset.ScanLinesShrinks | sudokusolver-elimination.js:134-164 | A whole row or column scan only removes candidates. |
| NakedSubset.RunShrinks | sudokusolver-elimination.js:132-211 | nakedSubset, in either engine, only ever removes candidates. |
| NakedSubset.PutRemoveSettled | sudokusolver-elimination.js:153 | Removing values from one list of a settled tracker keeps it settled. |
| NakedSubset.LinePos | sudokusolver-elimination.js:144 | The k-th cell of a scanned line is exactly the cell of that line at position k. |
| NakedSubset.SweepStepEffect | sudokusolver-elimination.js:148-158 | On a settled tracker, a step changes only the cell at position k, and only when it has more than two candidates (elimination: including both pair digits). |
| NakedSubset.SweepFrom | sudokusolver-elimination.js:148-158 | The removal loop from k changes exactly the triggered cells of the line at positions k..8, which lose the pair digits. Nothing else changes. |
| NakedSubset.SweepEffect | sudokusolver-elimination.js:148-158 | A whole sweep in the elimination engine removes both pair digits from each cell of the line with more than two candidates that holds both. Cells with at most two candidates or only one pair digit are unchanged. In the older engine every cell with more than two candidates loses the pair digits. |
| NakedSubset.LineDistinct | sudokusolver-elimination.js:136-147 | Two distinct positions of a scanned line hold distinct digits on a solved board. |
| NakedSubset.TargetSpared | sudokusolver-elimination.js:148-158 | When two cells of a line hold the two pair digits in the solution, no other cell of the line holds either. |
| NakedSubset.SweepStepSound | sudokusolver-elimination.js:148-158 | A removal step keeps the solution digit of every blank cell whose solution digit is outside the pair. |
| NakedSubset.SweepSound | sudokusolver-elimination.js:148-158 | A sweep keeps every solution digit when two cells with at most two candidates hold the pair's digits in the solution. |
| NakedSubset.PartnerStepSound | sudokusolver-elimination.js:141-147 | A partner test followed by its sweep keeps every solution digit, and the anchor keeps at most the pair. |
| NakedSubset.MatchSound | sudokusolver-elimination.js:145-147 | A genuine match (a second cell at a later position of the line) makes the sweep sound. |
| NakedSubset.PartnersSound | sudokusolver-elimination.js:141-160 | The partner loop keeps every solution digit. |
| NakedSubset.AnchorStepSound | sudokusolver-elimination.js:139-161 | One anchor of the intended row or column scan keeps every solution digit. |
| NakedSubset.ScanLineSound | sudokusolver-elimination.js:136-163 | One line of the intended scans keeps every solution digit. |
| NakedSubset.ScanLinesSound | sudokusolver-elimination.js:134-164 | A whole intended scan keeps every solution digit, and filled cells keep empty lists. |
| NakedSubset.NakedSubsetSound | sudokusolver-elimination.js:132-211 | The elimination engine's nakedSubset never removes the digit a solution puts in a blank cell. |
| NakedSubset.RowsThenColsSound | sudokusolver-elimination.js:207-210 | nSRows followed by nSCols keeps every solution digit. |
| NakedSubset.ColsAsWrittenSelfPair | sudokusolver.js:254-266 | Exhibits a tracker on which the older column scan pairs a cell with itself and strips [1, 2] from a neighbour's [1, 2, 3], although no second cell holds [1, 2]. |
| NakedSubset.PartnersNoMatch | sudokusolver-elimination.js:141-147 | With no matching partner left, the partner loop changes nothing. |
| Driver.Propose | sudokusolver-elimination.js:414 | The technique handed to loopNonetCells proposes only digits 1..9 or `false`. |
| Driver.ProposeSound | sudokusolver-elimination.js:414-417 | Any digit proposed for a blank cell equals that cell's solution digit. |
| Driver.CellStep | sudokusolver-elimination.js:413-418 | A cell step writes only the visited blank cell, and only a proposed digit. |
| Driver.NonetCells | sudokusolver-elimination.js:411-421 | The cell loop from k fills only blank cells, and only in nonet n. |
| Driver.LoopNonetCells | sudokusolver-elimination.js:408-422 | loopNonetCells never overwrites a non-blank cell and touches only its nonet. |
| Driver.UpdateNonetStatus | sudokusolver-elimination.js:472-477 | Only flag n can change, and it ends up set exactly when it was set or the nine cells sum to 45. |
| Driver.NonetStep | sudokusolver-elimination.js:398-402 | A flagged nonet is skipped. An unflagged one has its cells filled and its flag recomputed, and other flags are kept. |
| Driver.NonetsFrom | sudokusolver-elimination.js:398-403 | The nonet loop from n fills only blanks and never clears a flag. |
| Driver.NonetsFromSkips | sudokusolver-elimination.js:399 | Nonets before n, and nonets already flagged, keep all their cells. |
| Driver.NonetsFromFlags | sudokusolver-elimination.js:396-404 | Flag i ends up set exactly when it was set or nonet i's final cells sum to 45. |
| Driver.NonetUnchanged | sudokusolver-elimination.js:438-446 | Boards that agree on nonet n's cells extract the same nonet values. |
| Driver.LoopNonets | sudokusolver-elimination.js:396-404 | loopNonets only fills blanks and never clears a flag. |
| Driver.LoopNonetsVisits | sudokusolver-elimination.js:396-404 | Cells of already-flagged nonets are never visited, and each flag ends up set exactly when it was set or its nonet sums to 45. |
| Driver.Deduce | sudokusolver-elimination.js:220-222 | Sole Candidate then Unique Candidate over the nonets only fill blanks and never clear a flag. |
| Driver.ClearedStaysCleared | sudokusolver-elimination.js:224 | Filled cells with empty lists keep empty lists when lists only shrink. |
| Driver.Drive | sudokusolver-elimination.js:216-233 | The bounded loop makes at most `limit` passes, and fewer only when every flag is set. It never overwrites a given. In the elimination engine it keeps every solution a completion of the board, and flags only full nonets. |
| Driver.Step | sudokusolver-elimination.js:219-231 | One pass fills only blanks and never clears a flag. In the elimination engine it never contradicts a solution and keeps every solution digit in the lists. |
| Driver.DeduceStep | sudokusolver-elimination.js:220-222 | The two technique loops keep every solution a completion of the board, and keep "flagged means full". |
| Driver.EliminateStep | sudokusolver-elimination.js:224-229 | Rebuild, Naked Subset and singleton placement fill only blanks. In the elimination engine they keep every solution and its candidate digits. |
| Driver.PruneStep | sudokusolver-elimination.js:224-225 | Rebuild then Naked Subset leave filled cells with [] and, in the elimination engine, keep every solution digit. |
| Driver.RebuildStep | sudokusolver-elimination.js:224 | trackerObjUpdate leaves filled cells with [] and keeps every solution digit. |
| Driver.NakedStep | sudokusolver.js:295 | Either engine's nakedSubset keeps lists well-formed and filled cells empty. The elimination engine's version keeps every solution digit. |
| Driver.NakedElimination | sudokusolver-elimination.js:225 | The elimination engine's nakedSubset keeps every solution digit. |
| Driver.NakedOriginal | sudokusolver.js:295 | The older nakedSubset keeps lists well-formed and filled cells' lists empty. |
| Driver.NakedSoundAll | sudokusolver-elimination.js:132-211 | Every solution the lists allow before the elimination engine's nakedSubset, they allow after it. |
| Driver.Initial | sudokusolver-elimination.js:18-30 | The engine starts from the puzzle, the default lists and no nonet flagged. |
| Driver.InitialRespects | sudokusolver-elimination.js:319-325 | The default lists hold every solution digit, and no flag is set. |
| Driver.ElimSolveIt | sudokusolver-elimination.js:216-233 | At most six passes, fewer only when every nonet is flagged. Givens are kept, every solution of the puzzle stays a completion, and an all-flagged board is that solution. |
| Driver.SolveIt | sudokusolver.js:280-301 | At most five passes, fewer only when every nonet is flagged. Givens are kept. |
| Driver.AllFlaggedSolved | sudokusolver-elimination.js:218 | With every nonet flagged and full, a board extended by a solution is that solution. |
| Driver.CellStepSound | sudokusolver-elimination.js:413-418 | A cell step keeps every solution a completion of the board. |
| Driver.NonetCellsSound | sudokusolver-elimination.js:411-421 | The cell loop keeps every solution a completion of the board. |
| Driver.NonetsFromSound | sudokusolver-elimination.js:398-403 | The nonet loop keeps every solution a completion of the board. |
| Driver.LoopNonetsSound | sudokusolver.js:439-447 | loopNonets with either technique and either engine keeps every solution a completion of the board. |
| Driver.DeduceSound | sudokusolver-elimination.js:220-222 | The two technique loops keep every solution a completion of the board. |
| Driver.DeduceFlagged | sudokusolver-elimination.js:220-222 | On a solvable board, the two technique loops flag only full nonets. |
| Driver.LoopNonetsFlagged | sudokusolver-elimination.js:472-477 | On a solvable board, loopNonets flags only full nonets. |
| Driver.FlaggedStaysFlagged | sudokusolver-elimination.js:229 | Filling blanks keeps full nonets full. |
| Backtracking.FindInRow | sudokusolver-recursive.js:62-66 | Returns the first blank of the row from column c, or `false` exactly when none remains. |
| Backtracking.FindFromRow | sudokusolver-recursive.js:60-69 | Returns the first blank from row r in row-major order, or `false` exactly when none remains. |
| Backtracking.FindNextNull | sudokusolver-recursive.js:60-69 | A returned cell is a blank of the board. |
| Backtracking.FindNextNullNone | sudokusolver-recursive.js:23-25 | findNextNull returns `false` exactly when the board has no blank cell. |
| Backtracking.FindNextNullFirst | sudokusolver-recursive.js:60-69 | findNextNull returns (r, c) exactly when (r, c) is blank and every cell before it in row-major order is filled. |
| Backtracking.BlanksFromSet | sudokusolver-recursive.js:43 | Overwriting one cell changes the blank count of any suffix of positions by that cell alone. |
| Backtracking.BlanksSet | sudokusolver-recursive.js:43 | Overwriting one cell changes the blank count by that cell alone. |
| Backtracking.TrialFewerBlanks | sudokusolver-recursive.js:43-45 | Writing a trial digit leaves one blank fewer, so the recursion terminates with depth at most 81. |
| Backtracking.Solve | sudokusolver-recursive.js:17-55 | `true` only with a full board. `false` with the board exactly as at entry. Givens are never changed. |
| Backtracking.TryDigits | sudokusolver-recursive.js:34-52 | The digit loop at (r, c) from i on: on failure the cell is reset to blank and nothing else differs. On success the board is full, and non-blank cells other than (r, c) are kept. |
| Backtracking.LegalIgnoresTrial | sudokusolver-recursive.js:34-41 | The earlier trial digit left in the cell does not affect the legality test of the next digit. |
| Backtracking.SolveSound | sudokusolver-recursive.js:17-55 | On a puzzle without duplicates, a `true` answer comes with a legal completion of the puzzle: every row, column and nonet holds 1..9 once. |
| Backtracking.TryDigitsSound | sudokusolver-recursive.js:34-52 | The digit loop at a blank cell succeeds only with a completion of the board it started from. |
| Backtracking.SoundAtLegalDigit | sudokusolver-recursive.js:41-49 | Trying a legal digit succeeds only with a completion of the board. |
| Backtracking.SoundTrialSolved | sudokusolver-recursive.js:43-49 | A successful recursive call on the trial board returns a completion of the board before the trial. |
| Backtracking.TrialConsistent | sudokusolver-recursive.js:41-43 | Writing a legal digit into the blank keeps the board free of duplicates. |
| Backtracking.TrialStep | sudokusolver-recursive.js:41-50 | At a legal digit the loop returns the recursive result on success, and otherwise continues on the board the recursion left. |
| Backtracking.SkipStep | sudokusolver-recursive.js:41 | At an illegal digit the loop moves on to the next digit. |
| Backtracking.SolutionOfTrial | sudokusolver-recursive.js:43 | A completion of the trial board is a completion of the board before the trial. |
| Backtracking.SolveComplete | sudokusolver-recursive.js:17-55 | A puzzle that has a legal completion is always answered `true`. |
| Backtracking.TryDigitsComplete | sudokusolver-recursive.js:34-52 | The digit loop succeeds whenever it has not yet passed the solution's digit. |
| Backtracking.CompleteAtDigit | sudokusolver-recursive.js:41-49 | At the solution's digit, the trial is legal and the recursive call succeeds. |
| Backtracking.CompleteBeforeDigit | sudokusolver-recursive.js:34-50 | Before the solution's digit, the loop either succeeds at once or carries on. |
| Backtracking.SolutionDigitTried | sudokusolver-recursive.js:41-43 | The solution's digit passes the legality test, and writing it keeps the solution a completion. |
| Backtracking.SolveIffSolvable | sudokusolver-recursive.js:17-55 | On a puzzle without duplicates, solveRecursive answers `true` exactly when a legal completion exists. |

## Left out

- DOM rendering is not modelled: `printBoard`, the `given`/`notgiven` class
  marking, and `style.display` toggling are user interface only.
- Form event listeners, `parseInt` of form fields and the sample puzzle
  loaders are not modelled. They only move values between the page and the
  board. The model takes an already normalised 9x9 board with 0 for blank.
- The page-level reset is not modelled as an operation.
  `elimResetPlaySpace` (sudokusolver-elimination.js:508-530) clears
  `nonetsStatus`, rebuilds `trackerObj` with its defaults and blanks the
  board. That is the state `Driver.Initial` builds, and the newer page
  disables its submit button until a reset, so every solve there starts
  from it. The older page has no reset. It sets `nonetsStatus` and
  `trackerObj` once at load (sudokusolver.js:104, 111-114), and its submit
  handler (sudokusolver.js:553-577) calls `solveIt()` without clearing them,
  so a later submission starts from the previous puzzle's flags and lists.
- Console output is not modelled: `console.log`, `printBoardConsole`,
  `printTrackerObj`, and the logging side of `errorCheckBoard`. The test
  `errorCheckBoard` performs is kept as the predicate `Grid.ErrorFree`.
- The busy-waits `sdk.wait` and `sdk.pausecomp` in `sudokusolver.js` are
  timing only and are not modelled.
- The string keys `"r{row}c{col}"` are not modelled. The model indexes the
  tracker by (row, column). Parsing them back with `keys[1]` and `keys[3]`
  yields the same row and column.
- JavaScript's `null` is modelled as 0. `null + n` and `!null` treat a
  blank as 0 and as false, which matches the model's sums and blank tests.
  A technique returning the number 0 cannot happen, because every returned
  value is a digit.
- The re-creation of the `sdk` object and the global variables is not
  modelled. Globals are explicit parameters and results.
- Driver.Drive: it is a method with a loop, and its solution-preservation
  clauses hold for the elimination engine only. For the older engine only
  the structural facts are stated (givens kept, flags monotone, pass bound).
  Its Unique Candidate is sound on solvable boards. Its column scan can pair
  a cell with itself and strip that cell's pair from the rest of its row
  without a second cell holding the pair (see Findings). The model exhibits
  this on one hand-built tracker for a single anchor's partner loop. It does
  not exhibit a full `nakedSubset` run, from a tracker produced by
  `trackerObjUpdate`, that removes a solution digit.
- Driver.SolveIt: states the pass bound and the kept givens, not
  soundness, for the reason given for Driver.Drive. It starts from
  `Driver.Initial`, so it models the first submission after the older page
  loads. A later submission, which inherits the previous flags and tracker,
  is covered only by `Driver.Drive`, which accepts any well-formed state.
- NakedSubset.Run: its contract states well-formedness only. That
  candidates are only removed is proved separately in
  `NakedSubset.RunShrinks`, and soundness in `NakedSubset.NakedSubsetSound`,
  to keep the function's own unfolding cheap.
- Backtracking.Solve: the result is a pair (found, board) rather than an
  optional board. The board is the global `board` after the call, so
  non-corruption on failure can be stated.

## Findings

| source | as written | input that shows it | evidently intended | confidence | as-written member | corrected member |
|---|---|---|---|---|---|---|
| sudokusolver.js:173 | The Unique Candidate pre-check only asks whether the digit is absent from the nonet. It can return a digit that already sits in the cell's own row or column, and loopNonetCells then writes a duplicate. | `Techniques.GapBoard`: row 0 holds 1 at column 3, and columns 1 and 2 hold 1 lower down. For cell (0, 0) of nonet 0 the older function returns 1 although row 0 already has a 1. | Return only digits legal for the cell, as the newer file's pre-check (sudokusolver-elimination.js:89) does. | medium, not executed | Techniques.OriginalUniqueWritesConflict | Techniques.UniqueCandidateLegal |
| sudokusolver.js:254-266 | nSCols builds its keys as `r{row}c{nextRow}` and `r{row}c{rowRemoval}`. It compares and prunes along row `row` instead of down column `col`. When `nextRow` equals `col` it compares the anchor cell with itself and strips the anchor's pair from the rest of the row without a second cell holding that pair. | `NakedSubset.LonePair`: row 0 holds [1, 2] at column 1, [1, 2, 3] at column 2, and [] elsewhere. The scan for column 1 at row 0 pairs cell (0, 1) with itself and turns [1, 2, 3] into [3]. | Pair two distinct cells of one column and prune that column, as the newer file's nSCols (sudokusolver-elimination.js:171-211) does. | high, not executed | NakedSubset.ColsAsWrittenSelfPair | NakedSubset.NakedSubsetSound |
