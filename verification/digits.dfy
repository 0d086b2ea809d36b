/** Facts about lists of Sudoku digits: the deduplication loop used by the
    techniques, the `reduce` sum, and counting which digits 1..9 occur.
    The counting functions let the "45 minus the sum" trick and the
    pigeonhole arguments be proved without set cardinalities. */
module Digits {

  predicate IsDigit(d: int) { 1 <= d <= 9 }

  predicate AllDigits(s: seq<int>) {
    forall i | 0 <= i < |s| :: IsDigit(s[i])
  }

  predicate NoDup(s: seq<int>) {
    forall i, j | 0 <= i < j < |s| :: s[i] != s[j]
  }

  /** Sum of a list, as `reduce((a, b) => a + b)` computes it. */
  function Sum(s: seq<int>): int {
    if |s| == 0 then 0 else s[0] + Sum(s[1..])
  }

  /** The "filter the unique values" loop: walks `s` left to right and
      appends each value not already collected in `acc`. */
  function DedupInto(acc: seq<int>, s: seq<int>): (r: seq<int>)
    requires NoDup(acc)
    ensures NoDup(r)
    ensures forall x :: x in r <==> x in acc || x in s
    ensures |r| <= |acc| + |s|
    decreases |s|
  {
    if |s| == 0 then acc
    else if s[0] in acc then DedupInto(acc, s[1..])
    else DedupInto(acc + [s[0]], s[1..])
  }

  /** The deduplicated list of `s`, first occurrences kept in order. */
  function Dedup(s: seq<int>): (r: seq<int>)
    ensures NoDup(r)
    ensures forall x :: x in r <==> x in s
  {
    DedupInto([], s)
  }

  /** Number of digits 1..k that occur in `s`. */
  function DigitCount(s: seq<int>, k: nat): nat {
    if k == 0 then 0 else DigitCount(s, k - 1) + (if k in s then 1 else 0)
  }

  /** Sum of the digits 1..k that occur in `s`. */
  function DigitSum(s: seq<int>, k: nat): int {
    if k == 0 then 0 else DigitSum(s, k - 1) + (if k in s then k else 0)
  }

  /** 1 + 2 + ... + k. */
  function Tri(k: nat): nat {
    if k == 0 then 0 else Tri(k - 1) + k
  }

  /** `d` is the one digit of 1..9 that does not occur in `s`. */
  predicate OnlyAbsent(s: seq<int>, d: int) {
    IsDigit(d) && d !in s && forall e | 1 <= e <= 9 && e != d :: e in s
  }

  /** Counting and summing ignore order and multiplicity. */
  lemma {:induction false} SameMembers(s: seq<int>, s': seq<int>, k: nat)
    requires forall x | 1 <= x <= k :: x in s <==> x in s'
    ensures DigitCount(s, k) == DigitCount(s', k)
    ensures DigitSum(s, k) == DigitSum(s', k)
  {
    if k > 0 {
      SameMembers(s, s', k - 1);
    }
  }

  /** Adding one value in front of a list adds at most that value to the counts. */
  lemma {:induction false} Peel(x: int, rest: seq<int>, k: nat)
    ensures x !in rest ==> DigitCount([x] + rest, k) == DigitCount(rest, k) + (if 1 <= x <= k then 1 else 0)
    ensures x !in rest ==> DigitSum([x] + rest, k) == DigitSum(rest, k) + (if 1 <= x <= k then x else 0)
    ensures DigitCount([x] + rest, k) <= DigitCount(rest, k) + 1
  {
    if k > 0 {
      Peel(x, rest, k - 1);
      assert k in [x] + rest <==> k == x || k in rest;
    }
  }

  lemma {:induction false} CountAtMost(s: seq<int>, k: nat)
    ensures DigitCount(s, k) <= k
    ensures DigitCount(s, k) <= |s|
  {
    if k > 0 {
      CountAtMost(s, k - 1);
    }
    if |s| > 0 {
      assert s == [s[0]] + s[1..];
      Peel(s[0], s[1..], k);
      CountAtMost(s[1..], k);
    } else {
      NoneCounted(s, k);
    }
  }

  lemma {:induction false} NoneCounted(s: seq<int>, k: nat)
    requires |s| == 0
    ensures DigitCount(s, k) == 0
  {
    if k > 0 {
      NoneCounted(s, k - 1);
    }
  }

  /** For a duplicate-free list of digits, the count is its length and the
      digit sum is its sum. */
  lemma {:induction false} CountIsLength(s: seq<int>)
    requires NoDup(s) && AllDigits(s)
    ensures DigitCount(s, 9) == |s|
    ensures DigitSum(s, 9) == Sum(s)
  {
    if |s| == 0 {
      NoneCounted(s, 9);
      NoneSummed(s, 9);
    } else {
      assert s == [s[0]] + s[1..];
      assert s[0] !in s[1..];
      CountIsLength(s[1..]);
      Peel(s[0], s[1..], 9);
    }
  }

  lemma {:induction false} NoneSummed(s: seq<int>, k: nat)
    requires |s| == 0
    ensures DigitSum(s, k) == 0
  {
    if k > 0 {
      NoneSummed(s, k - 1);
    }
  }

  /** When every digit 1..k is counted, every digit 1..k occurs. */
  lemma {:induction false} FullCount(s: seq<int>, k: nat)
    requires DigitCount(s, k) == k
    ensures forall d | 1 <= d <= k :: d in s
    ensures DigitSum(s, k) == Tri(k)
  {
    if k > 0 {
      CountAtMost(s, k - 1);
      FullCount(s, k - 1);
    }
  }

  /** Exactly one of 1..k missing: it is found, and the digit sum is
      1 + ... + k minus it. */
  lemma {:induction false} OneMissing(s: seq<int>, k: nat) returns (m: int)
    requires k >= 1 && DigitCount(s, k) == k - 1
    ensures 1 <= m <= k && m !in s
    ensures forall e | 1 <= e <= k && e != m :: e in s
    ensures DigitSum(s, k) == Tri(k) - m
  {
    CountAtMost(s, k - 1);
    if k in s {
      m := OneMissing(s, k - 1);
    } else {
      FullCount(s, k - 1);
      m := k;
    }
  }

  /** Conversely, a list missing exactly the digit `d` counts eight digits. */
  lemma {:induction false} CountWithOneAbsent(s: seq<int>, d: int, k: nat)
    requires k <= 9 && OnlyAbsent(s, d)
    ensures DigitCount(s, k) == k - (if d <= k then 1 else 0)
  {
    if k > 0 {
      CountWithOneAbsent(s, d, k - 1);
    }
  }

  /** The heart of Sole Candidate: for a list of digits, its deduplication
      has eight elements exactly when one digit is missing, and then
      45 minus the deduplicated sum is that digit. */
  lemma MissingBySum(s: seq<int>)
    requires AllDigits(s)
    ensures |Dedup(s)| == 8 <==> exists d :: OnlyAbsent(s, d)
    ensures |Dedup(s)| == 8 ==> OnlyAbsent(s, 45 - Sum(Dedup(s)))
  {
    var u := Dedup(s);
    assert AllDigits(u) by {
      forall i | 0 <= i < |u| ensures IsDigit(u[i]) {
        assert u[i] in s;
      }
    }
    CountIsLength(u);
    SameMembers(u, s, 9);
    if |u| == 8 {
      var m := OneMissing(s, 9);
      assert Tri(9) == 45;
      assert OnlyAbsent(s, m);
    }
    if d :| OnlyAbsent(s, d) {
      CountWithOneAbsent(s, d, 9);
    }
  }

  /** Pigeonhole: nine distinct digits are all nine digits. */
  lemma NineDistinctDigits(s: seq<int>)
    requires |s| == 9 && NoDup(s) && AllDigits(s)
    ensures forall d | 1 <= d <= 9 :: d in s
  {
    CountIsLength(s);
    FullCount(s, 9);
  }

  /** Converse pigeonhole: nine values covering all nine digits are
      distinct digits. */
  lemma NineCoveringValues(s: seq<int>)
    requires |s| == 9
    requires forall d | 1 <= d <= 9 :: d in s
    ensures NoDup(s) && AllDigits(s)
  {
    AllCounted(s, 9);
    forall i | 0 <= i < 9 ensures IsDigit(s[i]) {
      if !IsDigit(s[i]) {
        var rest := s[..i] + s[i + 1..];
        DropNonDigit(s, i);
        CountAtMost(rest, 9);
      }
    }
    forall i, j | 0 <= i < j < 9 ensures s[i] != s[j] {
      if s[i] == s[j] {
        var rest := s[..i] + s[i + 1..];
        DropDuplicate(s, i, j);
        CountAtMost(rest, 9);
      }
    }
  }

  lemma {:induction false} AllCounted(s: seq<int>, k: nat)
    requires k <= 9
    requires forall d | 1 <= d <= 9 :: d in s
    ensures DigitCount(s, k) == k
  {
    if k > 0 {
      AllCounted(s, k - 1);
    }
  }

  lemma DropNonDigit(s: seq<int>, i: int)
    requires 0 <= i < |s| && !IsDigit(s[i])
    ensures DigitCount(s[..i] + s[i + 1..], 9) == DigitCount(s, 9)
  {
    var rest := s[..i] + s[i + 1..];
    forall x | 1 <= x <= 9 ensures x in s <==> x in rest {
      if x in s {
        var j :| 0 <= j < |s| && s[j] == x;
        if j < i { assert rest[j] == x; } else { assert j > i; assert rest[j - 1] == x; }
      }
      if x in rest {
        var j :| 0 <= j < |rest| && rest[j] == x;
        if j < i { assert s[j] == x; } else { assert s[j + 1] == x; }
      }
    }
    SameMembers(s, rest, 9);
  }

  lemma DropDuplicate(s: seq<int>, i: int, j: int)
    requires 0 <= i < j < |s| && s[i] == s[j]
    ensures DigitCount(s[..i] + s[i + 1..], 9) == DigitCount(s, 9)
  {
    var rest := s[..i] + s[i + 1..];
    forall x | 1 <= x <= 9 ensures x in s <==> x in rest {
      if x in s {
        var p :| 0 <= p < |s| && s[p] == x;
        if p < i { assert rest[p] == x; }
        else if p == i { assert rest[j - 1] == x; }
        else { assert rest[p - 1] == x; }
      }
      if x in rest {
        var p :| 0 <= p < |rest| && rest[p] == x;
        if p < i { assert s[p] == x; } else { assert s[p + 1] == x; }
      }
    }
    SameMembers(s, rest, 9);
  }

  /** Entries are blanks (0) or digits, and no digit occurs twice. */
  predicate DistinctOrBlank(s: seq<int>) {
    && (forall i | 0 <= i < |s| :: 0 <= s[i] <= 9)
    && (forall i, j | 0 <= i < j < |s| :: s[i] != 0 ==> s[i] != s[j])
  }

  /** The nonet-status test of the driver: nine entries that are blanks or
      distinct digits sum to 45 exactly when none of them is blank. */
  lemma NineSumTest(s: seq<int>)
    requires |s| == 9 && DistinctOrBlank(s)
    ensures Sum(s) == 45 <==> 0 !in s
  {
    BlankSum(s);
    DigitSumShort(s, 9);
    assert Tri(9) == 45;
    if 0 !in s {
      FullCount(s, 9);
    }
  }

  /** Blanks add nothing to the sum and nothing to the digit count. */
  lemma {:induction false} BlankSum(s: seq<int>)
    requires DistinctOrBlank(s)
    ensures DigitSum(s, 9) == Sum(s)
    ensures 0 in s ==> DigitCount(s, 9) < |s|
    ensures 0 !in s ==> DigitCount(s, 9) == |s|
  {
    if |s| == 0 {
      NoneCounted(s, 9);
      NoneSummed(s, 9);
    } else {
      var rest := s[1..];
      assert s == [s[0]] + rest;
      assert DistinctOrBlank(rest);
      BlankSum(rest);
      CountAtMost(rest, 9);
      if s[0] == 0 {
        SameMembers(s, rest, 9);
      } else {
        assert s[0] !in rest;
        Peel(s[0], rest, 9);
      }
    }
  }

  /** The digits 1..k present in `s` sum to at most 1 + ... + k, and to
      less when one of them is missing. */
  lemma {:induction false} DigitSumShort(s: seq<int>, k: nat)
    ensures DigitSum(s, k) <= Tri(k)
    ensures DigitCount(s, k) < k ==> DigitSum(s, k) < Tri(k)
  {
    if k > 0 {
      DigitSumShort(s, k - 1);
    }
  }
}
