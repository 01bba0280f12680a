/**
 * Frame scores and how frames are ranked by them.
 *
 * A score is a finite number or `-Infinity`, the value the worker gives a
 * frame that could not be scored. The worker ranks frames with a stable sort
 * by descending score and takes element 0; the legacy worker keeps the first
 * frame whose score is strictly greater than every score before it. Both
 * select the earliest frame with the maximal score.
 */
module Ranking {

  datatype Score = NegInf | Finite(value: real)

  /** `a < b` on scores (`-Infinity` is below every finite score). */
  predicate Below(a: Score, b: Score) {
    match (a, b)
    case (NegInf, Finite(_)) => true
    case (Finite(x), Finite(y)) => x < y
    case _ => false
  }

  /** `a <= b` on scores. */
  predicate AtMost(a: Score, b: Score) {
    !Below(b, a)
  }

  datatype ScoredFrame = ScoredFrame(path: string, score: Score)

  /** `k` is the earliest index holding a maximal score. */
  predicate IsFirstMax(xs: seq<ScoredFrame>, k: int) {
    && 0 <= k < |xs|
    && (forall j :: 0 <= j < |xs| ==> AtMost(xs[j].score, xs[k].score))
    && (forall j :: 0 <= j < k ==> Below(xs[j].score, xs[k].score))
  }

  /** At most one index is the first maximum. */
  lemma FirstMaxUnique(xs: seq<ScoredFrame>, k: int, j: int)
    requires IsFirstMax(xs, k) && 0 <= j < |xs| && j != k
    ensures !IsFirstMax(xs, j)
  {
    if j < k {
      assert !AtMost(xs[k].score, xs[j].score);
    } else {
      assert AtMost(xs[j].score, xs[k].score);
    }
  }

  /** The first maximum is unique, so any index that is one is the one `FirstMaxIndex` finds. */
  lemma FirstMaxIsIndex(xs: seq<ScoredFrame>, k: int)
    requires IsFirstMax(xs, k)
    ensures k == FirstMaxIndex(xs)
  {
    var m := FirstMaxIndex(xs);
    assert !(k < m) by {
      assert AtMost(xs[m].score, xs[k].score);
    }
    assert !(m < k) by {
      assert AtMost(xs[k].score, xs[m].score);
    }
  }

  /** The earliest index of a maximal score, computed from the back. */
  function FirstMaxIndex(xs: seq<ScoredFrame>): (k: nat)
    requires |xs| > 0
    ensures IsFirstMax(xs, k)
  {
    if |xs| == 1 then 0
    else
      var k := FirstMaxIndex(xs[1..]);
      if AtMost(xs[k + 1].score, xs[0].score) then 0 else k + 1
  }

  /**
   * Inserts `x` into a descending list of frames that all came after `x` in
   * the input: `x` goes before the first frame whose score it matches or
   * beats, which keeps equal scores in input order (stability).
   */
  function InsertDesc(x: ScoredFrame, sorted: seq<ScoredFrame>): (r: seq<ScoredFrame>)
    ensures |r| == |sorted| + 1
  {
    if |sorted| == 0 then [x]
    else if AtMost(sorted[0].score, x.score) then [x] + sorted
    else [sorted[0]] + InsertDesc(x, sorted[1..])
  }

  /** Inserting adds exactly `x` to the frames. */
  lemma {:induction false} InsertDescPermutes(x: ScoredFrame, sorted: seq<ScoredFrame>)
    ensures multiset(InsertDesc(x, sorted)) == multiset(sorted) + multiset{x}
  {
    if |sorted| > 0 && !AtMost(sorted[0].score, x.score) {
      InsertDescPermutes(x, sorted[1..]);
      assert sorted == [sorted[0]] + sorted[1..];
    }
  }

  /**
   * `xs.sort((a, b) => b.score - a.score)`: a stable sort by descending score.
   * A comparator result of NaN (two `-Infinity` scores) counts as equal.
   */
  function SortDesc(xs: seq<ScoredFrame>): (r: seq<ScoredFrame>)
    ensures |r| == |xs|
  {
    if |xs| == 0 then [] else InsertDesc(xs[0], SortDesc(xs[1..]))
  }

  /** Scores do not increase along the list. */
  predicate Descending(xs: seq<ScoredFrame>) {
    forall i, j :: 0 <= i < j < |xs| ==> AtMost(xs[j].score, xs[i].score)
  }

  lemma {:induction false} InsertDescKeepsOrder(x: ScoredFrame, sorted: seq<ScoredFrame>)
    requires Descending(sorted)
    ensures Descending(InsertDesc(x, sorted))
  {
    if |sorted| > 0 && !AtMost(sorted[0].score, x.score) {
      InsertDescKeepsOrder(x, sorted[1..]);
      InsertDescPermutes(x, sorted[1..]);
      var r := InsertDesc(x, sorted);
      assert r == [sorted[0]] + InsertDesc(x, sorted[1..]);
      assert forall y | y in multiset(InsertDesc(x, sorted[1..])) :: y == x || y in sorted[1..];
      forall j | 0 < j < |r|
        ensures AtMost(r[j].score, r[0].score)
      {
        assert r[j] in multiset(InsertDesc(x, sorted[1..]));
      }
    }
  }

  /** The sort returns a descending permutation of its input. */
  lemma {:induction false} SortDescSortsAndPermutes(xs: seq<ScoredFrame>)
    ensures Descending(SortDesc(xs))
    ensures multiset(SortDesc(xs)) == multiset(xs)
    ensures |SortDesc(xs)| == |xs|
  {
    if |xs| > 0 {
      SortDescSortsAndPermutes(xs[1..]);
      InsertDescKeepsOrder(xs[0], SortDesc(xs[1..]));
      InsertDescPermutes(xs[0], SortDesc(xs[1..]));
      assert xs == [xs[0]] + xs[1..];
    }
    assert |multiset(SortDesc(xs))| == |multiset(xs)|;
  }

  /**
   * Element 0 of the stable descending sort is the earliest frame with the
   * maximal score, whatever the scores (all `-Infinity` included).
   */
  lemma {:induction false} SortDescHeadIsFirstMax(xs: seq<ScoredFrame>)
    requires |xs| > 0
    ensures |SortDesc(xs)| == |xs|
    ensures SortDesc(xs)[0] == xs[FirstMaxIndex(xs)]
  {
    SortDescSortsAndPermutes(xs);
    if |xs| > 1 {
      SortDescHeadIsFirstMax(xs[1..]);
    }
  }
}
