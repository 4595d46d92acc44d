/** Line ranges and the rule that gives each top-level statement its range:
    from its own first line up to the first line of the next top-level
    statement, or up to one past the last line of the file for the last
    statement. Imports and deprecated definitions use the same rule. */
module Ranges {
  import opened Syntax

  /** A half-open range `[start, end)` of 1-based line numbers. */
  datatype Range = Range(start: int, end: int)

  predicate Covers(r: Range, j: int)
  {
    r.start <= j < r.end
  }

  /** Line `j` lies in one of the ranges `rs`. */
  predicate Covered(rs: seq<Range>, j: int)
  {
    exists k :: 0 <= k < |rs| && Covers(rs[k], j)
  }

  /** The two ranges share no line (an empty range shares none). */
  predicate Disjoint(a: Range, b: Range)
  {
    a.end <= b.start || b.end <= a.start || a.end <= a.start || b.end <= b.start
  }

  predicate PairwiseDisjoint(rs: seq<Range>)
  {
    forall a, b :: 0 <= a < b < |rs| ==> Disjoint(rs[a], rs[b])
  }

  /** Every range is a well-ordered range inside a buffer of `lineCount` lines. */
  predicate WithinLines(rs: seq<Range>, lineCount: nat)
  {
    forall k :: 0 <= k < |rs| ==> 1 <= rs[k].start <= rs[k].end <= lineCount + 1
  }

  predicate DescendingByStart(rs: seq<Range>)
  {
    forall a, b :: 0 <= a < b < |rs| ==> rs[a].start >= rs[b].start
  }

  predicate Distinct(idx: seq<nat>)
  {
    forall a, b :: 0 <= a < b < |idx| ==> idx[a] != idx[b]
  }

  /** `Disjoint` says exactly that no line lies in both ranges. */
  lemma DisjointMeansNoCommonLine(a: Range, b: Range)
    ensures Disjoint(a, b) <==> forall j :: !(Covers(a, j) && Covers(b, j))
  {
    if !Disjoint(a, b) {
      var j := if a.start < b.start then b.start else a.start;
      assert Covers(a, j) && Covers(b, j);
    }
  }

  /** The range of the top-level statement at index `i`; `final` is one
      past the last line of the file. */
  function RangeOf(body: seq<Stmt>, i: nat, final: int): Range
    requires i < |body|
  {
    Range(body[i].lineno, if i != |body| - 1 then body[i + 1].lineno else final)
  }

  /** The ranges of the statements at the indices `idx`, in that order. */
  function RangesAt(body: seq<Stmt>, idx: seq<nat>, final: int): (rs: seq<Range>)
    requires forall k :: 0 <= k < |idx| ==> idx[k] < |body|
    ensures |rs| == |idx|
  {
    seq(|idx|, k requires 0 <= k < |idx| => RangeOf(body, idx[k], final))
  }

  /** A statement's range starts on its own line and ends no later than one
      past the end of the file. */
  lemma RangeBounds(body: seq<Stmt>, lineCount: nat, i: nat)
    requires WellFormed(body, lineCount) && i < |body|
    ensures RangeOf(body, i, lineCount + 1).start == body[i].lineno
    ensures 1 <= body[i].lineno <= RangeOf(body, i, lineCount + 1).end <= lineCount + 1
  {
  }

  /** Ranges of two different statements never share a line: the earlier
      one ends where a later statement starts. */
  lemma RangesOfDistinctDisjoint(body: seq<Stmt>, lineCount: nat, i: nat, j: nat)
    requires WellFormed(body, lineCount) && i < |body| && j < |body| && i != j
    ensures Disjoint(RangeOf(body, i, lineCount + 1), RangeOf(body, j, lineCount + 1))
  {
    if i < j {
      assert body[i + 1].lineno <= body[j].lineno;
    } else {
      assert body[j + 1].lineno <= body[i].lineno;
    }
  }

  /** The ranges of distinct statements form a plan the rewriter can apply. */
  lemma {:induction false} RangesAtSafe(body: seq<Stmt>, lineCount: nat, idx: seq<nat>)
    requires WellFormed(body, lineCount)
    requires forall k :: 0 <= k < |idx| ==> idx[k] < |body|
    requires Distinct(idx)
    ensures PairwiseDisjoint(RangesAt(body, idx, lineCount + 1))
    ensures WithinLines(RangesAt(body, idx, lineCount + 1), lineCount)
  {
    var rs := RangesAt(body, idx, lineCount + 1);
    forall a, b | 0 <= a < b < |rs| ensures Disjoint(rs[a], rs[b]) {
      RangesOfDistinctDisjoint(body, lineCount, idx[a], idx[b]);
    }
    forall k | 0 <= k < |rs| ensures 1 <= rs[k].start <= rs[k].end <= lineCount + 1 {
      RangeBounds(body, lineCount, idx[k]);
    }
  }

  /** The last of the first `n` statements that starts on or before line `j`. */
  function Owner(body: seq<Stmt>, n: nat, j: int): (i: nat)
    requires 0 < n <= |body| && body[0].lineno <= j
    ensures i < n && body[i].lineno <= j
    ensures forall k :: i < k < n ==> body[k].lineno > j
  {
    if n == 1 || body[n - 1].lineno <= j then n - 1 else Owner(body, n - 1, j)
  }

  /** Tiling: the statement ranges cover every line from the first
      statement's line to the end of the file, each line exactly once, by
      the range of the statement that owns it; lines before the first
      statement lie in no range. */
  lemma Tiling(body: seq<Stmt>, lineCount: nat, i: nat, j: int)
    requires WellFormed(body, lineCount) && i < |body|
    ensures Covers(RangeOf(body, i, lineCount + 1), j) <==>
              body[0].lineno <= j <= lineCount && i == Owner(body, |body|, j)
  {
    var r := RangeOf(body, i, lineCount + 1);
    if Covers(r, j) {
      assert body[0].lineno <= body[i].lineno;
    }
  }

  /** The ranges at `idx` cover a line exactly when one of the indexed
      statements' ranges does. */
  lemma CoveredRangesAt(body: seq<Stmt>, idx: seq<nat>, final: int, j: int)
    requires forall k :: 0 <= k < |idx| ==> idx[k] < |body|
    ensures Covered(RangesAt(body, idx, final), j) <==>
              exists k :: 0 <= k < |idx| && Covers(RangeOf(body, idx[k], final), j)
  {
    var rs := RangesAt(body, idx, final);
    if exists k :: 0 <= k < |idx| && Covers(RangeOf(body, idx[k], final), j) {
      var k :| 0 <= k < |idx| && Covers(RangeOf(body, idx[k], final), j);
      assert Covers(rs[k], j);
    }
  }

  lemma RangesAtAppend(body: seq<Stmt>, a: seq<nat>, b: seq<nat>, final: int)
    requires forall k :: 0 <= k < |a| ==> a[k] < |body|
    requires forall k :: 0 <= k < |b| ==> b[k] < |body|
    ensures RangesAt(body, a + b, final) == RangesAt(body, a, final) + RangesAt(body, b, final)
  {
  }

  lemma CoveredConcat(a: seq<Range>, b: seq<Range>, j: int)
    ensures Covered(a + b, j) <==> Covered(a, j) || Covered(b, j)
  {
    var all := a + b;
    if Covered(a, j) {
      var k :| 0 <= k < |a| && Covers(a[k], j);
      assert all[k] == a[k];
    }
    if Covered(b, j) {
      var k :| 0 <= k < |b| && Covers(b[k], j);
      assert all[|a| + k] == b[k];
    }
    if Covered(all, j) {
      var k :| 0 <= k < |all| && Covers(all[k], j);
      if k < |a| {
        assert all[k] == a[k];
      } else {
        assert all[k] == b[k - |a|];
      }
    }
  }
}
