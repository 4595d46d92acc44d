/** The rewriter: deletes a plan of line ranges from the line buffer, last
    range first, and trims the trailing whitespace of the joined text. */
module Rewriter {
  import opened Ranges

  /** The lines with 1-based index in `[a, b)` that lie in none of the
      ranges `rs`, in order. */
  function KeepSeg<T>(lines: seq<T>, rs: seq<Range>, a: int, b: int): seq<T>
    requires 1 <= a && b <= |lines| + 1
    decreases b - a
  {
    if a >= b then []
    else (if Covered(rs, a) then [] else [lines[a - 1]]) + KeepSeg(lines, rs, a + 1, b)
  }

  /** The reference meaning of a deletion plan: exactly the lines outside
      every range, in their original order. */
  function Kept<T>(lines: seq<T>, rs: seq<Range>): seq<T>
  {
    KeepSeg(lines, rs, 1, |lines| + 1)
  }

  lemma {:induction false} KeepSegSplit<T>(lines: seq<T>, rs: seq<Range>, a: int, m: int, b: int)
    requires 1 <= a <= m <= b <= |lines| + 1
    ensures KeepSeg(lines, rs, a, b) == KeepSeg(lines, rs, a, m) + KeepSeg(lines, rs, m, b)
    decreases m - a
  {
    if a < m {
      KeepSegSplit(lines, rs, a + 1, m, b);
    }
  }

  lemma {:induction false} KeepSegUncovered<T>(lines: seq<T>, rs: seq<Range>, a: int, b: int)
    requires 1 <= a <= b <= |lines| + 1
    requires forall j :: a <= j < b ==> !Covered(rs, j)
    ensures KeepSeg(lines, rs, a, b) == lines[a - 1..b - 1]
    decreases b - a
  {
    if a < b {
      KeepSegUncovered(lines, rs, a + 1, b);
      assert lines[a - 1..b - 1] == [lines[a - 1]] + lines[a..b - 1];
    }
  }

  lemma {:induction false} KeepSegCovered<T>(lines: seq<T>, rs: seq<Range>, a: int, b: int)
    requires 1 <= a <= b <= |lines| + 1
    requires forall j :: a <= j < b ==> Covered(rs, j)
    ensures KeepSeg(lines, rs, a, b) == []
    decreases b - a
  {
    if a < b {
      KeepSegCovered(lines, rs, a + 1, b);
    }
  }

  /** Only which lines are covered matters, not how the ranges are listed. */
  lemma {:induction false} KeepSegAgree<T>(lines: seq<T>, rs1: seq<Range>, rs2: seq<Range>, a: int, b: int)
    requires 1 <= a && b <= |lines| + 1
    requires forall j :: a <= j < b ==> (Covered(rs1, j) <==> Covered(rs2, j))
    ensures KeepSeg(lines, rs1, a, b) == KeepSeg(lines, rs2, a, b)
    decreases b - a
  {
    if a < b {
      KeepSegAgree(lines, rs1, rs2, a + 1, b);
    }
  }

  /** Two plans with the same ranges, in whatever order, keep the same lines. */
  lemma KeptSameRanges<T>(lines: seq<T>, rs1: seq<Range>, rs2: seq<Range>)
    requires forall r :: r in rs1 <==> r in rs2
    ensures Kept(lines, rs1) == Kept(lines, rs2)
  {
    forall j ensures Covered(rs1, j) <==> Covered(rs2, j) {
      if Covered(rs1, j) {
        var k :| 0 <= k < |rs1| && Covers(rs1[k], j);
        assert rs1[k] in rs2;
        var k' :| 0 <= k' < |rs2| && rs2[k'] == rs1[k];
      }
      if Covered(rs2, j) {
        var k :| 0 <= k < |rs2| && Covers(rs2[k], j);
        assert rs2[k] in rs1;
        var k' :| 0 <= k' < |rs1| && rs1[k'] == rs2[k];
      }
    }
    KeepSegAgree(lines, rs1, rs2, 1, |lines| + 1);
  }

  lemma CoveredAppend(rs: seq<Range>, r: Range, j: int)
    ensures Covered(rs + [r], j) <==> Covered(rs, j) || Covers(r, j)
  {
    var all := rs + [r];
    if Covered(rs, j) {
      var k :| 0 <= k < |rs| && Covers(rs[k], j);
      assert all[k] == rs[k];
    }
    if Covers(r, j) {
      assert all[|rs|] == r;
    }
    if Covered(all, j) {
      var k :| 0 <= k < |all| && Covers(all[k], j);
      if k < |rs| {
        assert all[k] == rs[k];
      }
    }
  }

  /** When no range reaches below line `e`, the kept lines start with the
      first `e - 1` lines unchanged. */
  lemma KeptUntouchedPrefix<T>(lines: seq<T>, rs: seq<Range>, e: int)
    requires 1 <= e <= |lines| + 1
    requires forall j :: 1 <= j < e ==> !Covered(rs, j)
    ensures Kept(lines, rs) == lines[..e - 1] + KeepSeg(lines, rs, e, |lines| + 1)
  {
    KeepSegSplit(lines, rs, 1, e, |lines| + 1);
    KeepSegUncovered(lines, rs, 1, e);
  }

  /** `ext` covers what `rs` covers, and the lines of `r`. */
  ghost predicate Extends(ext: seq<Range>, rs: seq<Range>, r: Range)
  {
    forall j :: Covered(ext, j) <==> Covered(rs, j) || Covers(r, j)
  }

  lemma ExtendsAppend(rs: seq<Range>, r: Range)
    ensures Extends(rs + [r], rs, r)
  {
    forall j ensures Covered(rs + [r], j) <==> Covered(rs, j) || Covers(r, j) {
      CoveredAppend(rs, r, j);
    }
  }

  /** Below `r`, the extended plan keeps every line. */
  lemma KeepSegBelow<T>(lines: seq<T>, rs: seq<Range>, ext: seq<Range>, r: Range)
    requires 1 <= r.start <= r.end <= |lines| + 1
    requires forall j :: 1 <= j < r.end ==> !Covered(rs, j)
    requires Extends(ext, rs, r)
    ensures KeepSeg(lines, ext, 1, r.start) == lines[..r.start - 1]
  {
    KeepSegUncovered(lines, ext, 1, r.start);
  }

  /** Inside `r`, the extended plan keeps nothing. */
  lemma KeepSegInside<T>(lines: seq<T>, rs: seq<Range>, ext: seq<Range>, r: Range)
    requires 1 <= r.start <= r.end <= |lines| + 1
    requires Extends(ext, rs, r)
    ensures KeepSeg(lines, ext, r.start, r.end) == []
  {
    KeepSegCovered(lines, ext, r.start, r.end);
  }

  /** Above `r`, the extended plan keeps what `rs` keeps. */
  lemma KeepSegAbove<T>(lines: seq<T>, rs: seq<Range>, ext: seq<Range>, r: Range)
    requires 1 <= r.start <= r.end <= |lines| + 1
    requires Extends(ext, rs, r)
    ensures KeepSeg(lines, ext, r.end, |lines| + 1) == KeepSeg(lines, rs, r.end, |lines| + 1)
  {
    KeepSegAgree(lines, ext, rs, r.end, |lines| + 1);
  }

  /** The kept lines of a plan, split at `r`. */
  lemma KeptAround<T>(lines: seq<T>, rs: seq<Range>, ext: seq<Range>, r: Range)
    requires 1 <= r.start <= r.end <= |lines| + 1
    requires KeepSeg(lines, ext, 1, r.start) == lines[..r.start - 1]
    requires KeepSeg(lines, ext, r.start, r.end) == []
    requires KeepSeg(lines, ext, r.end, |lines| + 1) == KeepSeg(lines, rs, r.end, |lines| + 1)
    ensures Kept(lines, ext) == lines[..r.start - 1] + KeepSeg(lines, rs, r.end, |lines| + 1)
  {
    var tail := KeepSeg(lines, rs, r.end, |lines| + 1);
    KeepSegSplit(lines, ext, r.start, r.end, |lines| + 1);
    assert KeepSeg(lines, ext, r.start, |lines| + 1) == [] + tail == tail;
    KeepSegSplit(lines, ext, 1, r.start, |lines| + 1);
  }

  /** Adding a range `r` above all of `rs` cuts out exactly its lines. */
  lemma KeptWithRange<T>(lines: seq<T>, rs: seq<Range>, ext: seq<Range>, r: Range)
    requires 1 <= r.start <= r.end <= |lines| + 1
    requires forall j :: 1 <= j < r.end ==> !Covered(rs, j)
    requires Extends(ext, rs, r)
    ensures Kept(lines, ext) == lines[..r.start - 1] + KeepSeg(lines, rs, r.end, |lines| + 1)
  {
    KeepSegBelow(lines, rs, ext, r);
    KeepSegInside(lines, rs, ext, r);
    KeepSegAbove(lines, rs, ext, r);
    KeptAround(lines, rs, ext, r);
  }

  /** Deleting `[r.start, r.end)` by slicing, from the lines kept by plan
      ranges that all lie after `r`, keeps the lines of the plan extended
      by `r`: everything before `r.end` is still in its original place. */
  lemma DeleteStep<T>(lines: seq<T>, rs: seq<Range>, r: Range)
    requires 1 <= r.start <= r.end <= |lines| + 1
    requires forall k :: 0 <= k < |rs| && rs[k].start < rs[k].end ==> rs[k].start >= r.end
    ensures |Kept(lines, rs)| >= r.end - 1
    ensures Kept(lines, rs)[..r.start - 1] + Kept(lines, rs)[r.end - 1..] == Kept(lines, rs + [r])
  {
    assert forall j :: 1 <= j < r.end ==> !Covered(rs, j);
    KeptUntouchedPrefix(lines, rs, r.end);
    ExtendsAppend(rs, r);
    KeptWithRange(lines, rs, rs + [r], r);
    var after := KeepSeg(lines, rs, r.end, |lines| + 1);
    var kept := Kept(lines, rs);
    assert kept[..r.start - 1] == lines[..r.start - 1];
    assert kept[r.end - 1..] == after;
  }

  /** The deletion loop: each range, highest start first, is cut out with
      `lines[:start-1] + lines[end-1:]`. Because the ranges do not overlap
      and are applied from the bottom of the file up, the result is
      exactly the lines outside every range, in order. */
  method ApplyDeletions<T>(lines: seq<T>, plan: seq<Range>) returns (buf: seq<T>)
    requires DescendingByStart(plan) && PairwiseDisjoint(plan) && WithinLines(plan, |lines|)
    ensures buf == Kept(lines, plan)
  {
    buf := lines;
    assert Kept(lines, []) == lines by {
      KeepSegUncovered(lines, [], 1, |lines| + 1);
    }
    assert plan[..0] == [];
    for k := 0 to |plan|
      invariant buf == Kept(lines, plan[..k])
    {
      var r := plan[k];
      forall k' | 0 <= k' < k && plan[k'].start < plan[k'].end
        ensures plan[k'].start >= r.end
      {
        assert Disjoint(plan[k'], r);
      }
      DeleteStep(lines, plan[..k], r);
      buf := buf[..r.start - 1] + buf[r.end - 1..];
      assert plan[..k + 1] == plan[..k] + [r];
    }
    assert plan[..|plan|] == plan;
  }

  /** Insert `x` into a list sorted by descending start, before the first
      range whose start is not greater. The order among equal starts does
      not matter for the lines kept (`KeptSameRanges`). */
  function InsertDesc(x: Range, s: seq<Range>): (r: seq<Range>)
    ensures |r| == |s| + 1
    ensures multiset(r) == multiset(s) + multiset{x}
    ensures r[0] == x || (s != [] && r[0] == s[0])
  {
    if s == [] || s[0].start <= x.start then [x] + s
    else
      assert s == [s[0]] + s[1..];
      [s[0]] + InsertDesc(x, s[1..])
  }

  lemma {:induction false} InsertDescSorted(x: Range, s: seq<Range>)
    requires DescendingByStart(s)
    ensures DescendingByStart(InsertDesc(x, s))
  {
    if s != [] && s[0].start > x.start {
      var rest := InsertDesc(x, s[1..]);
      InsertDescSorted(x, s[1..]);
      assert rest[0].start <= s[0].start;
      var r := [s[0]] + rest;
      forall a, b | 0 <= a < b < |r| ensures r[a].start >= r[b].start {
        if a == 0 {
          assert r[b] == rest[b - 1];
        } else {
          assert r[a] == rest[a - 1] && r[b] == rest[b - 1];
        }
      }
    }
  }

  /** `sorted(ranges, key=start, reverse=True)`: the same ranges, in
      descending order of start. */
  function SortByStartDesc(s: seq<Range>): (r: seq<Range>)
    ensures multiset(r) == multiset(s)
    ensures DescendingByStart(r)
  {
    if s == [] then []
    else
      assert s == [s[0]] + s[1..];
      InsertDescSorted(s[0], SortByStartDesc(s[1..]));
      InsertDesc(s[0], SortByStartDesc(s[1..]))
  }

  lemma SortMembers(s: seq<Range>)
    ensures forall y :: y in SortByStartDesc(s) <==> y in s
  {
    var r := SortByStartDesc(s);
    forall y ensures y in r <==> y in s {
      assert y in r <==> y in multiset(r);
      assert y in s <==> y in multiset(s);
    }
  }

  lemma {:induction false} InsertKeepsDisjoint(x: Range, s: seq<Range>)
    requires PairwiseDisjoint(s)
    requires forall k :: 0 <= k < |s| ==> Disjoint(x, s[k])
    ensures PairwiseDisjoint(InsertDesc(x, s))
  {
    if s != [] && s[0].start > x.start {
      var rest := InsertDesc(x, s[1..]);
      InsertKeepsDisjoint(x, s[1..]);
      assert multiset(rest) == multiset(s[1..]) + multiset{x};
      forall k | 0 <= k < |rest| ensures Disjoint(s[0], rest[k]) {
        assert rest[k] in multiset(rest);
        if rest[k] != x {
          assert rest[k] in s[1..];
        }
      }
    }
  }

  /** Sorting keeps the plan free of overlaps. */
  lemma {:induction false} SortKeepsDisjoint(s: seq<Range>)
    requires PairwiseDisjoint(s)
    ensures PairwiseDisjoint(SortByStartDesc(s))
  {
    if s != [] {
      var sorted := SortByStartDesc(s[1..]);
      SortKeepsDisjoint(s[1..]);
      SortMembers(s[1..]);
      forall k | 0 <= k < |sorted| ensures Disjoint(s[0], sorted[k]) {
        assert sorted[k] in s[1..];
      }
      InsertKeepsDisjoint(s[0], sorted);
    }
  }

  /** Sorting keeps the plan free of overlaps and inside the buffer. */
  lemma SortKeepsSafe(s: seq<Range>, lineCount: nat)
    requires PairwiseDisjoint(s) && WithinLines(s, lineCount)
    ensures PairwiseDisjoint(SortByStartDesc(s)) && WithinLines(SortByStartDesc(s), lineCount)
  {
    SortKeepsDisjoint(s);
    var r := SortByStartDesc(s);
    SortMembers(s);
    forall k | 0 <= k < |r| ensures 1 <= r[k].start <= r[k].end <= lineCount + 1 {
      assert r[k] in s;
    }
  }

  /** `''.join(lines)`. */
  function Concat(lines: seq<string>): string
  {
    if lines == [] then "" else Concat(lines[..|lines| - 1]) + lines[|lines| - 1]
  }

  /** Joining two runs of lines is joining each and putting the texts side
      by side, so each line's text appears in the result in place. */
  lemma {:induction false} ConcatAppend(a: seq<string>, b: seq<string>)
    ensures Concat(a + b) == Concat(a) + Concat(b)
  {
    if b != [] {
      var init := b[..|b| - 1];
      assert (a + b)[..|a + b| - 1] == a + init;
      assert (a + b)[|a + b| - 1] == b[|b| - 1];
      ConcatAppend(a, init);
    } else {
      assert a + b == a;
    }
  }

  /** The whitespace `str.rstrip` removes, restricted to ASCII. */
  predicate IsSpace(c: char)
  {
    c == ' ' || c == '\t' || c == '\n' || c == '\r' || c == '\U{0B}' || c == '\U{0C}' ||
    c == '\U{1C}' || c == '\U{1D}' || c == '\U{1E}' || c == '\U{1F}'
  }

  /** `str.rstrip()`: the longest prefix not ending in whitespace, with
      only whitespace cut off after it. */
  function RStrip(s: string): (r: string)
    ensures r <= s
    ensures r == [] || !IsSpace(r[|r| - 1])
    ensures forall k :: |r| <= k < |s| ==> IsSpace(s[k])
  {
    if s != [] && IsSpace(s[|s| - 1]) then RStrip(s[..|s| - 1]) else s
  }

  /** The three properties of `RStrip` determine its result. */
  lemma {:induction false} RStripUnique(s: string, t: string)
    requires t <= s
    requires t == [] || !IsSpace(t[|t| - 1])
    requires forall k :: |t| <= k < |s| ==> IsSpace(s[k])
    ensures t == RStrip(s)
    decreases |s|
  {
    if |t| < |s| {
      assert IsSpace(s[|s| - 1]);
      assert t <= s[..|s| - 1];
      RStripUnique(s[..|s| - 1], t);
    } else {
      assert t == s;
    }
  }

  /** Trimming trimmed text changes nothing. */
  lemma RStripIdempotent(s: string)
    ensures RStrip(RStrip(s)) == RStrip(s)
  {
    RStripUnique(RStrip(s), RStrip(s));
  }
}
