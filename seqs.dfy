/** Sequence helpers shared by the passes: order-preserving filtering, the
    positions a filter selects, and Python's `list.remove`. */
module Seqs {

  /** The elements of `s` that satisfy `p`, in their original order. */
  function Filter<T>(s: seq<T>, p: T -> bool): (r: seq<T>)
    ensures |r| <= |s|
  {
    if s == [] then []
    else Filter(s[..|s| - 1], p) + (if p(s[|s| - 1]) then [s[|s| - 1]] else [])
  }

  /** Everything the filter keeps comes from `s` and satisfies `p`. */
  lemma {:induction false} FilterMembers<T>(s: seq<T>, p: T -> bool)
    ensures forall x :: x in Filter(s, p) ==> x in s && p(x)
  {
    if s != [] {
      FilterMembers(s[..|s| - 1], p);
    }
  }

  /** Every element of `s` that satisfies `p` survives the filter. */
  lemma {:induction false} FilterKeeps<T>(s: seq<T>, p: T -> bool, i: nat)
    requires i < |s| && p(s[i])
    ensures s[i] in Filter(s, p)
  {
    if i < |s| - 1 {
      FilterKeeps(s[..|s| - 1], p, i);
    }
  }

  /** Some kept element satisfies `q` exactly when some element of `s`
      satisfies both `p` and `q`. */
  lemma FilterAny<T>(s: seq<T>, p: T -> bool, q: T -> bool)
    ensures (exists i :: 0 <= i < |Filter(s, p)| && q(Filter(s, p)[i])) <==>
            (exists i :: 0 <= i < |s| && p(s[i]) && q(s[i]))
  {
    var f := Filter(s, p);
    FilterMembers(s, p);
    if exists i :: 0 <= i < |f| && q(f[i]) {
      var i :| 0 <= i < |f| && q(f[i]);
      assert f[i] in f;
      var j :| 0 <= j < |s| && s[j] == f[i];
      assert p(s[j]) && q(s[j]);
    }
    if exists i :: 0 <= i < |s| && p(s[i]) && q(s[i]) {
      var i :| 0 <= i < |s| && p(s[i]) && q(s[i]);
      FilterKeeps(s, p, i);
      var j :| 0 <= j < |f| && f[j] == s[i];
      assert q(f[j]);
    }
  }

  /** The indices `i < n` with `p(s[i])`, ascending. */
  function Positions<T>(s: seq<T>, n: nat, p: T -> bool): (r: seq<nat>)
    requires n <= |s|
    ensures forall k :: 0 <= k < |r| ==> r[k] < n
  {
    if n == 0 then []
    else Positions(s, n - 1, p) + (if p(s[n - 1]) then [n - 1] else [])
  }

  predicate StrictlyIncreasing(idx: seq<nat>)
  {
    forall a, b :: 0 <= a < b < |idx| ==> idx[a] < idx[b]
  }

  /** `Positions` selects exactly the indices below `n` whose element
      satisfies `p`. */
  lemma {:induction false} PositionsMembers<T>(s: seq<T>, n: nat, p: T -> bool)
    requires n <= |s|
    ensures forall i: int :: i in Positions(s, n, p) <==> 0 <= i < n && p(s[i])
  {
    if n > 0 {
      PositionsMembers(s, n - 1, p);
    }
  }

  lemma {:induction false} PositionsIncreasing<T>(s: seq<T>, n: nat, p: T -> bool)
    requires n <= |s|
    ensures StrictlyIncreasing(Positions(s, n, p))
  {
    if n > 0 {
      PositionsIncreasing(s, n - 1, p);
    }
  }

  /** `Positions` selects exactly the indices below `n` whose element
      satisfies `p`, each once, in increasing order. */
  lemma PositionsSpec<T>(s: seq<T>, n: nat, p: T -> bool)
    requires n <= |s|
    ensures StrictlyIncreasing(Positions(s, n, p))
    ensures forall i: int :: i in Positions(s, n, p) <==> 0 <= i < n && p(s[i])
  {
    PositionsMembers(s, n, p);
    PositionsIncreasing(s, n, p);
  }

  lemma {:induction false} FilterAppend<T>(a: seq<T>, b: seq<T>, p: T -> bool)
    ensures Filter(a + b, p) == Filter(a, p) + Filter(b, p)
  {
    if b != [] {
      assert (a + b)[..|a + b| - 1] == a + b[..|b| - 1];
      FilterAppend(a, b[..|b| - 1], p);
    } else {
      assert a + b == a;
    }
  }

  lemma {:induction false} FilterAll<T>(s: seq<T>, p: T -> bool)
    requires forall k :: 0 <= k < |s| ==> p(s[k])
    ensures Filter(s, p) == s
  {
    if s != [] {
      FilterAll(s[..|s| - 1], p);
    }
  }

  lemma {:induction false} FilterNone<T>(s: seq<T>, p: T -> bool)
    requires forall k :: 0 <= k < |s| ==> !p(s[k])
    ensures Filter(s, p) == []
  {
    if s != [] {
      FilterNone(s[..|s| - 1], p);
    }
  }

  /** Python's `list.remove(x)`: drop the first element equal to `x`. */
  function RemoveFirst<T(==)>(s: seq<T>, x: T): seq<T>
    requires x in s
  {
    if s[0] == x then s[1..] else [s[0]] + RemoveFirst(s[1..], x)
  }

  /** `RemoveFirst` cuts out exactly the first occurrence of `x`. */
  lemma {:induction false} RemoveFirstAt<T>(s: seq<T>, x: T, q: nat)
    requires q < |s| && s[q] == x && forall j :: 0 <= j < q ==> s[j] != x
    ensures x in s && RemoveFirst(s, x) == s[..q] + s[q + 1..]
  {
    if q > 0 {
      var t := s[1..];
      RemoveFirstAt(t, x, q - 1);
      assert t[..q - 1] + t[q..] == (s[..q] + s[q + 1..])[1..];
    }
  }

  /** The first element of `s` that satisfies `p`. */
  lemma {:induction false} FirstMatch<T>(s: seq<T>, p: T -> bool) returns (q: nat)
    requires Filter(s, p) != []
    ensures q < |s| && p(s[q])
    ensures forall j :: 0 <= j < q ==> !p(s[j])
    ensures Filter(s, p) == [s[q]] + Filter(s[q + 1..], p)
  {
    var init := s[..|s| - 1];
    var last := s[|s| - 1];
    var extra := if p(last) then [last] else [];
    assert Filter(s, p) == Filter(init, p) + extra;
    if Filter(init, p) != [] {
      q := FirstMatch(init, p);
      var rest := s[q + 1..];
      assert rest[..|rest| - 1] == init[q + 1..];
      assert Filter(rest, p) == Filter(init[q + 1..], p) + extra;
    } else {
      q := |s| - 1;
      forall j | 0 <= j < q ensures !p(s[j]) {
        if p(s[j]) {
          assert init[j] == s[j];
          FilterSome(init, p, j);
        }
      }
      assert s[q + 1..] == [];
    }
  }

  lemma FilterSingleton<T>(x: T, p: T -> bool)
    ensures Filter([x], p) == if p(x) then [x] else []
  {
    assert [x][..0] == [];
  }

  /** Exactly one element satisfies `p`: the filter is that element. */
  lemma {:induction false} FilterUnique<T>(s: seq<T>, p: T -> bool, a: nat)
    requires a < |s| && p(s[a])
    requires forall b :: 0 <= b < |s| && p(s[b]) ==> b == a
    ensures Filter(s, p) == [s[a]]
  {
    var init := s[..|s| - 1];
    if a == |s| - 1 {
      FilterNone(init, p);
    } else {
      FilterUnique(init, p, a);
    }
  }

  /** Two elements satisfy `p`: the filter has at least two. */
  lemma {:induction false} FilterTwo<T>(s: seq<T>, p: T -> bool, a: nat, b: nat)
    requires a < b < |s| && p(s[a]) && p(s[b])
    ensures |Filter(s, p)| >= 2
  {
    var init := s[..|s| - 1];
    if b == |s| - 1 {
      FilterSome(init, p, a);
    } else {
      FilterTwo(init, p, a, b);
    }
  }

  lemma {:induction false} FilterSome<T>(s: seq<T>, p: T -> bool, a: nat)
    requires a < |s| && p(s[a])
    ensures |Filter(s, p)| >= 1
  {
    if a < |s| - 1 {
      FilterSome(s[..|s| - 1], p, a);
    }
  }

  /** Removing by value skips a prefix that does not hold the value. */
  lemma RemoveFirstSkipping<T>(kept: seq<T>, tail: seq<T>, x: T, q: nat)
    requires x !in kept && q < |tail| && tail[q] == x && forall j :: 0 <= j < q ==> tail[j] != x
    ensures x in kept + tail
    ensures RemoveFirst(kept + tail, x) == kept + tail[..q] + tail[q + 1..]
  {
    var whole := kept + tail;
    assert whole[..|kept| + q] == kept + tail[..q];
    forall j | 0 <= j < |kept| + q ensures whole[j] != x {
      if j < |kept| {
        assert whole[j] in kept;
      }
    }
    RemoveFirstAt(whole, x, |kept| + q);
    assert whole[|kept| + q + 1..] == tail[q + 1..];
  }

  /** Filtering one step further: a run of kept elements followed by one
      rejected element. */
  lemma FilterPastRun<T>(orig: seq<T>, m: nat, q: nat, keep: T -> bool, drop: T -> bool)
    requires forall x :: keep(x) == !drop(x)
    requires m + q < |orig| && drop(orig[m..][q])
    requires forall j :: 0 <= j < q ==> !drop(orig[m..][j])
    ensures Filter(orig[..m + q + 1], keep) == Filter(orig[..m], keep) + orig[m..][..q]
  {
    var run := orig[m..][..q];
    assert orig[..m + q + 1] == orig[..m] + run + [orig[m + q]];
    FilterAppend(orig[..m] + run, [orig[m + q]], keep);
    FilterAppend(orig[..m], run, keep);
    FilterAll(run, keep);
    FilterSingleton(orig[m + q], keep);
  }

  /** One step of a removal loop: in a sequence whose first `m` elements
      are already filtered by `keep`, removing by value (as `list.remove`
      does) the next element rejected by `keep` takes out exactly that
      element, so one element more of the original is filtered. */
  lemma RemoveNextSelected<T>(orig: seq<T>, m: nat, keep: T -> bool, drop: T -> bool) returns (m': nat)
    requires forall x :: keep(x) == !drop(x)
    requires m <= |orig| && Filter(orig[m..], drop) != []
    ensures m < m' <= |orig|
    ensures var x := Filter(orig[m..], drop)[0];
            x in Filter(orig[..m], keep) + orig[m..] &&
            RemoveFirst(Filter(orig[..m], keep) + orig[m..], x) == Filter(orig[..m'], keep) + orig[m'..]
    ensures Filter(orig[m..], drop)[1..] == Filter(orig[m'..], drop)
  {
    var tail := orig[m..];
    var q := FirstMatch(tail, drop);
    var x := tail[q];
    var kept := Filter(orig[..m], keep);
    m' := m + q + 1;
    assert orig[m'..] == tail[q + 1..];
    FilterMembers(orig[..m], keep);
    RemoveFirstSkipping(kept, tail, x, q);
    FilterPastRun(orig, m, q, keep, drop);
    assert Filter(orig[m..], drop)[0] == x;
    assert Filter(orig[..m'], keep) == kept + tail[..q];
    assert RemoveFirst(kept + tail, x) == Filter(orig[..m'], keep) + orig[m'..];
  }

  /** The end of a removal loop: nothing rejected is left past `m`. */
  lemma FilterFinished<T>(orig: seq<T>, m: nat, keep: T -> bool, drop: T -> bool)
    requires forall x :: keep(x) == !drop(x)
    requires m <= |orig| && Filter(orig[m..], drop) == []
    ensures Filter(orig[..m], keep) + orig[m..] == Filter(orig, keep)
  {
    var tail := orig[m..];
    forall k | 0 <= k < |tail| ensures keep(tail[k]) {
      if drop(tail[k]) {
        FilterSome(tail, drop, k);
      }
    }
    FilterAll(tail, keep);
    assert orig == orig[..m] + tail;
    FilterAppend(orig[..m], tail, keep);
  }
}
