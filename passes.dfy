/** The two scans over a module's top-level statements: the search for
    `from auto_deprecator import ...`, and the search for expired
    definitions, which also deletes those definitions from the tree. */
module Passes {
  import opened Syntax
  import opened Seqs
  import opened Ranges
  import opened Scanner

  const DeprecatorModule: string := "auto_deprecator"

  /** A `from auto_deprecator import ...` statement. */
  predicate IsTrackedImport(st: Stmt)
  {
    st.ImportFrom? && st.moduleName == Some(DeprecatorModule)
  }

  /** A parsed module: its list of top-level statements, which the expiry
      scan shrinks in place. */
  class Tree {
    var body: seq<Stmt>

    constructor (body: seq<Stmt>)
      ensures this.body == body
    {
      this.body := body;
    }
  }

  /** The import scan over the first `n` statements: the ranges of the
      tracked imports, in order, or the error raised by the first plain
      `import`, on which the module-name test fails. */
  function ImportScan(body: seq<Stmt>, n: nat, final: int): Result<seq<Range>>
    requires n <= |body|
  {
    if n == 0 then Success([])
    else match ImportScan(body, n - 1, final)
      case Failure(e) => Failure(e)
      case Success(rs) =>
        if body[n - 1].Import? then Failure(ImportWithoutModule(body[n - 1].lineno))
        else if IsTrackedImport(body[n - 1]) then Success(rs + [RangeOf(body, n - 1, final)])
        else Success(rs)
  }

  lemma {:induction false} ImportScanFailureSticks(body: seq<Stmt>, n: nat, m: nat, final: int)
    requires n <= m <= |body| && ImportScan(body, n, final).Failure?
    ensures ImportScan(body, m, final) == ImportScan(body, n, final)
    decreases m - n
  {
    if n < m {
      ImportScanFailureSticks(body, n, m - 1, final);
    }
  }

  /** The import scan fails exactly when a plain `import` occurs, with the
      error of the first one; otherwise it yields the ranges of exactly the
      `from auto_deprecator import` statements, in statement order. */
  lemma {:induction false} ImportScanSpec(body: seq<Stmt>, n: nat, final: int)
    requires n <= |body|
    ensures ImportScan(body, n, final).Failure? <==> exists i :: 0 <= i < n && body[i].Import?
    ensures ImportScan(body, n, final).Failure? ==>
              exists i :: 0 <= i < n && body[i].Import? && (forall k :: 0 <= k < i ==> !body[k].Import?) &&
                ImportScan(body, n, final).error == ImportWithoutModule(body[i].lineno)
    ensures ImportScan(body, n, final).Success? ==>
              ImportScan(body, n, final).value == RangesAt(body, Positions(body, n, IsTrackedImport), final)
  {
    if n > 0 {
      ImportScanSpec(body, n - 1, final);
      var pos := Positions(body, n - 1, IsTrackedImport);
      if ImportScan(body, n, final).Success? {
        var rs := RangesAt(body, pos, final);
        assert IsTrackedImport(body[n - 1]) ==> rs + [RangeOf(body, n - 1, final)] == RangesAt(body, pos + [n - 1], final);
      }
    }
  }

  /** check_import_deprecator_exists: the ranges of the tracked imports. */
  method CheckImportDeprecatorExists(tree: Tree, final: int) returns (r: Result<seq<Range>>)
    ensures r == ImportScan(tree.body, |tree.body|, final)
  {
    var lines: seq<Range> := [];
    var i := 0;
    while i < |tree.body|
      invariant 0 <= i <= |tree.body|
      invariant ImportScan(tree.body, i, final) == Success(lines)
    {
      var st := tree.body[i];
      if st.Import? {
        r := Failure(ImportWithoutModule(st.lineno));
        ImportScanFailureSticks(tree.body, i + 1, |tree.body|, final);
        return;
      }
      if st.ImportFrom? && st.moduleName == Some(DeprecatorModule) {
        lines := lines + [RangeOf(tree.body, i, final)];
      }
      i := i + 1;
    }
    r := Success(lines);
  }

  /** The expiry scan over the first `n` statements: the ranges of the
      expired ones, in order, or the error of the first statement whose
      judgement fails. */
  function JudgePass(body: seq<Stmt>, n: nat, final: int, curr: Option<string>, expired: Expiry): Result<seq<Range>>
    requires n <= |body|
  {
    if n == 0 then Success([])
    else match JudgePass(body, n - 1, final, curr, expired)
      case Failure(e) => Failure(e)
      case Success(rs) =>
        match Judge(body[n - 1], curr, expired)
        case Failure(e) => Failure(e)
        case Success(gone) => Success(if gone then rs + [RangeOf(body, n - 1, final)] else rs)
  }

  lemma {:induction false} JudgePassFailureSticks(body: seq<Stmt>, n: nat, m: nat, final: int, curr: Option<string>, expired: Expiry)
    requires n <= m <= |body| && JudgePass(body, n, final, curr, expired).Failure?
    ensures JudgePass(body, m, final, curr, expired) == JudgePass(body, n, final, curr, expired)
    decreases m - n
  {
    if n < m {
      JudgePassFailureSticks(body, n, m - 1, final, curr, expired);
    }
  }

  /** The expiry scan fails exactly when some statement's judgement fails. */
  lemma {:induction false} JudgePassFails(body: seq<Stmt>, n: nat, final: int, curr: Option<string>, expired: Expiry)
    requires n <= |body|
    ensures JudgePass(body, n, final, curr, expired).Failure? <==>
              exists i :: 0 <= i < n && Judge(body[i], curr, expired).Failure?
  {
    if n > 0 {
      JudgePassFails(body, n - 1, final, curr, expired);
      if Judge(body[n - 1], curr, expired).Failure? {
        assert JudgePass(body, n, final, curr, expired).Failure?;
      }
    }
  }

  /** A failing expiry scan fails with the error of the first statement
      whose judgement fails. */
  lemma {:induction false} JudgePassFirstError(body: seq<Stmt>, n: nat, final: int, curr: Option<string>, expired: Expiry)
    requires n <= |body| && JudgePass(body, n, final, curr, expired).Failure?
    ensures exists i :: 0 <= i < n && (forall k :: 0 <= k < i ==> Judge(body[k], curr, expired).Success?) &&
              Judge(body[i], curr, expired) == Failure(JudgePass(body, n, final, curr, expired).error)
  {
    var prev := JudgePass(body, n - 1, final, curr, expired);
    if prev.Failure? {
      JudgePassFirstError(body, n - 1, final, curr, expired);
      assert JudgePass(body, n, final, curr, expired) == prev;
    } else {
      JudgePassFails(body, n - 1, final, curr, expired);
      assert forall k :: 0 <= k < n - 1 ==> Judge(body[k], curr, expired).Success?;
      assert Judge(body[n - 1], curr, expired) == Failure(JudgePass(body, n, final, curr, expired).error);
    }
  }

  /** The expiry scan fails exactly when some statement's judgement fails,
      and then with the error of the first such statement. */
  lemma JudgePassFailure(body: seq<Stmt>, n: nat, final: int, curr: Option<string>, expired: Expiry)
    requires n <= |body|
    ensures JudgePass(body, n, final, curr, expired).Failure? <==>
              exists i :: 0 <= i < n && Judge(body[i], curr, expired).Failure?
    ensures JudgePass(body, n, final, curr, expired).Failure? ==>
              exists i :: 0 <= i < n && (forall k :: 0 <= k < i ==> Judge(body[k], curr, expired).Success?) &&
                Judge(body[i], curr, expired) == Failure(JudgePass(body, n, final, curr, expired).error)
  {
    JudgePassFails(body, n, final, curr, expired);
    if JudgePass(body, n, final, curr, expired).Failure? {
      JudgePassFirstError(body, n, final, curr, expired);
    }
  }

  /** A successful expiry scan yields the ranges of exactly the expired
      statements, in statement order. */
  lemma {:induction false} JudgePassRanges(body: seq<Stmt>, n: nat, final: int, curr: Option<string>, expired: Expiry)
    requires n <= |body|
    ensures JudgePass(body, n, final, curr, expired).Success? ==>
              JudgePass(body, n, final, curr, expired).value ==
                RangesAt(body, Positions(body, n, Expired(curr, expired)), final)
  {
    if n > 0 {
      JudgePassRanges(body, n - 1, final, curr, expired);
      var pos := Positions(body, n - 1, Expired(curr, expired));
      if JudgePass(body, n, final, curr, expired).Success? {
        var rs := RangesAt(body, pos, final);
        assert IsExpired(body[n - 1], curr, expired) ==>
                 rs + [RangeOf(body, n - 1, final)] == RangesAt(body, pos + [n - 1], final);
      }
    }
  }

  /** A scan in which no judgement fails or finds an expired statement
      yields no ranges. */
  lemma {:induction false} JudgePassNothingExpired(body: seq<Stmt>, n: nat, final: int, curr: Option<string>, expired: Expiry)
    requires n <= |body|
    requires forall i :: 0 <= i < n ==> Judge(body[i], curr, expired) == Success(false)
    ensures JudgePass(body, n, final, curr, expired) == Success([])
  {
    if n > 0 {
      JudgePassNothingExpired(body, n - 1, final, curr, expired);
    }
  }

  /** The parameters handed to the expiry check, one per annotated
      statement, in statement order. */
  ghost function Queries(body: seq<Stmt>): seq<Params>
  {
    if body == [] then []
    else
      var last := body[|body| - 1];
      Queries(body[..|body| - 1]) +
        (if Annotation(last).Success? && Annotation(last).value.Some? then [Annotation(last).value.value] else [])
  }

  /** One step of the expiry scan over a statement whose judgement
      succeeds, with annotation `a`: the scan, the expired statements and
      the queries each grow by what that statement contributes. */
  lemma ScanStep(body: seq<Stmt>, i: nat, final: int, curr: Option<string>, expired: Expiry, a: Option<Params>,
                 lines: seq<Range>, gone: seq<Stmt>, calls: seq<Params>,
                 lines': seq<Range>, gone': seq<Stmt>, calls': seq<Params>)
    requires i < |body|
    requires JudgePass(body, i, final, curr, expired) == Success(lines)
    requires gone == ExpiredIn(body[..i], curr, expired) && calls == Queries(body[..i])
    requires Annotation(body[i]) == Success(a) && (a.Some? ==> CurrVersionKey !in a.value)
    requires lines' == if a.Some? && expired(curr, a.value) then lines + [RangeOf(body, i, final)] else lines
    requires gone' == if a.Some? && expired(curr, a.value) then gone + [body[i]] else gone
    requires calls' == if a.Some? then calls + [a.value] else calls
    ensures JudgePass(body, i + 1, final, curr, expired) == Success(lines')
    ensures gone' == ExpiredIn(body[..i + 1], curr, expired) && calls' == Queries(body[..i + 1])
  {
    var e := a.Some? && expired(curr, a.value);
    assert Judge(body[i], curr, expired) == Success(e);
    ExpiredInSnoc(body, i, curr, expired);
    QueriesSnoc(body, i);
  }

  /** The expired statements, in their order. This is the same sequence as
      `Filter(body, Expired(curr, expired))` (`ExpiredInIsFilter`), written
      out on its own so that the scan loop's invariants need not unfold the
      expiry judgement through a lambda, which makes them far cheaper. */
  ghost function ExpiredIn(body: seq<Stmt>, curr: Option<string>, expired: Expiry): seq<Stmt>
  {
    if body == [] then []
    else
      var last := body[|body| - 1];
      ExpiredIn(body[..|body| - 1], curr, expired) + (if IsExpired(last, curr, expired) then [last] else [])
  }

  lemma {:induction false} ExpiredInIsFilter(body: seq<Stmt>, curr: Option<string>, expired: Expiry)
    ensures ExpiredIn(body, curr, expired) == Filter(body, Expired(curr, expired))
  {
    if body != [] {
      ExpiredInIsFilter(body[..|body| - 1], curr, expired);
      assert Expired(curr, expired)(body[|body| - 1]) == IsExpired(body[|body| - 1], curr, expired);
    }
  }

  lemma ExpiredInSnoc(body: seq<Stmt>, i: nat, curr: Option<string>, expired: Expiry)
    requires i < |body|
    ensures ExpiredIn(body[..i + 1], curr, expired) ==
              ExpiredIn(body[..i], curr, expired) + (if IsExpired(body[i], curr, expired) then [body[i]] else [])
  {
    assert body[..i + 1][..i] == body[..i];
  }

  lemma QueriesSnoc(body: seq<Stmt>, i: nat)
    requires i < |body|
    ensures Queries(body[..i + 1]) ==
              Queries(body[..i]) + (if HasDeprecate(body[i]) then [Annotation(body[i]).value.value] else [])
  {
    assert body[..i + 1][..i] == body[..i];
  }

  /** The scanning loop of find_deprecated_lines: the ranges of the
      expired statements, or the first error, together with the expired
      statements themselves, in their order. `calls` records the parameters
      the expiry check was called with. */
  method ScanExpired(body: seq<Stmt>, curr: Option<string>, expired: Expiry, final: int)
    returns (r: Result<seq<Range>>, gone: seq<Stmt>, ghost calls: seq<Params>)
    ensures r == JudgePass(body, |body|, final, curr, expired)
    ensures r.Success? ==> gone == Filter(body, Expired(curr, expired))
    ensures r.Success? ==> calls == Queries(body)
  {
    var lines: seq<Range> := [];
    gone := [];
    calls := [];
    var i := 0;
    while i < |body|
      invariant 0 <= i <= |body|
      invariant JudgePass(body, i, final, curr, expired) == Success(lines)
      invariant gone == ExpiredIn(body[..i], curr, expired)
      invariant calls == Queries(body[..i])
    {
      ghost var lines0, gone0, calls0 := lines, gone, calls;
      var st := body[i];
      var args := Annotation(st);
      if args.Failure? {
        r := Failure(args.error);
        JudgePassFailureSticks(body, i + 1, |body|, final, curr, expired);
        return;
      }
      if args.value.Some? {
        var params := args.value.value;
        if CurrVersionKey in params {
          r := Failure(RepeatedCurrVersion(st.lineno));
          JudgePassFailureSticks(body, i + 1, |body|, final, curr, expired);
          return;
        }
        calls := calls + [params];
        var isDeprecated := expired(curr, params);
        if isDeprecated {
          lines := lines + [RangeOf(body, i, final)];
          gone := gone + [st];
        }
      }
      ScanStep(body, i, final, curr, expired, args.value, lines0, gone0, calls0, lines, gone, calls);
      i := i + 1;
    }
    assert body[..i] == body;
    ExpiredInIsFilter(body, curr, expired);
    r := Success(lines);
  }

  /** find_deprecated_lines: the ranges (in the coordinates of the tree as
      it was) of the expired statements, after which the tree holds the
      original statements minus the expired ones, in their order. On an
      error the tree is left as it was. `calls` records the parameters the
      expiry check was called with. */
  method FindDeprecatedLines(tree: Tree, curr: Option<string>, expired: Expiry, final: int)
    returns (r: Result<seq<Range>>, ghost calls: seq<Params>)
    modifies tree
    ensures r == JudgePass(old(tree.body), |old(tree.body)|, final, curr, expired)
    ensures r.Success? ==> tree.body == Filter(old(tree.body), Unexpired(curr, expired))
    ensures r.Failure? ==> tree.body == old(tree.body)
    ensures r.Success? ==> calls == Queries(old(tree.body))
  {
    var deprecatedBody;
    r, deprecatedBody, calls := ScanExpired(tree.body, curr, expired, final);
    if r.Failure? {
      return;
    }
    forall st ensures Unexpired(curr, expired)(st) == !Expired(curr, expired)(st) {
    }
    RemoveAll(tree, deprecatedBody, Unexpired(curr, expired), Expired(curr, expired));
  }

  /** The removal loop of find_deprecated_lines: `list.remove` of each
      collected statement in turn. When the collected statements are the
      ones `drop` selects, what is left is the ones `keep` selects, in
      their order. */
  method RemoveAll(tree: Tree, gone: seq<Stmt>, ghost keep: Stmt -> bool, ghost drop: Stmt -> bool)
    requires forall x :: keep(x) == !drop(x)
    requires gone == Filter(tree.body, drop)
    modifies tree
    ensures tree.body == Filter(old(tree.body), keep)
  {
    ghost var orig := tree.body;
    ghost var m: nat := 0;
    assert orig[0..] == orig;
    var k := 0;
    while k < |gone|
      invariant 0 <= k <= |gone| && m <= |orig|
      invariant tree.body == Filter(orig[..m], keep) + orig[m..]
      invariant gone[k..] == Filter(orig[m..], drop)
    {
      m := RemoveNextSelected(orig, m, keep, drop);
      tree.body := RemoveFirst(tree.body, gone[k]);
      k := k + 1;
    }
    FilterFinished(orig, m, keep, drop);
  }

  /** The second expiry scan, run on the tree the first one reduced, finds
      nothing: the same deterministic check is applied to statements it
      already judged unexpired. */
  lemma SecondPassFindsNothing(body: seq<Stmt>, final: int, final': int, curr: Option<string>, expired: Expiry)
    requires JudgePass(body, |body|, final, curr, expired).Success?
    ensures var reduced := Filter(body, Unexpired(curr, expired));
            JudgePass(reduced, |reduced|, final', curr, expired) == Success([])
  {
    JudgePassFailure(body, |body|, final, curr, expired);
    var reduced := Filter(body, Unexpired(curr, expired));
    FilterMembers(body, Unexpired(curr, expired));
    forall i | 0 <= i < |reduced| ensures Judge(reduced[i], curr, expired) == Success(false) {
      assert reduced[i] in reduced;
      var j :| 0 <= j < |body| && body[j] == reduced[i];
      assert Judge(body[j], curr, expired).Success?;
      assert Unexpired(curr, expired)(reduced[i]);
      assert !IsExpired(reduced[i], curr, expired);
      assert Judge(reduced[i], curr, expired).value != true;
    }
    JudgePassNothingExpired(reduced, |reduced|, final', curr, expired);
  }
}
