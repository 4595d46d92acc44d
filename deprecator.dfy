/** deprecate_single_file: decides, for one parsed module and its lines,
    which line ranges go, and rewrites the line buffer without them. */
module Deprecator {
  import opened Syntax
  import opened Seqs
  import opened Ranges
  import opened Scanner
  import opened Passes
  import opened Rewriter

  /** What a run does to the file: leaves it alone (the function returns
      False) or writes the given text back (it returns True). */
  datatype Outcome = Untouched | Rewritten(text: string)

  /** The ranges of the expired statements, in statement order. */
  function ExpiredRanges(body: seq<Stmt>, final: int, curr: Option<string>, expired: Expiry): seq<Range>
  {
    RangesAt(body, Positions(body, |body|, Expired(curr, expired)), final)
  }

  /** The ranges of the `from auto_deprecator import` statements, in order. */
  function ImportRanges(body: seq<Stmt>, final: int): seq<Range>
  {
    RangesAt(body, Positions(body, |body|, IsTrackedImport), final)
  }

  /** The statements whose ranges the code deletes. */
  predicate Doomed(st: Stmt, curr: Option<string>, expired: Expiry)
  {
    IsExpired(st, curr, expired) || IsTrackedImport(st)
  }

  /** The deletion plan as the code builds it: `None` when the file is left
      alone. After the expired statements are gone, the expiry scan is run
      again on the reduced tree and the import ranges are added when it
      finds nothing. */
  function Plan(body: seq<Stmt>, final: int, curr: Option<string>, expired: Expiry): Result<Option<seq<Range>>>
  {
    match ImportScan(body, |body|, final)
    case Failure(e) => Failure(e)
    case Success(imports) =>
      if imports == [] then Success(None)
      else match JudgePass(body, |body|, final, curr, expired)
        case Failure(e) => Failure(e)
        case Success(dep) =>
          if dep == [] then Success(None)
          else
            var reduced := Filter(body, Unexpired(curr, expired));
            match JudgePass(reduced, |reduced|, final, curr, expired)
            case Failure(e) => Failure(e)
            case Success(again) => Success(Some(if again == [] then dep + imports else dep))
  }

  /** The whole run on a module parsed from `lines`. */
  function Deprecate(body: seq<Stmt>, lines: seq<string>, curr: Option<string>, expired: Expiry): Result<Outcome>
  {
    match Plan(body, |lines| + 1, curr, expired)
    case Failure(e) => Failure(e)
    case Success(None) => Success(Untouched)
    case Success(Some(plan)) => Success(Rewritten(RStrip(Concat(Kept(lines, plan)))))
  }

  /** Whenever anything is deleted, the plan is the expired statements'
      ranges followed by every tracked import's range: the second scan
      never finds anything, so the imports always go. */
  lemma PlanDropsImports(body: seq<Stmt>, final: int, curr: Option<string>, expired: Expiry)
    ensures Plan(body, final, curr, expired).Success? && Plan(body, final, curr, expired).value.Some? ==>
              Plan(body, final, curr, expired).value.value ==
                ExpiredRanges(body, final, curr, expired) + ImportRanges(body, final)
  {
    ImportScanSpec(body, |body|, final);
    JudgePassRanges(body, |body|, final, curr, expired);
    if ImportScan(body, |body|, final).Success? && JudgePass(body, |body|, final, curr, expired).Success? {
      SecondPassFindsNothing(body, final, final, curr, expired);
    }
  }

  /** The second scan never changes the outcome: the plan is decided by
      the import scan and the first expiry scan alone. */
  lemma PlanCases(body: seq<Stmt>, final: int, curr: Option<string>, expired: Expiry)
    ensures var scan := ImportScan(body, |body|, final);
            var pass := JudgePass(body, |body|, final, curr, expired);
            Plan(body, final, curr, expired) ==
              if scan.Failure? then Failure(scan.error)
              else if scan.value == [] then Success(None)
              else if pass.Failure? then Failure(pass.error)
              else if pass.value == [] then Success(None)
              else Success(Some(pass.value + scan.value))
  {
    if ImportScan(body, |body|, final).Success? && JudgePass(body, |body|, final, curr, expired).Success? {
      SecondPassFindsNothing(body, final, final, curr, expired);
    }
  }

  /** The import scan finds a tracked import exactly when one exists. */
  lemma ImportsFound(body: seq<Stmt>, final: int)
    requires ImportScan(body, |body|, final).Success?
    ensures ImportScan(body, |body|, final).value != [] <==> exists i :: 0 <= i < |body| && IsTrackedImport(body[i])
  {
    ImportScanSpec(body, |body|, final);
    PositionsSpec(body, |body|, IsTrackedImport);
    var pos := Positions(body, |body|, IsTrackedImport);
    if exists i :: 0 <= i < |body| && IsTrackedImport(body[i]) {
      var i :| 0 <= i < |body| && IsTrackedImport(body[i]);
      assert i in pos;
    }
    if ImportScan(body, |body|, final).value != [] {
      assert pos[0] in pos;
    }
  }

  /** The run fails exactly when the module has a plain `import`, or has a
      tracked import and a statement whose judgement fails. */
  lemma PlanFailure(body: seq<Stmt>, final: int, curr: Option<string>, expired: Expiry)
    ensures Plan(body, final, curr, expired).Failure? <==>
              (exists i :: 0 <= i < |body| && body[i].Import?) ||
              ((exists i :: 0 <= i < |body| && IsTrackedImport(body[i])) &&
               (exists i :: 0 <= i < |body| && Judge(body[i], curr, expired).Failure?))
  {
    PlanCases(body, final, curr, expired);
    ImportScanSpec(body, |body|, final);
    JudgePassFailure(body, |body|, final, curr, expired);
    if ImportScan(body, |body|, final).Success? {
      ImportsFound(body, final);
    }
  }

  /** The error is that of the first plain `import`, or, when there is
      none, that of the first failing judgement. */
  lemma PlanFailureError(body: seq<Stmt>, final: int, curr: Option<string>, expired: Expiry)
    requires Plan(body, final, curr, expired).Failure?
    ensures exists i :: 0 <= i < |body| &&
              ((body[i].Import? && (forall k :: 0 <= k < i ==> !body[k].Import?) &&
                Plan(body, final, curr, expired).error == ImportWithoutModule(body[i].lineno)) ||
               ((forall k :: 0 <= k < |body| ==> !body[k].Import?) &&
                (forall k :: 0 <= k < i ==> Judge(body[k], curr, expired).Success?) &&
                Judge(body[i], curr, expired) == Failure(Plan(body, final, curr, expired).error)))
  {
    PlanCases(body, final, curr, expired);
    ImportScanSpec(body, |body|, final);
    var scan := ImportScan(body, |body|, final);
    if scan.Success? {
      JudgePassFailure(body, |body|, final, curr, expired);
    }
  }

  /** The file is left alone exactly when nothing fails and either there is
      no tracked import or no statement is expired. */
  lemma PlanUntouched(body: seq<Stmt>, final: int, curr: Option<string>, expired: Expiry)
    ensures Plan(body, final, curr, expired) == Success(None) <==>
              (forall i :: 0 <= i < |body| ==> !body[i].Import?) &&
              ((forall i :: 0 <= i < |body| ==> !IsTrackedImport(body[i])) ||
               (forall i :: 0 <= i < |body| ==> Judge(body[i], curr, expired) == Success(false)))
  {
    PlanCases(body, final, curr, expired);
    ImportScanSpec(body, |body|, final);
    if ImportScan(body, |body|, final).Success? {
      ImportsFound(body, final);
      NothingExpiredIff(body, final, curr, expired);
    }
  }

  /** The expiry scan finds nothing exactly when every judgement is
      "not expired". */
  lemma NothingExpiredIff(body: seq<Stmt>, final: int, curr: Option<string>, expired: Expiry)
    ensures JudgePass(body, |body|, final, curr, expired) == Success([]) <==>
              forall i :: 0 <= i < |body| ==> Judge(body[i], curr, expired) == Success(false)
  {
    JudgePassFailure(body, |body|, final, curr, expired);
    JudgePassRanges(body, |body|, final, curr, expired);
    PositionsSpec(body, |body|, Expired(curr, expired));
    var pe := Positions(body, |body|, Expired(curr, expired));
    var pass := JudgePass(body, |body|, final, curr, expired);
    if forall i :: 0 <= i < |body| ==> Judge(body[i], curr, expired) == Success(false) {
      JudgePassNothingExpired(body, |body|, final, curr, expired);
    }
    if pass == Success([]) {
      forall i | 0 <= i < |body| ensures Judge(body[i], curr, expired) == Success(false) {
        assert Judge(body[i], curr, expired).Success?;
        assert |pe| == 0;
        assert i !in pe;
        assert !Expired(curr, expired)(body[i]);
        assert !IsExpired(body[i], curr, expired);
        assert Judge(body[i], curr, expired).value != true;
      }
    }
  }

  /** Expired statements are definitions and tracked imports are imports,
      so the two sets of positions share nothing: the plan is free of
      overlaps and lies inside the buffer. */
  lemma PlanSafe(body: seq<Stmt>, lineCount: nat, curr: Option<string>, expired: Expiry, plan: seq<Range>)
    requires WellFormed(body, lineCount)
    requires Plan(body, lineCount + 1, curr, expired) == Success(Some(plan))
    ensures PairwiseDisjoint(plan) && WithinLines(plan, lineCount)
  {
    PlanDropsImports(body, lineCount + 1, curr, expired);
    var pe := Positions(body, |body|, Expired(curr, expired));
    var pi := Positions(body, |body|, IsTrackedImport);
    PositionsSpec(body, |body|, Expired(curr, expired));
    PositionsSpec(body, |body|, IsTrackedImport);
    var idx := pe + pi;
    forall a, b | 0 <= a < b < |idx| ensures idx[a] != idx[b] {
      if b < |pe| {
        assert idx[a] == pe[a] && idx[b] == pe[b];
      } else if a >= |pe| {
        assert idx[a] == pi[a - |pe|] && idx[b] == pi[b - |pe|];
      } else {
        assert idx[a] == pe[a] && idx[b] == pi[b - |pe|];
        assert pe[a] in pe && pi[b - |pe|] in pi;
        JudgeConsultsOnlyAnnotated(body[pe[a]], curr, expired, expired);
      }
    }
    RangesAtAppend(body, pe, pi, lineCount + 1);
    RangesAtSafe(body, lineCount, idx);
  }

  /** The ranges of the statements chosen by `d` cover a line exactly when
      the statement owning that line is chosen. */
  lemma CoveredSelected(body: seq<Stmt>, lineCount: nat, d: Stmt -> bool, j: int)
    requires WellFormed(body, lineCount) && |body| > 0
    ensures Covered(RangesAt(body, Positions(body, |body|, d), lineCount + 1), j) <==>
              body[0].lineno <= j <= lineCount && d(body[Owner(body, |body|, j)])
  {
    var idx := Positions(body, |body|, d);
    PositionsSpec(body, |body|, d);
    CoveredRangesAt(body, idx, lineCount + 1, j);
    if body[0].lineno <= j <= lineCount && d(body[Owner(body, |body|, j)]) {
      var o := Owner(body, |body|, j);
      assert o in idx;
      var k :| 0 <= k < |idx| && idx[k] == o;
      Tiling(body, lineCount, o, j);
    }
    if Covered(RangesAt(body, idx, lineCount + 1), j) {
      var k :| 0 <= k < |idx| && Covers(RangeOf(body, idx[k], lineCount + 1), j);
      Tiling(body, lineCount, idx[k], j);
      assert idx[k] in idx;
    }
  }

  /** Exactly the lines owned by an expired statement or a tracked import
      are deleted; lines before the first statement always stay. */
  lemma PlanCovers(body: seq<Stmt>, lineCount: nat, curr: Option<string>, expired: Expiry, plan: seq<Range>, j: int)
    requires WellFormed(body, lineCount)
    requires Plan(body, lineCount + 1, curr, expired) == Success(Some(plan))
    ensures |body| > 0
    ensures Covered(plan, j) <==>
              body[0].lineno <= j <= lineCount && Doomed(body[Owner(body, |body|, j)], curr, expired)
  {
    ImportScanSpec(body, |body|, lineCount + 1);
    PlanDropsImports(body, lineCount + 1, curr, expired);
    CoveredConcat(ExpiredRanges(body, lineCount + 1, curr, expired), ImportRanges(body, lineCount + 1), j);
    CoveredSelected(body, lineCount, Expired(curr, expired), j);
    CoveredSelected(body, lineCount, IsTrackedImport, j);
  }

  /** Some declaration that survives the first scan still carries a
      `deprecate` decorator, so the rewritten file still needs the import. */
  predicate ImportStillNeeded(body: seq<Stmt>, curr: Option<string>, expired: Expiry)
  {
    exists i :: 0 <= i < |body| && HasDeprecate(body[i]) && !IsExpired(body[i], curr, expired)
  }

  /** Whether any statement of a (reduced) tree carries a `deprecate` decorator. */
  predicate AnnotationRemains(reduced: seq<Stmt>)
  {
    exists i :: 0 <= i < |reduced| && HasDeprecate(reduced[i])
  }

  /** The plan as the comment before the second scan describes it: the
      second scan over the reduced tree asks whether any `deprecate`
      decorator is left, and the import ranges are added only when none is. */
  function IntendedPlan(body: seq<Stmt>, final: int, curr: Option<string>, expired: Expiry): Result<Option<seq<Range>>>
  {
    match ImportScan(body, |body|, final)
    case Failure(e) => Failure(e)
    case Success(imports) =>
      if imports == [] then Success(None)
      else match JudgePass(body, |body|, final, curr, expired)
        case Failure(e) => Failure(e)
        case Success(dep) =>
          if dep == [] then Success(None)
          else
            var reduced := Filter(body, Unexpired(curr, expired));
            Success(Some(if AnnotationRemains(reduced) then dep else dep + imports))
  }

  /** Scanning the reduced tree for a decorator answers whether the import
      is still needed. */
  lemma AnnotationRemainsIff(body: seq<Stmt>, curr: Option<string>, expired: Expiry)
    ensures AnnotationRemains(Filter(body, Unexpired(curr, expired))) <==> ImportStillNeeded(body, curr, expired)
  {
    var reduced := Filter(body, Unexpired(curr, expired));
    FilterAny(body, Unexpired(curr, expired), HasDeprecate);
    assert AnnotationRemains(reduced) <==> exists i :: 0 <= i < |reduced| && HasDeprecate(reduced[i]);
    assert ImportStillNeeded(body, curr, expired) <==>
             exists i :: 0 <= i < |body| && Unexpired(curr, expired)(body[i]) && HasDeprecate(body[i]);
  }

  /** The corrected plan differs from the code's only when some annotated
      declaration survives: then the imports stay. */
  lemma IntendedPlanCases(body: seq<Stmt>, final: int, curr: Option<string>, expired: Expiry)
    ensures IntendedPlan(body, final, curr, expired).Failure? <==> Plan(body, final, curr, expired).Failure?
    ensures IntendedPlan(body, final, curr, expired).Success? && IntendedPlan(body, final, curr, expired).value.Some? ==>
              Plan(body, final, curr, expired).Success? && Plan(body, final, curr, expired).value.Some? &&
              IntendedPlan(body, final, curr, expired).value.value ==
                ExpiredRanges(body, final, curr, expired) +
                (if ImportStillNeeded(body, curr, expired) then [] else ImportRanges(body, final))
    ensures !ImportStillNeeded(body, curr, expired) ==> IntendedPlan(body, final, curr, expired) == Plan(body, final, curr, expired)
  {
    PlanCases(body, final, curr, expired);
    PlanDropsImports(body, final, curr, expired);
    AnnotationRemainsIff(body, curr, expired);
    ImportScanSpec(body, |body|, final);
    JudgePassRanges(body, |body|, final, curr, expired);
  }

  /** The corrected plan deletes exactly the lines owned by expired
      statements, and those owned by tracked imports when no annotated
      declaration survives. */
  lemma IntendedCovers(body: seq<Stmt>, lineCount: nat, curr: Option<string>, expired: Expiry, plan: seq<Range>, j: int)
    requires WellFormed(body, lineCount)
    requires IntendedPlan(body, lineCount + 1, curr, expired) == Success(Some(plan))
    ensures |body| > 0
    ensures Covered(plan, j) <==>
              body[0].lineno <= j <= lineCount &&
              (IsExpired(body[Owner(body, |body|, j)], curr, expired) ||
               (IsTrackedImport(body[Owner(body, |body|, j)]) && !ImportStillNeeded(body, curr, expired)))
  {
    IntendedPlanCases(body, lineCount + 1, curr, expired);
    PlanCovers(body, lineCount, curr, expired, Plan(body, lineCount + 1, curr, expired).value.value, j);
    var dep := ExpiredRanges(body, lineCount + 1, curr, expired);
    var imports := ImportRanges(body, lineCount + 1);
    CoveredSelected(body, lineCount, Expired(curr, expired), j);
    CoveredSelected(body, lineCount, IsTrackedImport, j);
    if ImportStillNeeded(body, curr, expired) {
      assert plan == dep + [];
      CoveredConcat(dep, [], j);
    } else {
      CoveredConcat(dep, imports, j);
    }
  }

  /** The corrected plan is as safe to apply as the code's: it is the
      code's plan or its prefix of expired ranges. */
  lemma IntendedPlanSafe(body: seq<Stmt>, lineCount: nat, curr: Option<string>, expired: Expiry, plan: seq<Range>)
    requires WellFormed(body, lineCount)
    requires IntendedPlan(body, lineCount + 1, curr, expired) == Success(Some(plan))
    ensures PairwiseDisjoint(plan) && WithinLines(plan, lineCount)
  {
    IntendedPlanCases(body, lineCount + 1, curr, expired);
    var full := Plan(body, lineCount + 1, curr, expired).value.value;
    PlanSafe(body, lineCount, curr, expired, full);
    PlanDropsImports(body, lineCount + 1, curr, expired);
    var dep := ExpiredRanges(body, lineCount + 1, curr, expired);
    if ImportStillNeeded(body, curr, expired) {
      assert plan == dep + [] == full[..|dep|];
    }
  }

  /** The whole run with the corrected plan. */
  function IntendedDeprecate(body: seq<Stmt>, lines: seq<string>, curr: Option<string>, expired: Expiry): Result<Outcome>
  {
    match IntendedPlan(body, |lines| + 1, curr, expired)
    case Failure(e) => Failure(e)
    case Success(None) => Success(Untouched)
    case Success(Some(plan)) => Success(Rewritten(RStrip(Concat(Kept(lines, plan)))))
  }

  /** The test the comment before the second scan asks for: does any
      statement of the tree still carry a `deprecate` decorator? */
  method AnyDeprecatorRemains(tree: Tree) returns (found: bool)
    ensures found == AnnotationRemains(tree.body)
  {
    var i := 0;
    while i < |tree.body|
      invariant 0 <= i <= |tree.body|
      invariant forall k :: 0 <= k < i ==> !HasDeprecate(tree.body[k])
    {
      var args := Annotation(tree.body[i]);
      if args.Success? && args.value.Some? {
        return true;
      }
      i := i + 1;
    }
    return false;
  }

  /** A module that imports the decorator, with one expired and one live
      annotated declaration. */
  const ExampleBody: seq<Stmt> := [
    ImportFrom(Some("auto_deprecator"), 1),
    Decorated(3, [Call(Name("deprecate"), [Keyword("expiry", "1.0")])]),
    Decorated(6, [Call(Name("deprecate"), [Keyword("expiry", "3.0")])])
  ]

  /** An expiry check under which only the declaration marked "1.0" has expired. */
  const ExampleExpiry: Expiry := (curr: Option<string>, p: Params) => "expiry" in p && p["expiry"] == "1.0"

  /** On the example the code deletes the import although the declaration
      at line 6 keeps its `deprecate` decorator; the corrected plan keeps it. */
  lemma ImportDroppedWhileInUse()
    ensures Plan(ExampleBody, 9, None, ExampleExpiry) == Success(Some([Range(3, 6), Range(1, 3)]))
    ensures HasDeprecate(ExampleBody[2]) && !IsExpired(ExampleBody[2], None, ExampleExpiry)
    ensures IntendedPlan(ExampleBody, 9, None, ExampleExpiry) == Success(Some([Range(3, 6)]))
  {
    var body := ExampleBody;
    AnnotationAbsent(body[0]);
    AnnotationSingle(body[1], 0);
    AnnotationSingle(body[2], 0);
    assert KeywordMap([Keyword("expiry", "1.0")]) == map["expiry" := "1.0"];
    assert KeywordMap([Keyword("expiry", "3.0")]) == map["expiry" := "3.0"];
    assert Judge(body[0], None, ExampleExpiry) == Success(false);
    assert Judge(body[1], None, ExampleExpiry) == Success(true);
    assert Judge(body[2], None, ExampleExpiry) == Success(false);
    assert IsTrackedImport(body[0]) && !IsTrackedImport(body[1]) && !IsTrackedImport(body[2]);
    assert RangeOf(body, 0, 9) == Range(1, 3) && RangeOf(body, 1, 9) == Range(3, 6);
    assert ImportScan(body, 0, 9) == Success([]);
    assert ImportScan(body, 1, 9) == Success([] + [Range(1, 3)]);
    assert [] + [Range(1, 3)] == [Range(1, 3)];
    assert ImportScan(body, 1, 9) == Success([Range(1, 3)]);
    assert ImportScan(body, 2, 9) == Success([Range(1, 3)]);
    assert ImportScan(body, 3, 9) == Success([Range(1, 3)]);
    assert JudgePass(body, 1, 9, None, ExampleExpiry) == Success([]);
    assert JudgePass(body, 2, 9, None, ExampleExpiry) == Success([] + [Range(3, 6)]);
    assert [] + [Range(3, 6)] == [Range(3, 6)];
    assert JudgePass(body, 2, 9, None, ExampleExpiry) == Success([Range(3, 6)]);
    assert JudgePass(body, 3, 9, None, ExampleExpiry) == Success([Range(3, 6)]);
    PlanCases(body, 9, None, ExampleExpiry);
    assert [Range(3, 6)] + [Range(1, 3)] == [Range(3, 6), Range(1, 3)];
    AnnotationRemainsIff(body, None, ExampleExpiry);
    assert HasDeprecate(body[2]) && !IsExpired(body[2], None, ExampleExpiry);
    assert ImportStillNeeded(body, None, ExampleExpiry);
  }

  /** deprecate_single_file, with the file's lines given and the text to
      write back returned. `calls` records the parameters handed to the
      expiry check, over both scans. */
  method DeprecateSingleFile(body: seq<Stmt>, lines: seq<string>, curr: Option<string>, expired: Expiry)
    returns (r: Result<Outcome>, ghost calls: seq<Params>)
    requires WellFormed(body, |lines|)
    ensures r == Deprecate(body, lines, curr, expired)
    ensures r.Success? && r.value.Rewritten? ==>
              calls == Queries(body) + Queries(Filter(body, Unexpired(curr, expired)))
    ensures r == Success(Untouched) && ImportScan(body, |body|, |lines| + 1).Success? &&
            ImportScan(body, |body|, |lines| + 1).value != [] ==>
              calls == Queries(body)
  {
    calls := [];
    var final := |lines| + 1;
    var tree := new Tree(body);
    var imports := CheckImportDeprecatorExists(tree, final);
    if imports.Failure? {
      r := Failure(imports.error);
      return;
    }
    if imports.value == [] {
      r := Success(Untouched);
      return;
    }
    var deprecated;
    ghost var first;
    deprecated, first := FindDeprecatedLines(tree, curr, expired, final);
    calls := first;
    if deprecated.Failure? {
      r := Failure(deprecated.error);
      return;
    }
    if deprecated.value == [] {
      r := Success(Untouched);
      return;
    }
    var again;
    ghost var second;
    again, second := FindDeprecatedLines(tree, curr, expired, final);
    calls := first + second;
    if again.Failure? {
      r := Failure(again.error);
      return;
    }
    var plan := deprecated.value;
    if again.value == [] {
      plan := plan + imports.value;
    }
    PlanSafe(body, |lines|, curr, expired, plan);
    var text := RewriteLines(lines, plan);
    r := Success(Rewritten(text));
  }

  /** The rewriting half of deprecate_single_file: the plan's ranges are
      deleted last first, and the joined text loses its trailing
      whitespace. The result is the lines outside every range, whatever
      order the plan lists its ranges in. */
  method RewriteLines(lines: seq<string>, plan: seq<Range>) returns (text: string)
    requires PairwiseDisjoint(plan) && WithinLines(plan, |lines|)
    ensures text == RStrip(Concat(Kept(lines, plan)))
  {
    var ordered := SortByStartDesc(plan);
    SortKeepsSafe(plan, |lines|);
    SortMembers(plan);
    var buf := ApplyDeletions(lines, ordered);
    KeptSameRanges(lines, ordered, plan);
    text := RStrip(Concat(buf));
  }

  /** deprecate_single_file with the corrected import rule: after the
      expired declarations are gone, the imports go only when no
      `deprecate` decorator is left in the tree. */
  method DeprecateSingleFileIntended(body: seq<Stmt>, lines: seq<string>, curr: Option<string>, expired: Expiry)
    returns (r: Result<Outcome>)
    requires WellFormed(body, |lines|)
    ensures r == IntendedDeprecate(body, lines, curr, expired)
  {
    var final := |lines| + 1;
    var tree := new Tree(body);
    var imports := CheckImportDeprecatorExists(tree, final);
    if imports.Failure? {
      return Failure(imports.error);
    }
    if imports.value == [] {
      return Success(Untouched);
    }
    var deprecated;
    ghost var first;
    deprecated, first := FindDeprecatedLines(tree, curr, expired, final);
    if deprecated.Failure? {
      return Failure(deprecated.error);
    }
    if deprecated.value == [] {
      return Success(Untouched);
    }
    var remains := AnyDeprecatorRemains(tree);
    var plan := deprecated.value;
    if !remains {
      plan := plan + imports.value;
    }
    IntendedPlanSafe(body, |lines|, curr, expired, plan);
    var text := RewriteLines(lines, plan);
    r := Success(Rewritten(text));
  }
}
