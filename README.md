# auto_deprecator: removing expired declarations from a Python module

`auto_deprecator` lets a library mark a function or class with
`@deprecate(expiry='2.1.0', ...)`. Its command-line tool rewrites a source
file once the current version has passed a declaration's expiry. The tool:

- deletes the lines of every expired top-level declaration, from the line the
  parser reports for it up to the next statement's line;
- deletes the `from auto_deprecator import ...` line once any declaration has
  expired;
- trims trailing whitespace and writes the file back.

This project models that tool's core, `auto_deprecator/cli/auto_deprecate.py`
lines 8-121, and proves properties of it. The core has these parts:

- **Import tracker** (`check_import_deprecator_exists`): the line ranges of the
  tracked imports.
- **Annotation scanner** (`check_body_deprecator_exists`): the keyword
  arguments of a statement's single `deprecate` decorator.
- **Expiry pass** (`find_deprecated_lines`): the ranges of the expired
  statements, which it also removes from the tree in place.
- **Planner and rewriter** (`deprecate_single_file`): builds the deletion plan,
  deletes the ranges last first, and strips trailing whitespace.

Every top-level statement owns the range `[its line, next statement's line)`.
The last statement's range ends at one past the end of the file. Both the
import tracker and the expiry pass use this rule.

Modules:

- `Syntax`: the parsed module. It holds the statements, decorators and keyword
  arguments, the `Result` type with the four exceptions the model covers, and
  what the parser guarantees about line numbers (`WellFormed`).
- `Seqs`: filtering, index positions and `list.remove`, over sequences.
- `Ranges`: line ranges and the ownership rule. `Tiling` shows that the ranges
  cover every line from the first statement's line to the end of the file
  exactly once; lines before the first statement lie in no range.
- `Scanner`: `Annotation` (the decorator scan) and `Judge` (the expiry
  judgement). `Judge` takes the expiry check `check_deprecation` as a function
  parameter.
- `Passes`:
  - the class `Tree`, whose `body` the expiry pass shrinks in place;
  - the loops of both scans, each proved against a recursive specification
    (`ImportScan`, `JudgePass`);
  - the `list.remove` loop.
- `Rewriter`: the reference meaning of a deletion plan (`Kept`: the lines
  outside every range, in order), the descending sort, the slice-deletion loop,
  `''.join` and `rstrip`.
- `Deprecator`:
  - `Plan` and `Deprecate`, the code's decisions as functions;
  - `DeprecateSingleFile`, the method, proved equal to them;
  - the corrected import rule described under Findings.

In two places the code does not do what it evidently means to. The model
follows the code in both:

- **Imports are deleted even while still in use.** The comment at
  `auto_deprecator/cli/auto_deprecate.py` lines 101-102 says the import goes
  only when no `deprecate` decorator is left in the tree. Line 103 instead runs
  the *expiry* scan a second time on the reduced tree, and that scan never finds
  anything. So the imports are deleted whenever any declaration expired. This
  is the Findings row below.
- **Plain imports are an error.** The test `isinstance(body, (ast.ImportFrom,
  ast.Import))` at line 12 shows that plain `import` statements were meant to
  be checked too. But line 13 then reads `body.module`, which an `ast.Import`
  does not have, so it raises `AttributeError`. So any top-level plain
  `import` raises, whether or not the module uses `auto_deprecator`. Only
  `tree.body` is scanned (line 11), so an `import` inside a `def`, `class`,
  `if` or `try` is never looked at. The model returns the error
  `ImportWithoutModule` for a top-level one.

## Model

| member | source | states |
|---|---|---|
| Passes.Tree.constructor | auto_deprecator/cli/auto_deprecate.py:84 | the parsed tree holds the module's statements in order |
| Passes.IsTrackedImport | auto_deprecator/cli/auto_deprecate.py:12-13 | defines a tracked import, a `from auto_deprecator import` statement; `Passes.ImportScanSpec` and `Deprecator.ImportsFound` state what the scan makes of it |
| Passes.ImportScan | auto_deprecator/cli/auto_deprecate.py:8-23 | the specification of the import loop; `Passes.ImportScanSpec` and `Passes.ImportScanFailureSticks` state its meaning, and `Passes.CheckImportDeprecatorExists` is proved equal to it |
| Ranges.RangeOf | auto_deprecator/cli/auto_deprecate.py:14-19 | defines the range rule, which lines 64-69 repeat; `Ranges.RangeBounds`, `Ranges.RangesOfDistinctDisjoint` and `Ranges.Tiling` state its properties |
| Scanner.KeywordMap | auto_deprecator/cli/auto_deprecate.py:41-44 | defines the dict comprehension over a call's keywords; `Scanner.KeywordMapKeys`, `Scanner.KeywordMapLast` and `Scanner.KeywordMapDistinct` state its keys and values |
| Scanner.Annotation | auto_deprecator/cli/auto_deprecate.py:26-44 | defines the decorator scan; `Scanner.AnnotationAbsent`, `Scanner.AnnotationUnnamedFails`, `Scanner.AnnotationDuplicateFails` and `Scanner.AnnotationSingle` state its cases |
| Scanner.Judge | auto_deprecator/cli/auto_deprecate.py:52-62 | defines the expiry judgement of one statement; `Scanner.JudgeConsultsOnlyAnnotated` states its cases |
| Passes.JudgePass | auto_deprecator/cli/auto_deprecate.py:51-71 | the specification of the expiry loop; `Passes.JudgePassFails`, `Passes.JudgePassFirstError` and `Passes.JudgePassRanges` state its meaning, and `Passes.ScanExpired` is proved equal to it |
| Passes.ImportScanSpec | auto_deprecator/cli/auto_deprecate.py:8-23 | the import scan fails exactly when a plain `import` occurs, with the error of the first one; otherwise it yields exactly the ranges of the `from auto_deprecator import` statements, in statement order |
| Passes.ImportScanFailureSticks | auto_deprecator/cli/auto_deprecate.py:11-13 | once the scan has raised, later statements do not change the outcome |
| Passes.CheckImportDeprecatorExists | auto_deprecator/cli/auto_deprecate.py:8-23 | the loop returns what the import-scan specification gives for the whole tree, error included |
| Ranges.RangeBounds | auto_deprecator/cli/auto_deprecate.py:14-21 | a statement's range starts on its own line and ends no earlier than it starts and no later than one past the last line |
| Ranges.RangesOfDistinctDisjoint | auto_deprecator/cli/auto_deprecate.py:64-69 | the ranges of two different statements share no line |
| Ranges.RangesAtSafe | auto_deprecator/cli/auto_deprecate.py:64-71 | the ranges of any set of distinct statements are pairwise disjoint and inside the file |
| Ranges.Tiling | auto_deprecator/cli/auto_deprecate.py:64-69 | a line lies in statement i's range exactly when it is between the first statement's line and the last line and statement i is the last one starting at or before it |
| Ranges.CoveredRangesAt | auto_deprecator/cli/auto_deprecate.py:64-71 | the collected ranges cover a line exactly when one of the collected statements' ranges does |
| Scanner.KeywordMapKeys | auto_deprecator/cli/auto_deprecate.py:41-44 | the dict built from a call's keywords has exactly the keyword names as keys |
| Scanner.KeywordMapLast | auto_deprecator/cli/auto_deprecate.py:41-44 | a name maps to the value of its last keyword, as a dict comprehension overwrites earlier entries |
| Scanner.KeywordMapSpec | auto_deprecator/cli/auto_deprecate.py:41-44 | both of the above together |
| Scanner.KeywordMapDistinct | auto_deprecator/cli/auto_deprecate.py:41-44 | with distinct names, as a call that compiles guarantees, the dict holds exactly the call's name/value pairs; from Python 3.9 on `ast.parse` accepts repeats, which `Scanner.KeywordMapLast` covers |
| Scanner.AnnotationAbsent | auto_deprecator/cli/auto_deprecate.py:27-34 | a statement without a decorator list, or whose decorators are calls on bare names none of them `deprecate`, has no annotation |
| Scanner.AnnotationUnnamedFails | auto_deprecator/cli/auto_deprecate.py:30-31 | a decorator that is not a call on a bare name raises, wherever it stands in the list |
| Scanner.AnnotationDuplicateFails | auto_deprecator/cli/auto_deprecate.py:36-39 | two `deprecate` decorators on one definition raise |
| Scanner.AnnotationSingle | auto_deprecator/cli/auto_deprecate.py:30-44 | a single `deprecate` decorator among calls on bare names yields the dict of its keywords |
| Scanner.JudgeConsultsOnlyAnnotated | auto_deprecator/cli/auto_deprecate.py:52-62 | without an annotation the statement is never expired and the expiry check's answer is irrelevant; a scan error is passed on; an annotation that passes `curr_version` itself raises; otherwise the expiry check decides, on the annotation's parameters unchanged; an expired statement is always an annotated definition |
| Passes.JudgePassFailureSticks | auto_deprecator/cli/auto_deprecate.py:51-59 | once the expiry scan has raised, later statements do not change the outcome |
| Passes.JudgePassFails | auto_deprecator/cli/auto_deprecate.py:51-59 | the expiry scan fails exactly when some statement's judgement fails |
| Passes.JudgePassFirstError | auto_deprecator/cli/auto_deprecate.py:51-59 | a failing expiry scan fails with the error of the first failing statement |
| Passes.JudgePassFailure | auto_deprecator/cli/auto_deprecate.py:51-59 | both of the above together |
| Passes.JudgePassRanges | auto_deprecator/cli/auto_deprecate.py:51-71 | a successful expiry scan yields exactly the ranges of the expired statements, in statement order |
| Passes.JudgePassNothingExpired | auto_deprecator/cli/auto_deprecate.py:51-71 | when every judgement is "not expired" the scan yields no ranges |
| Passes.ScanStep | auto_deprecator/cli/auto_deprecate.py:52-72 | one statement with annotation `a` grows the ranges, the expired statements and the expiry-check queries by exactly what it contributes |
| Passes.ExpiredInIsFilter | auto_deprecator/cli/auto_deprecate.py:72 | the statements appended to `deprecated_body` are the expired statements, in order |
| Passes.ScanExpired | auto_deprecator/cli/auto_deprecate.py:47-72 | the scanning loop returns the expiry-scan specification's outcome, and on success the expired statements and the parameters the expiry check was called with, in order |
| Passes.RemoveAll | auto_deprecator/cli/auto_deprecate.py:74-76 | removing each collected statement by value with `list.remove` leaves exactly the statements the filter keeps, in their order |
| Passes.FindDeprecatedLines | auto_deprecator/cli/auto_deprecate.py:47-78 | the result is the expiry scan of the tree as it was; on success the tree holds its old statements minus the expired ones, in order, and the expiry check was called once per annotated statement; on an error the tree is unchanged |
| Passes.SecondPassFindsNothing | auto_deprecator/cli/auto_deprecate.py:103 | running the expiry scan again on the reduced tree always yields no ranges |
| Seqs.RemoveFirst | auto_deprecator/cli/auto_deprecate.py:76 | defines `list.remove`; `Seqs.RemoveFirstAt` states which element it cuts out |
| Seqs.RemoveFirstAt | auto_deprecator/cli/auto_deprecate.py:76 | `list.remove(x)` cuts out exactly the first occurrence of `x` |
| Seqs.RemoveNextSelected | auto_deprecator/cli/auto_deprecate.py:75-76 | one removal takes out exactly the next rejected element of the original sequence |
| Rewriter.DeleteStep | auto_deprecator/cli/auto_deprecate.py:113 | the slice deletion `lines[:start-1] + lines[end-1:]`, applied below every range deleted so far, equals adding the range to the plan |
| Rewriter.ApplyDeletions | auto_deprecator/cli/auto_deprecate.py:112-113 | deleting a descending, disjoint plan one slice at a time leaves exactly the lines outside every range, in order |
| Rewriter.KeptSameRanges | auto_deprecator/cli/auto_deprecate.py:106-113 | the lines kept depend only on which ranges the plan holds, not on their order |
| Rewriter.InsertDesc | auto_deprecator/cli/auto_deprecate.py:107-110 | inserting a range adds exactly it, and what comes first is it or the old first range |
| Rewriter.InsertDescSorted | auto_deprecator/cli/auto_deprecate.py:107-110 | insertion keeps a descending sequence descending |
| Rewriter.SortByStartDesc | auto_deprecator/cli/auto_deprecate.py:107-110 | the sort is a permutation of its input, descending by start |
| Rewriter.SortMembers | auto_deprecator/cli/auto_deprecate.py:107-110 | the sorted plan holds exactly the input's ranges |
| Rewriter.SortKeepsDisjoint | auto_deprecator/cli/auto_deprecate.py:107-110 | sorting keeps the ranges pairwise disjoint |
| Rewriter.SortKeepsSafe | auto_deprecator/cli/auto_deprecate.py:107-110 | sorting keeps the ranges disjoint and inside the file |
| Rewriter.Concat | auto_deprecator/cli/auto_deprecate.py:116 | defines `''.join`; `Rewriter.ConcatAppend` states how it splits |
| Rewriter.ConcatAppend | auto_deprecator/cli/auto_deprecate.py:116 | joining two runs of lines one after the other is joining each run and putting the texts side by side |
| Rewriter.RStrip | auto_deprecator/cli/auto_deprecate.py:116 | `rstrip()` returns a prefix with no trailing whitespace, and only whitespace is cut |
| Rewriter.RStripUnique | auto_deprecator/cli/auto_deprecate.py:116 | that prefix is the only one with both properties |
| Rewriter.RStripIdempotent | auto_deprecator/cli/auto_deprecate.py:116 | stripping twice is stripping once |
| Deprecator.Plan | auto_deprecator/cli/auto_deprecate.py:86-110 | defines the deletion plan as the code builds it; `Deprecator.PlanCases`, `Deprecator.PlanFailure`, `Deprecator.PlanUntouched`, `Deprecator.PlanCovers` and `Deprecator.PlanSafe` state its meaning |
| Deprecator.Deprecate | auto_deprecator/cli/auto_deprecate.py:81-121 | defines the whole run's outcome; `Deprecator.DeprecateSingleFile` is proved equal to it |
| Deprecator.PlanCases | auto_deprecator/cli/auto_deprecate.py:86-104 | the plan is decided by the import scan and the first expiry scan alone: errors pass through, no imports or nothing expired leaves the file alone, otherwise the expired ranges followed by the import ranges |
| Deprecator.PlanDropsImports | auto_deprecator/cli/auto_deprecate.py:101-104 | whenever anything is deleted, the plan is the expired ranges followed by every tracked import's range |
| Deprecator.ImportsFound | auto_deprecator/cli/auto_deprecate.py:87-91 | a successful import scan is nonempty exactly when a tracked import exists |
| Deprecator.NothingExpiredIff | auto_deprecator/cli/auto_deprecate.py:95-99 | the expiry scan yields no ranges exactly when every judgement is "not expired" |
| Deprecator.PlanFailure | auto_deprecator/cli/auto_deprecate.py:87-104 | the run raises exactly when a plain `import` exists, or a tracked import exists and some judgement fails |
| Deprecator.PlanFailureError | auto_deprecator/cli/auto_deprecate.py:87-104 | the error raised is that of the first plain `import`, or else that of the first failing judgement |
| Deprecator.PlanUntouched | auto_deprecator/cli/auto_deprecate.py:87-99 | the file is left alone exactly when there is no plain `import` and either no tracked import or nothing expired |
| Deprecator.PlanSafe | auto_deprecator/cli/auto_deprecate.py:95-113 | the plan's ranges are pairwise disjoint and inside the file |
| Deprecator.CoveredSelected | auto_deprecator/cli/auto_deprecate.py:64-71 | the ranges of the statements a predicate selects cover exactly the lines those statements own |
| Deprecator.PlanCovers | auto_deprecator/cli/auto_deprecate.py:87-113 | the plan deletes a line exactly when its owner is expired or is a tracked import |
| Deprecator.DeprecateSingleFile | auto_deprecator/cli/auto_deprecate.py:81-121 | the method returns the outcome `Deprecate` defines (error, untouched, or the stripped text of the lines outside the plan), every rewrite called the expiry check on both scans' annotated statements, and a file left alone after the expiry scan called it on the annotated statements once |
| Deprecator.RewriteLines | auto_deprecator/cli/auto_deprecate.py:106-116 | sorting, slice deletion, join and strip give the stripped text of the lines outside the plan |
| Deprecator.AnnotationRemainsIff | auto_deprecator/cli/auto_deprecate.py:101-103 | a `deprecate` decorator remains in the reduced tree exactly when some annotated declaration did not expire |
| Deprecator.ImportDroppedWhileInUse | auto_deprecator/cli/auto_deprecate.py:101-104 | on a module with one expired and one live annotated declaration, the code's plan deletes the import while the intended plan keeps it |
| Deprecator.IntendedPlanCases | auto_deprecator/cli/auto_deprecate.py:101-104 | the corrected plan fails exactly when the code's does; it keeps the imports exactly when an annotated declaration survives, and otherwise equals the code's plan |
| Deprecator.IntendedCovers | auto_deprecator/cli/auto_deprecate.py:101-104 | the corrected plan deletes a line exactly when its owner expired, or is a tracked import and no annotated declaration survives |
| Deprecator.IntendedPlanSafe | auto_deprecator/cli/auto_deprecate.py:101-113 | the corrected plan is pairwise disjoint and inside the file |
| Deprecator.AnyDeprecatorRemains | auto_deprecator/cli/auto_deprecate.py:101-103 | the loop answers whether any statement of the tree carries a single `deprecate` decorator that the scan accepts (`HasDeprecate`) |
| Deprecator.DeprecateSingleFileIntended | auto_deprecator/cli/auto_deprecate.py:81-121 | the run with the corrected import rule returns the outcome `IntendedDeprecate` defines |

## Left out

- The `click` entry point `main` (lines 124-136) is left out. It only forwards
  its two options.
- Reading and writing the file (lines 83 and 119) are left out. The file's lines
  are a parameter, and the text to write back is the result.
- `ast.parse` (line 84) is left out. The parsed module is the input, and
  `WellFormed` states what the parser guarantees about line numbers. The model
  takes each statement's `lineno` as the parser reports it, whichever version
  of Python did the parsing.
- Which line the parser reports for a decorated definition is left out. Up to
  Python 3.7 it is the first decorator's line. From Python 3.8 on it is the
  `def`/`class` line, so a definition's decorator lines fall in the range of
  the statement before it. On such line numbers the code, and the model with
  them, leaves an expired definition's decorators in the file. It also deletes
  the decorators of a definition that directly follows a deleted statement.
- `check_deprecation` (imported at line 5) belongs to another file and is not
  part of this model. It is a function parameter of type `Expiry`, so
  exceptions it raises itself are not modelled. The current-version lookup it
  performs when no version is given is also left out.
- Scanner.Annotation: keyword values are strings in the model. A value that is
  not a constant (a name, a call) is left out; `kw.value.s` raises on it. A
  constant that is not a string is left out too. From Python 3.8 to 3.13, `.s`
  returns any constant's value, so `expiry=1.0` hands a float on to the expiry
  check. From Python 3.14 on, `.s` no longer exists, so line 42 raises on every
  keyword, string literals included; the model describes the code up to
  Python 3.13. A `**kwargs` argument (whose `kw.arg` is `None`) is left out as
  well.
- Seqs.RemoveFirst: `tree.body.remove(body)` at line 76 finds the statement by
  identity here, while `RemoveFirst` compares values. The result is the same:
  whether a statement expired depends only on its value, and
  `Passes.RemoveAll` proves that the loop leaves `Filter` of the old body.
- Scanner.Annotation: the model assumes assertions are enabled. Under
  `python -O` the `assert` at line 36 is skipped, and the first of several
  `deprecate` decorators would be used. When the assertion fires, building its
  message reads the undefined name `func`. Either way an exception is raised,
  which the model reports as `DuplicateDeprecate`.
- Rewriter.RStrip: strips only ASCII whitespace and the four separator
  characters `\x1c`-`\x1f`. The other Unicode whitespace `str.rstrip` removes is
  not modelled.
- The `ImportFrom` statement carries only its module name, so a relative
  `from .auto_deprecator import x` counts as tracked, as in the code.
- Running the tool twice is not modelled, because the second run would need
  `ast.parse` of the rewritten text. `Rewriter.RStripIdempotent` states the part
  that concerns the rewriter.

## Findings

| source | as written | input that shows it | evidently intended | confidence | as-written member | corrected member |
|---|---|---|---|---|---|---|
| auto_deprecator/cli/auto_deprecate.py:101-104 | the second call is `find_deprecated_lines`, which looks for *expired* declarations in the already-reduced tree. It never finds any, so the import ranges are always added | the parsed module `Deprecator.ExampleBody` of an 8-line file: `from auto_deprecator import deprecate` with `lineno` 1, a definition with `lineno` 3 decorated `@deprecate(expiry='1.0')` (expired), and one with `lineno` 6 decorated `@deprecate(expiry='3.0')` (not expired). These are the line numbers Python 3.7 reports, where a definition starts at its first decorator. The plan deletes lines 1-2 and 3-5, and the remaining `@deprecate` at line 6 has no import | the comment says the import goes only when no `deprecate` decorator is left in the tree | high (not executed) | Deprecator.ImportDroppedWhileInUse | Deprecator.IntendedCovers |
