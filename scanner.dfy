/** The annotation scanner: reads the `deprecate(...)` decorator of one
    top-level statement, and the expiry judgement made from it. */
module Scanner {
  import opened Syntax
  import opened Seqs

  const DeprecateName: string := "deprecate"

  /** The keyword the expiry check is always called with. */
  const CurrVersionKey: string := "curr_version"

  /** The expiry check: the current version (absent when none was given)
      and the decorator's keyword arguments decide whether it has expired. */
  type Expiry = (Option<string>, Params) -> bool

  /** A decorator on which `d.func.id` can be read. */
  predicate IsNamedCall(d: Decorator)
  {
    d.Call? && d.func.Name?
  }

  /** Every decorator of the list is a call on a bare name. */
  predicate AllNamedCalls(decs: seq<Decorator>)
  {
    decs == [] || (AllNamedCalls(decs[..|decs| - 1]) && IsNamedCall(decs[|decs| - 1]))
  }

  lemma {:induction false} AllNamedCallsIff(decs: seq<Decorator>)
    ensures AllNamedCalls(decs) <==> forall k :: 0 <= k < |decs| ==> IsNamedCall(decs[k])
  {
    if decs != [] {
      var init := decs[..|decs| - 1];
      AllNamedCallsIff(init);
      assert forall k :: 0 <= k < |init| ==> init[k] == decs[k];
    }
  }

  predicate IsDeprecateCall(d: Decorator)
  {
    d.Call? && d.func == Name(DeprecateName)
  }

  /** The dict built from a call's keywords, later keywords overriding
      earlier ones of the same name. */
  function KeywordMap(kws: seq<Keyword>): Params
  {
    if kws == [] then map[]
    else KeywordMap(kws[..|kws| - 1])[kws[|kws| - 1].arg := kws[|kws| - 1].value]
  }

  /** The keyword arguments of a call (a decorator found by
      `IsDeprecateCall` always is one). */
  function KeywordsOf(d: Decorator): seq<Keyword>
  {
    if d.Call? then d.keywords else []
  }

  /** The keyword map has exactly the call's keyword names as keys. */
  lemma {:induction false} KeywordMapKeys(kws: seq<Keyword>)
    ensures forall name :: name in KeywordMap(kws) <==> exists i :: 0 <= i < |kws| && kws[i].arg == name
  {
    if kws != [] {
      var init := kws[..|kws| - 1];
      var last := kws[|kws| - 1];
      KeywordMapKeys(init);
      forall name ensures name in KeywordMap(kws) <==> exists i :: 0 <= i < |kws| && kws[i].arg == name {
        if name == last.arg {
          assert kws[|kws| - 1].arg == name;
        } else if name in KeywordMap(init) {
          var i :| 0 <= i < |init| && init[i].arg == name;
          assert kws[i].arg == name;
        } else {
          forall i | 0 <= i < |kws| ensures kws[i].arg != name {
            if i < |kws| - 1 {
              assert kws[i] == init[i];
            }
          }
        }
      }
    }
  }

  /** Each name maps to the value of the last keyword with that name. */
  lemma {:induction false} KeywordMapLast(kws: seq<Keyword>, i: nat)
    requires i < |kws| && forall j :: i < j < |kws| ==> kws[j].arg != kws[i].arg
    ensures kws[i].arg in KeywordMap(kws) && KeywordMap(kws)[kws[i].arg] == kws[i].value
  {
    if i < |kws| - 1 {
      var init := kws[..|kws| - 1];
      assert init[i] == kws[i];
      KeywordMapLast(init, i);
    }
  }

  /** The keyword map has exactly the call's keyword names as keys, and
      each maps to the value of the last keyword with that name. */
  lemma KeywordMapSpec(kws: seq<Keyword>)
    ensures forall name :: name in KeywordMap(kws) <==> exists i :: 0 <= i < |kws| && kws[i].arg == name
    ensures forall i :: 0 <= i < |kws| && (forall j :: i < j < |kws| ==> kws[j].arg != kws[i].arg) ==>
              kws[i].arg in KeywordMap(kws) && KeywordMap(kws)[kws[i].arg] == kws[i].value
  {
    KeywordMapKeys(kws);
    forall i | 0 <= i < |kws| && (forall j :: i < j < |kws| ==> kws[j].arg != kws[i].arg)
      ensures kws[i].arg in KeywordMap(kws) && KeywordMap(kws)[kws[i].arg] == kws[i].value
    {
      KeywordMapLast(kws, i);
    }
  }

  /** With distinct keyword names, as a call that compiles guarantees, the
      map holds exactly the call's name/value pairs. From Python 3.9 on
      `ast.parse` accepts repeated names, which `KeywordMapLast` covers. */
  lemma KeywordMapDistinct(kws: seq<Keyword>)
    requires forall i, j :: 0 <= i < j < |kws| ==> kws[i].arg != kws[j].arg
    ensures forall i :: 0 <= i < |kws| ==> kws[i].arg in KeywordMap(kws) && KeywordMap(kws)[kws[i].arg] == kws[i].value
    ensures forall name :: name in KeywordMap(kws) ==> exists i :: 0 <= i < |kws| && kws[i] == Keyword(name, KeywordMap(kws)[name])
  {
    KeywordMapSpec(kws);
  }

  /** The annotation of a statement: `None` when it has no decorator list
      or no `deprecate` decorator, the keyword arguments of its single
      `deprecate` decorator otherwise. Every decorator's called name is
      read first, so any decorator that is not a call on a bare name is an
      error, as is a second `deprecate` decorator. */
  function Annotation(st: Stmt): Result<Option<Params>>
  {
    match st
    case Decorated(ln, decs) =>
      if !AllNamedCalls(decs) then Failure(DecoratorNotNamedCall(ln))
      else
        var found := Filter(decs, IsDeprecateCall);
        if |found| == 0 then Success(None)
        else if |found| != 1 then Failure(DuplicateDeprecate(ln))
        else Success(Some(KeywordMap(KeywordsOf(found[0]))))
    case _ => Success(None)
  }

  /** The statement carries exactly one `deprecate` decorator. */
  predicate HasDeprecate(st: Stmt)
  {
    Annotation(st).Success? && Annotation(st).value.Some?
  }

  /** A statement without a decorator list, or whose decorators are all
      calls on bare names none of which is `deprecate`, has no annotation. */
  lemma AnnotationAbsent(st: Stmt)
    requires !st.Decorated? ||
             forall k :: 0 <= k < |st.decorators| ==> IsNamedCall(st.decorators[k]) && !IsDeprecateCall(st.decorators[k])
    ensures Annotation(st) == Success(None)
  {
    if st.Decorated? {
      AllNamedCallsIff(st.decorators);
      FilterNone(st.decorators, IsDeprecateCall);
    }
  }

  /** A decorator that is not a call on a bare name makes the scan fail,
      wherever it stands in the decorator list. */
  lemma AnnotationUnnamedFails(st: Stmt, k: nat)
    requires st.Decorated? && k < |st.decorators| && !IsNamedCall(st.decorators[k])
    ensures Annotation(st) == Failure(DecoratorNotNamedCall(st.lineno))
  {
    AllNamedCallsIff(st.decorators);
  }

  /** Two `deprecate` decorators on one statement make the scan fail. */
  lemma {:induction false} AnnotationDuplicateFails(st: Stmt, a: nat, b: nat)
    requires st.Decorated? && a < b < |st.decorators|
    requires forall k :: 0 <= k < |st.decorators| ==> IsNamedCall(st.decorators[k])
    requires IsDeprecateCall(st.decorators[a]) && IsDeprecateCall(st.decorators[b])
    ensures Annotation(st) == Failure(DuplicateDeprecate(st.lineno))
  {
    AllNamedCallsIff(st.decorators);
    FilterTwo(st.decorators, IsDeprecateCall, a, b);
  }

  /** A single `deprecate` decorator, among calls on bare names, yields
      its keyword arguments. */
  lemma {:induction false} AnnotationSingle(st: Stmt, a: nat)
    requires st.Decorated? && a < |st.decorators|
    requires forall k :: 0 <= k < |st.decorators| ==> IsNamedCall(st.decorators[k])
    requires IsDeprecateCall(st.decorators[a])
    requires forall b :: 0 <= b < |st.decorators| && IsDeprecateCall(st.decorators[b]) ==> a == b
    ensures Annotation(st) == Success(Some(KeywordMap(st.decorators[a].keywords)))
  {
    AllNamedCallsIff(st.decorators);
    FilterUnique(st.decorators, IsDeprecateCall, a);
  }

  /** Whether the statement has expired: statements without an annotation
      never have and the expiry check is not consulted for them; otherwise
      the expiry check gets the current version and the annotation's parameters
      unchanged, and passing `curr_version` twice is an error. */
  function Judge(st: Stmt, curr: Option<string>, expired: Expiry): Result<bool>
  {
    match Annotation(st)
    case Failure(e) => Failure(e)
    case Success(None) => Success(false)
    case Success(Some(params)) =>
      if CurrVersionKey in params then Failure(RepeatedCurrVersion(st.lineno))
      else Success(expired(curr, params))
  }

  predicate IsExpired(st: Stmt, curr: Option<string>, expired: Expiry)
  {
    Judge(st, curr, expired) == Success(true)
  }

  /** `IsExpired` as a value, for filtering. */
  function Expired(curr: Option<string>, expired: Expiry): Stmt -> bool
  {
    st => IsExpired(st, curr, expired)
  }

  function Unexpired(curr: Option<string>, expired: Expiry): Stmt -> bool
  {
    st => !IsExpired(st, curr, expired)
  }

  /** The judgement consults the expiry check exactly on annotated
      statements, with their parameters unchanged: without an annotation
      the outcome does not depend on the expiry check at all, and an
      annotation that passes `curr_version` itself is an error. */
  lemma JudgeConsultsOnlyAnnotated(st: Stmt, curr: Option<string>, e1: Expiry, e2: Expiry)
    ensures Annotation(st) == Success(None) ==> Judge(st, curr, e1) == Judge(st, curr, e2) == Success(false)
    ensures Annotation(st).Failure? ==> Judge(st, curr, e1) == Failure(Annotation(st).error)
    ensures HasDeprecate(st) && CurrVersionKey !in Annotation(st).value.value ==>
              Judge(st, curr, e1) == Success(e1(curr, Annotation(st).value.value))
    ensures HasDeprecate(st) && CurrVersionKey in Annotation(st).value.value ==>
              Judge(st, curr, e1) == Failure(RepeatedCurrVersion(st.lineno))
    ensures IsExpired(st, curr, e1) ==> HasDeprecate(st) && st.Decorated?
  {
  }
}
