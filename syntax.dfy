/** The part of a parsed Python module that the deprecation pass looks at:
    the top-level statements, each with the line it starts on, and for
    function and class definitions their decorator expressions. */
module Syntax {

  datatype Option<T> = None | Some(value: T)

  /** The exceptions of the pass that the model covers; each is raised before
      anything is written. */
  datatype Error =
      /** `body.module` read on a plain `import x`, which has no such attribute */
    | ImportWithoutModule(lineno: int)
      /** `d.func.id` read on a decorator that is not a call on a bare name */
    | DecoratorNotNamedCall(lineno: int)
      /** more than one `deprecate` decorator on one definition */
    | DuplicateDeprecate(lineno: int)
      /** the decorator itself passes `curr_version`, which the expiry call also passes */
    | RepeatedCurrVersion(lineno: int)

  datatype Result<T> = Success(value: T) | Failure(error: Error)

  /** The keyword arguments of a decorator call, by name. */
  type Params = map<string, string>

  /** A keyword argument `arg='value'` with a string literal value. */
  datatype Keyword = Keyword(arg: string, value: string)

  /** The called expression of a decorator call: a bare name, or anything
      else (an attribute access such as `lib.deprecate`, a subscript, ...). */
  datatype Callee = Name(id: string) | OtherCallee

  /** A decorator: a call `f(k='v', ...)`, or an expression that is not a
      call at all (`@staticmethod`). */
  datatype Decorator = Call(func: Callee, keywords: seq<Keyword>) | NotCall

  /** A top-level statement. `Decorated` stands for a function, async
      function or class definition, the node kinds that have a decorator
      list; `Other` for every statement kind without one. */
  datatype Stmt =
    | ImportFrom(moduleName: Option<string>, lineno: int)
    | Import(lineno: int)
    | Decorated(lineno: int, decorators: seq<Decorator>)
    | Other(lineno: int)

  /** What the parser guarantees of a module parsed from `lineCount` lines:
      every statement starts on one of those lines, in non-decreasing order. */
  predicate WellFormed(body: seq<Stmt>, lineCount: nat)
  {
    (forall i :: 0 <= i < |body| ==> 1 <= body[i].lineno <= lineCount) &&
    (forall i, j :: 0 <= i <= j < |body| ==> body[i].lineno <= body[j].lineno)
  }
}
