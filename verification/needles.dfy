/** Needles and their registration: an append-only list of compiled patterns. */
module Needles {
  import opened Wrappers
  import opened Errors

  /** A pattern's text with its compiled line matcher of type M. */
  datatype Needle<M> = Needle(data: string, matcher: M)

  /** RegexMatcher::new_line_matcher, which the finder calls but does not define. */
  type Compiler<M> = string -> Result<M, RegexError>

  /** The needle list after a registration, with what add_regex returned. */
  datatype Registration<M> = Registration(searches: seq<Needle<M>>, result: Result<nat, FinderError>)

  /** Needle::new: compile once, or fail with the regex error as FinderError::Grep. */
  function NewNeedle<M>(data: string, compile: Compiler<M>): (r: Result<Needle<M>, FinderError>)
    ensures r.Success? <==> compile(data).Success?
    ensures r.Success? ==> r.value.data == data && r.value.matcher == compile(data).value
    ensures r.Failure? ==> r.error == Grep(compile(data).error)
  {
    match compile(data)
    case Success(matcher) => Success(Needle(data, matcher))
    case Failure(err) => Failure(Grep(err))
  }

  /**
   * Finder::add_regex. A compile error is returned before anything is pushed,
   * so the list is unchanged; otherwise the needle goes at the end and the
   * returned value is the new length, i.e. the needle's 1-based position.
   */
  function AddRegex<M>(searches: seq<Needle<M>>, search: string, compile: Compiler<M>): (reg: Registration<M>)
    ensures compile(search).Failure? ==>
              reg.searches == searches && reg.result == Failure(Grep(compile(search).error))
    ensures compile(search).Success? ==>
              && reg.result == Success(|reg.searches|)
              && |reg.searches| == |searches| + 1
              && reg.searches[..|searches|] == searches
              && reg.searches[|searches|] == Needle(search, compile(search).value)
  {
    match NewNeedle(search, compile)
    case Failure(err) => Registration(searches, Failure(err))
    case Success(needle) =>
      var grown := searches + [needle];
      Registration(grown, Success(|grown|))
  }

  /** add_regex called once per pattern, in order, ignoring the returned values. */
  function RegisterAll<M>(searches: seq<Needle<M>>, patterns: seq<string>, compile: Compiler<M>): seq<Needle<M>>
    decreases |patterns|
  {
    if |patterns| == 0 then searches
    else RegisterAll(AddRegex(searches, patterns[0], compile).searches, patterns[1..], compile)
  }

  /** The needles of the patterns that compile, in the order given. */
  function Compiled<M>(patterns: seq<string>, compile: Compiler<M>): (ns: seq<Needle<M>>)
    ensures |ns| <= |patterns|
    ensures forall i :: 0 <= i < |ns| ==> compile(ns[i].data) == Success(ns[i].matcher)
    decreases |patterns|
  {
    if |patterns| == 0 then []
    else
      var p := patterns[0];
      var rest := Compiled(patterns[1..], compile);
      if compile(p).Success? then [Needle(p, compile(p).value)] + rest else rest
  }

  /**
   * Registering a sequence of patterns appends exactly the needles of those
   * that compile, in registration order; the invalid ones leave no trace.
   */
  lemma {:induction false} RegisterAllAppendsCompiled<M>(searches: seq<Needle<M>>, patterns: seq<string>, compile: Compiler<M>)
    ensures RegisterAll(searches, patterns, compile) == searches + Compiled(patterns, compile)
    decreases |patterns|
  {
    if |patterns| > 0 {
      var next := AddRegex(searches, patterns[0], compile).searches;
      RegisterAllAppendsCompiled(next, patterns[1..], compile);
      if compile(patterns[0]).Success? {
        assert next == searches + [Needle(patterns[0], compile(patterns[0]).value)];
      }
    }
  }

  /** Registration only ever appends: the earlier list is a prefix of the later one. */
  lemma RegisterAllIsAppendOnly<M>(searches: seq<Needle<M>>, patterns: seq<string>, compile: Compiler<M>)
    ensures searches <= RegisterAll(searches, patterns, compile)
  {
    RegisterAllAppendsCompiled(searches, patterns, compile);
  }
}
