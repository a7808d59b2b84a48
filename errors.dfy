/** Failure kinds of the markup engine and the result type every stage returns.
    Each `Error` constructor stands for one `THROW` site of the original program;
    the message text is not modelled, only which check failed. */
module Errors {

  datatype Error =
    | UnexpectedChar(c: char)         // lexer: a character outside every class
    | UnexpectedEndOfFile             // parser::next passed the last lexical token
    | UnexpectedToken                 // parser: wrong lexical token at a decision point
    | UnexpectedStart                 // parser: a unit that does not begin with '<'
    | UnexpectedEndOfTokens           // HRML::next passed the last structural token
    | UnexpectedStartOfTokens         // visitor: the token at the cursor is not OPEN
    | UnexpectedQueryChar(c: char)    // query parser: a character outside the query alphabet
    | OutOfBounds                     // query search: step index past the last step
    | EmptyQueryStep                  // query search: a step without its selector
    | UnexpectedSelector              // query search: a step whose selector is neither '.' nor '~'

  /** Either a value or the error that aborted the computation; usable with `:-`. */
  datatype Result<+T> = Ok(value: T) | Err(error: Error) {

    predicate IsFailure() {
      Err?
    }

    function PropagateFailure<U>(): Result<U>
      requires Err?
    {
      Err(error)
    }

    function Extract(): T
      requires Ok?
    {
      value
    }
  }

  /** A value produced by a cursor-driven stage, together with the position the
      shared cursor has reached when the stage returns. */
  datatype Parsed<+T> = Parsed(value: T, index: nat)

  /** `ts` already produced, followed by whatever `r` produces (or `r`'s error). */
  function Prefixed<T>(ts: seq<T>, r: Result<seq<T>>): (p: Result<seq<T>>)
    ensures p.Ok? <==> r.Ok?
    ensures p.Ok? ==> p.value == ts + r.value
    ensures p.Err? ==> p == r
  {
    match r
    case Ok(rest) => Ok(ts + rest)
    case Err(e) => Err(e)
  }

  lemma PrefixedNil<T>(r: Result<seq<T>>)
    ensures Prefixed([], r) == r
  {
    if r.Ok? {
      assert [] + r.value == r.value;
    }
  }

  lemma PrefixedAssoc<T>(a: seq<T>, b: seq<T>, r: Result<seq<T>>)
    ensures Prefixed(a, Prefixed(b, r)) == Prefixed(a + b, r)
  {
    if r.Ok? {
      assert a + (b + r.value) == a + b + r.value;
    }
  }
}
