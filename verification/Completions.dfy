/** Completion records, and the run-time form of the ? macro. */
module Completions {

  datatype Kind = ThrowKind | ReturnKind | BreakKind | ContinueKind

  /** A value of the engine: a plain one, or a completion record. */
  datatype Value = Plain(v: nat) | NormalC(v: nat) | AbruptC(kind: Kind, v: nat)

  function EnsureCompletion(v: Value): Value {
    if v.Plain? then NormalC(v.v) else v
  }

  /** What the macro makes of a value that is not abrupt. */
  function Unwrap(v: Value): Value {
    if v.NormalC? then Plain(v.v) else v
  }

  /** A computation with exceptions: it yields a value or throws one. */
  datatype Outcome<+T> = Returns(value: T) | Throws(thrown: Value)

  function QRuntime(completion: Value): Outcome<Value> {
    var c := EnsureCompletion(completion);
    if c.NormalC? then Returns(Plain(c.v)) else Throws(c)
  }

  /** evalQ on a callback that ran to `result`: only throw completions are caught. */
  function EvalQ(result: Outcome<Value>): Outcome<Value> {
    match result
    case Returns(v) => Returns(EnsureCompletion(v))
    case Throws(e) => if e.AbruptC? && e.kind == ThrowKind then Returns(e) else Throws(e)
  }
}
