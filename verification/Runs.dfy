/** Results of fuel-bounded runs, shared by the two interpreters. */
module Runs {
  import opened Wrappers

  datatype Val =
    | Int(n: int)
    | Str(text: string)
    | EnumV(enum: string, variant: string, fields: seq<Val>)
    | Opaque(id: int)

  /** Why control does not reach the next statement. */
  datatype Signal =
    | Broke
    | Continued
    | Returned(value: Option<Val>)
    | OutOfFuel
    | Undefined
    | ReadUnset(name: string)   // a name read before any write to its slot
    | NoArm                     // a match with no arm for the value
    | BadArm                    // a match arm that binds the wrong number of fields

  /** `Value` when control falls through, `Halt` when it does not; `st` is the state reached. */
  datatype Out<+S, +T> = Value(value: T, st: S) | Halt(sig: Signal, st: S) {
    predicate IsFailure() {
      Halt?
    }

    function PropagateFailure<U>(): Out<S, U>
      requires Halt?
    {
      Halt(sig, st)
    }

    function Extract(): (T, S)
      requires Value?
    {
      (value, st)
    }
  }

  /** At the end of a scope its own variables die and the ones they hid reappear. */
  function Restore(before: map<string, Val>, after: map<string, Val>, names: set<string>): map<string, Val> {
    (after - names) + (map x | x in before && x in names :: before[x])
  }

  /** C11 section 6.8.4.1 and an i1 test agree: everything but zero is true. */
  predicate Truthy(v: Val) {
    v != Int(0)
  }
}
