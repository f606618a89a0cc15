/** Absence, as both source languages express it: C#'s `null` (an unset
    environment variable, `GetString()` on JSON null), a property that is
    not there, a step of a JSON path that leads nowhere. */
module Wrappers {

  /** `None` is the absent case. The three members make `Option` usable
      with `:-`, so that a chain of lookups stops at the first absent step. */
  datatype Option<+T> = None | Some(value: T) {

    predicate IsFailure() {
      None?
    }

    function PropagateFailure<U>(): Option<U>
      requires None?
    {
      None
    }

    function Extract(): T
      requires Some?
    {
      value
    }
  }
}
