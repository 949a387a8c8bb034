/** Go's `nil`-or-value and `error` results, as datatypes shared by every module. */
module Outcomes {

  /** A value that may be absent (a nil pointer or nil interface in Go). */
  datatype Option<T> = None | Some(value: T)

  /** A Go `error`; only its message is modelled. */
  datatype Error = Error(msg: string)

  /** The `(T, error)` pair a Go function returns, with exactly one of the two present. */
  datatype Result<T> = Ok(value: T) | Err(error: Error)

  /** How a call that may reach a Go `panic` ends: it returns, or it panics with a reason. */
  datatype Fatal<T> = Returned(value: T) | Panicked(reason: string)

  /** The Go runtime's panic on a method call through a nil pointer or nil interface. */
  const NIL_DEREFERENCE: string := "runtime error: invalid memory address or nil pointer dereference"

  /** The Go runtime's panic on an integer division or modulo by zero. */
  const DIVIDE_BY_ZERO: string := "runtime error: integer divide by zero"

  /** The last non-nil error of a sequence of results, or nil when every one of them is nil. */
  function LastError(errs: seq<Option<Error>>): (r: Option<Error>)
    ensures r.None? <==> forall i :: 0 <= i < |errs| ==> errs[i].None?
    ensures r.Some? ==> exists i :: 0 <= i < |errs| && errs[i] == r &&
                          forall j :: i < j < |errs| ==> errs[j].None?
  {
    if errs == [] then None
    else if errs[|errs| - 1].Some? then errs[|errs| - 1]
    else
      var init := errs[..|errs| - 1];
      assert forall i :: 0 <= i < |init| ==> init[i] == errs[i];
      LastError(init)
  }

  /**
   * A non-empty set has an element: the witness every loop over a Go map needs before
   * it picks the next key, in whatever order the runtime chooses.
   */
  lemma Inhabited<T>(s: set<T>) returns (x: T)
    requires s != {}
    ensures x in s
  {
    if forall y :: y !in s {
      assert false;
    }
    x :| x in s;
  }
}
