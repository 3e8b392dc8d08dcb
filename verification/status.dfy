/** Status values crossing the driver and RPC boundaries, the status
    constructors of the driver utilities, and the early-return macros
    that propagate them. */
module Status {

  /** The status codes the core produces or inspects. */
  datatype StatusCode =
    | OK
    | INVALID_ARGUMENT
    | OUT_OF_RANGE
    | UNIMPLEMENTED
    | PERMISSION_DENIED
    | INTERNAL_ERROR

  /** A status: a code and a human-readable reason. */
  datatype Status = Status(code: StatusCode, why: string)

  /** `is::make_status(code)`: a status with an empty reason. */
  function MakeStatus(code: StatusCode): Status {
    Status(code, "")
  }

  /** The status every successful operation returns. */
  const Ok: Status := MakeStatus(OK)

  /** `internal_error(code, why)`: logs `why` and returns it with `code`. */
  function InternalError(code: StatusCode, why: string): (s: Status)
    ensures s.code == code && s.why == why
  {
    Status(code, why)
  }

  /** The reason shared by both accessibility errors, up to their last word. */
  function AccessPrefix(name: string): string {
    "[" + name + "] Not available or not "
  }

  /** `writeability_error(name)`. */
  function WriteabilityError(name: string): (s: Status)
    ensures s.code == PERMISSION_DENIED
    ensures s.why == "[" + name + "] Not available or not writable"
  {
    Status(PERMISSION_DENIED, AccessPrefix(name) + "writable")
  }

  /** `readability_error(name)`. */
  function ReadabilityError(name: string): (s: Status)
    ensures s.code == PERMISSION_DENIED
    ensures s.why == "[" + name + "] Not available or not readable"
  {
    Status(PERMISSION_DENIED, AccessPrefix(name) + "readable")
  }

  /** Neither accessibility error is OK, and their reasons share everything
      but the last word, so the two can always be told apart. */
  lemma AccessErrorsDiffer(name: string)
    ensures WriteabilityError(name).code != OK && ReadabilityError(name).code != OK
    ensures WriteabilityError(name).why == AccessPrefix(name) + "writable"
    ensures ReadabilityError(name).why == AccessPrefix(name) + "readable"
    ensures WriteabilityError(name).why != ReadabilityError(name).why
  {
    var p := AccessPrefix(name);
    assert WriteabilityError(name).why[|p|] == 'w';
    assert ReadabilityError(name).why[|p|] == 'r';
  }

  /** The outcome of a getter: its status and its out-parameter
      afterwards. */
  datatype Got<T> = Got(status: Status, value: T)

  /** What a fail-fast check does to the enclosing function. */
  datatype Flow = Continue | Return(status: Status)

  /** `is_assert_set` (and the identical `is_assert_ok`): return the status
      from the enclosing function exactly when it is not OK. */
  function AssertSet(s: Status): (f: Flow)
    ensures f.Return? <==> s.code != OK
    ensures f.Return? ==> f.status == s
  {
    if s.code != OK then Return(s) else Continue
  }

  /** What `is_assert_get` does to the enclosing function and the field. */
  datatype GetFlow = Keep | Release | Abort(status: Status)

  /** `is_assert_get(failable, releaser)`: OK keeps the field, UNIMPLEMENTED
      runs the releaser and continues, anything else returns the status
      without running the releaser. */
  function AssertGet(s: Status): (g: GetFlow)
    ensures g == Keep <==> s.code == OK
    ensures g == Release <==> s.code == UNIMPLEMENTED
    ensures g.Abort? <==> s.code != OK && s.code != UNIMPLEMENTED
    ensures g.Abort? ==> g.status == s
  {
    if s.code != OK && s.code != UNIMPLEMENTED then Abort(s)
    else if s.code == UNIMPLEMENTED then Release
    else Keep
  }
}
