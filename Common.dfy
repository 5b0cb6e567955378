/**
 * Shared vocabulary of the domain layer: identifiers, timestamps, nullable
 * values and the Result type returned by every operation that can fail
 * (ScimProvisioning.Core/Common/Result.cs).
 */
module Common {

  /** A Guid. Guid.Empty is 0; Guid.NewGuid() values are parameters of the model. */
  type Guid = nat

  const EmptyGuid: Guid := 0

  /** A DateTime reading (DateTime.UtcNow values are parameters of the model). */
  type DateTime = int

  /** A nullable value (`string?`, `bool?`, `Guid?`). */
  datatype Option<T> = None | Some(value: T)

  /**
   * Result / Result<T>: a tagged success or failure. The value-less `Result`
   * of the source is Result<()>. On a failure the source's `Value` is C#'s
   * `default`, which the model does not carry.
   */
  datatype Result<T> = Success(value: T) | Failure(error: string) {

    predicate IsSuccess() { Success? }

    /** IsFailure => !IsSuccess */
    predicate IsFailure() { !IsSuccess() }

    /** Error is the empty string on a success (`error ?? string.Empty`). */
    function Error(): string {
      if Success? then "" else error
    }

    /** The invariant the source's constructor enforces by throwing. */
    ghost predicate Valid() {
      IsSuccess() <==> Error() == ""
    }
  }

  /** Result.Success() */
  function Ok(): (r: Result<()>)
    ensures r.IsSuccess() && !r.IsFailure() && r.Error() == "" && r.Valid()
  {
    Success(())
  }

  /** Result.Success<T>(value) */
  function Succeed<T>(v: T): (r: Result<T>)
    ensures r.IsSuccess() && !r.IsFailure() && r.Error() == "" && r.Valid()
    ensures r.value == v
  {
    Success(v)
  }

  /**
   * Result.Failure(error) / Result.Failure<T>(error). The source throws on a
   * null or empty message, so an empty message is excluded by the precondition.
   */
  function Fail<T>(e: string): (r: Result<T>)
    requires e != ""
    ensures r.IsFailure() && !r.IsSuccess() && r.Error() == e && r.Valid()
  {
    Failure(e)
  }

  /** Converts a failure of one value type into a failure of another, keeping the message. */
  function Propagate<T, U>(r: Result<T>): (s: Result<U>)
    requires r.IsFailure()
    ensures s.IsFailure() && s.Error() == r.Error()
  {
    Failure(r.error)
  }

  /** Every Result built by Ok, Succeed and Fail keeps the Error invariant. */
  lemma ConstructorsKeepInvariant<T>(v: T, e: string)
    requires e != ""
    ensures Ok().Valid() && Succeed(v).Valid() && Fail<T>(e).Valid()
    ensures forall r: Result<T> :: r.Valid() ==> r.IsFailure() == !r.IsSuccess()
  {
  }
}
