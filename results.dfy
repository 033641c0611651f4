/** The success/failure sum type every service returns (server/src/lib/result.ts),
    and an optional value for the nullable lookups of the repositories. */
module Results {

  datatype Option<+T> = None | Some(value: T)

  /** `Success<T> | Failure<E>`: a datatype value is immutable, so the carried
      value or error can never change after construction. */
  datatype Result<+T, +E> = Success(value: T) | Failure(error: E) {
    predicate IsSuccess() { Success? }
    predicate IsFailure() { Failure? }
  }

  /** `ok(value)` */
  function Ok<T, E>(value: T): (r: Result<T, E>)
    ensures r.IsSuccess() && !r.IsFailure() && r.value == value
  {
    Success(value)
  }

  /** `err(error)` */
  function Err<T, E>(error: E): (r: Result<T, E>)
    ensures r.IsFailure() && !r.IsSuccess() && r.error == error
  {
    Failure(error)
  }

  /** The two flags are complementary on every result. */
  lemma FlagsComplementary<T, E>(r: Result<T, E>)
    ensures r.IsFailure() == !r.IsSuccess()
    ensures r.IsSuccess() ==> r == Ok(r.value)
    ensures r.IsFailure() ==> r == Err(r.error)
  {
  }
}
