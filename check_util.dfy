/**
 * CheckUtil: guard helpers that return a value, fall back to a default, or
 * raise. `Predicate<T>` is a total function `T -> bool`; a `VoidPredicate`
 * and a `Supplier` are Base values whose calls are logged as events.
 */
module CheckUtil {
  import opened Base

  /** `check(data, predicate, defaultValue)`: `data` when it passes the predicate, else the default. */
  function Check<T>(data: T, p: T -> bool, defaultValue: T): (r: T)
    ensures p(data) ==> r == data
    ensures !p(data) ==> r == defaultValue
  {
    if p(data) then data else defaultValue
  }

  /**
   * `check(data, predicate, defaultSupplier)`: the value returned and the
   * supplier calls made; the supplier is called only when the predicate fails.
   */
  function CheckOrGet<T>(data: T, p: T -> bool, defaultSupplier: Supplier<T>): (r: (T, seq<Event>))
    ensures p(data) ==> r.0 == data && r.1 == []
    ensures !p(data) ==> r.0 == defaultSupplier.value && r.1 == [Ran(defaultSupplier.id)]
  {
    if p(data) then (data, []) else (defaultSupplier.value, [Ran(defaultSupplier.id)])
  }

  /** `checkThrow`: `data` unchanged when the predicate holds, else a VerifyException carrying `message`. */
  function CheckThrow<T>(data: T, p: T -> bool, message: string): (r: Result<T>)
    ensures r.Success? <==> p(data)
    ensures r.Success? ==> r.value == data
    ensures r.Failure? ==> r.error == Verify(message)
  {
    if !p(data) then Failure(Verify(message)) else Success(data)
  }

  /** `checkTrue`: raises a VerifyException exactly when `checked` is false. */
  function CheckTrue(checked: bool, message: string): (r: Outcome)
    ensures r.Pass? <==> checked
    ensures r.Fail? ==> r.error == Verify(message)
  {
    if !checked then Fail(Verify(message)) else Pass
  }

  /** `checkArgument(boolean, message)`: raises an IllegalArgumentException exactly when `checked` is false. */
  function CheckArgument(checked: bool, message: string): (r: Outcome)
    ensures r.Pass? <==> checked
    ensures r.Fail? ==> r.error == IllegalArgument(message)
  {
    if !checked then Fail(IllegalArgument(message)) else Pass
  }

  /**
   * `checkArgument(VoidPredicate, message)`: tests the predicate exactly once
   * and raises an IllegalArgumentException exactly when it returns false.
   */
  function CheckArgumentBy(p: VoidPredicate, message: string): (r: (Outcome, seq<Event>))
    ensures r.1 == [Tested(p.id)]
    ensures r.0.Pass? <==> p.outcome
    ensures r.0.Fail? ==> r.0.error == IllegalArgument(message)
  {
    var (holds, events) := Test(p);
    (if !holds then Fail(IllegalArgument(message)) else Pass, events)
  }

  /** Both `check` overloads pick the same value; the supplier form only adds the call. */
  lemma CheckOverloadsAgree<T>(data: T, p: T -> bool, s: Supplier<T>)
    ensures CheckOrGet(data, p, s).0 == Check(data, p, s.value)
  {
  }

  /** `checkThrow` succeeds with exactly the value `check` keeps, whatever the default. */
  lemma CheckThrowAgreesWithCheck<T>(data: T, p: T -> bool, message: string, defaultValue: T)
    ensures CheckThrow(data, p, message).Success? ==> CheckThrow(data, p, message).value == Check(data, p, defaultValue)
    ensures CheckThrow(data, p, message).Failure? ==> Check(data, p, defaultValue) == defaultValue
  {
  }

  /** Checking a checked value again changes nothing. */
  lemma CheckIdempotent<T>(data: T, p: T -> bool, defaultValue: T)
    ensures Check(Check(data, p, defaultValue), p, defaultValue) == Check(data, p, defaultValue)
  {
  }

  /** The two argument guards raise the same exception on the same truth value. */
  lemma CheckArgumentOverloadsAgree(p: VoidPredicate, message: string)
    ensures CheckArgumentBy(p, message).0 == CheckArgument(p.outcome, message)
  {
  }
}
