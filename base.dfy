/**
 * Values shared by the utility classes and the conditional flow:
 * Java's nullable references and Optional as Option, exceptions as
 * Result/Outcome, and the callbacks (VoidPredicate, Supplier, VoidConsumer)
 * as values that record, in an event log, that they were called.
 */
module Base {

  /** A nullable reference or java.util.Optional: None stands for null/empty. */
  datatype Option<+T> = None | Some(value: T)

  /** The two exception types the core raises. */
  datatype Exception =
    | IllegalArgument(message: string)   // java.lang.IllegalArgumentException
    | Verify(message: string)            // com.github.jinzhaosn.VerifyException

  /** A call that returns normally with a value, or raises. */
  datatype Result<+T> = Success(value: T) | Failure(error: Exception)

  /** A `void` call that returns normally, or raises. */
  datatype Outcome = Pass | Fail(error: Exception)

  /** What a callback did: a predicate was tested, or an action was run. */
  datatype Event = Tested(id: nat) | Ran(id: nat)

  /** A VoidPredicate: `test()` returns `outcome`; `id` names it in the event log. */
  datatype VoidPredicate = VoidPredicate(id: nat, outcome: bool)

  /** A Supplier: `get()` returns `value`. */
  datatype Supplier<+T> = Supplier(id: nat, value: T)

  /** A VoidConsumer: `accept()` runs a side effect and returns nothing. */
  datatype VoidConsumer = VoidConsumer(id: nat)

  /** Calling `test()` on a VoidPredicate: its outcome and the one event it logs. */
  function Test(p: VoidPredicate): (bool, seq<Event>)
  {
    (p.outcome, [Tested(p.id)])
  }
}
