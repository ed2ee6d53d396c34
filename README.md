# Work calendar, conditional flow and guard helpers, in Dafny

This project models the core of the `chaos` Java utility library (package
`com.github.jinzhaosn`) and proves properties of the model.

- **WorkCalendar** (module `Calendar`) computes the instant reached after adding
  N seconds of *working time* to a start instant. Working time accrues only
  inside the daily window `[onDutyTime, offDutyTime]` on dates outside a fixed
  holiday set. A calendar's fields are final once `newInstance` has validated it,
  so it is the datatype `WorkCalendar` with the invariant `Valid()`. `addWorkSecondsAt`
  reassigns its locals through an if/else chain and two nested `while` loops. It
  is the method `WorkCalendar.AddWorkSecondsAt`, with the same branches and loops.
  Its postcondition ties the result to the two-phase specification
  `Offset = Normalize` (pick the start of day-stepping), then `Stepping` (the loop).
  The lemmas then prove what `Offset` does.
- **Flow** (module `Flow`) is a fluent if / else-if / else. A chain is *open*
  until a branch fires; it is then *finished* and carries that branch's result.
  The pure state machine (`Fire`, `ElseWhenThen`, `OtherwiseStep`) carries the
  laws: first match wins, a finished chain absorbs later links, and a whole chain
  equals nested if / else-if / else. `FollowFlowImpl` changes its `result` field in
  place, so it is the class `FollowFlow`. `Condition` (a `ConditionImpl` or a
  `FinishedCondition`) is a datatype. The methods of both are proved against the
  state machine.
- **CheckUtil** (module `CheckUtil`) holds the guards that return a value, fall
  back to a default, or raise. The calendar validates its arguments with
  `CheckArgument`.
- **ObjectUtil.getItem** (module `ObjectUtil`) is a total, bounds-checked list lookup.

Representation. A `LocalDate` is an epoch day number, so `plusDays(1)` is `+ 1`
and 2021-12-22 is 18983. A `LocalTime` is a whole number of seconds since
midnight, in `[0, 86400)`. A `LocalDateTime` is `DateTime(date, time)`, and
`EpochSeconds` orders instants. Java `null` and `Optional` are `Option`. A thrown
`IllegalArgumentException` or `VerifyException` is `Failure`/`Fail` of `Result` or
`Outcome`, and the exception carries the source's message. A callback is a value
in module `Base`: a `VoidPredicate` holds its outcome, a `Supplier` its value, and
a `VoidConsumer` only its identity. Each call of a callback appends an `Event`
(`Tested(id)` or `Ran(id)`) to the log that the operation returns. That log is
how "runs exactly once" and "is not run" are stated.

Behaviour as written. The model follows the code, not the comments:

- **Budget reduced by a whole day.** In the branch "inside the window but the
  offset does not fit" (`WorkCalendar.java:96-99`), `startTime` is overwritten
  with `onDutyTime` before the remaining interval is measured. So the budget
  drops by `dayWorkSeconds`, not by the seconds left until `offDutyTime`.
- **Fall-through.** When the budget is used up without a return inside the
  loop, line 117 returns the *original* instant plus the (now zero or negative)
  budget. This can be earlier than the start (`PartialDayAsWritten`). For that
  reason `Offset` is neither monotone in the offset (`OffsetNotMonotone`) nor
  additive (`OffsetNotAdditive`).
- **The class comment's example is wrong for this code.** It claims
  2021-12-22 12:00 + 43200 s (window 09:00 to 17:30) gives 2021-12-23 15:30. The
  code gives 12:30 (`DocExampleDiverges`).
- **Boundary choices.** A start exactly at `offDutyTime` is *inside* the window,
  because the test is a strict `isAfter`. A zero offset returns the start
  unchanged from every start (the contract of `Offset`). In particular
  18:00 + 0 s stays 18:00 and does not roll to the next 09:00.
- **A worked example.** 2021-12-24 16:00 + 7200 s, with holidays on 12-25 and
  12-26, gives 2021-12-24 09:30 (`PartialDayExample`), not a time on 12-27.

## Model

| member | source | states |
|---|---|---|
| `CheckUtil.Check` | src/main/java/com/github/jinzhaosn/util/CheckUtil.java:46-48 | returns `data` exactly when the predicate holds of it, otherwise the default |
| `CheckUtil.CheckOrGet` | src/main/java/com/github/jinzhaosn/util/CheckUtil.java:59-64 | returns `data` and calls nothing when the predicate holds; otherwise calls the supplier once and returns its value |
| `CheckUtil.CheckThrow` | src/main/java/com/github/jinzhaosn/util/CheckUtil.java:75-80 | succeeds iff the predicate holds, then with `data` unchanged; otherwise raises `VerifyException(message)` |
| `CheckUtil.CheckTrue` | src/main/java/com/github/jinzhaosn/util/CheckUtil.java:88-92 | passes iff `checked`; otherwise raises `VerifyException(message)`; no other effect |
| `CheckUtil.CheckArgument` | src/main/java/com/github/jinzhaosn/util/CheckUtil.java:112-116 | passes iff `checked`; otherwise raises `IllegalArgumentException(message)` |
| `CheckUtil.CheckArgumentBy` | src/main/java/com/github/jinzhaosn/util/CheckUtil.java:100-104 | tests the predicate exactly once; raises `IllegalArgumentException(message)` iff it returns false |
| `CheckUtil.CheckOverloadsAgree` | src/main/java/com/github/jinzhaosn/util/CheckUtil.java:59-64 | the supplier overload of `check` returns what the default-value overload returns with the supplier's value |
| `CheckUtil.CheckThrowAgreesWithCheck` | src/main/java/com/github/jinzhaosn/util/CheckUtil.java:75-80 | `checkThrow` succeeds with exactly the value `check` keeps; when it raises, `check` falls back to its default |
| `CheckUtil.CheckIdempotent` | src/main/java/com/github/jinzhaosn/util/CheckUtil.java:46-48 | checking the result of `check` again with the same predicate and default changes nothing |
| `CheckUtil.CheckArgumentOverloadsAgree` | src/main/java/com/github/jinzhaosn/util/CheckUtil.java:100-116 | the predicate overload of `checkArgument` raises exactly as the boolean overload does on the predicate's outcome |
| `ObjectUtil.GetItem` | src/main/java/com/github/jinzhaosn/util/ObjectUtil.java:43-48 | total: returns the element at `pos` iff the list is non-null and `0 <= pos < size`; null for a null list, a negative position or one at or past the end |
| `Calendar.PlusSeconds` | src/main/java/com/github/jinzhaosn/util/WorkCalendar.java:95 | `plusSeconds(n)` moves the instant by exactly n seconds, carrying into the date |
| `Calendar.IntervalInSeconds` | src/main/java/com/github/jinzhaosn/util/WorkCalendar.java:138-143 | raises `IllegalArgumentException` iff an argument is null; otherwise the signed seconds that take `pre` to `aft` |
| `Calendar.IntervalSignAndAntisymmetry` | src/main/java/com/github/jinzhaosn/util/WorkCalendar.java:138-143 | the interval is negative exactly when `aft` precedes `pre`; swapping the arguments negates it |
| `Calendar.Create` | src/main/java/com/github/jinzhaosn/util/WorkCalendar.java:42-47 | the private constructor keeps exactly the listed dates as holidays (order and duplicates dropped), stores the window, caches `dayWorkSeconds = off - on`, and the result is a valid calendar iff `on < off` |
| `Calendar.NewInstance` | src/main/java/com/github/jinzhaosn/util/WorkCalendar.java:62-69 | null holidays, null on-duty, null off-duty, off-duty not strictly after on-duty each raise their own `IllegalArgumentException`, in that order; otherwise a valid calendar whose `dayWorkSeconds = off - on > 0` and whose `isHoliday(d)` holds exactly for the listed dates |
| `Calendar.HolidayListOrderIrrelevant` | src/main/java/com/github/jinzhaosn/util/WorkCalendar.java:42-47 | two holiday lists with the same dates (any order, any duplicates) build the same calendar |
| `Calendar.WorkCalendar.IsHoliday` | src/main/java/com/github/jinzhaosn/util/WorkCalendar.java:126-128 | a date is a holiday iff it is in the calendar's holiday set. Its contract ties this to the holidays ahead, the set the skip loop uses up. That the set holds exactly the listed dates is the contract of `Create` and `NewInstance` |
| `Calendar.WorkCalendar.HolidaysFromShrinks` | src/main/java/com/github/jinzhaosn/util/WorkCalendar.java:103-105 | stepping past a holiday leaves fewer holidays ahead; the holiday set is finite, so the inner loop ends |
| `Calendar.WorkCalendar.NextWorkday` | src/main/java/com/github/jinzhaosn/util/WorkCalendar.java:103-105 | the inner loop's exit date: the first date on or after its start that is not a holiday, with every date skipped a holiday |
| `Calendar.WorkCalendar.NthWorkday` | src/main/java/com/github/jinzhaosn/util/WorkCalendar.java:102-114 | after n whole days of stepping, the date reached is a workday at least n days on |
| `Calendar.WorkCalendar.NthWorkdayIsCounted` | src/main/java/com/github/jinzhaosn/util/WorkCalendar.java:102-114 | that date is the (n+1)-th workday on or after the start: a workday with exactly n workdays between the start and it |
| `Calendar.WorkCalendar.Normalize` | src/main/java/com/github/jinzhaosn/util/WorkCalendar.java:86-100 | the fast path is taken iff the time is in `[on, off]` on a workday and `off - time >= w`; the fast path's result is `w` seconds later on the same date; otherwise stepping starts on the same date iff the time is before `on` (else the next date), with the budget `w`, or `w - dayWorkSeconds` in the inside-the-window branch |
| `Calendar.WorkCalendar.AddWorkSecondsAt` | src/main/java/com/github/jinzhaosn/util/WorkCalendar.java:78-118 | null instant and negative offset raise their `IllegalArgumentException`s; otherwise both loops end and the result is `Offset(t, w)` |
| `Calendar.WorkCalendar.Stepping` | src/main/java/com/github/jinzhaosn/util/WorkCalendar.java:102-117 | the day-stepping loop and the fall-through: a positive budget ends on a workday no earlier than the date stepping starts from, at a time in `(on, off]`; a spent budget moves the original instant by exactly the budget |
| `Calendar.WorkCalendar.Offset` | src/main/java/com/github/jinzhaosn/util/WorkCalendar.java:86-117 | what `addWorkSecondsAt` returns: zero working seconds return the start unchanged, from every start; a positive offset always ends on a workday at a time in `(on, off]` |
| `Calendar.WorkCalendar.SameDayFastPath` | src/main/java/com/github/jinzhaosn/util/WorkCalendar.java:86-95 | inside `[on, off]` on a workday (off-duty included), an offset that fits is added on the same date, ending no later than off-duty |
| `Calendar.WorkCalendar.FullDays` | src/main/java/com/github/jinzhaosn/util/WorkCalendar.java:107-112 | the whole days a positive budget uses up before its last day: `n * day < budget <= (n + 1) * day`, that is `n = ceil(budget / day) - 1` |
| `Calendar.WorkCalendar.SteppingLastDay` | src/main/java/com/github/jinzhaosn/util/WorkCalendar.java:103-108 | a budget of at most one day ends on the next workday at `on + budget` |
| `Calendar.WorkCalendar.SteppingFullDay` | src/main/java/com/github/jinzhaosn/util/WorkCalendar.java:103-113 | a budget of more than one day uses the next workday whole and continues from the day after with `budget - day` |
| `Calendar.WorkCalendar.SteppingLands` | src/main/java/com/github/jinzhaosn/util/WorkCalendar.java:102-114 | with n whole days to use up, stepping lands on the (n+1)-th workday at on-duty plus what is left of the budget |
| `Calendar.WorkCalendar.SteppingFromNormalisedStart` | src/main/java/com/github/jinzhaosn/util/WorkCalendar.java:86-114 | from a normalised start with budget `b > 0`, the result is on the k-th workday from the start date (`k = ceil(b / day)`) at `on + b - (k-1) * day`; it is never a holiday and its time is in `(on, off]` |
| `Calendar.WorkCalendar.PartialDayAsWritten` | src/main/java/com/github/jinzhaosn/util/WorkCalendar.java:94-117 | inside the window with `off - time < w <= day`, the budget becomes `w - day` and the result is `t - (day - w)`: same date, after on-duty, at or before the start |
| `Calendar.PartialDayExample` | src/main/java/com/github/jinzhaosn/util/WorkCalendar.java:96-99 | window 09:00 to 17:30: 2021-12-24 16:00 + 7200 s gives 2021-12-24 09:30 |
| `Calendar.HolidaySkipExample` | src/main/java/com/github/jinzhaosn/util/WorkCalendar.java:88-108 | 2021-12-24 18:00 + 3600 s skips the holidays 12-25 and 12-26 and gives 2021-12-27 10:00 |
| `Calendar.PreOpeningExample` | src/main/java/com/github/jinzhaosn/util/WorkCalendar.java:86-87 | the gap before on-duty costs nothing: 07:00 + 3600 s is 10:00 on a workday with a 09:00 start |
| `Calendar.DocExampleDiverges` | src/main/java/com/github/jinzhaosn/util/WorkCalendar.java:34-36 | the class comment's example gives 2021-12-23 12:30 with this code, not the 15:30 it claims |
| `Calendar.OffsetNotMonotone` | src/main/java/com/github/jinzhaosn/util/WorkCalendar.java:94-99 | from 2021-12-24 16:00, 5400 s gives 17:30 but 7200 s gives 09:30: more working time, earlier instant |
| `Calendar.OffsetNotAdditive` | src/main/java/com/github/jinzhaosn/util/WorkCalendar.java:94-117 | window 09:00 to 17:30 on two workdays: one day from 09:00 gives 17:30, an hour more from there gives 10:00 the same day, but a day and an hour in one call gives 10:00 the next day |
| `Flow.When` | src/main/java/com/github/jinzhaosn/stream/Flow.java:40-50 | `choose().when(g)` starts a chain with a condition that is not finished and will test `g` |
| `Flow.Fire` | src/main/java/com/github/jinzhaosn/stream/Flow.java:72-90 | `ConditionImpl.then`: the chain finishes iff the guard holds, and at most one call follows the guard's own test, exactly when it finishes. Which call that is and what result it carries are the contracts of `TrueConditionFires` and `FalseConditionStaysOpen` |
| `Flow.ElseWhenThen` | src/main/java/com/github/jinzhaosn/stream/Flow.java:96-147 | `elseWhen(g).then(a)`: a finished chain is handed back unchanged with nothing called; the chain is finished afterwards iff it was or `g` holds |
| `Flow.OtherwiseStep` | src/main/java/com/github/jinzhaosn/stream/Flow.java:149-167 | `otherwise` never finishes or reopens a chain; the value returned is the result the chain then carries, except that a consumer on an open chain returns empty and leaves the chain as it was |
| `Flow.FalseConditionStaysOpen` | src/main/java/com/github/jinzhaosn/stream/Flow.java:72-90 | a false condition leaves the chain open with an empty result; its action is not run, only its own test is logged |
| `Flow.TrueConditionFires` | src/main/java/com/github/jinzhaosn/stream/Flow.java:72-90 | a true condition runs its action exactly once and finishes the chain: a supplier's value (empty for null) is the result, a consumer leaves it empty |
| `Flow.LazyPredicateTestedOnce` | src/main/java/com/github/jinzhaosn/stream/Flow.java:68-90 | a `VoidPredicate` condition is tested exactly once, first, inside `then`; every later call is the action's |
| `Flow.FinishedChainAbsorbs` | src/main/java/com/github/jinzhaosn/stream/Flow.java:96-113 | after a branch fired, any number of `elseWhen(..).then(..)` links leave the chain unchanged and test or run nothing |
| `Flow.OtherwiseOnFinished` | src/main/java/com/github/jinzhaosn/stream/Flow.java:149-164 | `otherwise` on a finished chain returns the stored result and does not run its action |
| `Flow.OtherwiseOnOpen` | src/main/java/com/github/jinzhaosn/stream/Flow.java:149-167 | `otherwise` on an open chain runs its action once: a supplier's value (empty for null) is returned and stored, a consumer returns empty |
| `Flow.OpenChainIsIfElse` | src/main/java/com/github/jinzhaosn/stream/Flow.java:141-167 | from an open chain, the remaining links plus `otherwise` return and call exactly what nested if / else-if / else does |
| `Flow.ChainIsIfElse` | src/main/java/com/github/jinzhaosn/stream/Flow.java:28-31 | a whole `when..then..elseWhen..then..otherwise` chain selects the first true branch, like nested if / else-if / else, with the same result and the same calls |
| `Flow.FollowFlow.Unfinished` | src/main/java/com/github/jinzhaosn/stream/Flow.java:137-139 | a chain built without a result is open with an empty result |
| `Flow.FollowFlow.Finish` | src/main/java/com/github/jinzhaosn/stream/Flow.java:132-135 | a chain built with a result is finished and keeps it |
| `Flow.FollowFlow.GetResult` | src/main/java/com/github/jinzhaosn/stream/Flow.java:169-175 | `getResult` (either overload) is the result the chain's state carries, finished or not |
| `Flow.FollowFlow.ElseWhen` | src/main/java/com/github/jinzhaosn/stream/Flow.java:141-147 | a finished chain returns its own finished condition (the same chain object) and ignores the new guard; an open one returns a condition that will test it |
| `Flow.FollowFlow.Otherwise` | src/main/java/com/github/jinzhaosn/stream/Flow.java:149-167 | the returned result, the chain's new state (an open chain stores a supplier's value in place) and the calls made are those of `OtherwiseStep` |
| `Flow.Condition.Then` | src/main/java/com/github/jinzhaosn/stream/Flow.java:72-112 | a finished condition returns the very chain it holds and calls nothing; a testing condition returns a fresh chain in the state `Fire` gives |
| `Flow.FlowChoose` | src/test/java/com/github/jinzhaosn/stream/FlowTest.java:55-72 | the benchmark's four-branch chain of `Supplier` lambdas adds to the running sum exactly what its if / else-if / else twin adds, and its result is the new running sum |

## Left out

- `java.time` arithmetic is left out. The model has no Gregorian months or leap years, since dates are day numbers. It has no nanoseconds: both `Duration.getSeconds` rounding and sub-second times are absent, and times are whole seconds. It has no year range. The model assumes `onDutyTime < offDutyTime` in whole seconds. With a window of under one second, `dayWorkSeconds` would be 0 and the day-stepping loop would not end.
- Calendar.WorkCalendar.AddWorkSecondsAt: does not model the 64-bit range of `workSeconds`, nor the `DateTimeException` that `plusSeconds` raises past the supported year range, because integers here are unbounded.
- Null entries in the holiday list, and `isHoliday(null)`, are not modelled: dates are integers.
- `getOnDutyTime` and `getOffDutyTime` (`WorkCalendar.java:149-155`) are left out: they only return final fields.
- `getHolidayCalendar` (`WorkCalendar.java:145-147`) is left out. It hands out the calendar's own mutable `HashSet`, not a copy, so a caller can add or remove holidays after construction and change what `isHoliday` and `addWorkSecondsAt` return. The model fixes the holiday set at construction. The contracts of `Create` and `NewInstance` ("exactly the listed dates") therefore describe the calendar only as long as no caller has changed that set.
- `FlowResultImpl` (`Flow.java:187-203`) is left out as a class: it only holds the Optional that `otherwise` returns, which the model returns directly.
- Flow's re-throwing of a consumer's exception (`Flow.java:76-77, 155-156`) is left out: actions are taken not to fail.
- A `Predicate<T>` given to `CheckUtil` is a pure total function. Any side effect it has is not logged.
- `ObjectUtil.doSilent` is left out: it only swallows any `Throwable` from a foreign callback.
- `Reflect.findMethod` and `Reflect.findField` are left out: they walk runtime class metadata.
- `Pair`, `Tuple3`, `Tuple4` and `VoidConsumer` are left out: they are data holders or bare interfaces with no logic.
- `DateTest` is left out: it only prints the result for the current clock time.
- `FlowTest` is modelled only for its chain and if/else pair (`Flow.FlowChoose`). Its timing and random inputs are left out.
- Flow.FlowChoose: does not model the `long` wrap-around of the running sum, because integers here are unbounded. Each lambda `() -> flowSum += ...` returns a value, so Java resolves it to the `Supplier` overloads. The model gives supplier k the sum it would leave, which is exact because the chain runs only one of its lambdas.
