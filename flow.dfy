/**
 * Flow: a fluent if / else-if / else. A chain is open until one of its
 * branches fires; it is then finished and carries that branch's result, and
 * every later link hands back the same finished chain without testing or
 * running anything.
 *
 * The pure part below is the state machine (Fire, ElseWhenThen,
 * OtherwiseStep) with the chain-level laws; the class FollowFlow and the
 * datatype Condition model the objects, whose methods are proved against it.
 * Callbacks are Base values: what they would return, and the event each call
 * logs.
 */
module Flow {
  import opened Base

  /** The test of a branch: `when(boolean)` gets a value the caller computed; `when(VoidPredicate)` defers the test to `then`. */
  datatype Guard = Flag(value: bool) | Lazy(test: VoidPredicate)

  /** The body of a branch: `then(VoidConsumer)` or `then(Supplier)`; a supplier that returns null has value None. */
  datatype Action<V> = Consume(consumer: VoidConsumer) | Supply(supplier: Supplier<Option<V>>)

  /**
   * Where a chain is. Open: no branch has fired (finishedCondition is null);
   * its result is empty unless `otherwise(Supplier)` stored one. Finished: a
   * branch fired and its result is kept.
   */
  datatype FlowState<V> = Open(result: Option<V>) | Finished(result: Option<V>)

  /** One link of a chain: a guard and the action it selects. */
  datatype Branch<V> = Branch(guard: Guard, action: Action<V>)

  /** Testing a guard: its truth value, and the predicate call it makes (none for a plain boolean). */
  function Evaluate(g: Guard): (bool, seq<Event>)
  {
    match g
    case Flag(b) => (b, [])
    case Lazy(p) => Test(p)
  }

  /** Running an action: the value it yields as an Optional (always empty for a consumer), and its one call. */
  function Perform<V>(a: Action<V>): (Option<V>, seq<Event>)
  {
    match a
    case Consume(c) => (None, [Ran(c.id)])
    case Supply(s) => (s.value, [Ran(s.id)])
  }

  /** `ConditionImpl.then`: test the guard once; if it holds run the action once and finish with its result, else stay open. */
  function Fire<V>(g: Guard, a: Action<V>): (r: (FlowState<V>, seq<Event>))
    ensures r.0.Finished? <==> Evaluate(g).0
    ensures |r.1| == |Evaluate(g).1| + (if r.0.Finished? then 1 else 0)
  {
    var (holds, tested) := Evaluate(g);
    if holds then
      var (value, ran) := Perform(a);
      (Finished(value), tested + ran)
    else
      (Open(None), tested)
  }

  /** `elseWhen(g).then(a)` on a chain in state s: a finished chain hands itself back and nothing is called. */
  function ElseWhenThen<V>(s: FlowState<V>, g: Guard, a: Action<V>): (r: (FlowState<V>, seq<Event>))
    ensures s.Finished? ==> r == (s, [])
    ensures r.0.Finished? <==> s.Finished? || Evaluate(g).0
  {
    if s.Finished? then (s, []) else Fire(g, a)
  }

  /** `otherwise(a)` on a chain in state s: the chain's state afterwards, the result returned, and the calls made. */
  function OtherwiseStep<V>(s: FlowState<V>, a: Action<V>): (r: (FlowState<V>, Option<V>, seq<Event>))
    ensures r.0.Finished? == s.Finished?
    ensures !(s.Open? && a.Consume?) ==> r.1 == r.0.result
    ensures s.Open? && a.Consume? ==> r.0 == s && r.1 == None
  {
    if s.Finished? then (s, s.result, [])
    else
      match a
      case Consume(c) => (s, None, [Ran(c.id)])
      case Supply(p) => (Open(p.value), p.value, [Ran(p.id)])
  }

  /** The state and calls after further `elseWhen(..).then(..)` links. */
  function Continue<V>(s: FlowState<V>, links: seq<Branch<V>>): (FlowState<V>, seq<Event>)
    decreases |links|
  {
    if links == [] then (s, [])
    else
      var (s1, e1) := ElseWhenThen(s, links[0].guard, links[0].action);
      var (s2, e2) := Continue(s1, links[1..]);
      (s2, e1 + e2)
  }

  /** A whole chain `when(first).then(..)` `.elseWhen(..).then(..)`... `.otherwise(fallback)`: its result and calls. */
  function RunChain<V>(first: Branch<V>, links: seq<Branch<V>>, fallback: Action<V>): (Option<V>, seq<Event>)
  {
    var (s0, e0) := Fire(first.guard, first.action);
    var (s1, e1) := Continue(s0, links);
    var (_, r, e2) := OtherwiseStep(s1, fallback);
    (r, e0 + e1 + e2)
  }

  /** The reference semantics: the same branches as nested if / else-if / else. */
  function IfElse<V>(branches: seq<Branch<V>>, fallback: Action<V>): (Option<V>, seq<Event>)
    decreases |branches|
  {
    if branches == [] then Perform(fallback)
    else
      var (holds, tested) := Evaluate(branches[0].guard);
      if holds then
        var (value, ran) := Perform(branches[0].action);
        (value, tested + ran)
      else
        var (value, rest) := IfElse(branches[1..], fallback);
        (value, tested + rest)
  }

  /** A false condition leaves the chain open with an empty result and runs nothing: only its own test is logged. */
  lemma FalseConditionStaysOpen<V>(g: Guard, a: Action<V>)
    requires !Evaluate(g).0
    ensures Fire(g, a) == (Open(None), Evaluate(g).1)
  {
  }

  /**
   * A true condition finishes the chain: its action runs exactly once; a
   * supplier's value (empty for null) becomes the result, a consumer leaves it empty.
   */
  lemma TrueConditionFires<V>(g: Guard, a: Action<V>)
    requires Evaluate(g).0
    ensures Fire(g, a).0 == Finished(if a.Supply? then a.supplier.value else None)
    ensures Fire(g, a).1 == Evaluate(g).1 + [Ran(if a.Supply? then a.supplier.id else a.consumer.id)]
  {
  }

  /** A VoidPredicate given to `when`/`elseWhen` on an open chain is tested exactly once, first, inside `then`. */
  lemma LazyPredicateTestedOnce<V>(p: VoidPredicate, a: Action<V>)
    ensures Fire(Lazy(p), a).1[0] == Tested(p.id)
    ensures forall i :: 0 < i < |Fire(Lazy(p), a).1| ==> Fire(Lazy(p), a).1[i].Ran?
  {
  }

  /** Once a branch has fired, any number of further links leave the chain as it is and call nothing. */
  lemma {:induction false} FinishedChainAbsorbs<V>(result: Option<V>, links: seq<Branch<V>>)
    ensures Continue(Finished(result), links) == (Finished(result), [])
    decreases |links|
  {
    if links != [] {
      FinishedChainAbsorbs(result, links[1..]);
      var none: seq<Event> := [];
      assert none + none == none;
    }
  }

  /** `otherwise` on a finished chain returns the stored result and does not run its action. */
  lemma OtherwiseOnFinished<V>(result: Option<V>, a: Action<V>)
    ensures OtherwiseStep(Finished(result), a) == (Finished(result), result, [])
  {
  }

  /**
   * `otherwise` on an open chain runs its action once: a supplier's value
   * (empty for null) is returned and stored, a consumer returns empty.
   */
  lemma OtherwiseOnOpen<V>(result: Option<V>, a: Action<V>)
    ensures OtherwiseStep(Open(result), a).1 == Perform(a).0
    ensures OtherwiseStep(Open(result), a).2 == Perform(a).1
    ensures OtherwiseStep(Open(result), a).0 == if a.Supply? then Open(a.supplier.value) else Open(result)
  {
  }

  /** From an open chain, the remaining links and `otherwise` behave as nested if / else-if / else. */
  lemma {:induction false} OpenChainIsIfElse<V>(result: Option<V>, links: seq<Branch<V>>, fallback: Action<V>)
    ensures var (s, e) := Continue(Open(result), links);
      var (_, r, e2) := OtherwiseStep(s, fallback);
      (r, e + e2) == IfElse(links, fallback)
    decreases |links|
  {
    if links == [] {
      assert [] + Perform(fallback).1 == Perform(fallback).1;
    } else {
      var (s1, e1) := ElseWhenThen(Open(result), links[0].guard, links[0].action);
      if s1.Finished? {
        FinishedChainAbsorbs(s1.result, links[1..]);
        assert e1 + [] + [] == e1;
      } else {
        OpenChainIsIfElse(s1.result, links[1..], fallback);
        var (s2, e2) := Continue(s1, links[1..]);
        var (_, r, e3) := OtherwiseStep(s2, fallback);
        assert e1 + e2 + e3 == e1 + (e2 + e3);
      }
    }
  }

  /** A whole chain selects, runs and returns exactly what nested if / else-if / else does: the first true branch wins. */
  lemma ChainIsIfElse<V>(first: Branch<V>, links: seq<Branch<V>>, fallback: Action<V>)
    ensures RunChain(first, links, fallback) == IfElse([first] + links, fallback)
  {
    var (s0, e0) := Fire(first.guard, first.action);
    assert ([first] + links)[1..] == links;
    if s0.Finished? {
      FinishedChainAbsorbs(s0.result, links);
      assert e0 + [] + [] == e0;
    } else {
      OpenChainIsIfElse(s0.result, links, fallback);
      var (s1, e1) := Continue(s0, links);
      var (_, r, e2) := OtherwiseStep(s1, fallback);
      assert e0 + e1 + e2 == e0 + (e1 + e2);
    }
  }

  /** FollowFlowImpl: a chain after at least one `then`. */
  class FollowFlow<V> {
    /** Whether finishedCondition was set: fixed by the constructor used. */
    const finished: bool
    /** The Optional result; `otherwise(Supplier)` overwrites it on an open chain. */
    var result: Option<V>

    /** The chain's place in the state machine. */
    function State(): FlowState<V>
      reads this
    {
      if finished then Finished(result) else Open(result)
    }

    /** `new FollowFlowImpl()`: no branch has fired. */
    constructor Unfinished()
      ensures State() == Open(None)
    {
      finished := false;
      result := None;
    }

    /** `new FollowFlowImpl(result)`: a branch fired with this result. */
    constructor Finish(result: Option<V>)
      ensures State() == Finished(result)
    {
      finished := true;
      this.result := result;
    }

    /** `getResult`: the result the chain carries, whether or not it has finished. */
    function GetResult(): (r: Option<V>)
      reads this
      ensures r == State().result
    {
      result
    }

    /** `elseWhen(g)`: a finished chain hands back its FinishedCondition (holding itself) and ignores g. */
    method ElseWhen(g: Guard) returns (c: Condition<V>)
      ensures finished ==> c == Closed(this)
      ensures !finished ==> c == Testing(g)
    {
      c := if finished then Closed(this) else Testing(g);
    }

    /** `otherwise(a)`: the result of the FlowResult returned, and the calls made. */
    method Otherwise(a: Action<V>) returns (r: Option<V>, events: seq<Event>)
      modifies this
      ensures (State(), r, events) == OtherwiseStep(old(State()), a)
    {
      if finished {
        return result, [];
      }
      match a
      case Consume(c) =>
        r, events := None, [Ran(c.id)];
      case Supply(s) =>
        result := s.value;
        r, events := result, [Ran(s.id)];
    }
  }

  /** A Condition: a ConditionImpl holding its guard, or the FinishedCondition of a finished chain. */
  datatype Condition<V> = Testing(guard: Guard) | Closed(flow: FollowFlow<V>) {
    /** `then(a)`: a FinishedCondition returns its chain itself; a ConditionImpl fires into a new chain. */
    method Then(a: Action<V>) returns (f: FollowFlow<V>, events: seq<Event>)
      ensures Closed? ==> f == flow && events == []
      ensures Testing? ==> fresh(f) && (f.State(), events) == Fire(guard, a)
    {
      if Closed? {
        return flow, [];
      }
      var holds, tested := Evaluate(guard).0, Evaluate(guard).1;
      if holds {
        var value, ran := Perform(a).0, Perform(a).1;
        f := new FollowFlow.Finish(value);
        events := tested + ran;
      } else {
        f := new FollowFlow.Unfinished();
        events := tested;
      }
    }
  }

  /** `Flow.choose().when(g)`: the chain starts with a condition that is not finished and will test g. */
  function When<V>(g: Guard): (c: Condition<V>)
    ensures !c.Closed? && c.guard == g
  {
    Testing(g)
  }

  /** `normalChoose` in the benchmark: how much the running sum grows for `ch`. */
  function NormalChoose(ch: int): int
  {
    if ch > 15 then ch + 1
    else if ch > 10 then ch + 2
    else if ch > 5 then ch + 3
    else ch + 4
  }

  /** The benchmark's lambdas: running lambda k adds ch + k to the running sum. */
  function SumAdded(ch: int, events: seq<Event>): int
    decreases |events|
  {
    if events == [] then 0
    else (if events[0].Ran? then ch + events[0].id else 0) + SumAdded(ch, events[1..])
  }

  lemma {:induction false} SumAddedAppend(ch: int, a: seq<Event>, b: seq<Event>)
    ensures SumAdded(ch, a + b) == SumAdded(ch, a) + SumAdded(ch, b)
    decreases |a|
  {
    if a == [] {
      assert a + b == b;
    } else {
      assert (a + b)[1..] == a[1..] + b;
      SumAddedAppend(ch, a[1..], b);
    }
  }

  /**
   * `flowChoose` in the benchmark, from a running sum `flowSum`. Each lambda
   * `() -> flowSum += ch + k` returns a value, so Java resolves it to the
   * `then(Supplier)` and `otherwise(Supplier)` overloads; supplier k yields
   * the sum it leaves behind, `flowSum + ch + k`, since it is the only lambda
   * the chain runs. The chain adds exactly what `normalChoose` adds, and its
   * FlowResult carries the new running sum.
   */
  method FlowChoose(ch: int, flowSum: int) returns (added: int, result: Option<int>)
    ensures added == NormalChoose(ch)
    ensures result == Some(flowSum + added)
  {
    var c1 := When<int>(Flag(ch > 15));
    var f1, e1 := c1.Then(Supply(Supplier(1, Some(flowSum + ch + 1))));
    var c2 := f1.ElseWhen(Flag(ch > 10));
    var f2, e2 := c2.Then(Supply(Supplier(2, Some(flowSum + ch + 2))));
    var c3 := f2.ElseWhen(Flag(ch > 5));
    var f3, e3 := c3.Then(Supply(Supplier(3, Some(flowSum + ch + 3))));
    var r, e4 := f3.Otherwise(Supply(Supplier(4, Some(flowSum + ch + 4))));
    SumAddedAppend(ch, e1, e2);
    SumAddedAppend(ch, e1 + e2, e3);
    SumAddedAppend(ch, e1 + e2 + e3, e4);
    added := SumAdded(ch, e1 + e2 + e3 + e4);
    result := r;
  }
}
