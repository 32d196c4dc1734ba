/** Running something again, a bounded number of times, while it throws retry errors. */
module Retry {
  import opened ConnectionPool

  const UINT_LIMIT: nat := 0x1_0000_0000

  predicate AsksForRetry(outcome: Outcome) {
    outcome.Thrown? && outcome.exception.RetryError?
  }

  /** The final state, the outcome and the number of calls, with the given number of retries left. */
  function Run<S>(func: S -> (S, Outcome), state: S, left: nat): (S, Outcome, nat)
    decreases left
  {
    var (after, outcome) := func(state);
    if !AsksForRetry(outcome) then (after, outcome, 1)
    else if left == 0 then (after, Thrown(DomainError(outcome.exception.what)), 1)
    else
      var (end, result, calls) := Run(func, after, left - 1);
      (end, result, calls + 1)
  }

  /** The retry object. The function it wraps works on a state that the object carries along. */
  class Retrier<S> {
    const func: S -> (S, Outcome)
    var state: S
    var retries: nat
    var retry: nat

    constructor (func: S -> (S, Outcome), state: S)
      ensures this.func == func && this.state == state && retries == 1 && retry == 0
    {
      this.func, this.state := func, state;
      retries, retry := 1, 0;
    }

    method SetRetries(n: nat)
      requires n < UINT_LIMIT
      modifies this`retries
      ensures retries == n
    {
      retries := n;
    }

    function Remaining(): nat
      reads this
    {
      if retry < retries then retries - retry else 0
    }

    method Call() returns (outcome: Outcome, ghost calls: nat)
      requires retries < UINT_LIMIT && retry < UINT_LIMIT
      modifies this`state, this`retry
      ensures retry < UINT_LIMIT
      ensures (state, outcome, calls) == Run(func, old(state), old(Remaining()))
      decreases Remaining()
    {
      calls := 1;
      var (after, result) := func(state);
      state := after;
      if AsksForRetry(result) {
        var before := retry;
        retry := (retry + 1) % UINT_LIMIT;
        if before < retries {
          ghost var more;
          outcome, more := Call();
          calls := more + 1;
          return;
        }
        outcome := Thrown(DomainError(result.exception.what));
        return;
      }
      outcome := result;
    }
  }

  /** A fresh retry object with its limit set, called once. */
  method Retrying<S>(func: S -> (S, Outcome), state: S, retries: nat)
    returns (end: S, outcome: Outcome, ghost calls: nat)
    requires retries < UINT_LIMIT
    ensures (end, outcome) == (Run(func, state, retries).0, Run(func, state, retries).1)
    ensures calls == Run(func, state, retries).2
  {
    var retrier := new Retrier(func, state);
    retrier.SetRetries(retries);
    outcome, calls := retrier.Call();
    end := retrier.state;
  }

  // ----- What the attempts yield, one by one

  function StateAt<S>(func: S -> (S, Outcome), state: S, i: nat): S {
    if i == 0 then state else func(StateAt(func, state, i - 1)).0
  }

  function OutcomeAt<S>(func: S -> (S, Outcome), state: S, i: nat): Outcome {
    func(StateAt(func, state, i)).1
  }

  lemma {:induction false} StateShift<S>(func: S -> (S, Outcome), state: S, i: nat)
    ensures StateAt(func, func(state).0, i) == StateAt(func, state, i + 1)
  {
    if i > 0 {
      StateShift(func, state, i - 1);
    }
  }

  /** The first outcome that does not ask for a retry is the result, if it comes within the limit. */
  lemma {:induction false} FirstSettled<S>(func: S -> (S, Outcome), state: S, left: nat, i: nat)
    requires i <= left
    requires forall j :: 0 <= j < i ==> AsksForRetry(OutcomeAt(func, state, j))
    requires !AsksForRetry(OutcomeAt(func, state, i))
    ensures Run(func, state, left) == (StateAt(func, state, i + 1), OutcomeAt(func, state, i), i + 1)
    decreases left
  {
    if i == 0 {
      assert StateAt(func, state, 1) == func(StateAt(func, state, 0)).0;
    } else {
      assert AsksForRetry(OutcomeAt(func, state, 0));
      var after := func(state).0;
      forall j | 0 <= j < i ensures OutcomeAt(func, after, j) == OutcomeAt(func, state, j + 1) {
        StateShift(func, state, j);
      }
      StateShift(func, state, i - 1);
      StateShift(func, state, i);
      FirstSettled(func, after, left - 1, i - 1);
    }
  }

  /** If none does within the limit, the last message comes back as a fatal error. */
  lemma {:induction false} NeverSettled<S>(func: S -> (S, Outcome), state: S, left: nat)
    requires forall j :: 0 <= j <= left ==> AsksForRetry(OutcomeAt(func, state, j))
    ensures AsksForRetry(OutcomeAt(func, state, left))
    ensures Run(func, state, left)
         == (StateAt(func, state, left + 1),
             Thrown(DomainError(OutcomeAt(func, state, left).exception.what)),
             left + 1)
    decreases left
  {
    assert AsksForRetry(OutcomeAt(func, state, 0));
    var after := func(state).0;
    if left == 0 {
      assert StateAt(func, state, 1) == func(StateAt(func, state, 0)).0;
    } else {
      forall j | 0 <= j <= left - 1 ensures OutcomeAt(func, after, j) == OutcomeAt(func, state, j + 1) {
        StateShift(func, state, j);
      }
      StateShift(func, state, left);
      NeverSettled(func, after, left - 1);
    }
  }
}
