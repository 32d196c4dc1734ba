/** Shutting a guest down: a request, then two timed polling loops against any guest and clock. */
module Shutdown {
  import opened Json
  import opened Options
  import D = DomainData

  const VIR_DOMAIN_SHUTDOWN: nat := 4
  const VIR_DOMAIN_SHUTOFF: nat := 5

  const SHUTOFF_MASK: bv32 := 1 << VIR_DOMAIN_SHUTOFF
  const TARGET_MASK: bv32 := (1 << VIR_DOMAIN_SHUTDOWN) | (1 << VIR_DOMAIN_SHUTOFF)

  predicate InMask(state: nat, mask: bv32)
    requires state < 32
  {
    ((1 as bv32) << state) & mask != 0
  }

  lemma MaskSelects(state: nat)
    requires state < 32
    ensures InMask(state, TARGET_MASK) <==> state == VIR_DOMAIN_SHUTDOWN || state == VIR_DOMAIN_SHUTOFF
    ensures InMask(state, SHUTOFF_MASK) <==> state == VIR_DOMAIN_SHUTOFF
  {
    MaskOf(state as bv6);
  }

  lemma MaskOf(state: bv6)
    requires state < 32
    ensures ((1 as bv32) << state) & TARGET_MASK != 0 <==> state == 4 || state == 5
    ensures ((1 as bv32) << state) & SHUTOFF_MASK != 0 <==> state == 5
  {
  }

  /** The guest, the configuration and the clock, all times in seconds. Poll i asks for the state and may
      fail; `now(i)` is the clock read after it, if it is; `first` and `second(i)` are the clock at the
      start of the phases, the second phase following poll i. */
  datatype Env = Env(
    accepted: bool,
    shutdownTimeout: real,
    shutoffTimeout: real,
    observe: nat -> Option<nat>,
    now: nat -> real,
    first: real,
    second: nat -> real)
  {
    /** The states are libvirt's. */
    ghost predicate States() {
      forall i: nat :: observe(i).Some? ==> observe(i).value < 32
    }

    /** The state variable after poll i: a failed poll leaves it as it was, 0 at first. */
    function State(i: nat): (state: nat)
      requires States()
      ensures state < 32
    {
      if observe(i).Some? then observe(i).value
      else if i == 0 then 0
      else State(i - 1)
    }
  }

  /** A failed poll goes by the last state seen, and by state 0 if none was. */
  lemma {:induction false} LastSeen(env: Env, j: nat, i: nat)
    requires env.States() && j <= i && forall l: nat :: j < l <= i ==> env.observe(l).None?
    ensures env.observe(j).Some? ==> env.State(i) == env.observe(j).value
    ensures (forall l: nat :: l <= i ==> env.observe(l).None?) ==> env.State(i) == 0
    decreases i
  {
    if j < i {
      LastSeen(env, j, i - 1);
    } else if i > 0 && env.observe(i).None? {
      LastSeen(env, i - 1, i - 1);
    }
  }

  datatype Result = Refused | Down | TimedOut(phase: nat)

  /** A polling phase: what to wait for, the index of its first poll, its start and its timeout. */
  datatype Phase = Phase(mask: bv32, from: nat, start: real, timeout: real)

  predicate Seen(env: Env, p: Phase, i: nat)
    requires env.States()
  {
    InMask(env.State(i), p.mask)
  }

  predicate Late(env: Env, p: Phase, i: nat) {
    env.now(i) - p.start > p.timeout
  }

  /** No poll of the phase before i saw the state or came too late. */
  ghost predicate Waiting(env: Env, p: Phase, i: nat)
    requires env.States()
  {
    forall j :: p.from <= j < i ==> !Seen(env, p, j) && !Late(env, p, j)
  }

  /** The phase ends at poll i because it sees the state, late or not. */
  ghost predicate Reached(env: Env, p: Phase, i: nat)
    requires env.States()
  {
    p.from <= i && Waiting(env, p, i) && Seen(env, p, i)
  }

  /** The phase ends at poll i because it does not and the time is over. */
  ghost predicate Expired(env: Env, p: Phase, i: nat)
    requires env.States()
  {
    p.from <= i && Waiting(env, p, i) && !Seen(env, p, i) && Late(env, p, i)
  }

  function First(env: Env): Phase {
    Phase(TARGET_MASK, 0, env.first, env.shutdownTimeout)
  }

  function Second(env: Env, i: nat): Phase {
    Phase(SHUTOFF_MASK, i + 1, env.second(i), env.shutoffTimeout)
  }

  // ----- What a run means, in states and seconds

  /** Poll j leaves the first phase waiting: the guest is not in state 4 or 5, shutdown or shutoff, and it
      is not too late. */
  ghost predicate AwaitsTarget(env: Env, j: nat)
    requires env.States()
  {
    env.State(j) != 4 && env.State(j) != 5 && env.now(j) - env.first <= env.shutdownTimeout
  }

  /** Poll j leaves the second phase, which follows poll i, waiting: the guest is not in state 5. */
  ghost predicate AwaitsOff(env: Env, i: nat, j: nat)
    requires env.States()
  {
    env.State(j) != 5 && env.now(j) - env.second(i) <= env.shutoffTimeout
  }

  /** Poll i is the first to see the guest in state 4 or 5, and none before it was too late. */
  ghost predicate TargetAt(env: Env, i: nat)
    requires env.States()
  {
    && (env.State(i) == 4 || env.State(i) == 5)
    && forall j: nat :: j < i ==> AwaitsTarget(env, j)
  }

  /** Poll i sees neither and is too late, the first to be so. */
  ghost predicate TargetMissedAt(env: Env, i: nat)
    requires env.States()
  {
    && env.State(i) != 4 && env.State(i) != 5 && env.now(i) - env.first > env.shutdownTimeout
    && forall j: nat :: j < i ==> AwaitsTarget(env, j)
  }

  /** After poll i, poll k is the first to see the guest in state 5, and none between was too late. */
  ghost predicate OffAt(env: Env, i: nat, k: nat)
    requires env.States()
  {
    && i < k && env.State(k) == 5
    && forall j: nat :: i < j < k ==> AwaitsOff(env, i, j)
  }

  /** After poll i, poll k does not and is too late, the first to be so. */
  ghost predicate OffMissedAt(env: Env, i: nat, k: nat)
    requires env.States()
  {
    && i < k && env.State(k) != 5 && env.now(k) - env.second(i) > env.shutoffTimeout
    && forall j: nat :: i < j < k ==> AwaitsOff(env, i, j)
  }

  /** The declarative meaning: some poll ends the first phase and a later one the second. */
  ghost predicate GoesDown(env: Env)
    requires env.States()
  {
    exists i: nat, k: nat :: TargetAt(env, i) && OffAt(env, i, k)
  }

  ghost predicate RunsOut(env: Env, phase: nat)
    requires env.States()
  {
    if phase == 1 then exists i: nat :: TargetMissedAt(env, i)
    else exists i: nat, k: nat :: TargetAt(env, i) && OffMissedAt(env, i, k)
  }

  lemma AwaitsTargetIs(env: Env, j: nat)
    requires env.States()
    ensures Seen(env, First(env), j) <==> env.State(j) == 4 || env.State(j) == 5
    ensures AwaitsTarget(env, j) <==> !Seen(env, First(env), j) && !Late(env, First(env), j)
  {
    MaskSelects(env.State(j));
  }

  lemma AwaitsOffIs(env: Env, i: nat, j: nat)
    requires env.States()
    ensures Seen(env, Second(env, i), j) <==> env.State(j) == 5
    ensures AwaitsOff(env, i, j) <==> !Seen(env, Second(env, i), j) && !Late(env, Second(env, i), j)
  {
    MaskSelects(env.State(j));
  }

  /** The phases as the loops have them end where the states and seconds say. */
  lemma FirstEnds(env: Env, i: nat)
    requires env.States()
    ensures Reached(env, First(env), i) <==> TargetAt(env, i)
    ensures Expired(env, First(env), i) <==> TargetMissedAt(env, i)
  {
    forall j: nat
      ensures Seen(env, First(env), j) <==> env.State(j) == 4 || env.State(j) == 5
      ensures AwaitsTarget(env, j) <==> !Seen(env, First(env), j) && !Late(env, First(env), j)
    {
      AwaitsTargetIs(env, j);
    }
  }

  lemma SecondEnds(env: Env, i: nat, k: nat)
    requires env.States()
    ensures Reached(env, Second(env, i), k) <==> OffAt(env, i, k)
    ensures Expired(env, Second(env, i), k) <==> OffMissedAt(env, i, k)
  {
    forall j: nat
      ensures Seen(env, Second(env, i), j) <==> env.State(j) == 5
      ensures AwaitsOff(env, i, j) <==> !Seen(env, Second(env, i), j) && !Late(env, Second(env, i), j)
    {
      AwaitsOffIs(env, i, j);
    }
  }

  /** A guest that is never seen in state 5 does not go down, whatever else it shows. */
  lemma NeverOff(env: Env)
    requires env.States() && forall i: nat :: env.State(i) != 5
    ensures !GoesDown(env)
  {
  }

  /** How many polls a phase with this timeout takes at most. */
  function PollBound(timeout: real): nat {
    if timeout < 0.0 then 1 else (timeout * 50.0).Floor + 2
  }

  /** Poll i follows a sleep of the phase, and the clock is read after it. */
  ghost predicate ReadAfterSleep(env: Env, p: Phase, i: nat)
    requires env.States()
  {
    p.from < i && Waiting(env, p, i) && !Seen(env, p, i)
  }

  /** The clock is steady in a phase, as far as it is read: the first reading is no earlier than the start,
      and one that follows a sleep of 20 ms is at least that much later than the one before it. */
  ghost predicate Steady(env: Env, p: Phase)
    requires env.States()
  {
    && (!Seen(env, p, p.from) ==> p.start <= env.now(p.from))
    && forall i: nat :: ReadAfterSleep(env, p, i) ==> env.now(i - 1) + 0.02 <= env.now(i)
  }

  /** The states are libvirt's and the clock is steady in both phases. Nothing is asked of readings that are
      not made, nor of the time between the phases, where the daemon does not sleep. */
  ghost predicate Valid(env: Env) {
    && env.States()
    && Steady(env, First(env))
    && forall i: nat :: Reached(env, First(env), i) ==> Steady(env, Second(env, i))
  }

  /** Each sleep moves the clock, so a reading is not late only if few came before it. */
  lemma {:induction false} Elapsed(env: Env, p: Phase, i: nat)
    requires env.States() && Steady(env, p)
    requires p.from <= i && Waiting(env, p, i) && !Seen(env, p, i)
    ensures env.now(i) - p.start >= 0.02 * (i - p.from) as real
    decreases i
  {
    if i > p.from {
      Elapsed(env, p, i - 1);
      assert ReadAfterSleep(env, p, i);
    }
  }

  lemma PollsBounded(env: Env, p: Phase, i: nat)
    requires env.States() && Steady(env, p) && p.from <= i && Waiting(env, p, i)
    ensures i - p.from + 1 <= PollBound(p.timeout)
  {
    if i > p.from {
      assert !Seen(env, p, i - 1) && !Late(env, p, i - 1);
      Elapsed(env, p, i - 1);
      assert (i - 1 - p.from) as real <= p.timeout * 50.0;
    }
  }

  /** A phase boundary without a sleep: one sleep in the first phase, the guest in shutdown at poll 1, and
      the first reading of the second phase half a millisecond after its start. */
  lemma BoundaryWithoutSleep() returns (env: Env)
    ensures Valid(env) && Reached(env, First(env), 1)
    ensures env.first == 0.0 && env.now(0) == 0.001 && env.second(1) == 0.0215 && env.now(2) == 0.022
    ensures !Seen(env, Second(env, 1), 2) && GoesDown(env)
  {
    var reading := (i: nat) => if i == 0 then 0.001 else if i == 2 then 0.022 else 0.1;
    var seen: nat -> nat := (i: nat) => if i == 0 then 1 else if i <= 2 then 4 else 5;
    env := Env(true, 60.0, 60.0, (i: nat) => Some(seen(i)), reading, 0.0, (i: nat) => 0.0215);
    forall i: nat ensures env.State(i) == seen(i) {
    }
    forall i: nat {
      MaskSelects(env.State(i));
    }
    assert TargetAt(env, 1) && OffAt(env, 1, 3);
    FirstEnds(env, 1);
    forall i: nat | Reached(env, First(env), i) ensures i == 1 {
      OneEnd(env, First(env), 1, i);
    }
  }

  /** A phase ends at one poll and in one way only. */
  lemma OneEnd(env: Env, p: Phase, i: nat, k: nat)
    requires env.States()
    requires Reached(env, p, i) || Expired(env, p, i)
    requires Reached(env, p, k) || Expired(env, p, k)
    ensures i == k && (Reached(env, p, i) <==> !Expired(env, p, i))
  {
    assert Waiting(env, p, i) && Waiting(env, p, k);
  }

  lemma OneTarget(env: Env, i: nat, j: nat)
    requires env.States()
    ensures !(TargetAt(env, i) && TargetMissedAt(env, j))
    ensures TargetAt(env, i) && TargetAt(env, j) ==> i == j
  {
    assert (TargetMissedAt(env, j) || TargetAt(env, j)) && i < j ==> AwaitsTarget(env, i);
    assert TargetAt(env, i) && j < i ==> AwaitsTarget(env, j);
  }

  lemma OneOff(env: Env, i: nat, k: nat, l: nat)
    requires env.States()
    ensures !(OffAt(env, i, k) && OffMissedAt(env, i, l))
  {
    assert OffMissedAt(env, i, l) && i < k < l ==> AwaitsOff(env, i, k);
    assert OffAt(env, i, k) && i < l < k ==> AwaitsOff(env, i, l);
  }

  /** The ways a run can end exclude each other. */
  lemma EndsExclusive(env: Env)
    requires env.States()
    ensures !(GoesDown(env) && RunsOut(env, 1))
    ensures !(GoesDown(env) && RunsOut(env, 2))
    ensures !(RunsOut(env, 1) && RunsOut(env, 2))
  {
    forall i: nat, j: nat
      ensures !(TargetAt(env, i) && TargetMissedAt(env, j))
      ensures TargetAt(env, i) && TargetAt(env, j) ==> i == j
    {
      OneTarget(env, i, j);
    }
    forall i: nat, k: nat, l: nat ensures !(OffAt(env, i, k) && OffMissedAt(env, i, l)) {
      OneOff(env, i, k, l);
    }
  }

  /** One polling loop: the state is tested before the deadline, and the sleep comes last. */
  method Await(env: Env, p: Phase, before: nat) returns (seen: bool, i: nat, state: nat)
    requires env.States() && Steady(env, p)
    requires before == if p.from == 0 then 0 else env.State(p.from - 1)
    ensures state == env.State(i)
    ensures if seen then Reached(env, p, i) else Expired(env, p, i)
    ensures i + 1 - p.from <= PollBound(p.timeout)
  {
    i, state := p.from, before;
    if env.observe(i).Some? {
      state := env.observe(i).value;
    }
    while !InMask(state, p.mask)
      invariant p.from <= i && state == env.State(i)
      invariant Waiting(env, p, i)
      decreases PollBound(p.timeout) + p.from - i
    {
      PollsBounded(env, p, i);
      if env.now(i) - p.start > p.timeout {
        return false, i, state;
      }
      i := i + 1;
      if env.observe(i).Some? {
        state := env.observe(i).value;
      }
    }
    PollsBounded(env, p, i);
    seen := true;
  }

  /** The shutdown as the daemon runs it, with the number of polls it made. */
  method Run(env: Env) returns (r: Result, polls: nat)
    requires Valid(env)
    ensures r == Refused <==> !env.accepted
    ensures r == Down <==> env.accepted && GoesDown(env)
    ensures r == TimedOut(1) <==> env.accepted && RunsOut(env, 1)
    ensures r == TimedOut(2) <==> env.accepted && RunsOut(env, 2)
    ensures r.TimedOut? ==> r.phase == 1 || r.phase == 2
    ensures r == Down ==> exists i: nat :: env.State(i) == 5
    ensures polls <= PollBound(env.shutdownTimeout) + PollBound(env.shutoffTimeout)
    ensures env.shutdownTimeout >= 0.0 && env.shutoffTimeout >= 0.0 ==>
              polls <= (env.shutdownTimeout * 50.0).Floor + (env.shutoffTimeout * 50.0).Floor + 4
  {
    if !env.accepted {
      return Refused, 0;
    }
    var seen, i, state := Await(env, First(env), 0);
    FirstEnds(env, i);
    EndsExclusive(env);
    if !seen {
      return TimedOut(1), i + 1;
    }
    var k;
    seen, k, state := Await(env, Second(env, i), state);
    SecondEnds(env, i, k);
    if !seen {
      return TimedOut(2), k + 1;
    }
    return Down, k + 1;
  }

  /** An answer with a status and a body, or the exception that leaves the view. */
  datatype Answer = Answered(status: nat, body: Json) | Thrown(failure: D.Failure)

  /** The view over it: the answer tells how the guest behaved. When the guest is down the domain is read
      once more, with the facts libvirt then has, and a state without a name leaves the view as an exception. */
  method Handle(env: Env, facts: D.Facts) returns (answer: Answer)
    requires Valid(env)
    ensures answer == Answered(400, Object(map["detail" := String("Unable to shutdown domain")]))
       <==> !env.accepted
    ensures answer == Answered(504, Object(map["detail" := String("Shutdown operation timed out")]))
       <==> env.accepted && (RunsOut(env, 1) || RunsOut(env, 2))
    ensures env.accepted && GoesDown(env)
       <==> answer == match D.SimpleDomain(facts)
                      case Ok(members) => Answered(200, Object(members))
                      case Error(failure) => Thrown(failure)
  {
    var r, _ := Run(env);
    match r {
      case TimedOut(_) => answer := Answered(504, Detail("Shutdown operation timed out"));
      case Refused => answer := Answered(400, Detail("Unable to shutdown domain"));
      case Down =>
        var members := D.SimpleDomain(facts);
        answer := if members.Ok? then Answered(200, Object(members.value)) else Thrown(members.failure);
    }
  }
}
