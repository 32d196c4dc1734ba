/** Runs of the interleaved handlers, and what every schedule keeps. */
module RegistrySchedules {
  import opened Registry
  import opened Options
  import opened RegistryInterleaving

  predicate Possible(trace: seq<Step>)
    decreases |trace|, 0
  {
    trace == []
    || (var init, last := trace[..|trace| - 1], trace[|trace| - 1];
        Possible(init) && Enabled(After(init), last) && Safe(After(init), last))
  }

  function After(trace: seq<Step>): System
    requires Possible(trace)
    decreases |trace|, 1
  {
    if trace == [] then INITIAL
    else Next(After(trace[..|trace| - 1]), trace[|trace| - 1])
  }

  /** The invariant holds after every run, and a step that is enabled next never erases what is not there. */
  lemma {:induction false} SchedulesHold(trace: seq<Step>)
    requires Possible(trace)
    ensures Inv(After(trace))
    ensures forall step :: Enabled(After(trace), step) ==> Safe(After(trace), step)
    decreases |trace|
  {
    if trace == [] {
      InitialHolds();
    } else {
      SchedulesHold(trace[..|trace| - 1]);
      Keeps(After(trace[..|trace| - 1]), trace[|trace| - 1]);
    }
    forall step | Enabled(After(trace), step) ensures Safe(After(trace), step) {
      Keeps(After(trace), step);
    }
  }

  predicate HasEvent(st: System, user: User) {
    user in st.events && LIFECYCLE in st.events[user]
  }

  /** Whenever the mutex is free, each user has at most one stored event and libvirt holds exactly the
      callbacks of the stored events. */
  lemma CallbacksAreStored(trace: seq<Step>, user: User, id: Callback)
    requires Possible(trace) && After(trace).mutex == None
    ensures var st := After(trace);
            && (user in st.events ==> st.events[user].Keys == {LIFECYCLE})
            && (id in st.callbacks && st.callbacks[id] == user
                <==> user in st.events && st.events[user] == map[LIFECYCLE := id])
  {
    SchedulesHold(trace);
    var c := CoreOf(After(trace));
    assert user in c.events ==> EntryHolds(c, user);
    assert id in c.callbacks ==> CallbackHolds(c, id);
  }

  /** A handler of the socket is under way. */
  predicate InFlight(pc: Pc) {
    !(pc.Accepted? || pc.Live? || pc.Closed? || pc.Failed?)
  }

  /** No handler of the user is under way, and the user has no socket. */
  ghost predicate Idle(st: System, user: User) {
    && (forall s :: s in st.owner && s in st.pc && st.owner[s] == user ==> !InFlight(st.pc[s]))
    && Bucket(st.buckets, user) == []
  }

  lemma IdleNotInside(st: System, user: User)
    requires Inv(st) && Idle(st, user)
    ensures Inside(st).Some? ==> Inside(st).value.1 != user
  {
    if Inside(st).Some? {
      assert Holding(st.pc[st.mutex.value]);
    }
  }

  lemma EntryOf(c: Core, user: User)
    requires CoreInv(c)
    ensures user in c.events ==> EntryHolds(c, user)
  {
  }

  lemma IdleNoEntry(st: System, user: User)
    requires Inv(st) && Idle(st, user)
    ensures user !in st.events
  {
    IdleNotInside(st, user);
    EntryOf(CoreOf(st), user);
    assert NoLeak(st, user);
  }

  /** No schedule leaks: once all handlers of a user are done and the user has no socket, the user has no
      event and libvirt no callback of the user's. */
  lemma NothingLeaks(trace: seq<Step>, user: User)
    requires Possible(trace) && Idle(After(trace), user)
    ensures user !in After(trace).events
    ensures forall id :: id in After(trace).callbacks ==> After(trace).callbacks[id] != user
  {
    SchedulesHold(trace);
    var st := After(trace);
    IdleNotInside(st, user);
    IdleNoEntry(st, user);
    forall id | id in st.callbacks ensures st.callbacks[id] != user {
      assert CallbackHolds(CoreOf(st), id);
    }
  }

  // ----- Steps from a state

  /** The state reached by the steps in turn. */
  ghost predicate Leads(st: System, steps: seq<Step>, end: System)
    decreases |steps|
  {
    if steps == [] then st == end
    else Enabled(st, steps[0]) && Safe(st, steps[0]) && Leads(Next(st, steps[0]), steps[1..], end)
  }

  lemma OneMore(trace: seq<Step>, step: Step)
    requires Possible(trace) && Enabled(After(trace), step) && Safe(After(trace), step)
    ensures Possible(trace + [step]) && After(trace + [step]) == Next(After(trace), step)
  {
    assert (trace + [step])[..|trace + [step]| - 1] == trace;
  }

  lemma Regroup<T>(a: seq<T>, b: seq<T>)
    requires b != []
    ensures a + [b[0]] + b[1..] == a + b
  {
  }

  lemma FirstOfBoth<T>(a: seq<T>, b: seq<T>)
    requires a != []
    ensures (a + b)[0] == a[0] && (a + b)[1..] == a[1..] + b
  {
  }

  lemma {:induction false} LeadsTrace(trace: seq<Step>, steps: seq<Step>, end: System)
    requires Possible(trace) && Leads(After(trace), steps, end)
    ensures Possible(trace + steps) && After(trace + steps) == end
    decreases |steps|
  {
    if steps == [] {
      assert trace + steps == trace;
    } else {
      OneMore(trace, steps[0]);
      LeadsTrace(trace + [steps[0]], steps[1..], end);
      Regroup(trace, steps);
    }
  }

  lemma {:induction false} LeadsOn(st: System, a: seq<Step>, mid: System, b: seq<Step>, end: System)
    requires Leads(st, a, mid) && Leads(mid, b, end)
    ensures Leads(st, a + b, end)
    decreases |a|
  {
    if a == [] {
      assert a + b == b;
    } else {
      FirstOfBoth(a, b);
      LeadsOn(Next(st, a[0]), a[1..], mid, b, end);
    }
  }

  lemma Two(st: System, x: Step, y: Step) returns (end: System)
    requires Enabled(st, x) && Safe(st, x) && Enabled(Next(st, x), y) && Safe(Next(st, x), y)
    ensures end == Next(Next(st, x), y) && Leads(st, [x, y], end)
  {
    end := Next(Next(st, x), y);
    assert [x, y][1..] == [y] && [y][1..] == [];
  }

  lemma One(st: System, step: Step) returns (end: System)
    requires Enabled(st, step) && Safe(st, step)
    ensures end == Next(st, step) && Leads(st, [step], end)
  {
    end := Next(st, step);
    assert [step][1..] == [];
  }

  lemma Chained(st: System, a: seq<Step>, mid: System, b: seq<Step>, end: System) returns (steps: seq<Step>)
    requires Leads(st, a, mid) && Leads(mid, b, end)
    ensures Leads(st, steps, end)
  {
    steps := a + b;
    LeadsOn(st, a, mid, b, end);
  }
}
