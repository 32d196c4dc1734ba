/** The coarse model is the fine one with handlers run through: a handler whose steps are not interleaved
    with others does to the registry exactly what the one-step handler does, and every run of one-step
    handlers is a schedule. */
module RegistryAtomic {
  import Coarse = Registry
  import Runs = RegistryRuns
  import opened Options
  import opened RegistryInterleaving
  import opened RegistrySchedules

  /** What the two models have in common. */
  function Common(st: System, writes: seq<Coarse.Write>): Coarse.State {
    Coarse.State(st.buckets, st.events, st.callbacks, st.next, writes)
  }

  function HandshakeSteps(s: Coarse.Socket, watched: bool): seq<Step> {
    if watched then [Check(s)]
    else [Check(s), Lock(s)] + ([Register(s), Enter(s)] + [Store(s), Unlock(s)])
  }

  lemma RegisterInOneGo(st: System, s: Coarse.Socket) returns (end: System)
    requires At(st, s, Adding) && st.owner[s] !in st.events
    ensures Leads(st, [Register(s), Enter(s)], end)
    ensures end == st.(
              pc := st.pc[s := Entered(st.next)], events := st.events[st.owner[s] := map[]],
              callbacks := st.callbacks[st.next := st.owner[s]], next := st.next + 1)
  {
    end := Two(st, Register(s), Enter(s));
    assert end.pc == st.pc[s := Entered(st.next)];
  }

  lemma StoreInOneGo(st: System, s: Coarse.Socket, id: Coarse.Callback) returns (end: System)
    requires At(st, s, Entered(id)) && st.owner[s] in st.events && st.events[st.owner[s]] == map[]
    ensures Leads(st, [Store(s), Unlock(s)], end)
    ensures end == st.(
              pc := st.pc[s := Live], mutex := None, events := st.events[st.owner[s] := map[Coarse.LIFECYCLE := id]])
  {
    end := Two(st, Store(s), Unlock(s));
    assert end.pc == st.pc[s := Live];
    assert end.events == st.events[st.owner[s] := map[Coarse.LIFECYCLE := id]];
  }

  lemma AddInOneGo(st: System, s: Coarse.Socket) returns (end: System)
    requires At(st, s, Adding) && st.mutex == Some(s) && st.owner[s] !in st.events
    ensures Leads(st, [Register(s), Enter(s)] + [Store(s), Unlock(s)], end)
    ensures end.pc == st.pc[s := Live] && end.mutex == None && end.owner == st.owner
    ensures Common(end, []) == Coarse.EventsAdded(Common(st, []), st.owner[s])
  {
    var mid := RegisterInOneGo(st, s);
    end := StoreInOneGo(mid, s, st.next);
    assert end.pc == st.pc[s := Live];
    assert end.events == st.events[st.owner[s] := map[Coarse.LIFECYCLE := st.next]];
    LeadsOn(st, [Register(s), Enter(s)], mid, [Store(s), Unlock(s)], end);
  }

  lemma HandshakeInOneGo(st: System, s: Coarse.Socket) returns (end: System)
    requires At(st, s, Accepted) && st.mutex == None
    ensures Leads(st, HandshakeSteps(s, st.owner[s] in st.events), end)
    ensures end.pc == st.pc[s := Live] && end.mutex == None && end.owner == st.owner
    ensures Common(end, []) == Coarse.Handshaken(Common(st, []), st.owner[s])
  {
    if st.owner[s] in st.events {
      end := Next(st, Check(s));
      assert [Check(s)][1..] == [];
    } else {
      var locked := Two(st, Check(s), Lock(s));
      end := AddInOneGo(locked, s);
      LeadsOn(st, [Check(s), Lock(s)], locked, [Register(s), Enter(s)] + [Store(s), Unlock(s)], end);
    }
  }

  function CloseSteps(s: Coarse.Socket, last: bool, watched: bool): seq<Step> {
    [Leave(s), Measure(s)] + (
      if !last then []
      else if watched then [Lock(s), Drop(s)] + [Prune(s), Unlock(s)]
      else [Lock(s), Drop(s)] + [Unlock(s)])
  }

  lemma LeaveInOneGo(st: System, s: Coarse.Socket) returns (end: System)
    requires At(st, s, Live) && Safe(st, Leave(s))
    ensures Leads(st, [Leave(s), Measure(s)], end)
    ensures end.mutex == st.mutex && end.owner == st.owner
    ensures Common(end, []) == Coarse.Left(Common(st, []), st.owner[s], s)
    ensures end.pc == st.pc[s := if end.buckets[st.owner[s]] == [] then Emptied else Closed]
  {
    end := Two(st, Leave(s), Measure(s));
    assert end.buckets == Coarse.Left(Common(st, []), st.owner[s], s).buckets;
  }

  lemma DropInOneGo(st: System, s: Coarse.Socket) returns (end: System)
    requires At(st, s, Emptied) && st.mutex == None
    requires st.owner[s] in st.events && Coarse.LIFECYCLE in st.events[st.owner[s]]
    ensures Leads(st, [Lock(s), Drop(s)], end)
    ensures end == st.(
              pc := st.pc[s := Dropped], mutex := Some(s),
              events := st.events[st.owner[s] := st.events[st.owner[s]] - {Coarse.LIFECYCLE}],
              callbacks := st.callbacks - {st.events[st.owner[s]][Coarse.LIFECYCLE]})
  {
    end := Two(st, Lock(s), Drop(s));
    assert end.pc == st.pc[s := Dropped];
  }

  lemma RemoveWatched(st: System, s: Coarse.Socket) returns (end: System)
    requires At(st, s, Emptied) && st.mutex == None
    requires st.owner[s] in st.events && Coarse.LIFECYCLE in st.events[st.owner[s]]
    ensures Leads(st, [Lock(s), Drop(s)] + [Prune(s), Unlock(s)], end)
    ensures end.pc == st.pc[s := Closed] && end.mutex == None && end.owner == st.owner
    ensures Common(end, []) == Coarse.EventsRemoved(Common(st, []), st.owner[s])
  {
    var mid := DropInOneGo(st, s);
    end := FinishRemoval(mid, s);
    LeadsOn(st, [Lock(s), Drop(s)], mid, [Prune(s), Unlock(s)], end);
    assert end.events == Coarse.Cleared(st.events, st.owner[s]);
  }

  lemma FinishRemoval(st: System, s: Coarse.Socket) returns (end: System)
    requires At(st, s, Dropped) && st.owner[s] in st.events
    ensures Leads(st, [Prune(s), Unlock(s)], end)
    ensures end.pc == st.pc[s := Closed] && end.mutex == None && end.owner == st.owner
    ensures end.events == if st.events[st.owner[s]] == map[] then st.events - {st.owner[s]} else st.events
    ensures end.buckets == st.buckets && end.callbacks == st.callbacks && end.next == st.next
  {
    end := Two(st, Prune(s), Unlock(s));
  }

  lemma RemoveUnwatched(st: System, s: Coarse.Socket) returns (end: System)
    requires At(st, s, Emptied) && st.mutex == None && st.owner[s] !in st.events
    ensures Leads(st, [Lock(s), Drop(s)] + [Unlock(s)], end)
    ensures end.pc == st.pc[s := Closed] && end.mutex == None && end.owner == st.owner
    ensures Common(end, []) == Common(st, [])
  {
    var mid := Two(st, Lock(s), Drop(s));
    end := Next(mid, Unlock(s));
    assert [Unlock(s)][1..] == [];
    LeadsOn(st, [Lock(s), Drop(s)], mid, [Unlock(s)], end);
  }

  lemma CloseInOneGo(st: System, s: Coarse.Socket) returns (end: System)
    requires At(st, s, Live) && st.mutex == None && Safe(st, Leave(s))
    requires Coarse.Removable(Common(st, []), st.owner[s])
    ensures var user := st.owner[s];
            var last := Coarse.Left(Common(st, []), user, s).buckets[user] == [];
            && Leads(st, CloseSteps(s, last, user in st.events), end)
            && Common(end, []) == Coarse.ClosedBy(Common(st, []), user, s)
    ensures end.pc == st.pc[s := Closed] && end.mutex == None && end.owner == st.owner
  {
    var left := LeaveInOneGo(st, s);
    var user := st.owner[s];
    if left.buckets[user] != [] {
      end := left;
      assert [Leave(s), Measure(s)] + [] == [Leave(s), Measure(s)];
    } else if user in left.events {
      end := RemoveWatched(left, s);
      LeadsOn(st, [Leave(s), Measure(s)], left, [Lock(s), Drop(s)] + [Prune(s), Unlock(s)], end);
    } else {
      end := RemoveUnwatched(left, s);
      LeadsOn(st, [Leave(s), Measure(s)], left, [Lock(s), Drop(s)] + [Unlock(s)], end);
    }
  }

  // ----- Whole runs

  /** Two states with the same registry. A bucket that is missing and one that is empty are the same to
      every operation. */
  ghost predicate Alike(a: Coarse.State, b: Coarse.State) {
    && a.events == b.events && a.callbacks == b.callbacks && a.next == b.next
    && forall u :: Coarse.Bucket(a.buckets, u) == Coarse.Bucket(b.buckets, u)
  }

  lemma HandshakenAlike(a: Coarse.State, b: Coarse.State, user: Coarse.User)
    requires Alike(a, b)
    ensures Alike(Coarse.Handshaken(a, user), Coarse.Handshaken(b, user))
  {
  }

  lemma LeftAlike(a: Coarse.State, b: Coarse.State, user: Coarse.User, s: Coarse.Socket)
    requires Alike(a, b)
    ensures Alike(Coarse.Left(a, user, s), Coarse.Left(b, user, s))
    ensures Coarse.Left(a, user, s).buckets[user] == Coarse.Left(b, user, s).buckets[user]
  {
    var x, y := Coarse.Left(a, user, s), Coarse.Left(b, user, s);
    assert Coarse.Bucket(a.buckets, user) == Coarse.Bucket(b.buckets, user);
    forall u ensures Coarse.Bucket(x.buckets, u) == Coarse.Bucket(y.buckets, u) {
      assert Coarse.Bucket(a.buckets, u) == Coarse.Bucket(b.buckets, u);
    }
  }

  lemma RemovedAlike(a: Coarse.State, b: Coarse.State, user: Coarse.User)
    requires Alike(a, b) && Coarse.Removable(a, user)
    ensures Coarse.Removable(b, user) && Alike(Coarse.EventsRemoved(a, user), Coarse.EventsRemoved(b, user))
  {
  }

  lemma ClosedAlike(a: Coarse.State, b: Coarse.State, user: Coarse.User, s: Coarse.Socket)
    requires Alike(a, b) && Coarse.Removable(a, user)
    ensures Coarse.Removable(b, user) && Alike(Coarse.ClosedBy(a, user, s), Coarse.ClosedBy(b, user, s))
  {
    LeftAlike(a, b, user, s);
    RemovedAlike(Coarse.Left(a, user, s), Coarse.Left(b, user, s), user);
  }

  function PcOf(phase: Runs.Phase): Pc {
    match phase
    case Accepted => Pc.Accepted
    case Live => Pc.Live
    case Closed => Pc.Closed
    case Failed => Pc.Failed
  }

  ghost predicate SamePlaces(phase: map<Coarse.Socket, Runs.Phase>, pc: map<Coarse.Socket, Pc>) {
    pc.Keys == phase.Keys && forall s :: s in phase ==> pc[s] == PcOf(phase[s])
  }

  /** Nobody is under way in the fine state, and otherwise it is the coarse one. */
  ghost predicate Simulates(run: Runs.Run, st: System) {
    && run.Running? && st.mutex == None && st.owner == run.owner
    && SamePlaces(run.phase, st.pc)
    && Alike(run.st, Common(st, []))
  }

  lemma SimulatesAccept(run: Runs.Run, s: Coarse.Socket, user: Coarse.User, st: System) returns (end: System)
    requires Simulates(run, st) && Runs.Enabled(run, Runs.Accept(s, user))
    ensures Leads(st, [Step.Accept(s, user)], end) && Simulates(Runs.Next(run, Runs.Accept(s, user)), end)
  {
    end := One(st, Step.Accept(s, user));
    var x, y := Runs.Next(run, Runs.Accept(s, user)).st, Common(end, []);
    assert Coarse.Bucket(run.st.buckets, user) == Coarse.Bucket(st.buckets, user);
    forall u ensures Coarse.Bucket(x.buckets, u) == Coarse.Bucket(y.buckets, u) {
      assert Coarse.Bucket(run.st.buckets, u) == Coarse.Bucket(st.buckets, u);
    }
  }

  lemma SimulatesHandshake(run: Runs.Run, s: Coarse.Socket, st: System) returns (steps: seq<Step>, end: System)
    requires Simulates(run, st) && Runs.Enabled(run, Runs.Handshake(s))
    ensures Leads(st, steps, end) && Simulates(Runs.Next(run, Runs.Handshake(s)), end)
  {
    end := HandshakeInOneGo(st, s);
    steps := HandshakeSteps(s, st.owner[s] in st.events);
    HandshakenAlike(run.st, Common(st, []), st.owner[s]);
  }

  lemma SimulatesClose(run: Runs.Run, s: Coarse.Socket, st: System) returns (steps: seq<Step>, end: System)
    requires Simulates(run, st) && Runs.Enabled(run, Runs.Close(s))
    requires s in Coarse.Bucket(run.st.buckets, run.owner[s]) && Coarse.Removable(run.st, run.owner[s])
    ensures Leads(st, steps, end) && Simulates(Runs.Next(run, Runs.Close(s)), end)
  {
    var user := st.owner[s];
    ClosedAlike(run.st, Common(st, []), user, s);
    assert s in Coarse.Bucket(st.buckets, user);
    end := CloseInOneGo(st, s);
    steps := CloseSteps(s, Coarse.Left(Common(st, []), user, s).buckets[user] == [], user in st.events);
  }

  lemma SimulatesFail(run: Runs.Run, s: Coarse.Socket, st: System) returns (end: System)
    requires Simulates(run, st) && Runs.Enabled(run, Runs.Fail(s))
    ensures Leads(st, [Step.Fail(s)], end) && Simulates(Runs.Next(run, Runs.Fail(s)), end)
  {
    end := One(st, Step.Fail(s));
  }

  /** An event writes to sockets and may create the bucket it looks up, and changes nothing else. */
  lemma SimulatesFire(run: Runs.Run, step: Runs.Step, st: System)
    requires step.Fire? && Runs.Inv(run) && Runs.Enabled(run, step) && Simulates(run, st)
    ensures Simulates(Runs.Next(run, step), st)
  {
    Runs.FireIs(run.st, step.user, step.kind, step.message);
  }

  lemma SimulatesStep(run: Runs.Run, step: Runs.Step, st: System) returns (steps: seq<Step>, end: System)
    requires Runs.Inv(run) && Runs.Enabled(run, step) && Simulates(run, st)
    ensures Leads(st, steps, end) && Simulates(Runs.Next(run, step), end)
  {
    match step
    case Accept(s, user) =>
      steps := [Step.Accept(s, user)];
      end := SimulatesAccept(run, s, user, st);
    case Handshake(s) => steps, end := SimulatesHandshake(run, s, st);
    case Close(s) =>
      Runs.LeftHolds(run, s);
      Runs.RemovedHolds(run.st, run.owner[s]);
      steps, end := SimulatesClose(run, s, st);
    case Fail(s) =>
      steps := [Step.Fail(s)];
      end := SimulatesFail(run, s, st);
    case Fire(_, _, _) =>
      SimulatesFire(run, step, st);
      steps, end := [], st;
  }

  /** Every run of atomic handlers is a schedule of the interleaved ones, with the same registry at its end. */
  lemma {:induction false} RunsAreSchedules(trace: seq<Runs.Step>) returns (steps: seq<Step>)
    requires Runs.Possible(trace)
    ensures Possible(steps) && Simulates(Runs.After(trace), After(steps))
    decreases |trace|
  {
    if trace == [] {
      return [];
    }
    var init, last := trace[..|trace| - 1], trace[|trace| - 1];
    Runs.RunsHold(init);
    var before := RunsAreSchedules(init);
    var more, end := SimulatesStep(Runs.After(init), last, After(before));
    LeadsTrace(before, more, end);
    steps := before + more;
  }
}
