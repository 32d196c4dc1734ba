/** When an upgraded socket is sure of its event, and when a schedule can take the event away from it: the
    state in which the socket is upgraded decides. */
module RegistryRisk {
  import opened Options
  import opened Registry
  import opened RegistryInterleaving
  import opened RegistrySchedules

  /** A close handler that can still take the user's event: it has found the bucket empty and not yet taken
      the lock, or it has the lock and an entry to clear. */
  predicate Taking(st: System, pc: Pc, user: User) {
    pc.Emptied? || pc.Dropped? || (pc.Removing? && user in st.events)
  }

  ghost predicate AtRisk(st: System, user: User) {
    exists c :: TakingAt(st, c, user)
  }

  predicate TakingAt(st: System, c: Socket, user: User) {
    c in st.owner && c in st.pc && st.owner[c] == user && Taking(st, st.pc[c], user)
  }

  /** Somebody is just storing the event of the user. */
  predicate BeingStored(st: System, user: User) {
    Inside(st).Some? && Inside(st).value.1 == user && Inside(st).value.0.Entered?
  }

  /** libvirt has the callback, for the user. */
  predicate Held(st: System, id: Callback, user: User) {
    id in st.callbacks && st.callbacks[id] == user
  }

  predicate Sees(st: System, user: User) {
    HasEvent(st, user) || BeingStored(st, user)
  }

  /** While the socket is in its bucket, nobody is taking the event, and past its check it has one. */
  ghost predicate Guarded(st: System, s: Socket, user: User) {
    && s in st.owner && s in st.pc && st.owner[s] == user
    && (InBucket(st.pc[s]) ==>
          && !AtRisk(st, user)
          && (st.pc[s].Stored? || st.pc[s].Live? ==> Sees(st, user)))
  }

  // ----- Without risk at the upgrade the event stays

  /** With a socket in the bucket, no close handler newly finds it empty. */
  lemma NoneTaking(st: System, step: Step, c: Socket, s: Socket, user: User)
    requires Inv(st) && !AtRisk(st, user) && Enabled(st, step) && Safe(st, step)
    requires s in st.owner && s in st.pc && st.owner[s] == user && InBucket(st.pc[s])
    ensures !TakingAt(Next(st, step), c, user)
  {
    assert !TakingAt(st, c, user);
    assert s in Bucket(st.buckets, user) by {
      assert BucketHolds(st, user);
    }
    if c == step.s {
      NotTakingSelf(st, step, user);
    } else if c in st.owner {
      OthersStay(st, step, c);
      if st.pc[c].Removing? {
        EntryOfOther(st, step, c, user);
      }
    }
  }

  lemma NotTakingSelf(st: System, step: Step, user: User)
    requires MutexInv(st) && Enabled(st, step) && Safe(st, step)
    requires !TakingAt(st, step.s, user) && Bucket(st.buckets, user) != []
    ensures !TakingAt(Next(st, step), step.s, user)
  {
  }

  /** While a socket removes, no other makes an entry. */
  lemma EntryOfOther(st: System, step: Step, c: Socket, user: User)
    requires MutexInv(st) && Enabled(st, step) && Safe(st, step)
    requires c != step.s && c in st.pc && st.pc[c].Removing?
    ensures user in Next(st, step).events ==> user in st.events
  {
    assert st.mutex == Some(c);
  }

  /** An entry seen past the unlocked check has its event, or is about to, unless it is being taken. */
  lemma EntrySeen(st: System, user: User)
    requires Inv(st) && !AtRisk(st, user) && user in st.events
    ensures Sees(st, user)
  {
    EntryOf(CoreOf(st), user);
    if LIFECYCLE !in st.events[user] {
      assert !TakingAt(st, st.mutex.value, user);
    }
  }

  lemma SeesStays(st: System, step: Step, user: User)
    requires Inv(st) && Enabled(st, step) && Safe(st, step)
    requires !TakingAt(st, step.s, user) && Sees(st, user)
    ensures Sees(Next(st, step), user)
  {
    if Outside(step) {
      MutexOutside(st, step);
    } else {
      assert st.mutex != None ==> st.mutex == Some(step.s);
      SeesStaysInside(st, step, user);
    }
  }

  lemma SeesStaysInside(st: System, step: Step, user: User)
    requires MutexInv(st) && InsideHolds(CoreOf(st)) && Enabled(st, step) && Safe(st, step) && !Outside(step)
    requires step.s in st.pc && step.s in st.owner && !TakingAt(st, step.s, user) && Sees(st, user)
    ensures Sees(Next(st, step), user)
  {
  }

  /** The step that brings a socket past its check, or past its own store. */
  lemma SeesAfterOwn(st: System, step: Step, user: User)
    requires Inv(st) && Enabled(st, step) && Safe(st, step)
    requires Guarded(st, step.s, user) && InBucket(st.pc[step.s])
    requires step.s in Next(st, step).pc
    requires Next(st, step).pc[step.s].Stored? || Next(st, step).pc[step.s].Live?
    ensures Sees(Next(st, step), user)
  {
    assert !TakingAt(st, step.s, user);
    if step.Check? {
      EntrySeen(st, user);
      SeesStays(st, step, user);
    } else if step.Unlock? {
      SeesStays(st, step, user);
    } else {
      assert step.Store?;
    }
  }

  lemma StaysOut(st: System, step: Step, s: Socket)
    requires Enabled(st, step) && Safe(st, step) && s in st.owner && s in st.pc
    ensures var next := Next(st, step);
            && s in next.owner && s in next.pc && next.owner[s] == st.owner[s]
            && (InBucket(next.pc[s]) ==> InBucket(st.pc[s]))
  {
    if s != step.s {
      OthersStay(st, step, s);
    }
  }

  lemma GuardKept(st: System, step: Step, s: Socket, user: User)
    requires Inv(st) && Guarded(st, s, user) && Enabled(st, step) && Safe(st, step)
    ensures Guarded(Next(st, step), s, user)
  {
    var next := Next(st, step);
    StaysOut(st, step, s);
    if InBucket(next.pc[s]) {
      forall c ensures !TakingAt(next, c, user) {
        NoneTaking(st, step, c, s, user);
      }
      if next.pc[s].Stored? || next.pc[s].Live? {
        if s == step.s {
          SeesAfterOwn(st, step, user);
        } else {
          OthersStay(st, step, s);
          assert !TakingAt(st, step.s, user);
          SeesStays(st, step, user);
        }
      }
    }
  }

  lemma GuardStarts(st: System, s: Socket, user: User)
    requires Enabled(st, Accept(s, user)) && !AtRisk(st, user)
    ensures Guarded(Next(st, Accept(s, user)), s, user)
  {
    var next := Next(st, Accept(s, user));
    forall c ensures !TakingAt(next, c, user) {
      assert !TakingAt(st, c, user);
    }
  }

  lemma {:induction false} PrefixPossible(trace: seq<Step>, n: nat)
    requires Possible(trace) && n <= |trace|
    ensures Possible(trace[..n])
    decreases |trace|
  {
    if n < |trace| {
      PrefixPossible(trace[..|trace| - 1], n);
      assert trace[..|trace| - 1][..n] == trace[..n];
    } else {
      assert trace[..n] == trace;
    }
  }

  /** From an upgrade without risk on, the socket is guarded. */
  lemma {:induction false} GuardHolds(trace: seq<Step>, n: nat, s: Socket, user: User)
    requires Possible(trace) && n < |trace| && trace[n] == Accept(s, user)
    requires Possible(trace[..n]) && !AtRisk(After(trace[..n]), user)
    ensures Guarded(After(trace), s, user)
    decreases |trace|
  {
    var init, last := trace[..|trace| - 1], trace[|trace| - 1];
    if n == |trace| - 1 {
      GuardStarts(After(init), s, user);
    } else {
      assert init[..n] == trace[..n];
      GuardHolds(init, n, s, user);
      SchedulesHold(init);
      GuardKept(After(init), last, s, user);
    }
  }

  lemma {:induction false} OwnersWereAccepted(trace: seq<Step>, s: Socket) returns (n: nat)
    requires Possible(trace) && s in After(trace).owner
    ensures n < |trace| && trace[n] == Accept(s, After(trace).owner[s])
    decreases |trace|
  {
    var init, last := trace[..|trace| - 1], trace[|trace| - 1];
    if last == Accept(s, After(trace).owner[s]) {
      n := |trace| - 1;
    } else {
      OwnerBefore(After(init), last, s);
      n := OwnersWereAccepted(init, s);
    }
  }

  lemma OwnerBefore(st: System, step: Step, s: Socket)
    requires Enabled(st, step) && Safe(st, step) && s in Next(st, step).owner
    requires step != Accept(s, Next(st, step).owner[s])
    ensures s in st.owner && st.owner[s] == Next(st, step).owner[s]
  {
  }

  /** A live socket whose user was not at risk when it was upgraded has its event stored, or being stored
      this moment, and the callback of that event is at libvirt. */
  lemma LiveIsServed(trace: seq<Step>, s: Socket)
    requires Possible(trace) && At(After(trace), s, Live)
    requires forall n :: 0 <= n < |trace| && trace[n] == Accept(s, After(trace).owner[s]) && Possible(trace[..n]) ==>
               !AtRisk(After(trace[..n]), After(trace).owner[s])
    ensures var st := After(trace);
            var user := st.owner[s];
            || (HasEvent(st, user) && Held(st, st.events[user][LIFECYCLE], user))
            || (BeingStored(st, user) && Held(st, Inside(st).value.0.id, user))
  {
    SchedulesHold(trace);
    var st := After(trace);
    var n := OwnersWereAccepted(trace, s);
    PrefixPossible(trace, n);
    GuardHolds(trace, n, s, st.owner[s]);
    EntryOf(CoreOf(st), st.owner[s]);
  }

  // ----- With risk at the upgrade the event can be lost

  /** The steps its holder has left in the critical section. */
  function Work(pc: Pc): nat {
    match pc
    case Adding => 4
    case Registered(_) => 3
    case Entered(_) => 2
    case Stored => 1
    case Removing => 3
    case Dropped => 2
    case Pruned => 1
    case _ => 0
  }

  function NextInside(pc: Pc, s: Socket): Step {
    match pc
    case Adding => Register(s)
    case Registered(_) => Enter(s)
    case Entered(_) => Step.Store(s)
    case Removing => Drop(s)
    case Dropped => Prune(s)
    case _ => Unlock(s)
  }

  predicate Joining(pc: Pc) {
    pc.Adding? || pc.Registered? || pc.Entered? || pc.Stored?
  }

  /** The critical section will leave, or has left, no entry of the user. */
  predicate Clearing(st: System, pc: Pc, user: User) {
    pc.Removing? || pc.Dropped? || (pc.Pruned? && user !in st.events)
  }

  lemma HolderIs(st: System, s: Socket)
    requires Inv(st) && st.mutex == Some(s)
    ensures s in st.pc && s in st.owner && Holding(st.pc[s]) && Work(st.pc[s]) > 0
    ensures Enabled(st, NextInside(st.pc[s], s)) && Safe(st, NextInside(st.pc[s], s))
    ensures st.pc[s].Dropped? ==> st.owner[s] in st.events && st.events[st.owner[s]] == map[]
  {
    AlwaysSafe(st, NextInside(st.pc[s], s));
  }

  lemma Unlocks(st: System, s: Socket)
    requires Enabled(st, Unlock(s)) && Safe(st, Unlock(s))
    ensures Next(st, Unlock(s)) == st.(mutex := None, pc := st.pc[s := if Joining(st.pc[s]) then Live else Closed])
  {
  }

  /** A step inside the critical section, short of the unlock. */
  ghost predicate Advanced(st: System, s: Socket, next: System) {
    && s in st.pc && s in st.owner && s in next.pc
    && next.owner == st.owner && next.mutex == st.mutex && next.pc == st.pc[s := next.pc[s]]
    && Work(next.pc[s]) < Work(st.pc[s])
    && Joining(next.pc[s]) == Joining(st.pc[s])
    && (Clearing(st, st.pc[s], st.owner[s]) ==> Clearing(next, next.pc[s], st.owner[s]))
  }

  lemma AdvancesByRegister(st: System, s: Socket)
    requires At(st, s, Adding)
    ensures Advanced(st, s, Next(st, Register(s)))
  {
  }

  lemma AdvancesByEnter(st: System, s: Socket)
    requires Enabled(st, Enter(s))
    ensures Advanced(st, s, Next(st, Enter(s)))
  {
  }

  lemma AdvancesByStore(st: System, s: Socket)
    requires Enabled(st, Step.Store(s)) && Safe(st, Step.Store(s))
    ensures Advanced(st, s, Next(st, Step.Store(s)))
  {
  }

  lemma AdvancesByDrop(st: System, s: Socket)
    requires At(st, s, Removing) && Safe(st, Drop(s))
    ensures Advanced(st, s, Next(st, Drop(s)))
  {
  }

  lemma AdvancesByPrune(st: System, s: Socket)
    requires At(st, s, Dropped) && st.owner[s] in st.events && st.events[st.owner[s]] == map[]
    ensures Advanced(st, s, Next(st, Prune(s)))
  {
  }

  lemma Advances(st: System, s: Socket)
    requires s in st.pc && s in st.owner && Work(st.pc[s]) > 1
    requires Enabled(st, NextInside(st.pc[s], s)) && Safe(st, NextInside(st.pc[s], s))
    requires st.pc[s].Dropped? ==> st.owner[s] in st.events && st.events[st.owner[s]] == map[]
    ensures Advanced(st, s, Next(st, NextInside(st.pc[s], s)))
  {
    match st.pc[s]
    case Adding => AdvancesByRegister(st, s);
    case Registered(_) => AdvancesByEnter(st, s);
    case Entered(_) => AdvancesByStore(st, s);
    case Removing => AdvancesByDrop(st, s);
    case Dropped => AdvancesByPrune(st, s);
  }

  /** What running the lock's holder to its end leaves. */
  ghost predicate Released(st: System, end: System) {
    && Inv(end) && end.mutex == None && end.owner == st.owner
    && (forall x :: x in st.pc && st.mutex != Some(x) ==> x in end.pc && end.pc[x] == st.pc[x])
    && (st.mutex.Some? ==>
          var s := st.mutex.value;
          && s in st.pc && s in end.pc && s in st.owner
          && (Joining(st.pc[s]) ==> end.pc[s] == Live && st.owner[s] in end.events)
          && (Clearing(st, st.pc[s], st.owner[s]) ==> end.pc[s] == Closed && st.owner[s] !in end.events))
  }

  lemma LastStep(st: System, s: Socket)
    requires Inv(st) && st.mutex == Some(s) && Enabled(st, Unlock(s)) && Safe(st, Unlock(s))
    ensures Released(st, Next(st, Unlock(s)))
  {
    Keeps(st, Unlock(s));
    Unlocks(st, s);
  }

  lemma StepBefore(st: System, s: Socket, next: System, end: System)
    requires st.mutex == Some(s) && Advanced(st, s, next) && Released(next, end)
    ensures Released(st, end)
  {
  }

  /** Whoever has the lock runs to its end: an upgraded socket comes out live with an entry, a closing one
      leaves none. Nobody else moves. */
  lemma {:induction false} Release(st: System) returns (steps: seq<Step>, end: System)
    requires Inv(st)
    ensures Leads(st, steps, end) && Released(st, end)
    decreases if st.mutex.Some? && st.mutex.value in st.pc then Work(st.pc[st.mutex.value]) else 0
  {
    if st.mutex == None {
      return [], st;
    }
    var s := st.mutex.value;
    HolderIs(st, s);
    var step := NextInside(st.pc[s], s);
    var next := One(st, step);
    if Work(st.pc[s]) == 1 {
      LastStep(st, s);
      return [step], next;
    }
    Keeps(st, step);
    Advances(st, s);
    var rest;
    rest, end := Release(next);
    steps := Chained(st, [step], next, rest, end);
    StepBefore(st, s, next, end);
  }

  /** A socket takes the lock and runs to the end of its critical section. */
  lemma Locked(st: System, s: Socket) returns (steps: seq<Step>, end: System)
    requires Inv(st) && st.mutex == None && (At(st, s, Checked) || At(st, s, Emptied))
    ensures Leads(st, steps, end) && Inv(end) && end.mutex == None && end.owner == st.owner
    ensures forall x :: x in st.pc && x != s ==> x in end.pc && end.pc[x] == st.pc[x]
    ensures s in end.pc
    ensures st.pc[s] == Checked ==> end.pc[s] == Live && st.owner[s] in end.events
    ensures st.pc[s] == Emptied ==> end.pc[s] == Closed && st.owner[s] !in end.events
  {
    Keeps(st, Lock(s));
    var locked := One(st, Lock(s));
    steps, end := Release(locked);
    steps := Chained(st, [Lock(s)], locked, steps, end);
  }

  /** With the mutex free, an upgraded socket can run through its handshake. */
  lemma Joins(st: System, s: Socket) returns (steps: seq<Step>, end: System)
    requires Inv(st) && st.mutex == None && At(st, s, Accepted)
    ensures Leads(st, steps, end) && Inv(end) && end.mutex == None && end.owner == st.owner
    ensures At(end, s, Live)
    ensures forall x :: x in st.pc && x != s ==> x in end.pc && end.pc[x] == st.pc[x]
  {
    Keeps(st, Check(s));
    var checked := One(st, Check(s));
    if st.owner[s] in st.events {
      return [Check(s)], checked;
    }
    steps, end := Locked(checked, s);
    steps := Chained(st, [Check(s)], checked, steps, end);
  }

  /** A closer that waits for the lock lets the socket join first, and then takes its event. */
  lemma LosesToWaiting(st: System, c: Socket, s: Socket, user: User) returns (steps: seq<Step>, end: System)
    requires Inv(st) && c != s && At(st, c, Emptied) && st.owner[c] == user
    requires At(st, s, Accepted) && st.owner[s] == user
    ensures Leads(st, steps, end)
    ensures At(end, s, Live) && end.owner[s] == user && end.mutex == None && user !in end.events
  {
    var first, released := Release(st);
    var second, joined := Joins(released, s);
    var third;
    third, end := Locked(joined, c);
    steps := Chained(st, first, released, second, joined);
    steps := Chained(st, steps, joined, third, end);
  }

  /** A closer inside the lock leaves the entry in sight until it clears it. */
  lemma LosesToHolder(st: System, c: Socket, s: Socket, user: User) returns (steps: seq<Step>, end: System)
    requires Inv(st) && c != s && c in st.owner && c in st.pc && st.owner[c] == user
    requires st.pc[c].Dropped? || (st.pc[c].Removing? && user in st.events)
    requires At(st, s, Accepted) && st.owner[s] == user
    ensures Leads(st, steps, end)
    ensures At(end, s, Live) && end.owner[s] == user && end.mutex == None && user !in end.events
  {
    assert st.mutex == Some(c);
    Keeps(st, Check(s));
    var checked := One(st, Check(s));
    steps, end := Release(checked);
    steps := Chained(st, [Check(s)], checked, steps, end);
  }

  /** A socket upgraded while its user is at risk can be left live, with the lock free and no entry. */
  lemma RiskLoses(trace: seq<Step>, s: Socket, user: User) returns (longer: seq<Step>)
    requires Possible(trace) && s !in After(trace).owner && AtRisk(After(trace), user)
    ensures trace + [Accept(s, user)] <= longer && Possible(longer)
    ensures var st := After(longer);
            At(st, s, Live) && st.owner[s] == user && st.mutex == None && user !in st.events
  {
    var st := After(trace);
    SchedulesHold(trace);
    Keeps(st, Accept(s, user));
    var c :| TakingAt(st, c, user);
    OneMore(trace, Accept(s, user));
    var upgraded := Next(st, Accept(s, user));
    var steps, end;
    if st.pc[c].Emptied? {
      steps, end := LosesToWaiting(upgraded, c, s, user);
    } else {
      steps, end := LosesToHolder(upgraded, c, s, user);
    }
    LeadsTrace(trace + [Accept(s, user)], steps, end);
    longer := trace + [Accept(s, user)] + steps;
  }

  /** The run goes on with the upgrade of the socket and leaves it live without an event. */
  ghost predicate Loses(trace: seq<Step>, s: Socket, user: User, longer: seq<Step>) {
    && trace + [Accept(s, user)] <= longer && Possible(longer)
    && At(After(longer), s, Live) && !Sees(After(longer), user)
  }

  /** The exact condition: after any run, a new socket of a user can be left live without an event if and
      only if the user is at risk at that moment. */
  lemma LossExactly(trace: seq<Step>, s: Socket, user: User)
    requires Possible(trace) && s !in After(trace).owner
    ensures AtRisk(After(trace), user) <==> exists longer :: Loses(trace, s, user, longer)
  {
    if AtRisk(After(trace), user) {
      var longer := RiskLoses(trace, s, user);
      assert Loses(trace, s, user, longer);
    }
    forall longer | Loses(trace, s, user, longer) ensures AtRisk(After(trace), user) {
      var n := |trace|;
      assert longer[n] == (trace + [Accept(s, user)])[n] == Accept(s, user);
      assert longer[..n] == (trace + [Accept(s, user)])[..n] == trace;
      if !AtRisk(After(trace), user) {
        GuardHolds(longer, n, s, user);
      }
    }
  }

  // ----- The risk arises

  /** One socket that connects and leaves again is enough. */
  lemma RiskArises(user: User, c: Socket) returns (trace: seq<Step>)
    ensures Possible(trace) && AtRisk(After(trace), user) && After(trace).owner.Keys == {c}
  {
    InitialHolds();
    Keeps(INITIAL, Accept(c, user));
    var accepted := One(INITIAL, Accept(c, user));
    var steps, joined := Joins(accepted, c);
    var left := LeavesAlone(joined, c);
    trace := Chained(INITIAL, [Accept(c, user)], accepted, steps, joined);
    trace := Chained(INITIAL, trace, joined, [Leave(c), Measure(c)], left);
    assert [] + trace == trace;
    LeadsTrace([], trace, left);
    assert TakingAt(left, c, user);
  }

  lemma LeavesAlone(st: System, c: Socket) returns (end: System)
    requires Inv(st) && At(st, c, Live) && st.owner.Keys == {c}
    ensures Leads(st, [Leave(c), Measure(c)], end)
    ensures end.owner == st.owner && At(end, c, Emptied)
  {
    Keeps(st, Leave(c));
    var left := Next(st, Leave(c));
    EmptyAfterLeaving(left, c);
    end := Two(st, Leave(c), Measure(c));
  }

  lemma NoElements(sockets: seq<Socket>)
    ensures (forall x :: x !in sockets) ==> sockets == []
  {
    assert sockets != [] ==> sockets[0] in sockets;
  }

  lemma EmptyAfterLeaving(st: System, c: Socket)
    requires Inv(st) && At(st, c, Leaving) && st.owner.Keys == {c}
    ensures Bucket(st.buckets, st.owner[c]) == []
    ensures Enabled(st, Measure(c)) && Safe(st, Measure(c))
    ensures Next(st, Measure(c)).owner == st.owner && At(Next(st, Measure(c)), c, Emptied)
  {
    var bucket := Bucket(st.buckets, st.owner[c]);
    assert BucketHolds(st, st.owner[c]);
    assert forall x :: x in bucket ==> x in st.owner && x == c;
    assert c !in bucket;
    NoElements(bucket);
  }

  /** So a live socket can be without an event: there is such a run for any user and any two sockets. */
  lemma LiveCanBeUnserved(user: User, closer: Socket, s: Socket)
    requires closer != s
    ensures exists trace ::
      && Possible(trace)
      && At(After(trace), s, Live) && After(trace).owner[s] == user
      && After(trace).mutex == None && user !in After(trace).events
  {
    var trace := RiskArises(user, closer);
    var longer := RiskLoses(trace, s, user);
  }
}
