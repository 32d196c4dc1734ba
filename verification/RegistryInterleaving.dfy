/** The websocket handlers at the grain they really interleave: every unlocked check and every action
    inside the registry's mutex is a step of its own, and each socket's handlers run in sequence. */
module RegistryInterleaving {
  import opened Options
  import opened Registry

  /** How far a socket's handlers are. The handshake checks without the lock and then, under it, registers
      with libvirt, makes the user's entry and stores; the close leaves the bucket, measures it without
      the lock and then, under it, drops the event and prunes the entry. */
  datatype Pc =
    | Accepted
    | Checked
    | Adding
    | Registered(id: Callback)
    | Entered(id: Callback)
    | Stored
    | Live
    | Leaving
    | Emptied
    | Removing
    | Dropped
    | Pruned
    | Closed
    | Failed

  datatype System = System(
    buckets: map<User, seq<Socket>>,
    events: map<User, map<int, Callback>>,
    callbacks: map<Callback, User>,
    next: Callback,
    mutex: Option<Socket>,
    owner: map<Socket, User>,
    pc: map<Socket, Pc>)

  const INITIAL: System := System(map[], map[], map[], 0, None, map[], map[])

  datatype Step =
    | Accept(s: Socket, user: User)
    | Check(s: Socket)
    | Lock(s: Socket)
    | Register(s: Socket)
    | Enter(s: Socket)
    | Store(s: Socket)
    | Unlock(s: Socket)
    | Leave(s: Socket)
    | Measure(s: Socket)
    | Drop(s: Socket)
    | Prune(s: Socket)
    | Fail(s: Socket)

  predicate At(st: System, s: Socket, pc: Pc) {
    s in st.owner && s in st.pc && st.pc[s] == pc
  }

  predicate Enabled(st: System, step: Step) {
    match step
    case Accept(s, _) => s !in st.owner && s !in st.pc
    case Check(s) => At(st, s, Accepted)
    case Lock(s) => st.mutex == None && (At(st, s, Checked) || At(st, s, Emptied))
    case Register(s) => At(st, s, Adding)
    case Enter(s) => s in st.owner && s in st.pc && st.pc[s].Registered?
    case Store(s) => s in st.owner && s in st.pc && st.pc[s].Entered?
    case Unlock(s) => At(st, s, Stored) || At(st, s, Pruned)
    case Leave(s) => At(st, s, Live)
    case Measure(s) => At(st, s, Leaving)
    case Drop(s) => At(st, s, Removing)
    case Prune(s) => At(st, s, Dropped)
    case Fail(s) => At(st, s, Accepted) || At(st, s, Live)
  }

  /** What a step must find: an element to erase from a list or a map. */
  predicate Safe(st: System, step: Step)
    requires Enabled(st, step)
  {
    match step
    case Leave(s) => s in Bucket(st.buckets, st.owner[s])
    case Store(s) => st.owner[s] in st.events
    case Drop(s) => st.owner[s] in st.events ==> LIFECYCLE in st.events[st.owner[s]]
    case _ => true
  }

  function Moved(st: System, s: Socket, pc: Pc): System {
    st.(pc := st.pc[s := pc])
  }

  function WithLifecycle(stored: map<int, Callback>, id: Callback): map<int, Callback> {
    stored[LIFECYCLE := id]
  }

  function Joining(st: System, s: Socket, user: User): System {
    st.(owner := st.owner[s := user], pc := st.pc[s := Accepted],
        buckets := st.buckets[user := Bucket(st.buckets, user) + [s]])
  }

  function Registering(st: System, s: Socket, user: User): System {
    Moved(st, s, Registered(st.next)).(callbacks := st.callbacks[st.next := user], next := st.next + 1)
  }

  function Entering(st: System, s: Socket, user: User, id: Callback): System {
    var entered := Moved(st, s, Entered(id));
    if user in st.events then entered else entered.(events := st.events[user := map[]])
  }

  /** A second event is not stored and takes its callback with it. */
  function Storing(st: System, s: Socket, user: User, id: Callback): System
    requires user in st.events
  {
    var stored := Moved(st, s, Stored);
    if LIFECYCLE in st.events[user] then stored.(callbacks := st.callbacks - {id})
    else stored.(events := st.events[user := WithLifecycle(st.events[user], id)])
  }

  function Departing(st: System, s: Socket, user: User): System {
    Moved(st, s, Leaving).(buckets := st.buckets[user := Erase(Bucket(st.buckets, user), s)])
  }

  function Measuring(st: System, s: Socket, user: User): System {
    Moved(st, s, if Bucket(st.buckets, user) == [] then Emptied else Closed)
      .(buckets := st.buckets[user := Bucket(st.buckets, user)])
  }

  function Dropping(st: System, s: Socket, user: User): System
    requires user in st.events ==> LIFECYCLE in st.events[user]
  {
    if user !in st.events then Moved(st, s, Pruned)
    else
      Moved(st, s, Dropped).(
        events := st.events[user := st.events[user] - {LIFECYCLE}],
        callbacks := st.callbacks - {st.events[user][LIFECYCLE]})
  }

  function Pruning(st: System, s: Socket, user: User): System {
    var pruned := Moved(st, s, Pruned);
    if user in st.events && st.events[user] == map[] then pruned.(events := st.events - {user}) else pruned
  }

  function Next(st: System, step: Step): System
    requires Enabled(st, step) && Safe(st, step)
  {
    match step
    case Accept(s, user) => Joining(st, s, user)
    case Check(s) => Moved(st, s, if st.owner[s] in st.events then Live else Checked)
    case Lock(s) => Moved(st, s, if st.pc[s] == Checked then Adding else Removing).(mutex := Some(s))
    case Register(s) => Registering(st, s, st.owner[s])
    case Enter(s) => Entering(st, s, st.owner[s], st.pc[s].id)
    case Store(s) => Storing(st, s, st.owner[s], st.pc[s].id)
    case Unlock(s) => Moved(st, s, if st.pc[s] == Stored then Live else Closed).(mutex := None)
    case Leave(s) => Departing(st, s, st.owner[s])
    case Measure(s) => Measuring(st, s, st.owner[s])
    case Drop(s) => Dropping(st, s, st.owner[s])
    case Prune(s) => Pruning(st, s, st.owner[s])
    case Fail(s) => Moved(st, s, Failed)
  }

  // ----- The invariant

  predicate Holding(pc: Pc) {
    pc.Adding? || pc.Registered? || pc.Entered? || pc.Stored? || pc.Removing? || pc.Dropped? || pc.Pruned?
  }

  predicate InBucket(pc: Pc) {
    pc.Accepted? || pc.Checked? || pc.Adding? || pc.Registered? || pc.Entered? || pc.Stored? || pc.Live? || pc.Failed?
  }

  /** Between leaving the bucket and dropping the event, if the bucket was empty then. */
  predicate Coming(pc: Pc) {
    pc.Leaving? || pc.Emptied? || pc.Removing?
  }

  ghost predicate BucketHolds(st: System, user: User)
    requires st.owner.Keys == st.pc.Keys
  {
    var bucket := Bucket(st.buckets, user);
    && Distinct(bucket)
    && forall s :: s in bucket <==> s in st.owner && st.owner[s] == user && InBucket(st.pc[s])
  }

  /** The mutex is held by exactly the socket inside a critical section. */
  ghost predicate MutexHolds(st: System)
    requires st.owner.Keys == st.pc.Keys
  {
    forall s :: s in st.pc ==> (Holding(st.pc[s]) <==> st.mutex == Some(s))
  }

  /** The registry proper: the stored events, libvirt's callbacks, and who is in the critical section. */
  datatype Core = Core(
    events: map<User, map<int, Callback>>,
    callbacks: map<Callback, User>,
    next: Callback,
    inside: Option<(Pc, User)>)

  function Inside(st: System): Option<(Pc, User)> {
    if st.mutex.Some? && st.mutex.value in st.pc && st.mutex.value in st.owner
    then Some((st.pc[st.mutex.value], st.owner[st.mutex.value])) else None
  }

  function CoreOf(st: System): Core {
    Core(st.events, st.callbacks, st.next, Inside(st))
  }

  /** A user's entry is one stored callback, or empty while someone has just made or just emptied it. */
  predicate EntryHolds(c: Core, user: User)
    requires user in c.events
  {
    if LIFECYCLE in c.events[user] then
      var id := c.events[user][LIFECYCLE];
      && c.events[user] == map[LIFECYCLE := id]
      && id in c.callbacks && c.callbacks[id] == user
      && c.inside != Some((Registered(id), user))
      && c.inside != Some((Entered(id), user))
    else
      && c.events[user] == map[]
      && c.inside.Some? && c.inside.value.1 == user
      && (c.inside.value.0.Entered? || c.inside.value.0.Dropped?)
  }

  /** A callback libvirt holds is a stored event, or the one being added right now. */
  predicate CallbackHolds(c: Core, id: Callback)
    requires id in c.callbacks
  {
    var user := c.callbacks[id];
    && id < c.next
    && (|| (user in c.events && c.events[user] == map[LIFECYCLE := id])
        || c.inside == Some((Registered(id), user))
        || c.inside == Some((Entered(id), user)))
  }

  /** What the holder of the mutex relies on. */
  predicate InsideHolds(c: Core) {
    match c.inside
    case None => true
    case Some((pc, user)) =>
      && (pc.Registered? ==> pc.id in c.callbacks && c.callbacks[pc.id] == user)
      && (pc.Entered? ==> pc.id in c.callbacks && c.callbacks[pc.id] == user && user in c.events)
      && (pc.Stored? ==> user in c.events)
      && (pc.Dropped? ==> user in c.events && c.events[user] == map[])
  }

  ghost predicate CoreInv(c: Core) {
    && (forall u :: u in c.events ==> EntryHolds(c, u))
    && (forall id :: id in c.callbacks ==> CallbackHolds(c, id))
    && InsideHolds(c)
  }

  /** A stored event of a user without sockets has a close handler on its way to remove it. */
  ghost predicate NoLeak(st: System, user: User)
    requires st.owner.Keys == st.pc.Keys
  {
    user in st.events && LIFECYCLE in st.events[user] && Bucket(st.buckets, user) == [] ==>
      exists s :: s in st.owner && st.owner[s] == user && Coming(st.pc[s])
  }

  ghost predicate BucketsHold(st: System) {
    st.owner.Keys == st.pc.Keys && forall u :: BucketHolds(st, u)
  }

  ghost predicate MutexInv(st: System) {
    && st.owner.Keys == st.pc.Keys
    && MutexHolds(st)
    && (st.mutex.Some? ==> st.mutex.value in st.pc)
  }

  ghost predicate Inv(st: System) {
    && BucketsHold(st)
    && MutexInv(st)
    && CoreInv(CoreOf(st))
    && forall u :: NoLeak(st, u)
  }

  /** Nothing is ever erased that is not there. */
  lemma AlwaysSafe(st: System, step: Step)
    requires Inv(st) && Enabled(st, step)
    ensures Safe(st, step)
  {
    match step
    case Leave(s) => assert BucketHolds(st, st.owner[s]);
    case Store(s) => assert st.mutex == Some(s);
    case Drop(s) => assert st.mutex == Some(s);
    case _ =>
  }

  lemma BucketsSame(st: System, next: System)
    requires st.owner.Keys == st.pc.Keys == next.pc.Keys && next.owner == st.owner
    requires forall u :: BucketHolds(st, u)
    requires forall s :: s in st.pc ==> (InBucket(next.pc[s]) <==> InBucket(st.pc[s]))
    requires forall u :: Bucket(next.buckets, u) == Bucket(st.buckets, u)
    ensures forall u :: BucketHolds(next, u)
  {
    forall u ensures BucketHolds(next, u) {
      assert BucketHolds(st, u);
    }
  }

  lemma BucketsAfterAccept(st: System, s: Socket, user: User)
    requires BucketsHold(st) && Enabled(st, Accept(s, user))
    ensures BucketsHold(Next(st, Accept(s, user)))
  {
    var next := Next(st, Accept(s, user));
    forall u ensures BucketHolds(next, u) {
      assert BucketHolds(st, u);
    }
  }

  lemma BucketsAfterLeave(st: System, s: Socket)
    requires BucketsHold(st) && Enabled(st, Leave(s)) && Safe(st, Leave(s))
    ensures BucketsHold(Next(st, Leave(s)))
  {
    var next := Next(st, Leave(s));
    assert BucketHolds(st, st.owner[s]);
    EraseOnce(Bucket(st.buckets, st.owner[s]), s);
    forall u ensures BucketHolds(next, u) {
      assert BucketHolds(st, u);
    }
  }

  /** The steps outside the mutex. */
  predicate Outside(step: Step) {
    step.Accept? || step.Check? || step.Leave? || step.Measure? || step.Fail?
  }

  /** The socket of the step stays in its bucket or out of it, and no bucket changes. */
  ghost predicate BucketsStay(st: System, step: Step, next: System) {
    && next.owner == st.owner && step.s in st.pc && step.s in next.pc
    && next.pc == st.pc[step.s := next.pc[step.s]]
    && InBucket(next.pc[step.s]) == InBucket(st.pc[step.s])
    && (next.buckets == st.buckets || step.Measure?)
  }

  lemma BucketsInside(st: System, step: Step)
    requires BucketsHold(st) && Enabled(st, step) && Safe(st, step) && !Outside(step)
    ensures BucketsStay(st, step, Next(st, step))
  {
  }

  lemma BucketsOutside(st: System, step: Step)
    requires BucketsHold(st) && Enabled(st, step) && Safe(st, step) && Outside(step) && !step.Accept? && !step.Leave?
    ensures BucketsStay(st, step, Next(st, step))
  {
  }

  lemma BucketsKept(st: System, step: Step)
    requires BucketsHold(st) && Enabled(st, step) && Safe(st, step)
    ensures BucketsHold(Next(st, step))
  {
    if step.Accept? {
      BucketsAfterAccept(st, step.s, step.user);
    } else if step.Leave? {
      BucketsAfterLeave(st, step.s);
    } else {
      if Outside(step) {
        BucketsOutside(st, step);
      } else {
        BucketsInside(st, step);
      }
      var next := Next(st, step);
      forall u ensures Bucket(next.buckets, u) == Bucket(st.buckets, u) {
      }
      BucketsSame(st, next);
    }
  }

  lemma MutexSame(st: System, next: System, s: Socket)
    requires MutexInv(st) && next.owner.Keys == next.pc.Keys
    requires s in next.pc && next.pc == st.pc[s := next.pc[s]]
    requires
      || (next.mutex == st.mutex
          && if s in st.pc then Holding(next.pc[s]) == Holding(st.pc[s]) else !Holding(next.pc[s]))
      || (st.mutex == None && next.mutex == Some(s) && Holding(next.pc[s]))
      || (s in st.pc && st.mutex == Some(s) && next.mutex == None && !Holding(next.pc[s]))
    ensures MutexInv(next)
  {
  }

  lemma RegistryOutside(st: System, step: Step)
    requires Enabled(st, step) && Safe(st, step) && Outside(step)
    ensures var next := Next(st, step);
            && next.events == st.events && next.callbacks == st.callbacks
            && next.next == st.next && next.mutex == st.mutex
            && step.s in next.owner && step.s in next.pc
            && next.pc == st.pc[step.s := next.pc[step.s]]
            && next.owner == st.owner[step.s := next.owner[step.s]]
            && !Holding(next.pc[step.s])
            && (step.s in st.pc ==> !Holding(st.pc[step.s]))
  {
  }

  lemma MutexOutside(st: System, step: Step)
    requires MutexInv(st) && Enabled(st, step) && Safe(st, step) && Outside(step)
    ensures MutexInv(Next(st, step))
    ensures CoreOf(Next(st, step)) == CoreOf(st)
  {
    RegistryOutside(st, step);
    MutexSame(st, Next(st, step), step.s);
  }

  lemma MutexInside(st: System, step: Step)
    requires MutexInv(st) && Enabled(st, step) && Safe(st, step) && !Outside(step)
    ensures MutexInv(Next(st, step))
  {
    MutexSame(st, Next(st, step), step.s);
  }

  // ----- The critical sections, one action at a time

  lemma LockCore(c: Core, pc: Pc, user: User)
    requires CoreInv(c) && c.inside == None && (pc.Adding? || pc.Removing?)
    ensures CoreInv(c.(inside := Some((pc, user))))
  {
    forall u | u in c.events ensures EntryHolds(c.(inside := Some((pc, user))), u) {
      assert EntryHolds(c, u);
    }
    forall id | id in c.callbacks ensures CallbackHolds(c.(inside := Some((pc, user))), id) {
      assert CallbackHolds(c, id);
    }
  }

  lemma RegisterCore(c: Core, user: User)
    requires CoreInv(c) && c.inside == Some((Adding, user))
    ensures CoreInv(Core(c.events, c.callbacks[c.next := user], c.next + 1, Some((Registered(c.next), user))))
  {
    var d := Core(c.events, c.callbacks[c.next := user], c.next + 1, Some((Registered(c.next), user)));
    forall u | u in d.events ensures EntryHolds(d, u) {
      assert EntryHolds(c, u);
      assert CallbackHolds(c, c.events[u][LIFECYCLE]);
    }
    forall id | id in d.callbacks ensures CallbackHolds(d, id) {
      assert id in c.callbacks ==> CallbackHolds(c, id);
    }
  }

  lemma EnterCore(c: Core, id: Callback, user: User)
    requires CoreInv(c) && c.inside == Some((Registered(id), user))
    ensures CoreInv(c.(inside := Some((Entered(id), user)),
                       events := if user in c.events then c.events else c.events[user := map[]]))
  {
    var d := c.(inside := Some((Entered(id), user)),
                events := if user in c.events then c.events else c.events[user := map[]]);
    forall u | u in d.events ensures EntryHolds(d, u) {
      assert u in c.events ==> EntryHolds(c, u);
    }
    forall x | x in d.callbacks ensures CallbackHolds(d, x) {
      assert CallbackHolds(c, x);
    }
  }

  lemma StoreFirstCore(c: Core, id: Callback, user: User)
    requires CoreInv(c) && c.inside == Some((Entered(id), user)) && LIFECYCLE !in c.events[user]
    ensures CoreInv(c.(inside := Some((Stored, user)), events := c.events[user := WithLifecycle(c.events[user], id)]))
  {
    var d := c.(inside := Some((Stored, user)), events := c.events[user := WithLifecycle(c.events[user], id)]);
    assert EntryHolds(c, user);
    forall u | u in d.events ensures EntryHolds(d, u) {
      assert EntryHolds(c, u);
    }
    forall x | x in d.callbacks ensures CallbackHolds(d, x) {
      assert CallbackHolds(c, x);
    }
  }

  /** A second event is not stored, and going away it deregisters its callback. */
  lemma StoreSecondCore(c: Core, id: Callback, user: User)
    requires CoreInv(c) && c.inside == Some((Entered(id), user)) && LIFECYCLE in c.events[user]
    ensures CoreInv(c.(inside := Some((Stored, user)), callbacks := c.callbacks - {id}))
  {
    var d := c.(inside := Some((Stored, user)), callbacks := c.callbacks - {id});
    assert EntryHolds(c, user);
    forall u | u in d.events ensures EntryHolds(d, u) {
      assert EntryHolds(c, u);
    }
    forall x | x in d.callbacks ensures CallbackHolds(d, x) {
      assert CallbackHolds(c, x);
    }
  }

  lemma UnlockCore(c: Core, pc: Pc, user: User)
    requires CoreInv(c) && c.inside == Some((pc, user)) && (pc.Stored? || pc.Pruned?)
    ensures CoreInv(c.(inside := None))
  {
    forall u | u in c.events ensures EntryHolds(c.(inside := None), u) {
      assert EntryHolds(c, u);
    }
    forall id | id in c.callbacks ensures CallbackHolds(c.(inside := None), id) {
      assert CallbackHolds(c, id);
    }
  }

  lemma DropCore(c: Core, user: User)
    requires CoreInv(c) && c.inside == Some((Removing, user))
    ensures user in c.events ==> LIFECYCLE in c.events[user]
    ensures CoreInv(
      if user !in c.events then c.(inside := Some((Pruned, user)))
      else Core(c.events[user := c.events[user] - {LIFECYCLE}], c.callbacks - {c.events[user][LIFECYCLE]},
                c.next, Some((Dropped, user))))
  {
    assert user in c.events ==> EntryHolds(c, user);
    var d := if user !in c.events then c.(inside := Some((Pruned, user)))
             else Core(c.events[user := c.events[user] - {LIFECYCLE}], c.callbacks - {c.events[user][LIFECYCLE]},
                       c.next, Some((Dropped, user)));
    forall u | u in d.events ensures EntryHolds(d, u) {
      assert EntryHolds(c, u);
    }
    forall id | id in d.callbacks ensures CallbackHolds(d, id) {
      assert CallbackHolds(c, id);
    }
  }

  lemma PruneCore(c: Core, user: User)
    requires CoreInv(c) && c.inside == Some((Dropped, user))
    ensures CoreInv(c.(inside := Some((Pruned, user)), events := c.events - {user}))
  {
    var d := c.(inside := Some((Pruned, user)), events := c.events - {user});
    forall u | u in d.events ensures EntryHolds(d, u) {
      assert EntryHolds(c, u);
    }
    forall id | id in d.callbacks ensures CallbackHolds(d, id) {
      assert CallbackHolds(c, id);
    }
  }

  lemma CoreStoring(st: System, s: Socket)
    requires MutexInv(st) && CoreInv(CoreOf(st)) && Enabled(st, Store(s)) && Safe(st, Store(s))
    ensures CoreInv(CoreOf(Next(st, Store(s))))
  {
    var c, user, id := CoreOf(st), st.owner[s], st.pc[s].id;
    if LIFECYCLE in st.events[user] {
      StoreSecondCore(c, id, user);
    } else {
      StoreFirstCore(c, id, user);
    }
  }

  lemma CoreInside(st: System, step: Step)
    requires MutexInv(st) && CoreInv(CoreOf(st)) && Enabled(st, step) && Safe(st, step) && !Outside(step)
    ensures CoreInv(CoreOf(Next(st, step)))
  {
    var c, s := CoreOf(st), step.s;
    var user := st.owner[s];
    match step
    case Lock(_) => LockCore(c, CoreOf(Next(st, step)).inside.value.0, user);
    case Register(_) => RegisterCore(c, user);
    case Enter(_) => EnterCore(c, st.pc[s].id, user);
    case Store(_) => CoreStoring(st, s);
    case Unlock(_) => UnlockCore(c, st.pc[s], user);
    case Drop(_) => DropCore(c, user);
    case Prune(_) => PruneCore(c, user);
  }

  /** Leaving a user's bucket is the only way to empty it, and storing the only way to have an event. */
  lemma NoLeakKept(st: System, step: Step, user: User)
    requires BucketsHold(st) && MutexInv(st) && CoreInv(CoreOf(st)) && NoLeak(st, user)
    requires Enabled(st, step) && Safe(st, step)
    ensures BucketsHold(Next(st, step)) && NoLeak(Next(st, step), user)
  {
    BucketsKept(st, step);
    var next := Next(st, step);
    if step.Store? && st.owner[step.s] == user {
      assert BucketHolds(next, user);
      assert step.s in Bucket(next.buckets, user);
    } else if user in next.events && LIFECYCLE in next.events[user] && Bucket(next.buckets, user) == [] {
      if step.Leave? && st.owner[step.s] == user {
        assert next.pc[step.s].Leaving?;
      } else {
        StoredBefore(st, step, user);
        var s :| s in st.owner && st.owner[s] == user && Coming(st.pc[s]);
        StillComing(st, step, s);
      }
    }
  }

  lemma StoredBefore(st: System, step: Step, user: User)
    requires Enabled(st, step) && Safe(st, step)
    requires !(step.Store? && st.owner[step.s] == user) && !(step.Leave? && st.owner[step.s] == user)
    requires var next := Next(st, step);
             user in next.events && LIFECYCLE in next.events[user] && Bucket(next.buckets, user) == []
    ensures user in st.events && LIFECYCLE in st.events[user] && Bucket(st.buckets, user) == []
  {
  }

  lemma OthersStay(st: System, step: Step, s: Socket)
    requires Enabled(st, step) && Safe(st, step) && s != step.s && s in st.owner && s in st.pc
    ensures var next := Next(st, step);
            s in next.owner && s in next.pc && next.owner[s] == st.owner[s] && next.pc[s] == st.pc[s]
  {
  }

  lemma StillComingSelf(st: System, step: Step)
    requires Enabled(st, step) && Safe(st, step)
    requires step.s in st.owner && step.s in st.pc && Coming(st.pc[step.s])
    requires var next, user := Next(st, step), st.owner[step.s];
             user in next.events && LIFECYCLE in next.events[user] && Bucket(next.buckets, user) == []
    ensures var next, s := Next(st, step), step.s;
            s in next.owner && s in next.pc && next.owner[s] == st.owner[s] && Coming(next.pc[s])
  {
    assert step.Measure? || step.Lock? || step.Drop?;
  }

  lemma StillComing(st: System, step: Step, s: Socket)
    requires Enabled(st, step) && Safe(st, step)
    requires s in st.owner && s in st.pc && Coming(st.pc[s])
    requires var next, user := Next(st, step), st.owner[s];
             user in next.events && LIFECYCLE in next.events[user] && Bucket(next.buckets, user) == []
    ensures var next := Next(st, step);
            s in next.owner && s in next.pc && next.owner[s] == st.owner[s] && Coming(next.pc[s])
  {
    if s == step.s {
      StillComingSelf(st, step);
    } else {
      OthersStay(st, step, s);
    }
  }

  lemma InitialHolds()
    ensures Inv(INITIAL)
  {
  }

  /** Every step, whatever the interleaving, is safe and keeps the invariant. */
  lemma Keeps(st: System, step: Step)
    requires Inv(st) && Enabled(st, step)
    ensures Safe(st, step) && Inv(Next(st, step))
  {
    AlwaysSafe(st, step);
    BucketsKept(st, step);
    if Outside(step) {
      MutexOutside(st, step);
    } else {
      MutexInside(st, step);
      CoreInside(st, step);
    }
    forall u ensures NoLeak(Next(st, step), u) {
      NoLeakKept(st, step, u);
    }
  }
}
