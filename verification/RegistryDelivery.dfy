/** Delivery with interleaved handlers: libvirt's events fire between their steps, and each reaches the
    sockets of its user once for every callback that libvirt holds at that moment. */
module RegistryDelivery {
  import opened Options
  import opened Registry
  import opened RegistryInterleaving
  import opened RegistryRisk
  import Schedules = RegistrySchedules
  import Runs = RegistryRuns
  import Atomic = RegistryAtomic

  datatype Move = Act(step: Step) | Fire(user: User, kind: nat, message: Message)

  /** The interleaved handlers, and the writes handed to sockets. */
  datatype World = World(st: System, writes: seq<Write>)

  const START: World := World(INITIAL, [])

  /** The callbacks libvirt holds for a user. */
  function Watchers(st: System, user: User): set<Callback> {
    set id | id in st.callbacks && st.callbacks[id] == user
  }

  predicate Can(w: World, move: Move) {
    match move
    case Act(step) => Enabled(w.st, step) && Safe(w.st, step)
    case Fire(_, kind, _) => kind < 32
  }

  /** One event runs every callback of its user. */
  function Fired(w: World, user: User, kind: nat, message: Message): World
    requires kind < 32
  {
    var after :=
      Runs.NotifiedTimes(Atomic.Common(w.st, w.writes), user, kind, message, |Watchers(w.st, user)|);
    World(w.st.(buckets := after.buckets), after.writes)
  }

  function Made(w: World, move: Move): World
    requires Can(w, move)
  {
    match move
    case Act(step) => w.(st := Next(w.st, step))
    case Fire(user, kind, message) => Fired(w, user, kind, message)
  }

  predicate Possible(moves: seq<Move>)
    decreases |moves|, 0
  {
    moves == [] || (Possible(moves[..|moves| - 1]) && Can(After(moves[..|moves| - 1]), moves[|moves| - 1]))
  }

  function After(moves: seq<Move>): World
    requires Possible(moves)
    decreases |moves|, 1
  {
    if moves == [] then START else Made(After(moves[..|moves| - 1]), moves[|moves| - 1])
  }

  // ----- What an event does

  /** A second callback is registered and not yet stored or turned away. */
  predicate BeingAdded(st: System, user: User) {
    && Inside(st).Some? && Inside(st).value.1 == user
    && (Inside(st).value.0.Registered? || Inside(st).value.0.Entered?)
  }

  /** How many callbacks of a user libvirt holds: the stored one, and the one being added. */
  function Count(st: System, user: User): nat {
    (if Schedules.HasEvent(st, user) then 1 else 0) + (if BeingAdded(st, user) then 1 else 0)
  }

  function StoredOne(st: System, user: User): set<Callback> {
    if Schedules.HasEvent(st, user) then {st.events[user][LIFECYCLE]} else {}
  }

  function AddedOne(st: System, user: User): set<Callback> {
    if BeingAdded(st, user) then {Inside(st).value.0.id} else {}
  }

  lemma WatcherIs(st: System, user: User, id: Callback)
    requires Inv(st)
    ensures id in Watchers(st, user) <==> id in StoredOne(st, user) + AddedOne(st, user)
  {
    var c := CoreOf(st);
    Schedules.EntryOf(c, user);
    assert id in c.callbacks ==> CallbackHolds(c, id);
  }

  lemma StoredIsNotAdded(st: System, user: User)
    requires Inv(st)
    ensures StoredOne(st, user) !! AddedOne(st, user)
  {
    Schedules.EntryOf(CoreOf(st), user);
  }

  lemma WatchersAre(st: System, user: User)
    requires Inv(st)
    ensures |Watchers(st, user)| == Count(st, user)
  {
    forall id ensures id in Watchers(st, user) <==> id in StoredOne(st, user) + AddedOne(st, user) {
      WatcherIs(st, user, id);
    }
    StoredIsNotAdded(st, user);
    SizeOfBoth(Watchers(st, user), StoredOne(st, user), AddedOne(st, user));
  }

  lemma SizeOfBoth(all: set<Callback>, a: set<Callback>, b: set<Callback>)
    requires a !! b && forall x :: x in all <==> x in a + b
    ensures |all| == |a| + |b|
  {
    assert all == a + b;
  }

  function Copies(message: Message, n: nat): seq<Message> {
    if n == 0 then [] else Copies(message, n - 1) + [message]
  }

  lemma CopiesGrow(before: seq<Message>, once: seq<Message>, after: seq<Message>, message: Message, n: nat, hit: bool)
    requires n > 0
    requires once == before + Copies(message, if hit then n - 1 else 0)
    requires after == once + if hit then [message] else []
    ensures after == before + Copies(message, if hit then n else 0)
  {
  }

  lemma {:induction false} NotifiedManyTimes(
    st: State, user: User, kind: nat, message: Message, n: nat, s: Socket)
    requires kind < 32 && Distinct(Bucket(st.buckets, user))
    ensures var after := Runs.NotifiedTimes(st, user, kind, message, n);
            && (forall u :: Bucket(after.buckets, u) == Bucket(st.buckets, u))
            && Runs.Received(after.writes, s)
               == Runs.Received(st.writes, s)
                  + Copies(message, if InMask(kind) && s in Bucket(st.buckets, user) then n else 0)
  {
    if n == 0 {
      assert Runs.NotifiedTimes(st, user, kind, message, 0) == st;
    } else {
      NotifiedManyTimes(st, user, kind, message, n - 1, s);
      var before := Runs.NotifiedTimes(st, user, kind, message, n - 1);
      var after := Notified(before, user, kind, message);
      assert Runs.NotifiedTimes(st, user, kind, message, n) == after;
      NotifiedOnce(before, user, kind, message, s);
      CopiesGrow(Runs.Received(st.writes, s), Runs.Received(before.writes, s), Runs.Received(after.writes, s),
                 message, n, InMask(kind) && s in Bucket(st.buckets, user));
    }
  }

  lemma NotifiedOnce(st: State, user: User, kind: nat, message: Message, s: Socket)
    requires kind < 32 && Distinct(Bucket(st.buckets, user))
    ensures var after := Notified(st, user, kind, message);
            && (forall u :: Bucket(after.buckets, u) == Bucket(st.buckets, u))
            && Runs.Received(after.writes, s)
               == Runs.Received(st.writes, s)
                  + if InMask(kind) && s in Bucket(st.buckets, user) then [message] else []
  {
    var bucket := Bucket(st.buckets, user);
    Runs.ReceivedConcat(st.writes, WritesTo(bucket, message), s);
    Runs.BroadcastReaches(bucket, message, s);
  }

  lemma FiredReaches(w: World, user: User, kind: nat, message: Message, s: Socket)
    requires Inv(w.st) && kind < 32
    ensures var after := Fired(w, user, kind, message);
            && (forall u :: Bucket(after.st.buckets, u) == Bucket(w.st.buckets, u))
            && Runs.Received(after.writes, s)
               == Runs.Received(w.writes, s)
                  + Copies(message, if InMask(kind) && s in Bucket(w.st.buckets, user) then Count(w.st, user) else 0)
  {
    assert BucketHolds(w.st, user);
    WatchersAre(w.st, user);
    NotifiedManyTimes(Atomic.Common(w.st, w.writes), user, kind, message, |Watchers(w.st, user)|, s);
  }

  /** A missing bucket and an empty one are the same to the invariant. */
  lemma SameBucketsHold(st: System, next: System)
    requires Inv(st) && next == st.(buckets := next.buckets)
    requires forall u :: Bucket(next.buckets, u) == Bucket(st.buckets, u)
    ensures Inv(next)
  {
    BucketsSame(st, next);
    forall u ensures NoLeak(next, u) {
      assert NoLeak(st, u);
    }
  }

  lemma MadeHolds(w: World, move: Move)
    requires Inv(w.st) && Can(w, move)
    ensures Inv(Made(w, move).st)
  {
    match move
    case Act(step) => Keeps(w.st, step);
    case Fire(user, kind, message) =>
      FiredReaches(w, user, kind, message, 0);
      SameBucketsHold(w.st, Fired(w, user, kind, message).st);
  }

  lemma {:induction false} WorldsHold(moves: seq<Move>)
    requires Possible(moves)
    ensures Inv(After(moves).st)
    decreases |moves|
  {
    if moves == [] {
      InitialHolds();
    } else {
      WorldsHold(moves[..|moves| - 1]);
      MadeHolds(After(moves[..|moves| - 1]), moves[|moves| - 1]);
    }
  }

  /** Upgraded for the user, and not yet out of the bucket. */
  predicate InBucketOf(st: System, s: Socket, user: User) {
    s in st.owner && s in st.pc && st.owner[s] == user && InBucket(st.pc[s])
  }

  /** After any run, an event reaches exactly the sockets in its user's bucket, once for the stored callback
      and once for one that is being added: it is missed exactly if there is neither, and sent twice exactly
      if there are both. */
  lemma Arrives(moves: seq<Move>, event: Move, s: Socket)
    requires event.Fire? && Possible(moves + [event])
    ensures Possible(moves) && event.kind < 32
    ensures var w := After(moves);
            var reached := InMask(event.kind) && InBucketOf(w.st, s, event.user);
            Runs.Received(After(moves + [event]).writes, s)
            == Runs.Received(w.writes, s) + Copies(event.message, if reached then Count(w.st, event.user) else 0)
  {
    assert (moves + [event])[..|moves|] == moves;
    WorldsHold(moves);
    FiredReaches(After(moves), event.user, event.kind, event.message, s);
    assert BucketHolds(After(moves).st, event.user);
  }

  // ----- A live socket misses nothing

  lemma {:induction false} PrefixPossible(moves: seq<Move>, n: nat)
    requires Possible(moves) && n <= |moves|
    ensures Possible(moves[..n])
    decreases |moves|
  {
    if n < |moves| {
      PrefixPossible(moves[..|moves| - 1], n);
      assert moves[..|moves| - 1][..n] == moves[..n];
    } else {
      assert moves[..n] == moves;
    }
  }

  lemma GuardThroughFire(w: World, s: Socket, user: User, event: Move)
    requires event.Fire? && Can(w, event) && Guarded(w.st, s, user)
    ensures Guarded(Made(w, event).st, s, user)
  {
    var st, next := w.st, Made(w, event).st;
    forall c ensures TakingAt(next, c, user) ==> TakingAt(st, c, user) {
    }
  }

  lemma {:induction false} GuardedSince(moves: seq<Move>, n: nat, s: Socket, user: User)
    requires Possible(moves) && n < |moves| && moves[n] == Act(Accept(s, user))
    requires Possible(moves[..n]) && !AtRisk(After(moves[..n]).st, user)
    ensures Guarded(After(moves).st, s, user)
    decreases |moves|
  {
    var init, last := moves[..|moves| - 1], moves[|moves| - 1];
    if n == |moves| - 1 {
      GuardStarts(After(init).st, s, user);
    } else {
      assert init[..n] == moves[..n];
      GuardedSince(init, n, s, user);
      WorldsHold(init);
      match last
      case Act(step) => GuardKept(After(init).st, step, s, user);
      case Fire(_, _, _) => GuardThroughFire(After(init), s, user, last);
    }
  }

  /** A live socket whose user was not at risk when it was upgraded is sent every target event of its user:
      once, or twice exactly if a second callback is just being added. */
  lemma LiveMissesNone(moves: seq<Move>, n: nat, s: Socket, user: User, event: Move)
    requires event.Fire? && event.user == user && Possible(moves + [event])
    requires n < |moves| && moves[n] == Act(Accept(s, user))
    requires Possible(moves) && Possible(moves[..n]) && !AtRisk(After(moves[..n]).st, user)
    requires At(After(moves).st, s, Live) && event.kind < 32 && InMask(event.kind)
    ensures var w := After(moves);
            Runs.Received(After(moves + [event]).writes, s)
            == Runs.Received(w.writes, s) + [event.message]
               + if Schedules.HasEvent(w.st, user) && BeingAdded(w.st, user) then [event.message] else []
  {
    GuardedSince(moves, n, s, user);
    Arrives(moves, event, s);
    assert Copies(event.message, 1) == [event.message];
    assert Copies(event.message, 2) == [event.message] + [event.message];
  }

  // ----- Events can be sent twice

  function Acts(trace: seq<Step>): (moves: seq<Move>)
    ensures |moves| == |trace|
  {
    seq(|trace|, i requires 0 <= i < |trace| => Act(trace[i]))
  }

  lemma ActsOneMore(trace: seq<Step>)
    requires trace != []
    ensures Acts(trace) == Acts(trace[..|trace| - 1]) + [Act(trace[|trace| - 1])]
  {
  }

  lemma OneMore(moves: seq<Move>, move: Move)
    requires Possible(moves) && Can(After(moves), move)
    ensures Possible(moves + [move]) && After(moves + [move]) == Made(After(moves), move)
  {
    assert (moves + [move])[..|moves + [move]| - 1] == moves;
  }

  lemma {:induction false} ActsRun(trace: seq<Step>)
    requires Schedules.Possible(trace)
    ensures Possible(Acts(trace)) && After(Acts(trace)) == World(Schedules.After(trace), [])
    decreases |trace|
  {
    if trace != [] {
      var init, last := trace[..|trace| - 1], trace[|trace| - 1];
      ActsRun(init);
      ActsOneMore(trace);
      OneMore(Acts(init), Act(last));
    }
  }

  /** Two sockets of a user that both check before either has added its event. */
  lemma BothChecked(user: User, c: Socket, s: Socket) returns (steps: seq<Step>, end: System)
    requires c != s
    ensures Schedules.Leads(INITIAL, steps, end) && Inv(end) && end.mutex == None
    ensures At(end, s, Checked) && At(end, c, Checked) && end.owner[s] == user == end.owner[c]
  {
    InitialHolds();
    Keeps(INITIAL, Accept(s, user));
    var one := Next(INITIAL, Accept(s, user));
    Keeps(one, Accept(c, user));
    var both := Schedules.Two(INITIAL, Accept(s, user), Accept(c, user));
    Keeps(both, Check(s));
    Keeps(Next(both, Check(s)), Check(c));
    end := Schedules.Two(both, Check(s), Check(c));
    steps := Schedules.Chained(INITIAL, [Accept(s, user), Accept(c, user)], both, [Check(s), Check(c)], end);
  }

  /** The first adds its event, and the second registers while the first is live. */
  lemma SecondRegisters(st: System, c: Socket, s: Socket, user: User) returns (steps: seq<Step>, end: System)
    requires Inv(st) && st.mutex == None && c != s
    requires At(st, s, Checked) && At(st, c, Checked) && st.owner[s] == user == st.owner[c]
    ensures Schedules.Leads(st, steps, end)
    ensures At(end, s, Live) && end.owner[s] == user && Schedules.HasEvent(end, user) && BeingAdded(end, user)
  {
    var live;
    steps, live := Locked(st, s);
    Schedules.EntryOf(CoreOf(live), user);
    end := RegistersBeside(live, c, s, user);
    steps := Schedules.Chained(st, steps, live, [Lock(c), Register(c)], end);
  }

  lemma RegistersBeside(st: System, c: Socket, s: Socket, user: User) returns (end: System)
    requires st.mutex == None && c != s && At(st, s, Live) && At(st, c, Checked) && st.owner[c] == user
    ensures Schedules.Leads(st, [Lock(c), Register(c)], end)
    ensures end.owner == st.owner && end.events == st.events && At(end, s, Live) && BeingAdded(end, user)
  {
    end := Schedules.Two(st, Lock(c), Register(c));
  }

  /** For any user and any two sockets there is a run after which a target event is sent twice to one that is
      live: both handshakes have passed the unlocked check, and the second has registered. */
  lemma TwiceArises(user: User, c: Socket, s: Socket) returns (moves: seq<Move>)
    requires c != s
    ensures Possible(moves) && At(After(moves).st, s, Live) && InBucketOf(After(moves).st, s, user)
    ensures Count(After(moves).st, user) == 2
  {
    var first, mid := BothChecked(user, c, s);
    var second, end := SecondRegisters(mid, c, s, user);
    var trace := Schedules.Chained(INITIAL, first, mid, second, end);
    assert [] + trace == trace;
    Schedules.LeadsTrace([], trace, end);
    ActsRun(trace);
    moves := Acts(trace);
  }
}
