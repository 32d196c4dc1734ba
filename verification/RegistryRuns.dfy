/** Whole runs of the websocket handlers, each handler one step, in any order the sockets allow. */
module RegistryRuns {
  import opened Registry

  /** Where a socket is in its life: upgraded, past the handshake, cleanly closed, or ended by an error. */
  datatype Phase = Accepted | Live | Closed | Failed

  datatype Step =
    | Accept(socket: Socket, user: User)
    | Handshake(socket: Socket)
    | Close(socket: Socket)
    | Fail(socket: Socket)
    | Fire(user: User, kind: nat, message: Message)

  /** A run so far. It has crashed if a list was asked to erase what it does not hold. */
  datatype Run = Running(st: State, owner: map<Socket, User>, phase: map<Socket, Phase>) | Crashed

  const INITIAL: Run := Running(State(map[], map[], map[], 0, []), map[], map[])

  predicate Enabled(run: Run, step: Step)
    requires run.Running?
  {
    match step
    case Accept(s, _) => s !in run.owner && s !in run.phase
    case Handshake(s) => s in run.owner && s in run.phase && run.phase[s] == Accepted
    case Close(s) => s in run.owner && s in run.phase && run.phase[s] == Live
    case Fail(s) => s in run.owner && s in run.phase && (run.phase[s] == Accepted || run.phase[s] == Live)
    case Fire(_, kind, _) => kind < 32
  }

  /** The callbacks libvirt runs for an event of a user. */
  function CallbacksOf(st: State, user: User): set<Callback> {
    set id | id in st.callbacks && st.callbacks[id] == user
  }

  function NotifiedTimes(st: State, user: User, kind: nat, message: Message, n: nat): State
    requires kind < 32
  {
    if n == 0 then st else Notified(NotifiedTimes(st, user, kind, message, n - 1), user, kind, message)
  }

  function Next(run: Run, step: Step): Run
    requires run.Running? && Enabled(run, step)
  {
    match step
    case Accept(s, user) =>
      Running(Joined(run.st, user, s), run.owner[s := user], run.phase[s := Accepted])
    case Handshake(s) =>
      Running(Handshaken(run.st, run.owner[s]), run.owner, run.phase[s := Live])
    case Close(s) =>
      var user := run.owner[s];
      if s in Bucket(run.st.buckets, user) && Removable(run.st, user)
      then Running(ClosedBy(run.st, user, s), run.owner, run.phase[s := Closed])
      else Crashed
    case Fail(s) => run.(phase := run.phase[s := Failed])
    case Fire(user, kind, message) =>
      run.(st := NotifiedTimes(run.st, user, kind, message, |CallbacksOf(run.st, user)|))
  }

  predicate Possible(trace: seq<Step>)
    decreases |trace|, 0
  {
    trace == []
    || (var init := trace[..|trace| - 1];
        Possible(init) && After(init).Running? && Enabled(After(init), trace[|trace| - 1]))
  }

  function After(trace: seq<Step>): Run
    requires Possible(trace)
    decreases |trace|, 1
  {
    if trace == [] then INITIAL
    else Next(After(trace[..|trace| - 1]), trace[|trace| - 1])
  }

  // ----- The invariant

  /** A bucket holds exactly its user's sockets that have not cleanly closed, each once. */
  ghost predicate BucketHolds(run: Run, user: User)
    requires run.Running? && run.owner.Keys == run.phase.Keys
  {
    var bucket := Bucket(run.st.buckets, user);
    && Distinct(bucket)
    && forall s :: s in bucket <==> s in run.owner && run.owner[s] == user && run.phase[s] != Closed
  }

  ghost predicate BucketsHold(run: Run)
    requires run.Running?
  {
    run.owner.Keys == run.phase.Keys && forall u :: BucketHolds(run, u)
  }

  /** The callbacks libvirt holds are exactly the stored events, one for each user that has any. */
  predicate EventsHold(st: State) {
    && (forall u :: u in st.events ==>
          && st.events[u].Keys == {LIFECYCLE}
          && st.events[u][LIFECYCLE] in st.callbacks
          && st.callbacks[st.events[u][LIFECYCLE]] == u)
    && (forall id :: id in st.callbacks ==>
          && id < st.next
          && st.callbacks[id] in st.events
          && st.events[st.callbacks[id]] == map[LIFECYCLE := id])
  }

  ghost predicate Inv(run: Run) {
    && run.Running?
    && BucketsHold(run)
    && EventsHold(run.st)
    && (forall u :: u in run.st.events ==> Bucket(run.st.buckets, u) != [])
    && (forall s :: s in run.phase && run.phase[s] == Live ==> run.owner[s] in run.st.events)
  }

  lemma AddedIs(st: State, user: User)
    requires user !in st.events
    ensures EventsAdded(st, user)
         == st.(events := st.events[user := map[LIFECYCLE := st.next]],
                callbacks := st.callbacks[st.next := user],
                next := st.next + 1)
  {
  }

  lemma AddedHolds(st: State, user: User)
    requires EventsHold(st) && user !in st.events
    ensures EventsHold(EventsAdded(st, user))
    ensures EventsAdded(st, user).events.Keys == st.events.Keys + {user}
  {
    AddedIs(st, user);
  }

  lemma RemovedHolds(st: State, user: User)
    requires EventsHold(st)
    ensures Removable(st, user) && EventsHold(EventsRemoved(st, user))
    ensures EventsRemoved(st, user).events.Keys == st.events.Keys - {user}
    ensures EventsRemoved(st, user).buckets == st.buckets && EventsRemoved(st, user).writes == st.writes
  {
    if user in st.events {
      assert st.events[user] - {LIFECYCLE} == map[];
    }
  }

  /** A user's callbacks are one exactly when an event is stored for the user. */
  lemma OneCallback(st: State, user: User)
    requires EventsHold(st)
    ensures |CallbacksOf(st, user)| == if user in st.events then 1 else 0
  {
    if user in st.events {
      assert CallbacksOf(st, user) == {st.events[user][LIFECYCLE]};
    } else {
      assert CallbacksOf(st, user) == {};
    }
  }

  lemma FireIs(st: State, user: User, kind: nat, message: Message)
    requires EventsHold(st) && kind < 32
    ensures NotifiedTimes(st, user, kind, message, |CallbacksOf(st, user)|)
         == if user in st.events then Notified(st, user, kind, message) else st
  {
    OneCallback(st, user);
    assert NotifiedTimes(st, user, kind, message, 0) == st;
  }

  lemma LeftHolds(run: Run, s: Socket)
    requires run.Running? && BucketsHold(run) && Enabled(run, Close(s))
    ensures var user := run.owner[s];
            && s in Bucket(run.st.buckets, user)
            && BucketsHold(Running(Left(run.st, user, s), run.owner, run.phase[s := Closed]))
  {
    var user := run.owner[s];
    assert BucketHolds(run, user);
    EraseOnce(Bucket(run.st.buckets, user), s);
    var next := Running(Left(run.st, user, s), run.owner, run.phase[s := Closed]);
    forall u ensures BucketHolds(next, u) {
      assert BucketHolds(run, u);
    }
  }

  lemma SameBuckets(run: Run, next: Run)
    requires run.Running? && next.Running? && BucketsHold(run)
    requires next.owner == run.owner && next.phase.Keys == run.phase.Keys
    requires forall s :: s in run.phase ==> (next.phase[s] == Closed <==> run.phase[s] == Closed)
    requires forall u :: Bucket(next.st.buckets, u) == Bucket(run.st.buckets, u)
    ensures BucketsHold(next)
  {
    forall u ensures BucketHolds(next, u) {
      assert BucketHolds(run, u);
    }
  }

  lemma CloseKeeps(run: Run, s: Socket)
    requires Inv(run) && Enabled(run, Close(s))
    ensures Inv(Next(run, Close(s)))
  {
    var user := run.owner[s];
    var left := Left(run.st, user, s);
    LeftHolds(run, s);
    RemovedHolds(left, user);
    var next := Next(run, Close(s));
    SameBuckets(Running(left, run.owner, run.phase[s := Closed]), next);
    forall x | x in next.phase && next.phase[x] == Live ensures next.owner[x] in next.st.events {
      assert BucketHolds(next, next.owner[x]);
    }
  }

  lemma AcceptKeeps(run: Run, s: Socket, user: User)
    requires Inv(run) && Enabled(run, Accept(s, user))
    ensures Inv(Next(run, Accept(s, user)))
  {
    var next := Next(run, Accept(s, user));
    forall u ensures BucketHolds(next, u) {
      assert BucketHolds(run, u);
    }
  }

  lemma HandshakeKeeps(run: Run, s: Socket)
    requires Inv(run) && Enabled(run, Handshake(s))
    ensures Inv(Next(run, Handshake(s)))
  {
    var user := run.owner[s];
    if user !in run.st.events {
      AddedHolds(run.st, user);
    }
    assert BucketHolds(run, user);
    SameBuckets(run, Next(run, Handshake(s)));
  }

  lemma Keeps(run: Run, step: Step)
    requires Inv(run) && Enabled(run, step)
    ensures Inv(Next(run, step))
  {
    match step
    case Accept(s, user) => AcceptKeeps(run, s, user);
    case Handshake(s) => HandshakeKeeps(run, s);
    case Close(s) => CloseKeeps(run, s);
    case Fail(s) => SameBuckets(run, Next(run, step));
    case Fire(user, kind, message) =>
      FireIs(run.st, user, kind, message);
      SameBuckets(run, Next(run, step));
  }

  /** No run crashes, and every state a run reaches satisfies the invariant. */
  lemma {:induction false} RunsHold(trace: seq<Step>)
    requires Possible(trace)
    ensures Inv(After(trace))
    decreases |trace|
  {
    if trace != [] {
      RunsHold(trace[..|trace| - 1]);
      Keeps(After(trace[..|trace| - 1]), trace[|trace| - 1]);
    }
  }

  // ----- What reaches a socket, told from the trace alone

  ghost predicate AcceptedIn(trace: seq<Step>, s: Socket, user: User) {
    Accept(s, user) in trace
  }

  /** Upgraded for the user and not cleanly closed since. */
  ghost predicate Present(trace: seq<Step>, s: Socket, user: User) {
    AcceptedIn(trace, s, user) && Close(s) !in trace
  }

  ghost predicate Populated(trace: seq<Step>, user: User) {
    exists s :: Present(trace, s, user)
  }

  /** Some socket of the user passed its handshake after which the user was never without a socket. */
  ghost predicate Watched(trace: seq<Step>, user: User) {
    exists i :: 0 <= i < |trace| && WatchedSince(trace, user, i)
  }

  ghost predicate WatchedSince(trace: seq<Step>, user: User, i: nat)
    requires i < |trace|
  {
    && trace[i].Handshake?
    && AcceptedIn(trace[..i], trace[i].socket, user)
    && forall k :: i < k <= |trace| ==> Populated(trace[..k], user)
  }

  /** The messages a socket of the user should be sent: one for each target event of the user that
      fires while the socket is present and the user is watched. */
  ghost function Expected(trace: seq<Step>, s: Socket): seq<Message> {
    if trace == [] then []
    else
      var init, last := trace[..|trace| - 1], trace[|trace| - 1];
      Expected(init, s)
      + if && last.Fire? && last.kind < 32 && InMask(last.kind)
           && Present(init, s, last.user) && Watched(init, last.user)
        then [last.message] else []
  }

  /** The messages of the writes handed to a socket. */
  function Received(writes: seq<Write>, s: Socket): seq<Message> {
    if writes == [] then []
    else
      var last := writes[|writes| - 1];
      Received(writes[..|writes| - 1], s) + if last.socket == s then [last.message] else []
  }

  lemma {:induction false} ReceivedConcat(a: seq<Write>, b: seq<Write>, s: Socket)
    ensures Received(a + b, s) == Received(a, s) + Received(b, s)
  {
    if b == [] {
      assert a + b == a;
    } else {
      assert (a + b)[..|a + b| - 1] == a + b[..|b| - 1];
      ReceivedConcat(a, b[..|b| - 1], s);
    }
  }

  /** A broadcast reaches every socket of the bucket once and no other. */
  lemma {:induction false} BroadcastReaches(sockets: seq<Socket>, message: Message, s: Socket)
    requires Distinct(sockets)
    ensures Received(WritesTo(sockets, message), s) == if s in sockets then [message] else []
  {
    if sockets != [] {
      var init, last := sockets[..|sockets| - 1], sockets[|sockets| - 1];
      assert WritesTo(sockets, message)[..|sockets| - 1] == WritesTo(init, message);
      assert sockets == init + [last];
      BroadcastReaches(init, message, s);
    }
  }

  lemma SocketsAfter(run: Run, step: Step, s: Socket, user: User)
    requires Inv(run) && Enabled(run, step)
    ensures var next := Next(run, step);
            && next.Running? && next.owner.Keys == next.phase.Keys
            && (s in next.owner && next.owner[s] == user
                <==> (s in run.owner && run.owner[s] == user) || step == Accept(s, user))
            && (s in next.phase && next.phase[s] == Closed
                <==> (s in run.phase && run.phase[s] == Closed) || step == Close(s))
  {
    Keeps(run, step);
  }

  /** The trace and the state agree on who was upgraded and who has closed. */
  lemma {:induction false} TracksSockets(trace: seq<Step>, s: Socket, user: User)
    requires Possible(trace)
    ensures var run := After(trace);
            && run.Running? && run.owner.Keys == run.phase.Keys
            && (AcceptedIn(trace, s, user) <==> s in run.owner && run.owner[s] == user)
            && (Close(s) in trace <==> s in run.phase && run.phase[s] == Closed)
    decreases |trace|
  {
    RunsHold(trace);
    if trace != [] {
      var init, last := trace[..|trace| - 1], trace[|trace| - 1];
      RunsHold(init);
      TracksSockets(init, s, user);
      SocketsAfter(After(init), last, s, user);
      assert trace == init + [last];
    }
  }

  lemma TracksBucket(trace: seq<Step>, user: User)
    requires Possible(trace)
    ensures After(trace).Running?
    ensures forall s :: s in Bucket(After(trace).st.buckets, user) <==> Present(trace, s, user)
    ensures Bucket(After(trace).st.buckets, user) != [] <==> Populated(trace, user)
  {
    RunsHold(trace);
    var bucket := Bucket(After(trace).st.buckets, user);
    assert BucketHolds(After(trace), user);
    forall s ensures s in bucket <==> Present(trace, s, user) {
      TracksSockets(trace, s, user);
    }
    if bucket != [] {
      assert bucket[0] in bucket;
    }
  }

  lemma WatchedGrows(trace: seq<Step>, user: User)
    requires trace != []
    ensures var init, last := trace[..|trace| - 1], trace[|trace| - 1];
            Watched(trace, user)
            <==> (Populated(trace, user)
                  && (Watched(init, user) || (last.Handshake? && AcceptedIn(init, last.socket, user))))
  {
    var n := |trace| - 1;
    var init, last := trace[..n], trace[n];
    assert trace[..n + 1] == trace;
    forall k | 0 <= k <= n ensures init[..k] == trace[..k] {}
    if Watched(trace, user) {
      var i :| 0 <= i < |trace| && WatchedSince(trace, user, i);
      if i < n {
        assert WatchedSince(init, user, i);
      }
    }
    if Populated(trace, user) {
      if Watched(init, user) {
        var i :| 0 <= i < n && WatchedSince(init, user, i);
        assert WatchedSince(trace, user, i);
      } else if last.Handshake? && AcceptedIn(init, last.socket, user) {
        assert WatchedSince(trace, user, n);
      }
    }
  }

  /** A user has a stored event exactly while the trace says the user is watched. */
  lemma {:induction false} TracksEvents(trace: seq<Step>, user: User)
    requires Possible(trace)
    ensures After(trace).Running?
    ensures user in After(trace).st.events <==> Watched(trace, user)
    decreases |trace|
  {
    RunsHold(trace);
    if trace != [] {
      var init, last := trace[..|trace| - 1], trace[|trace| - 1];
      RunsHold(init);
      TracksEvents(init, user);
      WatchedGrows(trace, user);
      TracksBucket(trace, user);
      EventsAfter(After(init), last, user);
      if last.Handshake? {
        TracksSockets(init, last.socket, user);
      }
    }
  }

  lemma EventsAfter(run: Run, step: Step, user: User)
    requires Inv(run) && Enabled(run, step)
    ensures Next(run, step).Running?
    ensures user in Next(run, step).st.events
       <==> (Bucket(Next(run, step).st.buckets, user) != []
             && (user in run.st.events || (step.Handshake? && run.owner[step.socket] == user)))
  {
    Keeps(run, step);
    match step
    case Accept(s, u) =>
    case Handshake(s) => EventsAfterHandshake(run, s, user);
    case Close(s) => RemovedHolds(Left(run.st, run.owner[s], s), run.owner[s]);
    case Fail(s) =>
    case Fire(u, kind, message) => FireIs(run.st, u, kind, message);
  }

  lemma EventsAfterHandshake(run: Run, s: Socket, user: User)
    requires Inv(run) && Enabled(run, Handshake(s))
    ensures user in Next(run, Handshake(s)).st.events
       <==> Bucket(run.st.buckets, user) != [] && (user in run.st.events || run.owner[s] == user)
    ensures Next(run, Handshake(s)).st.buckets == run.st.buckets
  {
    if run.owner[s] !in run.st.events {
      AddedHolds(run.st, run.owner[s]);
    }
    assert BucketHolds(run, run.owner[s]);
  }

  /** In every run every socket is sent exactly the expected messages, in order. */
  lemma {:induction false} Delivery(trace: seq<Step>, s: Socket)
    requires Possible(trace)
    ensures After(trace).Running?
    ensures Received(After(trace).st.writes, s) == Expected(trace, s)
    decreases |trace|
  {
    RunsHold(trace);
    if trace != [] {
      var init, last := trace[..|trace| - 1], trace[|trace| - 1];
      Delivery(init, s);
      RunsHold(init);
      WritesAfter(After(init), last, s);
      if last.Fire? {
        TracksEvents(init, last.user);
        TracksBucket(init, last.user);
      }
    }
  }

  lemma WritesAfter(run: Run, step: Step, s: Socket)
    requires Inv(run) && Enabled(run, step)
    ensures Next(run, step).Running?
    ensures Received(Next(run, step).st.writes, s) == Received(run.st.writes, s)
         + if && step.Fire? && InMask(step.kind) && step.user in run.st.events
              && s in Bucket(run.st.buckets, step.user)
           then [step.message] else []
  {
    Keeps(run, step);
    match step
    case Close(c) => RemovedHolds(Left(run.st, run.owner[c], c), run.owner[c]);
    case Fire(u, kind, message) =>
      FireIs(run.st, u, kind, message);
      var bucket := Bucket(run.st.buckets, u);
      assert BucketHolds(run, u);
      ReceivedConcat(run.st.writes, WritesTo(bucket, message), s);
      BroadcastReaches(bucket, message, s);
    case _ =>
  }

  /** From its handshake to its close a socket misses no target event of its user, and no event of
      another user ever reaches it. */
  lemma NoneMissedNoneForeign(trace: seq<Step>, event: Step, s: Socket, user: User)
    requires event.Fire? && Possible(trace + [event])
    requires AcceptedIn(trace, s, user)
    ensures Possible(trace) && After(trace).Running? && s in After(trace).phase && event.kind < 32
    ensures After(trace + [event]).Running?
    ensures var before, after := Received(After(trace).st.writes, s), Received(After(trace + [event]).st.writes, s);
            && (event.user == user && After(trace).phase[s] == Live && InMask(event.kind) ==>
                  after == before + [event.message])
            && (event.user != user || !InMask(event.kind) ==> after == before)
  {
    Delivery(trace, s);
    Delivery(trace + [event], s);
    var whole := trace + [event];
    assert whole[..|whole| - 1] == trace;
    RunsHold(trace);
    TracksSockets(trace, s, user);
    TracksSockets(trace, s, event.user);
    TracksEvents(trace, user);
  }
}
