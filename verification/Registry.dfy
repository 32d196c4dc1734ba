/** The websocket pool and the libvirt event registry, and the handlers that keep them in step.
    The functions say what each operation does to the state as a whole; the classes do it in place. */
module Registry {

  type User = string
  type Socket = nat
  type Callback = nat
  type Message = string

  datatype Write = Write(socket: Socket, message: Message)

  const LIFECYCLE: int := 0
  const STARTED: nat := 2
  const STOPPED: nat := 5
  const SHUTDOWN: nat := 6

  const TARGET_LIFECYCLE_EVENTS: bv32 := (1 << STARTED) | (1 << SHUTDOWN) | (1 << STOPPED)

  /** The test the event handler makes. */
  predicate InMask(kind: nat)
    requires kind < 32
  {
    ((1 as bv32) << kind) & TARGET_LIFECYCLE_EVENTS != 0
  }

  lemma MaskSelects(kind: nat)
    requires kind < 32
    ensures InMask(kind) <==> kind == STARTED || kind == STOPPED || kind == SHUTDOWN
  {
    MaskOf(kind as bv6);
  }

  lemma MaskOf(kind: bv6)
    requires kind < 32
    ensures ((1 as bv32) << kind) & TARGET_LIFECYCLE_EVENTS != 0 <==> kind == 2 || kind == 5 || kind == 6
  {
  }

  // ----- The state and what the operations do to it

  /** The pool's buckets, the stored events by user and event id, the callbacks libvirt holds with the user
      each was registered for, the id it gives out next, and the writes handed to sockets. */
  datatype State = State(
    buckets: map<User, seq<Socket>>,
    events: map<User, map<int, Callback>>,
    callbacks: map<Callback, User>,
    next: Callback,
    writes: seq<Write>)

  function Bucket(buckets: map<User, seq<Socket>>, user: User): seq<Socket> {
    if user in buckets then buckets[user] else []
  }

  function Erase(sockets: seq<Socket>, s: Socket): seq<Socket> {
    if sockets == [] then []
    else if sockets[0] == s then sockets[1..]
    else [sockets[0]] + Erase(sockets[1..], s)
  }

  predicate Distinct(sockets: seq<Socket>) {
    forall i, j :: 0 <= i < j < |sockets| ==> sockets[i] != sockets[j]
  }

  lemma EraseOnce(sockets: seq<Socket>, s: Socket)
    requires Distinct(sockets)
    ensures Distinct(Erase(sockets, s))
    ensures forall x :: x in Erase(sockets, s) <==> x in sockets && x != s
  {
    if sockets != [] {
      assert forall x :: x in sockets <==> x == sockets[0] || x in sockets[1..];
      assert sockets[0] !in sockets[1..];
      if sockets[0] != s {
        EraseOnce(sockets[1..], s);
        var rest := Erase(sockets[1..], s);
        assert sockets[0] !in rest;
        assert forall i :: 0 <= i < |rest| ==> rest[i] in rest;
      }
    }
  }

  function Joined(st: State, user: User, s: Socket): State {
    st.(buckets := st.buckets[user := Bucket(st.buckets, user) + [s]])
  }

  /** Registers a callback and stores it unless the user has one for that event already; one that is
      not stored is deregistered again. */
  function EventsAdded(st: State, user: User): State {
    var id := st.next;
    var stored := if user in st.events then st.events[user] else map[];
    var kept := LIFECYCLE !in stored;
    st.(
      events := st.events[user := if kept then stored[LIFECYCLE := id] else stored],
      callbacks := if kept then st.callbacks[id := user] else st.callbacks - {id},
      next := id + 1)
  }

  /** What `events::remove` needs: something to erase. */
  predicate Removable(st: State, user: User) {
    user in st.events ==> LIFECYCLE in st.events[user]
  }

  function EventsRemoved(st: State, user: User): State
    requires Removable(st, user)
  {
    if user !in st.events then st
    else
      st.(events := Cleared(st.events, user), callbacks := st.callbacks - {st.events[user][LIFECYCLE]})
  }

  /** The stored events without the lifecycle event of a user, and without the user if that was all. */
  function Cleared(events: map<User, map<int, Callback>>, user: User): map<User, map<int, Callback>>
    requires user in events
  {
    var rest := events[user] - {LIFECYCLE};
    if rest == map[] then events - {user} else events[user := rest]
  }

  function Handshaken(st: State, user: User): State {
    if user in st.events then st else EventsAdded(st, user)
  }

  function Left(st: State, user: User, s: Socket): State {
    st.(buckets := st.buckets[user := Erase(Bucket(st.buckets, user), s)])
  }

  function ClosedBy(st: State, user: User, s: Socket): State
    requires Removable(st, user)
  {
    var left := Left(st, user, s);
    if left.buckets[user] == [] then EventsRemoved(left, user) else left
  }

  function WritesTo(sockets: seq<Socket>, message: Message): seq<Write> {
    seq(|sockets|, i requires 0 <= i < |sockets| => Write(sockets[i], message))
  }

  /** One callback run for an event of its user. */
  function Notified(st: State, user: User, kind: nat, message: Message): State
    requires kind < 32
  {
    if InMask(kind) then
      st.(buckets := st.buckets[user := Bucket(st.buckets, user)],
          writes := st.writes + WritesTo(Bucket(st.buckets, user), message))
    else st
  }

  // ----- The classes

  /** libvirt's side of event registration. */
  class Libvirt {
    var callbacks: map<Callback, User>
    var next: Callback

    constructor ()
      ensures callbacks == map[] && next == 0
    {
      callbacks, next := map[], 0;
    }

    method Register(user: User) returns (id: Callback)
      modifies this
      ensures id == old(next) && next == id + 1
      ensures callbacks == old(callbacks)[id := user]
    {
      id := next;
      callbacks := callbacks[id := user];
      next := next + 1;
    }

    method Deregister(id: Callback)
      modifies this`callbacks
      ensures callbacks == old(callbacks) - {id}
    {
      callbacks := callbacks - {id};
    }
  }

  /** The events of one user by event id. An event that goes away takes its callback with it. */
  class Events {
    var stored: map<int, Callback>

    constructor ()
      ensures stored == map[]
    {
      stored := map[];
    }

    /** Stores the event unless one with the key is there; then the new one is dropped. */
    method Set(key: int, event: Callback, libvirt: Libvirt)
      modifies this, libvirt`callbacks
      ensures stored == if key in old(stored) then old(stored) else old(stored)[key := event]
      ensures libvirt.callbacks
           == if key in old(stored) then old(libvirt.callbacks) - {event} else old(libvirt.callbacks)
    {
      if key in stored {
        libvirt.Deregister(event);
      } else {
        stored := stored[key := event];
      }
    }

    method Remove(key: int, libvirt: Libvirt)
      requires key in stored
      modifies this, libvirt`callbacks
      ensures stored == old(stored) - {key}
      ensures libvirt.callbacks == old(libvirt.callbacks) - {old(stored)[key]}
    {
      libvirt.Deregister(stored[key]);
      stored := stored - {key};
    }

    method Size() returns (n: nat)
      ensures n == |stored|
    {
      n := |stored|;
    }
  }

  class Pool {
    var buckets: map<User, seq<Socket>>
    var writes: seq<Write>

    constructor ()
      ensures buckets == map[] && writes == []
    {
      buckets, writes := map[], [];
    }

    method Add(user: User, s: Socket)
      modifies this`buckets
      ensures buckets == old(buckets)[user := Bucket(old(buckets), user) + [s]]
    {
      buckets := buckets[user := Bucket(buckets, user) + [s]];
    }

    /** Erases the first occurrence; the list cannot erase what is not in it. */
    method Remove(user: User, s: Socket)
      requires s in Bucket(buckets, user)
      modifies this`buckets
      ensures buckets == old(buckets)[user := Erase(Bucket(old(buckets), user), s)]
    {
      var bucket := buckets[user];
      var i := 0;
      while bucket[i] != s
        invariant 0 <= i < |bucket|
        invariant s !in bucket[..i]
        decreases |bucket| - i
      {
        i := i + 1;
      }
      EraseAt(bucket, s, i);
      buckets := buckets[user := bucket[..i] + bucket[i + 1..]];
    }

    /** Looking a bucket up creates it. */
    method Lookup(user: User) returns (bucket: seq<Socket>)
      modifies this`buckets
      ensures bucket == Bucket(old(buckets), user)
      ensures buckets == old(buckets)[user := bucket]
    {
      bucket := Bucket(buckets, user);
      buckets := buckets[user := bucket];
    }

    method Broadcast(user: User, message: Message)
      modifies this
      ensures buckets == old(buckets)[user := Bucket(old(buckets), user)]
      ensures writes == old(writes) + WritesTo(Bucket(old(buckets), user), message)
    {
      var bucket := Lookup(user);
      for i := 0 to |bucket|
        invariant buckets == old(buckets)[user := bucket]
        invariant writes == old(writes) + WritesTo(bucket[..i], message)
      {
        assert WritesTo(bucket[..i + 1], message) == WritesTo(bucket[..i], message) + [Write(bucket[i], message)];
        writes := writes + [Write(bucket[i], message)];
      }
      assert bucket[..|bucket|] == bucket;
    }
  }

  lemma {:induction false} EraseAt(sockets: seq<Socket>, s: Socket, i: nat)
    requires i < |sockets| && sockets[i] == s && s !in sockets[..i]
    ensures Erase(sockets, s) == sockets[..i] + sockets[i + 1..]
  {
    if i > 0 {
      assert sockets[0] in sockets[..i];
      assert sockets[1..][..i - 1] == sockets[..i][1..];
      EraseAt(sockets[1..], s, i - 1);
    }
  }

  class App {
    const pool: Pool
    const libvirt: Libvirt
    var events: map<User, Events>

    ghost predicate Valid()
      reads this
    {
      forall u, v :: u in events && v in events && u != v ==> events[u] != events[v]
    }

    /** The stored events of all users. */
    ghost function Stored(): map<User, map<int, Callback>>
      reads this, events.Values
    {
      map u | u in events :: events[u].stored
    }

    ghost function Abstract(): State
      reads this, pool, libvirt, events.Values
    {
      State(pool.buckets, Stored(), libvirt.callbacks, libvirt.next, pool.writes)
    }

    constructor ()
      ensures Valid() && fresh(pool) && fresh(libvirt)
      ensures Abstract() == State(map[], map[], map[], 0, [])
    {
      pool := new Pool();
      libvirt := new Libvirt();
      events := map[];
    }

    /** Looking a user's events up creates an empty entry if there is none. */
    method Reach(user: User)
      requires Valid()
      modifies this`events
      ensures Valid() && user in events
      ensures if user in old(events) then events == old(events)
              else events == old(events)[user := events[user]] && fresh(events[user])
      ensures Stored() == old(Stored())[user := if user in old(Stored()) then old(Stored())[user] else map[]]
    {
      if user !in events {
        var entry := new Events();
        events := events[user := entry];
      }
    }

    method Set(user: User, id: Callback)
      requires Valid() && user in events
      modifies libvirt`callbacks, events[user]
      ensures Valid() && events == old(events)
      ensures var stored := old(Stored())[user];
              && Stored() == old(Stored())[user := if LIFECYCLE in stored then stored else stored[LIFECYCLE := id]]
              && libvirt.callbacks
                 == if LIFECYCLE in stored then old(libvirt.callbacks) - {id} else old(libvirt.callbacks)
    {
      var entry := events[user];
      entry.Set(LIFECYCLE, id, libvirt);
    }

    /** Stores an event for a user, creating the user's entry if there is none. */
    method Store(user: User, id: Callback)
      requires Valid()
      modifies this, libvirt`callbacks, events.Values
      ensures Valid() && fresh(events.Values - old(events.Values))
      ensures var stored := if user in old(Stored()) then old(Stored())[user] else map[];
              && Stored() == old(Stored())[user := if LIFECYCLE in stored then stored else stored[LIFECYCLE := id]]
              && libvirt.callbacks
                 == if LIFECYCLE in stored then old(libvirt.callbacks) - {id} else old(libvirt.callbacks)
    {
      Reach(user);
      Set(user, id);
    }

    /** With a refused registration nothing changes and the exception ends the handler. */
    method AddEvents(user: User, accepted: bool) returns (registered: bool)
      requires Valid()
      modifies this, libvirt, events.Values
      ensures Valid() && fresh(events.Values - old(events.Values))
      ensures registered == accepted
      ensures Abstract() == if accepted then EventsAdded(old(Abstract()), user) else old(Abstract())
    {
      if !accepted {
        return false;
      }
      var id := libvirt.Register(user);
      Store(user, id);
      return true;
    }

    /** Removes the stored event of a user. */
    method Unset(user: User)
      requires Valid() && user in events && LIFECYCLE in events[user].stored
      modifies libvirt`callbacks, events.Values
      ensures Valid() && events == old(events)
      ensures Stored() == old(Stored())[user := old(Stored())[user] - {LIFECYCLE}]
      ensures libvirt.callbacks == old(libvirt.callbacks) - {old(Stored())[user][LIFECYCLE]}
    {
      var entry := events[user];
      entry.Remove(LIFECYCLE, libvirt);
    }

    method EraseIfEmpty(user: User)
      requires Valid() && user in events
      modifies this`events
      ensures Valid() && events.Values <= old(events.Values)
      ensures Stored() == if old(Stored())[user] == map[] then old(Stored()) - {user} else old(Stored())
    {
      var size := events[user].Size();
      if size == 0 {
        events := events - {user};
      }
    }

    method Clear(user: User)
      requires Valid() && user in events && LIFECYCLE in events[user].stored
      modifies this`events, libvirt`callbacks, events.Values
      ensures Valid() && events.Values <= old(events.Values)
      ensures Stored() == Cleared(old(Stored()), user)
      ensures libvirt.callbacks == old(libvirt.callbacks) - {old(Stored())[user][LIFECYCLE]}
    {
      Unset(user);
      ghost var unset := Stored();
      EraseIfEmpty(user);
      assert unset - {user} == old(Stored()) - {user};
    }

    method RemoveEvents(user: User)
      requires Valid() && Removable(Abstract(), user)
      modifies this`events, libvirt`callbacks, events.Values
      ensures Valid() && events.Values <= old(events.Values)
      ensures Abstract() == EventsRemoved(old(Abstract()), user)
    {
      if user in events {
        assert LIFECYCLE in Abstract().events[user];
        Clear(user);
      }
    }

    /** The upgraded connection joins its user's bucket. */
    method Websocket(user: User, s: Socket)
      requires Valid()
      modifies pool
      ensures Valid() && events == old(events)
      ensures Abstract() == Joined(old(Abstract()), user, s)
    {
      pool.Add(user, s);
    }

    method OnHandshake(user: User, accepted: bool) returns (live: bool)
      requires Valid()
      modifies this, libvirt, events.Values
      ensures Valid() && fresh(events.Values - old(events.Values))
      ensures live <==> accepted || user in old(events)
      ensures Abstract() == if live then Handshaken(old(Abstract()), user) else old(Abstract())
    {
      live := true;
      if user !in events {
        live := AddEvents(user, accepted);
      }
    }

    method OnClose(user: User, s: Socket)
      requires Valid() && Removable(Abstract(), user)
      requires s in Bucket(pool.buckets, user)
      modifies this`events, pool, libvirt`callbacks, events.Values
      ensures Valid() && events.Values <= old(events.Values)
      ensures Abstract() == ClosedBy(old(Abstract()), user, s)
    {
      pool.Remove(user, s);
      var bucket := pool.Lookup(user);
      assert Abstract() == Left(old(Abstract()), user, s);
      if |bucket| == 0 {
        RemoveEvents(user);
      }
    }

    /** What libvirt runs when a domain of the callback's user changes its state. */
    method OnEvent(id: Callback, kind: nat, message: Message)
      requires Valid() && id in libvirt.callbacks && kind < 32
      modifies pool
      ensures Valid() && events == old(events)
      ensures Abstract() == Notified(old(Abstract()), libvirt.callbacks[id], kind, message)
    {
      var user := libvirt.callbacks[id];
      if InMask(kind) {
        pool.Broadcast(user, message);
      }
    }
  }
}
