/** The cache of libvirt connections, one for each user, and the close callbacks that make entries stale. */
module ConnectionPool {
  import opened Options

  type User = string
  type Handle = nat

  /** The exceptions the daemon tells apart. The first three are runtime errors. */
  datatype Exception =
    | RetryError(what: string)
    | OverflowError(what: string)
    | RuntimeError(what: string)
    | DomainError(what: string)
    | OtherError(what: string)
  {
    predicate IsRuntime() {
      RetryError? || OverflowError? || RuntimeError?
    }
  }

  datatype Outcome = Done | Thrown(exception: Exception)

  /** The fields of a connection. */
  datatype View = View(conn: Option<Handle>, errno: int, closed: bool, user: User)

  const FRESH: View := View(None, 0, true, "")

  /** What libvirt answers when a connection is opened: a handle, or an error number. */
  datatype Opening = Opened(handle: Handle) | Refused(errno: int, strerror: string)

  function Connected(opening: Opening, user: User): View {
    match opening
    case Opened(handle) => View(Some(handle), 0, false, user)
    case Refused(errno, _) => View(None, errno, true, "")
  }

  function ConnectOutcome(opening: Opening): Outcome {
    if opening.Opened? then Done else Thrown(RuntimeError("error: " + opening.strerror + "\n"))
  }

  class Connection {
    var conn: Option<Handle>
    var errno: int
    var closed: bool
    var user: User

    constructor ()
      ensures Fields() == FRESH
    {
      conn, errno, closed, user := None, 0, true, "";
    }

    ghost function Fields(): View
      reads this
    {
      View(conn, errno, closed, user)
    }

    /** Converts to true unless it is closed. */
    predicate IsOpen()
      reads this
    {
      !closed
    }

    method Assign(other: Connection)
      modifies this
      ensures Fields() == old(other.Fields())
    {
      conn, errno, closed, user := other.conn, other.errno, other.closed, other.user;
    }

    method Connect(name: User, opening: Opening) returns (outcome: Outcome)
      modifies this
      ensures old(conn).Some? ==>
                outcome == Thrown(OverflowError("cannot connect more than once")) && Fields() == old(Fields())
      ensures old(conn).None? ==>
                && outcome == ConnectOutcome(opening)
                && Fields() == if opening.Opened?
                               then View(Some(opening.handle), old(errno), false, name)
                               else View(None, opening.errno, old(closed), old(user))
      ensures old(Fields()) == FRESH ==> Fields() == Connected(opening, name)
    {
      if conn.Some? {
        return Thrown(OverflowError("cannot connect more than once"));
      }
      if opening.Refused? {
        conn, errno := None, opening.errno;
        return Thrown(RuntimeError("error: " + opening.strerror + "\n"));
      }
      conn := Some(opening.handle);
      user := name;
      closed := false;
      return Done;
    }

    /** What libvirt runs when it loses the connection. */
    method OnClose() returns (outcome: Outcome)
      modifies this
      ensures Fields() == old(Fields()).(closed := true)
      ensures outcome == Thrown(RetryError("libvirt connection closed"))
    {
      closed := true;
      return Thrown(RetryError("libvirt connection closed"));
    }
  }

  /** All entries as values. */
  type Entries = map<User, View>

  predicate IsOpen(entries: Entries, user: User) {
    user in entries && !entries[user].closed
  }

  /** A lookup: an open entry is used as it is, anything else is replaced by a new connection. */
  function Got(entries: Entries, user: User, opening: Opening): (Entries, Outcome) {
    if IsOpen(entries, user) then (entries, Done)
    else (entries[user := Connected(opening, user)], ConnectOutcome(opening))
  }

  function ClosedEntry(entries: Entries, user: User): Entries {
    if user in entries then entries[user := entries[user].(closed := true)] else entries
  }

  class Pool {
    var connections: map<User, Connection>

    constructor ()
      ensures Valid() && Contents() == map[]
    {
      connections := map[];
    }

    ghost predicate Valid()
      reads this
    {
      forall u, v :: u in connections && v in connections && u != v ==> connections[u] != connections[v]
    }

    ghost function Contents(): Entries
      reads this, connections.Values
    {
      map u | u in connections :: connections[u].Fields()
    }

    /** Inserts a connection of its own for a user without one. */
    method Insert(user: User)
      requires Valid() && user !in connections
      modifies this
      ensures Valid() && connections.Keys == old(connections.Keys) + {user}
      ensures connections[user].Fields() == FRESH
      ensures fresh(connections[user]) && connections == old(connections)[user := connections[user]]
      ensures Contents() == old(Contents())[user := FRESH]
    {
      var connection := new Connection();
      connections := connections[user := connection];
    }

    /** Connects the entry of a user that is as good as new. */
    method ConnectEntry(user: User, opening: Opening) returns (outcome: Outcome)
      requires Valid() && user in connections && connections[user].Fields() == FRESH
      modifies connections[user]
      ensures connections == old(connections)
      ensures outcome == ConnectOutcome(opening)
      ensures Contents() == old(Contents())[user := Connected(opening, user)]
    {
      outcome := connections[user].Connect(user, opening);
    }

    method Get(user: User, opening: Opening) returns (outcome: Outcome)
      requires Valid()
      modifies this, connections.Values
      ensures Valid() && fresh(connections.Values - old(connections.Values))
      ensures (Contents(), outcome) == Got(old(Contents()), user, opening)
    {
      if user !in connections {
        Insert(user);
        outcome := ConnectEntry(user, opening);
        assert old(Contents())[user := FRESH][user := Connected(opening, user)]
            == old(Contents())[user := Connected(opening, user)];
        return;
      }
      if connections[user].closed {
        Reset(user);
        outcome := ConnectEntry(user, opening);
        assert old(Contents())[user := FRESH][user := Connected(opening, user)]
            == old(Contents())[user := Connected(opening, user)];
        return;
      }
      return Done;
    }

    /** Assigns a new connection to an existing entry. */
    method Reset(user: User)
      requires Valid() && user in connections
      modifies connections[user]
      ensures connections == old(connections) && connections[user].Fields() == FRESH
      ensures Contents() == old(Contents())[user := FRESH]
    {
      var connection := new Connection();
      connections[user].Assign(connection);
    }

    method OnClose(user: User) returns (outcome: Outcome)
      requires Valid() && user in connections
      modifies connections[user]
      ensures Valid() && connections == old(connections)
      ensures Contents() == ClosedEntry(old(Contents()), user)
      ensures outcome == Thrown(RetryError("libvirt connection closed"))
    {
      outcome := connections[user].OnClose();
    }
  }

  // ----- Runs

  datatype Step = Get(user: User, opening: Opening) | Close(user: User)

  function After(trace: seq<Step>): Entries {
    if trace == [] then map[]
    else
      var entries, last := After(trace[..|trace| - 1]), trace[|trace| - 1];
      match last
      case Get(user, opening) => Got(entries, user, opening).0
      case Close(user) => ClosedEntry(entries, user)
  }

  /** How many connections were opened for a user. */
  function Opens(trace: seq<Step>, user: User): nat {
    if trace == [] then 0
    else
      var init, last := trace[..|trace| - 1], trace[|trace| - 1];
      Opens(init, user)
      + if last.Get? && last.user == user && last.opening.Opened? && !IsOpen(After(init), user) then 1 else 0
  }

  /** How often a connection of a user went from open to closed. */
  function Losses(trace: seq<Step>, user: User): nat {
    if trace == [] then 0
    else
      var init, last := trace[..|trace| - 1], trace[|trace| - 1];
      Losses(init, user) + if last == Close(user) && IsOpen(After(init), user) then 1 else 0
  }

  /** The ledger: opens and losses of a user differ by one exactly while the entry is open; an open entry
      holds a handle and is its own user's; and a lookup fails only when libvirt refuses the open. */
  lemma {:induction false} Ledger(trace: seq<Step>, user: User)
    ensures Opens(trace, user) - Losses(trace, user) == if IsOpen(After(trace), user) then 1 else 0
    ensures IsOpen(After(trace), user) ==> After(trace)[user].conn.Some? && After(trace)[user].user == user
    ensures forall opening :: Got(After(trace), user, opening).1
              == if !IsOpen(After(trace), user) && opening.Refused?
                 then Thrown(RuntimeError("error: " + opening.strerror + "\n")) else Done
    decreases |trace|
  {
    if trace != [] {
      Ledger(trace[..|trace| - 1], user);
    }
  }

  function StepsOf(trace: seq<Step>, user: User): seq<Step> {
    if trace == [] then []
    else
      StepsOf(trace[..|trace| - 1], user)
      + if trace[|trace| - 1].user == user then [trace[|trace| - 1]] else []
  }

  /** What a user's entry holds depends on the steps for that user alone. */
  lemma {:induction false} UsersIndependent(trace: seq<Step>, user: User)
    ensures user in After(trace) <==> user in After(StepsOf(trace, user))
    ensures user in After(trace) ==> After(trace)[user] == After(StepsOf(trace, user))[user]
    decreases |trace|
  {
    if trace != [] {
      var init, last := trace[..|trace| - 1], trace[|trace| - 1];
      UsersIndependent(init, user);
      if last.user == user {
        var own := StepsOf(trace, user);
        assert own[..|own| - 1] == StepsOf(init, user);
      } else {
        assert StepsOf(trace, user) == StepsOf(init, user);
      }
    }
  }
}
