/** Listeners, their sockets, and the connections on each socket. */
module ListenerState {

  const INVALID := 0
  const NAME_SIZE := 512

  datatype Request = Request(connection: int, message: string)

  datatype ListenerInfo = ListenerInfo(name: string, socket: int, outgoing: seq<Request>)

  datatype Connection = Connection(handle: int, served: bool)

  datatype SocketInfo = SocketInfo(connections: seq<Connection>, pollGroup: int)

  /** `closed` lists the connections that were closed through the library, in order. */
  datatype State = State(listeners: map<int, ListenerInfo>, sockets: map<int, SocketInfo>, nextHandle: int, closed: seq<int>)

  datatype Error = InvalidListener | InvalidCall | InvalidConnection | FromListener

  datatype Outcome = Done | Handle(handle: int) | Failed(error: Error)

  datatype Init = NoSocket | Opened(socket: int, pollGroup: int)

  /** Calls and callbacks, together with what the library answers to them. */
  datatype Event =
    | Create(name: string)
    | Destroy(listener: int)
    | Start(listener: int, init: Init, started: bool)
    | Stop(listener: int)
    | Push(listener: int, message: Request)
    | Connecting(socket: int, connection: int, accepted: bool, grouped: bool)
    | Disconnected(socket: int, connection: int)
    | Served(socket: int, connection: int)

  // --- Connections on a socket ----------------------------------------------------------

  predicate Lists(connections: seq<Connection>, handle: int)
  {
    exists i :: 0 <= i < |connections| && connections[i].handle == handle
  }

  predicate NoRepeats(connections: seq<Connection>)
  {
    forall i, j :: 0 <= i < j < |connections| ==> connections[i].handle != connections[j].handle
  }

  /** The first connection with that handle. */
  function Find(connections: seq<Connection>, handle: int): (i: nat)
    requires Lists(connections, handle)
    ensures i < |connections| && connections[i].handle == handle
  {
    if connections[0].handle == handle then 0
    else
      assert Lists(connections[1..], handle) by {
        var i :| 0 <= i < |connections| && connections[i].handle == handle;
        assert connections[1..][i - 1] == connections[i];
      }
      Find(connections[1..], handle) + 1
  }

  function Without(connections: seq<Connection>, handle: int): seq<Connection>
    requires Lists(connections, handle)
  {
    var i := Find(connections, handle);
    connections[..i] + connections[i + 1..]
  }

  function HandlesOf(connections: seq<Connection>): (handles: seq<int>)
    ensures |handles| == |connections| && forall i :: 0 <= i < |handles| ==> handles[i] == connections[i].handle
  {
    seq(|connections|, i requires 0 <= i < |connections| => connections[i].handle)
  }

  function Truncated(name: string): string { if |name| <= NAME_SIZE then name else name[..NAME_SIZE] }

  // --- What each event does -------------------------------------------------------------

  predicate Tracked(s: State, socket: int, connection: int)
  {
    socket in s.sockets && Lists(s.sockets[socket].connections, connection)
  }

  /** What the library answers, and what the code asserts about it: a new socket is valid and not
      in use, and events are about sockets and connections that are there. */
  predicate Possible(s: State, e: Event)
  {
    match e
    case Start(_, Opened(socket, _), _) => socket != INVALID && socket !in s.sockets
    case Connecting(socket, connection, accepted, _) => accepted ==> socket in s.sockets
    case Disconnected(socket, connection) => Tracked(s, socket, connection)
    case Served(socket, connection) => Tracked(s, socket, connection)
    case _ => true
  }

  /** Every connection is announced once. */
  predicate Allowed(s: State, announced: set<int>, e: Event)
  {
    Possible(s, e) && (e.Connecting? ==> e.connection !in announced)
  }

  function SetConnections(s: State, socket: int, connections: seq<Connection>): State
    requires socket in s.sockets
  {
    s.(sockets := s.sockets[socket := s.sockets[socket].(connections := connections)])
  }

  /** All connections are closed, and the socket is forgotten. */
  function Stopped(s: State, listener: int): State
    requires listener in s.listeners && s.listeners[listener].socket in s.sockets
  {
    var info := s.listeners[listener];
    s.(listeners := s.listeners[listener := info.(socket := INVALID)],
       sockets := s.sockets - {info.socket},
       closed := s.closed + HandlesOf(s.sockets[info.socket].connections))
  }

  /** Every listener's socket is known. */
  predicate SocketsKnown(s: State)
  {
    forall h :: h in s.listeners && s.listeners[h].socket != INVALID ==> s.listeners[h].socket in s.sockets
  }

  function Stop1(s: State, listener: int): (State, Outcome)
    requires SocketsKnown(s)
  {
    if listener !in s.listeners then (s, Failed(InvalidListener))
    else if s.listeners[listener].socket == INVALID then (s, Failed(InvalidCall))
    else (Stopped(s, listener), Done)
  }

  function Apply(s: State, e: Event): (State, Outcome)
    requires SocketsKnown(s) && Possible(s, e)
  {
    match e
    case Create(name) =>
      (s.(listeners := s.listeners[s.nextHandle := ListenerInfo(Truncated(name), INVALID, [])], nextHandle := s.nextHandle + 1),
       Handle(s.nextHandle))
    case Destroy(listener) =>
      if listener !in s.listeners then (s, Failed(InvalidListener))
      else
        var stopped := Stop1(s, listener).0;
        (stopped.(listeners := stopped.listeners - {listener}), Done)
    case Start(listener, init, started) =>
      if listener !in s.listeners then (s, Failed(InvalidListener))
      else if s.listeners[listener].socket != INVALID then (s, Failed(InvalidCall))
      else if init.NoSocket? then (s, Failed(FromListener))
      else
        (s.(listeners := s.listeners[listener := s.listeners[listener].(socket := init.socket)],
            sockets := s.sockets[init.socket := SocketInfo([], init.pollGroup)]),
         if started then Done else Failed(FromListener))
    case Stop(listener) => Stop1(s, listener)
    case Push(listener, message) =>
      if listener !in s.listeners then (s, Failed(InvalidListener))
      else
        var info := s.listeners[listener];
        if info.socket == INVALID then (s, Failed(InvalidCall))
        else if !Lists(s.sockets[info.socket].connections, message.connection) then (s, Failed(InvalidConnection))
        else (s.(listeners := s.listeners[listener := info.(outgoing := info.outgoing + [message])]), Done)
    case Connecting(socket, connection, accepted, grouped) =>
      if accepted && grouped then
        (SetConnections(s, socket, s.sockets[socket].connections + [Connection(connection, false)]), Done)
      else (s.(closed := s.closed + [connection]), Done)
    case Disconnected(socket, connection) =>
      var rest := Without(s.sockets[socket].connections, connection);
      (SetConnections(s, socket, rest).(closed := s.closed + [connection]), Done)
    case Served(socket, connection) =>
      var connections := s.sockets[socket].connections;
      var i := Find(connections, connection);
      (SetConnections(s, socket, connections[i := connections[i].(served := true)]), Done)
  }

  // --- The invariant --------------------------------------------------------------------

  ghost predicate HandlesOk(s: State)
  {
    0 < s.nextHandle && forall h :: h in s.listeners ==> 0 < h < s.nextHandle
  }

  predicate HasSocket(s: State, h: int, socket: int)
  {
    h in s.listeners && s.listeners[h].socket == socket
  }

  /** The sockets are exactly those of the listeners, and no two listeners share one. */
  ghost predicate SocketsOk(s: State)
  {
    && SocketsKnown(s)
    && (forall k :: k in s.sockets ==> k != INVALID && exists h :: HasSocket(s, h, k))
    && (forall g, h, k :: HasSocket(s, g, k) && HasSocket(s, h, k) && k != INVALID ==> g == h)
  }

  ghost predicate Listed(sockets: map<int, SocketInfo>, c: int)
  {
    exists k :: k in sockets && Lists(sockets[k].connections, c)
  }

  /** No connection is listed twice, on one socket or on two. */
  ghost predicate ListedOnce(sockets: map<int, SocketInfo>)
  {
    && (forall k :: k in sockets ==> NoRepeats(sockets[k].connections))
    && (forall j, k, c :: j in sockets && k in sockets && Lists(sockets[j].connections, c) && Lists(sockets[k].connections, c) ==> j == k)
  }

  /** A connection that was announced is listed, or has been closed once; no other is. */
  ghost predicate Settled(sockets: map<int, SocketInfo>, closed: seq<int>, announced: set<int>, c: int)
  {
    && (c !in announced ==> !Listed(sockets, c) && multiset(closed)[c] == 0)
    && (c in announced && Listed(sockets, c) ==> multiset(closed)[c] == 0)
    && (c in announced && !Listed(sockets, c) ==> multiset(closed)[c] == 1)
  }

  ghost predicate ConnectionsOk(sockets: map<int, SocketInfo>, closed: seq<int>, announced: set<int>)
  {
    ListedOnce(sockets) && forall c :: Settled(sockets, closed, announced, c)
  }

  ghost predicate Invariant(s: State, announced: set<int>)
  {
    HandlesOk(s) && SocketsOk(s) && ConnectionsOk(s.sockets, s.closed, announced)
  }

  function Announces(e: Event): set<int>
  {
    if e.Connecting? then {e.connection} else {}
  }

  // --- Every event keeps it -------------------------------------------------------------

  lemma {:induction false} KeepsHandles(s: State, e: Event)
    requires HandlesOk(s) && SocketsKnown(s) && Possible(s, e)
    ensures HandlesOk(Apply(s, e).0) && Apply(s, e).0.nextHandle >= s.nextHandle
    ensures Apply(s, e).1.Handle? ==> Apply(s, e).1.handle == s.nextHandle < Apply(s, e).0.nextHandle
  {
    hide Lists, NoRepeats, Truncated;
  }

  lemma {:induction false} KeepsSockets(s: State, e: Event)
    requires HandlesOk(s) && SocketsOk(s) && Possible(s, e)
    ensures SocketsOk(Apply(s, e).0)
  {
    hide Lists, NoRepeats, Truncated;
    var t := Apply(s, e).0;
    forall h, k | HasSocket(t, h, k) && k != INVALID
      ensures k in t.sockets && (HasSocket(s, h, k) || (e.Start? && h == e.listener && k !in s.sockets))
    {
      if e.Create? {
        assert h != s.nextHandle;
        assert HasSocket(s, h, k);
      } else if e.Start? {
        assert h != e.listener ==> HasSocket(s, h, k);
        assert h == e.listener ==> HasSocket(s, h, k) || k !in s.sockets;
      } else if (e.Stop? || e.Destroy?) && e.listener in s.listeners {
        assert HasSocket(s, e.listener, s.listeners[e.listener].socket);
        assert h != e.listener;
        assert HasSocket(s, h, k);
      } else {
        assert HasSocket(s, h, k);
      }
    }
    forall h | h in t.listeners && t.listeners[h].socket != INVALID
      ensures t.listeners[h].socket in t.sockets
    {
      assert HasSocket(t, h, t.listeners[h].socket);
    }
    forall k | k in t.sockets
      ensures k != INVALID && exists h :: HasSocket(t, h, k)
    {
      if k in s.sockets {
        var h :| HasSocket(s, h, k);
        assert HasSocket(t, h, k);
      } else {
        assert HasSocket(t, e.listener, k);
      }
    }
  }

  lemma {:induction false} CountOne(closed: seq<int>, h: int, c: int)
    ensures multiset(closed + [h])[c] == multiset(closed)[c] + if c == h then 1 else 0
  {}

  /** The handles of distinct connections occur once each. */
  lemma {:induction false} CountHandles(connections: seq<Connection>, c: int)
    requires NoRepeats(connections)
    ensures multiset(HandlesOf(connections))[c] == if Lists(connections, c) then 1 else 0
  {
    if connections != [] {
      var n := |connections| - 1;
      var rest := connections[..n];
      CountHandles(rest, c);
      assert HandlesOf(connections) == HandlesOf(rest) + [connections[n].handle];
      if Lists(rest, c) {
        var i :| 0 <= i < |rest| && rest[i].handle == c;
        assert connections[i].handle == c;
      }
      if Lists(connections, c) && connections[n].handle != c {
        var i :| 0 <= i < |connections| && connections[i].handle == c;
        assert rest[i].handle == c;
      }
    }
  }

  lemma {:induction false} Appended(connections: seq<Connection>, h: int, c: int)
    ensures Lists(connections + [Connection(h, false)], c) <==> Lists(connections, c) || c == h
    ensures NoRepeats(connections) && !Lists(connections, h) ==> NoRepeats(connections + [Connection(h, false)])
  {
    var more := connections + [Connection(h, false)];
    assert more[|connections|].handle == h;
    if Lists(connections, c) {
      var i :| 0 <= i < |connections| && connections[i].handle == c;
      assert more[i].handle == c;
    }
  }

  lemma {:induction false} Removed(connections: seq<Connection>, h: int, c: int)
    requires NoRepeats(connections) && Lists(connections, h)
    ensures Lists(Without(connections, h), c) <==> Lists(connections, c) && c != h
    ensures NoRepeats(Without(connections, h))
  {
    var i, rest := Find(connections, h), Without(connections, h);
    assert forall j :: 0 <= j < i ==> rest[j] == connections[j];
    assert forall j :: i <= j < |rest| ==> rest[j] == connections[j + 1];
    if Lists(connections, c) && c != h {
      var j :| 0 <= j < |connections| && connections[j].handle == c;
      assert rest[if j < i then j else j - 1].handle == c;
    }
  }

  lemma {:induction false} Marked(connections: seq<Connection>, i: nat, c: int)
    requires i < |connections|
    ensures Lists(connections[i := connections[i].(served := true)], c) <==> Lists(connections, c)
    ensures NoRepeats(connections) ==> NoRepeats(connections[i := connections[i].(served := true)])
  {
    var marked := connections[i := connections[i].(served := true)];
    assert forall j :: 0 <= j < |connections| ==> marked[j].handle == connections[j].handle;
    if Lists(connections, c) {
      var j :| 0 <= j < |connections| && connections[j].handle == c;
      assert marked[j].handle == c;
    }
  }

  /** When the list of one socket changes, connections of other sockets stay as they were. */
  lemma {:induction false} ListedAfter(sockets: map<int, SocketInfo>, k: int, info: SocketInfo, c: int)
    ensures Listed(sockets[k := info], c) <==> Lists(info.connections, c) || Listed(sockets - {k}, c)
    ensures k in sockets ==> (Listed(sockets, c) <==> Lists(sockets[k].connections, c) || Listed(sockets - {k}, c))
    ensures k !in sockets ==> sockets - {k} == sockets
  {
    hide Lists;
    var after, others := sockets[k := info], sockets - {k};
    if Listed(others, c) {
      var j :| j in others && Lists(others[j].connections, c);
      assert j in after && j in sockets && Lists(after[j].connections, c) && Lists(sockets[j].connections, c);
    }
    if Lists(info.connections, c) {
      assert Lists(after[k].connections, c);
    }
    if Listed(after, c) {
      var j :| j in after && Lists(after[j].connections, c);
      assert j != k ==> j in others && Lists(others[j].connections, c);
    }
    if k in sockets {
      if Listed(sockets, c) {
        var j :| j in sockets && Lists(sockets[j].connections, c);
        assert j != k ==> j in others && Lists(others[j].connections, c);
      }
    }
  }

  /** The list of a socket and those of the others have nothing in common. */
  lemma {:induction false} Apart(sockets: map<int, SocketInfo>, k: int, c: int)
    requires ListedOnce(sockets) && k in sockets && Lists(sockets[k].connections, c)
    ensures !Listed(sockets - {k}, c)
  {
    hide Lists, NoRepeats;
    var others := sockets - {k};
    forall j | j in others
      ensures !Lists(others[j].connections, c)
    {
      assert j in sockets && others[j] == sockets[j];
    }
  }

  lemma {:induction false} OnOther(sockets: map<int, SocketInfo>, k: int, j: int, c: int)
    requires j in sockets && j != k && Lists(sockets[j].connections, c)
    ensures Listed(sockets - {k}, c)
  {
    hide Lists;
    assert Lists((sockets - {k})[j].connections, c);
  }

  /** A list with no repeats and nothing in common with the others may replace a socket's list. */
  lemma {:induction false} ReplaceList(sockets: map<int, SocketInfo>, k: int, info: SocketInfo)
    requires ListedOnce(sockets) && NoRepeats(info.connections)
    requires forall c :: Lists(info.connections, c) ==> !Listed(sockets - {k}, c)
    ensures ListedOnce(sockets[k := info])
  {
    hide Lists, NoRepeats;
    var after := sockets[k := info];
    forall i, j, c | i in after && j in after && Lists(after[i].connections, c) && Lists(after[j].connections, c)
      ensures i == j
    {
      if i != k {
        OnOther(sockets, k, i, c);
      }
      if j != k {
        OnOther(sockets, k, j, c);
      }
    }
  }

  lemma {:induction false} KeepsOnStart(sockets: map<int, SocketInfo>, closed: seq<int>, announced: set<int>, k: int,
                                        pollGroup: int)
    requires ConnectionsOk(sockets, closed, announced) && k !in sockets
    ensures ConnectionsOk(sockets[k := SocketInfo([], pollGroup)], closed, announced)
  {
    hide Listed, ListedOnce, NoRepeats;
    var info := SocketInfo([], pollGroup);
    var after := sockets[k := info];
    assert NoRepeats([]) by { NoneRepeat(); }
    ReplaceList(sockets, k, info);
    forall c
      ensures Settled(after, closed, announced, c)
    {
      ListedAfter(sockets, k, info, c);
      assert Settled(sockets, closed, announced, c);
    }
  }

  lemma NoneRepeat()
    ensures NoRepeats([])
  {}

  lemma {:induction false} KeepsOnConnect(sockets: map<int, SocketInfo>, closed: seq<int>, announced: set<int>,
                                          k: int, h: int)
    requires ConnectionsOk(sockets, closed, announced) && k in sockets && h !in announced
    ensures var info := sockets[k].(connections := sockets[k].connections + [Connection(h, false)]);
            ConnectionsOk(sockets[k := info], closed, announced + {h})
  {
    var before := sockets[k].connections;
    var info := sockets[k].(connections := before + [Connection(h, false)]);
    var after := sockets[k := info];
    assert NoRepeats(before);
    hide Listed, ListedOnce, NoRepeats, Lists;
    assert Settled(sockets, closed, announced, h);
    ListedAfter(sockets, k, info, h);
    Appended(before, h, h);
    var others := sockets - {k};
    forall c
      ensures (Lists(info.connections, c) ==> !Listed(others, c)) && Settled(after, closed, announced + {h}, c)
    {
      Appended(before, h, c);
      ListedAfter(sockets, k, info, c);
      if Lists(before, c) {
        Apart(sockets, k, c);
      }
      assert Settled(sockets, closed, announced, c);
    }
    ReplaceList(sockets, k, info);
  }

  lemma {:induction false} KeepsOnRefusal(sockets: map<int, SocketInfo>, closed: seq<int>, announced: set<int>, h: int)
    requires ConnectionsOk(sockets, closed, announced) && h !in announced
    ensures ConnectionsOk(sockets, closed + [h], announced + {h})
  {
    hide Listed, ListedOnce;
    forall c
      ensures Settled(sockets, closed + [h], announced + {h}, c)
    {
      CountOne(closed, h, c);
      assert Settled(sockets, closed, announced, c);
    }
  }

  lemma {:induction false} KeepsOnDisconnect(sockets: map<int, SocketInfo>, closed: seq<int>, announced: set<int>,
                                             k: int, h: int)
    requires ConnectionsOk(sockets, closed, announced) && k in sockets && Lists(sockets[k].connections, h)
    ensures var info := sockets[k].(connections := Without(sockets[k].connections, h));
            ConnectionsOk(sockets[k := info], closed + [h], announced)
  {
    var before := sockets[k].connections;
    var info := sockets[k].(connections := Without(before, h));
    var after := sockets[k := info];
    assert NoRepeats(before);
    hide Listed, ListedOnce, NoRepeats, Lists, Without;
    Apart(sockets, k, h);
    var others := sockets - {k};
    forall c
      ensures (Lists(info.connections, c) ==> !Listed(others, c)) && Settled(after, closed + [h], announced, c)
    {
      Removed(before, h, c);
      ListedAfter(sockets, k, info, c);
      CountOne(closed, h, c);
      if Lists(before, c) {
        Apart(sockets, k, c);
      }
      assert Settled(sockets, closed, announced, c);
    }
    Removed(before, h, h);
    ReplaceList(sockets, k, info);
  }

  lemma {:induction false} KeepsOnServed(sockets: map<int, SocketInfo>, closed: seq<int>, announced: set<int>, k: int,
                                         i: nat)
    requires ConnectionsOk(sockets, closed, announced) && k in sockets && i < |sockets[k].connections|
    ensures var connections := sockets[k].connections;
            var info := sockets[k].(connections := connections[i := connections[i].(served := true)]);
            ConnectionsOk(sockets[k := info], closed, announced)
  {
    var before := sockets[k].connections;
    var info := sockets[k].(connections := before[i := before[i].(served := true)]);
    var after := sockets[k := info];
    assert NoRepeats(before);
    hide Listed, ListedOnce, NoRepeats, Lists;
    var others := sockets - {k};
    forall c
      ensures (Lists(info.connections, c) ==> !Listed(others, c)) && Settled(after, closed, announced, c)
    {
      Marked(before, i, c);
      ListedAfter(sockets, k, info, c);
      if Lists(before, c) {
        Apart(sockets, k, c);
      }
      assert Settled(sockets, closed, announced, c);
    }
    Marked(before, i, 0);
    ReplaceList(sockets, k, info);
  }

  lemma {:induction false} KeepsOnStop(sockets: map<int, SocketInfo>, closed: seq<int>, announced: set<int>, k: int)
    requires ConnectionsOk(sockets, closed, announced) && k in sockets
    ensures ConnectionsOk(sockets - {k}, closed + HandlesOf(sockets[k].connections), announced)
  {
    var before := sockets[k].connections;
    assert NoRepeats(before);
    FewerLists(sockets, k);
    hide Listed, ListedOnce, NoRepeats, Lists;
    var others := sockets - {k};
    forall c
      ensures Settled(others, closed + HandlesOf(before), announced, c)
    {
      CountHandles(before, c);
      ListedAfter(sockets, k, sockets[k], c);
      if Lists(before, c) {
        Apart(sockets, k, c);
      }
      assert Settled(sockets, closed, announced, c);
    }
  }

  lemma {:induction false} FewerLists(sockets: map<int, SocketInfo>, k: int)
    requires ListedOnce(sockets)
    ensures ListedOnce(sockets - {k})
  {
    hide Lists, NoRepeats;
    var others := sockets - {k};
    assert forall j :: j in others ==> j in sockets && others[j] == sockets[j];
  }

  lemma {:induction false} KeepsConnections(s: State, announced: set<int>, e: Event)
    requires HandlesOk(s) && SocketsOk(s) && ConnectionsOk(s.sockets, s.closed, announced) && Allowed(s, announced, e)
    ensures var t := Apply(s, e).0;
            ConnectionsOk(t.sockets, t.closed, announced + Announces(e))
  {
    hide ConnectionsOk, Lists, Without, Truncated;
    assert announced + {} == announced;
    match e
    case Start(_, Opened(socket, pollGroup), _) => KeepsOnStart(s.sockets, s.closed, announced, socket, pollGroup);
    case Connecting(socket, connection, accepted, grouped) =>
      if accepted && grouped {
        KeepsOnConnect(s.sockets, s.closed, announced, socket, connection);
      } else {
        KeepsOnRefusal(s.sockets, s.closed, announced, connection);
      }
    case Disconnected(socket, connection) => KeepsOnDisconnect(s.sockets, s.closed, announced, socket, connection);
    case Served(socket, connection) =>
      KeepsOnServed(s.sockets, s.closed, announced, socket, Find(s.sockets[socket].connections, connection));
    case Stop(listener) =>
      if listener in s.listeners && s.listeners[listener].socket != INVALID {
        KeepsOnStop(s.sockets, s.closed, announced, s.listeners[listener].socket);
      }
    case Destroy(listener) =>
      if listener in s.listeners && s.listeners[listener].socket != INVALID {
        KeepsOnStop(s.sockets, s.closed, announced, s.listeners[listener].socket);
      }
    case _ =>
  }

  lemma {:induction false} KeepsInvariant(s: State, announced: set<int>, e: Event)
    requires Invariant(s, announced) && Allowed(s, announced, e)
    ensures Invariant(Apply(s, e).0, announced + Announces(e))
  {
    KeepsHandles(s, e);
    KeepsSockets(s, e);
    KeepsConnections(s, announced, e);
  }

  // --- Whole runs -----------------------------------------------------------------------

  function Initial(): State { State(map[], map[], 1, []) }

  ghost predicate AllowedRun(s: State, announced: set<int>, run: seq<Event>)
    decreases |run|
  {
    run == [] || (SocketsKnown(s) && Allowed(s, announced, run[0])
                  && AllowedRun(Apply(s, run[0]).0, announced + Announces(run[0]), run[1..]))
  }

  ghost function Run(s: State, announced: set<int>, run: seq<Event>): State
    requires AllowedRun(s, announced, run)
    decreases |run|
  {
    if run == [] then s else Run(Apply(s, run[0]).0, announced + Announces(run[0]), run[1..])
  }

  ghost function AnnouncedIn(run: seq<Event>): set<int>
  {
    if run == [] then {} else Announces(run[0]) + AnnouncedIn(run[1..])
  }

  /** The handles that the run gives out, in order. */
  ghost function HandlesGiven(s: State, announced: set<int>, run: seq<Event>): seq<int>
    requires AllowedRun(s, announced, run)
    decreases |run|
  {
    if run == [] then []
    else
      var (t, outcome) := Apply(s, run[0]);
      (if outcome.Handle? then [outcome.handle] else []) + HandlesGiven(t, announced + Announces(run[0]), run[1..])
  }

  lemma {:induction false} InitialIsOk()
    ensures Invariant(Initial(), {})
  {}

  /** The invariant holds after every run. */
  lemma {:induction false} RunKeepsInvariant(s: State, announced: set<int>, run: seq<Event>)
    requires Invariant(s, announced) && AllowedRun(s, announced, run)
    ensures Invariant(Run(s, announced, run), announced + AnnouncedIn(run))
    decreases |run|
  {
    hide Invariant, Apply;
    if run == [] {
      assert announced + {} == announced;
    } else {
      KeepsInvariant(s, announced, run[0]);
      RunKeepsInvariant(Apply(s, run[0]).0, announced + Announces(run[0]), run[1..]);
      assert announced + (Announces(run[0]) + AnnouncedIn(run[1..])) == announced + Announces(run[0]) + AnnouncedIn(run[1..]);
    }
  }

  // --- Outgoing messages ----------------------------------------------------------------

  /** The messages that the run pushes to the listener, and that are not refused, in order. */
  ghost function Pushed(s: State, announced: set<int>, run: seq<Event>, h: int): seq<Request>
    requires AllowedRun(s, announced, run)
    decreases |run|
  {
    if run == [] then []
    else
      var (t, outcome) := Apply(s, run[0]);
      (if run[0].Push? && run[0].listener == h && outcome == Done then [run[0].message] else [])
      + Pushed(t, announced + Announces(run[0]), run[1..], h)
  }

  ghost function Queue(s: State, h: int): seq<Request>
  {
    if h in s.listeners then s.listeners[h].outgoing else []
  }

  /** Only a push that is not refused changes a queue, and only that of its listener. */
  lemma {:induction false} KeepsQueues(s: State, e: Event, h: int)
    requires HandlesOk(s) && SocketsKnown(s) && Possible(s, e)
    ensures var (t, outcome) := Apply(s, e);
            && t.nextHandle >= s.nextHandle
            && (h !in s.listeners && h < s.nextHandle ==> h !in t.listeners)
            && (h in s.listeners && h !in t.listeners ==> h < t.nextHandle)
            && (e.Push? && e.listener == h && outcome == Done ==> h in s.listeners && h in t.listeners)
            && (h in t.listeners ==>
                  Queue(t, h) == Queue(s, h) + if e.Push? && e.listener == h && outcome == Done then [e.message] else [])
  {}

  /** A listener that is gone does not come back. */
  lemma {:induction false} StaysGone(s: State, announced: set<int>, run: seq<Event>, h: int)
    requires Invariant(s, announced) && AllowedRun(s, announced, run) && h !in s.listeners && h < s.nextHandle
    ensures h !in Run(s, announced, run).listeners
    decreases |run|
  {
    if run != [] {
      hide Apply;
      KeepsInvariant(s, announced, run[0]);
      KeepsQueues(s, run[0], h);
      StaysGone(Apply(s, run[0]).0, announced + Announces(run[0]), run[1..], h);
    }
  }

  lemma {:induction false} QueueGrows(s: State, announced: set<int>, run: seq<Event>, h: int)
    requires Invariant(s, announced) && AllowedRun(s, announced, run) && h in Run(s, announced, run).listeners
    ensures Queue(Run(s, announced, run), h) == Queue(s, h) + Pushed(s, announced, run, h)
    decreases |run|
  {
    if run == [] {
      assert Queue(s, h) + [] == Queue(s, h);
    } else {
      hide Apply;
      KeepsInvariant(s, announced, run[0]);
      KeepsQueues(s, run[0], h);
      var (t, outcome) := Apply(s, run[0]);
      QueueGrows(t, announced + Announces(run[0]), run[1..], h);
      if h !in t.listeners && h < t.nextHandle {
        StaysGone(t, announced + Announces(run[0]), run[1..], h);
      }
      var first := if run[0].Push? && run[0].listener == h && outcome == Done then [run[0].message] else [];
      var rest := Pushed(t, announced + Announces(run[0]), run[1..], h);
      assert Queue(s, h) + first + rest == Queue(s, h) + (first + rest);
    }
  }

  /** In every run from the start: the queue of a listener that is alive holds exactly the messages of
      the pushes to it that were not refused, in order. */
  lemma {:induction false} QueueIsWhatWasPushed(run: seq<Event>, h: int)
    requires AllowedRun(Initial(), {}, run) && h in Run(Initial(), {}, run).listeners
    ensures Run(Initial(), {}, run).listeners[h].outgoing == Pushed(Initial(), {}, run, h)
  {
    InitialIsOk();
    QueueGrows(Initial(), {}, run, h);
  }

  /** When a push is refused, and how. */
  lemma {:induction false} PushIs(s: State, h: int, m: Request)
    requires SocketsKnown(s)
    ensures var (t, outcome) := Apply(s, Push(h, m));
            && (outcome == Done <==>
                  h in s.listeners && s.listeners[h].socket != 0
                  && exists i :: 0 <= i < |s.sockets[s.listeners[h].socket].connections|
                                 && s.sockets[s.listeners[h].socket].connections[i].handle == m.connection)
            && (outcome == Failed(InvalidListener) <==> h !in s.listeners)
            && (outcome == Failed(InvalidCall) <==> h in s.listeners && s.listeners[h].socket == 0)
            && (outcome != Done ==> t == s)
            && (outcome == Done ==>
                  t == s.(listeners := s.listeners[h := s.listeners[h].(outgoing := s.listeners[h].outgoing + [m])]))
  {}

  predicate IncreasingFrom(low: int, handles: seq<int>)
  {
    && (forall i :: 0 <= i < |handles| ==> low <= handles[i])
    && (forall i, j :: 0 <= i < j < |handles| ==> handles[i] < handles[j])
  }

  /** No listener handle is given out twice, and all are positive, so that none is the invalid one. */
  lemma {:induction false} HandlesAreFresh(s: State, announced: set<int>, run: seq<Event>)
    requires Invariant(s, announced) && AllowedRun(s, announced, run)
    ensures s.nextHandle > 0 && IncreasingFrom(s.nextHandle, HandlesGiven(s, announced, run))
    decreases |run|
  {
    if run != [] {
      hide Apply;
      KeepsInvariant(s, announced, run[0]);
      KeepsHandles(s, run[0]);
      var (t, outcome) := Apply(s, run[0]);
      HandlesAreFresh(t, announced + Announces(run[0]), run[1..]);
      var first, rest := if outcome.Handle? then [outcome.handle] else [], HandlesGiven(t, announced + Announces(run[0]), run[1..]);
      assert HandlesGiven(s, announced, run) == first + rest;
      assert IncreasingFrom(s.nextHandle, first + rest);
    }
  }

  /** In every run from the start, each announced connection is on exactly one socket's list, once,
      and not closed, or is on none and has been closed exactly once. When no socket is left,
      exactly the announced connections have been closed. */
  lemma {:induction false} ConnectionsAreAccountedFor(run: seq<Event>, c: int)
    requires AllowedRun(Initial(), {}, run)
    ensures var t := Run(Initial(), {}, run);
            && ListedOnce(t.sockets)
            && (c in AnnouncedIn(run) <==> (Listed(t.sockets, c) || c in t.closed))
            && multiset(t.closed)[c] <= 1
            && !(Listed(t.sockets, c) && c in t.closed)
            && (t.sockets == map[] ==> (c in AnnouncedIn(run) <==> multiset(t.closed)[c] == 1))
  {
    hide AllowedRun, Run, AnnouncedIn, ListedOnce;
    InitialIsOk();
    RunKeepsInvariant(Initial(), {}, run);
    assert {} + AnnouncedIn(run) == AnnouncedIn(run);
    var t := Run(Initial(), {}, run);
    assert Settled(t.sockets, t.closed, AnnouncedIn(run), c);
    assert c in t.closed <==> c in multiset(t.closed);
  }

  // --- What one call undoes ------------------------------------------------------------

  /** A start that fails half-way keeps the socket: the state differs exactly when a socket was
      opened. Then another start is refused, and a stop brings the state back to what it was. */
  lemma {:induction false} StopUndoesStart(s: State, announced: set<int>, listener: int, init: Init, started: bool,
                                           again: Init)
    requires Invariant(s, announced) && HasSocket(s, listener, INVALID)
    requires Possible(s, Start(listener, init, started)) && Possible(Apply(s, Start(listener, init, started)).0, Start(listener, again, true))
    ensures var (t, outcome) := Apply(s, Start(listener, init, started));
            && (outcome == Done <==> init.Opened? && started)
            && (t == s <==> init.NoSocket?)
            && SocketsKnown(t)
            && (init.Opened? ==> Apply(t, Start(listener, again, true)).1 == Failed(InvalidCall))
            && (init.Opened? ==> Apply(t, Stop(listener)) == (s, Done))
  {
    var e := Start(listener, init, started);
    KeepsSockets(s, e);
    if init.Opened? {
      var t := Apply(s, e).0;
      var u := Apply(t, Stop(listener)).0;
      assert u.listeners == s.listeners && u.sockets == s.sockets;
      assert s.closed + [] == s.closed;
      assert init.socket in t.sockets;
    }
  }

  /** Destroying a listener removes it, its socket, and the connections on it, and nothing else. */
  lemma {:induction false} DestroyRemoves(s: State, announced: set<int>, listener: int)
    requires Invariant(s, announced) && listener in s.listeners
    ensures var (t, outcome) := Apply(s, Destroy(listener));
            && outcome == Done && t.nextHandle == s.nextHandle
            && t.listeners == s.listeners - {listener}
            && t.sockets == s.sockets - {s.listeners[listener].socket}
            && (forall c :: c in t.closed <==> c in s.closed || Tracked(s, s.listeners[listener].socket, c))
  {
    var k := s.listeners[listener].socket;
    var t := Apply(s, Destroy(listener)).0;
    assert t.listeners == s.listeners - {listener};
    if k == INVALID {
      assert s.sockets - {k} == s.sockets;
    } else {
      var connections := s.sockets[k].connections;
      forall c
        ensures c in HandlesOf(connections) <==> Lists(connections, c)
      {
        if Lists(connections, c) {
          var i :| 0 <= i < |connections| && connections[i].handle == c;
          assert HandlesOf(connections)[i] == c;
        }
      }
    }
  }
}
