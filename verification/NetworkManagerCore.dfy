/** The core of the network manager: its methods, against the state they are specified by. */
module NetworkManagerCore {
  import opened ListenerState

  /** The core of the network manager. What the library and the listener answer is passed to the
      methods that ask for it. */
  class Core {
    var listeners: map<int, ListenerInfo>
    var sockets: map<int, SocketInfo>
    var listenerHandleIndex: int
    ghost var closed: seq<int>
    ghost var announced: set<int>

    ghost function State(): State
      reads this
    {
      ListenerState.State.State(listeners, sockets, listenerHandleIndex, closed)
    }

    ghost predicate Valid()
      reads this
    {
      Invariant(State(), announced)
    }

    constructor ()
      ensures Valid() && State() == Initial() && announced == {}
    {
      listeners, sockets, listenerHandleIndex := map[], map[], 1;
      closed, announced := [], {};
      new;
      InitialIsOk();
    }

    /** The adapter's record of the connections that were closed through it. */
    method CloseConnection(connection: int)
      modifies this`closed
      ensures closed == old(closed) + [connection]
    {
      closed := closed + [connection];
    }

    method CreateListener(name: string) returns (r: Outcome)
      requires Valid()
      modifies this
      ensures Valid() && announced == old(announced)
      ensures (State(), r) == Apply(old(State()), Create(name))
      ensures r == Handle(old(listenerHandleIndex)) && listenerHandleIndex == old(listenerHandleIndex) + 1
      ensures listeners == old(listeners)[r.handle := ListenerInfo(if |name| <= 512 then name else name[..512], 0, [])]
      ensures sockets == old(sockets) && closed == old(closed)
    {
      KeepsInvariant(State(), announced, Create(name));
      assert announced + {} == announced;
      hide Invariant;
      var handle := listenerHandleIndex;
      listeners := listeners[handle := ListenerInfo("", INVALID, [])];
      listeners := listeners[handle := listeners[handle].(name := Truncated(name))];
      listenerHandleIndex := listenerHandleIndex + 1;
      assert listeners == old(listeners)[handle := ListenerInfo(Truncated(name), INVALID, [])];
      return Handle(handle);
    }

    method DestroyListener(listener: int) returns (r: Outcome)
      requires Valid()
      modifies this
      ensures Valid() && announced == old(announced)
      ensures (State(), r) == Apply(old(State()), Destroy(listener))
      ensures listener !in old(listeners) ==> r == Failed(InvalidListener) && State() == old(State())
      ensures listener in old(listeners) ==>
                && r == Done && listeners == old(listeners) - {listener} && listenerHandleIndex == old(listenerHandleIndex)
                && var socket := old(listeners)[listener].socket;
                && sockets == old(sockets) - {socket}
                && closed == old(closed) + (if socket in old(sockets) then HandlesOf(old(sockets)[socket].connections) else [])
    {
      KeepsInvariant(State(), announced, Destroy(listener));
      assert announced + {} == announced;
      if listener !in listeners {
        return Failed(InvalidListener);
      }
      var ignored := StopListening(listener);
      hide Invariant;
      listeners := listeners - {listener};
      return Done;
    }

    /** `init` is what opening the socket gives, `started` whether the listener's thread could start. */
    method StartListening(listener: int, init: Init, started: bool) returns (r: Outcome)
      requires Valid() && Possible(State(), Start(listener, init, started))
      modifies this
      ensures Valid() && announced == old(announced)
      ensures (State(), r) == Apply(old(State()), Start(listener, init, started))
      ensures listener !in old(listeners) ==> r == Failed(InvalidListener) && State() == old(State())
      ensures listener in old(listeners) && old(listeners)[listener].socket != 0 ==>
                r == Failed(InvalidCall) && State() == old(State())
      ensures listener in old(listeners) && old(listeners)[listener].socket == 0 ==>
                && r == (if init.Opened? && started then Done else Failed(FromListener))
                && closed == old(closed) && listenerHandleIndex == old(listenerHandleIndex)
                && (init.NoSocket? ==> listeners == old(listeners) && sockets == old(sockets))
                && (init.Opened? ==>
                      && listeners == old(listeners)[listener := old(listeners)[listener].(socket := init.socket)]
                      && sockets == old(sockets)[init.socket := SocketInfo([], init.pollGroup)])
    {
      KeepsInvariant(State(), announced, Start(listener, init, started));
      assert announced + {} == announced;
      hide Invariant;
      if listener !in listeners {
        return Failed(InvalidListener);
      }
      if listeners[listener].socket != INVALID {
        return Failed(InvalidCall);
      }
      if init.NoSocket? {
        return Failed(FromListener);
      }
      listeners := listeners[listener := listeners[listener].(socket := init.socket)];
      if init.socket !in sockets {
        sockets := sockets[init.socket := SocketInfo([], init.pollGroup)];
      }
      if !started {
        return Failed(FromListener);
      }
      return Done;
    }

    method StopListening(listener: int) returns (r: Outcome)
      requires Valid()
      modifies this
      ensures Valid() && announced == old(announced)
      ensures (State(), r) == Apply(old(State()), Stop(listener))
      ensures listener !in old(listeners) ==> r == Failed(InvalidListener) && State() == old(State())
      ensures listener in old(listeners) && old(listeners)[listener].socket == 0 ==>
                r == Failed(InvalidCall) && State() == old(State())
      ensures listener in old(listeners) && old(listeners)[listener].socket != 0 ==>
                && r == Done && listenerHandleIndex == old(listenerHandleIndex)
                && var info := old(listeners)[listener];
                && info.socket in old(sockets)
                && listeners == old(listeners)[listener := info.(socket := 0)] && sockets == old(sockets) - {info.socket}
                && closed == old(closed) + HandlesOf(old(sockets)[info.socket].connections)
    {
      KeepsInvariant(State(), announced, Stop(listener));
      assert announced + {} == announced;
      if listener !in listeners {
        return Failed(InvalidListener);
      }
      var socket := listeners[listener].socket;
      if socket == INVALID {
        return Failed(InvalidCall);
      }
      hide Invariant;
      var connections := sockets[socket].connections;
      ghost var handles := HandlesOf(connections);
      for i := 0 to |connections|
        invariant closed == old(closed) + handles[..i]
        invariant listeners == old(listeners) && sockets == old(sockets)
        invariant listenerHandleIndex == old(listenerHandleIndex) && announced == old(announced)
      {
        CloseConnection(connections[i].handle);
        assert handles[..i + 1] == handles[..i] + [connections[i].handle];
      }
      assert handles[..|connections|] == handles;
      sockets := sockets - {socket};
      listeners := listeners[listener := listeners[listener].(socket := INVALID)];
      return Done;
    }

    method FindConnection(connections: seq<Connection>, handle: int) returns (i: nat)
      ensures if Lists(connections, handle) then i == Find(connections, handle) else i == |connections|
    {
      i := 0;
      while i < |connections| && connections[i].handle != handle
        invariant i <= |connections| && forall j :: 0 <= j < i ==> connections[j].handle != handle
      {
        i := i + 1;
      }
      if i < |connections| {
        FindIs(connections, handle, i);
      }
    }

    method PushOutgoingMessageQueue(listener: int, message: Request) returns (r: Outcome)
      requires Valid()
      modifies this
      ensures Valid() && announced == old(announced)
      ensures (State(), r) == Apply(old(State()), Push(listener, message))
      ensures listener !in listeners ==> r == Failed(InvalidListener) && State() == old(State())
      ensures listener in listeners && listeners[listener].socket == 0 ==>
                r == Failed(InvalidCall) && State() == old(State())
      ensures listener in old(listeners) && old(listeners)[listener].socket != 0 ==>
                var info := old(listeners)[listener];
                && info.socket in sockets
                && sockets == old(sockets) && closed == old(closed) && listenerHandleIndex == old(listenerHandleIndex)
                && if exists i :: 0 <= i < |sockets[info.socket].connections| &&
                                  sockets[info.socket].connections[i].handle == message.connection
                   then r == Done && listeners == old(listeners)[listener := info.(outgoing := info.outgoing + [message])]
                   else r == Failed(InvalidConnection) && listeners == old(listeners)
    {
      KeepsInvariant(State(), announced, Push(listener, message));
      assert announced + {} == announced;
      if listener !in listeners {
        return Failed(InvalidListener);
      }
      var info := listeners[listener];
      if info.socket == INVALID {
        return Failed(InvalidCall);
      }
      var connections := sockets[info.socket].connections;
      hide Invariant;
      var i := FindConnection(connections, message.connection);
      if i == |connections| {
        return Failed(InvalidConnection);
      }
      listeners := listeners[listener := info.(outgoing := info.outgoing + [message])];
      return Done;
    }

    method ConnectionServed(socket: int, connection: int)
      requires Valid() && Tracked(State(), socket, connection)
      modifies this
      ensures Valid() && announced == old(announced)
      ensures State() == Apply(old(State()), Served(socket, connection)).0
      ensures listeners == old(listeners) && closed == old(closed) && listenerHandleIndex == old(listenerHandleIndex)
      ensures var info := old(sockets)[socket];
              exists i :: 0 <= i < |info.connections| && info.connections[i].handle == connection
                          && sockets == old(sockets)[socket := info.(connections :=
                               info.connections[i := Connection(connection, true)])]
    {
      KeepsInvariant(State(), announced, Served(socket, connection));
      assert announced + {} == announced;
      hide Invariant;
      var connections := sockets[socket].connections;
      var i := FindConnection(connections, connection);
      connections := connections[i := connections[i].(served := true)];
      sockets := sockets[socket := sockets[socket].(connections := connections)];
    }

    /** A connection wants to come in: `accepted` and `grouped` are what the library answers. */
    method OnConnecting(socket: int, connection: int, accepted: bool, grouped: bool)
      requires Valid() && Allowed(State(), announced, Connecting(socket, connection, accepted, grouped))
      modifies this
      ensures Valid() && announced == old(announced) + {connection}
      ensures State() == Apply(old(State()), Connecting(socket, connection, accepted, grouped)).0
      ensures listeners == old(listeners) && listenerHandleIndex == old(listenerHandleIndex)
      ensures !(accepted && grouped) ==> sockets == old(sockets) && closed == old(closed) + [connection]
      ensures accepted && grouped ==>
                && closed == old(closed) && socket in old(sockets)
                && var info := old(sockets)[socket];
                sockets == old(sockets)[socket := info.(connections := info.connections + [Connection(connection, false)])]
    {
      KeepsInvariant(State(), announced, Connecting(socket, connection, accepted, grouped));
      hide Invariant;
      announced := announced + {connection};
      if !accepted {
        CloseConnection(connection);
        return;
      }
      if !grouped {
        CloseConnection(connection);
        return;
      }
      var info := sockets[socket];
      sockets := sockets[socket := info.(connections := info.connections + [Connection(connection, false)])];
    }

    method OnDisconnected(socket: int, connection: int)
      requires Valid() && Tracked(State(), socket, connection)
      modifies this
      ensures Valid() && announced == old(announced)
      ensures State() == Apply(old(State()), Disconnected(socket, connection)).0
      ensures listeners == old(listeners) && closed == old(closed) + [connection]
      ensures listenerHandleIndex == old(listenerHandleIndex)
      ensures var info := old(sockets)[socket];
              exists i :: 0 <= i < |info.connections| && info.connections[i].handle == connection
                          && sockets == old(sockets)[socket := info.(connections :=
                               info.connections[..i] + info.connections[i + 1..])]
    {
      KeepsInvariant(State(), announced, Disconnected(socket, connection));
      assert announced + {} == announced;
      hide Invariant;
      var connections := sockets[socket].connections;
      var i := FindConnection(connections, connection);
      sockets := sockets[socket := sockets[socket].(connections := connections[..i] + connections[i + 1..])];
      CloseConnection(connection);
    }
  }

  const MAX_FUNCTIONS_PER_SESSION := 20

  datatype ConnectionState = NoState | IsConnecting | IsConnected | ProblemDetectedLocally | ClosedByPeer | OtherState

  /** The event that a change of a connection's state is, if it is one. */
  function EventOf(state: ConnectionState, socket: int, connection: int, accepted: bool, grouped: bool): seq<Event>
  {
    match state
    case IsConnecting => [Connecting(socket, connection, accepted, grouped)]
    case ProblemDetectedLocally => [Disconnected(socket, connection)]
    case ClosedByPeer => [Disconnected(socket, connection)]
    case _ => []
  }

  /** Passes a change of a connection's state on. */
  method CallbackManager(core: Core, state: ConnectionState, socket: int, connection: int, accepted: bool,
                         grouped: bool)
    requires core.Valid() && AllowedRun(core.State(), core.announced, EventOf(state, socket, connection, accepted, grouped))
    modifies core
    ensures var events := EventOf(state, socket, connection, accepted, grouped);
            && core.Valid() && core.announced == old(core.announced) + AnnouncedIn(events)
            && core.State() == old(Run(core.State(), core.announced, events))
    ensures state == IsConnecting ==>
              && core.announced == old(core.announced) + {connection}
              && core.closed == old(core.closed) + (if accepted && grouped then [] else [connection])
              && (accepted && grouped ==>
                    && socket in core.sockets && core.sockets[socket].connections != []
                    && core.sockets[socket].connections[|core.sockets[socket].connections| - 1] == Connection(connection, false))
    ensures state == ProblemDetectedLocally || state == ClosedByPeer ==>
              && core.closed == old(core.closed) + [connection] && core.announced == old(core.announced)
              && socket in core.sockets && socket in old(core.sockets)
              && |core.sockets[socket].connections| == |old(core.sockets)[socket].connections| - 1
    ensures state == NoState || state == IsConnected || state == OtherState ==>
              core.State() == old(core.State()) && core.announced == old(core.announced)
  {
    hide Invariant, Apply;
    if state == IsConnecting {
      core.OnConnecting(socket, connection, accepted, grouped);
    } else if state == ProblemDetectedLocally || state == ClosedByPeer {
      core.OnDisconnected(socket, connection);
    }
  }

  /** Carries out one call. */
  method Dispatch(core: Core, e: Event)
    requires core.Valid() && Allowed(core.State(), core.announced, e)
    modifies core
    ensures core.Valid() && core.announced == old(core.announced) + Announces(e)
    ensures core.State() == Apply(old(core.State()), e).0
  {
    hide Invariant, Apply;
    assert core.announced + {} == core.announced;
    match e
    case Create(name) => var _ := core.CreateListener(name);
    case Destroy(listener) => var _ := core.DestroyListener(listener);
    case Start(listener, init, started) => var _ := core.StartListening(listener, init, started);
    case Stop(listener) => var _ := core.StopListening(listener);
    case Push(listener, message) => var _ := core.PushOutgoingMessageQueue(listener, message);
    case Connecting(socket, connection, accepted, grouped) => core.OnConnecting(socket, connection, accepted, grouped);
    case Disconnected(socket, connection) => core.OnDisconnected(socket, connection);
    case Served(socket, connection) => core.ConnectionServed(socket, connection);
  }

  /** Carries out queued calls in order, at most a fixed number of them. */
  method PollFunctionCalls(core: Core, queue: seq<Event>) returns (rest: seq<Event>)
    requires var n := if |queue| < MAX_FUNCTIONS_PER_SESSION then |queue| else MAX_FUNCTIONS_PER_SESSION;
             core.Valid() && AllowedRun(core.State(), core.announced, queue[..n])
    modifies core
    ensures var n := if |queue| < 20 then |queue| else 20;
            && rest == queue[n..] && core.Valid()
            && core.State() == old(Run(core.State(), core.announced, queue[..n]))
  {
    hide Invariant, Apply, Allowed;
    ghost var n := if |queue| < MAX_FUNCTIONS_PER_SESSION then |queue| else MAX_FUNCTIONS_PER_SESSION;
    ghost var calls := queue[..n];
    var counter := 0;
    rest := queue;
    while rest != [] && counter < MAX_FUNCTIONS_PER_SESSION
      invariant counter <= n && rest == queue[counter..] && core.Valid()
      invariant AllowedRun(core.State(), core.announced, calls[counter..])
      invariant Run(core.State(), core.announced, calls[counter..]) == old(Run(core.State(), core.announced, queue[..n]))
    {
      var call := rest[0];
      rest := rest[1..];
      assert calls[counter..][0] == call && calls[counter..][1..] == calls[counter + 1..];
      Dispatch(core, call);
      counter := counter + 1;
    }
  }

  lemma {:induction false} FindIs(connections: seq<Connection>, handle: int, i: nat)
    requires i < |connections| && connections[i].handle == handle
    requires forall j :: 0 <= j < i ==> connections[j].handle != handle
    ensures Lists(connections, handle) && Find(connections, handle) == i
  {
    if i > 0 {
      FindIs(connections[1..], handle, i - 1);
    }
  }
}
