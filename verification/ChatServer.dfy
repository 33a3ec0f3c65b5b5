/**
 The chat server in place: connection objects, the server's table of them, and the service whose handlers
 change both and the stored rows. Every handler is proved to do what `Chat.State` says.
 */
module ChatServer {
  import opened Common
  import opened Chat

  class Connection {
    const id: ConnId
    var user: Option<User>
    var username: string
    var rooms: set<Room>
    var up: bool
    var out: seq<Out>

    constructor (id: ConnId)
      ensures this.id == id && View() == NEWCOMER
    {
      this.id, user, username, rooms, up, out := id, None, "", {}, true, [];
    }

    function View(): Conn
      reads this
    {
      Conn(user, username, rooms, up, out)
    }

    method JoinRoom(room: Room)
      modifies this
      ensures View() == old(View()).(rooms := old(rooms) + {room})
    {
      rooms := rooms + {room};
    }

    method LeaveRoom(room: Room)
      modifies this
      ensures View() == old(View()).(rooms := old(rooms) - {room})
    {
      rooms := rooms - {room};
    }

    method IsInRoom(room: Room) returns (inRoom: bool)
      ensures inRoom <==> room in rooms
    {
      inRoom := room in rooms;
    }

    method Send(o: Out)
      modifies this
      ensures View() == old(View()).Send(o)
    {
      if up {
        out := out + [o];
      }
    }
  }

  class TCPServer {
    var conns: map<ConnId, Connection>

    constructor ()
      ensures conns == map[]
    {
      conns := map[];
    }

    /** Connections are filed under their ids, so that no two entries are one object. */
    ghost predicate Valid()
      reads this, conns.Values
    {
      forall c <- conns :: conns[c].id == c
    }

    function Views(): map<ConnId, Conn>
      reads this, conns.Values
    {
      map c | c in conns :: conns[c].View()
    }

    ghost predicate Has(conn: Connection)
      reads this
    {
      conn.id in conns && conns[conn.id] == conn
    }

    /** The accept loop's work for one new connection; should its id be taken, it takes that entry's place. */
    method Accept(c: ConnId)
      requires Valid()
      modifies this
      ensures Valid() && fresh(conns.Values - old(conns.Values))
      ensures Views() == old(Views())[c := NEWCOMER]
    {
      var conn := new Connection(c);
      conns := conns[c := conn];
    }

    method Remove(c: ConnId)
      requires Valid()
      modifies this
      ensures Valid() && Views() == old(Views()) - {c} && conns == old(conns) - {c}
    {
      conns := conns - {c};
    }

    method Broadcast(message: Message)
      requires Valid()
      modifies conns.Values
      ensures Valid()
      ensures forall s: State | s.conns == old(Views()) :: s.Broadcast(message).conns == Views()
      ensures forall c <- conns :: conns[c].View() ==
                                   if c != message.via && old(conns[c].user).Some? &&
                                     message.room in old(conns[c].rooms)
                                   then old(conns[c].View()).Send(Receive(message)) else old(conns[c].View())
    {
      var todo := conns.Keys;
      while todo != {}
        invariant todo <= conns.Keys
        invariant forall c <- conns :: conns[c].id == c
        invariant forall c <- conns :: conns[c].View() ==
                                       if c !in todo && c != message.via && old(conns[c].user).Some? &&
                                         message.room in old(conns[c].rooms)
                                       then old(conns[c].View()).Send(Receive(message)) else old(conns[c].View())
        decreases todo
      {
        var c :| c in todo;
        var conn := conns[c];
        var inRoom := conn.IsInRoom(message.room);
        if conn.id != message.via && conn.user.Some? && inRoom {
          conn.Send(Receive(message));
        }
        todo := todo - {c};
      }
    }

    /** Some connection with this user id, if there is one; which one is left to the order of the table. */
    method GetConnection(target: Option<User>) returns (picked: Option<ConnId>)
      ensures picked.Some? ==> picked.value in conns && conns[picked.value].user == target
      ensures picked.None? ==> forall c <- conns :: conns[c].user != target
    {
      var todo := conns.Keys;
      while todo != {}
        invariant todo <= conns.Keys
        invariant forall c <- conns :: c !in todo ==> conns[c].user != target
        decreases todo
      {
        var c :| c in todo;
        if conns[c].user == target {
          return Some(c);
        }
        todo := todo - {c};
      }
      picked := None;
    }
  }

  class ChatService {
    const server: TCPServer
    var rooms: set<nat>
    var members: set<(nat, User)>
    var log: seq<Message>
    var presence: seq<Presence>

    constructor ()
      ensures fresh(server) && server.Valid()
      ensures State() == Chat.State(map[], {}, {}, [], [])
    {
      server := new TCPServer();
      rooms, members, log, presence := {}, {}, [], [];
    }

    function State(): Chat.State
      reads this, server, server.conns.Values
    {
      Chat.State(server.Views(), rooms, members, log, presence)
    }

    method HandleDisconnect(conn: Connection)
      requires server.Valid() && server.Has(conn)
      modifies this, server
      ensures server.Valid() && State() == old(State()).Disconnect(conn.id)
    {
      server.Remove(conn.id);
      if conn.user.Some? {
        presence := presence + [Offline(conn.user.value)];
      }
    }

    method SendError(conn: Connection, code: ErrorCode)
      requires server.Valid() && server.Has(conn)
      modifies conn
      ensures server.Valid() && State() == old(State()).SendTo(conn.id, Failed(code))
    {
      conn.Send(Failed(code));
    }

    method HandleAuth(conn: Connection, token: Token, username: string)
      requires server.Valid() && server.Has(conn)
      modifies conn
      ensures server.Valid() && State() == old(State()).HandleAuth(conn.id, token, username)
    {
      match token {
        case Missing => SendError(conn, BadRequest);
        case Invalid => SendError(conn, AuthRejected);
        case Valid(u) =>
          conn.user, conn.username := Some(u), username;
          conn.Send(AuthOk(u));
          ghost var was := old(conn.View());
          assert server.Views() == old(server.Views())[conn.id :=
            was.(user := Some(u), username := username).Send(AuthOk(u))];
      }
    }

    method HandleHeartbeat(conn: Connection)
      requires server.Valid() && server.Has(conn)
      modifies this, conn
      ensures server.Valid() && State() == old(State()).HandleHeartbeat(conn.id)
    {
      conn.Send(HeartbeatAck);
      if conn.user.Some? {
        presence := presence + [Online(conn.user.value, conn.username)];
      }
    }

    method HandleJoinRoom(conn: Connection, request: Option<Room>)
      requires server.Valid() && server.Has(conn)
      modifies this, conn
      ensures server.Valid() && State() == old(State()).HandleJoinRoom(conn.id, request)
    {
      if conn.user.None? {
        SendError(conn, Unauthorized);
        return;
      }
      if request.None? {
        SendError(conn, BadRequest);
        return;
      }
      var row := (request.value.Key(), conn.user.value);
      if row.0 !in rooms || row in members {
        SendError(conn, InternalError);
        return;
      }
      members := members + {row};
      conn.Send(JoinOk(request.value));
      conn.JoinRoom(request.value);
      ghost var sent := old(conn.View()).Send(JoinOk(request.value));
      assert server.Views() == old(server.Views())[conn.id := sent.(rooms := sent.rooms + {request.value})];
    }

    method HandleLeaveRoom(conn: Connection, request: Option<Room>)
      requires server.Valid() && server.Has(conn)
      modifies this, conn
      ensures server.Valid() && State() == old(State()).HandleLeaveRoom(conn.id, request)
    {
      if conn.user.None? {
        SendError(conn, Unauthorized);
        return;
      }
      if request.None? {
        SendError(conn, BadRequest);
        return;
      }
      var row := (request.value.Key(), conn.user.value);
      if row !in members {
        SendError(conn, InternalError);
        return;
      }
      members := members - {row};
      conn.LeaveRoom(request.value);
      conn.Send(LeaveOk(request.value));
      ghost var left := old(conn.View()).(rooms := old(conn.rooms) - {request.value});
      assert server.Views() == old(server.Views())[conn.id := left.Send(LeaveOk(request.value))];
    }

    /** Asks the block checker about each other stored member of the room, in any order, until one says yes. */
    method IsBlockedIn(u: User, room: Room, checker: set<(User, User)>) returns (blocked: bool)
      ensures blocked == State().BlockedIn(u, room, checker)
    {
      var todo := set m | m in members && m.0 == room.Key();
      ghost var all := todo;
      while todo != {}
        invariant todo <= all
        invariant forall m <- all :: m !in todo ==> m.1 == u || (u, m.1) !in checker
        decreases todo
      {
        var m :| m in todo;
        if m.1 != u && (u, m.1) in checker {
          assert m in members;
          return true;
        }
        todo := todo - {m};
      }
      blocked := false;
    }

    method HandleSendMessage(conn: Connection, request: Option<(Room, string)>, checker: set<(User, User)>)
      requires server.Valid() && server.Has(conn)
      modifies this, server.conns.Values
      ensures server.Valid() && State() == old(State()).HandleSendMessage(conn.id, request, checker)
    {
      if conn.user.None? {
        SendError(conn, Unauthorized);
        return;
      }
      if request.None? {
        SendError(conn, BadRequest);
        return;
      }
      var room, u := request.value.0, conn.user.value;
      if room.uuid.None? {
        SendError(conn, BadRequest);
        return;
      }
      var inRoom := conn.IsInRoom(room);
      if !inRoom {
        SendError(conn, Forbidden);
        return;
      }
      var blocked := IsBlockedIn(u, room, checker);
      if blocked {
        SendError(conn, Forbidden);
        return;
      }
      if room.Key() !in rooms {
        SendError(conn, InternalError);
        return;
      }
      var message := Message(|log|, conn.id, u, room, request.value.1);
      log := log + [message];
      ghost var stored := State();
      assert stored == old(State()).(log := log);
      server.Broadcast(message);
      assert stored.Broadcast(message).conns == server.Views();
    }

    method HandleInviteRoom(conn: Connection, request: Option<(Room, Option<User>)>) returns (picked: Option<ConnId>)
      requires server.Valid() && server.Has(conn)
      modifies server.conns.Values
      ensures server.Valid() && State() == old(State()).HandleInviteRoom(conn.id, request, picked)
      ensures picked.None? && request.Some? && request.value.0.uuid.Some? && conn.user.Some?
              && (request.value.0.Key(), conn.user.value) in members ==>
                forall c <- server.conns :: server.conns[c].user != request.value.1
    {
      picked := None;
      if conn.user.None? {
        SendError(conn, Unauthorized);
        return;
      }
      if request.None? {
        SendError(conn, BadRequest);
        return;
      }
      var room, u := request.value.0, conn.user.value;
      if room.uuid.None? {
        SendError(conn, BadRequest);
        return;
      }
      if (room.Key(), u) !in members {
        SendError(conn, Forbidden);
        return;
      }
      picked := server.GetConnection(request.value.1);
      if picked.Some? {
        server.conns[picked.value].Send(Invite(room, u, conn.username));
      }
    }

    method HandleMessage(conn: Connection, env: Envelope, checker: set<(User, User)>) returns (picked: Option<ConnId>)
      requires server.Valid() && server.Has(conn)
      modifies this, server.conns.Values
      ensures server.Valid() && State() == old(State()).HandleMessage(conn.id, env, Surroundings(checker, picked))
    {
      picked := None;
      match env {
        case Auth(token, username) => HandleAuth(conn, token, username);
        case Heartbeat => HandleHeartbeat(conn);
        case JoinRoom(room) => HandleJoinRoom(conn, room);
        case LeaveRoom(room) => HandleLeaveRoom(conn, room);
        case SendMsg(request) => HandleSendMessage(conn, request, checker);
        case InviteRoom(invitation) => picked := HandleInviteRoom(conn, invitation);
        case Other =>
      }
    }
  }
}
