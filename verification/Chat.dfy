/**
 The chat server as a state that handlers change, one handler at a time: connections with their room
 sets and outgoing streams, the stored rooms, membership rows and messages. `ChatServer.dfy` runs the
 handlers in place; `ChatSteps.dfy` interleaves them.
 */
module Chat {
  import opened Common

  type User = nat

  type ConnId = nat

  /** What uuid.Parse returns beside an error that is ignored. */
  const NIL: nat := 0

  /** A room string: the UUID it parses to, if it does, and which of the ways to write it this is. */
  datatype Room = Room(uuid: Option<nat>, spelling: nat) {
    predicate Canonical() {
      uuid.Some? && spelling == 0
    }

    function Key(): nat {
      if uuid.Some? then uuid.value else NIL
    }
  }

  /** A stored message; `via` and `room` record the connection and the room string it was sent with. */
  datatype Message = Message(id: nat, via: ConnId, sender: User, room: Room, content: string)

  datatype ErrorCode = BadRequest | AuthRejected | Unauthorized | InternalError | Forbidden | RoomNotFound

  datatype Out =
    | AuthOk(user: User)
    | HeartbeatAck
    | JoinOk(joined: Room)
    | LeaveOk(left: Room)
    | Receive(message: Message)
    | Invite(to: Room, inviter: User, inviterName: string)
    | Notice(about: User)
    | Failed(code: ErrorCode)

  // `Notice` stands for the presence, removal and block notices of the friends service.

  /** `up` says that writes to the peer still succeed; `out` is what has been written. */
  datatype Conn = Conn(user: Option<User>, username: string, rooms: set<Room>, up: bool, out: seq<Out>) {
    function Send(o: Out): Conn {
      if up then this.(out := out + [o]) else this
    }
  }

  /** A connection as it is accepted. */
  const NEWCOMER: Conn := Conn(None, "", {}, true, [])

  datatype Presence = Online(user: User, username: string) | Offline(user: User)

  datatype Token = Missing | Invalid | Valid(user: User)

  /**
   The messages a client sends; a request whose payload is missing is `None`, and so is an invitation's target
   left empty.
   */
  datatype Envelope =
    | Auth(token: Token, username: string)
    | Heartbeat
    | JoinRoom(room: Option<Room>)
    | LeaveRoom(room: Option<Room>)
    | SendMsg(request: Option<(Room, string)>)
    | InviteRoom(invitation: Option<(Room, Option<User>)>)
    | Other

  /**
   `checker` holds the pairs for which the block checker answers yes; `picked` is the connection that
   the search for an invited user comes upon.
   */
  datatype Surroundings = Surroundings(checker: set<(User, User)>, picked: Option<ConnId>)

  datatype State = State(
    conns: map<ConnId, Conn>,
    rooms: set<nat>,
    members: set<(nat, User)>,
    log: seq<Message>,
    presence: seq<Presence>)
  {
    function SendTo(c: ConnId, o: Out): State
      requires c in conns
    {
      this.(conns := conns[c := conns[c].Send(o)])
    }

    function Accept(c: ConnId): State {
      this.(conns := conns[c := NEWCOMER])
    }

    function Disconnect(c: ConnId): State {
      if c !in conns then this
      else
        this.(conns := conns - {c},
              presence := presence + if conns[c].user.Some? then [Offline(conns[c].user.value)] else [])
    }

    function HandleAuth(c: ConnId, token: Token, username: string): State
      requires c in conns
    {
      match token
      case Missing => SendTo(c, Failed(BadRequest))
      case Invalid => SendTo(c, Failed(AuthRejected))
      case Valid(u) => this.(conns := conns[c := conns[c].(user := Some(u), username := username).Send(AuthOk(u))])
    }

    function HandleHeartbeat(c: ConnId): State
      requires c in conns
    {
      var conn := conns[c];
      SendTo(c, HeartbeatAck).(
        presence := presence + if conn.user.Some? then [Online(conn.user.value, conn.username)] else [])
    }

    function HandleJoinRoom(c: ConnId, request: Option<Room>): State
      requires c in conns
    {
      if conns[c].user.None? then SendTo(c, Failed(Unauthorized))
      else if request.None? then SendTo(c, Failed(BadRequest))
      else
        var room, row := request.value, (request.value.Key(), conns[c].user.value);
        if room.Key() !in rooms || row in members then SendTo(c, Failed(InternalError))
        else
          var sent := conns[c].Send(JoinOk(room));
          this.(members := members + {row}, conns := conns[c := sent.(rooms := sent.rooms + {room})])
    }

    function HandleLeaveRoom(c: ConnId, request: Option<Room>): State
      requires c in conns
    {
      if conns[c].user.None? then SendTo(c, Failed(Unauthorized))
      else if request.None? then SendTo(c, Failed(BadRequest))
      else
        var room, row := request.value, (request.value.Key(), conns[c].user.value);
        if row !in members then SendTo(c, Failed(InternalError))
        else
          var left := conns[c].(rooms := conns[c].rooms - {room});
          this.(members := members - {row}, conns := conns[c := left.Send(LeaveOk(room))])
    }

    /** Some other stored member of the room for which the checker, asked about the sender first, says yes. */
    predicate BlockedIn(u: User, room: Room, checker: set<(User, User)>) {
      exists m <- members :: m.0 == room.Key() && m.1 != u && (u, m.1) in checker
    }

    predicate Hears(d: ConnId, room: Room)
      requires d in conns
    {
      conns[d].user.Some? && room in conns[d].rooms
    }

    function Broadcast(message: Message): State {
      this.(conns := map d | d in conns ::
                       if d != message.via && Hears(d, message.room) then conns[d].Send(Receive(message)) else conns[d])
    }

    /** Why a send is refused, if it is. */
    function Refusal(c: ConnId, request: Option<(Room, string)>, checker: set<(User, User)>): Option<ErrorCode>
      requires c in conns
    {
      if conns[c].user.None? then Some(Unauthorized)
      else if request.None? then Some(BadRequest)
      else
        var u, room := conns[c].user.value, request.value.0;
        if room.uuid.None? then Some(BadRequest)
        else if room !in conns[c].rooms then Some(Forbidden)
        else if BlockedIn(u, room, checker) then Some(Forbidden)
        else if room.Key() !in rooms then Some(InternalError)
        else None
    }

    /** Stores a message and broadcasts it. */
    function Post(message: Message): State {
      this.(log := log + [message]).Broadcast(message)
    }

    function HandleSendMessage(c: ConnId, request: Option<(Room, string)>, checker: set<(User, User)>): State
      requires c in conns
    {
      match Refusal(c, request, checker)
      case Some(code) => SendTo(c, Failed(code))
      case None => Post(Message(|log|, c, conns[c].user.value, request.value.0, request.value.1))
    }

    /** The connection found for a user id; the empty id is that of a connection that has not logged in. */
    predicate Found(target: Option<User>, picked: Option<ConnId>) {
      picked.Some? && picked.value in conns && conns[picked.value].user == target
    }

    function HandleInviteRoom(c: ConnId, request: Option<(Room, Option<User>)>, picked: Option<ConnId>): State
      requires c in conns
    {
      if conns[c].user.None? then SendTo(c, Failed(Unauthorized))
      else if request.None? then SendTo(c, Failed(BadRequest))
      else
        var u, room := conns[c].user.value, request.value.0;
        if room.uuid.None? then SendTo(c, Failed(BadRequest))
        else if (room.Key(), u) !in members then SendTo(c, Failed(Forbidden))
        else if !Found(request.value.1, picked) then this
        else SendTo(picked.value, Invite(room, u, conns[c].username))
    }

    function HandleMessage(c: ConnId, env: Envelope, around: Surroundings): State
      requires c in conns
    {
      match env
      case Auth(token, username) => HandleAuth(c, token, username)
      case Heartbeat => HandleHeartbeat(c)
      case JoinRoom(room) => HandleJoinRoom(c, room)
      case LeaveRoom(room) => HandleLeaveRoom(c, room)
      case SendMsg(request) => HandleSendMessage(c, request, around.checker)
      case InviteRoom(invitation) => HandleInviteRoom(c, invitation, around.picked)
      case Other => this
    }

    /** Creating a room over HTTP stores it with its owner as a member. */
    function CreateRoom(room: nat, owner: User): State {
      if room in rooms then this else this.(rooms := rooms + {room}, members := members + {(room, owner)})
    }

    function BreakLink(c: ConnId): State {
      if c in conns then this.(conns := conns[c := conns[c].(up := false)]) else this
    }
  }

  // ---------------------------------------------------------------- runs of handlers

  datatype Event =
    | Connected(c: ConnId)
    | Disconnected(c: ConnId)
    | Got(c: ConnId, env: Envelope, around: Surroundings)
    | RoomCreated(room: nat, owner: User)
    | LinkBroke(c: ConnId)

  function Step(s: State, e: Event): State {
    match e
    case Connected(c) => s.Accept(c)
    case Disconnected(c) => s.Disconnect(c)
    case Got(c, env, around) => if c in s.conns then s.HandleMessage(c, env, around) else s
    case RoomCreated(room, owner) => s.CreateRoom(room, owner)
    case LinkBroke(c) => s.BreakLink(c)
  }

  function Run(s: State, events: seq<Event>): State
    decreases |events|
  {
    if events == [] then s else Step(Run(s, events[..|events| - 1]), events[|events| - 1])
  }

  /** The messages of one room string in an outgoing stream. */
  function Received(out: seq<Out>, room: Room): seq<Message> {
    if out == [] then []
    else
      var last := out[|out| - 1];
      Received(out[..|out| - 1], room) + if last.Receive? && last.message.room == room then [last.message] else []
  }

  /** The stored messages of one room string that did not come through one connection. */
  function StoredFor(log: seq<Message>, room: Room, except: ConnId): seq<Message> {
    if log == [] then []
    else
      var last := log[|log| - 1];
      StoredFor(log[..|log| - 1], room, except) + if last.room == room && last.via != except then [last] else []
  }

  ghost predicate Listening(s: State, d: ConnId, room: Room) {
    d in s.conns && s.Hears(d, room) && s.conns[d].up
  }

  lemma ReceivedSnoc(out: seq<Out>, o: Out, room: Room)
    ensures Received(out + [o], room)
         == Received(out, room) + if o.Receive? && o.message.room == room then [o.message] else []
  {
    assert (out + [o])[..|out|] == out;
  }

  lemma StoredForOne(m: Message, room: Room, except: ConnId)
    ensures StoredFor([m], room, except) == if m.room == room && m.via != except then [m] else []
  {
    assert [m][..0] == [];
  }

  lemma {:induction false} StoredForAppend(log: seq<Message>, more: seq<Message>, room: Room, except: ConnId)
    ensures StoredFor(log + more, room, except) == StoredFor(log, room, except) + StoredFor(more, room, except)
  {
    if more == [] {
      assert log + more == log;
    } else {
      var n := |more| - 1;
      StoredForAppend(log, more[..n], room, except);
      assert (log + more)[..|log + more| - 1] == log + more[..n];
    }
  }

  /** Whatever is written to one connection alone is not a room message, unless it is. */
  lemma OnePeer(s: State, c: ConnId, o: Out, d: ConnId, room: Room)
    requires c in s.conns && d in s.conns && !o.Receive?
    ensures Received(s.SendTo(c, o).conns[d].out, room) == Received(s.conns[d].out, room)
  {
    ReceivedSnoc(s.conns[c].out, o, room);
  }

  lemma OfListening(s: State, d: ConnId, room: Room)
    requires Listening(s, d, room)
    ensures d in s.conns && StoredFor([], room, d) == []
  {
  }

  lemma PostDelivers(s: State, m: Message, d: ConnId, room: Room)
    requires Listening(s, d, room)
    ensures var t := s.Post(m);
            && s.log <= t.log && d in t.conns
            && Received(t.conns[d].out, room) == Received(s.conns[d].out, room) + StoredFor(t.log[|s.log|..], room, d)
  {
    assert s.Post(m).log[|s.log|..] == [m];
    StoredForOne(m, room, d);
    ReceivedSnoc(s.conns[d].out, Receive(m), room);
    hide Received, StoredFor;
  }

  lemma StepDelivers(s: State, e: Event, d: ConnId, room: Room)
    requires Listening(s, d, room) && Listening(Step(s, e), d, room)
    ensures var t := Step(s, e);
            && s.log <= t.log
            && Received(t.conns[d].out, room) == Received(s.conns[d].out, room) + StoredFor(t.log[|s.log|..], room, d)
  {
    hide Received;
    if e.Got? && e.c in s.conns && e.env.SendMsg? && s.Refusal(e.c, e.env.request, e.around.checker).None? {
      var (inRoom, content) := e.env.request.value;
      PostDelivers(s, Message(|s.log|, e.c, s.conns[e.c].user.value, inRoom, content), d, room);
    } else {
      assert Step(s, e).log == s.log;
      var out, out' := s.conns[d].out, Step(s, e).conns[d].out;
      assert out' == out || (|out'| == |out| + 1 && out' == out + [out'[|out|]] && !out'[|out|].Receive?);
      if out' != out {
        ReceivedSnoc(out, out'[|out|], room);
      }
    }
  }

  /**
   With handlers one at a time, a connection that stays in a room over a stretch of a run receives exactly
   the messages stored for that room string in the stretch, in log order, minus its own.
   */
  lemma {:induction false} ListenerReceivesLog(s: State, events: seq<Event>, d: ConnId, room: Room)
    requires forall n | 0 <= n <= |events| :: Listening(Run(s, events[..n]), d, room)
    ensures var t := Run(s, events);
            && d in s.conns && d in t.conns && s.log <= t.log
            && Received(t.conns[d].out, room) == Received(s.conns[d].out, room) + StoredFor(t.log[|s.log|..], room, d)
    decreases |events|
  {
    hide Step, Received, StoredFor, Listening;
    assert events[..|events|] == events;
    assert Listening(Run(s, events[..0]), d, room);
    OfListening(s, d, room);
    if events != [] {
      var before := events[..|events| - 1];
      assert forall n | 0 <= n <= |before| :: before[..n] == events[..n];
      ListenerReceivesLog(s, before, d, room);
      var r, t := Run(s, before), Run(s, events);
      assert Listening(r, d, room) by {
        assert events[..|before|] == before;
      }
      StepDelivers(r, events[|events| - 1], d, room);
      OfListening(t, d, room);
      StoredForAppend(r.log[|s.log|..], t.log[|r.log|..], room, d);
      assert t.log[|s.log|..] == r.log[|s.log|..] + t.log[|r.log|..];
    }
  }

  // ----------------------------------------------------------------- who receives what

  /**
   A stored message is written to exactly the other connections that are logged in and in its room, once each,
   as far as writes to them succeed; everybody else's stream, and all else about every connection, stays.
   */
  lemma PostReachesExactly(s: State, m: Message, d: ConnId)
    requires d in s.conns
    ensures var t := s.Post(m);
            var reached := d != m.via && s.conns[d].user.Some? && m.room in s.conns[d].rooms && s.conns[d].up;
            && d in t.conns && t.conns[d].(out := s.conns[d].out) == s.conns[d]
            && t.conns[d].out == (if reached then s.conns[d].out + [Receive(m)] else s.conns[d].out)
            && t.log == s.log + [m] && t.(conns := s.conns, log := s.log) == s
  {
  }

  /** What may be new in the stream of a connection that is not in a room: not a message of that room. */
  lemma OutsiderStep(s: State, e: Event, d: ConnId, room: Room)
    requires d in s.conns && d in Step(s, e).conns && room !in s.conns[d].rooms
    ensures var out, out' := s.conns[d].out, Step(s, e).conns[d].out;
            out' == out || out' == [] ||
            (|out'| == |out| + 1 && out' == out + [out'[|out|]]
             && (out'[|out|].Receive? ==> out'[|out|].message.room != room))
  {
    if e.Got? && e.c in s.conns && e.env.SendMsg? && s.Refusal(e.c, e.env.request, e.around.checker).None? {
      var (inRoom, content) := e.env.request.value;
      PostReachesExactly(s, Message(|s.log|, e.c, s.conns[e.c].user.value, inRoom, content), d);
    }
  }

  /** Over any run in which a connection is never in a room, it receives nothing of that room. */
  lemma {:induction false} OutsiderReceivesNothing(s: State, events: seq<Event>, d: ConnId, room: Room)
    requires forall n | 0 <= n <= |events| ::
               d in Run(s, events[..n]).conns && room !in Run(s, events[..n]).conns[d].rooms
    ensures d in s.conns && d in Run(s, events).conns
    ensures Received(Run(s, events).conns[d].out, room) <= Received(s.conns[d].out, room)
    decreases |events|
  {
    hide Step, Received;
    assert events[..|events|] == events && Run(s, events[..0]) == s;
    if events != [] {
      var before, last := events[..|events| - 1], events[|events| - 1];
      assert forall n | 0 <= n <= |before| :: before[..n] == events[..n];
      OutsiderReceivesNothing(s, before, d, room);
      var r := Run(s, before);
      assert events[..|before|] == before;
      OutsiderStep(r, last, d, room);
      var out, out' := r.conns[d].out, Step(r, last).conns[d].out;
      NothingReceived(room);
      if |out'| == |out| + 1 && out' == out + [out'[|out|]] {
        ReceivedSnoc(out, out'[|out|], room);
      }
    }
  }

  lemma NothingReceived(room: Room)
    ensures Received([], room) == []
  {
  }

  /**
   What a connection sends changes another connection by at most one item in its stream: the message it posts
   to a room they are both in, or its invitation.
   */
  lemma OthersSeeOnlyRoomAndInvitations(s: State, c: ConnId, env: Envelope, around: Surroundings, d: ConnId)
    requires c in s.conns && d in s.conns && d != c
    ensures var t := Step(s, Got(c, env, around));
            && d in t.conns && t.conns[d].(out := s.conns[d].out) == s.conns[d]
            && (t.conns[d].out != s.conns[d].out ==>
                  && s.conns[c].user.Some? && s.conns[d].up
                  && var u, was := s.conns[c].user.value, s.conns[d].out;
                  || (exists room, content ::
                        && env == SendMsg(Some((room, content)))
                        && room in s.conns[c].rooms && room in s.conns[d].rooms && s.conns[d].user.Some?
                        && t.conns[d].out == was + [Receive(Message(|s.log|, c, u, room, content))])
                  || (exists room :: && env == InviteRoom(Some((room, s.conns[d].user)))
                        && t.conns[d].out == was + [Invite(room, u, s.conns[c].username)]))
  {
    match env
    case SendMsg(request) =>
      if s.Refusal(c, request, around.checker).None? {
        PostReachesExactly(s, Message(|s.log|, c, s.conns[c].user.value, request.value.0, request.value.1), d);
      }
    case _ =>
  }

  // ------------------------------------------------------------------------ the answers

  /** The one new item in a connection's stream. */
  ghost predicate Answered(s: State, t: State, c: ConnId, answer: Out) {
    c in s.conns && c in t.conns && t.conns[c].out == s.conns[c].out + [answer]
  }

  /** What uuid.Parse makes of a room string: nil, where the code ignores that it fails. */
  function Parsed(room: Room): nat {
    if room.uuid.Some? then room.uuid.value else 0
  }

  lemma OneAnswer(s: State, t: State, c: ConnId, answer: Out)
    requires Answered(s, t, c, answer)
    ensures forall other :: Answered(s, t, c, other) <==> other == answer
  {
    assert t.conns[c].out[|s.conns[c].out|] == answer;
  }

  /** A valid token makes the connection its user's under the name given; any other changes nothing but the stream. */
  lemma AuthAnswers(s: State, c: ConnId, token: Token, username: string)
    requires c in s.conns && s.conns[c].up
    ensures var t := s.HandleAuth(c, token, username);
            && (Answered(s, t, c, Failed(BadRequest)) <==> token.Missing?)
            && (Answered(s, t, c, Failed(AuthRejected)) <==> token.Invalid?)
            && (forall u :: Answered(s, t, c, AuthOk(u)) <==> token == Valid(u))
            && t.conns[c].user == (if token.Valid? then Some(token.user) else s.conns[c].user)
            && t.conns[c].username == (if token.Valid? then username else s.conns[c].username)
            && t.conns[c].rooms == s.conns[c].rooms && t.(conns := s.conns) == s
  {
    var t := s.HandleAuth(c, token, username);
    OneAnswer(s, t, c, if token.Valid? then AuthOk(token.user) else
                       Failed(if token.Missing? then BadRequest else AuthRejected));
  }

  /** The name given on logging in is the one heartbeats and invitations carry, until the next login. */
  lemma NameTravels(s: State, c: ConnId, u: User, username: string, room: Room, d: ConnId)
    requires c in s.conns && d in s.conns && d != c && s.conns[d].up
    requires room.uuid.Some? && (room.uuid.value, u) in s.members
    ensures var t := Step(s, Got(c, Auth(Valid(u), username), ALONE));
            var beaten := Step(t, Got(c, Heartbeat, ALONE));
            var invited := Step(t, Got(c, InviteRoom(Some((room, s.conns[d].user))), Surroundings({}, Some(d))));
            && beaten.presence == s.presence + [Online(u, username)]
            && (s.conns[c].up ==> Answered(t, beaten, c, HeartbeatAck))
            && Answered(t, invited, d, Invite(room, u, username))
  {
  }

  /** A message of any other type is ignored. */
  lemma OthersAreIgnored(s: State, c: ConnId, around: Surroundings)
    ensures Step(s, Got(c, Other, around)) == s
  {
  }

  /** A connection comes without user, rooms or output, even where its id is taken, and the others stay. */
  lemma AcceptedIsNew(s: State, c: ConnId)
    ensures var t := Step(s, Connected(c));
            && t.conns.Keys == s.conns.Keys + {c} && (forall d <- s.conns :: d != c ==> t.conns[d] == s.conns[d])
            && t.conns[c].user == None && t.conns[c].rooms == {} && t.conns[c].up && t.conns[c].out == []
            && t.conns[c].username == "" && t.(conns := s.conns) == s
  {
  }

  /** A connection that closes is gone, its user, if any, is set offline, and the other connections stay as they are. */
  lemma ClosedIsGone(s: State, c: ConnId)
    requires c in s.conns
    ensures var t := Step(s, Disconnected(c));
            && t.conns.Keys == s.conns.Keys - {c} && (forall d <- t.conns :: t.conns[d] == s.conns[d])
            && t.presence == s.presence + (if s.conns[c].user.Some? then [Offline(s.conns[c].user.value)] else [])
            && t.(conns := s.conns, presence := s.presence) == s
  {
  }

  /** Once its link has broken a connection's peer sees nothing more, whatever is sent to it. */
  lemma {:induction false} BrokenLinkIsSilent(s: State, events: seq<Event>, d: ConnId)
    requires d in s.conns && forall e <- events :: e != Connected(d) && e != Disconnected(d)
    ensures var t := Run(Step(s, LinkBroke(d)), events);
            d in t.conns && !t.conns[d].up && t.conns[d].out == s.conns[d].out
    decreases |events|
  {
    if events != [] {
      var before, last := events[..|events| - 1], events[|events| - 1];
      assert (forall e <- before :: e in events) && last in events;
      BrokenLinkIsSilent(s, before, d);
      SilentStep(Run(Step(s, LinkBroke(d)), before), last, d);
      hide Step;
    }
  }

  lemma SilentStep(s: State, e: Event, d: ConnId)
    requires d in s.conns && !s.conns[d].up && e != Connected(d) && e != Disconnected(d)
    ensures var t := Step(s, e); d in t.conns && !t.conns[d].up && t.conns[d].out == s.conns[d].out
  {
  }

  /** Each answer to a request to join; room set and rows change exactly when it is the good one. */
  lemma JoinAnswers(s: State, c: ConnId, request: Option<Room>)
    requires c in s.conns && s.conns[c].up
    ensures var t, user := s.HandleJoinRoom(c, request), s.conns[c].user;
            var joins := user.Some? && request.Some? && Parsed(request.value) in s.rooms
                         && (Parsed(request.value), user.value) !in s.members;
            && (Answered(s, t, c, Failed(Unauthorized)) <==> user.None?)
            && (Answered(s, t, c, Failed(BadRequest)) <==> user.Some? && request.None?)
            && (Answered(s, t, c, Failed(InternalError)) <==> user.Some? && request.Some? && !joins)
            && (forall room :: Answered(s, t, c, JoinOk(room)) <==> joins && request == Some(room))
            && t.conns[c].rooms == (if joins then s.conns[c].rooms + {request.value} else s.conns[c].rooms)
            && t.members == (if joins then s.members + {(Parsed(request.value), user.value)} else s.members)
            && t.(conns := s.conns, members := s.members) == s
  {
    var t, user := s.HandleJoinRoom(c, request), s.conns[c].user;
    OneAnswer(s, t, c, if user.None? then Failed(Unauthorized)
                       else if request.None? then Failed(BadRequest)
                       else if request.value.Key() !in s.rooms || (request.value.Key(), user.value) in s.members
                       then Failed(InternalError) else JoinOk(request.value));
  }

  /** Each answer to a request to leave, likewise. */
  lemma LeaveAnswers(s: State, c: ConnId, request: Option<Room>)
    requires c in s.conns && s.conns[c].up
    ensures var t, user := s.HandleLeaveRoom(c, request), s.conns[c].user;
            var leaves := user.Some? && request.Some? && (Parsed(request.value), user.value) in s.members;
            && (Answered(s, t, c, Failed(Unauthorized)) <==> user.None?)
            && (Answered(s, t, c, Failed(BadRequest)) <==> user.Some? && request.None?)
            && (Answered(s, t, c, Failed(InternalError)) <==> user.Some? && request.Some? && !leaves)
            && (forall room :: Answered(s, t, c, LeaveOk(room)) <==> leaves && request == Some(room))
            && t.conns[c].rooms == (if leaves then s.conns[c].rooms - {request.value} else s.conns[c].rooms)
            && t.members == (if leaves then s.members - {(Parsed(request.value), user.value)} else s.members)
            && t.(conns := s.conns, members := s.members) == s
  {
    var t, user := s.HandleLeaveRoom(c, request), s.conns[c].user;
    OneAnswer(s, t, c, if user.None? then Failed(Unauthorized)
                       else if request.None? then Failed(BadRequest)
                       else if (request.value.Key(), user.value) !in s.members
                       then Failed(InternalError) else LeaveOk(request.value));
  }

  /** Each refusal of a send; let through, it is stored as it was sent, and the sender's own stream stays as it is. */
  lemma SendAnswers(s: State, c: ConnId, request: Option<(Room, string)>, checker: set<(User, User)>)
    requires c in s.conns && s.conns[c].up
    ensures var t, user := s.HandleSendMessage(c, request, checker), s.conns[c].user;
            var parses := user.Some? && request.Some? && request.value.0.uuid.Some?;
            var allowed := parses && request.value.0 in s.conns[c].rooms
                           && !exists v :: && v != user.value && (user.value, v) in checker
                                           && (request.value.0.uuid.value, v) in s.members;
            var stored := allowed && request.value.0.uuid.value in s.rooms;
            && (Answered(s, t, c, Failed(Unauthorized)) <==> user.None?)
            && (Answered(s, t, c, Failed(BadRequest)) <==> user.Some? && !parses)
            && (Answered(s, t, c, Failed(Forbidden)) <==> parses && !allowed)
            && (Answered(s, t, c, Failed(InternalError)) <==> allowed && !stored)
            && (stored ==>
                  && t.conns[c] == s.conns[c]
                  && t.log == s.log + [Message(|s.log|, c, user.value, request.value.0, request.value.1)])
            && (!stored ==> t.log == s.log)
  {
    var t, user := s.HandleSendMessage(c, request, checker), s.conns[c].user;
    var refusal := s.Refusal(c, request, checker);
    if user.Some? && request.Some? && request.value.0.uuid.Some? {
      BlockedInIff(s, user.value, request.value.0, checker);
    }
    if refusal.Some? {
      OneAnswer(s, t, c, Failed(refusal.value));
    } else {
      PostReachesExactly(s, Message(|s.log|, c, user.value, request.value.0, request.value.1), c);
    }
    hide State.BlockedIn;
  }

  lemma BlockedInIff(s: State, u: User, room: Room, checker: set<(User, User)>)
    requires room.uuid.Some?
    ensures s.BlockedIn(u, room, checker) <==>
            exists v :: v != u && (u, v) in checker && (room.uuid.value, v) in s.members
  {
    if s.BlockedIn(u, room, checker) {
      var m :| m in s.members && m.0 == room.Key() && m.1 != u && (u, m.1) in checker;
      assert (room.uuid.value, m.1) in s.members;
    }
    if v :| v != u && (u, v) in checker && (room.uuid.value, v) in s.members {
      assert (room.Key(), v) in s.members;
    }
  }

  /** Each refusal of an invitation; let through, the inviter is not answered unless it has invited itself. */
  lemma InviteAnswers(s: State, c: ConnId, request: Option<(Room, Option<User>)>, picked: Option<ConnId>)
    requires c in s.conns && s.conns[c].up && picked != Some(c)
    ensures var t, user := s.HandleInviteRoom(c, request, picked), s.conns[c].user;
            var parses := user.Some? && request.Some? && request.value.0.uuid.Some?;
            var allowed := parses && (request.value.0.uuid.value, user.value) in s.members;
            && (Answered(s, t, c, Failed(Unauthorized)) <==> user.None?)
            && (Answered(s, t, c, Failed(BadRequest)) <==> user.Some? && !parses)
            && (Answered(s, t, c, Failed(Forbidden)) <==> parses && !allowed)
            && (allowed ==> t.conns[c] == s.conns[c])
            && t.(conns := s.conns) == s
  {
    var t, user := s.HandleInviteRoom(c, request, picked), s.conns[c].user;
    if !(user.Some? && request.Some? && request.value.0.uuid.Some?
         && (request.value.0.Key(), user.value) in s.members) {
      OneAnswer(s, t, c, Failed(if user.None? then Unauthorized
                                else if request.None? || request.value.0.uuid.None? then BadRequest else Forbidden));
    }
  }

  /** What a send is let through for: the sender is in the room and no other stored member blocks it. */
  predicate MayPost(s: State, c: ConnId, room: Room, checker: set<(User, User)>)
    requires c in s.conns
  {
    && s.conns[c].user.Some? && room.uuid.Some? && room in s.conns[c].rooms && room.Key() in s.rooms
    && !s.BlockedIn(s.conns[c].user.value, room, checker)
  }

  /**
   A send reaches the log exactly when it is let through; refused, it leaves every other connection and every
   stream of messages alone.
   */
  lemma RefusedIff(s: State, c: ConnId, room: Room, content: string, checker: set<(User, User)>)
    requires c in s.conns
    ensures var t := s.HandleSendMessage(c, Some((room, content)), checker);
            && (t.log != s.log <==> MayPost(s, c, room, checker))
            && (t.log == s.log ==>
                  && t.conns.Keys == s.conns.Keys && t.members == s.members
                  && (forall d <- s.conns :: d != c ==> t.conns[d] == s.conns[d])
                  && (forall d, r | d in s.conns :: Received(t.conns[d].out, r) == Received(s.conns[d].out, r)))
  {
    hide Received;
    var t := s.HandleSendMessage(c, Some((room, content)), checker);
    var refusal := s.Refusal(c, Some((room, content)), checker);
    if refusal.Some? {
      forall d, r | d in s.conns
        ensures Received(t.conns[d].out, r) == Received(s.conns[d].out, r)
      {
        OnePeer(s, c, Failed(refusal.value), d, r);
      }
    }
  }

  /** Joining and then leaving a room gives membership rows and room set back as they were. */
  lemma LeaveUndoesJoin(s: State, c: ConnId, room: Room)
    requires c in s.conns && s.HandleJoinRoom(c, Some(room)).members != s.members && room !in s.conns[c].rooms
    ensures var t := s.HandleJoinRoom(c, Some(room)).HandleLeaveRoom(c, Some(room));
            && t.members == s.members && t.log == s.log && t.conns.Keys == s.conns.Keys
            && t.conns[c].rooms == s.conns[c].rooms
            && forall d <- s.conns :: d != c ==> t.conns[d] == s.conns[d]
  {
    var t := s.HandleJoinRoom(c, Some(room)).HandleLeaveRoom(c, Some(room));
    assert t.members == s.members && t.conns[c].rooms == s.conns[c].rooms;
  }

  /** A room can be joined once per user: joining fails for a user whose row is there, even on another connection. */
  lemma JoinIff(s: State, c: ConnId, room: Room)
    requires c in s.conns && s.conns[c].user.Some?
    ensures var row := (room.Key(), s.conns[c].user.value);
            var t := s.HandleJoinRoom(c, Some(room));
            && (t.members != s.members <==> room.Key() in s.rooms && row !in s.members)
            && (t.members != s.members ==> t.members == s.members + {row} && room in t.conns[c].rooms)
            && (t.members == s.members ==> t.conns[c].rooms == s.conns[c].rooms)
  {
    var row := (room.Key(), s.conns[c].user.value);
    assert row in s.members + {row};
  }

  /**
   Which streams an invitation changes: beside the inviter's own, exactly that of the connection picked, if it
   is one of the invited user and the inviter a stored member. An empty target is an invitation to a
   connection that has not logged in.
   */
  lemma InvitationReachesTarget(s: State, c: ConnId, room: Room, target: Option<User>, picked: Option<ConnId>,
        d: ConnId)
    requires c in s.conns && d in s.conns && s.conns[d].up
    ensures var t := s.HandleInviteRoom(c, Some((room, target)), picked);
            var invited := s.conns[c].user.Some? && t.conns[d] == s.conns[d].Send(
                             Invite(room, s.conns[c].user.value, s.conns[c].username));
            && t.log == s.log && t.members == s.members && t.conns.Keys == s.conns.Keys
            && (invited <==> && picked == Some(d) && s.conns[d].user == target
                             && room.uuid.Some? && IsMember(s.conns[c].user, room, s.members))
            && (invited ==> (s.conns[d].user.None? <==> target.None?))
            && (!invited && d != c ==> t.conns[d] == s.conns[d])
  {
    var t, was := s.HandleInviteRoom(c, Some((room, target)), picked), s.conns[d].out;
    assert forall o :: s.conns[d].Send(o).out[|was|] == o;
    assert t.conns[d].out == was || t.conns[d].out[|was|].Failed? || t.conns[d].out[|was|].Invite?;
  }

  // ----------------------------------------------------- rooms backed by membership rows

  predicate IsMember(user: Option<User>, room: Room, members: set<(nat, User)>) {
    user.Some? && (room.Key(), user.value) in members
  }

  /** Every room a connection holds has its user's membership row, so whom a broadcast reaches is a stored member. */
  ghost predicate Backed(s: State) {
    forall c, room | c in s.conns && room in s.conns[c].rooms :: IsMember(s.conns[c].user, room, s.members)
  }

  /**
   The two ways to lose the row behind a held room: leaving it where a connection of the same user, this one
   under another spelling or a different one, still holds it; and logging in again as a user without it.
   */
  ghost predicate Unbacks(s: State, e: Event) {
    && e.Got? && e.c in s.conns
    && match e.env
       case LeaveRoom(Some(left)) =>
         && IsMember(s.conns[e.c].user, left, s.members)
         && exists d, room | d in s.conns && room in s.conns[d].rooms ::
              s.conns[d].user == s.conns[e.c].user && room.Key() == left.Key() && (d != e.c || room != left)
       case Auth(Valid(u), _) => exists room <- s.conns[e.c].rooms :: !IsMember(Some(u), room, s.members)
       case _ => false
  }

  lemma UnbacksIff(s: State, e: Event)
    requires Backed(s)
    ensures !Backed(Step(s, e)) <==> Unbacks(s, e)
  {
    var t := Step(s, e);
    if e.Got? && e.c in s.conns && e.env.LeaveRoom? && t.members != s.members {
      var left, row := e.env.room.value, (e.env.room.value.Key(), s.conns[e.c].user.value);
      assert t.members == s.members - {row} && t.conns[e.c].rooms == s.conns[e.c].rooms - {left};
      LeaveUnbacksIff(s, e.c, left);
    } else if e.Got? && e.c in s.conns && e.env.Auth? && e.env.token.Valid? {
      assert t.conns[e.c].rooms == s.conns[e.c].rooms && forall d <- s.conns :: d != e.c ==> t.conns[d] == s.conns[d];
    } else {
      assert s.members <= t.members;
      forall d, room | d in t.conns && room in t.conns[d].rooms
        ensures IsMember(t.conns[d].user, room, t.members)
      {
        assert d in s.conns && t.conns[d].user == s.conns[d].user;
      }
    }
  }

  lemma LeaveUnbacksIff(s: State, c: ConnId, left: Room)
    requires Backed(s) && c in s.conns && IsMember(s.conns[c].user, left, s.members)
    ensures !Backed(s.HandleLeaveRoom(c, Some(left))) <==>
            exists d, room | d in s.conns && room in s.conns[d].rooms ::
              s.conns[d].user == s.conns[c].user && room.Key() == left.Key() && (d != c || room != left)
  {
    var t, row := s.HandleLeaveRoom(c, Some(left)), (left.Key(), s.conns[c].user.value);
    assert t.members == s.members - {row} && t.conns[c].rooms == s.conns[c].rooms - {left};
    forall d, room | d in s.conns && room in s.conns[d].rooms
      ensures (d in t.conns && room in t.conns[d].rooms && !IsMember(t.conns[d].user, room, t.members)) <==>
              s.conns[d].user == s.conns[c].user && room.Key() == left.Key() && (d != c || room != left)
    {
      assert IsMember(s.conns[d].user, room, s.members);
    }
  }

  /** Every room held has its row all through a run if and only if no event of it is one of the two. */
  lemma {:induction false} AlwaysBackedIff(s: State, events: seq<Event>)
    requires Backed(s)
    ensures (forall n | 0 <= n <= |events| :: Backed(Run(s, events[..n]))) <==>
            (forall n | 0 <= n < |events| :: !Unbacks(Run(s, events[..n]), events[n]))
    decreases |events|
  {
    hide Backed, Unbacks, Step;
    assert events[..|events|] == events;
    if events != [] {
      var m := |events| - 1;
      var before := events[..m];
      assert forall n | 0 <= n <= m :: before[..n] == events[..n];
      assert forall n | 0 <= n < m :: before[n] == events[n];
      AlwaysBackedIff(s, before);
      if Backed(Run(s, before)) {
        UnbacksIff(Run(s, before), events[m]);
      }
      assert Backed(Run(s, events[..m])) <==> Backed(Run(s, before));
    }
  }

  const EMPTY: State := State(map[], {}, {}, [], [])

  const ALONE: Surroundings := Surroundings({}, None)

  const HALL: Room := Room(Some(7), 0)

  const OPEN: seq<Event> := [RoomCreated(7, 9), Connected(1), Connected(2)]

  function Enter(u: User, v: User): seq<Event> {
    [Got(1, Auth(Valid(u), ""), ALONE), Got(2, Auth(Valid(v), ""), ALONE), Got(1, JoinRoom(Some(HALL)), ALONE)]
  }

  /** User 9 makes room 7, and two connections log in as `u` and `v` and join it, the second if `both`. */
  function Gathering(u: User, v: User, both: bool): seq<Event> {
    if both then OPEN + Enter(u, v) + [Got(2, JoinRoom(Some(HALL)), ALONE)] else OPEN + Enter(u, v)
  }

  function Gathered(u: User, v: User, both: bool): State {
    var first := Conn(Some(u), "", {HALL}, true, [AuthOk(u), JoinOk(HALL)]);
    var second := Conn(Some(v), "", {}, true, [AuthOk(v)]);
    State(map[1 := first, 2 := if both then second.(rooms := {HALL}).Send(JoinOk(HALL)) else second], {7},
          if both then {(7, 9), (7, u), (7, v)} else {(7, 9), (7, u)}, [], [])
  }

  lemma RunLast(s: State, events: seq<Event>, last: Event)
    ensures Run(s, events + [last]) == Step(Run(s, events), last)
  {
    assert (events + [last])[..|events|] == events;
  }

  lemma RunThree(s: State, events: seq<Event>, more: seq<Event>)
    requires |more| == 3
    ensures Run(s, events + more) == Step(Step(Step(Run(s, events), more[0]), more[1]), more[2])
  {
    RunLast(s, events, more[0]);
    RunLast(s, events + [more[0]], more[1]);
    RunLast(s, events + [more[0]] + [more[1]], more[2]);
    assert events + [more[0]] + [more[1]] + [more[2]] == events + more;
  }

  lemma GatheringGathers(u: User, v: User, both: bool)
    requires u != 9 && v != 9 && (both ==> u != v)
    ensures Run(EMPTY, Gathering(u, v, both)) == Gathered(u, v, both)
  {
    assert Run(EMPTY, []) == EMPTY && [] + OPEN == OPEN;
    hide Run, Step, Gathered;
    RunThree(EMPTY, [], OPEN);
    TwoConnect();
    RunThree(EMPTY, OPEN, Enter(u, v));
    TwoEnter(u, v);
    if both {
      RunLast(EMPTY, OPEN + Enter(u, v), Got(2, JoinRoom(Some(HALL)), ALONE));
      SecondJoins(u, v);
    }
  }

  const TWO: State := State(map[1 := NEWCOMER, 2 := NEWCOMER], {7}, {(7, 9)}, [], [])

  lemma TwoConnect()
    ensures Step(Step(Step(EMPTY, RoomCreated(7, 9)), Connected(1)), Connected(2)) == TWO
  {
  }

  lemma TwoEnter(u: User, v: User)
    requires u != 9
    ensures Step(Step(Step(TWO, Got(1, Auth(Valid(u), ""), ALONE)), Got(2, Auth(Valid(v), ""), ALONE)),
                 Got(1, JoinRoom(Some(HALL)), ALONE)) == Gathered(u, v, false)
  {
    assert [] + [AuthOk(u)] == [AuthOk(u)] && [] + [AuthOk(v)] == [AuthOk(v)];
    var s := TWO.HandleAuth(1, Valid(u), "").HandleAuth(2, Valid(v), "");
    var in1, in2 := NEWCOMER.(user := Some(u), out := [AuthOk(u)]), NEWCOMER.(user := Some(v), out := [AuthOk(v)]);
    assert s == TWO.(conns := map[1 := in1, 2 := in2]);
    assert [AuthOk(u)] + [JoinOk(HALL)] == [AuthOk(u), JoinOk(HALL)] && {} + {HALL} == {HALL};
    assert s.HandleJoinRoom(1, Some(HALL)).conns == Gathered(u, v, false).conns;
  }

  lemma SecondJoins(u: User, v: User)
    requires u != v && v != 9
    ensures Step(Gathered(u, v, false), Got(2, JoinRoom(Some(HALL)), ALONE)) == Gathered(u, v, true)
  {
    var s := Gathered(u, v, false).HandleJoinRoom(2, Some(HALL));
    assert {} + {HALL} == {HALL};
    assert s.conns == Gathered(u, v, true).conns;
    assert s.members == {(7, 9), (7, u), (7, v)};
  }

  /**
   Each way is open. User 5 holds room 7 on connection 1 and loses its row when connection 2 of the same user
   leaves the room, when connection 1 leaves it under another spelling, or when it logs in as user 6.
   */
  lemma EachWayUnbacks(last: Event)
    requires last in [Got(2, LeaveRoom(Some(HALL)), ALONE), Got(1, LeaveRoom(Some(HALL.(spelling := 1))), ALONE),
                      Got(1, Auth(Valid(6), ""), ALONE)]
    ensures var before, after := Run(EMPTY, Gathering(5, 5, false)), Run(EMPTY, Gathering(5, 5, false) + [last]);
            && Backed(before) && Unbacks(before, last)
            && 1 in after.conns && after.Hears(1, HALL) && !IsMember(after.conns[1].user, HALL, after.members)
  {
    GatheringGathers(5, 5, false);
    RunLast(EMPTY, Gathering(5, 5, false), last);
    var s := Gathered(5, 5, false);
    assert HALL in s.conns[1].rooms;
    UnbacksIff(s, last);
  }
}
