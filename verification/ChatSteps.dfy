/**
 The chat server with its connections' goroutines interleaved. Each connection runs one handler at a time,
 in the atomic steps the handler takes on shared data: the rows, a room set, one outgoing stream. A
 broadcast holds the connection table's read lock, so connections come and go only while none is under way,
 but broadcasts overlap with each other and with joins and leaves. A step that is not enabled leaves the
 state as it is.
 */
module ChatSteps {
  import opened Common
  import opened Chat

  /** Where a connection's goroutine is inside a handler; a connection without an entry is at a handler boundary. */
  datatype Pc =
    | Joining(room: Room, told: bool)
    | Leaving(room: Room, left: bool)
    | Checked(room: Room, content: string)
    | Stored(message: Message)
    | Broadcasting(message: Message, todo: set<ConnId>, next: Option<ConnId>)

  datatype Step =
    | Open(c: ConnId)
    | Close(c: ConnId)
    | Login(c: ConnId, token: Token, username: string)
    | Beat(c: ConnId)
    | NewRoom(key: nat, owner: User)
    | LinkBreaks(c: ConnId)
    | Push(c: ConnId, notice: Out)
    | JoinRow(c: ConnId, room: Room)
    | JoinAck(c: ConnId)
    | JoinSet(c: ConnId)
    | LeaveRow(c: ConnId, room: Room)
    | LeaveSet(c: ConnId)
    | LeaveAck(c: ConnId)
    | SendCheck(c: ConnId, room: Room, content: string)
    | SendRefuse(c: ConnId)
    | SendStore(c: ConnId)
    | CastStart(c: ConnId)
    | CastLook(c: ConnId, d: ConnId)
    | CastWrite(c: ConnId)
    | CastEnd(c: ConnId)

  predicate IsAround(step: Step) {
    step.Open? || step.Close? || step.Beat? || step.NewRoom? || step.LinkBreaks? || step.Push?
  }

  predicate IsMove(step: Step) {
    || step.Login? || step.JoinRow? || step.JoinAck? || step.JoinSet?
    || step.LeaveRow? || step.LeaveSet? || step.LeaveAck?
  }

  predicate IsDecide(step: Step) {
    step.SendCheck? || step.SendRefuse?
  }

  predicate IsDeliver(step: Step) {
    !IsAround(step) && !IsMove(step) && !IsDecide(step)
  }

  datatype System = System(core: State, pcs: map<ConnId, Pc>) {
    predicate Idle(c: ConnId) {
      c in core.conns && c !in pcs
    }

    predicate TableIsFree() {
      forall c <- pcs :: !pcs[c].Broadcasting?
    }

    function At(c: ConnId, pc: Pc): System {
      this.(pcs := pcs[c := pc])
    }

    function Done(c: ConnId): System {
      this.(pcs := pcs - {c})
    }

    function Tell(c: ConnId, o: Out): System
      requires c in core.conns
    {
      this.(core := core.SendTo(c, o))
    }

    function WithRooms(c: ConnId, rooms: set<Room>): System
      requires c in core.conns
    {
      this.(core := core.(conns := core.conns[c := core.conns[c].(rooms := rooms)]))
    }

    function Join(c: ConnId, room: Room): System
      requires c in core.conns
    {
      if core.conns[c].user.None? then Tell(c, Failed(Unauthorized))
      else
        var row := (room.Key(), core.conns[c].user.value);
        if room.Key() !in core.rooms || row in core.members then Tell(c, Failed(InternalError))
        else this.(core := core.(members := core.members + {row})).At(c, Joining(room, false))
    }

    function Leave(c: ConnId, room: Room): System
      requires c in core.conns
    {
      if core.conns[c].user.None? then Tell(c, Failed(Unauthorized))
      else
        var row := (room.Key(), core.conns[c].user.value);
        if row !in core.members then Tell(c, Failed(InternalError))
        else this.(core := core.(members := core.members - {row})).At(c, Leaving(room, false))
    }

    function Check(c: ConnId, room: Room, content: string): System
      requires c in core.conns
    {
      if core.conns[c].user.None? then Tell(c, Failed(Unauthorized))
      else if room.uuid.None? then Tell(c, Failed(BadRequest))
      else if room !in core.conns[c].rooms then Tell(c, Failed(Forbidden))
      else At(c, Checked(room, content))
    }

    function Store(c: ConnId, room: Room, content: string): System
      requires c in core.conns
    {
      if room.Key() !in core.rooms || core.conns[c].user.None? then Tell(c, Failed(InternalError)).Done(c)
      else
        var m := Message(|core.log|, c, core.conns[c].user.value, room, content);
        this.(core := core.(log := core.log + [m])).At(c, Stored(m))
    }

    /**
     Connections coming, under ids not in use, and going, heartbeats, rooms created over HTTP, links failing, and
     whatever other than a room message other goroutines push to a connection: errors, invitations, presence
     notices.
     */
    function Around(step: Step): System
      requires IsAround(step)
    {
      match step
      case Open(c) => if TableIsFree() && c !in pcs && c !in core.conns then this.(core := core.Accept(c)) else this
      case Close(c) => if TableIsFree() && Idle(c) then this.(core := core.Disconnect(c)) else this
      case Beat(c) => if Idle(c) then this.(core := core.HandleHeartbeat(c)) else this
      case NewRoom(key, owner) => this.(core := core.CreateRoom(key, owner))
      case LinkBreaks(c) => this.(core := core.BreakLink(c))
      case Push(c, notice) => if c in core.conns && !notice.Receive? then Tell(c, notice) else this
    }

    /** Logging in, joining and leaving. */
    function Move(step: Step): System
      requires IsMove(step)
    {
      var c := step.c;
      match step
      case Login(_, token, username) =>
        if Idle(c) then this.(core := core.HandleAuth(c, token, username)) else this
      case JoinRow(_, room) => if Idle(c) then Join(c, room) else this
      case JoinAck(_) =>
        if c in pcs && c in core.conns && pcs[c].Joining? && !pcs[c].told
        then Tell(c, JoinOk(pcs[c].room)).At(c, Joining(pcs[c].room, true)) else this
      case JoinSet(_) =>
        if c in pcs && c in core.conns && pcs[c].Joining? && pcs[c].told
        then WithRooms(c, core.conns[c].rooms + {pcs[c].room}).Done(c) else this
      case LeaveRow(_, room) => if Idle(c) then Leave(c, room) else this
      case LeaveSet(_) =>
        if c in pcs && c in core.conns && pcs[c].Leaving? && !pcs[c].left
        then WithRooms(c, core.conns[c].rooms - {pcs[c].room}).At(c, Leaving(pcs[c].room, true)) else this
      case LeaveAck(_) =>
        if c in pcs && c in core.conns && pcs[c].Leaving? && pcs[c].left
        then Tell(c, LeaveOk(pcs[c].room)).Done(c) else this
    }

    /** Deciding on a send. The checker's answers may change while it is asked: either outcome is possible. */
    function Decide(step: Step): System
      requires IsDecide(step)
    {
      var c := step.c;
      match step
      case SendCheck(_, room, content) => if Idle(c) then Check(c, room, content) else this
      case SendRefuse(_) =>
        if c in pcs && c in core.conns && pcs[c].Checked? then Tell(c, Failed(Forbidden)).Done(c) else this
    }

    /** Storing a message and broadcasting it. */
    function Deliver(step: Step): System
      requires IsDeliver(step)
    {
      var c := step.c;
      match step
      case SendStore(_) =>
        if c in pcs && c in core.conns && pcs[c].Checked? then Store(c, pcs[c].room, pcs[c].content) else this
      case CastStart(_) =>
        if c in pcs && pcs[c].Stored? then At(c, Broadcasting(pcs[c].message, core.conns.Keys, None)) else this
      case CastLook(_, d) =>
        if c in pcs && pcs[c].Broadcasting? && pcs[c].next.None? && d in pcs[c].todo && d in core.conns then
          var m := pcs[c].message;
          var next := if d != c && core.Hears(d, m.room) then Some(d) else None;
          At(c, Broadcasting(m, pcs[c].todo - {d}, next))
        else this
      case CastWrite(_) =>
        if c in pcs && pcs[c].Broadcasting? && pcs[c].next.Some? && pcs[c].next.value in core.conns
        then Tell(pcs[c].next.value, Receive(pcs[c].message)).At(c, pcs[c].(next := None)) else this
      case CastEnd(_) =>
        if c in pcs && pcs[c].Broadcasting? && pcs[c].todo == {} && pcs[c].next.None? then Done(c) else this
    }

    function Next(step: Step): System {
      if IsAround(step) then Around(step)
      else if IsMove(step) then Move(step)
      else if IsDecide(step) then Decide(step)
      else Deliver(step)
    }

    function Run(steps: seq<Step>): System
      decreases |steps|
    {
      if steps == [] then this
      else Run(steps[..|steps| - 1]).Next(steps[|steps| - 1])
    }
  }

  function Start(): System {
    System(State(map[], {}, {}, [], []), map[])
  }

  // ---------------------------------------------------------------------- invariants

  /** A goroutine inside a handler belongs to a live, authenticated connection; while it sends, it is in the room. */
  ghost predicate HandlerOk(s: System, c: ConnId, pc: Pc) {
    && c in s.core.conns && s.core.conns[c].user.Some?
    && match pc
       case Checked(room, _) => room in s.core.conns[c].rooms
       case Stored(m) => Sending(s, c, m)
       case Broadcasting(m, todo, next) =>
         && Sending(s, c, m) && todo <= s.core.conns.Keys
         && (next.Some? ==> (next.value in s.core.conns && next.value !in todo))
       case _ => true
  }

  /** `m` is the last message of the log that came through `c`, and `c` is still in its room. */
  ghost predicate Sending(s: System, c: ConnId, m: Message) {
    && c in s.core.conns && m.room in s.core.conns[c].rooms
    && m.via == c && m.id < |s.core.log| && s.core.log[m.id] == m
    && forall k | m.id < k < |s.core.log| :: s.core.log[k].via != c
  }

  /** The message that `c` has stored and still owes `d`. */
  function Owed(s: System, c: ConnId, d: ConnId): Option<Message> {
    if c !in s.pcs then None
    else match s.pcs[c]
      case Stored(m) => Some(m)
      case Broadcasting(m, todo, next) => if d in todo || next == Some(d) then Some(m) else None
      case _ => None
  }

  /** A stream holds stored messages, and those of each sending connection once each and in the order stored. */
  ghost predicate InOrder(log: seq<Message>, out: seq<Out>) {
    && (forall i | 0 <= i < |out| && out[i].Receive? ::
          out[i].message.id < |log| && log[out[i].message.id] == out[i].message)
    && (forall i, j | && 0 <= i < j < |out| && out[i].Receive? && out[j].Receive?
                      && out[i].message.via == out[j].message.via ::
          out[i].message.id < out[j].message.id)
  }

  /** Nothing of `m` or later from the same connection has been written yet. */
  ghost predicate NotYet(out: seq<Out>, m: Message) {
    forall i | 0 <= i < |out| && out[i].Receive? && out[i].message.via == m.via :: out[i].message.id < m.id
  }

  ghost predicate Inv(s: System) {
    && (forall i | 0 <= i < |s.core.log| :: s.core.log[i].id == i)
    && (forall c <- s.pcs :: HandlerOk(s, c, s.pcs[c]))
    && (forall d <- s.core.conns :: InOrder(s.core.log, s.core.conns[d].out))
    && (forall c, d | d in s.core.conns && Owed(s, c, d).Some? :: NotYet(s.core.conns[d].out, Owed(s, c, d).value))
  }

  /** A step that stores no message, writes no message and puts no goroutine at sending one. */
  ghost predicate Quiet(s: System, t: System) {
    && t.core.log == s.core.log
    && (forall d <- t.core.conns ::
          if d in s.core.conns then QuietOut(s.core.conns[d].out, t.core.conns[d].out) else t.core.conns[d].out == [])
    && (forall c <- t.pcs ::
          ((c in s.pcs && t.pcs[c] == s.pcs[c])
           || t.pcs[c].Joining? || t.pcs[c].Leaving? || t.pcs[c].Checked?))
  }

  ghost predicate QuietOut(out: seq<Out>, out': seq<Out>) {
    out' == out || (out' != [] && out'[..|out'| - 1] == out && !out'[|out'| - 1].Receive?)
  }

  lemma QuietStepOut(log: seq<Message>, out: seq<Out>, out': seq<Out>)
    requires QuietOut(out, out')
    ensures InOrder(log, out) ==> InOrder(log, out')
    ensures forall m :: NotYet(out, m) ==> NotYet(out', m)
  {
    assert forall i | 0 <= i < |out'| && out'[i].Receive? :: i < |out| && out'[i] == out[i];
  }

  lemma QuietKeepsInv(s: System, t: System)
    requires Inv(s) && Quiet(s, t)
    requires forall c <- t.pcs :: HandlerOk(t, c, t.pcs[c])
    ensures Inv(t)
  {
    forall d <- t.core.conns
      ensures InOrder(t.core.log, t.core.conns[d].out)
      ensures forall c | Owed(t, c, d).Some? :: NotYet(t.core.conns[d].out, Owed(t, c, d).value)
    {
      if d in s.core.conns {
        QuietStepOut(s.core.log, s.core.conns[d].out, t.core.conns[d].out);
        assert forall c | Owed(t, c, d).Some? :: Owed(s, c, d) == Owed(t, c, d);
      }
    }
  }

  lemma AroundIsQuiet(s: System, step: Step)
    requires IsAround(step)
    ensures Quiet(s, s.Around(step))
  {
  }

  lemma LoginIsQuiet(s: System, step: Step)
    requires step.Login?
    ensures Quiet(s, s.Move(step))
  {
  }

  lemma JoinIsQuiet(s: System, step: Step)
    requires step.JoinRow? || step.JoinAck? || step.JoinSet?
    ensures Quiet(s, s.Move(step))
  {
  }

  lemma LeaveIsQuiet(s: System, step: Step)
    requires step.LeaveRow? || step.LeaveSet? || step.LeaveAck?
    ensures Quiet(s, s.Move(step))
  {
  }

  lemma MoveIsQuiet(s: System, step: Step)
    requires IsMove(step)
    ensures Quiet(s, s.Move(step))
  {
    hide Quiet, System.Move;
    if step.Login? {
      LoginIsQuiet(s, step);
    } else if step.JoinRow? || step.JoinAck? || step.JoinSet? {
      JoinIsQuiet(s, step);
    } else {
      LeaveIsQuiet(s, step);
    }
  }

  lemma CheckIsQuiet(s: System, step: Step)
    requires step.SendCheck?
    ensures Quiet(s, s.Decide(step))
  {
  }

  lemma RefuseIsQuiet(s: System, step: Step)
    requires step.SendRefuse?
    ensures Quiet(s, s.Decide(step))
  {
  }

  lemma QuietStep(s: System, step: Step)
    requires !IsDeliver(step)
    ensures Quiet(s, s.Next(step))
  {
    hide Quiet, System.Around, System.Move, System.Decide;
    if IsAround(step) {
      AroundIsQuiet(s, step);
    } else if IsMove(step) {
      MoveIsQuiet(s, step);
    } else if step.SendCheck? {
      CheckIsQuiet(s, step);
    } else {
      RefuseIsQuiet(s, step);
    }
  }

  lemma AroundHandlers(s: System, step: Step, c: ConnId)
    requires IsAround(step) && c in s.Around(step).pcs
    requires c in s.pcs ==> HandlerOk(s, c, s.pcs[c])
    ensures HandlerOk(s.Around(step), c, s.Around(step).pcs[c])
  {
  }

  lemma MoveHandlers(s: System, step: Step, c: ConnId)
    requires IsMove(step) && c in s.Move(step).pcs
    requires c in s.pcs ==> HandlerOk(s, c, s.pcs[c])
    ensures HandlerOk(s.Move(step), c, s.Move(step).pcs[c])
  {
  }

  lemma DecideHandlers(s: System, step: Step, c: ConnId)
    requires IsDecide(step) && c in s.Decide(step).pcs
    requires c in s.pcs ==> HandlerOk(s, c, s.pcs[c])
    ensures HandlerOk(s.Decide(step), c, s.Decide(step).pcs[c])
  {
  }

  lemma QuietStepKeepsInv(s: System, step: Step)
    requires Inv(s) && !IsDeliver(step)
    ensures Inv(s.Next(step))
  {
    hide Quiet, HandlerOk, InOrder, NotYet, System.Around, System.Move, System.Decide;
    QuietStep(s, step);
    forall c <- s.Next(step).pcs
      ensures HandlerOk(s.Next(step), c, s.Next(step).pcs[c])
    {
      if IsAround(step) {
        AroundHandlers(s, step, c);
      } else if IsMove(step) {
        MoveHandlers(s, step, c);
      } else {
        DecideHandlers(s, step, c);
      }
    }
    QuietKeepsInv(s, s.Next(step));
  }

  /** A longer log keeps what streams and other goroutines say about it. */
  lemma LongerLog(log: seq<Message>, m: Message, out: seq<Out>)
    requires InOrder(log, out)
    ensures InOrder(log + [m], out)
    ensures m.id >= |log| ==> NotYet(out, m)
  {
  }

  lemma StoreHandlers(s: System, c: ConnId, d: ConnId)
    requires c in s.pcs && s.pcs[c].Checked? && HandlerOk(s, c, s.pcs[c])
    requires var t := s.Store(c, s.pcs[c].room, s.pcs[c].content); d in t.pcs
    requires d in s.pcs && HandlerOk(s, d, s.pcs[d])
    ensures var t := s.Store(c, s.pcs[c].room, s.pcs[c].content); HandlerOk(t, d, t.pcs[d])
  {
  }

  lemma StoreKeepsInv(s: System, c: ConnId)
    requires Inv(s)
    ensures Inv(s.Next(SendStore(c)))
  {
    if c in s.pcs && c in s.core.conns && s.pcs[c].Checked? {
      var t := s.Next(SendStore(c));
      assert t == s.Store(c, s.pcs[c].room, s.pcs[c].content);
      assert HandlerOk(s, c, s.pcs[c]);
      forall d <- t.pcs
        ensures HandlerOk(t, d, t.pcs[d])
      {
        assert HandlerOk(s, d, s.pcs[d]);
        StoreHandlers(s, c, d);
      }
      hide HandlerOk, InOrder, NotYet, QuietOut;
      if t.core.log == s.core.log {
        StopIsQuiet(s, c);
        QuietKeepsInv(s, t);
      } else {
        var m := t.core.log[|s.core.log|];
        forall d <- t.core.conns
          ensures InOrder(t.core.log, t.core.conns[d].out)
          ensures forall e | Owed(t, e, d).Some? :: NotYet(t.core.conns[d].out, Owed(t, e, d).value)
        {
          LongerLog(s.core.log, m, s.core.conns[d].out);
          assert Owed(t, c, d) == Some(m);
          assert forall e | e != c :: Owed(t, e, d) == Owed(s, e, d);
        }
      }
    }
  }

  lemma StopIsQuiet(s: System, c: ConnId)
    requires c in s.pcs && c in s.core.conns && s.pcs[c].Checked?
    requires s.Next(SendStore(c)).core.log == s.core.log
    ensures Quiet(s, s.Next(SendStore(c)))
  {
  }

  lemma CastKeepsInv(s: System, c: ConnId, step: Step)
    requires Inv(s) && (step == CastStart(c) || step == CastEnd(c) || (step.CastLook? && step.c == c))
    ensures Inv(s.Next(step))
  {
    hide InOrder, NotYet;
    var t := s.Next(step);
    assert t.core == s.core;
    forall d <- t.pcs
      ensures HandlerOk(t, d, t.pcs[d])
    {
      assert HandlerOk(s, d, s.pcs[d]);
    }
    assert forall e, d | d in t.core.conns && Owed(t, e, d).Some? :: Owed(s, e, d) == Owed(t, e, d);
  }

  lemma WriteKeepsOrder(log: seq<Message>, out: seq<Out>, m: Message)
    requires InOrder(log, out) && NotYet(out, m) && m.id < |log| && log[m.id] == m
    ensures InOrder(log, out + [Receive(m)])
  {
  }

  lemma WriteKeepsInv(s: System, c: ConnId)
    requires Inv(s)
    ensures Inv(s.Next(CastWrite(c)))
  {
    var t := s.Next(CastWrite(c));
    if t != s {
      var d, m := s.pcs[c].next.value, s.pcs[c].message;
      assert HandlerOk(s, c, s.pcs[c]);
      forall e <- t.pcs
        ensures HandlerOk(t, e, t.pcs[e])
      {
        assert HandlerOk(s, e, s.pcs[e]);
      }
      assert Owed(s, c, d) == Some(m) && Owed(t, c, d) == None;
      WriteKeepsOrder(s.core.log, s.core.conns[d].out, m);
      forall e, f | f in t.core.conns && Owed(t, e, f).Some?
        ensures NotYet(t.core.conns[f].out, Owed(t, e, f).value)
      {
        assert Owed(s, e, f) == Owed(t, e, f);
        assert HandlerOk(s, e, s.pcs[e]);
        assert Owed(s, e, f).value.via == e;
      }
    }
  }

  lemma StepKeepsInv(s: System, step: Step)
    requires Inv(s)
    ensures Inv(s.Next(step))
  {
    hide Inv, HandlerOk, Quiet, System.Next;
    match step
    case SendStore(c) => StoreKeepsInv(s, c);
    case CastStart(c) => CastKeepsInv(s, c, step);
    case CastLook(c, d) => CastKeepsInv(s, c, step);
    case CastWrite(c) => WriteKeepsInv(s, c);
    case CastEnd(c) => CastKeepsInv(s, c, step);
    case _ => QuietStepKeepsInv(s, step);
  }

  lemma {:induction false} RunKeepsInv(s: System, steps: seq<Step>)
    requires Inv(s)
    ensures Inv(s.Run(steps))
    decreases |steps|
  {
    hide Inv, System.Next;
    if steps != [] {
      RunKeepsInv(s, steps[..|steps| - 1]);
      StepKeepsInv(s.Run(steps[..|steps| - 1]), steps[|steps| - 1]);
    }
  }

  lemma StartIsOk()
    ensures Inv(Start())
  {
  }

  // -------------------------------------------------------- order and at most once

  /**
   After every interleaving, each connection's stream holds only stored messages, those of any one sending
   connection at most once each and in the order it sent them.
   */
  lemma {:induction false} EachSenderOnceInOrder(steps: seq<Step>, d: ConnId)
    ensures var s := Start().Run(steps).core; d in s.conns ==> InOrder(s.log, s.conns[d].out)
  {
    hide InOrder, HandlerOk, System.Next;
    StartIsOk();
    RunKeepsInv(Start(), steps);
  }

  /** Between the membership check and the end of the broadcast the sender is in the room, whatever others do. */
  lemma {:induction false} SenderStaysInRoom(steps: seq<Step>, c: ConnId)
    ensures var s := Start().Run(steps);
            c in s.pcs ==>
              match s.pcs[c]
              case Checked(room, _) => c in s.core.conns && s.core.Hears(c, room)
              case Stored(m) => c in s.core.conns && s.core.Hears(c, m.room)
              case Broadcasting(m, _, _) => c in s.core.conns && s.core.Hears(c, m.room)
              case _ => true
  {
    hide InOrder, System.Next;
    StartIsOk();
    RunKeepsInv(Start(), steps);
    var s := Start().Run(steps);
    assert c in s.pcs ==> HandlerOk(s, c, s.pcs[c]);
  }

  // ------------------------------------------------------------------ nothing to outsiders

  /** The broadcast of `m` has looked at `d` and found it logged in and in the room. */
  ghost predicate SeenInRoom(steps: seq<Step>, m: Message, d: ConnId) {
    exists k :: 0 <= k < |steps| && Sees(Start().Run(steps[..k]), steps[k], m, d)
  }

  ghost predicate Sees(s: System, step: Step, m: Message, d: ConnId) {
    && step == CastLook(m.via, d) && d != m.via && d in s.core.conns
    && s.core.conns[d].user.Some? && m.room in s.core.conns[d].rooms
    && m.via in s.pcs && s.pcs[m.via].Broadcasting? && s.pcs[m.via].message == m
  }

  /** Every room message written, or about to be written, to a connection follows a look at it in the room. */
  ghost predicate OnlySeen(s: System, steps: seq<Step>) {
    && (forall d, i | d in s.core.conns && 0 <= i < |s.core.conns[d].out| && s.core.conns[d].out[i].Receive? ::
          SeenInRoom(steps, s.core.conns[d].out[i].message, d))
    && (forall c | c in s.pcs && s.pcs[c].Broadcasting? && s.pcs[c].next.Some? ::
          SeenInRoom(steps, s.pcs[c].message, s.pcs[c].next.value))
  }

  lemma SeenLater(steps: seq<Step>, last: Step, m: Message, d: ConnId)
    ensures SeenInRoom(steps, m, d) ==> SeenInRoom(steps + [last], m, d)
    ensures Sees(Start().Run(steps), last, m, d) ==> SeenInRoom(steps + [last], m, d)
  {
    hide Sees;
    assert forall k | 0 <= k <= |steps| :: (steps + [last])[..k] == steps[..k];
    assert steps[..|steps|] == steps;
    if SeenInRoom(steps, m, d) {
      var k :| 0 <= k < |steps| && Sees(Start().Run(steps[..k]), steps[k], m, d);
      assert Sees(Start().Run((steps + [last])[..k]), (steps + [last])[k], m, d);
    }
    if Sees(Start().Run(steps), last, m, d) {
      assert Sees(Start().Run((steps + [last])[..|steps|]), (steps + [last])[|steps|], m, d);
    }
  }

  lemma QuietKeepsSeen(s: System, t: System, steps: seq<Step>, last: Step)
    requires Quiet(s, t) && OnlySeen(s, steps)
    ensures OnlySeen(t, steps + [last])
  {
    hide SeenInRoom;
    forall d, i | d in t.core.conns && 0 <= i < |t.core.conns[d].out| && t.core.conns[d].out[i].Receive?
      ensures SeenInRoom(steps + [last], t.core.conns[d].out[i].message, d)
    {
      assert d in s.core.conns && i < |s.core.conns[d].out| && t.core.conns[d].out[i] == s.core.conns[d].out[i];
      SeenLater(steps, last, t.core.conns[d].out[i].message, d);
    }
    forall c | c in t.pcs && t.pcs[c].Broadcasting? && t.pcs[c].next.Some?
      ensures SeenInRoom(steps + [last], t.pcs[c].message, t.pcs[c].next.value)
    {
      SeenLater(steps, last, t.pcs[c].message, t.pcs[c].next.value);
    }
  }

  lemma DeliverKeepsSeen(s: System, steps: seq<Step>, last: Step)
    requires Inv(s) && OnlySeen(s, steps) && IsDeliver(last) && s == Start().Run(steps)
    ensures OnlySeen(s.Next(last), steps + [last])
  {
    hide SeenInRoom, InOrder, NotYet, System.Run;
    var t, e := s.Next(last), last.c;
    forall d, i | d in t.core.conns && 0 <= i < |t.core.conns[d].out| && t.core.conns[d].out[i].Receive?
      ensures SeenInRoom(steps + [last], t.core.conns[d].out[i].message, d)
    {
      SeenLater(steps, last, t.core.conns[d].out[i].message, d);
      assert d in s.core.conns;
      if i < |s.core.conns[d].out| {
        assert t.core.conns[d].out[i] == s.core.conns[d].out[i];
      } else {
        assert last.CastWrite? && s.pcs[e].next == Some(d) && t.core.conns[d].out[i].message == s.pcs[e].message;
      }
    }
    forall c | c in t.pcs && t.pcs[c].Broadcasting? && t.pcs[c].next.Some?
      ensures SeenInRoom(steps + [last], t.pcs[c].message, t.pcs[c].next.value)
    {
      SeenLater(steps, last, t.pcs[c].message, t.pcs[c].next.value);
      if !(c in s.pcs && s.pcs[c] == t.pcs[c]) {
        assert last.CastLook? && e == c;
        assert HandlerOk(s, c, s.pcs[c]);
      }
    }
  }

  lemma NothingSeen()
    ensures OnlySeen(Start(), [])
  {
  }

  lemma {:induction false} RunKeepsSeen(steps: seq<Step>)
    ensures OnlySeen(Start().Run(steps), steps) && Inv(Start().Run(steps))
    decreases |steps|
  {
    hide Inv, OnlySeen, System.Next;
    if steps == [] {
      StartIsOk();
      NothingSeen();
    } else {
      var before, last := steps[..|steps| - 1], steps[|steps| - 1];
      RunKeepsSeen(before);
      StepKeepsInv(Start().Run(before), last);
      if IsDeliver(last) {
        DeliverKeepsSeen(Start().Run(before), before, last);
      } else {
        QuietStep(Start().Run(before), last);
        QuietKeepsSeen(Start().Run(before), Start().Run(steps), before, last);
      }
      assert before + [last] == steps;
    }
  }

  /**
   Under every interleaving: each room message in a connection's stream came through another connection, whose
   broadcast of it had looked at this one when it was logged in and in the message's room.
   */
  lemma DeliveredOnlyInRoom(steps: seq<Step>, d: ConnId, i: nat)
    requires var s := Start().Run(steps).core; d in s.conns && i < |s.conns[d].out| && s.conns[d].out[i].Receive?
    ensures var m := Start().Run(steps).core.conns[d].out[i].message;
            exists k | 0 <= k < |steps| :: var s := Start().Run(steps[..k]);
              && steps[k] == CastLook(m.via, d) && d != m.via && d in s.core.conns
              && s.core.conns[d].user.Some? && m.room in s.core.conns[d].rooms
              && m.via in s.pcs && s.pcs[m.via].Broadcasting? && s.pcs[m.via].message == m
  {
    hide System.Next, System.Run, Inv;
    RunKeepsSeen(steps);
    var m := Start().Run(steps).core.conns[d].out[i].message;
    assert SeenInRoom(steps, m, d);
    var k :| 0 <= k < |steps| && Sees(Start().Run(steps[..k]), steps[k], m, d);
  }

  /** So a connection that has never been in a room has received nothing of it. */
  lemma OutsiderReceivesNothing(steps: seq<Step>, d: ConnId, room: Room)
    requires forall n | 0 <= n <= |steps| ::
               var s := Start().Run(steps[..n]).core; d in s.conns ==> room !in s.conns[d].rooms
    ensures var s := Start().Run(steps).core; d in s.conns ==> Received(s.conns[d].out, room) == []
  {
    hide System.Next, System.Run;
    var s := Start().Run(steps).core;
    if d in s.conns {
      forall i | 0 <= i < |s.conns[d].out| && s.conns[d].out[i].Receive?
        ensures s.conns[d].out[i].message.room != room
      {
        DeliveredOnlyInRoom(steps, d, i);
      }
      NoneReceived(s.conns[d].out, room);
    }
  }

  lemma {:induction false} NoneReceived(out: seq<Out>, room: Room)
    requires forall i | 0 <= i < |out| && out[i].Receive? :: out[i].message.room != room
    ensures Received(out, room) == []
  {
    if out != [] {
      NoneReceived(out[..|out| - 1], room);
    }
  }

  // -------------------------------------------------------------------- none missing

  predicate IsFrom(m: Message, c: ConnId, room: Room) {
    m.via == c && m.room == room
  }

  /** The messages of one sending connection to one room string in an outgoing stream. */
  function From(out: seq<Out>, c: ConnId, room: Room): seq<Message> {
    if out == [] then []
    else
      var last := out[|out| - 1];
      From(out[..|out| - 1], c, room) + if last.Receive? && IsFrom(last.message, c, room) then [last.message] else []
  }

  /** Those that it has sent, as the log has them. */
  function SentTo(log: seq<Message>, c: ConnId, room: Room): seq<Message> {
    if log == [] then []
    else
      var last := log[|log| - 1];
      SentTo(log[..|log| - 1], c, room) + if IsFrom(last, c, room) then [last] else []
  }

  /** Those that it has sent and is still delivering. */
  function OnTheWay(s: System, c: ConnId, d: ConnId, room: Room): seq<Message> {
    match Owed(s, c, d)
    case Some(m) => if m.room == room then [m] else []
    case None => []
  }

  lemma FromSnoc(out: seq<Out>, o: Out, c: ConnId, room: Room)
    ensures From(out + [o], c, room)
         == if o.Receive? && IsFrom(o.message, c, room) then From(out, c, room) + [o.message] else From(out, c, room)
  {
    assert (out + [o])[..|out|] == out;
  }

  lemma {:induction false} SentToAppend(log: seq<Message>, more: seq<Message>, c: ConnId, room: Room)
    ensures SentTo(log + more, c, room) == SentTo(log, c, room) + SentTo(more, c, room)
  {
    if more == [] {
      assert log + more == log;
    } else {
      var n := |more| - 1;
      SentToAppend(log, more[..n], c, room);
      assert (log + more)[..|log + more| - 1] == log + more[..n];
    }
  }

  lemma SentToOne(m: Message, c: ConnId, room: Room)
    ensures SentTo([m], c, room) == if IsFrom(m, c, room) then [m] else []
  {
    assert [m][..0] == [];
  }

  /** What `d` has received and what is still on its way to it, together. */
  function Account(s: System, c: ConnId, d: ConnId, room: Room): seq<Message> {
    (if d in s.core.conns then From(s.core.conns[d].out, c, room) else []) + OnTheWay(s, c, d, room)
  }

  lemma QuietFrom(out: seq<Out>, out': seq<Out>, c: ConnId, room: Room)
    requires QuietOut(out, out')
    ensures From(out', c, room) == From(out, c, room)
  {
    if out' != out {
      FromSnoc(out, out'[|out'| - 1], c, room);
      assert out' == out + [out'[|out'| - 1]];
    }
  }

  lemma QuietAt(s: System, t: System, d: ConnId)
    requires Quiet(s, t) && d in s.core.conns && d in t.core.conns
    ensures QuietOut(s.core.conns[d].out, t.core.conns[d].out) && t.core.log == s.core.log
  {
  }

  lemma QuietConserves(s: System, step: Step, c: ConnId, d: ConnId, room: Room)
    requires !IsDeliver(step) && d in s.core.conns && d in s.Next(step).core.conns
    ensures Account(s.Next(step), c, d, room) == Account(s, c, d, room)
    ensures s.Next(step).core.log == s.core.log
  {
    hide System.Next, From, Owed, Quiet, QuietOut;
    QuietStep(s, step);
    QuietOwes(s, step, c, d);
    QuietAt(s, s.Next(step), d);
    QuietFrom(s.core.conns[d].out, s.Next(step).core.conns[d].out, c, room);
  }

  lemma QuietOwes(s: System, step: Step, c: ConnId, d: ConnId)
    requires !IsDeliver(step)
    ensures Owed(s.Next(step), c, d) == Owed(s, c, d)
  {
    hide State.Accept, State.Disconnect, State.HandleAuth, State.HandleHeartbeat, State.CreateRoom, State.BreakLink;
  }

  lemma StopConserves(s: System, e: ConnId, c: ConnId, d: ConnId, room: Room)
    requires e in s.core.conns && e in s.pcs && s.pcs[e].Checked? && d in s.core.conns
    ensures var t := s.Tell(e, Failed(InternalError)).Done(e);
            d in t.core.conns && Account(t, c, d, room) == Account(s, c, d, room)
  {
    FromSnoc(s.core.conns[d].out, Failed(InternalError), c, room);
    hide From;
  }

  lemma LogConserves(s: System, m: Message, c: ConnId, d: ConnId, room: Room)
    requires m.via in s.pcs && s.pcs[m.via].Checked? && d in s.core.conns
    ensures var t := s.(core := s.core.(log := s.core.log + [m])).At(m.via, Stored(m));
            Account(t, c, d, room) == Account(s, c, d, room) + SentTo([m], c, room)
  {
    SentToOne(m, c, room);
    hide From, SentTo;
  }

  lemma StoreConserves(s: System, e: ConnId, c: ConnId, d: ConnId, room: Room)
    requires d in s.core.conns
    ensures var t := s.Next(SendStore(e));
            && s.core.log <= t.core.log && d in t.core.conns
            && Account(t, c, d, room) == Account(s, c, d, room) + SentTo(t.core.log[|s.core.log|..], c, room)
  {
    hide From, SentTo, Account;
    var t := s.Next(SendStore(e));
    if t.core.log == s.core.log {
      assert t.core.log[|s.core.log|..] == [];
      SentToNothing(c, room);
      assert Account(s, c, d, room) + [] == Account(s, c, d, room);
      if t != s {
        StopConserves(s, e, c, d, room);
      }
    } else {
      var m := t.core.log[|s.core.log|];
      assert t.core.log[|s.core.log|..] == [m];
      LogConserves(s, m, c, d, room);
    }
  }

  lemma WriteConserves(s: System, e: ConnId, c: ConnId, d: ConnId, room: Room)
    requires Inv(s) && Listening(s.core, d, room) && c != d
    ensures var t := s.Next(CastWrite(e));
            && t.core.log == s.core.log && d in t.core.conns
            && Account(t, c, d, room) == Account(s, c, d, room)
  {
    hide InOrder, NotYet, From;
    var t := s.Next(CastWrite(e));
    if t != s {
      assert HandlerOk(s, e, s.pcs[e]);
      if s.pcs[e].next == Some(d) {
        FromSnoc(s.core.conns[d].out, Receive(s.pcs[e].message), c, room);
        assert c == e ==> Owed(s, c, d) == Some(s.pcs[e].message) && Owed(t, c, d) == None;
      } else {
        assert Owed(t, c, d) == Owed(s, c, d);
      }
    }
  }

  lemma CastConserves(s: System, step: Step, c: ConnId, d: ConnId, room: Room)
    requires Inv(s) && Listening(s.core, d, room) && c != d
    requires step.CastStart? || step.CastLook? || step.CastEnd?
    ensures var t := s.Next(step);
            && t.core.log == s.core.log && d in t.core.conns
            && Account(t, c, d, room) == Account(s, c, d, room)
  {
    hide InOrder, NotYet, From;
    var t, e := s.Next(step), step.c;
    if t != s {
      assert HandlerOk(s, e, s.pcs[e]);
      if !(step.CastLook? && e == c && s.pcs[e].message.room != room) {
        assert Owed(t, c, d) == Owed(s, c, d);
      }
    }
  }

  lemma StepConserves(s: System, step: Step, c: ConnId, d: ConnId, room: Room)
    requires Inv(s) && c != d
    requires Listening(s.core, d, room) && Listening(s.Next(step).core, d, room)
    ensures var t := s.Next(step);
            && s.core.log <= t.core.log
            && Account(t, c, d, room) == Account(s, c, d, room) + SentTo(t.core.log[|s.core.log|..], c, room)
  {
    hide Inv, Account, System.Next;
    var t := s.Next(step);
    match step
    case SendStore(e) => StoreConserves(s, e, c, d, room);
    case CastStart(_) => CastConserves(s, step, c, d, room);
    case CastLook(_, _) => CastConserves(s, step, c, d, room);
    case CastWrite(e) => WriteConserves(s, e, c, d, room);
    case CastEnd(_) => CastConserves(s, step, c, d, room);
    case _ => QuietConserves(s, step, c, d, room);
    assert t.core.log == s.core.log ==> t.core.log[|s.core.log|..] == [];
  }

  lemma {:induction false} RunConserves(s: System, steps: seq<Step>, c: ConnId, d: ConnId, room: Room)
    requires Inv(s) && c != d
    requires forall n | 0 <= n <= |steps| :: Listening(s.Run(steps[..n]).core, d, room)
    ensures var t := s.Run(steps);
            && s.core.log <= t.core.log
            && Account(t, c, d, room) == Account(s, c, d, room) + SentTo(t.core.log[|s.core.log|..], c, room)
    decreases |steps|
  {
    hide Inv, Account, System.Next, SentTo, Listening;
    assert steps[..|steps|] == steps;
    if steps == [] {
      SentToNothing(c, room);
      assert s.core.log[|s.core.log|..] == [];
      assert Account(s, c, d, room) + [] == Account(s, c, d, room);
    } else {
      var before := steps[..|steps| - 1];
      assert forall n | 0 <= n <= |before| :: before[..n] == steps[..n];
      RunConserves(s, before, c, d, room);
      RunKeepsInv(s, before);
      var r, t := s.Run(before), s.Run(steps);
      assert Listening(r.core, d, room) by {
        assert steps[..|before|] == before;
      }
      StepConserves(r, steps[|steps| - 1], c, d, room);
      SentToAppend(r.core.log[|s.core.log|..], t.core.log[|r.core.log|..], c, room);
      assert t.core.log[|s.core.log|..] == r.core.log[|s.core.log|..] + t.core.log[|r.core.log|..];
    }
  }

  lemma SentToNothing(c: ConnId, room: Room)
    ensures SentTo([], c, room) == []
  {
  }

  /**
   Under any interleaving, while a receiver stays in a room and its writes succeed, nothing another
   connection sends there is missing: between two moments at which the sender is at a handler boundary the
   receiver's stream grows, as far as that sender and room go, by exactly what the log grows by.
   */
  lemma {:induction false} NothingMissing(s: System, steps: seq<Step>, c: ConnId, d: ConnId, room: Room)
    requires Inv(s) && c != d && c !in s.pcs && c !in s.Run(steps).pcs
    requires forall n | 0 <= n <= |steps| :: Listening(s.Run(steps[..n]).core, d, room)
    ensures var t := s.Run(steps);
            && d in s.core.conns && d in t.core.conns && s.core.log <= t.core.log
            && From(t.core.conns[d].out, c, room)
               == From(s.core.conns[d].out, c, room) + SentTo(t.core.log[|s.core.log|..], c, room)
  {
    hide Inv, System.Next, System.Run, SentTo, From, Account, Listening;
    RunConserves(s, steps, c, d, room);
    NoSteps(s);
    assert steps[..0] == [] && steps[..|steps|] == steps;
    assert Listening(s.Run(steps[..0]).core, d, room) && Listening(s.Run(steps[..|steps|]).core, d, room);
    Settled(s, c, d, room);
    Settled(s.Run(steps), c, d, room);
  }

  lemma NoSteps(s: System)
    ensures s.Run([]) == s
  {
  }

  /** At a sender's handler boundary nothing of it is on its way. */
  lemma Settled(s: System, c: ConnId, d: ConnId, room: Room)
    requires c !in s.pcs && Listening(s.core, d, room)
    ensures d in s.core.conns && Account(s, c, d, room) == From(s.core.conns[d].out, c, room)
  {
    hide From;
  }

  // ----------------------------------------------------- rooms backed by membership rows

  /** The room whose row a connection has just added or removed, its room set being about to follow. */
  datatype Moving = Still | Entering(room: Room) | Exiting(room: Room)

  function MovingAt(s: System, c: ConnId): Moving {
    if c !in s.pcs then Still
    else match s.pcs[c]
      case Joining(room, _) => Entering(room)
      case Leaving(room, false) => Exiting(room)
      case _ => Still
  }

  /** A room a connection is in or has added the row for, unless it has just removed the row. */
  predicate Holds(s: System, c: ConnId, room: Room)
    requires c in s.core.conns
  {
    && (room in s.core.conns[c].rooms || MovingAt(s, c) == Entering(room))
    && MovingAt(s, c) != Exiting(room)
  }

  /** Every room that any connection holds has its user's row. */
  ghost predicate Backed(s: System) {
    && (forall c <- s.pcs :: c in s.core.conns && s.core.conns[c].user.Some?)
    && (forall c, room | c in s.core.conns && Holds(s, c, room) ::
          IsMember(s.core.conns[c].user, room, s.core.members))
  }

  /**
   The two ways to lose the row behind a room: removing it where a connection of the same user holds the room,
   this connection under another spelling or a different one, be it only about to enter its room set; and
   logging in again as a user without it.
   */
  ghost predicate Unbacks(s: System, step: Step) {
    match step
    case LeaveRow(c, left) =>
      && s.Idle(c) && IsMember(s.core.conns[c].user, left, s.core.members)
      && exists d, room | d in s.core.conns && Holds(s, d, room) ::
           s.core.conns[d].user == s.core.conns[c].user && room.Key() == left.Key() && (d != c || room != left)
    case Login(c, Valid(u), _) =>
      s.Idle(c) && exists room <- s.core.conns[c].rooms :: !IsMember(Some(u), room, s.core.members)
    case _ => false
  }

  /** No connection holds more than before, nor has one changed its user or a row gone. */
  ghost predicate NoLoss(s: System, t: System) {
    && s.core.members <= t.core.members
    && (forall c, room | c in t.core.conns && Holds(t, c, room) ::
          (c in s.core.conns && t.core.conns[c].user == s.core.conns[c].user && Holds(s, c, room))
          || IsMember(t.core.conns[c].user, room, t.core.members))
  }

  lemma JoiningLosesNothing(s: System, step: Step)
    requires step.JoinRow? || step.JoinAck? || step.JoinSet? || step.LeaveSet? || step.LeaveAck?
    ensures NoLoss(s, s.Move(step))
  {
  }

  lemma SendingLosesNothing(s: System, step: Step)
    requires IsDecide(step) || IsDeliver(step)
    ensures NoLoss(s, s.Next(step))
  {
  }

  lemma AroundLosesNothing(s: System, step: Step)
    requires IsAround(step)
    requires forall c <- s.pcs :: c in s.core.conns
    ensures NoLoss(s, s.Around(step))
  {
  }

  lemma LoginUnbacksIff(s: System, step: Step)
    requires Backed(s) && step.Login?
    ensures (forall c, room | c in s.Move(step).core.conns && Holds(s.Move(step), c, room) ::
               IsMember(s.Move(step).core.conns[c].user, room, s.Move(step).core.members)) <==> !Unbacks(s, step)
  {
    var t, c := s.Move(step), step.c;
    if t != s && step.token.Valid? {
      assert forall room :: Holds(t, c, room) <==> room in s.core.conns[c].rooms;
      assert forall d, room | d in s.core.conns && d != c :: Holds(t, d, room) <==> Holds(s, d, room);
    }
  }

  lemma LeaveUnbacksIff(s: System, step: Step)
    requires Backed(s) && step.LeaveRow?
    ensures (forall c, room | c in s.Move(step).core.conns && Holds(s.Move(step), c, room) ::
               IsMember(s.Move(step).core.conns[c].user, room, s.Move(step).core.members)) <==> !Unbacks(s, step)
  {
    var t, c, left := s.Move(step), step.c, step.room;
    if s.Idle(c) && IsMember(s.core.conns[c].user, left, s.core.members) {
      var row := (left.Key(), s.core.conns[c].user.value);
      assert t.core.members == s.core.members - {row} && t.core.conns == s.core.conns;
      forall d, room | d in s.core.conns
        ensures Holds(t, d, room) <==> Holds(s, d, room) && (d != c || room != left)
      {
      }
    } else {
      assert forall d, room | d in s.core.conns :: Holds(t, d, room) <==> Holds(s, d, room);
    }
  }

  /** From a state with all rooms backed, a step takes the row from a room held if and only if it is one of the two. */
  lemma UnbacksIff(s: System, step: Step)
    requires Backed(s)
    ensures !Backed(s.Next(step)) <==> Unbacks(s, step)
  {
    HandlersAreUsers(s, step);
    if step.Login? {
      LoginUnbacksIff(s, step);
    } else if step.LeaveRow? {
      LeaveUnbacksIff(s, step);
    } else {
      if IsMove(step) {
        JoiningLosesNothing(s, step);
      } else if IsAround(step) {
        AroundLosesNothing(s, step);
      } else {
        SendingLosesNothing(s, step);
      }
      hide System.Next, Holds;
    }
  }

  lemma HandlersAreUsers(s: System, step: Step)
    requires forall c <- s.pcs :: c in s.core.conns && s.core.conns[c].user.Some?
    ensures forall c <- s.Next(step).pcs :: c in s.Next(step).core.conns && s.Next(step).core.conns[c].user.Some?
  {
  }

  /** Under every interleaving: all rooms held have their rows all along if and only if no step is one of the two. */
  lemma {:induction false} AlwaysBackedIff(s: System, steps: seq<Step>)
    requires Backed(s)
    ensures (forall n | 0 <= n <= |steps| :: Backed(s.Run(steps[..n]))) <==>
            (forall n | 0 <= n < |steps| :: !Unbacks(s.Run(steps[..n]), steps[n]))
    decreases |steps|
  {
    hide Backed, Unbacks, System.Next;
    assert steps[..|steps|] == steps && steps[..0] == [];
    if steps == [] {
      NoSteps(s);
    } else {
      var m := |steps| - 1;
      var before := steps[..m];
      assert forall n | 0 <= n <= m :: before[..n] == steps[..n];
      assert forall n | 0 <= n < m :: before[n] == steps[n];
      AlwaysBackedIff(s, before);
      if Backed(s.Run(before)) {
        UnbacksIff(s.Run(before), steps[m]);
      }
      assert Backed(s.Run(steps[..m])) <==> Backed(s.Run(before));
    }
  }

  /** Each user has at most one live connection. */
  ghost predicate OnePerUser(s: System) {
    forall c, d | c in s.core.conns && d in s.core.conns && c != d && s.core.conns[c].user.Some? ::
      s.core.conns[c].user != s.core.conns[d].user
  }

  /** A step that logs in only connections that have not logged in, and names rooms in the canonical way. */
  predicate Orderly(s: System, step: Step) {
    match step
    case Login(c, token, _) => c in s.core.conns && token.Valid? ==> s.core.conns[c].user.None?
    case JoinRow(_, room) => room.Canonical()
    case LeaveRow(_, room) => room.Canonical()
    case _ => true
  }

  /** Every room that is held is held under its canonical name. */
  ghost predicate Named(s: System) {
    && (forall c, room | c in s.core.conns && room in s.core.conns[c].rooms :: room.Canonical())
    && (forall c <- s.pcs :: s.pcs[c].Joining? ==> s.pcs[c].room.Canonical())
  }

  lemma StepKeepsNamed(s: System, step: Step)
    requires Named(s) && Orderly(s, step)
    ensures Named(s.Next(step))
  {
  }

  /** Orderly steps of users with one connection each are neither of the two. */
  lemma OrderlyBacks(s: System, step: Step)
    requires Backed(s) && Named(s) && OnePerUser(s) && Orderly(s, step)
    ensures !Unbacks(s, step)
  {
    match step
    case LeaveRow(c, left) =>
      assert forall room: Room | room.Canonical() && room.Key() == left.Key() && left.Canonical() :: room == left;
    case Login(c, token, _) =>
      assert s.Idle(c) ==> forall room <- s.core.conns[c].rooms :: Holds(s, c, room);
    case _ =>
  }

  lemma {:induction false} RunKeepsBacked(s: System, steps: seq<Step>)
    requires Backed(s) && Named(s)
    requires forall n | 0 <= n < |steps| :: Orderly(s.Run(steps[..n]), steps[n]) && OnePerUser(s.Run(steps[..n]))
    ensures Backed(s.Run(steps)) && Named(s.Run(steps))
    decreases |steps|
  {
    hide Backed, Named, OnePerUser, Orderly, Unbacks, System.Next;
    if steps != [] {
      var before := steps[..|steps| - 1];
      assert forall n | 0 <= n <= |before| :: before[..n] == steps[..n];
      RunKeepsBacked(s, before);
      var last := steps[|steps| - 1];
      assert Orderly(s.Run(steps[..|steps| - 1]), last) && OnePerUser(s.Run(steps[..|steps| - 1]));
      OrderlyBacks(s.Run(before), last);
      UnbacksIff(s.Run(before), last);
      StepKeepsNamed(s.Run(before), last);
    }
  }

  /**
   In every run in which each user has at most one live connection, each connection logs in once and rooms
   are named canonically: a connection at a handler boundary holds only rooms of which its user is a
   stored member, so whomever a broadcast finds listening there is one.
   */
  lemma {:induction false} ListenersAreMembers(steps: seq<Step>, d: ConnId, room: Room)
    requires forall n | 0 <= n < |steps| ::
               Orderly(Start().Run(steps[..n]), steps[n]) && OnePerUser(Start().Run(steps[..n]))
    ensures var s := Start().Run(steps);
            s.Idle(d) && room in s.core.conns[d].rooms ==> IsMember(s.core.conns[d].user, room, s.core.members)
  {
    RunKeepsBacked(Start(), steps);
    hide System.Next, OnePerUser;
    var s := Start().Run(steps);
    assert s.Idle(d) && room in s.core.conns[d].rooms ==> Holds(s, d, room);
  }

  const OPENING: seq<Step> :=
    [NewRoom(7, 9), Open(1), Open(2), Login(1, Valid(5), ""), Login(2, Valid(5), "")]

  const JOINING: seq<Step> := [JoinRow(1, HALL), JoinAck(1), JoinSet(1)]

  const LEAVING: seq<Step> := [LeaveRow(2, HALL), LeaveSet(2), LeaveAck(2)]

  /** User 5 joins room 7 on one connection and leaves it on another: the first still holds it, with no row. */
  lemma SecondConnectionUnbacks()
    ensures Unbacks(Start().Run(OPENING + JOINING), LEAVING[0])
    ensures var s := Start().Run(OPENING + JOINING + LEAVING);
            s.Idle(1) && s.core.Hears(1, HALL) && !IsMember(s.core.conns[1].user, HALL, s.core.members)
  {
    hide System.Next, System.Run, TwoLogins, Gathered, Unbacks;
    OpenTwo();
    JoinOne();
    HeldByBoth();
    LeaveTwo();
    ThreeSteps(TwoLogins(), JOINING[0], JOINING[1], JOINING[2]);
    ThreeSteps(System(Gathered(5, 5, false), map[]), LEAVING[0], LEAVING[1], LEAVING[2]);
    RunAppend(Start(), OPENING, JOINING);
    RunAppend(Start(), OPENING + JOINING, LEAVING);
  }

  lemma HeldByBoth()
    ensures Unbacks(System(Gathered(5, 5, false), map[]), LEAVING[0])
  {
    assert Holds(System(Gathered(5, 5, false), map[]), 1, HALL);
  }

  lemma LeaveTwo()
    ensures var joined := System(Gathered(5, 5, false), map[]);
            var s := joined.Next(LEAVING[0]).Next(LEAVING[1]).Next(LEAVING[2]);
            && s.Idle(1) && s.core.Hears(1, HALL) && !IsMember(s.core.conns[1].user, HALL, s.core.members)
  {
    var joined := System(Gathered(5, 5, false), map[]);
    var s := joined.Next(LeaveRow(2, HALL));
    assert s.pcs == map[2 := Leaving(HALL, false)] && s.core.members == {(7, 9)};
    var t := s.Next(LeaveSet(2));
    assert t.pcs == map[2 := Leaving(HALL, true)] && t.core.conns[1] == joined.core.conns[1];
  }

  function TwoLogins(): System {
    var in5 := Conn(Some(5), "", {}, true, [AuthOk(5)]);
    System(State(map[1 := in5, 2 := in5], {7}, {(7, 9)}, [], []), map[])
  }

  lemma OpenTwo()
    ensures Start().Run(OPENING) == TwoLogins()
  {
    assert [] + [AuthOk(5)] == [AuthOk(5)];
    var s3 := Start().Next(OPENING[0]).Next(OPENING[1]).Next(OPENING[2]);
    assert s3.core.conns == map[1 := NEWCOMER, 2 := NEWCOMER];
    ThreeSteps(Start(), OPENING[0], OPENING[1], OPENING[2]);
    TwoSteps(s3, OPENING[3], OPENING[4]);
    RunAppend(Start(), OPENING[..3], OPENING[3..]);
    assert s3.Next(OPENING[3]).Next(OPENING[4]).core.conns == TwoLogins().core.conns;
    assert OPENING[..3] == [OPENING[0], OPENING[1], OPENING[2]] && OPENING[3..] == [OPENING[3], OPENING[4]];
    assert OPENING[..3] + OPENING[3..] == OPENING;
  }

  lemma JoinOne()
    ensures TwoLogins().Next(JOINING[0]).Next(JOINING[1]).Next(JOINING[2]) == System(Gathered(5, 5, false), map[])
  {
    assert [AuthOk(5)] + [JoinOk(HALL)] == [AuthOk(5), JoinOk(HALL)] && {} + {HALL} == {HALL};
    var s := TwoLogins().Next(JoinRow(1, HALL));
    assert s.pcs == map[1 := Joining(HALL, false)] && s.core.members == {(7, 9), (7, 5)};
    var t := s.Next(JoinAck(1)).Next(JoinSet(1));
    assert t.pcs == map[];
    assert t.core.conns == Gathered(5, 5, false).conns;
  }

  // ------------------------------------------------- a handler that is not interrupted

  /** The broadcast of `m` with the connections in `seen` dealt with. */
  function Partly(s: State, m: Message, seen: set<ConnId>): State {
    s.(conns := map d | d in s.conns ::
                  if d in seen && d != m.via && s.Hears(d, m.room) then s.conns[d].Send(Receive(m)) else s.conns[d])
  }

  /** Looking at each connection in turn, and writing to those that are in the room. */
  function Visits(c: ConnId, order: seq<ConnId>): seq<Step> {
    if order == [] then [] else Visits(c, order[..|order| - 1]) + [CastLook(c, order[|order| - 1]), CastWrite(c)]
  }

  lemma VisitOne(s: System, m: Message, seen: set<ConnId>, d: ConnId)
    requires d in s.core.conns && d !in seen && m.via in s.core.conns
    ensures var c := m.via;
            var before := System(Partly(s.core, m, seen), s.pcs[c := Broadcasting(m, s.core.conns.Keys - seen, None)]);
            before.Next(CastLook(c, d)).Next(CastWrite(c))
            == System(Partly(s.core, m, seen + {d}), s.pcs[c := Broadcasting(m,
              s.core.conns.Keys - (seen + {d}), None)])
  {
    var c := m.via;
    var before := System(Partly(s.core, m, seen), s.pcs[c := Broadcasting(m, s.core.conns.Keys - seen, None)]);
    var after := before.Next(CastLook(c, d)).Next(CastWrite(c));
    assert s.core.conns.Keys - seen - {d} == s.core.conns.Keys - (seen + {d});
    assert after.core.conns == Partly(s.core, m, seen + {d}).conns;
    assert after.pcs == s.pcs[c := Broadcasting(m, s.core.conns.Keys - (seen + {d}), None)];
  }

  lemma {:induction false} VisitAll(s: System, m: Message, order: seq<ConnId>)
    requires m.via in s.core.conns
    requires forall d <- order :: d in s.core.conns
    requires forall i, j | 0 <= i < j < |order| :: order[i] != order[j]
    ensures var c, seen := m.via, set d | d in order;
            s.At(c, Broadcasting(m, s.core.conns.Keys, None)).Run(Visits(c, order))
            == System(Partly(s.core, m, seen), s.pcs[c := Broadcasting(m, s.core.conns.Keys - seen, None)])
  {
    var c, seen := m.via, set d | d in order;
    if order == [] {
      NoneSeen(s, m, order, seen);
    } else {
      hide System.Next, System.Run, Visits, Partly;
      var n := |order| - 1;
      var sooner := set e | e in order[..n];
      VisitAll(s, m, order[..n]);
      assert seen == sooner + {order[n]};
      VisitOne(s, m, sooner, order[n]);
      RunVisits(s.At(c, Broadcasting(m, s.core.conns.Keys, None)), c, order);
    }
  }

  lemma RunVisits(s: System, c: ConnId, order: seq<ConnId>)
    requires order != []
    ensures var n := |order| - 1;
            s.Run(Visits(c, order)) == s.Run(Visits(c, order[..n])).Next(CastLook(c, order[n])).Next(CastWrite(c))
  {
    hide System.Next;
    var n := |order| - 1;
    RunAppend(s, Visits(c, order[..n]), [CastLook(c, order[n]), CastWrite(c)]);
    TwoSteps(s.Run(Visits(c, order[..n])), CastLook(c, order[n]), CastWrite(c));
  }

  lemma NoneSeen(s: System, m: Message, order: seq<ConnId>, seen: set<ConnId>)
    requires order == [] && seen == {}
    ensures var c := m.via;
            s.At(c, Broadcasting(m, s.core.conns.Keys, None)).Run(Visits(c, order))
            == System(Partly(s.core, m, seen), s.pcs[c := Broadcasting(m, s.core.conns.Keys - seen, None)])
  {
    assert Partly(s.core, m, seen).conns == s.core.conns;
    assert s.core.conns.Keys - seen == s.core.conns.Keys;
  }

  lemma {:induction false} RunAppend(s: System, first: seq<Step>, more: seq<Step>)
    ensures s.Run(first + more) == s.Run(first).Run(more)
    decreases |more|
  {
    hide System.Next;
    if more == [] {
      assert first + more == first;
    } else {
      var n := |more| - 1;
      RunAppend(s, first, more[..n]);
      assert (first + more)[..|first + more| - 1] == first + more[..n];
    }
  }

  /** A send handler's steps one after the other, `order` being the order of the connection table. */
  function SendSteps(c: ConnId, room: Room, content: string, blocked: bool, order: seq<ConnId>): seq<Step> {
    if blocked then [SendCheck(c, room, content), SendRefuse(c)]
    else [SendCheck(c, room, content), SendStore(c), CastStart(c)] + (Visits(c, order) + [CastEnd(c)])
  }

  lemma {:induction false} NotSending(s: System, c: ConnId, order: seq<ConnId>)
    requires c !in s.pcs
    ensures s.Run(Visits(c, order)) == s && s.Next(CastEnd(c)) == s
  {
    if order != [] {
      var n := |order| - 1;
      NotSending(s, c, order[..n]);
      RunVisits(s, c, order);
    }
  }

  /** A send that the check or the checker stops ends after it; one that cannot be stored ends there. */
  lemma StoppedSend(s: System, c: ConnId, room: Room, content: string, checker: set<(User, User)>)
    requires s.Idle(c) && s.core.Refusal(c, Some((room, content)), checker).Some?
    ensures var blocked := s.core.conns[c].user.Some? && s.core.BlockedIn(s.core.conns[c].user.value, room, checker);
            var first := s.Next(SendCheck(c, room, content));
            (if blocked then first.Next(SendRefuse(c)) else first.Next(SendStore(c)).Next(CastStart(c)))
            == System(s.core.HandleSendMessage(c, Some((room, content)), checker), s.pcs)
  {
    assert s.pcs[c := Checked(room, content)] - {c} == s.pcs;
  }

  /** Without interruption, and in whatever order the table is walked, the steps do what the handler does in one go. */
  lemma UninterruptedSend(s: System, c: ConnId, room: Room, content: string, checker: set<(User,
        User)>, order: seq<ConnId>)
    requires s.Idle(c)
    requires forall d :: d in order <==> d in s.core.conns
    requires forall i, j | 0 <= i < j < |order| :: order[i] != order[j]
    ensures var blocked := s.core.conns[c].user.Some? && s.core.BlockedIn(s.core.conns[c].user.value, room, checker);
            s.Run(SendSteps(c, room, content, blocked, order))
            == System(s.core.HandleSendMessage(c, Some((room, content)), checker), s.pcs)
  {
    hide System.Next, System.Run, Visits;
    var refused := s.core.Refusal(c, Some((room, content)), checker).Some?;
    var blocked := s.core.conns[c].user.Some? && s.core.BlockedIn(s.core.conns[c].user.value, room, checker);
    var check, store, start := SendCheck(c, room, content), SendStore(c), CastStart(c);
    if refused {
      StoppedSend(s, c, room, content, checker);
    }
    if blocked {
      TwoSteps(s, check, SendRefuse(c));
    } else {
      var s3 := s.Next(check).Next(store).Next(start);
      ThreeSteps(s, check, store, start);
      RunAppend(s, [check, store, start], Visits(c, order) + [CastEnd(c)]);
      RunAppend(s3, Visits(c, order), [CastEnd(c)]);
      TwoSteps(s3.Run(Visits(c, order)), CastEnd(c), CastEnd(c));
      if refused {
        NotSending(s3, c, order);
      } else {
        PostSteps(s, c, room, content, order);
      }
    }
  }

  /** The handlers that take one step do what they do one at a time. */
  lemma OneStepHandlers(s: System, c: ConnId, token: Token, username: string)
    requires s.Idle(c)
    ensures s.Next(Login(c, token, username)) == System(s.core.HandleAuth(c, token, username), s.pcs)
    ensures s.Next(Beat(c)) == System(s.core.HandleHeartbeat(c), s.pcs)
    ensures s.TableIsFree() ==> s.Next(Close(c)) == System(s.core.Disconnect(c), s.pcs)
    ensures s.Next(LinkBreaks(c)) == System(s.core.BreakLink(c), s.pcs)
  {
  }

  /** The steps of a request to join, without interruption, do what the handler does in one go. */
  lemma UninterruptedJoin(s: System, c: ConnId, room: Room)
    requires s.Idle(c)
    ensures s.Run([JoinRow(c, room), JoinAck(c), JoinSet(c)])
         == System(s.core.HandleJoinRoom(c, Some(room)), s.pcs)
  {
    ThreeSteps(s, JoinRow(c, room), JoinAck(c), JoinSet(c));
    var t := s.Next(JoinRow(c, room));
    if c in t.pcs {
      assert t.Next(JoinAck(c)).Next(JoinSet(c)).pcs == s.pcs;
      assert t.Next(JoinAck(c)).Next(JoinSet(c)).core.conns == s.core.HandleJoinRoom(c, Some(room)).conns;
    }
    hide System.Run;
  }

  /** The steps of a request to leave, likewise. */
  lemma UninterruptedLeave(s: System, c: ConnId, room: Room)
    requires s.Idle(c)
    ensures s.Run([LeaveRow(c, room), LeaveSet(c), LeaveAck(c)])
         == System(s.core.HandleLeaveRoom(c, Some(room)), s.pcs)
  {
    ThreeSteps(s, LeaveRow(c, room), LeaveSet(c), LeaveAck(c));
    var t := s.Next(LeaveRow(c, room));
    if c in t.pcs {
      assert t.Next(LeaveSet(c)).Next(LeaveAck(c)).pcs == s.pcs;
      assert t.Next(LeaveSet(c)).Next(LeaveAck(c)).core.conns == s.core.HandleLeaveRoom(c, Some(room)).conns;
    }
    hide System.Run;
  }

  lemma TwoSteps(s: System, a: Step, b: Step)
    ensures s.Run([a]) == s.Next(a) && s.Run([a, b]) == s.Next(a).Next(b)
  {
    hide System.Next;
    assert [a, b][..1] == [a] && [a][..0] == [];
  }

  lemma ThreeSteps(s: System, a: Step, b: Step, c: Step)
    ensures s.Run([a, b, c]) == s.Next(a).Next(b).Next(c)
  {
    hide System.Next;
    TwoSteps(s, a, b);
    assert [a, b, c][..2] == [a, b];
  }

  lemma ReadyToCast(s: System, c: ConnId, room: Room, content: string)
    requires s.Idle(c) && s.core.conns[c].user.Some? && room.uuid.Some?
    requires room in s.core.conns[c].rooms && room.Key() in s.core.rooms
    ensures var m := Message(|s.core.log|, c, s.core.conns[c].user.value, room, content);
            s.Next(SendCheck(c, room, content)).Next(SendStore(c)).Next(CastStart(c))
            == System(s.core.(log := s.core.log + [m]), s.pcs).At(c, Broadcasting(m, s.core.conns.Keys, None))
  {
    var m := Message(|s.core.log|, c, s.core.conns[c].user.value, room, content);
    assert s.pcs[c := Checked(room, content)][c := Stored(m)][c := Broadcasting(m, s.core.conns.Keys, None)]
        == s.pcs[c := Broadcasting(m, s.core.conns.Keys, None)];
  }

  lemma EndCast(s: System, m: Message)
    requires m.via !in s.pcs
    ensures System(s.core, s.pcs[m.via := Broadcasting(m, {}, None)]).Next(CastEnd(m.via)) == s
  {
    assert s.pcs[m.via := Broadcasting(m, {}, None)] - {m.via} == s.pcs;
  }

  lemma PostSteps(s: System, c: ConnId, room: Room, content: string, order: seq<ConnId>)
    requires s.Idle(c) && s.core.conns[c].user.Some? && room.uuid.Some?
    requires room in s.core.conns[c].rooms && room.Key() in s.core.rooms
    requires forall d :: d in order <==> d in s.core.conns
    requires forall i, j | 0 <= i < j < |order| :: order[i] != order[j]
    ensures var m := Message(|s.core.log|, c, s.core.conns[c].user.value, room, content);
            s.Next(SendCheck(c, room, content)).Next(SendStore(c)).Next(CastStart(c)).Run(Visits(c,
              order)).Next(CastEnd(c))
            == System(s.core.Post(m), s.pcs)
  {
    var m := Message(|s.core.log|, c, s.core.conns[c].user.value, room, content);
    var logged := System(s.core.(log := s.core.log + [m]), s.pcs);
    ReadyToCast(s, c, room, content);
    VisitAll(logged, m, order);
    var seen := set d | d in order;
    assert seen == s.core.conns.Keys;
    assert s.core.conns.Keys - seen == {};
    AllSeen(logged.core, m, seen);
    EndCast(System(s.core.Post(m), s.pcs), m);
    hide System.Next, Partly, System.Run, Visits;
  }

  lemma AllSeen(s: State, m: Message, seen: set<ConnId>)
    requires seen == s.conns.Keys
    ensures Partly(s, m, seen) == s.Broadcast(m)
  {
    assert Partly(s, m, seen).conns == s.Broadcast(m).conns;
  }
}
