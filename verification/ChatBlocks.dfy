/** The chat server with the friends service as its block checker. */
module ChatBlocks {
  import opened Common
  import Friends
  import FriendsRuns
  import opened Chat

  /** The pairs for which the friends service answers yes. */
  function Checker(f: Friends.Store, redisUp: bool): (pairs: set<(nat, nat)>)
    ensures forall a: nat, b: nat :: (a, b) in pairs <==> f.IsBlocked(a, b, redisUp)
  {
    if redisUp then f.cache else f.blocks
  }

  ghost predicate IsOther(s: State, room: Room, u: User, other: User) {
    other != u && (room.Key(), other) in s.members
  }

  /** The sender has blocked another stored member of the room. */
  ghost predicate BlocksSomebody(s: State, f: Friends.Store, room: Room, u: User) {
    exists other: User :: IsOther(s, room, u, other) && (u, other) in f.blocks
  }

  /** Another stored member of the room has blocked the sender. */
  ghost predicate IsBlockedBySomebody(s: State, f: Friends.Store, room: Room, u: User) {
    exists other: User :: IsOther(s, room, u, other) && (other, u) in f.blocks
  }

  /** With a coherent cache, the check says yes exactly when the sender has blocked another stored member. */
  lemma RefusedForOwnBlocks(s: State, f: Friends.Store, redisUp: bool, u: User, room: Room)
    requires f.cache == f.blocks
    ensures s.BlockedIn(u, room, Checker(f, redisUp)) <==> BlocksSomebody(s, f, room, u)
  {
    if s.BlockedIn(u, room, Checker(f, redisUp)) {
      var m :| m in s.members && m.0 == room.Key() && m.1 != u && (u, m.1) in Checker(f, redisUp);
      assert IsOther(s, room, u, m.1);
    }
    if BlocksSomebody(s, f, room, u) {
      var other: User :| IsOther(s, room, u, other) && (u, other) in f.blocks;
      assert (room.Key(), other) in s.members;
    }
  }

  /**
   The handler means to stop a sender whom a room member has blocked, but it asks about the sender first, and
   the friends service takes its first argument for the blocker. With a coherent cache, a send with nothing
   else against it is refused exactly when the sender has blocked another stored member.
   */
  lemma RefusedIffSenderBlocks(s: State, f: Friends.Store, redisUp: bool, c: ConnId, room: Room, content: string)
    requires f.cache == f.blocks
    requires c in s.conns && MayPost(s, c, room, {})
    ensures s.HandleSendMessage(c, Some((room, content)), Checker(f, redisUp)).log == s.log <==>
            BlocksSomebody(s, f, room, s.conns[c].user.value)
  {
    var u, checker := s.conns[c].user.value, Checker(f, redisUp);
    RefusedIff(s, c, room, content, checker);
    RefusedForOwnBlocks(s, f, redisUp, u, room);
  }

  /**
   In a room of any size: a listener whose user has blocked the sender receives the message all the same
   exactly when the sender has blocked no other stored member.
   */
  lemma BlockerReceivesIff(s: State, f: Friends.Store, redisUp: bool, c: ConnId, room: Room, content: string,
        d: ConnId)
    requires f.cache == f.blocks
    requires c in s.conns && MayPost(s, c, room, {}) && d != c && Listening(s, d, room)
    ensures var u := s.conns[c].user.value;
            var t := s.HandleSendMessage(c, Some((room, content)), Checker(f, redisUp));
            d in t.conns
            && (Received(t.conns[d].out, room)
                == Received(s.conns[d].out, room) + [Message(|s.log|, c, u, room, content)]
                <==> !BlocksSomebody(s, f, room, u))
  {
    var u, checker := s.conns[c].user.value, Checker(f, redisUp);
    var t, m := s.HandleSendMessage(c, Some((room, content)), checker), Message(|s.log|, c, u, room, content);
    RefusedIff(s, c, room, content, checker);
    RefusedIffSenderBlocks(s, f, redisUp, c, room, content);
    ReceivedSnoc(s.conns[d].out, Receive(m), room);
    hide Received;
    if t.log == s.log {
      assert |Received(s.conns[d].out, room) + [m]| > |Received(s.conns[d].out, room)|;
    }
  }

  /**
   Where the handler departs from its intent: it lets a blocked sender through exactly when the sender blocks
   nobody there, and stops a sender nobody has blocked exactly when the sender has blocked somebody there.
   */
  lemma IntentIff(s: State, f: Friends.Store, redisUp: bool, c: ConnId, room: Room, content: string)
    requires f.cache == f.blocks
    requires c in s.conns && MayPost(s, c, room, {})
    ensures var u := s.conns[c].user.value;
            var refused := s.HandleSendMessage(c, Some((room, content)), Checker(f, redisUp)).log == s.log;
            (refused <==> IsBlockedBySomebody(s, f, room, u)) <==>
            (BlocksSomebody(s, f, room, u) <==> IsBlockedBySomebody(s, f, room, u))
  {
    RefusedIffSenderBlocks(s, f, redisUp, c, room, content);
  }

  const BLOCKED: Friends.Store := Friends.Store({1, 2}, [], 0, {(1, 2)}, {(1, 2)}, map[], 0, [Friends.Blocked(2, 1)])

  lemma OneBlocksTwo()
    ensures FriendsRuns.Run(Friends.Store({1, 2}, [], 0, {}, {}, map[], 0, []), [FriendsRuns.Block(1, 2)]) == BLOCKED
  {
    var f0 := Friends.Store({1, 2}, [], 0, {}, {}, map[], 0, []);
    assert [FriendsRuns.Block(1, 2)][..0] == [];
    assert f0.Block(1, 2).0 == BLOCKED;
  }

  /** User 1 blocks user 2, they meet in a room, and 1 receives what 2 sends there. */
  lemma BlockerHears()
    ensures var f := FriendsRuns.Run(Friends.Store({1, 2}, [], 0, {}, {}, map[], 0, []), [FriendsRuns.Block(1, 2)]);
            var around := Surroundings(Checker(f, true), None);
            var s := Run(EMPTY, Gathering(1, 2, true) + [Got(2, SendMsg(Some((HALL, "hello"))), around)]);
            && (1, 2) in f.blocks && f.cache == f.blocks
            && 1 in s.conns && s.conns[1].user == Some(1)
            && Received(s.conns[1].out, HALL) == [Message(0, 2, 2, HALL, "hello")]
  {
    OneBlocksTwo();
    GatheringGathers(1, 2, true);
    var around := Surroundings(Checker(BLOCKED, true), None);
    RunLast(EMPTY, Gathering(1, 2, true), Got(2, SendMsg(Some((HALL, "hello"))), around));
    GatheredMayPost();
    BlockerReceivesIff(Gathered(1, 2, true), BLOCKED, true, 2, HALL, "hello", 1);
    hide Run, Gathering, Gathered, FriendsRuns.Run, MayPost, Listening, Received, BlocksSomebody;
  }

  lemma GatheredMayPost()
    ensures var s := Gathered(1, 2, true);
            && 1 in s.conns && 2 in s.conns && s.conns[1].user == Some(1) && s.conns[2].user == Some(2) && s.log == []
            && MayPost(s, 2, HALL, {}) && Listening(s, 1, HALL) && !BlocksSomebody(s, BLOCKED, HALL, 2)
            && Received(s.conns[1].out, HALL) == []
  {
    var s := Gathered(1, 2, true);
    assert s.conns[1].out[..1] == [AuthOk(1)] && [AuthOk(1)][..0] == [];
  }
}
