/** The chat server behind the friends service's presence: a heartbeat sets a user online, a disconnect offline. */
module ChatPresence {
  import opened Common
  import Friends
  import FriendsRuns
  import opened Chat

  /** What the chat server serves, with Redis up or not, and what else is asked of the friends service. */
  datatype BothEvent = Served(event: Event, redisUp: bool) | Asked(call: FriendsRuns.Call)

  datatype Both = Both(chat: State, friends: Friends.Store) {
    function Next(e: BothEvent): Both {
      match e
      case Asked(call) => this.(friends := FriendsRuns.Step(friends, call))
      case Served(event, redisUp) =>
        var t := Step(chat, event);
        Both(t, FriendsRuns.Run(friends, Calls(t.presence[|chat.presence|..], redisUp)))
    }

    function Run(events: seq<BothEvent>): Both
      decreases |events|
    {
      if events == [] then this else Run(events[..|events| - 1]).Next(events[|events| - 1])
    }

    ghost predicate LoggedIn(u: User) {
      exists c <- chat.conns :: chat.conns[c].user == Some(u)
    }
  }

  function Calls(presence: seq<Presence>, redisUp: bool): seq<FriendsRuns.Call> {
    seq(|presence|, i requires 0 <= i < |presence| =>
      match presence[i]
      case Online(u, username) => FriendsRuns.SetOnline(u, username, redisUp)
      case Offline(u) => FriendsRuns.SetOffline(u, redisUp))
  }

  lemma StepGrowsPresence(s: State, e: Event)
    ensures s.presence <= Step(s, e).presence && |Step(s, e).presence| <= |s.presence| + 1
  {
  }

  /** Whatever clients send and whoever else calls, each user's online and offline notices alternate. */
  lemma {:induction false} NoticesAlternate(b: Both, events: seq<BothEvent>, u: User)
    requires FriendsRuns.TraceOk(b.friends, u)
    ensures FriendsRuns.TraceOk(b.Run(events).friends, u)
    decreases |events|
  {
    hide FriendsRuns.TraceOk, FriendsRuns.Step, Step, Calls;
    if events != [] {
      var before, last := b.Run(events[..|events| - 1]), events[|events| - 1];
      NoticesAlternate(b, events[..|events| - 1], u);
      match last
      case Asked(call) => FriendsRuns.StepKeepsTrace(before.friends, call, u);
      case Served(event, redisUp) =>
        StepGrowsPresence(before.chat, event);
        var calls := Calls(Step(before.chat, event).presence[|before.chat.presence|..], redisUp);
        FriendsRuns.TraceAlternates(before.friends, calls, u);
    }
  }

  lemma OneCall(s: Friends.Store, call: FriendsRuns.Call)
    ensures FriendsRuns.Run(s, []) == s && FriendsRuns.Run(s, [call]) == FriendsRuns.Step(s, call)
  {
    assert [call][..0] == [];
  }

  /**
   What the chat server serves takes a user offline that is still logged in somewhere exactly when it closes
   one of several connections of that user.
   */
  lemma OfflineWhileLoggedInIff(b: Both, event: Event, redisUp: bool, u: User)
    requires b.friends.IsOnline(u)
    ensures var t := b.Next(Served(event, redisUp));
            t.LoggedIn(u) && !t.friends.IsOnline(u) <==>
            && event.Disconnected? && redisUp
            && event.c in b.chat.conns && b.chat.conns[event.c].user == Some(u)
            && exists c <- b.chat.conns :: c != event.c && b.chat.conns[c].user == Some(u)
  {
    var t := b.Next(Served(event, redisUp));
    var said := t.chat.presence[|b.chat.presence|..];
    StepGrowsPresence(b.chat, event);
    if said == [] {
      assert Calls(said, redisUp) == [];
    } else {
      assert said == [said[0]] && Calls(said, redisUp) == [Calls(said, redisUp)[0]];
      OneCall(b.friends, Calls(said, redisUp)[0]);
      Only(b.friends, said[0], redisUp, u);
    }
    OneCall(b.friends, FriendsRuns.LoadCache);
    SaysOfflineIff(b.chat, event, u);
    hide FriendsRuns.Step, FriendsRuns.Run, Step;
  }

  lemma SaysOfflineIff(s: State, event: Event, u: User)
    requires s.presence <= Step(s, event).presence
    ensures var t := Step(s, event);
            var closes := event.Disconnected? && event.c in s.conns && s.conns[event.c].user == Some(u);
            && (t.presence[|s.presence|..] == [Offline(u)] <==> closes)
            && (closes ==> ((exists c <- t.conns :: t.conns[c].user == Some(u)) <==>
                            exists c <- s.conns :: c != event.c && s.conns[c].user == Some(u)))
  {
    var t := Step(s, event);
    if event.Disconnected? && event.c in s.conns {
      assert forall c :: c in t.conns <==> c in s.conns && c != event.c;
      assert forall c <- t.conns :: t.conns[c] == s.conns[c];
      if c :| c in s.conns && c != event.c && s.conns[c].user == Some(u) {
        assert c in t.conns;
      }
    }
  }

  /** While a user's key lives, only its own offline takes it away. */
  lemma Only(s: Friends.Store, said: Presence, redisUp: bool, u: User)
    requires s.IsOnline(u)
    ensures FriendsRuns.Step(s, Calls([said], redisUp)[0]).IsOnline(u) <==> !(redisUp && said == Offline(u))
  {
  }

  /**
   The first heartbeat after a login announces the user, under the name it logged in with, to exactly those its
   accepted friendships address.
   */
  lemma FirstBeatAnnounces(b: Both, c: ConnId, u: User, username: string, around: Surroundings)
    requires c in b.chat.conns && !b.friends.IsOnline(u)
    ensures var t := b.Next(Served(Got(c, Auth(Valid(u), username), around), true))
                      .Next(Served(Got(c, Heartbeat, around), true)).friends;
            && t.IsOnline(u)
            && exists told ::
                 && t.notes == b.friends.notes + FriendsRuns.Lapsed(b.friends, u)
                               + [Friends.WentOnline(u, username, told)]
                 && forall v :: v in told <==> FriendsRuns.IsAddressed(b.friends, u, v)
  {
    var s := b.chat.HandleAuth(c, Valid(u), username);
    assert s.presence[|b.chat.presence|..] == [] && Calls([], true) == [];
    assert b.Next(Served(Got(c, Auth(Valid(u), username), around), true)) == Both(s, b.friends) by {
      OneCall(b.friends, FriendsRuns.LoadCache);
    }
    var said := s.HandleHeartbeat(c).presence[|s.presence|..];
    assert said == [Online(u, username)] && Calls(said, true) == [FriendsRuns.SetOnline(u, username, true)];
    OneCall(b.friends, FriendsRuns.SetOnline(u, username, true));
    FriendsRuns.OnlineIsTold(b.friends, u, username, true);
    hide FriendsRuns.Run, FriendsRuns.IsAddressed;
  }

  const FIVE: Friends.Store := Friends.Store({5}, [], 0, {}, {}, map[], 0, [])

  const FIVE_ON: Friends.Store := FIVE.(online := map[5 := 300], notes := [Friends.WentOnline(5, "", [])])

  const FIVE_OFF: Friends.Store := FIVE.(notes := [Friends.WentOnline(5, "", []), Friends.WentOffline(5, [])])

  lemma BeatSetsOnline(s: State)
    requires 1 in s.conns && s.conns[1].user == Some(5) && s.conns[1].username == ""
    ensures Both(s, FIVE).Next(Served(Got(1, Heartbeat, ALONE), true)) == Both(s.HandleHeartbeat(1), FIVE_ON)
  {
    var said := s.HandleHeartbeat(1).presence[|s.presence|..];
    assert said == [Online(5, "")] && Calls(said, true) == [FriendsRuns.SetOnline(5, "", true)];
    OneCall(FIVE, FriendsRuns.SetOnline(5, "", true));
    assert Friends.FriendIds([]) == [];
    assert FIVE.SetOnline(5, "", true).0 == FIVE_ON;
  }

  lemma CloseSetsOffline(s: State)
    requires 2 in s.conns && s.conns[2].user == Some(5)
    ensures Both(s, FIVE_ON).Next(Served(Disconnected(2), true)) == Both(s.Disconnect(2), FIVE_OFF)
  {
    var said := s.Disconnect(2).presence[|s.presence|..];
    assert said == [Offline(5)] && Calls(said, true) == [FriendsRuns.SetOffline(5, true)];
    OneCall(FIVE_ON, FriendsRuns.SetOffline(5, true));
    assert Friends.FriendIds([]) == [];
    assert FIVE_ON.SetOffline(5, true).0 == FIVE_OFF;
  }

  /** A user on two connections: closing one says it went offline, while the other listens on. */
  lemma CloseOneOfTwo()
    ensures var b := Both(Run(EMPTY, Gathering(5, 5, false)), FIVE);
            var t := b.Run([Served(Got(1, Heartbeat, ALONE), true), Served(Disconnected(2), true)]);
            && t.friends.notes == [Friends.WentOnline(5, "", []), Friends.WentOffline(5, [])]
            && 1 in t.chat.conns && t.chat.Hears(1, HALL) && t.chat.conns[1].user == Some(5)
  {
    GatheringGathers(5, 5, false);
    var s := Gathered(5, 5, false);
    assert HALL in s.conns[1].rooms;
    BeatAndClose(s);
    hide Run, Both.Run, Gathering, Gathered;
  }

  lemma BeatAndClose(s: State)
    requires 1 in s.conns && s.conns[1].user == Some(5) && s.conns[1].username == ""
    requires 2 in s.conns && s.conns[2].user == Some(5)
    ensures var events := [Served(Got(1, Heartbeat, ALONE), true), Served(Disconnected(2), true)];
            Both(s, FIVE).Run(events) == Both(s.HandleHeartbeat(1).Disconnect(2), FIVE_OFF)
  {
    var beat, close := Served(Got(1, Heartbeat, ALONE), true), Served(Disconnected(2), true);
    assert [beat, close][..1] == [beat] && [beat][..0] == [];
    BeatSetsOnline(s);
    CloseSetsOffline(s.HandleHeartbeat(1));
    assert Both(s, FIVE).Run([beat]) == Both(s, FIVE).Next(beat);
    hide Both.Next;
  }
}
