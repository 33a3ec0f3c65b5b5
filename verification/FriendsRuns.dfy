/**
 Runs of the friends service, one call at a time in any order: what every reachable state keeps about
 rows, blocks and the block cache, and what the notification trace looks like.
 */
module FriendsRuns {
  import opened Common
  import opened Friends

  /** The calls, the passing of time and the expiry of one key; Redis reads may fail, its writes do not. */
  datatype Call =
    | SendRequest(a: User, b: User, redisUp: bool)
    | Accept(id: nat)
    | Reject(id: nat)
    | Remove(a: User, b: User)
    | Block(a: User, b: User)
    | Unblock(a: User, b: User)
    | LoadCache
    | SetOnline(a: User, username: string, redisUp: bool)
    | SetOffline(a: User, redisUp: bool)
    | Expire(a: User)
    | Tick(seconds: nat)

  function Step(s: Store, c: Call): Store {
    match c
    case SendRequest(a, b, up) => s.SendRequest(a, b, up).0
    case Accept(id) => s.AcceptRequest(id).0
    case Reject(id) => s.RejectRequest(id).0
    case Remove(a, b) => s.RemoveFriend(a, b).0
    case Block(a, b) => s.Block(a, b).0
    case Unblock(a, b) => s.Unblock(a, b).0
    case LoadCache => s.LoadBlockCache()
    case SetOnline(a, name, up) => s.SetOnline(a, name, up).0
    case SetOffline(a, up) => s.SetOffline(a, up).0
    case Expire(a) => s.Lapse(a)
    case Tick(t) => s.(now := s.now + t)
  }

  function Run(s: Store, calls: seq<Call>): Store
    decreases |calls|
  {
    if calls == [] then s else Step(Run(s, calls[..|calls| - 1]), calls[|calls| - 1])
  }

  // ------------------------------------------------------------ rows and blocks

  /** At most one row per unordered pair, none from a user to itself, and ids are never reused. */
  ghost predicate RowsOk(rows: seq<Row>, nextId: nat) {
    && (forall r <- rows :: r.id < nextId && r.user != r.friend)
    && (forall i, j | 0 <= i < j < |rows| :: rows[i].id != rows[j].id && !rows[i].Joins(rows[j].user, rows[j].friend))
  }

  /** No row asks, or has asked, a user who has blocked its sender. */
  ghost predicate NoRowAgainstBlock(s: Store) {
    forall r <- s.rows :: (r.friend, r.user) !in s.blocks
  }

  ghost predicate Inv(s: Store) {
    RowsOk(s.rows, s.nextId) && s.cache == s.blocks && NoRowAgainstBlock(s)
  }

  lemma RowsDiffer(rows: seq<Row>, nextId: nat, r: Row, q: Row)
    requires RowsOk(rows, nextId) && r in rows && q in rows && r != q
    ensures r.id != q.id && !r.Joins(q.user, q.friend)
  {
    var i :| 0 <= i < |rows| && rows[i] == r;
    var j :| 0 <= j < |rows| && rows[j] == q;
    assert if i < j then rows[i].id != rows[j].id else rows[j].id != rows[i].id;
  }

  lemma FrontRow(row: Row, rows: seq<Row>, nextId: nat)
    requires RowsOk(rows, nextId) && row.id < nextId && row.user != row.friend
    requires forall r <- rows :: r.id != row.id && !r.Joins(row.user, row.friend)
    ensures RowsOk([row] + rows, nextId)
  {
    var all := [row] + rows;
    forall i, j | 0 <= i < j < |all|
      ensures all[i].id != all[j].id && !all[i].Joins(all[j].user, all[j].friend)
    {
      assert all[j] == rows[j - 1] && all[j] in rows;
      assert i > 0 ==> all[i] == rows[i - 1];
    }
  }

  /** Both deletes leave some of the rows, in their order. */
  lemma FewerRows(rows: seq<Row>, kept: seq<Row>, nextId: nat)
    requires |rows| > 0 && RowsOk(rows, nextId) && RowsOk(kept, nextId)
    requires forall r <- kept :: r in rows[1..]
    ensures RowsOk([rows[0]] + kept, nextId)
  {
    forall r <- kept
      ensures r.id != rows[0].id && !r.Joins(rows[0].user, rows[0].friend)
    {
      var k :| 0 <= k < |rows| - 1 && rows[1..][k] == r;
      assert rows[k + 1] == r;
    }
    FrontRow(rows[0], kept, nextId);
  }

  lemma {:induction false} WithoutPairKeeps(rows: seq<Row>, nextId: nat, a: User, b: User)
    ensures forall r :: r in WithoutPair(rows, a, b) <==> r in rows && !r.Joins(a, b)
    ensures RowsOk(rows, nextId) ==> RowsOk(WithoutPair(rows, a, b), nextId)
  {
    if rows != [] {
      WithoutPairKeeps(rows[1..], nextId, a, b);
      assert forall r :: r in rows <==> r == rows[0] || r in rows[1..];
      if RowsOk(rows, nextId) {
        FewerRows(rows, WithoutPair(rows[1..], a, b), nextId);
      }
    }
  }

  lemma {:induction false} WithoutIdKeeps(rows: seq<Row>, nextId: nat, id: nat)
    ensures forall r :: r in WithoutId(rows, id) <==> r in rows && r.id != id
    ensures RowsOk(rows, nextId) ==> RowsOk(WithoutId(rows, id), nextId)
  {
    if rows != [] {
      WithoutIdKeeps(rows[1..], nextId, id);
      assert forall r :: r in rows <==> r == rows[0] || r in rows[1..];
      if RowsOk(rows, nextId) {
        FewerRows(rows, WithoutId(rows[1..], id), nextId);
      }
    }
  }

  lemma {:induction false} FoundId(rows: seq<Row>, id: nat)
    ensures FindId(rows, id).Some? <==> exists r <- rows :: r.id == id
    ensures FindId(rows, id).Some? ==> FindId(rows, id).value in rows && FindId(rows, id).value.id == id
  {
    if rows != [] {
      FoundId(rows[1..], id);
      assert forall r :: r in rows <==> r == rows[0] || r in rows[1..];
    }
  }

  lemma AcceptKeepsRows(s: Store, id: nat)
    requires Inv(s)
    ensures Inv(s.AcceptRequest(id).0)
  {
    FoundId(s.rows, id);
    if FindId(s.rows, id).Some? {
      var row := FindId(s.rows, id).value;
      WithoutIdKeeps(s.rows, s.nextId, id);
      forall r <- WithoutId(s.rows, id)
        ensures !r.Joins(row.user, row.friend)
      {
        RowsDiffer(s.rows, s.nextId, r, row);
      }
      FrontRow(row.(status := Accepted), WithoutId(s.rows, id), s.nextId);
    }
  }

  lemma SendKeepsRows(s: Store, from: User, to: User, redisUp: bool)
    requires Inv(s)
    ensures Inv(s.SendRequest(from, to, redisUp).0)
  {
    FoundJoins(s.rows, from, to);
    var (s', r) := s.SendRequest(from, to, redisUp);
    if r.Ok? {
      assert RowsOk(s.rows, s'.nextId);
      assert forall q <- s.rows :: !q.Joins(from, to);
      FrontRow(r.value, s.rows, s'.nextId);
    }
  }

  lemma StepKeepsInv(s: Store, c: Call)
    requires Inv(s)
    ensures Inv(Step(s, c))
  {
    match c
    case SendRequest(a, b, up) => SendKeepsRows(s, a, b, up);
    case Accept(id) => AcceptKeepsRows(s, id);
    case Reject(id) => WithoutIdKeeps(s.rows, s.nextId, id);
    case Remove(a, b) => WithoutPairKeeps(s.rows, s.nextId, a, b);
    case Block(a, b) => WithoutPairKeeps(s.rows, s.nextId, a, b);
    case _ =>
  }

  /**
   Whatever is called, in whatever order and whichever Redis reads fail: one row per unordered pair, no
   self row, a coherent block cache, and no row, pending or accepted, from a blocked user to its blocker.
   */
  lemma {:induction false} RunKeepsInv(s: Store, calls: seq<Call>)
    requires Inv(s)
    ensures Inv(Run(s, calls))
    decreases |calls|
  {
    if calls != [] {
      RunKeepsInv(s, calls[..|calls| - 1]);
      StepKeepsInv(Run(s, calls[..|calls| - 1]), calls[|calls| - 1]);
    }
  }

  // ------------------------------------------------------- requests and friendships

  /**
   A request goes through exactly when nothing stands against it, whether or not Redis can be read; it is then
   a pending row of a new id, ahead of the others. Refused, it changes nothing, and the first of the reasons
   is the answer.
   */
  lemma SendSucceedsIff(s: Store, from: User, to: User, redisUp: bool)
    requires Inv(s)
    ensures var (t, r) := s.SendRequest(from, to, redisUp);
            var joined := exists q <- s.rows ::
                            (q.user == from && q.friend == to) || (q.user == to && q.friend == from);
            && (r.Ok? <==> from != to && {from, to} <= s.users && (to, from) !in s.blocks && !joined)
            && (r.Ok? ==> r.value == Row(s.nextId, from, to, Pending) && t.rows == [r.value] + s.rows
                          && forall q <- s.rows :: q.id != r.value.id)
            && (r.Err? ==> r.error == if from == to then BadRequest
                                      else if (to, from) in s.blocks then Forbidden
                                      else if joined then Conflict else Internal)
            && t.(rows := s.rows, nextId := s.nextId) == s && (r.Err? ==> t == s)
  {
    FoundJoins(s.rows, from, to);
  }

  /** One of the rows is taken out and the others stay in their order. */
  ghost predicate TakesOut(rows: seq<Row>, row: Row, kept: seq<Row>) {
    exists i :: 0 <= i < |rows| && rows[i] == row && kept == rows[..i] + rows[i + 1..]
  }

  lemma TakesOutFirst(rows: seq<Row>)
    requires rows != []
    ensures TakesOut(rows, rows[0], rows[1..])
  {
    assert rows[1..] == rows[..0] + rows[0 + 1..];
  }

  lemma TakesOutBehind(rows: seq<Row>, row: Row, kept: seq<Row>)
    requires rows != [] && TakesOut(rows[1..], row, kept)
    ensures TakesOut(rows, row, [rows[0]] + kept)
  {
    var i :| 0 <= i < |rows[1..]| && rows[1..][i] == row && kept == rows[1..][..i] + rows[1..][i + 1..];
    var k := i + 1;
    assert rows[k] == row && [rows[0]] + kept == rows[..k] + rows[k + 1..];
  }

  lemma RestRowsOk(rows: seq<Row>, nextId: nat)
    requires rows != [] && RowsOk(rows, nextId)
    ensures RowsOk(rows[1..], nextId)
    ensures forall r <- rows[1..] :: r.id != rows[0].id && !r.Joins(rows[0].user, rows[0].friend)
  {
    forall r <- rows[1..]
      ensures r.id != rows[0].id && !r.Joins(rows[0].user, rows[0].friend)
    {
      var k :| 0 <= k < |rows| - 1 && rows[1..][k] == r;
      assert rows[k + 1] == r;
    }
  }

  lemma {:induction false} WithoutIdTakesOut(rows: seq<Row>, nextId: nat, id: nat)
    requires RowsOk(rows, nextId)
    ensures FindId(rows, id).None? ==> WithoutId(rows, id) == rows
    ensures FindId(rows, id).Some? ==> TakesOut(rows, FindId(rows, id).value, WithoutId(rows, id))
  {
    hide TakesOut, RowsOk;
    if rows != [] {
      RestRowsOk(rows, nextId);
      WithoutIdTakesOut(rows[1..], nextId, id);
      FoundId(rows[1..], id);
      if rows[0].id == id {
        TakesOutFirst(rows);
      } else if FindId(rows, id).Some? {
        TakesOutBehind(rows, FindId(rows, id).value, WithoutId(rows[1..], id));
      }
    }
  }

  lemma {:induction false} WithoutPairTakesOut(rows: seq<Row>, nextId: nat, a: User, b: User)
    requires RowsOk(rows, nextId)
    ensures FindPair(rows, a, b).None? ==> WithoutPair(rows, a, b) == rows
    ensures FindPair(rows, a, b).Some? ==> TakesOut(rows, FindPair(rows, a, b).value, WithoutPair(rows, a, b))
  {
    hide TakesOut, RowsOk;
    if rows != [] {
      RestRowsOk(rows, nextId);
      WithoutPairTakesOut(rows[1..], nextId, a, b);
      FoundJoins(rows[1..], a, b);
      if rows[0].Joins(a, b) {
        TakesOutFirst(rows);
      } else if FindPair(rows, a, b).Some? {
        TakesOutBehind(rows, FindPair(rows, a, b).value, WithoutPair(rows[1..], a, b));
      }
    }
  }

  /** Accepting changes the status of the one row asked for, and nothing else about any row. */
  lemma AcceptChangesOneRow(s: Store, id: nat)
    requires Inv(s)
    ensures var (t, r) := s.AcceptRequest(id);
            && (r.Ok? <==> exists row <- s.rows :: row.id == id)
            && (forall row :: row in t.rows <==>
                  if row.id == id then row.status == Accepted && exists was <- s.rows :: row == was.(status := Accepted)
                  else row in s.rows)
  {
    FoundId(s.rows, id);
    WithoutIdKeeps(s.rows, s.nextId, id);
    if FindId(s.rows, id).Some? {
      var found := FindId(s.rows, id).value;
      forall was <- s.rows | was.id == id
        ensures was == found
      {
        if was != found {
          RowsDiffer(s.rows, s.nextId, was, found);
        }
      }
    }
  }

  /** The accepted row is the answer and the latest row, the others keep their order, and nothing else changes. */
  lemma AcceptedComesFirst(s: Store, id: nat)
    requires Inv(s)
    ensures var (t, r) := s.AcceptRequest(id);
            && (r.Ok? ==> r.value.id == id && r.value.status == Accepted && t.rows != [] && t.rows[0] == r.value
                          && exists was: Row :: && r.value == was.(status := Accepted)
                                                && TakesOut(s.rows, was, t.rows[1..]))
            && (r.Err? ==> r.error == NotFound && t == s)
            && t.(rows := s.rows) == s
  {
    FoundId(s.rows, id);
    WithoutIdTakesOut(s.rows, s.nextId, id);
    if FindId(s.rows, id).Some? {
      assert s.AcceptRequest(id).0.rows[1..] == WithoutId(s.rows, id);
    }
    hide TakesOut;
  }

  /** Rejecting deletes the one row asked for, pending or accepted, and no other; nothing else changes. */
  lemma RejectDeletesOneRow(s: Store, id: nat)
    ensures var (t, r) := s.RejectRequest(id);
            && (r.Ok? <==> exists row <- s.rows :: row.id == id)
            && (forall row :: row in t.rows <==> row in s.rows && row.id != id)
            && (Inv(s) && r.Ok? ==> exists row: Row :: row.id == id && TakesOut(s.rows, row, t.rows))
            && (r.Err? ==> r.error == NotFound && t == s)
            && t.(rows := s.rows) == s
  {
    FoundId(s.rows, id);
    WithoutIdKeeps(s.rows, s.nextId, id);
    if Inv(s) {
      WithoutIdTakesOut(s.rows, s.nextId, id);
    }
    hide TakesOut;
  }

  /** A request once accepted makes each of the two an online friend of the other, while online. */
  lemma AcceptedSeeEachOther(s: Store, from: User, to: User, redisUp: bool)
    requires Inv(s) && s.SendRequest(from, to, redisUp).1.Ok?
    ensures var (asked, r) := s.SendRequest(from, to, redisUp);
            var t := asked.AcceptRequest(r.value.id).0;
            && (to in t.OnlineFriends(from) <==> t.IsOnline(to))
            && (from in t.OnlineFriends(to) <==> t.IsOnline(from))
  {
    var (asked, r) := s.SendRequest(from, to, redisUp);
    var t := asked.AcceptRequest(r.value.id).0;
    SendKeepsRows(s, from, to, redisUp);
    AcceptChangesOneRow(asked, r.value.id);
    AcceptKeepsRows(asked, r.value.id);
    var row := r.value.(status := Accepted);
    assert r.value in asked.rows && row in t.rows;
    FriendsIffOnline(t, row, from, to);
    FriendsIffOnline(t, row, to, from);
    hide Store.SendRequest, Store.AcceptRequest, Store.OnlineFriends, Inv;
  }

  lemma FriendsIffOnline(s: Store, row: Row, u: User, friend: User)
    requires Inv(s) && row in s.rows && row.status == Accepted && row.Joins(u, friend)
    ensures friend in s.OnlineFriends(u) <==> s.IsOnline(friend)
  {
    OnlineAmongOnce(s, s.rows, s.nextId, u);
  }

  /**
   Removing a friend removes the row between the two, in whichever direction it ran, and no other; the friend,
   not the caller, is told. With no such row the answer is an internal error and nothing changes.
   */
  lemma RemoveDeletesPair(s: Store, u: User, friend: User)
    requires Inv(s)
    ensures var (t, r) := s.RemoveFriend(u, friend);
            && (r.Ok? <==> exists row <- s.rows :: row.Joins(u, friend))
            && (forall row :: row in t.rows <==> row in s.rows && !row.Joins(u, friend))
            && (r.Ok? ==> && t.notes == s.notes + [FriendRemoved(friend, u)]
                          && exists row: Row :: row.Joins(u, friend) && TakesOut(s.rows, row, t.rows))
            && (r.Err? ==> r.error == Internal && t == s)
            && t.(rows := s.rows, notes := s.notes) == s
  {
    FoundJoins(s.rows, u, friend);
    WithoutPairKeeps(s.rows, s.nextId, u, friend);
    WithoutPairTakesOut(s.rows, s.nextId, u, friend);
    hide TakesOut;
  }

  /**
   A block is one more relation in table and cache, of which the target, not the blocker, is told; blocking
   oneself, a user unknown or a user blocked already is refused and changes nothing.
   */
  lemma BlockIsExact(s: Store, a: User, b: User)
    requires Inv(s)
    ensures var (t, r) := s.Block(a, b);
            && (r.Ok? <==> a != b && {a, b} <= s.users && (a, b) !in s.blocks)
            && (r.Ok? ==> && (forall p :: p in t.blocks <==> p in s.blocks || p == (a, b))
                          && (forall p :: p in t.cache <==> p in s.cache || p == (a, b))
                          && t.notes == s.notes + [Blocked(b, a)]
                          && (t.rows == s.rows || exists row: Row :: row.Joins(a, b) && TakesOut(s.rows, row, t.rows)))
            && (r.Err? ==> t == s && r.error == if a == b then BadRequest else Internal)
            && t.(rows := s.rows, blocks := s.blocks, cache := s.cache, notes := s.notes) == s
  {
    FoundJoins(s.rows, a, b);
    WithoutPairTakesOut(s.rows, s.nextId, a, b);
    hide TakesOut;
  }

  /** Unblocking takes exactly that relation out of table and cache and tells nobody; the other direction stays. */
  lemma UnblockIsExact(s: Store, a: User, b: User)
    ensures var (t, r) := s.Unblock(a, b);
            && (r.Ok? <==> (a, b) in s.blocks)
            && (r.Ok? ==> && (forall p :: p in t.blocks <==> p in s.blocks && p != (a, b))
                          && (forall p :: p in t.cache <==> p in s.cache && p != (a, b)))
            && (r.Err? ==> t == s && r.error == Internal)
            && t.(blocks := s.blocks, cache := s.cache) == s
  {
  }

  /**
   Loading adds to the cache every relation of the table and removes none, stale ones included; so afterwards
   lookups that read Redis answer as the design wants, from the cache and for the rest from the table.
   */
  lemma LoadAddsWhatIsMissing(s: Store, target: User, other: User, redisUp: bool)
    ensures var t := s.LoadBlockCache();
            && (forall p :: p in t.cache <==> p in s.cache || p in s.blocks)
            && t.(cache := s.cache) == s
            && t.LoadBlockCache() == t
            && t.IsBlocked(target, other, redisUp) == DesignedIsBlocked(s, target, other, redisUp)
  {
    assert s.LoadBlockCache().cache + s.blocks == s.LoadBlockCache().cache;
  }

  /** Unblocking undoes what blocking did to the relation and its cache; the friendship does not come back. */
  lemma UnblockUndoesBlock(s: Store, a: User, b: User)
    requires Inv(s) && s.Block(a, b).1.Ok?
    ensures var (t, r) := s.Block(a, b).0.Unblock(a, b);
            && r.Ok? && t.blocks == s.blocks && t.cache == s.cache
            && forall row <- t.rows :: !row.Joins(a, b)
  {
    WithoutPairKeeps(s.rows, s.nextId, a, b);
  }

  // ---------------------------------------------------------------- row lives

  /** Where an id is in its life: 0 not yet given out, 1 pending, 2 accepted, 3 deleted. */
  function Age(s: Store, id: nat): nat {
    if id >= s.nextId then 0
    else match FindId(s.rows, id)
      case None => 3
      case Some(row) => if row.status.Pending? then 1 else 2
  }

  lemma {:induction false} FindIdAfterWithoutPair(rows: seq<Row>, nextId: nat, a: User, b: User, id: nat)
    requires RowsOk(rows, nextId)
    ensures var found := FindId(WithoutPair(rows, a, b), id); found.Some? ==> found == FindId(rows, id)
  {
    WithoutPairKeeps(rows, nextId, a, b);
    FoundId(rows, id);
    FoundId(WithoutPair(rows, a, b), id);
    var found := FindId(WithoutPair(rows, a, b), id);
    if found.Some? && found != FindId(rows, id) {
      RowsDiffer(rows, nextId, found.value, FindId(rows, id).value);
    }
  }

  lemma {:induction false} FindIdAfterWithoutId(rows: seq<Row>, gone: nat, id: nat)
    ensures FindId(WithoutId(rows, gone), id) == if id == gone then None else FindId(rows, id)
  {
    if rows != [] {
      FindIdAfterWithoutId(rows[1..], gone, id);
      var kept := WithoutId(rows, gone);
      assert if rows[0].id == gone then kept == WithoutId(rows[1..], gone)
             else kept[0] == rows[0] && kept[1..] == WithoutId(rows[1..], gone);
    }
  }

  /** The parties of a row never change, and it only ever goes on to be accepted and deleted. */
  ghost predicate LivesOn(s: Store, s': Store, id: nat) {
    && Age(s, id) <= Age(s', id)
    && (FindId(s.rows, id).Some? && FindId(s'.rows, id).Some? ==>
          var (r, r') := (FindId(s.rows, id).value, FindId(s'.rows, id).value);
          r.user == r'.user && r.friend == r'.friend)
  }

  lemma AcceptLivesOn(s: Store, k: nat, id: nat)
    ensures LivesOn(s, s.AcceptRequest(k).0, id)
  {
    FindIdAfterWithoutId(s.rows, k, id);
    FoundId(s.rows, k);
    hide WithoutId;
  }

  lemma DeleteLivesOn(s: Store, kept: seq<Row>, notes: seq<Note>, blocks: set<(User, User)>,
        cache: set<(User, User)>, id: nat)
    requires FindId(kept, id).Some? ==> FindId(kept, id) == FindId(s.rows, id)
    ensures LivesOn(s, s.(rows := kept, notes := notes, blocks := blocks, cache := cache), id)
  {
    hide FindId;
  }

  lemma StepLivesOn(s: Store, c: Call, id: nat)
    requires Inv(s)
    ensures LivesOn(s, Step(s, c), id)
  {
    var t := Step(s, c);
    match c
    case Accept(k) => AcceptLivesOn(s, k, id);
    case Reject(k) =>
      FindIdAfterWithoutId(s.rows, k, id);
      DeleteLivesOn(s, t.rows, t.notes, t.blocks, t.cache, id);
    case Remove(a, b) =>
      FindIdAfterWithoutPair(s.rows, s.nextId, a, b, id);
      DeleteLivesOn(s, t.rows, t.notes, t.blocks, t.cache, id);
    case Block(a, b) =>
      FindIdAfterWithoutPair(s.rows, s.nextId, a, b, id);
      DeleteLivesOn(s, t.rows, t.notes, t.blocks, t.cache, id);
    case SendRequest(a, b, up) => FoundId(s.rows, id);
    case _ =>
  }

  /** Along every run each row id only goes pending, accepted, deleted, between the same two users. */
  lemma {:induction false} RunLivesOn(s: Store, calls: seq<Call>, id: nat)
    requires Inv(s)
    ensures LivesOn(s, Run(s, calls), id)
    decreases |calls|
  {
    if calls != [] {
      var before := calls[..|calls| - 1];
      RunKeepsInv(s, before);
      RunLivesOn(s, before, id);
      StepLivesOn(Run(s, before), calls[|calls| - 1], id);
      FoundId(Run(s, before).rows, id);
      FoundId(s.rows, id);
      FoundId(Run(s, calls).rows, id);
    }
  }

  // ------------------------------------------------------- blocks in both directions

  /** No row at all between two users one of whom has blocked the other. */
  ghost predicate NoRowAcrossBlock(s: Store) {
    forall r <- s.rows :: (r.friend, r.user) !in s.blocks && (r.user, r.friend) !in s.blocks
  }

  /** A successful block removes the friendship or request of the pair, whoever asked. */
  lemma BlockRemovesPair(s: Store, a: User, b: User)
    requires Inv(s) && s.Block(a, b).1.Ok?
    ensures forall r <- s.Block(a, b).0.rows :: !r.Joins(a, b)
    ensures forall r <- s.rows :: r.Joins(a, b) || r in s.Block(a, b).0.rows
  {
    WithoutPairKeeps(s.rows, s.nextId, a, b);
  }

  /**
   The design asks that a block stop requests in both directions. The code looks at one direction only,
   so a blocker may ask the user it has blocked; that call, and no other, puts a row across a block.
   */
  lemma RowAcrossBlockIff(s: Store, c: Call)
    requires Inv(s) && NoRowAcrossBlock(s)
    ensures !NoRowAcrossBlock(Step(s, c)) <==>
            && c.SendRequest?
            && (c.a, c.b) in s.blocks && (c.b, c.a) !in s.blocks
            && {c.a, c.b} <= s.users && c.a != c.b
            && FindPair(s.rows, c.a, c.b).None?
  {
    match c
    case SendRequest(a, b, up) =>
      var (s', r) := s.SendRequest(a, b, up);
      if r.Ok? {
        assert r.value in s'.rows;
      }
    case Accept(id) =>
      FoundId(s.rows, id);
      WithoutIdKeeps(s.rows, s.nextId, id);
    case Reject(id) => WithoutIdKeeps(s.rows, s.nextId, id);
    case Remove(a, b) => WithoutPairKeeps(s.rows, s.nextId, a, b);
    case Block(a, b) => WithoutPairKeeps(s.rows, s.nextId, a, b);
    case _ =>
  }

  /** User 1 blocks user 2, asks it all the same, and becomes its friend: the block stands beside the friendship. */
  lemma BlockedFriends()
    ensures var s := Run(Store({1, 2}, [], 0, {}, {}, map[], 0, []),
                         [Call.Block(1, 2), Call.SendRequest(1, 2, true), Call.Accept(0)]);
            s.rows == [Row(0, 1, 2, Accepted)] && (1, 2) in s.blocks
  {
    var calls := [Call.Block(1, 2), Call.SendRequest(1, 2, true), Call.Accept(0)];
    var s0 := Store({1, 2}, [], 0, {}, {}, map[], 0, []);
    assert calls[..2][..1] == calls[..1] && calls[..1][..0] == [];
    assert Run(s0, calls[..1]) == Step(s0, calls[0]);
    assert Run(s0, calls[..2]) == Step(Step(s0, calls[0]), calls[1]);
  }

  // -------------------------------------------------------- a cache that lacks entries

  /** The lookup the design describes: the cached set, and the table for what the set lacks. */
  predicate DesignedIsBlocked(s: Store, target: User, other: User, redisUp: bool) {
    (redisUp && (target, other) in s.cache) || (target, other) in s.blocks
  }

  /** A request the design refuses and the code lets through, the cache not having the block. */
  predicate SlipsThrough(s: Store, c: Call) {
    && c.SendRequest? && c.a != c.b && {c.a, c.b} <= s.users
    && DesignedIsBlocked(s, c.b, c.a, c.redisUp) && !s.IsBlocked(c.b, c.a, c.redisUp)
    && FindPair(s.rows, c.a, c.b).None?
  }

  /**
   Whatever the cache holds: a call puts a row from a blocked user to its blocker if and only if it is that
   user's request, Redis is read, the block is in the table and not in the cache, and nothing else stands
   against the request.
   */
  lemma RowAgainstBlockIff(s: Store, c: Call)
    requires NoRowAgainstBlock(s)
    ensures !NoRowAgainstBlock(Step(s, c)) <==> SlipsThrough(s, c)
    ensures SlipsThrough(s, c) <==>
            && c.SendRequest? && c.a != c.b && {c.a, c.b} <= s.users
            && c.redisUp && (c.b, c.a) in s.blocks && (c.b, c.a) !in s.cache
            && forall r <- s.rows :: !r.Joins(c.a, c.b)
  {
    match c
    case SendRequest(a, b, up) =>
      var (s', r) := s.SendRequest(a, b, up);
      FoundJoins(s.rows, a, b);
      if r.Ok? {
        assert r.value in s'.rows;
      }
    case Accept(id) =>
      FoundId(s.rows, id);
      WithoutIdKeeps(s.rows, s.nextId, id);
    case Reject(id) => WithoutIdKeeps(s.rows, s.nextId, id);
    case Remove(a, b) => WithoutPairKeeps(s.rows, s.nextId, a, b);
    case Block(a, b) => WithoutPairKeeps(s.rows, s.nextId, a, b);
    case _ =>
  }

  /** Over every run, from any cache: no such row ever exists if and only if no request ever slips through. */
  lemma {:induction false} NeverAgainstBlockIff(s: Store, calls: seq<Call>)
    requires NoRowAgainstBlock(s)
    ensures (forall n | 0 <= n <= |calls| :: NoRowAgainstBlock(Run(s, calls[..n]))) <==>
            (forall n | 0 <= n < |calls| :: !SlipsThrough(Run(s, calls[..n]), calls[n]))
    decreases |calls|
  {
    hide NoRowAgainstBlock, SlipsThrough, Step;
    assert calls[..|calls|] == calls;
    if calls != [] {
      var m := |calls| - 1;
      var before := calls[..m];
      assert forall n | 0 <= n <= m :: before[..n] == calls[..n];
      assert forall n | 0 <= n < m :: before[n] == calls[n];
      NeverAgainstBlockIff(s, before);
      if NoRowAgainstBlock(Run(s, before)) {
        RowAgainstBlockIff(Run(s, before), calls[m]);
      }
      assert NoRowAgainstBlock(Run(s, calls[..m])) <==> NoRowAgainstBlock(Run(s, before));
    }
  }

  /**
   User 1 has blocked user 2 and Redis has lost the cached sets: 2's request goes through, and loading the
   cache afterwards does not take it back.
   */
  lemma ColdCacheLetsThrough()
    ensures var s0 := Store({1, 2}, [], 0, {(1, 2)}, {}, map[], 0, []);
            var t := Run(s0, [Call.SendRequest(2, 1, true), LoadCache]);
            && SlipsThrough(s0, Call.SendRequest(2, 1, true))
            && t.rows == [Row(0, 2, 1, Pending)] && (1, 2) in t.blocks && t.cache == t.blocks
  {
    var s0 := Store({1, 2}, [], 0, {(1, 2)}, {}, map[], 0, []);
    var calls := [Call.SendRequest(2, 1, true), LoadCache];
    assert calls[..1][..0] == [] && calls[..1][0] == calls[0];
    assert Run(s0, calls[..1]) == Step(s0, calls[0]);
  }

  // ------------------------------------------------------------------ presence

  lemma {:induction false} FriendsOfRows(rows: seq<Row>, u: User)
    ensures forall r :: r in FriendsOf(rows, u) <==> r in rows && r.IsFriendOf(u)
  {
    if rows != [] {
      FriendsOfRows(rows[1..], u);
      assert forall r :: r in rows <==> r == rows[0] || r in rows[1..];
    }
  }

  lemma {:induction false} OnlineAmongOnce(s: Store, rows: seq<Row>, nextId: nat, u: User)
    requires RowsOk(rows, nextId)
    ensures var friends := s.OnlineAmong(FriendsOf(rows, u), u);
            && (forall i, j | 0 <= i < j < |friends| :: friends[i] != friends[j])
            && (forall f :: f in friends <==>
                  (s.IsOnline(f) && exists r <- rows :: r.status == Accepted && r.Joins(u, f)))
  {
    if rows != [] {
      var row, friends := rows[0], s.OnlineAmong(FriendsOf(rows, u), u);
      var behind := s.OnlineAmong(FriendsOf(rows[1..], u), u);
      OnlineAmongOnce(s, rows[1..], nextId, u);
      assert forall r :: r in rows <==> r == row || r in rows[1..];
      if row.IsFriendOf(u) {
        var f := row.Other(u);
        assert row.Joins(u, f) && forall g :: row.Joins(u, g) ==> g == f;
        assert FriendsOf(rows, u)[1..] == FriendsOf(rows[1..], u);
        assert f !in behind by {
          forall r <- rows[1..]
            ensures !r.Joins(u, f)
          {
            RowsDifferFromFirst(rows, nextId, r);
          }
        }
        assert friends == (if s.IsOnline(f) then [f] else []) + behind;
      } else {
        assert FriendsOf(rows, u) == FriendsOf(rows[1..], u);
      }
    }
  }

  lemma RowsDifferFromFirst(rows: seq<Row>, nextId: nat, r: Row)
    requires |rows| > 0 && RowsOk(rows, nextId) && r in rows[1..]
    ensures !r.Joins(rows[0].user, rows[0].friend)
  {
    var k :| 0 <= k < |rows| - 1 && rows[1..][k] == r;
    assert rows[k + 1] == r;
  }

  /** In every reachable state GetOnlineFriends lists each online friend exactly once, whoever sent the request. */
  lemma OnlineFriendsExactlyOnce(s: Store, calls: seq<Call>, u: User)
    requires Inv(s)
    ensures var t := Run(s, calls);
            var friends := t.OnlineFriends(u);
            && (forall i, j | 0 <= i < j < |friends| :: friends[i] != friends[j])
            && (forall f :: f in friends <==>
                  t.IsOnline(f) && exists r <- t.rows :: r.status == Accepted && r.Joins(u, f))
  {
    RunKeepsInv(s, calls);
    OnlineAmongOnce(Run(s, calls), Run(s, calls).rows, Run(s, calls).nextId, u);
  }

  lemma {:induction false} FriendIdsAre(rows: seq<Row>, u: User, v: User)
    ensures v in FriendIds(FriendsOf(rows, u)) <==> exists r <- rows :: r.IsFriendOf(u) && r.friend == v
  {
    FriendsOfRows(rows, u);
    var friends := FriendsOf(rows, u);
    if v in FriendIds(friends) {
      var i :| 0 <= i < |FriendIds(friends)| && FriendIds(friends)[i] == v;
      assert friends[i] in friends;
    }
    if r :| r in rows && r.IsFriendOf(u) && r.friend == v {
      var i :| 0 <= i < |friends| && friends[i] == r;
      assert FriendIds(friends)[i] == v;
    }
  }

  /** The friend_id of some accepted row of `u`. */
  ghost predicate IsAddressed(s: Store, u: User, v: User) {
    exists r <- s.rows :: r.status == Accepted && (r.user == u || r.friend == u) && r.friend == v
  }

  /** The note, if any, that a user's key has lapsed. */
  function Lapsed(s: Store, u: User): seq<Note> {
    if u in s.online && s.online[u] <= s.now then [Expired(u)] else []
  }

  /**
   Coming online lasts ONLINE_TTL seconds from now, and is told to exactly the users that are friend_id of an
   accepted row of the user; for a user who is online it is told to nobody, and without Redis it fails.
   */
  lemma OnlineIsTold(s: Store, u: User, username: string, redisUp: bool)
    ensures var (t, r) := s.SetOnline(u, username, redisUp);
            && (r == if redisUp then Ok(()) else Err(Internal))
            && (!redisUp ==> t == s)
            && (redisUp ==> t.online == s.online[u := s.now + 300])
            && (redisUp && s.IsOnline(u) ==> t.notes == s.notes)
            && (redisUp && !s.IsOnline(u) ==>
                  exists told :: && t.notes == s.notes + Lapsed(s, u) + [WentOnline(u, username, told)]
                                 && forall v :: v in told <==> IsAddressed(s, u, v))
            && t.(online := s.online, notes := s.notes) == s
  {
    var told := FriendIds(FriendsOf(s.rows, u));
    forall v
      ensures v in told <==> IsAddressed(s, u, v)
    {
      FriendIdsAre(s.rows, u, v);
    }
    assert s.notes + [] + [WentOnline(u, username, told)] == s.notes + [WentOnline(u, username, told)];
    assert s.Lapse(u).online[u := s.now + 300] == s.online[u := s.now + 300];
    hide FriendIds, FriendsOf;
  }

  /** Going offline is told to the same users, if the user was online; afterwards it is not. */
  lemma OfflineIsTold(s: Store, u: User, redisUp: bool)
    ensures var (t, r) := s.SetOffline(u, redisUp);
            && (r == if redisUp then Ok(()) else Err(Internal))
            && (!redisUp ==> t == s)
            && (redisUp ==> t.online == s.online - {u})
            && (redisUp && !s.IsOnline(u) ==> t.notes == s.notes + Lapsed(s, u))
            && (redisUp && s.IsOnline(u) ==>
                  exists told :: && t.notes == s.notes + [WentOffline(u, told)]
                                 && forall v :: v in told <==> IsAddressed(s, u, v))
            && t.(online := s.online, notes := s.notes) == s
  {
    var told := FriendIds(FriendsOf(s.rows, u));
    forall v
      ensures v in told <==> IsAddressed(s, u, v)
    {
      FriendIdsAre(s.rows, u, v);
    }
    assert s.notes + [] == s.notes;
    assert s.Lapse(u).online - {u} == s.online - {u};
    hide FriendIds, FriendsOf;
  }

  /**
   The design asks that every friend be told when a user comes online. The code addresses the friend_id of
   each row: the note that a user has come online goes to a friend exactly when it was the user coming online
   who had asked, and to the user itself exactly when some friend of it had.
   */
  lemma ToldIffAsked(s: Store, u: User, username: string, row: Row)
    requires Inv(s) && !s.IsOnline(u) && row in s.rows && row.IsFriendOf(u)
    ensures var t := s.SetOnline(u, username, true).0;
            t.notes != [] && var note := t.notes[|t.notes| - 1];
            && note.WentOnline? && note.user == u && note.username == username
            && (row.Other(u) in note.told <==> row.user == u)
            && (u in note.told <==> exists r <- s.rows :: r.IsFriendOf(u) && r.friend == u)
  {
    FriendIdsAre(s.rows, u, row.Other(u));
    FriendIdsAre(s.rows, u, u);
    forall r <- s.rows | r.IsFriendOf(u) && r.friend == row.Other(u)
      ensures r.user == u
    {
      assert r.Joins(row.user, row.friend);
      if r != row {
        RowsDiffer(s.rows, s.nextId, r, row);
      }
    }
    hide FriendIds, FriendsOf;
  }

  /** User 1 asks user 2, who accepts and comes online: the note goes to 2 itself and not to its friend 1. */
  lemma FriendIsNotTold()
    ensures var s := Run(Store({1, 2}, [], 0, {}, {}, map[], 0, []),
                         [Call.SendRequest(1, 2, true), Call.Accept(0), Call.SetOnline(2, "two", true)]);
            s.rows == [Row(0, 1, 2, Accepted)] && s.notes == [WentOnline(2, "two", [2])]
  {
    var calls := [Call.SendRequest(1, 2, true), Call.Accept(0), Call.SetOnline(2, "two", true)];
    var s0 := Store({1, 2}, [], 0, {}, {}, map[], 0, []);
    assert calls[..2][..1] == calls[..1] && calls[..1][..0] == [];
    assert Run(s0, calls[..1]) == Step(s0, calls[0]);
    var friends := s0.(rows := [Row(0, 1, 2, Accepted)], nextId := 1);
    assert Run(s0, calls[..2]) == Step(Step(s0, calls[0]), calls[1]) == friends;
    assert FriendIds(FriendsOf(friends.rows, 2)) == [2];
  }

  // ------------------------------------------------------------- the presence trace

  predicate About(n: Note, u: User) {
    (n.WentOnline? || n.WentOffline? || n.Expired?) && n.user == u
  }

  /** What the trace says about one user. */
  function NotesOn(notes: seq<Note>, u: User): seq<Note> {
    if notes == [] then []
    else
      var last := notes[|notes| - 1];
      NotesOn(notes[..|notes| - 1], u) + if About(last, u) then [last] else []
  }

  /** Online, then one offline or expiry, then online again, and so on from an offline start. */
  ghost predicate Alternates(trace: seq<Note>) {
    forall i | 0 <= i < |trace| :: trace[i].WentOnline? <==> i % 2 == 0
  }

  ghost predicate TraceOk(s: Store, u: User) {
    var trace := NotesOn(s.notes, u);
    Alternates(trace) && (u in s.online <==> |trace| % 2 == 1)
  }

  lemma NotesOnSnoc(notes: seq<Note>, n: Note, u: User)
    ensures NotesOn(notes + [n], u) == if About(n, u) then NotesOn(notes, u) + [n] else NotesOn(notes, u)
  {
    assert (notes + [n])[..|notes|] == notes;
  }

  lemma AlternatesSnoc(trace: seq<Note>, n: Note)
    requires Alternates(trace) && (n.WentOnline? <==> |trace| % 2 == 0)
    ensures Alternates(trace + [n])
  {
  }

  /** A note about `u` that fits whether `u` is online, and the change of `u`'s key that goes with it. */
  lemma NoteKeepsTrace(s: Store, n: Note, t: Store, u: User)
    requires TraceOk(s, u) && About(n, u) && t.notes == s.notes + [n]
    requires (n.WentOnline? <==> u !in s.online) && (u in t.online <==> n.WentOnline?)
    ensures TraceOk(t, u)
  {
    NotesOnSnoc(s.notes, n, u);
    AlternatesSnoc(NotesOn(s.notes, u), n);
    hide NotesOn, Alternates;
  }

  lemma OtherNoteKeepsTrace(s: Store, n: Note, t: Store, u: User)
    requires TraceOk(s, u) && !About(n, u) && (t.notes == s.notes + [n] || t.notes == s.notes)
    requires u in t.online <==> u in s.online
    ensures TraceOk(t, u)
  {
    NotesOnSnoc(s.notes, n, u);
    hide NotesOn, Alternates;
  }

  lemma LapseKeepsTrace(s: Store, v: User, u: User)
    requires TraceOk(s, u)
    ensures TraceOk(s.Lapse(v), u)
  {
    hide TraceOk;
    if s.Lapse(v) != s {
      if v == u {
        NoteKeepsTrace(s, Expired(v), s.Lapse(v), u);
      } else {
        OtherNoteKeepsTrace(s, Expired(v), s.Lapse(v), u);
      }
    }
  }

  lemma OnlineKeepsTrace(s: Store, a: User, username: string, redisUp: bool, u: User)
    requires TraceOk(s, u)
    ensures TraceOk(s.SetOnline(a, username, redisUp).0, u)
  {
    hide TraceOk, FriendIds, FriendsOf;
    LapseKeepsTrace(s, a, u);
    var l, t, n := s.Lapse(a), s.SetOnline(a, username, redisUp).0, WentOnline(a, username,
      FriendIds(FriendsOf(s.rows, a)));
    if redisUp {
      if a == u && a !in l.online {
        NoteKeepsTrace(l, n, t, u);
      } else if a == u {
        OtherNoteKeepsTrace(l, Blocked(u, u), t, u);
      } else {
        OtherNoteKeepsTrace(l, n, t, u);
      }
    }
  }

  lemma OfflineKeepsTrace(s: Store, a: User, redisUp: bool, u: User)
    requires TraceOk(s, u)
    ensures TraceOk(s.SetOffline(a, redisUp).0, u)
  {
    hide TraceOk, FriendIds, FriendsOf;
    LapseKeepsTrace(s, a, u);
    var l, t, n := s.Lapse(a), s.SetOffline(a, redisUp).0, WentOffline(a, FriendIds(FriendsOf(s.rows, a)));
    if redisUp {
      if a == u && a in l.online {
        NoteKeepsTrace(l, n, t, u);
      } else if a == u {
        OtherNoteKeepsTrace(l, Blocked(u, u), t, u);
      } else {
        OtherNoteKeepsTrace(l, n, t, u);
      }
    }
  }

  lemma StepKeepsTrace(s: Store, c: Call, u: User)
    requires TraceOk(s, u)
    ensures TraceOk(Step(s, c), u)
  {
    hide TraceOk;
    match c
    case SetOnline(a, name, up) => OnlineKeepsTrace(s, a, name, up, u);
    case SetOffline(a, up) => OfflineKeepsTrace(s, a, up, u);
    case Expire(a) => LapseKeepsTrace(s, a, u);
    case Remove(a, b) => OtherNoteKeepsTrace(s, FriendRemoved(b, a), Step(s, c), u);
    case Block(a, b) => OtherNoteKeepsTrace(s, Blocked(b, a), Step(s, c), u);
    case _ => OtherNoteKeepsTrace(s, Blocked(u, u), Step(s, c), u);
  }

  /** For each user, over every run, online alternates with offline or expiry, and none of these is unmatched. */
  lemma {:induction false} TraceAlternates(s: Store, calls: seq<Call>, u: User)
    requires TraceOk(s, u)
    ensures TraceOk(Run(s, calls), u)
    decreases |calls|
  {
    if calls != [] {
      TraceAlternates(s, calls[..|calls| - 1], u);
      StepKeepsTrace(Run(s, calls[..|calls| - 1]), calls[|calls| - 1], u);
    }
  }

  /** Seconds since the last successful heartbeat of `u`, if it was `start` at the beginning. */
  function Silence(calls: seq<Call>, u: User, start: nat): nat
    decreases |calls|
  {
    if calls == [] then start
    else
      var before := Silence(calls[..|calls| - 1], u, start);
      match calls[|calls| - 1]
      case SetOnline(a, _, up) => if a == u && up then 0 else before
      case Tick(t) => before + t
      case _ => before
  }

  /** Heartbeats keep coming less than ONLINE_TTL seconds apart and the user does not go offline. */
  ghost predicate Beating(calls: seq<Call>, u: User, start: nat) {
    && (forall n | 0 <= n <= |calls| :: Silence(calls[..n], u, start) < ONLINE_TTL)
    && (forall c <- calls :: c.SetOffline? ==> c.a != u)
  }

  lemma {:induction false} BeatingStaysOnline(s: Store, calls: seq<Call>, u: User, start: nat)
    requires u in s.online && s.online[u] == s.now - start + ONLINE_TTL
    requires Beating(calls, u, start)
    ensures var t := Run(s, calls);
            && u in t.online && t.online[u] == t.now - Silence(calls, u, start) + ONLINE_TTL
            && NotesOn(t.notes, u) == NotesOn(s.notes, u)
    decreases |calls|
  {
    if calls != [] {
      var before, c := calls[..|calls| - 1], calls[|calls| - 1];
      assert forall n | 0 <= n <= |before| :: before[..n] == calls[..n];
      BeatingStaysOnline(s, before, u, start);
      var t := Run(s, before);
      assert calls[..|before|] == before && Silence(before, u, start) < ONLINE_TTL;
      assert c in calls;
      QuietStep(t, c, u);
    }
  }

  lemma OtherOnline(s: Store, a: User, username: string, u: User)
    requires s.IsOnline(u)
    ensures var t := s.SetOnline(a, username, true).0;
            && NotesOn(t.notes, u) == NotesOn(s.notes, u) && u in t.online
            && t.online[u] == if a == u then s.now + ONLINE_TTL else s.online[u]
  {
    NotesOnSnoc(s.notes, Expired(a), u);
    NotesOnSnoc(s.Lapse(a).notes, WentOnline(a, username, FriendIds(FriendsOf(s.rows, a))), u);
    hide NotesOn, FriendIds, FriendsOf;
  }

  lemma OtherOffline(s: Store, a: User, u: User)
    requires s.IsOnline(u) && a != u
    ensures var t := s.SetOffline(a, true).0;
            NotesOn(t.notes, u) == NotesOn(s.notes, u) && u in t.online && t.online[u] == s.online[u]
  {
    NotesOnSnoc(s.notes, Expired(a), u);
    NotesOnSnoc(s.Lapse(a).notes, WentOffline(a, FriendIds(FriendsOf(s.rows, a))), u);
    hide NotesOn, FriendIds, FriendsOf;
  }

  /** While a user's key lives, only its going offline adds to what the trace says about it. */
  lemma QuietStep(s: Store, c: Call, u: User)
    requires s.IsOnline(u) && !(c.SetOffline? && c.a == u)
    ensures NotesOn(Step(s, c).notes, u) == NotesOn(s.notes, u) && u in Step(s, c).online
    ensures Step(s, c).online[u] == if c.SetOnline? && c.a == u && c.redisUp then s.now + ONLINE_TTL else s.online[u]
  {
    hide NotesOn;
    match c
    case SetOnline(a, name, up) => if up { OtherOnline(s, a, name, u); }
    case SetOffline(a, up) => if up { OtherOffline(s, a, u); }
    case Expire(a) => NotesOnSnoc(s.notes, Expired(a), u);
    case Remove(a, b) => NotesOnSnoc(s.notes, FriendRemoved(b, a), u);
    case Block(a, b) => NotesOnSnoc(s.notes, Blocked(b, a), u);
    case _ =>
  }

  /**
   After a heartbeat, heartbeats less than 300 s apart with no SetOffline never produce an expiry nor a second
   online.
   */
  lemma HeartbeatsNeverExpire(s: Store, u: User, username: string, calls: seq<Call>)
    requires Beating(calls, u, 0)
    ensures var t := s.SetOnline(u, username, true).0;
            && u in Run(t, calls).online
            && NotesOn(Run(t, calls).notes, u) == NotesOn(t.notes, u)
  {
    BeatingStaysOnline(s.SetOnline(u, username, true).0, calls, u, 0);
  }

  /** The next heartbeat announces the user again exactly when it comes 300 s or more after the last one. */
  lemma LateHeartbeatIff(s: Store, u: User, username: string, gap: nat)
    ensures var t := s.SetOnline(u, username, true).0;
            var t' := Step(Step(t, Tick(gap)), Call.SetOnline(u, username, true));
            NotesOn(t'.notes, u) != NotesOn(t.notes, u) <==> gap >= ONLINE_TTL
  {
    var t := s.SetOnline(u, username, true).0;
    var told := FriendIds(FriendsOf(s.rows, u));
    NotesOnSnoc(t.notes, Expired(u), u);
    NotesOnSnoc(t.notes + [Expired(u)], WentOnline(u, username, told), u);
    assert |NotesOn(t.notes, u)| + 2 == |NotesOn(t.notes + [Expired(u)] + [WentOnline(u, username, told)], u)|;
  }
}
