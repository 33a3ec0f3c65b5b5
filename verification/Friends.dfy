/**
 Friendships, blocks and presence: the tables `friendships` and `block_relations`, the Redis sets that
 cache the blocks, and the online keys with their time to live. `Store` is the whole state and its
 functions say what each service call does to it; class `FriendsService` runs the calls in place.
 */
module Friends {
  import opened Common

  type User = nat

  datatype Status = Pending | Accepted

  datatype Row = Row(id: nat, user: User, friend: User, status: Status) {
    predicate Joins(a: User, b: User) {
      (user == a && friend == b) || (user == b && friend == a)
    }

    /** A row that ListFriends returns for `u`. */
    predicate IsFriendOf(u: User) {
      status == Accepted && (user == u || friend == u)
    }

    /** The party that GetOnlineFriends looks at. */
    function Other(u: User): User {
      if friend == u then user else friend
    }
  }

  datatype Error = BadRequest | Forbidden | Conflict | NotFound | Internal

  /** What the service tells the notifier, and the expiries of online keys, in order. */
  datatype Note =
    | WentOnline(user: User, username: string, told: seq<User>)
    | WentOffline(user: User, told: seq<User>)
    | Expired(user: User)
    | FriendRemoved(target: User, remover: User)
    | Blocked(target: User, blocker: User)

  /** Lifetime of an online key, in seconds. */
  const ONLINE_TTL: nat := 300

  function FindPair(rows: seq<Row>, a: User, b: User): Option<Row> {
    if rows == [] then None
    else if rows[0].Joins(a, b) then Some(rows[0])
    else FindPair(rows[1..], a, b)
  }

  function FindId(rows: seq<Row>, id: nat): Option<Row> {
    if rows == [] then None
    else if rows[0].id == id then Some(rows[0])
    else FindId(rows[1..], id)
  }

  function WithoutPair(rows: seq<Row>, a: User, b: User): seq<Row> {
    if rows == [] then []
    else (if rows[0].Joins(a, b) then [] else [rows[0]]) + WithoutPair(rows[1..], a, b)
  }

  function WithoutId(rows: seq<Row>, id: nat): seq<Row> {
    if rows == [] then []
    else (if rows[0].id == id then [] else [rows[0]]) + WithoutId(rows[1..], id)
  }

  /** ListFriends: rows are kept most recently updated first, so the table's order is the result's. */
  function FriendsOf(rows: seq<Row>, u: User): seq<Row> {
    if rows == [] then []
    else (if rows[0].IsFriendOf(u) then [rows[0]] else []) + FriendsOf(rows[1..], u)
  }

  function FriendIds(rows: seq<Row>): seq<User> {
    seq(|rows|, i requires 0 <= i < |rows| => rows[i].friend)
  }

  datatype Store = Store(
    users: set<User>,
    rows: seq<Row>,
    nextId: nat,
    blocks: set<(User, User)>,
    cache: set<(User, User)>,
    online: map<User, int>,
    now: int,
    notes: seq<Note>)
  {
    function IsBlocked(target: User, other: User, redisUp: bool): bool {
      if redisUp then (target, other) in cache else (target, other) in blocks
    }

    function SendRequest(from: User, to: User, redisUp: bool): (Store, Result<Row, Error>) {
      if from == to then (this, Err(BadRequest))
      else if IsBlocked(to, from, redisUp) then (this, Err(Forbidden))
      else if FindPair(rows, from, to).Some? then (this, Err(Conflict))
      else if !({from, to} <= users) then (this, Err(Internal))
      else
        var row := Row(nextId, from, to, Pending);
        (this.(rows := [row] + rows, nextId := nextId + 1), Ok(row))
    }

    function AcceptRequest(id: nat): (Store, Result<Row, Error>) {
      match FindId(rows, id)
      case None => (this, Err(NotFound))
      case Some(row) =>
        var accepted := row.(status := Accepted);
        (this.(rows := [accepted] + WithoutId(rows, id)), Ok(accepted))
    }

    function RejectRequest(id: nat): (Store, Result<(), Error>) {
      if FindId(rows, id).None? then (this, Err(NotFound))
      else (this.(rows := WithoutId(rows, id)), Ok(()))
    }

    /** Removing a friendship that does not exist is answered with an internal error. */
    function RemoveFriend(u: User, friend: User): (Store, Result<(), Error>) {
      if FindPair(rows, u, friend).None? then (this, Err(Internal))
      else (this.(rows := WithoutPair(rows, u, friend), notes := notes + [FriendRemoved(friend, u)]), Ok(()))
    }

    function Block(blocker: User, target: User): (Store, Result<(), Error>) {
      if blocker == target then (this, Err(BadRequest))
      else if (blocker, target) in blocks || !({blocker, target} <= users) then (this, Err(Internal))
      else (this.(blocks := blocks + {(blocker, target)},
                  rows := WithoutPair(rows, blocker, target),
                  cache := cache + {(blocker, target)},
                  notes := notes + [Blocked(target, blocker)]), Ok(()))
    }

    function Unblock(blocker: User, target: User): (Store, Result<(), Error>) {
      if (blocker, target) !in blocks then (this, Err(Internal))
      else (this.(blocks := blocks - {(blocker, target)}, cache := cache - {(blocker, target)}), Ok(()))
    }

    function LoadBlockCache(): Store {
      this.(cache := cache + blocks)
    }

    predicate IsOnline(u: User) {
      u in online && now < online[u]
    }

    /** Redis drops a key whose time has come, at the latest when it is next used. */
    function Lapse(u: User): Store {
      if u in online && !IsOnline(u) then this.(online := online - {u}, notes := notes + [Expired(u)])
      else this
    }

    function SetOnline(u: User, username: string, redisUp: bool): (Store, Result<(), Error>) {
      if !redisUp then (this, Err(Internal))
      else
        var s := Lapse(u);
        var told := FriendIds(FriendsOf(rows, u));
        (s.(online := s.online[u := now + ONLINE_TTL],
            notes := if u in s.online then s.notes else s.notes + [WentOnline(u, username, told)]), Ok(()))
    }

    function SetOffline(u: User, redisUp: bool): (Store, Result<(), Error>) {
      if !redisUp then (this, Err(Internal))
      else
        var s := Lapse(u);
        var told := FriendIds(FriendsOf(rows, u));
        (s.(online := s.online - {u},
            notes := if u in s.online then s.notes + [WentOffline(u, told)] else s.notes), Ok(()))
    }

    function OnlineAmong(friends: seq<Row>, u: User): seq<User> {
      if friends == [] then []
      else (if IsOnline(friends[0].Other(u)) then [friends[0].Other(u)] else []) + OnlineAmong(friends[1..], u)
    }

    function OnlineFriends(u: User): seq<User> {
      OnlineAmong(FriendsOf(rows, u), u)
    }
  }

  lemma {:induction false} FriendIdsSnoc(rows: seq<Row>, i: nat)
    requires i < |rows|
    ensures FriendIds(rows[..i + 1]) == FriendIds(rows[..i]) + [rows[i].friend]
  {
  }

  lemma {:induction false} OnlineAmongSnoc(s: Store, friends: seq<Row>, i: nat, u: User)
    requires i < |friends|
    ensures s.OnlineAmong(friends[..i + 1], u)
         == s.OnlineAmong(friends[..i], u) + s.OnlineAmong([friends[i]], u)
  {
    if i == 0 {
      assert friends[..1] == [friends[0]];
    } else {
      OnlineAmongSnoc(s, friends[1..], i - 1, u);
      assert friends[..i + 1][1..] == friends[1..][..i];
      assert friends[..i][1..] == friends[1..][..i - 1];
    }
  }

  class FriendsService {
    const users: set<User>
    var rows: seq<Row>
    var nextId: nat
    var blocks: set<(User, User)>
    var cache: set<(User, User)>
    var online: map<User, int>
    var now: int
    var notes: seq<Note>

    constructor (users: set<User>, now: int)
      ensures State() == Store(users, [], 0, {}, {}, map[], now, [])
    {
      this.users, rows, nextId, blocks, cache := users, [], 0, {}, {};
      online, this.now, notes := map[], now, [];
    }

    function State(): Store
      reads this
    {
      Store(users, rows, nextId, blocks, cache, online, now, notes)
    }

    method IsBlocked(target: User, other: User, redisUp: bool) returns (blocked: bool)
      ensures blocked == State().IsBlocked(target, other, redisUp)
      ensures cache == blocks ==> (blocked <==> (target, other) in blocks)
      ensures blocked && (target, other) !in blocks ==> redisUp && (target, other) in cache - blocks
      ensures !blocked && (target, other) in blocks ==> redisUp && (target, other) in blocks - cache
    {
      if redisUp {
        return (target, other) in cache;
      }
      blocked := (target, other) in blocks;
    }

    method SendRequest(from: User, to: User, redisUp: bool) returns (r: Result<Row, Error>)
      modifies this
      ensures (State(), r) == old(State()).SendRequest(from, to, redisUp)
    {
      if from == to {
        return Err(BadRequest);
      }
      var blocked := IsBlocked(to, from, redisUp);
      if blocked {
        return Err(Forbidden);
      }
      var existing := FindPair(rows, from, to);
      if existing.Some? {
        return Err(Conflict);
      }
      if from !in users || to !in users {
        return Err(Internal);
      }
      var row := Row(nextId, from, to, Pending);
      rows, nextId := [row] + rows, nextId + 1;
      r := Ok(row);
    }

    method AcceptRequest(id: nat) returns (r: Result<Row, Error>)
      modifies this
      ensures (State(), r) == old(State()).AcceptRequest(id)
    {
      var found := FindId(rows, id);
      if found.None? {
        return Err(NotFound);
      }
      var row := found.value.(status := Accepted);
      rows := [row] + WithoutId(rows, id);
      r := Ok(row);
    }

    method RejectRequest(id: nat) returns (r: Result<(), Error>)
      modifies this
      ensures (State(), r) == old(State()).RejectRequest(id)
    {
      var found := FindId(rows, id);
      if found.None? {
        return Err(NotFound);
      }
      rows := WithoutId(rows, id);
      r := Ok(());
    }

    method RemoveFriend(u: User, friend: User) returns (r: Result<(), Error>)
      modifies this
      ensures (State(), r) == old(State()).RemoveFriend(u, friend)
    {
      var found := FindPair(rows, u, friend);
      if found.None? {
        return Err(Internal);
      }
      rows := WithoutPair(rows, u, friend);
      notes := notes + [FriendRemoved(friend, u)];
      r := Ok(());
    }

    method Block(blocker: User, target: User) returns (r: Result<(), Error>)
      modifies this
      ensures (State(), r) == old(State()).Block(blocker, target)
    {
      if blocker == target {
        return Err(BadRequest);
      }
      if (blocker, target) in blocks || blocker !in users || target !in users {
        return Err(Internal);
      }
      blocks := blocks + {(blocker, target)};
      var existing := FindPair(rows, blocker, target);
      NoPairNothingRemoved(rows, blocker, target);
      if existing.Some? {
        PairIsSymmetric(rows, blocker, target);
        rows := WithoutPair(rows, existing.value.user, existing.value.friend);
      }
      cache := cache + {(blocker, target)};
      notes := notes + [Blocked(target, blocker)];
      r := Ok(());
    }

    method Unblock(blocker: User, target: User) returns (r: Result<(), Error>)
      modifies this
      ensures (State(), r) == old(State()).Unblock(blocker, target)
    {
      if (blocker, target) !in blocks {
        return Err(Internal);
      }
      blocks := blocks - {(blocker, target)};
      cache := cache - {(blocker, target)};
      r := Ok(());
    }

    /** Adds every stored relation to the cache, one at a time, in whatever order the query lists them. */
    method LoadBlockCache()
      modifies this
      ensures State() == old(State()).LoadBlockCache()
    {
      var todo := blocks;
      while todo != {}
        invariant todo <= blocks
        invariant State() == old(State()).(cache := cache)
        invariant cache == old(cache) + (blocks - todo)
        decreases todo
      {
        var b :| b in todo;
        cache := cache + {b};
        todo := todo - {b};
      }
    }

    method Lapse(u: User)
      modifies this
      ensures State() == old(State()).Lapse(u)
    {
      if u in online && online[u] <= now {
        online := online - {u};
        notes := notes + [Expired(u)];
      }
    }

    method ListFriendIds(u: User) returns (friendIds: seq<User>)
      ensures friendIds == FriendIds(FriendsOf(rows, u))
    {
      var friendships := FriendsOf(rows, u);
      friendIds := [];
      for i := 0 to |friendships|
        invariant friendIds == FriendIds(friendships[..i])
      {
        FriendIdsSnoc(friendships, i);
        friendIds := friendIds + [friendships[i].friend];
      }
      assert friendships[..|friendships|] == friendships;
    }

    method SetOnline(u: User, username: string, redisUp: bool) returns (r: Result<(), Error>)
      modifies this
      ensures (State(), r) == old(State()).SetOnline(u, username, redisUp)
    {
      if !redisUp {
        return Err(Internal);
      }
      Lapse(u);
      var first := u !in online;
      if first {
        online := online[u := now + ONLINE_TTL];
        var friendIds := ListFriendIds(u);
        notes := notes + [WentOnline(u, username, friendIds)];
      }
      ghost var kept := online;
      online := online[u := now + ONLINE_TTL];
      assert first ==> online == kept;
      r := Ok(());
    }

    method SetOffline(u: User, redisUp: bool) returns (r: Result<(), Error>)
      modifies this
      ensures (State(), r) == old(State()).SetOffline(u, redisUp)
    {
      if !redisUp {
        return Err(Internal);
      }
      Lapse(u);
      var existed := u in online;
      online := online - {u};
      if existed {
        var friendIds := ListFriendIds(u);
        notes := notes + [WentOffline(u, friendIds)];
      }
      r := Ok(());
    }

    method GetOnlineFriends(u: User) returns (result: seq<User>)
      ensures result == State().OnlineFriends(u)
    {
      var friendships := FriendsOf(rows, u);
      result := [];
      for i := 0 to |friendships|
        invariant result == State().OnlineAmong(friendships[..i], u)
      {
        OnlineAmongSnoc(State(), friendships, i, u);
        var f := friendships[i];
        var friendId := if f.friend == u then f.user else f.friend;
        if friendId in online && now < online[friendId] {
          result := result + [friendId];
        }
      }
      assert friendships[..|friendships|] == friendships;
    }
  }

  lemma {:induction false} NoPairNothingRemoved(rows: seq<Row>, a: User, b: User)
    ensures FindPair(rows, a, b).None? ==> WithoutPair(rows, a, b) == rows
  {
    if rows != [] {
      NoPairNothingRemoved(rows[1..], a, b);
    }
  }

  /** The delete by the columns of the row found is the delete by the pair asked for. */
  lemma {:induction false} PairIsSymmetric(rows: seq<Row>, a: User, b: User)
    requires FindPair(rows, a, b).Some?
    ensures var row := FindPair(rows, a, b).value;
            WithoutPair(rows, row.user, row.friend) == WithoutPair(rows, a, b)
  {
    FoundJoins(rows, a, b);
    SameDelete(rows, a, b, FindPair(rows, a, b).value);
  }

  lemma {:induction false} FoundJoins(rows: seq<Row>, a: User, b: User)
    ensures FindPair(rows, a, b).Some? <==> exists r <- rows :: r.Joins(a, b)
    ensures FindPair(rows, a, b).Some? ==> FindPair(rows, a, b).value.Joins(a, b) && FindPair(rows, a, b).value in rows
  {
    if rows != [] {
      FoundJoins(rows[1..], a, b);
      assert forall r :: r in rows <==> r == rows[0] || r in rows[1..];
    }
  }

  lemma {:induction false} SameDelete(rows: seq<Row>, a: User, b: User, row: Row)
    requires row.Joins(a, b)
    ensures WithoutPair(rows, row.user, row.friend) == WithoutPair(rows, a, b)
  {
    if rows != [] {
      SameDelete(rows[1..], a, b, row);
    }
  }
}
