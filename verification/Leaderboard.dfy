/**
 Leaderboards: an append-only score log in SQL and one Redis sorted set per board. A sorted set is kept
 as the sequence in which ZREVRANGE lists it; `ZAdd`, `ZRevRange` and `ZRevRank` are the Redis commands.
 */
module Leaderboard {
  import opened Common

  /** Canonical lower-case UUID texts, which compare as the numbers they spell. */
  type User = nat

  /** A float64; finite values are modelled as reals. */
  datatype Score = Num(value: real) | NaN | PosInf | NegInf

  datatype Item = Item(user: User, score: real)

  datatype RankEntry = RankEntry(rank: int, user: User, score: real)

  datatype Logged = Logged(board: nat, user: User, score: real)

  datatype Error = BadRequest | NotFound | Internal

  /** Score descending, ties by member descending. */
  predicate Before(a: Item, b: Item) {
    a.score > b.score || (a.score == b.score && a.user > b.user)
  }

  ghost predicate Sorted(z: seq<Item>) {
    forall i, j | 0 <= i < j < |z| :: Before(z[i], z[j]) && z[i].user != z[j].user
  }

  function Without(z: seq<Item>, u: User): seq<Item> {
    if z == [] then []
    else (if z[0].user == u then [] else [z[0]]) + Without(z[1..], u)
  }

  function Insert(z: seq<Item>, x: Item): seq<Item> {
    if z == [] || Before(x, z[0]) then [x] + z else [z[0]] + Insert(z[1..], x)
  }

  function ZAdd(z: seq<Item>, u: User, score: real): seq<Item> {
    Insert(Without(z, u), Item(u, score))
  }

  /** ZREVRANGE, negative indices counting from the end. */
  function ZRevRange(z: seq<Item>, start: int, stop: int): seq<Item> {
    var from := if start >= 0 then start else if |z| + start >= 0 then |z| + start else 0;
    var to := if stop >= 0 then stop else |z| + stop;
    if from > to || from >= |z| then []
    else if to >= |z| then z[from..] else z[from..to + 1]
  }

  function ZRevRank(z: seq<Item>, u: User): Option<nat> {
    if z == [] then None
    else if z[0].user == u then Some(0)
    else match ZRevRank(z[1..], u)
      case None => None
      case Some(r) => Some(r + 1)
  }

  function ZScore(z: seq<Item>, u: User): Option<real> {
    if z == [] then None else if z[0].user == u then Some(z[0].score) else ZScore(z[1..], u)
  }

  /** The latest logged score of each user of a board: the meaning of the board's sorted set. */
  function Latest(log: seq<Logged>, board: nat): map<User, real> {
    if log == [] then map[]
    else
      var last, before := log[|log| - 1], Latest(log[..|log| - 1], board);
      if last.board == board then before[last.user := last.score] else before
  }

  /** Rank, user and score of each item, the first one at rank `first`. */
  function Entries(z: seq<Item>, first: int): seq<RankEntry> {
    seq(|z|, i requires 0 <= i < |z| => RankEntry(first + i, z[i].user, z[i].score))
  }

  datatype Boards = Boards(configs: map<string, nat>, users: set<User>, log: seq<Logged>, zsets: map<string,
    seq<Item>>) {
    function ZSet(code: string): seq<Item> {
      if code in zsets then zsets[code] else []
    }

    function SubmitScore(code: string, u: User, score: Score, zaddOk: bool): (Boards, Result<(), Error>) {
      if !score.Num? || score.value < 0.0 then (this, Err(BadRequest))
      else if code !in configs then (this, Err(NotFound))
      else if u !in users then (this, Err(Internal))
      else
        var logged := this.(log := log + [Logged(configs[code], u, score.value)]);
        (if zaddOk then logged.(zsets := zsets[code := ZAdd(ZSet(code), u, score.value)]) else logged, Ok(()))
    }

    function GetRanking(code: string, limit: int, offset: int): Result<seq<RankEntry>, Error> {
      if code !in configs then Err(NotFound)
      else Ok(Entries(ZRevRange(ZSet(code), offset, offset + limit - 1), offset + 1))
    }

    function GetUserRank(code: string, u: User): Result<RankEntry, Error> {
      if code !in configs then Err(NotFound)
      else match (ZRevRank(ZSet(code), u), ZScore(ZSet(code), u))
        case (Some(rank), Some(score)) => Ok(RankEntry(rank + 1, u, score))
        case _ => Err(NotFound)
    }
  }

  class LeaderboardService {
    const configs: map<string, nat>
    const users: set<User>
    var log: seq<Logged>
    var zsets: map<string, seq<Item>>

    constructor (configs: map<string, nat>, users: set<User>)
      ensures State() == Boards(configs, users, [], map[])
    {
      this.configs, this.users, log, zsets := configs, users, [], map[];
    }

    function State(): Boards
      reads this
    {
      Boards(configs, users, log, zsets)
    }

    method SubmitScore(code: string, u: User, score: Score, zaddOk: bool) returns (r: Result<(), Error>)
      modifies this
      ensures (State(), r) == old(State()).SubmitScore(code, u, score, zaddOk)
    {
      if !score.Num? || score.value < 0.0 {
        return Err(BadRequest);
      }
      if code !in configs {
        return Err(NotFound);
      }
      if u !in users {
        return Err(Internal);
      }
      log := log + [Logged(configs[code], u, score.value)];
      if zaddOk {
        var z := if code in zsets then zsets[code] else [];
        zsets := zsets[code := ZAdd(z, u, score.value)];
      }
      r := Ok(());
    }

    method GetRanking(code: string, limit: int, offset: int) returns (r: Result<seq<RankEntry>, Error>)
      ensures r == State().GetRanking(code, limit, offset)
    {
      if code !in configs {
        return Err(NotFound);
      }
      var results := ZRevRange(if code in zsets then zsets[code] else [], offset, offset + limit - 1);
      var entries := new RankEntry[|results|];
      for i := 0 to |results|
        invariant forall j | 0 <= j < i :: entries[j] == RankEntry(offset + 1 + j, results[j].user, results[j].score)
      {
        entries[i] := RankEntry(offset + i + 1, results[i].user, results[i].score);
      }
      assert entries[..] == Entries(results, offset + 1);
      r := Ok(entries[..]);
    }

    method GetUserRank(code: string, u: User) returns (r: Result<RankEntry, Error>)
      ensures r == State().GetUserRank(code, u)
      ensures match r
              case Ok(entry) =>
                && entry.user == u && code in configs && 1 <= entry.rank <= |State().ZSet(code)|
                && State().ZSet(code)[entry.rank - 1] == Item(u, entry.score)
              case Err(e) =>
                && e == NotFound
                && (code !in configs || forall x <- State().ZSet(code) :: x.user != u)
    {
      if code !in configs {
        return Err(NotFound);
      }
      var z := if code in zsets then zsets[code] else [];
      var rank, score := ZRevRank(z, u), ZScore(z, u);
      RankIsIndex(z, u);
      if rank.None? || score.None? {
        return Err(NotFound);
      }
      r := Ok(RankEntry(rank.value + 1, u, score.value));
    }
  }

  // -------------------------------------------------------- the sorted set itself

  lemma {:induction false} WithoutKeeps(z: seq<Item>, u: User)
    ensures forall x :: x in Without(z, u) <==> x in z && x.user != u
    ensures Sorted(z) ==> Sorted(Without(z, u))
  {
    if z != [] {
      WithoutKeeps(z[1..], u);
      assert forall x :: x in z <==> x == z[0] || x in z[1..];
      if Sorted(z) {
        FirstIsBefore(z);
        var kept := Without(z[1..], u);
        assert forall x <- kept :: Before(z[0], x) && z[0].user != x.user;
      }
    }
  }

  lemma FirstIsBefore(z: seq<Item>)
    requires Sorted(z) && z != []
    ensures Sorted(z[1..])
    ensures forall x <- z[1..] :: Before(z[0], x) && z[0].user != x.user
  {
    forall x <- z[1..]
      ensures Before(z[0], x) && z[0].user != x.user
    {
      var k :| 0 <= k < |z| - 1 && z[1..][k] == x;
      assert z[k + 1] == x;
    }
  }

  lemma {:induction false} InsertMembers(z: seq<Item>, x: Item)
    ensures forall y :: y in Insert(z, x) <==> y in z || y == x
  {
    if z != [] && !Before(x, z[0]) {
      InsertMembers(z[1..], x);
      assert forall y :: y in z <==> y == z[0] || y in z[1..];
    }
  }

  lemma {:induction false} InsertSorted(z: seq<Item>, x: Item)
    requires Sorted(z) && forall y <- z :: y.user != x.user
    ensures Sorted(Insert(z, x))
  {
    if z != [] {
      FirstIsBefore(z);
      assert z[0] in z;
      assert forall i | 0 <= i < |z| :: z[i] in z;
      if !Before(x, z[0]) {
        var behind := Insert(z[1..], x);
        assert forall y <- z[1..] :: y in z;
        InsertSorted(z[1..], x);
        InsertMembers(z[1..], x);
        assert forall i | 0 <= i < |behind| :: behind[i] in behind;
      }
    }
  }

  lemma {:induction false} InsertRemoved(z: seq<Item>, x: Item)
    requires forall y <- z :: y.user != x.user
    ensures Without(Insert(z, x), x.user) == z
  {
    NothingRemoved(z, x.user);
    if z != [] && !Before(x, z[0]) {
      assert z[0] in z && forall y <- z[1..] :: y in z;
      InsertRemoved(z[1..], x);
      assert Insert(z, x)[1..] == Insert(z[1..], x);
    } else {
      assert Insert(z, x)[1..] == z;
    }
  }

  lemma InsertKeeps(z: seq<Item>, x: Item)
    requires Sorted(z) && forall y <- z :: y.user != x.user
    ensures Sorted(Insert(z, x))
    ensures forall y :: y in Insert(z, x) <==> y in z || y == x
    ensures Without(Insert(z, x), x.user) == z
  {
    InsertSorted(z, x);
    InsertMembers(z, x);
    InsertRemoved(z, x);
  }

  lemma {:induction false} NothingRemoved(z: seq<Item>, u: User)
    requires forall x <- z :: x.user != u
    ensures Without(z, u) == z
  {
    if z != [] {
      assert z[0] in z;
      NothingRemoved(z[1..], u);
    }
  }

  /** Sorted sets list a map's users by score, then user. */
  ghost predicate Represents(z: seq<Item>, scores: map<User, real>) {
    && Sorted(z)
    && forall u, x :: Item(u, x) in z <==> u in scores && scores[u] == x
  }

  lemma ZAddRepresents(z: seq<Item>, scores: map<User, real>, u: User, score: real)
    requires Represents(z, scores)
    ensures Represents(ZAdd(z, u, score), scores[u := score])
  {
    WithoutKeeps(z, u);
    InsertKeeps(Without(z, u), Item(u, score));
  }

  /** The rank of a member is the number of members with a higher score, or the same and a higher id. */
  lemma RankCountsBetter(z: seq<Item>, u: User)
    requires Sorted(z) && ZRevRank(z, u).Some?
    ensures exists x <- z :: x.user == u &&
              |(set y | y in z && (y.score > x.score || (y.score == x.score && y.user > u)))| == ZRevRank(z, u).value
  {
    RankIsIndex(z, u);
    var r := ZRevRank(z, u).value;
    var better := set y | y in z && Before(y, z[r]);
    assert forall i | 0 <= i < |z| :: Before(z[i], z[r]) <==> i < r;
    PrefixSize(z, r);
    assert better == Members(z[..r]);
    assert z[r] in z;
    assert better == set y | y in z && (y.score > z[r].score || (y.score == z[r].score && y.user > u));
  }

  function Members(z: seq<Item>): set<Item> {
    set x | x in z
  }

  lemma {:induction false} PrefixSize(z: seq<Item>, n: nat)
    requires Sorted(z) && n <= |z|
    ensures |Members(z[..n])| == n
  {
    hide Sorted, Before, Members;
    if n == 0 {
      NoMembers(z[..0]);
    } else {
      PrefixSize(z, n - 1);
      NewMember(z, n - 1);
      OneMore(Members(z[..n - 1]), z[n - 1]);
    }
  }

  lemma NoMembers(z: seq<Item>)
    requires z == []
    ensures Members(z) == {}
  {
  }

  lemma OneMore(s: set<Item>, x: Item)
    requires x !in s
    ensures |s + {x}| == |s| + 1
  {
  }

  lemma NewMember(z: seq<Item>, n: nat)
    requires Sorted(z) && n < |z|
    ensures Members(z[..n + 1]) == Members(z[..n]) + {z[n]} && z[n] !in Members(z[..n])
  {
    assert z[..n + 1] == z[..n] + [z[n]];
    assert forall i | 0 <= i < n :: z[..n][i].user != z[n].user;
  }

  lemma {:induction false} RankIsIndex(z: seq<Item>, u: User)
    ensures match ZRevRank(z, u)
            case None => ZScore(z, u).None? && forall x <- z :: x.user != u
            case Some(r) => r < |z| && z[r].user == u && ZScore(z, u) == Some(z[r].score)
                            && forall i | 0 <= i < r :: z[i].user != u
  {
    if z != [] {
      RankIsIndex(z[1..], u);
      assert forall x :: x in z <==> x == z[0] || x in z[1..];
      if ZRevRank(z, u).Some? && z[0].user != u {
        var r := ZRevRank(z, u).value;
        assert z[r] == z[1..][r - 1];
        assert forall i | 1 <= i < r :: z[i] == z[1..][i - 1];
      }
    }
  }

  // ---------------------------------------------------------------- one submission

  /**
   A submission is answered by whether it is logged, not by whether Redis hears of it: it is logged, and
   nothing else is, exactly when score, board and user are valid, and refused it changes nothing.
   */
  lemma LoggedIff(s: Boards, code: string, u: User, score: Score, zaddOk: bool)
    ensures var (t, r) := s.SubmitScore(code, u, score, zaddOk);
            && (r.Ok? <==> score.Num? && score.value >= 0.0 && code in s.configs && u in s.users)
            && (r.Ok? ==> t.log == s.log + [Logged(s.configs[code], u, score.value)])
            && (r.Ok? && !zaddOk ==> t.zsets == s.zsets)
            && (r.Err? ==> t == s)
            && (r == Err(BadRequest) <==> score.NaN? || score.PosInf? || score.NegInf? || score.value < 0.0)
            && (r == Err(NotFound) <==> score.Num? && score.value >= 0.0 && code !in s.configs)
            && t.configs == s.configs && t.users == s.users
  {
    assert forall more: Logged :: s.log + [more] != s.log;
  }

  /** Taking one user off the board moves up those behind it, by one, and nobody else. */
  lemma {:induction false} RankWithout(z: seq<Item>, u: User, v: User)
    requires Sorted(z) && u != v
    ensures ZRevRank(Without(z, u), v)
         == match (ZRevRank(z, u), ZRevRank(z, v))
            case (_, None) => None
            case (None, Some(r)) => Some(r)
            case (Some(q), Some(r)) => Some(if q < r then r - 1 else r)
  {
    if z != [] {
      hide Sorted, Before;
      FirstIsBefore(z);
      RankWithout(z[1..], u, v);
      if z[0].user == u {
        NothingRemoved(z[1..], u);
        assert Without(z, u) == z[1..];
      } else {
        assert Without(z, u)[1..] == Without(z[1..], u);
      }
    }
  }

  lemma ZAddMovesByOne(z: seq<Item>, u: User, score: real, v: User)
    requires Sorted(z) && v != u
    ensures Without(ZAdd(z, u, score), u) == Without(z, u)
    ensures match (ZRevRank(z, v), ZRevRank(ZAdd(z, u, score), v))
            case (Some(before), Some(after)) => before <= after + 1 && after <= before + 1
            case (before, after) => before == after
  {
    WithoutKeeps(z, u);
    InsertKeeps(Without(z, u), Item(u, score));
    RankWithout(z, u, v);
    RankWithout(ZAdd(z, u, score), u, v);
  }

  /** A submission keeps the order of all other users and moves each of them by at most one rank. */
  lemma OthersMoveByOne(s: Boards, code: string, u: User, score: Score, zaddOk: bool, v: User)
    requires Sorted(s.ZSet(code)) && v != u
    ensures var t := s.SubmitScore(code, u, score, zaddOk).0;
            && Without(t.ZSet(code), u) == Without(s.ZSet(code), u)
            && match (ZRevRank(s.ZSet(code), v), ZRevRank(t.ZSet(code), v))
               case (Some(before), Some(after)) => before <= after + 1 && after <= before + 1
               case (before, after) => before == after
  {
    if score.Num? {
      ZAddMovesByOne(s.ZSet(code), u, score.value, v);
    }
    hide ZAdd, ZRevRank, Without;
  }

  /**
   A board configured to keep the highest score is treated like any other: the board shows the better of
   the old and the new score exactly when the new one is not worse.
   */
  lemma KeepsHighestIff(s: Boards, code: string, u: User, score: real)
    requires Sorted(s.ZSet(code)) && code in s.configs && u in s.users && score >= 0.0
    requires ZScore(s.ZSet(code), u).Some?
    ensures var was := ZScore(s.ZSet(code), u).value;
            var t := s.SubmitScore(code, u, Num(score), true).0;
            ZScore(t.ZSet(code), u) == Some(if was >= score then was else score) <==> score >= was
  {
    var t := s.SubmitScore(code, u, Num(score), true).0;
    WithoutKeeps(s.ZSet(code), u);
    InsertKeeps(Without(s.ZSet(code), u), Item(u, score));
    RankIsIndex(t.ZSet(code), u);
    assert Item(u, score) in t.ZSet(code);
    var i :| 0 <= i < |t.ZSet(code)| && t.ZSet(code)[i] == Item(u, score);
  }

  // -------------------------------------------------------------- many submissions

  /** `zaddOk` says whether the sorted set hears of it; the service does not look. */
  datatype Submission = Submission(code: string, user: User, score: Score, zaddOk: bool)

  function Run(s: Boards, submissions: seq<Submission>): Boards
    decreases |submissions|
  {
    if submissions == [] then s
    else
      var last := submissions[|submissions| - 1];
      Run(s, submissions[..|submissions| - 1]).SubmitScore(last.code, last.user, last.score, last.zaddOk).0
  }

  /** Codes and board ids are both unique, and every board's sorted set holds the latest logged scores. */
  ghost predicate Inv(s: Boards) {
    && (forall c, d | c in s.configs && d in s.configs && c != d :: s.configs[c] != s.configs[d])
    && (forall code <- s.configs :: Represents(s.ZSet(code), Latest(s.log, s.configs[code])))
  }

  lemma SubmissionKeepsInv(s: Boards, code: string, u: User, score: Score)
    requires Inv(s)
    ensures var t := s.SubmitScore(code, u, score, true).0;
            && Inv(t) && t.configs == s.configs && s.log <= t.log
            && forall other | other != code :: t.ZSet(other) == s.ZSet(other)
  {
    var (t, r) := s.SubmitScore(code, u, score, true);
    if r.Ok? {
      assert t.log[..|s.log|] == s.log;
      ZAddRepresents(s.ZSet(code), Latest(s.log, s.configs[code]), u, score.value);
      forall c <- t.configs
        ensures Represents(t.ZSet(c), Latest(t.log, t.configs[c]))
      {
        assert Represents(s.ZSet(c), Latest(s.log, s.configs[c]));
      }
    }
  }

  /**
   After any submissions to any boards, ZADD succeeding, each sorted set maps exactly the users in its board's
   log to their latest score.
   */
  lemma {:induction false} BoardsShowLatest(s: Boards, submissions: seq<Submission>)
    requires Inv(s) && forall x <- submissions :: x.zaddOk
    ensures Inv(Run(s, submissions)) && Run(s, submissions).configs == s.configs
    decreases |submissions|
  {
    if submissions != [] {
      var before, last := submissions[..|submissions| - 1], submissions[|submissions| - 1];
      assert last in submissions && forall x <- before :: x in submissions;
      BoardsShowLatest(s, before);
      SubmissionKeepsInv(Run(s, before), last.code, last.user, last.score);
    }
  }

  /** The submission is logged for this user of this board. */
  predicate Counts(s: Boards, x: Submission, code: string, u: User) {
    x.code == code && x.user == u && code in s.configs && u in s.users && x.score.Num? && x.score.value >= 0.0
  }

  /** The score in the last of those submissions, lost by ZADD or not if `lost`, or what it was before them. */
  function LastScore(s: Boards, submissions: seq<Submission>, code: string, u: User, lost: bool): Option<real> {
    if submissions == [] then ZScore(s.ZSet(code), u)
    else
      var last := submissions[|submissions| - 1];
      if Counts(s, last, code, u) && (lost || last.zaddOk) then Some(last.score.value)
      else LastScore(s, submissions[..|submissions| - 1], code, u, lost)
  }

  ghost predicate Shows(z: seq<Item>, scores: map<User, real>, u: User, lost: Option<real>, kept: Option<real>) {
    && (lost == if u in scores then Some(scores[u]) else None)
    && (forall x :: Item(u, x) in z <==> kept == Some(x))
  }

  lemma ZAddShows(z: seq<Item>, scores: map<User, real>, v: User, score: real, u: User, lost: Option<real>,
        kept: Option<real>)
    requires Sorted(z) && Shows(z, scores, u, lost, kept)
    ensures Sorted(ZAdd(z, v, score))
    ensures Shows(ZAdd(z, v, score), scores[v := score], u, if v == u then Some(score) else lost,
                  if v == u then Some(score) else kept)
  {
    WithoutKeeps(z, v);
    InsertKeeps(Without(z, v), Item(v, score));
  }

  lemma ScoreIsShown(z: seq<Item>, scores: map<User, real>, u: User)
    requires Represents(z, scores)
    ensures Shows(z, scores, u, ZScore(z, u), ZScore(z, u))
  {
    RankIsIndex(z, u);
    if ZRevRank(z, u).Some? {
      var item := z[ZRevRank(z, u).value];
      assert item == Item(u, item.score) && item in z;
    }
    if u in scores {
      assert Item(u, scores[u]) in z;
    }
  }

  /** A score that only the log hears of. */
  lemma ShowsLog(z: seq<Item>, scores: map<User, real>, v: User, score: real, u: User, lost: Option<real>,
        kept: Option<real>)
    requires Shows(z, scores, u, lost, kept)
    ensures Shows(z, scores[v := score], u, if v == u then Some(score) else lost, kept)
  {
  }

  lemma SubmissionShows(s: Boards, x: Submission, code: string, u: User, lost: Option<real>, kept: Option<real>)
    requires code in s.configs && forall c <- s.configs :: c != code ==> s.configs[c] != s.configs[code]
    requires Sorted(s.ZSet(code)) && Shows(s.ZSet(code), Latest(s.log, s.configs[code]), u, lost, kept)
    ensures var t, counts := s.SubmitScore(x.code, x.user, x.score, x.zaddOk).0, Counts(s, x, code, u);
            && t.configs == s.configs && t.users == s.users && Sorted(t.ZSet(code))
            && Shows(t.ZSet(code), Latest(t.log, s.configs[code]), u, if counts then Some(x.score.value) else lost,
                     if counts && x.zaddOk then Some(x.score.value) else kept)
  {
    var t := s.SubmitScore(x.code, x.user, x.score, x.zaddOk).0;
    hide ZAdd, Sorted, Shows, ZScore;
    LoggedIff(s, x.code, x.user, x.score, x.zaddOk);
    if t.log != s.log {
      assert t.log[..|s.log|] == s.log;
      ZAddShows(s.ZSet(code), Latest(s.log, s.configs[code]), x.user, x.score.value, u, lost, kept);
      if x.code == code {
        ShowsLog(s.ZSet(code), Latest(s.log, s.configs[code]), x.user, x.score.value, u, lost, kept);
      }
    }
  }

  lemma {:induction false} RunShows(s: Boards, submissions: seq<Submission>, code: string, u: User)
    requires Inv(s) && code in s.configs
    ensures var t := Run(s, submissions);
            && t.configs == s.configs && t.users == s.users && Sorted(t.ZSet(code))
            && Shows(t.ZSet(code), Latest(t.log, s.configs[code]), u, LastScore(s, submissions, code, u, true),
                     LastScore(s, submissions, code, u, false))
    decreases |submissions|
  {
    if submissions == [] {
      ScoreIsShown(s.ZSet(code), Latest(s.log, s.configs[code]), u);
    } else {
      hide Shows, Represents, Sorted, Latest, Boards.SubmitScore, Boards.ZSet;
      var before, last := submissions[..|submissions| - 1], submissions[|submissions| - 1];
      RunShows(s, before, code, u);
      SubmissionShows(Run(s, before), last, code, u, LastScore(s, before, code, u, true),
                      LastScore(s, before, code, u, false));
    }
  }

  ghost predicate ShownAsLogged(z: seq<Item>, scores: map<User, real>, u: User) {
    forall x :: Item(u, x) in z <==> u in scores && scores[u] == x
  }

  /** The user's last logged submission reached Redis, or only repeated the score that Redis had. */
  predicate Arrived(s: Boards, submissions: seq<Submission>, code: string, u: User) {
    LastScore(s, submissions, code, u, true) == LastScore(s, submissions, code, u, false)
  }

  lemma ArrivedIff(s: Boards, submissions: seq<Submission>, code: string, u: User)
    requires Inv(s) && code in s.configs
    ensures var t := Run(s, submissions);
            && t.configs == s.configs && Sorted(t.ZSet(code))
            && (Arrived(s, submissions, code, u) <==> ShownAsLogged(t.ZSet(code), Latest(t.log, s.configs[code]), u))
  {
    RunShows(s, submissions, code, u);
    var z, scores := Run(s, submissions).ZSet(code), Latest(Run(s, submissions).log, s.configs[code]);
    var kept := LastScore(s, submissions, code, u, false);
    if kept.Some? {
      assert Item(u, kept.value) in z;
    }
    if u in scores {
      assert Item(u, scores[u]) in z <==> kept == Some(scores[u]);
    }
  }

  lemma RepresentsIff(z: seq<Item>, scores: map<User, real>)
    ensures Represents(z, scores) <==> Sorted(z) && forall u :: ShownAsLogged(z, scores, u)
  {
    if Sorted(z) && forall u :: ShownAsLogged(z, scores, u) {
      forall u, x
        ensures Item(u, x) in z <==> u in scores && scores[u] == x
      {
        assert ShownAsLogged(z, scores, u);
      }
    }
  }

  /**
   Whichever ZADDs are lost: a board shows exactly the latest logged scores if and only if every user's last
   logged submission arrived.
   */
  lemma LostScoresIff(s: Boards, submissions: seq<Submission>, code: string)
    requires Inv(s) && code in s.configs
    ensures var t := Run(s, submissions);
            && t.configs == s.configs
            && (Represents(t.ZSet(code), Latest(t.log, s.configs[code])) <==>
                forall u :: Arrived(s, submissions, code, u))
  {
    forall u
      ensures var t := Run(s, submissions);
              && t.configs == s.configs && Sorted(t.ZSet(code))
              && (Arrived(s, submissions, code, u) <==> ShownAsLogged(t.ZSet(code), Latest(t.log, s.configs[code]), u))
    {
      ArrivedIff(s, submissions, code, u);
    }
    ArrivedIff(s, submissions, code, 0);
    RepresentsIff(Run(s, submissions).ZSet(code), Latest(Run(s, submissions).log, s.configs[code]));
    hide Represents, ShownAsLogged, Arrived;
  }

  /** Boards to which nothing was submitted are untouched. */
  lemma {:induction false} OtherBoardsUntouched(s: Boards, submissions: seq<Submission>, code: string)
    requires forall x <- submissions :: x.code != code
    ensures Run(s, submissions).ZSet(code) == s.ZSet(code)
    decreases |submissions|
  {
    if submissions != [] {
      var before := submissions[..|submissions| - 1];
      assert forall x <- before :: x in submissions;
      assert submissions[|submissions| - 1] in submissions;
      OtherBoardsUntouched(s, before, code);
    }
  }

  /** User 1 submits 10 and then 5, and the board shows 5, whatever strategy it is configured with. */
  lemma HighestIsOverwritten()
    ensures var s := Run(Boards(map["b" := 0], {1}, [], map[]),
                         [Submission("b", 1, Num(10.0), true), Submission("b", 1, Num(5.0), true)]);
            s.log == [Logged(0, 1, 10.0), Logged(0, 1, 5.0)] && s.ZSet("b") == [Item(1, 5.0)]
  {
    var s0 := Boards(map["b" := 0], {1}, [], map[]);
    var first, second := Submission("b", 1, Num(10.0), true), Submission("b", 1, Num(5.0), true);
    assert [first, second][..1] == [first] && [first][..0] == [];
    assert Run(s0, [first]) == s0.SubmitScore("b", 1, Num(10.0), true).0;
    assert ZAdd([], 1, 10.0) == [Item(1, 10.0)];
    assert Without([Item(1, 10.0)], 1) == [] && ZAdd([Item(1, 10.0)], 1, 5.0) == [Item(1, 5.0)];
  }

  // ------------------------------------------------------------------ paged reading

  /** The pages at offsets from, from + limit, ... up to the first empty one, one after the other. */
  function Pages(s: Boards, code: string, limit: nat, from: nat): seq<RankEntry>
    requires code in s.configs && limit >= 1
    decreases |s.ZSet(code)| - from
  {
    var page := s.GetRanking(code, limit, from).value;
    if page == [] then [] else page + Pages(s, code, limit, from + limit)
  }

  lemma PageIsSlice(z: seq<Item>, limit: nat, from: nat)
    requires limit >= 1
    ensures Entries(ZRevRange(z, from, from + limit - 1), from + 1)
         == if from >= |z| then [] else if from + limit >= |z| then Entries(z, 1)[from..] else Entries(z,
           1)[from..from + limit]
    ensures |Entries(z, 1)| == |z|
  {
  }

  lemma {:induction false} PagesFrom(s: Boards, code: string, limit: nat, from: nat)
    requires code in s.configs && limit >= 1
    ensures Pages(s, code, limit, from)
         == if from >= |s.ZSet(code)| then [] else Entries(s.ZSet(code), 1)[from..]
    decreases |s.ZSet(code)| - from
  {
    var z, all := s.ZSet(code), Entries(s.ZSet(code), 1);
    PageIsSlice(z, limit, from);
    hide ZRevRange, Entries, Boards.ZSet;
    if from < |z| {
      PagesFrom(s, code, limit, from + limit);
      if from + limit < |z| {
        SliceJoin(all, from, from + limit);
      }
    }
  }

  lemma SliceJoin<T>(s: seq<T>, i: nat, j: nat)
    requires i <= j <= |s|
    ensures s[i..j] + s[j..] == s[i..]
  {
  }

  /** A page has the entries from its offset on, at most `limit` of them, and only a known board has one. */
  lemma PageIsExact(s: Boards, code: string, limit: nat, offset: nat)
    requires limit >= 1
    ensures var r, z := s.GetRanking(code, limit, offset), s.ZSet(code);
            && (r.Ok? <==> code in s.configs)
            && (r.Err? ==> r.error == NotFound)
            && (r.Ok? ==>
                  && |r.value| == (if offset >= |z| then 0 else if |z| - offset < limit then |z| - offset else limit)
                  && forall i | 0 <= i < |r.value| ::
                       r.value[i] == RankEntry(offset + i + 1, z[offset + i].user, z[offset + i].score))
  {
  }

  /**
   The handler passes on a negative offset, which Redis counts from the end of the ranking: the entries of a page
   carry the ranks they have if and only if the offset is not negative or the page is empty.
   */
  lemma RanksAreTrueIff(s: Boards, code: string, limit: nat, offset: int)
    requires code in s.configs && limit >= 1
    ensures var page, z := s.GetRanking(code, limit, offset).value, s.ZSet(code);
            (forall e <- page :: 1 <= e.rank <= |z| && z[e.rank - 1] == Item(e.user, e.score)) <==>
            offset >= 0 || page == []
  {
    var page := s.GetRanking(code, limit, offset).value;
    if page != [] {
      assert page[0] in page && page[0].rank == offset + 1;
    }
  }

  /** The last two of three, asked for by a negative offset, come with the ranks -1 and 0. */
  lemma NegativeOffset(s: Boards, code: string, a: Item, b: Item, c: Item)
    requires code in s.configs && s.ZSet(code) == [a, b, c]
    ensures s.GetRanking(code, 2, -2) == Ok([RankEntry(-1, b.user, b.score), RankEntry(0, c.user, c.score)])
  {
    var z := [a, b, c];
    assert z[1..] == [b, c] && z[1..3] == [b, c];
    assert ZRevRange(z, -2, -1) == z[1..];
    assert Entries([b, c], -1) == [RankEntry(-1, b.user, b.score), RankEntry(0, c.user, c.score)];
  }

  /** The pages put together are the whole ranking: every user once, ranks 1 to n, scores never increasing. */
  lemma PagesAreTheRanking(s: Boards, code: string, limit: nat, scores: map<User, real>)
    requires code in s.configs && limit >= 1 && Represents(s.ZSet(code), scores)
    ensures var all := Pages(s, code, limit, 0);
            && (forall i | 0 <= i < |all| :: all[i].rank == i + 1)
            && (forall i, j | 0 <= i < j < |all| :: all[i].score >= all[j].score && all[i].user != all[j].user)
            && (forall e <- all :: e.user in scores && scores[e.user] == e.score)
            && (forall u <- scores :: exists e <- all :: e.user == u)
  {
    PagesFrom(s, code, limit, 0);
    assert Pages(s, code, limit, 0) == Entries(s.ZSet(code), 1);
    EntriesAreAll(s.ZSet(code), scores);
    hide Pages, Entries;
  }

  lemma EntriesAreAll(z: seq<Item>, scores: map<User, real>)
    requires Represents(z, scores)
    ensures var all := Entries(z, 1);
            && (forall i | 0 <= i < |all| :: all[i].rank == i + 1)
            && (forall i, j | 0 <= i < j < |all| :: all[i].score >= all[j].score && all[i].user != all[j].user)
            && (forall e <- all :: e.user in scores && scores[e.user] == e.score)
            && (forall u <- scores :: exists e <- all :: e.user == u)
  {
    var all := Entries(z, 1);
    forall e <- all
      ensures e.user in scores && scores[e.user] == e.score
    {
      var i :| 0 <= i < |all| && all[i] == e;
      assert z[i] in z;
    }
    forall u <- scores
      ensures exists e <- all :: e.user == u
    {
      assert Item(u, scores[u]) in z;
      var i :| 0 <= i < |z| && z[i] == Item(u, scores[u]);
      assert all[i] in all;
    }
  }

  /** A user's rank is r exactly when the user heads the page at offset r - 1, and both show the same entry. */
  lemma UserRankIff(s: Boards, code: string, u: User, limit: nat, entry: RankEntry)
    requires code in s.configs && limit >= 1 && Sorted(s.ZSet(code))
    ensures s.GetUserRank(code, u) == Ok(entry) <==>
            && entry.user == u && entry.rank >= 1
            && var page := s.GetRanking(code, limit, entry.rank - 1).value;
               page != [] && page[0] == entry
  {
    RankIsIndex(s.ZSet(code), u);
  }
}
