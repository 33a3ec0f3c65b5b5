/**
 The fixed-window rate limiter: one Redis counter per identity, endpoint group and window, incremented by
 each request and given a time to live by the request that sees it at one. Time is in nanoseconds since
 Go's zero time, to which Truncate aligns the windows.
 */
module RateLimit {
  import opened Common

  const SECOND: int := 1_000_000_000
  const UNIX_EPOCH: int := 62_135_596_800

  datatype Config = Config(limit: int, window: int)

  datatype Key = Key(identity: string, group: string, start: int)

  datatype Counter = Counter(count: nat, deadline: Option<int>)

  type Store = map<Key, Counter>

  /** `headers` are the limit and what remains of it; a refusal is a 429 with a Retry-After in seconds. */
  datatype Response =
    | Served(headers: Option<(int, int)>)
    | TooManyRequests(headers: Option<(int, int)>, retryAfter: int)

  /** The configured window, `None` when its text does not parse. */
  function ParseWindow(parsed: Option<int>): int {
    if parsed.None? then 60 * SECOND else parsed.value
  }

  function ResolveIdentity(userHeader: string, remoteAddr: string): string {
    if userHeader != "" then "user:" + userHeader else "ip:" + remoteAddr
  }

  function Truncate(at: int, window: int): int {
    if window <= 0 then at else at - at % window
  }

  function Unix(at: int): int {
    at / SECOND - UNIX_EPOCH
  }

  /** EXPIRE counts whole seconds. */
  function Ttl(window: int): int {
    2 * window / SECOND * SECOND
  }

  function KeyAt(cfg: Config, identity: string, group: string, at: int): Key {
    Key(identity, group, Unix(Truncate(at, cfg.window)))
  }

  predicate Live(s: Store, key: Key, at: int) {
    key in s && (s[key].deadline.None? || at < s[key].deadline.value)
  }

  function Incr(s: Store, key: Key, at: int): Store {
    s[key := if Live(s, key, at) then s[key].(count := s[key].count + 1) else Counter(1, None)]
  }

  function Expire(s: Store, key: Key, at: int, ttl: int): Store {
    if Live(s, key, at) then s[key := s[key].(deadline := Some(at + ttl))] else s
  }

  function Request(s: Store, cfg: Config, identity: string, group: string, at: int, redisUp: bool): (Store, Response) {
    if !redisUp then (s, Served(None))
    else
      var key := KeyAt(cfg, identity, group, at);
      var counted := Incr(s, key, at);
      var count := counted[key].count;
      var remaining := if cfg.limit - count < 0 then 0 else cfg.limit - count;
      (if count == 1 then Expire(counted, key, at, Ttl(cfg.window)) else counted,
       if count > cfg.limit then TooManyRequests(Some((cfg.limit, remaining)), cfg.window / SECOND)
       else Served(Some((cfg.limit, remaining))))
  }

  class RateLimiter {
    const cfg: Config
    var store: Store

    constructor (limit: int, window: Option<int>)
      ensures cfg == Config(limit, ParseWindow(window)) && store == map[]
      ensures window.None? ==> cfg.window == 60_000_000_000
    {
      cfg, store := Config(limit, ParseWindow(window)), map[];
    }

    method Handle(userHeader: string, remoteAddr: string, group: string, at: int, redisUp: bool) returns (r: Response)
      modifies this
      ensures (store, r) == Request(old(store), cfg, ResolveIdentity(userHeader, remoteAddr), group, at, redisUp)
    {
      var identity := ResolveIdentity(userHeader, remoteAddr);
      var key := KeyAt(cfg, identity, group, at);
      if !redisUp {
        return Served(None);
      }
      store := Incr(store, key, at);
      var count := store[key].count;
      if count == 1 {
        store := Expire(store, key, at, Ttl(cfg.window));
      }
      var remaining := cfg.limit - count;
      if remaining < 0 {
        remaining := 0;
      }
      if count > cfg.limit {
        return TooManyRequests(Some((cfg.limit, remaining)), cfg.window / SECOND);
      }
      r := Served(Some((cfg.limit, remaining)));
    }
  }

  // ------------------------------------------------------------------------ keys

  /** A user's budget and an address's budget are never shared, and neither are two users'. */
  lemma IdentitiesAreSeparate(user: string, addr: string, user': string, addr': string)
    ensures ResolveIdentity(user, addr) == ResolveIdentity(user', addr') <==>
            user == user' && (user == "" ==> addr == addr')
  {
    var i, i' := ResolveIdentity(user, addr), ResolveIdentity(user', addr');
    assert i[0] == 'u' <==> user != "";
    assert i'[0] == 'u' <==> user' != "";
    if user != "" && user' != "" {
      assert i[5..] == user && i'[5..] == user';
    } else if user == "" && user' == "" {
      assert i[3..] == addr && i'[3..] == addr';
    }
  }

  /** The start of a window in Unix seconds names the window exactly when windows last a second or more. */
  lemma {:induction false} KeyNamesWindowIff(window: int)
    ensures (forall t, u :: Unix(Truncate(t, window)) == Unix(Truncate(u, window)) ==>
      Truncate(t, window) == Truncate(u, window))
            <==> window >= SECOND
  {
    if window >= SECOND {
      forall t, u | Unix(Truncate(t, window)) == Unix(Truncate(u, window))
        ensures Truncate(t, window) == Truncate(u, window)
      {
        var i, j := t / window, u / window;
        assert Truncate(t, window) == i * window && Truncate(u, window) == j * window;
        if i < j {
          FartherApart(i, j, window);
        } else if j < i {
          FartherApart(j, i, window);
        }
      }
    } else {
      var u := if window <= 0 then 1 else window;
      assert Truncate(0, window) == 0 && Truncate(u, window) == u;
      assert Unix(0) == Unix(u);
    }
  }

  lemma FartherApart(i: int, j: int, window: int)
    requires i < j && window >= SECOND
    ensures Unix(i * window) < Unix(j * window)
  {
    hide Unix;
    Multiples(i, j, window);
    FloorsApart(i * window, j * window);
  }

  lemma {:induction false} Multiples(i: int, j: int, n: nat)
    requires i < j
    ensures j * n >= i * n + n
    decreases j - i
  {
    if j > i + 1 {
      Multiples(i, j - 1, n);
    }
    assert j * n == (j - 1) * n + n;
  }

  lemma FloorsApart(x: int, y: int)
    requires y >= x + SECOND
    ensures Unix(x) < Unix(y)
  {
  }

  /** Unix seconds count from 1970: 719162 days after Go's zero time. */
  lemma UnixStart(t: int)
    ensures Unix(719_162 * 86_400 * SECOND + t) == t / SECOND
  {
  }

  // ---------------------------------------------------------- interleaved increments

  /** Redis commands on any keys in the order Redis runs them: increments, some of which fail, and expiries. */
  datatype Event = Hit(at: int, key: Key, ok: bool) | SetTtl(at: int, key: Key)

  function Apply(s: Store, cfg: Config, event: Event): Store {
    match event
    case Hit(at, key, ok) => if ok then Incr(s, key, at) else s
    case SetTtl(at, key) => Expire(s, key, at, Ttl(cfg.window))
  }

  function After(s: Store, cfg: Config, events: seq<Event>): Store
    decreases |events|
  {
    if events == [] then s
    else Apply(After(s, cfg, events[..|events| - 1]), cfg, events[|events| - 1])
  }

  predicate Admits(s: Store, cfg: Config, event: Event) {
    event.Hit? && (!event.ok || Incr(s, event.key, event.at)[event.key].count <= cfg.limit)
  }

  function Admitted(s: Store, cfg: Config, events: seq<Event>, key: Key): nat
    decreases |events|
  {
    if events == [] then 0
    else
      var before, last := events[..|events| - 1], events[|events| - 1];
      Admitted(s, cfg, before, key) + if last.key == key && Admits(After(s, cfg, before), cfg, last) then 1 else 0
  }

  function Hits(events: seq<Event>, key: Key, ok: bool): nat {
    if events == [] then 0
    else
      var last := events[|events| - 1];
      Hits(events[..|events| - 1], key, ok) + if last.Hit? && last.key == key && last.ok == ok then 1 else 0
  }

  /** What a limit lets through at best: a negative limit serves nobody. */
  function Cap(limit: int): nat {
    if limit <= 0 then 0 else limit
  }

  function AtMost(limit: int, n: nat): nat {
    if limit <= 0 then 0 else if n <= limit then n else limit
  }

  lemma {:induction false} CountSurvives(s: Store, cfg: Config, events: seq<Event>, key: Key, start: int)
    requires key !in s
    requires forall e <- events :: e.key == key ==> start <= e.at < start + Ttl(cfg.window)
    ensures var t, n := After(s, cfg, events), Hits(events, key, true);
            && (key in t <==> n > 0)
            && (key in t ==> t[key].count == n
                             && (t[key].deadline.Some? ==> t[key].deadline.value >= start + Ttl(cfg.window)))
            && Admitted(s, cfg, events, key) == AtMost(cfg.limit, n) + Hits(events, key, false)
    decreases |events|
  {
    if events != [] {
      var before, last := events[..|events| - 1], events[|events| - 1];
      assert forall e <- before :: e in events;
      assert last in events;
      CountSurvives(s, cfg, before, key, start);
    }
  }

  /**
   However the increments of the requests stamped in one window interleave with each other, with the
   expiry set on the first hit and with commands on other keys: the count is never reset before the two
   windows have passed, and exactly min(limit, counted) requests are admitted, plus those whose
   increment failed.
   */
  lemma {:induction false} AdmissionsAreExact(s: Store, cfg: Config, events: seq<Event>,
        identity: string, group: string, stamp: int)
    requires cfg.window >= SECOND
    requires KeyAt(cfg, identity, group, stamp) !in s
    requires var start := Truncate(stamp, cfg.window);
             forall e <- events :: e.key == KeyAt(cfg, identity, group, stamp) ==>
                                     start <= e.at < start + Ttl(cfg.window)
    ensures var key := KeyAt(cfg, identity, group, stamp);
            && Admitted(s, cfg, events, key) == AtMost(cfg.limit, Hits(events, key, true)) + Hits(events, key, false)
            && (Hits(events, key, true) > 0 ==>
                  key in After(s, cfg, events) && After(s, cfg, events)[key].count == Hits(events, key, true))
  {
    CountSurvives(s, cfg, events, KeyAt(cfg, identity, group, stamp), Truncate(stamp, cfg.window));
  }

  /** The time to live outlasts the window it was set in. */
  lemma TtlOutlastsWindow(window: int)
    requires window >= SECOND
    ensures Ttl(window) >= window
  {
    var n := 2 * window;
    assert n / SECOND * SECOND == n - n % SECOND;
  }

  /** It is two windows when these are whole seconds. */
  lemma TtlIsTwoWindows(seconds: int)
    ensures Ttl(seconds * SECOND) == 2 * (seconds * SECOND)
  {
  }

  /** With a window of whole seconds the count lasts, and admissions are exact, for two windows from its start. */
  lemma ExactForTwoWindows(s: Store, cfg: Config, seconds: int, events: seq<Event>,
        identity: string, group: string, stamp: int)
    requires seconds >= 1 && cfg.window == seconds * SECOND
    requires KeyAt(cfg, identity, group, stamp) !in s
    requires var start := Truncate(stamp, cfg.window);
             forall e <- events :: e.key == KeyAt(cfg, identity, group, stamp) ==>
                                     start <= e.at < start + 2 * cfg.window
    ensures var key := KeyAt(cfg, identity, group, stamp);
            && Admitted(s, cfg, events, key) == AtMost(cfg.limit, Hits(events, key, true)) + Hits(events, key, false)
            && (Hits(events, key, true) > 0 ==>
                  key in After(s, cfg, events) && After(s, cfg, events)[key].count == Hits(events, key, true))
  {
    TtlIsTwoWindows(seconds);
    AdmissionsAreExact(s, cfg, events, identity, group, stamp);
  }

  /**
   A request does to the counters what its increment and, on a count of one, its expiry do, and it is served
   exactly when its increment is admitted; one whose increment fails is served and leaves the counters alone.
   */
  lemma RequestIsItsEvents(s: Store, cfg: Config, identity: string, group: string, at: int, redisUp: bool)
    ensures var key := KeyAt(cfg, identity, group, at);
            var hit := Hit(at, key, redisUp);
            var (t, response) := Request(s, cfg, identity, group, at, redisUp);
            && (response.Served? <==> Admits(s, cfg, hit))
            && t == After(s, cfg, if redisUp && !(Live(s, key, at) && s[key].count >= 1)
                                  then [hit, SetTtl(at, key)] else [hit])
            && (!redisUp ==> t == s && response == Served(None))
  {
    hide KeyAt, Ttl;
    var key := KeyAt(cfg, identity, group, at);
    OneEvent(s, cfg, Hit(at, key, redisUp), SetTtl(at, key));
  }

  lemma OneEvent(s: Store, cfg: Config, a: Event, b: Event)
    ensures After(s, cfg, [a]) == Apply(s, cfg, a)
    ensures After(s, cfg, [a, b]) == Apply(Apply(s, cfg, a), cfg, b)
  {
    hide Apply;
    assert [a, b][..1] == [a] && [a][..0] == [];
  }

  /** A counter goes on while its time to live lasts, and from that moment on starts at one again. */
  lemma CountRestartsIff(s: Store, key: Key, at: int)
    requires key in s && s[key].count >= 1
    ensures Incr(s, key, at)[key].count == 1 <==> s[key].deadline.Some? && at >= s[key].deadline.value
    ensures Incr(s, key, at)[key].count in {1, s[key].count + 1}
  {
  }

  // -------------------------------------------------------- requests over many windows

  /** A request as it arrives; `redisUp` says whether its increment succeeds. */
  datatype Arrival = Arrival(at: int, identity: string, group: string, redisUp: bool)

  function Serve(cfg: Config, arrivals: seq<Arrival>): Store
    decreases |arrivals|
  {
    if arrivals == [] then map[]
    else
      var last := arrivals[|arrivals| - 1];
      Request(Serve(cfg, arrivals[..|arrivals| - 1]), cfg, last.identity, last.group, last.at, last.redisUp).0
  }

  predicate ServesLast(cfg: Config, arrivals: seq<Arrival>)
    requires arrivals != []
  {
    var last := arrivals[|arrivals| - 1];
    Request(Serve(cfg, arrivals[..|arrivals| - 1]), cfg, last.identity, last.group, last.at, last.redisUp).1.Served?
  }

  /** The requests of one identity and group that arrived in [from, to) and were counted, or whose increment failed. */
  function ArrivedIn(arrivals: seq<Arrival>, identity: string, group: string, from: int, to: int, counted: bool): nat {
    if arrivals == [] then 0
    else
      var last := arrivals[|arrivals| - 1];
      ArrivedIn(arrivals[..|arrivals| - 1], identity, group, from, to, counted)
      + if last.identity == identity && last.group == group && from <= last.at < to && last.redisUp == counted
        then 1 else 0
  }

  /** Those of them that were served. */
  function ServedIn(cfg: Config, arrivals: seq<Arrival>, identity: string, group: string, from: int, to: int): nat {
    if arrivals == [] then 0
    else
      var last := arrivals[|arrivals| - 1];
      ServedIn(cfg, arrivals[..|arrivals| - 1], identity, group, from, to)
      + if last.identity == identity && last.group == group && from <= last.at < to &&
        ServesLast(cfg, arrivals) then 1 else 0
  }

  lemma WindowOf(t: int, window: int)
    requires window >= 1
    ensures Truncate(t, window) == t / window * window
    ensures t / window * window <= t < (t / window + 1) * window
  {
  }

  lemma NoLess(i: int, j: int, n: nat)
    requires i <= j
    ensures i * n <= j * n
  {
    if i < j {
      Multiples(i, j, n);
    }
  }

  lemma SameWindow(t: int, j: int, window: int)
    requires window >= 1
    ensures j * window <= t < (j + 1) * window <==> t / window == j
  {
    WindowOf(t, window);
    var q := t / window;
    if q < j {
      NoLess(q + 1, j, window);
    } else if q > j {
      NoLess(j + 1, q, window);
    }
  }

  /** An arrival uses the counter of window j exactly when it arrives in window j. */
  lemma KeyOfWindow(cfg: Config, a: Arrival, identity: string, group: string, j: int)
    requires cfg.window >= SECOND
    ensures KeyAt(cfg, a.identity, a.group, a.at) == KeyAt(cfg, identity, group, j * cfg.window) <==>
            && a.identity == identity && a.group == group
            && j * cfg.window <= a.at < (j + 1) * cfg.window
  {
    WindowOf(a.at, cfg.window);
    WindowOf(j * cfg.window, cfg.window);
    SameWindow(a.at, j, cfg.window);
    SameWindow(j * cfg.window, j, cfg.window);
    assert (j + 1) * cfg.window == j * cfg.window + cfg.window;
    KeyNamesWindowIff(cfg.window);
    if a.at / cfg.window < j {
      FartherApart(a.at / cfg.window, j, cfg.window);
    } else if a.at / cfg.window > j {
      FartherApart(j, a.at / cfg.window, cfg.window);
    }
  }

  /**
   In one aligned window, exactly the first `limit` counted requests of each identity and group are served, and
   every one whose increment failed. The counter is there once one is counted, and lasts for the time to live
   from the first.
   */
  lemma {:induction false} OneWindow(cfg: Config, arrivals: seq<Arrival>, identity: string, group: string, j: int)
    requires cfg.window >= SECOND
    ensures var from, to := j * cfg.window, (j + 1) * cfg.window;
            var key, s := KeyAt(cfg, identity, group, from), Serve(cfg, arrivals);
            var n := ArrivedIn(arrivals, identity, group, from, to, true);
            && ServedIn(cfg, arrivals, identity, group, from, to)
               == AtMost(cfg.limit, n) + ArrivedIn(arrivals, identity, group, from, to, false)
            && (key in s <==> n > 0)
            && (key in s ==> s[key].count == n && s[key].deadline.Some?
                             && from + Ttl(cfg.window) <= s[key].deadline.value < to + Ttl(cfg.window))
    decreases |arrivals|
  {
    if arrivals != [] {
      var before, last := arrivals[..|arrivals| - 1], arrivals[|arrivals| - 1];
      OneWindow(cfg, before, identity, group, j);
      KeyOfWindow(cfg, last, identity, group, j);
      TtlOutlastsWindow(cfg.window);
      assert (j + 1) * cfg.window == j * cfg.window + cfg.window;
      hide KeyAt, Ttl;
    }
  }

  /**
   What a response says: the limit, what remains of it in the window, and after a refusal how long a window lasts.
   A request whose increment fails is served without headers.
   */
  lemma {:induction false} ResponseIsExact(cfg: Config, before: seq<Arrival>, last: Arrival)
    requires cfg.window >= SECOND
    ensures var start := Truncate(last.at, cfg.window);
            var n := ArrivedIn(before + [last], last.identity, last.group, start, start + cfg.window, true);
            Request(Serve(cfg, before), cfg, last.identity, last.group, last.at, last.redisUp).1 ==
            if !last.redisUp then Served(None)
            else if n <= cfg.limit then Served(Some((cfg.limit, cfg.limit - n)))
            else TooManyRequests(Some((cfg.limit, 0)), cfg.window / SECOND)
  {
    hide Serve, KeyAt, Truncate, ArrivedIn;
    var j := last.at / cfg.window;
    WindowOf(last.at, cfg.window);
    assert (j + 1) * cfg.window == j * cfg.window + cfg.window;
    OneWindow(cfg, before, last.identity, last.group, j);
    TtlOutlastsWindow(cfg.window);
    KeyOfWindow(cfg, last, last.identity, last.group, j);
    OneMoreArrived(before, last, j * cfg.window, (j + 1) * cfg.window);
    var from, to := j * cfg.window, (j + 1) * cfg.window;
    Answer(Serve(cfg, before), cfg, last, KeyAt(cfg, last.identity, last.group, from), from, to,
           ArrivedIn(before, last.identity, last.group, from, to, true));
  }

  lemma OneMoreArrived(before: seq<Arrival>, last: Arrival, from: int, to: int)
    requires from <= last.at < to
    ensures ArrivedIn(before + [last], last.identity, last.group, from, to, last.redisUp)
         == ArrivedIn(before, last.identity, last.group, from, to, last.redisUp) + 1
  {
    assert (before + [last])[..|before|] == before;
  }

  /** The answer to a request whose window has counted n before it. */
  lemma Answer(s: Store, cfg: Config, last: Arrival, key: Key, from: int, to: int, n: nat)
    requires KeyAt(cfg, last.identity, last.group, last.at) == key && from <= last.at < to && cfg.window >= SECOND
    requires key in s <==> n > 0
    requires key in s ==> s[key].count == n && s[key].deadline.Some? && s[key].deadline.value >= to
    ensures Request(s, cfg, last.identity, last.group, last.at, last.redisUp).1 ==
            if !last.redisUp then Served(None)
            else if n + 1 <= cfg.limit then Served(Some((cfg.limit, cfg.limit - (n + 1))))
            else TooManyRequests(Some((cfg.limit, 0)), cfg.window / SECOND)
  {
    hide KeyAt, Ttl;
  }

  /** Requests whose increments fail change no counter: taking them out of a run leaves the others as they are. */
  lemma {:induction false} FailuresLeaveNoTrace(cfg: Config, arrivals: seq<Arrival>)
    ensures Serve(cfg, arrivals) == Serve(cfg, Counted(arrivals))
    decreases |arrivals|
  {
    if arrivals != [] {
      var before, last := arrivals[..|arrivals| - 1], arrivals[|arrivals| - 1];
      FailuresLeaveNoTrace(cfg, before);
      if last.redisUp {
        assert Counted(arrivals) == Counted(before) + [last];
        assert Counted(arrivals)[..|Counted(before)|] == Counted(before);
      } else {
        assert Counted(arrivals) == Counted(before);
      }
    }
  }

  function Counted(arrivals: seq<Arrival>): seq<Arrival> {
    if arrivals == [] then []
    else
      var last := arrivals[|arrivals| - 1];
      Counted(arrivals[..|arrivals| - 1]) + if last.redisUp then [last] else []
  }

  lemma {:induction false} SplitFailed(arrivals: seq<Arrival>, identity: string, group: string,
        from: int, mid: int, to: int)
    requires from <= mid <= to
    ensures ArrivedIn(arrivals, identity, group, from, to, false)
         == ArrivedIn(arrivals, identity, group, from, mid, false)
            + ArrivedIn(arrivals, identity, group, mid, to, false)
  {
    if arrivals != [] {
      SplitFailed(arrivals[..|arrivals| - 1], identity, group, from, mid, to);
    }
  }

  lemma {:induction false} SplitServed(cfg: Config, arrivals: seq<Arrival>, identity: string,
        group: string, from: int, mid: int, to: int)
    requires from <= mid <= to
    ensures ServedIn(cfg, arrivals, identity, group, from, to)
         == ServedIn(cfg, arrivals, identity, group, from, mid) + ServedIn(cfg, arrivals, identity, group, mid, to)
  {
    if arrivals != [] {
      SplitServed(cfg, arrivals[..|arrivals| - 1], identity, group, from, mid, to);
    }
  }

  lemma {:induction false} ManyWindows(cfg: Config, arrivals: seq<Arrival>, identity: string,
        group: string, j: int, k: nat)
    requires cfg.window >= SECOND
    ensures var from, to := j * cfg.window, (j + k) * cfg.window;
            ServedIn(cfg, arrivals, identity, group, from, to)
            <= k * Cap(cfg.limit) + ArrivedIn(arrivals, identity, group, from, to, false)
  {
    hide ServedIn, ArrivedIn, KeyAt, Serve;
    var from, last, to := j * cfg.window, (j + k - 1) * cfg.window, (j + k) * cfg.window;
    if k == 0 {
      EmptyInterval(cfg, arrivals, identity, group, from, to);
    } else {
      ManyWindows(cfg, arrivals, identity, group, j, k - 1);
      OneWindow(cfg, arrivals, identity, group, j + k - 1);
      NoLess(j, j + k - 1, cfg.window);
      NoLess(j + k - 1, j + k, cfg.window);
      SplitServed(cfg, arrivals, identity, group, from, last, to);
      SplitFailed(arrivals, identity, group, from, last, to);
      assert (k - 1) * Cap(cfg.limit) + Cap(cfg.limit) == k * Cap(cfg.limit);
    }
  }

  lemma {:induction false} EmptyInterval(cfg: Config, arrivals: seq<Arrival>, identity: string,
        group: string, from: int, to: int)
    requires from >= to || ArrivedIn(arrivals, identity, group, from, to, true)
                           + ArrivedIn(arrivals, identity, group, from, to, false) == 0
    ensures ServedIn(cfg, arrivals, identity, group, from, to) == 0
  {
    if arrivals != [] {
      EmptyInterval(cfg, arrivals[..|arrivals| - 1], identity, group, from, to);
    }
  }

  /** Of an interval's arrivals, those of a part of it that are served are served in it. */
  lemma FailedWithin(cfg: Config, arrivals: seq<Arrival>, identity: string, group: string,
        first: int, from: int, to: int, last: int)
    requires first <= from <= to <= last
    ensures ServedIn(cfg, arrivals, identity, group, from, to) - ArrivedIn(arrivals, identity, group, from, to, false)
         <= ServedIn(cfg, arrivals, identity, group, first, last)
            - ArrivedIn(arrivals, identity, group, first, last, false)
  {
    SplitServed(cfg, arrivals, identity, group, first, from, last);
    SplitServed(cfg, arrivals, identity, group, from, to, last);
    SplitFailed(arrivals, identity, group, first, from, last);
    SplitFailed(arrivals, identity, group, from, to, last);
    FailedAreServed(cfg, arrivals, identity, group, first, from);
    FailedAreServed(cfg, arrivals, identity, group, to, last);
    hide ServedIn, ArrivedIn;
  }

  /** A failed increment never refuses a request. */
  lemma {:induction false} FailedAreServed(cfg: Config, arrivals: seq<Arrival>, identity: string, group: string,
        from: int, to: int)
    ensures ServedIn(cfg, arrivals, identity, group, from, to) >= ArrivedIn(arrivals, identity, group, from, to, false)
  {
    if arrivals != [] {
      FailedAreServed(cfg, arrivals[..|arrivals| - 1], identity, group, from, to);
    }
  }

  /** An interval no longer than k windows meets at most k + 1 aligned windows. */
  lemma WindowsMet(from: int, to: int, window: int, k: nat)
    requires window >= 1 && from <= to <= from + k * window
    ensures var j := from / window; j * window <= from && to <= (j + k + 1) * window
  {
    WindowOf(from, window);
    var j := from / window;
    assert (j + k + 1) * window == (j + 1) * window + k * window;
  }

  /**
   Any interval of at most k windows' length sees at most (k + 1) times the limit of requests of one identity
   and group served, beside those whose increment failed.
   */
  lemma {:induction false} IntervalBound(cfg: Config, arrivals: seq<Arrival>, identity: string,
        group: string, from: int, to: int, k: nat)
    requires cfg.window >= SECOND
    requires from <= to <= from + k * cfg.window
    ensures ServedIn(cfg, arrivals, identity, group, from, to)
         <= (k + 1) * Cap(cfg.limit) + ArrivedIn(arrivals, identity, group, from, to, false)
  {
    hide ServedIn, ArrivedIn;
    WindowsMet(from, to, cfg.window, k);
    var j := from / cfg.window;
    var first, last := j * cfg.window, (j + k + 1) * cfg.window;
    FailedWithin(cfg, arrivals, identity, group, first, from, to, last);
    ManyWindows(cfg, arrivals, identity, group, j, k + 1);
  }

  /** A burst of n requests at the end of one window and another at the start of the next. */
  function Bursts(n: nat, identity: string, group: string, boundary: int): seq<Arrival> {
    seq(n, _ => Arrival(boundary - 1, identity, group, true)) + seq(n, _ => Arrival(boundary, identity, group, true))
  }

  lemma {:induction false} BurstsArrive(n: nat, k: nat, identity: string, group: string, boundary: int,
        from: int, to: int)
    requires k <= 2 * n
    ensures ArrivedIn(Bursts(n, identity, group, boundary)[..k], identity, group, from, to, false) == 0
    ensures ArrivedIn(Bursts(n, identity, group, boundary)[..k], identity, group, from, to, true)
         == (if from <= boundary - 1 < to then (if k <= n then k else n) else 0)
            + (if from <= boundary < to && k > n then k - n else 0)
  {
    if k > 0 {
      BurstsArrive(n, k - 1, identity, group, boundary, from, to);
      var b := Bursts(n, identity, group, boundary);
      assert b[..k][..k - 1] == b[..k - 1];
    }
  }

  lemma Straddles(from: int, window: int)
    requires window >= 1 && from % window != 0
    ensures var start := from / window * window; start < from < (from / window + 1) * window == start + window
  {
    WindowOf(from, window);
  }

  /** In an interval of one window's length that straddles a boundary, twice the limit can be served. */
  lemma StraddlingBursts(cfg: Config, identity: string, group: string, from: int)
    requires cfg.window >= SECOND && cfg.limit >= 0 && from % cfg.window != 0
    ensures var boundary := (from / cfg.window + 1) * cfg.window;
            ServedIn(cfg, Bursts(cfg.limit, identity, group, boundary), identity, group, from,
              from + cfg.window) == 2 * cfg.limit
  {
    hide ServedIn, ArrivedIn, Bursts, KeyAt, Serve;
    var w, n, start := cfg.window, cfg.limit, from / cfg.window * cfg.window;
    Straddles(from, w);
    var boundary := start + w;
    var b := Bursts(n, identity, group, boundary);
    TwoWindows(cfg, b, identity, group, from / w);
    AllBursts(n, identity, group, boundary, start, boundary);
    AllBursts(n, identity, group, boundary, boundary, boundary + w);
    AllBursts(n, identity, group, boundary, start, from);
    AllBursts(n, identity, group, boundary, from + w, boundary + w);
    EmptyInterval(cfg, b, identity, group, start, from);
    EmptyInterval(cfg, b, identity, group, from + w, boundary + w);
    SplitServed(cfg, b, identity, group, start, from, boundary);
    SplitServed(cfg, b, identity, group, boundary, from + w, boundary + w);
    SplitServed(cfg, b, identity, group, from, boundary, from + w);
  }

  lemma AllBursts(n: nat, identity: string, group: string, boundary: int, from: int, to: int)
    ensures ArrivedIn(Bursts(n, identity, group, boundary), identity, group, from, to, false) == 0
    ensures ArrivedIn(Bursts(n, identity, group, boundary), identity, group, from, to, true)
         == (if from <= boundary - 1 < to then n else 0) + (if from <= boundary < to then n else 0)
  {
    BurstsArrive(n, 2 * n, identity, group, boundary, from, to);
    assert Bursts(n, identity, group, boundary)[..2 * n] == Bursts(n, identity, group, boundary);
  }

  /** A window and the one after it. */
  lemma TwoWindows(cfg: Config, arrivals: seq<Arrival>, identity: string, group: string, j: int)
    requires cfg.window >= SECOND
    ensures var start, mid, end := j * cfg.window, j * cfg.window + cfg.window, j * cfg.window + 2 * cfg.window;
            && ServedIn(cfg, arrivals, identity, group, start, mid)
               == AtMost(cfg.limit, ArrivedIn(arrivals, identity, group, start, mid, true))
                  + ArrivedIn(arrivals, identity, group, start, mid, false)
            && ServedIn(cfg, arrivals, identity, group, mid, end)
               == AtMost(cfg.limit, ArrivedIn(arrivals, identity, group, mid, end, true))
                  + ArrivedIn(arrivals, identity, group, mid, end, false)
  {
    hide ServedIn, ArrivedIn, KeyAt, Serve;
    assert (j + 1) * cfg.window == j * cfg.window + cfg.window;
    assert (j + 2) * cfg.window == j * cfg.window + 2 * cfg.window;
    OneWindow(cfg, arrivals, identity, group, j);
    OneWindow(cfg, arrivals, identity, group, j + 1);
  }

  /** Whatever arrives, no more than n requests are served, beside those whose increment failed. */
  ghost predicate NeverMoreThan(cfg: Config, identity: string, group: string, from: int, to: int, n: int) {
    forall arrivals :: ServedIn(cfg, arrivals, identity, group, from, to)
                       <= n + ArrivedIn(arrivals, identity, group, from, to, false)
  }

  /**
   The design calls the limiter a sliding window. An interval of one window's length is held to the limit,
   whatever arrives, exactly when it starts on a window boundary (or nothing that is counted is ever served).
   */
  lemma {:induction false} SlidingLimitIff(cfg: Config, identity: string, group: string, from: int)
    requires cfg.window >= SECOND
    ensures NeverMoreThan(cfg, identity, group, from, from + cfg.window, Cap(cfg.limit)) <==>
            from % cfg.window == 0 || cfg.limit <= 0
  {
    var to := from + cfg.window;
    if from % cfg.window == 0 || cfg.limit <= 0 {
      forall arrivals
        ensures ServedIn(cfg, arrivals, identity, group, from, to)
             <= Cap(cfg.limit) + ArrivedIn(arrivals, identity, group, from, to, false)
      {
        if cfg.limit <= 0 {
          IntervalBound(cfg, arrivals, identity, group, from, to, 1);
        } else {
          var j := from / cfg.window;
          assert from == j * cfg.window && to == (j + 1) * cfg.window;
          OneWindow(cfg, arrivals, identity, group, j);
        }
      }
    } else {
      var boundary := (from / cfg.window + 1) * cfg.window;
      StraddlingBursts(cfg, identity, group, from);
      AllBursts(cfg.limit, identity, group, boundary, from, to);
    }
  }
}
