/**
 Platform identities bound to accounts. `Accounts` is the tables users, credentials and platform_bindings;
 what a provider answers to a code, an identity or a failure, is a parameter of the calls.
 */
module Platforms {
  import opened Common

  type User = nat

  datatype Binding = Binding(user: User, platform: string, identity: string)

  datatype Callback = Callback(user: User, isNew: bool)

  /** `Panicked` is the slice of an identity shorter than eight characters. */
  datatype Error =
    | NotSupported | ProviderFailed | Panicked | Internal
    | BindingExists | CreateFailed | NotBound | LastCredential

  function Find(bindings: seq<Binding>, platform: string, identity: string): Option<Binding> {
    if bindings == [] then None
    else if bindings[0].platform == platform && bindings[0].identity == identity then Some(bindings[0])
    else Find(bindings[1..], platform, identity)
  }

  function BindingsOf(bindings: seq<Binding>, u: User): seq<Binding> {
    if bindings == [] then []
    else (if bindings[0].user == u then [bindings[0]] else []) + BindingsOf(bindings[1..], u)
  }

  function Without(bindings: seq<Binding>, u: User, platform: string): seq<Binding> {
    if bindings == [] then []
    else (if bindings[0].user == u && bindings[0].platform == platform then [] else [bindings[0]])
         + Without(bindings[1..], u, platform)
  }

  predicate HasPlatform(bindings: seq<Binding>, platform: string) {
    exists b <- bindings :: b.platform == platform
  }

  /** The number of bindings to platforms other than the given one. */
  function CountOthers(bindings: seq<Binding>, platform: string): nat {
    if bindings == [] then 0
    else CountOthers(bindings[..|bindings| - 1], platform)
         + if bindings[|bindings| - 1].platform != platform then 1 else 0
  }

  lemma CountOthersSnoc(bindings: seq<Binding>, i: nat, platform: string)
    requires i < |bindings|
    ensures CountOthers(bindings[..0], platform) == 0
    ensures CountOthers(bindings[..i + 1], platform)
         == CountOthers(bindings[..i], platform) + if bindings[i].platform != platform then 1 else 0
  {
    assert bindings[..i + 1][..i] == bindings[..i];
  }

  datatype Accounts = Accounts(
    providers: set<string>,
    users: set<User>, nextUser: User, names: set<string>,
    credentials: map<User, nat>,
    bindings: seq<Binding>)
  {
    function Credentials(u: User): nat {
      if u in credentials then credentials[u] else 0
    }

    function HandleCallback(platform: string, answer: Option<string>): (Accounts, Result<Callback, Error>) {
      if platform !in providers then (this, Err(NotSupported))
      else if answer.None? then (this, Err(ProviderFailed))
      else match Find(bindings, platform, answer.value)
        case Some(b) => (this, Ok(Callback(b.user, false)))
        case None =>
          if |answer.value| < 8 then (this, Err(Panicked))
          else if "wx_" + answer.value[..8] in names then (this, Err(Internal))
          else
            (this.(users := users + {nextUser}, nextUser := nextUser + 1, names := names + {"wx_" + answer.value[..8]},
                   bindings := bindings + [Binding(nextUser, platform, answer.value)]),
             Ok(Callback(nextUser, true)))
    }

    function BindPlatform(u: User, platform: string, answer: Option<string>): (Accounts, Result<(), Error>) {
      if platform !in providers then (this, Err(NotSupported))
      else if answer.None? then (this, Err(ProviderFailed))
      else match Find(bindings, platform, answer.value)
        case Some(b) => (this, Err(if b.user != u then BindingExists else CreateFailed))
        case None =>
          if u !in users then (this, Err(CreateFailed))
          else (this.(bindings := bindings + [Binding(u, platform, answer.value)]), Ok(()))
    }

    function UnbindPlatform(u: User, platform: string): (Accounts, Result<(), Error>) {
      var mine := BindingsOf(bindings, u);
      if !HasPlatform(mine, platform) then (this, Err(NotBound))
      else if Credentials(u) == 0 && CountOthers(mine, platform) == 0 then (this, Err(LastCredential))
      else (this.(bindings := Without(bindings, u, platform)), Ok(()))
    }

    /** Registration with a password, in the auth service: a user and its first credential. */
    function Register(name: string): Accounts {
      if name in names then this
      else this.(users := users + {nextUser}, nextUser := nextUser + 1, names := names + {name},
                 credentials := credentials[nextUser := 1])
    }
  }

  class PlatformService {
    const providers: set<string>
    var users: set<User>
    var nextUser: User
    var names: set<string>
    var credentials: map<User, nat>
    var bindings: seq<Binding>

    constructor (providers: set<string>)
      ensures State() == Accounts(providers, {}, 0, {}, map[], [])
    {
      this.providers, users, nextUser, names, credentials, bindings := providers, {}, 0, {}, map[], [];
    }

    function State(): Accounts
      reads this
    {
      Accounts(providers, users, nextUser, names, credentials, bindings)
    }

    method HandleCallback(platform: string, answer: Option<string>) returns (r: Result<Callback, Error>)
      modifies this
      ensures (State(), r) == old(State()).HandleCallback(platform, answer)
    {
      if platform !in providers {
        return Err(NotSupported);
      }
      if answer.None? {
        return Err(ProviderFailed);
      }
      var binding := Find(bindings, platform, answer.value);
      if binding.Some? {
        return Ok(Callback(binding.value.user, false));
      }
      if |answer.value| < 8 {
        return Err(Panicked);
      }
      var name := "wx_" + answer.value[..8];
      if name in names {
        return Err(Internal);
      }
      var user := nextUser;
      users, nextUser, names := users + {user}, nextUser + 1, names + {name};
      bindings := bindings + [Binding(user, platform, answer.value)];
      r := Ok(Callback(user, true));
    }

    method BindPlatform(u: User, platform: string, answer: Option<string>) returns (r: Result<(), Error>)
      modifies this
      ensures (State(), r) == old(State()).BindPlatform(u, platform, answer)
    {
      if platform !in providers {
        return Err(NotSupported);
      }
      if answer.None? {
        return Err(ProviderFailed);
      }
      var existing := Find(bindings, platform, answer.value);
      if existing.Some? && existing.value.user != u {
        return Err(BindingExists);
      }
      if existing.Some? || u !in users {
        return Err(CreateFailed);
      }
      bindings := bindings + [Binding(u, platform, answer.value)];
      r := Ok(());
    }

    method UnbindPlatform(u: User, platform: string) returns (r: Result<(), Error>)
      modifies this
      ensures (State(), r) == old(State()).UnbindPlatform(u, platform)
    {
      hide BindingsOf, Without, CountOthers;
      var mine := BindingsOf(bindings, u);
      var found := false;
      for i := 0 to |mine|
        invariant !found && forall j | 0 <= j < i :: mine[j].platform != platform
      {
        if mine[i].platform == platform {
          found := true;
          break;
        }
      }
      assert found <==> HasPlatform(mine, platform);
      if !found {
        return Err(NotBound);
      }
      var credCount := if u in credentials then credentials[u] else 0;
      var otherBindings := 0;
      CountOthersSnoc(mine, 0, platform);
      for i := 0 to |mine|
        invariant unchanged(this)
        invariant otherBindings == CountOthers(mine[..i], platform)
      {
        CountOthersSnoc(mine, i, platform);
        if mine[i].platform != platform {
          otherBindings := otherBindings + 1;
        }
      }
      assert mine[..|mine|] == mine;
      if credCount == 0 && otherBindings == 0 {
        return Err(LastCredential);
      }
      bindings := Without(bindings, u, platform);
      r := Ok(());
    }
  }

  // ------------------------------------------------------------------- the tables

  lemma {:induction false} FindFinds(bindings: seq<Binding>, platform: string, identity: string)
    ensures match Find(bindings, platform, identity)
            case None => forall b <- bindings :: !(b.platform == platform && b.identity == identity)
            case Some(b) => b in bindings && b.platform == platform && b.identity == identity
  {
    if bindings != [] {
      FindFinds(bindings[1..], platform, identity);
      assert forall b :: b in bindings <==> b == bindings[0] || b in bindings[1..];
    }
  }

  lemma {:induction false} FindAppended(bindings: seq<Binding>, more: Binding, platform: string, identity: string)
    ensures Find(bindings + [more], platform, identity)
         == if Find(bindings, platform, identity).Some? then Find(bindings, platform, identity)
            else Find([more], platform, identity)
  {
    if bindings == [] {
      assert bindings + [more] == [more];
    } else {
      FindAppended(bindings[1..], more, platform, identity);
      assert (bindings + [more])[1..] == bindings[1..] + [more];
    }
  }

  lemma {:induction false} MineAre(bindings: seq<Binding>, u: User)
    ensures forall b :: b in BindingsOf(bindings, u) <==> b in bindings && b.user == u
  {
    if bindings != [] {
      MineAre(bindings[1..], u);
      assert forall b :: b in bindings <==> b == bindings[0] || b in bindings[1..];
    }
  }

  lemma {:induction false} RemainingAre(bindings: seq<Binding>, u: User, platform: string)
    ensures forall b :: b in Without(bindings, u, platform) <==>
              (b in bindings && !(b.user == u && b.platform == platform))
  {
    if bindings != [] {
      RemainingAre(bindings[1..], u, platform);
      assert forall b :: b in bindings <==> b == bindings[0] || b in bindings[1..];
    }
  }

  lemma {:induction false} OthersExist(bindings: seq<Binding>, platform: string)
    ensures CountOthers(bindings, platform) > 0 <==> exists b <- bindings :: b.platform != platform
  {
    if bindings != [] {
      var n := |bindings| - 1;
      OthersExist(bindings[..n], platform);
      assert forall b :: b in bindings <==> b in bindings[..n] || b == bindings[n];
    }
  }

  // ---------------------------------------------------------------- ways to log in

  ghost predicate CanLogIn(s: Accounts, u: User) {
    s.Credentials(u) > 0 || exists b <- s.bindings :: b.user == u
  }

  /** Unbinding succeeds exactly when there is something to unbind and a way to log in remains without it. */
  lemma UnbindIff(s: Accounts, u: User, platform: string)
    ensures s.UnbindPlatform(u, platform).1.Ok? <==>
            && (exists b <- s.bindings :: b.user == u && b.platform == platform)
            && CanLogIn(s.(bindings := Without(s.bindings, u, platform)), u)
  {
    var mine := BindingsOf(s.bindings, u);
    MineAre(s.bindings, u);
    RemainingAre(s.bindings, u, platform);
    OthersExist(mine, platform);
  }

  /**
   What unbinding takes away: all bindings of the user to the platform and no other, and nothing else; refused,
   it changes nothing, as not bound when there is none, and otherwise for the last way to log in.
   */
  lemma UnbindRemoves(s: Accounts, u: User, platform: string)
    ensures var (t, r) := s.UnbindPlatform(u, platform);
            var bound := exists b <- s.bindings :: b.user == u && b.platform == platform;
            var elsewhere := exists b <- s.bindings :: b.user == u && b.platform != platform;
            && (r.Ok? <==> bound && (elsewhere || (u in s.credentials && s.credentials[u] > 0)))
            && (r.Ok? ==> forall b :: b in t.bindings <==> b in s.bindings && !(b.user == u && b.platform == platform))
            && t.(bindings := s.bindings) == s
            && (r.Err? ==> t == s && r.error == if bound then LastCredential else NotBound)
  {
    var mine := BindingsOf(s.bindings, u);
    MineAre(s.bindings, u);
    RemainingAre(s.bindings, u, platform);
    OthersExist(mine, platform);
  }

  /**
   An identity that has been unbound is nobody's: it no longer signs the user in, and any user may bind it.
   */
  lemma UnboundIsFree(s: Accounts, u: User, platform: string, identity: string, v: User)
    requires Inv(s) && Binding(u, platform, identity) in s.bindings && s.UnbindPlatform(u, platform).1.Ok?
    requires platform in s.providers && v in s.users
    ensures var t := s.UnbindPlatform(u, platform).0;
            var (t', bound) := t.BindPlatform(v, platform, Some(identity));
            && (forall b <- t.bindings :: !(b.platform == platform && b.identity == identity))
            && t.HandleCallback(platform, Some(identity)).1 != Ok(Callback(u, false))
            && bound.Ok? && t'.HandleCallback(platform, Some(identity)) == (t', Ok(Callback(v, false)))
  {
    var t := s.UnbindPlatform(u, platform).0;
    UnbindRemoves(s, u, platform);
    forall b <- t.bindings
      ensures !(b.platform == platform && b.identity == identity)
    {
      var was := Binding(u, platform, identity);
      var i :| 0 <= i < |s.bindings| && s.bindings[i] == was;
      var j :| 0 <= j < |s.bindings| && s.bindings[j] == b;
      assert b != was;
      assert i < j ==> !SameIdentity(s.bindings[i], s.bindings[j]);
      assert j < i ==> !SameIdentity(s.bindings[j], s.bindings[i]);
    }
    FindFinds(t.bindings, platform, identity);
    BindIff(t, v, platform, identity);
  }

  /** Binding succeeds exactly for an identity that nobody has bound, which is then the user's; nothing else changes. */
  lemma BindIff(s: Accounts, u: User, platform: string, identity: string)
    ensures var (t, r) := s.BindPlatform(u, platform, Some(identity));
            var free := forall b <- s.bindings :: !(b.platform == platform && b.identity == identity);
            && (r.Ok? <==> platform in s.providers && u in s.users && free)
            && (r.Ok? ==> Find(t.bindings, platform, identity) == Some(Binding(u, platform, identity)))
            && (r.Ok? ==> forall b :: b in t.bindings <==> b in s.bindings || b == Binding(u, platform, identity))
            && t.(bindings := s.bindings) == s
            && (r.Err? ==> t == s)
            && (r.Err? && free ==> r.error == if platform in s.providers then CreateFailed else NotSupported)
  {
    FindFinds(s.bindings, platform, identity);
    FindAppended(s.bindings, Binding(u, platform, identity), platform, identity);
  }

  /** An identity somebody else has bound is refused as such, one's own as a binding that cannot be made again. */
  lemma BoundIsRefused(s: Accounts, u: User, platform: string, b: Binding)
    requires platform in s.providers && BoundOnce(s.bindings) && b in s.bindings && b.platform == platform
    ensures s.BindPlatform(u, platform, Some(b.identity))
         == (s, Err(if b.user == u then CreateFailed else BindingExists))
  {
    FindFinds(s.bindings, platform, b.identity);
    var found := Find(s.bindings, platform, b.identity).value;
    var i :| 0 <= i < |s.bindings| && s.bindings[i] == b;
    var j :| 0 <= j < |s.bindings| && s.bindings[j] == found;
    assert i < j ==> !SameIdentity(s.bindings[i], s.bindings[j]);
    assert j < i ==> !SameIdentity(s.bindings[j], s.bindings[i]);
  }

  datatype Call =
    | DoCallback(platform: string, answer: Option<string>)
    | DoBind(user: User, platform: string, answer: Option<string>)
    | DoUnbind(user: User, platform: string)
    | DoRegister(name: string)

  function Step(s: Accounts, c: Call): Accounts {
    match c
    case DoCallback(platform, answer) => s.HandleCallback(platform, answer).0
    case DoBind(u, platform, answer) => s.BindPlatform(u, platform, answer).0
    case DoUnbind(u, platform) => s.UnbindPlatform(u, platform).0
    case DoRegister(name) => s.Register(name)
  }

  function Run(s: Accounts, calls: seq<Call>): Accounts
    decreases |calls|
  {
    if calls == [] then s else Step(Run(s, calls[..|calls| - 1]), calls[|calls| - 1])
  }

  lemma StepKeepsLogin(s: Accounts, c: Call, u: User)
    requires CanLogIn(s, u)
    ensures CanLogIn(Step(s, c), u)
  {
    match c
    case DoUnbind(v, platform) =>
      UnbindIff(s, v, platform);
      RemainingAre(s.bindings, v, platform);
    case _ =>
      assert forall b <- s.bindings :: b in Step(s, c).bindings;
  }

  /** Over every run of calls, a user with a credential or a binding always keeps one. */
  lemma {:induction false} LoginIsNeverLost(s: Accounts, calls: seq<Call>, u: User)
    requires CanLogIn(s, u)
    ensures CanLogIn(Run(s, calls), u)
    decreases |calls|
  {
    if calls != [] {
      LoginIsNeverLost(s, calls[..|calls| - 1], u);
      StepKeepsLogin(Run(s, calls[..|calls| - 1]), calls[|calls| - 1], u);
    }
  }

  predicate SameIdentity(b: Binding, c: Binding) {
    b.platform == c.platform && b.identity == c.identity
  }

  ghost predicate BoundOnce(bindings: seq<Binding>) {
    forall i, j | 0 <= i < j < |bindings| :: !SameIdentity(bindings[i], bindings[j])
  }

  /** Every user there is can log in, and every binding belongs to a user; identities are bound once. */
  ghost predicate Inv(s: Accounts) {
    && (forall u <- s.users :: u < s.nextUser && CanLogIn(s, u))
    && (forall b <- s.bindings :: b.user in s.users)
    && BoundOnce(s.bindings)
  }

  lemma {:induction false} RemainingDistinct(bindings: seq<Binding>, u: User, platform: string)
    requires BoundOnce(bindings)
    ensures BoundOnce(Without(bindings, u, platform))
  {
    if bindings != [] {
      var rest, behind := Without(bindings, u, platform), Without(bindings[1..], u, platform);
      RemainingDistinct(bindings[1..], u, platform);
      RemainingAre(bindings[1..], u, platform);
      forall b <- behind
        ensures !SameIdentity(bindings[0], b)
      {
        var k :| 0 <= k < |bindings| - 1 && bindings[1..][k] == b;
        assert bindings[k + 1] == b;
      }
      assert forall i | 0 <= i < |behind| :: behind[i] in behind;
      assert rest == behind || rest == [bindings[0]] + behind;
    }
  }

  lemma StepKeepsInv(s: Accounts, c: Call)
    requires Inv(s)
    ensures Inv(Step(s, c))
  {
    var t := Step(s, c);
    forall u <- t.users
      ensures u < t.nextUser && CanLogIn(t, u)
    {
      if u in s.users {
        StepKeepsLogin(s, c, u);
      } else if c.DoCallback? {
        assert t.bindings[|s.bindings|].user == u && t.bindings[|s.bindings|] in t.bindings;
      }
    }
    match c
    case DoCallback(platform, answer) => if answer.Some? { FindFinds(s.bindings, platform, answer.value); }
    case DoBind(u, platform, answer) => if answer.Some? { FindFinds(s.bindings, platform, answer.value); }
    case DoUnbind(u, platform) =>
      RemainingAre(s.bindings, u, platform);
      RemainingDistinct(s.bindings, u, platform);
    case DoRegister(name) =>
  }

  /** In every reachable state every user can log in and every platform identity is bound at most once. */
  lemma {:induction false} RunKeepsInv(s: Accounts, calls: seq<Call>)
    requires Inv(s)
    ensures Inv(Run(s, calls))
    decreases |calls|
  {
    if calls != [] {
      RunKeepsInv(s, calls[..|calls| - 1]);
      StepKeepsInv(Run(s, calls[..|calls| - 1]), calls[|calls| - 1]);
    }
  }

  /** Starting from no accounts, whatever is called: every user can log in and no identity is bound twice. */
  lemma {:induction false} EveryUserCanLogIn(providers: set<string>, calls: seq<Call>, u: User)
    ensures var s := Run(Accounts(providers, {}, 0, {}, map[], []), calls);
            && BoundOnce(s.bindings)
            && (u in s.users ==> CanLogIn(s, u))
            && ((exists b <- s.bindings :: b.user == u) ==> u in s.users)
  {
    RunKeepsInv(Accounts(providers, {}, 0, {}, map[], []), calls);
  }

  /**
   Exactly when a callback signs somebody in, and that the identity is theirs afterwards. A new user takes the
   name made of the identity's first eight characters, has no credential and this one binding.
   */
  lemma CallbackIff(s: Accounts, platform: string, identity: string)
    requires Inv(s)
    ensures var (t, r) := s.HandleCallback(platform, Some(identity));
            var bound := exists b <- s.bindings :: b.platform == platform && b.identity == identity;
            && (r.Ok? <==> platform in s.providers && (bound || (|identity| >= 8 && "wx_" + identity[..8] !in s.names)))
            && (r.Ok? ==> Find(t.bindings, platform, identity) == Some(Binding(r.value.user, platform, identity)))
            && (r.Ok? ==> r.value.isNew == !bound && (r.value.isNew <==> r.value.user !in s.users))
            && (r.Ok? && r.value.isNew ==>
                  && t.users == s.users + {r.value.user} && t.names == s.names + {"wx_" + identity[..8]}
                  && t.bindings == s.bindings + [Binding(r.value.user, platform, identity)]
                  && t.credentials == s.credentials)
            && (r.Ok? && !r.value.isNew ==> t == s)
            && (r.Err? ==> t == s && r.error == if platform !in s.providers then NotSupported
                                                else if |identity| < 8 then Panicked else Internal)
  {
    FindFinds(s.bindings, platform, identity);
    FindAppended(s.bindings, Binding(s.nextUser, platform, identity), platform, identity);
  }

  /** Registering under a free name makes one new user, who can log in without any binding; a taken name none. */
  lemma RegisteredCanLogIn(s: Accounts, name: string)
    requires Inv(s)
    ensures var t := s.Register(name);
            && (name in s.names ==> t == s)
            && (name !in s.names ==>
                  exists u :: && u !in s.users && t.users == s.users + {u} && t.names == s.names + {name}
                              && u in t.credentials && t.credentials[u] == 1)
            && t.bindings == s.bindings
  {
  }

  /** Without an answer from the provider, neither a callback nor a binding does anything. */
  lemma NoAnswerNoChange(s: Accounts, u: User, platform: string)
    ensures var error := if platform in s.providers then ProviderFailed else NotSupported;
            s.HandleCallback(platform, None) == (s, Err(error)) && s.BindPlatform(u, platform, None) == (s, Err(error))
  {
  }

  // ------------------------------------------------------------- who owns an identity

  lemma {:induction false} FindRemaining(bindings: seq<Binding>, u: User, gone: string,
        platform: string, identity: string)
    ensures var found := Find(bindings, platform, identity);
            found.Some? && !(found.value.user == u && platform == gone) ==>
              Find(Without(bindings, u, gone), platform, identity) == found
  {
    if bindings != [] {
      FindRemaining(bindings[1..], u, gone, platform, identity);
      if bindings[0].user == u && bindings[0].platform == gone {
        assert Without(bindings, u, gone) == Without(bindings[1..], u, gone);
      } else {
        assert Without(bindings, u, gone)[1..] == Without(bindings[1..], u, gone);
      }
    }
  }

  /** An identity keeps its owner over every run in which the owner does not unbind the platform. */
  lemma {:induction false} OwnerIsKept(s: Accounts, calls: seq<Call>, b: Binding)
    requires Find(s.bindings, b.platform, b.identity) == Some(b)
    requires forall c <- calls :: c != DoUnbind(b.user, b.platform)
    ensures Find(Run(s, calls).bindings, b.platform, b.identity) == Some(b)
    decreases |calls|
  {
    if calls != [] {
      var before, last := calls[..|calls| - 1], calls[|calls| - 1];
      assert (forall c <- before :: c in calls) && last in calls;
      OwnerIsKept(s, before, b);
      var t := Run(s, before);
      match last
      case DoCallback(platform, answer) =>
        if Step(t, last).bindings != t.bindings {
          FindAppended(t.bindings, Step(t, last).bindings[|t.bindings|], b.platform, b.identity);
        }
      case DoBind(u, platform, answer) =>
        if Step(t, last).bindings != t.bindings {
          FindAppended(t.bindings, Step(t, last).bindings[|t.bindings|], b.platform, b.identity);
        }
      case DoUnbind(u, platform) => FindRemaining(t.bindings, u, platform, b.platform, b.identity);
      case DoRegister(name) =>
    }
  }

  /**
   Once a callback has signed a user in, later callbacks for the same identity, whatever happened in
   between short of the user unbinding the platform, return that user and create nothing.
   */
  lemma CallbackReturnsSameUser(s: Accounts, platform: string, identity: string, calls: seq<Call>)
    requires s.HandleCallback(platform, Some(identity)).1.Ok?
    requires var u := s.HandleCallback(platform, Some(identity)).1.value.user;
             forall c <- calls :: c != DoUnbind(u, platform)
    ensures var u := s.HandleCallback(platform, Some(identity)).1.value.user;
            var t := Run(s.HandleCallback(platform, Some(identity)).0, calls);
            t.HandleCallback(platform, Some(identity)) == (t, Ok(Callback(u, false)))
  {
    var (s', r) := s.HandleCallback(platform, Some(identity));
    FindFinds(s.bindings, platform, identity);
    if r.value.isNew {
      FindAppended(s.bindings, Binding(r.value.user, platform, identity), platform, identity);
    }
    OwnerIsKept(s', calls, Binding(r.value.user, platform, identity));
    ProvidersAreFixed(s', calls);
  }

  lemma {:induction false} ProvidersAreFixed(s: Accounts, calls: seq<Call>)
    ensures Run(s, calls).providers == s.providers
    decreases |calls|
  {
    if calls != [] {
      ProvidersAreFixed(s, calls[..|calls| - 1]);
    }
  }
}
