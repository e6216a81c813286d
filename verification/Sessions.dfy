/**
 * Sessions, refresh tokens and access tokens: auth/register.go, login.go, tokens.go, logout.go
 * and verify.go. Each database transaction is one step; a token stands for its own hash, since
 * hashing is taken to be injective and random tokens to be fresh.
 */
module Sessions {
  import opened Wrappers

  type UserId = nat
  type SessionId = nat
  type Token = nat
  type Time = int

  datatype Session = Session(user: UserId, refresh: Token, expiresAt: Time, revokedAt: Option<Time>)

  datatype Access = Access(user: UserId, session: Option<SessionId>, expiresAt: Time)

  /** The three tables, the clock, and every token handed out so far. */
  datatype Auth = Auth(
    users: set<UserId>, sessions: map<SessionId, Session>, tokens: map<Token, Access>,
    now: Time, issued: set<Token>)

  /** Configured lifetimes. */
  datatype Ttl = Ttl(access: Time, refresh: Time)

  /** The random values and the row id a new session draws. */
  datatype Draw = Draw(session: SessionId, refresh: Token, access: Token)

  ghost predicate Fresh(s: Auth, d: Draw) {
    d.session !in s.sessions && d.refresh !in s.issued && d.access !in s.issued && d.refresh != d.access
  }

  datatype Code = Ok | InvalidCredentials | ActiveSessionExists | InviteRejected | EmailTaken | InvalidRefreshToken

  /** Neither revoked nor expired. */
  predicate Live(s: Auth, x: SessionId) {
    x in s.sessions && s.sessions[x].revokedAt.None? && s.sessions[x].expiresAt > s.now
  }

  predicate HasLiveSession(s: Auth, u: UserId) {
    exists x :: x in s.sessions && s.sessions[x].user == u && Live(s, x)
  }

  /** `VerifyAccessToken`: the user a token speaks for, if it is accepted. */
  function Verify(s: Auth, a: Token): Option<UserId> {
    if a !in s.tokens then None
    else
      var t := s.tokens[a];
      if t.user in s.users && t.expiresAt > s.now && (t.session.None? || Live(s, t.session.value))
      then Some(t.user) else None
  }

  // ----- The transactions

  function AccessIssued(s: Auth, ttl: Ttl, u: UserId, x: SessionId, a: Token): Auth {
    s.(tokens := s.tokens[a := Access(u, Some(x), s.now + ttl.access)], issued := s.issued + {a})
  }

  function PairIssued(s: Auth, ttl: Ttl, u: UserId, d: Draw): Auth {
    AccessIssued(s.(sessions := s.sessions[d.session := Session(u, d.refresh, s.now + ttl.refresh, None)],
                    issued := s.issued + {d.refresh}),
                 ttl, u, d.session, d.access)
  }

  function Registered(s: Auth, ttl: Ttl, u: UserId, inviteOk: bool, taken: bool, d: Draw): (Auth, Code) {
    if !inviteOk then (s, InviteRejected)
    else if taken then (s, EmailTaken)
    else (PairIssued(s.(users := s.users + {u}), ttl, u, d), Ok)
  }

  /** `COALESCE(revoked_at, now())` on the unrevoked sessions of `u`. */
  function RevokeUser(sessions: map<SessionId, Session>, u: UserId, now: Time): map<SessionId, Session> {
    map x | x in sessions ::
      if sessions[x].user == u && sessions[x].revokedAt.None? then sessions[x].(revokedAt := Some(now)) else sessions[x]
  }

  function DropUserTokens(tokens: map<Token, Access>, u: UserId): map<Token, Access> {
    map a | a in tokens && tokens[a].user != u :: tokens[a]
  }

  function DropSessionTokens(tokens: map<Token, Access>, x: SessionId): map<Token, Access> {
    map a | a in tokens && tokens[a].session != Some(x) :: tokens[a]
  }

  function Cleared(s: Auth, u: UserId): Auth {
    s.(sessions := RevokeUser(s.sessions, u, s.now), tokens := DropUserTokens(s.tokens, u))
  }

  function LoggedIn(s: Auth, ttl: Ttl, u: UserId, passwordOk: bool, replace: bool, inviteOk: bool, d: Draw):
    (Auth, Code)
  {
    if u !in s.users || !passwordOk then (s, InvalidCredentials)
    else if HasLiveSession(s, u) && !replace then (s, ActiveSessionExists)
    else if !inviteOk then (s, InviteRejected)
    else
      var cleared := if HasLiveSession(s, u) then Cleared(s, u) else s;
      (PairIssued(cleared, ttl, u, d), Ok)
  }

  /** The session a refresh token opens; refresh hashes are unique among sessions. */
  predicate Opens(s: Auth, r: Token, x: SessionId) {
    x in s.sessions && s.sessions[x].refresh == r
  }

  function Refreshed(s: Auth, ttl: Ttl, x: SessionId, r: Token, d: Draw): (Auth, Code) {
    if !Opens(s, r, x) || s.sessions[x].user !in s.users || !Live(s, x) then (s, InvalidRefreshToken)
    else
      var row := s.sessions[x];
      var rotated := s.(sessions := s.sessions[x := row.(refresh := d.refresh, expiresAt := s.now + ttl.refresh)],
                        tokens := DropSessionTokens(s.tokens, x),
                        issued := s.issued + {d.refresh});
      (AccessIssued(rotated, ttl, row.user, x, d.access), Ok)
  }

  function LoggedOut(s: Auth, a: Token): (Auth, bool) {
    if a !in s.tokens then (s, false)
    else
      var t := s.tokens[a];
      var dropped := s.(tokens := s.tokens - {a});
      if t.session.Some? && t.session.value in s.sessions then
        var row := s.sessions[t.session.value];
        (dropped.(sessions := s.sessions[t.session.value :=
                    row.(revokedAt := if row.revokedAt.Some? then row.revokedAt else Some(s.now))]), true)
      else (dropped, true)
  }

  // ----- The service

  class AuthStore {
    var users: set<UserId>
    var sessions: map<SessionId, Session>
    var tokens: map<Token, Access>
    var now: Time
    var issued: set<Token>
    const ttl: Ttl

    constructor (ttl: Ttl, now: Time)
      ensures Snap() == Auth({}, map[], map[], now, {}) && this.ttl == ttl
    {
      this.ttl, this.now := ttl, now;
      users, sessions, tokens, issued := {}, map[], map[], {};
    }

    function Snap(): Auth
      reads this
    {
      Auth(users, sessions, tokens, now, issued)
    }

    /** `issueAccessToken`. */
    method IssueAccessToken(u: UserId, x: SessionId, a: Token)
      modifies `tokens, `issued
      ensures Snap() == AccessIssued(old(Snap()), ttl, u, x, a)
    {
      tokens := tokens[a := Access(u, Some(x), now + ttl.access)];
      issued := issued + {a};
    }

    /** `issueTokenPair`. */
    method IssueTokenPair(u: UserId, d: Draw)
      modifies `sessions, `tokens, `issued
      ensures Snap() == PairIssued(old(Snap()), ttl, u, d)
    {
      sessions := sessions[d.session := Session(u, d.refresh, now + ttl.refresh, None)];
      issued := issued + {d.refresh};
      IssueAccessToken(u, d.session, d.access);
    }

    method Register(u: UserId, inviteOk: bool, taken: bool, d: Draw) returns (code: Code)
      modifies this
      ensures (Snap(), code) == Registered(old(Snap()), ttl, u, inviteOk, taken, d)
    {
      if !inviteOk {
        return InviteRejected;
      }
      if taken {
        return EmailTaken;
      }
      users := users + {u};
      IssueTokenPair(u, d);
      return Ok;
    }

    method Login(u: UserId, passwordOk: bool, replace: bool, inviteOk: bool, d: Draw) returns (code: Code)
      modifies this
      ensures (Snap(), code) == LoggedIn(old(Snap()), ttl, u, passwordOk, replace, inviteOk, d)
    {
      if u !in users || !passwordOk {
        return InvalidCredentials;
      }
      var active := HasLiveSession(Snap(), u);
      if active && !replace {
        return ActiveSessionExists;
      }
      var sessionsBefore, tokensBefore := sessions, tokens;
      if active && replace {
        sessions := RevokeUser(sessions, u, now);
        tokens := DropUserTokens(tokens, u);
      }
      if !inviteOk {
        sessions, tokens := sessionsBefore, tokensBefore;
        return InviteRejected;
      }
      IssueTokenPair(u, d);
      return Ok;
    }

    /** `x` is the row the query by refresh hash returns, if any. */
    method Refresh(x: SessionId, r: Token, d: Draw) returns (code: Code)
      modifies `sessions, `tokens, `issued
      ensures (Snap(), code) == Refreshed(old(Snap()), ttl, x, r, d)
    {
      if !Opens(Snap(), r, x) || sessions[x].user !in users {
        return InvalidRefreshToken;
      }
      var row := sessions[x];
      if row.revokedAt.Some? || !(row.expiresAt > now) {
        return InvalidRefreshToken;
      }
      sessions := sessions[x := row.(refresh := d.refresh, expiresAt := now + ttl.refresh)];
      issued := issued + {d.refresh};
      tokens := DropSessionTokens(tokens, x);
      IssueAccessToken(row.user, x, d.access);
      return Ok;
    }

    method Logout(a: Token) returns (ok: bool)
      modifies `sessions, `tokens
      ensures (Snap(), ok) == LoggedOut(old(Snap()), a)
    {
      if a !in tokens {
        return false;
      }
      var t := tokens[a];
      tokens := tokens - {a};
      if t.session.Some? && t.session.value in sessions {
        var row := sessions[t.session.value];
        sessions := sessions[t.session.value :=
          row.(revokedAt := if row.revokedAt.Some? then row.revokedAt else Some(now))];
      }
      return true;
    }
  }

  // ----- Runs

  datatype Event =
    | Registering(u: UserId, inviteOk: bool, taken: bool, d: Draw)
    | LoggingIn(u: UserId, passwordOk: bool, replace: bool, inviteOk: bool, d: Draw)
    | Refreshing(x: SessionId, r: Token, d: Draw)
    | LoggingOut(a: Token)
    | Passing(time: nat)

  ghost predicate Enabled(s: Auth, ev: Event) {
    match ev
    case Registering(u, _, taken, d) => Fresh(s, d) && (taken || u !in s.users)
    case LoggingIn(_, _, _, _, d) => Fresh(s, d)
    case Refreshing(_, _, d) => Fresh(s, d)
    case _ => true
  }

  ghost function Step(s: Auth, ttl: Ttl, ev: Event): Auth {
    if !Enabled(s, ev) then s
    else
      match ev
      case Registering(u, inviteOk, taken, d) => Registered(s, ttl, u, inviteOk, taken, d).0
      case LoggingIn(u, passwordOk, replace, inviteOk, d) => LoggedIn(s, ttl, u, passwordOk, replace, inviteOk, d).0
      case Refreshing(x, r, d) => Refreshed(s, ttl, x, r, d).0
      case LoggingOut(a) => LoggedOut(s, a).0
      case Passing(time) => Later(s, time)
  }

  ghost function Run(s: Auth, ttl: Ttl, events: seq<Event>): Auth {
    if events == [] then s
    else Step(Run(s, ttl, events[..|events| - 1]), ttl, events[|events| - 1])
  }

  ghost predicate Start(s: Auth) {
    s.users == {} && s.sessions == map[] && s.tokens == map[] && s.issued == {}
  }

  // ----- The invariant

  /** Every access token was issued and belongs to a session of its own user. */
  ghost predicate TokensOwned(s: Auth) {
    forall a :: a in s.tokens ==>
      && a in s.issued && s.tokens[a].session.Some?
      && s.tokens[a].session.value in s.sessions
      && s.sessions[s.tokens[a].session.value].user == s.tokens[a].user
  }

  ghost predicate OneTokenPerSession(s: Auth) {
    forall a, b :: a in s.tokens && b in s.tokens && s.tokens[a].session == s.tokens[b].session ==> a == b
  }

  ghost predicate RefreshDistinct(s: Auth) {
    && (forall x :: x in s.sessions ==> s.sessions[x].refresh in s.issued && s.sessions[x].user in s.users)
    && (forall x, y :: x in s.sessions && y in s.sessions && s.sessions[x].refresh == s.sessions[y].refresh ==> x == y)
  }

  ghost predicate OneLivePerUser(s: Auth) {
    forall x, y :: Live(s, x) && Live(s, y) && s.sessions[x].user == s.sessions[y].user ==> x == y
  }

  ghost predicate Inv(s: Auth) {
    TokensOwned(s) && OneTokenPerSession(s) && RefreshDistinct(s) && OneLivePerUser(s)
  }

  lemma PairIssuedOneLive(s: Auth, ttl: Ttl, u: UserId, d: Draw)
    requires OneLivePerUser(s) && Fresh(s, d) && !HasLiveSession(s, u)
    ensures OneLivePerUser(PairIssued(s, ttl, u, d))
  {
  }

  lemma PairIssuedTokens(s: Auth, ttl: Ttl, u: UserId, d: Draw)
    requires TokensOwned(s) && OneTokenPerSession(s) && Fresh(s, d)
    ensures TokensOwned(PairIssued(s, ttl, u, d)) && OneTokenPerSession(PairIssued(s, ttl, u, d))
  {
  }

  lemma PairIssuedKeepsInv(s: Auth, ttl: Ttl, u: UserId, d: Draw)
    requires Inv(s) && Fresh(s, d) && !HasLiveSession(s, u) && u in s.users
    ensures Inv(PairIssued(s, ttl, u, d))
  {
    PairIssuedOneLive(s, ttl, u, d);
    PairIssuedTokens(s, ttl, u, d);
    assert RefreshDistinct(PairIssued(s, ttl, u, d));
  }

  lemma ClearedKeepsInv(s: Auth, u: UserId)
    requires Inv(s)
    ensures Inv(Cleared(s, u)) && !HasLiveSession(Cleared(s, u), u)
  {
  }

  lemma LoggedOutKeepsInv(s: Auth, a: Token)
    requires Inv(s)
    ensures Inv(LoggedOut(s, a).0)
  {
  }

  lemma RefreshedOneLive(s: Auth, ttl: Ttl, x: SessionId, r: Token, d: Draw)
    requires OneLivePerUser(s)
    ensures OneLivePerUser(Refreshed(s, ttl, x, r, d).0)
  {
  }

  lemma RefreshedTokens(s: Auth, ttl: Ttl, x: SessionId, r: Token, d: Draw)
    requires TokensOwned(s) && OneTokenPerSession(s) && Fresh(s, d)
    ensures TokensOwned(Refreshed(s, ttl, x, r, d).0) && OneTokenPerSession(Refreshed(s, ttl, x, r, d).0)
  {
  }

  lemma RefreshedKeepsInv(s: Auth, ttl: Ttl, x: SessionId, r: Token, d: Draw)
    requires Inv(s) && Fresh(s, d)
    ensures Inv(Refreshed(s, ttl, x, r, d).0)
  {
    RefreshedOneLive(s, ttl, x, r, d);
    RefreshedTokens(s, ttl, x, r, d);
    assert RefreshDistinct(Refreshed(s, ttl, x, r, d).0);
  }

  lemma LoggedInKeepsInv(s: Auth, ttl: Ttl, u: UserId, passwordOk: bool, replace: bool, inviteOk: bool, d: Draw)
    requires Inv(s) && Fresh(s, d)
    ensures Inv(LoggedIn(s, ttl, u, passwordOk, replace, inviteOk, d).0)
  {
    if LoggedIn(s, ttl, u, passwordOk, replace, inviteOk, d).1 == Ok {
      if HasLiveSession(s, u) {
        ClearedKeepsInv(s, u);
        PairIssuedKeepsInv(Cleared(s, u), ttl, u, d);
      } else {
        PairIssuedKeepsInv(s, ttl, u, d);
      }
    }
  }

  lemma RegisteredKeepsInv(s: Auth, ttl: Ttl, u: UserId, inviteOk: bool, taken: bool, d: Draw)
    requires Inv(s) && Fresh(s, d) && (taken || u !in s.users)
    ensures Inv(Registered(s, ttl, u, inviteOk, taken, d).0)
  {
    if inviteOk && !taken {
      var t := s.(users := s.users + {u});
      assert TokensOwned(t) && OneTokenPerSession(t) && RefreshDistinct(t);
      assert forall x :: Live(t, x) <==> Live(s, x);
      assert OneLivePerUser(t) && !HasLiveSession(t, u);
      PairIssuedKeepsInv(t, ttl, u, d);
    }
  }

  lemma StepKeepsInv(s: Auth, ttl: Ttl, ev: Event)
    requires Inv(s)
    ensures Inv(Step(s, ttl, ev))
  {
    if Enabled(s, ev) {
      match ev
      case Registering(u, inviteOk, taken, d) => RegisteredKeepsInv(s, ttl, u, inviteOk, taken, d);
      case LoggingIn(u, passwordOk, replace, inviteOk, d) =>
        LoggedInKeepsInv(s, ttl, u, passwordOk, replace, inviteOk, d);
      case Refreshing(x, r, d) => RefreshedKeepsInv(s, ttl, x, r, d);
      case LoggingOut(a) => LoggedOutKeepsInv(s, a);
      case Passing(_) =>
        var t := Step(s, ttl, ev);
        assert forall x :: Live(t, x) ==> Live(s, x);
    }
  }

  lemma {:induction false} AlwaysInv(s: Auth, ttl: Ttl, events: seq<Event>)
    requires Start(s)
    ensures Inv(Run(s, ttl, events))
  {
    if events != [] {
      AlwaysInv(s, ttl, events[..|events| - 1]);
      StepKeepsInv(Run(s, ttl, events[..|events| - 1]), ttl, events[|events| - 1]);
    }
  }

  /** In every reachable state a user has at most one live session and one access token that verifies. */
  lemma OneSessionOneToken(s: Auth, ttl: Ttl, events: seq<Event>, u: UserId)
    requires Start(s)
    ensures var t := Run(s, ttl, events);
            && (forall x, y :: Live(t, x) && Live(t, y) && t.sessions[x].user == t.sessions[y].user == u ==> x == y)
            && (forall a, b :: Verify(t, a) == Some(u) && Verify(t, b) == Some(u) ==> a == b)
  {
    AlwaysInv(s, ttl, events);
  }

  // ----- Who gets in

  /** When a login succeeds, and when each refusal is given; a refusal changes nothing. */
  lemma LoginAnswers(s: Auth, ttl: Ttl, u: UserId, passwordOk: bool, replace: bool, inviteOk: bool, d: Draw)
    ensures var (after, code) := LoggedIn(s, ttl, u, passwordOk, replace, inviteOk, d);
            var known, busy := u in s.users && passwordOk, HasLiveSession(s, u) && !replace;
            && (code == Ok <==> known && !busy && inviteOk)
            && (code == InvalidCredentials <==> !known)
            && (code == ActiveSessionExists <==> known && busy)
            && (code == InviteRejected <==> known && !busy && !inviteOk)
            && (code != Ok ==> after == s)
  {
  }

  /** In every reachable state: asked to replace nothing, a user gets in exactly if no refresh token of his works. */
  lemma LoginWithoutReplacing(s: Auth, ttl: Ttl, events: seq<Event>, u: UserId, d: Draw)
    requires Start(s) && u in Run(s, ttl, events).users
    ensures var t := Run(s, ttl, events);
            LoggedIn(t, ttl, u, true, false, true, d).1 == Ok
            <==> forall x :: x in t.sessions && t.sessions[x].user == u ==> !Accepts(t, t.sessions[x].refresh)
  {
    var t := Run(s, ttl, events);
    AlwaysInv(s, ttl, events);
    if x :| x in t.sessions && t.sessions[x].user == u && Live(t, x) {
      assert Opens(t, t.sessions[x].refresh, x) && Accepts(t, t.sessions[x].refresh);
    }
    forall x | x in t.sessions && t.sessions[x].user == u && Accepts(t, t.sessions[x].refresh)
      ensures HasLiveSession(t, u)
    {
      var y :| Opens(t, t.sessions[x].refresh, y) && Live(t, y);
      assert y == x;
    }
  }

  /** When a registration succeeds, and when each refusal is given; it adds the one user. */
  lemma RegistrationAnswers(s: Auth, ttl: Ttl, u: UserId, inviteOk: bool, taken: bool, d: Draw)
    ensures var (after, code) := Registered(s, ttl, u, inviteOk, taken, d);
            && (code == Ok <==> inviteOk && !taken)
            && (code == InviteRejected <==> !inviteOk)
            && (code == EmailTaken <==> inviteOk && taken)
            && (if code == Ok then after.users == s.users + {u} else after == s)
  {
  }

  /** A logout is accepted for every token in the table, whether it still verifies or not; otherwise nothing changes. */
  lemma LogoutAnswers(s: Auth, a: Token)
    ensures LoggedOut(s, a).1 <==> a in s.tokens
    ensures !LoggedOut(s, a).1 ==> LoggedOut(s, a).0 == s
  {
  }

  /** Whose account a step is about. */
  function About(s: Auth, ev: Event): Option<UserId> {
    match ev
    case Registering(u, _, _, _) => Some(u)
    case LoggingIn(u, _, _, _, _) => Some(u)
    case Refreshing(x, _, _) => if x in s.sessions then Some(s.sessions[x].user) else None
    case LoggingOut(a) => if a in s.tokens then Some(s.tokens[a].user) else None
    case Passing(_) => None
  }

  /** User `v` has the same sessions and the same access tokens in both. */
  ghost predicate SameFor(s: Auth, t: Auth, v: UserId) {
    && (forall x :: x in s.sessions && s.sessions[x].user == v ==> x in t.sessions && t.sessions[x] == s.sessions[x])
    && (forall x :: x in t.sessions && t.sessions[x].user == v ==> x in s.sessions && t.sessions[x] == s.sessions[x])
    && (forall a :: a in s.tokens && s.tokens[a].user == v ==> a in t.tokens && t.tokens[a] == s.tokens[a])
    && (forall a :: a in t.tokens && t.tokens[a].user == v ==> a in s.tokens && t.tokens[a] == s.tokens[a])
  }

  /** No step touches the sessions or tokens of anybody but the user it is about. */
  lemma OthersUndisturbed(s: Auth, ttl: Ttl, ev: Event, v: UserId)
    requires Inv(s) && About(s, ev) != Some(v)
    ensures SameFor(s, Step(s, ttl, ev), v)
    ensures !ev.Passing? ==> forall a :: Verify(Step(s, ttl, ev), a) == Some(v) <==> Verify(s, a) == Some(v)
  {
    var t := Step(s, ttl, ev);
    OthersKept(s, ttl, ev, v);
    UsersOnlyAdded(s, ttl, ev, v);
    forall a | a in s.tokens && s.tokens[a].user == v && !ev.Passing?
      ensures Verify(t, a) == Some(v) <==> Verify(s, a) == Some(v)
    {
      var x := s.tokens[a].session.value;
      assert x in s.sessions && s.sessions[x].user == v;
    }
  }

  lemma UsersOnlyAdded(s: Auth, ttl: Ttl, ev: Event, v: UserId)
    requires About(s, ev) != Some(v)
    ensures v in Step(s, ttl, ev).users <==> v in s.users
    ensures !ev.Passing? ==> Step(s, ttl, ev).now == s.now
  {
  }

  lemma OthersKept(s: Auth, ttl: Ttl, ev: Event, v: UserId)
    requires Inv(s) && About(s, ev) != Some(v)
    ensures SameFor(s, Step(s, ttl, ev), v)
  {
    if Enabled(s, ev) {
      match ev
      case Registering(u, inviteOk, taken, d) => RegisteredLeaves(s, ttl, u, inviteOk, taken, d, v);
      case LoggingIn(u, passwordOk, replace, inviteOk, d) =>
        LoggedInLeaves(s, ttl, u, passwordOk, replace, inviteOk, d, v);
      case Refreshing(x, r, d) => RefreshedLeaves(s, ttl, x, r, d, v);
      case LoggingOut(a) => LoggedOutLeaves(s, a, v);
      case Passing(_) =>
    }
  }

  lemma RegisteredLeaves(s: Auth, ttl: Ttl, u: UserId, inviteOk: bool, taken: bool, d: Draw, v: UserId)
    requires Inv(s) && Fresh(s, d) && u != v
    ensures SameFor(s, Registered(s, ttl, u, inviteOk, taken, d).0, v)
  {
  }

  lemma LoggedInLeaves(
    s: Auth, ttl: Ttl, u: UserId, passwordOk: bool, replace: bool, inviteOk: bool, d: Draw, v: UserId)
    requires Inv(s) && Fresh(s, d) && u != v
    ensures SameFor(s, LoggedIn(s, ttl, u, passwordOk, replace, inviteOk, d).0, v)
  {
    if LoggedIn(s, ttl, u, passwordOk, replace, inviteOk, d).1 == Ok {
      var cleared := if HasLiveSession(s, u) then Cleared(s, u) else s;
      ClearedLeaves(s, u, v);
      PairIssuedLeaves(cleared, ttl, u, d, v);
      SameForThrough(s, cleared, PairIssued(cleared, ttl, u, d), v);
    }
  }

  lemma ClearedLeaves(s: Auth, u: UserId, v: UserId)
    requires u != v
    ensures SameFor(s, Cleared(s, u), v)
  {
  }

  lemma SameForThrough(s: Auth, m: Auth, t: Auth, v: UserId)
    requires SameFor(s, m, v) && SameFor(m, t, v)
    ensures SameFor(s, t, v)
  {
  }

  lemma PairIssuedLeaves(s: Auth, ttl: Ttl, u: UserId, d: Draw, v: UserId)
    requires Fresh(s, d) && d.access !in s.tokens && u != v
    ensures SameFor(s, PairIssued(s, ttl, u, d), v)
  {
  }

  lemma RefreshedLeaves(s: Auth, ttl: Ttl, x: SessionId, r: Token, d: Draw, v: UserId)
    requires Inv(s) && Fresh(s, d) && (x in s.sessions ==> s.sessions[x].user != v)
    ensures SameFor(s, Refreshed(s, ttl, x, r, d).0, v)
  {
  }

  lemma LoggedOutLeaves(s: Auth, a: Token, v: UserId)
    requires Inv(s) && (a in s.tokens ==> s.tokens[a].user != v)
    ensures SameFor(s, LoggedOut(s, a).0, v)
  {
  }

  // ----- Tokens that work

  /** `Refresh` accepts `r`. */
  ghost predicate Accepts(s: Auth, r: Token) {
    exists x :: Opens(s, r, x) && Live(s, x)
  }

  function Later(s: Auth, time: nat): Auth {
    s.(now := s.now + time)
  }

  /** `time` after `s`, each token of `d` works for `u` exactly if its configured lifetime is not over. */
  ghost predicate WorkWhileFresh(s: Auth, ttl: Ttl, u: UserId, d: Draw, time: nat) {
    && (Verify(Later(s, time), d.access) == Some(u) <==> time < ttl.access && time < ttl.refresh)
    && (Accepts(Later(s, time), d.refresh) <==> time < ttl.refresh)
  }

  lemma IssuedWork(s: Auth, ttl: Ttl, u: UserId, x: SessionId, d: Draw, time: nat)
    requires RefreshDistinct(s) && u in s.users && d.access in s.tokens && x in s.sessions
    requires s.tokens[d.access] == Access(u, Some(x), s.now + ttl.access)
    requires s.sessions[x] == Session(u, d.refresh, s.now + ttl.refresh, None)
    ensures WorkWhileFresh(s, ttl, u, d, time)
  {
    if time < ttl.refresh {
      assert Opens(Later(s, time), d.refresh, x) && Live(Later(s, time), x);
    }
  }

  /** A new login hands out tokens that work, until they expire. */
  lemma LoginTokensWork(s: Auth, ttl: Ttl, u: UserId, replace: bool, inviteOk: bool, d: Draw, time: nat)
    requires Inv(s) && Fresh(s, d) && LoggedIn(s, ttl, u, true, replace, inviteOk, d).1 == Ok
    ensures WorkWhileFresh(LoggedIn(s, ttl, u, true, replace, inviteOk, d).0, ttl, u, d, time)
  {
    LoggedInKeepsInv(s, ttl, u, true, replace, inviteOk, d);
    IssuedWork(LoggedIn(s, ttl, u, true, replace, inviteOk, d).0, ttl, u, d.session, d, time);
  }

  /** So does a registration. */
  lemma RegistrationTokensWork(s: Auth, ttl: Ttl, u: UserId, d: Draw, time: nat)
    requires Inv(s) && Fresh(s, d) && u !in s.users
    ensures WorkWhileFresh(Registered(s, ttl, u, true, false, d).0, ttl, u, d, time)
  {
    RegisteredKeepsInv(s, ttl, u, true, false, d);
    IssuedWork(Registered(s, ttl, u, true, false, d).0, ttl, u, d.session, d, time);
  }

  /** So does a refresh, for the user of the session and with new lifetimes. */
  lemma RefreshedTokensWork(s: Auth, ttl: Ttl, x: SessionId, r: Token, d: Draw, time: nat)
    requires Inv(s) && Fresh(s, d) && Refreshed(s, ttl, x, r, d).1 == Ok
    ensures WorkWhileFresh(Refreshed(s, ttl, x, r, d).0, ttl, s.sessions[x].user, d, time)
  {
    RefreshedKeepsInv(s, ttl, x, r, d);
    IssuedWork(Refreshed(s, ttl, x, r, d).0, ttl, s.sessions[x].user, x, d, time);
  }

  // ----- Tokens that stop working stay dead

  /** A refresh succeeds exactly with the current token of a live session. */
  lemma RefreshAcceptsIff(s: Auth, ttl: Ttl, r: Token, d: Draw)
    requires Inv(s)
    ensures (exists x :: Refreshed(s, ttl, x, r, d).1 == Ok) <==> Accepts(s, r)
  {
    if x :| Opens(s, r, x) && Live(s, x) {
      assert Refreshed(s, ttl, x, r, d).1 == Ok;
    }
    if x :| Refreshed(s, ttl, x, r, d).1 == Ok {
      assert Opens(s, r, x) && Live(s, x);
    }
  }

  lemma StepKeepsIssued(s: Auth, ttl: Ttl, ev: Event)
    ensures s.issued <= Step(s, ttl, ev).issued && s.now <= Step(s, ttl, ev).now
  {
  }

  lemma StepKeepsDeadRefresh(s: Auth, ttl: Ttl, ev: Event, r: Token)
    requires Inv(s) && r in s.issued && !Accepts(s, r)
    ensures !Accepts(Step(s, ttl, ev), r)
  {
    var t := Step(s, ttl, ev);
    forall x ensures Opens(t, r, x) && Live(t, x) ==> Opens(s, r, x) && Live(s, x) {
    }
  }

  /** Once an issued refresh token is not accepted, it is never accepted again. */
  lemma {:induction false} DeadRefreshStaysDead(s: Auth, ttl: Ttl, events: seq<Event>, r: Token)
    requires Inv(s) && r in s.issued && !Accepts(s, r)
    ensures var t := Run(s, ttl, events);
            Inv(t) && r in t.issued && !Accepts(t, r)
  {
    if events != [] {
      var before, last := events[..|events| - 1], events[|events| - 1];
      DeadRefreshStaysDead(s, ttl, before, r);
      StepKeepsInv(Run(s, ttl, before), ttl, last);
      StepKeepsIssued(Run(s, ttl, before), ttl, last);
      StepKeepsDeadRefresh(Run(s, ttl, before), ttl, last, r);
    }
  }

  lemma StepKeepsDeadAccess(s: Auth, ttl: Ttl, ev: Event, a: Token)
    requires Inv(s) && a in s.issued && Verify(s, a).None?
    ensures Verify(Step(s, ttl, ev), a).None?
  {
  }

  /** Once an issued access token stops verifying, it never verifies again. */
  lemma {:induction false} DeadAccessStaysDead(s: Auth, ttl: Ttl, events: seq<Event>, a: Token)
    requires Inv(s) && a in s.issued && Verify(s, a).None?
    ensures var t := Run(s, ttl, events);
            Inv(t) && a in t.issued && Verify(t, a).None?
  {
    if events != [] {
      var before, last := events[..|events| - 1], events[|events| - 1];
      DeadAccessStaysDead(s, ttl, before, a);
      StepKeepsInv(Run(s, ttl, before), ttl, last);
      StepKeepsIssued(Run(s, ttl, before), ttl, last);
      StepKeepsDeadAccess(Run(s, ttl, before), ttl, last, a);
    }
  }

  /** A refresh token that has been used is spent for good, with the access token issued beside it. */
  lemma UsedRefreshIsSpent(s: Auth, ttl: Ttl, x: SessionId, r: Token, d: Draw, events: seq<Event>, a: Token)
    requires Inv(s) && Fresh(s, d) && Refreshed(s, ttl, x, r, d).1 == Ok
    ensures !Accepts(Run(Refreshed(s, ttl, x, r, d).0, ttl, events), r)
    ensures a in s.tokens && s.tokens[a].session == Some(x) ==>
              Verify(Run(Refreshed(s, ttl, x, r, d).0, ttl, events), a).None?
  {
    var t := Refreshed(s, ttl, x, r, d).0;
    RefreshedKeepsInv(s, ttl, x, r, d);
    assert r in t.issued;
    DeadRefreshStaysDead(t, ttl, events, r);
    if a in s.tokens && s.tokens[a].session == Some(x) {
      DeadAccessStaysDead(t, ttl, events, a);
    }
  }

  /** Logging out ends the access token and the refresh token of its session for good. */
  lemma LogoutEndsSession(s: Auth, ttl: Ttl, a: Token, events: seq<Event>)
    requires Inv(s) && a in s.tokens
    ensures var t := Run(LoggedOut(s, a).0, ttl, events);
            Verify(t, a).None? && !Accepts(t, s.sessions[s.tokens[a].session.value].refresh)
  {
    var t, x := LoggedOut(s, a).0, s.tokens[a].session.value;
    var r := s.sessions[x].refresh;
    LoggedOutKeepsInv(s, a);
    DeadRefreshStaysDead(t, ttl, events, r);
    DeadAccessStaysDead(t, ttl, events, a);
  }

  /** A successful login ends every earlier refresh and access token of that user for good. */
  lemma LoginEndsEarlierTokens(s: Auth, ttl: Ttl, u: UserId, replace: bool, inviteOk: bool, d: Draw,
                               events: seq<Event>, x: SessionId, a: Token)
    requires Inv(s) && Fresh(s, d) && LoggedIn(s, ttl, u, true, replace, inviteOk, d).1 == Ok
    requires x in s.sessions && s.sessions[x].user == u
    ensures var t := Run(LoggedIn(s, ttl, u, true, replace, inviteOk, d).0, ttl, events);
            && !Accepts(t, s.sessions[x].refresh)
            && (a in s.tokens && s.tokens[a].user == u ==> Verify(t, a).None?)
  {
    var t, r := LoggedIn(s, ttl, u, true, replace, inviteOk, d).0, s.sessions[x].refresh;
    LoggedInKeepsInv(s, ttl, u, true, replace, inviteOk, d);
    LoginDisablesEarlier(s, ttl, u, replace, inviteOk, d, x, a);
    DeadRefreshStaysDead(t, ttl, events, r);
    if a in s.tokens && s.tokens[a].user == u {
      DeadAccessStaysDead(t, ttl, events, a);
    }
  }

  lemma LoginDisablesEarlier(
    s: Auth, ttl: Ttl, u: UserId, replace: bool, inviteOk: bool, d: Draw, x: SessionId, a: Token)
    requires Inv(s) && Fresh(s, d) && LoggedIn(s, ttl, u, true, replace, inviteOk, d).1 == Ok
    requires x in s.sessions && s.sessions[x].user == u
    ensures var t := LoggedIn(s, ttl, u, true, replace, inviteOk, d).0;
            && s.sessions[x].refresh in t.issued && !Accepts(t, s.sessions[x].refresh)
            && (a in s.tokens && s.tokens[a].user == u ==> a in t.issued && Verify(t, a).None?)
  {
  }
}
