/** The session store and service as an object that changes its table in place, one store call after
    another. Queries are the functions of Sessions; each method does to the table what the function of
    its name there does. */
module AuthService {
  import opened Sessions

  class Service {
    var sessions: seq<Session>
    var next: nat
    var now: int
    var limits: map<UserId, nat>
    ghost var tokens: set<Token>
    ghost var refreshes: set<Token>
    const durations: Durations

    ghost function State(): Db
      reads this
    {
      Db(sessions, next, now, limits, tokens, refreshes)
    }

    constructor (durations: Durations, now: int)
      ensures State() == Db([], 0, now, map[], {}, {}) && this.durations == durations
    {
      this.durations, this.now := durations, now;
      sessions, next, limits, tokens, refreshes := [], 0, map[], {}, {};
    }

    /** The transaction: rotate, then insert; a failure rolls both back. */
    method NewSessionAutoRotating(s: Session, maxSessions: nat, evicts: bool, succeeds: bool) returns (ok: bool)
      modifies this`sessions
      ensures ok == succeeds
      ensures sessions == if succeeds then Rotate(old(sessions), s.user, if evicts then maxSessions else 0) + [s] else old(sessions)
    {
      ok := succeeds;
      if !succeeds { return; }
      if maxSessions > 0 {
        var count := |Queue(sessions, s.user)|;
        if count >= maxSessions {
          var oldest := OldestOf(sessions, s.user);
          if oldest < |sessions| && evicts {
            sessions := sessions[..oldest] + sessions[oldest + 1..];
          }
        }
      }
      sessions := sessions + [s];
    }

    method DeleteSessionByID(id: nat, succeeds: bool) returns (ok: bool)
      modifies this`sessions
      ensures ok == succeeds && sessions == if succeeds then DeleteById(old(sessions), id) else old(sessions)
    {
      ok := succeeds;
      if succeeds { sessions := DeleteById(sessions, id); }
    }

    method SessionCreate(user: UserId, f: Supply, succeeds: bool) returns (r: Result)
      modifies this`sessions, this`next, this`tokens, this`refreshes
      ensures succeeds ==> State() == Create(old(State()), user, f, durations) && r == Success(NewSession(old(State()), user, f, durations))
      ensures succeeds ==> r.session in sessions && r.session.user == user
      ensures succeeds ==> r.session.token == f.token && r.session.tokenExpiry == old(now) + durations.session
      ensures succeeds ==> r.session.refresh == f.refresh && r.session.refreshExpiry == old(now) + durations.refresh
      ensures !succeeds ==> State() == old(State()) && r == Failed(StoreFailed)
    {
      hide Rotate;
      var s := Session(next, user, f.token, now + durations.session, f.refresh, now + durations.refresh, next);
      var max := if user in limits then limits[user] else DEFAULT_LIMIT;
      var ok := NewSessionAutoRotating(s, max, f.evicts, succeeds);
      if !ok { return Failed(StoreFailed); }
      next := next + 1;
      tokens, refreshes := tokens + {f.token}, refreshes + {f.refresh};
      assert sessions[|sessions| - 1] == s;
      r := Success(s);
    }

    method Refresh(refresh: Token, f: Supply, created: bool, deleted: bool) returns (r: Result)
      modifies this`sessions, this`next, this`tokens, this`refreshes
      ensures (State(), r) == SessionRefresh(old(State()), refresh, f, durations, created, deleted)
    {
      var i := WithRefresh(sessions, refresh);
      if i == |sessions| { return Failed(NotFound); }
      var current := sessions[i];
      if now > current.refreshExpiry { return Failed(Expired); }
      r := SessionCreate(current.user, f, created);
      if r.Failed? { return; }
      var ok := DeleteSessionByID(current.id, deleted);
      if !ok { return Failed(StoreFailed); }
    }

    method Logout(refresh: Token, deleted: bool) returns (ok: bool)
      modifies this`sessions
      ensures State() == Sessions.Logout(old(State()), refresh, deleted)
      ensures ok <==> deleted && exists s :: s in old(sessions) && s.refresh == refresh
    {
      var i := WithRefresh(sessions, refresh);
      if i == |sessions| { return false; }
      assert sessions[i] in sessions;
      ok := DeleteSessionByID(sessions[i].id, deleted);
    }

    method SessionVerifyToken(token: Token) returns (r: Result)
      ensures r == Sessions.SessionVerifyToken(State(), token)
    {
      var i := WithToken(sessions, token);
      if i == |sessions| { return Failed(NotFound); }
      r := if now > sessions[i].tokenExpiry then Failed(Expired) else Success(sessions[i]);
    }

    method Login(user: UserId, password: bool, f: Supply, succeeds: bool) returns (r: Result)
      modifies this`sessions, this`next, this`tokens, this`refreshes
      ensures IsFresh(old(State()), f) ==> State() == Apply(old(State()), Event.Login(user, password, f, succeeds), durations)
      ensures !password ==> r == Failed(BadCredentials) && State() == old(State())
      ensures password && succeeds ==> r == Success(NewSession(old(State()), user, f, durations)) && r.session in sessions
      ensures password && !succeeds ==> r == Failed(StoreFailed) && State() == old(State())
    {
      if !password { return Failed(BadCredentials); }
      r := SessionCreate(user, f, succeeds);
    }

    method UpdateUserSessionLimit(user: UserId, limit: nat, succeeds: bool) returns (ok: bool)
      modifies this`limits
      ensures ok == succeeds
      ensures State() == if ok then Apply(old(State()), SetLimit(user, limit), durations) else old(State())
    {
      ok := succeeds;
      if succeeds { limits := limits[user := limit]; }
    }
  }
}
