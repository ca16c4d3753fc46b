/** How long the tokens of one session work, and what failing calls leave behind, over whole runs of
    core/internal/auth/service_session.go and service_user.go, one request after another. */
module SessionTokens {
  import opened Sessions

  /** The time that passes in a run. */
  function Waited(events: seq<Event>): nat {
    if events == [] then 0 else (if events[0].Wait? then events[0].time else 0) + Waited(events[1..])
  }

  /** A login with the right password, or a refresh, whose store calls work. */
  predicate Issues(db: Db, e: Event, f: Supply, d: Durations) {
    match e
    case Login(_, password, supply, created) => password && created && supply == f && IsFresh(db, f)
    case Refresh(refresh, supply, created, deleted) =>
      supply == f && IsFresh(db, f) && SessionRefresh(db, refresh, f, d, created, deleted).1.Success?
    case _ => false
  }

  function IssuedTo(db: Db, e: Event): UserId
    requires e.Login? || (e.Refresh? && WithRefresh(db.sessions, e.refresh) < |db.sessions|)
  {
    if e.Login? then e.user else db.sessions[WithRefresh(db.sessions, e.refresh)].user
  }

  ghost predicate InTable(db: Db, token: Token) {
    exists s :: s in db.sessions && s.token == token
  }

  /** No session but s can ever have its tokens. */
  ghost predicate Sole(db: Db, s: Session) {
    && s.token in db.tokens && s.refresh in db.refreshes
    && forall x :: x in db.sessions && (x.token == s.token || x.refresh == s.refresh) ==> x == s
  }

  /** A step only removes sessions or adds one with new tokens. */
  ghost predicate Adds(db: Db, db': Db) {
    && db.tokens <= db'.tokens && db.refreshes <= db'.refreshes
    && forall s :: s in db'.sessions ==> s in db.sessions || (s.token !in db.tokens && s.refresh !in db.refreshes)
  }

  lemma CreateAdds(db: Db, user: UserId, f: Supply, d: Durations)
    requires Valid(db) && IsFresh(db, f)
    ensures Adds(db, Create(db, user, f, d)) && Valid(Create(db, user, f, d))
  {
    CreateQueue(db, user, f, d, user);
    RotateQueue(db.sessions, user, Cap(db, user, f), user);
    hide Rotate, Queue;
  }

  lemma StepAdds(db: Db, e: Event, d: Durations)
    requires Valid(db)
    ensures Adds(db, Apply(db, e, d))
  {
    hide Create, DeleteById, WithRefresh, IsFresh;
    match e {
      case Login(u, password, f, created) =>
        if IsFresh(db, f) { CreateAdds(db, u, f, d); }
      case Refresh(r, f, created, deleted) =>
        var i := WithRefresh(db.sessions, r);
        if IsFresh(db, f) && i < |db.sessions| {
          CreateAdds(db, db.sessions[i].user, f, d);
          DeleteGone(Create(db, db.sessions[i].user, f, d).sessions, db.sessions[i].id);
        }
      case LogoutCall(r, deleted) =>
        var i := WithRefresh(db.sessions, r);
        if i < |db.sessions| { DeleteGone(db.sessions, db.sessions[i].id); }
      case SetLimit(_, _) =>
      case Wait(_) =>
    }
  }

  lemma {:induction false} SoleStays(db: Db, events: seq<Event>, d: Durations, s: Session)
    requires Valid(db) && Sole(db, s)
    ensures Sole(Run(db, events, d), s) && Valid(Run(db, events, d))
    decreases |events|
  {
    hide Apply, Valid;
    if events != [] {
      StepAdds(db, events[0], d);
      StepKeepsValid(db, events[0], d);
      SoleStays(Apply(db, events[0], d), events[1..], d, s);
    }
  }

  lemma {:induction false} ClockRuns(db: Db, events: seq<Event>, d: Durations)
    ensures Run(db, events, d).now == db.now + Waited(events)
    decreases |events|
  {
    if events != [] {
      ClockStep(db, events[0], d);
      ClockRuns(Apply(db, events[0], d), events[1..], d);
    }
  }

  lemma ClockStep(db: Db, e: Event, d: Durations)
    ensures Apply(db, e, d).now == db.now + if e.Wait? then e.time else 0
  {
  }

  lemma IssuedSession(db: Db, e: Event, f: Supply, d: Durations) returns (s: Session)
    requires Valid(db) && Issues(db, e, f, d)
    ensures e.Login? || (e.Refresh? && WithRefresh(db.sessions, e.refresh) < |db.sessions|)
    ensures s == Session(db.next, IssuedTo(db, e), f.token, db.now + d.session, f.refresh, db.now + d.refresh, db.next)
    ensures Sole(Apply(db, e, d), s) && s in Apply(db, e, d).sessions && Valid(Apply(db, e, d))
  {
    hide Rotate, DeleteById, Queue;
    s := NewSession(db, IssuedTo(db, e), f, d);
    CreateSole(db, s.user, f, d);
    StepKeepsValid(db, e, d);
    if e.Refresh? {
      var i := WithRefresh(db.sessions, e.refresh);
      assert Known(db, db.sessions[i]);
      DeleteGone(Create(db, s.user, f, d).sessions, db.sessions[i].id);
    }
  }

  lemma CreateSole(db: Db, user: UserId, f: Supply, d: Durations)
    requires Valid(db) && IsFresh(db, f)
    ensures Sole(Create(db, user, f, d), NewSession(db, user, f, d))
    ensures NewSession(db, user, f, d) in Create(db, user, f, d).sessions
  {
    var s := NewSession(db, user, f, d);
    RotateQueue(db.sessions, user, Cap(db, user, f), user);
    hide Rotate, Queue;
    forall x | x in db.sessions ensures x.token != s.token && x.refresh != s.refresh {
      assert Known(db, x);
    }
    var db' := Create(db, user, f, d);
    assert db'.sessions[|db'.sessions| - 1] == s;
  }

  /** The lifetime of a session's two tokens. After a login or a refresh that succeeds, in every run that
      leaves its session in the table: the session token verifies, as that user's, exactly until the
      session duration has passed, and the refresh token refreshes exactly until the refresh duration has. */
  lemma TokenLifetime(db: Db, e: Event, f: Supply, d: Durations, events: seq<Event>, g: Supply)
    requires Valid(db) && Issues(db, e, f, d)
    requires InTable(Run(Apply(db, e, d), events, d), f.token)
    ensures var later := Run(Apply(db, e, d), events, d); var r := SessionVerifyToken(later, f.token);
      && (r.Success? <==> Waited(events) <= d.session)
      && (r.Success? ==> r.session.user == IssuedTo(db, e))
      && (SessionRefresh(later, f.refresh, g, d, true, true).1.Success? <==> Waited(events) <= d.refresh)
  {
    var s := IssuedSession(db, e, f, d);
    var db1 := Apply(db, e, d);
    var later := Run(db1, events, d);
    hide Run, Issues, Rotate, DeleteById, Queue;
    ClockStep(db, e, d);
    ClockRuns(db1, events, d);
    SoleStays(db1, events, d, s);
    hide Apply;
    assert s in later.sessions;
    TokensWorkExactly(later, s, g, d);
  }

  /** Right after it succeeds the session is in the table. */
  lemma IssuedIsThere(db: Db, e: Event, f: Supply, d: Durations)
    requires Valid(db) && Issues(db, e, f, d)
    ensures InTable(Apply(db, e, d), f.token)
  {
    var s := IssuedSession(db, e, f, d);
  }

  // ---- limits ----

  /** A new limit holds from the call on, for that user only. */
  lemma LimitTakesEffect(db: Db, user: UserId, k: nat, events: seq<Event>, d: Durations)
    requires Valid(db) && k > 0
    requires forall e :: e in events ==> KeepsLimit(e, user) && Evicts(e)
    ensures var db1 := Apply(db, SetLimit(user, k), d);
      var n := |Queue(db.sessions, user)|; var n' := |Queue(Run(db1, events, d).sessions, user)|;
      && db1.sessions == db.sessions
      && (if n <= k then n' <= k else n' <= n)
      && forall other :: other != user ==> LimitOf(db1, other) == LimitOf(db, other)
  {
    var db1 := Apply(db, SetLimit(user, k), d);
    StepKeepsValid(db, SetLimit(user, k), d);
    RunBounds(db1, events, d, user);
  }

  /** A user whose limit was never changed has at most three sessions. */
  lemma DefaultLimit(db: Db, user: UserId, events: seq<Event>, d: Durations)
    requires Valid(db) && user !in db.limits && |Queue(db.sessions, user)| <= 3
    requires forall e :: e in events ==> KeepsLimit(e, user) && Evicts(e)
    ensures |Queue(Run(db, events, d).sessions, user)| <= 3
  {
    RunBounds(db, events, d, user);
  }

  /** And exactly three: a login with fewer evicts nothing. */
  lemma BelowDefaultLimit(db: Db, user: UserId, f: Supply, d: Durations)
    requires Valid(db) && IsFresh(db, f) && user !in db.limits
    ensures var n := |Queue(db.sessions, user)|; var n' := |Queue(Apply(db, Login(user, true, f, true), d).sessions, user)|;
      n' == if n < 3 || !f.evicts then n + 1 else n
  {
    CreateQueue(db, user, f, d, user);
  }

  /** With a limit of 0 no login evicts anything. */
  lemma NoLimit(db: Db, user: UserId, f: Supply, d: Durations)
    requires Valid(db) && IsFresh(db, f)
    ensures var db1 := Apply(db, SetLimit(user, 0), d); var db' := Apply(db1, Login(user, true, f, true), d);
      (forall s :: s in db.sessions ==> s in db'.sessions)
      && |Queue(db'.sessions, user)| == |Queue(db.sessions, user)| + 1
  {
    var db1 := Apply(db, SetLimit(user, 0), d);
    StepKeepsValid(db, SetLimit(user, 0), d);
    CreateQueue(db1, user, f, d, user);
  }

  // ---- calls that fail ----

  /** The session is the one a creation by its user evicts. */
  predicate Evicted(db: Db, s: Session, f: Supply) {
    var q := Queue(db.sessions, s.user);
    f.evicts && 0 < LimitOf(db, s.user) <= |q| && q[0] == s
  }

  lemma EvictedIsGone(db: Db, s: Session, f: Supply, d: Durations)
    requires Valid(db) && IsFresh(db, f) && s in db.sessions
    ensures s in Create(db, s.user, f, d).sessions <==> !Evicted(db, s, f)
  {
    var q := Queue(db.sessions, s.user);
    var new' := NewSession(db, s.user, f, d);
    CreateQueue(db, s.user, f, d, s.user);
    hide Rotate, Queue, Create;
    InQueue(db.sessions, s.user, s);
    InQueue(Create(db, s.user, f, d).sessions, s.user, s);
    QueueOrdered(db.sessions, s.user);
    assert Known(db, s);
    assert Pushed(q, new', Cap(db, s.user, f)) == if Cap(db, s.user, f) > 0 && |q| >= Cap(db, s.user, f) then q[1..] + [new'] else q + [new'];
    forall j | 0 < j < |q| ensures q[j] != q[0] { assert Before(q[0], q[j]); }
  }

  /** A refresh that fails before its insert changes nothing. One whose delete fails reports an error,
      yet its new session is there and works; the old one is there too exactly if it was not evicted. */
  lemma RefreshFailures(db: Db, s: Session, f: Supply, d: Durations, created: bool, deleted: bool)
    requires Valid(db) && IsFresh(db, f) && s in db.sessions
    ensures var (db', r) := SessionRefresh(db, s.refresh, f, d, created, deleted);
      if db.now > s.refreshExpiry then db' == db && r == Failed(Expired)
      else if !created then db' == db && r == Failed(StoreFailed)
      else if !deleted then r == Failed(StoreFailed) && SessionVerifyToken(db', f.token).Success?
        && (s in db'.sessions <==> !Evicted(db, s, f))
      else r.Success? && InTable(db', f.token) && !InTable(db', s.token)
  {
    var n :| 0 <= n < |db.sessions| && db.sessions[n] == s;
    FoundAt(db.sessions, n);
    if db.now <= s.refreshExpiry && created {
      if deleted {
        OldTokensAreDead(db, s.refresh, f, d);
        IssuedIsThere(db, Refresh(s.refresh, f, true, true), f, d);
      } else {
        CreatedWorks(db, s.user, f, d);
        EvictedIsGone(db, s, f, d);
      }
    }
  }

  lemma CreatedWorks(db: Db, user: UserId, f: Supply, d: Durations)
    requires Valid(db) && IsFresh(db, f)
    ensures SessionVerifyToken(Create(db, user, f, d), f.token).Success?
  {
    CreateSole(db, user, f, d);
    CreateQueue(db, user, f, d, user);
    TokensWorkExactly(Create(db, user, f, d), NewSession(db, user, f, d), f, d);
  }

  /** A logout whose delete fails, or of a token nobody holds, changes nothing. */
  lemma LogoutFailures(db: Db, refresh: Token)
    ensures Logout(db, refresh, false) == db
    ensures (forall s :: s in db.sessions ==> s.refresh != refresh) ==> Logout(db, refresh, true) == db
  {
    var i := WithRefresh(db.sessions, refresh);
    assert i < |db.sessions| ==> db.sessions[i] in db.sessions;
  }
}
