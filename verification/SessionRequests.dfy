/** Login, refresh and logout as concurrent requests (core/internal/auth/service_session.go): each is a
    few store calls, and other requests run between them. A run is any sequence of steps; a step whose
    request is not at that point, or whose tokens are not new, does nothing. Sessions speaks of one
    request after another; AloneIsRefresh ties the two together. */
module SessionRequests {
  import opened Sessions

  /** A request between two store calls. current is the row it looked up, max the user's limit it read
      along with it. Refreshed is a refresh that returned its new session, Ended every other end. */
  datatype Request =
    | LoggingIn(user: UserId, max: nat)
    | Found(current: Session, max: nat)
    | Checked(current: Session, max: nat)
    | Created(current: Session, created: Session)
    | LoggingOut(id: nat)
    | Refreshed(current: Session, created: Session)
    | Ended

  datatype State = State(db: Db, requests: seq<Request>)

  datatype Step =
    | GetUser(user: UserId) | CreateSession(r: nat, supply: Supply, ok: bool)
    | LookUp(refresh: Token) | CheckExpiry(r: nat) | CreateNext(r: nat, supply: Supply, ok: bool) | DeleteLast(r: nat, ok: bool)
    | LookUpLogout(refresh: Token) | DeleteIt(r: nat, ok: bool)
    | ChangeLimit(user: UserId, limit: nat) | Pass(time: nat)

  function At(s: State, r: nat): Request {
    if r < |s.requests| then s.requests[r] else Ended
  }

  function Begin(s: State, p: Request): State {
    s.(requests := s.requests + [p])
  }

  function Move(s: State, r: nat, p: Request, db: Db): State {
    if r < |s.requests| then State(db, s.requests[r := p]) else s
  }

  function Take(s: State, e: Step, d: Durations): State {
    match e
    case GetUser(user) => Begin(s, LoggingIn(user, LimitOf(s.db, user)))
    case CreateSession(r, f, ok) =>
      if !At(s, r).LoggingIn? || !IsFresh(s.db, f) then s
      else Move(s, r, Ended, if ok then CreateWith(s.db, At(s, r).user, At(s, r).max, f, d) else s.db)
    case LookUp(refresh) =>
      var i := WithRefresh(s.db.sessions, refresh);
      if i == |s.db.sessions| then Begin(s, Ended)
      else Begin(s, Found(s.db.sessions[i], LimitOf(s.db, s.db.sessions[i].user)))
    case CheckExpiry(r) =>
      if !At(s, r).Found? then s
      else Move(s, r, if s.db.now > At(s, r).current.refreshExpiry then Ended else Checked(At(s, r).current, At(s, r).max), s.db)
    case CreateNext(r, f, ok) =>
      if !At(s, r).Checked? || !IsFresh(s.db, f) then s
      else if !ok then Move(s, r, Ended, s.db)
      else
        var p := At(s, r);
        Move(s, r, Created(p.current, NewSession(s.db, p.current.user, f, d)), CreateWith(s.db, p.current.user, p.max, f, d))
    case DeleteLast(r, ok) =>
      if !At(s, r).Created? then s
      else if !ok then Move(s, r, Ended, s.db)
      else
        var p := At(s, r);
        Move(s, r, Refreshed(p.current, p.created), s.db.(sessions := DeleteById(s.db.sessions, p.current.id)))
    case LookUpLogout(refresh) =>
      var i := WithRefresh(s.db.sessions, refresh);
      Begin(s, if i == |s.db.sessions| then Ended else LoggingOut(s.db.sessions[i].id))
    case DeleteIt(r, ok) =>
      if !At(s, r).LoggingOut? then s
      else Move(s, r, Ended, if ok then s.db.(sessions := DeleteById(s.db.sessions, At(s, r).id)) else s.db)
    case ChangeLimit(user, limit) => s.(db := s.db.(limits := s.db.limits[user := limit]))
    case Pass(time) => s.(db := s.db.(now := s.db.now + time))
  }

  function After(s: State, steps: seq<Step>, d: Durations): State
    decreases |steps|
  {
    if steps == [] then s else Take(After(s, steps[..|steps| - 1], d), steps[|steps| - 1], d)
  }

  // ---- what every step keeps ----

  /** The request has looked the token up and is not through with it. */
  predicate Holds(p: Request, refresh: Token) {
    (p.Found? || p.Checked? || p.Created?) && p.current.refresh == refresh
  }

  predicate Won(p: Request, refresh: Token) {
    p.Refreshed? && p.current.refresh == refresh
  }

  /** A copy of a session: issued earlier, and the only session of that token there can be. */
  ghost predicate CopyOf(db: Db, current: Session) {
    && current.id < db.next && current.refresh in db.refreshes && current.token in db.tokens
    && (forall s :: s in db.sessions && (s.refresh == current.refresh || s.token == current.token || s.id == current.id) ==> s == current)
  }

  ghost predicate Sane(db: Db, p: Request) {
    match p
    case Found(current, _) => CopyOf(db, current)
    case Checked(current, _) => CopyOf(db, current)
    case Created(current, _) => CopyOf(db, current)
    case Refreshed(current, _) => CopyOf(db, current) && current !in db.sessions
    case _ => true
  }

  ghost predicate Safe(s: State) {
    Valid(s.db) && forall r :: Sane(s.db, At(s, r))
  }

  /** From db to db' sessions only went away, or new ones came with new ids and tokens. */
  ghost predicate Grown(db: Db, db': Db) {
    && db.next <= db'.next && db.tokens <= db'.tokens && db.refreshes <= db'.refreshes
    && (forall s :: s in db'.sessions ==> s in db.sessions || (s.id >= db.next && s.token !in db.tokens && s.refresh !in db.refreshes))
  }

  lemma SaneLater(db: Db, db': Db, p: Request)
    requires Sane(db, p) && Grown(db, db')
    ensures Sane(db', p)
  {
  }

  lemma CreateGrows(db: Db, user: UserId, max: nat, f: Supply, d: Durations)
    requires Valid(db) && IsFresh(db, f)
    ensures Valid(CreateWith(db, user, max, f, d)) && Grown(db, CreateWith(db, user, max, f, d))
  {
    CreateWithQueue(db, user, max, f, d, user);
    hide Rotate;
    var db' := CreateWith(db, user, max, f, d);
    forall s | s in db'.sessions ensures s in db.sessions || s == NewSession(db, user, f, d) {
      assert s in db.sessions + [NewSession(db, user, f, d)];
    }
  }

  lemma DeleteShrinks(db: Db, id: nat)
    requires Valid(db)
    ensures var db' := db.(sessions := DeleteById(db.sessions, id));
      Valid(db') && Grown(db, db') && forall s :: s in db'.sessions ==> s.id != id
  {
    DeleteAnyKeepsValid(db, id);
    DeleteGone(db.sessions, id);
  }

  lemma InTableIsCopy(db: Db, i: nat)
    requires Valid(db) && i < |db.sessions|
    ensures CopyOf(db, db.sessions[i])
  {
    assert Known(db, db.sessions[i]);
    forall s | s in db.sessions && s != db.sessions[i]
      ensures s.refresh != db.sessions[i].refresh && s.token != db.sessions[i].token && s.id != db.sessions[i].id
    {
      var j :| 0 <= j < |db.sessions| && db.sessions[j] == s;
      assert j < i ==> Before(db.sessions[j], db.sessions[i]);
      assert i < j ==> Before(db.sessions[i], db.sessions[j]);
    }
  }

  lemma MoveKeepsSafe(s: State, r: nat, p: Request, db: Db)
    requires Safe(s) && Valid(db) && Grown(s.db, db) && Sane(db, p)
    ensures Safe(Move(s, r, p, db))
  {
    forall q ensures Sane(Move(s, r, p, db).db, At(Move(s, r, p, db), q)) {
      assert Sane(s.db, At(s, q));
      SaneLater(s.db, db, At(s, q));
    }
  }

  lemma BeginKeepsSafe(s: State, p: Request)
    requires Safe(s) && Sane(s.db, p)
    ensures Safe(Begin(s, p))
  {
    forall q ensures Sane(s.db, At(Begin(s, p), q)) {
      assert Sane(s.db, At(s, q));
    }
  }

  lemma StepKeepsSafe(s: State, e: Step, d: Durations)
    requires Safe(s)
    ensures Safe(Take(s, e, d)) && Grown(s.db, Take(s, e, d).db)
  {
    hide Safe, CreateWith, DeleteById, CopyOf, Valid, WithRefresh;
    SafeIsValid(s);
    match e {
      case GetUser(user) => BeginKeepsSafe(s, Take(s, e, d).requests[|s.requests|]);
      case CreateSession(r, f, ok) =>
        if IsFresh(s.db, f) && At(s, r).LoggingIn? {
          CreateGrows(s.db, At(s, r).user, At(s, r).max, f, d);
          MoveKeepsSafe(s, r, Ended, if ok then CreateWith(s.db, At(s, r).user, At(s, r).max, f, d) else s.db);
        }
      case LookUp(refresh) =>
        var i := WithRefresh(s.db.sessions, refresh);
        if i < |s.db.sessions| { InTableIsCopy(s.db, i); }
        BeginKeepsSafe(s, Take(s, e, d).requests[|s.requests|]);
      case CheckExpiry(r) =>
        assert Sane(s.db, At(s, r));
        if At(s, r).Found? { MoveKeepsSafe(s, r, At(Take(s, e, d), r), s.db); }
      case CreateNext(r, f, ok) =>
        assert Sane(s.db, At(s, r));
        if IsFresh(s.db, f) && At(s, r).Checked? { CreateNextKeepsSafe(s, r, f, ok, d); }
      case DeleteLast(r, ok) =>
        if At(s, r).Created? { DeleteLastKeepsSafe(s, r, ok); }
      case LookUpLogout(refresh) => BeginKeepsSafe(s, Take(s, e, d).requests[|s.requests|]);
      case DeleteIt(r, ok) =>
        if At(s, r).LoggingOut? {
          DeleteShrinks(s.db, At(s, r).id);
          MoveKeepsSafe(s, r, Ended, if ok then s.db.(sessions := DeleteById(s.db.sessions, At(s, r).id)) else s.db);
        }
      case ChangeLimit(_, _) => SettingsKeepSafe(s, Take(s, e, d).db);
      case Pass(_) => SettingsKeepSafe(s, Take(s, e, d).db);
    }
  }

  lemma SafeIsValid(s: State)
    requires Safe(s)
    ensures Valid(s.db) && (forall r :: Sane(s.db, At(s, r))) && Grown(s.db, s.db)
  {
  }

  lemma CreateNextKeepsSafe(s: State, r: nat, f: Supply, ok: bool, d: Durations)
    requires Safe(s) && At(s, r).Checked? && IsFresh(s.db, f)
    ensures Safe(Take(s, CreateNext(r, f, ok), d)) && Grown(s.db, Take(s, CreateNext(r, f, ok), d).db)
  {
    hide CreateWith, CopyOf;
    var p := At(s, r);
    assert Sane(s.db, p);
    var db' := CreateWith(s.db, p.current.user, p.max, f, d);
    CreateGrows(s.db, p.current.user, p.max, f, d);
    SaneLater(s.db, db', p);
    if ok {
      MoveKeepsSafe(s, r, Created(p.current, NewSession(s.db, p.current.user, f, d)), db');
    } else {
      MoveKeepsSafe(s, r, Ended, s.db);
    }
  }

  lemma DeleteLastKeepsSafe(s: State, r: nat, ok: bool)
    requires Safe(s) && At(s, r).Created?
    ensures forall d :: Safe(Take(s, DeleteLast(r, ok), d)) && Grown(s.db, Take(s, DeleteLast(r, ok), d).db)
  {
    hide DeleteById;
    var p := At(s, r);
    assert Sane(s.db, p);
    var db' := s.db.(sessions := DeleteById(s.db.sessions, p.current.id));
    DeleteShrinks(s.db, p.current.id);
    SaneLater(s.db, db', p);
    if ok {
      MoveKeepsSafe(s, r, Refreshed(p.current, p.created), db');
    } else {
      MoveKeepsSafe(s, r, Ended, s.db);
    }
  }

  lemma SettingsKeepSafe(s: State, db: Db)
    requires Safe(s) && db == s.db.(limits := db.limits, now := db.now)
    ensures Safe(s.(db := db)) && Grown(s.db, db)
  {
    assert forall x :: Known(db, x) == Known(s.db, x);
    forall r ensures Sane(db, At(s.(db := db), r)) {
      assert Sane(s.db, At(s, r));
      SaneLater(s.db, db, At(s, r));
    }
  }

  /** Every run of overlapping requests keeps the table in creation order with unique tokens, and a
      refresh that has succeeded leaves no session with its old tokens, ever. */
  lemma {:induction false} RequestsKeepSafe(s: State, steps: seq<Step>, d: Durations)
    requires Safe(s)
    ensures Safe(After(s, steps, d))
    decreases |steps|
  {
    if steps != [] {
      RequestsKeepSafe(s, steps[..|steps| - 1], d);
      StepKeepsSafe(After(s, steps[..|steps| - 1], d), steps[|steps| - 1], d);
    }
  }

  // ---- two successes need an overlap ----

  ghost predicate Overlap(s: State, steps: seq<Step>, d: Durations, refresh: Token, t: nat, u: nat) {
    exists n :: 0 <= n <= |steps| && BothHold(After(s, steps[..n], d), refresh, t, u)
  }

  predicate BothHold(s: State, refresh: Token, t: nat, u: nat) {
    Holds(At(s, t), refresh) && Holds(At(s, u), refresh)
  }

  predicate Involved(p: Request, refresh: Token) {
    Holds(p, refresh) || Won(p, refresh)
  }

  /** A request gets involved by a lookup that finds the token, so while nobody has succeeded with it. */
  lemma InvolvedBefore(s: State, e: Step, d: Durations, refresh: Token, t: nat, u: nat)
    requires Safe(s) && t != u
    requires Involved(At(Take(s, e, d), t), refresh) && Involved(At(Take(s, e, d), u), refresh)
    ensures (Involved(At(s, t), refresh) && Involved(At(s, u), refresh)) || BothHold(Take(s, e, d), refresh, t, u)
  {
    hide CreateWith, DeleteById, Valid, CopyOf;
    if e.LookUp? {
      var i := WithRefresh(s.db.sessions, e.refresh);
      assert Sane(s.db, At(s, t)) && Sane(s.db, At(s, u));
      if i < |s.db.sessions| {
        NotWon(s.db, At(s, t), i);
        NotWon(s.db, At(s, u), i);
      }
    }
  }

  lemma NotWon(db: Db, p: Request, i: nat)
    requires Sane(db, p) && i < |db.sessions|
    ensures !Won(p, db.sessions[i].refresh)
  {
    assert db.sessions[i] in db.sessions;
  }

  lemma {:induction false} InvolvedOverlap(s: State, steps: seq<Step>, d: Durations, refresh: Token, t: nat, u: nat)
    requires Safe(s) && s.requests == [] && t != u
    requires Involved(At(After(s, steps, d), t), refresh) && Involved(At(After(s, steps, d), u), refresh)
    ensures Overlap(s, steps, d, refresh, t, u)
    decreases |steps|
  {
    hide Take, Safe;
    if steps != [] {
      var front := steps[..|steps| - 1];
      var last := steps[|steps| - 1];
      RequestsKeepSafe(s, front, d);
      InvolvedBefore(After(s, front, d), last, d, refresh, t, u);
      if BothHold(After(s, steps, d), refresh, t, u) {
        assert steps[..|steps|] == steps;
      } else {
        InvolvedOverlap(s, front, d, refresh, t, u);
        var n :| 0 <= n <= |front| && BothHold(After(s, front[..n], d), refresh, t, u);
        assert steps[..n] == front[..n];
      }
    }
  }

  /** If two refreshes succeed with one token, then at some moment both had looked it up and neither
      was through. So a token works once in every run in which no other refresh looks it up between a
      successful refresh's lookup and that refresh's delete. */
  lemma TwoSuccessesOverlap(s: State, steps: seq<Step>, d: Durations, refresh: Token, t: nat, u: nat)
    requires Safe(s) && s.requests == [] && t != u
    requires Won(At(After(s, steps, d), t), refresh) && Won(At(After(s, steps, d), u), refresh)
    ensures Overlap(s, steps, d, refresh, t, u)
  {
    InvolvedOverlap(s, steps, d, refresh, t, u);
  }

  // ---- and an overlap is enough ----

  /** The request holds the token and can still succeed. */
  predicate CanWin(s: State, r: nat, refresh: Token) {
    Holds(At(s, r), refresh) && (At(s, r).Found? ==> s.db.now <= At(s, r).current.refreshExpiry)
  }

  /** What request r still has to do. */
  function Rest(s: State, r: nat, f: Supply): seq<Step> {
    match At(s, r)
    case Found(_, _) => [CheckExpiry(r), CreateNext(r, f, true), DeleteLast(r, true)]
    case Checked(_, _) => [CreateNext(r, f, true), DeleteLast(r, true)]
    case _ => [DeleteLast(r, true)]
  }

  lemma {:induction false} AfterCompose(s: State, a: seq<Step>, b: seq<Step>, d: Durations)
    ensures After(s, a + b, d) == After(After(s, a, d), b, d)
    decreases |b|
  {
    if b == [] {
      assert a + b == a;
    } else {
      var front := b[..|b| - 1];
      assert (a + b)[..|a + b| - 1] == a + front;
      AfterCompose(s, a, front, d);
    }
  }

  lemma AfterOne(s: State, e: Step, d: Durations)
    ensures After(s, [e], d) == Take(s, e, d)
  {
    assert [e][..0] == [];
  }

  /** What finishing r does to another request and to the tokens issued. */
  ghost predicate Aside(s: State, s': State, r: nat) {
    && |s'.requests| == |s.requests| && s'.db.now == s.db.now
    && (forall q :: q != r ==> At(s', q) == At(s, q))
  }

  lemma CreateThenWins(s: State, r: nat, f: Supply, d: Durations)
    requires At(s, r).Checked? && IsFresh(s.db, f)
    ensures var s' := After(s, [CreateNext(r, f, true), DeleteLast(r, true)], d);
      && Won(At(s', r), At(s, r).current.refresh) && Aside(s, s', r)
      && s'.db.tokens == s.db.tokens + {f.token} && s'.db.refreshes == s.db.refreshes + {f.refresh}
  {
    hide Rotate, DeleteById;
    var e1: Step, e2: Step := CreateNext(r, f, true), DeleteLast(r, true);
    var s1 := Take(s, e1, d);
    AfterOne(s, e1, d);
    AfterOne(s1, e2, d);
    AfterCompose(s, [e1], [e2], d);
    assert [e1] + [e2] == [e1, e2];
  }

  lemma RestWins(s: State, r: nat, f: Supply, d: Durations, refresh: Token)
    requires CanWin(s, r, refresh) && IsFresh(s.db, f)
    ensures var s' := After(s, Rest(s, r, f), d);
      && Won(At(s', r), refresh) && Aside(s, s', r)
      && s'.db.tokens <= s.db.tokens + {f.token} && s'.db.refreshes <= s.db.refreshes + {f.refresh}
  {
    if At(s, r).Created? {
      AfterOne(s, DeleteLast(r, true), d);
    } else if At(s, r).Checked? {
      CreateThenWins(s, r, f, d);
    } else {
      var s1 := Take(s, CheckExpiry(r), d);
      AfterOne(s, CheckExpiry(r), d);
      CreateThenWins(s1, r, f, d);
      AfterCompose(s, [CheckExpiry(r)], [CreateNext(r, f, true), DeleteLast(r, true)], d);
      assert [CheckExpiry(r)] + [CreateNext(r, f, true), DeleteLast(r, true)] == Rest(s, r, f);
    }
  }

  /** From every state in which two requests hold one token that has not expired, both can succeed. */
  lemma OverlapSucceedsTwice(s: State, d: Durations, refresh: Token, t: nat, u: nat, f: Supply, g: Supply)
    requires t != u && CanWin(s, t, refresh) && CanWin(s, u, refresh)
    requires IsFresh(s.db, f) && IsFresh(s.db, g) && f.token != g.token && f.refresh != g.refresh
    ensures var s' := After(s, Rest(s, t, f) + Rest(s, u, g), d);
      Won(At(s', t), refresh) && Won(At(s', u), refresh)
  {
    hide After, Rest;
    RestWins(s, t, f, d, refresh);
    var s1 := After(s, Rest(s, t, f), d);
    RestWins(s1, u, g, d, refresh);
    assert Rest(s1, u, g) == Rest(s, u, g) by { SameRest(s, s1, u, g); }
    AfterCompose(s, Rest(s, t, f), Rest(s, u, g), d);
  }

  lemma SameRest(s: State, s': State, r: nat, f: Supply)
    requires At(s, r) == At(s', r)
    ensures Rest(s, r, f) == Rest(s', r, f)
  {
  }

  // ---- exactly when a token works once ----

  /** After these steps request u has succeeded with the token. */
  predicate Succeeds(s: State, steps: seq<Step>, d: Durations, refresh: Token, u: nat) {
    Won(At(After(s, steps, d), u), refresh)
  }

  /** No request but t has succeeded with the token or can. */
  ghost predicate Settled(s: State, refresh: Token, t: nat) {
    && refresh in s.db.refreshes && (forall x :: x in s.db.sessions ==> x.refresh != refresh)
    && (forall u :: u != t ==> !Won(At(s, u), refresh) && !CanWin(s, u, refresh))
  }

  lemma StepKeepsSettled(s: State, e: Step, d: Durations, refresh: Token, t: nat)
    requires Safe(s) && Settled(s, refresh, t) && t < |s.requests|
    ensures Settled(Take(s, e, d), refresh, t)
  {
    hide Rotate, DeleteById, Valid, CopyOf, Safe;
    StepKeepsSafe(s, e, d);
    var s' := Take(s, e, d);
    forall u | u != t ensures !Won(At(s', u), refresh) && !CanWin(s', u, refresh) {
      assert !Won(At(s, u), refresh) && !CanWin(s, u, refresh);
      if e.LookUp? {
        var i := WithRefresh(s.db.sessions, e.refresh);
        if i < |s.db.sessions| { assert s.db.sessions[i] in s.db.sessions; }
      }
    }
  }

  lemma {:induction false} StepsKeepSettled(s: State, steps: seq<Step>, d: Durations, refresh: Token, t: nat)
    requires Safe(s) && Settled(s, refresh, t) && t < |s.requests|
    ensures Settled(After(s, steps, d), refresh, t) && |After(s, steps, d).requests| >= |s.requests|
    decreases |steps|
  {
    hide Settled, Safe, CreateWith, DeleteById, WithRefresh;
    if steps != [] {
      var front := steps[..|steps| - 1];
      StepsKeepSettled(s, front, d, refresh, t);
      RequestsKeepSafe(s, front, d);
      StepKeepsSettled(After(s, front, d), steps[|steps| - 1], d, refresh, t);
    }
  }

  /** A string longer than every string of a set is not in it. */
  lemma {:induction false} UnusedToken(used: set<Token>) returns (token: Token)
    ensures forall x :: x in used ==> |x| < |token|
    decreases |used|
  {
    if used == {} {
      token := "t";
    } else {
      var x :| x in used;
      var longer := UnusedToken(used - {x});
      token := longer + x + "t";
    }
  }

  lemma UnusedSupply(db: Db) returns (f: Supply)
    ensures IsFresh(db, f)
  {
    var token := UnusedToken(db.tokens);
    var refresh := UnusedToken(db.refreshes);
    f := Supply(token, refresh, true);
  }

  /** Exactly when a token works once: at the moment a refresh deletes the session it looked up, a
      second success is still possible (or has happened) if and only if another request holds the token
      and has not found it expired (or has succeeded with it). A lookup after the delete never helps. */
  lemma WorksOnceIff(s: State, t: nat, d: Durations)
    requires Safe(s) && At(s, t).Created?
    ensures var refresh := At(s, t).current.refresh; var s' := Take(s, DeleteLast(t, true), d);
      Won(At(s', t), refresh)
      && ((exists steps: seq<Step>, u: nat :: u != t && Succeeds(s', steps, d, refresh, u))
          <==> exists u: nat :: u != t && (CanWin(s, u, refresh) || Won(At(s, u), refresh)))
  {
    var refresh := At(s, t).current.refresh;
    var s' := Take(s, DeleteLast(t, true), d);
    assert Sane(s.db, At(s, t));
    DeleteLastKeepsSafe(s, t, true);
    if u: nat :| u != t && (CanWin(s, u, refresh) || Won(At(s, u), refresh)) {
      if CanWin(s, u, refresh) {
        var f := UnusedSupply(s'.db);
        RestWins(s', u, f, d, refresh);
        assert Succeeds(s', Rest(s', u, f), d, refresh, u);
      } else {
        assert After(s', [], d) == s';
        assert Succeeds(s', [], d, refresh, u);
      }
    } else {
      SettledByDelete(s, t, d);
      forall steps: seq<Step>, u: nat | u != t ensures !Succeeds(s', steps, d, refresh, u) {
        StepsKeepSettled(s', steps, d, refresh, t);
      }
    }
  }

  lemma SettledByDelete(s: State, t: nat, d: Durations)
    requires Safe(s) && At(s, t).Created?
    requires forall u: nat :: u != t ==> !CanWin(s, u, At(s, t).current.refresh) && !Won(At(s, u), At(s, t).current.refresh)
    ensures Settled(Take(s, DeleteLast(t, true), d), At(s, t).current.refresh, t)
  {
    var p := At(s, t);
    var s' := Take(s, DeleteLast(t, true), d);
    assert Sane(s.db, p);
    DeleteGone(s.db.sessions, p.current.id);
    forall u | u != t ensures !Won(At(s', u), p.current.refresh) && !CanWin(s', u, p.current.refresh) {
      assert At(s', u) == At(s, u) && s'.db.now == s.db.now;
      assert !CanWin(s, u, p.current.refresh) && !Won(At(s, u), p.current.refresh);
    }
  }

  // ---- a refresh alone, and two at once ----

  /** The table after a refresh of current created its session and deleted the old one. */
  function Renewed(db: Db, current: Session, max: nat, f: Supply, d: Durations): Db {
    var db1 := CreateWith(db, current.user, max, f, d);
    db1.(sessions := DeleteById(db1.sessions, current.id))
  }

  lemma FoundFinishes(s: State, r: nat, f: Supply, d: Durations)
    requires At(s, r).Found? && s.db.now <= At(s, r).current.refreshExpiry && IsFresh(s.db, f)
    ensures var p := At(s, r);
      After(s, Rest(s, r, f), d)
        == Move(s, r, Refreshed(p.current, NewSession(s.db, p.current.user, f, d)), Renewed(s.db, p.current, p.max, f, d))
  {
    hide CreateWith, DeleteById;
    var e1: Step, e2: Step, e3: Step := CheckExpiry(r), CreateNext(r, f, true), DeleteLast(r, true);
    var s1 := Take(s, e1, d);
    var s2 := CreateStep(s1, r, f, d);
    var s3 := Take(s2, e3, d);
    AfterOne(s, e1, d);
    AfterOne(s1, e2, d);
    AfterOne(s2, e3, d);
    AfterCompose(s, [e1], [e2], d);
    AfterCompose(s, [e1] + [e2], [e3], d);
    assert [e1] + [e2] + [e3] == Rest(s, r, f);
    var last := At(s3, r);
    assert s3.requests == s.requests[r := last];
  }

  lemma CreateStep(s: State, r: nat, f: Supply, d: Durations) returns (s': State)
    requires At(s, r).Checked? && IsFresh(s.db, f)
    ensures s' == Take(s, CreateNext(r, f, true), d)
    ensures var p := At(s, r);
      s' == Move(s, r, Created(p.current, NewSession(s.db, p.current.user, f, d)), CreateWith(s.db, p.current.user, p.max, f, d))
    ensures s'.db.now == s.db.now
  {
    s' := Take(s, CreateNext(r, f, true), d);
  }

  /** One refresh whose steps follow each other is the refresh of Sessions. */
  lemma AloneIsRefresh(s: State, refresh: Token, f: Supply, d: Durations)
    requires IsFresh(s.db, f)
    ensures var r := |s.requests|; var (db', result) := SessionRefresh(s.db, refresh, f, d, true, true);
      var found := Take(s, LookUp(refresh), d);
      var s' := if At(found, r).Found? then After(found, Rest(found, r, f), d) else found;
      && s'.db == db'
      && (At(s', r).Refreshed? <==> result.Success?)
      && (result.Success? ==> At(s', r).created == result.session)
  {
    hide CreateWith, DeleteById, After;
    var r := |s.requests|;
    var found := Take(s, LookUp(refresh), d);
    if At(found, r).Found? {
      if s.db.now <= At(found, r).current.refreshExpiry {
        FoundFinishes(found, r, f, d);
      } else {
        ExpiredEnds(found, r, f, d);
      }
    }
  }

  /** Likewise a login and a logout, and a change of limit or of time whenever it comes. */
  lemma AloneIsLogin(s: State, user: UserId, f: Supply, ok: bool, d: Durations)
    requires IsFresh(s.db, f)
    ensures var r := |s.requests|;
      Take(Take(s, GetUser(user), d), CreateSession(r, f, ok), d).db == Apply(s.db, Login(user, true, f, ok), d)
  {
    hide Rotate;
  }

  lemma AloneIsLogout(s: State, refresh: Token, ok: bool, d: Durations)
    ensures var r := |s.requests|;
      Take(Take(s, LookUpLogout(refresh), d), DeleteIt(r, ok), d).db == Apply(s.db, LogoutCall(refresh, ok), d)
  {
  }

  lemma SettingsAreEvents(s: State, user: UserId, limit: nat, time: nat, d: Durations)
    ensures Take(s, ChangeLimit(user, limit), d) == s.(db := Apply(s.db, SetLimit(user, limit), d))
    ensures Take(s, Pass(time), d) == s.(db := Apply(s.db, Wait(time), d))
  {
  }

  lemma ExpiredEnds(s: State, r: nat, f: Supply, d: Durations)
    requires At(s, r).Found? && s.db.now > At(s, r).current.refreshExpiry
    ensures After(s, Rest(s, r, f), d) == Move(s, r, Ended, s.db)
  {
    var e1: Step, e2: Step, e3: Step := CheckExpiry(r), CreateNext(r, f, true), DeleteLast(r, true);
    var s1 := Take(s, e1, d);
    AfterOne(s, e1, d);
    AfterOne(s1, e2, d);
    AfterOne(s1, e3, d);
    AfterCompose(s, [e1], [e2], d);
    AfterCompose(s, [e1] + [e2], [e3], d);
    assert [e1] + [e2] + [e3] == Rest(s, r, f);
  }

  /** Two refreshes that both look the token up before either creates: both succeed, and without a
      limit the user ends with one session more than before, both new ones among them. */
  lemma DoubleRefresh(db: Db, refresh: Token, f: Supply, g: Supply, d: Durations)
    requires Valid(db) && WithRefresh(db.sessions, refresh) < |db.sessions|
    requires var current := db.sessions[WithRefresh(db.sessions, refresh)];
      db.now <= current.refreshExpiry && LimitOf(db, current.user) == 0
    requires IsFresh(db, f) && IsFresh(db, g) && f.token != g.token && f.refresh != g.refresh
    ensures var current := db.sessions[WithRefresh(db.sessions, refresh)];
      var both := After(State(db, []), [LookUp(refresh), LookUp(refresh)], d);
      var s := After(both, Rest(both, 0, f) + Rest(both, 1, g), d);
      && Won(At(s, 0), refresh) && Won(At(s, 1), refresh)
      && At(s, 0).created in s.db.sessions && At(s, 1).created in s.db.sessions
      && |Queue(s.db.sessions, current.user)| == |Queue(db.sessions, current.user)| + 1
  {
    var i := WithRefresh(db.sessions, refresh);
    var current := db.sessions[i];
    var e: Step := LookUp(refresh);
    var one := Take(State(db, []), e, d);
    var both := Take(one, e, d);
    assert [e, e][..1] == [e] && [e, e][1] == e;
    AfterOne(State(db, []), e, d);
    assert After(State(db, []), [e, e], d) == both;
    assert both == State(db, [Found(current, 0), Found(current, 0)]);
    hide After, Take, CreateWith, DeleteById;
    FoundFinishes(both, 0, f, d);
    var db1 := Renewed(db, current, 0, f, d);
    var s1 := Move(both, 0, Refreshed(current, NewSession(db, current.user, f, d)), db1);
    RenewedTable(db, current, i, f, d);
    FoundFinishes(s1, 1, g, d);
    SameRest(both, s1, 1, g);
    AfterCompose(both, Rest(both, 0, f), Rest(both, 1, g), d);
    RenewedAgain(db1, current, g, d);
  }

  /** The first refresh replaces the session. */
  lemma RenewedTable(db: Db, current: Session, i: nat, f: Supply, d: Durations)
    requires Valid(db) && IsFresh(db, f) && i < |db.sessions| && db.sessions[i] == current
    ensures var db' := Renewed(db, current, 0, f, d); var new' := NewSession(db, current.user, f, d);
      && Valid(db') && new' in db'.sessions && db'.now == db.now && db'.limits == db.limits
      && db'.tokens == db.tokens + {f.token} && db'.refreshes == db.refreshes + {f.refresh}
      && (forall x :: x in db'.sessions ==> x.id != current.id) && current.id < db'.next
      && |Queue(db'.sessions, current.user)| == |Queue(db.sessions, current.user)|
  {
    hide WithRefresh, WithToken, OldestOf;
    var new' := NewSession(db, current.user, f, d);
    var q := Queue(db.sessions, current.user);
    var db1 := CreateWith(db, current.user, 0, f, d);
    assert Known(db, current);
    assert db1.sessions == db.sessions + [new'] && db1.sessions[|db.sessions|] == new';
    CreateWithQueue(db, current.user, 0, f, d, current.user);
    hide CreateWith, DeleteById, Queue;
    DeleteShrinks(db1, current.id);
    DeleteGone(db1.sessions, current.id);
    QueueOfDelete(db1.sessions, current.id, current.user);
    InQueue(db.sessions, current.user, current);
    var j :| 0 <= j < |q| && q[j] == current;
    PushedInOrder(db, current.user, new');
    assert (q + [new'])[j] == current;
    DeleteIsRemove(q + [new'], j);
  }

  /** The second finds nothing left to delete. */
  lemma RenewedAgain(db: Db, current: Session, g: Supply, d: Durations)
    requires Valid(db) && IsFresh(db, g) && current.id < db.next && forall x :: x in db.sessions ==> x.id != current.id
    ensures var db' := Renewed(db, current, 0, g, d);
      && (forall x :: x in db.sessions ==> x in db'.sessions) && NewSession(db, current.user, g, d) in db'.sessions
      && |Queue(db'.sessions, current.user)| == |Queue(db.sessions, current.user)| + 1
  {
    var new' := NewSession(db, current.user, g, d);
    var db1 := CreateWith(db, current.user, 0, g, d);
    assert db1.sessions == db.sessions + [new'] && db1.sessions[|db.sessions|] == new';
    CreateWithQueue(db, current.user, 0, g, d, current.user);
    forall j | 0 <= j < |db1.sessions| ensures db1.sessions[j].id != current.id {
      assert db1.sessions[j] in db.sessions || db1.sessions[j] == new';
    }
    DeleteNone(db1.sessions, current.id);
  }

  // ---- the limit holds all the same ----

  /** Every limit a request has read for the user is k. */
  ghost predicate LimitRead(s: State, user: UserId, k: nat) {
    LimitOf(s.db, user) == k && forall r :: ReadAs(At(s, r), user, k)
  }

  predicate ReadAs(p: Request, user: UserId, k: nat) {
    match p
    case LoggingIn(u, max) => u == user ==> max == k
    case Found(current, max) => current.user == user ==> max == k
    case Checked(current, max) => current.user == user ==> max == k
    case _ => true
  }

  predicate StepKeepsLimit(e: Step, user: UserId) {
    && (e.ChangeLimit? ==> e.user != user)
    && (e.CreateSession? || e.CreateNext? ==> e.supply.evicts)
  }

  lemma StepBoundsRequests(s: State, e: Step, d: Durations, user: UserId, k: nat)
    requires Safe(s) && LimitRead(s, user, k) && k > 0 && StepKeepsLimit(e, user)
    ensures var n := |Queue(s.db.sessions, user)|; var n' := |Queue(Take(s, e, d).db.sessions, user)|;
      n' <= n + 1 && (n >= k ==> n' <= n)
    ensures LimitRead(Take(s, e, d), user, k)
  {
    hide CreateWith, Queue, Valid, WithRefresh, CopyOf, DeleteById;
    var s' := Take(s, e, d);
    SafeIsValid(s);
    match e {
      case CreateSession(r, f, ok) =>
        assert ReadAs(At(s, r), user, k);
        if At(s, r).LoggingIn? && IsFresh(s.db, f) { CreateWithQueue(s.db, At(s, r).user, At(s, r).max, f, d, user); }
      case CreateNext(r, f, ok) =>
        assert ReadAs(At(s, r), user, k);
        if At(s, r).Checked? && IsFresh(s.db, f) { CreateWithQueue(s.db, At(s, r).current.user, At(s, r).max, f, d, user); }
      case DeleteLast(r, ok) => if At(s, r).Created? { DeleteQueue(s.db.sessions, At(s, r).current.id, user); }
      case DeleteIt(r, ok) => if At(s, r).LoggingOut? { DeleteQueue(s.db.sessions, At(s, r).id, user); }
      case _ =>
    }
    LimitStaysRead(s, e, d, user, k);
  }

  lemma LimitStaysRead(s: State, e: Step, d: Durations, user: UserId, k: nat)
    requires LimitRead(s, user, k) && StepKeepsLimit(e, user)
    ensures LimitRead(Take(s, e, d), user, k)
  {
    hide Rotate, DeleteById, WithRefresh;
    forall r ensures ReadAs(At(Take(s, e, d), r), user, k) {
      assert ReadAs(At(s, r), user, k);
    }
  }

  /** With a fixed limit k > 0 every run of overlapping requests in which no eviction fails keeps at
      most k sessions, or as many as there were: counting, evicting and inserting are one transaction. */
  lemma {:induction false} OverlapKeepsBound(s: State, steps: seq<Step>, d: Durations, user: UserId, k: nat)
    requires Safe(s) && LimitRead(s, user, k) && k > 0
    requires forall e :: e in steps ==> StepKeepsLimit(e, user)
    ensures var n := |Queue(s.db.sessions, user)|; var n' := |Queue(After(s, steps, d).db.sessions, user)|;
      if n <= k then n' <= k else n' <= n
    ensures LimitRead(After(s, steps, d), user, k)
    decreases |steps|
  {
    hide Take, Safe, LimitRead, Queue;
    if steps != [] {
      var front := steps[..|steps| - 1];
      assert steps[|steps| - 1] in steps;
      OverlapKeepsBound(s, front, d, user, k);
      RequestsKeepSafe(s, front, d);
      StepBoundsRequests(After(s, front, d), steps[|steps| - 1], d, user, k);
    }
  }
}
