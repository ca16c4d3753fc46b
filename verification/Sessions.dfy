/** Rotating sessions: core/internal/database/db_auth_session.go, core/internal/auth/service_session.go
    and the calls in service_user.go that drive them. The table is in creation order; stamps stand for
    created_at and increase strictly; random tokens are new. Here a request is one event; SessionRequests splits it into
    its store calls and lets requests overlap. */
module Sessions {
  const DEFAULT_LIMIT := 3

  type UserId = nat
  type Token = string

  datatype Session = Session(id: nat, user: UserId, token: Token, tokenExpiry: int,
                             refresh: Token, refreshExpiry: int, createdAt: nat)

  /** limits: MaxSessions of each user it was changed for, 0 for no limit; tokens and refreshes: every token ever issued. */
  datatype Db = Db(sessions: seq<Session>, next: nat, now: int, limits: map<UserId, nat>,
                   tokens: set<Token>, refreshes: set<Token>)

  datatype Durations = Durations(session: nat, refresh: nat)

  datatype Failure = NotFound | Expired | StoreFailed | BadCredentials
  datatype Result = Success(session: Session) | Failed(why: Failure)

  // ---- the store ----

  /** The user's sessions, oldest first. */
  function Queue(ss: seq<Session>, user: UserId): seq<Session> {
    if ss == [] then []
    else (if ss[0].user == user then [ss[0]] else []) + Queue(ss[1..], user)
  }

  /** The row that "order by created_at limit 1" picks among the user's; |ss| if there is none. */
  function OldestOf(ss: seq<Session>, user: UserId): (i: nat)
    ensures i <= |ss|
    ensures i < |ss| ==> ss[i].user == user
    ensures forall j :: 0 <= j < |ss| && ss[j].user == user ==> i < |ss| && ss[i].createdAt <= ss[j].createdAt
  {
    if ss == [] then 0
    else
      var i := OldestOf(ss[1..], user);
      if ss[0].user == user && (i == |ss| - 1 || ss[0].createdAt <= ss[1..][i].createdAt) then 0 else i + 1
  }

  function RemoveAt(ss: seq<Session>, i: nat): seq<Session>
    requires i <= |ss|
  {
    if i == |ss| then ss else ss[..i] + ss[i + 1..]
  }

  /** NewSessionAutoRotating up to its insert. */
  function Rotate(ss: seq<Session>, user: UserId, max: nat): seq<Session> {
    if max > 0 && |Queue(ss, user)| >= max then RemoveAt(ss, OldestOf(ss, user)) else ss
  }

  function WithRefresh(ss: seq<Session>, refresh: Token): (i: nat)
    ensures i <= |ss| && (i < |ss| ==> ss[i].refresh == refresh)
    ensures forall j :: 0 <= j < i ==> ss[j].refresh != refresh
  {
    if ss == [] || ss[0].refresh == refresh then 0 else 1 + WithRefresh(ss[1..], refresh)
  }

  function WithToken(ss: seq<Session>, token: Token): (i: nat)
    ensures i <= |ss| && (i < |ss| ==> ss[i].token == token)
    ensures forall j :: 0 <= j < i ==> ss[j].token != token
  {
    if ss == [] || ss[0].token == token then 0 else 1 + WithToken(ss[1..], token)
  }

  function DeleteById(ss: seq<Session>, id: nat): seq<Session> {
    if ss == [] then []
    else (if ss[0].id == id then [] else [ss[0]]) + DeleteById(ss[1..], id)
  }

  function LimitOf(db: Db, user: UserId): nat {
    if user in db.limits then db.limits[user] else DEFAULT_LIMIT
  }

  // ---- the services ----

  /** What the outside contributes to one creation: two random tokens, and whether the delete statement
      of the eviction works; its error is not looked at. */
  datatype Supply = Supply(token: Token, refresh: Token, evicts: bool)

  predicate IsFresh(db: Db, f: Supply) {
    f.token !in db.tokens && f.refresh !in db.refreshes
  }

  function NewSession(db: Db, user: UserId, f: Supply, d: Durations): Session {
    Session(db.next, user, f.token, db.now + d.session, f.refresh, db.now + d.refresh, db.next)
  }

  /** The limit an eviction enforces: none if its delete does not work. */
  function Cap(db: Db, user: UserId, f: Supply): nat {
    if f.evicts then LimitOf(db, user) else 0
  }

  /** sessionCreate for a user read with limit max, when its transaction succeeds. */
  function CreateWith(db: Db, user: UserId, max: nat, f: Supply, d: Durations): Db {
    db.(sessions := Rotate(db.sessions, user, if f.evicts then max else 0) + [NewSession(db, user, f, d)],
        next := db.next + 1, tokens := db.tokens + {f.token}, refreshes := db.refreshes + {f.refresh})
  }

  /** The same with the user read just before. */
  function Create(db: Db, user: UserId, f: Supply, d: Durations): Db {
    CreateWith(db, user, LimitOf(db, user), f, d)
  }

  function SessionRefresh(db: Db, refresh: Token, f: Supply, d: Durations, created: bool, deleted: bool): (Db, Result) {
    var i := WithRefresh(db.sessions, refresh);
    if i == |db.sessions| then (db, Failed(NotFound))
    else
      var current := db.sessions[i];
      if db.now > current.refreshExpiry then (db, Failed(Expired))
      else if !created then (db, Failed(StoreFailed))
      else
        var db' := Create(db, current.user, f, d);
        if !deleted then (db', Failed(StoreFailed))
        else (db'.(sessions := DeleteById(db'.sessions, current.id)), Success(NewSession(db, current.user, f, d)))
  }

  function Logout(db: Db, refresh: Token, deleted: bool): Db {
    var i := WithRefresh(db.sessions, refresh);
    if i == |db.sessions| || !deleted then db
    else db.(sessions := DeleteById(db.sessions, db.sessions[i].id))
  }

  function SessionVerifyToken(db: Db, token: Token): Result {
    var i := WithToken(db.sessions, token);
    if i == |db.sessions| then Failed(NotFound)
    else if db.now > db.sessions[i].tokenExpiry then Failed(Expired)
    else Success(db.sessions[i])
  }

  datatype Event =
    | Login(user: UserId, password: bool, supply: Supply, created: bool)
    | Refresh(refresh: Token, supply: Supply, created: bool, deleted: bool)
    | LogoutCall(refresh: Token, deleted: bool)
    | SetLimit(user: UserId, limit: nat)
    | Wait(time: nat)

  /** An event whose tokens are not new does not happen. */
  function Apply(db: Db, e: Event, d: Durations): Db {
    match e
    case Login(user, password, f, created) =>
      if password && created && IsFresh(db, f) then Create(db, user, f, d) else db
    case Refresh(refresh, f, created, deleted) =>
      if IsFresh(db, f) then SessionRefresh(db, refresh, f, d, created, deleted).0 else db
    case LogoutCall(refresh, deleted) => Logout(db, refresh, deleted)
    case SetLimit(user, limit) => db.(limits := db.limits[user := limit])
    case Wait(time) => db.(now := db.now + time)
  }

  function Run(db: Db, events: seq<Event>, d: Durations): Db
    decreases |events|
  {
    if events == [] then db else Run(Apply(db, events[0], d), events[1..], d)
  }

  // ---- the table's invariant ----

  predicate Before(a: Session, b: Session) {
    a.id < b.id && a.createdAt < b.createdAt && a.token != b.token && a.refresh != b.refresh
  }

  ghost predicate Ordered(ss: seq<Session>) {
    forall i, j :: 0 <= i < j < |ss| ==> Before(ss[i], ss[j])
  }

  ghost predicate Valid(db: Db) {
    && Ordered(db.sessions)
    && (forall i :: 0 <= i < |db.sessions| ==> Known(db, db.sessions[i]))
  }

  predicate Known(db: Db, s: Session) {
    s.id < db.next && s.createdAt < db.next && s.token in db.tokens && s.refresh in db.refreshes
  }

  ghost predicate Within(part: seq<Session>, whole: seq<Session>) {
    forall s :: s in part ==> s in whole
  }

  lemma RemoveKeepsOrder(ss: seq<Session>, i: nat)
    requires Ordered(ss) && i <= |ss|
    ensures Ordered(RemoveAt(ss, i)) && Within(RemoveAt(ss, i), ss)
    ensures i < |ss| ==> ss[i] !in RemoveAt(ss, i)
  {
    if i < |ss| {
      var r := RemoveAt(ss, i);
      forall a, b | 0 <= a < b < |r| ensures Before(r[a], r[b]) {
        assert r[a] == ss[if a < i then a else a + 1] && r[b] == ss[if b < i then b else b + 1];
      }
      forall a | 0 <= a < |r| ensures r[a] in ss && r[a] != ss[i] {
        assert r[a] == ss[if a < i then a else a + 1];
        assert Before(ss[if a < i then a else i], ss[if a < i then i else a + 1]);
      }
    }
  }

  lemma {:induction false} DeleteIsRemove(ss: seq<Session>, i: nat)
    requires Ordered(ss) && i < |ss|
    ensures DeleteById(ss, ss[i].id) == RemoveAt(ss, i)
    decreases |ss|
  {
    var id := ss[i].id;
    if i == 0 {
      DeleteNone(ss[1..], id);
    } else {
      DeleteIsRemove(ss[1..], i - 1);
      assert ss[1..][i - 1] == ss[i];
      assert [ss[0]] + (ss[1..][..i - 1] + ss[1..][i..]) == ss[..i] + ss[i + 1..];
    }
  }

  lemma {:induction false} DeleteNone(ss: seq<Session>, id: nat)
    requires forall j :: 0 <= j < |ss| ==> ss[j].id != id
    ensures DeleteById(ss, id) == ss
    decreases |ss|
  {
    if ss != [] {
      DeleteNone(ss[1..], id);
      assert ss == [ss[0]] + ss[1..];
    }
  }

  lemma {:induction false} QueueConcat(a: seq<Session>, b: seq<Session>, user: UserId)
    ensures Queue(a + b, user) == Queue(a, user) + Queue(b, user)
    decreases |a|
  {
    if a == [] {
      assert a + b == b;
    } else {
      assert (a + b)[1..] == a[1..] + b;
      QueueConcat(a[1..], b, user);
    }
  }

  lemma QueueSplit(ss: seq<Session>, i: nat, user: UserId)
    requires i < |ss|
    ensures Queue(ss, user) == Queue(ss[..i], user) + Queue([ss[i]], user) + Queue(ss[i + 1..], user)
    ensures Queue(RemoveAt(ss, i), user) == Queue(ss[..i], user) + Queue(ss[i + 1..], user)
    ensures Queue([ss[i]], user) == if ss[i].user == user then [ss[i]] else []
  {
    QueueConcat(ss[..i], [ss[i]], user);
    QueueConcat(ss[..i] + [ss[i]], ss[i + 1..], user);
    QueueConcat(ss[..i], ss[i + 1..], user);
    assert ss == ss[..i] + [ss[i]] + ss[i + 1..];
    assert [ss[i]][1..] == [];
  }

  lemma {:induction false} NoneInQueue(ss: seq<Session>, user: UserId)
    ensures Queue(ss, user) == [] <==> forall j :: 0 <= j < |ss| ==> ss[j].user != user
    decreases |ss|
  {
    if ss != [] {
      NoneInQueue(ss[1..], user);
      assert forall j :: 0 < j < |ss| ==> ss[j] == ss[1..][j - 1];
    }
  }

  /** Eviction takes the head of the user's queue and nobody else's session. */
  lemma RotateQueue(ss: seq<Session>, user: UserId, max: nat, other: UserId)
    requires Ordered(ss)
    ensures Ordered(Rotate(ss, user, max)) && Within(Rotate(ss, user, max), ss)
    ensures Queue(Rotate(ss, user, max), other)
         == if user == other && max > 0 && |Queue(ss, user)| >= max then Queue(ss, user)[1..] else Queue(ss, other)
  {
    if max > 0 && |Queue(ss, user)| >= max {
      var i := OldestOf(ss, user);
      NoneInQueue(ss, user);
      RemoveKeepsOrder(ss, i);
      assert i < |ss|;
      QueueSplit(ss, i, other);
      if user == other {
        NoneInQueue(ss[..i], user);
        assert Queue(ss[..i], user) == [];
        assert ([] + [ss[i]] + Queue(ss[i + 1..], user))[1..] == Queue(ss[i + 1..], user);
      }
    }
  }

  // ---- creating: the user's queue is a FIFO of bounded length ----

  function Pushed(q: seq<Session>, s: Session, max: nat): seq<Session> {
    (if max > 0 && |q| >= max then q[1..] else q) + [s]
  }

  lemma CreateWithQueue(db: Db, user: UserId, max: nat, f: Supply, d: Durations, other: UserId)
    requires Valid(db) && IsFresh(db, f)
    ensures Valid(CreateWith(db, user, max, f, d)) && Within(CreateWith(db, user, max, f, d).sessions, db.sessions + [NewSession(db, user, f, d)])
    ensures Queue(CreateWith(db, user, max, f, d).sessions, other)
         == if user == other then Pushed(Queue(db.sessions, user), NewSession(db, user, f, d), if f.evicts then max else 0)
            else Queue(db.sessions, other)
  {
    var cap := if f.evicts then max else 0;
    var kept := Rotate(db.sessions, user, cap);
    var s := NewSession(db, user, f, d);
    RotateQueue(db.sessions, user, cap, other);
    hide Rotate, Queue;
    CreateIsValid(db, user, max, f, d, kept);
    QueueConcat(kept, [s], other);
    QueueOfOne(s, other);
  }

  lemma CreateQueue(db: Db, user: UserId, f: Supply, d: Durations, other: UserId)
    requires Valid(db) && IsFresh(db, f)
    ensures Valid(Create(db, user, f, d))
    ensures Queue(Create(db, user, f, d).sessions, other)
         == if user == other then Pushed(Queue(db.sessions, user), NewSession(db, user, f, d), Cap(db, user, f))
            else Queue(db.sessions, other)
  {
    CreateWithQueue(db, user, LimitOf(db, user), f, d, other);
  }

  lemma QueueOfOne(s: Session, user: UserId)
    ensures Queue([s], user) == if s.user == user then [s] else []
  {
    assert [s][1..] == [];
  }

  lemma CreateIsValid(db: Db, user: UserId, max: nat, f: Supply, d: Durations, kept: seq<Session>)
    requires Valid(db) && IsFresh(db, f) && kept == Rotate(db.sessions, user, if f.evicts then max else 0)
    requires Ordered(kept) && Within(kept, db.sessions)
    ensures Valid(CreateWith(db, user, max, f, d))
  {
    hide Rotate;
    var db' := CreateWith(db, user, max, f, d);
    forall i | 0 <= i < |kept| ensures Known(db, kept[i]) && Before(kept[i], NewSession(db, user, f, d)) {
      assert kept[i] in db.sessions;
    }
    assert db'.sessions == kept + [NewSession(db, user, f, d)];
  }

  lemma DeleteKeepsValid(db: Db, i: nat)
    requires Valid(db) && i < |db.sessions|
    ensures Valid(db.(sessions := DeleteById(db.sessions, db.sessions[i].id)))
    ensures DeleteById(db.sessions, db.sessions[i].id) == RemoveAt(db.sessions, i)
  {
    DeleteIsRemove(db.sessions, i);
    RemoveKeepsOrder(db.sessions, i);
    var kept := RemoveAt(db.sessions, i);
    forall j | 0 <= j < |kept| ensures Known(db, kept[j]) {
      assert kept[j] in db.sessions;
    }
  }

  lemma {:induction false} DeleteQueue(ss: seq<Session>, id: nat, user: UserId)
    ensures |Queue(DeleteById(ss, id), user)| <= |Queue(ss, user)|
    decreases |ss|
  {
    if ss != [] {
      DeleteQueue(ss[1..], id, user);
      if ss[0].id == id {
        assert DeleteById(ss, id) == DeleteById(ss[1..], id);
      } else {
        assert ([ss[0]] + DeleteById(ss[1..], id))[1..] == DeleteById(ss[1..], id);
      }
    }
  }

  lemma {:induction false} DeleteGone(ss: seq<Session>, id: nat)
    ensures forall s :: s in DeleteById(ss, id) <==> s in ss && s.id != id
    decreases |ss|
  {
    if ss != [] {
      DeleteGone(ss[1..], id);
      assert ss == [ss[0]] + ss[1..];
    }
  }

  lemma DeleteAnyKeepsValid(db: Db, id: nat)
    requires Valid(db)
    ensures Valid(db.(sessions := DeleteById(db.sessions, id)))
  {
    if i :| 0 <= i < |db.sessions| && db.sessions[i].id == id {
      DeleteKeepsValid(db, i);
    } else {
      DeleteNone(db.sessions, id);
    }
  }

  // ---- refresh ----

  /** A successful refresh: the user's queue loses its head if it was full, then the session refreshed
      (if it is still there), and gains the new one; other users' queues stay. */
  lemma RefreshQueue(db: Db, refresh: Token, f: Supply, d: Durations, other: UserId)
    requires Valid(db) && IsFresh(db, f)
    requires SessionRefresh(db, refresh, f, d, true, true).1.Success?
    ensures var (db', r) := SessionRefresh(db, refresh, f, d, true, true);
      var current := db.sessions[WithRefresh(db.sessions, refresh)];
      && Valid(db')
      && Queue(db'.sessions, other)
         == if other == current.user
            then DeleteById(Pushed(Queue(db.sessions, other), r.session, Cap(db, other, f)), current.id)
            else Queue(db.sessions, other)
  {
    var i := WithRefresh(db.sessions, refresh);
    var current := db.sessions[i];
    var db1 := Create(db, current.user, f, d);
    CreateQueue(db, current.user, f, d, other);
    hide Rotate, Queue, DeleteById, Pushed;
    DeleteAnyKeepsValid(db1, current.id);
    QueueOfDelete(db1.sessions, current.id, other);
    assert Known(db, current);
    if other != current.user {
      forall s | s in Queue(db.sessions, other) ensures s.id != current.id {
        InQueue(db.sessions, other, s);
        var j :| 0 <= j < |db.sessions| && db.sessions[j] == s;
      }
      DeleteNone(Queue(db.sessions, other), current.id);
    }
  }

  lemma {:induction false} QueueOfDelete(ss: seq<Session>, id: nat, user: UserId)
    ensures Queue(DeleteById(ss, id), user) == DeleteById(Queue(ss, user), id)
    decreases |ss|
  {
    if ss != [] {
      var tail := ss[1..];
      QueueOfDelete(tail, id, user);
      if ss[0].id == id {
        assert DeleteById(ss, id) == DeleteById(tail, id);
      } else {
        assert ([ss[0]] + DeleteById(tail, id))[1..] == DeleteById(tail, id);
      }
      if ss[0].user == user {
        assert ([ss[0]] + Queue(tail, user))[1..] == Queue(tail, user);
      } else {
        assert Queue(ss, user) == Queue(tail, user);
      }
    }
  }

  lemma {:induction false} InQueue(ss: seq<Session>, user: UserId, s: Session)
    ensures s in Queue(ss, user) <==> s in ss && s.user == user
    decreases |ss|
  {
    if ss != [] { InQueue(ss[1..], user, s); }
  }

  lemma {:induction false} QueueOrdered(ss: seq<Session>, user: UserId)
    requires Ordered(ss)
    ensures Ordered(Queue(ss, user))
    decreases |ss|
  {
    if ss != [] {
      var q := Queue(ss[1..], user);
      QueueOrdered(ss[1..], user);
      forall j | 0 <= j < |q| ensures Before(ss[0], q[j]) {
        InQueue(ss[1..], user, q[j]);
        var n :| 0 <= n < |ss[1..]| && ss[1..][n] == q[j];
        assert ss[n + 1] == ss[1..][n];
      }
    }
  }

  lemma OrderedPart(q: seq<Session>, lo: nat, hi: nat)
    requires Ordered(q) && lo <= hi <= |q|
    ensures Ordered(q[lo..hi])
  {
    forall a, b | 0 <= a < b < hi - lo ensures Before(q[lo..hi][a], q[lo..hi][b]) {
      assert Before(q[lo + a], q[lo + b]);
    }
  }

  lemma RemoveFromPushed(q: seq<Session>, j: nat, s: Session)
    requires 0 < j < |q|
    ensures RemoveAt(q[1..] + [s], j - 1) == RemoveAt(q, j)[1..] + [s]
  {
    var p := q[1..] + [s];
    assert p[..j - 1] == q[1..j] && p[j..] == q[j + 1..] + [s];
    assert RemoveAt(q, j)[1..] == q[1..j] + q[j + 1..];
  }

  /** What is left after a push and the removal of the refreshed session: everybody else, except that
      a full queue whose head is another session loses that one too. */
  lemma RefreshedQueue(q: seq<Session>, j: nat, s: Session, max: nat)
    requires Ordered(q + [s]) && j < |q|
    ensures DeleteById(Pushed(q, s, max), q[j].id)
         == if max > 0 && |q| >= max && j != 0 then RemoveAt(q, j)[1..] + [s] else RemoveAt(q, j) + [s]
  {
    hide DeleteById;
    var whole := q + [s];
    assert whole[j] == q[j];
    if max > 0 && |q| >= max {
      var p := q[1..] + [s];
      assert p == whole[1..|whole|];
      OrderedPart(whole, 1, |whole|);
      if j == 0 {
        forall i | 0 <= i < |p| ensures p[i].id != q[0].id {
          assert Before(whole[0], whole[i + 1]);
        }
        DeleteNone(p, q[0].id);
        assert RemoveAt(q, 0) == q[1..];
      } else {
        assert p[j - 1] == q[j];
        DeleteIsRemove(p, j - 1);
        RemoveFromPushed(q, j, s);
      }
    } else {
      DeleteIsRemove(whole, j);
      assert RemoveAt(whole, j) == RemoveAt(q, j) + [s];
    }
  }

  /** A successful refresh never adds to the user's sessions. It removes one other session exactly when
      the user was at the limit and the refreshed session was not the oldest; that other one is the
      oldest. Both old tokens are dead, and the new session token verifies. */
  lemma RefreshSucceeds(db: Db, refresh: Token, f: Supply, d: Durations) returns (j: nat)
    requires Valid(db) && IsFresh(db, f)
    requires SessionRefresh(db, refresh, f, d, true, true).1.Success?
    ensures var (db', r) := SessionRefresh(db, refresh, f, d, true, true);
      var current := db.sessions[WithRefresh(db.sessions, refresh)];
      var q := Queue(db.sessions, current.user); var max := Cap(db, current.user, f);
      var full := max > 0 && |q| >= max;
      && j < |q| && q[j] == current
      && Queue(db'.sessions, current.user) == (if full && j != 0 then RemoveAt(q, j)[1..] else RemoveAt(q, j)) + [r.session]
      && |Queue(db'.sessions, current.user)| == (if full && j != 0 then |q| - 1 else |q|)
      && SessionVerifyToken(db', current.token) == Failed(NotFound)
      && WithRefresh(db'.sessions, refresh) == |db'.sessions|
      && SessionVerifyToken(db', f.token) == Success(r.session)
  {
    hide DeleteById, WithRefresh, Rotate, Queue;
    var i := WithRefresh(db.sessions, refresh);
    var current := db.sessions[i];
    var q := Queue(db.sessions, current.user);
    var max := Cap(db, current.user, f);
    var (db', r) := SessionRefresh(db, refresh, f, d, true, true);
    RefreshQueue(db, refresh, f, d, current.user);
    InQueue(db.sessions, current.user, current);
    j :| 0 <= j < |q| && q[j] == current;
    PushedInOrder(db, current.user, r.session);
    RefreshedQueue(q, j, r.session, max);
    OldTokensAreDead(db, refresh, f, d);
    NewTokenVerifies(db, refresh, f, d);
  }

  lemma PushedInOrder(db: Db, user: UserId, s: Session)
    requires Valid(db) && s.id == s.createdAt == db.next && s.token !in db.tokens && s.refresh !in db.refreshes
    ensures Ordered(Queue(db.sessions, user) + [s])
  {
    var q := Queue(db.sessions, user);
    QueueOrdered(db.sessions, user);
    forall n | 0 <= n < |q| ensures Before(q[n], s) {
      InQueue(db.sessions, user, q[n]);
      assert Known(db, q[n]);
    }
  }

  /** Sessions do not share tokens. */
  lemma OthersDiffer(ss: seq<Session>, i: nat)
    requires Ordered(ss) && i < |ss|
    ensures forall s :: s in ss && s.id != ss[i].id ==> s.token != ss[i].token && s.refresh != ss[i].refresh
  {
    forall s | s in ss && s.id != ss[i].id ensures s.token != ss[i].token && s.refresh != ss[i].refresh {
      var j :| 0 <= j < |ss| && ss[j] == s;
      assert j < i ==> Before(s, ss[i]);
      assert i < j ==> Before(ss[i], s);
    }
  }

  lemma OldTokensAreDead(db: Db, refresh: Token, f: Supply, d: Durations)
    requires Valid(db) && IsFresh(db, f)
    requires SessionRefresh(db, refresh, f, d, true, true).1.Success?
    ensures var db' := SessionRefresh(db, refresh, f, d, true, true).0;
      var current := db.sessions[WithRefresh(db.sessions, refresh)];
      forall s :: s in db'.sessions ==> s.token != current.token && s.refresh != refresh
  {
    hide DeleteById, Rotate, Queue;
    var i := WithRefresh(db.sessions, refresh);
    var current := db.sessions[i];
    var kept := Rotate(db.sessions, current.user, Cap(db, current.user, f));
    RotateQueue(db.sessions, current.user, Cap(db, current.user, f), current.user);
    DeleteGone(kept + [NewSession(db, current.user, f, d)], current.id);
    assert Known(db, current);
    OthersDiffer(db.sessions, i);
  }

  lemma FoundAt(ss: seq<Session>, n: nat)
    requires Ordered(ss) && n < |ss|
    ensures WithToken(ss, ss[n].token) == n && WithRefresh(ss, ss[n].refresh) == n
  {
  }

  lemma NewTokenVerifies(db: Db, refresh: Token, f: Supply, d: Durations)
    requires Valid(db) && IsFresh(db, f)
    requires SessionRefresh(db, refresh, f, d, true, true).1.Success?
    ensures var (db', r) := SessionRefresh(db, refresh, f, d, true, true);
      SessionVerifyToken(db', f.token) == Success(r.session)
  {
    hide Queue, Rotate, DeleteById, Pushed;
    var current := db.sessions[WithRefresh(db.sessions, refresh)];
    var db1 := Create(db, current.user, f, d);
    var (db', r) := SessionRefresh(db, refresh, f, d, true, true);
    RefreshQueue(db, refresh, f, d, current.user);
    assert Known(db, current);
    DeleteGone(db1.sessions, current.id);
    assert r.session in db1.sessions;
    var n :| 0 <= n < |db'.sessions| && db'.sessions[n] == r.session;
    FoundAt(db'.sessions, n);
  }

  // ---- tokens, in every valid table ----

  /** A session token is good for the session that holds it, up to and including its expiry, and a
      refresh token likewise; a token of no session in the table is good for nothing. */
  lemma TokensWorkExactly(db: Db, s: Session, f: Supply, d: Durations)
    requires Valid(db)
    ensures SessionVerifyToken(db, s.token) == Success(s) <==> s in db.sessions && db.now <= s.tokenExpiry
    ensures s in db.sessions ==>
      (SessionRefresh(db, s.refresh, f, d, true, true).1.Success? <==> db.now <= s.refreshExpiry)
    ensures (forall r :: r in db.sessions ==> r.token != s.token) ==> SessionVerifyToken(db, s.token) == Failed(NotFound)
    ensures (forall r :: r in db.sessions ==> r.refresh != s.refresh) ==>
      SessionRefresh(db, s.refresh, f, d, true, true) == (db, Failed(NotFound))
  {
    if n :| 0 <= n < |db.sessions| && db.sessions[n] == s {
      FoundAt(db.sessions, n);
    }
  }

  /** Logging out ends the session of that refresh token and no other. */
  lemma LogoutEndsOne(db: Db, refresh: Token)
    requires Valid(db)
    ensures forall s :: s in Logout(db, refresh, true).sessions <==> s in db.sessions && s.refresh != refresh
  {
    var i := WithRefresh(db.sessions, refresh);
    if i < |db.sessions| {
      DeleteGone(db.sessions, db.sessions[i].id);
      forall s | s in db.sessions ensures s.id != db.sessions[i].id <==> s.refresh != refresh {
        var n :| 0 <= n < |db.sessions| && db.sessions[n] == s;
        if n < i {
          assert Before(db.sessions[n], db.sessions[i]);
        } else if i < n {
          assert Before(db.sessions[i], db.sessions[n]);
        }
      }
    }
  }

  // ---- whole runs ----

  lemma StepKeepsValid(db: Db, e: Event, d: Durations)
    requires Valid(db)
    ensures Valid(Apply(db, e, d))
  {
    match e {
      case Login(user, password, f, created) =>
        if IsFresh(db, f) { CreateQueue(db, user, f, d, user); }
      case Refresh(refresh, f, created, deleted) =>
        var i := WithRefresh(db.sessions, refresh);
        if IsFresh(db, f) && i < |db.sessions| {
          CreateQueue(db, db.sessions[i].user, f, d, db.sessions[i].user);
          DeleteAnyKeepsValid(Create(db, db.sessions[i].user, f, d), db.sessions[i].id);
        }
      case LogoutCall(refresh, deleted) =>
        var i := WithRefresh(db.sessions, refresh);
        if i < |db.sessions| { DeleteAnyKeepsValid(db, db.sessions[i].id); }
      case SetLimit(_, _) =>
        assert forall s :: Known(Apply(db, e, d), s) == Known(db, s);
      case Wait(_) =>
        assert forall s :: Known(Apply(db, e, d), s) == Known(db, s);
    }
  }

  lemma {:induction false} RunKeepsValid(db: Db, events: seq<Event>, d: Durations)
    requires Valid(db)
    ensures Valid(Run(db, events, d))
    decreases |events|
  {
    if events != [] {
      StepKeepsValid(db, events[0], d);
      RunKeepsValid(Apply(db, events[0], d), events[1..], d);
    }
  }

  /** No eviction fails. */
  predicate Evicts(e: Event) {
    e.Login? || e.Refresh? ==> e.supply.evicts
  }

  /** Unless an eviction fails, no event grows a user's queue that is at or above a positive limit;
      below it, it grows by at most one. This holds whatever other store calls fail and however the
      limit was lowered before. */
  lemma StepBounds(db: Db, e: Event, d: Durations, user: UserId)
    requires Valid(db)
    ensures var n := |Queue(db.sessions, user)|; var n' := |Queue(Apply(db, e, d).sessions, user)|;
      n' <= n + 1 && (LimitOf(db, user) > 0 && n >= LimitOf(db, user) && Evicts(e) ==> n' <= n)
  {
    match e {
      case Login(u, password, f, created) =>
        if IsFresh(db, f) { CreateQueue(db, u, f, d, user); }
      case Refresh(refresh, f, created, deleted) =>
        var i := WithRefresh(db.sessions, refresh);
        if IsFresh(db, f) && i < |db.sessions| {
          CreateQueue(db, db.sessions[i].user, f, d, user);
          DeleteQueue(Create(db, db.sessions[i].user, f, d).sessions, db.sessions[i].id, user);
        }
      case LogoutCall(refresh, deleted) =>
        var i := WithRefresh(db.sessions, refresh);
        if i < |db.sessions| { DeleteQueue(db.sessions, db.sessions[i].id, user); }
      case SetLimit(_, _) =>
      case Wait(_) =>
    }
  }

  /** A failed eviction is the one way past the limit: a login at it leaves one session more exactly if
      its eviction fails. */
  lemma LoginAtLimit(db: Db, user: UserId, f: Supply, d: Durations)
    requires Valid(db) && IsFresh(db, f) && 0 < LimitOf(db, user) <= |Queue(db.sessions, user)|
    ensures var n := |Queue(db.sessions, user)|; var n' := |Queue(Apply(db, Login(user, true, f, true), d).sessions, user)|;
      n' == if f.evicts then n else n + 1
  {
    CreateQueue(db, user, f, d, user);
  }

  predicate KeepsLimit(e: Event, user: UserId) {
    e.SetLimit? ==> e.user != user
  }

  lemma LimitStays(db: Db, e: Event, d: Durations, user: UserId)
    requires KeepsLimit(e, user)
    ensures LimitOf(Apply(db, e, d), user) == LimitOf(db, user)
  {
    hide Rotate, DeleteById;
  }

  /** With a fixed limit k > 0 every run in which no eviction fails keeps at most k sessions, or as many as there were if the limit
      had been lowered below that. */
  lemma {:induction false} RunBounds(db: Db, events: seq<Event>, d: Durations, user: UserId)
    requires Valid(db) && LimitOf(db, user) > 0
    requires forall e :: e in events ==> KeepsLimit(e, user) && Evicts(e)
    ensures var n := |Queue(db.sessions, user)|; var n' := |Queue(Run(db, events, d).sessions, user)|;
      if n <= LimitOf(db, user) then n' <= LimitOf(db, user) else n' <= n
    decreases |events|
  {
    hide Apply, Queue, Valid, LimitOf;
    if events != [] {
      assert events[0] in events;
      StepBounds(db, events[0], d, user);
      LimitStays(db, events[0], d, user);
      StepKeepsValid(db, events[0], d);
      RunBounds(Apply(db, events[0], d), events[1..], d, user);
    }
  }

  predicate LogsIn(db: Db, e: Event, user: UserId) {
    e.Login? && e.user == user && e.password && e.created && IsFresh(db, e.supply) && e.supply.evicts
  }

  /** A run of successful logins of one user, and the sessions they made. */
  ghost predicate AllLogins(db: Db, events: seq<Event>, d: Durations, user: UserId)
    decreases |events|
  {
    events == [] || (LogsIn(db, events[0], user) && AllLogins(Apply(db, events[0], d), events[1..], d, user))
  }

  function Made(db: Db, events: seq<Event>, d: Durations, user: UserId): seq<Session>
    decreases |events|
  {
    if events == [] then []
    else if !events[0].Login? then []
    else [NewSession(db, user, events[0].supply, d)] + Made(Apply(db, events[0], d), events[1..], d, user)
  }

  function LastOf(q: seq<Session>, n: nat): seq<Session> {
    if |q| <= n then q else q[|q| - n..]
  }

  lemma LastOfPushed(q: seq<Session>, s: Session, made: seq<Session>, k: nat)
    requires 0 < k && |q| <= k
    ensures LastOf(Pushed(q, s, k) + made, k) == LastOf(q + ([s] + made), k)
  {
    var whole := q + ([s] + made);
    if |q| == k {
      assert Pushed(q, s, k) + made == whole[1..];
    } else {
      assert Pushed(q, s, k) + made == whole;
    }
  }

  /** FIFO: n logins alone leave exactly the last k of the old sessions followed by the n new ones. */
  lemma {:induction false} LoginsAreFifo(db: Db, events: seq<Event>, d: Durations, user: UserId)
    requires Valid(db) && AllLogins(db, events, d, user)
    requires LimitOf(db, user) > 0 && |Queue(db.sessions, user)| <= LimitOf(db, user)
    ensures Queue(Run(db, events, d).sessions, user)
         == LastOf(Queue(db.sessions, user) + Made(db, events, d, user), LimitOf(db, user))
    decreases |events|
  {
    var q := Queue(db.sessions, user);
    var k := LimitOf(db, user);
    if events == [] {
      assert q + [] == q;
    } else {
      var db' := Apply(db, events[0], d);
      assert db' == Create(db, user, events[0].supply, d);
      hide Create, Rotate, Queue, Pushed, LastOf;
      var s := NewSession(db, user, events[0].supply, d);
      CreateQueue(db, user, events[0].supply, d, user);
      LoginsAreFifo(db', events[1..], d, user);
      LastOfPushed(q, s, Made(db', events[1..], d, user), k);
    }
  }

  // ---- a refresh token works once ----

  predicate Refreshes(db: Db, e: Event, refresh: Token, d: Durations) {
    e.Refresh? && e.refresh == refresh && IsFresh(db, e.supply)
    && SessionRefresh(db, refresh, e.supply, d, e.created, e.deleted).1.Success?
  }

  ghost predicate Dead(db: Db, refresh: Token) {
    refresh in db.refreshes && forall s :: s in db.sessions ==> s.refresh != refresh
  }

  lemma DeadStaysDead(db: Db, e: Event, d: Durations, refresh: Token)
    requires Valid(db) && Dead(db, refresh)
    ensures Dead(Apply(db, e, d), refresh)
  {
    match e {
      case Login(u, password, f, created) =>
        RotateQueue(db.sessions, u, Cap(db, u, f), u);
      case Refresh(r, f, created, deleted) =>
        var i := WithRefresh(db.sessions, r);
        if i < |db.sessions| {
          var u := db.sessions[i].user;
          RotateQueue(db.sessions, u, Cap(db, u, f), u);
          DeleteGone(Create(db, u, f, d).sessions, db.sessions[i].id);
        }
      case LogoutCall(r, deleted) =>
        var i := WithRefresh(db.sessions, r);
        if i < |db.sessions| { DeleteGone(db.sessions, db.sessions[i].id); }
      case SetLimit(_, _) =>
      case Wait(_) =>
    }
  }

  lemma {:induction false} DeadNeverRefreshes(db: Db, events: seq<Event>, d: Durations, refresh: Token, i: nat)
    requires Valid(db) && Dead(db, refresh) && i < |events|
    ensures !Refreshes(Run(db, events[..i], d), events[i], refresh, d)
    decreases |events|
  {
    if i == 0 {
      assert events[..0] == [];
      assert forall n :: 0 <= n < |db.sessions| ==> db.sessions[n] in db.sessions;
    } else {
      StepKeepsValid(db, events[0], d);
      DeadStaysDead(db, events[0], d, refresh);
      DeadNeverRefreshes(Apply(db, events[0], d), events[1..], d, refresh, i - 1);
      assert events[..i][1..] == events[1..][..i - 1];
    }
  }

  /** Each refresh token succeeds at most once in any run of requests one after another. */
  lemma {:induction false} RefreshWorksOnce(db: Db, events: seq<Event>, d: Durations, refresh: Token, i: nat, j: nat)
    requires Valid(db) && i < j < |events|
    requires Refreshes(Run(db, events[..i], d), events[i], refresh, d)
    ensures !Refreshes(Run(db, events[..j], d), events[j], refresh, d)
    decreases |events|
  {
    if i == 0 {
      assert events[..0] == [];
      var e := events[0];
      var n := WithRefresh(db.sessions, refresh);
      assert Known(db, db.sessions[n]);
      OldTokensAreDead(db, refresh, e.supply, d);
      StepKeepsValid(db, e, d);
      DeadNeverRefreshes(Apply(db, e, d), events[1..], d, refresh, j - 1);
    } else {
      StepKeepsValid(db, events[0], d);
      assert events[..i][1..] == events[1..][..i - 1];
      RefreshWorksOnce(Apply(db, events[0], d), events[1..], d, refresh, i - 1, j - 1);
    }
    assert events[..j][1..] == events[1..][..j - 1];
  }
}
