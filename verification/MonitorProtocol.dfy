/** The download monitor as goroutines interleaved in any way (core/internal/downloads/service.go):
    DownloadMedia saves a row and starts a goroutine, the goroutines compete for the one slot of
    workerChan, the winner polls until it reads an empty list. A run is any sequence of events; an
    event whose goroutine is not at that point does nothing, nor does a Read whose order does not list the
    Downloading rows. */
module MonitorProtocol {
  import opened Options
  import opened Downloads

  datatype Worker = Pending(job: Job) | Checked(job: Job, media: Media) | Finished(job: Job)

  /** Where a goroutine is. Saved: DownloadMedia between its save and its go statement. From Verifying
      to Releasing it is between the send to and the receive from workerChan. */
  datatype Thread =
    | Saved | Starting | Verifying | Reading
    | Polling(snap: map<TorrentId, Media>) | Joining(workers: seq<Worker>) | Waiting
    | Releasing | Done

  /** late: rows whose last DownloadMedia save fell between a monitor's last read and its release.
      abandoned: rows that were Downloading when a monitor gave up because of an error and were not
      saved by DownloadMedia since. Both only record history. */
  datatype State = State(rows: Rows, token: bool, threads: seq<Thread>, now: int, late: set<RowId>, abandoned: set<RowId>)

  datatype Event =
    | SaveDownloading(media: Media) | SaveOther(media: Media) | Delete(id: RowId) | Advance(dt: nat)
    | Spawn(t: nat) | Select(t: nat) | Verify(t: nat, ok: bool)
    | Read(t: nat, order: seq<RowId>, ok: bool) | Poll(t: nat, reports: seq<Report>, ok: bool)
    | CheckJob(t: nat, i: nat) | SaveJob(t: nat, i: nat) | Join(t: nat) | TickerFires(t: nat) | Release(t: nat)

  /** NewService with a client: whatever rows there are, one goroutine is about to start monitoring. */
  function Init(rows: Rows): State {
    State(rows, false, [Starting], 0, {}, {})
  }

  function At(s: State, t: nat): Thread {
    if t < |s.threads| then s.threads[t] else Done
  }

  function Move(s: State, t: nat, to: Thread): State {
    if t < |s.threads| then s.(threads := s.threads[t := to]) else s
  }

  predicate Holding(p: Thread) {
    p.Verifying? || p.Reading? || p.Polling? || p.Joining? || p.Waiting? || p.Releasing?
  }

  /** A pending starter, or a monitor that will read the rows again. */
  predicate WillRead(p: Thread) {
    !p.Done? && !p.Releasing?
  }

  predicate SomeReleasing(s: State) {
    exists t :: 0 <= t < |s.threads| && s.threads[t] == Releasing
  }

  /** An error ends the monitor: what is Downloading now is left behind. */
  function GiveUp(s: State, t: nat): State {
    Move(s, t, Releasing).(abandoned := s.abandoned + DownloadingIds(s.rows))
  }

  function StartWorkers(jobs: seq<Job>): seq<Worker> {
    seq(|jobs|, i requires 0 <= i < |jobs| => Pending(jobs[i]))
  }

  predicate AllFinished(ws: seq<Worker>) {
    forall i :: 0 <= i < |ws| ==> ws[i].Finished?
  }

  /** wg.Wait returns: every goroutine of the round has saved. */
  predicate JoinReady(s: State, t: nat) {
    At(s, t).Joining? && AllFinished(At(s, t).workers)
  }

  /** What AddMedia and Edit save: a request that could not be started, or one with no status. */
  predicate ByRequest(m: Media) {
    m.status in {Error, Unset} && m.reason in {NoReason, NotStarted}
  }

  /** The event is a request or a deletion that writes row id. */
  predicate Touches(e: Event, id: RowId) {
    match e
    case SaveDownloading(m) => m.id == id
    case SaveOther(m) => ByRequest(m) && m.id == id
    case Delete(d) => d == id
    case _ => false
  }

  function Apply(s: State, e: Event, limit: Option<int>): State {
    match e
    case SaveDownloading(m) =>
      State(Save(s.rows, m.(status := Downloading), s.now), s.token, s.threads + [Saved], s.now,
            if SomeReleasing(s) then s.late + {m.id} else s.late - {m.id}, s.abandoned - {m.id})
    case SaveOther(m) => if !ByRequest(m) then s else s.(rows := Save(s.rows, m, s.now))
    case Delete(id) => s.(rows := s.rows - {id})
    case Advance(dt) => s.(now := s.now + dt)
    case Spawn(t) => if At(s, t) == Saved then Move(s, t, Starting) else s
    case Select(t) =>
      if At(s, t) != Starting then s
      else if s.token then Move(s, t, Done)
      else Move(s, t, Verifying).(token := true)
    case Verify(t, ok) =>
      if At(s, t) != Verifying then s else if ok then Move(s, t, Reading) else GiveUp(s, t)
    case Read(t, order, ok) =>
      if At(s, t) != Reading then s
      else if !ok then GiveUp(s, t)
      else if !Lists(order, s.rows) then s
      else if order == [] then Move(s, t, Releasing)
      else Move(s, t, Polling(Snapshot(s.rows, order)))
    case Poll(t, reports, ok) =>
      if !At(s, t).Polling? then s
      else if !ok then Move(s, t, Reading)
      else Move(s, t, Joining(StartWorkers(Jobs(At(s, t).snap, reports))))
    case CheckJob(t, i) => ApplyCheck(s, t, i, limit)
    case SaveJob(t, i) => ApplySave(s, t, i)
    case Join(t) => if JoinReady(s, t) then Move(s, t, Waiting) else s
    case TickerFires(t) => if At(s, t) == Waiting then Move(s, t, Reading) else s
    case Release(t) => if At(s, t) == Releasing then Move(s, t, Done).(token := false) else s
  }

  /** A checkDownload goroutine up to its deferred save. */
  function ApplyCheck(s: State, t: nat, i: nat, limit: Option<int>): State {
    if At(s, t).Joining? && i < |At(s, t).workers| && At(s, t).workers[i].Pending? then
      var job := At(s, t).workers[i].job;
      Move(s, t, Joining(At(s, t).workers[i := Checked(job, Check(job.media, job.report, s.now, limit))]))
    else s
  }

  /** The deferred save of checkDownload; its error is ignored. */
  function ApplySave(s: State, t: nat, i: nat): State {
    if At(s, t).Joining? && i < |At(s, t).workers| && At(s, t).workers[i].Checked? then
      var w := At(s, t).workers[i];
      var s' := Move(s, t, Joining(At(s, t).workers[i := Finished(w.job)]));
      if w.job.report.saves then s'.(rows := Save(s.rows, w.media, s.now)) else s'
    else s
  }

  function Run(s: State, events: seq<Event>, limit: Option<int>): State
    decreases |events|
  {
    if events == [] then s else Apply(Run(s, events[..|events| - 1], limit), events[|events| - 1], limit)
  }

  lemma {:induction false} RunsCompose(s: State, a: seq<Event>, b: seq<Event>, limit: Option<int>)
    ensures Run(s, a + b, limit) == Run(Run(s, a, limit), b, limit)
    decreases |b|
  {
    if b == [] {
      assert a + b == a;
    } else {
      var front := b[..|b| - 1];
      assert (a + b)[..|a + b| - 1] == a + front;
      RunsCompose(s, a, front, limit);
    }
  }

  // ---- mutual exclusion ----

  function Holders(s: State): set<nat> {
    set t | 0 <= t < |s.threads| && Holding(s.threads[t])
  }

  ghost predicate Mutex(s: State) {
    |Holders(s)| == if s.token then 1 else 0
  }

  lemma MoveHolders(s: State, t: nat, to: Thread)
    requires t < |s.threads|
    ensures Holders(Move(s, t, to)) == if Holding(to) then Holders(s) + {t} else Holders(s) - {t}
  {
  }

  lemma SpawnHolders(s: State, p: Thread)
    requires !Holding(p)
    ensures Holders(s.(threads := s.threads + [p])) == Holders(s)
  {
  }

  /** Every event moves at most one goroutine, and moves the slot's token with it. */
  datatype Effect = Same | Acquires | Releases | Grows

  ghost predicate Moves(s: State, s': State, t: nat, to: Thread) {
    t < |s.threads| && s'.threads == s.threads[t := to]
  }

  lemma StepShape(s: State, e: Event, limit: Option<int>) returns (t: nat, to: Thread)
    requires !e.SaveDownloading?
    ensures var s' := Apply(s, e, limit);
      (s'.threads == s.threads && s'.token == s.token)
      || (Moves(s, s', t, to)
          && s'.token == (if s.threads[t] == Starting && Holding(to) then true else if s.threads[t] == Releasing then false else s.token)
          && (s.threads[t] == Starting && Holding(to) ==> !s.token)
          && (s.threads[t] != Starting && s.threads[t] != Releasing ==> Holding(to) == Holding(s.threads[t]))
          && (s.threads[t] == Releasing ==> to == Done)
          && (to == Done ==> s.threads[t] == Releasing || (s.threads[t] == Starting && s.token)))
  {
    t, to := 0, Done;
    if !e.SaveOther? && !e.Delete? && !e.Advance? {
      t := e.t;
      to := At(Apply(s, e, limit), t);
    }
  }

  lemma StepMutex(s: State, e: Event, limit: Option<int>)
    requires Mutex(s)
    ensures Mutex(Apply(s, e, limit))
  {
    var s' := Apply(s, e, limit);
    if e.SaveDownloading? {
      SpawnHolders(s, Saved);
      assert Holders(s') == Holders(s.(threads := s.threads + [Saved]));
    } else {
      var t, to := StepShape(s, e, limit);
      if s'.threads == s.threads && s'.token == s.token {
        assert Holders(s') == Holders(s);
      } else {
        MoveHolders(s, t, to);
        assert Holders(s') == Holders(Move(s, t, to));
        assert t in Holders(s) <==> Holding(s.threads[t]);
      }
    }
  }

  /** workerChan holds its token exactly while one goroutine is between the send and the receive, in
      every state of every run: at most one monitor at a time, and its receive never blocks. */
  lemma {:induction false} MonitorMutex(rows: Rows, events: seq<Event>, limit: Option<int>)
    ensures var s := Run(Init(rows), events, limit);
      && Mutex(s)
      && (forall t, u :: Holding(At(s, t)) && Holding(At(s, u)) ==> t == u)
      && (forall t :: Holding(At(s, t)) ==> s.token)
    decreases |events|
  {
    var s := Run(Init(rows), events, limit);
    if events == [] {
      assert Holders(s) == {};
    } else {
      MonitorMutex(rows, events[..|events| - 1], limit);
      StepMutex(Run(Init(rows), events[..|events| - 1], limit), events[|events| - 1], limit);
    }
    HolderIsAlone(s);
  }

  lemma HolderIsAlone(s: State)
    requires Mutex(s)
    ensures forall t, u :: Holding(At(s, t)) && Holding(At(s, u)) ==> t == u
    ensures forall t :: Holding(At(s, t)) ==> s.token
  {
    forall t | Holding(At(s, t)) ensures Holders(s) == {t} && s.token {
      assert t in Holders(s);
      assert Holders(s) - {t} == {} by {
        assert |Holders(s) - {t}| == |Holders(s)| - 1;
      }
    }
    forall t, u | Holding(At(s, t)) && Holding(At(s, u)) ensures t == u {
      assert u in Holders(s);
    }
  }

  // ---- coverage ----

  predicate Covered(s: State) {
    exists t :: 0 <= t < |s.threads| && WillRead(s.threads[t])
  }

  ghost predicate OnlyLeftovers(s: State) {
    forall id :: IsDownloading(s.rows, id) ==> id in s.late || id in s.abandoned
  }

  ghost predicate Coverage(s: State) {
    && (SomeReleasing(s) ==> OnlyLeftovers(s))
    && (!Covered(s) ==> OnlyLeftovers(s))
  }

  lemma StepCoverage(s: State, e: Event, limit: Option<int>)
    requires Mutex(s) && Coverage(s)
    ensures Coverage(Apply(s, e, limit))
  {
    HolderIsAlone(s);
    var s' := Apply(s, e, limit);
    match e {
      case SaveDownloading(m) =>
        RequestCoverage(s, m, limit);
      case SaveOther(m) =>
      case Delete(id) =>
      case Advance(_) =>
      case Spawn(t) => MoveCoverage(s, s', t);
      case Select(t) =>
        if At(s, t) == Starting && s.token {
          DroppedStarter(s, t);
        } else {
          MoveCoverage(s, s', t);
        }
      case Verify(t, ok) => MoveCoverage(s, s', t);
      case Read(t, order, ok) =>
        if At(s, t) == Reading && ok && Lists(order, s.rows) && order == [] {
          EmptyReadCoverage(s, t);
        } else {
          MoveCoverage(s, s', t);
        }
      case Poll(t, _, _) => MoveCoverage(s, s', t);
      case CheckJob(t, i) => MoveCoverage(s, s', t);
      case SaveJob(t, i) => WorkerSaveCoverage(s, t, i);
      case Join(t) => MoveCoverage(s, s', t);
      case TickerFires(t) => MoveCoverage(s, s', t);
      case Release(t) =>
        if At(s, t) == Releasing { assert SomeReleasing(s) && OnlyLeftovers(s); }
    }
  }

  lemma RequestCoverage(s: State, m: Media, limit: Option<int>)
    requires Coverage(s)
    ensures Coverage(Apply(s, SaveDownloading(m), limit))
  {
    var s' := Apply(s, SaveDownloading(m), limit);
    assert s'.threads[|s.threads|] == Saved;
    assert Covered(s');
    assert SomeReleasing(s') ==> SomeReleasing(s);
  }

  lemma EmptyReadCoverage(s: State, t: nat)
    requires At(s, t) == Reading && Lists([], s.rows)
    ensures Coverage(Move(s, t, Releasing))
  {
    var none: seq<RowId> := [];
    assert (set id | id in none) == {};
    assert forall id :: IsDownloading(s.rows, id) ==> id in DownloadingIds(s.rows);
  }

  /** A goroutine that stays among those that will read, or gives up recording what it leaves. */
  lemma MoveCoverage(s: State, s': State, t: nat)
    requires Coverage(s)
    requires s' == s
          || (t < |s.threads| && s'.threads == s.threads[t := At(s', t)] && s'.rows == s.rows && s'.late == s.late
              && WillRead(s.threads[t])
              && ((WillRead(At(s', t)) && s'.abandoned == s.abandoned)
                  || (At(s', t) == Releasing && s'.abandoned == s.abandoned + DownloadingIds(s.rows))))
    ensures Coverage(s')
  {
    if s' != s {
      if WillRead(At(s', t)) {
        assert Covered(s') by { assert WillRead(s'.threads[t]); }
        if SomeReleasing(s') {
          var u :| 0 <= u < |s'.threads| && s'.threads[u] == Releasing;
          assert s.threads[u] == Releasing;
        }
      } else {
        assert forall id :: IsDownloading(s'.rows, id) ==> id in DownloadingIds(s.rows);
      }
    }
  }

  /** A starter that finds the slot taken leaves it to the holder, who reads again or is releasing. */
  lemma DroppedStarter(s: State, t: nat)
    requires Mutex(s) && Coverage(s) && At(s, t) == Starting && s.token
    ensures Coverage(Move(s, t, Done))
  {
    var s' := Move(s, t, Done);
    assert Holders(s) != {};
    var h :| h in Holders(s);
    assert s'.threads[h] == s.threads[h];
    if s.threads[h] == Releasing {
      assert OnlyLeftovers(s);
    } else {
      assert Covered(s');
    }
    if SomeReleasing(s') {
      var u :| 0 <= u < |s'.threads| && s'.threads[u] == Releasing;
      assert s.threads[u] == Releasing;
    }
  }

  lemma WorkerSaveCoverage(s: State, t: nat, i: nat)
    requires Mutex(s) && Coverage(s)
    ensures Coverage(ApplySave(s, t, i))
  {
    HolderIsAlone(s);
    var s' := ApplySave(s, t, i);
    if s'.threads != s.threads || s'.rows != s.rows {
      assert At(s, t).Joining?;
      assert WillRead(s'.threads[t]);
      forall u | 0 <= u < |s'.threads| ensures s'.threads[u] != Releasing {
        assert u != t ==> At(s, u) == s'.threads[u];
      }
    }
  }

  lemma {:induction false} RunCoverage(rows: Rows, events: seq<Event>, limit: Option<int>)
    ensures var s := Run(Init(rows), events, limit); Mutex(s) && Coverage(s)
    decreases |events|
  {
    MonitorMutex(rows, events, limit);
    if events == [] {
      assert Init(rows).threads[0] == Starting;
    } else {
      var before := Run(Init(rows), events[..|events| - 1], limit);
      RunCoverage(rows, events[..|events| - 1], limit);
      StepCoverage(before, events[|events| - 1], limit);
    }
  }

  // ---- what late and abandoned mean, in terms of the run alone ----

  predicate Fails(e: Event) {
    (e.Verify? && !e.ok) || (e.Read? && !e.ok)
  }

  lemma {:induction false} NothingAbandoned(rows: Rows, events: seq<Event>, limit: Option<int>)
    requires forall e :: e in events ==> !Fails(e)
    ensures Run(Init(rows), events, limit).abandoned == {}
    decreases |events|
  {
    if events != [] {
      NothingAbandoned(rows, events[..|events| - 1], limit);
      assert events[|events| - 1] in events;
    }
  }

  predicate Saves(e: Event, id: RowId) {
    e.SaveDownloading? && e.media.id == id
  }

  /** Event i saved the row, later events did not, and a monitor was releasing at that moment. */
  ghost predicate SavedInWindow(rows: Rows, events: seq<Event>, limit: Option<int>, id: RowId, i: nat) {
    && i < |events| && Saves(events[i], id)
    && (forall j :: i < j < |events| ==> !Saves(events[j], id))
    && SomeReleasing(Run(Init(rows), events[..i], limit))
  }

  lemma LateStep(s: State, e: Event, limit: Option<int>, id: RowId)
    requires id in Apply(s, e, limit).late
    ensures if Saves(e, id) then SomeReleasing(s) else id in s.late
  {
  }

  lemma {:induction false} LateIsSavedInWindow(rows: Rows, events: seq<Event>, limit: Option<int>, id: RowId) returns (i: nat)
    requires id in Run(Init(rows), events, limit).late
    ensures SavedInWindow(rows, events, limit, id, i)
    decreases |events|
  {
    hide Apply, SomeReleasing;
    i := 0;
    if events != [] {
      var front := events[..|events| - 1];
      var last := events[|events| - 1];
      LateStep(Run(Init(rows), front, limit), last, limit, id);
      if Saves(last, id) {
        i := |events| - 1;
      } else {
        i := LateIsSavedInWindow(rows, front, limit, id);
        assert front[..i] == events[..i];
      }
    }
  }

  /** No download is forgotten but one kind: in any run whose client and store calls succeed, a
      Downloading row that no starter and no further read will pick up was last saved by DownloadMedia
      while a monitor stood between its empty read and its release of the slot. */
  lemma UncoveredWasSavedInWindow(rows: Rows, events: seq<Event>, limit: Option<int>, id: RowId) returns (i: nat)
    requires forall e :: e in events ==> !Fails(e)
    requires var s := Run(Init(rows), events, limit); IsDownloading(s.rows, id) && !Covered(s)
    ensures SavedInWindow(rows, events, limit, id, i)
  {
    RunCoverage(rows, events, limit);
    NothingAbandoned(rows, events, limit);
    i := LateIsSavedInWindow(rows, events, limit, id);
  }

  // ---- the gap is real ----

  /** Thread u steps aside: whatever is about to start finds the slot taken. */
  function StepAside(s: State, u: nat): seq<Event> {
    match At(s, u)
    case Saved => [Spawn(u), Select(u)]
    case Starting => [Select(u)]
    case _ => []
  }

  function AllStepAside(s: State, n: nat): seq<Event> {
    if n == 0 then [] else AllStepAside(s, n - 1) + StepAside(s, n - 1)
  }

  lemma RunOne(s: State, e: Event, limit: Option<int>)
    ensures Run(s, [e], limit) == Apply(s, e, limit)
  {
    assert [e][..0] == [];
  }

  lemma RunTwo(s: State, e: Event, f: Event, limit: Option<int>)
    ensures Run(s, [e, f], limit) == Apply(Apply(s, e, limit), f, limit)
  {
    hide Apply;
    assert [e, f] == [e] + [f];
    RunOne(s, e, limit);
    RunOne(Apply(s, e, limit), f, limit);
    RunsCompose(s, [e], [f], limit);
  }

  predicate Beginning(p: Thread) {
    p == Saved || p == Starting
  }

  lemma StepsAside(s: State, u: nat, limit: Option<int>)
    requires s.token && u < |s.threads|
    ensures Run(s, StepAside(s, u), limit) == if Beginning(s.threads[u]) then Move(s, u, Done) else s
  {
    match s.threads[u] {
      case Saved => RunTwo(s, Spawn(u), Select(u), limit);
      case Starting => RunOne(s, Select(u), limit);
      case _ =>
    }
  }

  /** The threads below n have stepped aside. */
  ghost predicate Aside(s: State, s': State, n: nat) {
    && s' == s.(threads := s'.threads) && |s'.threads| == |s.threads|
    && (forall u :: 0 <= u < |s.threads| ==> s'.threads[u] == if u < n && Beginning(s.threads[u]) then Done else s.threads[u])
  }

  lemma {:induction false} AllAside(s: State, n: nat, limit: Option<int>)
    requires s.token && n <= |s.threads|
    ensures Aside(s, Run(s, AllStepAside(s, n), limit), n)
  {
    hide Run, Apply, StepAside, Beginning;
    if n == 0 {
      RunNone(s, limit);
    } else {
      AllAside(s, n - 1, limit);
      var s1 := Run(s, AllStepAside(s, n - 1), limit);
      assert At(s1, n - 1) == At(s, n - 1);
      SameStepAside(s, s1, n - 1);
      StepsAside(s1, n - 1, limit);
      RunsCompose(s, AllStepAside(s, n - 1), StepAside(s, n - 1), limit);
    }
  }

  lemma RunNone(s: State, limit: Option<int>)
    ensures Run(s, [], limit) == s
  {
  }

  lemma SameStepAside(s: State, s': State, u: nat)
    requires At(s', u) == At(s, u)
    ensures StepAside(s', u) == StepAside(s, u)
  {
  }

  /** A request whose starter finds the slot of a releasing monitor, then the release. */
  function Missed(s: State, m: Media, t: nat): seq<Event> {
    [SaveDownloading(m), Spawn(|s.threads|)] + [Select(|s.threads|), Release(t)]
  }

  lemma MissedIsLost(s: State, m: Media, t: nat, limit: Option<int>)
    requires Mutex(s) && At(s, t) == Releasing && !Covered(s)
    ensures var s' := Run(s, Missed(s, m, t), limit); IsDownloading(s'.rows, m.id) && !Covered(s') && !s'.token
  {
    var u := |s.threads|;
    var a, b, c, d := SaveDownloading(m), Spawn(u), Select(u), Release(t);
    HolderIsAlone(s);
    RunTwo(s, a, b, limit);
    var s2 := Apply(Apply(s, a, limit), b, limit);
    assert s2.threads == s.threads + [Starting];
    RunTwo(s2, c, d, limit);
    RunsCompose(s, [a, b], [c, d], limit);
    var s' := Apply(Apply(s2, c, limit), d, limit);
    assert s'.threads == (s.threads + [Done])[t := Done];
    forall v | 0 <= v < |s'.threads| ensures !WillRead(s'.threads[v]) {
      assert v < u ==> !WillRead(s.threads[v]);
    }
  }

  /** From every reachable state in which a monitor stands between its last read and its release, any
      row can be lost, though no call fails: whatever else is about to start finds the slot taken, and so
      does the row's own starter. */
  lemma WindowLosesRow(rows: Rows, before: seq<Event>, t: nat, m: Media, limit: Option<int>) returns (more: seq<Event>)
    requires At(Run(Init(rows), before, limit), t) == Releasing
    ensures forall e :: e in more ==> !Fails(e)
    ensures var s := Run(Init(rows), before + more, limit); IsDownloading(s.rows, m.id) && !Covered(s) && !s.token
  {
    hide Run, Apply, AllStepAside, Mutex;
    var s := Run(Init(rows), before, limit);
    MonitorMutex(rows, before, limit);
    assert Holding(At(s, t)) && s.token;
    var n := |s.threads|;
    AllAside(s, n, limit);
    var s1 := Run(s, AllStepAside(s, n), limit);
    RunsCompose(Init(rows), before, AllStepAside(s, n), limit);
    MonitorMutex(rows, before + AllStepAside(s, n), limit);
    forall u | 0 <= u < |s1.threads| ensures !WillRead(s1.threads[u]) {
      assert At(s, u) == s.threads[u];
    }
    MissedIsLost(s1, m, t, limit);
    more := AllStepAside(s, n) + Missed(s1, m, t);
    RunsCompose(s, AllStepAside(s, n), Missed(s1, m, t), limit);
    RunsCompose(Init(rows), before, more, limit);
    NoneFails(s, n);
  }

  lemma {:induction false} NoneFails(s: State, n: nat)
    ensures forall e :: e in AllStepAside(s, n) ==> !Fails(e)
  {
    if n != 0 { NoneFails(s, n - 1); }
  }

  /** Such states are reached: a monitor that finds nothing to do stands there. */
  lemma WindowOpens(rows: Rows, limit: Option<int>)
    requires DownloadingIds(rows) == {}
    ensures At(Run(Init(rows), [Select(0), Verify(0, true), Read(0, [], true)], limit), 0) == Releasing
  {
    var none: seq<RowId> := [];
    assert (set id | id in none) == {};
    var a, b, c := Select(0), Verify(0, true), Read(0, none, true);
    RunTwo(Init(rows), a, b, limit);
    var s := Apply(Apply(Init(rows), a, limit), b, limit);
    RunOne(s, c, limit);
    RunsCompose(Init(rows), [a, b], [c], limit);
    assert [a, b] + [c] == [a, b, c];
  }
}
