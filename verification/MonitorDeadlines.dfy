/** A download is to be given up when more than the limit has passed since its row was last saved. The
    monitor measures from the copy it read: when that is the same, and when it is early. */
module MonitorDeadlines {
  import opened Options
  import opened Downloads
  import opened MonitorProtocol
  import opened MonitorHistory
  import opened MonitorCopies

  // ---- copies nobody else has made old ----

  /** A goroutine's copies are of different rows. */
  ghost predicate Tidy(p: Thread) {
    match p
    case Polling(snap) => forall c, d :: c in snap && d in snap && c != d ==> snap[c].id != snap[d].id
    case Joining(ws) =>
      && (forall i, j :: 0 <= i < j < |ws| ==> ws[i].job.media.id != ws[j].job.media.id)
      && (forall i :: 0 <= i < |ws| && ws[i].Checked? ==> ws[i].media.id == ws[i].job.media.id)
    case _ => true
  }

  /** A copy of row id that has not been checked yet is the stored row. */
  ghost predicate Current(rows: Rows, p: Thread, id: RowId) {
    match p
    case Polling(snap) => forall c :: c in snap && snap[c].id == id ==> Lookup(rows, id) == Some(snap[c])
    case Joining(ws) => forall i :: 0 <= i < |ws| && ws[i].Pending? && ws[i].job.media.id == id ==> Lookup(rows, id) == Some(ws[i].job.media)
    case _ => true
  }

  ghost predicate UpToDate(s: State, t: nat, id: RowId) {
    Keyed(s.rows) && Tidy(At(s, t)) && Current(s.rows, At(s, t), id)
  }

  /** The event does not write row id by request, and if it is a status answer, its ids are distinct. */
  ghost predicate LeavesRow(e: Event, id: RowId) {
    !Touches(e, id) && (e.Poll? && e.ok ==> DistinctTorrents(e.reports))
  }

  lemma ReadIsUpToDate(rows: Rows, order: seq<RowId>, id: RowId)
    requires Keyed(rows)
    ensures Tidy(Polling(Snapshot(rows, order))) && Current(rows, Polling(Snapshot(rows, order)), id)
  {
    SnapshotHolds(rows, order);
    var snap := Snapshot(rows, order);
    forall c | c in snap ensures Lookup(rows, snap[c].id) == Some(snap[c]) && snap[c].torrent == c { }
  }

  lemma {:induction false} JobsOfDistinct(snap: map<TorrentId, Media>, reports: seq<Report>)
    requires Tidy(Polling(snap)) && DistinctTorrents(reports)
    ensures DistinctRows(Jobs(snap, reports))
    decreases |reports|
  {
    if reports != [] {
      JobsOfDistinct(snap, reports[1..]);
      var rest := Jobs(snap, reports[1..]);
      if reports[0].torrent in snap {
        forall j | 0 <= j < |rest| ensures rest[j].media.id != snap[reports[0].torrent].id {
          var i := JobsComeFrom(snap, reports[1..], j);
          assert reports[1..][i] == reports[i + 1] && reports[0].torrent != reports[i + 1].torrent;
        }
      }
    }
  }

  lemma PollIsUpToDate(rows: Rows, snap: map<TorrentId, Media>, reports: seq<Report>, id: RowId)
    requires Tidy(Polling(snap)) && Current(rows, Polling(snap), id) && DistinctTorrents(reports)
    ensures var p := Joining(StartWorkers(Jobs(snap, reports))); Tidy(p) && Current(rows, p, id)
  {
    var jobs := Jobs(snap, reports);
    JobsOfDistinct(snap, reports);
    forall i | 0 <= i < |jobs| && jobs[i].media.id == id ensures Lookup(rows, id) == Some(jobs[i].media) {
      var n := JobsComeFrom(snap, reports, i);
    }
  }

  lemma CheckIsUpToDate(s: State, t: nat, i: nat, id: RowId, limit: Option<int>)
    requires UpToDate(s, t, id)
    ensures UpToDate(ApplyCheck(s, t, i, limit), t, id)
  {
    hide Check;
    if At(s, t).Joining? && i < |At(s, t).workers| {
      var job := At(s, t).workers[i].job;
      CheckedId(job.media, job.report, s.now, limit);
    }
  }

  lemma SaveIsUpToDate(s: State, t: nat, i: nat, id: RowId)
    requires UpToDate(s, t, id)
    ensures UpToDate(ApplySave(s, t, i), t, id)
  {
    var s' := ApplySave(s, t, i);
    if At(s, t).Joining? {
      var ws, ws' := At(s, t).workers, At(s', t).workers;
      forall j | 0 <= j < |ws'| && ws'[j].Pending? && ws'[j].job.media.id == id
        ensures Lookup(s'.rows, id) == Some(ws'[j].job.media)
      {
        assert ws'[j] == ws[j] && (i < |ws| && ws[i].Checked? ==> i != j);
        if i < |ws| && i != j { assert ws[i].job.media.id != ws[j].job.media.id; }
      }
    }
  }

  /** Only the holder of the slot has copies, so only it can make its own copies old. */
  lemma ElsewhereIsUpToDate(s: State, e: Event, t: nat, id: RowId, limit: Option<int>)
    requires UpToDate(s, t, id) && Mutex(s) && !Touches(e, id)
    requires (e.CheckJob? || e.SaveJob?) && e.t != t
    ensures UpToDate(Apply(s, e, limit), t, id)
  {
    HolderIsAlone(s);
    StepKeepsKeyed(s, e, limit);
    if At(s, e.t).Joining? {
      assert !Holding(At(s, t));
    }
  }

  lemma StepIsUpToDate(s: State, e: Event, t: nat, id: RowId, limit: Option<int>)
    requires UpToDate(s, t, id) && Mutex(s) && LeavesRow(e, id)
    ensures UpToDate(Apply(s, e, limit), t, id)
  {
    hide Snapshot, Jobs, ApplyCheck, ApplySave, Lists, StartWorkers, Mutex;
    StepKeepsKeyed(s, e, limit);
    match e {
      case Read(u, order, _) => ReadIsUpToDate(s.rows, order, id);
      case Poll(u, reports, ok) => if At(s, u).Polling? && u == t && ok { PollIsUpToDate(s.rows, At(s, t).snap, reports, id); }
      case CheckJob(u, i) => if u == t { CheckIsUpToDate(s, t, i, id, limit); } else { ElsewhereIsUpToDate(s, e, t, id, limit); }
      case SaveJob(u, i) => if u == t { SaveIsUpToDate(s, t, i, id); } else { ElsewhereIsUpToDate(s, e, t, id, limit); }
      case SaveDownloading(m) => RequestIsUpToDate(s, Apply(s, e, limit), t, id);
      case SaveOther(m) => RequestIsUpToDate(s, Apply(s, e, limit), t, id);
      case Delete(_) => RequestIsUpToDate(s, Apply(s, e, limit), t, id);
      case _ => assert Apply(s, e, limit).rows == s.rows;
    }
  }

  lemma RequestIsUpToDate(s: State, s': State, t: nat, id: RowId)
    requires UpToDate(s, t, id) && Keyed(s'.rows) && Lookup(s'.rows, id) == Lookup(s.rows, id)
    requires s'.threads == s.threads || s'.threads == s.threads + [Saved]
    ensures UpToDate(s', t, id)
  {
    assert At(s', t) == At(s, t) || At(s', t) == Saved;
  }

  lemma {:induction false} RunIsUpToDate(s: State, events: seq<Event>, t: nat, id: RowId, limit: Option<int>)
    requires UpToDate(s, t, id) && Mutex(s) && forall e :: e in events ==> LeavesRow(e, id)
    ensures UpToDate(MonitorProtocol.Run(s, events, limit), t, id) && Mutex(MonitorProtocol.Run(s, events, limit))
    decreases |events|
  {
    hide Apply, UpToDate, Mutex;
    if events != [] {
      var front := events[..|events| - 1];
      assert events[|events| - 1] in events;
      RunIsUpToDate(s, front, t, id, limit);
      StepIsUpToDate(MonitorProtocol.Run(s, front, limit), events[|events| - 1], t, id, limit);
      StepMutex(MonitorProtocol.Run(s, front, limit), events[|events| - 1], limit);
    }
  }

  // ---- when the deadline is the row's own ----

  predicate IsPending(s: State, t: nat, i: nat) {
    At(s, t).Joining? && i < |At(s, t).workers| && At(s, t).workers[i].Pending?
  }

  function JobOf(s: State, t: nat, i: nat): Job
    requires IsPending(s, t, i)
  {
    At(s, t).workers[i].job
  }

  /** Checking goroutine i now would mark its row as taking too long. */
  predicate WouldMark(s: State, t: nat, i: nat, limit: Option<int>) {
    IsPending(s, t, i) && TooLong(Check(JobOf(s, t, i).media, JobOf(s, t, i).report, s.now, limit))
  }

  /** More than the limit has passed since the stored row was saved. */
  predicate IsLate(s: State, id: RowId, limit: Option<int>) {
    id in s.rows && TimedOut(s.rows[id], s.now, limit)
  }

  lemma PendingIsDownloading(rows0: Rows, events: seq<Event>, t: nat, i: nat, limit: Option<int>)
    requires Keyed(rows0) && IsPending(MonitorProtocol.Run(Init(rows0), events, limit), t, i)
    ensures JobOf(MonitorProtocol.Run(Init(rows0), events, limit), t, i).media.status == Downloading
  {
    var h := Past(rows0, events, limit);
    RunExplained(h);
    assert ThreadExplained(h, At(Present(h), t));
    assert WorkerExplained(h, At(Present(h), t).workers[i]);
  }

  /** In every run: if nobody writes a row by request between the monitor's read and its check, and the
      status answers have distinct ids, then the row is marked as taking too long exactly if the torrent
      is in progress and more than the limit has passed since the stored row was last saved. */
  lemma MarkedIsLate(rows0: Rows, before: seq<Event>, order: seq<RowId>, between: seq<Event>, t: nat, i: nat, limit: Option<int>)
    requires Keyed(rows0) && At(MonitorProtocol.Run(Init(rows0), before, limit), t) == Reading
    requires var s := MonitorProtocol.Run(Init(rows0), before + [Read(t, order, true)] + between, limit);
      IsPending(s, t, i) && forall e :: e in between ==> LeavesRow(e, JobOf(s, t, i).media.id)
    ensures var s := MonitorProtocol.Run(Init(rows0), before + [Read(t, order, true)] + between, limit);
      var id := JobOf(s, t, i).media.id;
      && Lookup(s.rows, id) == Some(JobOf(s, t, i).media)
      && (WouldMark(s, t, i, limit) <==> JobOf(s, t, i).report.state == InProgress && IsLate(s, id, limit))
  {
    var read := Read(t, order, true);
    var s0 := MonitorProtocol.Run(Init(rows0), before, limit);
    var s1 := MonitorProtocol.Run(Init(rows0), before + [read], limit);
    var s := MonitorProtocol.Run(Init(rows0), before + [read] + between, limit);
    var id := JobOf(s, t, i).media.id;
    RunsCompose(Init(rows0), before + [read], between, limit);
    assert (before + [read])[..|before|] == before && s1 == Apply(s0, read, limit);
    PendingIsDownloading(rows0, before + [read] + between, t, i, limit);
    MonitorMutex(rows0, before, limit);
    RunKeepsKeyed(Init(rows0), before, limit);
    assert UpToDate(s0, t, id);
    StepIsUpToDate(s0, read, t, id, limit);
    StepMutex(s0, read, limit);
    RunIsUpToDate(s1, between, t, id, limit);
    assert Current(s.rows, At(s, t), id);
  }

  // ---- and when it is not ----

  /** After dt more, goroutine i marks its row, although the stored row is within its limit. */
  predicate MarksEarly(s: State, t: nat, i: nat, limit: int, dt: nat) {
    IsPending(s, t, i)
    && var s' := Apply(s, Advance(dt), Some(limit));
      WouldMark(s', t, i, Some(limit)) && JobOf(s, t, i).media.id in s'.rows && !IsLate(s', JobOf(s, t, i).media.id, Some(limit))
  }

  /** Exactly when a mark can come early: a torrent in progress whose row has been saved, with a later
      stamp, since the goroutine's copy was made, and is not itself past the limit. */
  lemma MarksEarlyIff(s: State, t: nat, i: nat, limit: int)
    requires IsPending(s, t, i) && JobOf(s, t, i).media.status == Downloading && JobOf(s, t, i).media.id in s.rows
    ensures var m := JobOf(s, t, i).media; var stored := s.rows[m.id];
      (exists dt :: MarksEarly(s, t, i, limit, dt))
      <==> JobOf(s, t, i).report.state == InProgress && m.updatedAt < stored.updatedAt && s.now - stored.updatedAt <= limit
  {
    var m := JobOf(s, t, i).media;
    if JobOf(s, t, i).report.state == InProgress && m.updatedAt < s.rows[m.id].updatedAt && s.now - s.rows[m.id].updatedAt <= limit {
      var dt: nat := if m.updatedAt + limit + 1 <= s.now then 0 else m.updatedAt + limit + 1 - s.now;
      assert MarksEarly(s, t, i, limit, dt);
    } else {
      forall dt ensures !MarksEarly(s, t, i, limit, dt) { }
    }
  }

  /** So every request that saves the row while its goroutine waits, later than the copy's stamp, can be
      followed by an early mark. */
  lemma RequestThenEarly(s: State, t: nat, i: nat, limit: int, m: Media) returns (dt: nat)
    requires IsPending(s, t, i) && JobOf(s, t, i).media.status == Downloading && JobOf(s, t, i).report.state == InProgress
    requires m.id == JobOf(s, t, i).media.id && JobOf(s, t, i).media.updatedAt < s.now && limit >= 0
    ensures MarksEarly(Apply(s, SaveDownloading(m), Some(limit)), t, i, limit, dt)
  {
    var s' := Apply(s, SaveDownloading(m), Some(limit));
    assert At(s', t) == At(s, t);
    MarksEarlyIff(s', t, i, limit);
    dt :| MarksEarly(s', t, i, limit, dt);
  }

  /** A run from the start: a row is retried after its limit, and the goroutine that was already waiting
      marks it as taking too long at that very moment. */
  lemma RetryIsTimedOut(m: Media, r: Report, limit: nat)
    requires m.status == Downloading && r.torrent == m.torrent && r.state == InProgress && r.saves && m.updatedAt <= 0
    ensures var more: seq<Event> := [Advance(limit + 1), SaveDownloading(m), CheckJob(0, 0), SaveJob(0, 0)];
      var events := PollingEvents(m, r) + more;
      var retried := MonitorProtocol.Run(Init(map[m.id := m]), PollingEvents(m, r) + more[..2], Some(limit));
      var s := MonitorProtocol.Run(Init(map[m.id := m]), events, Some(limit));
      && Lookup(retried.rows, m.id) == Some(m.(updatedAt := limit + 1)) && retried.now == limit + 1
      && IsTimedOut(s.rows, m.id) && s.now == retried.now
  {
    hide Apply, MonitorProtocol.Run, PollingEvents;
    var l := Some(limit);
    var start := Init(map[m.id := m]);
    var a, b, c, d := Advance(limit + 1), SaveDownloading(m), CheckJob(0, 0), SaveJob(0, 0);
    var more := [a, b, c, d];
    var s0 := PollingState(m, r, 4);
    PollingRun(m, r, 4, l);
    assert PollingEvents(m, r)[..4] == PollingEvents(m, r) by { FourEvents(m, r); }
    RunsCompose(start, PollingEvents(m, r), [a, b], l);
    RunsCompose(start, PollingEvents(m, r), more, l);
    assert more[..2] == [a, b];
    RunsCompose(s0, [a, b], [c, d], l);
    assert [a, b] + [c, d] == more;
    var s2 := Apply(Apply(s0, a, l), b, l);
    RunTwo(s0, a, b, l);
    RunTwo(s2, c, d, l);
    RetriedState(m, r, limit);
    RetriedIsMarked(s2, m, r, l);
  }

  lemma FourEvents(m: Media, r: Report)
    ensures |PollingEvents(m, r)| == 4
  {
  }

  lemma RetriedState(m: Media, r: Report, limit: nat)
    requires m.status == Downloading && m.updatedAt <= 0
    ensures var s := Apply(Apply(PollingState(m, r, 4), Advance(limit + 1), Some(limit)), SaveDownloading(m), Some(limit));
      && At(s, 0) == Joining([Pending(Job(m, r))]) && s.now == limit + 1
      && Lookup(s.rows, m.id) == Some(m.(updatedAt := limit + 1))
  {
  }

  lemma RetriedIsMarked(s: State, m: Media, r: Report, limit: Option<int>)
    requires At(s, 0) == Joining([Pending(Job(m, r))]) && m.status == Downloading && r.state == InProgress && r.saves
    requires limit.Some? && s.now - m.updatedAt > limit.value
    ensures var s' := Apply(Apply(s, CheckJob(0, 0), limit), SaveJob(0, 0), limit); IsTimedOut(s'.rows, m.id) && s'.now == s.now
  {
    var s1 := Apply(s, CheckJob(0, 0), limit);
    assert At(s1, 0).workers[0].Checked?;
  }
}
