/** How many rounds a monitor makes in the interleaved protocol: with no requests and a client that decides
    every torrent it is asked about, as many status answers as the largest number of rows sharing one
    torrent id, whatever the schedule. */
module MonitorRunRounds {
  import opened Options
  import opened Downloads
  import opened MonitorProtocol
  import opened MonitorProgress
  import opened MonitorCopies

  /** A status answer to the ids of a snapshot that calls each finished or failed. */
  ghost predicate Decided(snap: map<TorrentId, Media>, reports: seq<Report>) {
    && DistinctTorrents(reports)
    && (forall i :: 0 <= i < |reports| ==> reports[i].state != InProgress && reports[i].saves)
    && (forall c :: c in snap ==> Reports(reports, c))
  }

  /** No request, no failure, and every status answer that comes decides what was asked. */
  ghost predicate Calm(s: State, e: Event) {
    && !e.SaveDownloading? && !e.SaveOther? && !e.Delete? && !Fails(e)
    && (e.Poll? && e.ok && At(s, e.t).Polling? ==> Decided(At(s, e.t).snap, e.reports))
  }

  ghost predicate Undisturbed(rows: Rows, events: seq<Event>, limit: Option<int>)
    decreases |events|
  {
    events == []
    || (Undisturbed(rows, events[..|events| - 1], limit)
        && Calm(Run(Init(rows), events[..|events| - 1], limit), events[|events| - 1]))
  }

  /** The rounds: status answers a polling monitor got. */
  function Answers(rows: Rows, events: seq<Event>, limit: Option<int>): nat
    decreases |events|
  {
    if events == [] then 0
    else
      var front := events[..|events| - 1];
      var e := events[|events| - 1];
      Answers(rows, front, limit) + if Answered(Run(Init(rows), front, limit), e) then 1 else 0
  }

  predicate Answered(s: State, e: Event) {
    e.Poll? && e.ok && At(s, e.t).Polling?
  }

  /** Sharers of c still Downloading after p rounds. */
  function Left(rows0: Rows, c: TorrentId, p: nat): nat {
    if |Sharers(rows0, c)| <= p then 0 else |Sharers(rows0, c)| - p
  }

  predicate Open(ws: seq<Worker>, c: TorrentId) {
    exists i :: 0 <= i < |ws| && !ws[i].Finished? && ws[i].job.media.torrent == c
  }

  ghost predicate SnapshotOf(rows: Rows, snap: map<TorrentId, Media>) {
    && snap != map[]
    && (forall c :: c in snap ==> snap[c].torrent == c && snap[c].status == Downloading && Lookup(rows, snap[c].id) == Some(snap[c]))
    && (forall c :: Sharers(rows, c) != {} ==> c in snap)
  }

  /** A worker whose row will be decided. */
  ghost predicate WorkerDecides(rows: Rows, w: Worker) {
    && w.job.report.saves && w.job.report.state != InProgress && w.job.report.torrent == w.job.media.torrent
    && (!w.Finished? ==> w.job.media.id in Sharers(rows, w.job.media.torrent))
    && (w.Checked? ==> w.media.id == w.job.media.id && w.media.torrent == w.job.media.torrent && w.media.status != Downloading)
  }

  ghost predicate WorkersDecide(rows: Rows, ws: seq<Worker>) {
    && (forall i :: 0 <= i < |ws| ==> WorkerDecides(rows, ws[i]))
    && (forall i, j :: 0 <= i < j < |ws| ==> ws[i].job.media.torrent != ws[j].job.media.torrent)
  }

  ghost predicate Counted(rows0: Rows, s: State, p: nat) {
    && |s.threads| == 1 && Keyed(s.rows)
    && (p == 0 || exists c :: |Sharers(rows0, c)| >= p)
    && match s.threads[0]
       case Polling(snap) => SnapshotOf(s.rows, snap) && AllLeft(rows0, s.rows, p)
       case Joining(ws) => WorkersDecide(s.rows, ws) && forall c :: |Sharers(s.rows, c)| == Left(rows0, c, p) + if Open(ws, c) then 1 else 0
       case Starting => !s.token && AllLeft(rows0, s.rows, p)
       case Releasing => DownloadingIds(s.rows) == {} && AllLeft(rows0, s.rows, p)
       case Done => DownloadingIds(s.rows) == {} && AllLeft(rows0, s.rows, p)
       case Saved => false
       case _ => AllLeft(rows0, s.rows, p)
  }

  ghost predicate AllLeft(rows0: Rows, rows: Rows, p: nat) {
    forall c :: |Sharers(rows, c)| == Left(rows0, c, p)
  }

  lemma ReadCounts(rows: Rows, order: seq<RowId>)
    requires Keyed(rows) && Lists(order, rows) && order != []
    ensures SnapshotOf(rows, Snapshot(rows, order))
  {
    var snap := Snapshot(rows, order);
    SnapshotHolds(rows, order);
    forall id | id in order ensures id in DownloadingIds(rows) {
      assert id in (set x | x in order);
    }
    assert order[0] in order && order[0] in rows && rows[order[0]].torrent in snap;
    forall c | c in snap ensures snap[c].status == Downloading && Lookup(rows, snap[c].id) == Some(snap[c]) {
      assert snap[c].id in DownloadingIds(rows);
    }
    forall c | Sharers(rows, c) != {} ensures c in snap {
      var id :| id in Sharers(rows, c);
      assert id in DownloadingIds(rows);
      assert id in (set x | x in order);
    }
  }

  lemma PollCounts(rows0: Rows, rows: Rows, p: nat, snap: map<TorrentId, Media>, reports: seq<Report>)
    requires SnapshotOf(rows, snap) && AllLeft(rows0, rows, p) && Decided(snap, reports)
    ensures var ws := StartWorkers(Jobs(snap, reports));
      WorkersDecide(rows, ws) && forall c :: |Sharers(rows, c)| == Left(rows0, c, p + 1) + if Open(ws, c) then 1 else 0
    ensures exists c :: |Sharers(rows0, c)| >= p + 1
  {
    var jobs := Jobs(snap, reports);
    var ws := StartWorkers(jobs);
    forall i | 0 <= i < |ws| ensures WorkerDecides(rows, ws[i]) {
      var n := JobsComeFrom(snap, reports, i);
    }
    forall i, j | 0 <= i < j < |ws| ensures ws[i].job.media.torrent != ws[j].job.media.torrent {
      JobsDiffer(snap, reports, i, j);
    }
    forall c ensures |Sharers(rows, c)| == Left(rows0, c, p + 1) + if Open(ws, c) then 1 else 0 {
      if c in snap {
        assert Reports(reports, c);
        var n :| 0 <= n < |reports| && reports[n].torrent == c;
        var i := JobsCover(snap, reports, n);
        assert ws[i].job.media.torrent == c;
        assert snap[c].id in Sharers(rows, c);
      } else {
        assert Sharers(rows, c) == {};
        if i :| 0 <= i < |ws| && ws[i].job.media.torrent == c { var n := JobsComeFrom(snap, reports, i); }
      }
    }
    var c :| c in snap;
    assert snap[c].id in Sharers(rows, c);
    assert Sharers(rows, c) != {};
    assert |Sharers(rows0, c)| >= p + 1;
  }

  lemma {:induction false} JobsDiffer(snap: map<TorrentId, Media>, reports: seq<Report>, i: nat, j: nat)
    requires DistinctTorrents(reports) && i < j < |Jobs(snap, reports)| && forall c :: c in snap ==> snap[c].torrent == c
    ensures Jobs(snap, reports)[i].media.torrent != Jobs(snap, reports)[j].media.torrent
    decreases |reports|
  {
    var rest := Jobs(snap, reports[1..]);
    if reports[0].torrent in snap {
      if i == 0 {
        var n := JobsComeFrom(snap, reports[1..], j - 1);
        assert reports[1..][n] == reports[n + 1] && reports[0].torrent != reports[n + 1].torrent;
      } else {
        JobsDiffer(snap, reports[1..], i - 1, j - 1);
      }
    } else {
      JobsDiffer(snap, reports[1..], i, j);
    }
  }

  lemma CheckDecides(rows: Rows, w: Worker, now: int, limit: Option<int>)
    requires w.Pending? && WorkerDecides(rows, w)
    ensures WorkerDecides(rows, Checked(w.job, Check(w.job.media, w.job.report, now, limit)))
  {
  }

  lemma CheckCounts(rows0: Rows, s: State, i: nat, p: nat, limit: Option<int>)
    requires Counted(rows0, s, p) && At(s, 0).Joining?
    ensures Counted(rows0, ApplyCheck(s, 0, i, limit), p)
  {
    hide Check, Sharers, WorkerDecides, Left, Keyed;
    var s' := ApplyCheck(s, 0, i, limit);
    var ws, ws' := At(s, 0).workers, At(s', 0).workers;
    forall j | 0 <= j < |ws'| ensures WorkerDecides(s'.rows, ws'[j]) {
      assert WorkerDecides(s.rows, ws[j]);
      if ws[j].Pending? { CheckDecides(s.rows, ws[j], s.now, limit); }
    }
    forall c ensures Open(ws', c) == Open(ws, c) {
      if j :| 0 <= j < |ws| && !ws[j].Finished? && ws[j].job.media.torrent == c { assert !ws'[j].Finished? && ws'[j].job == ws[j].job; }
      if j :| 0 <= j < |ws'| && !ws'[j].Finished? && ws'[j].job.media.torrent == c { assert !ws[j].Finished? && ws'[j].job == ws[j].job; }
    }
  }

  lemma SaveCounts(rows0: Rows, s: State, i: nat, p: nat)
    requires Counted(rows0, s, p) && At(s, 0).Joining?
    ensures Counted(rows0, ApplySave(s, 0, i), p)
  {
    var s' := ApplySave(s, 0, i);
    var ws, ws' := At(s, 0).workers, At(s', 0).workers;
    if i < |ws| && ws[i].Checked? {
      var w := ws[i];
      var id, c := w.media.id, w.media.torrent;
      assert WorkerDecides(s.rows, w);
      SavedSharers(s.rows, s'.rows, w.media, s.now);
      forall j | 0 <= j < |ws'| ensures WorkerDecides(s'.rows, ws'[j]) {
        assert WorkerDecides(s.rows, ws[j]);
        if j != i { assert ws[j].job.media.torrent != c; }
      }
      forall d ensures |Sharers(s'.rows, d)| == Left(rows0, d, p) + if Open(ws', d) then 1 else 0 {
        OneLessOpen(ws, ws', i, d);
      }
    }
  }

  lemma SavedSharers(rows: Rows, rows': Rows, m: Media, now: int)
    requires rows' == Save(rows, m, now) && m.status != Downloading && m.id in Sharers(rows, m.torrent)
    ensures forall d :: Sharers(rows', d) == if d == m.torrent then Sharers(rows, d) - {m.id} else Sharers(rows, d)
  {
  }

  lemma OneLessOpen(ws: seq<Worker>, ws': seq<Worker>, i: nat, d: TorrentId)
    requires i < |ws| && ws[i].Checked? && ws' == ws[i := Finished(ws[i].job)]
    requires forall j, k :: 0 <= j < k < |ws| ==> ws[j].job.media.torrent != ws[k].job.media.torrent
    ensures Open(ws', d) == (Open(ws, d) && d != ws[i].job.media.torrent)
    ensures Open(ws, ws[i].job.media.torrent)
  {
    if j :| 0 <= j < |ws| && !ws[j].Finished? && ws[j].job.media.torrent == d { assert j != i ==> ws'[j] == ws[j]; }
    if j :| 0 <= j < |ws'| && !ws'[j].Finished? && ws'[j].job.media.torrent == d { assert j != i && ws'[j] == ws[j]; }
  }

  lemma StepCounts(rows0: Rows, s: State, e: Event, p: nat, limit: Option<int>)
    requires Counted(rows0, s, p) && Calm(s, e)
    ensures Counted(rows0, Apply(s, e, limit), p + if Answered(s, e) then 1 else 0)
  {
    hide Snapshot, Jobs, ApplyCheck, ApplySave, Lists, StartWorkers, Sharers, WorkersDecide, SnapshotOf, Decided, Left;
    var s' := Apply(s, e, limit);
    match e {
      case Read(t, order, _) =>
        ReadStepCounts(rows0, s, t, order, p, limit);
      case Poll(t, reports, ok) =>
        if t == 0 && At(s, 0).Polling? && ok { PollCounts(rows0, s.rows, p, At(s, 0).snap, reports); }
      case CheckJob(t, i) =>
        if t == 0 && At(s, 0).Joining? { CheckCounts(rows0, s, i, p, limit); } else { NoWorker(s, t, i, limit); }
      case SaveJob(t, i) =>
        if t == 0 && At(s, 0).Joining? { SaveCounts(rows0, s, i, p); } else { NoWorker(s, t, i, limit); }
      case Join(t) =>
        if t == 0 && JoinReady(s, 0) { assert forall c :: !Open(At(s, 0).workers, c); }
      case _ =>
    }
  }

  lemma ReadStepCounts(rows0: Rows, s: State, t: nat, order: seq<RowId>, p: nat, limit: Option<int>)
    requires Counted(rows0, s, p)
    ensures Counted(rows0, Apply(s, Read(t, order, true), limit), p)
  {
    hide Snapshot, Lists, Sharers, SnapshotOf, Left;
    if t == 0 && At(s, 0) == Reading && Lists(order, s.rows) {
      if order == [] { NoneListed(s.rows); } else { ReadCounts(s.rows, order); }
    }
  }

  lemma NoneListed(rows: Rows)
    requires Lists([], rows)
    ensures DownloadingIds(rows) == {}
  {
  }

  lemma NoWorker(s: State, t: nat, i: nat, limit: Option<int>)
    requires !At(s, t).Joining?
    ensures ApplyCheck(s, t, i, limit) == s && ApplySave(s, t, i) == s
  {
  }

  lemma {:induction false} RunCounts(rows: Rows, events: seq<Event>, limit: Option<int>)
    requires Keyed(rows) && Undisturbed(rows, events, limit)
    ensures Counted(rows, Run(Init(rows), events, limit), Answers(rows, events, limit))
    decreases |events|
  {
    hide Apply, Counted, Calm;
    if events == [] {
      StartCounts(rows);
    } else {
      var front := events[..|events| - 1];
      RunCounts(rows, front, limit);
      StepCounts(rows, Run(Init(rows), front, limit), events[|events| - 1], Answers(rows, front, limit), limit);
    }
  }

  lemma StartCounts(rows: Rows)
    requires Keyed(rows)
    ensures Counted(rows, Init(rows), 0)
  {
  }

  /** The number of rounds is m, the largest number of rows sharing one torrent id: in every undisturbed
      run in which the monitor has come to its release, it has had exactly m status answers, however its
      goroutines were scheduled and however often a status call failed, and nothing is Downloading. */
  lemma ReleasesAfterExactly(rows: Rows, events: seq<Event>, limit: Option<int>, m: nat, c: TorrentId)
    requires Keyed(rows) && Undisturbed(rows, events, limit)
    requires var p := At(Run(Init(rows), events, limit), 0); p == Releasing || p == Done
    requires |Sharers(rows, c)| == m && forall d :: |Sharers(rows, d)| <= m
    ensures Answers(rows, events, limit) == m
    ensures DownloadingIds(Run(Init(rows), events, limit).rows) == {}
  {
    RunCounts(rows, events, limit);
    var s := Run(Init(rows), events, limit);
    var p := Answers(rows, events, limit);
    assert Sharers(s.rows, c) <= DownloadingIds(s.rows);
    assert Sharers(s.rows, c) == {};
    assert Left(rows, c, p) == 0;
    if p > 0 {
      var d :| |Sharers(rows, d)| >= p;
    }
  }
}
