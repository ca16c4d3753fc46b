/** What the rows say about the past of a run. */
module MonitorHistory {
  import opened Options
  import opened Downloads
  import opened MonitorProtocol

  /** A run: where it started, what happened, the time limit. */
  datatype Past = Past(rows: Rows, events: seq<Event>, limit: Option<int>)

  function After(h: Past, n: nat): State
    requires n <= |h.events|
  {
    MonitorProtocol.Run(Init(h.rows), h.events[..n], h.limit)
  }

  function Present(h: Past): State {
    MonitorProtocol.Run(Init(h.rows), h.events, h.limit)
  }

  function Then(h: Past, e: Event): Past {
    h.(events := h.events + [e])
  }

  /** Some status answer so far said r about its torrent. */
  ghost predicate Reported(h: Past, r: Report) {
    exists e :: e in h.events && e.Poll? && e.ok && r in e.reports
  }

  /** The client called torrent c complete, its files were placed and its row was saved. */
  ghost predicate Finalized(h: Past, c: TorrentId) {
    exists r :: Reported(h, r) && r.torrent == c && r.state == Complete && r.finalizes && r.saves
  }

  /** The store once held exactly this Downloading row. */
  ghost predicate WasStored(h: Past, m: Media) {
    m.status == Downloading && exists n :: 0 <= n <= |h.events| && Lookup(After(h, n).rows, m.id) == Some(m)
  }

  /** At some moment more than the limit had passed since the save of m. */
  ghost predicate RanOut(h: Past, m: Media) {
    exists n :: 0 <= n <= |h.events| && TimedOut(m, After(h, n).now, h.limit)
  }

  /** A row saved as Downloading at its updatedAt was then out of time. */
  ghost predicate Overdue(h: Past, id: RowId, c: TorrentId) {
    exists m :: WasStored(h, m) && RanOut(h, m) && m.id == id && m.torrent == c
  }

  predicate IsCompleted(rows: Rows, id: RowId) {
    id in rows && rows[id].status == Completed
  }

  predicate IsTimedOut(rows: Rows, id: RowId) {
    id in rows && TooLong(rows[id])
  }

  predicate TooLong(m: Media) {
    m.status == Error && m.reason == TookTooLong
  }

  ghost predicate RowsExplained(h: Past, rows: Rows) {
    && Keyed(rows)
    && (forall id :: IsCompleted(rows, id) ==> IsCompleted(h.rows, id) || Finalized(h, rows[id].torrent))
    && (forall id :: IsTimedOut(rows, id) ==> IsTimedOut(h.rows, id) || Overdue(h, id, rows[id].torrent))
  }

  ghost predicate WorkerExplained(h: Past, w: Worker) {
    && Reported(h, w.job.report) && WasStored(h, w.job.media) && w.job.media.torrent == w.job.report.torrent
    && (w.Checked? ==> w.media.torrent == w.job.media.torrent && w.media.id == w.job.media.id
                       && (w.media.status == Completed ==> w.job.report.state == Complete && w.job.report.finalizes)
                       && (TooLong(w.media) ==> RanOut(h, w.job.media)))
  }

  ghost predicate ThreadExplained(h: Past, p: Thread) {
    match p
    case Polling(snap) => forall c :: c in snap ==> snap[c].torrent == c && WasStored(h, snap[c])
    case Joining(ws) => forall i :: 0 <= i < |ws| ==> WorkerExplained(h, ws[i])
    case _ => true
  }

  ghost predicate Explained(h: Past, s: State) {
    RowsExplained(h, s.rows) && forall t :: ThreadExplained(h, At(s, t))
  }

  // ---- the past stays the past ----

  lemma AfterThen(h: Past, e: Event, n: nat)
    requires n <= |h.events|
    ensures After(Then(h, e), n) == After(h, n)
    ensures After(h, |h.events|) == Present(h)
  {
    assert (h.events + [e])[..n] == h.events[..n];
    assert h.events[..|h.events|] == h.events;
  }

  lemma StaysKnown(h: Past, e: Event)
    ensures forall r :: Reported(h, r) ==> Reported(Then(h, e), r)
    ensures forall m :: WasStored(h, m) ==> WasStored(Then(h, e), m)
    ensures forall m :: RanOut(h, m) ==> RanOut(Then(h, e), m)
  {
    hide Lookup, TimedOut, After;
    forall r | Reported(h, r) ensures Reported(Then(h, e), r) {
      var p :| p in h.events && p.Poll? && p.ok && r in p.reports;
      assert p in Then(h, e).events;
    }
    forall m | WasStored(h, m) ensures WasStored(Then(h, e), m) {
      var n :| 0 <= n <= |h.events| && Lookup(After(h, n).rows, m.id) == Some(m);
      AfterThen(h, e, n);
      assert Lookup(After(Then(h, e), n).rows, m.id) == Some(m);
    }
    forall m | RanOut(h, m) ensures RanOut(Then(h, e), m) {
      var n :| 0 <= n <= |h.events| && TimedOut(m, After(h, n).now, h.limit);
      AfterThen(h, e, n);
      assert TimedOut(m, After(Then(h, e), n).now, h.limit);
    }
  }

  lemma StaysExplained(h: Past, e: Event, s: State)
    requires Explained(h, s)
    ensures Explained(Then(h, e), s)
  {
    hide Reported, WasStored, RanOut, Keyed;
    StaysKnown(h, e);
    forall t ensures ThreadExplained(Then(h, e), At(s, t)) {
      assert ThreadExplained(h, At(s, t));
    }
    forall id | IsCompleted(s.rows, id) && !IsCompleted(h.rows, id) ensures Finalized(Then(h, e), s.rows[id].torrent) {
      var r :| Reported(h, r) && r.torrent == s.rows[id].torrent && r.state == Complete && r.finalizes && r.saves;
      assert Reported(Then(h, e), r);
    }
    forall id | IsTimedOut(s.rows, id) && !IsTimedOut(h.rows, id) ensures Overdue(Then(h, e), id, s.rows[id].torrent) {
      var m :| WasStored(h, m) && RanOut(h, m) && m.id == id && m.torrent == s.rows[id].torrent;
      assert WasStored(Then(h, e), m);
    }
  }

  lemma StoredNow(h: Past, m: Media)
    requires m.status == Downloading && Lookup(Present(h).rows, m.id) == Some(m)
    ensures WasStored(h, m)
  {
    AfterThen(h, Advance(0), |h.events|);
    assert Lookup(After(h, |h.events|).rows, m.id) == Some(m);
  }

  lemma OutOfTimeNow(h: Past, m: Media)
    requires TimedOut(m, Present(h).now, h.limit)
    ensures RanOut(h, m)
  {
    AfterThen(h, Advance(0), |h.events|);
    assert TimedOut(m, After(h, |h.events|).now, h.limit);
  }

  // ---- one event ----

  lemma ThreadMoved(h: Past, s: State, s': State, t: nat)
    requires Explained(h, s) && s'.rows == s.rows
    requires s'.threads == s.threads || (t < |s.threads| && s'.threads == s.threads[t := At(s', t)] && ThreadExplained(h, At(s', t)))
    ensures Explained(h, s')
  {
    hide ThreadExplained;
    forall u ensures ThreadExplained(h, At(s', u)) {
      assert ThreadExplained(h, At(s, u));
    }
  }

  /** Requests and deletions: no row becomes Completed or timed out, and a new goroutine has done nothing. */
  lemma RequestExplained(h: Past, s: State, s': State)
    requires Explained(h, s) && Keyed(s'.rows)
    requires forall id :: IsCompleted(s'.rows, id) || IsTimedOut(s'.rows, id) ==> id in s.rows && s'.rows[id] == s.rows[id]
    requires s'.threads == s.threads || s'.threads == s.threads + [Saved]
    ensures Explained(h, s')
  {
    forall u ensures ThreadExplained(h, At(s', u)) {
      assert ThreadExplained(h, At(s, u));
    }
  }

  lemma ReadExplained(h: Past, order: seq<RowId>)
    requires Keyed(Present(h).rows) && Lists(order, Present(h).rows)
    ensures ThreadExplained(h, Polling(Snapshot(Present(h).rows, order)))
  {
    var rows := Present(h).rows;
    var snap := Snapshot(rows, order);
    SnapshotHolds(rows, order);
    forall c | c in snap ensures snap[c].torrent == c && WasStored(h, snap[c]) {
      assert Lookup(rows, snap[c].id) == Some(snap[c]);
      assert snap[c].id in (set x | x in order);
      assert snap[c].id in DownloadingIds(rows);
      StoredNow(h, snap[c]);
    }
  }

  lemma PollExplained(h: Past, e: Event, snap: map<TorrentId, Media>)
    requires ThreadExplained(h, Polling(snap)) && e.Poll? && e.ok
    ensures ThreadExplained(Then(h, e), Joining(StartWorkers(Jobs(snap, e.reports))))
  {
    hide WasStored;
    StaysKnown(h, e);
    var jobs := Jobs(snap, e.reports);
    forall i | 0 <= i < |jobs| ensures WorkerExplained(Then(h, e), Pending(jobs[i])) {
      var n := JobsComeFrom(snap, e.reports, i);
      assert e in Then(h, e).events && e.reports[n] in e.reports;
    }
  }

  lemma CheckExplained(h: Past, s: State, t: nat, i: nat)
    requires Explained(h, s) && s == Present(h)
    ensures Explained(h, ApplyCheck(s, t, i, h.limit))
  {
    hide Reported, RanOut;
    var s' := ApplyCheck(s, t, i, h.limit);
    if At(s, t).Joining? && i < |At(s, t).workers| && At(s, t).workers[i].Pending? {
      assert ThreadExplained(h, At(s, t));
      var job := At(s, t).workers[i].job;
      if TooLong(Check(job.media, job.report, s.now, h.limit)) { OutOfTimeNow(h, job.media); }
      assert ThreadExplained(h, At(s', t));
      ThreadMoved(h, s, s', t);
    }
  }

  lemma SaveExplained(h: Past, s: State, t: nat, i: nat)
    requires Explained(h, s)
    ensures Explained(h, ApplySave(s, t, i))
  {
    hide Reported, WasStored, RanOut;
    var s' := ApplySave(s, t, i);
    if At(s, t).Joining? && i < |At(s, t).workers| && At(s, t).workers[i].Checked? {
      var w := At(s, t).workers[i];
      assert ThreadExplained(h, At(s, t));
      assert WorkerExplained(h, w);
      assert ThreadExplained(h, At(s', t));
      ThreadMoved(h, s, s'.(rows := s.rows), t);
      assert w.job.report.saves && w.media.status == Completed ==> Finalized(h, w.media.torrent);
      assert TooLong(w.media) ==> Overdue(h, w.media.id, w.media.torrent);
      assert forall u :: At(s', u) == At(s'.(rows := s.rows), u);
    }
  }

  lemma StepExplained(h: Past, e: Event)
    requires Explained(h, Present(h))
    ensures Explained(Then(h, e), Apply(Present(h), e, h.limit))
  {
    var s := Present(h);
    var s' := Apply(s, e, h.limit);
    var h' := Then(h, e);
    StaysExplained(h, e, s);
    hide Snapshot, Jobs, Lists, Present, RowsExplained, ThreadExplained;
    match e {
      case CheckJob(t, i) =>
        CheckExplained(h, s, t, i);
        StaysExplained(h, e, s');
      case SaveJob(t, i) => SaveExplained(h', s, t, i);
      case SaveDownloading(m) => SavesExplained(h', s, s', m.(status := Downloading));
      case SaveOther(m) => if ByRequest(m) { SavesExplained(h', s, s', m); }
      case Delete(_) => DeleteExplained(h', s, s');
      case Advance(_) => ThreadMoved(h', s, s', 0);
      case Poll(t, _, _) => PollStep(h, e, s, s', t);
      case Read(t, _, _) => ReadStep(h, e, s, s', t);
      case Spawn(t) => QuietMove(h', s, s', t);
      case Select(t) => QuietMove(h', s, s', t);
      case Verify(t, _) => QuietMove(h', s, s', t);
      case Join(t) => if JoinReady(s, t) { QuietMove(h', s, s', t); }
      case TickerFires(t) => QuietMove(h', s, s', t);
      case Release(t) => QuietMove(h', s, s', t);
    }
  }

  lemma PollStep(h: Past, e: Event, s: State, s': State, t: nat)
    requires Explained(h, s) && Explained(Then(h, e), s) && e.Poll? && e.t == t && s' == Apply(s, e, h.limit)
    ensures Explained(Then(h, e), s')
  {
    hide Jobs, RowsExplained, ThreadExplained;
    if At(s, t).Polling? {
      assert ThreadExplained(h, At(s, t));
      if e.ok {
        PollExplained(h, e, At(s, t).snap);
        ThreadMoved(Then(h, e), s, s', t);
      } else {
        QuietMove(Then(h, e), s, s', t);
      }
    }
  }

  lemma ReadStep(h: Past, e: Event, s: State, s': State, t: nat)
    requires s == Present(h) && Explained(h, s) && Explained(Then(h, e), s) && e.Read? && e.t == t && s' == Apply(s, e, h.limit)
    ensures Explained(Then(h, e), s')
  {
    hide Lists, Snapshot, Present, RowsExplained, ThreadExplained;
    if At(s, t) == Reading && e.ok && Lists(e.order, s.rows) && e.order != [] {
      ExplainedIsKeyed(h, s);
      ReadExplained(h, e.order);
      StaysRead(h, e, Snapshot(s.rows, e.order));
      ThreadMoved(Then(h, e), s, s', t);
    } else {
      QuietMove(Then(h, e), s, s', t);
    }
  }

  /** A goroutine that holds no copies needs no explanation. */
  lemma QuietMove(h: Past, s: State, s': State, t: nat)
    requires Explained(h, s) && s'.rows == s.rows
    requires s'.threads == s.threads
          || (t < |s.threads| && s'.threads == s.threads[t := At(s', t)] && !At(s', t).Polling? && !At(s', t).Joining?)
    ensures Explained(h, s')
  {
    ThreadMoved(h, s, s', t);
  }

  lemma ExplainedIsKeyed(h: Past, s: State)
    requires Explained(h, s)
    ensures Keyed(s.rows)
  {
  }

  lemma StaysRead(h: Past, e: Event, snap: map<TorrentId, Media>)
    requires ThreadExplained(h, Polling(snap))
    ensures ThreadExplained(Then(h, e), Polling(snap))
  {
    hide WasStored;
    StaysKnown(h, e);
  }

  lemma SavesExplained(h: Past, s: State, s': State, m: Media)
    requires Explained(h, s) && m.status != Completed && !TooLong(m)
    requires s'.rows == Save(s.rows, m, s.now) && (s'.threads == s.threads || s'.threads == s.threads + [Saved])
    ensures Explained(h, s')
  {
    hide Overdue, Finalized, ThreadExplained;
    RequestExplained(h, s, s');
  }

  lemma DeleteExplained(h: Past, s: State, s': State)
    requires Explained(h, s) && s'.threads == s.threads && s'.rows.Keys <= s.rows.Keys
    requires forall id :: id in s'.rows ==> s'.rows[id] == s.rows[id]
    ensures Explained(h, s')
  {
    hide Overdue, Finalized, ThreadExplained;
    RequestExplained(h, s, s');
  }

  lemma {:induction false} RunExplained(h: Past)
    requires Keyed(h.rows)
    ensures Explained(h, Present(h))
    decreases |h.events|
  {
    if h.events != [] {
      var front := h.(events := h.events[..|h.events| - 1]);
      RunExplained(front);
      StepExplained(front, h.events[|h.events| - 1]);
      assert Then(front, h.events[|h.events| - 1]) == h;
    }
  }

  /** Nothing is Completed by accident: in every run, however the goroutines interleave with requests,
      retries, edits and deletions, a row that became Completed bears a torrent id the client reported
      complete and whose finalizing succeeded. */
  lemma CompletedWasFinalized(h: Past, id: RowId)
    requires Keyed(h.rows) && IsCompleted(Present(h).rows, id) && !IsCompleted(h.rows, id)
    ensures Finalized(h, Present(h).rows[id].torrent)
  {
    RunExplained(h);
  }

  /** Nothing times out early: in every run a row that was marked as taking too long was once stored as
      Downloading with its torrent id, and at some moment more than the limit had passed since the
      save of that copy. With timeouts ignored no row is ever marked. */
  lemma TimedOutWasOverdue(h: Past, id: RowId)
    requires Keyed(h.rows) && IsTimedOut(Present(h).rows, id) && !IsTimedOut(h.rows, id)
    ensures h.limit.Some? && Overdue(h, id, Present(h).rows[id].torrent)
  {
    RunExplained(h);
    var m :| WasStored(h, m) && RanOut(h, m) && m.id == id;
    var n :| 0 <= n <= |h.events| && TimedOut(m, After(h, n).now, h.limit);
  }
}
