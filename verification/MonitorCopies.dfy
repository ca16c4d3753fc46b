/** The monitor works on copies of the rows it read. When that undoes what others did since, and exactly
    when it does not. */
module MonitorCopies {
  import opened Options
  import opened Downloads
  import opened MonitorProtocol
  import opened MonitorHistory

  // ---- which copies a goroutine holds ----

  predicate WorkerCanSave(w: Worker, id: RowId) {
    match w
    case Pending(job) => job.report.saves && job.media.id == id
    case Checked(job, media) => job.report.saves && media.id == id
    case Finished(_) => false
  }

  /** A copy of row id that may still be written to the store. */
  predicate HoldsCopy(p: Thread, id: RowId) {
    match p
    case Polling(snap) => exists c :: c in snap && snap[c].id == id
    case Joining(ws) => exists i :: 0 <= i < |ws| && WorkerCanSave(ws[i], id)
    case _ => false
  }

  ghost predicate SomeCopy(s: State, id: RowId) {
    exists t :: HoldsCopy(At(s, t), id)
  }

  /** A request that stores the row. */
  predicate Stores(e: Event, id: RowId) {
    (e.SaveDownloading? || e.SaveOther?) && Touches(e, id)
  }

  /** What a finishing worker leaves in its row depends on its copy alone: whatever a request, a retry
      or a deletion did to the row since the copy was read is gone. */
  lemma SaveForgetsTheRow(s: State, rows: Rows, t: nat, i: nat)
    requires At(s, t).Joining? && i < |At(s, t).workers|
    requires At(s, t).workers[i].Checked? && At(s, t).workers[i].job.report.saves
    ensures var id := At(s, t).workers[i].media.id;
      Lookup(ApplySave(s.(rows := rows), t, i).rows, id) == Lookup(ApplySave(s, t, i).rows, id)
      == Some(At(s, t).workers[i].media.(updatedAt := s.now))
  {
  }

  // ---- a deleted row stays deleted ... ----

  ghost predicate Gone(s: State, id: RowId) {
    Keyed(s.rows) && id !in s.rows && !SomeCopy(s, id)
  }

  lemma StepKeepsKeyed(s: State, e: Event, limit: Option<int>)
    requires Keyed(s.rows)
    ensures Keyed(Apply(s, e, limit).rows)
  {
  }

  lemma {:induction false} RunKeepsKeyed(s: State, events: seq<Event>, limit: Option<int>)
    requires Keyed(s.rows)
    ensures Keyed(MonitorProtocol.Run(s, events, limit).rows)
    decreases |events|
  {
    hide Apply;
    if events != [] {
      RunKeepsKeyed(s, events[..|events| - 1], limit);
      StepKeepsKeyed(MonitorProtocol.Run(s, events[..|events| - 1], limit), events[|events| - 1], limit);
    }
  }

  lemma ReadHasNoCopy(rows: Rows, order: seq<RowId>, id: RowId)
    requires Keyed(rows) && id !in rows
    ensures !HoldsCopy(Polling(Snapshot(rows, order)), id)
  {
    SnapshotHolds(rows, order);
    var snap := Snapshot(rows, order);
    forall c | c in snap ensures snap[c].id != id {
      assert Lookup(rows, snap[c].id) == Some(snap[c]);
    }
  }

  lemma PollHasNoCopy(snap: map<TorrentId, Media>, reports: seq<Report>, id: RowId)
    requires !HoldsCopy(Polling(snap), id)
    ensures !HoldsCopy(Joining(StartWorkers(Jobs(snap, reports))), id)
  {
    var jobs := Jobs(snap, reports);
    forall i | 0 <= i < |jobs| ensures jobs[i].media.id != id {
      var n := JobsComeFrom(snap, reports, i);
    }
  }

  lemma CheckHasNoCopy(s: State, t: nat, i: nat, id: RowId, limit: Option<int>)
    requires !HoldsCopy(At(s, t), id)
    ensures !HoldsCopy(At(ApplyCheck(s, t, i, limit), t), id)
  {
    var s' := ApplyCheck(s, t, i, limit);
    if At(s, t).Joining? {
      var ws, ws' := At(s, t).workers, At(s', t).workers;
      forall j | 0 <= j < |ws'| ensures !WorkerCanSave(ws'[j], id) {
        assert !WorkerCanSave(ws[j], id);
      }
    }
  }

  lemma SaveHasNoCopy(s: State, t: nat, i: nat, id: RowId)
    requires !HoldsCopy(At(s, t), id)
    ensures !HoldsCopy(At(ApplySave(s, t, i), t), id)
    ensures Lookup(ApplySave(s, t, i).rows, id) == Lookup(s.rows, id)
  {
    var s' := ApplySave(s, t, i);
    if At(s, t).Joining? {
      var ws, ws' := At(s, t).workers, At(s', t).workers;
      if i < |ws| { assert !WorkerCanSave(ws[i], id); }
      forall j | 0 <= j < |ws'| ensures !WorkerCanSave(ws'[j], id) {
        assert !WorkerCanSave(ws[j], id);
      }
    }
  }

  /** One thread after a step: the same, a new one, or the one that moved. */
  lemma StepKeepsNoCopy(s: State, e: Event, id: RowId, t: nat, limit: Option<int>)
    requires Gone(s, id) && !Stores(e, id)
    ensures !HoldsCopy(At(Apply(s, e, limit), t), id)
  {
    hide HoldsCopy, Snapshot, Jobs, ApplyCheck, ApplySave, Lists, StartWorkers;
    assert !HoldsCopy(At(s, t), id);
    NoCopyAtAll(id);
    match e {
      case Read(u, order, _) => ReadHasNoCopy(s.rows, order, id);
      case Poll(u, reports, _) => if At(s, u).Polling? && u == t { PollHasNoCopy(At(s, t).snap, reports, id); }
      case CheckJob(u, i) => if u == t { CheckHasNoCopy(s, t, i, id, limit); } else { OnlyMoves(s, u, i, t, limit); }
      case SaveJob(u, i) => if u == t { SaveHasNoCopy(s, t, i, id); } else { OnlyMoves(s, u, i, t, limit); }
      case _ =>
    }
  }

  lemma NoCopyAtAll(id: RowId)
    ensures forall p: Thread :: !p.Polling? && !p.Joining? ==> !HoldsCopy(p, id)
  {
  }

  lemma OnlyMoves(s: State, u: nat, i: nat, t: nat, limit: Option<int>)
    requires u != t
    ensures At(ApplyCheck(s, u, i, limit), t) == At(s, t) && At(ApplySave(s, u, i), t) == At(s, t)
  {
  }

  lemma StepKeepsGone(s: State, e: Event, id: RowId, limit: Option<int>)
    requires Gone(s, id) && !Stores(e, id)
    ensures Gone(Apply(s, e, limit), id)
  {
    var s' := Apply(s, e, limit);
    StepKeepsKeyed(s, e, limit);
    if e.SaveJob? {
      assert !HoldsCopy(At(s, e.t), id);
      SaveHasNoCopy(s, e.t, e.i, id);
      assert Lookup(s'.rows, id) == Lookup(s.rows, id);
    }
    hide HoldsCopy;
    forall t ensures !HoldsCopy(At(s', t), id) {
      StepKeepsNoCopy(s, e, id, t, limit);
    }
  }

  lemma {:induction false} RunKeepsGone(s: State, events: seq<Event>, id: RowId, limit: Option<int>)
    requires Gone(s, id) && forall e :: e in events ==> !Stores(e, id)
    ensures Gone(MonitorProtocol.Run(s, events, limit), id)
    decreases |events|
  {
    hide Apply, Gone;
    if events != [] {
      assert events[|events| - 1] in events;
      RunKeepsGone(s, events[..|events| - 1], id, limit);
      StepKeepsGone(MonitorProtocol.Run(s, events[..|events| - 1], limit), events[|events| - 1], id, limit);
    }
  }

  // ---- ... unless somebody holds a copy ----

  /** What goroutine t has to do to write its copy; r is what the client answers. */
  function Comeback(p: Thread, t: nat, i: nat, r: Report): seq<Event> {
    match p
    case Polling(_) => [Poll(t, [r], true), CheckJob(t, 0), SaveJob(t, 0)]
    case Joining(ws) => if i < |ws| && ws[i].Pending? then [CheckJob(t, i), SaveJob(t, i)] else [SaveJob(t, i)]
    case _ => []
  }

  lemma SaveComesBack(s: State, t: nat, i: nat, id: RowId, limit: Option<int>)
    requires At(s, t).Joining? && i < |At(s, t).workers| && At(s, t).workers[i].Checked? && WorkerCanSave(At(s, t).workers[i], id)
    ensures var s' := MonitorProtocol.Run(s, [SaveJob(t, i)], limit);
      Lookup(s'.rows, id) == Some(At(s, t).workers[i].media.(updatedAt := s.now))
  {
    assert [SaveJob(t, i)][..0] == [];
    assert MonitorProtocol.Run(s, [SaveJob(t, i)], limit) == ApplySave(s, t, i);
  }

  lemma CheckComesBack(s: State, t: nat, i: nat, id: RowId, limit: Option<int>)
    requires At(s, t).Joining? && i < |At(s, t).workers| && At(s, t).workers[i].Pending? && WorkerCanSave(At(s, t).workers[i], id)
    ensures id in MonitorProtocol.Run(s, [CheckJob(t, i), SaveJob(t, i)], limit).rows
  {
    hide Check;
    var e, f := CheckJob(t, i), SaveJob(t, i);
    var job := At(s, t).workers[i].job;
    var s1 := ApplyCheck(s, t, i, limit);
    CheckedId(job.media, job.report, s.now, limit);
    SaveComesBack(s1, t, i, id, limit);
    assert [e, f][..1] == [e] && [e][..0] == [] && [f][..0] == [];
    assert MonitorProtocol.Run(s, [e], limit) == s1;
    assert MonitorProtocol.Run(s, [e, f], limit) == MonitorProtocol.Run(s1, [f], limit);
  }

  lemma CheckedId(m: Media, r: Report, now: int, limit: Option<int>)
    ensures Check(m, r, now, limit).id == m.id && Check(m, r, now, limit).torrent == m.torrent
  {
  }

  lemma PollComesBack(s: State, t: nat, c: TorrentId, id: RowId, r: Report, limit: Option<int>)
    requires At(s, t).Polling? && c in At(s, t).snap && At(s, t).snap[c].id == id && r.torrent == c && r.saves
    ensures id in MonitorProtocol.Run(s, [Poll(t, [r], true), CheckJob(t, 0), SaveJob(t, 0)], limit).rows
  {
    hide ApplyCheck, ApplySave;
    var p, e, f := Poll(t, [r], true), CheckJob(t, 0), SaveJob(t, 0);
    var snap := At(s, t).snap;
    var s1 := Apply(s, p, limit);
    assert [r][1..] == [] && Jobs(snap, []) == [] && Jobs(snap, [r]) == [Job(snap[c], r)];
    assert At(s1, t) == Joining(StartWorkers([Job(snap[c], r)]));
    assert At(s1, t).workers[0] == Pending(Job(snap[c], r));
    CheckComesBack(s1, t, 0, id, limit);
    assert [p, e, f][..2] == [p, e] && [p, e][..1] == [p] && [p][..0] == [];
    assert [e, f][..1] == [e] && [e][..0] == [];
    assert MonitorProtocol.Run(s, [p], limit) == s1;
    assert MonitorProtocol.Run(s, [p, e], limit) == MonitorProtocol.Run(s1, [e], limit);
  }

  /** After these events, none of which stores the row by request, it is there. */
  ghost predicate ComesBack(s: State, events: seq<Event>, id: RowId, limit: Option<int>) {
    (forall e :: e in events ==> !Stores(e, id)) && id in MonitorProtocol.Run(s, events, limit).rows
  }

  lemma CopyComesBack(s: State, t: nat, id: RowId, limit: Option<int>) returns (events: seq<Event>)
    requires HoldsCopy(At(s, t), id)
    ensures ComesBack(s, events, id, limit)
  {
    hide MonitorProtocol.Run, Apply;
    match At(s, t) {
      case Polling(snap) =>
        var c :| c in snap && snap[c].id == id;
        var r := Report(c, Failed, false, true);
        events := Comeback(At(s, t), t, 0, r);
        PollComesBack(s, t, c, id, r, limit);
      case Joining(ws) =>
        var i :| 0 <= i < |ws| && WorkerCanSave(ws[i], id);
        events := Comeback(At(s, t), t, i, Report("", Failed, false, true));
        if ws[i].Pending? {
          CheckComesBack(s, t, i, id, limit);
        } else {
          SaveComesBack(s, t, i, id, limit);
        }
      case _ => events := [];
    }
  }

  /** Exactly when a deletion lasts: in any state, after Delete(id), the row can come back without a
      request that stores it if and only if some goroutine holds a copy it can save, a polled snapshot
      entry or a worker that has not saved yet and whose save will work. */
  lemma DeletionLastsIff(s: State, id: RowId, limit: Option<int>)
    requires Keyed(s.rows)
    ensures var s' := Apply(s, Delete(id), limit);
      id !in s'.rows && ((exists events :: ComesBack(s', events, id, limit)) <==> SomeCopy(s, id))
  {
    var s' := Apply(s, Delete(id), limit);
    assert forall t :: At(s', t) == At(s, t);
    if SomeCopy(s, id) {
      var t :| HoldsCopy(At(s, t), id);
      var events := CopyComesBack(s', t, id, limit);
    } else {
      assert Gone(s', id);
      forall events ensures !ComesBack(s', events, id, limit) {
        if forall e :: e in events ==> !Stores(e, id) { RunKeepsGone(s', events, id, limit); }
      }
    }
  }

  // ---- a run that gets to such a state ----

  function PollingEvents(m: Media, r: Report): seq<Event> {
    [Select(0), Verify(0, true), Read(0, [m.id], true), Poll(0, [r], true)]
  }

  function PollingState(m: Media, r: Report, n: nat): State {
    var thread := match n
      case 0 => Starting
      case 1 => Verifying
      case 2 => Reading
      case 3 => Polling(map[m.torrent := m])
      case _ => Joining([Pending(Job(m, r))]);
    State(map[m.id := m], n >= 1, [thread], 0, {}, {})
  }

  lemma ReadsOneRow(m: Media)
    requires m.status == Downloading
    ensures Lists([m.id], map[m.id := m]) && Snapshot(map[m.id := m], [m.id]) == map[m.torrent := m]
  {
    var rows := map[m.id := m];
    assert (set id | id in [m.id]) == {m.id} == DownloadingIds(rows);
    assert Snapshot(rows, []) == map[];
    assert [m.id][..0] == [];
  }

  lemma PollingStep(m: Media, r: Report, n: nat, limit: Option<int>)
    requires n < 4 && m.status == Downloading && r.torrent == m.torrent
    ensures Apply(PollingState(m, r, n), PollingEvents(m, r)[n], limit) == PollingState(m, r, n + 1)
  {
    hide Lists, Snapshot;
    if n == 2 {
      ReadsOneRow(m);
    } else if n == 3 {
      var snap := map[m.torrent := m];
      assert [r][1..] == [] && Jobs(snap, []) == [] && Jobs(snap, [r]) == [Job(m, r)];
      assert StartWorkers([Job(m, r)]) == [Pending(Job(m, r))];
    }
  }

  lemma {:induction false} PollingRun(m: Media, r: Report, n: nat, limit: Option<int>)
    requires n <= 4 && m.status == Downloading && r.torrent == m.torrent
    ensures MonitorProtocol.Run(Init(map[m.id := m]), PollingEvents(m, r)[..n], limit) == PollingState(m, r, n)
  {
    hide Apply;
    if n != 0 {
      PollingRun(m, r, n - 1, limit);
      PollingStep(m, r, n - 1, limit);
      assert PollingEvents(m, r)[..n][..n - 1] == PollingEvents(m, r)[..n - 1];
    }
  }

  /** Any Downloading row, deleted while its goroutine waits, can come back, whatever was reported. */
  lemma DeletedRowComesBack(m: Media, r: Report, limit: Option<int>) returns (events: seq<Event>)
    requires m.status == Downloading && r.torrent == m.torrent && r.saves
    ensures var s := MonitorProtocol.Run(Init(map[m.id := m]), PollingEvents(m, r), limit);
      ComesBack(Apply(s, Delete(m.id), limit), events, m.id, limit)
  {
    PollingRun(m, r, 4, limit);
    assert PollingEvents(m, r)[..4] == PollingEvents(m, r);
    var s := PollingState(m, r, 4);
    var ws := At(s, 0).workers;
    assert WorkerCanSave(ws[0], m.id);
    assert HoldsCopy(At(s, 0), m.id);
    assert SomeCopy(s, m.id);
    DeletionLastsIff(s, m.id, limit);
    events :| ComesBack(Apply(s, Delete(m.id), limit), events, m.id, limit);
  }
}
