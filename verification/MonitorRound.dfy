/** One fan-out of the monitor, in any schedule: the checkDownload goroutines interleave with each other,
    the clock moves, requests come in and other goroutines run. Each reported row becomes what its own
    check, at its own time, makes of it. */
module MonitorRound {
  import opened Options
  import opened Downloads
  import opened MonitorProtocol

  /** Anything may happen but the join and requests on the rows of the round. */
  predicate DuringRound(e: Event, t: nat, jobs: seq<Job>) {
    e != Join(t) && forall i :: 0 <= i < |jobs| ==> !Touches(e, jobs[i].media.id)
  }

  /** When goroutine i of the round read the clock. */
  function CheckTime(s0: State, events: seq<Event>, t: nat, i: nat, limit: Option<int>): Option<int>
    decreases |events|
  {
    if events == [] then None
    else
      var front := events[..|events| - 1];
      var before := CheckTime(s0, front, t, i, limit);
      if before.None? && events[|events| - 1] == CheckJob(t, i) then Some(Run(s0, front, limit).now) else before
  }

  /** When goroutine i saved its row, or tried to. */
  function SaveTime(s0: State, events: seq<Event>, t: nat, i: nat, limit: Option<int>): Option<int>
    decreases |events|
  {
    if events == [] then None
    else
      var front := events[..|events| - 1];
      var before := SaveTime(s0, front, t, i, limit);
      if before.None? && events[|events| - 1] == SaveJob(t, i) && CheckTime(s0, front, t, i, limit).Some?
      then Some(Run(s0, front, limit).now) else before
  }

  /** The worker of a job that has been checked and saved at these times, if it has been. */
  predicate WorkerAgrees(w: Worker, job: Job, checked: Option<int>, saved: Option<int>, now: int, limit: Option<int>) {
    && w.job == job
    && (w.Pending? <==> checked.None?) && (w.Finished? <==> saved.Some?)
    && (w.Checked? ==> checked.Some? && w.media == Check(job.media, job.report, checked.value, limit))
    && (checked.Some? ==> checked.value <= now)
    && (saved.Some? ==> checked.Some? && checked.value <= saved.value <= now)
  }

  ghost predicate WorkersAgree(s0: State, events: seq<Event>, t: nat, jobs: seq<Job>, limit: Option<int>) {
    var s := Run(s0, events, limit);
    && Mutex(s) && At(s, t).Joining? && |At(s, t).workers| == |jobs| && s0.now <= s.now
    && forall i :: 0 <= i < |jobs| ==> WorkerAgrees(At(s, t).workers[i], jobs[i],
         CheckTime(s0, events, t, i, limit), SaveTime(s0, events, t, i, limit), s.now, limit)
  }

  lemma OtherWorkersWait(s: State, e: Event, t: nat, limit: Option<int>)
    requires Mutex(s) && At(s, t).Joining? && e != Join(t)
    requires !((e.CheckJob? || e.SaveJob?) && e.t == t)
    ensures At(Apply(s, e, limit), t) == At(s, t) && s.now <= Apply(s, e, limit).now
    ensures forall id :: !Touches(e, id) ==> Lookup(Apply(s, e, limit).rows, id) == Lookup(s.rows, id)
  {
    HolderIsAlone(s);
    if e.CheckJob? || e.SaveJob? {
      assert Holding(At(s, t));
      assert !At(s, e.t).Joining?;
    }
  }

  /** One more event: what it adds to the times, and the state after it. */
  lemma TimesLater(s0: State, front: seq<Event>, e: Event, t: nat, i: nat, limit: Option<int>)
    ensures Run(s0, front + [e], limit) == Apply(Run(s0, front, limit), e, limit)
    ensures CheckTime(s0, front + [e], t, i, limit)
         == if CheckTime(s0, front, t, i, limit).None? && e == CheckJob(t, i) then Some(Run(s0, front, limit).now)
            else CheckTime(s0, front, t, i, limit)
    ensures SaveTime(s0, front + [e], t, i, limit)
         == if SaveTime(s0, front, t, i, limit).None? && e == SaveJob(t, i) && CheckTime(s0, front, t, i, limit).Some?
            then Some(Run(s0, front, limit).now)
            else SaveTime(s0, front, t, i, limit)
  {
    var events := front + [e];
    assert events[..|events| - 1] == front && events[|events| - 1] == e;
  }

  /** What an event of the round does to goroutine i of thread t. */
  lemma WorkerStep(s: State, e: Event, t: nat, i: nat, limit: Option<int>)
    requires Mutex(s) && At(s, t).Joining? && i < |At(s, t).workers| && e != Join(t)
    ensures var s' := Apply(s, e, limit); var w := At(s, t).workers[i];
      && At(s', t).Joining? && |At(s', t).workers| == |At(s, t).workers| && s.now <= s'.now
      && (e == CheckJob(t, i) || e == SaveJob(t, i) ==> s'.now == s.now)
      && At(s', t).workers[i]
         == if e == CheckJob(t, i) && w.Pending? then Checked(w.job, Check(w.job.media, w.job.report, s.now, limit))
            else if e == SaveJob(t, i) && w.Checked? then Finished(w.job)
            else w
  {
    if !((e.CheckJob? || e.SaveJob?) && e.t == t) {
      OtherWorkersWait(s, e, t, limit);
    }
  }

  lemma JoiningStays(s: State, e: Event, t: nat, limit: Option<int>)
    requires Mutex(s) && At(s, t).Joining? && e != Join(t)
    ensures var s' := Apply(s, e, limit);
      At(s', t).Joining? && |At(s', t).workers| == |At(s, t).workers| && s.now <= s'.now
  {
    if !((e.CheckJob? || e.SaveJob?) && e.t == t) {
      OtherWorkersWait(s, e, t, limit);
    }
  }

  lemma StepKeepsWorkers(s0: State, front: seq<Event>, e: Event, t: nat, jobs: seq<Job>, limit: Option<int>)
    requires WorkersAgree(s0, front, t, jobs, limit) && DuringRound(e, t, jobs)
    ensures WorkersAgree(s0, front + [e], t, jobs, limit)
  {
    hide Check, Mutex, Run, Apply, CheckTime, SaveTime, At, DuringRound;
    var events := front + [e];
    var s := Run(s0, front, limit);
    var s' := Run(s0, events, limit);
    assert e != Join(t) by { JoinIsNotDuring(e, t, jobs); }
    TimesLater(s0, front, e, t, 0, limit);
    StepMutex(s, e, limit);
    JoiningStays(s, e, t, limit);
    forall i | 0 <= i < |jobs| ensures WorkerAgrees(At(s', t).workers[i], jobs[i],
      CheckTime(s0, events, t, i, limit), SaveTime(s0, events, t, i, limit), s'.now, limit)
    {
      assert WorkerAgrees(At(s, t).workers[i], jobs[i], CheckTime(s0, front, t, i, limit), SaveTime(s0, front, t, i, limit), s.now, limit);
      TimesLater(s0, front, e, t, i, limit);
      WorkerStep(s, e, t, i, limit);
    }
  }

  lemma JoinIsNotDuring(e: Event, t: nat, jobs: seq<Job>)
    requires DuringRound(e, t, jobs)
    ensures e != Join(t) && forall i :: 0 <= i < |jobs| ==> !Touches(e, jobs[i].media.id)
  {
  }

  lemma {:induction false} RunKeepsWorkers(s0: State, events: seq<Event>, t: nat, jobs: seq<Job>, limit: Option<int>)
    requires Mutex(s0) && At(s0, t) == Joining(StartWorkers(jobs))
    requires forall e :: e in events ==> DuringRound(e, t, jobs)
    ensures WorkersAgree(s0, events, t, jobs, limit)
    decreases |events|
  {
    if events != [] {
      var front := events[..|events| - 1];
      var last := events[|events| - 1];
      assert last in events;
      RunKeepsWorkers(s0, front, t, jobs, limit);
      StepKeepsWorkers(s0, front, last, t, jobs, limit);
      assert events == front + [last];
    }
  }

  /** The row of job i: new once its goroutine has saved, old before. */
  ghost predicate RowAgrees(s0: State, events: seq<Event>, t: nat, job: Job, i: nat, limit: Option<int>) {
    var checked := CheckTime(s0, events, t, i, limit);
    var saved := SaveTime(s0, events, t, i, limit);
    Lookup(Run(s0, events, limit).rows, job.media.id)
      == if checked.Some? && saved.Some? && job.report.saves
         then Some(SavedRow(job, Moment(checked.value, saved.value), limit))
         else Lookup(s0.rows, job.media.id)
  }

  lemma CheckKeepsIds(m: Media, r: Report, now: int, limit: Option<int>)
    ensures Check(m, r, now, limit).id == m.id && Check(m, r, now, limit).torrent == m.torrent
  {
  }

  /** What an event of the round does to the rows. */
  lemma RowStep(s: State, e: Event, t: nat, limit: Option<int>, id: RowId)
    requires Mutex(s) && At(s, t).Joining? && e != Join(t) && !Touches(e, id)
    ensures Lookup(Apply(s, e, limit).rows, id)
         == if e.SaveJob? && e.t == t && e.i < |At(s, t).workers| && At(s, t).workers[e.i].Checked?
                 && At(s, t).workers[e.i].job.report.saves && At(s, t).workers[e.i].media.id == id
            then Some(At(s, t).workers[e.i].media.(updatedAt := s.now)) else Lookup(s.rows, id)
  {
    if !((e.CheckJob? || e.SaveJob?) && e.t == t) {
      OtherWorkersWait(s, e, t, limit);
    }
  }

  lemma StepKeepsRow(s0: State, front: seq<Event>, e: Event, t: nat, jobs: seq<Job>, i: nat, limit: Option<int>)
    requires WorkersAgree(s0, front, t, jobs, limit) && DuringRound(e, t, jobs) && DistinctRows(jobs)
    requires i < |jobs| && RowAgrees(s0, front, t, jobs[i], i, limit)
    ensures RowAgrees(s0, front + [e], t, jobs[i], i, limit)
  {
    hide Check, Mutex, Run, Apply, CheckTime, SaveTime, At, DuringRound, Touches;
    var s := Run(s0, front, limit);
    JoinIsNotDuring(e, t, jobs);
    TimesLater(s0, front, e, t, i, limit);
    RowStep(s, e, t, limit, jobs[i].media.id);
    var checked := CheckTime(s0, front, t, i, limit);
    assert WorkerAgrees(At(s, t).workers[i], jobs[i], checked, SaveTime(s0, front, t, i, limit), s.now, limit);
    if e.SaveJob? && e.t == t && e.i < |jobs| {
      var done := CheckTime(s0, front, t, e.i, limit);
      assert WorkerAgrees(At(s, t).workers[e.i], jobs[e.i], done, SaveTime(s0, front, t, e.i, limit), s.now, limit);
      if done.Some? { CheckKeepsIds(jobs[e.i].media, jobs[e.i].report, done.value, limit); }
      assert e.i != i ==> jobs[e.i].media.id != jobs[i].media.id;
    }
  }

  lemma {:induction false} RunKeepsRow(s0: State, events: seq<Event>, t: nat, jobs: seq<Job>, i: nat, limit: Option<int>)
    requires Mutex(s0) && At(s0, t) == Joining(StartWorkers(jobs)) && DistinctRows(jobs) && i < |jobs|
    requires forall e :: e in events ==> DuringRound(e, t, jobs)
    ensures RowAgrees(s0, events, t, jobs[i], i, limit)
    decreases |events|
  {
    hide DuringRound, Check;
    if events != [] {
      var front := events[..|events| - 1];
      var last := events[|events| - 1];
      assert last in events;
      RunKeepsWorkers(s0, front, t, jobs, limit);
      RunKeepsRow(s0, front, t, jobs, i, limit);
      StepKeepsRow(s0, front, last, t, jobs, i, limit);
      assert events == front + [last];
    }
  }

  /** A row that is in no job and that no request writes. */
  predicate Untouched(events: seq<Event>, jobs: seq<Job>, id: RowId) {
    && (forall i :: 0 <= i < |jobs| ==> jobs[i].media.id != id)
    && (forall e :: e in events ==> !Touches(e, id))
  }

  lemma {:induction false} RunKeepsOthers(s0: State, events: seq<Event>, t: nat, jobs: seq<Job>, id: RowId, limit: Option<int>)
    requires Mutex(s0) && At(s0, t) == Joining(StartWorkers(jobs)) && Untouched(events, jobs, id)
    requires forall e :: e in events ==> DuringRound(e, t, jobs)
    ensures Lookup(Run(s0, events, limit).rows, id) == Lookup(s0.rows, id)
    decreases |events|
  {
    if events != [] {
      var front := events[..|events| - 1];
      var e := events[|events| - 1];
      assert e in events;
      RunKeepsWorkers(s0, front, t, jobs, limit);
      RunKeepsOthers(s0, front, t, jobs, id, limit);
      var s := Run(s0, front, limit);
      if e.SaveJob? && e.t == t {
        if e.i < |jobs| {
          var checked := CheckTime(s0, front, t, e.i, limit);
          assert WorkerAgrees(At(s, t).workers[e.i], jobs[e.i], checked, SaveTime(s0, front, t, e.i, limit), s.now, limit);
          if checked.Some? { CheckKeepsIds(jobs[e.i].media, jobs[e.i].report, checked.value, limit); }
        }
      } else if !(e.CheckJob? && e.t == t) {
        OtherWorkersWait(s, e, t, limit);
      }
    }
  }

  // ---- the round as a whole ----

  /** The moment of goroutine i in a schedule that let it finish. */
  function MomentOf(s0: State, events: seq<Event>, t: nat, i: nat, limit: Option<int>): Moment {
    Moment(CheckTime(s0, events, t, i, limit).GetOr(0), SaveTime(s0, events, t, i, limit).GetOr(0))
  }

  /** Every schedule that lets all goroutines finish leaves at each reported row what its own check made
      of it at its own check time, stamped with its own save time, and lets every other row be. */
  lemma RoundIsPointwise(s0: State, t: nat, jobs: seq<Job>, events: seq<Event>, i: nat, limit: Option<int>)
    requires Mutex(s0) && At(s0, t) == Joining(StartWorkers(jobs)) && DistinctRows(jobs) && i < |jobs|
    requires forall e :: e in events ==> DuringRound(e, t, jobs)
    requires JoinReady(Run(s0, events, limit), t)
    ensures var s := Run(s0, events, limit); var when := MomentOf(s0, events, t, i, limit);
      && s0.now <= when.checkedAt <= when.savedAt <= s.now
      && Lookup(s.rows, jobs[i].media.id)
         == if jobs[i].report.saves then Some(SavedRow(jobs[i], when, limit)) else Lookup(s0.rows, jobs[i].media.id)
  {
    RunKeepsWorkers(s0, events, t, jobs, limit);
    RunKeepsRow(s0, events, t, jobs, i, limit);
    var s := Run(s0, events, limit);
    assert WorkerAgrees(At(s, t).workers[i], jobs[i], CheckTime(s0, events, t, i, limit), SaveTime(s0, events, t, i, limit), s.now, limit);
    CheckedAfterStart(s0, events, t, jobs, i, limit);
  }

  lemma {:induction false} CheckedAfterStart(s0: State, events: seq<Event>, t: nat, jobs: seq<Job>, i: nat, limit: Option<int>)
    requires Mutex(s0) && At(s0, t) == Joining(StartWorkers(jobs))
    requires forall e :: e in events ==> DuringRound(e, t, jobs)
    ensures var c := CheckTime(s0, events, t, i, limit); c.Some? ==> s0.now <= c.value
    decreases |events|
  {
    if events != [] {
      var front := events[..|events| - 1];
      CheckedAfterStart(s0, front, t, jobs, i, limit);
      RunKeepsWorkers(s0, front, t, jobs, limit);
    }
  }

  /** So the join finds the store that a sequential pass, at the same moments, would have left. */
  lemma RoundIsSequential(s0: State, t: nat, jobs: seq<Job>, events: seq<Event>, when: TorrentId -> Moment, limit: Option<int>)
    requires Mutex(s0) && At(s0, t) == Joining(StartWorkers(jobs)) && DistinctRows(jobs)
    requires forall e :: e in events ==> DuringRound(e, t, jobs)
    requires JoinReady(Run(s0, events, limit), t)
    requires forall i :: 0 <= i < |jobs| ==> when(jobs[i].report.torrent) == MomentOf(s0, events, t, i, limit)
    ensures forall id :: (forall e :: e in events ==> !Touches(e, id)) ==>
      Lookup(Run(s0, events, limit).rows, id) == Lookup(RunJobs(s0.rows, jobs, when, limit), id)
  {
    var s := Run(s0, events, limit);
    forall id | forall e :: e in events ==> !Touches(e, id)
      ensures Lookup(s.rows, id) == Lookup(RunJobs(s0.rows, jobs, when, limit), id)
    {
      RunJobsPointwise(s0.rows, jobs, id, when, limit);
      if i :| 0 <= i < |jobs| && jobs[i].media.id == id {
        RowAfterJob(s0.rows, jobs, i, when, limit);
        RoundIsPointwise(s0, t, jobs, events, i, limit);
      } else {
        RowAfterUntouched(s0.rows, jobs, id, when, limit);
        RunKeepsOthers(s0, events, t, jobs, id, limit);
      }
    }
  }

  /** What the join finds of a Downloading row whose torrent was reported and whose save works, in every
      schedule: Completed if it was complete and its finalizing succeeded; in error, with the reason, if
      finalizing failed, if the client had failed, or if it was checked later than the limit after the
      stamp of its copy; else still Downloading. */
  lemma RoundOutcome(s0: State, t: nat, jobs: seq<Job>, events: seq<Event>, i: nat, limit: Option<int>)
    requires Mutex(s0) && At(s0, t) == Joining(StartWorkers(jobs)) && DistinctRows(jobs) && i < |jobs|
    requires forall e :: e in events ==> DuringRound(e, t, jobs)
    requires JoinReady(Run(s0, events, limit), t) && jobs[i].report.saves && jobs[i].media.status == Downloading
    ensures var rows := Run(s0, events, limit).rows; var m, r := jobs[i].media, jobs[i].report;
      && m.id in rows && rows[m.id].torrent == m.torrent && s0.now <= rows[m.id].updatedAt <= Run(s0, events, limit).now
      && (r.state == Complete && r.finalizes ==> rows[m.id].status == Completed)
      && (r.state == Complete && !r.finalizes ==> rows[m.id].status == Error && rows[m.id].reason == FinalizeFailed)
      && (r.state == Failed ==> rows[m.id].status == Error && rows[m.id].reason == ClientFailed)
      && (r.state == InProgress ==>
           if limit.Some? && CheckTime(s0, events, t, i, limit).GetOr(0) - m.updatedAt > limit.value
           then rows[m.id].status == Error && rows[m.id].reason == TookTooLong
           else rows[m.id].status == Downloading && rows[m.id].reason == m.reason)
  {
    hide Run, Mutex, JoinReady, CheckTime, SaveTime;
    RoundIsPointwise(s0, t, jobs, events, i, limit);
  }

  lemma JobIsDownloading(rows: Rows, order: seq<RowId>, reports: seq<Report>, i: nat)
    requires Keyed(rows) && Lists(order, rows) && i < |Jobs(Snapshot(rows, order), reports)|
    ensures Jobs(Snapshot(rows, order), reports)[i].media.status == Downloading
  {
    var snap := Snapshot(rows, order);
    SnapshotHolds(rows, order);
    var n := JobsComeFrom(snap, reports, i);
    var m := snap[reports[n].torrent];
    assert m.id in (set x | x in order);
    assert m.id in DownloadingIds(rows) && Lookup(rows, m.id) == Some(m);
  }

  /** A reported download that is complete, whose placing succeeds and whose row can be saved is Completed
      in the store when the round is joined, in every schedule. */
  lemma FinishedIsCompleted(s: State, t: nat, readRows: Rows, order: seq<RowId>, reports: seq<Report>, n: nat,
                            events: seq<Event>, limit: Option<int>)
    requires Mutex(s) && Keyed(readRows) && Lists(order, readRows) && DistinctTorrents(reports)
    requires At(s, t) == Polling(Snapshot(readRows, order))
    requires forall e :: e in events ==> DuringRound(e, t, Jobs(Snapshot(readRows, order), reports))
    requires JoinReady(Run(Apply(s, Poll(t, reports, true), limit), events, limit), t)
    requires n < |reports| && reports[n].torrent in Snapshot(readRows, order)
    requires reports[n].state == Complete && reports[n].finalizes && reports[n].saves
    ensures var rows := Run(Apply(s, Poll(t, reports, true), limit), events, limit).rows;
      var id := Snapshot(readRows, order)[reports[n].torrent].id;
      id in rows && rows[id].status == Completed && rows[id].torrent == reports[n].torrent
  {
    var snap := Snapshot(readRows, order);
    var s0 := Apply(s, Poll(t, reports, true), limit);
    JobsAreDistinct(readRows, order, reports);
    SnapshotHolds(readRows, order);
    StepMutex(s, Poll(t, reports, true), limit);
    assert At(s0, t) == Joining(StartWorkers(Jobs(snap, reports)));
    hide Run, Apply, Mutex, Snapshot, Lists;
    var i := JobsCover(snap, reports, n);
    JobIsDownloading(readRows, order, reports, i);
    RoundOutcome(s0, t, Jobs(snap, reports), events, i, limit);
  }

  // ---- two schedules ----

  predicate SameButStamp(a: Option<Media>, b: Option<Media>) {
    a.Some? && b.Some? && a.value.(updatedAt := 0) == b.value.(updatedAt := 0)
  }

  /** What is left to chance: a download in progress, checked on both sides of its limit. */
  predicate SameSide(job: Job, one: Moment, other: Moment, limit: Option<int>) {
    job.report.state == InProgress ==> (TimedOut(job.media, one.checkedAt, limit) <==> TimedOut(job.media, other.checkedAt, limit))
  }

  /** Two schedules of one round leave the same row, up to its stamp, for every finished or failed
      download; for one in progress exactly if both checked it on the same side of its time limit. A
      row of no reported torrent that no request writes is as it was. */
  lemma RoundsAgreeIff(s: State, t: nat, readRows: Rows, order: seq<RowId>, reports: seq<Report>,
                       one: seq<Event>, other: seq<Event>, limit: Option<int>)
    requires Mutex(s) && Keyed(readRows) && Lists(order, readRows) && DistinctTorrents(reports)
    requires At(s, t) == Polling(Snapshot(readRows, order))
    requires forall e :: e in one || e in other ==> DuringRound(e, t, Jobs(Snapshot(readRows, order), reports))
    requires var s0 := Apply(s, Poll(t, reports, true), limit);
      JoinReady(Run(s0, one, limit), t) && JoinReady(Run(s0, other, limit), t)
    ensures var s0 := Apply(s, Poll(t, reports, true), limit); var jobs := Jobs(Snapshot(readRows, order), reports);
      && (forall i :: 0 <= i < |jobs| && jobs[i].report.saves ==>
           (SameButStamp(Lookup(Run(s0, one, limit).rows, jobs[i].media.id), Lookup(Run(s0, other, limit).rows, jobs[i].media.id))
            <==> SameSide(jobs[i], MomentOf(s0, one, t, i, limit), MomentOf(s0, other, t, i, limit), limit)))
      && (forall id :: Untouched(one, jobs, id) ==> Lookup(Run(s0, one, limit).rows, id) == Lookup(s.rows, id))
  {
    var snap := Snapshot(readRows, order);
    var jobs := Jobs(snap, reports);
    var s0 := Apply(s, Poll(t, reports, true), limit);
    JobsAreDistinct(readRows, order, reports);
    StepMutex(s, Poll(t, reports, true), limit);
    assert At(s0, t) == Joining(StartWorkers(jobs));
    hide Run, Apply, Mutex, Check, Snapshot, Jobs, Lists;
    forall i | 0 <= i < |jobs| && jobs[i].report.saves
      ensures SameButStamp(Lookup(Run(s0, one, limit).rows, jobs[i].media.id), Lookup(Run(s0, other, limit).rows, jobs[i].media.id))
         <==> SameSide(jobs[i], MomentOf(s0, one, t, i, limit), MomentOf(s0, other, t, i, limit), limit)
    {
      JobIsDownloading(readRows, order, reports, i);
      RoundIsPointwise(s0, t, jobs, one, i, limit);
      RoundIsPointwise(s0, t, jobs, other, i, limit);
    }
    forall id | Untouched(one, jobs, id) ensures Lookup(Run(s0, one, limit).rows, id) == Lookup(s.rows, id) {
      RunKeepsOthers(s0, one, t, jobs, id, limit);
    }
  }
}
