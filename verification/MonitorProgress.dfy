/** Many rounds of one monitor with nobody else writing: when it ends, and which rows time out. */
module MonitorProgress {
  import opened Options
  import opened Downloads

  /** What the outside contributes to round n: the order in which the store lists the rows, the
      client's answer for the ids asked (no report at all if the call failed), and for each torrent the
      clock when its goroutine checks and when it saves; whether there is a client, and whether the
      store can be read at the start of round n. */
  datatype Env = Env(order: (nat, set<RowId>) -> seq<RowId>, answer: (nat, set<TorrentId>) -> seq<Report>,
                     when: nat -> TorrentId -> Moment, limit: Option<int>, client: bool, readable: nat -> bool)

  ghost predicate Faithful(env: Env) {
    && (forall n, ids, id :: id in env.order(n, ids) <==> id in ids)
    && (forall n, asked :: DistinctTorrents(env.answer(n, asked)))
  }

  function SnapshotAt(rows: Rows, n: nat, env: Env): map<TorrentId, Media> {
    Snapshot(rows, env.order(n, DownloadingIds(rows)))
  }

  function JobsAt(rows: Rows, n: nat, env: Env): seq<Job> {
    var snap := SnapshotAt(rows, n, env);
    Jobs(snap, env.answer(n, snap.Keys))
  }

  function Round(rows: Rows, n: nat, env: Env): Rows {
    RunJobs(rows, JobsAt(rows, n, env), env.when(n), env.limit)
  }

  function RowsAfter(rows: Rows, n: nat, env: Env): Rows {
    if n == 0 then rows else Round(RowsAfter(rows, n - 1, env), n - 1, env)
  }

  /** How a call of monitorDownloads ends; Cut if it is still polling when the ticks are used up. */
  datatype Outcome = NothingLeft | GaveUp | Cut

  /** Round k had a client, a readable store and something to ask about. */
  ghost predicate Polled(rows: Rows, k: nat, env: Env) {
    env.client && env.readable(k) && DownloadingIds(RowsAfter(rows, k, env)) != {}
  }

  lemma Rounds(rows: Rows, n: nat, env: Env)
    ensures RowsAfter(rows, 0, env) == rows && RowsAfter(rows, n + 1, env) == Round(RowsAfter(rows, n, env), n, env)
    ensures env.client && env.readable(n) && DownloadingIds(RowsAfter(rows, n, env)) != {} ==> Polled(rows, n, env)
  {
  }

  /** monitorDownloads for as many rounds as there are ticks. */
  method MonitorDownloads(store: Store, env: Env, ticks: nat) returns (rounds: nat, outcome: Outcome)
    requires Faithful(env) && Keyed(store.rows)
    modifies store
    ensures store.rows == RowsAfter(old(store.rows), rounds, env)
    ensures outcome == NothingLeft ==> DownloadingIds(store.rows) == {}
    ensures outcome == GaveUp ==> if env.client then !env.readable(rounds) else rounds == 0
    ensures outcome == Cut ==> rounds == ticks
    ensures forall k :: 0 <= k < rounds ==> Polled(old(store.rows), k, env)
  {
    hide Snapshot, RunJobs, Jobs, DownloadingIds, Faithful, Keyed, RowsAfter, Polled;
    Rounds(store.rows, 0, env);
    rounds, outcome := 0, Cut;
    if !env.client { return 0, GaveUp; }
    while rounds < ticks
      invariant rounds <= ticks && outcome == Cut
      invariant store.rows == RowsAfter(old(store.rows), rounds, env) && Keyed(store.rows)
      invariant forall k :: 0 <= k < rounds ==> Polled(old(store.rows), k, env)
    {
      if !env.readable(rounds) {
        outcome := GaveUp;
        return;
      }
      var downloadingMedia := store.GetDownloadingMedia(env.order(rounds, DownloadingIds(store.rows)));
      SnapshotEmptyIffNone(store.rows, rounds, env);
      if downloadingMedia == map[] {
        outcome := NothingLeft;
        return;
      }
      RoundKeepsKeyed(store.rows, rounds, env);
      Rounds(old(store.rows), rounds, env);
      var statuses := env.answer(rounds, downloadingMedia.Keys);
      store.CheckAll(downloadingMedia, statuses, env.when(rounds), env.limit);
      rounds := rounds + 1;
    }
  }

  lemma SnapshotEmptyIffNone(rows: Rows, n: nat, env: Env)
    requires Faithful(env) && Keyed(rows)
    ensures SnapshotAt(rows, n, env) == map[] <==> DownloadingIds(rows) == {}
  {
    var order := env.order(n, DownloadingIds(rows));
    SnapshotHolds(rows, order);
    var snap := SnapshotAt(rows, n, env);
    forall id | id in DownloadingIds(rows) ensures rows[id].torrent in snap {
      assert id in order;
    }
    forall c | c in snap ensures snap[c].id in DownloadingIds(rows) {
      assert snap[c].id in order;
    }
  }

  // ---- what one round does to one row ----

  /** The row a round looks at for a torrent. */
  lemma PickedRow(rows: Rows, n: nat, env: Env, c: TorrentId)
    requires Faithful(env) && Keyed(rows) && c in SnapshotAt(rows, n, env)
    ensures var m := SnapshotAt(rows, n, env)[c];
      m.torrent == c && IsDownloading(rows, m.id) && rows[m.id] == m
  {
    SnapshotHolds(rows, env.order(n, DownloadingIds(rows)));
    assert Lookup(rows, SnapshotAt(rows, n, env)[c].id) == Some(SnapshotAt(rows, n, env)[c]);
  }

  lemma RoundAt(rows: Rows, n: nat, env: Env, id: RowId)
    requires Faithful(env) && Keyed(rows)
    ensures Lookup(Round(rows, n, env), id) == RowAfter(rows, JobsAt(rows, n, env), id, env.when(n), env.limit)
    ensures DistinctRows(JobsAt(rows, n, env))
  {
    var order := env.order(n, DownloadingIds(rows));
    JobsAreDistinct(rows, order, env.answer(n, SnapshotAt(rows, n, env).Keys));
    RunJobsPointwise(rows, JobsAt(rows, n, env), id, env.when(n), env.limit);
  }

  /** A row the snapshot does not hold is left alone. */
  lemma UnpickedStays(rows: Rows, n: nat, env: Env, id: RowId)
    requires Faithful(env) && Keyed(rows)
    requires forall c :: c in SnapshotAt(rows, n, env) ==> SnapshotAt(rows, n, env)[c].id != id
    ensures Lookup(Round(rows, n, env), id) == Lookup(rows, id)
  {
    RoundAt(rows, n, env, id);
    var jobs := JobsAt(rows, n, env);
    var snap := SnapshotAt(rows, n, env);
    forall j | 0 <= j < |jobs| ensures jobs[j].media.id != id {
      var i := JobsComeFrom(snap, env.answer(n, snap.Keys), j);
    }
    RowAfterUntouched(rows, jobs, id, env.when(n), env.limit);
  }

  /** A reported row becomes what its own check makes of it. */
  lemma ReportedIsChecked(rows: Rows, n: nat, env: Env, i: nat)
    requires Faithful(env) && Keyed(rows)
    requires var snap := SnapshotAt(rows, n, env); var reports := env.answer(n, snap.Keys);
      i < |reports| && reports[i].torrent in snap && reports[i].saves
    ensures var snap := SnapshotAt(rows, n, env); var r := env.answer(n, snap.Keys)[i]; var m := snap[r.torrent];
      Lookup(Round(rows, n, env), m.id) == Some(SavedRow(Job(m, r), env.when(n)(r.torrent), env.limit))
  {
    var snap := SnapshotAt(rows, n, env);
    var reports := env.answer(n, snap.Keys);
    var j := JobsCover(snap, reports, i);
    RoundAt(rows, n, env, snap[reports[i].torrent].id);
    RowAfterJob(rows, JobsAt(rows, n, env), j, env.when(n), env.limit);
  }

  lemma {:induction false} RunJobsKeepsKeyed(rows: Rows, jobs: seq<Job>, when: TorrentId -> Moment, limit: Option<int>)
    requires Keyed(rows)
    ensures Keyed(RunJobs(rows, jobs, when, limit))
    decreases |jobs|
  {
    if jobs != [] {
      RunJobsKeepsKeyed(RunJob(rows, jobs[0], when(jobs[0].report.torrent), limit), jobs[1..], when, limit);
    }
  }

  lemma RoundKeepsKeyed(rows: Rows, n: nat, env: Env)
    requires Keyed(rows)
    ensures Keyed(Round(rows, n, env))
  {
    RunJobsKeepsKeyed(rows, JobsAt(rows, n, env), env.when(n), env.limit);
  }

  lemma {:induction false} RowsAfterKeyed(rows: Rows, n: nat, env: Env)
    requires Keyed(rows)
    ensures Keyed(RowsAfter(rows, n, env))
  {
    if n != 0 {
      RowsAfterKeyed(rows, n - 1, env);
      RoundKeepsKeyed(RowsAfter(rows, n - 1, env), n - 1, env);
    }
  }

  // ---- when the monitor ends ----

  /** The Downloading rows of one torrent: the snapshot holds one of them a round. */
  function Sharers(rows: Rows, c: TorrentId): set<RowId> {
    set id | id in rows && rows[id].status == Downloading && rows[id].torrent == c
  }

  /** Every torrent asked about is reported, as finished or failed, and its row can be saved. */
  ghost predicate Decides(env: Env) {
    && (forall n, asked, c :: c in asked ==> Reports(env.answer(n, asked), c))
    && (forall n, asked, r :: r in env.answer(n, asked) ==> r.state != InProgress && r.saves)
  }

  ghost predicate Reports(reports: seq<Report>, c: TorrentId) {
    exists i :: 0 <= i < |reports| && reports[i].torrent == c
  }

  lemma PickedIsDecided(rows: Rows, n: nat, env: Env, c: TorrentId)
    requires Faithful(env) && Decides(env) && Keyed(rows) && c in SnapshotAt(rows, n, env)
    ensures !IsDownloading(Round(rows, n, env), SnapshotAt(rows, n, env)[c].id)
  {
    hide Round;
    var snap := SnapshotAt(rows, n, env);
    var reports := env.answer(n, snap.Keys);
    assert Reports(reports, c);
    var i :| 0 <= i < |reports| && reports[i].torrent == c;
    assert reports[i] in reports;
    ReportedIsChecked(rows, n, env, i);
    assert Lookup(Round(rows, n, env), snap[c].id).value.status != Downloading;
  }

  lemma RoundTakesOneSharer(rows: Rows, n: nat, env: Env, c: TorrentId)
    requires Faithful(env) && Decides(env) && Keyed(rows)
    ensures var rows' := Round(rows, n, env); var snap := SnapshotAt(rows, n, env);
      if c in snap then snap[c].id in Sharers(rows, c) && Sharers(rows', c) == Sharers(rows, c) - {snap[c].id}
      else Sharers(rows, c) == {} && Sharers(rows', c) == {}
  {
    hide Round, Decides, Reports;
    var order := env.order(n, DownloadingIds(rows));
    var snap := SnapshotAt(rows, n, env);
    var rows' := Round(rows, n, env);
    SnapshotHolds(rows, order);
    forall id ensures id in Sharers(rows', c) <==> id in Sharers(rows, c) && !(c in snap && snap[c].id == id) {
      if d :| d in snap && snap[d].id == id {
        PickedRow(rows, n, env, d);
        PickedIsDecided(rows, n, env, d);
      } else {
        UnpickedStays(rows, n, env, id);
        assert Lookup(rows', id) == Lookup(rows, id);
      }
    }
    forall id | id in Sharers(rows, c) ensures c in snap {
      assert id in order;
    }
    if c in snap {
      PickedRow(rows, n, env, c);
    }
  }

  lemma {:induction false} ShareCounts(rows: Rows, n: nat, env: Env, c: TorrentId)
    requires Faithful(env) && Decides(env) && Keyed(rows)
    ensures |Sharers(RowsAfter(rows, n, env), c)| == if |Sharers(rows, c)| <= n then 0 else |Sharers(rows, c)| - n
  {
    hide Round, SnapshotAt, Faithful, Decides, Keyed;
    if n != 0 {
      ShareCounts(rows, n - 1, env, c);
      RowsAfterKeyed(rows, n - 1, env);
      var before := RowsAfter(rows, n - 1, env);
      RoundTakesOneSharer(before, n - 1, env, c);
      if c !in SnapshotAt(before, n - 1, env) {
        assert |Sharers(before, c)| == 0;
      }
    }
  }

  /** With a client that decides every torrent it is asked about, nothing is Downloading after n rounds
      if and only if no torrent id was shared by more than n rows. */
  lemma EndsWhenSharesAreUsedUp(rows: Rows, n: nat, env: Env)
    requires Faithful(env) && Decides(env) && Keyed(rows)
    ensures DownloadingIds(RowsAfter(rows, n, env)) == {} <==> forall c :: |Sharers(rows, c)| <= n
  {
    var after := RowsAfter(rows, n, env);
    if DownloadingIds(after) == {} {
      forall c ensures |Sharers(rows, c)| <= n {
        ShareCounts(rows, n, env, c);
        assert Sharers(after, c) <= DownloadingIds(after);
        assert Sharers(after, c) == {};
      }
    } else {
      var id :| id in DownloadingIds(after);
      var c := after[id].torrent;
      ShareCounts(rows, n, env, c);
      assert id in Sharers(after, c);
      assert Sharers(after, c) != {};
    }
  }

  /** So the loop makes exactly m rounds, m being the largest number of rows sharing one torrent id:
      it reads a non-empty list m times and an empty one the next. */
  lemma MonitorRounds(rows: Rows, env: Env, m: nat, c: TorrentId)
    requires Faithful(env) && Decides(env) && Keyed(rows)
    requires |Sharers(rows, c)| == m && forall d :: |Sharers(rows, d)| <= m
    ensures DownloadingIds(RowsAfter(rows, m, env)) == {}
    ensures forall k :: 0 <= k < m ==> DownloadingIds(RowsAfter(rows, k, env)) != {}
  {
    EndsWhenSharesAreUsedUp(rows, m, env);
    forall k | 0 <= k < m ensures DownloadingIds(RowsAfter(rows, k, env)) != {} {
      EndsWhenSharesAreUsedUp(rows, k, env);
      assert |Sharers(rows, c)| > k;
    }
  }

  // ---- timeouts ----

  /** In every round torrent c, if asked about, is reported as still downloading and can be saved. */
  ghost predicate StaysInProgress(env: Env, c: TorrentId) {
    && (forall n, asked :: c in asked ==> Reports(env.answer(n, asked), c))
    && (forall n, asked, r :: r in env.answer(n, asked) && r.torrent == c ==> r.state == InProgress && r.saves)
  }

  function LastSave(first: int, n: nat, env: Env, c: TorrentId): int {
    if n == 0 then first else env.when(n - 1)(c).savedAt
  }

  /** At its n-th poll the row has waited no longer than the limit since its last save. */
  predicate WithinLimit(first: int, n: nat, env: Env, c: TorrentId) {
    env.limit.None? || env.when(n)(c).checkedAt - LastSave(first, n, env, c) <= env.limit.value
  }

  lemma OtherRoundsKeepSharers(rows: Rows, n: nat, env: Env, c: TorrentId, id: RowId)
    requires Faithful(env) && Keyed(rows)
    ensures Sharers(Round(rows, n, env), c) <= Sharers(rows, c)
  {
    var snap := SnapshotAt(rows, n, env);
    var rows' := Round(rows, n, env);
    forall x | x in Sharers(rows', c) ensures x in Sharers(rows, c) {
      if d :| d in snap && snap[d].id == x {
        PickedRow(rows, n, env, d);
        RoundAt(rows, n, env, x);
        RowAfterComesFrom(rows, JobsAt(rows, n, env), x, env.when(n), env.limit);
        if j :| 0 <= j < |JobsAt(rows, n, env)| && JobsAt(rows, n, env)[j].media.id == x {
          var i := JobsComeFrom(snap, env.answer(n, snap.Keys), j);
          PickedRow(rows, n, env, env.answer(n, snap.Keys)[i].torrent);
        }
      } else {
        UnpickedStays(rows, n, env, x);
        assert Lookup(rows', x) == Lookup(rows, x);
      }
    }
  }

  lemma {:induction false} RowAfterComesFrom(rows: Rows, jobs: seq<Job>, id: RowId, when: TorrentId -> Moment, limit: Option<int>)
    ensures var r := RowAfter(rows, jobs, id, when, limit);
      r == Lookup(rows, id)
      || exists j :: 0 <= j < |jobs| && jobs[j].media.id == id && r == Some(SavedRow(jobs[j], when(jobs[j].report.torrent), limit))
    decreases |jobs|
  {
    if jobs != [] && !(jobs[0].media.id == id && jobs[0].report.saves) {
      RowAfterComesFrom(rows, jobs[1..], id, when, limit);
      if RowAfter(rows, jobs, id, when, limit) != Lookup(rows, id) {
        var j :| 0 <= j < |jobs[1..]| && jobs[1..][j].media.id == id
          && RowAfter(rows, jobs, id, when, limit) == Some(SavedRow(jobs[1..][j], when(jobs[1..][j].report.torrent), limit));
        assert jobs[j + 1] == jobs[1..][j];
      }
    }
  }

  /** A download that makes no progress, the only row of its torrent, is still Downloading after n
      rounds if and only if no poll came later than the limit after the save before it; its total
      age plays no part. Otherwise it has been marked as taking too long. */
  lemma {:induction false} TimesOutOnlyOnAGap(rows: Rows, n: nat, env: Env, id: RowId)
    requires Faithful(env) && Keyed(rows) && IsDownloading(rows, id) && Sharers(rows, rows[id].torrent) == {id}
    requires StaysInProgress(env, rows[id].torrent)
    ensures var after := RowsAfter(rows, n, env); var c := rows[id].torrent;
      && Sharers(after, c) <= {id} && id in after && after[id].torrent == c
      && (IsDownloading(after, id) <==> forall k :: 0 <= k < n ==> WithinLimit(rows[id].updatedAt, k, env, c))
      && (IsDownloading(after, id) ==> after[id].updatedAt == LastSave(rows[id].updatedAt, n, env, c))
      && (!IsDownloading(after, id) ==> after[id].status == Error && after[id].reason == TookTooLong)
  {
    if n != 0 {
      TimesOutOnlyOnAGap(rows, n - 1, env, id);
      RowsAfterKeyed(rows, n - 1, env);
      StuckRound(rows[id].updatedAt, RowsAfter(rows, n - 1, env), n - 1, env, id);
    }
  }

  /** One round of such a row. */
  lemma StuckRound(first: int, rows: Rows, n: nat, env: Env, id: RowId)
    requires Faithful(env) && Keyed(rows) && id in rows && Sharers(rows, rows[id].torrent) <= {id}
    requires StaysInProgress(env, rows[id].torrent)
    requires IsDownloading(rows, id) ==> rows[id].updatedAt == LastSave(first, n, env, rows[id].torrent)
    ensures var after := Round(rows, n, env); var c := rows[id].torrent;
      && Sharers(after, c) <= {id} && id in after && after[id].torrent == c
      && (IsDownloading(after, id) <==> IsDownloading(rows, id) && WithinLimit(first, n, env, c))
      && (IsDownloading(after, id) ==> after[id].updatedAt == env.when(n)(c).savedAt)
      && (!IsDownloading(rows, id) ==> after[id] == rows[id])
      && (IsDownloading(rows, id) && !IsDownloading(after, id) ==> after[id].status == Error && after[id].reason == TookTooLong)
  {
    var c := rows[id].torrent;
    var snap := SnapshotAt(rows, n, env);
    OtherRoundsKeepSharers(rows, n, env, c, id);
    SnapshotHolds(rows, env.order(n, DownloadingIds(rows)));
    if IsDownloading(rows, id) {
      assert id in DownloadingIds(rows);
      assert c in snap;
      PickedRow(rows, n, env, c);
      assert snap[c].id in Sharers(rows, c);
      var reports := env.answer(n, snap.Keys);
      assert Reports(reports, c);
      var i :| 0 <= i < |reports| && reports[i].torrent == c;
      assert reports[i] in reports;
      ReportedIsChecked(rows, n, env, i);
    } else {
      forall d | d in snap ensures snap[d].id != id {
        PickedRow(rows, n, env, d);
      }
      UnpickedStays(rows, n, env, id);
    }
  }
}
