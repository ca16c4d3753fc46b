/** The row store and the body of one monitor round (core/internal/downloads/service.go, model.go;
    core/internal/database/db_downloads.go). What the client answers and whether finalizing succeeds
    arrive in reports; times are readings of a clock. */
module Downloads {
  import opened Options

  type RowId = nat
  type TorrentId = string

  datatype Status = Downloading | Completed | Error | Unset
  datatype Reason = NoReason | NotStarted | FinalizeFailed | ClientFailed | TookTooLong
  datatype Media = Media(id: RowId, torrent: TorrentId, status: Status, reason: Reason, updatedAt: int)

  type Rows = map<RowId, Media>

  datatype TorrentState = Complete | Failed | InProgress

  /** One torrent of a status answer, whether finalizing it will succeed, and whether its row can be saved. */
  datatype Report = Report(torrent: TorrentId, state: TorrentState, finalizes: bool, saves: bool)

  ghost predicate Keyed(rows: Rows) {
    forall id :: id in rows ==> rows[id].id == id
  }

  predicate IsDownloading(rows: Rows, id: RowId) {
    id in rows && rows[id].status == Downloading
  }

  function DownloadingIds(rows: Rows): set<RowId> {
    set id | id in rows && rows[id].status == Downloading
  }

  /** gorm's Save: inserts or overwrites the row and stamps it. */
  function Save(rows: Rows, m: Media, now: int): Rows {
    rows[m.id := m.(updatedAt := now)]
  }

  /** How long a row may wait since its last save; None when timeouts are ignored. */
  predicate TimedOut(m: Media, now: int, limit: Option<int>) {
    limit.Some? && limit.value < now - m.updatedAt
  }

  /** What checkDownload makes of its copy of the row. */
  function Check(m: Media, r: Report, now: int, limit: Option<int>): Media {
    match r.state
    case Complete => if r.finalizes then m.(status := Completed) else m.(status := Error, reason := FinalizeFailed)
    case Failed => m.(status := Error, reason := ClientFailed)
    case InProgress => if TimedOut(m, now, limit) then m.(status := Error, reason := TookTooLong) else m
  }

  // ---- the snapshot ----

  /** A listing of the Downloading rows in some order. */
  predicate Lists(order: seq<RowId>, rows: Rows) {
    (set id | id in order) == DownloadingIds(rows)
  }

  /** The map keyed by torrent id: of rows with the same torrent id the last one listed stays. */
  function Snapshot(rows: Rows, order: seq<RowId>): map<TorrentId, Media> {
    if order == [] then map[]
    else
      var last := order[|order| - 1];
      var before := Snapshot(rows, order[..|order| - 1]);
      if last in rows then before[rows[last].torrent := rows[last]] else before
  }

  ghost predicate FromRows(snap: map<TorrentId, Media>, rows: Rows, order: seq<RowId>) {
    && (forall c :: c in snap ==> snap[c].torrent == c)
    && (forall c :: c in snap ==> snap[c].id in order)
    && (forall c :: c in snap ==> Lookup(rows, snap[c].id) == Some(snap[c]))
  }

  lemma {:induction false} SnapshotHolds(rows: Rows, order: seq<RowId>)
    requires Keyed(rows)
    ensures FromRows(Snapshot(rows, order), rows, order)
    ensures forall id :: id in order && id in rows ==> rows[id].torrent in Snapshot(rows, order)
    decreases |order|
  {
    if order != [] {
      var front := order[..|order| - 1];
      var last := order[|order| - 1];
      SnapshotHolds(rows, front);
      assert order == front + [last] && last in order;
      assert forall id :: id in front ==> id in order;
      assert last in rows ==> rows[last].id == last;
    }
  }

  /** Of rows with the same torrent id the last one listed is the one asked about. */
  lemma {:induction false} SnapshotKeepsLast(rows: Rows, order: seq<RowId>, i: nat)
    requires i < |order| && order[i] in rows
    requires forall j :: i < j < |order| && order[j] in rows ==> rows[order[j]].torrent != rows[order[i]].torrent
    ensures var c := rows[order[i]].torrent; c in Snapshot(rows, order) && Snapshot(rows, order)[c] == rows[order[i]]
    decreases |order|
  {
    var front := order[..|order| - 1];
    if i < |front| {
      assert front[i] == order[i] && forall j :: 0 <= j < |front| ==> front[j] == order[j];
      SnapshotKeepsLast(rows, front, i);
    }
  }

  // ---- one round ----

  datatype Job = Job(media: Media, report: Report)

  /** One goroutine for each reported torrent that is in the snapshot. */
  function Jobs(snap: map<TorrentId, Media>, reports: seq<Report>): seq<Job> {
    if reports == [] then []
    else (if reports[0].torrent in snap then [Job(snap[reports[0].torrent], reports[0])] else []) + Jobs(snap, reports[1..])
  }

  /** When a goroutine reads the clock and when its row is saved. */
  datatype Moment = Moment(checkedAt: int, savedAt: int)

  function RunJob(rows: Rows, job: Job, when: Moment, limit: Option<int>): Rows {
    if job.report.saves then Save(rows, Check(job.media, job.report, when.checkedAt, limit), when.savedAt) else rows
  }

  /** The jobs one after the other, each at the moment of its torrent. */
  function RunJobs(rows: Rows, jobs: seq<Job>, when: TorrentId -> Moment, limit: Option<int>): Rows
    decreases |jobs|
  {
    if jobs == [] then rows
    else RunJobs(RunJob(rows, jobs[0], when(jobs[0].report.torrent), limit), jobs[1..], when, limit)
  }

  ghost predicate DistinctRows(jobs: seq<Job>) {
    forall i, j :: 0 <= i < j < |jobs| ==> jobs[i].media.id != jobs[j].media.id
  }

  ghost predicate DistinctTorrents(reports: seq<Report>) {
    forall i, j :: 0 <= i < j < |reports| ==> reports[i].torrent != reports[j].torrent
  }

  /** The row a job saves. */
  function SavedRow(job: Job, when: Moment, limit: Option<int>): Media {
    Check(job.media, job.report, when.checkedAt, limit).(updatedAt := when.savedAt)
  }

  /** The row a round leaves at id: a function of the row's own job only. */
  function RowAfter(rows: Rows, jobs: seq<Job>, id: RowId, when: TorrentId -> Moment, limit: Option<int>): Option<Media> {
    if jobs == [] then (if id in rows then Some(rows[id]) else None)
    else if jobs[0].media.id == id && jobs[0].report.saves
    then Some(SavedRow(jobs[0], when(jobs[0].report.torrent), limit))
    else RowAfter(rows, jobs[1..], id, when, limit)
  }

  function Lookup(rows: Rows, id: RowId): Option<Media> {
    if id in rows then Some(rows[id]) else None
  }

  lemma {:induction false} RowAfterUntouched(rows: Rows, jobs: seq<Job>, id: RowId, when: TorrentId -> Moment, limit: Option<int>)
    requires forall i :: 0 <= i < |jobs| ==> jobs[i].media.id != id
    ensures RowAfter(rows, jobs, id, when, limit) == Lookup(rows, id)
    decreases |jobs|
  {
    if jobs != [] { RowAfterUntouched(rows, jobs[1..], id, when, limit); }
  }

  lemma {:induction false} RowAfterOther(rows: Rows, rows': Rows, jobs: seq<Job>, id: RowId, when: TorrentId -> Moment, limit: Option<int>)
    requires Lookup(rows, id) == Lookup(rows', id)
    ensures RowAfter(rows, jobs, id, when, limit) == RowAfter(rows', jobs, id, when, limit)
    decreases |jobs|
  {
    if jobs != [] { RowAfterOther(rows, rows', jobs[1..], id, when, limit); }
  }

  lemma {:induction false} RowAfterJob(rows: Rows, jobs: seq<Job>, i: nat, when: TorrentId -> Moment, limit: Option<int>)
    requires i < |jobs| && DistinctRows(jobs)
    ensures RowAfter(rows, jobs, jobs[i].media.id, when, limit)
         == if jobs[i].report.saves
            then Some(SavedRow(jobs[i], when(jobs[i].report.torrent), limit))
            else Lookup(rows, jobs[i].media.id)
    decreases |jobs|
  {
    if i == 0 {
      if !jobs[0].report.saves {
        RowAfterUntouched(rows, jobs[1..], jobs[0].media.id, when, limit);
      }
    } else {
      RowAfterJob(rows, jobs[1..], i - 1, when, limit);
    }
  }

  /** The sequential round is a map over the rows: each row depends on its own job, the rest stay. */
  lemma {:induction false} RunJobsPointwise(rows: Rows, jobs: seq<Job>, id: RowId, when: TorrentId -> Moment, limit: Option<int>)
    requires DistinctRows(jobs)
    ensures Lookup(RunJobs(rows, jobs, when, limit), id) == RowAfter(rows, jobs, id, when, limit)
    decreases |jobs|
  {
    if jobs != [] {
      var rows' := RunJob(rows, jobs[0], when(jobs[0].report.torrent), limit);
      RunJobsPointwise(rows', jobs[1..], id, when, limit);
      if id == jobs[0].media.id {
        RowAfterUntouched(rows', jobs[1..], id, when, limit);
        if !jobs[0].report.saves {
          RowAfterUntouched(rows, jobs[1..], id, when, limit);
        }
      } else {
        RowAfterOther(rows, rows', jobs[1..], id, when, limit);
      }
    }
  }

  lemma {:induction false} JobsComeFrom(snap: map<TorrentId, Media>, reports: seq<Report>, j: nat) returns (i: nat)
    requires j < |Jobs(snap, reports)|
    ensures i < |reports| && reports[i].torrent in snap && Jobs(snap, reports)[j] == Job(snap[reports[i].torrent], reports[i])
    decreases |reports|
  {
    if reports[0].torrent in snap && j == 0 {
      i := 0;
    } else {
      i := JobsComeFrom(snap, reports[1..], if reports[0].torrent in snap then j - 1 else j);
      i := i + 1;
    }
  }

  lemma {:induction false} JobsCover(snap: map<TorrentId, Media>, reports: seq<Report>, i: nat) returns (j: nat)
    requires i < |reports| && reports[i].torrent in snap
    ensures j < |Jobs(snap, reports)| && Jobs(snap, reports)[j] == Job(snap[reports[i].torrent], reports[i])
    decreases |reports|
  {
    if i == 0 {
      j := 0;
    } else {
      j := JobsCover(snap, reports[1..], i - 1);
      if reports[0].torrent in snap { j := j + 1; }
    }
  }

  /** Distinct torrents in the answer give goroutines with distinct rows. */
  lemma {:induction false} JobsAreDistinct(rows: Rows, order: seq<RowId>, reports: seq<Report>)
    requires Keyed(rows) && DistinctTorrents(reports)
    ensures DistinctRows(Jobs(Snapshot(rows, order), reports))
    decreases |reports|
  {
    var snap := Snapshot(rows, order);
    SnapshotHolds(rows, order);
    if reports != [] {
      JobsAreDistinct(rows, order, reports[1..]);
      var rest := Jobs(snap, reports[1..]);
      if reports[0].torrent in snap {
        forall j | 0 <= j < |rest| ensures rest[j].media.id != snap[reports[0].torrent].id {
          var i := JobsComeFrom(snap, reports[1..], j);
          assert reports[1..][i] == reports[i + 1];
          assert reports[0].torrent != reports[i + 1].torrent;
          assert snap[reports[0].torrent].torrent != snap[reports[i + 1].torrent].torrent;
        }
      }
    }
  }

  // ---- the same in place ----

  /** A row object, as the Go code passes around by pointer. */
  class MediaObject {
    const id: RowId
    var torrent: TorrentId
    const updatedAt: int
    var status: Status
    var reason: Reason

    function Value(): Media
      reads this
    {
      Media(id, torrent, status, reason, updatedAt)
    }

    constructor (m: Media)
      ensures Value() == m
    {
      id, torrent, updatedAt, status, reason := m.id, m.torrent, m.updatedAt, m.status, m.reason;
    }

    method MarkError(why: Reason)
      modifies this
      ensures Value() == old(Value()).(status := Error, reason := why)
    {
      status, reason := Error, why;
    }

    method MarkComplete()
      modifies this
      ensures Value() == old(Value()).(status := Completed)
    {
      status := Completed;
    }

    method MarkDownloading()
      modifies this
      ensures Value() == old(Value()).(status := Downloading)
    {
      status := Downloading;
    }
  }

  class Store {
    var rows: Rows

    method SaveMedia(media: MediaObject, now: int)
      modifies this
      ensures rows == Save(old(rows), media.Value(), now)
    {
      rows := rows[media.id := Media(media.id, media.torrent, media.status, media.reason, now)];
    }

    /** getDownloadingMedia, given the order in which the query lists its rows. */
    method GetDownloadingMedia(order: seq<RowId>) returns (mediaMap: map<TorrentId, Media>)
      ensures mediaMap == Snapshot(rows, order)
    {
      mediaMap := map[];
      for i := 0 to |order|
        invariant mediaMap == Snapshot(rows, order[..i])
      {
        assert order[..i + 1][..i] == order[..i];
        if order[i] in rows {
          var med := rows[order[i]];
          mediaMap := mediaMap[med.torrent := med];
        }
      }
      assert order[..|order|] == order;
    }

    method CheckDownload(media: MediaObject, report: Report, when: Moment, limit: Option<int>)
      modifies this, media
      ensures media.Value() == Check(old(media.Value()), report, when.checkedAt, limit)
      ensures rows == RunJob(old(rows), Job(old(media.Value()), report), when, limit)
      ensures report.state == Complete ==>
        if report.finalizes then media.status == Completed && media.reason == old(media.reason)
        else media.status == Error && media.reason == FinalizeFailed
      ensures report.state == Failed ==> media.status == Error && media.reason == ClientFailed
      ensures report.state == InProgress ==>
        if limit.Some? && when.checkedAt - media.updatedAt > limit.value
        then media.status == Error && media.reason == TookTooLong
        else media.status == old(media.status) && media.reason == old(media.reason)
      ensures media.torrent == old(media.torrent)
      ensures rows == if report.saves then old(rows)[media.id := media.Value().(updatedAt := when.savedAt)] else old(rows)
    {
      match report.state {
        case Complete =>
          if report.finalizes { media.MarkComplete(); } else { media.MarkError(FinalizeFailed); }
        case Failed =>
          media.MarkError(ClientFailed);
        case InProgress =>
          if limit.Some? && limit.value < when.checkedAt - media.updatedAt { media.MarkError(TookTooLong); }
      }
      if report.saves { SaveMedia(media, when.savedAt); }
    }

    /** The loop over the status answer, each goroutine run where it is started. */
    method CheckAll(snap: map<TorrentId, Media>, reports: seq<Report>, when: TorrentId -> Moment, limit: Option<int>)
      modifies this
      ensures rows == RunJobs(old(rows), Jobs(snap, reports), when, limit)
    {
      for i := 0 to |reports|
        invariant RunJobs(old(rows), Jobs(snap, reports), when, limit)
               == RunJobs(rows, Jobs(snap, reports[i..]), when, limit)
      {
        assert reports[i..][1..] == reports[i + 1..];
        if reports[i].torrent in snap {
          var media := new MediaObject(snap[reports[i].torrent]);
          var job := Job(snap[reports[i].torrent], reports[i]);
          assert Jobs(snap, reports[i..])[1..] == Jobs(snap, reports[i + 1..]);
          assert Jobs(snap, reports[i..])[0] == job;
          CheckDownload(media, reports[i], when(reports[i].torrent), limit);
        } else {
          assert Jobs(snap, reports[i..]) == Jobs(snap, reports[i + 1..]);
        }
      }
    }
  }
}
