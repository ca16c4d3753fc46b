/** checkDownload and finalizeDownload together (core/internal/downloads/service.go): the monitor's verdict
    on a finished download is what placing its files came to. */
module Completion {
  import opened Options
  import opened FileSystem
  import opened FolderWalk
  import opened HardLinking
  import Downloads
  import DiskOperations
  import MonitorHistory
  import MonitorProtocol
  import Placement
  import PlacementCorners

  /** Where one finalizing started: the kernel and the world it met, its source and its target. */
  datatype Placing = Placing(k: Kernel, w: World, src: Path, dst: Path)

  function Outcome(p: Placing): Result {
    Placement.Finalize(p.k, p.w, p.src, p.dst)
  }

  /** What FinalizeDelivers asks of the starting point. */
  ghost predicate Proper(p: Placing) {
    var linked := HardLinkFolder(p.k, p.w, p.src, p.dst);
    var tgt := TargetRoot(p.w, p.src, p.dst);
    && Valid(p.w) && ListsAll(p.k) && Separate(p.w, p.src, tgt)
    && (linked.st.Ok? || (Placement.AliasFree(linked.w, p.src, tgt) && Placement.TargetsAgree(linked.w, p.src, tgt)))
  }

  /** Every file of the source has its bytes at its target. */
  ghost predicate Placed(p: Placing) {
    forall rel :: IsFile(p.w, p.src + rel) ==> Placement.Copied(p.w, Outcome(p).w, p.src, TargetRoot(p.w, p.src, p.dst), rel)
  }

  lemma SuccessIsPlaced(p: Placing)
    requires Proper(p) && Outcome(p).st.Ok?
    ensures Placed(p)
  {
    forall rel | IsFile(p.w, p.src + rel)
      ensures Placement.Copied(p.w, Outcome(p).w, p.src, TargetRoot(p.w, p.src, p.dst), rel)
    {
      PlacementCorners.FinalizeDelivers(p.k, p.w, p.src, p.dst, rel);
    }
  }

  /** checkDownload with its finalizing done on the disk; chowned says whether the recursive chown that
      follows the placing works. */
  method CheckDownload(store: Downloads.Store, disk: DiskOperations.Disk, media: Downloads.MediaObject, state: Downloads.TorrentState,
                       src: Path, dst: Path, chowned: bool, saves: bool, when: Downloads.Moment, limit: Option<int>)
    returns (ghost report: Downloads.Report)
    modifies store, disk, media
    ensures report.torrent == old(media.torrent) && report.state == state && report.saves == saves
    ensures state == Downloads.Complete ==>
      (report.finalizes <==> Placement.Finalize(disk.kernel, old(disk.State()), src, dst).st.Ok? && chowned)
    ensures disk.State() == if state == Downloads.Complete then Placement.Finalize(disk.kernel, old(disk.State()), src, dst).w else old(disk.State())
    ensures media.Value() == Downloads.Check(old(media.Value()), report, when.checkedAt, limit)
    ensures store.rows == Downloads.RunJob(old(store.rows), Downloads.Job(old(media.Value()), report), when, limit)
    ensures state == Downloads.Complete ==>
      if Placement.Finalize(disk.kernel, old(disk.State()), src, dst).st.Ok? && chowned
      then media.status == Downloads.Completed && media.reason == old(media.reason)
      else media.status == Downloads.Error && media.reason == Downloads.FinalizeFailed
    ensures state == Downloads.Failed ==> media.status == Downloads.Error && media.reason == Downloads.ClientFailed
    ensures state == Downloads.InProgress ==>
      if limit.Some? && when.checkedAt - media.updatedAt > limit.value
      then media.status == Downloads.Error && media.reason == Downloads.TookTooLong
      else media.status == old(media.status) && media.reason == old(media.reason)
    ensures store.rows == if saves then old(store.rows)[media.id := media.Value().(updatedAt := when.savedAt)] else old(store.rows)
    ensures state == Downloads.Complete && media.status == Downloads.Completed ==>
      var p := Placing(disk.kernel, old(disk.State()), src, dst); Outcome(p).st.Ok? && (Proper(p) ==> Placed(p))
  {
    ghost var p := Placing(disk.kernel, disk.State(), src, dst);
    if Outcome(p).st.Ok? && Proper(p) { SuccessIsPlaced(p); }
    hide Placement.Finalize, Placed, Proper;
    var finalizes := true;
    if state == Downloads.Complete {
      var st := disk.Finalize(src, dst);
      finalizes := st.Ok? && chowned;
    }
    var r := Downloads.Report(media.torrent, state, finalizes, saves);
    store.CheckDownload(media, r, when, limit);
    report := r;
  }

  /** Every successful finalizing a run speaks of is a placing that reported success. */
  ghost predicate Finalizes(h: MonitorHistory.Past, placing: Downloads.Report -> Placing) {
    forall r :: MonitorHistory.Reported(h, r) && r.state == Downloads.Complete && r.finalizes ==> Outcome(placing(r)).st.Ok?
  }

  /** Completed means the files are there: in every run a row that became Completed bears a torrent id
      reported complete whose placing reported success, and placed every file of its source. */
  lemma CompletedWasPlaced(h: MonitorHistory.Past, placing: Downloads.Report -> Placing, id: Downloads.RowId) returns (r: Downloads.Report)
    requires Downloads.Keyed(h.rows) && Finalizes(h, placing)
    requires MonitorHistory.IsCompleted(MonitorHistory.Present(h).rows, id) && !MonitorHistory.IsCompleted(h.rows, id)
    ensures MonitorHistory.Reported(h, r) && r.torrent == MonitorHistory.Present(h).rows[id].torrent && r.state == Downloads.Complete
    ensures Outcome(placing(r)).st.Ok? && (Proper(placing(r)) ==> Placed(placing(r)))
  {
    MonitorHistory.CompletedWasFinalized(h, id);
    var c := MonitorHistory.Present(h).rows[id].torrent;
    r :| MonitorHistory.Reported(h, r) && r.torrent == c && r.state == Downloads.Complete && r.finalizes && r.saves;
    if Proper(placing(r)) { SuccessIsPlaced(placing(r)); }
  }
}
