/** core/internal/media_manager/service.go and DownloadMedia: the requests that put rows into the store
    while the monitor runs. Each is a run of protocol events, so what the protocol keeps they keep. */
module MediaManager {
  import opened Options
  import opened Downloads
  import opened MonitorProtocol

  /** What the outside makes of one DownloadMedia call: whether there is a client, the id it gives the
      torrent (None if fetching or sending the torrent file failed), whether the row can be saved. */
  datatype Attempt = Attempt(client: bool, torrent: Option<TorrentId>, saves: bool)

  predicate Succeeds(a: Attempt) {
    a.client && a.torrent.Some? && a.saves
  }

  /** The request object after DownloadMedia. */
  function Requested(m: Media, a: Attempt): Media {
    if a.client && a.torrent.Some? then m.(torrent := a.torrent.value, status := Downloading) else m
  }

  function DownloadEvents(s: State, m: Media, a: Attempt): seq<Event> {
    if Succeeds(a) then [SaveDownloading(Requested(m, a)), Spawn(|s.threads|)] else []
  }

  /** freeleech: None if none was asked for, otherwise whether it could be bought. */
  function AddEvents(s: State, m: Media, freeleech: Option<bool>, a: Attempt, edits: bool): seq<Event> {
    if freeleech == Some(false) then []
    else if Succeeds(a) then DownloadEvents(s, m, a)
    else if edits then [SaveOther(Requested(m, a).(status := Error, reason := NotStarted))]
    else []
  }

  /** The row of a started download: the client's id, Downloading, saved now, the rest as requested. */
  predicate RowStarted(s: State, m: Media, a: Attempt, now: int) {
    m.id in s.rows && a.torrent.Some? && s.rows[m.id] == Media(m.id, a.torrent.value, Downloading, m.reason, now)
  }

  /** A row somebody will look at: a starter or a monitor that reads again. */
  predicate Watched(s: State, id: RowId) {
    IsDownloading(s.rows, id) && Covered(s)
  }

  class MediaManagerService {
    var state: State

    constructor (state: State)
      ensures this.state == state
    {
      this.state := state;
    }

    method DownloadMedia(media: MediaObject, a: Attempt, ghost limit: Option<int>) returns (ok: bool)
      modifies this, media
      ensures ok == Succeeds(a)
      ensures media.Value() == Requested(old(media.Value()), a)
      ensures a.client && a.torrent.Some? ==> media.torrent == a.torrent.value && media.status == Downloading
      ensures !a.client || a.torrent.None? ==> media.Value() == old(media.Value())
      ensures ok ==> RowStarted(state, old(media.Value()), a, old(state).now)
      ensures ok ==> state.threads == old(state).threads + [Starting]
      ensures !ok ==> state == old(state)
      ensures state == MonitorProtocol.Run(old(state), DownloadEvents(old(state), old(media.Value()), a), limit)
    {
      hide Apply;
      ghost var m := media.Value();
      if !a.client || a.torrent.None? { return false; }
      media.torrent := a.torrent.value;
      media.MarkDownloading();
      if !a.saves { return false; }
      RequestEvents(state, m, a, limit);
      var t := |state.threads|;
      state := Apply(state, SaveDownloading(media.Value()), None);
      state := Apply(state, Event.Spawn(t), None);
      ok := true;
    }

    method AddMedia(mediaRequest: MediaObject, freeleech: Option<bool>, a: Attempt, edits: bool, ghost limit: Option<int>)
      returns (ok: bool)
      modifies this, mediaRequest
      ensures state == MonitorProtocol.Run(old(state), AddEvents(old(state), old(mediaRequest.Value()), freeleech, a, edits), limit)
      ensures ok <==> freeleech != Some(false) && (Succeeds(a) || edits)
      ensures ok && Succeeds(a) ==> Watched(state, mediaRequest.id)
      ensures ok && Succeeds(a) ==> RowStarted(state, old(mediaRequest.Value()), a, old(state).now)
      ensures ok && !Succeeds(a) ==> mediaRequest.id in state.rows && state.rows[mediaRequest.id].status == Error
      ensures ok && !Succeeds(a) ==> state.rows[mediaRequest.id].reason == NotStarted
      ensures !ok ==> state == old(state)
    {
      hide Watched;
      ghost var before := state;
      ghost var m := mediaRequest.Value();
      if freeleech == Some(false) { return false; }
      ok := DownloadMedia(mediaRequest, a, limit);
      if ok {
        RequestEvents(before, m, a, limit);
        return true;
      }
      mediaRequest.MarkError(NotStarted);
      if !edits { return false; }
      RunOne(before, SaveOther(mediaRequest.Value()), limit);
      state := Apply(state, SaveOther(mediaRequest.Value()), None);
      ok := true;
    }

    method Retry(id: RowId, a: Attempt, ghost limit: Option<int>) returns (ok: bool)
      modifies this
      ensures ok <==> id in old(state).rows && Succeeds(a)
      ensures ok ==> state == MonitorProtocol.Run(old(state), DownloadEvents(old(state), old(state).rows[id], a), limit)
      ensures ok && old(state).rows[id].id == id ==> Watched(state, id)
      ensures ok ==> RowStarted(state, old(state).rows[id], a, old(state).now)
      ensures !ok ==> state == old(state)
    {
      hide Watched;
      if id !in state.rows { return false; }
      var media := new MediaObject(state.rows[id]);
      ghost var before := state;
      ok := DownloadMedia(media, a, limit);
      if ok { RequestEvents(before, before.rows[id], a, limit); }
    }

    method Delete(id: RowId, deletes: bool, ghost limit: Option<int>) returns (ok: bool)
      modifies this
      ensures ok <==> id in old(state).rows && deletes
      ensures state == if ok then Apply(old(state), Event.Delete(id), limit) else old(state)
      ensures state.rows == if ok then old(state).rows - {id} else old(state).rows
    {
      if id !in state.rows || !deletes { return false; }
      state := Apply(state, Event.Delete(id), None);
      ok := true;
    }
  }

  /** A successful DownloadMedia: the save, then the goroutine; somebody will look at the row. */
  lemma RequestEvents(s: State, m: Media, a: Attempt, limit: Option<int>)
    requires Succeeds(a)
    ensures var s' := MonitorProtocol.Run(s, DownloadEvents(s, m, a), limit);
      && s' == Apply(Apply(s, SaveDownloading(Requested(m, a)), None), Spawn(|s.threads|), None)
      && Watched(s', m.id) && RowStarted(s', m, a, s.now) && s'.threads == s.threads + [Starting]
  {
    var e, f := SaveDownloading(Requested(m, a)), Spawn(|s.threads|);
    RunTwo(s, e, f, limit);
    var s' := Apply(Apply(s, e, limit), f, limit);
    assert MonitorProtocol.Run(s, [e, f], limit) == s';
    assert WillRead(s'.threads[|s.threads|]);
  }

  /** A request made at any moment of any run leaves a state the protocol could reach, so mutual
      exclusion and coverage hold after it. */
  lemma RequestsKeepProtocol(rows: Rows, events: seq<Event>, m: Media, freeleech: Option<bool>, a: Attempt, edits: bool, limit: Option<int>)
    ensures var s := MonitorProtocol.Run(Init(rows), events, limit);
      var s' := MonitorProtocol.Run(s, AddEvents(s, m, freeleech, a, edits), limit);
      Mutex(s') && Coverage(s')
  {
    var s := MonitorProtocol.Run(Init(rows), events, limit);
    RunsCompose(Init(rows), events, AddEvents(s, m, freeleech, a, edits), limit);
    RunCoverage(rows, events + AddEvents(s, m, freeleech, a, edits), limit);
  }
}
