/** The monitor gets on: from every state its holder can reach its next read, and a client that decides
    every torrent brings it to its end. */
module MonitorLiveness {
  import opened Options
  import opened Downloads
  import opened MonitorProtocol
  import opened MonitorProgress
  import opened MonitorRunRounds

  /** Neither a request nor a failure of the client or the store. */
  predicate Regular(e: Event) {
    !e.SaveDownloading? && !e.SaveOther? && !e.Delete? && !Fails(e) && (e.Poll? ==> e.ok)
  }

  // ---- the goroutines of a round finish ----

  function Finish(t: nat, n: nat): seq<Event> {
    if n == 0 then [] else Finish(t, n - 1) + [CheckJob(t, n - 1), SaveJob(t, n - 1)]
  }

  /** Workers below n are through, the others are as they were. */
  ghost predicate FinishedBelow(ws: seq<Worker>, ws': seq<Worker>, n: nat) {
    |ws'| == |ws| && forall i :: 0 <= i < |ws| ==> if i < n then ws'[i].Finished? else ws'[i] == ws[i]
  }

  lemma OneFinishes(s: State, t: nat, i: nat, limit: Option<int>)
    requires At(s, t).Joining? && i < |At(s, t).workers|
    ensures var s' := ApplySave(ApplyCheck(s, t, i, limit), t, i);
      && At(s', t).Joining? && |At(s', t).workers| == |At(s, t).workers| && At(s', t).workers[i].Finished?
      && (forall j :: 0 <= j < |At(s, t).workers| && j != i ==> At(s', t).workers[j] == At(s, t).workers[j])
  {
    hide Check;
  }

  lemma {:induction false} WorkersFinish(s: State, t: nat, n: nat, limit: Option<int>)
    requires At(s, t).Joining? && n <= |At(s, t).workers|
    ensures var s' := Run(s, Finish(t, n), limit);
      At(s', t).Joining? && FinishedBelow(At(s, t).workers, At(s', t).workers, n)
    ensures forall e :: e in Finish(t, n) ==> (e.CheckJob? || e.SaveJob?)
  {
    hide ApplyCheck, ApplySave;
    if n != 0 {
      WorkersFinish(s, t, n - 1, limit);
      var s1 := Run(s, Finish(t, n - 1), limit);
      OneFinishes(s1, t, n - 1, limit);
      RunTwo(s1, CheckJob(t, n - 1), SaveJob(t, n - 1), limit);
      RunsCompose(s, Finish(t, n - 1), [CheckJob(t, n - 1), SaveJob(t, n - 1)], limit);
    }
  }

  // ---- the holder reads again ----

  function NextRead(p: Thread, t: nat): seq<Event> {
    match p
    case Verifying => [Verify(t, true)]
    case Polling(_) => [Poll(t, [], true)] + [Join(t), TickerFires(t)]
    case Joining(ws) => Finish(t, |ws|) + [Join(t), TickerFires(t)]
    case Waiting => [TickerFires(t)]
    case _ => []
  }

  lemma JoinsAndReads(s: State, t: nat, limit: Option<int>)
    requires JoinReady(s, t)
    ensures At(Run(s, [Join(t), TickerFires(t)], limit), t) == Reading
  {
    RunTwo(s, Join(t), TickerFires(t), limit);
  }

  lemma OneStep(s: State, t: nat, limit: Option<int>)
    ensures At(s, t) == Verifying ==> At(Apply(s, Verify(t, true), limit), t) == Reading
    ensures At(s, t) == Waiting ==> At(Apply(s, TickerFires(t), limit), t) == Reading
    ensures At(s, t).Polling? ==> JoinReady(Apply(s, Poll(t, [], true), limit), t)
  {
  }

  lemma HolderGetsThere(s: State, t: nat, limit: Option<int>)
    requires Holding(At(s, t))
    ensures At(Run(s, NextRead(At(s, t), t), limit), t) == if At(s, t) == Releasing then Releasing else Reading
    ensures forall e :: e in NextRead(At(s, t), t) ==> Regular(e)
  {
    hide Run, Apply, Finish;
    OneStep(s, t, limit);
    match At(s, t) {
      case Verifying => RunOne(s, Verify(t, true), limit);
      case Polling(snap) =>
        var poll := Poll(t, [], true);
        RunOne(s, poll, limit);
        JoinsAndReads(Apply(s, poll, limit), t, limit);
        RunsCompose(s, [poll], [Join(t), TickerFires(t)], limit);
      case Joining(ws) =>
        WorkersFinish(s, t, |ws|, limit);
        JoinsAndReads(Run(s, Finish(t, |ws|), limit), t, limit);
        RunsCompose(s, Finish(t, |ws|), [Join(t), TickerFires(t)], limit);
      case Waiting => RunOne(s, TickerFires(t), limit);
      case _ => RunsNothing(s, limit);
    }
  }

  lemma RunsNothing(s: State, limit: Option<int>)
    ensures Run(s, [], limit) == s
  {
  }

  lemma {:induction false} Listing(ids: set<RowId>) returns (order: seq<RowId>)
    ensures (set id | id in order) == ids && (order == [] <==> ids == {})
    decreases |ids|
  {
    if ids == {} {
      order := [];
      assert (set x | x in order) == {};
    } else {
      var id :| id in ids;
      var rest := Listing(ids - {id});
      order := [id] + rest;
      assert (set x | x in order) == {id} + (set x | x in rest);
      assert {id} + (ids - {id}) == ids;
    }
  }

  /** From every state in which a goroutine holds the slot, there is a continuation without requests or
      failures in which it reads the rows again and then polls, or finds nothing to do and stands before
      its release; if it stands there already, it releases the slot. */
  lemma HolderGoesOn(s: State, t: nat, limit: Option<int>) returns (more: seq<Event>)
    requires Holding(At(s, t))
    ensures forall e :: e in more ==> Regular(e)
    ensures var s' := Run(s, more, limit);
      if At(s, t) == Releasing then At(s', t) == Done && !s'.token
      else |more| > 0 && more[|more| - 1].Read? && more[|more| - 1].t == t
           && At(Run(s, more[..|more| - 1], limit), t) == Reading
           && (At(s', t) == Releasing <==> DownloadingIds(s'.rows) == {}) && (At(s', t).Polling? <==> DownloadingIds(s'.rows) != {})
  {
    hide NextRead, Snapshot;
    if At(s, t) == Releasing {
      more := [Release(t)];
      RunOne(s, Release(t), limit);
    } else {
      HolderGetsThere(s, t, limit);
      var pre := NextRead(At(s, t), t);
      var s1 := Run(s, pre, limit);
      var order := Listing(DownloadingIds(s1.rows));
      more := pre + [Read(t, order, true)];
      RunOne(s1, Read(t, order, true), limit);
      RunsCompose(s, pre, [Read(t, order, true)], limit);
      assert more[..|more| - 1] == pre;
    }
  }

  /** A failed client check or store read sends the monitor to its release; a failed status call sends it
      back to its next read at once, no tick in between. None of them touches a row. */
  lemma FailuresMoveOn(s: State, t: nat, order: seq<RowId>, reports: seq<Report>, limit: Option<int>)
    ensures At(s, t) == Verifying ==> At(Apply(s, Verify(t, false), limit), t) == Releasing
    ensures At(s, t) == Reading ==> At(Apply(s, Read(t, order, false), limit), t) == Releasing
    ensures At(s, t).Polling? ==> At(Apply(s, Poll(t, reports, false), limit), t) == Reading
    ensures Apply(s, Verify(t, false), limit).rows == Apply(s, Read(t, order, false), limit).rows == s.rows
    ensures Apply(s, Poll(t, reports, false), limit).rows == s.rows
  {
  }

  lemma OnlyTheTick(s: State, e: Event, t: nat, limit: Option<int>)
    requires At(s, t).Joining? || At(s, t) == Waiting
    ensures e == TickerFires(t) || At(Apply(s, e, limit), t).Joining? || At(Apply(s, e, limit), t) == Waiting
  {
    hide Check;
  }

  /** After an answered poll the monitor waits for the ticker: whatever happens, it does not read again
      before its tick. */
  lemma {:induction false} ReadsOnTheTick(s: State, t: nat, events: seq<Event>, limit: Option<int>)
    requires At(s, t).Joining? || At(s, t) == Waiting
    ensures TickerFires(t) in events || At(Run(s, events, limit), t).Joining? || At(Run(s, events, limit), t) == Waiting
    decreases |events|
  {
    hide Apply;
    if events != [] {
      var front := events[..|events| - 1];
      var last := events[|events| - 1];
      ReadsOnTheTick(s, t, front, limit);
      assert events == front + [last];
      if TickerFires(t) !in front { OnlyTheTick(Run(s, front, limit), last, t, limit); }
    }
  }

  /** Not (or no longer) past its client check. */
  predicate Unverified(p: Thread) {
    p.Saved? || p.Starting? || p.Verifying? || p.Releasing? || p.Done?
  }

  lemma OnlyTheCheck(s: State, e: Event, t: nat, limit: Option<int>)
    requires Unverified(At(s, t)) && t < |s.threads|
    ensures e == Verify(t, true) || Unverified(At(Apply(s, e, limit), t))
    ensures |s.threads| <= |Apply(s, e, limit).threads|
  {
    hide Check;
  }

  /** No goroutine reads the rows before its client check has succeeded. */
  lemma {:induction false} ReadsOnlyVerified(s: State, t: nat, events: seq<Event>, limit: Option<int>)
    requires Unverified(At(s, t)) && t < |s.threads|
    ensures Verify(t, true) in events || (Unverified(At(Run(s, events, limit), t)) && t < |Run(s, events, limit).threads|)
    decreases |events|
  {
    hide Apply, Unverified;
    if events != [] {
      var front := events[..|events| - 1];
      var last := events[|events| - 1];
      ReadsOnlyVerified(s, t, front, limit);
      assert events == front + [last];
      if Verify(t, true) !in front { OnlyTheCheck(Run(s, front, limit), last, t, limit); }
    }
  }

  /** A starter that finds the slot free gets to its first read, one that finds it taken steps aside. */
  lemma StarterGoesOn(s: State, t: nat, limit: Option<int>)
    requires At(s, t) == Saved || At(s, t) == Starting
    ensures !s.token ==> At(Run(s, [Spawn(t), Select(t), Verify(t, true)], limit), t) == Reading
    ensures s.token ==> At(Run(s, [Spawn(t), Select(t)], limit), t) == Done && Run(s, [Spawn(t), Select(t)], limit).token
  {
    RunTwo(s, Spawn(t), Select(t), limit);
    RunOne(Run(s, [Spawn(t), Select(t)], limit), Verify(t, true), limit);
    RunsCompose(s, [Spawn(t), Select(t)], [Verify(t, true)], limit);
    assert [Spawn(t), Select(t)] + [Verify(t, true)] == [Spawn(t), Select(t), Verify(t, true)];
  }

  // ---- a run to the end ----

  /** Calm in every state, and no answer. */
  predicate Quiet(e: Event) {
    Regular(e) && !e.Poll?
  }

  lemma {:induction false} MoreQuiet(rows: Rows, events: seq<Event>, more: seq<Event>, limit: Option<int>)
    requires Undisturbed(rows, events, limit) && forall e :: e in more ==> Quiet(e)
    ensures Undisturbed(rows, events + more, limit) && Answers(rows, events + more, limit) == Answers(rows, events, limit)
    decreases |more|
  {
    if more == [] {
      assert events + more == events;
    } else {
      var front := more[..|more| - 1];
      var last := more[|more| - 1];
      assert last in more;
      MoreQuiet(rows, events, front, limit);
      assert (events + more)[..|events + more| - 1] == events + front && (events + more)[|events + more| - 1] == last;
    }
  }

  lemma OneAnswer(rows: Rows, events: seq<Event>, reports: seq<Report>, limit: Option<int>)
    requires Undisturbed(rows, events, limit) && At(Run(Init(rows), events, limit), 0).Polling?
    requires Decided(At(Run(Init(rows), events, limit), 0).snap, reports)
    ensures var e := Poll(0, reports, true);
      Undisturbed(rows, events + [e], limit) && Answers(rows, events + [e], limit) == Answers(rows, events, limit) + 1
  {
    var e := Poll(0, reports, true);
    assert (events + [e])[..|events + [e]| - 1] == events && (events + [e])[|events + [e]| - 1] == e;
  }

  lemma {:induction false} DecideAll(keys: set<TorrentId>) returns (reports: seq<Report>)
    ensures DistinctTorrents(reports) && (forall i :: 0 <= i < |reports| ==> reports[i].state == Failed && reports[i].saves && reports[i].torrent in keys)
    ensures forall c :: c in keys ==> Reports(reports, c)
    decreases |keys|
  {
    if keys == {} {
      reports := [];
    } else {
      var c :| c in keys;
      var rest := DecideAll(keys - {c});
      reports := [Report(c, Failed, false, true)] + rest;
      forall d | d in keys ensures Reports(reports, d) {
        if d == c {
          assert reports[0].torrent == d;
        } else {
          assert Reports(rest, d);
          var i :| 0 <= i < |rest| && rest[i].torrent == d;
          assert reports[i + 1].torrent == d;
        }
      }
    }
  }

  /** One more round. */
  lemma OneRound(rows: Rows, events: seq<Event>, limit: Option<int>) returns (longer: seq<Event>)
    requires Undisturbed(rows, events, limit)
    requires var s := Run(Init(rows), events, limit); At(s, 0) == Reading && DownloadingIds(s.rows) != {}
    ensures Undisturbed(rows, longer, limit) && Answers(rows, longer, limit) == Answers(rows, events, limit) + 1
    ensures At(Run(Init(rows), longer, limit), 0) == Reading
  {
    hide Run, Apply, Undisturbed, Answers, Jobs, Snapshot, DownloadingIds, NextRead;
    var s := Run(Init(rows), events, limit);
    var order := Listing(DownloadingIds(s.rows));
    var read := Read(0, order, true);
    var polled := events + [read];
    MoreQuiet(rows, events, [read], limit);
    RunsCompose(Init(rows), events, [read], limit);
    RunOne(s, read, limit);
    var s1 := Run(Init(rows), polled, limit);
    ReadPolls(s, order, limit);
    var reports := DecideAll(At(s1, 0).snap.Keys);
    OneAnswer(rows, polled, reports, limit);
    var answer := Poll(0, reports, true);
    RunsCompose(Init(rows), polled, [answer], limit);
    RunOne(s1, answer, limit);
    var s2 := Run(Init(rows), polled + [answer], limit);
    PollJoins(s1, reports, limit);
    HolderGetsThere(s2, 0, limit);
    var rest := NextRead(At(s2, 0), 0);
    JoiningIsQuiet(s2, limit);
    longer := polled + [answer] + rest;
    MoreQuiet(rows, polled + [answer], rest, limit);
    RunsCompose(Init(rows), polled + [answer], rest, limit);
  }

  lemma ReadPolls(s: State, order: seq<RowId>, limit: Option<int>)
    requires At(s, 0) == Reading && Lists(order, s.rows) && order != []
    ensures At(Apply(s, Read(0, order, true), limit), 0).Polling?
  {
  }

  lemma PollJoins(s: State, reports: seq<Report>, limit: Option<int>)
    requires At(s, 0).Polling?
    ensures At(Apply(s, Poll(0, reports, true), limit), 0).Joining?
  {
  }

  lemma JoiningIsQuiet(s: State, limit: Option<int>)
    requires At(s, 0).Joining?
    ensures forall e :: e in NextRead(At(s, 0), 0) ==> Quiet(e)
  {
    WorkersFinish(s, 0, |At(s, 0).workers|, limit);
  }

  /** After p rounds, p no more than the sharers of some torrent id, the monitor can be about to read. */
  lemma {:induction false} Rounds(rows: Rows, c: TorrentId, p: nat, limit: Option<int>) returns (events: seq<Event>)
    requires Keyed(rows) && p <= |Sharers(rows, c)|
    ensures Undisturbed(rows, events, limit) && Answers(rows, events, limit) == p
    ensures At(Run(Init(rows), events, limit), 0) == Reading
    decreases p
  {
    hide Run, Apply, Undisturbed, Answers, Sharers;
    if p == 0 {
      events := [] + [Select(0), Verify(0, true)];
      NothingYet(rows, limit);
      MoreQuiet(rows, [], [Select(0), Verify(0, true)], limit);
      RunTwo(Init(rows), Select(0), Verify(0, true), limit);
      assert events == [Select(0), Verify(0, true)];
      StartsReading(rows, limit);
    } else {
      var before := Rounds(rows, c, p - 1, limit);
      RunCounts(rows, before, limit);
      var s := Run(Init(rows), before, limit);
      SomeLeft(rows, s, c, p - 1);
      events := OneRound(rows, before, limit);
    }
  }

  lemma NothingYet(rows: Rows, limit: Option<int>)
    ensures Undisturbed(rows, [], limit) && Answers(rows, [], limit) == 0
  {
  }

  lemma StartsReading(rows: Rows, limit: Option<int>)
    ensures At(Apply(Apply(Init(rows), Select(0), limit), Verify(0, true), limit), 0) == Reading
  {
  }

  lemma SomeLeft(rows: Rows, s: State, c: TorrentId, p: nat)
    requires Counted(rows, s, p) && At(s, 0) == Reading && p < |Sharers(rows, c)|
    ensures DownloadingIds(s.rows) != {}
  {
    assert |Sharers(s.rows, c)| > 0;
    var id :| id in Sharers(s.rows, c);
    assert id in DownloadingIds(s.rows);
  }

  lemma NoneLeft(rows: Rows, s: State, p: nat)
    requires Counted(rows, s, p) && At(s, 0) == Reading && forall d :: |Sharers(rows, d)| <= p
    ensures DownloadingIds(s.rows) == {}
  {
    forall d ensures Sharers(s.rows, d) == {} {
      assert |Sharers(s.rows, d)| == Left(rows, d, p) == 0;
    }
    forall id ensures id !in DownloadingIds(s.rows) {
      if id in s.rows { assert id !in Sharers(s.rows, s.rows[id].torrent); }
    }
  }

  /** The monitor's run to the end: whatever rows there are, with m the largest number of rows sharing one
      torrent id there is an undisturbed run with exactly m status answers at whose end the monitor is
      done, the slot is free and nothing is Downloading. */
  lemma RunsToTheEnd(rows: Rows, m: nat, c: TorrentId, limit: Option<int>) returns (events: seq<Event>)
    requires Keyed(rows) && |Sharers(rows, c)| == m && forall d :: |Sharers(rows, d)| <= m
    ensures Undisturbed(rows, events, limit) && Answers(rows, events, limit) == m
    ensures var s := Run(Init(rows), events, limit); s.threads == [Done] && !s.token && DownloadingIds(s.rows) == {}
  {
    hide Run, Apply, Undisturbed, Answers, Sharers, DownloadingIds;
    var before := Rounds(rows, c, m, limit);
    RunCounts(rows, before, limit);
    var s := Run(Init(rows), before, limit);
    NoneLeft(rows, s, m);
    var order := Listing(DownloadingIds(s.rows));
    var last := [Read(0, order, true), Release(0)];
    events := before + last;
    MoreQuiet(rows, before, last, limit);
    RunsCompose(Init(rows), before, last, limit);
    RunTwo(s, Read(0, order, true), Release(0), limit);
    EndsDone(rows, s, m, limit);
  }

  lemma EndsDone(rows: Rows, s: State, p: nat, limit: Option<int>)
    requires Counted(rows, s, p) && At(s, 0) == Reading && DownloadingIds(s.rows) == {}
    ensures var s' := Apply(Apply(s, Read(0, [], true), limit), Release(0), limit);
      s'.threads == [Done] && !s'.token && s'.rows == s.rows
  {
    var none: seq<RowId> := [];
    assert (set id | id in none) == {};
  }
}
