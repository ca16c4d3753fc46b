# Gouda: a model of its core and what is proved about it

Gouda sends torrents to a download client, watches them, and puts finished downloads where they belong.
This project models six parts of it in Dafny and proves what they promise.

| part | files | what is modelled |
|---|---|---|
| Placing a download | `FileSystem`, `FolderWalk`, `HardLinking`, `Placement`, `PlacementCorners`, `PlacementSuccess`, `PlacementSteps`, `PlacementOverlap`, `DiskOperations` | a file system of names and inodes, the hard-link walk, the copy walk that follows it on an error, any system call refused at any moment |
| The download monitor | `Downloads`, `MonitorProtocol`, `MonitorHistory`, `MonitorCopies`, `MonitorDeadlines`, `MonitorRound`, `MonitorRunRounds`, `MonitorLiveness`, `MonitorProgress`, `MediaManager`, `Completion` | the row store, one slot that elects a monitor, requests and monitor and per-torrent goroutines interleaved in any way, the polling loop round by round, the placing that a finished download starts |
| Magnet links | `ByteStrings`, `Bencode`, `BencodeValues`, `MagnetText`, `Magnet` | bencode, query escaping, printing a magnet URI from a torrent file and parsing one |
| The task scheduler | `Scheduler` | two channels of capacity one and any number of loops |
| Rotating sessions | `Sessions`, `SessionTokens`, `SessionRequests`, `AuthService` | the session table, its eviction, login, refresh, logout, expiry, one request after another and overlapping |
| Arithmetic | `BonusPoints`, `RelativeTime` | the bonus-point spender; relative times |

Code that changes state step by step is a class or a method with loops (`Disk`, `Store`, `MediaObject`,
`MediaManagerService`, `Service`, `SchedulerObject`, the magnet, bonus and time methods). Each is tied by its
postcondition to a function of the old state, and the theorems are about those functions. Where goroutines or
requests run side by side (`MonitorProtocol`, `Scheduler`, `SessionRequests`), a run is any sequence of events, one
event for each step between two points at which another goroutine can get in. `Sessions` and `AuthService` speak of
one request after another; `SessionRequests.AloneIsRefresh` ties them to the overlapping ones.

## Main results

* **Source safety.** `Placement.FinalizeExact`: from a target that aliased nothing, with any call refused at any
  moment, every source path stays and every source file is intact or empty. If the links failed and the copy then
  reported success, the source is intact if and only if every file linked by then was empty.
  `PlacementCorners.RefusedChmodEmptiesSource` gives, for every non-empty single-file download, a run in which the
  bytes are lost and success is reported.
* **Exact placement.** `HardLinking.HardLinkFolderExact`, `Placement.CopyFolderShape`, `Placement.CopyFolderExact`:
  what every path of the world leads to after a success, and exactly when every copy holds the bytes of its source.
* **Targets that overlap the source.** All of the above needs only that no target path lies in the source
  (`FolderWalk.SeparateIff` says what to look at). When one does: `PlacementOverlap.SingleFileSurvivesIff`,
  `PlacementOverlap.DirectoryOntoItself`, `PlacementOverlap.TargetAboveReplacesFile`,
  `PlacementCorners.TargetInsideSourceFails`.
* **No download is forgotten but one kind.** `MonitorProtocol.UncoveredWasSavedInWindow`, and
  `MonitorProtocol.WindowLosesRow`: from every reachable state in that window any row can be lost.
  `MonitorProtocol.MonitorMutex` is mutual exclusion.
* **Every mark has a cause**, over all interleavings of monitor, workers, requests, edits and deletions:
  `Completion.CompletedWasPlaced` (Completed means the files were placed), `MonitorHistory.TimedOutWasOverdue`.
* **What working on old copies undoes, exactly.** `MonitorDeadlines.MarkedIsLate` and
  `MonitorDeadlines.MarksEarlyIff`: a row is marked as taking too long exactly when it is late, unless a request
  saved it since the monitor read it. `MonitorCopies.DeletionLastsIff`: a deletion lasts if and only if no goroutine
  holds a copy it can save.
* **A round is a map over its rows** in every schedule, each row judged at its own moment
  (`MonitorRound.RoundIsPointwise`); two schedules agree except on a download in progress that they check on
  different sides of its limit (`MonitorRound.RoundsAgreeIff`).
* **A monitor never gets stuck.** From every state with a holder of the slot there is a continuation without requests
  or failures to its next read or its release (`MonitorLiveness.HolderGoesOn`), and from the start there is a run with
  exactly m status answers that ends with the slot free and nothing Downloading (`MonitorLiveness.RunsToTheEnd`).
* **A finished download is Completed** exactly if its files could be placed (`Completion.CheckDownload`), in the store
  at the join, in every schedule of its round (`MonitorRound.FinishedIsCompleted`, `MonitorRound.RoundOutcome`).
* **The monitor ends after exactly m rounds**, m being the largest number of rows sharing a torrent id: in the
  polling loop (`MonitorProgress.MonitorRounds`) and in the interleaved protocol (`MonitorRunRounds.ReleasesAfterExactly`).
* **The info hash is the hash of the file's own bytes** exactly for canonical files (`Magnet.InfoHashOfFile`), and
  **printing then parsing is the identity** (`Magnet.TorrentRoundTrip`), for all byte strings; what comes back is the
  hash in lower-case hexadecimal, high digit first. Which URIs are accepted at all: `Magnet.DecodesIff`.
* **Scheduler accounting** over all interleavings (`Scheduler.EveryStateAccounted`), **no trigger and no tick is lost**
  (`Scheduler.NoTriggerLost`, `Scheduler.NoTickLost`), and from every state ticks alone lead to a task start if and
  only if some loop lives (`Scheduler.TicksRunTheTask`).
* **Bounded FIFO sessions**, one request after another and overlapping (`Sessions.LoginsAreFifo`,
  `Sessions.RunBounds`, `SessionRequests.OverlapKeepsBound`).
* **How long tokens work.** In every run that leaves a new session in the table, its session token verifies exactly
  until the session duration has passed and its refresh token exactly until the refresh duration has
  (`SessionTokens.TokenLifetime`).
* **When a refresh token works once.** Always for requests one after another (`Sessions.RefreshWorksOnce`). For
  overlapping ones exactly if, when a refresh deletes the old session, no other request holds the token
  (`SessionRequests.WorksOnceIff`); two that look it up together both succeed (`SessionRequests.DoubleRefresh`).
* **The bonus reserve** is safe from every outcome if and only if the surplus is not strictly between 0 and 500
  (`BonusPoints.ReserveSafeIff`).

## Assumptions

* A path is a cleaned list of names. No target path lies in the source unless a theorem says otherwise; the target may
  be above the source.
* A directory listing names every entry, in any order. A walk deeper than `maxDepth` below its root ends with
  ENAMETOOLONG, which stands for the length limit of paths.
* Saving a row inserts or overwrites it and stamps `updatedAt`; each store call is atomic, a transaction
  included, and other requests run between store calls; sessions have strictly increasing creation stamps; random
  tokens are new; the clock does not run backwards.
* Besides the monitor and DownloadMedia, rows are saved by AddMedia after an error and by Edit; neither writes the
  status Downloading or Completed (`core/internal/downloads/model.go:89-104`).
* What the download client, the network and the bonus shop answer is arbitrary and arrives as a parameter.
* SHA-1 is any function from byte strings to 20 bytes. A text is a sequence of bytes, written as characters
  below 256.
* Bencode follows BEP 3 (section "bencoding"), magnet URIs BEP 9 (section "magnet URI format"), percent escapes
  section 2.1 of RFC 3986, with `+` for a space.

## Where the code and its documentation disagree

The model follows the code.

* `readme.md:151-152` promises an untouched original after a hard-link error; the copy that follows truncates files
  that were already linked (`RefusedChmodEmptiesSource`). It also calls an existing target path an error;
  `hardlinkFile` removes it.
* `readme.md:150` gives a limit of 15 minutes. The configuration ignores limits by default
  (`core/internal/server_config/model.go:58`), an unreadable limit becomes one hour
  (`core/internal/downloads/service.go:309`), and time is counted from the last save of the row, not from the start.
* After a failed status call the monitor logs that it retries in a minute
  (`core/internal/downloads/service.go:186`); it reads again at once (`MonitorLiveness.FailuresMoveOn`).
* The comment above `divideIntoMamGBAmounts` names the intervals 100, 20, 5 and 1; the code has 100 only.
* `core/internal/database/db_auth_session.go:33` speaks of the oldest sessions; one is deleted,
  and an error of that delete is dropped, so the limit holds only as long as it works (`Sessions.LoginAtLimit`).

## Model

| member | source | states |
|---|---|---|
| FileSystem.MkdirAllAdds | core/pkg/file_utils/hardlink.go:63 | making a directory loses nothing, changes no file, and adds only directories on the way to it, wherever it fails |
| FolderWalk.MakeRoomEffect | core/pkg/file_utils/hardlink.go:164-173 | making room at a target touches no other path and no inode |
| FolderWalk.HardlinkFileEffect | core/pkg/file_utils/hardlink.go:163-185 | wherever it fails, only the target name can change, to nothing or to the source's inode; after success it is the source's inode; no byte changes |
| FolderWalk.ChmodEffect | core/pkg/file_utils/hardlink.go:180-182 | a chmod that succeeds gives the file that mode; it changes no name and no byte |
| FolderWalk.CopyFileEffect | core/pkg/file_utils/hardlink.go:122-160 | wherever it fails, only the inode behind an existing target can change; a new target gets a new inode and the source's mode; after success the target holds the source's bytes, or none if both were one inode |
| FolderWalk.SeparateIff | core/pkg/file_utils/hardlink.go:94-101 | no target path lies in the source if and only if the target is not in it and, if it is above it, the source does not hold its own path from there once more |
| FolderWalk.WalkFollowsScript | core/pkg/file_utils/hardlink.go:83-119 | the walk, which lists directories as it reaches them, does the same as a list of visits fixed before it starts, for both actions and every refusal |
| HardLinking.ScriptComplete | core/pkg/file_utils/hardlink.go:83-119 | the walk visits every path of the source tree, empty directories included |
| HardLinking.ScriptSound | core/pkg/file_utils/hardlink.go:83-119 | the walk visits nothing but paths of the source tree, with the right kind |
| HardLinking.HardLinkFolderSafe | core/pkg/file_utils/hardlink.go:51-120 | at whatever call the hard-link walk fails, the source tree, all inodes and all names outside the target are as before |
| HardLinking.HardLinkFolderExact | core/pkg/file_utils/hardlink.go:51-120 | after success every path of the world leads where it should: relative file paths to the same inodes, directories mirrored, everything else unchanged |
| HardLinking.WalkFolderEnds | core/pkg/file_utils/hardlink.go:55-120 | if no target path lies in the source the walk ends by itself: a source within the depth limit never runs into it |
| Placement.CopyFolderFrame | core/pkg/file_utils/hardlink.go:45-47 | wherever CopyFolder fails, existing names stay and only inodes opened through existing target paths can change |
| Placement.CopyFolderShape | core/pkg/file_utils/hardlink.go:45-120 | after success the target has the shape of the source, and nothing else has been named |
| Placement.CopyFolderSafe | core/pkg/file_utils/hardlink.go:122-160 | with no target path aliasing a source inode, the source survives every failure of the copy |
| Placement.CopyFolderExact | core/pkg/file_utils/hardlink.go:122-160 | after a success into a target sharing no inode with the source, all copies hold their source's bytes if and only if existing target paths that are one file were due the same bytes |
| Placement.CopyOverOwnLinks | core/pkg/file_utils/hardlink.go:139 | copying over one's own links: a source file keeps its bytes or is emptied, and after success the emptied ones are exactly those whose link was opened |
| Placement.FinalizeSafe | core/internal/downloads/service.go:264-276 | link-then-copy leaves every source path and its bytes unchanged, at every point of failure, if no target path aliases a source inode when the copy starts |
| Placement.FinalizeExact | core/internal/downloads/service.go:264-276 | from a target that aliased nothing: source paths stay, files are intact or empty, and after a failed link walk and a successful copy the source is intact if and only if every file linked by then was empty |
| PlacementCorners.FinalizeDelivers | core/internal/downloads/service.go:264-276 | a reported success means every source file's bytes are at its target, unless a copy started over aliased or disagreeing targets |
| PlacementCorners.CrossDevice | core/internal/downloads/service.go:264-276 | if no link can be made at all, the source survives every further failure and a reported success has copied every file |
| PlacementCorners.RefusedChmodEmptiesSource | core/pkg/file_utils/hardlink.go:180-182 | every non-empty single-file download into an existing directory is emptied, with success reported, if only chmod is refused |
| PlacementCorners.SelfTargetLosesSource | core/pkg/file_utils/hardlink.go:171-177 | a single file placed onto itself is removed before it can be linked |
| PlacementOverlap.SingleFileSurvivesIff | core/pkg/file_utils/hardlink.go:68-80 | with every call allowed a single file survives if and only if the target is not its own directory, for every target |
| PlacementOverlap.DirectoryOntoItself | core/pkg/file_utils/hardlink.go:83-185 | a directory placed onto itself, every call allowed: success is reported, and the source survives if and only if there is no file in it; otherwise one file is gone and all others are empty |
| PlacementOverlap.TargetAboveReplacesFile | core/pkg/file_utils/hardlink.go:94-113 | a target above the source that runs back into it: success is reported, and a file of the source has been replaced by another one |
| PlacementCorners.TargetInsideSourceFails | core/pkg/file_utils/hardlink.go:83-119 | placing a directory strictly inside itself never succeeds, whatever the depth limit |
| PlacementSuccess.HardLinkFolderSucceeds | core/pkg/file_utils/hardlink.go:51-120 | if nothing is refused and nothing of the other kind is in the way, the hard links succeed |
| PlacementSuccess.CopyFolderSucceeds | core/pkg/file_utils/hardlink.go:45-120 | the copy succeeds whatever happens to links: every file finds its directory already made |
| PlacementSuccess.FallbackSucceeds | core/internal/downloads/service.go:264-276 | whichever links are refused, the download is placed |
| PlacementSteps.SuccessMakesSteps | core/pkg/file_utils/hardlink.go:55-185 | an operation that succeeds has made, unrefused and in order, all the calls of every file (remove, link, chmod; or open, stat, create, write, sync) and listed every directory |
| PlacementSteps.RefusedStepFails | core/pkg/file_utils/hardlink.go:122-185 | if one of those kinds of call is refused every time, the operation fails on every source with a file in it |
| PlacementSteps.CutShortCopy | core/pkg/file_utils/hardlink.go:147-151 | a copy cut short after n bytes reports the error and leaves exactly those bytes at its target |
| PlacementSteps.LinkOntoDirIff | core/pkg/file_utils/hardlink.go:170-178 | a directory in the place of a linked file is replaced if it is empty, and otherwise left, with an error |
| PlacementSteps.MissingSource | core/pkg/file_utils/hardlink.go:56-60 | a missing source is reported and nothing is made |
| DiskOperations.Disk.HardlinkFile | core/pkg/file_utils/hardlink.go:163-185 | in place, call by call, exactly the world and the status the theorems speak of |
| DiskOperations.Disk.CopyFile | core/pkg/file_utils/hardlink.go:122-160 | the same for a copy, over the two opened files |
| DiskOperations.Disk.WalkEntries | core/pkg/file_utils/hardlink.go:83-119 | the loop over the entries of one directory, stopping at the first error |
| DiskOperations.Disk.WalkFolder | core/pkg/file_utils/hardlink.go:55-120 | the whole walk in place, single files and directories |
| DiskOperations.Disk.Finalize | core/internal/downloads/service.go:259-294 | the fallback in place; from a target that aliased nothing no source path is lost and every source file is intact or empty |
| Downloads.SnapshotHolds | core/internal/downloads/service.go:330-342 | the map of downloading media holds stored Downloading rows only, under their torrent ids, and an entry for the torrent of every such row |
| Downloads.SnapshotKeepsLast | core/internal/downloads/service.go:336-339 | of rows with one torrent id the last one listed is the one asked about |
| Downloads.RunJobsPointwise | core/internal/downloads/service.go:191-202 | a sequential round, each job at its own moment, is a map over the rows: each row depends on its own job, the rest stay |
| Downloads.JobsAreDistinct | core/internal/downloads/service.go:191-202 | an answer with distinct torrent ids starts goroutines with distinct rows |
| Downloads.MediaObject.MarkError | core/internal/downloads/model.go:45-48 | status and message change, nothing else |
| Downloads.MediaObject.MarkComplete | core/internal/downloads/model.go:50-52 | the status changes and the old message stays |
| Downloads.MediaObject.MarkDownloading | core/internal/downloads/model.go:54-56 | the status changes and the old message stays |
| Downloads.Store.SaveMedia | core/internal/database/db_downloads.go:12-19 | the row is inserted or overwritten and stamped |
| Downloads.Store.GetDownloadingMedia | core/internal/downloads/service.go:330-342 | the loop fills the map, a later row of the same torrent replacing an earlier one |
| Downloads.Store.CheckDownload | core/internal/downloads/service.go:208-257 | outcome by outcome: finished and placed is Completed, finished and not placed FinalizeFailed, failed ClientFailed, past the limit TookTooLong, otherwise unchanged; the stored row is the object stamped, if it can be saved |
| Downloads.Store.CheckAll | core/internal/downloads/service.go:192-202 | the loop over a status answer checks exactly the reported torrents of the snapshot, each at its own moment |
| MonitorProtocol.MonitorMutex | core/internal/downloads/service.go:148-159 | in every state of every run the slot holds a token if and only if exactly one goroutine is between send and receive: one monitor at most, and its receive never blocks |
| MonitorProtocol.RunCoverage | core/internal/downloads/service.go:140-180 | in every state of every run, a Downloading row that no starter and no further read will see was saved between a last read and a release, or left by a monitor that gave up on an error |
| MonitorProtocol.NothingAbandoned | core/internal/downloads/service.go:161-176 | only a failed client check or a failed store read makes a monitor leave rows behind |
| MonitorProtocol.LateIsSavedInWindow | core/internal/downloads/service.go:140-153 | a row recorded as late was last saved by a request at a moment when a monitor stood before its release |
| MonitorProtocol.UncoveredWasSavedInWindow | core/internal/downloads/service.go:140-180 | if client and store answer, every forgotten Downloading row was last saved between a monitor's empty read and its release of the slot |
| MonitorProtocol.WindowLosesRow | core/internal/downloads/service.go:148-180 | from every reachable state in which a monitor stands between its last read and its release, every row can be saved and then left Downloading with no monitor and no starter, though no call fails |
| MonitorProtocol.WindowOpens | core/internal/downloads/service.go:172-181 | a monitor that finds nothing Downloading gets to that state |
| MonitorHistory.CompletedWasFinalized | core/internal/downloads/service.go:219-233 | in every run a row that became Completed bears a torrent id that was reported complete and whose finalizing succeeded |
| MonitorHistory.TimedOutWasOverdue | core/internal/downloads/service.go:244-249 | in every run a row marked as taking too long was once stored as Downloading and ran out of time since that save; with timeouts ignored none is marked |
| MonitorDeadlines.MarkedIsLate | core/internal/downloads/service.go:296-327 | in every run, if no request writes the row between the monitor's read and its check, the row is marked as taking too long exactly if its torrent is in progress and more than the limit has passed since the stored row was last saved |
| MonitorDeadlines.MarksEarlyIff | core/internal/downloads/service.go:244-249 | a mark can come early if and only if the torrent is in progress and the row has been saved with a later stamp since the copy was made and is not itself past the limit |
| MonitorDeadlines.RequestThenEarly | core/internal/downloads/service.go:137-144 | every request that saves the row while its goroutine waits, later than the copy's stamp, can be followed by an early mark |
| MonitorDeadlines.RetryIsTimedOut | core/internal/downloads/service.go:312-326 | a run from the start in which a row is marked as taking too long at the very moment of its last save |
| MonitorCopies.SaveForgetsTheRow | core/internal/downloads/service.go:214-217 | what a finishing goroutine saves depends on its old copy alone, whatever was done to the row since |
| MonitorCopies.DeletionLastsIff | core/internal/downloads/service.go:214-217 | in any state, a deleted row can come back without a request that stores it if and only if some goroutine holds a copy it can save |
| MonitorCopies.DeletedRowComesBack | core/internal/downloads/service.go:214-217 | every Downloading row, deleted while its goroutine waits, can come back, whatever was reported |
| Completion.CheckDownload | core/internal/downloads/service.go:208-294 | on a real disk a finished download becomes Completed if and only if placing and chown succeed and otherwise FinalizeFailed, a failed one ClientFailed, a late one TookTooLong; Completed means every file of the source has its bytes at its target |
| Completion.CompletedWasPlaced | core/internal/downloads/service.go:219-233 | in every run a row that became Completed bears a torrent id reported complete whose placing reported success and placed every file |
| MonitorRound.RoundIsPointwise | core/internal/downloads/service.go:191-202 | in every schedule that lets all goroutines finish, the clock moving and requests on other rows coming in, each reported row is what its own check made of it at its own time, stamped with its own save |
| MonitorRound.RoundOutcome | core/internal/downloads/service.go:208-257 | in every schedule of a round the status and reason of each reported row at the join, case by case, with the limit counted from the stamp of the copy the monitor read |
| MonitorRound.FinishedIsCompleted | core/internal/downloads/service.go:219-233 | in every schedule a row reported complete, whose placing succeeds and whose save works, is Completed in the store at the join |
| MonitorRound.RoundIsSequential | core/internal/downloads/service.go:191-202 | the join finds the store a sequential pass at the same moments would have left, but for rows requests wrote |
| MonitorRound.RoundsAgreeIff | core/internal/downloads/service.go:191-202 | two schedules of a round leave the same rows up to their stamps, except exactly a download in progress checked on different sides of its limit; a row of no reported torrent is unchanged |
| MonitorProgress.MonitorDownloads | core/internal/downloads/service.go:161-206 | the polling loop in place: it gives up without a client or when the store cannot be read, ends at the first empty read, and has done one round for each non-empty one |
| MonitorProgress.ShareCounts | core/internal/downloads/service.go:336-339 | with every torrent decided, each round takes exactly one of the rows sharing a torrent id |
| MonitorProgress.EndsWhenSharesAreUsedUp | core/internal/downloads/service.go:171-205 | nothing is Downloading after n rounds if and only if no torrent id was shared by more than n rows |
| MonitorProgress.MonitorRounds | core/internal/downloads/service.go:171-205 | the loop makes exactly m rounds, m the largest number of rows sharing a torrent id |
| MonitorRunRounds.ReleasesAfterExactly | core/internal/downloads/service.go:161-206 | in the interleaved protocol, with no requests and every torrent decided, a monitor that has come to its release has had exactly m status answers and nothing is Downloading; MonitorLiveness.RunsToTheEnd gives such a run |
| MonitorLiveness.HolderGoesOn | core/internal/downloads/service.go:161-206 | from every state a goroutine that holds the slot can go on, without requests or failures, to its next read, or if it is past its last one to the release; the read ends the loop exactly if nothing is Downloading |
| MonitorLiveness.StarterGoesOn | core/internal/downloads/service.go:137-165 | a saved request whose starter finds the slot free gets to its first read; one that finds it taken steps aside |
| MonitorLiveness.RunsToTheEnd | core/internal/downloads/service.go:148-206 | for all rows there is an undisturbed run from the start with exactly m status answers, m the largest number of rows sharing a torrent id, that ends with the monitor gone, the slot free and nothing Downloading |
| MonitorLiveness.FailuresMoveOn | core/internal/downloads/service.go:162-188 | a failed client check or store read ends the monitor, a failed status call sends it back to its read at once; none touches a row |
| MonitorLiveness.ReadsOnTheTick | core/internal/downloads/service.go:202-204 | after an answered poll the monitor does not read again before its tick, whatever happens in between |
| MonitorLiveness.ReadsOnlyVerified | core/internal/downloads/service.go:162-165 | no goroutine reads the rows before its client check has succeeded |
| MonitorProgress.TimesOutOnlyOnAGap | core/internal/downloads/service.go:296-327 | a download without progress is still Downloading after n rounds if and only if no poll came later than the limit after the save before it; otherwise it is marked as taking too long |
| MediaManager.MediaManagerService.DownloadMedia | core/internal/downloads/service.go:95-146 | a request saves its row, with the client's torrent id and as Downloading, and starts a goroutine if client, torrent and store all succeed, and otherwise leaves the store as it was |
| MediaManager.MediaManagerService.AddMedia | core/internal/media_manager/service.go:31-57 | a request that reports success left a Downloading row under the client's torrent id that somebody will look at, or an Error row that says it was not started; one that reports failure left the store as it was |
| MediaManager.MediaManagerService.Retry | core/internal/media_manager/service.go:128-142 | a retry that reports success left a row somebody will look at; one that fails changes nothing |
| MediaManager.MediaManagerService.Delete | core/internal/media_manager/service.go:93-106 | a row that is there is removed, nothing else changes |
| MediaManager.RequestsKeepProtocol | core/internal/media_manager/service.go:31-57 | a request made at any moment of any run keeps mutual exclusion and coverage |
| BencodeValues.DecodeEncode | core/pkg/magnet/magnet.go:28-45 | every value decodes from its own encoding, whatever follows it |
| BencodeValues.EncodeDecode | core/pkg/magnet/magnet.go:28-45 | re-encoding gives back the bytes read if and only if they were canonical |
| BencodeValues.EncodeInjective | core/pkg/magnet/magnet.go:42-49 | different info dictionaries have different encodings |
| BencodeValues.EncodeForms | core/pkg/magnet/magnet.go:42-45 | an integer is printed as i...e, a string after its length, a list as l...e, a dictionary as d...e, recursively |
| BencodeValues.LookupIsLastEntry | core/pkg/magnet/magnet.go:37 | of repeated keys the last one in the file is the one looked up |
| BencodeValues.DecodeInteger | core/pkg/magnet/magnet.go:28 | integers are read exactly from -2^63 to 2^64 - 1 |
| ByteStrings.LessIsLexicographic | core/pkg/magnet/magnet.go:43 | the order of the keys printed: a proper prefix first, otherwise the smaller byte at the first difference |
| Bencode.ReadFlattens | core/pkg/magnet/magnet.go:28 | the decoder loses nothing: what it read and what it left make up the file |
| Bencode.ReadOfFlatten | core/pkg/magnet/magnet.go:28 | every readable syntax tree is read back from its text, whatever follows it |
| MagnetText.UnescapeEscape | core/pkg/magnet/magnet.go:58 | unescaping inverts escaping, and escaped text ends no field, no query and no URI |
| MagnetText.EscapeAlphabet | core/pkg/magnet/magnet.go:84 | escaped text is made of unreserved characters, percent signs and plus signs |
| MagnetText.EscapeWrites | core/pkg/magnet/magnet.go:58 | each byte is written as itself, as a plus sign, or as a percent sign and its two upper-case hexadecimal digits |
| MagnetText.UnescapeFailsIff | core/pkg/magnet/magnet.go:109 | unescaping fails exactly on a percent sign that two hexadecimal digits, of either case, do not follow |
| MagnetText.HexInjective | core/pkg/magnet/magnet.go:53 | different hashes are printed differently |
| MagnetText.HexPrints | core/pkg/magnet/magnet.go:53 | every byte of the hash is two lower-case hexadecimal digits, the high one first |
| MagnetText.HexOfOne | core/pkg/magnet/magnet.go:53 | and no other text is |
| MagnetText.ParseQueryConcat | core/pkg/magnet/magnet.go:109 | a query is the list of its pieces: parsing cuts at every ampersand and nowhere else |
| MagnetText.SkippedIff | core/pkg/magnet/magnet.go:109 | a piece is dropped exactly if it is empty, holds a semicolon or has a broken escape before or after its first equals sign |
| MagnetText.QueryOfLink | core/pkg/magnet/magnet.go:51-109 | the query of a printed link parses to the topic, the name if there is one, and the trackers, in order |
| Magnet.TorrentFileToMagnet | core/pkg/magnet/magnet.go:27-88 | the link printed for a file: the prefix, the info hash in hexadecimal, then the name and the trackers in some order of the set; an error exactly if the file has no info dictionary |
| Magnet.TorrentReads | core/pkg/magnet/magnet.go:28-40 | which keys of the file are read, and of what kind their values have to be |
| Magnet.CollectTrackers | core/pkg/magnet/magnet.go:62-80 | a URL is collected if and only if it is not empty and stands under announce or in a tier of announce-list |
| Magnet.AddTiers | core/pkg/magnet/magnet.go:67-80 | the nested loops add exactly the non-empty strings of the tiers that are lists |
| Magnet.WriteTrackers | core/pkg/magnet/magnet.go:82-85 | each tracker is written once, in whatever order the map is ranged over |
| Magnet.DecodeMagnetURL | core/pkg/magnet/magnet.go:98-138 | the components, filled in step by step, or an error for a URI that does not parse or is no magnet |
| Magnet.DecodesIff | core/pkg/magnet/magnet.go:98-107 | a URI is accepted if and only if it has no control byte before its fragment, the scheme magnet in either case, a path url.Parse likes and no broken escape in the fragment |
| Magnet.DecodeReads | core/pkg/magnet/magnet.go:111-135 | the display name is the first dn parameter, empty if there is none; trackers and topics are all tr and xt parameters in order |
| Magnet.FragmentIgnored | core/pkg/magnet/magnet.go:101-109 | a fragment changes nothing |
| Magnet.FirstHashIs | core/pkg/magnet/magnet.go:113-127 | the info hash is that of the first topic naming one, empty exactly if none does |
| Magnet.MagnetRoundTrip | core/pkg/magnet/magnet.go:51-138 | printing and decoding a link gives back the hash, the name and the trackers in order, for all byte strings |
| Magnet.TorrentRoundTrip | core/pkg/magnet/magnet.go:27-138 | a torrent file converted and decoded gives its info hash in hexadecimal, its name (empty if absent) and exactly its non-empty trackers, each once, for every order of the set |
| Magnet.InfoHashOfFile | core/pkg/magnet/magnet.go:28-49 | the hashed bytes are the info slice of the file exactly if that slice is canonical |
| Scheduler.EveryStateAccounted | core/pkg/schd/schd.go:35-79 | in every reachable state live loops less the pending cancel are starts less accepted stops, and accepted triggers are task starts plus the pending one |
| Scheduler.NoTriggerLost | core/pkg/schd/schd.go:35-42 | after any Manual call, accepted or dropped, the trigger is pending or a task has started since |
| Scheduler.NoTickLost | core/pkg/schd/schd.go:69-72 | once a loop has received a tick and gone back to its select, a trigger is pending or a task has started since the tick, whatever happens between and after |
| Scheduler.TicksRunTheTask | core/pkg/schd/schd.go:66-79 | in every state the loops by themselves, with no call of Manual or Restart, get to a task start if and only if some loop has not returned |
| Scheduler.StopEndsOneLoop | core/pkg/schd/schd.go:53-59 | with a cancel pending the loops by themselves get to a state with one loop less and no cancel pending |
| Scheduler.RestartBalance | core/pkg/schd/schd.go:45-48 | Restart keeps the number of loops that will remain if no cancel is pending and adds one if one is |
| Scheduler.ServedIffSomeLoopLives | core/pkg/schd/schd.go:66-79 | a pending trigger can still be served without a Restart if and only if some loop has not returned |
| Scheduler.ConcurrentTasks | core/pkg/schd/schd.go:45-79 | tasks running at once are at most one plus restarts less accepted stops plus the pending cancel; at most one without Restart |
| Scheduler.SchedulerObject.Restart | core/pkg/schd/schd.go:45-48 | Stop then start, in place, with its effect on the balance |
| Scheduler.SchedulerObject.Turn | core/pkg/schd/schd.go:69-78 | one turn of the select: a tick leaves a trigger pending, a taken trigger runs the task once and is gone, a taken cancel ends this loop |
| Sessions.RotateQueue | core/internal/database/db_auth_session.go:23-51 | eviction takes the head of the user's queue, only at the limit, and nobody else's session |
| Sessions.CreateQueue | core/internal/auth/service_session.go:60-81 | creating a session pushes onto the user's bounded queue and leaves other users' queues alone |
| Sessions.RefreshQueue | core/internal/auth/service_session.go:103-130 | a refresh pushes, then removes the refreshed session; other users' queues stay |
| Sessions.RefreshSucceeds | core/internal/auth/service_session.go:103-130 | a refresh never adds to the user's sessions, evicts one other (the oldest) exactly if at the limit, the eviction works and the refreshed one is not the oldest, kills both old tokens, and its new token verifies |
| Sessions.TokensWorkExactly | core/internal/auth/service_session.go:83-137 | in every reachable table a session token verifies exactly until its expiry and a refresh token refreshes exactly until its own; an unknown token does neither |
| SessionTokens.TokenLifetime | core/internal/auth/service_session.go:60-137 | after a login or refresh that succeeds, in every run that leaves its session in the table, its session token verifies, as that user's, if and only if no more than the session duration has passed, and its refresh token refreshes if and only if no more than the refresh duration has |
| SessionTokens.RefreshFailures | core/internal/auth/service_session.go:103-130 | what a refresh leaves for each early return: nothing changed, or after a failed delete both sessions, the old one exactly if it was not evicted |
| SessionTokens.LogoutFailures | core/internal/auth/service_session.go:46-58 | a logout that fails changes nothing |
| Sessions.LogoutEndsOne | core/internal/auth/service_session.go:46-58 | logging out ends the session of that refresh token and no other |
| Sessions.RunKeepsValid | core/internal/database/db_auth_session.go:20-55 | every run of logins, refreshes, logouts and limit changes keeps the table in creation order with unique tokens |
| Sessions.StepBounds | core/internal/database/db_auth_session.go:20-55 | unless an eviction fails, no event grows a user's queue that is at or above a positive limit, whatever other store call fails |
| Sessions.LoginAtLimit | core/internal/database/db_auth_session.go:48-53 | the eviction's error is not looked at: a login at the limit leaves one session more exactly if the eviction fails |
| Sessions.RunBounds | core/internal/database/db_auth_session.go:20-55 | with a fixed limit k > 0 every run in which no eviction fails keeps at most k sessions, or no more than there were if the limit had been lowered |
| SessionTokens.LimitTakesEffect | core/internal/auth/service_user.go:108-114 | a new limit bounds every run from the call on, and changes no other limit and no session |
| SessionTokens.DefaultLimit | core/internal/auth/model.go:46 | a user whose limit was never changed has at most three sessions |
| SessionTokens.BelowDefaultLimit | core/internal/auth/model.go:46 | and a login of such a user with fewer than three evicts nothing |
| SessionTokens.NoLimit | core/internal/database/db_auth_session.go:22-23 | with a limit of 0 no login evicts anything |
| Sessions.LoginsAreFifo | core/internal/auth/service_user.go:62-79 | n logins alone leave exactly the last k of the old sessions followed by the new ones |
| Sessions.RefreshWorksOnce | core/internal/auth/service_session.go:103-130 | in every run of requests one after another each refresh token succeeds at most once |
| SessionRequests.AloneIsRefresh | core/internal/auth/service_session.go:103-130 | a refresh whose store calls follow each other is the refresh of Sessions |
| SessionRequests.AloneIsLogin | core/internal/auth/service_user.go:62-79 | a login whose store calls follow each other is the login of Sessions |
| SessionRequests.AloneIsLogout | core/internal/auth/service_session.go:46-58 | a logout whose store calls follow each other is the logout of Sessions |
| SessionRequests.RequestsKeepSafe | core/internal/auth/service_session.go:46-130 | every run of overlapping requests keeps the table in creation order with unique tokens, and after a refresh has succeeded its old tokens are dead for good |
| SessionRequests.TwoSuccessesOverlap | core/internal/auth/service_session.go:103-130 | if two refreshes succeed with one token, at some moment both had looked it up and neither had deleted |
| SessionRequests.OverlapSucceedsTwice | core/internal/auth/service_session.go:103-130 | from every state in which two requests hold one unexpired token, both can succeed |
| SessionRequests.WorksOnceIff | core/internal/auth/service_session.go:103-130 | when a refresh deletes the session it looked up, a second success is possible or has happened if and only if another request holds the token unexpired or has succeeded with it |
| SessionRequests.DoubleRefresh | core/internal/auth/service_session.go:103-130 | two refreshes that look the token up before either creates both succeed, and without a limit the user has one session more than before |
| SessionRequests.OverlapKeepsBound | core/internal/database/db_auth_session.go:20-55 | with a fixed limit k > 0 every run of overlapping requests in which no eviction fails keeps at most k sessions, or as many as there were |
| AuthService.Service.NewSessionAutoRotating | core/internal/database/db_auth_session.go:20-55 | count, delete and insert in one transaction: rotate and append, append alone if the delete fails, or nothing |
| AuthService.Service.SessionCreate | core/internal/auth/service_session.go:60-81 | the new session, its token expiring the session duration from now and its refresh token the refresh duration from now, or a failure that leaves the table |
| AuthService.Service.Refresh | core/internal/auth/service_session.go:103-130 | look up, check expiry, create, delete, in that order, with the state each early return leaves |
| AuthService.Service.Logout | core/internal/auth/service_session.go:46-58 | look up, then delete by id; it succeeds exactly if the token was there and the delete worked |
| AuthService.Service.Login | core/internal/auth/service_user.go:62-79 | a wrong password changes nothing; a right one returns the new session, which is in the table, or the store's failure |
| AuthService.Service.UpdateUserSessionLimit | core/internal/auth/service_user.go:108-114 | the limit changes, the sessions do not; a store failure changes nothing |
| BonusPoints.DivideIntoAmounts | core/internal/mam/service.go:151-168 | the nested loops split greedily, for any list of positive intervals |
| BonusPoints.SplitConserves | core/internal/mam/service.go:151-168 | amounts plus remainder are the number, amounts are intervals, the remainder is below the last interval |
| BonusPoints.BuyBonus | core/internal/mam/service.go:171-202 | 50000 points for each of the 100 GB purchases that succeed, whichever fail before it; no error exactly if all requests succeeded |
| BonusPoints.SpentIsBought | core/internal/mam/service.go:183-199 | a failed purchase costs nothing and the ones after it are still made |
| BonusPoints.AutoBuy | core/internal/mam/service.go:74-121 | the points one auto-buy spends, from the balance a VIP purchase reported if it is not zero, otherwise the profile, otherwise nothing |
| BonusPoints.AutoBuyKeepsReserve | core/internal/mam/service.go:91-111 | with a surplus of at least 500 at most the whole 50000-point steps in it are spent, exactly those if no purchase fails, and the reserve is kept |
| BonusPoints.ReserveSafeIff | core/internal/mam/service.go:102-111 | the reserve is safe from every outcome if and only if the surplus is not strictly between 0 and 500 or there is no reserve |
| RelativeTime.Search | core/pkg/litany/time.go:79-81 | in any table the binary search stops at the end or at a row whose limit exceeds the difference, right after one whose limit does not |
| RelativeTime.SearchIsBucket | core/pkg/litany/time.go:79-81 | in an ascending table that is the first row whose limit exceeds the difference |
| RelativeTime.CollectArgs | core/pkg/litany/time.go:87-101 | the loop over the format collects label and count in the order of the verbs |
| RelativeTime.ArgsMatchVerbs | core/pkg/litany/time.go:87-102 | for every format of text, %s, %d and %% the arguments match the verbs in number and kind |
| RelativeTime.CustomRelTime | core/pkg/litany/time.go:70-103 | the text for two times, labels and any table, saturating differences included |
| RelativeTime.DistanceIs | core/pkg/litany/time.go:72-77 | the difference is the time between the two, at most the largest duration |
| RelativeTime.TimeAgo | core/pkg/litany/time.go:40-42 | for two times, past and future, what their range says, saturated differences included |
| RelativeTime.CountsInRange | core/pkg/litany/time.go:50-68 | every printed count is in its unit's range and count times unit is the duration rounded down |
| RelativeTime.EveryDuration | core/pkg/litany/time.go:50-103 | for every duration from 0 to the largest int64 the program prints what its range says |
| RelativeTime.SecondsPrinted | core/pkg/litany/time.go:50-56 | below a day, the text for so many whole seconds |
| RelativeTime.DaysPrinted | core/pkg/litany/time.go:57-68 | from a day on, the text for so many whole days: weeks of 7, months of 30, years of 360 |

## Left out

- MonitorHistory.TimedOutWasOverdue: the save it speaks of is that of the copy the monitor read; when that is the
  stored row's own last save, and when not, is stated by MonitorDeadlines.
- MonitorDeadlines.MarkedIsLate: an answer with the same torrent id twice is left out; two goroutines would then hold
  copies of one row. So it is for MonitorRound.RoundsAgreeIff.
- MonitorProgress.MonitorDownloads: works for as many rounds as it is given, because the loop need not end; a failed
  status call is a round without reports, and nobody else writes.
- MonitorProgress.TimesOutOnlyOnAGap: speaks of a row that shares its torrent id with no other Downloading row, and
  of rounds in which nobody else writes; of sharers, each round looks at one only.
- Completion.CompletedWasPlaced: reports that are equal in all parts are taken to be of one placing.
- Sessions.RefreshWorksOnce: false for overlapping requests; SessionRequests.WorksOnceIff says exactly when.
- PlacementSuccess.HardLinkFolderSucceeds: gives sufficient conditions; a refused call on the way does not always
  make the walk fail.
- PlacementOverlap.TargetAboveReplacesFile: a family of sources; with a target above the source that runs back into
  it, what is lost depends on the listing order.
- PlacementCorners.TargetInsideSourceFails: only the failure is stated, not what the endless descent leaves behind.
- Magnet.DecodeMagnetURL: the verdict of url.Parse on URIs with an authority or a rooted path is a parameter, and its
  limits on the number of parameters are not modelled.
- Bencode.ReadOfFlatten: integers beyond 64 bits, which the decoder turns into floating point, are rejected. The
  decoder is a library outside the repository and its source is not part of this model.
- RelativeTime.CustomRelTime: an empty table and a divisor of zero, on which the program panics, are excluded;
  formatTime's parsing and time zones are not modelled.
- BonusPoints.AutoBuy: points are real numbers, so rounding of float64 is not modelled; balances are those reported,
  not the shop's ledger.
- MediaManager.MediaManagerService.Retry: a row that is not there and a row that cannot be read are one case.
- Recursive chown, permission bits beyond the mode given to chmod, umask, symbolic links, Windows and WSL paths.
- Path building from category, author and title; a title with separators or dots is not modelled.
- Other processes changing the file system during a walk.
- Network clients, GORM and SQLite, password hashing, token generation, notifications, categories, user management.
- Configuration files, RPC handlers and conversions, search, front end, tray, browser extension.
- Changes of the time limit during one monitor's life (the program reads it once when the monitor starts).
- MonitorLiveness.HolderGoesOn: that a continuation exists; that the scheduler of goroutines is fair is not modelled.
- PlacementSteps.SuccessMakesSteps: for targets of which no path lies in the source.
- Real time: tickers are steps that are always possible.
