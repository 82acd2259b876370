# OpenADB: models and proofs of its transfer and release core

OpenADB moves files between a PC and an Android device and builds its own signed releases. This
project models the parts of it whose guarantees are hard to see from the code, and proves those
guarantees for all inputs, all failing calls, all interleavings and all device answers.

| module | what it is about |
|---|---|
| `TarPull`, `LocalFiles` | pulling a TAR archive as one transaction over many local files, while another program may touch the same names |
| `StreamedPush`, `SourceStream` | pushing one file through a staging name, a size check and an atomic move, with timeouts and a reconciliation |
| `RequestFraming`, `AuthResponse`, `SocketStream` | the binary peer-to-peer request, its transcript, and the authenticated answer over any chunking |
| `ControlChannel` | the line-oriented control channel over any chunking |
| `Scheduler`, `Batching` | longest-first distribution of files over parallel streams, against every other distribution |
| `Supervision` | forwarding progress and collecting results of the parallel streams |
| `SessionLifecycle`, `SessionScenarios` | request ids, control handles and adb forwards over every interleaving of upload calls |
| `HelperUpdate`, `DeviceAnswers`, `HelperScenarios` | installing and updating the Android helper over every device, and what is read from its answers |
| `Authenticode`, `PeImage`, `DerLength` | the check that signing a PE file changed only the permitted envelope, against PE images field by field |
| `Requirements` | resolving pinned requirements over an include graph |
| `AliasPublisher` | publishing one build under several names, all or none |
| `ShellQuote` | shell quoting against the token recognition of a POSIX shell |
| `Bytes`, `P2PEntries`, `Wrappers` | bytes and integers of binary formats, transfer entries, results |

`dafny verify dfyconfig.toml` checks everything.

## How the code is represented

* Code that changes state in place is a class with methods (`TarPull.Transaction`, `RequestFraming.Sender`,
  `SocketStream.Stream`, `ControlChannel.Channel`, `Supervision.Supervisor`, `HelperUpdate.Helper`,
  `Requirements.Loader`, `AliasPublisher.Publisher`, `SourceStream.Upload`). The operating system, the
  network, the device and the clock are nondeterministic choices inside those methods, so each method's
  contract holds for all of them. The constant `calm` of a class says that no call fails, nobody cancels
  and no deadline passes; contracts with it say that then the operation does succeed.
* `TarPull` knows three more such constants: `quiet` (no other program interferes), `dependable` (no call
  that removes, restores or looks at something while undoing fails) and `closeCall` (closing the descriptor
  of a fresh temporary file works, fails, or varies). `RequestFraming.Sender` has `steady`: no other program
  changes the local files. `HelperUpdate.Helper` has `cancellable`: there is a user who can cancel.
* In `HelperUpdate` the device is an input: what it would answer to every question at every point of the
  conversation. The outcome is a function of it, unless the user cancels.
* Where the guarantee is about which calls fail, the failures are an input: `AliasPublisher` takes a script
  of the calls that fail, `Supervision.UploadParallelEntries` the outcome of every stream, in an arbitrary
  order of completion.
* Concurrent protocols are transition systems with theorems over every run (`StreamedPush`,
  `SessionLifecycle`).
* HMAC-SHA-256 (RFC 2104) and SHA-256 are arbitrary functions; where a property needs two inputs to have
  different tags or digests, it says so.
* In `TarPull` a fingerprint check and the replace or unlink right behind it are one atomic step, other
  programs touch only names of the archive and the directories above them (never the random staging and
  backup names). What is logged as destroyed are files; an empty directory that another program made anew
  at a created path is removed like any other empty one. A node that another program leaves at a target
  carries a staged file's fingerprint only if it is that file. The targets are visited in an arbitrary
  order, which covers the order of insertion and its reverse.
* In `SessionLifecycle` adb picks a free port and tells it correctly or not at all, a fresh random request
  id is not the id of a forward that adb still has, and other programs leave this program's forwards
  alone. The cancelling service command has no effect on the shared tables and is part of the step that
  sends the terminal command.
* In `AliasPublisher` a successful backup copy is faithful, while a staging copy may differ from the
  source, which the code checks and the model counts as a failure of staging.
* The lexer of `ShellQuote` reads words, quotes, escapes, comments, operators and newlines. It gives up at an
  unquoted or double-quoted `$` or backquote, at a here-document and at NUL; what it has read until then
  stands.

## What the proofs found

* Push reconciliation: a timed-out finalizer is reported as success although nothing was moved when the
  staging file was not visible yet and the old target is a regular file of the expected size.
  `StreamedPush.ReportedSuccessIsPublished` gives the exact condition for one push, with a concrete run for
  every push that violates it; `StreamedPush.SuccessIsTrueWhateverAppears` gives the exact condition that can
  be checked before the push. The doc string of `_public_push_commit_verified` rules this case out; the
  code does not.
* TAR pull: when closing the descriptor of a fresh temporary file fails, the name is left behind and no
  table mentions it. `TarPull.Transaction.Run` says exactly what that costs: if no undoing call fails, one
  empty file at most and the new directories above it, whatever closes fail; and if all of them do and
  nothing else goes wrong, the pull fails and a temporary name stays if and only if the archive holds a file.
* Alias publication: when a rollback step fails, the clean-up that follows still deletes the backup, so
  the former content of that destination is gone. `AliasPublisher.LoseTheOriginal` is such a run, and
  `AliasPublisher.Publisher.AtomicPublishAliases` says when exactly: the backup is kept if and only
  if the clean-up stops at that destination or before it.
* Scheduling: empty files can leave streams without work. A stream gets a file if and only if at least as
  many files are non-empty as there are streams before it (`Batching.StreamGetsAFile`), so every stream
  does if and only if the streams outnumber the non-empty files by one at most (`Batching.NoStreamIsIdle`);
  `Batching.EmptyFilesLeaveAStreamIdle` is a mixed selection for which it fails.
* Control channel: with `allow_timeout` an empty answer means an empty line or a timeout, and the caller
  cannot tell which (`ControlChannel.EmptyLineOrTimeout`). So `_fetch_session_error` gives up at an empty
  line: it finds an error line if and only if no empty line stands before it
  (`ControlChannel.DiagnosisIsFound`).
* Supervision: a failure whose message holds the word cancel in any case, in a file path for example, passes
  for a cancel (`Supervision.AnyTextWithTheWord`). A failure is kept whatever failed before it if and only if
  its message does not (`Supervision.KeptWhateverCameBefore`).
* Session lifecycle: the duplicate-id branch would clean up another session's handle, but it is
  unreachable because preparation is serialised.

## Model

| member | source | states |
|---|---|---|
| TarPull.Transaction.Run | openadb/core/adb_transfer_strategy.py:1438-1735 | For all interference, failing calls and cancellation: every path that the archive does not mention is as before; nothing but an own staged file is ever overwritten or unlinked; after a failure every original moved aside is back or still at its backup and, if not back, named in a warning; and if no undoing call (one that removes, restores or looks) fails, no temporary name stays after success, and after a failure only backups of named originals and one empty file at most. Without interference: success delivers the last member of each name, and nothing else is new but directories that the archive needs; after a failure, whatever calls failed, every original is in its place or at a backup and named, and what is new is a directory or a file of the archive; if no undoing call fails, every path is as before but for new directories above that one empty file, and if no close fails either, the file system is exactly the initial one. The pull does succeed if no call fails, nobody cancels and nothing stands in the way; if every close fails, it fails and leaves a temporary name if and only if the archive holds a file. Success means that nobody had cancelled; once adb has failed or the user has cancelled before the start, no target is touched |
| TarPull.Transaction.NoStuckCallNoTrace | openadb/core/adb_transfer_strategy.py:1707-1732 | Without interference and with no failing removing, restoring, looking or closing call, the state after the clean-up is exactly the initial file system, directories included, and no temporary name |
| TarPull.Transaction.NothingLost | openadb/core/adb_transfer_strategy.py:1707-1732 | Without interference and whatever calls fail: every original is in its place, or at a backup and named; what is new is a directory or a file of the archive |
| TarPull.Transaction.FailedState | openadb/core/adb_transfer_strategy.py:1707-1732 | Without interference: what differs is explained by a failed call, and without a failing undoing call it is new directories above one empty file |
| TarPull.Transaction.LittleRemains | openadb/core/adb_transfer_strategy.py:1475-1477 | Under interference too: the temporary names left are backups of named originals and one empty file at most |
| TarPull.Transaction.CommitOrUndo | openadb/core/adb_transfer_strategy.py:1679-1732 | The commit and its undoing together, with the guarantees of the whole pull |
| TarPull.Transaction.EnsureDirectory | openadb/core/adb_transfer_strategy.py:1479-1499 | On success the directory exists, also under interference; only missing directories above it are recorded as created, no directory is lost, and it succeeds if only directories stand on the way and no call fails |
| TarPull.Transaction.MakeDirectory | openadb/core/adb_transfer_strategy.py:1490-1499 | Success means a directory, also under interference; a name that appeared meanwhile is not recorded |
| TarPull.Transaction.BeginStaging | openadb/core/adb_transfer_strategy.py:1629-1634 | A new empty staging file that no table mentions yet, or nothing; a failing close leaves a name that is accounted for |
| TarPull.Transaction.StageFile | openadb/core/adb_transfer_strategy.py:1625-1659 | On success exactly the member's bytes are staged for its target; otherwise no other staged file changes |
| TarPull.Transaction.WriteChunks | openadb/core/adb_transfer_strategy.py:1635-1653 | Chunk by chunk exactly the member's bytes, or the staging file is abandoned |
| TarPull.Transaction.RecordStaging | openadb/core/adb_transfer_strategy.py:1654-1657 | The new staging file replaces an earlier one of the same target, whose name is discarded or accounted for |
| TarPull.Transaction.AbandonStaging | openadb/core/adb_transfer_strategy.py:1469-1473 | Removing a temporary file touches no other one; a failure is accounted for |
| TarPull.Transaction.StageAll | openadb/core/adb_transfer_strategy.py:1608-1659 | When the stream ends well the staged files are exactly the last members of their names and every directory of the archive is there |
| TarPull.Transaction.StageMember | openadb/core/adb_transfer_strategy.py:1620-1659 | One member more is staged; only directories that the archive needs are created, and every staged file has its directory |
| TarPull.SmoothIsPassable | openadb/core/adb_transfer_strategy.py:1479-1499 | If nothing was in the way at the start, nothing is in the way of any needed directory later |
| TarPull.StagedHaveRoom | openadb/core/adb_transfer_strategy.py:1681-1690 | If nothing was in the way at the start, no staged target is a directory and each has its directory when the commit begins |
| TarPull.StagedLastGrows | openadb/core/adb_transfer_strategy.py:1654-1657 | A later member of the same name replaces the earlier one in what the archive says |
| TarPull.Transaction.ReserveBackup | openadb/core/adb_transfer_strategy.py:1512-1520 | A reserved backup name belongs to the target and keeps every other guarantee |
| TarPull.Transaction.TakeAside | openadb/core/adb_transfer_strategy.py:1691-1694 | The original leaves its target only for its reserved backup |
| TarPull.Transaction.Install | openadb/core/adb_transfer_strategy.py:1695-1700 | A target gets the staged file only if nothing stands there; otherwise nothing is committed |
| TarPull.Transaction.TidyStaging | openadb/core/adb_transfer_strategy.py:1329-1334 | A staging name that cannot be removed after the link does not undo the commit |
| TarPull.Transaction.MakeRoom | openadb/core/adb_transfer_strategy.py:1688-1694 | At most this target's original is moved aside |
| TarPull.Transaction.CommitOne | openadb/core/adb_transfer_strategy.py:1685-1704 | Success means that the staged file stands at the target; a failure commits this target at most; after a cancel nothing is touched; without interference no other path changes, and if no call fails and the target has room it succeeds |
| TarPull.Transaction.Place | openadb/core/adb_transfer_strategy.py:1685-1698 | Making room and installing: on success the staged file stands at the target; nothing else appears anywhere |
| TarPull.Transaction.Link | openadb/core/adb_transfer_strategy.py:1319-1334 | The staged file appears at the target, with the recorded fingerprint, and nowhere else anything changes |
| TarPull.Transaction.CommitAll | openadb/core/adb_transfer_strategy.py:1679-1706 | Success commits exactly the pending targets and means that nobody had cancelled by then; after a cancel nothing is moved or committed any more; where a directory stands at any target, no target is touched at all; on failure only pending targets were moved aside |
| TarPull.Transaction.PutBack | openadb/core/adb_transfer_strategy.py:1536-1565 | One rollback turn, with whatever other programs do before it, warns unless the original is back and without interference settles the target |
| TarPull.Transaction.PutBackNow | openadb/core/adb_transfer_strategy.py:1539-1565 | The turn itself, exactly: a foreign file stays, as does every other path; over an absent or own file the original goes back; an own file without an original goes; what is overwritten or unlinked is logged; and over an absent or own file it warns only if a call fails |
| TarPull.Transaction.RestoreOriginal | openadb/core/adb_transfer_strategy.py:1546-1555 | Only over an absent target or the own file does the original go back, and exactly that file is logged as overwritten; a failure keeps it at its backup and changes no path |
| TarPull.Transaction.RemoveOurs | openadb/core/adb_transfer_strategy.py:1556-1563 | Only the own file is unlinked, and exactly it is logged; a failure changes nothing |
| TarPull.Transaction.RollBack | openadb/core/adb_transfer_strategy.py:1534-1566 | Every original that is not back is named in a warning; only targets are named, and none without interference and failing calls; without interference every target is settled |
| TarPull.Transaction.QuietFacts | openadb/core/adb_transfer_strategy.py:1539-1556 | Without interference whatever stands at a visited target is ours, and targets that are skipped need nothing |
| TarPull.Transaction.CleanupUnprotectedBackups | openadb/core/adb_transfer_strategy.py:1568-1572 | A backup that still holds an original is never removed; every other reserved name is gone or accounted for |
| TarPull.Transaction.CleanupPendingFiles | openadb/core/adb_transfer_strategy.py:1475-1477 | Every staging name is gone or accounted for |
| TarPull.Transaction.RemoveDirectory | openadb/core/adb_transfer_strategy.py:1507-1510 | A created directory goes unless something that could not be removed is below it, whatever other programs do before |
| TarPull.Transaction.RemoveDirectoryNow | openadb/core/adb_transfer_strategy.py:1507-1510 | The removal itself: an empty directory and nothing else |
| TarPull.NonEmptyIsBlocked | openadb/core/adb_transfer_strategy.py:1501-1510 | Deepest first, a created directory is non-empty only because of a call that failed below it |
| TarPull.Transaction.CleanupCreatedDirectories | openadb/core/adb_transfer_strategy.py:1501-1510 | Without interference only directories above a failed call stay; directories that existed before are never removed |
| TarPull.Transaction.UndoCommit | openadb/core/adb_transfer_strategy.py:1707-1732 | The failed commit is undone under the guarantees of the whole pull: whichever call failed, every target is restored if no undoing call fails |
| TarPull.Transaction.FinishFailed | openadb/core/adb_transfer_strategy.py:1729-1732 | The clean-up of a failed pull leaves originals safe and named, other paths alone and, if no undoing call fails, nothing but an empty file whose close failed and the directories above it |
| TarPull.Transaction.FinishPublished | openadb/core/adb_transfer_strategy.py:1725-1728 | After success the archive is delivered, and no temporary name stays unless its removal failed |
| TarPull.TakeAsideKeepsHistory | openadb/core/adb_transfer_strategy.py:1693-1694 | Without interference, what stands everywhere after moving an original aside |
| TarPull.InstallKeepsHistory | openadb/core/adb_transfer_strategy.py:1698-1700 | Without interference, what stands everywhere after an install |
| TarPull.RestoreKeepsHistory | openadb/core/adb_transfer_strategy.py:1553-1555 | Without interference, what stands everywhere after a restore |
| TarPull.RemoveKeepsHistory | openadb/core/adb_transfer_strategy.py:1556-1563 | Without interference, what stands everywhere after removing an own file that had no original |
| StreamedPush.TargetIsOldOrNew | openadb/core/adb_transfer_strategy.py:1009-1157 | In every state of every run the target is its old content or exactly the captured source, and before finalizing it is the old one |
| StreamedPush.MoveOnlyAfterTwoFullSizes | openadb/core/adb_transfer_strategy.py:1054-1073 | Whenever the finalizer is about to move, also where that leaves the target as it is, two consecutive sizes were the expected one and the staging file is gone or the whole source; the target changes only then |
| StreamedPush.FinalizerVerdict | openadb/core/adb_transfer_strategy.py:1054-1073 | From the sizes alone: at most 20 are read; the first two full ones in a row lead to the move, or to 73 on a directory; otherwise 74 without a last size, or 75 |
| StreamedPush.EveryVerdictIsReached | openadb/core/adb_transfer_strategy.py:1054-1073 | Every such sequence of sizes that can be reported is reported in some run, and that run has its verdict |
| StreamedPush.PushCanSucceed | openadb/core/adb_transfer_strategy.py:1035-1118 | Every push to a target that is no directory has a run that publishes the source, reports success and leaves nothing to clean up |
| StreamedPush.TimedOutPushCanSucceed | openadb/core/adb_transfer_strategy.py:1123-1150 | On public storage also where the host stops waiting after the move: every test of the reconciliation passes |
| StreamedPush.WithheldIsNotPublished | openadb/core/adb_transfer_strategy.py:1031-1043 | What was cancelled or changed before the finalizer started never reaches the target and is no success |
| StreamedPush.CancelledIsNoSuccess | openadb/core/adb_transfer_strategy.py:1119-1151 | A push cancelled before its end is never reported as a success |
| StreamedPush.CancelledIsNotReconciled | openadb/core/adb_transfer_strategy.py:1119-1122 | A push cancelled before its finalizer timed out is not reconciled |
| StreamedPush.FailureCleansUp | openadb/core/adb_transfer_strategy.py:1158-1186 | A failed push has asked for the removal of its staging file, unless a late cancel hit one that was found published |
| StreamedPush.ReportedSuccessIsPublished | openadb/core/adb_transfer_strategy.py:1118-1156 | Reported success means that the target is the captured source if and only if the staging file is known to exist by then or the old target cannot be mistaken for the new one; otherwise a run that shows the mistake |
| StreamedPush.SuccessIsTrueWhateverAppears | openadb/core/adb_transfer_strategy.py:1118-1156 | What a caller can check before the push and what is exactly enough: reported success is true, whether or not the staging file shows up in time, if and only if the target is not public, the old target cannot pass for the new one, or it is the new one already |
| StreamedPush.AcknowledgedMoveIsPublished | openadb/core/adb_transfer_strategy.py:1068-1118 | The finalizer's own success always means that the target is the captured source |
| StreamedPush.RunKeepsInv | openadb/core/adb_transfer_strategy.py:1009-1186 | Every state of every run keeps the invariant that ties host, finalizer, staging file and target together |
| StreamedPush.PollKeepsInv | openadb/core/adb_transfer_strategy.py:1054-1067 | Stale smaller sizes never pass: a counted full size means that the staging file holds the whole stream |
| StreamedPush.OnlyMoveChangesTarget | openadb/core/adb_transfer_strategy.py:1068-1093 | No other step of host or device changes the target |
| SourceStream.Upload.WriteAll | openadb/core/adb_transfer_strategy.py:986-995 | Short writes deliver the chunk in order; if the writer raises, a prefix of it |
| SourceStream.Upload.InputWriter | openadb/core/adb_transfer_strategy.py:959-1009 | Unless it raises, a changed source is reported if and only if the size differed when the file was opened or the file was changed afterwards; with another size nothing is sent; an undisturbed file is reported by its size alone, and without a report the stream holds exactly the file; after a cancel nothing is sent and it raises |
| RequestFraming.DecodeInvertsEncode | openadb/core/acbridge_p2p.py:533-649 | A decoder written from the layout inverts it, whatever bytes follow |
| RequestFraming.RequestsArePrefixFree | openadb/core/acbridge_p2p.py:533-649 | No request is a proper prefix of another |
| RequestFraming.UnfinishedIsNoRequest | openadb/core/acbridge_p2p.py:533-649 | What is on the stream when a well-formed request breaks off anywhere decodes as no request |
| RequestFraming.TranscriptFixesTheFrames | openadb/core/acbridge_p2p.py:536-578 | Equal transcripts force equal counts, kinds, paths, sizes, tags and digests in order, although payloads are not in the transcript |
| RequestFraming.TranscriptFixesThePayloads | openadb/core/acbridge_p2p.py:622-631 | With a digest that tells the payloads apart, equal transcripts even force equal payloads |
| RequestFraming.TranscriptFixesTheEntries | openadb/core/acbridge_p2p.py:546-631 | Two senders with equal transcripts were given the same entries, with equal payload digests |
| RequestFraming.DecodeControlOfEncoded | openadb/core/acbridge_p2p.py:1504-1508 | Kind, path, size and tag are read back from the control frame |
| RequestFraming.DecodeFrameOfEncoded | openadb/core/acbridge_p2p.py:556-631 | One frame is read back from the stream, and without its payload from the transcript |
| RequestFraming.SentFramesAreWellFormed | openadb/core/acbridge_p2p.py:546-631 | Everything the sender builds is within the limits of the layout |
| RequestFraming.EntryTagFixesTheEntry | openadb/core/acbridge_p2p.py:559-567 | Where the mac keeps the written-out inputs apart, equal entry tags mean the same index, kind, path and size |
| RequestFraming.FileTagFixesTheFile | openadb/core/acbridge_p2p.py:580-597 | In the same way equal authenticators mean the same name, size and bytes |
| RequestFraming.ClosingTagFixesTheTranscript | openadb/core/acbridge_p2p.py:646-648 | In the same way equal closing tags mean equal transcripts |
| RequestFraming.OneDirectoryAndOneFile | openadb/core/acbridge_p2p.py:533-649 | A request of one directory and one file, written out byte for byte |
| RequestFraming.SendableIsBounded | openadb/core/acbridge_p2p.py:1504-1508 | Names of up to 65536 bytes and sizes below 2^64 can be sent, and no others |
| RequestFraming.LongestName | openadb/core/acbridge_p2p.py:1504-1508 | Such a name is read back, and a longer one is not read |
| RequestFraming.Sender.WriteAuthenticated | openadb/core/acbridge_p2p.py:1511-1515 | On success the same bytes go to the stream and to the transcript; on failure a proper prefix went to the stream and nothing to the transcript |
| RequestFraming.Sender.SendPayload | openadb/core/acbridge_p2p.py:587-621 | Exactly the announced number of bytes or a failure; on a file that nobody changes the bytes are those of the file in order, a shorter or longer file always fails, and if no call fails one of the listed size always succeeds; after a cancel no byte is sent |
| RequestFraming.Sender.SendFile | openadb/core/acbridge_p2p.py:580-634 | The file, its digest and its authenticator, or a prefix of what these would have been |
| RequestFraming.Sender.SendEntry | openadb/core/acbridge_p2p.py:546-633 | One entry adds exactly its frame to the stream and its payload-free form to the transcript; a failure adds a part of one well-formed frame; after a cancel nothing is added |
| RequestFraming.Sender.SendRequest | openadb/core/acbridge_p2p.py:508-649 | On success the stream carries exactly the layout's bytes for the entries and, if nobody changes them, the contents of the local files; a request that broke off at any byte decodes as no request; the counters never exceed the plan and meet it on success; if no call fails and nobody cancels or changes a file, it succeeds if and only if every entry fits its fields and every file has its listed size; after a cancel nothing is sent |
| RequestFraming.SentRequestIsDecodable | openadb/core/acbridge_p2p.py:533-649 | What the sender wrote is one well-formed request that decodes to the entries in order |
| SocketStream.Stream.Write | openadb/core/acbridge_p2p.py:128-142 | Every schedule of short sends and waits delivers the bytes in order: all on success, a proper prefix on failure; after a cancel nothing is sent |
| SocketStream.Stream.Read | openadb/core/acbridge_p2p.py:144-153 | A piece of what the peer sends next; nothing exactly at its end; after a cancel nothing is read |
| SocketStream.Stream.ReadExact | openadb/core/acbridge_p2p.py:1578-1587 | Exactly the bytes asked for, over any chunking; end of stream only when there are too few |
| SocketStream.Stream.CheckReady | openadb/core/acbridge_p2p.py:118-126 | A closed stream fails as closed before anything else, a cancel needs a user, and a timeout an idle time that is over |
| AuthResponse.ReadAuthenticatedResponse | openadb/core/acbridge_p2p.py:1518-1575 | Over any chunking the outcome and the bytes left over are those of the verdict function, unless the connection itself fails; a calm connection never does |
| AuthResponse.ReadHeader | openadb/core/acbridge_p2p.py:1534-1537 | The fixed-size fields are cut off in order; too few bytes are an end of stream |
| AuthResponse.EncodedResponseIsRead | openadb/core/acbridge_p2p.py:1534-1575 | Every encoded response reads back as its status and message and takes exactly its bytes |
| AuthResponse.ReadResponseWasEncoded | openadb/core/acbridge_p2p.py:1543-1575 | A verdict is reached only on a response whose tag covers context, request tag and payload; success only with the expected counts |
| AuthResponse.VerdictsAreExact | openadb/core/acbridge_p2p.py:1518-1575 | Both directions together |
| AuthResponse.TruncatedResponseIsNoVerdict | openadb/core/acbridge_p2p.py:1578-1587 | A response cut off anywhere gives no verdict |
| AuthResponse.AnswerIsBoundToTheRequest | openadb/core/acbridge_p2p.py:1550-1558 | The answer to one request is rejected for another whose tag of the same payload differs |
| AuthResponse.ReplayIsRejected | openadb/core/acbridge_p2p.py:1550-1558 | An answer replayed to a request with another tag or context fails authentication, wherever the mac keeps the two inputs apart that are written out |
| AuthResponse.VerdictIsTagged | openadb/core/acbridge_p2p.py:1543-1575 | Bytes that reach a verdict end in the mac over context, request tag, magic, status, counts and message, written out |
| AuthResponse.RejectionsAreOrdered | openadb/core/acbridge_p2p.py:1550-1575 | When exactly each rejection is given; the tag is checked before anything else |
| AuthResponse.LongestMessage | openadb/core/acbridge_p2p.py:1538-1542 | A message of 65536 bytes can be read, a longer one cannot |
| AuthResponse.HonestReceiverIsBelieved | openadb/core/acbridge_p2p.py:508-660 | A receiver that decodes the request and answers with what it counted is believed, for every request the sender can write whose bytes add up to less than 2^64 |
| AuthResponse.DecodedCounts | openadb/core/acbridge_p2p.py:508-509 | Entries, files and bytes counted from the decoded frames are those the sender expects |
| ControlChannel.Channel.ReadLine | openadb/core/acbridge_p2p.py:203-245 | The next line over any chunking and waits; no byte is lost on any outcome, the oversize error leaves the bytes in place, and the buffer stays within one line plus one receive; a deadline that has passed is answered before anything is received, and so is a cancel |
| ControlChannel.ReturnIsStripped | openadb/core/acbridge_p2p.py:216-219 | One carriage return before the newline is stripped, and nothing else |
| ControlChannel.LineLimit | openadb/core/acbridge_p2p.py:211-215 | 65536 bytes are a line, more are none |
| ControlChannel.Channel.WritePayload | openadb/core/acbridge_p2p.py:173-201 | Short sends deliver the payload in order: all of it, or a proper prefix; after a cancel nothing is sent |
| ControlChannel.LinesAreDetermined | openadb/core/acbridge_p2p.py:210-221 | Two readings of the same bytes agree as far as both have come |
| ControlChannel.OversizeIsDetermined | openadb/core/acbridge_p2p.py:211-245 | Where the bytes become too long is fixed by the bytes |
| ControlChannel.ChannelsAgree | openadb/core/acbridge_p2p.py:203-245 | Two channels fed the same bytes, whatever the chunks and timeouts, return the same lines and raise the oversize error at the same place; neither can come to the end of the channel where the other raises it |
| ControlChannel.NoEndWhereOversized | openadb/core/acbridge_p2p.py:211-245 | After an oversize error on one channel, no other channel ends with a short rest in its buffer |
| ControlChannel.EmptyLineOrTimeout | openadb/core/acbridge_p2p.py:226-229 | Two readings of the same bytes with the same empty answer, of which one took a line and one nothing |
| ControlChannel.FetchSessionError | openadb/core/acbridge_p2p.py:1317-1338 | Over any chunking and timeouts the result is what the lines it took contain; on a calm channel it stops only at an error, an empty line, the end or an oversized line |
| ControlChannel.DiagnosisIsFound | openadb/core/acbridge_p2p.py:1327-1337 | The error line is found if and only if no empty line stands before it |
| ControlChannel.ErrorIsSpelled | openadb/core/acbridge_p2p.py:1335-1337 | The letters ERROR and a tab, then the text |
| ControlChannel.FindNewline | openadb/core/acbridge_p2p.py:211-211 | The first newline, or that there is none |
| Scheduler.GreedyIsNearOptimal | openadb/core/acbridge_p2p.py:712-717 | Longest-first on the least loaded stream is within 4/3 - 1/(3m) of every other plan |
| Scheduler.LargeLastJob | openadb/core/acbridge_p2p.py:712-717 | A last file heavier than a third of a rival's maximum still fits within that maximum |
| Scheduler.GreedyListBound | openadb/core/acbridge_p2p.py:714-717 | No stream exceeds the average by more than its share of one largest file |
| Scheduler.GreedySpread | openadb/core/acbridge_p2p.py:714-717 | Two streams differ by one largest file at most |
| Scheduler.StreamGetsAJob | openadb/core/acbridge_p2p.py:714-717 | Of jobs in descending order a stream gets one if and only if its index is at most the number of positive jobs |
| Scheduler.StreamsOpenInOrder | openadb/core/acbridge_p2p.py:714-717 | Each positive job opens the next stream until all are open; empty jobs share the next one |
| Batching.Distribute | openadb/core/acbridge_p2p.py:712-717 | The loop over the sorted files builds exactly the batches of the greedy plan |
| Batching.PlanBatches | openadb/core/acbridge_p2p.py:709-724 | The batches built in place are the planned ones, directories first |
| Batching.BatchCount | openadb/core/acbridge_p2p.py:709-710 | As many batches as allowed, but no more than files |
| Batching.DirectoriesComeFirst | openadb/core/acbridge_p2p.py:718-723 | All directories open the first batch in their order, and no other place holds one |
| Batching.LongestFirstSorts | openadb/core/acbridge_p2p.py:714-714 | The order is by descending size and keeps every file as often as it was there |
| Batching.LongestFirstIsStable | openadb/core/acbridge_p2p.py:712-712 | Files of one size keep their order |
| Batching.EveryEntryInOneBatch | openadb/core/acbridge_p2p.py:709-724 | Every entry lands in exactly one batch, as often as it was selected; the directories open the first |
| Batching.BatchesAreNearOptimal | openadb/core/acbridge_p2p.py:709-724 | The largest batch against every other distribution of the same entries over as many streams |
| Batching.BatchesStayNearAverage | openadb/core/acbridge_p2p.py:709-724 | m times the largest batch is at most the total plus m-1 largest files |
| Batching.BatchesAreEven | openadb/core/acbridge_p2p.py:709-724 | Two batches differ by one largest file at most |
| Batching.NoStreamIsIdle | openadb/core/acbridge_p2p.py:709-724 | Every stream gets a file if and only if the streams outnumber the non-empty files by one at most |
| Batching.StreamGetsAFile | openadb/core/acbridge_p2p.py:709-724 | For each stream: it gets a file if and only if at least as many files are non-empty as there are streams before it |
| Batching.EmptyFilesLeaveAStreamIdle | openadb/core/acbridge_p2p.py:709-724 | Files of 5, 0 and 0 bytes leave one of three streams idle |
| Supervision.Supervisor.OnProgress | openadb/core/acbridge_p2p.py:734-754 | One stream's update becomes a total that never goes down and never exceeds the plan |
| Supervision.Supervisor.OnCompleted | openadb/core/acbridge_p2p.py:775-781 | Results add up to the credited batches; a failure whose text is no cancel always becomes the primary error, one that passes for a cancel never replaces one |
| Supervision.KeptWhateverCameBefore | openadb/core/acbridge_p2p.py:778-781 | A failure is kept whatever failed before it if and only if its text does not pass for a cancel |
| Supervision.PrimaryIsAFailure | openadb/core/acbridge_p2p.py:777-786 | The kept error is one of the failures, and no cancel if any of them is none |
| Supervision.AnyTextWithTheWord | openadb/core/acbridge_p2p.py:780-780 | Any text that holds the word in any case passes for a cancel |
| Supervision.CancelIsSpelled | openadb/core/acbridge_p2p.py:780-780 | A text passes for a cancel if and only if it spells the word somewhere, letter by letter in either case |
| Supervision.Supervisor.Supervise | openadb/core/acbridge_p2p.py:766-781 | Over every interleaving of updates and completions both invariants hold and no stream is left running |
| Supervision.UploadParallelEntries | openadb/core/acbridge_p2p.py:698-796 | For all outcomes of the streams and every order of completion: success means that every outcome is a success and the sums are the planned totals; if any outcome is a failure that is no cancel, the call fails with such a failure; forwarded totals are monotone and bounded |
| Supervision.PlanCarriesEverything | openadb/core/acbridge_p2p.py:709-730 | The streams together carry exactly the files and bytes of the selection |
| SessionLifecycle.StepKeepsInv | openadb/core/acbridge_p2p.py:820-1047 | No step of any call, nor of another program, breaks the invariant that ties lock, handles, forwards and calls together |
| SessionLifecycle.RunKeepsInv | openadb/core/acbridge_p2p.py:498-694 | Every state of every interleaving keeps it |
| SessionLifecycle.EndedCallLeavesNothing | openadb/core/acbridge_p2p.py:1214-1270 | When a call ends on any path, no handle of its request is left, and no forward if every request of that call to adb was honoured and no purge broke off |
| SessionLifecycle.QuietMeansClean | openadb/core/acbridge_p2p.py:1135-1166 | Once every call has ended there are no handles, and a forward of this program only if some action of its call was not honoured |
| SessionLifecycle.RemovalHitsOnlyItsOwn | openadb/core/acbridge_p2p.py:1253-1258 | A clean-up removes only the forward of its own request, never another live session's port |
| SessionLifecycle.DuplicateIdIsUnreachable | openadb/core/acbridge_p2p.py:902-907 | The duplicate-id branch is never taken |
| SessionLifecycle.ChosenIdIsFree | openadb/core/acbridge_p2p.py:1110-1118 | A chosen id belongs to no live call |
| SessionLifecycle.OnePreparation | openadb/core/acbridge_p2p.py:806-818 | At most one call prepares a session |
| SessionLifecycle.TerminalCommand | openadb/core/acbridge_p2p.py:1231-1235 | A call that is over sent nothing if it opened no channel; otherwise CLOSE if and only if its upload was stored, failed with the device's own text or an ERROR line came, and CANCEL if not |
| SessionLifecycle.OneCommand | openadb/core/acbridge_p2p.py:1231-1235 | At no time more than one |
| SessionLifecycle.StepsLeadToTheEnd | openadb/core/acbridge_p2p.py:498-694 | Every step of a call brings it nearer to its end |
| SessionLifecycle.NobodyIsStuck | openadb/core/acbridge_p2p.py:806-818 | Every call that is not over can go on; one that waits for the lock can once the call that has it goes on |
| SessionScenarios.UploadComesToItsEnd | openadb/core/acbridge_p2p.py:498-694 | The whole life of a session from any state in which it can begin, for each end of its upload: the command it sends, and that nothing but its record is left |
| SessionScenarios.ReadingComesToItsEnd | openadb/core/acbridge_p2p.py:940-1000 | The same where an ERROR line or an interruption comes instead of READY |
| SessionScenarios.UnconnectedComesToItsEnd | openadb/core/acbridge_p2p.py:902-940 | The same where the service is refused, does not answer, or its channel cannot be opened |
| SessionScenarios.UntoldForwardIsPurged | openadb/core/acbridge_p2p.py:1135-1166 | A forward whose port adb did not tell is found and removed |
| SessionScenarios.TwoUploadsAtOnce | openadb/core/acbridge_p2p.py:806-818 | Preparation is serialised, uploads are not: two can run side by side |
| HelperUpdate.Helper.UpdateIfOutdated | openadb/core/acbridge.py:1508-1699 | For every device: the outcome is the one that its answers determine, unless the user cancels, and Cancelled if and only if someone did; at most one install, only when the answers before it prove absence or one lower version; the outcome says what the conversation proves; after a cancel at most the command already on its way goes out; the lock is given back |
| HelperUpdate.Helper.UpdateLocked | openadb/core/acbridge.py:1523-1699 | The same under the lock |
| HelperUpdate.Helper.InstallAndCheck | openadb/core/acbridge.py:1586-1641 | The one install and what follows it, told exactly by the device and by the outcome; Cancelled if and only if someone cancelled |
| HelperUpdate.Helper.CheckInstalled | openadb/core/acbridge.py:1643-1699 | Success only if Android reports the bundled version and the bytes read back prove the bundle; the outcome is determined by the device unless someone cancelled |
| HelperUpdate.Helper.ProbeInstalledVersion | openadb/core/acbridge.py:1701-1798 | Unless a user who can cancel did so: absence if and only if the device shows it, a version if and only if the device shows it, whatever was asked |
| HelperUpdate.ProbeWays | openadb/core/acbridge.py:1717-1798 | The five ways a probe may go, and what it gives on each |
| HelperUpdate.Helper.ConfirmPackageAbsence | openadb/core/acbridge.py:1800-1855 | Unless a user who can cancel did so, absence if and only if a clean well-formed listing leaves the package out |
| HelperUpdate.Helper.ProbeAfterUpdate | openadb/core/acbridge.py:1857-1873 | At most three probes; unless a user who can cancel did so, the first one that shows a version or the third one |
| HelperUpdate.Helper.VerifyBundledApk | openadb/core/acbridge.py:1943-2023 | True if and only if the device shows the bundle at the one safe base path, unless a user who can cancel did so |
| HelperUpdate.BundleSteps | openadb/core/acbridge.py:1943-2023 | The bundle is shown if and only if path, size and bytes are in order one after the other |
| HelperUpdate.Helper.AcquireInstallLock | openadb/core/acbridge.py:1909-1917 | Waiting ends with the lock, or with a cancel by a user who can make one |
| DeviceAnswers.VersionCodeIsRead | openadb/core/acbridge.py:1783-1789 | A line is read as a version if and only if it is blanks, the key, the whole decimal number and a word end |
| DeviceAnswers.PathLineIsRead | openadb/core/acbridge.py:189-189 | A path line is the prefix, a slash and at least one more character, none of them a control character |
| DeviceAnswers.PackageNameIsRead | openadb/core/acbridge.py:186-188 | A package name is two spelled names or more between dots |
| DeviceAnswers.PrintedPathsAreRead | openadb/core/acbridge.py:1972-1976 | The paths that Android prints are read back |
| DeviceAnswers.BaseIsRead | openadb/core/acbridge.py:1977-1977 | A base path is base.apk itself or that name behind a slash |
| DeviceAnswers.SafePathIsRead | openadb/core/acbridge.py:1984-1988 | A path is safe if and only if it is spelled with the permitted characters and no part of it is two dots |
| DeviceAnswers.NumeralReadsBack | openadb/core/acbridge.py:1997-2000 | A printed number is read back |
| HelperUpdate.SuccessMeansTheBundle | openadb/core/acbridge.py:2006-2023 | With a digest that tells the bundle apart, current, installed and updated mean that the bundle's bytes were the last thing read |
| HelperUpdate.NewerIsUntouched | openadb/core/acbridge.py:1534-1568 | After a proved version that is not lower nothing is installed |
| HelperUpdate.InstallMeansLower | openadb/core/acbridge.py:1559-1570 | An install after a proved version means that the version was lower |
| HelperUpdate.DecisionIsUnique | openadb/core/acbridge.py:1717-1798 | One set of answers never proves two things |
| HelperScenarios.ScriptLeadsTo | openadb/core/acbridge.py:1508-1699 | For devices that print what Android prints: which outcome each of them leads to, before and after the install, for every version and every content |
| HelperScenarios.TooLargeIsNotShown | openadb/core/acbridge.py:1958-1960 | A bundle that is empty or larger than 64 MiB is never shown |
| HelperScenarios.Update | openadb/core/acbridge.py:1508-1699 | The update itself gives that outcome where nobody can cancel |
| Authenticode.LayoutIgnoresMutableFields | tools/verify_authenticode_payload.py:35-73 | Rewriting the mutable fields or appending never changes where the fields are |
| Authenticode.RangeErrorsAreUnreachable | tools/verify_authenticode_payload.py:76-87 | The range errors of the normalized prefix are unreachable from the verifier |
| Authenticode.NormalizePrefix | tools/verify_authenticode_payload.py:76-87 | The loop on the copy computes the prefix with exactly the two fields zeroed |
| Authenticode.AttachedIsAccepted | tools/verify_authenticode_payload.py:122-182 | Every unsigned image with every permitted envelope attached as the format prescribes is accepted |
| Authenticode.AcceptedIsAttached | tools/verify_authenticode_payload.py:122-182 | Every accepted file is the unsigned file with a permitted envelope |
| Authenticode.AcceptsExactlyTheEnvelope | tools/verify_authenticode_payload.py:122-182 | Both directions together |
| Authenticode.PayloadIsUnique | tools/verify_authenticode_payload.py:151-159 | Two unsigned files accepted for one signed file have the same normalized, padded form |
| PeImage.LayoutOfImage | tools/verify_authenticode_payload.py:35-73 | In every PE32 and PE32+ image, field by field, the parser finds the checksum and the entry of the certificate table with its values |
| PeImage.ParsedIsImage | tools/verify_authenticode_payload.py:35-73 | A file is parsed if and only if it is such an image |
| PeImage.AcceptsExactlySignedImages | tools/verify_authenticode_payload.py:122-182 | The whole check without any offset: accepted if and only if the unsigned file is an image with an empty certificate entry and the signed one is the same image with another checksum and certificate entry, padded and followed by one permitted certificate |
| DerLength.MinimalHeaderIsAccepted | tools/verify_authenticode_payload.py:90-119 | Every content length below 2^32 has a header that is accepted, whatever follows |
| DerLength.AcceptedHeaderIsMinimal | tools/verify_authenticode_payload.py:90-119 | Everything accepted starts with the minimal definite form |
| DerLength.HeaderIsUnique | tools/verify_authenticode_payload.py:90-119 | No two lengths share a header |
| DerLength.AcceptedExactly | tools/verify_authenticode_payload.py:90-119 | Acceptance with a size, if and only if the data starts with a whole object of that size in minimal form |
| DerLength.ObjectAlone | tools/verify_authenticode_payload.py:173-182 | What follows the object does not matter, nor does cutting it off |
| Requirements.LoadActiveRequirements | tools/verify_release_dependencies.py:121-164 | The load fails if and only if something reachable is missing, refused or in disagreement; otherwise the result is exactly the union of all reachable pins |
| Requirements.Loader.Load | tools/verify_release_dependencies.py:121-164 | With the shared set: one pass collects exactly the pins of the files it saw first, and terminates on every graph, cycles included |
| Requirements.Merge | tools/verify_release_dependencies.py:140-143 | The merge fails if and only if both sides pin a name differently |
| Requirements.SeenIsReachable | tools/verify_release_dependencies.py:128-139 | After the whole load the shared set is exactly what is reachable |
| Requirements.OrderDoesNotMatter | tools/verify_release_dependencies.py:133-164 | Reordering or repeating lines, includes among them, never changes whether the load fails, in broken and conflicting graphs either |
| Requirements.OrderKeepsTheResult | tools/verify_release_dependencies.py:133-164 | Nor does it change the result |
| AliasPublisher.Publisher.AtomicPublishAliases | tools/build_acbridge.py:612-659 | For every script of failing calls. Published means that all destinations equal the source. Failed means that all are as before, absent ones included, except exactly those whose rollback step fails, which hold the new bytes; their backup still holds the former content if and only if the clean-up stops at them or before. Helper files are gone up to the first failing clean-up step, and destinations behind the one whose staging fails are not touched at all |
| AliasPublisher.Publisher.ReplaceAll | tools/build_acbridge.py:635-639 | From staged destinations to one of the two ends |
| AliasPublisher.Publisher.Abandon | tools/build_acbridge.py:640-659 | From any number of replaced destinations through rollback and clean-up to the failed end |
| AliasPublisher.LoseTheOriginal | tools/build_acbridge.py:640-659 | For all names and contents, a run after which no file holds the former content of a destination |
| AliasPublisher.Publisher.StageOne | tools/build_acbridge.py:622-632 | Staging and backing up never touches the destination; success means a verified stage and a backup of what was there |
| AliasPublisher.Publisher.RollBack | tools/build_acbridge.py:640-649 | Exactly the destinations whose rollback step does not fail are as before |
| AliasPublisher.Publisher.RollBackOne | tools/build_acbridge.py:643-649 | A restored backup, a removed new file, or no change at all |
| AliasPublisher.Publisher.CleanUp | tools/build_acbridge.py:656-659 | The helper files of exactly the recorded destinations before the first failing step are gone, no other backup and no destination changes |
| AliasPublisher.Publisher.ReplaceWithRetry | tools/build_acbridge.py:662-675 | At most six attempts; the move happened entirely or not at all |
| AliasPublisher.Publisher.Attempt | tools/build_acbridge.py:662-675 | Transient locks are waited out up to five times; then, or on any other error, it fails; the move happened entirely or not at all |
| AliasPublisher.SourceIntact | tools/build_acbridge.py:617-633 | Staging leaves the source alone, also when it is one of the destinations |
| AliasPublisher.OtherSlots | tools/build_acbridge.py:623-624 | The helper names of one destination never collide with another destination or its helpers |
| ShellQuote.QuotedIsOneWord | openadb/core/path_utils.py:29-31 | Between any delimiters (blanks, newlines, operators such as ; and >, the ends) a quoted NUL-free value is exactly one word token, and what stands before and after is read as if it stood alone |
| ShellQuote.QuotedReadsBack | openadb/core/path_utils.py:29-31 | Glued to other text, a quoted value adds exactly itself to the word |
| ShellQuote.AssignmentReadsBack | openadb/core/adb_transfer_strategy.py:1012-1012 | Behind a name and an equals sign a quoted value makes one word, the assignment of exactly that value |
| ShellQuote.ScriptPrefixReadsBack | openadb/core/adb_transfer_strategy.py:1069-1069 | The line with which the transfer scripts begin is read as the two assignments and their separators, whatever the rest of the script is |
| ShellQuote.QuoteIsInjective | openadb/core/path_utils.py:29-31 | Quoting is injective |
| ShellQuote.QuoteWorksUnlessNul | openadb/core/path_utils.py:29-31 | Reading back works if and only if the value holds no NUL |
| ShellQuote.CommandLineReadsBack | openadb/core/path_utils.py:29-31 | A line of quoted arguments is read back as exactly those arguments |
| ShellQuote.RootScriptReadsBack | openadb/core/adb.py:887-888 | The outer shell sees su, -c and the inner command unchanged |
| ShellQuote.NestedArgumentsReadBack | openadb/core/adb.py:887-888 | Through both shells: the inner command, then its own arguments |

## Left out

- Subprocesses, sockets, thread pools and clocks: they appear as nondeterministic results, chunks, waits and a cancel flag that stays set.
- Cryptographic strength of HMAC and SHA-256, and the key exchange that makes the session token.
- The Java receiver and the shell interpreters: the receiver is a decoder of the sender's layout, a shell script the file operations it performs.
- Expansion: tokens of a shell script are not expanded, and scripts are not run; parameter and command substitution are outside the lexer.
- UTF-8 decoding, redaction, status messages, progress and speed texts; messages stay bytes.
- Symbolic links, case-insensitive path aliases, TAR header and ZIP parsing, and the resolution of member names to targets: the TAR model starts from targets and bytes.
- A writer thread that outlives its two-second join, and KeyboardInterrupt at arbitrary points.
- The owner and label repair of the root finalizer: best effort after the move.
- Collection of transfer entries from the local disk and the choice of the number of streams.
- The stripping and redaction of the error text that ControlChannel.FetchSessionError finds.
- The retry and permission dialogue of session preparation: extra reads of the control channel without effect on handles and forwards.
- Parsing of requirement lines, markers and logical lines, and the comparison with the installed environment: the resolver model starts from parsed lines.
- The report of sizes and digests that the Authenticode check returns on success.
- Creating the parent directories of aliases, and the delays between replace attempts.
- HelperUpdate.Helper.ProbeInstalledVersion: output arrives split into lines and digits are ASCII; the splitting itself is the library's.
- AliasPublisher.Publisher.CleanUp: the helper files of the one destination whose own staging failed are not recorded and may stay, as in the code.
- RequestFraming.Sender.SendRequest: the flushes between and after the entries only ask whether the stream is still ready, and are not modelled.
- StreamedPush.TargetIsOldOrNew: no other program writes to the target or to the random staging name during the push.
