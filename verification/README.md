# Verification of the agent's state, shutdown and transfer logic

This project models the parts of the agent in which a mistake loses a user's data, and proves what they promise:

- **The workspace archive and its restore.** A file tree changed one operation at a time (`filetree.dfy`), packing and
  unpacking (`archive.dfy`, `pack.dfy`), moving a staged tree into place (`moveinto.dfy`) and the whole restore with its
  overlay, over crashes and restarts (`restore.dfy`). Names are cleaned and checked in `paths.dfy`.
- **Background jobs and saving.** Restore and checkpoint jobs beside the main loop as a step relation (`jobs.dfy`), and
  Save with its durable markers (`save.dfy`).
- **Termination.** When disks may be stopped and `synced` may be written, across the termination passes, the save hook
  and the upload counters (`lifecycle.dfy`), and when a single disk may be unmounted (`unmount.dfy`).
- **Transfers.** The resumable archive download (`download.dfy`), the download in eight ranges (`ranged.dfy`), and what
  is remembered of failed content downloads (`contentretry.dfy`).
- **Files rewritten in place.** `rclone.conf` (`remotes.dfy`), `authorized_keys` (`sshkeys.dfy`), and the configs of the
  containerd switch with their undo log (`undo.dfy`). `text.dfy` holds the string lemmas.
- **Specs and contexts.** The inbox between the stream and the main loop, and the contexts that work runs under
  (`inbox.dfy`).

Code that updates state is modelled by classes and methods with loops, proved against functions and predicates; the laws
are lemmas about those, or the contracts of methods that drive any run. Goroutines are modelled as step relations, with
every interleaving of their steps.

## How the outside world is modelled

- Every file operation of `FileTree.FileSystem` needs real directories above its path, so no operation of the model can
  work through a symlink. A process is given which of its operations fail, one by one (`fails`): a single one is an I/O
  error, all from some point on are a crash there. Only operations of the call itself that fail excuse a call
  (`FileTree.FileSystem.Faults`). `undo.dfy` does the same.
- Clocks, server responses, outcomes of commands, of systemd and of other modules are inputs, in any combination.
  Responses obey sections 14.2, 14.4 and 15.3.7 of RFC 9110 where a member requires it (`Download.Honest`; in `Ranged`
  a 206 body is a prefix of the requested range).
- A digest is the content itself (`Save.Sum`), that is, digests do not collide. Marker files are written atomically, and
  markers, except where `writable` or a similar input says otherwise, are written without error.
- No other writer touches the tree during pack or restore. Include paths are clean and relative and are reached through
  real directories (`Pack.PackableIncludes`, `Restore.StraightIncludes`), and none leads into the two staging folders
  (`Restore.Unreserved`). Upload counters are not negative. The clock does not go back.

## Results that differ from what one may expect

- After a stall was reported, a later pass can report plain `syncing` again: when the save is first asked for after the
  stall (`Lifecycle.LateSaveHidesStall`). `Lifecycle.RunAfterStall` gives the exact condition, which shows that it never
  happens when the passes of a process agree on whether to save.
- The limit counter adds in 64 bits and can wrap around, so that an archive of 2^63 bytes is accepted
  (`Archive.TwoEntriesWrap`). `Archive.CounterIsExact` gives the exact condition on limits and entry sizes under which it
  means what its error texts say; entries below 2^63 minus the byte limit meet it.
- A spec that names one content target twice can have it tried twice in a pass without the wait, because the tasks to skip
  are chosen before the first is tried (`ContentRetry.TwiceInOnePass`). `ContentRetry.PassNeedsDistinct` shows that this
  is exactly when a pass breaks the rules.
- A restore that is stopped after it has checked for that still writes its marker (`Jobs.StopComesTooLate`);
  `Jobs.StoppedRestoreMarks` says exactly when.

## Model

| member | source | states |
|---|---|---|
| Paths.SafeRelAccepts | internal/state/archive.go:204-210 | a name is accepted if and only if it is not absolute and walking its segments ends strictly below the root without ever leaving it; what is accepted is a non-empty path without `.`, `..` and empty segments |
| Paths.SafeRelMeaning | internal/state/archive.go:204-210 | an accepted name, whatever `.` and `..` it has, means the place that walking its segments up and down ends at: its k-th part is the segment with which the walk last went down from depth k |
| Paths.SafeRelReadsBack | internal/state/archive.go:114-118 | the header name written for a path, with or without a directory's slash, is accepted on reading and names the same path |
| Paths.CleanIgnoresSlash | internal/state/archive.go:205 | trimming one trailing slash does not change what an accepted name cleans to |
| FileTree.FileSystem.RemoveAll | internal/state/manager.go:288-294 | removing a tree takes away only nodes at or below its path; it succeeds with all of them gone unless an operation fails or the path runs through something that is no directory |
| FileTree.MovedWellFormed | internal/state/archive.go:291-293 | a rename of a whole subtree into a real directory leaves a tree again |
| MoveInto.MoveInto | internal/state/archive.go:266-296 | when no operation fails it succeeds if and only if no staged non-directory would land on a directory; on success every staged node has arrived and only directories merged into are left behind; wherever it stops, each staged node is either still at the source or the only thing at its destination, and nothing else has changed |
| MoveInto.MoveName | internal/state/archive.go:271-294 | one directory entry keeps all of that for the names moved so far and itself, and fails only for a clash or a failed operation |
| MoveInto.ReplaceName | internal/state/archive.go:286-293 | an old node that is no directory is removed and its place taken, or the staged node still waits, in one step of the move |
| MoveInto.CompleteHasNoClash | internal/state/archive.go:284-285 | a move that finished had no staged non-directory that would land on a directory |
| MoveInto.OneMoreName | internal/state/archive.go:271-294 | moving one more name neither undoes nor disturbs what was moved before it |
| MoveInto.ClashBelow | internal/state/archive.go:279-285 | a clash met deep in a recursive move is a clash of the trees at the start |
| Archive.Counter.Add | internal/state/archive.go:51-61 | the counter refuses exactly when entries or the wrapped byte sum pass their limits |
| Archive.CountAllConcat | internal/state/archive.go:51-61 | counting two entry lists one after the other is counting their concatenation |
| Archive.CountAllMeaning | internal/state/archive.go:51-61 | where the sum can never leave the int64 range, a list is accepted if and only if its number of entries and its total size are within the limits |
| Archive.SmallEntriesNeverWrap | internal/state/archive.go:51-61 | that is so for entries below 2^63 minus the byte limit, however many |
| Archive.TwoEntriesWrap | internal/state/archive.go:56-59 | two entries that come to 2^63 bytes are accepted, for every byte limit and at least two entries |
| Archive.CounterIsExact | internal/state/archive.go:51-61 | the exact condition: the counter accepts just the lists that fit, among those with entries below a bound, if and only if limits and bound rule out a wrap |
| Archive.MkdirInside | internal/state/archive.go:212-232 | it makes the missing directories below the root and nothing else, refuses exactly when something on the way is not a directory, and fails otherwise only when an operation does |
| Archive.Replace | internal/state/archive.go:234-246 | it frees the place of a file or symlink, refuses exactly a directory, and fails otherwise only when an operation does |
| Archive.WriteRegular | internal/state/archive.go:248-264 | a finished write leaves exactly the entry's bytes, mode and time; short data is refused; no other path changes, and without a failing operation it ends in one of the two |
| Archive.UnpackEntry | internal/state/archive.go:172-200 | one entry does what the functional reading says, for success and for each refusal, inside the frame, unless an operation fails |
| Archive.ExtractMeaning | internal/state/archive.go:148-202 | unpacking succeeds exactly for a whole stream within the limits whose names are safe, whose included files have their data, and whose included entries find only directories on their way and none in their place; of several entries for one place the last one counts |
| Archive.Unpack | internal/state/archive.go:148-202 | when no operation of the call fails it finishes if and only if the stream is whole, the limits hold and every entry can be unpacked over what those before it left, every place then having what the last entry that writes there put; for every entry list and every outcome only nodes under an include path change, and free places on the way to one become directories |
| Pack.WriteEntry | internal/state/archive.go:109-146 | a visited node gives nothing when it is special, else its one entry, counted against the limits, whether it is then accepted or refused; it fails only when an operation does |
| Pack.Walk | internal/state/archive.go:81-97 | a walk emits exactly nodes reached without crossing an excluded one, each at most once, and all of them when it finishes; it is refused only when their entries do not fit the limits and fails only when an operation does |
| Pack.WalkVolume | internal/state/archive.go:81-97 | the entries of a walk, each node once, are no more in number and bytes than the nodes to be emitted, and come to just those when all were found |
| Pack.AcceptedMeaning | internal/state/archive.go:51-107 | where the counter cannot wrap, packed entries are refused only if the selection does not fit the limits, and the whole selection is accepted only if it does |
| Pack.Pack | internal/state/archive.go:63-107 | every entry is that of a selected node, on success every selected node that is not special has one, and never are more entries or bytes packed than the selection has; when no operation of the call fails and the counter cannot wrap, it finishes if and only if the selection, with a node under two include paths counted for each, fits the limits |
| Pack.EntryUnpacks | internal/state/archive.go:172-200 | whatever subset of the selection was unpacked before, one more entry of it unpacks and adds exactly its node and the directories on the way |
| Pack.RoundTrip | internal/state/archive.go:63-202 | what Pack wrote under some limits Unpack accepts under the same limits and include list, and in an empty directory makes exactly the selection with its ancestors, each node as it was, in whatever order and however often the entries come |
| Pack.CarryOver | internal/state/archive.go:63-202 | packing one tree and unpacking into an empty directory of another brings exactly the selection with its ancestors; when no operation of the call fails and the counter cannot wrap, that happens if and only if the selection fits the limits |
| Pack.SelectionIsKept | internal/state/archive.go:63-107 | a path is made by unpacking if and only if it is selected and not special, or a directory on the way to such a node |
| Restore.FreshFolder | internal/state/manager.go:288-293 | a staging folder is made anew and empty, whatever an earlier run left there, unless an operation fails, and the workspace stays as it is |
| Restore.UnpackFile | internal/state/manager.go:353-366 | unpacking into a staging folder gives there what unpacking into a bare tree gives, success and refusals alike, unless an operation fails |
| Restore.ExtractMirrors | internal/state/archive.go:148-202 | what unpacking does below a folder does not depend on where the folder is or what is beside it |
| Restore.ExtractSafe | internal/state/archive.go:148-202 | unpacking into a bare tree leaves a tree in which only directories on the way lie outside the include paths |
| Restore.OverlayMeaning | internal/state/manager.go:308-341 | under every include path that the overlay carries the target is the overlay's tree, so files deleted in the session do not come back; everywhere else it is the full archive's tree |
| Restore.RestoreBrings | internal/state/manager.go:270-341 | what a finished restore brings, for archives packed of a workspace and of a later session, either or both: every selected node of the session; elsewhere, under an include path that the session has, nothing; elsewhere every selected node of the workspace; all other paths keep what they had; and it clashes exactly when that brings something other than a directory onto a directory |
| Restore.TargetBrings | internal/state/manager.go:295-341 | archives packed of such sources always have a target, and it holds exactly what they bring |
| Restore.TargetExists | internal/state/manager.go:295-341 | archives have a target exactly when each can be unpacked into an empty directory and the include paths of the overlay are safe names |
| Restore.OverlayNeverClashes | internal/state/manager.go:328-340 | once the overlay's include paths are cleared, moving the overlay in cannot clash |
| Restore.Uncover | internal/state/manager.go:328-339 | it removes from the staged tree exactly what lies under an include path that the overlay has, unless an operation fails |
| Restore.LaySafeOverlay | internal/state/manager.go:308-341 | laying an overlay ends in the merged tree or in the archive's own fault unless an operation fails, with the workspace untouched |
| Restore.Stage | internal/state/manager.go:270-304 | everything before the last move leaves the workspace as it was; unless an operation fails the staging folder then holds the target, or the archives have none |
| Restore.MoveIsMerge | internal/state/manager.go:305 | a finished move of the staged target is the source-wins merge over the workspace, and old files that the target lacks survive |
| Restore.Restore | internal/state/manager.go:270-306 | when no operation of the call fails it restores if and only if the archives arrived, have a target, and no non-directory of it meets a directory of the workspace; the result is the merge of the target over the old workspace; a failed download, a bad archive and any failure before the last move leave the workspace as it was |
| Restore.PackAndRestore | internal/state/manager.go:270-306 | packing one workspace and restoring the archive over another brings exactly the selection, each node as it was, and leaves every other path alone; when no operation fails it does so if and only if no selected node that is not a directory meets a directory |
| Restore.InterruptionConverges | internal/state/archive.go:266-296 | wherever a move stopped, moving the same tree again is headed for the same workspace and clashes if and only if it would have at first |
| Restore.RestoreAcrossRestarts | internal/state/manager.go:196-217 | over any number of processes, each with any failing operations and ending anywhere, also between the last rename and the marker, the marker is written only for the workspace that one undisturbed run would have made, and it is written once a process is undisturbed, unless the archives have no target or it conflicts with the workspace |
| Jobs.StepInv | internal/state/manager.go:169-253 | every step of the main loop, a restore and a checkpoint keeps the invariant |
| Jobs.OneJobAtATime | internal/state/manager.go:169-217 | in every interleaving at most one restore and one checkpoint have not ended |
| Jobs.NewRestoreBegins | internal/state/manager.go:169-194 | a restore begins unless one of its key runs or has a result; one of another key that runs is stopped first, and then it begins |
| Jobs.SaveRunsAlone | internal/state/manager.go:509-546 | while Save packs and uploads every job has ended and none can begin |
| Jobs.NoCheckpointAfterSeal | internal/state/checkpoint.go:123-133 | after Save has sealed checkpoints none begins in the life of the process |
| Jobs.CheckpointsAreSpaced | internal/state/checkpoint.go:28-69 | every checkpoint begins at least its interval after the one before it ended |
| Jobs.DueCheckpointBegins | internal/state/checkpoint.go:28-53 | a call begins a checkpoint exactly when the workspace was restored and used, Save has not sealed, none runs, and the interval is over since the last one ended; the first call starts the clock |
| Jobs.SkippedWasAcked | internal/state/checkpoint.go:71-121 | an archive is taken as unchanged only if its digest is the last one that the backend acknowledged |
| Jobs.UnchangedIsSkipped | internal/state/checkpoint.go:87-94 | a digest that is the last one remembered is skipped and the end stamped, any other goes on to the backend |
| Jobs.CommitIsOfUploaded | internal/state/checkpoint.go:71-121 | in every reachable state what is being committed was packed, granted and uploaded by this very checkpoint, and what is being remembered was acknowledged besides |
| Jobs.NoDeadlock | internal/state/manager.go:169-253 | a job that is waited for, under the mutex or not, always has a step, its steps come to an end, and then the main loop goes on |
| Jobs.HowRestoreEnds | internal/state/manager.go:196-217 | a restore stopped before its check ends without marker and result; past the check it ends with the marker exactly when its work and the writing succeed, stopped or not |
| Jobs.StoppedRestoreMarks | internal/state/manager.go:204-215 | a stopped restore still writes its marker if and only if it was past its check, with its work done, and the writing succeeds |
| Jobs.StopComesTooLate | internal/state/manager.go:243-253 | a run in which Save stops a restore past its check and the marker is written all the same |
| Save.RetryDelay | internal/state/manager.go:594-607 | the doubling loop, which stops early, computes the smaller of base times 2^n and the cap |
| Save.PauseGrows | internal/state/manager.go:594-607 | the pause never shrinks as failures add up |
| Save.Manager.SaveStarted | internal/state/manager.go:548-559 | the start of the saving is noted once and read back by every later call, over restarts, to the millisecond |
| Save.Manager.Fail | internal/state/manager.go:561-574 | an error is an outcome exactly when it is final, the archive is too large, or the save window is over; it then drops the archive and writes its marker, and else changes nothing |
| Save.Manager.PackArchive | internal/state/manager.go:629-643 | the archive is packed again without the virtual environment exactly when it was too large with it, and the archive and marker left are those of the last packing |
| Save.Manager.Attempt | internal/state/manager.go:576-592 | it succeeds exactly when there is an archive, packed now or left by an earlier attempt, and its upload succeeds; it tells the digest and size of the bytes sent, else the error of packing or of the upload, which then sets the pause |
| Save.Manager.Save | internal/state/manager.go:509-546 | the report, the markers, the archive, the pause, what is sent and how often is packed are determined: Saved exactly when nothing keeps the call from saving, Saving exactly when what does is passing and the window is open, else failed (`NoAttempt` and `AnAttempt` say which is which) |
| Save.SaveMeaning | internal/state/manager.go:509-546 | at most one outcome marker; an outcome is repeated without packing or uploading; a call that ends when the window is over has an outcome; what is saved was sent in that call; an archive left earlier is sent without packing again; a failed upload keeps it and sets the pause |
| Save.NoAttempt | internal/state/manager.go:524-535 | containers that did not stop, a missing root, or the pause after a failed upload, in this order, keep a call from packing and sending anything; it fails with that error and leaves the archive, the failures and the pause as they were |
| Save.AnAttempt | internal/state/manager.go:536-592 | every other call sends the archive of an earlier attempt, else what packing gives, else, only when that was too large, what packing without the virtual environment gives; it is saved with the digest and size of what was sent if and only if the upload succeeds |
| Save.SendsAreSpaced | internal/state/manager.go:533-607 | over any calls of one process an archive is sent again no sooner than the pause after the failed upload before it |
| Save.FailsAreCounted | internal/state/manager.go:594-607 | the failures that set the pause are all the failed uploads of the process |
| Save.RunCalls | internal/state/manager.go:509-546 | the calls of one process make such a sequence of states, with the reports and the archives sent that go with it |
| Save.RunSaves | internal/state/manager.go:493-607 | over any run of calls and restarts an outcome, once reported, is the only one ever reported |
| Lifecycle.MovedAtMeaning | internal/lifecycle/manager.go:155-189 | the kept time is that of the last look whose known totals moved against the previous known ones, or of the first look |
| Lifecycle.CountersMove | internal/lifecycle/manager.go:155-189 | a look at which every disk answers starts the clock anew exactly when, against the one before at which they did, more is completed, fewer are pending, or more is sent with the same errors |
| Lifecycle.UnknownDoesNotMove | internal/lifecycle/manager.go:155-165 | a look without an answer from every disk, or without one before it to compare with, lets the clock run on |
| Lifecycle.MovingNeverStalls | internal/lifecycle/manager.go:155-189 | a queue that at every look has completed more, has fewer pending, or has sent more without new errors never stalls, however far apart the looks are |
| Lifecycle.ResendingIsNoMovement | internal/lifecycle/manager.go:155-189 | over any number of looks at which disks only send the same bytes again while errors grow, or do not answer, the stall comes exactly when the limit is reached |
| Lifecycle.QuietStalls | internal/lifecycle/manager.go:155-185 | over any number of looks without movement the stall comes exactly when the limit is reached since the last look with it |
| Lifecycle.Manager.Watch | internal/lifecycle/manager.go:155-185 | with the kept mark, time and flag it reports a stall exactly when the history of looks is overdue or was before |
| Lifecycle.TotalPending | internal/lifecycle/manager.go:191-203 | the summed queue is empty if and only if the queue of every disk is |
| Lifecycle.TotalFields | internal/lifecycle/manager.go:191-203 | every counter of the total is the sum of that counter over the disks that answered |
| Lifecycle.OneDiskMoves | internal/lifecycle/manager.go:187-203 | with the other disks unchanged, the totals move in each of the three ways exactly when the one disk does |
| Lifecycle.Manager.AddUp | internal/lifecycle/manager.go:112-125 | the loop gives the sum over the disks that answered and whether all did |
| Lifecycle.Manager.FlushStorageUnits | internal/lifecycle/manager.go:243-255 | every unit is told to stop even when others fail, and the result is that of all |
| Lifecycle.FinishIsSafe | internal/lifecycle/manager.go:107-145 | every listed unit and no other is stopped if and only if every listed disk answered with nothing in progress or queued; `synced` is written, and reported, if and only if moreover all stops succeeded |
| Lifecycle.FinishFileIsLastWritten | internal/lifecycle/manager.go:107-145 | the state file is what the pass wrote last |
| Lifecycle.Manager.FinishSync | internal/lifecycle/manager.go:107-145 | the effects, the report and the file of a pass whose save let it go on |
| Lifecycle.Manager.HandleTermination | internal/lifecycle/manager.go:87-105 | report, effects, state file and what Save keeps are determined; nothing is stopped or watched unless the save hook, called in this very pass, lets it go on, which it does exactly when Save does not leave the saving to a later call |
| Lifecycle.ProgressKeepsSyncing | internal/lifecycle/manager.go:101-189 | as long as one disk completes, empties or sends from each pass to the next, however far apart they are, every pass of the process reports `syncing`, and so does the state file |
| Lifecycle.EarlyEnd | internal/lifecycle/manager.go:87-96 | a pass that cannot note its start, or that comes after `synced`, changes nothing and stops nothing |
| Lifecycle.BeginningIsNoted | internal/lifecycle/manager.go:91-96 | the first thing that a pass over a live agent does is to write `syncing` |
| Lifecycle.RunPasses | internal/lifecycle/manager.go:87-153 | over any run of passes and restarts every stop and every `synced` comes in a pass that itself found all listed disks drained and had its save at an outcome |
| Lifecycle.RunAfterStall | internal/agent/agent.go:266-277 | the reports of a process are those of its state; after a stall was reported a pass reports plain `syncing` if and only if it can begin and its save stays open, which needs a save that the pass with the stall did not ask for |
| Lifecycle.SyncingAfterStall | internal/lifecycle/manager.go:101-153 | the same for any sequence of states of one process |
| Lifecycle.LateSaveHidesStall | internal/lifecycle/manager.go:101-104 | the run in which it does come back, for every limit, busy disk and save that is left to a later call: two passes a limit apart without a save report `syncing` and an error, the third, with the save, `syncing` again |
| Lifecycle.RunWithLateSave | internal/lifecycle/manager.go:87-104 | a new process for which this is the run, for every limit and save window: its save cannot stop the containers |
| Unmount.SinceIsSeries | internal/disk/manager.go:307-316 | the kept start of a wait is that of the longest unbroken series of attempts |
| Unmount.OverdueMeaning | internal/disk/manager.go:319-322 | comparing the kept start with the limit decides whether any unbroken series of attempts spans the limit |
| Unmount.AttemptsMore | internal/disk/manager.go:265-305 | a wait is forgotten when the unit is found inactive or has been stopped, goes on when systemd does not answer, and else has one more attempt |
| Unmount.Manager.StillFlushing | internal/disk/manager.go:307-333 | a disk goes on waiting exactly when its uploads are not known to be zero and no unbroken series of attempts spans the limit |
| Unmount.Manager.Unmount | internal/disk/manager.go:265-305 | with the history of all calls: every stop of an active unit was justified in its very call, other disks wait on undisturbed, and files are removed, in their order, only for a disk that is not active any more; a unit that systemd does not answer for, that still flushes or that does not stop keeps all of them |
| Download.PartialFile.Receive | internal/state/manager.go:438-451 | the file grows by the body, or is emptied when it proves longer than declared, and success is exactly a whole body that brings it to its size |
| Download.PartialFile.Attempt | internal/state/manager.go:397-451 | file and result are determined by the response: a matching 206 continues the file, a 200 begins it anew, a refused or mismatched range empties it, a client error ends the download; the file is always a prefix of the archive and never more than one byte over the declared size |
| Download.CodesMeaning | internal/state/manager.go:419-451 | a 206 for the bytes asked for continues the file and a 200 begins it anew; any other 206 and a 416 empty it for another try; a client error but 408, 416 and 429 ends the download; every other answer leaves the file for another try |
| Download.PartialFile.Fetch | internal/state/manager.go:368-395 | every attempt but the last asked for another and left time for the pause, and the last did not, so it gives up exactly at the deadline; the result is that of the last attempt; success gives the first bytes of the archive up to the declared size; a server that always resumes adds to the file at every attempt |
| Download.DelayDoubles | internal/state/manager.go:369-388 | the pauses are the base doubled with every attempt, up to the cap |
| Download.PartialFile.FetchVerified | internal/state/manager.go:343-351 | the file is what the attempts leave that begin with nothing and go on as long as they ask for another and time is left; it is used if and only if the last of them ended well and it has the digest asked for |
| Ranged.Partition | internal/content/manager.go:643-651 | for every size each byte lies in exactly one of the eight ranges |
| Ranged.Download.Copy | internal/content/manager.go:695-705 | bytes go to the part's own place, nothing outside its range changes, and the counter grows by what was written |
| Ranged.Download.EndAttempt | internal/content/manager.go:672-693 | a part with all its bytes is done however the attempt ended, one without them fails on a final error, a cancellation or its third attempt and cancels the others |
| Ranged.Download.Step | internal/content/manager.go:652-661 | one event of one part moves that part alone and keeps every part's bytes equal to the source |
| Ranged.Download.Outcome | internal/content/manager.go:662-669 | success if and only if all parts are done, and then the file is the source and the counted bytes are the size |
| Ranged.Run | internal/content/manager.go:635-670 | under any interleaving, split and failure: success means the file equals the source, at most three attempts per part, progress never over the size and equal to it after a success without failing writes |
| Ranged.GivesUpForAReason | internal/content/manager.go:652-693 | parts are cancelled only by a cancellation from outside, by a final error, or by a part that used up its three attempts |
| Ranged.FullBodiesComplete | internal/content/manager.go:635-693 | for every size, bodies that bring everything complete all eight parts |
| Ranged.FetchedAll | internal/content/manager.go:745-764 | the bytes of all complete parts add up to the size |
| ContentRetry.OneMore | internal/content/manager.go:255-261 | a target that need not wait can be tried once more within three attempts, its wait and finality respected |
| ContentRetry.DueIsTried | internal/content/manager.go:251-298 | in terms of the attempts made: a pass tries a task, in its turn, exactly when no attempt on it has failed since it was fetched or a new key came, or fewer than three have, none for good, and the doubled wait after the last is over |
| ContentRetry.NextRemembered | internal/content/manager.go:318-333 | one more failure, at whatever time, leaves remembered what all the attempts since the last reset say |
| ContentRetry.Manager.Fail | internal/content/manager.go:318-333 | a failure counts, is remembered with its message, and is final when it says so or is the third; the next try waits the base doubled with every failure |
| ContentRetry.Manager.Pass | internal/content/manager.go:251-316 | exactly the targets that were not waiting are tried, in order, up to a cancellation, and what is remembered and reported is determined; as long as no target is due twice the attempts stay in order and a completed pass reports what is remembered of every task |
| ContentRetry.Manager.Reconcile | internal/content/manager.go:137-172 | a new key forgets all failures before the pass; under the same key a running pass is left alone; a pass tries exactly the tasks that need not wait before the first that finds it cancelled, is reported cancelled exactly then, and else reports what it said of every task |
| ContentRetry.PassNeedsDistinct | internal/content/manager.go:251-316 | the exact condition: a pass keeps three attempts, waits and finality whatever its fetches come to, if and only if no target occurs twice among the tasks that are not waiting |
| ContentRetry.SaidIsRemembered | internal/content/manager.go:283-313 | without a target due twice, the messages of a pass are those remembered when it ends, of every task and in their order |
| ContentRetry.TwiceInOnePass | internal/content/manager.go:251-298 | a target named twice is tried twice in one pass, the second time before the wait after the first |
| ContentRetry.MessagesKept | internal/content/manager.go:283-287 | what is reported of a list of tasks depends only on the failures of their targets |
| SshKeys.ValidKeys | internal/sshkeys/manager.go:87-100 | keys with a line break, empty ones and comments are left out, the others trimmed and kept in order |
| SshKeys.UsableKeysMeaning | internal/sshkeys/manager.go:87-100 | the listed keys are all those without a line break whose first character that is not space is there and is no `#`, in their order, without the space around them |
| SshKeys.WithoutBlock | internal/sshkeys/manager.go:102-116 | the flag loop keeps exactly the lines outside managed blocks, for any markers, closed or not |
| SshKeys.Render | internal/sshkeys/manager.go:118-133 | the buffer loop writes the base, then the marked block if there are keys |
| SshKeys.KeyFile.Reconcile | internal/sshkeys/manager.go:40-85 | the file becomes the rendered one, and is not written when it is that already |
| SshKeys.BaseIsBase | internal/sshkeys/manager.go:102-116 | what is left of any content has no begin marker and does not end in a line break |
| SshKeys.BaseOfRendered | internal/sshkeys/manager.go:102-133 | removing the block from any rendered file gives back its base exactly |
| SshKeys.UsableKeysAreNoMarkers | internal/sshkeys/manager.go:87-100 | no usable key can be a marker line |
| SshKeys.ApplyAbsorbs | internal/sshkeys/manager.go:56-60 | applying k1 and then k2 is applying k2 alone, for every content |
| SshKeys.ApplyIdempotent | internal/sshkeys/manager.go:56-60 | applying the same keys again changes nothing |
| SshKeys.OutsideSurvives | internal/sshkeys/manager.go:102-133 | lines outside the managed blocks keep their order and text up to trailing line breaks |
| SshKeys.KeysAreListed | internal/sshkeys/manager.go:118-133 | the managed lines are the markers and the usable keys in order, and without keys there is no block |
| Remotes.ReadConf | internal/disk/remotes.go:108-133 | the line loop reads the sections that the functional reading gives |
| Remotes.Render | internal/disk/remotes.go:135-144 | the buffer loop prints the sections in order |
| Remotes.FindSection | internal/disk/remotes.go:170-177 | the first section of that name, or none |
| Remotes.ParseShaped | internal/disk/remotes.go:108-133 | any text reads as an optional preamble and sections that begin with their own header and hold no other |
| Remotes.ReadsBack | internal/disk/remotes.go:108-168 | sections of that shape, once written, read back the same up to trailing line breaks |
| Remotes.RemoteSectionHeaded | internal/disk/remotes.go:64-74 | the section written for a drive has that shape, whatever its credentials |
| Remotes.PutView | internal/disk/remotes.go:82-86 | a put changes one entry of the map of remotes and leaves foreign sections and the preamble in order |
| Remotes.DropView | internal/disk/remotes.go:90-106 | a drop removes one entry of the map and leaves the rest in order |
| Remotes.StepRefines | internal/disk/remotes.go:58-106 | one put or drop on the file is one on the map from remote to credentials, through writing and reading again; the texts of other remotes, foreign sections and order stay |
| Remotes.RunRefines | internal/disk/remotes.go:58-168 | so is any sequence of them, on any starting file whose remotes have distinct names |
| Remotes.PutThenDrop | internal/disk/remotes.go:58-106 | dropping a remote that was absent before it was put gives back the original sections |
| Remotes.CredentialsReadBack | internal/disk/remotes.go:64-74 | the section written for a drive, read line by line, gives each credential under its own key and the fixed settings their values |
| Remotes.PutIsRead | internal/disk/remotes.go:58-88 | after a put, on any file, the section found for the drive in the file read again holds its credentials |
| Remotes.RcloneConf.PutRemote | internal/disk/remotes.go:58-88 | the file becomes that of the put, and reading it again finds the credentials under the drive; credentials with line breaks are refused and change nothing |
| Remotes.RcloneConf.DropRemote | internal/disk/remotes.go:90-106 | the file becomes that of the drop, and is not written when there is nothing to drop |
| Undo.Host.WriteConfig | internal/hostsetup/manager.go:530-539 | the target has the new content or nothing but a leftover temporary file has changed |
| Undo.Host.RestoreConfig | internal/hostsetup/manager.go:520-528 | a file is written back, or removed when there was none |
| Undo.FirstAppend | internal/hostsetup/manager.go:273-283 | a later step on a path does not change which step of the log remembers its original |
| Undo.UndoLog.Replace | internal/hostsetup/manager.go:273-283 | after any sequence of replacements, with repeats and failures, the log knows the first content of every changed file |
| Undo.UndoLog.Run | internal/hostsetup/manager.go:285-293 | every file whose first step could be taken back is as it was before the log began, whatever else failed; without errors that is every file |
| Undo.Manager.Prepare | internal/hostsetup/manager.go:312-355 | on success exactly the two configs of containerd have their new content, the main config with all it had after the import line, or unchanged when it has that import; one with other imports, or that does not parse, is refused before anything is written |
| Undo.Manager.Apply | internal/hostsetup/manager.go:357-382 | on success docker's config and, for a containerd of our own, the unit are changed too, the configs are in place, and the last answers were yes: version and image store |
| Undo.Manager.GiveUp | internal/hostsetup/manager.go:384-408 | success means that all files are as they were, and only a failed file operation can keep them from it; when nothing fails any more and every command answers yes, it succeeds |
| Undo.Manager.Switch | internal/hostsetup/manager.go:295-310 | success means the switch with containerd seen ready and nothing else changed, the main config keeping all it had and having the import, or all files as they were, also after an earlier give-up; a failure leaves them as they were unless a file operation failed; a main config with other imports is always left as it was; on a host without containers where nothing goes wrong it switches if and only if the configs can be extended, and else gives up |
| Inbox.Alive.AliveContext | internal/agent/agent.go:205-217 | the live context is handed out again, a new one otherwise, and it is cancelled exactly when deleting or when the parent is |
| Inbox.Alive.StopAlive | internal/agent/agent.go:219-226 | every context ever handed out is cancelled |
| Inbox.StepInv | internal/agent/agent.go:306-352 | every step of the intake, the main loop, pokes and cancellations keeps the invariant |
| Inbox.RunInv | internal/agent/agent.go:284-352 | so does every run, and what was stored, handed on and cancelled only grows |
| Inbox.NotOlderIsStored | internal/agent/agent.go:338-347 | a spec that is not older than one already received, also one of the same generation, is stored and signalled |
| Inbox.NoLostWakeUp | internal/agent/agent.go:147-161 | a spec that was not read yet is being signalled, has its signal pending or is about to be read; at rest the last spec stored was handed on |
| Inbox.SignalIsAnswered | internal/agent/agent.go:309-323 | a pending signal brings the loop to the last spec stored in two steps |
| Inbox.GenerationsNeverDecrease | internal/agent/agent.go:338-347 | the generations handed to handleSpec never decrease |
| Inbox.DeletionStopsAllWork | internal/agent/agent.go:348-350 | once the intake is past a deletion every context ever handed out, earlier or later, is cancelled |

## Left out

- tar, zstd, sha256, FNV, JSON and TOML are library code: the model has entry lists, contents as digests, and functions
  that say what a config means; path.Match is an arbitrary predicate on paths.
- HTTP, the event stream, the tunnel, docker, containerd, systemd, apt, ufw and rclone are inputs; internal/config,
  internal/firewall, internal/reconcile, internal/ctrd and internal/fetch would only add easy members.
- Message wording, logging, progress throttling, the detail of reports, keepReporting and the reporting of observed
  states to the backend.
- File modes of directories, umask, times of directories, and temporary files that a crash leaves beside their target
  (`.yougpu-tmp`), which `Undo` keeps apart and the other files do not have.
- Following an intermediate symlink in an include path: the include paths are required to be reached through real
  directories.
- Pack.Pack: when the counter can wrap, how much a refused selection holds is bounded, not determined.
- Restore.Restore: nothing is claimed about what a failed run leaves in the two staging folders; the next run removes them.
- Save.Manager.Save: the digest in the packed marker is tied to the archive within one process and over clean restarts,
  not over a crash in the middle of packing again.
- Jobs.OneJobAtATime: the content of a job's work is left to the other modules; Pending, the posted states and the wait
  for the container to start are not steps of the model, and Save's reads after its jobs have ended are one step with its
  packing and uploading.
- Lifecycle.RunPasses: poweroff and stopping the containers are not modelled; the error of stopping them is an input of Save.
- Unmount.Manager.Unmount: the direct mount mode and Disable, whose error is only logged.
- Download.PartialFile.Attempt: an error on writing to the local file counts as a cut body, and the Content-Range text is
  given as the number it starts with.
- Download.PartialFile.FetchVerified: errors on removing what an earlier download left and on reading the result back.
- Ranged.Run: a body that runs past the requested range, which RFC 9110 does not allow, and the choice between one stream
  and ranges with its size, HTML and disk space checks.
- ContentRetry.Manager.Pass: the plan of tasks, the files themselves and the settled flag.
- Remotes.RcloneConf.PutRemote: asking the backend for credentials and when to ask again.
- Undo.Manager.Switch: that commands run on the host do not change the four config files is taken for granted.
- Inbox.NoLostWakeUp: handing a spec on is a step that stays enabled, not a bound on time; the choices of select are
  arbitrary.
