# Ubuntu Hello: a verified model of its hard parts

Ubuntu Hello lets a user authenticate with a face instead of a password. This
project models the parts of it whose correctness depends on interleavings,
loops over arbitrary input, or two pieces of code that must undo each other, and
proves with Dafny what they promise. `dafny verify dfyconfig.toml` checks all of
it. Nothing here was executed against the program itself.

## How the model is laid out

* **One authentication attempt.** `IdentifyRace` is the race inside `identify`
  (ubuntu-hello/src/pam/main.cc, lines 682-770 and 969-1084): the main thread,
  the thread that waits for compare.py, the thread that waits for a password, a
  mutex, a condition variable, and an environment that ends the child, answers
  the prompt, wakes sleepers spuriously and lets waits time out. One action is
  one step of one of them. `OptionalTask` is the class both threads are wrapped
  in. `ScanLoop` is compare.py's main loop, `Shutdown` its re-entrant exit and
  its idle watcher, `Rubberstamps` and `Nod` the liveness checks behind a match.
  `Authentication` puts the parts together: what a PAM result says about frames
  and stamps.
* **Notifications.** `Notifier` has any number of threads in `_notify` and
  `start`, with the two locks of the class; its critical sections are also
  written as methods of a class over the same fields.
* **Translation files.** `PoField` is the field printer and its two readers;
  `Markers` and `Protect` are the marker scheme around machine translation.
* **The INI editor.** `ConfigEdit` holds the line grammar and the editing loops,
  proved equal to a rewrite stated by positions; `ConfigLines` what single lines
  are; `ConfigRewrite`, `ConfigBool`, `ConfigLaws` and `ConfigFrame` what reading a written
  file gives, what a second write does, and exactly what stays as it was. `Text` reads a
  file the way text mode does, and splits and joins lines at every separator
  `str.splitlines` knows.
* **Resources.** `CameraProbe` is the hand-off of an opened camera between a
  worker and a caller that may have given up, over any number of concurrent calls
  with stale workers; `RootHelper` the pipes, reads and waits around a helper process.
* **Enrolment.** `Enrolment` is the guided capture and the flattened index.

Code that loops and updates is written as methods with loops; each is proved
equal to a function, and the theorems are about the function. Threads are state
machines: a function from a state and an action to the next state, invariants
kept by every action, and theorems over every sequence of actions.

## What the environment is taken to do

* `waitpid` in the waiter thread delivers the child's status. Its result is not
  checked at main.cc lines 979-980 and the status starts at 0, so a failing
  `waitpid` would read as a success.
* The clock of compare.py does not go backwards, and for the time bound no turn
  of the loop takes longer than a given d.
* Distances are arbitrary reals; a face counts by its best distance.
* A killed compare.py is reaped, so joining its waiter ends.
* The kernel hands out descriptors that are not in use.
* The INI editor is called with names: a key is not empty, has no blanks around
  it, no `=` and no `[`, `#` or `;` in front; a section is stripped and has no
  `]`; and neither they nor the value hold a line separator. Files are arbitrary.
* The URL and placeholder patterns of `protect` are parameters: a URL match stays
  in the text; a placeholder match begins with `{` or `%` and holds no bracket.
  A token is not empty, holds no bracket and is not U or P followed by digits
  only, which none of the lint's token patterns can produce.

## What the proofs brought to light

* `identify` returns PAM_IGNORE not only after a typed password: when
  `pam_get_authtok` itself answers PAM_IGNORE, that code is passed on
  (main.cc lines 1037-1039). `ResultsMean` gives the exact condition and
  `IgnoreWithoutPassword` a run.
* A value written with the INI editor is read back exactly when the write does
  not *glue*: when the section is the last one, lacks the key and ends without a
  newline, the new line is joined to the last one and the option is lost; a
  comment there is changed (`CommentsAreKeptExactly`)
  (config_edit.py lines 111-113; lines 115-116 guard only the other case).
* A write drops the indented lines after the old one as its value, section
  headers and other options among them (config_edit.py lines 12, 29-44 and 58).
  One write of k in `[a]` to a file with `k = 1`, an indented `[b]` and `x = 1`
  takes x from `[b]` and gives it to `[a]` (`HeaderIsDropped`).
  `OtherOptionIsKeptExactly` says, for every file and every other option, when
  its value is kept.
* Writing twice equals writing once exactly when the first write neither glued
  nor inserted its line directly before an indented section header, which the
  second write then *swallows* in the same way.
* When the stamps end a match, by the SystemExit of their verdict, and no overlay
  was shown, `cleanup` does not run at all: the camera is left to the end of the
  process, without the settling pause (compare.py lines 92-132, 465 and 754-770).
  In every other case it is released exactly once (`ReleaseIsAttemptedExactly`,
  `StampsLeaveTheCamera`).
* A distance of exactly zero is not a match (`0 < match`, compare.py line 689).
* `faildeadly` in another spelling lets a crash of the stamp pass, as faildeadly
  does, but a nod that times out denies, as failsafe does
  (rubberstamps/__init__.py lines 163 and 197; `OtherSpellingSplits`).
* A failsafe rule that does not parse, is not installed, has no class or crashes
  in its declaration is stepped over and lets the user through
  (rubberstamps/__init__.py lines 156-208). `SuccessMeansEveryFailsafeStampRan`
  says exactly when PAM_SUCCESS means that every failsafe stamp ran and passed.
* The number of samples stays within the announced total exactly when that total
  is at least one; with `max_samples` below one the first sample already exceeds it.

## Model

| member | source | states |
|---|---|---|
| OptionalTask.StopSettles | ubuntu-hello/src/pam/optional_task.hh:49-77 | A stopped task is safe to destroy, stopping it again changes nothing, and get() may be called exactly when it had been started |
| OptionalTask.Task.constructor | ubuntu-hello/src/pam/optional_task.hh:10-29 | A new task has never been started |
| OptionalTask.Task.Activate | ubuntu-hello/src/pam/optional_task.hh:32-36 | Activation makes it spawned, active and joinable |
| OptionalTask.Task.Stop | ubuntu-hello/src/pam/optional_task.hh:59-77 | Joins exactly an active joinable thread, cancels it only when forced, and leaves a task that was never started alone |
| OptionalTask.Task.Destroy | ubuntu-hello/src/pam/optional_task.hh:79-83 | From every state a task can be in, the destructor leaves nothing joinable |
| IdentifyRace.StepKeepsInv | ubuntu-hello/src/pam/main.cc:969-1084 | Every step of every thread and of the environment keeps the invariant: who holds the mutex, who justified the confirmation, no lost wakeup, task flags as the program point says, status is the child's |
| IdentifyRace.ReachableInv | ubuntu-hello/src/pam/main.cc:969-1084 | So the invariant holds after every run |
| IdentifyRace.ConfirmationIsWriteOnce | ubuntu-hello/src/pam/main.cc:981-1005 | Once set, confirmation_type never changes again, over any further run |
| IdentifyRace.SafeEverywhere | ubuntu-hello/src/pam/main.cc:1022-1062 | In every reachable state: main asleep with a value set has a notify still to come; get() meets a stopped, started task whose thread has ended; the unlocked read of confirmation_type comes after it was set; compare's group was signalled before its waiter is joined for a password, and never when compare won |
| IdentifyRace.ResultsMean | ubuntu-hello/src/pam/main.cc:1028-1084 | PAM_SUCCESS if and only if compare won and exited 0; PAM_IGNORE if and only if the password task ended with PAM_SUCCESS and won or the child failed, or won with PAM_IGNORE itself |
| IdentifyRace.ResultIsExact | ubuntu-hello/src/pam/main.cc:1028-1084 | The code of every return, by who won, how compare ended and what the prompt answered: the password's own code with success turned into PAM_IGNORE, PAM_SUCCESS for exit 0, and otherwise PAM_IGNORE or PAM_AUTH_ERR after a failed face |
| IdentifyRace.IgnoreWithoutPassword | ubuntu-hello/src/pam/main.cc:1034-1042 | A run that returns PAM_IGNORE although the prompt was refused |
| IdentifyRace.NothingLeftRunning | ubuntu-hello/src/pam/main.cc:1028-1084 | On every return the waiter is joined, the password thread is joined, cancelled and joined, or was never started, and the mutex is free |
| IdentifyRace.StepLowersRank | ubuntu-hello/src/pam/main.cc:745-770 | Every step but a spurious wakeup brings identify nearer to its end, the Enter retries included |
| IdentifyRace.RunsAreBounded | ubuntu-hello/src/pam/main.cc:1022-1084 | No run is longer than its spurious wakeups allow |
| IdentifyRace.NoDeadlock | ubuntu-hello/src/pam/main.cc:1022-1084 | Until identify returns, some step other than a spurious wakeup is possible |
| IdentifyRace.CanAlwaysReturn | ubuntu-hello/src/pam/main.cc:1022-1084 | From every reachable state a cooperating child and prompt lead to a return |
| IdentifyRace.ReturnsUnaided | ubuntu-hello/src/pam/main.cc:682-770 | Once the password has won identify can return although compare dies only by SIGKILL, and once compare has won, with the native workaround or without a prompt, although nobody answers the prompt |
| IdentifyRace.SuccessIsReached | ubuntu-hello/src/pam/main.cc:975-1084 | Under every setup identify has a run on an exit 0 of compare that returns PAM_SUCCESS |
| IdentifyRace.EnterIsRetried | ubuntu-hello/src/pam/main.cc:745-769 | With the input workaround an unanswered prompt is left to the user only after five timed-out waits, each after an Enter press, unless the device fails |
| ScanLoop.ScanFaces | ubuntu-hello/src/compare.py:669-695 | One frame counts at most once however many faces match, lowest_certainty becomes the minimum over the faces looked at, and a match is decided when enough frames agree |
| ScanLoop.RunScan | ubuntu-hello/src/compare.py:553-695 | The loop computes the fold Scan over the turns, with its counters, recognition clock and time-out codes |
| ScanLoop.ScanStops | ubuntu-hello/src/compare.py:588-604 | After the loop has left, further frames change nothing |
| ScanLoop.WhileRunning | ubuntu-hello/src/compare.py:553-695 | While it runs: the recognition clock is that of the first usable frame and unset exactly while dark_tries equals valid_frames, the count is the number of matching frames, the certainty the minimum of all distances looked at, no time check has fired |
| ScanLoop.LeavesExactly | ubuntu-hello/src/compare.py:58-74 | At the next turn it leaves exactly if a time check fires, with 13 if and only if no usable frame was ever seen and 11 otherwise, or if this frame completes the matches needed |
| ScanLoop.RunsExactlyWhile | ubuntu-hello/src/compare.py:559-695 | It still runs exactly if every time check held and fewer frames matched than are needed |
| ScanLoop.WaitsForFirstFrame | ubuntu-hello/src/compare.py:531-533 | Before a usable frame it times out, with 13, exactly when the configured time has passed; when that is negative, exactly when twice the timeout and the timeout plus six seconds have both passed |
| ScanLoop.RecognisesForTheTimeout | ubuntu-hello/src/compare.py:58-74 | After the first usable frame it times out, with 11, exactly when the timeout has passed since that frame |
| ScanLoop.Boundaries | ubuntu-hello/src/compare.py:620-689 | A frame at the darkness threshold is usable and a black one is not; a distance of zero or of the certainty itself is no match; any distance between makes a usable frame match |
| ScanLoop.CountIsCardinality | ubuntu-hello/src/compare.py:689-695 | The count is the number of different frames that hold a match |
| ScanLoop.MatchedMeans | ubuntu-hello/src/compare.py:689-777 | A match means max(1, confirmations) different usable frames within the threshold |
| ScanLoop.LeavesInTime | ubuntu-hello/src/compare.py:552-639 | On every stream of black, dark and usable frames, with turns of at most d, the loop leaves by loop_start + acquisition_timeout + timeout + 2d |
| ScanLoop.NeverRunsPastTheBound | ubuntu-hello/src/compare.py:552-639 | A stream that goes on past the bound has been left |
| Shutdown.StepKeepsInv | ubuntu-hello/src/compare.py:92-151 | Every step and every signal, nested to any depth, keeps who set the flag, what runs above it, how often the camera was released and whether the overlay is up |
| Shutdown.ReleaseIsAttemptedExactly | ubuntu-hello/src/compare.py:92-111 | For every placement and nesting of signals a run that has ended released an open camera exactly once, unless a SystemExit from the stamps ended it with no overlay to clean up for |
| Shutdown.StampsLeaveTheCamera | ubuntu-hello/src/compare.py:754-770 | In that case, undisturbed, the camera is never released |
| Shutdown.NoOverlayIsLeft | ubuntu-hello/src/compare.py:113-124 | However the process ends, no overlay is left running |
| Shutdown.FinalCode | ubuntu-hello/src/compare.py:126-151 | The final code is the caller's or 12; through exit it is the caller's exactly when exit and not a handler set the flag |
| Shutdown.SignalBeforeCleanupAborts | ubuntu-hello/src/compare.py:135-151 | A signal that comes before cleanup has set its flag makes the process exit 12, whatever was decided and whatever comes after |
| Shutdown.StepEndsOrLowers | ubuntu-hello/src/compare.py:92-151 | Every step ends the process or brings its end nearer |
| Shutdown.AlwaysExits | ubuntu-hello/src/compare.py:92-151 | With finitely many signals the process exits, after at most twelve steps and seven more for each signal |
| Shutdown.UndisturbedExit | ubuntu-hello/src/compare.py:126-132 | Without a signal it exits within twelve steps, with the code that was decided |
| Shutdown.WatchSessionIdle | ubuntu-hello/src/compare.py:228-263 | The watcher signals at most once, exactly at the first idle reading that follows a busy one with no three unknown readings in a row before and no cleanup seen |
| Rubberstamps.RunStamp | ubuntu-hello/src/rubberstamps/__init__.py:107-131 | Leaves with 15 exactly if the verdict is False or the stamp crashed under a failsafe rule, and with the stamp's own code if it called sys.exit |
| Rubberstamps.Execute | ubuntu-hello/src/rubberstamps/__init__.py:134-223 | Leaves with the code of the first rule that denies or ends the process, and with 0 when there is none; rules stepped over do not count |
| Rubberstamps.FirstStop | ubuntu-hello/src/rubberstamps/__init__.py:146-217 | The first rule that denies or ends the process, none before it |
| Rubberstamps.AcceptedExactly | ubuntu-hello/src/rubberstamps/__init__.py:107-223 | Code 0 if and only if no rule execute came to denied or left with another code |
| Rubberstamps.EveryFailsafeStampRan | ubuntu-hello/src/rubberstamps/__init__.py:156-217 | When authentication goes through, every failsafe stamp ran and passed if and only if no failsafe rule is stepped over, is a setup that left with 0, or comes after something that left with 0 |
| Rubberstamps.OnlySteppingOverAccepts | ubuntu-hello/src/rubberstamps/__init__.py:156-217 | For stamps that never leave with 0 on their own, if and only if no failsafe rule is stepped over |
| Rubberstamps.MissingStampAccepts | ubuntu-hello/src/rubberstamps/__init__.py:165-168 | A failsafe rule for a stamp that is not installed lets the user through |
| Nod.DominantMove | ubuntu-hello/src/rubberstamps/nod.py:20-43 | Missing anchors become the nose, the axis is the one that moved strictly further with x first, the movement a percentage of the eye distance |
| Nod.TurnInLoop | ubuntu-hello/src/rubberstamps/nod.py:98-114 | One turn on anchors and directions as kept in the dictionaries is one turn on the looks they come from |
| Nod.Consider | ubuntu-hello/src/rubberstamps/nod.py:93-114 | The loop body on anchors and directions does what the step Turn does, verdict included |
| Nod.RunNod | ubuntu-hello/src/rubberstamps/nod.py:61-116 | The loop computes the fold After, with the time-out verdict and the reset after a gap |
| Nod.AlwaysSound | ubuntu-hello/src/rubberstamps/nod.py:85-114 | At every look the recorded legs of both axes are sound, in order, and no older than the anchors |
| Nod.ShortGapKeepsAnchors | ubuntu-hello/src/rubberstamps/nod.py:93-107 | After a gap of up to 0.7 seconds an anchor stays, and moves to this look exactly if the nose is beyond the bar from it and went further along this axis than along the other, y needing strictly further |
| Nod.LongGapTakesNewAnchors | ubuntu-hello/src/rubberstamps/nod.py:93-96 | After a longer gap both anchors are taken at this look and it records nothing |
| Nod.LastSeenIsLastFace | ubuntu-hello/src/rubberstamps/nod.py:88-96 | A gap is measured from the last look with a face |
| Nod.FurtherAxis | ubuntu-hello/src/rubberstamps/nod.py:31-42 | The axis that counts does not depend on the eyes: y exactly if the nose went strictly further there |
| Nod.SwingsDecide | ubuntu-hello/src/rubberstamps/nod.py:85-114 | A face at every look, gaps up to 0.7 seconds, one axis: the verdict, yes along y and no along x, stands exactly once the swings beyond min_distance percent of the eye distance have changed direction often enough |
| Nod.ZigzagDecides | ubuntu-hello/src/rubberstamps/nod.py:85-114 | A nose that goes back and forth beyond the bar at every look gets the verdict exactly at the look that completes min_directions legs |
| Nod.DirectionsAlternate | ubuntu-hello/src/rubberstamps/nod.py:103-107 | For all trajectories recorded directions strictly alternate per axis |
| Nod.ConfirmedMeansNods | ubuntu-hello/src/rubberstamps/nod.py:109-116 | With failsafe, True means at least min_directions alternating y legs, each beyond min_distance percent of the eye distance from its anchor |
| Nod.OneWayNeverConfirms | ubuntu-hello/src/rubberstamps/nod.py:93-113 | A nose moving one way in y has at most one y leg and never confirms when two are needed, across resets and changing eye distance |
| Authentication.TimeOutCode | ubuntu-hello/src/compare.py:579-604 | A loop that timed out leaves with 11 or 13, never 0 |
| Authentication.ZeroMeansRecognised | ubuntu-hello/src/compare.py:669-777 | compare exits 0, under any signals and whatever non-zero code it may leave with early, only after enough different frames matched and no stamp that ran refused |
| Authentication.LeavesEarlyOrScans | ubuntu-hello/src/compare.py:559-604 | An early exit keeps its code; otherwise compare still scans exactly while every time check holds and too few frames match |
| Authentication.LateMeansTimeOut | ubuntu-hello/src/compare.py:579-604 | Undisturbed, a scan whose time is up first exits 13 if it saw no usable frame and 11 otherwise |
| Authentication.MatchInTimeExitsZero | ubuntu-hello/src/compare.py:689-777 | Undisturbed, a scan that reaches the needed number of different matching frames in time exits 0 exactly if no stamp that ran refuses, always when stamps are off, and 15 when one denies |
| Authentication.OneGoodFrame | ubuntu-hello/src/compare.py:669-777 | With one confirmation and no stamps, one bright enough frame in time with a face between zero and the threshold makes compare exit 0 |
| Authentication.CameraIsClosed | ubuntu-hello/src/compare.py:92-132 | Under any signals compare ends with its camera closed, released once, and no overlay, unless stamps ended a match with no overlay shown |
| Authentication.RecognisedUserGetsIn | ubuntu-hello/src/pam/main.cc:975-1084 | For every recognised user and every setup identify has a run on that compare that returns PAM_SUCCESS |
| Authentication.SuccessMeansRecognised | ubuntu-hello/src/pam/main.cc:975-1084 | Over every interleaving, stream of frames, set of stamps and placement of signals, PAM_SUCCESS implies exit 0 and a recognised user |
| Authentication.SuccessMeansEveryFailsafeStampRan | ubuntu-hello/src/rubberstamps/__init__.py:156-217 | PAM_SUCCESS means that every failsafe stamp ran and passed if and only if no failsafe rule was stepped over, for stamps that never leave with 0 on their own |
| Authentication.SuccessMeansNodded | ubuntu-hello/src/rubberstamps/nod.py:61-116 | With a failsafe nod rule among the stamps and none before it that left with 0 on its own, PAM_SUCCESS also implies that the user nodded |
| Authentication.ZigzagSettlesTheRule | ubuntu-hello/src/rubberstamps/nod.py:61-116 | A nose that goes up and down settles a nod rule in favour and one that goes from side to side against it, whatever the rule's third field |
| Authentication.OtherSpellingSplits | ubuntu-hello/src/rubberstamps/__init__.py:163-197 | Under another spelling of faildeadly a crash passes and a nod that times out denies; under the exact spelling neither denies |
| Notifier.AuthNotifier.constructor | ubuntu-hello/src/notify.py:178-215 | A new notifier has the saved id, no watchdog and is not finalized |
| Notifier.AuthNotifier.Cancel | ubuntu-hello/src/notify.py:280-288 | The watchdog on record is forgotten and killed |
| Notifier.AuthNotifier.Announcing | ubuntu-hello/src/notify.py:311-316 | A result finalizes and kills the watchdog; a late progress card is refused |
| Notifier.AuthNotifier.Claiming | ubuntu-hello/src/notify.py:320-326 | Under the second lock an in-progress card is dropped if a result was announced, any card if sends are off; else it gets the id to replace |
| Notifier.AuthNotifier.Recording | ubuntu-hello/src/notify.py:344-355 | A failure switches sends off; a non-zero new id is kept |
| Notifier.AuthNotifier.Arming | ubuntu-hello/src/notify.py:474-478 | A watchdog is put on record only while not finalized, sends work and an id is known; otherwise none is left on record |
| Notifier.LocksKept | ubuntu-hello/src/notify.py:311-355 | Each lock is held by exactly the thread that is inside its section, for any number of threads |
| Notifier.FinalKept | ubuntu-hello/src/notify.py:311-323 | Every step keeps: results only after progress cards, a result sent means finalized, a thread about to send progress has seen no result sent |
| Notifier.IdKept | ubuntu-hello/src/notify.py:320-356 | Every step keeps: each send replaces the last non-zero id returned, no send after a failed one, the state lags only while the sender holds the send lock |
| Notifier.WatchdogsKept | ubuntu-hello/src/notify.py:280-288 | With one start(), every step keeps: a live watchdog is the one on record, and none is alive once finalized |
| Notifier.StepKeepsInv | ubuntu-hello/src/notify.py:290-356 | Every step of every thread keeps all of these |
| Notifier.RunKeepsInv | ubuntu-hello/src/notify.py:290-356 | So does every run, with threads entering at any time |
| Notifier.CardsAreConsistent | ubuntu-hello/src/notify.py:290-356 | Over every run: all progress cards precede all result cards, each replaces the last non-zero id (at first the saved one), only the last send failed, and with one start() no watchdog survives a result |
| Notifier.EveryResultIsSent | ubuntu-hello/src/notify.py:290-356 | Over every run without a failed send: a result call that is done has got exactly one card out, marked final; an in-progress call has, exactly if no result had been announced at its second check; without one, a result has been announced |
| Notifier.DisabledSendsNothing | ubuntu-hello/src/notify.py:296-297 | With notifications off no run sends a card |
| Notifier.ArmsExactly | ubuntu-hello/src/notify.py:474-478 | The last section of start() brings its watchdog to life exactly if no result was announced, sends work, an id is known and a process can be spawned |
| Notifier.StartComesToArm | ubuntu-hello/src/notify.py:464-478 | Over every run without a failed send, a start() whose card went out has come to that section before it is done |
| Notifier.OnlyResultsKillIt | ubuntu-hello/src/notify.py:280-316 | With one start(), a watchdog once alive stays alive until a result is announced |
| Notifier.ThreadsAreBounded | ubuntu-hello/src/notify.py:290-356 | A thread is through after at most thirteen steps of its own |
| Notifier.SomeThreadMoves | ubuntu-hello/src/notify.py:311-355 | With both locks in any state, while some thread is not done some thread can move |
| PoField.EscapeIsPerCharacter | scripts/i18n-fill-translations.py:106-113 | The five replacements in a row are one replacement per character |
| PoField.CutPoint | scripts/i18n-fill-translations.py:181-189 | A chunk ends with the string, else after 70 characters, or before the backslashes that end these 70 unless they are all there is |
| PoField.ChunkEnd | scripts/i18n-fill-translations.py:181-189 | The inner loop finds the end of the chunk, backing off from backslashes |
| PoField.FormatStringField | scripts/i18n-fill-translations.py:172-193 | The printing loop prints the field's pieces as quoted lines, every character once |
| PoField.CutIsBetweenPairs | scripts/i18n-fill-translations.py:184-189 | A cut after a character that is no backslash, or after an even run of backslashes at the start, splits no escape pair |
| PoField.ChunksConcatenate | scripts/i18n-fill-translations.py:180-191 | The chunks of every string concatenate to it |
| PoField.ChunksAreLexemes | scripts/i18n-fill-translations.py:180-191 | Each chunk of an escaped string is a self-contained quoted lexeme, including chunks of backslashes only |
| PoField.ChunksAreCuts | scripts/i18n-fill-translations.py:180-191 | Every printed chunk is cut so off what the chunks before it left |
| PoField.PrintedOverSeveralLines | scripts/i18n-fill-translations.py:172-193 | A field goes over several lines exactly if it is no msgctxt and its value holds a newline, holds a backslash before an n, or is longer than 72 with its special characters counted twice |
| PoField.EscapedShape | scripts/i18n-fill-translations.py:106-113 | An escaped string has one character more for each special one and no line break or tab of its own |
| PoField.PiecesAreLexemes | scripts/i18n-fill-translations.py:172-193 | The printed pieces concatenate to the escaped value and are all lexemes |
| PoField.Unescape | scripts/i18n-fill-translations.py:83-103 | The decoding loop computes Unescaped, with its malformed hexadecimal case |
| PoField.UnescapeUndoesEscape | scripts/i18n-fill-translations.py:83-113 | unescape(escape(s)) is s for every s |
| PoField.LetterTable | scripts/i18n-fill-translations.py:89-92 | The letters a, b, t, n, v, f, r decode to the characters 7 to 13 in that order, a backslash and a quote to themselves, and no other letter is in the table |
| PoField.PotRoundTrip | scripts/i18n-fill-translations.py:132-137 | Joining the printed lines of a field and unescaping gives its value back, for every tag and value |
| PoField.EntryRoundTrip | scripts/i18n-fill-translations.py:132-137 | Every printed entry comes back with its context, except the one whose msgid is empty, which is dropped |
| PoField.PartsOfLexemes | scripts/i18n-lint.py:216-225 | findall over printed lines finds exactly the printed bodies |
| PoField.DecodeUndoesEscape | scripts/i18n-lint.py:226-228 | The lint's own decoder undoes escape for every string |
| PoField.ReadersAgree | scripts/i18n-lint.py:212-228 | The two readers decode every string without a hexadecimal escape alike, printed by the filler or not |
| PoField.JoinQuotedRoundTrip | scripts/i18n-lint.py:216-228 | Decoding every printed chunk on its own and joining gives every value back |
| Markers.KeysDiffer | scripts/i18n_fill_data/mt_fill_all.py:74-81 | Markers are fresh: URL and placeholder keys of any index never coincide |
| Markers.KeyIsPrefixFree | scripts/i18n_fill_data/mt_fill_all.py:97-103 | A key stands at a place in a text only if its own marker does |
| Markers.ReplaceIsSubst | scripts/i18n_fill_data/mt_fill_all.py:99-102 | str.replace of a key is substitution of its marker, nothing else |
| Markers.SubstExpands | scripts/i18n_fill_data/mt_fill_all.py:97-103 | Putting one part back does not change what the text stands for |
| Markers.Unprotect | scripts/i18n_fill_data/mt_fill_all.py:97-103 | The two restoring loops, URLs first, compute Unprotected |
| Markers.EveryMarkComesBack | scripts/i18n_fill_data/mt_fill_all.py:97-103 | However a translator rearranges the text around intact markers, every part comes back where its marker stands |
| Protect.ReSub | scripts/i18n_fill_data/mt_fill_all.py:73-88 | re.sub with a callback: the matches from the left in order, numbered as they are found |
| Protect.ProtectText | scripts/i18n_fill_data/mt_fill_all.py:59-94 | The three kinds of passes compute Protected, a token without a match leaving no marker |
| Protect.PassIsWoven | scripts/i18n_fill_data/mt_fill_all.py:73-88 | Each pass puts its keys, in order, in the place of the leftmost matches that do not overlap, covering every position that matches, and copies the rest |
| Protect.TokensAreHidden | scripts/i18n_fill_data/mt_fill_all.py:89-94 | In its turn a token gets a slot exactly if it stands somewhere in the text, and then that slot's key stands at all its leftmost matches; otherwise nothing changes |
| Protect.ProtectHides | scripts/i18n_fill_data/mt_fill_all.py:59-94 | The whole of protect: URLs of the text, then placeholders of what is left, under numbered keys at all leftmost matches, then the tokens' turns with slots counted on |
| Protect.StandsBetween | scripts/i18n_fill_data/mt_fill_all.py:90-91 | A token between two texts matches exactly if neither neighbour is a word character |
| Protect.TokenSkipsKeys | scripts/i18n_fill_data/mt_fill_all.py:89-93 | A token between word boundaries matches nowhere inside a marker |
| Protect.SubTracks | scripts/i18n_fill_data/mt_fill_all.py:73-93 | A pass over a text with markers leaves what the text stands for as it was |
| Protect.TokensComeBack | scripts/i18n_fill_data/mt_fill_all.py:89-103 | Whatever the tokens and their order, hiding them changes nothing in what unprotect gives back |
| Protect.UnprotectUndoesProtect | scripts/i18n_fill_data/mt_fill_all.py:59-103 | unprotect undoes protect on every text without the two brackets |
| Text.SplitIsLossless | ubuntu-hello/src/config_edit.py:142-150 | Splitting at newlines, or at every separator of splitlines, loses nothing and gives well-formed lines |
| Text.JoinThenSplit | ubuntu-hello/src/config_edit.py:142-150 | Writing well-formed lines and splitting again gives the same lines, for both kinds of line ends |
| Text.UniversalNewlines | ubuntu-hello/src/config_edit.py:147-148 | A text read in text mode holds no carriage return |
| Text.ReturnBecomesNewline | ubuntu-hello/src/config_edit.py:147-148 | The first carriage return, with the line feed after it if there is one, reads as one line feed |
| ConfigEdit.InsertBeforeTrailingBlanks | ubuntu-hello/src/config_edit.py:21-26 | The line goes before the blank lines at the end, wherever they start |
| ConfigEdit.ConsumeOldValue | ubuntu-hello/src/config_edit.py:47-62 | The scan stops at the end of the value and keeps exactly its comments |
| ConfigEdit.ReplaceInPlace | ubuntu-hello/src/config_edit.py:65-98 | One pass gives the rewrite stated by positions, or the lines as they were when the section is missing or last and without the key |
| ConfigEdit.RewriteLines | ubuntu-hello/src/config_edit.py:101-119 | In all three cases the output is the input with the old key line and its non-comment continuation lines removed and one line (or one section) added |
| ConfigEdit.ReplacesOldValue | ubuntu-hello/src/config_edit.py:47-98 | An option that is there: its line and the indented lines after it give way to the new line and the comments among them, and nothing else changes |
| ConfigEdit.AddsToSection | ubuntu-hello/src/config_edit.py:21-26 | A section without the option gets the line after its last line that is not blank |
| ConfigEdit.AddsSection | ubuntu-hello/src/config_edit.py:111-119 | A missing section comes at the end after a blank line, an unended last line being ended first |
| ConfigEdit.KeepsCommentsOnly | ubuntu-hello/src/config_edit.py:47-62 | Of an old value exactly the indented comments stay |
| ConfigLines.OneKeyPerLine | ubuntu-hello/src/config_edit.py:17-18 | A line is the line of at most one option |
| ConfigLines.WrittenLine | ubuntu-hello/src/config_edit.py:15-18 | The written line is the option's line and no header, comment or continuation |
| ConfigLines.WrittenValue | ubuntu-hello/src/config_edit.py:15-18 | The value read from the written line is the value, stripped |
| ConfigLines.WrittenHeader | ubuntu-hello/src/config_edit.py:115-117 | The written header is read as the section's header |
| ConfigLines.GluedIsNotKeyLine | ubuntu-hello/src/config_edit.py:111-113 | A line the new one was joined to is not the option's line |
| ConfigRewrite.GetBool | ubuntu-hello/src/config_edit.py:154-171 | The scan finds the first match in the section, or gives the default |
| ConfigRewrite.ReadBackLines | ubuntu-hello/src/config_edit.py:101-119 | In the rewritten lines the first match is the written line, whatever the file held |
| ConfigRewrite.WrittenAsRead | ubuntu-hello/src/config_edit.py:142-150 | A write adds no carriage return, so text mode reads back what was written |
| ConfigRewrite.FileLines | ubuntu-hello/src/config_edit.py:142-150 | Unless the write glues, the file read again has the rewritten lines, whatever separators it holds |
| ConfigRewrite.GluedLines | ubuntu-hello/src/config_edit.py:111-113 | A glued write joins the last line, which no separator ends, and the new one |
| ConfigRewrite.GluedIsLost | ubuntu-hello/src/config_edit.py:111-113 | After it the option is not found |
| ConfigRewrite.SetThenRead | ubuntu-hello/src/config_edit.py:101-171 | For every file: set, then read, and the value comes back exactly if the write does not glue, else nothing does |
| ConfigBool.GetBoolOfFile | ubuntu-hello/src/config_edit.py:154-171 | Reads the file's lines without their ends; a file that cannot be opened gives the default |
| ConfigBool.LookupBare | ubuntu-hello/src/config_edit.py:157-170 | Keeping the line ends or not makes no difference to what is found and to its truth |
| ConfigBool.SetThenGetBool | ubuntu-hello/src/config_edit.py:101-171 | For every file: get_bool after set_option is the default if the write glues, and otherwise whether the written value, cut at # and ;, is a word for true |
| ConfigBool.SwitchComesBack | ubuntu-hello-gtk/src/tab_notifications.py:41-58 | A switch written as true or false reads back as it was set, for every file on which the write does not glue |
| ConfigLaws.LastWriteWins | ubuntu-hello/src/config_edit.py:65-119 | On line lists, rewriting to v1 and then v2 equals rewriting to v2 if and only if the first write does not put its line directly before an indented header |
| ConfigLaws.LastWriteWinsInFile | ubuntu-hello/src/config_edit.py:142-150 | The same through the file, if and only if in addition the write does not glue; idempotence is the case v1 = v2 |
| ConfigFrame.OtherOptionIsKeptExactly | ubuntu-hello/src/config_edit.py:47-150 | For every file and every other option: its value is kept if and only if it is found before the old line, or the lines dropped with the old value make no difference to it, or, when the write glues, the joined line is not that option's |
| ConfigFrame.OtherOptionsKeepTheirValue | ubuntu-hello/src/config_edit.py:47-98 | In particular when the write does not glue and drops neither a header nor that option's line |
| ConfigFrame.HeaderIsDropped | ubuntu-hello/src/config_edit.py:47-62 | A file on which one write moves an option from one section to another, although it neither glues nor swallows |
| ConfigFrame.GluedReads | ubuntu-hello/src/config_edit.py:111-113 | In a glued write only an option of this section changes, exactly if the joined line reads as its line and none before does |
| ConfigFrame.CommentsSurvive | ubuntu-hello/src/config_edit.py:29-62 | The rewritten list, before its lines are joined, holds every comment, in order, in all cases |
| ConfigFrame.CommentsAreKeptExactly | ubuntu-hello/src/config_edit.py:101-150 | Through the file: every comment is kept, in order, if and only if the write does not glue its line to a last line that is a comment |
| ConfigFrame.CommentIsGlued | ubuntu-hello/src/config_edit.py:111-113 | A two-line file that ends in a comment without a newline, on which a write changes the comment |
| ConfigFrame.GlueExample | ubuntu-hello/src/config_edit.py:111-113 | A two-line file on which a write glues |
| ConfigFrame.SwallowExample | ubuntu-hello/src/config_edit.py:47-62 | A two-line file on which the second write swallows the next header |
| CameraProbe.ProbeState.constructor | ubuntu-hello-gtk/src/onboarding.py:116-117 | Each call starts with a fresh pending state |
| CameraProbe.ProbeState.WorkerSection | ubuntu-hello-gtk/src/onboarding.py:126-137 | The worker hands its capture over, or is told to release it |
| CameraProbe.ProbeState.CallerSection | ubuntu-hello-gtk/src/onboarding.py:143-150 | The caller takes what was handed over, or gives the call up |
| CameraProbe.StepKeepsInv | ubuntu-hello-gtk/src/onboarding.py:116-150 | Every step of any of the concurrent callers and workers, stale ones included, keeps: each capture is in transit, returned or released by its worker, exactly one of the three, once |
| CameraProbe.HandedOverExactlyOnce | ubuntu-hello-gtk/src/onboarding.py:116-150 | Once its worker has finished and the call is over, a capture was returned or released by the worker, never both and never neither |
| CameraProbe.WhoGetsIt | ubuntu-hello-gtk/src/onboarding.py:126-150 | Over every run: a capture is returned only if its read succeeded; once both sides are through it was returned exactly if the read succeeded and the worker came to the lock first, and released by the worker exactly otherwise |
| CameraProbe.EverythingReleasedOnce | ubuntu-hello-gtk/src/onboarding.py:444-492 | When all calls are over and all workers have finished, of any number of scans, every capture ever opened has been released exactly once and nothing else has |
| RootHelper.Kernel.Pipe2 | ubuntu-hello/src/pam/main.cc:295-303 | Opens two free descriptors and counts them |
| RootHelper.Kernel.Close | ubuntu-hello/src/pam/main.cc:273-278 | Closes an open descriptor, never one that is not open |
| RootHelper.CloseFd | ubuntu-hello/src/pam/main.cc:273-278 | Closes a descriptor the field names and marks the field unused, keeping the fields' ownership |
| RootHelper.CloseAll | ubuntu-hello/src/pam/main.cc:285-291 | Afterwards exactly the descriptors of before the call are open |
| RootHelper.OpenPair | ubuntu-hello/src/pam/main.cc:295-303 | One pipe2 fills both fields or leaves everything as it was |
| RootHelper.OpenHelperPipes | ubuntu-hello/src/pam/main.cc:295-303 | All pipes asked for are open and owned, or none is |
| RootHelper.FeedHelper | ubuntu-hello/src/pam/main.cc:360-370 | The input and a newline are written if the stream opens, and the descriptor is closed either way |
| RootHelper.ReadAll | ubuntu-hello/src/pam/main.cc:404-412 | What the loop read has the same first line as all that could be read |
| RootHelper.ReadHelper | ubuntu-hello/src/pam/main.cc:400-416 | The output is the first line of the first 255 bytes received, the same for every way the stream is cut into chunks |
| RootHelper.EnoughRead | ubuntu-hello/src/pam/main.cc:406-415 | Bytes after a newline or after the limit do not matter |
| RootHelper.UpToNewlineMeans | ubuntu-hello/src/pam/main.cc:415 | The output is the one prefix without a newline that ends the text or stands before a newline |
| RootHelper.FirstLineMeans | ubuntu-hello/src/pam/main.cc:398-416 | The output is the one prefix without a newline, at most 255 long, that ends the text, has length 255, or stands before a newline |
| RootHelper.FirstConclusive | ubuntu-hello/src/pam/main.cc:432-445 | The first poll that found the helper ended or the deadline passed |
| RootHelper.WaitForHelper | ubuntu-hello/src/pam/main.cc:432-445 | The wait ends at that poll: with waitpid's answer and status, or with the helper killed and -1 |
| RootHelper.Converse | ubuntu-hello/src/pam/main.cc:495-501 | After a successful spawn the input is fed, the output read, and no end is left open |
| RootHelper.RunRootHelper | ubuntu-hello/src/pam/main.cc:460-506 | On every path every pipe end opened is closed exactly once and no other descriptor is touched; the code is the status only if the helper ran, ended in time and the uids came back, else -1 |
| Enrolment.IsDuplicate | ubuntu-hello/src/enroll_capture.py:52-57 | True exactly if some stored descriptor is nearer than the tolerance |
| Enrolment.Capture.constructor | ubuntu-hello/src/enroll_capture.py:116-118 | The first sample is stored and announced as 1 of the total |
| Enrolment.Capture.Store | ubuntu-hello/src/enroll_capture.py:95-97 | A sample is appended and announced under its number |
| Enrolment.Capture.Step | ubuntu-hello/src/enroll_capture.py:77-97 | One step computes AfterStep over the shots before its deadline and announces each new sample once, in order |
| Enrolment.Capture.Run | ubuntu-hello/src/enroll_capture.py:120-132 | The walk computes AfterSteps, and emits for each step begun its guide line, its prompt and its counts, in that order |
| Enrolment.CaptureGuidedSamples | ubuntu-hello/src/enroll_capture.py:100-132 | Samples and all emitted lines of the whole capture, with the total announced |
| Enrolment.StepsSeparate | ubuntu-hello/src/enroll_capture.py:77-132 | Stored descriptors stay pairwise at least the tolerance apart |
| Enrolment.StepCovers | ubuntu-hello/src/enroll_capture.py:77-97 | A step that ends by its deadline has missed nothing: each single face it saw is stored or within the tolerance of a stored one |
| Enrolment.StepsCover | ubuntu-hello/src/enroll_capture.py:100-132 | A capture below the cap has walked every step: each single face a step saw is stored or within the tolerance of a stored one, or that step gave all the samples it was to give |
| Enrolment.StepStoresWhatItSaw | ubuntu-hello/src/enroll_capture.py:77-97 | What a step adds are single faces it saw |
| Enrolment.StepsExtend | ubuntu-hello/src/enroll_capture.py:77-132 | Samples are only appended, at most so many a step, and never past the cap |
| Enrolment.CountsAreExact | ubuntu-hello/src/enroll_capture.py:116-132 | The counts of all progress lines are 1, 2, ... up to the number of samples |
| Enrolment.StepsAreSpoken | ubuntu-hello/src/enroll_capture.py:120-132 | The user is led through the steps in order, guide line before prompt, through all of them unless the cap is reached |
| Enrolment.NeverMoreThanAnnounced | ubuntu-hello/src/enroll_capture.py:116-132 | The number of samples stays within the announced total if and only if that total is at least one; the samples are separated and begin with the first |
| Enrolment.FlattenModels | ubuntu-hello/src/enroll_capture.py:140-152 | Every descriptor of every model is at its model's offset in the flat list, owned by that model, and the list holds nothing else |
| Enrolment.FlatIsOrdered | ubuntu-hello/src/enroll_capture.py:140-152 | Flat positions are ordered as model and position within the model, and differ for different pairs |
| Enrolment.PositionOf | ubuntu-hello/src/enroll_capture.py:140-152 | Every flat position is some model's descriptor |
| Enrolment.NearestOwner | ubuntu-hello/src/enroll_capture.py:140-152 | The owner of a nearest flat entry is a model that holds a descriptor nearest of all |

## Left out

- ConfigRewrite.SetThenRead: section, key and value hold no line separator; a value with one is written as several lines, which is not modelled.
- CameraProbe.EverythingReleasedOnce: a scan that raises between the probe and its release (onboarding.py lines 487-492 have no finally) never releases its capture; such a call is never over in the model.
- Notifier.CardsAreConsistent: the claim about watchdogs is for one start() per notifier, which is how compare.py uses it; a second start() would forget the first watchdog without killing it.
- Protect.UnprotectUndoesProtect: the regular expressions for URLs, placeholders and literal tokens are not modelled, only what the proof needs of their matches; tokens come in the order they are tried.
- PoField.PotRoundTrip: the value of a `\x` escape is a parameter, since escape never writes one; the whole-file patterns, comments, flags and plural entries of a catalogue are not modelled.
- ScanLoop.RunScan: a face is its best distance and a frame its darkness; detectors, histograms, rotation and scaling are not modelled.
- RootHelper.RunRootHelper: what setreuid, posix_spawn and the file actions do is not modelled beyond their success; reads interrupted by signals are one read; the four descriptor fields lie in one array.
- IdentifyRace.SafeEverywhere: threads are values of a state machine and not Dafny objects; preflight, the face-skip marker, messages and the keyring token are not modelled.
- Shutdown.FinalCode: the overlay process and the settling sleep are single steps that always return.
- Deadlock freedom when the signal handler notifies on a thread already inside `_notify`: the code does not give it.
- A watchdog after a result whose send fails: the code has already killed it.
- That Enter is only sent while a prompt is pending: the code also sends it when no password task was started.
- File modes, temporary files and atomic replacement of the configuration file.
- Windows, themes, D-Bus, systemd, udev, TPM tools, encryption, recorders, installers and translation packs: foreign calls, constants and data.
- The texts shown for exit codes, user and service lookups, and the choice of the number of confirmations: constants, tables and calls into the system.
