# Supervision engine of auto-process-guard, modelled in Dafny

auto-process-guard is a desktop tool that keeps a recorder-like program
running and watches the directory it writes to. Its controller object
(`OneKeyRecorderGUI`) does four things:

- It relaunches the program when the program exits.
- It restarts the program when no tracked file has changed for too long.
  This uses a two-stage idle check. Stage 1 probes liveness. Stage 2
  forces a restart.
- It deletes old `.ts` files past a retention window.
- It accepts and loads its configuration.

This project models that supervision engine without the window, the threads
or the operating-system calls.

Modules, one file each:

- `wrappers.dfy` (`Wrappers`): `Option`, for Python's `None`.
- `strings.dfy` (`Strings`): the `str` operations the engine uses. These
  are `lower`, `endswith`, substring `in`, `join`, `split(",")` and `strip()`.
- `settings.dfy` (`Settings`): the configuration record and its defaults.
  Also the merge done by `load_config`, and the dialog's save action. That
  action corrects the second delay and normalises the extensions.
- `files.dfy` (`Files`): the watched directory as a walk-ordered sequence of
  entries (name, modification time, whether deletion succeeds). On it run
  the activity scan (`ScanLatest`) and the retention sweep (`CleanupFiles`).
  Both are loops proved against recursive specification functions.
- `processes.dfy` (`Processes`): the launch mode chosen by suffix, and the
  duplicate-process match predicate. Also the counting loop of
  `kill_existing_processes`, run over a snapshot of the process table.
- `engine.dfy` (`Engine`): the supervision state (`GuardState`: the two
  stage stamps, the idle baseline, the launch counter, the process) and
  each operation as a pure transition function. It also holds the lemmas
  about them: single calls, whole runs of loop ticks, and two timed
  scenarios.
- `supervisor.dfy` (`Supervisor`): class `RecorderGuard`. Its fields are
  those the source updates in place. Each method is proved to change them
  exactly as the matching `Engine` function says.

Inputs the source obtains from the environment are parameters:

- the current time, in whole seconds;
- the feature switches and the configuration;
- the directory listing;
- the process-table snapshot;
- whether the managed process is still alive when a tick polls it;
- whether each launch succeeds.

The idle time is measured in whole seconds. The source truncates a float
difference with `int()` (auto-process-guard.py:455). With integer times
the two agree.

Consequences of the code that the proofs make explicit:

- A process that exits is relaunched by the liveness check on the next
  tick (auto-process-guard.py:410-418), not by stage 1. The launch clears
  the stage stamps but not the idle baseline. So stage 1 later finds the
  new process alive, and stage 2 restarts it once the idle time reaches the
  second delay. `Engine.ScenarioExitedProcess` proves this for an exit at
  t0 + 5 with delays of 10 and 20 seconds.
- The early return on an already-set stage-2 stamp (auto-process-guard.py:478-479)
  is never taken. Stage 2 sets the stamp, and the restart it calls clears it
  again within the same call. `Engine.RunKeepsSecondStampClear` proves this
  over any run.
- The configured `check_interval` is never read by the monitoring loop,
  which waits a fixed second per tick.
- The sweeper deletes only `.ts` files, whatever extensions are tracked for
  activity (`Files.CleanupSuffix`).
- An executable path ending in `/` passes the existence test at
  auto-process-guard.py:210 when it names a directory. Its base name is
  then empty. `Processes.Matches` shows that an empty name matches every
  process that has a name or a command line, so the duplicate sweep that
  precedes every launch (auto-process-guard.py:334) would try to stop all
  of them.

## Model

| member | source | states |
|---|---|---|
| `Strings.Lower` | auto-process-guard.py:337-345 | `str.lower` keeps the length, leaves no upper-case ASCII letter, and changes a character only by folding an upper-case letter to its lower-case one |
| `Strings.Contains` | auto-process-guard.py:384-392 | Python's substring `in` is true exactly when the needle occurs at some index of the haystack |
| `Strings.JoinLength` | auto-process-guard.py:383 | `" ".join` holds every part plus one separator per gap between parts, and starts with the first part; an empty list joins to the empty string |
| `Strings.Split` | auto-process-guard.py:658 | `split(",")` yields at least one piece, no piece holds a comma, and joining the pieces with commas gives the text back |
| `Strings.Strip` | auto-process-guard.py:658 | `strip()` never lengthens the text and leaves no whitespace (Python's `isspace` set) at either end |
| `Strings.StripIsTrimmedSlice` | auto-process-guard.py:658 | `strip()` returns a contiguous slice of the text, and everything it cuts off at either end is whitespace |
| `Strings.ContainsInJoin` | auto-process-guard.py:383-385 | a substring of one command-line argument is a substring of the space-joined command line |
| `Strings.SplitJoin` | auto-process-guard.py:658 | splitting a comma-join of comma-free pieces gives back exactly those pieces |
| `Settings.CorrectSecondDelay` | auto-process-guard.py:649-652 | after acceptance the second delay is strictly greater than the first; it is kept when already greater, otherwise set to first + 5 |
| `Settings.NormaliseExtension` | auto-process-guard.py:659 | the stored extension starts with a dot, is the input with at most one dot prepended, and is unchanged when the input already starts with a dot |
| `Settings.ParseExtensions` | auto-process-guard.py:658-659 | one extension per comma-separated piece; the i-th is the i-th piece stripped, with a dot added when it lacks one; each starts with a dot and holds no comma |
| `Settings.ExtensionsRoundTrip` | auto-process-guard.py:658-659 | the dialog shows the extensions comma-joined (line 626); for a non-empty list of dotted, comma-free extensions without trailing whitespace (the defaults, or any list a save produced), saving that text unchanged stores the same list |
| `Settings.ParseExtensionsIdempotent` | auto-process-guard.py:658-659 | saving the dialog a second time without edits leaves the extension list as the first save made it |
| `Settings.SaveConfigAsWritten` | auto-process-guard.py:643-664 | the save action as written: it closes exactly when all four numbers parse; a rejected delay or cleanup value changes nothing; once those three parse, cleanup, first delay and the corrected second delay are stored even when the interval is then rejected, in which case interval and extensions keep their old values; on closing, the interval and the parsed extensions are stored too |
| `Settings.SaveConfigAsWrittenPartialUpdate` | auto-process-guard.py:654-657 | as written, a rejected check interval leaves cleanup hours and both delays already stored while the save reports an error |
| `Settings.SaveConfig` | auto-process-guard.py:643-664 | all-or-nothing save: it closes exactly when all four numbers parse, and otherwise nothing changes; on success cleanup, first delay and interval are stored as entered, the second delay is the corrected one (greater than the first), and the extensions are the parsed list; paths are kept |
| `Settings.SaveConfigAgreesExceptPartial` | auto-process-guard.py:654-657 | the as-written and the all-or-nothing save differ exactly when the three leading numbers parse, the interval does not, and the as-written save changed the configuration |
| `Settings.MergeConfig` | auto-process-guard.py:752-763 | loading lays the saved dictionary over the defaults: saved keys win, every default key stays present, and a missing or unreadable file yields the defaults |
| `Files.Tracked` | auto-process-guard.py:432 | a file is tracked when its lower-cased name ends with some lower-cased extension; no file is tracked when the list is empty, and a tracked name is at least as long as some extension in the list |
| `Files.LatestMtime` | auto-process-guard.py:428-440 | the scan result is 0 or more, at least every tracked readable modification time, and when positive it is the time of some tracked entry |
| `Files.ScanLatest` | auto-process-guard.py:426-440 | the scanning loop returns that maximum; a file is named exactly when it is positive, and the file named is the first in walk order with that time |
| `Files.Survivors` | auto-process-guard.py:570-577 | the directory after a sweep is no longer than before and holds no entry the sweep deletes (a `.ts` name in any case, an mtime strictly before the cutoff, a delete that succeeds) |
| `Files.SurvivorsExactly` | auto-process-guard.py:570-582 | an entry survives a sweep exactly when it was there and is not a removable stale `.ts` file |
| `Files.SweptCount` | auto-process-guard.py:570-582 | the deletion count equals the number of entries removed from the directory |
| `Files.CleanupFiles` | auto-process-guard.py:565-587 | the sweep loop keeps exactly the entries not (`.ts` in any case, mtime strictly before now − hours·3600, delete succeeds); its count is the number removed; failed reads and deletes are skipped and the sweep continues |
| `Files.SweepSparesFreshAndUntracked` | auto-process-guard.py:573-576 | non-`.ts` files and files not older than the cutoff are never deleted |
| `Files.SweepOneHourBoundary` | auto-process-guard.py:568-576 | with one hour of retention a `.TS` file 3601 s old is deleted and a `.ts` file 3599 s old is kept |
| `Processes.ChooseLaunch` | auto-process-guard.py:337-358 | the shell is chosen exactly for a lower-cased `.bat` or `.cmd` suffix; bash exactly for `.sh` when no batch suffix applies; otherwise direct |
| `Processes.LaunchCommand` | auto-process-guard.py:337-358 | the argument vector is `["bash", path]` in bash mode and `[path]` otherwise; a shell is used exactly in shell mode |
| `Processes.LaunchIgnoresCase` | auto-process-guard.py:337-345 | the launch mode depends only on the lower-cased path |
| `Processes.LaunchBySuffix` | auto-process-guard.py:337-358 | any path ending in `.bat` or `.cmd` in any case goes through the shell, and any path ending in `.sh` in any case through bash |
| `Processes.BaseName` | auto-process-guard.py:376 | the base name is the suffix of the path after its last slash and holds no slash |
| `Processes.Matches` | auto-process-guard.py:382-392 | only a process with a command line or a name can match; an empty executable name matches every such process |
| `Processes.MatchByArgument` | auto-process-guard.py:382-385 | a process with an argument containing the executable name matches, whatever its name |
| `Processes.MatchByNameIgnoresCase` | auto-process-guard.py:391-392 | without a command line, matching ignores the case of both the executable name and the process name |
| `Processes.MatchCaseDependsOnSource` | auto-process-guard.py:382-392 | the command-line test is case-sensitive (`REC.EXE` in the command line does not match `rec.exe`) while the name test is not |
| `Processes.KilledCount` | auto-process-guard.py:379-398 | no more processes are counted as stopped than the snapshot holds |
| `Processes.KilledAtMostMatches` | auto-process-guard.py:379-398 | the count never exceeds the number of matches, and equals it when every stop succeeds |
| `Processes.KillExisting` | auto-process-guard.py:373-406 | the loop's `killed_count` is the number of matching processes whose stop returned without error |
| `Engine.ClearChecks` | auto-process-guard.py:546-550 | a reset clears both stage stamps and nothing else |
| `Engine.AfterSpawn` | auto-process-guard.py:330-371 | a successful launch leaves a running process, raises the launch counter by exactly 1 and clears both stamps; a failed one changes nothing; neither moves the idle baseline |
| `Engine.AfterLivenessCheck` | auto-process-guard.py:408-419 | a running process is left alone; otherwise a launch is attempted |
| `Engine.AfterRestart` | auto-process-guard.py:516-544 | a restart always sets the baseline to the current time and clears both stamps; only with process monitoring on does it drop the handle and launch (counter +1 on success, no process on failure) |
| `Engine.FirstDelay` | auto-process-guard.py:481 | the stage-1 threshold is the configured delay but at least 1 s |
| `Engine.SecondDelay` | auto-process-guard.py:482 | the stage-2 threshold is the configured delay but at least stage 1 + 5 s |
| `Engine.CheckStep` | auto-process-guard.py:468-514 | a check that fires nothing changes nothing; a stage fires only once the idle time reaches the stage-1 threshold; stage 2 always ends in a restart (baseline now, stamps cleared); the counter never drops; with monitoring on and the launch succeeding, a running process stays running |
| `Engine.CheckInertUnlessArmed` | auto-process-guard.py:474-479 | with both checks off, or with a stage-2 stamp set, the idle check changes nothing and fires nothing |
| `Engine.Stage1Exactly` | auto-process-guard.py:484-488 | stage 1 fires exactly when first-check is on, idle ≥ max(1, first delay) and no stage-1 stamp is set (so at most once between resets); without a restart it records the current time as stamp |
| `Engine.Stage1DeadRestarts` | auto-process-guard.py:491-499 | with monitoring on and the process absent or exited, stage 1 restarts at once and does not evaluate stage 2 |
| `Engine.Stage2Exactly` | auto-process-guard.py:503-511 | stage 2 fires exactly when second-check is on, idle ≥ the stage-2 threshold, a stage-1 stamp exists and stage 1 did not just restart; it then restarts whether or not the process is alive |
| `Engine.Stage2NeedsStage1` | auto-process-guard.py:503-507 | stage 2 never fires unless stage 1 fired earlier or in the same call, hence never with first-check off |
| `Engine.BothStagesInOneCall` | auto-process-guard.py:491-511 | with process monitoring off, one call whose idle time reaches the stage-2 threshold fires both stages and restarts |
| `Engine.CheckLeavesSecondStampClear` | auto-process-guard.py:506-511 | a call that starts without a stage-2 stamp never ends with one |
| `Engine.AfterActivity` | auto-process-guard.py:442-449 | the baseline never decreases; it moves exactly on a strictly newer, positive modification time, to that time, and each move clears both stamps |
| `Engine.ActivityStep` | auto-process-guard.py:421-458 | scan, baseline update and check: the baseline never moves back; the counter never drops; no stage fires while some tracked file with a positive mtime is younger than the stage-1 threshold |
| `Engine.ActivityResetsStages` | auto-process-guard.py:442-455 | newer activity resets both stages before the idle check, which then measures idle time from that activity |
| `Engine.Polled` | auto-process-guard.py:410 | a poll sees a process as exited exactly when it had exited or was running and has died, and as running exactly when it was running and is alive |
| `Engine.LivenessProcess` | auto-process-guard.py:410-419 | after poll and liveness check the process is running whenever monitoring is on and the relaunch succeeds; when the relaunch fails, or without monitoring, it is just the polled state |
| `Engine.TickStep` | auto-process-guard.py:308-323 | one loop iteration (poll, liveness check when monitoring, activity step when watching files) never lowers the counter, and with monitoring on and both launches succeeding leaves the process running whatever it did before |
| `Engine.NoIdleRestartWhenChecksOff` | auto-process-guard.py:308-323 | with both checks off a tick fires no stage; the counter rises exactly when monitoring is on, the poll finds no running process and the relaunch succeeds; the process ends as `Engine.LivenessProcess` says |
| `Engine.TickLeavesSecondStampClear` | auto-process-guard.py:308-323 | a tick that starts without a stage-2 stamp never ends with one |
| `Engine.TickWithoutFirstCheck` | auto-process-guard.py:308-323 | with first-check off a tick never sets a stage-1 stamp and never fires a stage |
| `Engine.TickForcedUsesProbe` | auto-process-guard.py:484-511 | in one tick, a stage-2 firing plus the stage-1 stamp left afterwards never exceed a stage-1 firing plus the stamp found |
| `Engine.Run` | auto-process-guard.py:308-323 | a run of ticks records at most one probe and one forced restart per tick |
| `Engine.RunCountsUp` | auto-process-guard.py:308-323 | over any sequence of ticks, including ticks where the process dies, the launch counter is monotonic |
| `Engine.RunKeepsSecondStampClear` | auto-process-guard.py:476-479 | over any run from a state without a stage-2 stamp, including runs where the process dies, the stamp is never left set, so this early return is dead |
| `Engine.RunWithoutFirstCheckNeverForces` | auto-process-guard.py:503-507 | with first-check off no run ever fires a stage, whatever the second-check switch, the delays and the process exits |
| `Engine.RunWithChecksOffNeverFires` | auto-process-guard.py:474-476 | with both checks off no run fires any stage, and the counter rises by exactly the successful liveness relaunches, counted by following the process alone through polls and relaunches (`Engine.LivenessRelaunches`) |
| `Engine.RunForcedNeedsProbe` | auto-process-guard.py:484-511 | over any run, forced restarts never outnumber stage-1 probes, plus one for a stamp already set at the start |
| `Engine.RunKeepsProcessUp` | auto-process-guard.py:308-323 | with monitoring on and every launch succeeding, the process is running after any non-empty run, however often it dies along the way |
| `Engine.StartSession` | auto-process-guard.py:222-233 | a session starts with both stamps cleared, counter 0 and baseline now; with monitoring on, a successful first launch (lines 300-303) leaves the process running with counter 1, and a failed one ends the session; otherwise the process is left as it was |
| `Engine.SessionStartIsLaunched` | auto-process-guard.py:222-233 | a session started with every feature on and a successful first launch (lines 300-303) is the scenarios' start state `Engine.Launched`, whatever state came before |
| `Engine.ScenarioAliveButIdle` | auto-process-guard.py:468-511 | the default delays 10/20, a live process and no files for 25 s after launch at t0: exactly one stage-1 probe at t0+10, one forced restart at t0+20, counter 2, baseline t0+20 |
| `Engine.ScenarioExitedProcess` | auto-process-guard.py:408-419 | one run from the launch at t0 with the default delays 10/20 in which the poll at t0+5 finds the process dead: it is relaunched in that tick (counter 2), stage 1 at t0+10 finds it alive, and stage 2 restarts at t0+20 (counter 3) |
| `Supervisor.RecorderGuard.constructor` | auto-process-guard.py:22-33 | a new controller has no process, counter 0, baseline now and no stamps |
| `Supervisor.RecorderGuard.ResetCheckStatus` | auto-process-guard.py:546-550 | the fields move as `Engine.ClearChecks` |
| `Supervisor.RecorderGuard.StartExecFile` | auto-process-guard.py:330-371 | returns the launch outcome, the launch command for the suffix and the duplicate count; the fields move as `Engine.AfterSpawn` |
| `Supervisor.RecorderGuard.PollProcess` | auto-process-guard.py:410 | polling turns a running process that has died into an exited one and changes no other field |
| `Supervisor.RecorderGuard.RestartExecIfNeeded` | auto-process-guard.py:408-419 | returns true when the process was running or the relaunch succeeded; the fields move as `Engine.AfterLivenessCheck` |
| `Supervisor.RecorderGuard.RestartProcess` | auto-process-guard.py:516-544 | the fields move as `Engine.AfterRestart` |
| `Supervisor.RecorderGuard.ExecuteCheckMechanism` | auto-process-guard.py:468-514 | the fields and the fired stages are those of `Engine.CheckStep` |
| `Supervisor.RecorderGuard.CheckFileActivityAndProcess` | auto-process-guard.py:421-458 | scan, baseline update and idle check move the fields as `Engine.ActivityStep` |
| `Supervisor.RecorderGuard.MonitorTick` | auto-process-guard.py:308-323 | one loop iteration (poll, liveness check, activity step) moves the fields as `Engine.TickStep` |
| `Supervisor.RecorderGuard.StartMonitoring` | auto-process-guard.py:222-233 | session reset plus first launch (lines 300-303) move the fields as `Engine.StartSession` |
| `Supervisor.RecorderGuard.MonitoringLoop` | auto-process-guard.py:306-323 | the loop over the ticks before stop leaves the fields, and returns the stage firing times, of `Engine.Run` |
| `Supervisor.RecorderGuard.StopMonitoring` | auto-process-guard.py:270-279 | stopping drops the process handle and changes nothing else |

## Findings

| source | as written | input that shows it | evidently intended | confidence | as-written member | corrected member |
|---|---|---|---|---|---|---|
| auto-process-guard.py:654-657 | the save action stores cleanup hours and both delays before it converts the check interval; a non-numeric interval then raises, the error dialog appears and the window stays open, but the three fields are already changed in the live configuration | cleanup `1`, first delay `3`, second delay `2`, interval `abc`: the live configuration now has cleanup 1 h and delays 3/8 although the save reported an error | a rejected entry changes nothing | medium, not executed | `Settings.SaveConfigAsWrittenPartialUpdate` | `Settings.SaveConfig` |

## Left out

- Windows, widgets, log and status texts, and the log and status queues are presentation only.
- Threads and the `time.sleep` pauses are not modelled. One tick or one call is modelled at a time. All reads of the clock within a tick share one `now`, and the 2-second pause before a relaunch is not visible.
- The cleanup thread's schedule is not modelled: a sweep every 10 s while the session runs, gated by the `auto_cleanup` switch. One sweep is modelled (`Files.CleanupFiles`).
- `subprocess.Popen`, `poll`, `terminate`, `wait` and `kill` are replaced by the abstract `Proc` state, a per-tick liveness input and a launch-outcome parameter. Exit codes are not kept.
- A tick polls the process once. The source polls again at stage 1 (auto-process-guard.py:493). A process that dies between the two polls of one tick is seen by the model on the next tick.
- `Processes.KillExisting` counts stopped duplicates but does not remove them from any process table. Whether a stop call raises is an input flag.
- `psutil.process_iter` is replaced by a snapshot sequence. A missing name and an empty name are the same value, and so are a missing command line and an empty one. Python treats each pair alike.
- `os.walk`, `os.path.getmtime` and `os.remove` are replaced by the entry sequence. Paths are reduced to base names.
- Modification times and the clock are whole seconds, not floats.
- `Strings.Lower` folds only ASCII letters, where Python's `str.lower` folds all of Unicode.
- `Processes.BaseName` splits on `/` only. Windows' `os.path.basename` also splits on `\` and drive colons.
- `int()` parsing of the dialog's number fields is not modelled. Each field arrives already converted, or as None when `int()` would raise.
- Reading and writing the JSON configuration file is not modelled. Only the merge of an already-read dictionary is (`Settings.MergeConfig`).
- Configuration values of the wrong type in a hand-edited file are not modelled. The source would catch the resulting exception inside the check.
- The path checks in `start_monitoring` are not modelled: they test whether the executable and directory exist.
- The feature dialog, which flips switches between ticks, is not modelled. Switches are a parameter of each call.
- Catch-all exception handlers around the check and the restart are not modelled. Only the error paths the model names are: a failed launch, an unreadable or undeletable file, and a process whose stop raises.
