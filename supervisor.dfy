/**
 * The supervision object: the fields the recorder window's controller
 * updates in place while it monitors, and its methods, each proved to
 * move the fields exactly as the matching function of module Engine says.
 */
module Supervisor {
  import opened Wrappers
  import opened Settings
  import opened Files
  import opened Processes
  import opened Engine

  class RecorderGuard {
    var firstCheckTime: Option<int>
    var secondCheckTime: Option<int>
    var lastFileUpdateTime: int
    var restartCount: nat
    var process: Proc

    /** The fields as one value. */
    function State(): GuardState
      reads this
    {
      GuardState(firstCheckTime, secondCheckTime, lastFileUpdateTime, restartCount, process)
    }

    /** A fresh controller: no process, nothing launched, baseline `now`. */
    constructor (now: int)
      ensures State() == GuardState(None, None, now, 0, NoProcess)
    {
      process := NoProcess;
      restartCount := 0;
      lastFileUpdateTime := now;
      firstCheckTime := None;
      secondCheckTime := None;
    }

    method ResetCheckStatus()
      modifies this
      ensures State() == ClearChecks(old(State()))
    {
      firstCheckTime := None;
      secondCheckTime := None;
    }

    /** Stops earlier copies, then launches the executable in the mode its
        suffix selects; `spawnOk` says whether the OS launch succeeds. */
    method StartExecFile(execPath: string, procs: seq<ProcInfo>, spawnOk: bool)
      returns (ok: bool, launch: Launch, killed: nat)
      modifies this
      ensures ok == spawnOk
      ensures launch == LaunchCommand(execPath)
      ensures killed == KilledCount(BaseName(execPath), procs)
      ensures State() == AfterSpawn(old(State()), spawnOk)
    {
      killed := KillExisting(execPath, procs);
      launch := LaunchCommand(execPath);
      if spawnOk {
        process := Running;
        restartCount := restartCount + 1;
        ResetCheckStatus();
        ok := true;
      } else {
        ok := false;
      }
    }

    /** Polls the handle: a running process that has died since the last
        poll is seen as exited. */
    method PollProcess(alive: bool)
      modifies this
      ensures State() == old(State()).(process := Polled(old(process), alive))
    {
      if process == Running && !alive {
        process := Exited;
      }
    }

    /** Relaunches when there is no running process. */
    method RestartExecIfNeeded(execPath: string, procs: seq<ProcInfo>, spawnOk: bool) returns (ok: bool)
      modifies this
      ensures ok == (old(process) == Running || spawnOk)
      ensures State() == AfterLivenessCheck(old(State()), spawnOk)
    {
      if process != Running {
        var launched, _, _ := StartExecFile(execPath, procs, spawnOk);
        return launched;
      }
      return true;
    }

    /** The restart used by both idle stages. */
    method RestartProcess(f: Features, c: Config, now: int, procs: seq<ProcInfo>, spawnOk: bool)
      modifies this
      ensures State() == AfterRestart(old(State()), f, now, spawnOk)
    {
      if f.processMonitor && process != NoProcess {
        process := NoProcess;
      }
      lastFileUpdateTime := now;
      ResetCheckStatus();
      if f.processMonitor {
        var _, _, _ := StartExecFile(c.execPath, procs, spawnOk);
      }
    }

    /** The two-stage idle check; reports which stages fired. */
    method ExecuteCheckMechanism(f: Features, c: Config, idle: int, now: int, procs: seq<ProcInfo>, spawnOk: bool)
      returns (stage1: bool, stage2: bool)
      modifies this
      ensures CheckResult(State(), stage1, stage2) == CheckStep(old(State()), f, c, idle, now, spawnOk)
    {
      stage1, stage2 := false, false;
      if !f.firstCheck && !f.secondCheck {
        return;
      }
      if secondCheckTime.Some? {
        return;
      }
      var firstDelay := FirstDelay(c);
      var secondDelay := SecondDelay(c);
      if f.firstCheck && idle >= firstDelay && firstCheckTime.None? {
        firstCheckTime := Some(now);
        stage1 := true;
        if f.processMonitor && process != Running {
          RestartProcess(f, c, now, procs, spawnOk);
          return;
        }
      }
      if f.secondCheck && idle >= secondDelay && firstCheckTime.Some? && secondCheckTime.None? {
        secondCheckTime := Some(now);
        stage2 := true;
        RestartProcess(f, c, now, procs, spawnOk);
      }
    }

    /** Scans the directory, moves the baseline forward on newer activity,
        then runs the idle check. */
    method CheckFileActivityAndProcess(f: Features, c: Config, now: int, dir: seq<FileEntry>,
                                       procs: seq<ProcInfo>, spawnOk: bool)
      returns (stage1: bool, stage2: bool)
      modifies this
      ensures CheckResult(State(), stage1, stage2) == ActivityStep(old(State()), f, c, now, dir, spawnOk)
    {
      var latest, latestFile := ScanLatest(dir, c.fileExtensions);
      if latest > lastFileUpdateTime && latest > 0 {
        lastFileUpdateTime := latest;
        ResetCheckStatus();
      }
      stage1, stage2 := ExecuteCheckMechanism(f, c, now - lastFileUpdateTime, now, procs, spawnOk);
    }

    /** One iteration of the monitoring loop. */
    method MonitorTick(f: Features, c: Config, t: TickInput, procs: seq<ProcInfo>)
      returns (stage1: bool, stage2: bool)
      modifies this
      ensures CheckResult(State(), stage1, stage2) == TickStep(old(State()), f, c, t)
    {
      PollProcess(t.alive);
      if f.processMonitor {
        var _ := RestartExecIfNeeded(c.execPath, procs, t.liveSpawnOk);
      }
      if f.fileActivity {
        stage1, stage2 := CheckFileActivityAndProcess(f, c, t.now, t.dir, procs, t.checkSpawnOk);
      } else {
        stage1, stage2 := false, false;
      }
    }

    /** Session start: reset, then the first launch when monitoring processes;
        a failed first launch ends the session. */
    method StartMonitoring(f: Features, c: Config, now: int, procs: seq<ProcInfo>, spawnOk: bool)
      returns (monitoring: bool)
      modifies this
      ensures Session(State(), monitoring) == StartSession(old(State()), f, now, spawnOk)
    {
      ResetCheckStatus();
      restartCount := 0;
      lastFileUpdateTime := now;
      if f.processMonitor {
        var ok, _, _ := StartExecFile(c.execPath, procs, spawnOk);
        monitoring := ok;
      } else {
        monitoring := true;
      }
    }

    /** The monitoring loop over the ticks that happen before it is stopped;
        returns when stage 1 and stage 2 fired. */
    method MonitoringLoop(f: Features, c: Config, ts: seq<TickInput>, procs: seq<ProcInfo>)
      returns (probes: seq<int>, forced: seq<int>)
      modifies this
      ensures RunResult(State(), probes, forced) == Run(old(State()), f, c, ts)
    {
      probes, forced := [], [];
      var k := 0;
      while k < |ts|
        invariant 0 <= k <= |ts|
        invariant Run(old(State()), f, c, ts) == Prepend(probes, forced, Run(State(), f, c, ts[k..]))
      {
        ghost var before := State();
        ghost var r := TickStep(before, f, c, ts[k]);
        RunAdvance(old(State()), before, f, c, ts, k, probes, forced);
        var stage1, stage2 := MonitorTick(f, c, ts[k], procs);
        assert State() == r.state && stage1 == r.stage1 && stage2 == r.stage2;
        var p := if stage1 then [ts[k].now] else [];
        var q := if stage2 then [ts[k].now] else [];
        probes, forced := probes + p, forced + q;
        k := k + 1;
      }
      assert ts[k..] == [];
    }

    /** Stopping drops the process handle after stopping it. */
    method StopMonitoring()
      modifies this
      ensures State() == old(State()).(process := NoProcess)
    {
      process := NoProcess;
    }
  }
}
