/**
 * The supervision engine as pure state transitions.  A `GuardState` holds
 * what the monitoring loop keeps between ticks: the two idle-check stamps,
 * the idle baseline (time of the newest file activity, or of the last forced
 * restart), the launch counter and the state of the managed process.
 *
 * Each function below is one operation of the engine applied to that state;
 * the imperative class in module Supervisor is proved to follow them.
 * Feature switches, configuration, the current time in whole seconds, the
 * directory contents and whether a launch succeeds are parameters.
 */
module Engine {
  import opened Wrappers
  import opened Settings
  import opened Files

  /** The managed process as the supervisor knows it: no handle, a handle
      whose process is still running, or a handle whose process has exited. */
  datatype Proc = NoProcess | Running | Exited

  /** The five feature switches. */
  datatype Features = Features(
    processMonitor: bool,
    fileActivity: bool,
    autoCleanup: bool,
    firstCheck: bool,
    secondCheck: bool)

  const AllOn: Features := Features(true, true, true, true, true)

  datatype GuardState = GuardState(
    firstCheckTime: Option<int>,
    secondCheckTime: Option<int>,
    lastFileUpdateTime: int,
    restartCount: nat,
    process: Proc)

  /** Both idle-check stamps cleared; nothing else touched. */
  function ClearChecks(s: GuardState): (r: GuardState)
    ensures r.firstCheckTime.None? && r.secondCheckTime.None?
    ensures r.lastFileUpdateTime == s.lastFileUpdateTime && r.restartCount == s.restartCount
    ensures r.process == s.process
  {
    s.(firstCheckTime := None, secondCheckTime := None)
  }

  /** After a launch attempt: a success leaves a running process, one more
      launch counted and both stamps cleared; a failure changes nothing.
      The idle baseline is never touched by a launch. */
  function AfterSpawn(s: GuardState, ok: bool): (r: GuardState)
    ensures ok ==> r.process == Running && r.restartCount == s.restartCount + 1
                   && r.firstCheckTime.None? && r.secondCheckTime.None?
    ensures !ok ==> r == s
    ensures r.lastFileUpdateTime == s.lastFileUpdateTime
  {
    if ok then ClearChecks(s.(process := Running, restartCount := s.restartCount + 1)) else s
  }

  /** The liveness check of the loop: a process that is not running is relaunched. */
  function AfterLivenessCheck(s: GuardState, ok: bool): (r: GuardState)
    ensures s.process == Running ==> r == s
    ensures s.process != Running ==> r == AfterSpawn(s, ok)
  {
    if s.process != Running then AfterSpawn(s, ok) else s
  }

  /** The common restart: the baseline moves to `now` and both stamps are
      cleared in every case; only with process monitoring on is the old
      handle dropped and a new launch attempted. */
  function AfterRestart(s: GuardState, f: Features, now: int, ok: bool): (r: GuardState)
    ensures r.lastFileUpdateTime == now && r.firstCheckTime.None? && r.secondCheckTime.None?
    ensures f.processMonitor ==> r.process == (if ok then Running else NoProcess)
                                 && r.restartCount == s.restartCount + (if ok then 1 else 0)
    ensures !f.processMonitor ==> r.process == s.process && r.restartCount == s.restartCount
  {
    var dropped := if f.processMonitor && s.process != NoProcess then s.(process := NoProcess) else s;
    var reset := ClearChecks(dropped.(lastFileUpdateTime := now));
    if f.processMonitor then AfterSpawn(reset, ok) else reset
  }

  /** The stage-1 threshold: the configured delay, at least one second. */
  function FirstDelay(c: Config): (d: int)
    ensures d >= 1 && d >= c.firstCheckDelay
    ensures d == 1 || d == c.firstCheckDelay
  {
    if c.firstCheckDelay < 1 then 1 else c.firstCheckDelay
  }

  /** The stage-2 threshold: the configured delay, at least five seconds past stage 1. */
  function SecondDelay(c: Config): (d: int)
    ensures d >= FirstDelay(c) + 5 && d >= c.secondCheckDelay
    ensures d == FirstDelay(c) + 5 || d == c.secondCheckDelay
  {
    var first := FirstDelay(c);
    if c.secondCheckDelay < first + 5 then first + 5 else c.secondCheckDelay
  }

  /** The state after a check, and which stages fired during it. */
  datatype CheckResult = CheckResult(state: GuardState, stage1: bool, stage2: bool)

  /** The detector is active: some check is switched on and no stage-2 stamp is set. */
  predicate Armed(s: GuardState, f: Features)
  {
    (f.firstCheck || f.secondCheck) && s.secondCheckTime.None?
  }

  /** Stage 1 is due: switched on, idle long enough, not yet fired since the last reset. */
  predicate Stage1Due(s: GuardState, f: Features, c: Config, idle: int)
  {
    f.firstCheck && idle >= FirstDelay(c) && s.firstCheckTime.None?
  }

  /** At stage 1 the process is judged dead: monitored and not running. */
  predicate FoundDead(s: GuardState, f: Features)
  {
    f.processMonitor && s.process != Running
  }

  /** The two-stage idle check for an idle time of `idle` seconds at time `now`. */
  function CheckStep(s: GuardState, f: Features, c: Config, idle: int, now: int, ok: bool): (r: CheckResult)
    ensures !r.stage1 && !r.stage2 ==> r.state == s
    ensures r.stage1 || r.stage2 ==> idle >= FirstDelay(c)
    ensures r.stage2 ==> r.state.lastFileUpdateTime == now
                         && r.state.firstCheckTime.None? && r.state.secondCheckTime.None?
    ensures r.state.restartCount >= s.restartCount
    ensures f.processMonitor && ok && s.process == Running ==> r.state.process == Running
  {
    if !Armed(s, f) then
      CheckResult(s, false, false)
    else
      var stage1 := Stage1Due(s, f, c, idle);
      var s1 := if stage1 then s.(firstCheckTime := Some(now)) else s;
      if stage1 && FoundDead(s, f) then
        CheckResult(AfterRestart(s1, f, now, ok), true, false)
      else
        var stage2 := f.secondCheck && idle >= SecondDelay(c) && s1.firstCheckTime.Some? && s1.secondCheckTime.None?;
        if stage2 then
          CheckResult(AfterRestart(s1.(secondCheckTime := Some(now)), f, now, ok), stage1, true)
        else
          CheckResult(s1, stage1, false)
  }

  /** With both checks off, or with a stage-2 stamp already set, the check changes nothing. */
  lemma CheckInertUnlessArmed(s: GuardState, f: Features, c: Config, idle: int, now: int, ok: bool)
    requires (!f.firstCheck && !f.secondCheck) || s.secondCheckTime.Some?
    ensures CheckStep(s, f, c, idle, now, ok) == CheckResult(s, false, false)
  {
  }

  /** Stage 1 fires exactly when the detector is armed and stage 1 is due, so
      at most once between resets; when it fires and does not restart, it
      records `now` as the stage-1 stamp. */
  lemma Stage1Exactly(s: GuardState, f: Features, c: Config, idle: int, now: int, ok: bool)
    ensures var r := CheckStep(s, f, c, idle, now, ok);
            && (r.stage1 <==> Armed(s, f) && Stage1Due(s, f, c, idle))
            && (s.firstCheckTime.Some? ==> !r.stage1)
            && (r.stage1 && !FoundDead(s, f) && !r.stage2 ==>
                  r.state == s.(firstCheckTime := Some(now)))
  {
  }

  /** A stage-1 check that finds the process dead restarts at once and skips stage 2. */
  lemma Stage1DeadRestarts(s: GuardState, f: Features, c: Config, idle: int, now: int, ok: bool)
    requires Armed(s, f) && Stage1Due(s, f, c, idle) && FoundDead(s, f)
    ensures var r := CheckStep(s, f, c, idle, now, ok);
            && r.stage1 && !r.stage2
            && r.state.lastFileUpdateTime == now
            && r.state.firstCheckTime.None? && r.state.secondCheckTime.None?
            && r.state.process == (if ok then Running else NoProcess)
            && r.state.restartCount == s.restartCount + (if ok then 1 else 0)
  {
  }

  /** Stage 2 fires exactly when it is switched on, the idle time reaches its
      threshold, a stage-1 stamp exists (from before or from this call) and
      stage 1 did not just restart; it then restarts whatever the liveness. */
  lemma Stage2Exactly(s: GuardState, f: Features, c: Config, idle: int, now: int, ok: bool)
    ensures var r := CheckStep(s, f, c, idle, now, ok);
            && (r.stage2 <==>
                  && Armed(s, f) && f.secondCheck && idle >= SecondDelay(c)
                  && (s.firstCheckTime.Some? || Stage1Due(s, f, c, idle))
                  && !(Stage1Due(s, f, c, idle) && FoundDead(s, f)))
            && (r.stage2 ==> r.state == AfterRestart(s, f, now, ok))
  {
  }

  /** Stage 2 never fires unless stage 1 fired before or in the same call;
      in particular never with the first check switched off and no stamp. */
  lemma Stage2NeedsStage1(s: GuardState, f: Features, c: Config, idle: int, now: int, ok: bool)
    ensures var r := CheckStep(s, f, c, idle, now, ok);
            r.stage2 ==> s.firstCheckTime.Some? || r.stage1
    ensures !f.firstCheck && s.firstCheckTime.None? ==> !CheckStep(s, f, c, idle, now, ok).stage2
  {
  }

  /** Without process monitoring, stage 1 does not stop the call: a long
      enough idle time fires both stages in one call. */
  lemma BothStagesInOneCall(s: GuardState, c: Config, now: int, ok: bool)
    requires s.firstCheckTime.None? && s.secondCheckTime.None?
    ensures var f := AllOn.(processMonitor := false);
            var r := CheckStep(s, f, c, SecondDelay(c), now, ok);
            r.stage1 && r.stage2 && r.state == AfterRestart(s, f, now, ok)
  {
  }

  /** A check leaves no stage-2 stamp behind when there was none: stage 2
      sets it and its restart clears it again. */
  lemma CheckLeavesSecondStampClear(s: GuardState, f: Features, c: Config, idle: int, now: int, ok: bool)
    requires s.secondCheckTime.None?
    ensures CheckStep(s, f, c, idle, now, ok).state.secondCheckTime.None?
  {
  }

  /** The baseline update after a scan that found `latest`. */
  function AfterActivity(s: GuardState, latest: int): (r: GuardState)
    ensures r.lastFileUpdateTime >= s.lastFileUpdateTime
    ensures r.lastFileUpdateTime != s.lastFileUpdateTime <==> latest > s.lastFileUpdateTime && latest > 0
    ensures r.lastFileUpdateTime != s.lastFileUpdateTime ==>
              r == ClearChecks(s).(lastFileUpdateTime := latest)
    ensures r.lastFileUpdateTime == s.lastFileUpdateTime ==> r == s
  {
    if latest > s.lastFileUpdateTime && latest > 0 then ClearChecks(s.(lastFileUpdateTime := latest)) else s
  }

  /** The file-activity step: scan, move the baseline forward, then run the
      idle check on the idle time measured from the (new) baseline. */
  function ActivityStep(s: GuardState, f: Features, c: Config, now: int, dir: seq<FileEntry>, ok: bool): (r: CheckResult)
    ensures r.state.lastFileUpdateTime >= s.lastFileUpdateTime
    ensures r.state.restartCount >= s.restartCount
    ensures r.stage1 || r.stage2 ==>
              forall i, m :: 0 <= i < |dir| && Candidate(dir[i], c.fileExtensions, m) && m > 0 ==> now - m >= FirstDelay(c)
    ensures f.processMonitor && ok && s.process == Running ==> r.state.process == Running
  {
    var s1 := AfterActivity(s, LatestMtime(dir, c.fileExtensions));
    CheckStep(s1, f, c, now - s1.lastFileUpdateTime, now, ok)
  }

  /** Activity newer than the baseline resets both stages before the check,
      so the check then sees an idle time of `now - latest`. */
  lemma ActivityResetsStages(s: GuardState, f: Features, c: Config, now: int, dir: seq<FileEntry>, ok: bool)
    requires LatestMtime(dir, c.fileExtensions) > s.lastFileUpdateTime
    requires LatestMtime(dir, c.fileExtensions) > 0
    ensures var latest := LatestMtime(dir, c.fileExtensions);
            ActivityStep(s, f, c, now, dir, ok)
              == CheckStep(ClearChecks(s).(lastFileUpdateTime := latest), f, c, now - latest, now, ok)
  {
  }

  /** What one tick of the loop sees from outside: the time, the directory,
      whether a process that was running is still alive when polled, and
      whether the liveness relaunch and the check's relaunch would succeed. */
  datatype TickInput = TickInput(now: int, dir: seq<FileEntry>, alive: bool, liveSpawnOk: bool, checkSpawnOk: bool)

  /** The process as a poll finds it: a running process that died since the
      last tick has exited; any other state stays as it was. */
  function Polled(p: Proc, alive: bool): (q: Proc)
    ensures q == Exited <==> p == Exited || (p == Running && !alive)
    ensures q == Running <==> p == Running && alive
  {
    if p == Running && !alive then Exited else p
  }

  /** The process after the poll and the liveness check of a tick. */
  function LivenessProcess(p: Proc, f: Features, t: TickInput): (q: Proc)
    ensures f.processMonitor && t.liveSpawnOk ==> q == Running
    ensures f.processMonitor && !t.liveSpawnOk ==> q == Polled(p, t.alive)
    ensures !f.processMonitor ==> q == Polled(p, t.alive)
  {
    var q := Polled(p, t.alive);
    if f.processMonitor && q != Running && t.liveSpawnOk then Running else q
  }

  /** One iteration of the monitoring loop: the managed process is polled,
      then the liveness check and the file-activity step run, each only when
      its feature is on.  With process monitoring on and launches succeeding,
      the process is running after every tick, whatever it did before. */
  function TickStep(s: GuardState, f: Features, c: Config, t: TickInput): (r: CheckResult)
    ensures r.state.restartCount >= s.restartCount
    ensures f.processMonitor && t.liveSpawnOk && t.checkSpawnOk ==> r.state.process == Running
  {
    var s0 := s.(process := Polled(s.process, t.alive));
    var s1 := if f.processMonitor then AfterLivenessCheck(s0, t.liveSpawnOk) else s0;
    if f.fileActivity then ActivityStep(s1, f, c, t.now, t.dir, t.checkSpawnOk) else CheckResult(s1, false, false)
  }

  /** With both checks off, idle time never restarts anything: the launch
      counter rises exactly when the poll finds no running process and the
      liveness relaunch succeeds. */
  lemma NoIdleRestartWhenChecksOff(s: GuardState, f: Features, c: Config, t: TickInput)
    requires !f.firstCheck && !f.secondCheck
    ensures var r := TickStep(s, f, c, t);
            && !r.stage1 && !r.stage2
            && r.state.restartCount
                 == s.restartCount + (if f.processMonitor && Polled(s.process, t.alive) != Running && t.liveSpawnOk then 1 else 0)
            && r.state.process == LivenessProcess(s.process, f, t)
            && r.state.lastFileUpdateTime >= s.lastFileUpdateTime
  {
  }

  /** A tick leaves no stage-2 stamp behind when there was none. */
  lemma TickLeavesSecondStampClear(s: GuardState, f: Features, c: Config, t: TickInput)
    requires s.secondCheckTime.None?
    ensures TickStep(s, f, c, t).state.secondCheckTime.None?
  {
    var s0 := s.(process := Polled(s.process, t.alive));
    var s1 := if f.processMonitor then AfterLivenessCheck(s0, t.liveSpawnOk) else s0;
    if f.fileActivity {
      var s2 := AfterActivity(s1, LatestMtime(t.dir, c.fileExtensions));
      CheckLeavesSecondStampClear(s2, f, c, t.now - s2.lastFileUpdateTime, t.now, t.checkSpawnOk);
    }
  }

  /** With the first check off, a tick never sets a stage-1 stamp and never fires stage 2. */
  lemma TickWithoutFirstCheck(s: GuardState, f: Features, c: Config, t: TickInput)
    requires !f.firstCheck && s.firstCheckTime.None?
    ensures var r := TickStep(s, f, c, t);
            r.state.firstCheckTime.None? && !r.stage1 && !r.stage2
  {
    var s0 := s.(process := Polled(s.process, t.alive));
    var s1 := if f.processMonitor then AfterLivenessCheck(s0, t.liveSpawnOk) else s0;
    if f.fileActivity {
      var s2 := AfterActivity(s1, LatestMtime(t.dir, c.fileExtensions));
      Stage2NeedsStage1(s2, f, c, t.now - s2.lastFileUpdateTime, t.now, t.checkSpawnOk);
    }
  }

  function Stamped(s: GuardState): nat
  {
    if s.firstCheckTime.Some? then 1 else 0
  }

  function Fired(b: bool): nat
  {
    if b then 1 else 0
  }

  /** Each stage-2 firing uses up a stage-1 stamp, set earlier or in the same
      tick: stage 2 plus the stamp left afterwards never exceed stage 1 plus
      the stamp found. */
  lemma TickForcedUsesProbe(s: GuardState, f: Features, c: Config, t: TickInput)
    ensures var r := TickStep(s, f, c, t);
            Fired(r.stage2) + Stamped(r.state) <= Fired(r.stage1) + Stamped(s)
  {
    var s0 := s.(process := Polled(s.process, t.alive));
    var s1 := if f.processMonitor then AfterLivenessCheck(s0, t.liveSpawnOk) else s0;
    if f.fileActivity {
      var s2 := AfterActivity(s1, LatestMtime(t.dir, c.fileExtensions));
      Stage2NeedsStage1(s2, f, c, t.now - s2.lastFileUpdateTime, t.now, t.checkSpawnOk);
    }
  }

  /** A run of ticks: the final state and the times at which stage 1 and
      stage 2 fired. */
  datatype RunResult = RunResult(state: GuardState, probes: seq<int>, forced: seq<int>)

  function Run(s: GuardState, f: Features, c: Config, ts: seq<TickInput>): (r: RunResult)
    ensures |r.probes| <= |ts| && |r.forced| <= |ts|
    decreases |ts|
  {
    if |ts| == 0 then
      RunResult(s, [], [])
    else
      var r := TickStep(s, f, c, ts[0]);
      var rest := Run(r.state, f, c, ts[1..]);
      RunResult(rest.state,
                (if r.stage1 then [ts[0].now] else []) + rest.probes,
                (if r.stage2 then [ts[0].now] else []) + rest.forced)
  }

  /** A run result with earlier firing times put in front. */
  function Prepend(probes: seq<int>, forced: seq<int>, r: RunResult): RunResult
  {
    RunResult(r.state, probes + r.probes, forced + r.forced)
  }

  /** A run is its first tick followed by the run of the remaining ticks. */
  lemma RunStep(s: GuardState, f: Features, c: Config, ts: seq<TickInput>)
    requires |ts| > 0
    ensures var r := TickStep(s, f, c, ts[0]);
            Run(s, f, c, ts)
              == Prepend(if r.stage1 then [ts[0].now] else [], if r.stage2 then [ts[0].now] else [],
                         Run(r.state, f, c, ts[1..]))
  {
  }

  /** Advancing a partly consumed run by one tick moves that tick's firing
      times into the consumed part. */
  lemma RunAdvance(s0: GuardState, s: GuardState, f: Features, c: Config, ts: seq<TickInput>, k: nat,
                   probes: seq<int>, forced: seq<int>)
    requires k < |ts|
    requires Run(s0, f, c, ts) == Prepend(probes, forced, Run(s, f, c, ts[k..]))
    ensures var r := TickStep(s, f, c, ts[k]);
            Run(s0, f, c, ts)
              == Prepend(probes + (if r.stage1 then [ts[k].now] else []),
                         forced + (if r.stage2 then [ts[k].now] else []),
                         Run(r.state, f, c, ts[k + 1..]))
  {
    var r := TickStep(s, f, c, ts[k]);
    RunStep(s, f, c, ts[k..]);
    assert ts[k..][0] == ts[k] && ts[k..][1..] == ts[k + 1..];
    var rest := Run(r.state, f, c, ts[k + 1..]);
    var p := if r.stage1 then [ts[k].now] else [];
    var q := if r.stage2 then [ts[k].now] else [];
    SeqAssoc(probes, p, rest.probes);
    SeqAssoc(forced, q, rest.forced);
  }

  /** Over any run, the launch counter never goes down. */
  lemma {:induction false} RunCountsUp(s: GuardState, f: Features, c: Config, ts: seq<TickInput>)
    ensures Run(s, f, c, ts).state.restartCount >= s.restartCount
    decreases |ts|
  {
    if |ts| > 0 {
      RunCountsUp(TickStep(s, f, c, ts[0]).state, f, c, ts[1..]);
    }
  }

  /** Over any run from a state with no stage-2 stamp, none is ever left set:
      the early return on a set stage-2 stamp is never taken. */
  lemma {:induction false} RunKeepsSecondStampClear(s: GuardState, f: Features, c: Config, ts: seq<TickInput>)
    requires s.secondCheckTime.None?
    ensures Run(s, f, c, ts).state.secondCheckTime.None?
    decreases |ts|
  {
    if |ts| > 0 {
      TickLeavesSecondStampClear(s, f, c, ts[0]);
      RunKeepsSecondStampClear(TickStep(s, f, c, ts[0]).state, f, c, ts[1..]);
    }
  }

  /** With the first check off, no run ever fires stage 2, whatever the
      second check's switch and delay. */
  lemma {:induction false} RunWithoutFirstCheckNeverForces(s: GuardState, f: Features, c: Config, ts: seq<TickInput>)
    requires !f.firstCheck && s.firstCheckTime.None?
    ensures Run(s, f, c, ts).probes == [] && Run(s, f, c, ts).forced == []
    decreases |ts|
  {
    if |ts| > 0 {
      TickWithoutFirstCheck(s, f, c, ts[0]);
      RunWithoutFirstCheckNeverForces(TickStep(s, f, c, ts[0]).state, f, c, ts[1..]);
    }
  }

  /** Liveness relaunches that succeed over a run, following the process
      alone through polls and relaunches. */
  function LivenessRelaunches(p: Proc, f: Features, ts: seq<TickInput>): nat
    decreases |ts|
  {
    if |ts| == 0 then 0
    else
      (if f.processMonitor && Polled(p, ts[0].alive) != Running && ts[0].liveSpawnOk then 1 else 0)
        + LivenessRelaunches(LivenessProcess(p, f, ts[0]), f, ts[1..])
  }

  /** With both checks off, no run fires any stage, and the launch counter
      rises by exactly the liveness relaunches that succeed. */
  lemma {:induction false} RunWithChecksOffNeverFires(s: GuardState, f: Features, c: Config, ts: seq<TickInput>)
    requires !f.firstCheck && !f.secondCheck
    ensures Run(s, f, c, ts).probes == [] && Run(s, f, c, ts).forced == []
    ensures Run(s, f, c, ts).state.restartCount == s.restartCount + LivenessRelaunches(s.process, f, ts)
    decreases |ts|
  {
    if |ts| > 0 {
      NoIdleRestartWhenChecksOff(s, f, c, ts[0]);
      RunWithChecksOffNeverFires(TickStep(s, f, c, ts[0]).state, f, c, ts[1..]);
    }
  }

  /** Over any run, the forced restarts never outnumber the stage-1 probes,
      plus one for a stamp already set at the start. */
  lemma {:induction false} RunForcedNeedsProbe(s: GuardState, f: Features, c: Config, ts: seq<TickInput>)
    ensures var r := Run(s, f, c, ts);
            |r.forced| + Stamped(r.state) <= |r.probes| + Stamped(s)
    decreases |ts|
  {
    if |ts| > 0 {
      TickForcedUsesProbe(s, f, c, ts[0]);
      RunForcedNeedsProbe(TickStep(s, f, c, ts[0]).state, f, c, ts[1..]);
    }
  }

  /** With process monitoring on and every launch succeeding, the process is
      running at the end of any run that has at least one tick, however often
      it exits along the way. */
  lemma {:induction false} RunKeepsProcessUp(s: GuardState, f: Features, c: Config, ts: seq<TickInput>)
    requires f.processMonitor
    requires forall i :: 0 <= i < |ts| ==> ts[i].liveSpawnOk && ts[i].checkSpawnOk
    ensures |ts| > 0 || s.process == Running ==> Run(s, f, c, ts).state.process == Running
    decreases |ts|
  {
    if |ts| > 0 {
      assert ts[0].liveSpawnOk && ts[0].checkSpawnOk;
      assert forall i :: 0 <= i < |ts[1..]| ==> ts[1..][i] == ts[i + 1];
      RunKeepsProcessUp(TickStep(s, f, c, ts[0]).state, f, c, ts[1..]);
    }
  }

  /** Session start: both stamps cleared, counter zero, baseline `now`; with
      process monitoring on, the first launch is made and its failure ends
      the session. */
  datatype Session = Session(state: GuardState, monitoring: bool)

  function StartSession(s: GuardState, f: Features, now: int, ok: bool): (r: Session)
    ensures r.monitoring <==> !f.processMonitor || ok
    ensures r.state.restartCount == (if f.processMonitor && ok then 1 else 0)
    ensures r.state.lastFileUpdateTime == now
    ensures r.state.firstCheckTime.None? && r.state.secondCheckTime.None?
    ensures f.processMonitor && ok ==> r.state.process == Running
    ensures !(f.processMonitor && ok) ==> r.state.process == s.process
  {
    var s0 := ClearChecks(s).(restartCount := 0, lastFileUpdateTime := now);
    if f.processMonitor then Session(AfterSpawn(s0, ok), ok) else Session(s0, true)
  }

  // ---------------------------------------------------------------------
  // Quiet runs: ticks with an empty directory and successful launches.

  function QuietTick(now: int): TickInput
  {
    TickInput(now, [], true, true, true)
  }

  /** Ticks at `from`, `from + 1`, ..., `from + n - 1`. */
  function QuietTicks(from: int, n: nat): (ts: seq<TickInput>)
    ensures |ts| == n
    decreases n
  {
    if n == 0 then [] else [QuietTick(from)] + QuietTicks(from + 1, n - 1)
  }

  /** Ticks that change nothing and fire nothing can be skipped. */
  lemma {:induction false} SkipQuiet(s: GuardState, f: Features, c: Config, from: int, n: nat, m: nat)
    requires forall k :: from <= k < from + n ==> TickStep(s, f, c, QuietTick(k)) == CheckResult(s, false, false)
    ensures Run(s, f, c, QuietTicks(from, n + m)) == Run(s, f, c, QuietTicks(from + n, m))
    decreases n
  {
    if n > 0 {
      var ts := QuietTicks(from, n + m);
      assert ts[0] == QuietTick(from) && ts[1..] == QuietTicks(from + 1, n - 1 + m);
      SkipQuiet(s, f, c, from + 1, n - 1, m);
    }
  }

  /** The first launch succeeded at time `t0`. */
  function Launched(t0: int): GuardState
  {
    GuardState(None, None, t0, 1, Running)
  }

  /** Whatever state the controller was left in, a session started at `t0`
      with every feature on and a successful first launch is `Launched(t0)`. */
  lemma SessionStartIsLaunched(s: GuardState, t0: int)
    ensures StartSession(s, AllOn, t0, true) == Session(Launched(t0), true)
  {
  }

  /** With everything on, a running process and no files, a tick before the
      next threshold changes nothing. */
  lemma QuietBeforeThreshold(s: GuardState, c: Config, k: int)
    requires s.process == Running && s.secondCheckTime.None?
    requires s.firstCheckTime.None? ==> k - s.lastFileUpdateTime < FirstDelay(c)
    requires s.firstCheckTime.Some? ==> k - s.lastFileUpdateTime < SecondDelay(c)
    ensures TickStep(s, AllOn, c, QuietTick(k)) == CheckResult(s, false, false)
  {
    assert LatestMtime([], c.fileExtensions) == 0;
  }

  /** All ticks in `[from, from + n)` are quiet for `s`. */
  lemma QuietSpan(s: GuardState, c: Config, from: int, n: nat)
    requires s.process == Running && s.secondCheckTime.None?
    requires s.firstCheckTime.None? ==> from + n - 1 - s.lastFileUpdateTime < FirstDelay(c)
    requires s.firstCheckTime.Some? ==> from + n - 1 - s.lastFileUpdateTime < SecondDelay(c)
    ensures forall k :: from <= k < from + n ==> TickStep(s, AllOn, c, QuietTick(k)) == CheckResult(s, false, false)
  {
    forall k | from <= k < from + n ensures TickStep(s, AllOn, c, QuietTick(k)) == CheckResult(s, false, false) {
      QuietBeforeThreshold(s, c, k);
    }
  }

  /** Unfolding a run by its first tick. */
  lemma RunFirst(s: GuardState, f: Features, c: Config, from: int, n: nat)
    requires n > 0
    ensures var r := TickStep(s, f, c, QuietTick(from));
            var rest := Run(r.state, f, c, QuietTicks(from + 1, n - 1));
            Run(s, f, c, QuietTicks(from, n))
              == RunResult(rest.state,
                           (if r.stage1 then [from] else []) + rest.probes,
                           (if r.stage2 then [from] else []) + rest.forced)
  {
    var ts := QuietTicks(from, n);
    assert ts[0] == QuietTick(from) && ts[1..] == QuietTicks(from + 1, n - 1);
  }

  /** Ten seconds after the baseline, stage 1 on a live process only stamps. */
  lemma ScenarioProbe(s: GuardState, t0: int)
    requires s.process == Running && s.firstCheckTime.None? && s.secondCheckTime.None?
    requires s.lastFileUpdateTime == t0
    ensures TickStep(s, AllOn, Defaults, QuietTick(t0 + 10))
              == CheckResult(s.(firstCheckTime := Some(t0 + 10)), true, false)
  {
    assert LatestMtime([], Defaults.fileExtensions) == 0;
  }

  /** Twenty seconds after the baseline, stage 2 restarts the live process. */
  lemma ScenarioForce(s: GuardState, t0: int)
    requires s.process == Running && s.firstCheckTime.Some? && s.secondCheckTime.None?
    requires s.lastFileUpdateTime == t0
    ensures TickStep(s, AllOn, Defaults, QuietTick(t0 + 20))
              == CheckResult(GuardState(None, None, t0 + 20, s.restartCount + 1, Running), false, true)
  {
    assert LatestMtime([], Defaults.fileExtensions) == 0;
  }

  /** Everything on, process alive throughout, no files for 25 s after the
      first launch at `t0`: stage 1 fires alone at t0 + 10, stage 2 forces a
      restart at t0 + 20, and the launch counter reaches 2 with the baseline
      moved to t0 + 20. */
  lemma ScenarioAliveButIdle(t0: int)
    ensures Run(Launched(t0), AllOn, Defaults, QuietTicks(t0 + 1, 25))
              == RunResult(GuardState(None, None, t0 + 20, 2, Running), [t0 + 10], [t0 + 20])
  {
    var f, c := AllOn, Defaults;
    var s0 := Launched(t0);
    QuietSpan(s0, c, t0 + 1, 9);
    SkipQuiet(s0, f, c, t0 + 1, 9, 16);
    ScenarioFromProbe(s0, t0, 5);
  }

  /** From a live, unstamped process with baseline `t0`: stage 1 at t0 + 10,
      stage 2 at t0 + 20, then `tail` quiet ticks. */
  lemma ScenarioFromProbe(s0: GuardState, t0: int, tail: nat)
    requires s0.process == Running && s0.firstCheckTime.None? && s0.secondCheckTime.None?
    requires s0.lastFileUpdateTime == t0 && tail < 10
    ensures Run(s0, AllOn, Defaults, QuietTicks(t0 + 10, 11 + tail))
              == RunResult(GuardState(None, None, t0 + 20, s0.restartCount + 1, Running), [t0 + 10], [t0 + 20])
  {
    var f, c := AllOn, Defaults;
    var s1 := s0.(firstCheckTime := Some(t0 + 10));
    ScenarioProbe(s0, t0);
    RunFirst(s0, f, c, t0 + 10, 11 + tail);
    QuietSpan(s1, c, t0 + 11, 9);
    SkipQuiet(s1, f, c, t0 + 11, 9, 1 + tail);
    ScenarioForceThenQuiet(s1, t0, tail);
  }

  /** Stage 2 at t0 + 20, then `tail` quiet ticks. */
  lemma ScenarioForceThenQuiet(s1: GuardState, t0: int, tail: nat)
    requires s1.process == Running && s1.firstCheckTime.Some? && s1.secondCheckTime.None?
    requires s1.lastFileUpdateTime == t0 && tail < 10
    ensures Run(s1, AllOn, Defaults, QuietTicks(t0 + 20, 1 + tail))
              == RunResult(GuardState(None, None, t0 + 20, s1.restartCount + 1, Running), [], [t0 + 20])
  {
    var f, c := AllOn, Defaults;
    var s2 := GuardState(None, None, t0 + 20, s1.restartCount + 1, Running);
    ScenarioForce(s1, t0);
    RunFirst(s1, f, c, t0 + 20, 1 + tail);
    QuietSpan(s2, c, t0 + 21, tail);
    SkipQuiet(s2, f, c, t0 + 21, tail, 0);
    assert Run(s2, f, c, QuietTicks(t0 + 21, tail)) == RunResult(s2, [], []);
  }

  /** A quiet tick at which the poll finds the process gone. */
  function ExitTick(now: int): TickInput
  {
    QuietTick(now).(alive := false)
  }

  /** A run is its first part followed by the run of the rest. */
  lemma {:induction false} RunAppend(s: GuardState, f: Features, c: Config, a: seq<TickInput>, b: seq<TickInput>)
    ensures var ra := Run(s, f, c, a);
            Run(s, f, c, a + b) == Prepend(ra.probes, ra.forced, Run(ra.state, f, c, b))
    decreases |a|
  {
    if |a| > 0 {
      assert (a + b)[0] == a[0] && (a + b)[1..] == a[1..] + b;
      RunStep(s, f, c, a + b);
      RunStep(s, f, c, a);
      var r := TickStep(s, f, c, a[0]);
      RunAppend(r.state, f, c, a[1..], b);
      var ra := Run(r.state, f, c, a[1..]);
      var rb := Run(ra.state, f, c, b);
      var p := if r.stage1 then [a[0].now] else [];
      var q := if r.stage2 then [a[0].now] else [];
      SeqAssoc(p, ra.probes, rb.probes);
      SeqAssoc(q, ra.forced, rb.forced);
    } else {
      assert a + b == b;
    }
  }

  lemma SeqAssoc(x: seq<int>, y: seq<int>, z: seq<int>)
    ensures (x + y) + z == x + (y + z)
  {
  }

  /** Everything on; the process launched at `t0` dies and the poll at t0 + 5
      finds it gone.  The liveness check relaunches it in the same tick
      without moving the baseline, so the stage-1 check at t0 + 10 finds the
      new process alive and stage 2 restarts it at t0 + 20. */
  lemma ScenarioExitedProcess(t0: int)
    ensures Run(Launched(t0), AllOn, Defaults, QuietTicks(t0 + 1, 4) + [ExitTick(t0 + 5)] + QuietTicks(t0 + 6, 15))
              == RunResult(GuardState(None, None, t0 + 20, 3, Running), [t0 + 10], [t0 + 20])
  {
    var f, c := AllOn, Defaults;
    var s0 := Launched(t0);
    var a := QuietTicks(t0 + 1, 4);
    var b := [ExitTick(t0 + 5)] + QuietTicks(t0 + 6, 15);
    assert a + [ExitTick(t0 + 5)] + QuietTicks(t0 + 6, 15) == a + b;
    QuietSpan(s0, c, t0 + 1, 4);
    SkipQuiet(s0, f, c, t0 + 1, 4, 0);
    assert Run(s0, f, c, a) == RunResult(s0, [], []);
    RunAppend(s0, f, c, a, b);
    ScenarioFromExit(t0);
  }

  /** The poll at t0 + 5 finds the process gone and the liveness check
      relaunches it at once: second launch, baseline and stamps untouched. */
  lemma ExitTickRelaunches(t0: int)
    ensures TickStep(Launched(t0), AllOn, Defaults, ExitTick(t0 + 5))
              == CheckResult(Launched(t0).(restartCount := 2), false, false)
  {
    assert LatestMtime([], Defaults.fileExtensions) == 0;
  }

  /** From the exit tick on: relaunch at t0 + 5, stage 1 at t0 + 10, stage 2 at t0 + 20. */
  lemma ScenarioFromExit(t0: int)
    ensures Run(Launched(t0), AllOn, Defaults, [ExitTick(t0 + 5)] + QuietTicks(t0 + 6, 15))
              == RunResult(GuardState(None, None, t0 + 20, 3, Running), [t0 + 10], [t0 + 20])
  {
    var b := [ExitTick(t0 + 5)] + QuietTicks(t0 + 6, 15);
    ExitTickRelaunches(t0);
    RunStep(Launched(t0), AllOn, Defaults, b);
    assert b[0] == ExitTick(t0 + 5) && b[1..] == QuietTicks(t0 + 6, 15);
    ScenarioRelaunched(t0);
  }

  /** The relaunched process, with the baseline still at t0, from t0 + 6 on. */
  lemma ScenarioRelaunched(t0: int)
    ensures Run(Launched(t0).(restartCount := 2), AllOn, Defaults, QuietTicks(t0 + 6, 15))
              == RunResult(GuardState(None, None, t0 + 20, 3, Running), [t0 + 10], [t0 + 20])
  {
    var s1 := Launched(t0).(restartCount := 2);
    QuietSpan(s1, Defaults, t0 + 6, 4);
    SkipQuiet(s1, AllOn, Defaults, t0 + 6, 4, 11);
    ScenarioFromProbe(s1, t0, 0);
  }
}
