/** The emitted resume script in its own shape: shell functions and one loop over variables
    and files.  Every command also takes the matching step of ResumeProtocol, so whatever
    is proved about runs of the protocol holds of the script. */
module ResumeScript {
  import opened Options
  import opened ResumeProtocol
  import opened ResumeTheorems

  /** When the machine goes down on its own during a reboot test. */
  datatype PowerLoss = Stays | WhileRunning | BeforeGrep | BeforeWrite

  /** How one test, or one wait for a test, turns out: its exit code, and its result file and
      state directory then. */
  datatype Outcome = Outcome(rc: int, file: Option<ResultFile>, busy: bool, loss: PowerLoss)

  class Script {
    const cfg: Config
    var index: Option<nat>
    var failFile: Option<nat>
    var waitSafe: Option<nat>
    var waitResult: Option<nat>
    var result: Option<ResultFile>
    var busy: bool
    var enabled: bool
    /** The last started test has come to its end. */
    var over: bool
    var idx: nat
    var failures: nat
    ghost var run: Run
    ghost var now: State

    /** The recorded run is a windowed run of the protocol that leads to `now`, and the
        script's files and variables are those of `now`. */
    ghost predicate Agrees()
      reads this
    {
      && Tracks()
      && now.disk == Disk(index, failFile, waitSafe, waitResult, result, busy, enabled)
      && now.idx == idx && now.failures == failures && (over <==> now.own.Some?)
    }

    ghost predicate Tracks()
      reads this
    {
      Windowed(cfg, run) && Final(run) == now
    }

    /** The run is the earlier one, continued. */
    ghost predicate Grown(before: Run)
      reads this`run
    {
      before.states <= run.states && before.inputs <= run.inputs
    }

    /** State left by autotest_selected_runner.sh. */
    constructor (cfg: Config)
      ensures this.cfg == cfg && Agrees() && now == Init()
    {
      this.cfg := cfg;
      index, failFile, waitSafe, waitResult := Some(0), Some(0), None, None;
      result, busy, enabled, over := None, false, true, false;
      idx, failures := 0, 0;
      run, now := Run([Init()], []), Init();
    }

    ghost method Tick(input: Input)
      requires Tracks() && Enabled(cfg, now, input)
      requires input.Reboot? ==> InWindow(now.pc)
      modifies this`run, this`now
      ensures Tracks() && Grown(old(run))
      ensures now == Step(cfg, old(now), input)
    {
      now := Step(cfg, now, input);
      run := Run(run.states + [now], run.inputs + [input]);
    }

    // ------------------------------------------------ one method for each command

    /** A command that only looks. */
    method Look(ghost next: Pc)
      requires Agrees() && Enabled(cfg, now, Go) && Command(cfg, now).pc == next
      requires Command(cfg, now).disk == now.disk
      requires now.pc.Boot? || now.pc.GrepPending? || (now.pc.Head? && !next.ShellRunning?)
      modifies this`run, this`now
      ensures Agrees() && now.pc == next && Grown(old(run))
    {
      Tick(Go);
    }

    method StartTest(ghost next: Pc)
      requires Agrees() && Enabled(cfg, now, Go) && Command(cfg, now).pc == next
      requires (now.pc.Head? && next.ShellRunning?) || now.pc.StartReboot?
      modifies this`over, this`run, this`now
      ensures Agrees() && now.pc == next && Grown(old(run))
    {
      Tick(Go);
      over := false;
    }

    method WriteFailures(ghost next: Pc)
      requires Agrees()
      requires match now.pc
               case BootWrite(_) => next == BootClear
               case PendingWrite => next == PendingExit
               case EarlyWrite => next == EarlyClear
               case LateWrite(_) => next == TestStop
               case ShellWrite => next == TestStop
               case _ => false
      modifies this`failFile, this`run, this`now
      ensures Agrees() && now.pc == next && Grown(old(run))
    {
      Tick(Go);
      failFile := Some(failures);
    }

    method ReadFailures(ghost next: Pc)
      requires Agrees()
      requires (now.pc.BootStop? && next == Load) || (now.pc.TestStop? && next == Advance)
      modifies this`failures, this`run, this`now
      ensures Agrees() && now.pc == StopTarget(cfg, failures, next) && Grown(old(run))
    {
      Tick(Go);
      failures := ReadNum(failFile);
    }

    method RemoveWaitFiles(ghost next: Pc)
      requires Agrees()
      requires (now.pc.BootClear? && next == BootStop) || (now.pc.EarlyClear? && next == TestStop)
      modifies this`waitSafe, this`waitResult, this`run, this`now
      ensures Agrees() && now.pc == next && Grown(old(run))
    {
      Tick(Go);
      waitSafe, waitResult := None, None;
    }

    method RemoveWaitFilesAndCount()
      requires Agrees() && now.pc.LateClear?
      modifies this`waitSafe, this`waitResult, this`failures, this`result, this`run, this`now
      ensures Agrees() && now.pc.LateWrite? && Grown(old(run))
    {
      Tick(Go);
      waitSafe, waitResult := None, None;
      if result.Some? && result.value.ng { failures := failures + 1; }
      result := None;
    }

    method WriteIndex(ghost next: Pc)
      requires Agrees() && (now.pc.MarkIndex? && next == MarkSafe)
      modifies this`index, this`run, this`now
      ensures Agrees() && now.pc == next && Grown(old(run))
    {
      Tick(Go);
      index := Some(idx + 1);
    }

    method WriteWaitFiles()
      requires Agrees() && now.pc.MarkSafe?
      modifies this`waitSafe, this`waitResult, this`run, this`now
      ensures Agrees() && now.pc.StartReboot? && Grown(old(run))
    {
      Tick(Go);
      waitSafe := Some(idx);
      Tick(Go);
      waitResult := Some(idx);
    }

    method NextIndex()
      requires Agrees() && now.pc.Advance?
      modifies this`index, this`idx, this`run, this`now
      ensures Agrees() && now.pc.Head? && idx == old(idx) + 1 && Grown(old(run))
    {
      Tick(Go);
      idx := idx + 1;
      index := Some(idx);
    }

    method LoadNumbers()
      requires Agrees() && now.pc.Load?
      modifies this`idx, this`failures, this`run, this`now
      ensures Agrees() && now.pc.Head? && Grown(old(run))
    {
      Tick(Go);
      idx, failures := ReadNum(index), ReadNum(failFile);
    }

    method Cleanup(ghost code: nat)
      requires Agrees() && now.pc == Disable(code)
      modifies this`index, this`failFile, this`waitSafe, this`waitResult, this`enabled, this`run, this`now
      ensures Agrees() && now.pc == Exited(code) && Grown(old(run))
    {
      DisableUnit(code);
      RemoveStateDir(code);
    }

    method RemoveStateDir(ghost code: nat)
      requires Agrees() && now.pc == RemoveState(code)
      modifies this`index, this`failFile, this`waitSafe, this`waitResult, this`run, this`now
      ensures Agrees() && now.pc == Exited(code) && Grown(old(run))
    {
      Tick(Go);
      index, failFile, waitSafe, waitResult := None, None, None, None;
    }

    method DisableUnit(ghost code: nat)
      requires Agrees() && now.pc == Disable(code)
      modifies this`enabled, this`run, this`now
      ensures Agrees() && now.pc == RemoveState(code) && Grown(old(run))
    {
      Tick(Go);
      enabled := false;
    }

    method RebootTestReturns(outcome: Outcome)
      requires Agrees() && now.pc.RebootRunning?
      modifies this`result, this`busy, this`over, this`run, this`now
      ensures Agrees() && Grown(old(run)) && now.pc == if outcome.rc != 0 then EarlyRemove else GrepPending
    {
      Tick(TestExit(outcome.rc, outcome.file, outcome.busy));
      result, busy := outcome.file, outcome.busy;
      over := outcome.rc != 0 || result.None? || !result.value.pending;
    }

    method ShellTestReturns(outcome: Outcome)
      requires Agrees() && now.pc.ShellRunning?
      modifies this`result, this`busy, this`over, this`failures, this`run, this`now
      ensures Agrees() && Grown(old(run)) && now.pc == if outcome.rc != 0 then ShellWrite else TestStop
    {
      Tick(TestExit(outcome.rc, outcome.file, outcome.busy));
      result, busy, over := None, outcome.busy, true;
      if outcome.rc != 0 { failures := failures + 1; }
    }

    method RemoveResultAndCount()
      requires Agrees() && now.pc.EarlyRemove?
      modifies this`result, this`failures, this`run, this`now
      ensures Agrees() && now.pc.EarlyWrite? && Grown(old(run))
    {
      Tick(Go);
      result := None;
      failures := failures + 1;
    }

    /** The test may come to its end during the wait; one that is over stays as it is. */
    method WaitForTest(outcome: Outcome)
      requires Agrees() && now.pc.Boot? && waitSafe.Some?
      modifies this`result, this`busy, this`over, this`failures, this`run, this`now
      ensures Agrees() && now.pc.BootWrite? && Grown(old(run))
    {
      if !over { result, busy, over := outcome.file, outcome.busy, !outcome.busy; }
      Tick(WaitOver(busy, result));
      failures := ReadNum(failFile);
      if busy {
        failures := failures + 1;
      } else if waitResult.Some? && result.Some? {
        if result.value.ng { failures := failures + 1; }
        result := None;
      } else {
        failures := failures + 1;
      }
    }

    /** The machine goes down and comes back: the variables are gone, the files are not. */
    method PowerOff()
      requires Agrees() && InWindow(now.pc)
      modifies this`idx, this`failures, this`run, this`now
      ensures Agrees() && now.pc.Boot? && Grown(old(run))
    {
      ProtocolReachable();
      Tick(Reboot);
      idx, failures := 0, 0;
    }

    lemma ProtocolReachable()
      requires Tracks()
      ensures Inv(cfg, now)
    {
      RunKeepsInv(cfg, run, |run.inputs|);
    }

    // ------------------------------------------------ the script's own structure

    method CheckWaitingReboot(outcome: Outcome)
      requires Agrees() && now.pc.Boot?
      modifies this
      ensures Agrees() && now.pc.BootStop? && Grown(old(run))
    {
      if waitSafe == None {
        Look(BootStop);
        return;
      }
      WaitForTest(outcome);
      WriteFailures(BootClear);
      RemoveWaitFiles(BootStop);
    }

    method StopAfterFailureIfNeeded(ghost next: Pc) returns (stopped: bool)
      requires Agrees()
      requires (now.pc.BootStop? && next == Load) || (now.pc.TestStop? && next == Advance)
      modifies this
      ensures Agrees() && Grown(old(run))
      ensures now.pc == if stopped then Exited(1) else next
      ensures idx == old(idx)
    {
      ReadFailures(next);
      stopped := cfg.stopOnFailure && failures > 0;
      if stopped {
        Cleanup(1);
      }
    }

    /** The reboot branch up to its stop check; `down` when the boot is over. */
    method RunRebootTest(outcome: Outcome) returns (down: bool)
      requires Agrees() && now.pc.MarkIndex?
      modifies this
      ensures Agrees() && Grown(old(run))
      ensures if down then now.pc.Boot? || now.pc.PendingExit? else now.pc.TestStop? && idx == old(idx)
    {
      WriteIndex(MarkSafe);
      WriteWaitFiles();
      down := LaunchRebootTest(outcome);
      if down { return; }
      if outcome.rc != 0 {
        CountEarlyFailure();
      } else {
        down := JudgeRebootTest(outcome);
      }
    }

    method LaunchRebootTest(outcome: Outcome) returns (down: bool)
      requires Agrees() && now.pc.StartReboot?
      modifies this
      ensures Agrees() && Grown(old(run))
      ensures down ==> now.pc.Boot?
      ensures !down ==> now.pc == (if outcome.rc != 0 then EarlyRemove else GrepPending) && idx == old(idx)
    {
      StartTest(RebootRunning);
      down := outcome.loss == WhileRunning;
      if down {
        PowerOff();
      } else {
        RebootTestReturns(outcome);
      }
    }

    method CountEarlyFailure()
      requires Agrees() && now.pc.EarlyRemove?
      modifies this
      ensures Agrees() && Grown(old(run)) && now.pc.TestStop? && idx == old(idx)
    {
      RemoveResultAndCount();
      WriteFailures(EarlyClear);
      RemoveWaitFiles(TestStop);
    }

    method JudgeRebootTest(outcome: Outcome) returns (down: bool)
      requires Agrees() && now.pc.GrepPending?
      modifies this
      ensures Agrees() && Grown(old(run))
      ensures if down then now.pc.Boot? || now.pc.PendingExit? else now.pc.TestStop? && idx == old(idx)
    {
      down := true;
      if outcome.loss == BeforeGrep {
        PowerOff();
      } else if result.Some? && result.value.pending {
        LeavePending(outcome);
      } else {
        Look(LateClear);
        CountLateVerdict();
        down := false;
      }
    }

    method LeavePending(outcome: Outcome)
      requires Agrees() && now.pc.GrepPending? && result.Some? && result.value.pending
      modifies this
      ensures Agrees() && Grown(old(run)) && (now.pc.Boot? || now.pc.PendingExit?)
    {
      Look(PendingWrite);
      if outcome.loss == BeforeWrite {
        PowerOff();
      } else {
        WriteFailures(PendingExit);
      }
    }

    method CountLateVerdict()
      requires Agrees() && now.pc.LateClear?
      modifies this
      ensures Agrees() && Grown(old(run)) && now.pc.TestStop? && idx == old(idx)
    {
      RemoveWaitFilesAndCount();
      WriteFailures(TestStop);
    }

    method RunShellTest(outcome: Outcome)
      requires Agrees() && now.pc.ShellRunning?
      modifies this
      ensures Agrees() && now.pc.TestStop? && Grown(old(run)) && idx == old(idx)
    {
      ShellTestReturns(outcome);
      if outcome.rc != 0 {
        WriteFailures(TestStop);
      }
    }

    method RunTest(outcome: Outcome) returns (down: bool)
      requires Agrees() && now.pc.Head? && idx < |cfg.kinds|
      modifies this
      ensures Agrees() && Grown(old(run))
      ensures if down then now.pc.Boot? || now.pc.PendingExit? else now.pc.TestStop? && idx == old(idx)
    {
      if cfg.kinds[idx] == RebootTest {
        Look(MarkIndex);
        down := RunRebootTest(outcome);
      } else {
        StartTest(ShellRunning);
        RunShellTest(outcome);
        down := false;
      }
    }

    method Finish() returns (code: nat)
      requires Agrees() && now.pc.Head? && idx >= |cfg.kinds|
      modifies this
      ensures Agrees() && now.pc == Exited(code) && Grown(old(run))
    {
      code := if failures == 0 then 0 else 1;
      Look(Disable(code));
      Cleanup(code);
    }

    /** Everything before the loop. */
    method Resume(outcome: Outcome) returns (stopped: bool)
      requires Agrees() && now.pc.Boot?
      modifies this
      ensures Agrees() && Grown(old(run))
      ensures now.pc == if stopped then Exited(1) else Head
    {
      CheckWaitingReboot(outcome);
      stopped := StopAfterFailureIfNeeded(Load);
      if !stopped {
        LoadNumbers();
      }
    }

    /** One turn of the loop; a boot ends by exit or by power loss. */
    method RunOne(outcome: Outcome) returns (done: bool, exit: Option<nat>)
      requires Agrees() && now.pc.Head? && idx < |cfg.kinds|
      modifies this
      ensures Agrees() && Grown(old(run))
      ensures !done ==> now.pc.Head? && idx == old(idx) + 1
      ensures done ==> BootOver(exit)
    {
      done := RunTest(outcome);
      exit := None;
      if done { return; }
      done := StopAfterFailureIfNeeded(Advance);
      if done {
        exit := Some(1);
      } else {
        NextIndex();
      }
    }

    ghost predicate BootOver(exit: Option<nat>)
      reads this`now
    {
      if exit.Some? then now.pc == Exited(exit.value) else now.pc.Boot? || now.pc.PendingExit?
    }

    /** One boot: the script from its first command until it exits or the machine goes down. */
    method RunLoop(outcomes: nat -> Outcome) returns (exit: Option<nat>)
      requires Agrees() && now.pc.Boot?
      modifies this
      ensures Agrees() && Grown(old(run)) && BootOver(exit)
    {
      var done := Resume(outcomes(|cfg.kinds|));
      exit := Some(1);
      while !done && idx < |cfg.kinds|
        invariant Agrees() && Grown(old(run))
        invariant if done then BootOver(exit) else now.pc.Head?
        decreases !done, |cfg.kinds| - idx
      {
        done, exit := RunOne(outcomes(idx));
      }
      if !done {
        var code := Finish();
        exit := Some(code);
      }
    }

    /** A boot is a stretch of a run of the protocol, so at its end the started tests are the
        first ones of the list, each once, and exit code 0 means all of them passed. */
    method RunBoot(outcomes: nat -> Outcome) returns (exit: Option<nat>)
      requires Agrees() && now.pc.Boot?
      modifies this
      ensures Agrees() && Grown(old(run)) && BootOver(exit)
      ensures forall i :: 0 <= i < |now.started| ==> now.started[i] == i
      ensures exit == Some(0) ==> |now.started| == |cfg.kinds| && FailedCount(now.resolved) == 0
    {
      exit := RunLoop(outcomes);
      ProtocolReachable();
    }
  }
}
