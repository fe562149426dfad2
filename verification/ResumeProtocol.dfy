/** The "selected tests" runner that write_resume_automation emits, as a crash/resume
    protocol: a state machine over the files under $STATE_DIR (persistent) and the shell
    variables of one boot (volatile).  One step is one command of the script.  Test
    outcomes, the result files the tests leave behind and the moment a reboot strikes are
    arbitrary inputs. */
module ResumeProtocol {
  import opened Options

  datatype Kind = ShellTest | RebootTest
  datatype Config = Config(kinds: seq<Kind>, stopOnFailure: bool)

  /** What the runner's two greps can see in a result file. */
  datatype ResultFile = ResultFile(pending: bool, ng: bool)

  /** The files that survive a reboot.  A wait file holds the position of its test; `result`
      and `busy` are the result file and the state directory of the last started test;
      `enabled` is the systemd unit that restarts the script after a boot. */
  datatype Disk = Disk(index: Option<nat>, failures: Option<nat>,
                       waitSafe: Option<nat>, waitResult: Option<nat>,
                       result: Option<ResultFile>, busy: bool, enabled: bool)

  /** The command the script is about to run. */
  datatype Pc =
    | Boot | BootWrite(failed: bool) | BootClear | BootStop | Load | Head
    | MarkIndex | MarkSafe | MarkResult | StartReboot | RebootRunning
    | GrepPending | PendingWrite | PendingExit
    | EarlyRemove | EarlyWrite | EarlyClear | LateClear | LateWrite(failed: bool)
    | ShellRunning | ShellWrite | TestStop | Advance
    | Disable(code: nat) | RemoveState(code: nat) | Exited(code: nat) | PoweredOff

  /** What the runner wrote about a test, and whether the test itself had failed. */
  datatype Verdict = Verdict(test: nat, failed: bool, own: bool)

  /** `started` and `resolved` are history: what was launched, and what was judged.  `own` is
      whether the last started test has failed, once it has come to its end; from then on it
      does not touch its files. */
  datatype State = State(disk: Disk, pc: Pc, idx: nat, failures: nat,
                         started: seq<nat>, resolved: seq<Verdict>, own: Option<bool>)

  datatype Input =
    | Go                                                        // the next command completes
    | TestExit(rc: int, file: Option<ResultFile>, busy: bool)   // the running test returns
    | WaitOver(busy: bool, file: Option<ResultFile>)            // the 600 second wait is over
    | Reboot

  /** State left by autotest_selected_runner.sh just before it execs the resume script. */
  function Init(): State {
    State(Disk(Some(0), Some(0), None, None, None, false, true), Boot, 0, 0, [], [], None)
  }

  /** read_num: a missing file reads as 0. */
  function ReadNum(file: Option<nat>): nat {
    if file.Some? then file.value else 0
  }

  function Plus(n: nat, failed: bool): nat {
    if failed then n + 1 else n
  }

  function StopTarget(cfg: Config, failures: nat, next: Pc): Pc {
    if cfg.stopOnFailure && failures > 0 then Disable(1) else next
  }

  predicate Asks(s: State) {
    s.pc.RebootRunning? || s.pc.ShellRunning? || (s.pc.Boot? && s.disk.waitSafe.Some?)
  }

  /** What the wait can find: a test that is over has left its files. */
  predicate CanFind(s: State, busy: bool, file: Option<ResultFile>) {
    s.own.Some? ==> busy == s.disk.busy && file == s.disk.result
  }

  /** A test that has not come to its end by the time it is judged counts as failed. */
  predicate OwnFailure(s: State) {
    s.own != Some(false)
  }

  predicate Enabled(cfg: Config, s: State, input: Input) {
    match input
    case Go => !Asks(s) && !s.pc.Exited? && !s.pc.PoweredOff? && !s.pc.PendingExit?
    case TestExit(_, _, _) => s.pc.RebootRunning? || s.pc.ShellRunning?
    case WaitOver(busy, file) => s.pc.Boot? && s.disk.waitSafe.Some? && CanFind(s, busy, file)
    case Reboot => !s.pc.Exited? && !s.pc.PoweredOff?
  }

  function Step(cfg: Config, s: State, input: Input): State
    requires Enabled(cfg, s, input)
  {
    var d := s.disk;
    match input
    case Reboot =>
      s.(pc := if d.enabled then Boot else PoweredOff, idx := 0, failures := 0)
    case WaitOver(busy, file) =>
      var found := !busy && d.waitResult.Some?;
      var failed := !found || file.None? || file.value.ng;
      var own := if s.own.Some? || busy then s.own else Some(file.None? || file.value.ng);
      s.(disk := d.(result := if found then None else file, busy := busy),
         failures := Plus(ReadNum(d.failures), failed), pc := BootWrite(failed), own := own)
    case TestExit(rc, file, busy) =>
      if s.pc.ShellRunning? then
        if rc != 0 then
          s.(disk := d.(result := None, busy := busy), failures := s.failures + 1, pc := ShellWrite, own := Some(true))
        else
          s.(disk := d.(result := None, busy := busy), resolved := s.resolved + [Verdict(s.idx, false, false)],
             pc := TestStop, own := Some(false))
      else if rc != 0 then
        s.(disk := d.(result := file, busy := busy), pc := EarlyRemove, own := Some(true))
      else
        s.(disk := d.(result := file, busy := busy), pc := GrepPending,
           own := if file.Some? && file.value.pending then None else Some(file.Some? && file.value.ng))
    case Go => Command(cfg, s)
  }

  /** One command of the script that needs no answer from a test. */
  function Command(cfg: Config, s: State): State
    requires Enabled(cfg, s, Go)
  {
    var d := s.disk;
    match s.pc
    case Boot => s.(pc := BootStop)
    case BootWrite(failed) =>
      var test := if d.waitSafe.Some? then d.waitSafe.value else 0;
      s.(disk := d.(failures := Some(s.failures)), resolved := s.resolved + [Verdict(test, failed, OwnFailure(s))],
          pc := BootClear)
    case BootClear => s.(disk := d.(waitSafe := None, waitResult := None), pc := BootStop)
    case BootStop => s.(failures := ReadNum(d.failures), pc := StopTarget(cfg, ReadNum(d.failures), Load))
    case Load => s.(idx := ReadNum(d.index), failures := ReadNum(d.failures), pc := Head)
    case Head =>
      if s.idx < |cfg.kinds| then
        if cfg.kinds[s.idx].RebootTest? then s.(pc := MarkIndex)
        else s.(started := s.started + [s.idx], own := None, pc := ShellRunning)
      else s.(pc := Disable(if s.failures == 0 then 0 else 1))
    case MarkIndex => s.(disk := d.(index := Some(s.idx + 1)), pc := MarkSafe)
    case MarkSafe => s.(disk := d.(waitSafe := Some(s.idx)), pc := MarkResult)
    case MarkResult => s.(disk := d.(waitResult := Some(s.idx)), pc := StartReboot)
    case StartReboot => s.(started := s.started + [s.idx], own := None, pc := RebootRunning)
    case GrepPending =>
      s.(pc := if d.result.Some? && d.result.value.pending then PendingWrite else LateClear)
    case PendingWrite => s.(disk := d.(failures := Some(s.failures)), pc := PendingExit)
    case EarlyRemove => s.(disk := d.(result := None), failures := s.failures + 1, pc := EarlyWrite)
    case EarlyWrite =>
      s.(disk := d.(failures := Some(s.failures)), resolved := s.resolved + [Verdict(s.idx, true, OwnFailure(s))],
          pc := EarlyClear)
    case EarlyClear => s.(disk := d.(waitSafe := None, waitResult := None), pc := TestStop)
    case LateClear =>
      var failed := d.result.Some? && d.result.value.ng;
      s.(disk := d.(waitSafe := None, waitResult := None, result := None),
         failures := Plus(s.failures, failed), pc := LateWrite(failed))
    case LateWrite(failed) =>
      s.(disk := d.(failures := Some(s.failures)), resolved := s.resolved + [Verdict(s.idx, failed, OwnFailure(s))],
          pc := TestStop)
    case ShellWrite =>
      s.(disk := d.(failures := Some(s.failures)), resolved := s.resolved + [Verdict(s.idx, true, OwnFailure(s))],
          pc := TestStop)
    case TestStop => s.(failures := ReadNum(d.failures), pc := StopTarget(cfg, ReadNum(d.failures), Advance))
    case Advance => s.(idx := s.idx + 1, disk := d.(index := Some(s.idx + 1)), pc := Head)
    case Disable(code) => s.(disk := d.(enabled := false), pc := RemoveState(code))
    case RemoveState(code) =>
      s.(disk := d.(index := None, failures := None, waitSafe := None, waitResult := None), pc := Exited(code))
    case _ => s
  }

  predicate Move(cfg: Config, s: State, input: Input, s': State) {
    Enabled(cfg, s, input) && s' == Step(cfg, s, input)
  }

  /** A run: the states it passes through and the inputs that lead from each to the next. */
  datatype Run = Run(states: seq<State>, inputs: seq<Input>)

  predicate IsRun(cfg: Config, r: Run) {
    && |r.states| == |r.inputs| + 1
    && r.states[0] == Init()
    && forall i :: 0 <= i < |r.inputs| ==> Move(cfg, r.states[i], r.inputs[i], r.states[i + 1])
  }

  function Final(r: Run): State
    requires r.states != []
  {
    r.states[|r.states| - 1]
  }

  /** Between the start of a reboot test and the machine going down. */
  predicate InWindow(pc: Pc) {
    pc.RebootRunning? || pc.GrepPending? || pc.PendingWrite? || pc.PendingExit?
  }

  predicate LastIsReboot(cfg: Config, s: State) {
    0 < |s.started| <= |cfg.kinds| && cfg.kinds[|s.started| - 1].RebootTest?
  }

  /** A reboot here would skip the test about to start, or repeat the one just run. */
  predicate LosesPlace(cfg: Config, s: State) {
    || s.pc.MarkSafe? || s.pc.MarkResult? || s.pc.StartReboot?
    || s.pc.ShellRunning? || s.pc.ShellWrite?
    || ((s.pc.TestStop? || s.pc.Advance?) && !LastIsReboot(cfg, s))
  }

  /** A reboot here would judge a test twice, or forget its verdict. */
  predicate LosesVerdict(pc: Pc) {
    pc.BootClear? || pc.EarlyClear? || pc.LateWrite?
  }

  predicate SafePoint(cfg: Config, s: State) {
    !LosesPlace(cfg, s) && !LosesVerdict(s.pc) && !s.pc.Disable? && !s.pc.RemoveState?
  }

  /** Every reboot of the run strikes at a safe point. */
  predicate SafeRun(cfg: Config, r: Run) {
    && IsRun(cfg, r)
    && forall i :: 0 <= i < |r.inputs| && r.inputs[i].Reboot? ==> SafePoint(cfg, r.states[i])
  }

  /** Every reboot of the run strikes inside the window. */
  predicate Windowed(cfg: Config, r: Run) {
    && IsRun(cfg, r)
    && forall i :: 0 <= i < |r.inputs| && r.inputs[i].Reboot? ==> InWindow(r.states[i].pc)
  }

  // ---------------------------------------------------------------- what a run guarantees

  function UpTo(n: nat): (r: seq<nat>) {
    seq(n, i => i)
  }

  function FailedCount(resolved: seq<Verdict>): nat {
    if resolved == [] then 0
    else Plus(FailedCount(resolved[..|resolved| - 1]), resolved[|resolved| - 1].failed)
  }

  /** Verdicts come in list order, one for each of the first |resolved| tests. */
  predicate InOrder(resolved: seq<Verdict>) {
    forall i :: 0 <= i < |resolved| ==> resolved[i].test == i
  }

  predicate NoneWaiting(d: Disk) {
    d.waitSafe.None? && d.waitResult.None?
  }

  predicate WaitingFor(d: Disk, test: nat) {
    d.waitSafe == Some(test) && d.waitResult == Some(test)
  }

  /** Nothing is unresolved and the files say so. */
  predicate Settled(s: State) {
    var n := |s.started|;
    |s.resolved| == n && s.disk.failures == Some(FailedCount(s.resolved))
  }

  /** The last started test is an unresolved reboot test and the files say so. */
  predicate Waiting(cfg: Config, s: State) {
    var n := |s.started|;
    && 0 < n <= |cfg.kinds| && |s.resolved| == n - 1
    && cfg.kinds[n - 1].RebootTest?
    && s.disk.index == Some(n)
    && s.disk.failures == Some(FailedCount(s.resolved))
    && WaitingFor(s.disk, n - 1)
  }

  predicate BetweenTests(cfg: Config, s: State) {
    && Settled(s) && NoneWaiting(s.disk)
    && s.idx == |s.started| && s.failures == FailedCount(s.resolved)
    && (cfg.stopOnFailure ==> s.failures == 0)
  }

  predicate DuringTest(s: State) {
    |s.started| > 0 && s.idx == |s.started| - 1
  }

  /** A reboot test marked its index before it started; a shell test marks it in Advance. */
  predicate PlaceAfterTest(cfg: Config, s: State) {
    s.disk.index == Some(if LastIsReboot(cfg, s) then |s.started| else |s.started| - 1)
  }

  predicate PcInvariant(cfg: Config, s: State)
    requires |s.started| <= |cfg.kinds|
    requires |s.resolved| <= |s.started| <= |s.resolved| + 1
  {
    var n := |s.started|;
    var d := s.disk;
    match s.pc
    case Boot => Waiting(cfg, s) || (Settled(s) && NoneWaiting(d) && d.index == Some(n))
    case BootWrite(failed) => Waiting(cfg, s) && s.failures == Plus(FailedCount(s.resolved), failed)
    case BootClear => Settled(s) && d.index == Some(n) && n > 0 && WaitingFor(d, n - 1)
    case BootStop => Settled(s) && NoneWaiting(d) && d.index == Some(n)
    case Load => Settled(s) && NoneWaiting(d) && d.index == Some(n) &&
                 (cfg.stopOnFailure ==> FailedCount(s.resolved) == 0)
    case Head => BetweenTests(cfg, s) && d.index == Some(n)
    case MarkIndex => BetweenTests(cfg, s) && d.index == Some(n) && n < |cfg.kinds| && cfg.kinds[n].RebootTest?
    case MarkSafe => BetweenTests(cfg, s) && d.index == Some(n + 1) && n < |cfg.kinds| && cfg.kinds[n].RebootTest?
    case MarkResult =>
      Settled(s) && s.idx == n && s.failures == FailedCount(s.resolved) && d.index == Some(n + 1) &&
      n < |cfg.kinds| && cfg.kinds[n].RebootTest? && d.waitSafe == Some(n) && (cfg.stopOnFailure ==> s.failures == 0)
    case StartReboot =>
      Settled(s) && s.idx == n && s.failures == FailedCount(s.resolved) && d.index == Some(n + 1) &&
      n < |cfg.kinds| && cfg.kinds[n].RebootTest? && WaitingFor(d, n) && (cfg.stopOnFailure ==> s.failures == 0)
    case RebootRunning => DuringTest(s) && Waiting(cfg, s) && s.failures == FailedCount(s.resolved)
    case GrepPending => DuringTest(s) && Waiting(cfg, s) && s.failures == FailedCount(s.resolved)
    case PendingWrite => DuringTest(s) && Waiting(cfg, s) && s.failures == FailedCount(s.resolved)
    case PendingExit => DuringTest(s) && Waiting(cfg, s)
    case EarlyRemove => DuringTest(s) && Waiting(cfg, s) && s.failures == FailedCount(s.resolved)
    case EarlyWrite => DuringTest(s) && Waiting(cfg, s) && s.failures == FailedCount(s.resolved) + 1
    case EarlyClear =>
      DuringTest(s) && Settled(s) && d.index == Some(n) && LastIsReboot(cfg, s) && WaitingFor(d, n - 1)
    case LateClear => DuringTest(s) && Waiting(cfg, s) && s.failures == FailedCount(s.resolved)
    case LateWrite(failed) =>
      DuringTest(s) && |s.resolved| == n - 1 && NoneWaiting(d) && d.index == Some(n) && LastIsReboot(cfg, s) &&
      d.failures == Some(FailedCount(s.resolved)) &&
      s.failures == Plus(FailedCount(s.resolved), failed)
    case ShellRunning =>
      DuringTest(s) && |s.resolved| == n - 1 && NoneWaiting(d) && d.index == Some(n - 1) && !LastIsReboot(cfg, s) &&
      d.failures == Some(FailedCount(s.resolved)) && s.failures == FailedCount(s.resolved)
    case ShellWrite =>
      DuringTest(s) && |s.resolved| == n - 1 && NoneWaiting(d) && d.index == Some(n - 1) && !LastIsReboot(cfg, s) &&
      d.failures == Some(FailedCount(s.resolved)) && s.failures == FailedCount(s.resolved) + 1
    case TestStop => DuringTest(s) && Settled(s) && NoneWaiting(d) && PlaceAfterTest(cfg, s)
    case Advance => DuringTest(s) && Settled(s) && NoneWaiting(d) && PlaceAfterTest(cfg, s) &&
                    s.failures == FailedCount(s.resolved) && (cfg.stopOnFailure ==> s.failures == 0)
    case Disable(code) => Settled(s) && NoneWaiting(d) && Ended(cfg, s, code) &&
                          (StopsSequence(cfg, s) || d.index == Some(n))
    case RemoveState(code) => Settled(s) && NoneWaiting(d) && Ended(cfg, s, code) && !d.enabled
    case Exited(code) => |s.resolved| == n && Ended(cfg, s, code) && NoneWaiting(d)
    case PoweredOff => false
  }

  /** The two ways a sequence may end, and the exit code of each. */
  predicate Ended(cfg: Config, s: State, code: nat) {
    var failed := FailedCount(s.resolved);
    && code == (if failed == 0 then 0 else 1)
    && (|s.started| == |cfg.kinds| || (cfg.stopOnFailure && failed > 0))
  }

  predicate StopsSequence(cfg: Config, s: State) {
    cfg.stopOnFailure && FailedCount(s.resolved) > 0
  }

  /** With stop-on-NG, every test before the last started one passed. */
  predicate StoppedInTime(cfg: Config, s: State) {
    cfg.stopOnFailure ==>
      forall i :: 0 <= i < |s.resolved| && i + 1 < |s.started| ==> !s.resolved[i].failed
  }

  predicate Inv(cfg: Config, s: State) {
    && |s.started| <= |cfg.kinds|
    && |s.resolved| <= |s.started| <= |s.resolved| + 1
    && s.started == UpTo(|s.started|)
    && InOrder(s.resolved)
    && StoppedInTime(cfg, s)
    && (s.disk.enabled || s.pc.RemoveState? || s.pc.Exited?)
    && PcInvariant(cfg, s)
  }

  lemma FailedCountSnoc(resolved: seq<Verdict>, v: Verdict)
    ensures FailedCount(resolved + [v]) == Plus(FailedCount(resolved), v.failed)
  {
    assert (resolved + [v])[..|resolved|] == resolved;
  }

  lemma {:induction false} NoneFailed(resolved: seq<Verdict>)
    ensures FailedCount(resolved) == 0 <==> forall i :: 0 <= i < |resolved| ==> !resolved[i].failed
  {
    if resolved != [] {
      var front := resolved[..|resolved| - 1];
      NoneFailed(front);
      assert forall i :: 0 <= i < |front| ==> front[i] == resolved[i];
      assert resolved[|resolved| - 1].failed ==> FailedCount(resolved) > 0;
    }
  }

  lemma StartNext(cfg: Config, s: State, s': State)
    requires Inv(cfg, s) && (s.pc.Head? || s.pc.StartReboot?)
    requires s.idx < |cfg.kinds|
    requires s' == s.(started := s.started + [s.idx], own := None, pc := s'.pc)
    ensures s'.started == UpTo(|s.started| + 1) && StoppedInTime(cfg, s')
  {
    NoneFailed(s.resolved);
  }

  /** A verdict and its count are recorded together. */
  lemma JudgeLast(cfg: Config, s: State, s': State, failed: bool, own: bool)
    requires Inv(cfg, s) && |s.resolved| + 1 == |s.started|
    requires s'.resolved == s.resolved + [Verdict(|s.resolved|, failed, own)] && s'.started == s.started
    ensures FailedCount(s'.resolved) == Plus(FailedCount(s.resolved), failed)
    ensures InOrder(s'.resolved) && StoppedInTime(cfg, s')
  {
    FailedCountSnoc(s.resolved, Verdict(|s.resolved|, failed, own));
  }

  lemma BootKeepsInv(cfg: Config, s: State, input: Input)
    requires Inv(cfg, s) && Enabled(cfg, s, input) && !input.Reboot?
    requires s.pc.Boot? || s.pc.BootWrite? || s.pc.BootClear? || s.pc.BootStop? || s.pc.Load?
    ensures Inv(cfg, Step(cfg, s, input))
  {
    var s' := Step(cfg, s, input);
    if s.pc.BootWrite? {
      JudgeLast(cfg, s, s', s.pc.failed, OwnFailure(s));
    }
  }

  lemma LaunchKeepsInv(cfg: Config, s: State, input: Input)
    requires Inv(cfg, s) && Enabled(cfg, s, input) && !input.Reboot?
    requires s.pc.Head? || s.pc.MarkIndex? || s.pc.MarkSafe? || s.pc.MarkResult? || s.pc.StartReboot?
    ensures Inv(cfg, Step(cfg, s, input))
  {
    var s' := Step(cfg, s, input);
    if |s'.started| > |s.started| {
      StartNext(cfg, s, s');
    }
  }

  lemma WindowKeepsInv(cfg: Config, s: State, input: Input)
    requires Inv(cfg, s) && Enabled(cfg, s, input) && !input.Reboot?
    requires InWindow(s.pc)
    ensures Inv(cfg, Step(cfg, s, input))
  {
  }

  lemma ClearKeepsInv(cfg: Config, s: State)
    requires Inv(cfg, s) && (s.pc.EarlyRemove? || s.pc.EarlyClear? || s.pc.LateClear?)
    ensures Inv(cfg, Step(cfg, s, Go))
  {
  }

  lemma EarlyFailureKeepsInv(cfg: Config, s: State)
    requires Inv(cfg, s) && s.pc.EarlyWrite?
    ensures Inv(cfg, Step(cfg, s, Go))
  {
    JudgeLast(cfg, s, Command(cfg, s), true, OwnFailure(s));
    hide FailedCount, StoppedInTime, InOrder, UpTo, OwnFailure;
  }

  lemma LateVerdictKeepsInv(cfg: Config, s: State)
    requires Inv(cfg, s) && s.pc.LateWrite?
    ensures Inv(cfg, Step(cfg, s, Go))
  {
    JudgeLast(cfg, s, Command(cfg, s), s.pc.failed, OwnFailure(s));
    hide FailedCount, StoppedInTime, InOrder, UpTo, OwnFailure;
  }

  lemma ShellFailureKeepsInv(cfg: Config, s: State)
    requires Inv(cfg, s) && s.pc.ShellWrite?
    ensures Inv(cfg, Step(cfg, s, Go))
  {
    JudgeLast(cfg, s, Command(cfg, s), true, OwnFailure(s));
    hide FailedCount, StoppedInTime, InOrder, UpTo, OwnFailure;
  }

  lemma ShellExitKeepsInv(cfg: Config, s: State, input: Input)
    requires Inv(cfg, s) && Enabled(cfg, s, input) && !input.Reboot? && s.pc.ShellRunning?
    ensures Inv(cfg, Step(cfg, s, input))
  {
    var s' := Step(cfg, s, input);
    if |s'.resolved| > |s.resolved| {
      JudgeLast(cfg, s, s', false, false);
    }
  }

  lemma EndKeepsInv(cfg: Config, s: State)
    requires Inv(cfg, s) && (s.pc.TestStop? || s.pc.Advance? || s.pc.Disable? || s.pc.RemoveState?)
    ensures Inv(cfg, Step(cfg, s, Go))
  {
  }

  /** Every command, every test outcome and every reboot at a safe point keeps the invariant. */
  lemma StepKeepsInv(cfg: Config, s: State, input: Input)
    requires Inv(cfg, s) && Enabled(cfg, s, input)
    requires input.Reboot? ==> SafePoint(cfg, s)
    ensures Inv(cfg, Step(cfg, s, input))
  {
    if input.Reboot? {
      RebootKeepsInvIff(cfg, s);
    } else if s.pc.Boot? || s.pc.BootWrite? || s.pc.BootClear? || s.pc.BootStop? || s.pc.Load? {
      BootKeepsInv(cfg, s, input);
    } else if s.pc.Head? || s.pc.MarkIndex? || s.pc.MarkSafe? || s.pc.MarkResult? || s.pc.StartReboot? {
      LaunchKeepsInv(cfg, s, input);
    } else if InWindow(s.pc) {
      WindowKeepsInv(cfg, s, input);
    } else if s.pc.EarlyRemove? || s.pc.EarlyClear? || s.pc.LateClear? {
      ClearKeepsInv(cfg, s);
    } else if s.pc.EarlyWrite? {
      EarlyFailureKeepsInv(cfg, s);
    } else if s.pc.LateWrite? {
      LateVerdictKeepsInv(cfg, s);
    } else if s.pc.ShellWrite? {
      ShellFailureKeepsInv(cfg, s);
    } else if s.pc.ShellRunning? {
      ShellExitKeepsInv(cfg, s, input);
    } else {
      EndKeepsInv(cfg, s);
    }
  }

  /** Exactly the safe points survive a reboot as far as the place in the list and the number of
      verdicts go: anywhere else the files no longer agree with what was started and judged. */
  lemma RebootKeepsInvIff(cfg: Config, s: State)
    requires Inv(cfg, s) && Enabled(cfg, s, Reboot)
    requires !s.pc.Disable? && !s.pc.RemoveState?
    ensures Inv(cfg, Step(cfg, s, Reboot)) <==> SafePoint(cfg, s)
  {
  }

  // ---------------------------------------------------------------- whether verdicts are true

  predicate AllTrue(resolved: seq<Verdict>) {
    forall i :: 0 <= i < |resolved| ==> resolved[i].failed == resolved[i].own
  }

  /** What a boot makes of the files of the test it waits for. */
  predicate Says(d: Disk) {
    d.busy || d.result.None? || d.result.value.ng
  }

  /** The files say what the test has come to, or it is still to come. */
  predicate Tells(s: State) {
    s.own.None? || s.own.value == Says(s.disk)
  }

  /** What the script knows about a test that it judges without a boot between. */
  predicate KnowsOwn(s: State) {
    match s.pc
    case RebootRunning => s.own.None?
    case GrepPending =>
      s.own == if s.disk.result.Some? && s.disk.result.value.pending then None
               else Some(s.disk.result.Some? && s.disk.result.value.ng)
    case PendingWrite => s.own.None?
    case PendingExit => s.own.None?
    case EarlyRemove => s.own == Some(true)
    case EarlyWrite => s.own == Some(true) && s.disk.result.None?
    case LateClear => s.own == Some(s.disk.result.Some? && s.disk.result.value.ng)
    case LateWrite(failed) => s.own == Some(failed)
    case ShellWrite => s.own == Some(true)
    case _ => true
  }

  lemma StepKeepsOwn(cfg: Config, s: State, input: Input)
    requires KnowsOwn(s) && Enabled(cfg, s, input)
    ensures KnowsOwn(Step(cfg, s, input))
  {
  }

  /** Where a reboot leaves files behind that do not tell: after a boot has looked, and while a
      test that has returned is not judged. */
  lemma WhereFilesMislead(cfg: Config, s: State)
    requires Inv(cfg, s) && KnowsOwn(s) && |s.resolved| < |s.started| && WaitingFor(s.disk, |s.started| - 1)
    ensures !Tells(s) ==>
              match s.pc
              case Boot => true
              case BootWrite(_) => true
              case EarlyRemove => !s.disk.busy && s.disk.result.Some? && !s.disk.result.value.ng
              case GrepPending => s.disk.busy || s.disk.result.None?
              case LateClear => s.disk.busy || s.disk.result.None?
              case _ => false
  {
  }
}
