/** What holds over whole runs of the resume protocol, however many reboots they contain. */
module ResumeTheorems {
  import opened Options
  import opened ResumeProtocol

  lemma {:induction false} RunKeepsInv(cfg: Config, r: Run, k: nat)
    requires SafeRun(cfg, r) && k < |r.states|
    ensures Inv(cfg, r.states[k])
  {
    if k > 0 {
      RunKeepsInv(cfg, r, k - 1);
      assert Move(cfg, r.states[k - 1], r.inputs[k - 1], r.states[k]);
      StepKeepsInv(cfg, r.states[k - 1], r.inputs[k - 1]);
    }
  }

  /** Exactly once, in list order: at every moment of a run the started tests are the first
      ones of the list, each once; and once the script has exited all were started, unless
      stop-on-NG ended it after a failure. */
  predicate InListOrder(cfg: Config, s: State) {
    && |s.started| <= |cfg.kinds|
    && (forall i :: 0 <= i < |s.started| ==> s.started[i] == i)
    && (s.pc.Exited? && !(cfg.stopOnFailure && exists v :: v in s.resolved && v.failed)
        ==> |s.started| == |cfg.kinds|)
  }

  lemma InvInListOrder(cfg: Config, s: State)
    requires Inv(cfg, s)
    ensures InListOrder(cfg, s)
  {
    NoneFailed(s.resolved);
  }

  lemma ExactlyOnceInOrder(cfg: Config, r: Run)
    requires SafeRun(cfg, r)
    ensures forall k :: 0 <= k < |r.states| ==> InListOrder(cfg, r.states[k])
  {
    forall k | 0 <= k < |r.states|
      ensures InListOrder(cfg, r.states[k])
    {
      RunKeepsInv(cfg, r, k);
      InvInListOrder(cfg, r.states[k]);
    }
  }

  /** Each test judged once, in order; the failures file counts the failed ones until the state
      directory is removed; the exit code says whether there were any. */
  predicate Accounted(s: State) {
    && |s.resolved| <= |s.started| <= |s.resolved| + 1
    && (forall i :: 0 <= i < |s.resolved| ==> s.resolved[i].test == i)
    && (!s.pc.Exited? ==> s.disk.failures == Some(FailedCount(s.resolved)))
    && (s.pc.Exited? ==>
          |s.resolved| == |s.started| &&
          (s.pc.code == 0 <==> forall i :: 0 <= i < |s.resolved| ==> !s.resolved[i].failed))
  }

  /** Outside the commands that write or remove them, the waiting files exist exactly while
      the last started test is a reboot test without a verdict. */
  predicate WaitFilesTrue(cfg: Config, s: State) {
    LosesVerdict(s.pc) || s.pc.MarkResult? || s.pc.StartReboot? ||
    if LastIsReboot(cfg, s) && |s.resolved| < |s.started|
    then WaitingFor(s.disk, |s.started| - 1)
    else NoneWaiting(s.disk)
  }

  lemma InvAccounts(cfg: Config, s: State)
    requires Inv(cfg, s)
    ensures Accounted(s)
  {
    NoneFailed(s.resolved);
  }

  lemma InvWaits(cfg: Config, s: State)
    requires Inv(cfg, s)
    ensures WaitFilesTrue(cfg, s)
  {
  }

  lemma FailuresAreCounted(cfg: Config, r: Run)
    requires SafeRun(cfg, r)
    ensures forall k :: 0 <= k < |r.states| ==> Accounted(r.states[k]) && WaitFilesTrue(cfg, r.states[k])
  {
    forall k | 0 <= k < |r.states|
      ensures Accounted(r.states[k]) && WaitFilesTrue(cfg, r.states[k])
    {
      RunKeepsInv(cfg, r, k);
      InvAccounts(cfg, r.states[k]);
      InvWaits(cfg, r.states[k]);
    }
  }

  lemma StartNeedsNoFailure(cfg: Config, s: State, input: Input)
    requires Inv(cfg, s) && Enabled(cfg, s, input) && cfg.stopOnFailure
    requires Step(cfg, s, input).started != s.started
    ensures s.disk.failures == Some(0) && forall i :: 0 <= i < |s.resolved| ==> !s.resolved[i].failed
  {
    NoneFailed(s.resolved);
  }

  /** With stop-on-NG a test starts only while the failures file is 0 and every verdict so
      far is a pass. */
  lemma NoStartAfterFailure(cfg: Config, r: Run, k: nat)
    requires SafeRun(cfg, r) && cfg.stopOnFailure && k < |r.inputs|
    requires r.states[k + 1].started != r.states[k].started
    ensures r.states[k].disk.failures == Some(0)
    ensures forall i :: 0 <= i < |r.states[k].resolved| ==> !r.states[k].resolved[i].failed
  {
    RunKeepsInv(cfg, r, k);
    assert Move(cfg, r.states[k], r.inputs[k], r.states[k + 1]);
    StartNeedsNoFailure(cfg, r.states[k], r.inputs[k]);
  }

  // ---------------------------------------------------------------- true verdicts

  /** The moment the machine last came up, or the first one. */
  function LastBoot(r: Run, k: nat): (b: nat)
    requires k <= |r.inputs|
    ensures b <= k
  {
    if k == 0 || r.inputs[k - 1].Reboot? then k else LastBoot(r, k - 1)
  }

  /** What a boot has seen of the files it found. */
  predicate Looked(booted: State, s: State) {
    match s.pc
    case Boot => s.own == booted.own && s.disk == booted.disk
    case BootWrite(failed) => failed == OwnFailure(s) <==> Tells(booted)
    case _ => true
  }

  lemma LookStep(cfg: Config, booted: State, s: State, input: Input)
    requires Inv(cfg, s) && Looked(booted, s) && Enabled(cfg, s, input) && !input.Reboot?
    ensures Looked(booted, Step(cfg, s, input))
  {
  }

  lemma {:induction false} LooksAtFiles(cfg: Config, r: Run, k: nat)
    requires SafeRun(cfg, r) && k < |r.states|
    ensures Looked(r.states[LastBoot(r, k)], r.states[k]) && KnowsOwn(r.states[k])
  {
    hide Inv, Looked, KnowsOwn, Step, Enabled, SafePoint;
    if k == 0 {
      AtBoot(Init());
    } else {
      var s, input := r.states[k - 1], r.inputs[k - 1];
      LooksAtFiles(cfg, r, k - 1);
      RunKeepsInv(cfg, r, k - 1);
      assert Move(cfg, s, input, r.states[k]);
      StepKeepsOwn(cfg, s, input);
      if input.Reboot? {
        RebootedAtBoot(cfg, s);
        AtBoot(r.states[k]);
      } else {
        LookStep(cfg, r.states[LastBoot(r, k - 1)], s, input);
      }
    }
  }

  lemma AtBoot(s: State)
    requires s.pc.Boot?
    ensures Looked(s, s) && KnowsOwn(s)
  {
  }

  lemma RebootedAtBoot(cfg: Config, s: State)
    requires Inv(cfg, s) && SafePoint(cfg, s) && Enabled(cfg, s, Reboot)
    ensures Step(cfg, s, Reboot).pc.Boot?
  {
  }

  /** A step that judges: the verdict is the test's own, except that a boot judges by files. */
  lemma JudgingStep(cfg: Config, booted: State, s: State, input: Input)
    requires Inv(cfg, s) && Looked(booted, s) && KnowsOwn(s) && Enabled(cfg, s, input)
    ensures var after := Step(cfg, s, input).resolved;
            || after == s.resolved
            || (after == s.resolved + [after[|s.resolved|]]
                && (after[|s.resolved|].failed == after[|s.resolved|].own
                    <==> (s.pc.BootWrite? && input.Go? ==> Tells(booted))))
    ensures s.pc.BootWrite? && input.Go? ==> Step(cfg, s, input).resolved != s.resolved
  {
  }

  lemma OneMoreVerdict(resolved: seq<Verdict>, v: Verdict)
    ensures AllTrue(resolved + [v]) <==> AllTrue(resolved) && v.failed == v.own
  {
    var more := resolved + [v];
    assert more[|resolved|] == v;
    assert forall i :: 0 <= i < |resolved| ==> more[i] == resolved[i];
  }

  /** Every boot that wrote a verdict before the k-th state had come up to files that told what
      the test had come to. */
  predicate BootsWereTold(r: Run, k: nat)
    requires |r.states| == |r.inputs| + 1 && k <= |r.inputs|
  {
    forall j :: 0 <= j < k && r.states[j].pc.BootWrite? && r.inputs[j].Go? ==> Tells(r.states[LastBoot(r, j)])
  }

  lemma MoveAt(cfg: Config, r: Run, k: nat)
    requires SafeRun(cfg, r) && k < |r.inputs|
    ensures |r.states| == |r.inputs| + 1
    ensures Enabled(cfg, r.states[k], r.inputs[k]) && r.states[k + 1] == Step(cfg, r.states[k], r.inputs[k])
  {
    hide Enabled, Step;
    assert Move(cfg, r.states[k], r.inputs[k], r.states[k + 1]);
  }

  lemma TruthStep(cfg: Config, r: Run, k: nat)
    requires SafeRun(cfg, r) && k < |r.inputs|
    ensures var s, input := r.states[k], r.inputs[k];
            AllTrue(r.states[k + 1].resolved)
            <==> AllTrue(s.resolved) && (s.pc.BootWrite? && input.Go? ==> Tells(r.states[LastBoot(r, k)]))
  {
    hide Inv, Looked, KnowsOwn, Step, Enabled, SafePoint, AllTrue, Tells, LastBoot;
    MoveAt(cfg, r, k);
    RunKeepsInv(cfg, r, k);
    LooksAtFiles(cfg, r, k);
    hide SafeRun, IsRun;
    var before, after := r.states[k].resolved, r.states[k + 1].resolved;
    JudgingStep(cfg, r.states[LastBoot(r, k)], r.states[k], r.inputs[k]);
    if after != before { OneMoreVerdict(before, after[|before|]); }
  }

  /** At every moment of every run with reboots at safe points: all verdicts are the tests' own
      if and only if every boot that judged a test found files that told what it had come to. */
  lemma {:induction false} VerdictsAreTrueIff(cfg: Config, r: Run, k: nat)
    requires SafeRun(cfg, r) && k < |r.states|
    ensures AllTrue(r.states[k].resolved) <==> BootsWereTold(r, k)
  {
    hide AllTrue, Tells, SafePoint, Step, Enabled, BootsWereTold;
    if k > 0 {
      VerdictsAreTrueIff(cfg, r, k - 1);
      TruthStep(cfg, r, k - 1);
      BootsWereToldStep(r, k);
    } else {
      NoVerdict(r);
    }
  }

  lemma BootsWereToldStep(r: Run, k: nat)
    requires |r.states| == |r.inputs| + 1 && 0 < k <= |r.inputs|
    ensures var s, input := r.states[k - 1], r.inputs[k - 1];
            BootsWereTold(r, k)
            <==> BootsWereTold(r, k - 1) && (s.pc.BootWrite? && input.Go? ==> Tells(r.states[LastBoot(r, k - 1)]))
  {
    hide Tells, LastBoot;
  }

  lemma NoVerdict(r: Run)
    requires |r.states| == |r.inputs| + 1 && r.states[0] == Init()
    ensures AllTrue(r.states[0].resolved) && BootsWereTold(r, 0)
  {
  }

  // ---------------------------------------------------------------- every run ends

  /** How far a command is from the next test start. */
  function Rank(pc: Pc): nat {
    match pc
    case RebootRunning => 22
    case GrepPending => 21
    case PendingWrite => 20
    case PendingExit => 19
    case EarlyRemove => 19
    case EarlyWrite => 18
    case EarlyClear => 17
    case LateClear => 18
    case LateWrite(_) => 17
    case ShellRunning => 18
    case ShellWrite => 17
    case Boot => 16
    case BootWrite(_) => 15
    case BootClear => 14
    case TestStop => 13
    case BootStop => 13
    case Advance => 12
    case Load => 12
    case Head => 11
    case MarkIndex => 10
    case MarkSafe => 9
    case MarkResult => 8
    case StartReboot => 7
    case Disable(_) => 2
    case RemoveState(_) => 1
    case Exited(_) => 0
    case PoweredOff => 0
  }

  function Fuel(cfg: Config, s: State): int {
    (|cfg.kinds| - |s.started|) * 16 + Rank(s.pc)
  }

  lemma RankFalls(cfg: Config, s: State, input: Input)
    requires Enabled(cfg, s, input) && (input.Reboot? ==> InWindow(s.pc))
    ensures var s' := Step(cfg, s, input);
            || (s'.started == s.started && Rank(s'.pc) < Rank(s.pc))
            || (s'.started == s.started + [s.idx] && Rank(s'.pc) < Rank(s.pc) + 16)
  {
    if input.Go? {
      CommandRankFalls(cfg, s);
    }
  }

  lemma CommandRankFalls(cfg: Config, s: State)
    requires Enabled(cfg, s, Go)
    ensures var s' := Command(cfg, s);
            || (s'.started == s.started && Rank(s'.pc) < Rank(s.pc))
            || (s'.started == s.started + [s.idx] && Rank(s'.pc) < Rank(s.pc) + 16)
  {
  }

  lemma MoveBurnsFuel(cfg: Config, s: State, input: Input, s': State)
    requires Move(cfg, s, input, s') && (input.Reboot? ==> InWindow(s.pc))
    ensures Fuel(cfg, s') + 1 <= Fuel(cfg, s)
  {
    RankFalls(cfg, s, input);
  }

  lemma {:induction false} RunBurnsFuel(cfg: Config, r: Run, k: nat)
    requires Windowed(cfg, r) && k < |r.states|
    ensures k + Fuel(cfg, r.states[k]) <= Fuel(cfg, r.states[0])
  {
    if k > 0 {
      RunBurnsFuel(cfg, r, k - 1);
      MoveBurnsFuel(cfg, r.states[k - 1], r.inputs[k - 1], r.states[k]);
    }
  }

  ghost predicate CanContinue(cfg: Config, s: State) {
    exists input :: Enabled(cfg, s, input) && (input.Reboot? ==> InWindow(s.pc))
  }

  /** Every run whose reboots strike inside the window has a bounded number of steps, and a
      run that cannot be continued has exited: so each reaches the end of the list or a stop. */
  lemma EveryRunEnds(cfg: Config, r: Run)
    requires Windowed(cfg, r)
    ensures |r.inputs| <= 16 * |cfg.kinds| + 16
    ensures Final(r).pc.Exited? || CanContinue(cfg, Final(r))
  {
    var s := Final(r);
    RunKeepsInv(cfg, r, |r.inputs|);
    RunBurnsFuel(cfg, r, |r.inputs|);
    assert Rank(s.pc) >= 0;
    var next := if s.pc.PendingExit? then Reboot
                else if s.pc.RebootRunning? || s.pc.ShellRunning? then TestExit(0, None, false)
                else if Asks(s) && s.own.Some? then WaitOver(s.disk.busy, s.disk.result)
                else if Asks(s) then WaitOver(false, None)
                else Go;
    assert s.pc.Exited? || Enabled(cfg, s, next);
  }

  // ---------------------------------------------------------------- reboots elsewhere

  /** Where a script restarted from these files stands until it starts a test. */
  predicate Restarting(s: State, started: seq<nat>, next: nat) {
    || (s.started == started &&
        match s.pc
        case Boot => ReadNum(s.disk.index) == next
        case BootWrite(_) => ReadNum(s.disk.index) == next
        case BootClear => ReadNum(s.disk.index) == next
        case BootStop => ReadNum(s.disk.index) == next
        case Load => ReadNum(s.disk.index) == next
        case Head => s.idx == next
        case MarkIndex => s.idx == next
        case MarkSafe => s.idx == next
        case MarkResult => s.idx == next
        case StartReboot => s.idx == next
        case Disable(_) => true
        case RemoveState(_) => true
        case Exited(_) => true
        case PoweredOff => true
        case _ => false)
    || (|s.started| > |started| && s.started[..|started| + 1] == started + [next])
  }

  lemma RestartStep(cfg: Config, s: State, input: Input, started: seq<nat>, next: nat)
    requires Enabled(cfg, s, input) && !input.Reboot? && Restarting(s, started, next)
    ensures Restarting(Step(cfg, s, input), started, next)
  {
    var s' := Step(cfg, s, input);
    if |s.started| > |started| {
      assert s'.started[..|started| + 1] == s.started[..|started| + 1];
    }
  }

  /** The states that follow one another without a further reboot. */
  predicate Follows(cfg: Config, states: seq<State>, inputs: seq<Input>) {
    && |states| == |inputs| + 1
    && forall i :: 0 <= i < |inputs| ==> !inputs[i].Reboot? && Move(cfg, states[i], inputs[i], states[i + 1])
  }

  lemma {:induction false} RestartRuns(cfg: Config, states: seq<State>, inputs: seq<Input>, k: nat,
        started: seq<nat>, next: nat)
    requires Follows(cfg, states, inputs) && k < |states|
    requires Restarting(states[0], started, next)
    ensures Restarting(states[k], started, next)
  {
    if k > 0 {
      RestartRuns(cfg, states, inputs, k - 1, started, next);
      assert Move(cfg, states[k - 1], inputs[k - 1], states[k]);
      RestartStep(cfg, states[k - 1], inputs[k - 1], started, next);
    }
  }

  /** After a reboot at any point of the loop the next test started is the one the index file
      names; it is the right one exactly when the script had not lost its place. */
  lemma NextStartAfterReboot(cfg: Config, before: State, states: seq<State>, inputs: seq<Input>, k: nat)
    requires Inv(cfg, before) && Enabled(cfg, before, Reboot)
    requires !before.pc.Disable? && !before.pc.RemoveState?
    requires Follows(cfg, states, inputs) && states[0] == Step(cfg, before, Reboot)
    requires k < |states| && |states[k].started| > |before.started|
    ensures states[k].started[..|before.started| + 1] == before.started + [ReadNum(before.disk.index)]
    ensures states[k].started[|before.started|] == |before.started| <==> !LosesPlace(cfg, before)
  {
    var n := |before.started|;
    RestartRuns(cfg, states, inputs, k, before.started, ReadNum(before.disk.index));
    assert states[k].started[n] == states[k].started[..n + 1][n];
  }

  // ---------------------------------------------------------------- verdicts over a reboot

  /** Every started test has one verdict, in order. */
  predicate Judged(s: State) {
    |s.resolved| == |s.started| && forall i :: 0 <= i < |s.resolved| ==> s.resolved[i].test == i
  }

  /** Commands at which the waiting files, the verdicts and the started tests agree. */
  predicate KeepsVerdict(pc: Pc) {
    !LosesVerdict(pc) && !pc.MarkResult? && !pc.StartReboot? && !pc.ShellRunning? && !pc.ShellWrite?
  }

  /** The verdicts that a boot from these files adds: one if a test is waited for, the test's own
      if the files tell. */
  predicate BootVerdict(booted: State, s: State) {
    if booted.disk.waitSafe.None? then s.resolved == booted.resolved
    else
      && |s.resolved| == |booted.resolved| + 1
      && var v := s.resolved[|booted.resolved|];
         && s.resolved == booted.resolved + [v] && v.test == booted.disk.waitSafe.value
         && (booted.disk.waitResult.Some? ==> (v.failed == v.own <==> Tells(booted)))
  }

  /** Where a boot stands until the waiting test has its verdict; nothing is said of later. */
  predicate Booting(booted: State, s: State) {
    match s.pc
    case Boot => s == booted
    case BootWrite(failed) =>
      s.started == booted.started && s.resolved == booted.resolved &&
      s.disk.waitSafe.Some? && s.disk.waitSafe == booted.disk.waitSafe &&
      (booted.disk.waitResult.Some? ==> (failed == OwnFailure(s) <==> Tells(booted)))
    case BootClear => s.started == booted.started && booted.disk.waitSafe.Some? && BootVerdict(booted, s)
    case BootStop => s.started == booted.started && BootVerdict(booted, s)
    case _ => true
  }

  lemma BootingStep(cfg: Config, booted: State, s: State, input: Input)
    requires Enabled(cfg, s, input) && !input.Reboot? && Booting(booted, s) && booted.pc.Boot?
    ensures Booting(booted, Step(cfg, s, input))
  {
  }

  lemma {:induction false} BootingRuns(cfg: Config, states: seq<State>, inputs: seq<Input>, k: nat)
    requires Follows(cfg, states, inputs) && k < |states| && states[0].pc.Boot?
    ensures Booting(states[0], states[k])
  {
    if k > 0 {
      BootingRuns(cfg, states, inputs, k - 1);
      assert Move(cfg, states[k - 1], inputs[k - 1], states[k]);
      BootingStep(cfg, states[0], states[k - 1], inputs[k - 1]);
    }
  }

  lemma WaitingVerdictIff(cfg: Config, before: State, s: State)
    requires Inv(cfg, before) && Enabled(cfg, before, Reboot) && !before.pc.Disable? && !before.pc.RemoveState?
    requires s.started == before.started && BootVerdict(Step(cfg, before, Reboot), s)
    ensures Judged(s) <==> KeepsVerdict(before.pc)
  {
  }

  lemma TrueVerdictIff(cfg: Config, before: State, s: State)
    requires Inv(cfg, before) && AllTrue(before.resolved) && KeepsVerdict(before.pc)
    requires Enabled(cfg, before, Reboot) && !before.pc.Disable? && !before.pc.RemoveState?
    requires BootVerdict(Step(cfg, before, Reboot), s)
    ensures AllTrue(s.resolved) <==> (|before.resolved| < |before.started| ==> Tells(before))
  {
    var booted := Step(cfg, before, Reboot);
    assert booted.disk.waitSafe.Some? <==> |before.resolved| < |before.started|;
    if booted.disk.waitSafe.Some? {
      assert booted.disk.waitResult.Some? && (Tells(booted) <==> Tells(before));
      hide Inv, Tells, Step, AllTrue;
      OneMoreVerdict(booted.resolved, s.resolved[|booted.resolved|]);
    }
  }

  /** After a reboot at any point of the loop, once the new boot has judged the test it waited
      for: every started test has exactly one verdict if and only if the reboot struck at a
      command where the files agree with what was started and judged; and these are the tests'
      own verdicts if and only if, besides, the files of an unjudged test told its end. */
  lemma JudgedAfterRebootIff(cfg: Config, before: State, states: seq<State>, inputs: seq<Input>, k: nat)
    requires Inv(cfg, before) && AllTrue(before.resolved) && Enabled(cfg, before, Reboot)
    requires !before.pc.Disable? && !before.pc.RemoveState?
    requires Follows(cfg, states, inputs) && states[0] == Step(cfg, before, Reboot)
    requires k < |states| && states[k].pc.BootStop?
    ensures Judged(states[k]) <==> KeepsVerdict(before.pc)
    ensures Judged(states[k]) && AllTrue(states[k].resolved)
            <==> KeepsVerdict(before.pc) && (|before.resolved| < |before.started| ==> Tells(before))
  {
    assert states[0].pc.Boot?;
    hide Inv, BootVerdict, Judged, AllTrue, Tells;
    BootingRuns(cfg, states, inputs, k);
    WaitingVerdictIff(cfg, before, states[k]);
    if KeepsVerdict(before.pc) { TrueVerdictIff(cfg, before, states[k]); }
  }

  // ---------------------------------------------------------------- reboots during cleanup

  /** The script has started all it will start, and its files say so. */
  predicate Over(cfg: Config, s: State, before: State) {
    && s.started == before.started && s.resolved == before.resolved && s.disk.waitSafe.None?
    && match s.pc
       case Boot => EndsAtOnce(cfg, s)
       case BootStop => EndsAtOnce(cfg, s)
       case Load => ReadNum(s.disk.index) >= |cfg.kinds|
       case Head => ReadNum(s.disk.index) >= |cfg.kinds| && s.idx >= |cfg.kinds|
       case Disable(_) => EndsAtOnce(cfg, s)
       case RemoveState(_) => !s.disk.enabled
       case Exited(_) => true
       case PoweredOff => true
       case _ => false
  }

  predicate EndsAtOnce(cfg: Config, s: State) {
    (cfg.stopOnFailure && ReadNum(s.disk.failures) > 0) || ReadNum(s.disk.index) >= |cfg.kinds|
  }

  lemma CleanupIsOver(cfg: Config, s: State)
    requires Inv(cfg, s) && (s.pc.Disable? || s.pc.RemoveState?)
    ensures Over(cfg, s, s)
  {
  }

  lemma OverStep(cfg: Config, s: State, input: Input, before: State)
    requires Enabled(cfg, s, input) && Over(cfg, s, before)
    ensures Over(cfg, Step(cfg, s, input), before)
  {
  }

  /** From cleanup on, through any number of reboots, nothing is started and nothing judged again,
      whether the list ended or a failure stopped it. */
  lemma {:induction false} CleanupStartsNothing(cfg: Config, states: seq<State>, inputs: seq<Input>, k: nat)
    requires |states| == |inputs| + 1 && k < |states|
    requires forall i :: 0 <= i < |inputs| ==> Move(cfg, states[i], inputs[i], states[i + 1])
    requires Inv(cfg, states[0]) && (states[0].pc.Disable? || states[0].pc.RemoveState?)
    ensures states[k].started == states[0].started && states[k].resolved == states[0].resolved
    ensures Over(cfg, states[k], states[0])
  {
    hide Inv, Step, Enabled;
    if k == 0 {
      CleanupIsOver(cfg, states[0]);
    } else {
      CleanupStartsNothing(cfg, states, inputs, k - 1);
      assert Move(cfg, states[k - 1], inputs[k - 1], states[k]);
      OverStep(cfg, states[k - 1], inputs[k - 1], states[0]);
    }
  }

  // ---------------------------------------------------------------- runs that go wrong

  lemma Continued(cfg: Config, r: Run, input: Input) returns (longer: Run)
    requires IsRun(cfg, r) && Enabled(cfg, Final(r), input)
    ensures IsRun(cfg, longer) && Final(longer) == Step(cfg, Final(r), input)
  {
    longer := Run(r.states + [Step(cfg, Final(r), input)], r.inputs + [input]);
    forall i | 0 <= i < |longer.inputs|
      ensures Move(cfg, longer.states[i], longer.inputs[i], longer.states[i + 1])
    {
      if i < |r.inputs| { assert Move(cfg, r.states[i], r.inputs[i], r.states[i + 1]); }
    }
  }

  lemma Safely(cfg: Config, r: Run, input: Input) returns (longer: Run)
    requires SafeRun(cfg, r) && Enabled(cfg, Final(r), input) && (input.Reboot? ==> SafePoint(cfg, Final(r)))
    ensures SafeRun(cfg, longer) && Final(longer) == Step(cfg, Final(r), input)
    ensures Extends(r, longer, input)
  {
    longer := Run(r.states + [Step(cfg, Final(r), input)], r.inputs + [input]);
    forall i | 0 <= i < |longer.inputs|
      ensures Move(cfg, longer.states[i], longer.inputs[i], longer.states[i + 1])
    {
      if i < |r.inputs| { assert Move(cfg, r.states[i], r.inputs[i], r.states[i + 1]); }
    }
  }

  predicate Extends(r: Run, longer: Run, input: Input) {
    && |r.states| == |r.inputs| + 1 && |longer.inputs| == |r.inputs| + 1 && |longer.states| == |r.states| + 1
    && r.states <= longer.states && r.inputs <= longer.inputs && longer.inputs[|r.inputs|] == input
  }

  /** A reboot while a shell test runs starts that test a second time. */
  lemma ShellTestStartsTwice(cfg: Config) returns (r: Run)
    requires cfg.kinds != [] && cfg.kinds[0].ShellTest?
    ensures IsRun(cfg, r) && Final(r).started == [0, 0]
  {
    r := RunToHead(cfg);
    SafeIsRun(cfg, r);
    hide IsRun, SafeRun;
    r := Continued(cfg, r, Go);
    r := Continued(cfg, r, Reboot);
    r := Continued(cfg, r, Go);
    r := Continued(cfg, r, Go);
    r := Continued(cfg, r, Go);
    r := Continued(cfg, r, Go);
  }

  predicate FirstIsReboot(cfg: Config) {
    cfg.kinds != [] && cfg.kinds[0].RebootTest?
  }

  /** A run up to the loop. */
  lemma RunToHead(cfg: Config) returns (r: Run)
    ensures SafeRun(cfg, r)
    ensures Final(r) == Init().(pc := Head)
  {
    hide SafeRun, Extends;
    r := Run([Init()], []);
    OnlyInit(cfg);
    r := Safely(cfg, r, Go);
    r := Safely(cfg, r, Go);
    r := Safely(cfg, r, Go);
  }

  /** A run up to the start of a first test that reboots. */
  lemma RunToRebootTest(cfg: Config) returns (r: Run)
    requires FirstIsReboot(cfg)
    ensures SafeRun(cfg, r) && IsRun(cfg, r)
    ensures Final(r)
            == State(Disk(Some(1), Some(0), Some(0), Some(0), None, false, true), RebootRunning, 0, 0, [0], [], None)
  {
    r := RunToHead(cfg);
    hide SafeRun, Extends;
    r := Safely(cfg, r, Go);
    r := Safely(cfg, r, Go);
    r := Safely(cfg, r, Go);
    r := Safely(cfg, r, Go);
    r := Safely(cfg, r, Go);
    SafeIsRun(cfg, r);
  }

  lemma SafeIsRun(cfg: Config, r: Run)
    requires SafeRun(cfg, r)
    ensures IsRun(cfg, r)
  {
  }

  lemma OnlyInit(cfg: Config)
    ensures SafeRun(cfg, Run([Init()], [])) && IsRun(cfg, Run([Init()], []))
  {
  }

  /** A reboot between the count of an early failure and the removal of the waiting files
      judges the test a second time. */
  lemma EarlyFailureJudgedTwice(cfg: Config) returns (r: Run)
    requires FirstIsReboot(cfg)
    ensures IsRun(cfg, r) && Final(r).started == [0]
            && Final(r).resolved == [Verdict(0, true, true), Verdict(0, true, true)]
  {
    r := RunToRebootTest(cfg);
    hide IsRun, SafeRun;
    r := Continued(cfg, r, TestExit(1, None, false));
    r := Continued(cfg, r, Go);
    r := Continued(cfg, r, Go);
    r := Continued(cfg, r, Reboot);
    r := Continued(cfg, r, WaitOver(false, None));
    r := Continued(cfg, r, Go);
  }

  /** A reboot between the removal of the waiting files and the count of a test that did not
      reboot forgets its verdict: no later command looks for it. */
  lemma LateVerdictForgotten(cfg: Config) returns (r: Run)
    requires FirstIsReboot(cfg)
    ensures IsRun(cfg, r) && Final(r).pc.Load? && Final(r).started == [0] && Final(r).resolved == []
    ensures Final(r).disk.index == Some(1) && NoneWaiting(Final(r).disk)
  {
    r := RunToRebootTest(cfg);
    hide IsRun, SafeRun;
    r := Continued(cfg, r, TestExit(0, None, false));
    r := Continued(cfg, r, Go);
    r := Continued(cfg, r, Go);
    r := Continued(cfg, r, Reboot);
    r := Continued(cfg, r, Go);
    r := Continued(cfg, r, Go);
  }

  /** A second reboot before the boot has removed the waiting files doubles the verdict. */
  lemma BootVerdictDoubled(cfg: Config) returns (r: Run)
    requires FirstIsReboot(cfg)
    ensures IsRun(cfg, r) && Final(r).started == [0]
            && Final(r).resolved == [Verdict(0, true, true), Verdict(0, true, true)]
  {
    r := RunToRebootTest(cfg);
    hide IsRun, SafeRun;
    r := Continued(cfg, r, Reboot);
    r := Continued(cfg, r, WaitOver(false, None));
    r := Continued(cfg, r, Go);
    r := Continued(cfg, r, Reboot);
    r := Continued(cfg, r, WaitOver(false, None));
    r := Continued(cfg, r, Go);
  }

  function Passed(): Option<ResultFile> {
    Some(ResultFile(false, false))
  }

  /** The boot has found a pass and removed its file; a reboot before it has written the count,
      and the next boot counts a failure.  All reboots of the run are safe otherwise.  With
      stop-on-NG the list ends there. */
  lemma PassForgottenAtBoot(cfg: Config) returns (r: Run, at: nat)
    requires FirstIsReboot(cfg)
    ensures SafeRun(cfg, r) && at < |r.inputs| && r.inputs[at].Reboot? && !Tells(r.states[at])
    ensures r.states[at].pc == BootWrite(false)
    ensures Final(r).started == [0] && Final(r).resolved == [Verdict(0, true, false)]
    ensures cfg.stopOnFailure ==> Final(r).pc == Exited(1)
  {
    r := RunToRebootTest(cfg);
    hide IsRun, SafeRun, FirstIsReboot;
    r := Safely(cfg, r, Reboot);
    r := Safely(cfg, r, WaitOver(false, Passed()));
    at := |r.inputs|;
    r := Safely(cfg, r, Reboot);
    r := ForgottenPass(cfg, r, at);
  }

  /** A test that ends without a reboot and leaves no result file has passed; a reboot before
      its waiting files are removed, and the next boot counts a failure. */
  lemma PassWithoutFileForgotten(cfg: Config) returns (r: Run, at: nat)
    requires FirstIsReboot(cfg)
    ensures SafeRun(cfg, r) && at < |r.inputs| && r.inputs[at].Reboot? && !Tells(r.states[at])
    ensures r.states[at].pc == GrepPending
    ensures Final(r).started == [0] && Final(r).resolved == [Verdict(0, true, false)]
  {
    r := RunToRebootTest(cfg);
    hide IsRun, SafeRun, FirstIsReboot;
    r := Safely(cfg, r, TestExit(0, None, false));
    at := |r.inputs|;
    r := Safely(cfg, r, Reboot);
    r := ForgottenPass(cfg, r, at);
  }

  /** A test that fails without a reboot, though its file does not say so: a reboot before the
      runner has removed the file, and the next boot counts a pass. */
  lemma FailureReadAsPass(cfg: Config) returns (r: Run, at: nat)
    requires FirstIsReboot(cfg)
    ensures SafeRun(cfg, r) && at < |r.inputs| && r.inputs[at].Reboot? && !Tells(r.states[at])
    ensures r.states[at].pc == EarlyRemove
    ensures Final(r).started == [0] && Final(r).resolved == [Verdict(0, false, true)]
  {
    r := RunToRebootTest(cfg);
    hide IsRun, SafeRun, FirstIsReboot;
    r := Safely(cfg, r, TestExit(1, Passed(), false));
    at := |r.inputs|;
    r := Safely(cfg, r, Reboot);
    r := Safely(cfg, r, WaitOver(false, Passed()));
    r := Safely(cfg, r, Go);
  }

  /** The rest of the first two runs. */
  lemma ForgottenPass(cfg: Config, r: Run, at: nat) returns (longer: Run)
    requires SafeRun(cfg, r) && at + 1 == |r.inputs| && r.inputs[at].Reboot? && !Tells(r.states[at])
    requires Final(r)
             == State(Disk(Some(1), Some(0), Some(0), Some(0), None, false, true), Boot, 0, 0, [0], [], Some(false))
    ensures SafeRun(cfg, longer) && r.inputs <= longer.inputs && r.states <= longer.states
    ensures Final(longer).started == [0] && Final(longer).resolved == [Verdict(0, true, false)]
    ensures cfg.stopOnFailure ==> Final(longer).pc == Exited(1)
  {
    hide IsRun, SafeRun, FirstIsReboot;
    longer := Safely(cfg, r, WaitOver(false, None));
    longer := Safely(cfg, longer, Go);
    longer := Safely(cfg, longer, Go);
    longer := Safely(cfg, longer, Go);
    if cfg.stopOnFailure {
      longer := Safely(cfg, longer, Go);
      longer := Safely(cfg, longer, Go);
    }
  }
}
