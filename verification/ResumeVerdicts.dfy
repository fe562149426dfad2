/** What the verdicts of the resume protocol go by: exit codes and result files, as the tests
    returned them. */
module ResumeVerdicts {
  import opened Options
  import opened ResumeProtocol

  /** The answer of a test, and the state the script was in when it came. */
  datatype Answer = Answer(asked: State, input: Input)

  /** The newest answer among the first n inputs of a run. */
  function LastAnswer(r: Run, n: nat): Option<Answer>
    requires n <= |r.inputs| < |r.states|
  {
    if n == 0 then None
    else if r.inputs[n - 1].TestExit? || r.inputs[n - 1].WaitOver? then Some(Answer(r.states[n - 1], r.inputs[n - 1]))
    else LastAnswer(r, n - 1)
  }

  /** What an answer comes to.  A test that returns fails by its exit code, a reboot test also by an
      [NG] in its result file; after a boot a reboot test fails if it is still at work, or its
      result file is not known, is missing or has an [NG]. */
  predicate Fails(a: Answer) {
    match a.input
    case TestExit(rc, file, _) => rc != 0 || (a.asked.pc.RebootRunning? && file.Some? && file.value.ng)
    case WaitOver(busy, file) => busy || a.asked.disk.waitResult.None? || file.None? || file.value.ng
    case _ => false
  }

  /** Which test it is about. */
  function Test(a: Answer): nat {
    if a.input.WaitOver? && a.asked.disk.waitSafe.Some? then a.asked.disk.waitSafe.value else a.asked.idx
  }

  /** Whether the test itself had failed: as it said before, if it had come to its end by then. */
  predicate OwnFailed(a: Answer) {
    match a.input
    case WaitOver(busy, file) =>
      if a.asked.own.Some? then a.asked.own.value else busy || file.None? || file.value.ng
    case _ => Fails(a)
  }

  predicate IsVerdictOf(v: Verdict, a: Answer) {
    v == Verdict(Test(a), Fails(a), OwnFailed(a))
  }

  /** A script on its way from an answer to the verdict knows what the answer was. */
  predicate Remembers(s: State, last: Option<Answer>) {
    match s.pc
    case BootWrite(failed) =>
      && last.Some? && last.value.input.WaitOver? && failed == Fails(last.value)
      && s.disk.waitSafe == Some(Test(last.value)) && OwnFailure(s) == OwnFailed(last.value)
    case EarlyRemove => Returned(s, last, true)
    case EarlyWrite => Returned(s, last, true)
    case ShellWrite => Returned(s, last, true)
    case LateWrite(failed) => Returned(s, last, failed)
    case LateClear => Returned(s, last, s.disk.result.Some? && s.disk.result.value.ng)
    case GrepPending =>
      && last.Some? && last.value.input.TestExit? && last.value.asked.pc.RebootRunning?
      && last.value.input.rc == 0 && s.disk.result == last.value.input.file && s.idx == last.value.asked.idx
      && ((s.disk.result.Some? && s.disk.result.value.pending) || OwnFailure(s) == Fails(last.value))
    case _ => true
  }

  predicate Returned(s: State, last: Option<Answer>, failed: bool) {
    && last.Some? && last.value.input.TestExit? && failed == Fails(last.value)
    && s.idx == last.value.asked.idx && OwnFailure(s) == failed
  }

  function Newest(s: State, input: Input, last: Option<Answer>): Option<Answer> {
    if input.TestExit? || input.WaitOver? then Some(Answer(s, input)) else last
  }

  lemma StepRemembers(cfg: Config, s: State, input: Input, last: Option<Answer>)
    requires Enabled(cfg, s, input) && Remembers(s, last)
    ensures Remembers(Step(cfg, s, input), Newest(s, input, last))
  {
    if input.Go? { CommandRemembers(cfg, s, last); }
  }

  lemma CommandRemembers(cfg: Config, s: State, last: Option<Answer>)
    requires Enabled(cfg, s, Go) && Remembers(s, last)
    ensures Remembers(Command(cfg, s), last)
  {
  }

  lemma StepJudges(cfg: Config, s: State, input: Input, last: Option<Answer>)
    requires Enabled(cfg, s, input) && Remembers(s, last) && Step(cfg, s, input).resolved != s.resolved
    ensures var now, after := Newest(s, input, last), Step(cfg, s, input).resolved;
            && now.Some? && |after| == |s.resolved| + 1 && after[..|s.resolved|] == s.resolved
            && IsVerdictOf(after[|s.resolved|], now.value)
  {
  }

  lemma {:induction false} RunRemembers(cfg: Config, r: Run, k: nat)
    requires IsRun(cfg, r) && k < |r.states|
    ensures Remembers(r.states[k], LastAnswer(r, k))
  {
    if k > 0 {
      RunRemembers(cfg, r, k - 1);
      assert Move(cfg, r.states[k - 1], r.inputs[k - 1], r.states[k]);
      StepRemembers(cfg, r.states[k - 1], r.inputs[k - 1], LastAnswer(r, k - 1));
    }
  }

  /** In every run, wherever reboots strike: a step adds at most one verdict, and that is what the
      newest answer comes to. */
  lemma VerdictsAreTheAnswers(cfg: Config, r: Run, k: nat)
    requires IsRun(cfg, r) && k < |r.inputs| && r.states[k + 1].resolved != r.states[k].resolved
    ensures var was, now := r.states[k].resolved, r.states[k + 1].resolved;
            && |now| == |was| + 1 && now[..|was|] == was && LastAnswer(r, k + 1).Some?
            && IsVerdictOf(now[|was|], LastAnswer(r, k + 1).value)
  {
    RunRemembers(cfg, r, k);
    assert Move(cfg, r.states[k], r.inputs[k], r.states[k + 1]);
    StepJudges(cfg, r.states[k], r.inputs[k], LastAnswer(r, k));
  }
}
