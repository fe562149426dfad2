/** When both phases of an accepted script are accepted themselves, and how their checks add up. */
module ScriptSplit {
  import opened Options
  import opened CStrings
  import opened ScriptText
  import opened ScriptDirectives
  import opened ScriptValidator
  import opened ScriptExpander
  import opened ScriptAgreement
  import opened ScriptPhases
  import ScriptLimits

  predicate Fine(lines: seq<ScriptLine>, st: LineState, lineNo: nat) {
    ErrorFrom(lines, st, lineNo).None?
  }

  /** The first reboot line is not read inside a heredoc body. */
  predicate FirstRebootOutside(lines: seq<ScriptLine>, st: LineState, lineNo: nat) {
    lines == [] ||
    if lines[0].boundary then !st.InHeredoc?
    else
      var next := NextState(st, lines[0], lineNo);
      next.Err? || FirstRebootOutside(lines[1..], next.value, lineNo + 1)
  }

  /** No heredoc body ends at a reboot line. */
  predicate NoneEndsAtReboot(lines: seq<ScriptLine>, st: LineState, lineNo: nat) {
    lines == [] ||
    var next := NextState(st, lines[0], lineNo);
    && !(st.InHeredoc? && lines[0].boundary && lines[0].long == st.delim)
    && (next.Err? || NoneEndsAtReboot(lines[1..], next.value, lineNo + 1))
  }

  /** Whether a line is a reboot line depends on its trimmed text only, when that is short. */
  ghost predicate TextDecides(lines: seq<ScriptLine>) {
    forall l, r :: l in lines && r in lines && l.long == r.long && |l.long| < TEXT_LEN ==> l.boundary == r.boundary
  }

  lemma RebootByText(one: string, other: string)
    requires Trimmed(one, LONG_LEN) == Trimmed(other, LONG_LEN) && |Trimmed(one, LONG_LEN)| < TEXT_LEN
    ensures IsRebootBoundary(one) == IsRebootBoundary(other)
  {
    CommandByText(one, other);
    hide IsRebootCommand, Trimmed;
  }

  lemma CommandByText(one: string, other: string)
    requires Trimmed(one, LONG_LEN) == Trimmed(other, LONG_LEN) && |Trimmed(one, LONG_LEN)| < TEXT_LEN
    ensures IsRebootCommand(one) == IsRebootCommand(other)
  {
    hide TrimLeft, TrimRight;
    assert TrimRight(TrimLeft(one)) == TrimRight(TrimLeft(other));
  }

  lemma ReadLinesDecide(lines: seq<ScriptLine>)
    requires ReadFromText(lines)
    ensures TextDecides(lines)
  {
    forall l, r | l in lines && r in lines && l.long == r.long && |l.long| < TEXT_LEN
      ensures l.boundary == r.boundary
    {
      assert l == ReadScriptLine(l.raw) && r == ReadScriptLine(r.raw);
      RebootByText(l.raw, r.raw);
    }
  }

  /** The same state, whatever line opened the heredoc. */
  predicate SameMode(st: LineState, st': LineState) {
    match st
    case InHeredoc(delim, _) => st'.InHeredoc? && st'.delim == delim
    case _ => st' == st
  }

  /** The @check lines the validator meets outside blocks and heredocs. */
  function ChecksRead(lines: seq<ScriptLine>, st: LineState, lineNo: nat): nat {
    if lines == [] then 0
    else
      var next := NextState(st, lines[0], lineNo);
      if next.Err? then 0
      else (if st.Outside? && CheckOn(lines[0]).Some? then 1 else 0) + ChecksRead(lines[1..], next.value, lineNo + 1)
  }

  lemma NextModes(st: LineState, st': LineState, l: ScriptLine, lineNo: nat, lineNo': nat)
    requires SameMode(st, st') && NextState(st, l, lineNo).Ok?
    ensures NextState(st', l, lineNo').Ok?
    ensures SameMode(NextState(st, l, lineNo).value, NextState(st', l, lineNo').value)
  {
  }

  /** A reboot line is accepted only outside a block, and leaves the state as it is unless it
      ends a heredoc. */
  lemma RebootLineStep(st: LineState, l: ScriptLine, lineNo: nat)
    requires Coherent(l) && l.boundary && NextState(st, l, lineNo).Ok?
    ensures !st.InTui?
    ensures (st.InHeredoc? && st.delim == l.long) || NextState(st, l, lineNo).value == st
    ensures st.Outside? ==> CheckOn(l).None?
  {
  }

  /** A heredoc whose delimiter is a reboot line never ends in a phase, which has none. */
  lemma {:induction false} NeverEnds(lines: seq<ScriptLine>, st: LineState, lineNo: nat)
    requires st.InHeredoc? && forall l :: l in lines && l.long == st.delim ==> l.boundary
    ensures !Fine(PhaseLines(lines, true, true), st, lineNo)
    decreases |lines|
  {
    if lines == [] { return; }
    var l, rest := lines[0], lines[1..];
    assert l in lines && forall k :: k in rest ==> k in lines;
    if l.boundary {
      NeverEnds(rest, st, lineNo);
    } else {
      NeverEnds(rest, st, lineNo + 1);
      assert ([l] + PhaseLines(rest, true, true))[1..] == PhaseLines(rest, true, true);
    }
  }

  /** The lines a walk from a state still has to read, and what is known of them. */
  ghost predicate Walk(lines: seq<ScriptLine>, st: LineState, lineNo: nat) {
    && Fine(lines, st, lineNo) && AllCoherent(lines) && TextDecides(lines)
    && (st.InHeredoc? ==> |st.delim| < TEXT_LEN)
  }

  lemma WalkOn(lines: seq<ScriptLine>, st: LineState, lineNo: nat)
    requires Walk(lines, st, lineNo) && lines != []
    ensures NextState(st, lines[0], lineNo).Ok? && Coherent(lines[0])
    ensures Walk(lines[1..], NextState(st, lines[0], lineNo).value, lineNo + 1)
  {
    hide Coherent;
    assert lines[0] in lines && forall k :: k in lines[1..] ==> k in lines;
    if st.Outside? && NextState(st, lines[0], lineNo).value.InHeredoc? {
      DelimIsShort(lines[0], lineNo);
    }
  }

  /** Once past the first reboot line: leaving out the other ones changes nothing, unless one
      of them ends a heredoc. */
  lemma {:induction false} PostIsFineIff(lines: seq<ScriptLine>, st: LineState, lineNo: nat, st': LineState,
        lineNo': nat)
    requires Walk(lines, st, lineNo) && SameMode(st, st')
    ensures Fine(PhaseLines(lines, true, true), st', lineNo') <==> NoneEndsAtReboot(lines, st, lineNo)
    ensures NoneEndsAtReboot(lines, st, lineNo) ==>
              && ChecksRead(PhaseLines(lines, true, true), st', lineNo') == ChecksRead(lines, st, lineNo)
              && (ClosesAlike(lines, st, lineNo) ==> ClosesAlike(PhaseLines(lines, true, true), st', lineNo'))
    decreases |lines|
  {
    hide Coherent, OutsideLine, CheckOn, AllCoherent, TextDecides;
    if lines == [] { return; }
    var l, rest := lines[0], lines[1..];
    WalkOn(lines, st, lineNo);
    var next := NextState(st, l, lineNo).value;
    if l.boundary {
      RebootLineStep(st, l, lineNo);
      if st.InHeredoc? && l.long == st.delim {
        EndedAtReboot(lines, st, lineNo);
        NeverEnds(rest, st', lineNo');
      } else {
        PostIsFineIff(rest, next, lineNo + 1, st', lineNo');
      }
    } else {
      NextModes(st, st', l, lineNo, lineNo');
      PostIsFineIff(rest, next, lineNo + 1, NextState(st', l, lineNo').value, lineNo' + 1);
      assert ([l] + PhaseLines(rest, true, true))[1..] == PhaseLines(rest, true, true);
    }
  }

  lemma EndedAtReboot(lines: seq<ScriptLine>, st: LineState, lineNo: nat)
    requires Walk(lines, st, lineNo) && lines != [] && st.InHeredoc? && lines[0].boundary && lines[0].long == st.delim
    ensures forall r :: r in lines[1..] && r.long == st.delim ==> r.boundary
  {
    hide Coherent;
    assert lines[0] in lines && forall k :: k in lines[1..] ==> k in lines;
  }

  /** The part before the first reboot line is accepted if and only if that line is not in a
      heredoc body. */
  lemma {:induction false} PreIsFineIff(lines: seq<ScriptLine>, st: LineState, lineNo: nat)
    requires Fine(lines, st, lineNo) && AllCoherent(lines)
    ensures Fine(PhaseLines(lines, false, false), st, lineNo) <==> FirstRebootOutside(lines, st, lineNo)
    ensures ClosesAlike(lines, st, lineNo) ==> ClosesAlike(PhaseLines(lines, false, false), st, lineNo)
    decreases |lines|
  {
    if lines == [] { return; }
    var l, rest := lines[0], lines[1..];
    assert l in lines && forall k :: k in rest ==> k in lines;
    if l.boundary {
      RebootLineStep(st, l, lineNo);
      AfterFirstReboot(rest);
    } else {
      PreIsFineIff(rest, NextState(st, l, lineNo).value, lineNo + 1);
      assert ([l] + PhaseLines(rest, false, false))[1..] == PhaseLines(rest, false, false);
    }
  }

  /** The phases of a script whose first reboot line stands outside: what is read where. */
  lemma {:induction false} PhasesAreFineIff(lines: seq<ScriptLine>, st: LineState, lineNo: nat)
    requires Walk(lines, st, lineNo) && FirstRebootOutside(lines, st, lineNo)
    ensures Fine(PhaseLines(lines, true, false), Outside, 1) <==> NoneEndsAtReboot(lines, st, lineNo)
    ensures NoneEndsAtReboot(lines, st, lineNo) ==>
              && (ChecksRead(PhaseLines(lines, false, false), st, lineNo)
                  + ChecksRead(PhaseLines(lines, true, false), Outside, 1)
                  == ChecksRead(lines, st, lineNo))
              && (ClosesAlike(lines, st, lineNo) ==> ClosesAlike(PhaseLines(lines, true, false), Outside, 1))
    decreases |lines|
  {
    hide Coherent, OutsideLine, CheckOn, AllCoherent, TextDecides;
    if lines == [] { return; }
    var l, rest := lines[0], lines[1..];
    WalkOn(lines, st, lineNo);
    if l.boundary {
      RebootLineStep(st, l, lineNo);
      AfterFirstReboot(rest);
      PostIsFineIff(rest, Outside, lineNo + 1, Outside, 1);
    } else {
      PhasesAreFineIff(rest, NextState(st, l, lineNo).value, lineNo + 1);
      assert ([l] + PhaseLines(rest, false, false))[1..] == PhaseLines(rest, false, false);
    }
  }

  /** The counter of checks, which looks for a delimiter on its own, counts what the validator
      reads. */
  lemma {:induction false} CountIsChecksRead(lines: seq<ScriptLine>, st: LineState, lineNo: nat)
    requires Fine(lines, st, lineNo) && AllCoherent(lines) && !st.InHeredoc? && ClosesAlike(lines, st, lineNo)
    ensures |CheckList(lines)| == ChecksRead(lines, st, lineNo)
    decreases |lines|, 0
  {
    if lines == [] { return; }
    var l, rest := lines[0], lines[1..];
    assert l in lines && forall k :: k in rest ==> k in lines;
    var next := NextState(st, l, lineNo).value;
    if st.InTui? {
      BlockLineAgrees(l, lineNo, "");
    } else {
      OutsideLineAgrees(l, lineNo);
    }
    if next.InHeredoc? {
      CountAfterHeredoc(rest, next, lineNo + 1);
    } else {
      CountIsChecksRead(rest, next, lineNo + 1);
    }
  }

  lemma {:induction false} CountAfterHeredoc(lines: seq<ScriptLine>, st: LineState, lineNo: nat)
    requires Fine(lines, st, lineNo) && AllCoherent(lines) && st.InHeredoc? && ClosesAlike(lines, st, lineNo)
    ensures |CheckList(AfterHeredoc(lines, st.delim))| == ChecksRead(lines, st, lineNo)
    decreases |lines|, 1
  {
    if lines == [] { return; }
    var l, rest := lines[0], lines[1..];
    assert l in lines && forall k :: k in rest ==> k in lines;
    if Closes(l, st.delim) {
      CountIsChecksRead(rest, Outside, lineNo + 1);
    } else {
      CountAfterHeredoc(rest, st, lineNo + 1);
    }
  }

  // ---------------------------------------------------------------- whole scripts

  predicate AcceptsLines(lines: seq<ScriptLine>) {
    Fine(lines, Outside, 1)
  }

  /** For every accepted script: both phases are accepted if and only if the first reboot line
      is not in a heredoc body and no heredoc ends at a reboot line. */
  lemma BothPhasesAcceptedIff(command: string)
    requires Accepts(Lines(command))
    ensures var lines := ReadScript(Lines(command));
            AcceptsLines(PhaseLines(lines, false, false)) && AcceptsLines(PhaseLines(lines, true, false))
            <==> SplitsCleanly(lines)
  {
    AcceptedIsWalk(command);
    PhasesAcceptedIff(ReadScript(Lines(command)));
  }

  predicate SplitsCleanly(lines: seq<ScriptLine>) {
    FirstRebootOutside(lines, Outside, 1) && NoneEndsAtReboot(lines, Outside, 1)
  }

  lemma AcceptedIsWalk(command: string)
    requires Accepts(Lines(command))
    ensures Walk(ReadScript(Lines(command)), Outside, 1)
  {
    hide Coherent, ReadFromText, TextDecides;
    ScriptIsCoherent(Lines(command));
    TextIsRead(command);
    ReadLinesDecide(ReadScript(Lines(command)));
  }

  lemma PhasesAcceptedIff(lines: seq<ScriptLine>)
    requires Walk(lines, Outside, 1)
    ensures AcceptsLines(PhaseLines(lines, false, false)) && AcceptsLines(PhaseLines(lines, true, false))
            <==> SplitsCleanly(lines)
  {
    PreIsFineIff(lines, Outside, 1);
    if FirstRebootOutside(lines, Outside, 1) {
      PhasesAreFineIff(lines, Outside, 1);
    }
  }

  /** Then, if its heredocs close alike, those of the phases do, and the check counts of the phases
      add up to that of the script. */
  lemma PhaseChecksAddUp(lines: seq<ScriptLine>)
    requires Walk(lines, Outside, 1) && ClosesAlike(lines, Outside, 1) && SplitsCleanly(lines)
    ensures ClosesAlike(PhaseLines(lines, false, false), Outside, 1)
            && ClosesAlike(PhaseLines(lines, true, false), Outside, 1)
    ensures |CheckList(PhaseLines(lines, false, false))| + |CheckList(PhaseLines(lines, true, false))|
            == |CheckList(lines)|
  {
    var pre, post := PhaseLines(lines, false, false), PhaseLines(lines, true, false);
    PhasesAreFineIff(lines, Outside, 1);
    PreIsFineIff(lines, Outside, 1);
    CountIsChecksRead(lines, Outside, 1);
    CountIsChecksRead(pre, Outside, 1);
    CountIsChecksRead(post, Outside, 1);
  }

  // ---------------------------------------------------------------- what is emitted

  function PhaseOf(command: string, wantPost: bool): seq<ScriptLine> {
    PhaseLines(ReadScript(Lines(command)), wantPost, false)
  }

  /** The text that write_command_phase expands. */
  function TextOf(command: string, wantPost: bool): string {
    PhaseText("", PhaseOf(command, wantPost))
  }

  /** For every accepted script whose phases fit their buffers: the two texts that are expanded
      are themselves accepted if and only if the script splits cleanly. */
  lemma WrittenPhasesAcceptedIff(command: string)
    requires Accepts(Lines(command))
    ensures Fits(PhaseOf(command, false)) && Fits(PhaseOf(command, true)) ==>
              (Accepts(Lines(TextOf(command, false))) && Accepts(Lines(TextOf(command, true)))
               <==> SplitsCleanly(ReadScript(Lines(command))))
  {
    BothPhasesAcceptedIff(command);
    PhaseReadsBackIff(command, false);
    PhaseReadsBackIff(command, true);
    hide PhaseLines, SplitsCleanly, ErrorFrom, Fits, ReadScript, Lines, PhaseText;
  }

  /** Such a script is written, phase by phase, without any [NG] fragment, and the phases
      capture as many checks as the script has. */
  lemma WrittenPhasesAreClean(command: string)
    requires Accepts(Lines(command)) && ClosesAlike(ReadScript(Lines(command)), Outside, 1)
    requires Fits(PhaseOf(command, false)) && Fits(PhaseOf(command, true))
    requires SplitsCleanly(ReadScript(Lines(command)))
    ensures var pre := Expand(ReadScript(Lines(TextOf(command, false))), None);
            var post := Expand(ReadScript(Lines(TextOf(command, true))), None);
            && NoComplaint(pre) && NoComplaint(post)
            && |Captures(pre)| + |Captures(post)| == |CheckList(ReadScript(Lines(command)))|
  {
    hide SplitsCleanly, ErrorFrom, Fits, ReadScript, Lines, PhaseText, Expand, CheckList, Captures, NoComplaint,
         ClosesAlike;
    WrittenPhasesAcceptedIff(command);
    PhaseReadsBackIff(command, false);
    PhaseReadsBackIff(command, true);
    hide PhaseLines;
    AcceptedIsWalk(command);
    PhaseChecksAddUp(ReadScript(Lines(command)));
    AcceptedScriptsExpandCleanly(TextOf(command, false));
    AcceptedScriptsExpandCleanly(TextOf(command, true));
  }

  /** A reboot line, a heredoc that ends at another one. */
  predicate EndsAtReboot(lines: seq<ScriptLine>, delim: string) {
    && |lines| == 3 && lines[0].boundary && lines[2].boundary && !lines[1].boundary
    && OutsideLine(lines[0], 1) == Ok(Outside) && OutsideLine(lines[1], 2) == Ok(InHeredoc(delim, 2))
    && OutsideLine(lines[1], 1) == Ok(InHeredoc(delim, 1)) && lines[2].long == delim
  }

  lemma RebootEndsHeredoc(lines: seq<ScriptLine>, delim: string)
    requires EndsAtReboot(lines, delim)
    ensures AcceptsLines(lines) && FirstRebootOutside(lines, Outside, 1)
    ensures !AcceptsLines(PhaseLines(lines, true, false))
  {
    assert lines[1..][1..] == lines[2..] && lines[2..][1..] == [];
    assert Fine([], Outside, 4);
    assert Fine(lines[2..], InHeredoc(delim, 2), 3);
    assert Fine(lines[1..], Outside, 2);
    assert PhaseLines(lines[2..], true, true) == [];
    assert PhaseLines(lines, true, false) == [lines[1]];
    assert [lines[1]][1..] == [];
    assert !Fine([], InHeredoc(delim, 1), 2);
  }

  lemma BoundaryIsFine(l: ScriptLine)
    requires Coherent(l) && l.boundary
    ensures OutsideLine(l, 1) == Ok(Outside)
  {
  }

  lemma OpenerIsNoBoundary(l: ScriptLine, delim: string)
    requires Coherent(l) && ScriptLimits.Opener(l, delim)
    ensures !l.boundary && OutsideLine(l, 2) == Ok(InHeredoc(delim, 2))
  {
    if l.boundary { BoundaryIsFine(l); }
  }

  lemma RebootDelimiterRead(script: seq<string>, delim: string)
    requires |script| == 3 && script[0] == script[2] == delim && IsRebootBoundary(delim)
    requires Trimmed(delim, LONG_LEN) == delim && ScriptLimits.Opener(ReadScriptLine(script[1]), delim)
    ensures EndsAtReboot(ReadScript(script), delim)
  {
    hide Coherent, OutsideLine, ScriptLimits.Opener, Trimmed, IsRebootBoundary;
    ScriptLimits.ReadScriptAt(script);
    LineIsCoherent(delim);
    LineIsCoherent(script[1]);
    BoundaryIsFine(ReadScriptLine(delim));
    OpenerIsNoBoundary(ReadScriptLine(script[1]), delim);
    OpenerReadsSo(ReadScriptLine(script[1]), delim);
  }

  lemma OpenerReadsSo(l: ScriptLine, delim: string)
    requires ScriptLimits.Opener(l, delim)
    ensures OutsideLine(l, 1) == Ok(InHeredoc(delim, 1))
  {
  }

  /** Why that condition is there: with any reboot line as the delimiter, the line that ends the
      heredoc is left out of the post phase, which then never closes it. */
  lemma RebootDelimiterLosesPost(written: string, delim: string, script: seq<string>)
    requires ScriptLimits.Written(written, delim) && Trimmed(delim, LONG_LEN) == delim && IsRebootBoundary(delim)
    requires script == [delim, "@check v exact <<" + written, delim]
    ensures AcceptsLines(ReadScript(script)) && FirstRebootOutside(ReadScript(script), Outside, 1)
    ensures !AcceptsLines(PhaseLines(ReadScript(script), true, false))
  {
    hide ReadScript, IsRebootBoundary, AcceptsLines, FirstRebootOutside, PhaseLines, EndsAtReboot, ScriptLimits.Opener;
    assert script[0] == script[2] == delim && script[1] == "@check v exact <<" + written;
    ScriptLimits.OpenerRead(written, delim);
    RebootDelimiterRead(script, delim);
    RebootEndsHeredoc(ReadScript(script), delim);
  }
}
