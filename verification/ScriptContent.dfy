/** What becomes of the plain lines of an accepted script, and where its first error lies. */
module ScriptContent {
  import opened Options
  import opened ScriptText
  import opened ScriptDirectives
  import opened ScriptValidator
  import opened ScriptExpander
  import opened ScriptAgreement

  /** A line without a directive mark.  @reboot-if is no directive to the expander. */
  predicate IsPlain(l: ScriptLine) {
    !Marked(l.long) || l.boundary
  }

  /** The plain lines that the validator reads outside blocks and heredocs. */
  function PlainRead(lines: seq<ScriptLine>, st: LineState, lineNo: nat): seq<string> {
    if lines == [] then []
    else
      var next := NextState(st, lines[0], lineNo);
      if next.Err? then []
      else
        var own := if st.Outside? && IsPlain(lines[0]) then [lines[0].raw] else [];
        own + PlainRead(lines[1..], next.value, lineNo + 1)
  }

  /** The lines that are emitted as they are. */
  function ShellLines(pieces: seq<Piece>): seq<string> {
    if pieces == [] then []
    else (if pieces[0].Shell? then [pieces[0].line] else []) + ShellLines(pieces[1..])
  }

  // ---------------------------------------------------------------- one line

  /** How the marks of a line and the tests of the two passes hang together. */
  predicate MarksAgree(l: ScriptLine) {
    && (l.tui.Some? || l.helper.Some? || l.check.Some? || IsTuiEnd(l) ==> !IsPlain(l))
    && (!IsPlain(l) && l.tui.None? && l.helper.None? && l.check.None? && !l.bareTui && !l.bareCheck && !IsTuiEnd(l)
        ==> l.argument.Err?)
    && (l.helper.Some? ==> !l.helper.value.Shell?) && ShellLines(l.keys) == []
  }

  lemma DirectiveIsMarked(line: string, name: string)
    requires Marked(name) && DirectiveArg(line, name).Some?
    ensures Marked(Trimmed(line, LONG_LEN))
  {
    hide Trimmed;
  }

  lemma DirectiveIsNotPlain(line: string, name: string)
    requires Marked(name) && Spaceless(name) && name != "@reboot-if" && DirectiveArg(line, name).Some?
    ensures Marked(Trimmed(line, LONG_LEN)) && !IsRebootBoundary(line)
  {
    hide Trimmed, DirectiveArg, IsRebootCommand;
    DirectiveIsMarked(line, name);
    ArgumentHasDirective(line, name);
    NamesAreSpaceless();
    OneDirective(line, name, "@reboot-if");
    if IsRebootCommand(line) { RebootCommandStarts(line); }
  }

  /** A helper line names one of the helpers. */
  lemma {:induction false} HelperIsNamed(line: string, names: seq<string>) returns (n: string)
    requires FindHelper(line, names).Some?
    ensures n in names && DirectiveArg(line, n).Some? && !FindHelper(line, names).value.Shell?
    decreases |names|
  {
    if DirectiveArg(line, names[0]).Some? {
      n := names[0];
    } else {
      n := HelperIsNamed(line, names[1..]);
    }
  }

  /** A marked line that the chain of tests lets through has one of the chain's directives. */
  lemma {:induction false} ChainFindsDirective(line: string, chain: seq<string>) returns (n: string)
    requires CheckArgument(line, chain).Ok? && Marked(Trimmed(line, LONG_LEN))
    ensures n in chain && DirectiveArg(line, n).Some?
    decreases |chain|
  {
    hide Trimmed, ArgumentError, DirectiveArg;
    if chain == [] {
      assert "@"[0] == '@';
      MarkIsPrefix(Trimmed(line, LONG_LEN));
      assert false;
    }
    if DirectiveArg(line, chain[0]).Some? {
      n := chain[0];
    } else {
      n := ChainFindsDirective(line, chain[1..]);
    }
  }

  lemma MarkIsPrefix(t: string)
    requires Marked(t)
    ensures "@" <= t
  {
    assert t[..1] == "@";
  }

  lemma {:induction false} HelperIsFound(line: string, names: seq<string>, n: string)
    requires n in names && DirectiveArg(line, n).Some?
    ensures FindHelper(line, names).Some?
    decreases |names|
  {
    hide DirectiveArg, HelperPiece;
    if names[0] != n {
      HelperIsFound(line, names[1..], n);
    }
  }

  lemma TuiKeysAreNoShell(t: string)
    ensures ShellLines(TuiPieces(t)) == []
  {
  }

  /** The lines that either pass treats as a directive are not plain. */
  lemma DirectivesAreNotPlain(line: string)
    ensures var l := ReadScriptLine(line);
            l.tui.Some? || l.helper.Some? || l.check.Some? ==> !IsPlain(l)
    ensures FindHelper(line, Helpers()).Some? ==> !FindHelper(line, Helpers()).value.Shell?
  {
    NamesAreSpaceless();
    ListedNames();
    assert "@check" != "@reboot-if" && "@tui" != "@reboot-if";
    hide DirectiveArg, Trimmed, IsRebootBoundary, FindHelper, Helpers, Spaceless, Marked;
    if DirectiveArg(line, "@tui").Some? { DirectiveIsNotPlain(line, "@tui"); }
    if DirectiveArg(line, "@check").Some? { DirectiveIsNotPlain(line, "@check"); }
    if FindHelper(line, Helpers()).Some? {
      var n := HelperIsNamed(line, Helpers());
      DirectiveIsNotPlain(line, n);
    }
  }

  /** A marked line that is none of them is an unknown directive. */
  lemma UnknownIsRefused(line: string)
    requires Marked(Trimmed(line, LONG_LEN)) && !IsRebootBoundary(line)
    requires FindHelper(line, Helpers()).None?
    ensures CheckArgument(line, Directives()).Err?
  {
    hide CheckArgument, FindHelper, Helpers, Trimmed, DirectiveArg, Marked, IsRebootCommand;
    if CheckArgument(line, Directives()).Ok? {
      var n := ChainFindsDirective(line, Directives());
      if n in Helpers() { HelperIsFound(line, Helpers(), n); }
    }
  }

  lemma LineMarksAgree(line: string)
    ensures MarksAgree(ReadScriptLine(line))
  {
    var l := ReadScriptLine(line);
    DirectivesAreNotPlain(line);
    TuiKeysAreNoShell(l.long);
    if IsTuiEnd(l) {
      BuffersAgree(line, "@end");
      LineIsCoherent(line);
    }
    if !IsPlain(l) && l.helper.None? {
      UnknownIsRefused(line);
    }
  }

  lemma {:induction false} ScriptMarksAgree(lines: seq<string>)
    ensures forall l :: l in ReadScript(lines) ==> MarksAgree(l)
  {
    hide MarksAgree, ReadScriptLine;
    if lines != [] {
      LineMarksAgree(lines[0]);
      ScriptMarksAgree(lines[1..]);
    }
  }

  // ---------------------------------------------------------------- whole scripts

  lemma {:induction false} ShellJoins(first: seq<Piece>, second: seq<Piece>)
    ensures ShellLines(first + second) == ShellLines(first) + ShellLines(second)
  {
    if first == [] {
      assert first + second == second;
    } else {
      assert (first + second)[1..] == first[1..] + second;
      ShellJoins(first[1..], second);
    }
  }

  ghost predicate Known(lines: seq<ScriptLine>) {
    AllCoherent(lines) && forall l :: l in lines ==> MarksAgree(l)
  }

  lemma KnownFrom(lines: seq<ScriptLine>, n: nat)
    requires Known(lines) && n <= |lines|
    ensures Known(lines[n..])
  {
    hide MarksAgree, AllCoherent;
    CoherentFrom(lines, n);
    assert forall l :: l in lines[n..] ==> l in lines;
  }

  /** An accepted line outside a block emits itself if and only if it is plain. */
  lemma OutsideShell(l: ScriptLine, lineNo: nat)
    requires MarksAgree(l) && OutsideLine(l, lineNo).Ok? && !OpensHeredoc(l)
    ensures ShellLines(OutsideTurn(l).pieces) == if IsPlain(l) then [l.raw] else []
  {
    hide CheckOn;
    if l.check.Some? && CheckOn(l).Some? {
      ShellJoins([CheckCapture(CheckOn(l).value.rule)], [CheckNote]);
    }
  }

  lemma HeredocShell(check: ParsedCheck, body: string, more: seq<Piece>)
    ensures ShellLines(HeredocPieces(check, body) + more) == ShellLines(more)
  {
    ShellJoins(HeredocPieces(check, body), more);
    assert [] + ShellLines(more) == ShellLines(more);
  }

  /** From any state: the lines emitted as they are, are the plain ones that the validator
      reads. */
  lemma {:induction false} PlainFrom(lines: seq<ScriptLine>, st: LineState, lineNo: nat, tui: Option<string>)
    requires ErrorFrom(lines, st, lineNo).None? && Known(lines) && ClosesAlike(lines, st, lineNo)
    requires !st.InHeredoc? && (st.InTui? <==> tui.Some?)
    ensures ShellLines(Expand(lines, tui)) == PlainRead(lines, st, lineNo)
    decreases |lines|, 1
  {
    hide Coherent, CheckOn, MarksAgree, IsPlain;
    if lines == [] { return; }
    var l, rest := lines[0], lines[1..];
    assert l in lines && Coherent(l) && MarksAgree(l);
    KnownFrom(lines, 1);
    var next := NextState(st, l, lineNo).value;
    if tui.Some? {
      BlockLineAgrees(l, lineNo, tui.value);
      BlockShell(l, tui.value);
      PlainFrom(rest, next, lineNo + 1, InsideTurn(l, tui.value).tui);
      ShellJoins(InsideTurn(l, tui.value).pieces, Expand(rest, InsideTurn(l, tui.value).tui));
    } else {
      PlainOutside(l, rest, next, lineNo);
      assert lines == [l] + rest;
    }
  }

  lemma BlockShell(l: ScriptLine, command: string)
    requires MarksAgree(l)
    ensures ShellLines(InsideTurn(l, command).pieces) == []
  {
  }

  lemma {:induction false} PlainOutside(l: ScriptLine, rest: seq<ScriptLine>, next: LineState, lineNo: nat)
    requires Coherent(l) && MarksAgree(l) && Known(rest) && OutsideLine(l, lineNo) == Ok(next)
    requires ErrorFrom(rest, next, lineNo + 1).None? && ClosesAlike(rest, next, lineNo + 1)
    ensures ShellLines(Expand([l] + rest, None))
            == (if IsPlain(l) then [l.raw] else []) + PlainRead(rest, next, lineNo + 1)
    decreases |rest|, 2
  {
    OutsideLineAgrees(l, lineNo);
    hide Coherent, OutsideLine, CheckOn, Expand, InsideTurn, IsPlain;
    if next.InHeredoc? {
      PlainHeredoc(l, rest, next, lineNo);
    } else {
      OutsideShell(l, lineNo);
      hide MarksAgree, OutsideTurn, OpensHeredoc;
      PlainFrom(rest, next, lineNo + 1, OutsideTurn(l).tui);
      ShellJoins(OutsideTurn(l).pieces, Expand(rest, OutsideTurn(l).tui));
      OutsideExpands(l, rest);
    }
  }

  lemma OutsideExpands(l: ScriptLine, rest: seq<ScriptLine>)
    requires !OpensHeredoc(l)
    ensures Expand([l] + rest, None) == OutsideTurn(l).pieces + Expand(rest, OutsideTurn(l).tui)
  {
    hide OpensHeredoc, OutsideTurn;
    assert ([l] + rest)[1..] == rest;
  }

  lemma {:induction false} PlainHeredoc(l: ScriptLine, rest: seq<ScriptLine>, next: LineState, lineNo: nat)
    requires MarksAgree(l) && Known(rest) && OpensHeredoc(l) && next.InHeredoc? && CheckOn(l).value.delim == next.delim
    requires ErrorFrom(rest, next, lineNo + 1).None? && ClosesAlike(rest, next, lineNo + 1)
    ensures ShellLines(Expand([l] + rest, None))
            == (if IsPlain(l) then [l.raw] else []) + PlainRead(rest, next, lineNo + 1)
    decreases |rest|, 1
  {
    hide MarksAgree, IsPlain, CheckOn, Expand, Known, HeredocPieces, HeredocBody, AfterHeredoc, PlainRead,
         ShellLines, ErrorFrom, ClosesAlike;
    HeredocIsNotPlain(l);
    var check := CheckOn(l).value;
    PlainBelow(rest, next, lineNo + 1);
    HeredocExpands(l, rest, check);
    HeredocShell(check, HeredocBody(rest, check.delim, "", true), Expand(AfterHeredoc(rest, check.delim), None));
    assert [] + PlainRead(rest, next, lineNo + 1) == PlainRead(rest, next, lineNo + 1);
  }

  lemma HeredocIsNotPlain(l: ScriptLine)
    requires MarksAgree(l) && OpensHeredoc(l)
    ensures !IsPlain(l)
  {
  }

  lemma {:induction false} PlainBelow(lines: seq<ScriptLine>, st: LineState, lineNo: nat)
    requires ErrorFrom(lines, st, lineNo).None? && Known(lines) && st.InHeredoc? && ClosesAlike(lines, st, lineNo)
    ensures ShellLines(Expand(AfterHeredoc(lines, st.delim), None)) == PlainRead(lines, st, lineNo)
    decreases |lines|, 0
  {
    hide MarksAgree, Expand, IsPlain;
    if lines == [] { return; }
    var l, rest := lines[0], lines[1..];
    assert l in lines && Coherent(l);
    KnownFrom(lines, 1);
    if Closes(l, st.delim) {
      PlainFrom(rest, Outside, lineNo + 1, None);
    } else {
      PlainBelow(rest, st, lineNo + 1);
    }
  }

  /** For every accepted script whose heredocs close alike: what it emits as it stands are, in
      order, exactly the lines outside blocks and heredocs that carry no directive. */
  lemma PlainLinesPassThrough(command: string)
    requires Accepts(Lines(command)) && ClosesAlike(ReadScript(Lines(command)), Outside, 1)
    ensures ShellLines(Expand(ReadScript(Lines(command)), None)) == PlainRead(ReadScript(Lines(command)), Outside, 1)
  {
    ScriptIsCoherent(Lines(command));
    ScriptMarksAgree(Lines(command));
    PlainFrom(ReadScript(Lines(command)), Outside, 1, None);
  }

  // ---------------------------------------------------------------- errors

  /** The state after some lines, if none of them is refused. */
  function StateAfter(lines: seq<ScriptLine>, st: LineState, lineNo: nat): Option<LineState> {
    if lines == [] then Some(st)
    else
      var next := NextState(st, lines[0], lineNo);
      if next.Err? then None else StateAfter(lines[1..], next.value, lineNo + 1)
  }

  /** The error of a script is that of its first refused line, and nothing below that line
      matters to it. */
  lemma {:induction false} FirstErrorWins(before: seq<ScriptLine>, l: ScriptLine, below: seq<ScriptLine>,
        st: LineState, lineNo: nat)
    requires StateAfter(before, st, lineNo).Some?
    requires NextState(StateAfter(before, st, lineNo).value, l, lineNo + |before|).Err?
    ensures ErrorFrom(before + [l] + below, st, lineNo)
            == Some(SyntaxError(lineNo + |before|,
                NextState(StateAfter(before, st, lineNo).value, l, lineNo + |before|).problem))
    decreases |before|
  {
    hide NextState;
    var lines := before + [l] + below;
    if before == [] {
      assert lines[0] == l;
    } else {
      assert lines[0] == before[0] && lines[1..] == before[1..] + [l] + below;
      FirstErrorWins(before[1..], l, below, NextState(st, before[0], lineNo).value, lineNo + 1);
    }
  }

  /** Without a refused line it is accepted if and only if it ends outside blocks and heredocs. */
  lemma {:induction false} AcceptedIffEndsOutside(lines: seq<ScriptLine>, st: LineState, lineNo: nat)
    ensures ErrorFrom(lines, st, lineNo).None? <==> StateAfter(lines, st, lineNo) == Some(Outside)
    decreases |lines|
  {
    hide NextState;
    if lines != [] && NextState(st, lines[0], lineNo).Ok? {
      AcceptedIffEndsOutside(lines[1..], NextState(st, lines[0], lineNo).value, lineNo + 1);
    }
  }
}
