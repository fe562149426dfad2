/** write_command_expanded: the shell a script body becomes, as the list of pieces emitted, and
    the counter of its @check directives. */
module ScriptExpander {
  import opened Options
  import opened ScriptText
  import opened ScriptDirectives

  /** What a line emits, and the command of the @tui block that is open after it. */
  datatype Turn = Turn(pieces: seq<Piece>, tui: Option<string>)

  /** A line outside a block that does not open a heredoc. */
  function OutsideTurn(l: ScriptLine): Turn {
    if l.tui.Some? then Turn([TuiOpen], l.tui)
    else if l.helper.Some? then Turn([l.helper.value], None)
    else if l.check.Some? then
      var parsed := CheckOn(l);
      Turn((if parsed.Some? then [CheckCapture(parsed.value.rule)] else []) + [CheckNote], None)
    else if IsTuiEnd(l) then Turn([Ng(NgStrayEnd)], None)
    else Turn([Shell(l.raw)], None)
  }

  /** A line inside the block of `command`, which any @tui line overwrites. */
  function InsideTurn(l: ScriptLine, command: string): Turn {
    if IsTuiEnd(l) then Turn([TuiClose(command)], None)
    else if l.tui.Some? then Turn([Ng(NgNestedTui)], l.tui)
    else Turn(l.keys, Some(if l.bareTui then "" else command))
  }

  /** A @check line outside a block that takes its expected text from the lines below it. */
  predicate OpensHeredoc(l: ScriptLine) {
    l.tui.None? && l.helper.None? && CheckOn(l).Some? && CheckOn(l).value.delim != ""
  }

  function HeredocPieces(check: ParsedCheck, body: string): seq<Piece> {
    [CheckCapture(check.rule.(expected := body)), CheckNote]
  }

  /** The whole expansion; `tui` is the command of the open @tui block. */
  function Expand(lines: seq<ScriptLine>, tui: Option<string>): seq<Piece>
    decreases |lines|
  {
    if lines == [] then
      if tui.Some? then [Ng(NgMissingEnd), TuiClose(tui.value)] else []
    else
      var line, rest := lines[0], lines[1..];
      if tui.Some? then
        var turn := InsideTurn(line, tui.value);
        turn.pieces + Expand(rest, turn.tui)
      else if OpensHeredoc(line) then
        var check := CheckOn(line).value;
        HeredocPieces(check, HeredocBody(rest, check.delim, "", true)) + Expand(AfterHeredoc(rest, check.delim), None)
      else
        var turn := OutsideTurn(line);
        turn.pieces + Expand(rest, turn.tui)
  }

  /** The checks of a script as next_check_directive finds them, one after the other. */
  function CheckList(lines: seq<ScriptLine>): seq<CheckRule>
    decreases |lines|
  {
    if lines == [] then []
    else
      var check := CheckOn(lines[0]);
      if check.None? then CheckList(lines[1..])
      else [RuleOf(check.value, lines[1..])] + CheckList(Below(check.value, lines[1..]))
  }

  /** A check with its expected text, which the lines below it may hold. */
  function RuleOf(check: ParsedCheck, rest: seq<ScriptLine>): CheckRule {
    if check.delim == "" then check.rule else check.rule.(expected := HeredocBody(rest, check.delim, "", true))
  }

  /** The lines after a check and its heredoc. */
  function Below(check: ParsedCheck, rest: seq<ScriptLine>): (below: seq<ScriptLine>)
    ensures |below| <= |rest|
  {
    if check.delim == "" then rest else AfterHeredoc(rest, check.delim)
  }

  /** The checks whose capture is emitted. */
  function Captures(pieces: seq<Piece>): seq<CheckRule> {
    if pieces == [] then []
    else (if pieces[0].CheckCapture? then [pieces[0].rule] else []) + Captures(pieces[1..])
  }

  predicate NoComplaint(pieces: seq<Piece>) {
    forall i :: 0 <= i < |pieces| ==> !pieces[i].Ng?
  }

  /** One line of a heredoc: the closing one, or one more line of the body. */
  method ReadBodyLine(text: string, at: nat, delim: string, body: string, first: bool)
    returns (closed: bool, body': string, after: nat)
    requires at < |text|
    ensures at < after <= |text|
    ensures AfterHeredoc(LinesFrom(text, at), delim)
         == if closed then LinesFrom(text, after) else AfterHeredoc(LinesFrom(text, after), delim)
    ensures HeredocBody(LinesFrom(text, at), delim, body, first)
         == if closed then body' else HeredocBody(LinesFrom(text, after), delim, body', false)
  {
    ghost var lines := LinesFrom(text, at);
    var l;
    l, after := ReadNext(text, at);
    assert lines[0] == l && lines[1..] == LinesFrom(text, after);
    closed := Closes(l, delim);
    body' := if closed then body else AddBodyLine(body, l.raw, first);
  }

  /** collect_check_heredoc */
  method CollectCheckHeredoc(text: string, start: nat, delim: string) returns (body: string, after: nat)
    requires start <= |text|
    ensures start <= after <= |text|
    ensures LinesFrom(text, after) == AfterHeredoc(LinesFrom(text, start), delim)
    ensures body == HeredocBody(LinesFrom(text, start), delim, "", true)
  {
    var first, closed := true, false;
    body, after := "", start;
    while after < |text| && !closed
      invariant start <= after <= |text|
      invariant AfterHeredoc(LinesFrom(text, start), delim)
             == if closed then LinesFrom(text, after) else AfterHeredoc(LinesFrom(text, after), delim)
      invariant HeredocBody(LinesFrom(text, start), delim, "", true)
             == if closed then body else HeredocBody(LinesFrom(text, after), delim, body, first)
      decreases |text| - after
    {
      closed, body, after := ReadBodyLine(text, after, delim, body, first);
      first := false;
    }
    NoLinesLeft(text);
  }

  /** write_command_expanded over the text. */
  method WriteCommandExpanded(command: string) returns (pieces: seq<Piece>)
    ensures pieces == Expand(ReadScript(Lines(command)), None)
  {
    WholeText(command);
    NoLinesLeft(command);
    hide LinesFrom, ReadScript;
    var p, tui := 0, None;
    pieces := [];
    ghost var all := Expand(LinesFrom(command, 0), None);
    while p < |command|
      invariant 0 <= p <= |command|
      invariant all == pieces + Expand(LinesFrom(command, p), tui)
      decreases |command| - p
    {
      ghost var before := pieces;
      var written;
      written, tui, p := WriteLine(command, p, tui);
      pieces := pieces + written;
      Regroup(before, written, Expand(LinesFrom(command, p), tui));
    }
    if tui.Some? {
      pieces := pieces + [Ng(NgMissingEnd), TuiClose(tui.value)];
    }
  }

  /** One turn of that loop, with the lines below read when the line opens a heredoc. */
  method WriteLine(command: string, p: nat, tui: Option<string>)
    returns (written: seq<Piece>, tui': Option<string>, next: nat)
    requires p < |command|
    ensures p < next <= |command|
    ensures Expand(LinesFrom(command, p), tui) == written + Expand(LinesFrom(command, next), tui')
  {
    ghost var lines := LinesFrom(command, p);
    var l;
    l, next := ReadNext(command, p);
    assert lines[0] == l && lines[1..] == LinesFrom(command, next);
    if tui.Some? {
      var turn := InsideTurn(l, tui.value);
      written, tui' := turn.pieces, turn.tui;
    } else if OpensHeredoc(l) {
      var check := CheckOn(l).value;
      var body, after := CollectCheckHeredoc(command, next, check.delim);
      written, tui', next := HeredocPieces(check, body), None, after;
    } else {
      var turn := OutsideTurn(l);
      written, tui' := turn.pieces, turn.tui;
    }
  }

  /** next_check_directive from a position: the check, and where the search goes on. */
  method NextCheckDirective(text: string, start: nat) returns (found: Option<(CheckRule, nat)>)
    requires start <= |text|
    ensures found.None? ==> CheckList(LinesFrom(text, start)) == []
    ensures found.Some? ==>
              && start < found.value.1 <= |text|
              && CheckList(LinesFrom(text, start)) == [found.value.0] + CheckList(LinesFrom(text, found.value.1))
  {
    hide CheckOn;
    var p := start;
    while p < |text|
      invariant start <= p <= |text|
      invariant CheckList(LinesFrom(text, p)) == CheckList(LinesFrom(text, start))
      decreases |text| - p
    {
      var l, next := ReadNext(text, p);
      OneMoreLine(l, LinesFrom(text, next));
      p := next;
      var check := CheckOn(l);
      if check.Some? {
        var rule, below := ReadCheck(text, p, check.value);
        return Some((rule, below));
      }
    }
    found := None;
  }

  lemma OneMoreLine(l: ScriptLine, rest: seq<ScriptLine>)
    ensures CheckList([l] + rest)
         == if CheckOn(l).None? then CheckList(rest)
            else [RuleOf(CheckOn(l).value, rest)] + CheckList(Below(CheckOn(l).value, rest))
  {
    hide CheckOn;
    assert ([l] + rest)[1..] == rest;
  }

  /** The rest of a check that has been parsed. */
  method ReadCheck(text: string, p: nat, check: ParsedCheck) returns (rule: CheckRule, below: nat)
    requires p <= |text|
    ensures p <= below <= |text|
    ensures rule == RuleOf(check, LinesFrom(text, p)) && LinesFrom(text, below) == Below(check, LinesFrom(text, p))
  {
    rule, below := check.rule, p;
    if check.delim != "" {
      var body;
      body, below := CollectCheckHeredoc(text, p, check.delim);
      rule := rule.(expected := body);
    }
  }

  /** command_check_count */
  method CommandCheckCount(command: string) returns (count: nat)
    ensures count == |CheckList(ReadScript(Lines(command)))|
  {
    hide CheckList, LinesFrom;
    count := 0;
    var cursor := 0;
    assert LinesFrom(command, 0) == ReadScript(Lines(command)) by { WholeText(command); }
    while true
      invariant cursor <= |command|
      invariant |CheckList(LinesFrom(command, 0))| == count + |CheckList(LinesFrom(command, cursor))|
      decreases |command| - cursor
    {
      var found := NextCheckDirective(command, cursor);
      if found.None? { return; }
      count, cursor := count + 1, found.value.1;
    }
  }

  lemma WholeText(command: string)
    ensures LinesFrom(command, 0) == ReadScript(Lines(command))
  {
    assert command[0..] == command;
  }
}
