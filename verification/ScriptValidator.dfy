/** validate_custom_syntax: which scripts are accepted, and the first error of the others. */
module ScriptValidator {
  import opened Options
  import opened ScriptText
  import opened ScriptDirectives

  /** Where the validator is between two lines. */
  datatype LineState = Outside | InTui | InHeredoc(delim: string, openLine: nat)

  datatype SyntaxError = SyntaxError(line: nat, problem: Problem)

  /** One line outside a block and outside a heredoc body. */
  function OutsideLine(l: ScriptLine, lineNo: nat): Result<LineState> {
    if l.tui.Some? then Ok(InTui)
    else if l.bareTui then Err(TuiNeedsCommand)
    else if IsTuiEnd(l) then Err(StrayEnd)
    else if l.check.Some? then
      var delim := ValidateCheck(l.check.value);
      if delim.Err? then Err(delim.problem)
      else if delim.value == "" then Ok(Outside)
      else Ok(InHeredoc(delim.value, lineNo))
    else if l.bareCheck then Err(CheckUsage)
    else if l.argument.Err? then Err(l.argument.problem)
    else Ok(Outside)
  }

  function NextState(st: LineState, l: ScriptLine, lineNo: nat): Result<LineState> {
    match st
    case InHeredoc(delim, openLine) => Ok(if l.long == delim then Outside else st)
    case Outside => OutsideLine(l, lineNo)
    case InTui =>
      if IsTuiEnd(l) then Ok(Outside)
      else if l.tui.Some? || l.bareTui then Err(NestedTui)
      else if l.instruction.Err? then Err(l.instruction.problem)
      else Ok(InTui)
  }

  /** The verdict when no line is left. */
  function ErrorAtEnd(st: LineState, lineNo: nat): Option<SyntaxError> {
    match st
    case Outside => None
    case InTui => Some(SyntaxError(if lineNo > 1 then lineNo - 1 else 1, MissingEnd))
    case InHeredoc(_, openLine) => Some(SyntaxError(openLine, HeredocNotClosed))
  }

  /** The error of the remaining lines, if any. */
  function ErrorFrom(lines: seq<ScriptLine>, st: LineState, lineNo: nat): Option<SyntaxError> {
    if lines == [] then ErrorAtEnd(st, lineNo)
    else
      var next := NextState(st, lines[0], lineNo);
      if next.Err? then Some(SyntaxError(lineNo, next.problem))
      else ErrorFrom(lines[1..], next.value, lineNo + 1)
  }

  predicate Accepts(lines: seq<string>) {
    ErrorFrom(ReadScript(lines), Outside, 1).None?
  }

  /** validate_custom_syntax over the text. */
  method ValidateCustomSyntax(command: string) returns (error: Option<SyntaxError>)
    ensures error == ErrorFrom(ReadScript(Lines(command)), Outside, 1)
  {
    var p, lineNo, st := 0, 1, Outside;
    assert command[0..] == command;
    ghost var all := LinesFrom(command, 0);
    ghost var lines := all;
    while p < |command|
      invariant 0 <= p <= |command| && lineNo >= 1
      invariant lines == LinesFrom(command, p)
      invariant ErrorFrom(lines, st, lineNo) == ErrorFrom(all, Outside, 1)
      decreases |command| - p
    {
      var l;
      l, p := ReadNext(command, p);
      assert lines[0] == l && lines[1..] == LinesFrom(command, p);
      lines := lines[1..];
      var next := NextState(st, l, lineNo);
      if next.Err? {
        return Some(SyntaxError(lineNo, next.problem));
      }
      st, lineNo := next.value, lineNo + 1;
    }
    error := ErrorAtEnd(st, lineNo);
  }
}
