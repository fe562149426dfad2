/** The directive parsers that the validator, the expander and the check counter share. */
module ScriptDirectives {
  import opened Options
  import opened CStrings
  import opened ScriptText

  const MAX_EVIDENCE_VARS := 32

  /** The validator's error messages, by what they complain about. */
  datatype Problem =
    | TuiNeedsCommand | StrayEnd | NestedTui | UnknownTui | MissingEnd | UnknownDirective
    | MissingArgument(directive: string)
    | CheckUsage | CheckVariable | CheckMatch | HeredocDelimMissing | HeredocNotClosed
    | QuoteInSend | QuoteInText | SendShellEmpty | TextShellEmpty | SleepNotNumeric | CtrlNotOneKey
    | EvidenceQuote | EvidenceTooMany | EvidenceLabelEmpty | EvidenceName | EvidenceNone

  datatype Result<+T> = Ok(value: T) | Err(problem: Problem)

  datatype Match =
    MatchNone | MatchExact | MatchNotExact | MatchContains | MatchNotContains | MatchEmpty | MatchNotEmpty

  datatype CheckRule = CheckRule(name: string, how: Match, expected: string)
  datatype ParsedCheck = ParsedCheck(rule: CheckRule, delim: string)
  datatype EvidenceVar = EvidenceVar(shown: string, name: string, labeled: bool)

  /** line_starts_directive, line_starts_tui and line_starts_reboot_if: the argument of a
      directive line, when it has one. */
  function DirectiveArg(line: string, name: string): Option<string> {
    var t := Trimmed(line, LONG_LEN);
    if !HasDirective(t, name) then None
    else
      var arg := Cut(TrimLeft(t[|name|..]), LONG_LEN);
      if arg == "" then None else Some(arg)
  }

  predicate IsValidVarName(s: string) {
    && s != ""
    && (IsAlpha(s[0]) || s[0] == '_')
    && forall i :: 1 <= i < |s| ==> IsAlpha(s[i]) || IsDigit(s[i]) || s[i] == '_'
  }

  function MatchNames(): seq<(string, Match)> {
    [("regex", MatchExact), ("none", MatchNone), ("exact", MatchExact), ("not_exact", MatchNotExact),
     ("contains", MatchContains), ("not_contains", MatchNotContains),
     ("empty", MatchEmpty), ("not_empty", MatchNotEmpty)]
  }

  function FindMatch(s: string, names: seq<(string, Match)>): Option<Match> {
    if names == [] then None
    else if names[0].0 == s then Some(names[0].1)
    else FindMatch(s, names[1..])
  }

  /** parse_match */
  function ParseMatch(s: string): Match {
    var found := FindMatch(s, MatchNames());
    if found.Some? then found.value else MatchNone
  }

  /** is_match_name */
  predicate IsMatchName(s: string) {
    FindMatch(s, MatchNames()).Some?
  }

  /** unescape_field into a buffer of `room` + 1 bytes. */
  function Unescape(s: string, room: nat): string
    decreases |s|
  {
    if s == "" || room == 0 then ""
    else if s[0] == '\\' && |s| > 1 then
      [if s[1] == 'n' then '\n' else if s[1] == 't' then '\t' else s[1]] + Unescape(s[2..], room - 1)
    else [s[0]] + Unescape(s[1..], room - 1)
  }

  /** A @check argument: variable, match and expected text. */
  datatype CheckFields = CheckFields(name: string, how: string, expected: string)

  function FieldsOf(arg: string): CheckFields {
    var buf := TrimLeft(Cut(arg, LONG_LEN));
    var name := Word(buf);
    var afterName := TrimLeft(buf[|name|..]);
    var how := Word(afterName);
    CheckFields(name, how, TrimLeft(afterName[|how|..]))
  }

  /** The delimiter of `<<`, and what the parser's cut leaves of the expected text. */
  function HeredocDelim(expected: string): (r: (string, string))
    requires "<<" <= expected
    ensures |r.0| < TEXT_LEN
  {
    var dashed := expected[2..];
    var d := TrimLeft(if dashed != "" && dashed[0] == '-' then dashed[1..] else dashed);
    var quotedAt := |expected| - |d|;
    if d != "" && (d[0] == '\'' || d[0] == '"') then
      var inner := d[1..];
      var end := IndexOf(inner, d[0]);
      (Cut(inner[..end], TEXT_LEN), if end < |inner| then expected[..quotedAt + 1 + end] else expected)
    else (Cut(Word(d), TEXT_LEN), expected)
  }

  /** parse_check_arg, once its fields are split. */
  function ParseCheck(fields: CheckFields): Option<ParsedCheck> {
    if fields.name == "" || fields.how == "" then None
    else
      var rule := CheckRule(Cut(fields.name, TEXT_LEN), ParseMatch(fields.how), "");
      if "<<" <= fields.expected then
        var (delim, left) := HeredocDelim(fields.expected);
        if delim != "" then Some(ParsedCheck(rule, delim))
        else Some(ParsedCheck(rule.(expected := Unescape(left, LONG_LEN - 1)), ""))
      else Some(ParsedCheck(rule.(expected := Unescape(fields.expected, LONG_LEN - 1)), ""))
  }

  /** validate_check_directive: the heredoc delimiter, empty when there is none. */
  function ValidateCheck(fields: CheckFields): Result<string> {
    if fields.name == "" || fields.how == "" then Err(CheckUsage)
    else if !IsValidVarName(fields.name) then Err(CheckVariable)
    else if !IsMatchName(fields.how) then Err(CheckMatch)
    else
      var parsed := ParseCheck(fields);
      if "<<" <= fields.expected then
        if parsed.None? || parsed.value.delim == "" then Err(HeredocDelimMissing)
        else Ok(Cut(parsed.value.delim, TEXT_LEN))
      else if parsed.None? then Err(CheckUsage)
      else Ok(parsed.value.delim)
  }

  /** What validates is what the parser gives, with the same delimiter. */
  lemma ValidatedCheck(fields: CheckFields)
    requires ValidateCheck(fields).Ok?
    ensures ParseCheck(fields).Some? && ParseCheck(fields).value.delim == ValidateCheck(fields).value
  {
  }

  /** One token of @evidence-vars: its text, what follows it, and whether its quotes match. */
  function Token(s: string, quote: char): (r: (string, string, bool))
    ensures |r.1| <= |s| && (s != "" && (quote != '\0' || !IsSpace(s[0])) ==> |r.1| < |s|)
    decreases |s|
  {
    if s == "" || (quote == '\0' && IsSpace(s[0])) then ("", s, quote == '\0')
    else if s[0] == '\\' && |s| > 1 then
      var (t, rest, closed) := Token(s[2..], quote);
      ([s[1]] + t, rest, closed)
    else if (s[0] == '"' || s[0] == '\'') && (quote == '\0' || quote == s[0]) then
      Token(s[1..], if quote == s[0] then '\0' else s[0])
    else
      var (t, rest, closed) := Token(s[1..], quote);
      ([s[0]] + t, rest, closed)
  }

  function EvidenceItem(token: string): Result<EvidenceVar> {
    var eq := IndexOf(token, '=');
    if eq < |token| then
      if eq == 0 then Err(EvidenceLabelEmpty)
      else if !IsValidVarName(token[eq + 1..]) then Err(EvidenceName)
      else Ok(EvidenceVar(Cut(token[..eq], TEXT_LEN), Cut(token[eq + 1..], TEXT_LEN), true))
    else if !IsValidVarName(token) then Err(EvidenceName)
    else Ok(EvidenceVar("", Cut(token, TEXT_LEN), false))
  }

  function EvidenceItems(arg: string, items: seq<EvidenceVar>): Result<seq<EvidenceVar>>
    decreases |arg|
  {
    var s := TrimLeft(arg);
    if s == "" then
      if items == [] then Err(EvidenceNone) else Ok(items)
    else
      var (token, rest, closed) := Token(s, '\0');
      if !closed then Err(EvidenceQuote)
      else if token == "" then EvidenceItems(rest, items)
      else if |items| >= MAX_EVIDENCE_VARS then Err(EvidenceTooMany)
      else
        var item := EvidenceItem(token);
        if item.Err? then Err(item.problem) else EvidenceItems(rest, items + [item.value])
  }

  /** parse_evidence_vars_arg; its 4096 byte token cannot overflow on an argument that fits one. */
  function ParseEvidenceVars(arg: string): Result<seq<EvidenceVar>> {
    EvidenceItems(arg, [])
  }

  /** decode_tui_argument_checked: the decoded text, and whether its quotes match.  The buffer is
      as large as the line it came from, so nothing is cut. */
  function DecodeTui(s: string, quote: char): (string, bool)
    decreases |s|
  {
    if s == "" then ("", quote == '\0')
    else if s[0] == '\\' && |s| > 1 then
      var (t, closed) := DecodeTui(s[2..], quote);
      ([s[1]] + t, closed)
    else if (s[0] == '"' || s[0] == '\'') && (quote == '\0' || quote == s[0]) then
      DecodeTui(s[1..], if quote == s[0] then '\0' else s[0])
    else
      var (t, closed) := DecodeTui(s[1..], quote);
      ([s[0]] + t, closed)
  }

  /** is_tui key words that take no argument. */
  predicate IsTuiKey(s: string) {
    s == "enter" || s == "esc" || s == "tab" || s == "space" || s == "vim-clear" || s == "vim-write-quit"
  }

  /** The directives that take one argument to the end of the line, in the order both passes
      try them. */
  function Helpers(): seq<string> {
    ["@assert", "@backup", "@restore",
     "@evidence-comment", "@evidence-capture", "@evidence-vars", "@evidence", "@capture"]
  }

  /** Only @evidence-vars has its argument looked into. */
  function ArgumentError(name: string, arg: string): Result<()> {
    if name != "@evidence-vars" then Ok(())
    else
      var parsed := ParseEvidenceVars(arg);
      if parsed.Err? then Err(parsed.problem) else Ok(())
  }

  /** The tail of the validator's chain of directive tests, from the first of `rest` on. */
  function CheckArgument(line: string, rest: seq<string>): Result<()>
    decreases |rest|
  {
    if rest == [] then
      if "@" <= Trimmed(line, LONG_LEN) then Err(UnknownDirective) else Ok(())
    else
      var arg := DirectiveArg(line, rest[0]);
      if arg.Some? then ArgumentError(rest[0], arg.value)
      else if HasDirective(Trimmed(line, LONG_LEN), rest[0]) then Err(MissingArgument(rest[0]))
      else CheckArgument(line, rest[1..])
  }

  /** The sleep argument: digits with at most one dot. */
  predicate IsSleepTime(s: string) {
    && (forall i :: 0 <= i < |s| ==> IsDigit(s[i]) || s[i] == '.')
    && (exists i :: 0 <= i < |s| && IsDigit(s[i]))
    && forall i, j :: 0 <= i < j < |s| ==> !(s[i] == '.' && s[j] == '.')
  }

  /** validate_tui_instruction on a trimmed line */
  function ValidateTui(t: string): Result<()> {
    if t == "" then Ok(())
    else if "send " <= t then if DecodeTui(t[5..], '\0').1 then Ok(()) else Err(QuoteInSend)
    else if "text " <= t then if DecodeTui(t[5..], '\0').1 then Ok(()) else Err(QuoteInText)
    else if "send-shell " <= t then if |t| > 11 then Ok(()) else Err(SendShellEmpty)
    else if "text-shell " <= t then if |t| > 11 then Ok(()) else Err(TextShellEmpty)
    else if IsTuiKey(t) then Ok(())
    else if "sleep " <= t then if IsSleepTime(t[6..]) then Ok(()) else Err(SleepNotNumeric)
    else if "ctrl " <= t then if |t| == 6 && IsAlpha(t[5]) then Ok(()) else Err(CtrlNotOneKey)
    else Err(UnknownTui)
  }

  /** line_is_reboot_command: the trimmed line, when it fits 256 bytes, names a reboot. */
  predicate IsRebootCommand(line: string) {
    var t := TrimRight(TrimLeft(line));
    && |t| < TEXT_LEN
    && (t == "reboot" || "reboot " <= t || t == "systemctl reboot" || "systemctl reboot " <= t
        || "shutdown -r" <= t || t == "init 6")
  }

  /** line_is_reboot_boundary */
  predicate IsRebootBoundary(line: string) {
    IsRebootCommand(line) || DirectiveArg(line, "@reboot-if").Some?
  }

  // ---------------------------------------------------------------- emitted pieces

  datatype Complaint = NgStrayEnd | NgNestedTui | NgMissingEnd | NgCtrl | NgUnknownTui | NgEvidenceVars

  /** A piece of emitted shell; Ng is one of the fragments that print [NG] and exit. */
  datatype Piece =
    | Shell(line: string)
    | Helper(name: string, arg: string)
    | EvidenceVars(items: seq<EvidenceVar>)
    | CheckCapture(rule: CheckRule)
    | CheckNote
    | TuiOpen
    | TuiClose(command: string)
    | TuiSend(decoded: string) | TuiSendShell(expr: string)
    | TuiText(decoded: string) | TuiTextShell(expr: string)
    | TuiKey(name: string) | TuiSleep(digits: string) | TuiCtrl(key: char)
    | Ng(complaint: Complaint)

  function SleepDigits(s: string): string {
    if s == "" then ""
    else (if IsDigit(s[0]) || s[0] == '.' then [s[0]] else []) + SleepDigits(s[1..])
  }

  /** write_tui_instruction on a trimmed line */
  function TuiPieces(t: string): seq<Piece> {
    if "send " <= t then [TuiSend(DecodeTui(t[5..], '\0').0)]
    else if "send-shell " <= t then [TuiSendShell(t[11..])]
    else if "text " <= t then [TuiText(DecodeTui(t[5..], '\0').0)]
    else if "text-shell " <= t then [TuiTextShell(t[11..])]
    else if IsTuiKey(t) then [TuiKey(t)]
    else if "sleep " <= t then [TuiSleep(SleepDigits(t[6..]))]
    else if "ctrl " <= t && |t| > 5 then
      if IsAlpha(t[5]) then [TuiCtrl(t[5])] else [Ng(NgCtrl)]
    else if t != "" then [Ng(NgUnknownTui)]
    else []
  }

  /** write_evidence_vars_expanded, or a helper call. */
  function HelperPiece(name: string, arg: string): Piece {
    if name == "@evidence-vars" then
      var parsed := ParseEvidenceVars(arg);
      if parsed.Err? then Ng(NgEvidenceVars) else EvidenceVars(parsed.value)
    else Helper(name, arg)
  }

  function FindHelper(line: string, names: seq<string>): Option<Piece>
    decreases |names|
  {
    if names == [] then None
    else
      var arg := DirectiveArg(line, names[0]);
      if arg.Some? then Some(HelperPiece(names[0], arg.value)) else FindHelper(line, names[1..])
  }

  // ---------------------------------------------------------------- one line, read once

  /** What the tests of both passes find out about one line. */
  datatype ScriptLine = ScriptLine(
    raw: string,
    long: string,                     // trimmed into a 4096 byte buffer
    short: string,                    // trimmed into a 256 byte buffer
    tui: Option<string>,              // @tui with its command
    bareTui: bool,                    // @tui without one
    helper: Option<Piece>,            // what a helper directive expands to
    argument: Result<()>,             // what the validator says to directives other than these
    check: Option<CheckFields>,       // @check with an argument
    bareCheck: bool,
    instruction: Result<()>,          // as a line of a @tui block
    keys: seq<Piece>,
    boundary: bool)                   // a reboot line

  function ReadScriptLine(line: string): ScriptLine {
    var long := Trimmed(line, LONG_LEN);
    var check := DirectiveArg(line, "@check");
    ScriptLine(line, long, Trimmed(line, TEXT_LEN),
               DirectiveArg(line, "@tui"), HasDirective(long, "@tui") && DirectiveArg(line, "@tui").None?,
               FindHelper(line, Helpers()), CheckArgument(line, Directives()),
               if check.Some? then Some(FieldsOf(check.value)) else None,
               HasDirective(long, "@check") && check.None?,
               ValidateTui(long), TuiPieces(long), IsRebootBoundary(line))
  }

  function Directives(): seq<string> {
    Helpers() + ["@reboot-if"]
  }

  function ReadScript(lines: seq<string>): seq<ScriptLine> {
    if lines == [] then [] else [ReadScriptLine(lines[0])] + ReadScript(lines[1..])
  }

  /** The classified lines of the text from p on. */
  function LinesFrom(text: string, p: nat): seq<ScriptLine>
    requires p <= |text|
  {
    ReadScript(Lines(text[p..]))
  }

  lemma NoLinesLeft(text: string)
    ensures LinesFrom(text, |text|) == []
  {
  }

  /** One turn of a loop over the lines, with the line classified. */
  method ReadNext(text: string, p: nat) returns (l: ScriptLine, next: nat)
    requires p < |text|
    ensures p < next <= |text|
    ensures LinesFrom(text, p) == [l] + LinesFrom(text, next)
  {
    var line;
    line, next := ReadLine(text, p);
    l := ReadScriptLine(line);
    assert ([line] + Lines(text[next..]))[1..] == Lines(text[next..]);
  }

  /** line_is_tui_end */
  predicate IsTuiEnd(l: ScriptLine) {
    l.short == "@end"
  }

  /** A @check line as the expander and the counter parse it. */
  function CheckOn(l: ScriptLine): Option<ParsedCheck> {
    if l.check.None? then None else ParseCheck(l.check.value)
  }

  /** The line that ends a heredoc for collect_check_heredoc. */
  predicate Closes(l: ScriptLine, delim: string) {
    l.short == delim
  }

  /** collect_check_heredoc: the lines after the closing one; none when it never closes. */
  function AfterHeredoc(lines: seq<ScriptLine>, delim: string): (after: seq<ScriptLine>)
    ensures |after| <= |lines| && after == lines[|lines| - |after|..]
  {
    if lines == [] then []
    else if Closes(lines[0], delim) then lines[1..]
    else AfterHeredoc(lines[1..], delim)
  }

  /** One more line in the 4096 byte expected field, cut where the field is full. */
  function AddBodyLine(text: string, raw: string, first: bool): string {
    var joined := if !first && |text| + 1 < LONG_LEN then text + "\n" else text;
    var room := if |joined| + 1 < LONG_LEN then LONG_LEN - |joined| - 1 else 0;
    joined + (if |raw| <= room then raw else raw[..room])
  }

  /** The body text collected before the closing line. */
  function HeredocBody(lines: seq<ScriptLine>, delim: string, text: string, first: bool): string {
    if lines == [] || Closes(lines[0], delim) then text
    else HeredocBody(lines[1..], delim, AddBodyLine(text, lines[0].raw, first), false)
  }
}
