/** Which scripts are accepted and what is wrong with the others, told by the words of their lines. */
module ScriptVerdicts {
  import opened Options
  import opened CStrings
  import opened ScriptText
  import opened ScriptDirectives
  import opened ScriptValidator
  import opened ScriptAgreement
  import opened ScriptMeaning
  import opened ScriptWords

  // ---------------------------------------------------------------- the lines of a block

  predicate Letters(s: string) {
    forall i :: 0 <= i < |s| ==> 65 <= s[i] as int <= 90 || 97 <= s[i] as int <= 122
  }

  /** Digits, or digits and a dot somewhere among them. */
  ghost predicate IsNumber(s: string) {
    (s != "" && AllDigits(s))
    || exists dot :: 0 <= dot < |s| && |s| > 1 && s[dot] == '.' && AllDigits(s[..dot]) && AllDigits(s[dot + 1..])
  }

  /** What is wrong with a line of a block, by its first word and what stands behind one blank. */
  ghost function InstructionProblem(t: string): Option<Problem> {
    var word := Word(t);
    var blank := |word| < |t| && t[|word|] == ' ';
    var rest := if blank then t[|word| + 1..] else "";
    if t == "" || t in {"enter", "esc", "tab", "space", "vim-clear", "vim-write-quit"} then None
    else if word == "send" && blank then if DecodeTui(rest, '\0').1 then None else Some(QuoteInSend)
    else if word == "text" && blank then if DecodeTui(rest, '\0').1 then None else Some(QuoteInText)
    else if word == "send-shell" && blank then if rest != "" then None else Some(SendShellEmpty)
    else if word == "text-shell" && blank then if rest != "" then None else Some(TextShellEmpty)
    else if word == "sleep" && blank then if IsNumber(rest) then None else Some(SleepNotNumeric)
    else if word == "ctrl" && blank then if |rest| == 1 && Letters(rest) then None else Some(CtrlNotOneKey)
    else Some(UnknownTui)
  }

  function ResultOf(problem: Option<Problem>): Result<()> {
    if problem.Some? then Err(problem.value) else Ok(())
  }

  lemma TimesByDigits(s: string)
    ensures IsSleepTime(s) <==> IsNumber(s)
  {
    if IsSleepTime(s) {
      var dot := OnlyNumbersAreTimes(s);
      if dot == |s| { assert s[..dot] == s; }
    }
    if s != "" && AllDigits(s) {
      TimesAreNumbers(s, "");
    } else if IsNumber(s) {
      var dot :| 0 <= dot < |s| && |s| > 1 && s[dot] == '.' && AllDigits(s[..dot]) && AllDigits(s[dot + 1..]);
      TimesAreNumbers(s[..dot], s[dot + 1..]);
      assert s[..dot] + "." + s[dot + 1..] == s;
    }
  }

  /** A line that starts with a word and a blank. */
  lemma WordAndBlank(t: string, word: string)
    requires Spaceless(word)
    ensures word + " " <= t <==> Word(t) == word && |word| < |t| && t[|word|] == ' '
  {
    assert forall i :: 0 <= i < |word| ==> word[i] in word;
    if word + " " <= t {
      assert t == word + t[|word|..] && t[|word|] == (word + " ")[|word|];
      assert word <= t by { assert (word + " ")[..|word|] == word; }
      FirstWordOf(t, word);
    }
    if Word(t) == word && |word| < |t| && t[|word|] == ' ' {
      assert t[..|word| + 1] == word + " ";
    }
  }

  lemma KeyStarts(t: string)
    requires t in {"enter", "esc", "tab", "space", "vim-clear", "vim-write-quit"}
    ensures IsTuiKey(t) && t != "" && ' ' !in t
    ensures !("send " <= t) && !("text " <= t) && !("send-shell " <= t) && !("text-shell " <= t)
    ensures !("sleep " <= t) && !("ctrl " <= t)
  {
    BlankInside("send ", t);
    BlankInside("text ", t);
    BlankInside("send-shell ", t);
    BlankInside("text-shell ", t);
    BlankInside("sleep ", t);
    BlankInside("ctrl ", t);
  }

  lemma BlankInside(start: string, t: string)
    requires start != "" && start[|start| - 1] == ' '
    ensures start <= t ==> ' ' in t
  {
    if start <= t { assert t[|start| - 1] == ' '; }
  }

  lemma InstructionVerdict(t: string)
    ensures ValidateTui(t) == ResultOf(InstructionProblem(t))
  {
    WordsAreSpaceless();
    hide DecodeTui, Word, IsSleepTime, IsNumber, Spaceless;
    WordAndBlank(t, "send");
    WordAndBlank(t, "text");
    WordAndBlank(t, "send-shell");
    WordAndBlank(t, "text-shell");
    WordAndBlank(t, "sleep");
    WordAndBlank(t, "ctrl");
    TimesByDigits(if |t| >= 6 then t[6..] else "");
    if t in {"enter", "esc", "tab", "space", "vim-clear", "vim-write-quit"} { KeyStarts(t); }
    assert "send" + " " == "send " && "text" + " " == "text " && "sleep" + " " == "sleep " && "ctrl" + " " == "ctrl ";
    assert "send-shell" + " " == "send-shell " && "text-shell" + " " == "text-shell ";
  }

  // ---------------------------------------------------------------- checks

  predicate IsName(s: string) {
    && s != "" && !(48 <= s[0] as int <= 57)
    && forall i :: 0 <= i < |s| ==>
         var c := s[i] as int; c == 95 || 48 <= c <= 57 || 65 <= c <= 90 || 97 <= c <= 122
  }

  ghost predicate NamesMatch(how: string) {
    how == "regex" || exists m: Match :: how == MatchName(m)
  }

  /** What is wrong with a check. */
  ghost function CheckProblem(fields: CheckFields): Option<Problem> {
    if fields.name == "" || fields.how == "" then Some(CheckUsage)
    else if !IsName(fields.name) then Some(CheckVariable)
    else if !NamesMatch(fields.how) then Some(CheckMatch)
    else if "<<" <= fields.expected && HeredocDelim(fields.expected).0 == "" then Some(HeredocDelimMissing)
    else None
  }

  /** The delimiter below which its text stands; empty when the text is on the line. */
  function DelimOf(fields: CheckFields): string {
    if "<<" <= fields.expected then HeredocDelim(fields.expected).0 else ""
  }

  lemma MatchesByName(how: string)
    ensures IsMatchName(how) <==> NamesMatch(how)
  {
    OnlyTheseAreMatches(how);
    MatchReadsBack(MatchNone);
    forall m: Match | how == MatchName(m)
      ensures IsMatchName(how)
    {
      MatchReadsBack(m);
    }
  }

  lemma CheckVerdict(fields: CheckFields)
    ensures ValidateCheck(fields)
            == if CheckProblem(fields).Some? then Err(CheckProblem(fields).value) else Ok(DelimOf(fields))
  {
    VariableNames(fields.name);
    assert IsValidVarName(fields.name) <==> IsName(fields.name);
    MatchesByName(fields.how);
    hide IsValidVarName, IsMatchName, NamesMatch, IsName, HeredocDelim, Unescape, ParseMatch;
    if "<<" <= fields.expected { DelimStays(fields.expected); }
  }

  /** A check with its text on the line, as it is taken apart, accepted or not. */
  lemma ChecksAreParsed(name: string, how: Match, text: string)
    requires name != "" && |name| < TEXT_LEN && !("<<" <= Escaped(text))
    ensures ParseCheck(CheckFields(name, MatchName(how), Escaped(text)))
            == Some(ParsedCheck(CheckRule(name, how, if |text| <= 4095 then text else text[..4095]), ""))
  {
    hide ParseCheck, Unescape, ParseMatch, Escaped, MatchName, IsMatchName, Cut;
    MatchReadsBack(how);
    EscapedReadsBack(text, 4095);
    NameIsThere(how);
    PlainCheck(name, MatchName(how), Escaped(text));
    assert Cut(name, TEXT_LEN) == name by { Uncut(name); }
  }

  lemma NameIsThere(how: Match)
    ensures MatchName(how) != ""
  {
  }

  lemma PlainCheck(name: string, how: string, expected: string)
    requires name != "" && how != "" && !("<<" <= expected)
    ensures ParseCheck(CheckFields(name, how, expected))
            == Some(ParsedCheck(CheckRule(Cut(name, TEXT_LEN), ParseMatch(how), Unescape(expected, 4095)), ""))
  {
    hide Unescape, ParseMatch, HeredocDelim, Cut;
  }

  /** Without a name or a match there is no check. */
  lemma NoCheck(fields: CheckFields)
    requires fields.name == "" || fields.how == ""
    ensures ParseCheck(fields) == None
  {
    hide HeredocDelim;
  }

  /** With << the delimiter is kept and no text, and without a delimiter behind it the text is what
      the parser leaves of the field, which ends in front of the closing one of two quotes. */
  lemma HeredocsAreParsed(name: string, how: Match, expected: string)
    requires name != "" && |name| < TEXT_LEN && "<<" <= expected
    ensures var (delim, left) := HeredocDelim(expected);
            ParseCheck(CheckFields(name, MatchName(how), expected))
            == Some(if delim != "" then ParsedCheck(CheckRule(name, how, ""), delim)
                    else ParsedCheck(CheckRule(name, how, Unescape(left, 4095)), ""))
  {
    MatchReadsBack(how);
    assert MatchName(how) != "" && Cut(name, TEXT_LEN) == name;
    hide Unescape, ParseMatch, HeredocDelim, MatchName, Cut, IsMatchName;
  }

  // ---------------------------------------------------------------- lines outside blocks

  predicate TakesArgument(name: string) {
    IsPlainHelper(name) || name == "@evidence-vars" || name == "@reboot-if"
  }

  /** What is wrong with a line outside blocks and heredocs, by its first word and what is behind it. */
  ghost function LineProblem(raw: string): Option<Problem> {
    var name, arg := First(raw), Behind(raw);
    if name == "@tui" then if arg == "" then Some(TuiNeedsCommand) else None
    else if Trimmed(raw, LONG_LEN) == "@end" then Some(StrayEnd)
    else if name == "@check" then if arg == "" then Some(CheckUsage) else CheckProblem(FieldsOf(arg))
    else if TakesArgument(name) then
      if arg == "" then Some(MissingArgument(name))
      else if name == "@evidence-vars" && ParseEvidenceVars(arg).Err? then Some(ParseEvidenceVars(arg).problem)
      else None
    else if "@" <= name then Some(UnknownDirective)
    else None
  }

  /** Where the script stands behind a line that is in order. */
  function Below(raw: string, lineNo: nat): LineState {
    var delim := DelimOf(FieldsOf(Behind(raw)));
    if First(raw) == "@tui" then InTui
    else if First(raw) == "@check" && delim != "" then InHeredoc(delim, lineNo)
    else Outside
  }

  lemma {:induction false} ArgumentByWord(raw: string, chain: seq<string>)
    requires forall n :: n in chain ==> Spaceless(n)
    ensures CheckArgument(raw, chain)
            == if First(raw) in chain then
                 if Behind(raw) == "" then Err(MissingArgument(First(raw))) else ArgumentError(First(raw), Behind(raw))
               else if "@" <= Trimmed(raw, LONG_LEN) then Err(UnknownDirective)
               else Ok(())
    decreases |chain|
  {
    hide DirectiveArg, HasDirective, ArgumentError, First, Behind, Trimmed, Spaceless;
    if chain != [] {
      DirectiveByFirstWord(raw, chain[0]);
      ArgumentByWord(raw, chain[1..]);
      assert forall n :: n in chain <==> n == chain[0] || n in chain[1..];
    }
  }

  lemma MarkIsFirst(raw: string)
    ensures "@" <= Trimmed(raw, LONG_LEN) <==> "@" <= First(raw)
    ensures Trimmed(raw, LONG_LEN) == "@end" ==> First(raw) == "@end"
  {
    var t := Trimmed(raw, LONG_LEN);
    hide Trimmed, TrimLeft;
    assert !IsSpace('@');
    assert "@" <= t ==> t[0] == '@';
    if t == "@end" { WordAlone(t); }
  }

  lemma DirectivesByName(name: string)
    ensures name in Directives() <==> TakesArgument(name)
  {
    HelpersListed(name);
    hide Helpers;
  }

  /** The names differ, so that at most one branch is for a line. */
  lemma NamesDiffer()
    ensures !TakesArgument("@tui") && !TakesArgument("@check") && !TakesArgument("@end")
    ensures "@tui" != "@check" && "@tui" != "@end" && "@check" != "@end"
  {
  }

  lemma OutsideVerdict(raw: string, lineNo: nat)
    ensures OutsideLine(ReadScriptLine(raw), lineNo)
            == if LineProblem(raw).Some? then Err(LineProblem(raw).value) else Ok(Below(raw, lineNo))
  {
    hide ReadScriptLine, First, Behind, Trimmed, Directives, Helpers, TakesArgument, IsTuiEnd, FieldsOf;
    hide ParseEvidenceVars, ValidateCheck, CheckProblem, DelimOf, CheckArgument, Spaceless, IsPlainHelper;
    LineByFirstWord(raw);
    EndByText(raw);
    MarkIsFirst(raw);
    NamesDiffer();
    ListedNames();
    ArgumentByWord(raw, Directives());
    DirectivesByName(First(raw));
    CheckVerdict(FieldsOf(Behind(raw)));
  }

  lemma EndByText(raw: string)
    ensures IsTuiEnd(ReadScriptLine(raw)) <==> Trimmed(raw, LONG_LEN) == "@end"
  {
    BuffersAgree(raw, "@end");
    hide Trimmed, DirectiveArg, FindHelper, CheckArgument, FieldsOf, ValidateTui, TuiPieces, IsRebootBoundary;
  }

  // ---------------------------------------------------------------- whole scripts

  /** The first thing that is wrong from a state on, with its line.  At the end a block is missing its
      end below the last line, and a heredoc is not closed where it was opened. */
  ghost function FirstProblem(lines: seq<string>, st: LineState, lineNo: nat): Option<SyntaxError> {
    if lines == [] then
      match st
      case Outside => None
      case InTui => Some(SyntaxError(if lineNo > 1 then lineNo - 1 else 1, MissingEnd))
      case InHeredoc(_, openLine) => Some(SyntaxError(openLine, HeredocNotClosed))
    else
      var raw, rest := lines[0], lines[1..];
      var text := Trimmed(raw, LONG_LEN);
      match st
      case InHeredoc(delim, _) => FirstProblem(rest, if text == delim then Outside else st, lineNo + 1)
      case InTui =>
        if text == "@end" then FirstProblem(rest, Outside, lineNo + 1)
        else if First(raw) == "@tui" then Some(SyntaxError(lineNo, NestedTui))
        else if InstructionProblem(text).Some? then Some(SyntaxError(lineNo, InstructionProblem(text).value))
        else FirstProblem(rest, InTui, lineNo + 1)
      case Outside =>
        if LineProblem(raw).Some? then Some(SyntaxError(lineNo, LineProblem(raw).value))
        else FirstProblem(rest, Below(raw, lineNo), lineNo + 1)
  }

  lemma InsideVerdict(raw: string, lineNo: nat)
    ensures NextState(InTui, ReadScriptLine(raw), lineNo)
            == if Trimmed(raw, LONG_LEN) == "@end" then Ok(Outside)
               else if First(raw) == "@tui" then Err(NestedTui)
               else if InstructionProblem(Trimmed(raw, LONG_LEN)).Some? then
                 Err(InstructionProblem(Trimmed(raw, LONG_LEN)).value)
               else Ok(InTui)
  {
    LineByFirstWord(raw);
    BuffersAgree(raw, "@end");
    InstructionVerdict(Trimmed(raw, LONG_LEN));
    hide Trimmed, DirectiveArg, FindHelper, First, Behind, ValidateTui, InstructionProblem, CheckArgument, TuiPieces,
         FieldsOf, IsRebootBoundary;
  }

  /** The validator finds exactly the first problem. */
  lemma {:induction false} ProblemsAreFound(lines: seq<string>, st: LineState, lineNo: nat)
    ensures ErrorFrom(ReadScript(lines), st, lineNo) == FirstProblem(lines, st, lineNo)
    decreases |lines|
  {
    if lines != [] {
      var raw, rest := lines[0], lines[1..];
      ReadStep(lines);
      match st {
        case InHeredoc(delim, openLine) =>
          hide ReadScriptLine, Trimmed;
          ProblemsAreFound(rest, if Trimmed(raw, LONG_LEN) == delim then Outside else st, lineNo + 1);
        case InTui =>
          hide ReadScriptLine, Trimmed, NextState, InstructionProblem, First;
          InsideVerdict(raw, lineNo);
          ProblemsAreFound(rest, Outside, lineNo + 1);
          ProblemsAreFound(rest, InTui, lineNo + 1);
        case Outside =>
          hide ReadScriptLine, OutsideLine, LineProblem, Below;
          OutsideVerdict(raw, lineNo);
          ProblemsAreFound(rest, Below(raw, lineNo), lineNo + 1);
      }
    }
  }

  /** A script is accepted exactly if its lines have no problem, and its error is otherwise the first. */
  lemma AcceptedIff(command: string)
    ensures Accepts(Lines(command)) <==> FirstProblem(Lines(command), Outside, 1).None?
    ensures ErrorFrom(ReadScript(Lines(command)), Outside, 1) == FirstProblem(Lines(command), Outside, 1)
  {
    ProblemsAreFound(Lines(command), Outside, 1);
  }
}
