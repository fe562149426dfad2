/** What an accepted script is expanded to, told by the first word and the rest of each line, in the
    states that the validator goes through. */
module ScriptMeaning {
  import opened Options
  import opened CStrings
  import opened ScriptText
  import opened ScriptDirectives
  import opened ScriptValidator
  import opened ScriptExpander
  import opened ScriptAgreement

  // ---------------------------------------------------------------- the meaning of a line

  /** The first word of a line, and the text behind it and its white space. */
  function First(raw: string): string {
    Word(Trimmed(raw, LONG_LEN))
  }

  function Behind(raw: string): string {
    var t := Trimmed(raw, LONG_LEN);
    TrimLeft(t[|Word(t)|..])
  }

  /** A line of a @tui block: its first word says what is sent, the rest after one blank what of. */
  function InstructionMeans(t: string): seq<Piece>
    requires ValidateTui(t).Ok?
  {
    var word := Word(t);
    var rest := if |word| < |t| then t[|word| + 1..] else "";
    if t == "" then []
    else if word == "send" then [TuiSend(DecodeTui(rest, '\0').0)]
    else if word == "text" then [TuiText(DecodeTui(rest, '\0').0)]
    else if word == "send-shell" then [TuiSendShell(rest)]
    else if word == "text-shell" then [TuiTextShell(rest)]
    else if word == "sleep" then [TuiSleep(rest)]
    else if word == "ctrl" && rest != "" then [TuiCtrl(rest[0])]
    else [TuiKey(t)]
  }

  /** A check with its expected text: given on the line, or below it. */
  function CheckMeans(raw: string, below: Option<string>): seq<Piece> {
    var fields := FieldsOf(Behind(raw));
    var expected := if below.Some? then below.value else Unescape(fields.expected, LONG_LEN - 1);
    [CheckCapture(CheckRule(Cut(fields.name, TEXT_LEN), ParseMatch(fields.how), expected)), CheckNote]
  }

  /** The helpers that are called with their argument as it stands. */
  predicate IsPlainHelper(name: string) {
    name in {"@assert", "@backup", "@restore", "@evidence-comment", "@evidence-capture", "@evidence", "@capture"}
  }

  /** A line outside blocks and heredocs that opens neither. */
  function LineMeans(raw: string): seq<Piece> {
    var name := First(raw);
    if IsPlainHelper(name) then
      [Helper(name, Behind(raw))]
    else if name == "@evidence-vars" then
      var parsed := ParseEvidenceVars(Behind(raw));
      if parsed.Ok? then [EvidenceVars(parsed.value)] else []
    else if name == "@check" then CheckMeans(raw, None)
    else [Shell(raw)]
  }

  /** The lines before the one that reads as the delimiter. */
  function BodyLines(lines: seq<string>, delim: string): (body: seq<string>)
    ensures |body| <= |lines|
  {
    if lines == [] || Trimmed(lines[0], LONG_LEN) == delim then [] else [lines[0]] + BodyLines(lines[1..], delim)
  }

  /** Lines with newlines between them. */
  function Between(lines: seq<string>): string {
    if lines == [] then "" else if |lines| == 1 then lines[0] else lines[0] + "\n" + Between(lines[1..])
  }

  /** The expansion of the lines that the validator reads from a state on; `command` is that of the
      open @tui block. */
  function Meaning(lines: seq<string>, st: LineState, lineNo: nat, command: string): seq<Piece> {
    if lines == [] then []
    else
      var raw, rest := lines[0], lines[1..];
      var next := NextState(st, ReadScriptLine(raw), lineNo);
      if next.Err? then []
      else
        var own :=
          match st
          case InHeredoc(_, _) => []
          case InTui =>
            if next.value.Outside? then [TuiClose(command)]
            else if ValidateTui(Trimmed(raw, LONG_LEN)).Ok? then InstructionMeans(Trimmed(raw, LONG_LEN))
            else []
          case Outside =>
            if next.value.InTui? then [TuiOpen]
            else if next.value.InHeredoc? then
              CheckMeans(raw, Some(Cut(Between(BodyLines(rest, next.value.delim)), LONG_LEN)))
            else LineMeans(raw);
        own + Meaning(rest, next.value, lineNo + 1, if st.Outside? && next.value.InTui? then Behind(raw) else command)
  }

  // ---------------------------------------------------------------- directives by their first word

  lemma BehindFits(raw: string)
    ensures |Behind(raw)| < LONG_LEN && First(raw) <= Trimmed(raw, LONG_LEN)
    ensures |Trimmed(raw, LONG_LEN)| < LONG_LEN
  {
  }

  lemma DirectiveByFirstWord(raw: string, name: string)
    requires Spaceless(name)
    ensures HasDirective(Trimmed(raw, LONG_LEN), name) <==> First(raw) == name
    ensures DirectiveArg(raw, name) == if First(raw) == name && Behind(raw) != "" then Some(Behind(raw)) else None
  {
    assert forall i :: 0 <= i < |name| ==> name[i] in name;
    HasDirectiveIsFirstWord(Trimmed(raw, LONG_LEN), name);
    BehindFits(raw);
    hide Trimmed, TrimLeft, Word, Spaceless;
  }

  lemma {:induction false} HelperByFirstWord(raw: string, names: seq<string>)
    requires forall n :: n in names ==> Spaceless(n)
    ensures FindHelper(raw, names)
            == if First(raw) in names && Behind(raw) != "" then Some(HelperPiece(First(raw), Behind(raw))) else None
    decreases |names|
  {
    hide DirectiveArg, HelperPiece, First, Behind, Spaceless;
    if names != [] {
      DirectiveByFirstWord(raw, names[0]);
      HelperByFirstWord(raw, names[1..]);
      assert forall n :: n in names <==> n == names[0] || n in names[1..];
    }
  }

  /** An accepted directive has its argument. */
  lemma {:induction false} ChainNeedsArgument(raw: string, chain: seq<string>)
    requires CheckArgument(raw, chain).Ok? && First(raw) in chain && forall n :: n in chain ==> Spaceless(n)
    ensures Behind(raw) != ""
    decreases |chain|
  {
    hide DirectiveArg, HasDirective, ArgumentError, First, Behind, Trimmed, Spaceless;
    DirectiveByFirstWord(raw, chain[0]);
    if First(raw) != chain[0] {
      ChainNeedsArgument(raw, chain[1..]);
    }
  }

  lemma HelpersListed(name: string)
    ensures name in Helpers() <==> IsPlainHelper(name) || name == "@evidence-vars"
  {
    var names := Helpers();
    assert names[0] == "@assert" && names[1] == "@backup" && names[2] == "@restore" && names[3] == "@evidence-comment";
    assert names[4] == "@evidence-capture" && names[5] == "@evidence-vars" && names[6] == "@evidence";
    assert names[7] == "@capture";
    if name in names {
      var k :| 0 <= k < |names| && names[k] == name;
    }
  }

  // ---------------------------------------------------------------- one line

  /** What is read of a line, by its first word. */
  lemma LineByFirstWord(raw: string)
    ensures var l, name, arg := ReadScriptLine(raw), First(raw), Behind(raw);
            && l.raw == raw && l.argument == CheckArgument(raw, Directives())
            && l.tui == (if name == "@tui" && arg != "" then Some(arg) else None)
            && (l.bareTui <==> name == "@tui" && arg == "")
            && l.helper == (if name in Helpers() && arg != "" then Some(HelperPiece(name, arg)) else None)
            && l.check == (if name == "@check" && arg != "" then Some(FieldsOf(arg)) else None)
            && (l.bareCheck <==> name == "@check" && arg == "")
  {
    NamesAreSpaceless();
    ListedNames();
    DirectiveByFirstWord(raw, "@tui");
    DirectiveByFirstWord(raw, "@check");
    HelperByFirstWord(raw, Helpers());
    hide DirectiveArg, FindHelper, Behind, First, Trimmed, Spaceless, Helpers, CheckArgument, FieldsOf, HelperPiece;
    hide HasDirective, ValidateTui, TuiPieces, IsRebootBoundary;
  }

  /** A line that opens a block. */
  lemma TuiLineMeans(raw: string, lineNo: nat)
    requires OutsideLine(ReadScriptLine(raw), lineNo).Ok? && OutsideLine(ReadScriptLine(raw), lineNo).value.InTui?
    ensures !OpensHeredoc(ReadScriptLine(raw)) && OutsideTurn(ReadScriptLine(raw)) == Turn([TuiOpen], Some(Behind(raw)))
  {
    LineByFirstWord(raw);
    hide ReadScriptLine, Behind, First, ValidateCheck;
  }

  /** A line that goes on outside. */
  lemma OutsideLineMeans(raw: string, lineNo: nat)
    requires OutsideLine(ReadScriptLine(raw), lineNo) == Ok(Outside)
    ensures !OpensHeredoc(ReadScriptLine(raw)) && OutsideTurn(ReadScriptLine(raw)) == Turn(LineMeans(raw), None)
  {
    LineByFirstWord(raw);
    HelpersListed(First(raw));
    hide ReadScriptLine, Behind, First, Helpers;
    if First(raw) == "@check" {
      CheckLineMeans(raw, lineNo);
      ListedNames();
    } else if First(raw) in Helpers() {
      ListedNames();
      hide Spaceless;
      ChainNeedsArgument(raw, Directives());
      HelperLineMeans(raw);
    } else {
      hide ValidateCheck, ParseCheck, ParseEvidenceVars;
    }
  }

  lemma HelperLineMeans(raw: string)
    requires First(raw) in Helpers() && Behind(raw) != "" && First(raw) != "@check"
    requires ReadScriptLine(raw).argument.Ok?
    ensures LineMeans(raw) == [HelperPiece(First(raw), Behind(raw))]
  {
    var name := First(raw);
    HelpersListed(name);
    assert !IsPlainHelper("@evidence-vars");
    if name == "@evidence-vars" { EvidenceIsGood(raw); }
    hide ReadScriptLine, Behind, First, Helpers, ParseEvidenceVars, IsPlainHelper;
  }

  lemma EvidenceIsGood(raw: string)
    requires First(raw) == "@evidence-vars" && Behind(raw) != "" && ReadScriptLine(raw).argument.Ok?
    ensures ParseEvidenceVars(Behind(raw)).Ok?
  {
    LineByFirstWord(raw);
    NamesAreSpaceless();
    ListedNames();
    DirectiveByFirstWord(raw, "@evidence-vars");
    hide ReadScriptLine, Behind, First, Directives, CheckArgument, Spaceless, DirectiveArg, ParseEvidenceVars;
    ChainChecksEvidenceVars(raw, Directives());
  }

  lemma CheckLineMeans(raw: string, lineNo: nat)
    requires OutsideLine(ReadScriptLine(raw), lineNo) == Ok(Outside) && First(raw) == "@check"
    ensures var l := ReadScriptLine(raw);
            && l.check.Some? && CheckOn(l).Some? && CheckOn(l).value.delim == ""
            && [CheckCapture(CheckOn(l).value.rule), CheckNote] == LineMeans(raw)
  {
    LineByFirstWord(raw);
    hide ReadScriptLine, Behind, First;
    CheckIsMeant(FieldsOf(Behind(raw)));
    hide ParseCheck, ValidateCheck, FieldsOf, Unescape, ParseMatch, Cut;
  }

  /** A check that validates without a heredoc. */
  lemma CheckIsMeant(fields: CheckFields)
    ensures ValidateCheck(fields) == Ok("") ==>
              ParseCheck(fields)
              == Some(ParsedCheck(CheckRule(Cut(fields.name, TEXT_LEN), ParseMatch(fields.how),
                                            Unescape(fields.expected, LONG_LEN - 1)), ""))
  {
    hide HeredocDelim, Unescape, ParseMatch, IsValidVarName, IsMatchName, Cut;
    if "<<" <= fields.expected { DelimStays(fields.expected); }
  }

  lemma DelimStays(expected: string)
    requires "<<" <= expected
    ensures Cut(HeredocDelim(expected).0, TEXT_LEN) == HeredocDelim(expected).0
  {
    hide HeredocDelim;
  }

  /** A line that opens a heredoc. */
  lemma OpenerMeans(raw: string, lineNo: nat, body: string)
    requires OutsideLine(ReadScriptLine(raw), lineNo).Ok? && OutsideLine(ReadScriptLine(raw), lineNo).value.InHeredoc?
    ensures var l := ReadScriptLine(raw);
            && OpensHeredoc(l) && CheckOn(l).value.delim == OutsideLine(l, lineNo).value.delim
            && HeredocPieces(CheckOn(l).value, body) == CheckMeans(raw, Some(body))
  {
    LineIsCoherent(raw);
    OutsideLineAgrees(ReadScriptLine(raw), lineNo);
    LineByFirstWord(raw);
    hide ReadScriptLine, Behind, First, Coherent;
    RuleIsMeant(FieldsOf(Behind(raw)));
    hide ParseCheck, ValidateCheck, FieldsOf, Unescape, ParseMatch, Cut;
  }

  lemma RuleIsMeant(fields: CheckFields)
    ensures ParseCheck(fields).Some? ==>
              ParseCheck(fields).value.rule.name == Cut(fields.name, TEXT_LEN)
              && ParseCheck(fields).value.rule.how == ParseMatch(fields.how)
  {
    hide HeredocDelim, Unescape, ParseMatch, Cut;
  }

  // ---------------------------------------------------------------- the lines of a block

  lemma FirstWordOf(t: string, word: string)
    requires Spaceless(word) && word <= t && |word| < |t| && t[|word|] == ' '
    ensures Word(t) == word
  {
    assert t == word + t[|word|..];
    assert forall i :: 0 <= i < |word| ==> word[i] in word;
    WordThenSpace(word, t[|word|..]);
  }

  lemma WordAlone(t: string)
    requires Spaceless(t)
    ensures Word(t) == t
  {
    assert forall i :: 0 <= i < |t| ==> t[i] in t;
    WordThenSpace(t, "");
    assert t + "" == t;
  }

  lemma {:induction false} NumberIsItsDigits(s: string)
    requires forall i :: 0 <= i < |s| ==> IsDigit(s[i]) || s[i] == '.'
    ensures SleepDigits(s) == s
  {
    if s != "" {
      NumberIsItsDigits(s[1..]);
      assert [s[0]] + s[1..] == s;
    }
  }

  lemma KeysAreWords(t: string)
    requires IsTuiKey(t)
    ensures Spaceless(t) && Word(t) == t && t !in {"send", "text", "send-shell", "text-shell", "sleep", "ctrl", ""}
  {
    assert Spaceless(t);
    WordAlone(t);
  }

  /** What an accepted line of a block becomes. */
  lemma InstructionIsMeant(t: string)
    requires ValidateTui(t).Ok?
    ensures TuiPieces(t) == InstructionMeans(t)
  {
    hide DecodeTui, Word, SleepDigits, IsSleepTime, Spaceless;
    if "send " <= t || "text " <= t || "send-shell " <= t || "text-shell " <= t {
      TextIsMeant(t);
    } else if t != "" {
      KeyIsMeant(t);
    }
  }

  lemma TextIsMeant(t: string)
    requires "send " <= t || "text " <= t || "send-shell " <= t || "text-shell " <= t
    requires ValidateTui(t).Ok?
    ensures TuiPieces(t) == InstructionMeans(t)
  {
    WordsAreSpaceless();
    hide DecodeTui, Word, SleepDigits, IsSleepTime, Spaceless;
    if "send " <= t {
      FirstWordOf(t, "send");
    } else if "text " <= t {
      FirstWordOf(t, "text");
    } else if "send-shell " <= t {
      FirstWordOf(t, "send-shell");
    } else {
      FirstWordOf(t, "text-shell");
    }
  }

  lemma KeyIsMeant(t: string)
    requires t != "" && !("send " <= t || "text " <= t || "send-shell " <= t || "text-shell " <= t)
    requires ValidateTui(t).Ok?
    ensures TuiPieces(t) == InstructionMeans(t)
  {
    WordsAreSpaceless();
    hide DecodeTui, Word, SleepDigits, IsSleepTime, Spaceless;
    if IsTuiKey(t) {
      KeysAreWords(t);
    } else if "sleep " <= t {
      FirstWordOf(t, "sleep");
      SleepTimeIsNumber(t[6..]);
    } else {
      FirstWordOf(t, "ctrl");
    }
  }

  lemma WordsAreSpaceless()
    ensures Spaceless("send") && Spaceless("text") && Spaceless("send-shell") && Spaceless("text-shell")
    ensures Spaceless("sleep") && Spaceless("ctrl")
  {
  }

  lemma SleepTimeIsNumber(s: string)
    requires IsSleepTime(s)
    ensures SleepDigits(s) == s
  {
    NumberIsItsDigits(s);
  }

  // ---------------------------------------------------------------- the text of a heredoc

  /** Each line with a newline in front. */
  function Added(lines: seq<string>): string {
    if lines == [] then "" else "\n" + lines[0] + Added(lines[1..])
  }

  lemma {:induction false} BetweenIsAdded(lines: seq<string>)
    requires lines != []
    ensures Between(lines) == lines[0] + Added(lines[1..])
    decreases |lines|
  {
    if |lines| > 1 {
      BetweenIsAdded(lines[1..]);
      assert lines[0] + "\n" + (lines[1] + Added(lines[2..])) == lines[0] + ("\n" + lines[1] + Added(lines[2..]));
      assert lines[1..][1..] == lines[2..];
    } else {
      assert lines[0] + "" == lines[0];
    }
  }

  /** The buffer holds the beginning of what has been collected. */
  lemma AddedIsCut(all: string, raw: string)
    ensures AddBodyLine(Cut(all, LONG_LEN), raw, false) == Cut(all + ("\n" + raw), LONG_LEN)
    ensures AddBodyLine("", raw, true) == Cut(raw, LONG_LEN)
  {
  }

  lemma {:induction false} BodyIsCut(lines: seq<string>, delim: string, all: string)
    requires forall i :: 0 <= i < |BodyLines(lines, delim)| ==> Trimmed(lines[i], TEXT_LEN) != delim
    requires |BodyLines(lines, delim)| < |lines| ==> Trimmed(lines[|BodyLines(lines, delim)|], TEXT_LEN) == delim
    ensures HeredocBody(ReadScript(lines), delim, Cut(all, LONG_LEN), false)
            == Cut(all + Added(BodyLines(lines, delim)), LONG_LEN)
    decreases |lines|
  {
    hide Trimmed, Cut, AddBodyLine;
    if lines == [] || Trimmed(lines[0], LONG_LEN) == delim {
      assert all + "" == all;
      NothingRead(lines, delim, Cut(all, LONG_LEN));
    } else {
      var raw, rest := lines[0], lines[1..];
      var body := BodyLines(rest, delim);
      assert BodyLines(lines, delim) == [raw] + body && ([raw] + body)[1..] == body;
      assert forall i :: 0 <= i < |body| ==> rest[i] == lines[i + 1];
      AddedIsCut(all, raw);
      BodyIsCut(rest, delim, all + ("\n" + raw));
      Regroup(all, "\n" + raw, Added(body));
      OneBodyLine(lines, delim, Cut(all, LONG_LEN), false);
    }
  }

  lemma NothingRead(lines: seq<string>, delim: string, text: string)
    requires lines == [] || Trimmed(lines[0], TEXT_LEN) == delim
    ensures HeredocBody(ReadScript(lines), delim, text, false) == HeredocBody(ReadScript(lines), delim, text, true)
            == text
  {
  }

  lemma OneBodyLine(lines: seq<string>, delim: string, text: string, first: bool)
    requires lines != [] && Trimmed(lines[0], TEXT_LEN) != delim
    ensures HeredocBody(ReadScript(lines), delim, text, first)
            == HeredocBody(ReadScript(lines[1..]), delim, AddBodyLine(text, lines[0], first), false)
  {
    hide AddBodyLine, DirectiveArg, FindHelper, CheckArgument, Directives, FieldsOf, ValidateTui, TuiPieces,
         IsRebootBoundary;
    assert ReadScript(lines)[1..] == ReadScript(lines[1..]);
  }

  /** The text of a heredoc is its lines with newlines between them, as far as the field holds. */
  lemma BodyIsJoined(lines: seq<string>, delim: string)
    requires forall i :: 0 <= i < |BodyLines(lines, delim)| ==> Trimmed(lines[i], TEXT_LEN) != delim
    requires |BodyLines(lines, delim)| < |lines| ==> Trimmed(lines[|BodyLines(lines, delim)|], TEXT_LEN) == delim
    ensures HeredocBody(ReadScript(lines), delim, "", true) == Cut(Between(BodyLines(lines, delim)), LONG_LEN)
  {
    hide Trimmed, AddBodyLine;
    if lines == [] || Trimmed(lines[0], LONG_LEN) == delim {
      NothingRead(lines, delim, "");
    } else {
      var raw, rest := lines[0], lines[1..];
      var body := BodyLines(rest, delim);
      assert BodyLines(lines, delim) == [raw] + body && ([raw] + body)[1..] == body;
      assert forall i :: 0 <= i < |body| ==> rest[i] == lines[i + 1];
      hide Cut;
      AddedIsCut("", raw);
      BodyIsCut(rest, delim, raw);
      BetweenIsAdded(BodyLines(lines, delim));
      OneBodyLine(lines, delim, "", true);
    }
  }

  /** The delimiter is found alike, so both passes read the same body. */
  lemma {:induction false} BodyReadAlike(lines: seq<string>, delim: string, openLine: nat, lineNo: nat)
    requires ClosesAlike(ReadScript(lines), InHeredoc(delim, openLine), lineNo)
    ensures forall i :: 0 <= i < |BodyLines(lines, delim)| ==> i < |lines| && Trimmed(lines[i], TEXT_LEN) != delim
    ensures |BodyLines(lines, delim)| <= |lines|
    ensures |BodyLines(lines, delim)| < |lines| ==> Trimmed(lines[|BodyLines(lines, delim)|], TEXT_LEN) == delim
    decreases |lines|
  {
    hide ReadScript, ClosesAlike;
    if lines != [] { AlikeBelow(lines, delim, openLine, lineNo); }
    if lines == [] || Trimmed(lines[0], LONG_LEN) == delim {
      assert BodyLines(lines, delim) == [];
      return;
    }
    hide Trimmed;
    BodyReadAlike(lines[1..], delim, openLine, lineNo + 1);
    var rest, body := lines[1..], BodyLines(lines[1..], delim);
    assert BodyLines(lines, delim) == [lines[0]] + body;
    forall i | 0 <= i < |body| + 1
      ensures i < |lines| && Trimmed(lines[i], TEXT_LEN) != delim
    {
      if i > 0 { assert lines[i] == rest[i - 1]; }
    }
  }

  lemma AlikeBelow(lines: seq<string>, delim: string, openLine: nat, lineNo: nat)
    requires lines != [] && ClosesAlike(ReadScript(lines), InHeredoc(delim, openLine), lineNo)
    ensures Trimmed(lines[0], TEXT_LEN) == delim <==> Trimmed(lines[0], LONG_LEN) == delim
    ensures Trimmed(lines[0], LONG_LEN) != delim ==>
              ClosesAlike(ReadScript(lines[1..]), InHeredoc(delim, openLine), lineNo + 1)
  {
    ReadStep(lines);
    hide Trimmed, ReadScriptLine, OutsideLine, ReadScript;
  }

  lemma ReadStep(lines: seq<string>)
    requires lines != []
    ensures ReadScript(lines) != [] && ReadScript(lines)[0] == ReadScriptLine(lines[0])
    ensures ReadScript(lines)[1..] == ReadScript(lines[1..])
    ensures ReadScriptLine(lines[0]).long == Trimmed(lines[0], LONG_LEN)
    ensures ReadScriptLine(lines[0]).short == Trimmed(lines[0], TEXT_LEN) && ReadScriptLine(lines[0]).raw == lines[0]
    ensures ReadScriptLine(lines[0]).instruction == ValidateTui(Trimmed(lines[0], LONG_LEN))
    ensures ReadScriptLine(lines[0]).keys == TuiPieces(Trimmed(lines[0], LONG_LEN))
  {
    hide Trimmed, DirectiveArg, FindHelper, CheckArgument, ValidateTui, TuiPieces, IsRebootBoundary, FieldsOf;
  }

  // ---------------------------------------------------------------- whole scripts

  /** From any state outside a heredoc: the expansion is what the lines mean. */
  lemma {:induction false} MeansFrom(lines: seq<string>, st: LineState, lineNo: nat, tui: Option<string>,
        command: string)
    requires ErrorFrom(ReadScript(lines), st, lineNo).None? && ClosesAlike(ReadScript(lines), st, lineNo)
    requires !st.InHeredoc? && (st.InTui? <==> tui.Some?) && (tui.Some? ==> tui.value == command)
    ensures Expand(ReadScript(lines), tui) == Meaning(lines, st, lineNo, command)
    decreases |lines|, 1
  {
    if lines == [] { return; }
    hide ReadScriptLine, OutsideLine, Coherent, LineMeans, InstructionMeans, CheckMeans, TuiPieces, Trimmed, First,
         Behind;
    hide HeredocBody, AfterHeredoc, CheckOn, ValidateTui, OutsideTurn, OpensHeredoc, Between, BodyLines, Cut;
    var raw, rest := lines[0], lines[1..];
    ReadStep(lines);
    var l := ReadScriptLine(raw);
    var next := NextState(st, l, lineNo).value;
    if st.InTui? {
      if next.InTui? { InstructionIsMeant(l.long); }
      MeansFrom(rest, next, lineNo + 1, InsideTurn(l, command).tui, command);
    } else if next.InTui? {
      TuiLineMeans(raw, lineNo);
      MeansFrom(rest, next, lineNo + 1, Some(Behind(raw)), Behind(raw));
    } else if next.InHeredoc? {
      var body := Cut(Between(BodyLines(rest, next.delim)), LONG_LEN);
      OpenerMeans(raw, lineNo, body);
      BodyReadAlike(rest, next.delim, next.openLine, lineNo + 1);
      BodyIsJoined(rest, next.delim);
      MeansBelow(rest, next, lineNo + 1, command);
    } else {
      OutsideLineMeans(raw, lineNo);
      MeansFrom(rest, next, lineNo + 1, None, command);
    }
  }

  lemma {:induction false} MeansBelow(lines: seq<string>, st: LineState, lineNo: nat, command: string)
    requires ErrorFrom(ReadScript(lines), st, lineNo).None? && ClosesAlike(ReadScript(lines), st, lineNo)
            && st.InHeredoc?
    ensures Expand(AfterHeredoc(ReadScript(lines), st.delim), None) == Meaning(lines, st, lineNo, command)
    decreases |lines|, 0
  {
    if lines == [] { return; }
    hide ReadScriptLine, OutsideLine, LineMeans, InstructionMeans, CheckMeans, Trimmed, First, Behind, Expand;
    var raw, rest := lines[0], lines[1..];
    ReadStep(lines);
    if Closes(ReadScriptLine(raw), st.delim) {
      MeansFrom(rest, Outside, lineNo + 1, None, command);
    } else {
      MeansBelow(rest, st, lineNo + 1, command);
    }
  }

  /** For every accepted script whose heredocs close alike: the expansion is what its lines mean,
      one after the other. */
  lemma AcceptedScriptsMean(command: string)
    requires Accepts(Lines(command)) && ClosesAlike(ReadScript(Lines(command)), Outside, 1)
    ensures Expand(ReadScript(Lines(command)), None) == Meaning(Lines(command), Outside, 1, "")
  {
    MeansFrom(Lines(command), Outside, 1, None, "");
  }
}
