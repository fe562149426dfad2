/** Where the agreement of the two passes stops: a heredoc delimiter of 255 characters that does
    not begin with a blank. */
module ScriptLimits {
  import opened Options
  import opened CStrings
  import opened ScriptText
  import opened ScriptDirectives
  import opened ScriptValidator
  import opened ScriptExpander
  import opened ScriptAgreement

  /** What may be written behind the mark of a heredoc, on one line that is not cut, for a
      delimiter: the word itself, or the text in quotes. */
  predicate Written(written: string, delim: string) {
    && written != "" && !IsSpace(written[|written| - 1]) && '\n' !in written && |written| + 32 < LONG_LEN
    && delim != "" && HeredocDelim("<<" + written).0 == delim
  }

  /** A delimiter that fits the 256 byte buffer is recognised alike by both passes, on every
      line, if and only if it has fewer than 255 characters or begins with a blank, so that no
      line is ever taken for it. */
  lemma DelimiterReadAlikeIff(delim: string)
    requires delim != "" && |delim| < TEXT_LEN
    ensures (forall line: string :: Trimmed(line, TEXT_LEN) == delim <==> Trimmed(line, LONG_LEN) == delim)
            <==> |delim| < TEXT_LEN - 1 || IsSpace(delim[0])
  {
    if |delim| < TEXT_LEN - 1 || IsSpace(delim[0]) {
      forall line: string
        ensures Trimmed(line, TEXT_LEN) == delim <==> Trimmed(line, LONG_LEN) == delim
      {
        if |delim| < TEXT_LEN - 1 { BuffersAgree(line, delim); } else { StartsSolid(line); }
      }
    } else {
      LongDelimiterLines(delim);
    }
  }

  lemma StartsSolid(line: string)
    ensures Trimmed(line, TEXT_LEN) != "" ==> !IsSpace(Trimmed(line, TEXT_LEN)[0])
    ensures Trimmed(line, LONG_LEN) != "" ==> !IsSpace(Trimmed(line, LONG_LEN)[0])
  {
  }

  /** One character more, and only the short buffer takes the line for the delimiter. */
  lemma LongDelimiterLines(delim: string)
    requires |delim| == TEXT_LEN - 1 && !IsSpace(delim[0])
    ensures Trimmed(delim + "b", TEXT_LEN) == delim && Trimmed(delim + "b", LONG_LEN) == delim + "b"
  {
    var longer := delim + "b";
    assert longer[0] == delim[0] && longer[|longer| - 1] == 'b';
    TrimmedAlready(longer);
    assert longer[..TEXT_LEN - 1] == delim;
  }

  lemma TrimmedAlready(s: string)
    requires s != "" && !IsSpace(s[0]) && !IsSpace(s[|s| - 1]) && |s| < LONG_LEN
    ensures Trimmed(s, LONG_LEN) == s && Trimmed(s, TEXT_LEN) == Cut(s, TEXT_LEN)
  {
  }

  lemma WordAhead(word: string, rest: string)
    requires forall i :: 0 <= i < |word| ==> !IsSpace(word[i])
    ensures Word(word + " " + rest) == word && (word + " " + rest)[|word|..] == " " + rest
  {
    WordThenSpace(word, " " + rest);
    assert word + " " + rest == word + (" " + rest);
  }

  lemma SpaceAhead(rest: string)
    requires rest != "" && !IsSpace(rest[0])
    ensures TrimLeft(" " + rest) == rest
  {
    assert (" " + rest)[1..] == rest;
  }

  lemma ArgumentOf(line: string, name: string, arg: string)
    requires arg != "" && !IsSpace(arg[0]) && |arg| < LONG_LEN
    requires Trimmed(line, LONG_LEN) == line && HasDirective(line, name) && line[|name|..] == " " + arg
    ensures DirectiveArg(line, name) == Some(arg)
  {
    SpaceAhead(arg);
  }

  lemma CheckLineParsed(written: string, delim: string)
    requires Written(written, delim)
    ensures DirectiveArg("@check v exact <<" + written, "@check") == Some("v exact <<" + written)
  {
    hide HeredocDelim;
    var arg := "v exact <<" + written;
    var line := "@check" + " " + arg;
    assert line == "@check v exact <<" + written;
    assert line[|line| - 1] == written[|written| - 1];
    TrimmedAlready(line);
    assert line[..6] == "@check" && line[6] == ' ' && line[6..] == " " + arg;
    ArgumentOf(line, "@check", arg);
  }

  lemma FieldsSplit(arg: string, name: string, afterName: string, how: string, expected: string)
    requires |arg| < LONG_LEN && TrimLeft(arg) == arg
    requires Word(arg) == name && TrimLeft(arg[|name|..]) == afterName
    requires Word(afterName) == how && TrimLeft(afterName[|how|..]) == expected
    ensures FieldsOf(arg) == CheckFields(name, how, expected)
  {
  }

  lemma CheckFieldsParsed(written: string, delim: string)
    requires Written(written, delim)
    ensures FieldsOf("v exact <<" + written) == CheckFields("v", "exact", "<<" + written)
  {
    hide HeredocDelim;
    var expected := "<<" + written;
    var afterName := "exact" + " " + expected;
    var arg := "v" + " " + afterName;
    assert arg == "v exact <<" + written;
    WordAhead("v", afterName);
    SpaceAhead(afterName);
    WordAhead("exact", expected);
    SpaceAhead(expected);
    FieldsSplit(arg, "v", afterName, "exact", expected);
  }

  lemma ExactIsAMatch()
    ensures IsMatchName("exact")
  {
    assert MatchNames()[2].0 == "exact";
    var names := MatchNames();
    assert names[2..][0].0 == "exact" && names[1..][1..] == names[2..];
    assert FindMatch("exact", names[2..]).Some?;
  }

  lemma CheckValidated(written: string, delim: string)
    requires Written(written, delim)
    ensures ValidateCheck(CheckFields("v", "exact", "<<" + written)) == Ok(delim)
  {
    hide HeredocDelim;
    ExactIsAMatch();
    assert "<<" <= "<<" + written;
    HeredocValidates(CheckFields("v", "exact", "<<" + written), delim);
  }

  lemma HeredocValidates(fields: CheckFields, delim: string)
    requires IsValidVarName(fields.name) && IsMatchName(fields.how) && fields.how != ""
    requires "<<" <= fields.expected && HeredocDelim(fields.expected).0 == delim
    requires delim != "" && |delim| < TEXT_LEN
    ensures ValidateCheck(fields) == Ok(delim)
  {
  }

  /** An opener, a line that only the short buffer takes for the closer, an @end, the closer. */
  predicate ClosesEarly(lines: seq<ScriptLine>, delim: string) {
    && |lines| == 4
    && Opener(lines[0], delim) && EarlyCloser(lines[1], delim) && EndLine(lines[2])
    && lines[3].long == delim && delim != "@end"
  }

  predicate Opener(l: ScriptLine, delim: string) {
    OutsideLine(l, 1) == Ok(InHeredoc(delim, 1)) && OpensHeredoc(l) && CheckOn(l).value.delim == delim
  }

  predicate EarlyCloser(l: ScriptLine, delim: string) {
    l.short == delim && l.long != delim
  }

  predicate EndLine(l: ScriptLine) {
    l.long == "@end" && IsTuiEnd(l) && l.tui.None? && l.helper.None? && l.check.None?
  }

  lemma ClosesEarlyAccepted(lines: seq<ScriptLine>, delim: string)
    requires ClosesEarly(lines, delim)
    ensures ErrorFrom(lines, Outside, 1).None?
  {
    var inside := InHeredoc(delim, 1);
    assert ErrorFrom(lines[4..], Outside, 5).None?;
    assert lines[3..][1..] == lines[4..] && ErrorFrom(lines[3..], inside, 4).None?;
    assert lines[2..][1..] == lines[3..] && ErrorFrom(lines[2..], inside, 3).None?;
    assert lines[1..][1..] == lines[2..] && ErrorFrom(lines[1..], inside, 2).None?;
  }

  lemma ClosesEarlyComplains(lines: seq<ScriptLine>, delim: string)
    requires ClosesEarly(lines, delim)
    ensures !NoComplaint(Expand(lines, None))
  {
    assert lines[1..][1..] == lines[2..] == AfterHeredoc(lines[1..], delim);
    var tail := Expand(lines[2..], None);
    assert tail[0] == Ng(NgStrayEnd);
    var pieces := Expand(lines, None);
    assert pieces[2] == Ng(NgStrayEnd);
  }

  lemma OpenerRead(written: string, delim: string)
    requires Written(written, delim)
    ensures Opener(ReadScriptLine("@check v exact <<" + written), delim)
  {
    var line := "@check v exact <<" + written;
    CheckLineParsed(written, delim);
    CheckFieldsParsed(written, delim);
    CheckValidated(written, delim);
    hide Written;
    OpenerClassified(line, delim);
  }

  lemma OpenerClassified(line: string, delim: string)
    requires delim != "" && DirectiveArg(line, "@check").Some?
    requires ValidateCheck(FieldsOf(DirectiveArg(line, "@check").value)) == Ok(delim)
    ensures Opener(ReadScriptLine(line), delim)
  {
    LineIsCoherent(line);
    CheckIsNotTui(line);
    CheckOpens(ReadScriptLine(line), delim);
  }

  lemma CheckOpens(l: ScriptLine, delim: string)
    requires Coherent(l) && l.check.Some? && !l.bareTui && delim != ""
    requires ValidateCheck(l.check.value) == Ok(delim)
    ensures Opener(l, delim)
  {
    OutsideLineAgrees(l, 1);
  }

  lemma CheckIsNotTui(line: string)
    requires DirectiveArg(line, "@check").Some?
    ensures !HasDirective(Trimmed(line, LONG_LEN), "@tui")
  {
    NamesAreSpaceless();
    OneDirective(line, "@check", "@tui");
  }

  lemma EndRead()
    ensures EndLine(ReadScriptLine("@end"))
  {
    TrimmedAlready("@end");
    BuffersAgree("@end", "@end");
    NamesAreSpaceless();
    ListedNames();
    EndIsNoHelper();
    OneDirective("@end", "@end", "@tui");
    OneDirective("@end", "@end", "@check");
    NoHelper("@end", Helpers(), "@end");
  }

  lemma EndIsNoHelper()
    ensures "@end" !in Helpers() && Spaceless("@end")
    ensures HasDirective("@end", "@end")
  {
  }

  lemma {:induction false} ReadScriptAt(lines: seq<string>)
    ensures |ReadScript(lines)| == |lines|
    ensures forall i :: 0 <= i < |lines| ==> ReadScript(lines)[i] == ReadScriptLine(lines[i])
  {
    hide ReadScriptLine;
    if lines != [] {
      ReadScriptAt(lines[1..]);
    }
  }

  lemma Buffers(line: string)
    ensures ReadScriptLine(line).long == Trimmed(line, LONG_LEN)
            && ReadScriptLine(line).short == Trimmed(line, TEXT_LEN)
  {
  }

  lemma LinesCloseEarly(lines: seq<string>, delim: string)
    requires |lines| == 4 && delim != "@end" && Opener(ReadScriptLine(lines[0]), delim)
    requires Trimmed(lines[1], TEXT_LEN) == delim && Trimmed(lines[1], LONG_LEN) != delim
    requires EndLine(ReadScriptLine(lines[2])) && Trimmed(lines[3], LONG_LEN) == delim
    ensures ClosesEarly(ReadScript(lines), delim)
  {
    Buffers(lines[1]);
    Buffers(lines[3]);
    ReadScriptAt(lines);
  }

  lemma LongScriptRead(written: string, delim: string, lines: seq<string>)
    requires Written(written, delim) && |delim| == TEXT_LEN - 1 && !IsSpace(delim[0]) && !IsSpace(delim[|delim| - 1])
    requires lines == ["@check v exact <<" + written, delim + "b", "@end", delim]
    ensures ClosesEarly(ReadScript(lines), delim)
  {
    assert lines[0] == "@check v exact <<" + written && lines[1] == delim + "b" && lines[2] == "@end"
        && lines[3] == delim;
    OpenerRead(written, delim);
    LongDelimiterLines(delim);
    TrimmedAlready(delim);
    EndRead();
    hide Written;
    LinesCloseEarly(lines, delim);
  }

  /** With any delimiter of 255 characters that a line can close, however it is written, there is a
      script that is accepted and yet expands to an [NG] fragment: the expander, with the
      shorter buffer, ends the heredoc too early. */
  lemma LongDelimiterDisagrees(written: string, delim: string, lines: seq<string>)
    requires Written(written, delim) && |delim| == TEXT_LEN - 1 && !IsSpace(delim[0]) && !IsSpace(delim[|delim| - 1])
    requires lines == ["@check v exact <<" + written, delim + "b", "@end", delim]
    ensures Accepts(lines) && !NoComplaint(Expand(ReadScript(lines), None))
  {
    LongScriptRead(written, delim, lines);
    ClosesEarlyAccepted(ReadScript(lines), delim);
    ClosesEarlyComplains(ReadScript(lines), delim);
  }

  /** A delimiter that begins or ends with a blank is no line's trimmed text, so its heredoc is
      never closed and no script with it is accepted. */
  lemma BlankAtAnEndIsNeverClosed(delim: string)
    requires delim != "" && |delim| < TEXT_LEN && (IsSpace(delim[0]) || IsSpace(delim[|delim| - 1]))
    ensures forall line: string :: Trimmed(line, LONG_LEN) != delim
  {
    forall line: string
      ensures Trimmed(line, LONG_LEN) != delim
    {
      StartsSolid(line);
      var t := TrimRight(TrimLeft(line));
      assert |t| < LONG_LEN ==> Trimmed(line, LONG_LEN) == t;
    }
  }

  /** Any delimiter that fits may be written in quotes that it does not contain. */
  lemma QuotedIsWritten(delim: string, quote: char)
    requires quote == '\'' || quote == '"'
    requires delim != "" && |delim| < TEXT_LEN && quote !in delim && '\n' !in delim
    ensures Written([quote] + delim + [quote], delim)
  {
    var written := [quote] + delim + [quote];
    var expected := "<<" + written;
    assert expected[2..] == written && written[0] == quote && written[1..] == delim + [quote];
    QuoteAhead(delim, quote);
    assert (delim + [quote])[..|delim|] == delim;
    assert TrimLeft(written) == written;
  }

  lemma {:induction false} QuoteAhead(s: string, quote: char)
    requires quote !in s
    ensures IndexOf(s + [quote], quote) == |s|
  {
    if s != "" {
      assert (s + [quote])[1..] == s[1..] + [quote];
      QuoteAhead(s[1..], quote);
    }
  }
}
