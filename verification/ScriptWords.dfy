/** The small languages inside a script line, each read back as it is written: directives, checks,
    heredoc delimiters, escaped fields, texts to send, times, and evidence variables. */
module ScriptWords {
  import opened Options
  import opened CStrings
  import opened ScriptText
  import opened ScriptDirectives
  import opened ScriptAgreement
  import opened ScriptMeaning

  // ---------------------------------------------------------------- characters

  /** The white space of the C locale: tab, newline, vertical tab, form feed, return, blank. */
  lemma WhiteSpace(c: char)
    ensures IsSpace(c) <==> c as int in {9, 10, 11, 12, 13, 32}
  {
  }

  /** Letters, digits and the names of shell variables, by their ASCII codes. */
  lemma LettersAndDigits(c: char)
    ensures IsDigit(c) <==> 48 <= c as int <= 57
    ensures IsAlpha(c) <==> 65 <= c as int <= 90 || 97 <= c as int <= 122
  {
  }

  lemma VariableNames(s: string)
    ensures IsValidVarName(s)
            <==> s != "" && !(48 <= s[0] as int <= 57)
                 && forall i :: 0 <= i < |s| ==>
                      var c := s[i] as int; c == 95 || 48 <= c <= 57 || 65 <= c <= 90 || 97 <= c <= 122
  {
  }

  // ---------------------------------------------------------------- a directive line

  predicate Blank(s: string) {
    forall i :: 0 <= i < |s| ==> IsSpace(s[i])
  }

  /** Text that trimming leaves alone. */
  predicate Solid(s: string) {
    s != "" && !IsSpace(s[0]) && !IsSpace(s[|s| - 1])
  }

  lemma {:induction false} LeftGoes(blank: string, s: string)
    requires Blank(blank) && (s == "" || !IsSpace(s[0]))
    ensures TrimLeft(blank + s) == s
  {
    if blank == "" {
      assert blank + s == s;
    } else {
      assert (blank + s)[1..] == blank[1..] + s;
      LeftGoes(blank[1..], s);
    }
  }

  lemma {:induction false} RightGoes(s: string, blank: string)
    requires Blank(blank) && (s == "" || !IsSpace(s[|s| - 1]))
    ensures TrimRight(s + blank) == s
    decreases |blank|
  {
    if blank == "" {
      assert s + blank == s;
    } else {
      assert (s + blank)[..|s + blank| - 1] == s + blank[..|blank| - 1];
      RightGoes(s, blank[..|blank| - 1]);
    }
  }

  /** A line between blanks is read without them, cut to the buffer. */
  lemma TrimmedReadsBack(lead: string, t: string, trail: string, size: nat)
    requires Blank(lead) && Blank(trail) && Solid(t) && size > 0
    ensures Trimmed(lead + t + trail, size) == Cut(t, size)
  {
    TrimmedWhole(lead, t, trail);
  }

  lemma TrimmedWhole(lead: string, t: string, trail: string)
    requires Blank(lead) && Blank(trail) && Solid(t)
    ensures TrimRight(TrimLeft(lead + t + trail)) == t
  {
    hide Blank, IsSpace;
    Regroup(lead, t, trail);
    assert (t + trail)[0] == t[0];
    LeftGoes(lead, t + trail);
    RightGoes(t, trail);
  }

  lemma Uncut(s: string)
    requires |s| < TEXT_LEN
    ensures Cut(s, TEXT_LEN) == s
  {
  }

  predicate OneWord(s: string) {
    s != "" && forall i :: 0 <= i < |s| ==> !IsSpace(s[i])
  }

  /** A directive and its argument, with blanks wherever they may stand. */
  lemma DirectiveReadsBack(lead: string, name: string, gap: string, arg: string, trail: string)
    requires Blank(lead) && OneWord(name) && gap != "" && Blank(gap) && Solid(arg) && Blank(trail)
    requires |name| + |gap| + |arg| < LONG_LEN
    ensures var raw := lead + (name + (gap + arg)) + trail;
            First(raw) == name && Behind(raw) == arg && DirectiveArg(raw, name) == Some(arg)
  {
    var t := name + (gap + arg);
    var raw := lead + t + trail;
    assert t[|t| - 1] == arg[|arg| - 1] && t[0] == name[0];
    assert (gap + arg)[0] == gap[0] && t[|name|..] == gap + arg && t[|name|] == gap[0];
    TrimmedReadsBack(lead, t, trail, LONG_LEN);
    WordThenSpace(name, gap + arg);
    LeftGoes(gap, arg);
    assert Cut(t, LONG_LEN) == t && Cut(arg, LONG_LEN) == arg;
    hide Trimmed, TrimLeft, Word, Cut, Blank, IsSpace;
    assert Trimmed(raw, LONG_LEN) == t;
  }

  // ---------------------------------------------------------------- lines that reboot

  /** The command that a line names by its words; a blank, not a tab, has to follow. */
  predicate NamesReboot(t: string) {
    var word := Word(t);
    var rest := t[|word|..];
    || (word == "reboot" && (rest == "" || " " <= rest))
    || (word == "systemctl" && (rest == " reboot" || " reboot " <= rest))
    || (word == "shutdown" && " -r" <= rest)
    || (word == "init" && rest == " 6")
  }

  lemma RebootByWords(t: string)
    ensures NamesReboot(t)
            <==> t == "reboot" || "reboot " <= t || t == "systemctl reboot" || "systemctl reboot " <= t
                 || "shutdown -r" <= t || t == "init 6"
  {
    hide Word;
    WordAnd(t, "reboot", "");
    WordAnd(t, "reboot", " ");
    WordAnd(t, "systemctl", " reboot");
    WordAnd(t, "systemctl", " reboot ");
    WordAnd(t, "shutdown", " -r");
    WordAnd(t, "init", " 6");
    assert "reboot" + "" == "reboot" && "reboot" + " " == "reboot " && "init" + " 6" == "init 6";
    assert "systemctl" + " reboot" == "systemctl reboot" && "systemctl" + " reboot " == "systemctl reboot ";
    assert "shutdown" + " -r" == "shutdown -r";
  }

  /** A word and what follows it, found again in a text. */
  lemma WordAnd(t: string, word: string, more: string)
    requires OneWord(word) && (more == "" || more[0] == ' ')
    ensures Word(t) == word && t[|Word(t)|..] == more <==> t == word + more
    ensures more != "" ==> (Word(t) == word && more <= t[|Word(t)|..] <==> word + more <= t)
  {
    assert IsSpace(' ') && t == Word(t) + t[|Word(t)|..];
    if t == word + more { WordThenSpace(word, more); }
    if more != "" && word + more <= t {
      var rest := t[|word|..];
      assert t == word + rest && rest[0] == t[|word|] == (word + more)[|word|];
      WordThenSpace(word, rest);
      assert forall i :: 0 <= i < |more| ==> rest[i] == t[|word| + i] == (word + more)[|word| + i];
    }
  }

  /** The script is split at a line, with any blanks around it, exactly if it names a command that
      reboots and has fewer than 256 characters, or is a @reboot-if with a condition. */
  lemma SplitsAt(lead: string, t: string, trail: string)
    requires Blank(lead) && Blank(trail) && Solid(t)
    ensures var raw := lead + t + trail;
            IsRebootBoundary(raw)
            <==> (|t| < 256 && NamesReboot(t)) || (First(raw) == "@reboot-if" && Behind(raw) != "")
  {
    var raw := lead + t + trail;
    assert Spaceless("@reboot-if");
    DirectiveByFirstWord(raw, "@reboot-if");
    RebootByWords(t);
    TrimmedWhole(lead, t, trail);
    hide NamesReboot, Blank, Solid, TrimLeft, TrimRight, First, Behind, DirectiveArg;
  }

  // ---------------------------------------------------------------- a check

  /** match_name of a match; regex is another name for exact. */
  function MatchName(m: Match): string {
    match m
    case MatchNone => "none"
    case MatchExact => "exact"
    case MatchNotExact => "not_exact"
    case MatchContains => "contains"
    case MatchNotContains => "not_contains"
    case MatchEmpty => "empty"
    case MatchNotEmpty => "not_empty"
  }

  lemma {:induction false} FoundAt(names: seq<(string, Match)>, k: nat)
    requires k < |names| && forall i :: 0 <= i < k ==> names[i].0 != names[k].0
    ensures FindMatch(names[k].0, names) == Some(names[k].1)
    decreases k
  {
    if k > 0 {
      assert names[1..][k - 1] == names[k] && forall i :: 0 <= i < k - 1 ==> names[1..][i] == names[i + 1];
      FoundAt(names[1..], k - 1);
    }
  }

  lemma {:induction false} FoundIsListed(s: string, names: seq<(string, Match)>)
    ensures FindMatch(s, names).Some? ==> exists k :: 0 <= k < |names| && names[k] == (s, FindMatch(s, names).value)
  {
    if names != [] && names[0].0 != s {
      FoundIsListed(s, names[1..]);
      if FindMatch(s, names).Some? {
        var k :| 0 <= k < |names| - 1 && names[1..][k] == (s, FindMatch(s, names).value);
        assert names[k + 1] == (s, FindMatch(s, names).value);
      }
    }
  }

  function PlaceOf(m: Match): nat {
    match m
    case MatchNone => 1
    case MatchExact => 2
    case MatchNotExact => 3
    case MatchContains => 4
    case MatchNotContains => 5
    case MatchEmpty => 6
    case MatchNotEmpty => 7
  }

  lemma NamesDiffer(i: nat, k: nat)
    requires i < k < 8
    ensures |MatchNames()| == 8 && MatchNames()[i].0 != MatchNames()[k].0
  {
    var n := MatchNames();
    assert n[0].0 == "regex" && n[1].0 == "none" && n[2].0 == "exact" && n[3].0 == "not_exact";
    assert n[4].0 == "contains" && n[5].0 == "not_contains" && n[6].0 == "empty" && n[7].0 == "not_empty";
    assert n[0].0[0] == 'r' && n[1].0[0] == 'n' && n[2].0[1] == 'x' && n[3].0[4] == 'e' && n[5].0[4] == 'c';
    assert n[4].0[0] == 'c' && n[6].0[1] == 'm' && n[7].0[5] == 'm' && n[3].0[5] == 'x';
    assert |n[0].0| == 5 && |n[1].0| == 4 && |n[2].0| == 5 && |n[3].0| == 9 && |n[4].0| == 8;
    assert |n[5].0| == 12 && |n[6].0| == 5 && |n[7].0| == 9;
  }

  /** Every match is read back from its name, and nothing else is a name but regex. */
  lemma MatchReadsBack(m: Match)
    ensures IsMatchName(MatchName(m)) && ParseMatch(MatchName(m)) == m
    ensures IsMatchName("regex") && ParseMatch("regex") == MatchExact
  {
    var k := PlaceOf(m);
    assert MatchNames()[k] == (MatchName(m), m) && MatchNames()[0] == ("regex", MatchExact);
    forall i | 0 <= i < k
      ensures MatchNames()[i].0 != MatchNames()[k].0
    {
      NamesDiffer(i, k);
    }
    FoundAt(MatchNames(), k);
    FoundAt(MatchNames(), 0);
  }

  lemma OnlyTheseAreMatches(s: string)
    ensures IsMatchName(s) <==> s == "regex" || s == MatchName(ParseMatch(s))
    ensures !IsMatchName(s) ==> ParseMatch(s) == MatchNone
  {
    FoundIsListed(s, MatchNames());
    MatchReadsBack(ParseMatch(s));
    if IsMatchName(s) {
      var k :| 0 <= k < |MatchNames()| && MatchNames()[k] == (s, ParseMatch(s));
      assert k == 0 || k == 1 || k == 2 || k == 3 || k == 4 || k == 5 || k == 6 || k == 7;
    }
  }

  /** The three fields of a check, with blanks between them. */
  lemma FieldsReadBack(name: string, gap: string, how: string, gap': string, expected: string)
    requires OneWord(name) && OneWord(how) && gap != "" && Blank(gap) && Blank(gap')
    requires expected == "" || (gap' != "" && !IsSpace(expected[0]))
    requires |name| + |gap| + |how| + |gap'| + |expected| < LONG_LEN
    ensures FieldsOf(name + (gap + (how + (gap' + expected)))) == CheckFields(name, how, expected)
  {
    var last := gap' + expected;
    var middle := how + last;
    var arg := name + (gap + middle);
    BlankStarts(gap, middle);
    if gap' != "" { BlankStarts(gap', expected); }
    hide Blank, TrimLeft, Word, Cut, IsSpace;
    assert last == "" || IsSpace(last[0]);
    assert middle[0] == how[0] && arg[0] == name[0];
    WordThenSpace(name, gap + middle);
    WordThenSpace(how, last);
    hide OneWord;
    LeftGoes(gap, middle);
    LeftGoes(gap', expected);
    FirstStays(arg);
    assert arg[|name|..] == gap + middle && middle[|how|..] == last;
  }

  lemma BlankStarts(gap: string, s: string)
    requires Blank(gap) && gap != ""
    ensures IsSpace((gap + s)[0])
  {
  }

  /** A short text that starts with no blank is taken as it is. */
  lemma FirstStays(arg: string)
    requires arg != "" && !IsSpace(arg[0]) && |arg| < LONG_LEN
    ensures TrimLeft(Cut(arg, LONG_LEN)) == arg
  {
  }

  // ---------------------------------------------------------------- expected texts

  /** write_escaped_field */
  function Escaped(s: string): string {
    if s == "" then ""
    else (if s[0] == '\n' then "\\n" else if s[0] == '\t' then "\\t" else if s[0] == '\\' then "\\\\" else [s[0]])
         + Escaped(s[1..])
  }

  lemma UnescapeStep(c: char, rest: string, room: nat)
    requires room > 0
    ensures var e := if c == '\n' then "\\n" else if c == '\t' then "\\t" else if c == '\\' then "\\\\" else [c];
            Unescape(e + rest, room) == [c] + Unescape(rest, room - 1)
  {
    var e := if c == '\n' then "\\n" else if c == '\t' then "\\t" else if c == '\\' then "\\\\" else [c];
    assert (e + rest)[|e|..] == rest && (e + rest)[0] == e[0];
    if |e| == 2 { assert (e + rest)[1] == e[1]; }
  }

  /** An expected text is read back as it was, cut to the field. */
  lemma {:induction false} EscapedReadsBack(s: string, room: nat)
    ensures Unescape(Escaped(s), room) == if |s| <= room then s else s[..room]
    decreases |s|
  {
    hide Unescape;
    if s == "" || room == 0 {
      NothingUnescaped(Escaped(s), room);
    } else {
      UnescapeStep(s[0], Escaped(s[1..]), room);
      EscapedReadsBack(s[1..], room - 1);
      if |s| <= room {
        assert [s[0]] + s[1..] == s;
      } else {
        assert [s[0]] + s[1..][..room - 1] == s[..room];
      }
    }
  }

  lemma NothingUnescaped(s: string, room: nat)
    requires s == "" || room == 0
    ensures Unescape(s, room) == ""
  {
  }

  // ---------------------------------------------------------------- heredoc delimiters

  /** The part of << that the delimiter is looked for in. */
  function BehindMark(expected: string): string
    requires "<<" <= expected
  {
    var dashed := expected[2..];
    TrimLeft(if dashed != "" && dashed[0] == '-' then dashed[1..] else dashed)
  }

  /** A dash and blanks in front of a delimiter do not count. */
  lemma MarkGoes(dash: string, gap: string, s: string)
    requires dash in {"", "-"} && Blank(gap) && (s == "" || (!IsSpace(s[0]) && s[0] != '-'))
    ensures BehindMark("<<" + (dash + (gap + s))) == s
  {
    var all := gap + s;
    assert ("<<" + (dash + all))[2..] == dash + all && "" + all == all;
    assert dash == "-" ==> (dash + all)[1..] == all;
    assert gap != "" ==> IsSpace(gap[0]) && all[0] == gap[0];
    LeftGoes(gap, s);
  }

  /** A bare word, as far as its buffer holds it. */
  lemma BareDelimiter(dash: string, gap: string, word: string, rest: string)
    requires dash in {"", "-"} && Blank(gap) && OneWord(word) && word[0] !in "-'\""
    requires rest == "" || IsSpace(rest[0])
    ensures var expected := "<<" + (dash + (gap + (word + rest)));
            HeredocDelim(expected) == (Cut(word, TEXT_LEN), expected)
  {
    assert (word + rest)[0] == word[0];
    MarkGoes(dash, gap, word + rest);
    WordThenSpace(word, rest);
    hide TrimLeft, Word, Cut, IndexOf;
  }

  lemma {:induction false} QuoteFound(s: string, quote: char, rest: string)
    requires quote !in s
    ensures IndexOf(s + ([quote] + rest), quote) == |s|
  {
    if s == "" {
      assert s + ([quote] + rest) == [quote] + rest;
    } else {
      assert (s + ([quote] + rest))[1..] == s[1..] + ([quote] + rest);
      QuoteFound(s[1..], quote, rest);
    }
  }

  lemma DelimInQuotes(expected: string, quote: char, inner: string)
    requires "<<" <= expected && BehindMark(expected) == [quote] + inner && |expected| > |inner|
    requires quote == '\'' || quote == '"'
    ensures var end := IndexOf(inner, quote);
            HeredocDelim(expected)
            == (Cut(inner[..end], TEXT_LEN), if end < |inner| then expected[..|expected| - |inner| + end] else expected)
  {
    assert ([quote] + inner)[1..] == inner;
    hide TrimLeft, Word, Cut, IndexOf;
  }

  /** Anything in quotes that it does not contain, whatever stands behind them; what is left of the
      field ends in front of the second quote. */
  lemma QuotedDelimiter(dash: string, gap: string, quote: char, text: string, rest: string)
    requires dash in {"", "-"} && Blank(gap) && (quote == '\'' || quote == '"') && quote !in text
    ensures var (delim, left) := HeredocDelim("<<" + (dash + (gap + ([quote] + (text + ([quote] + rest))))));
            delim == Cut(text, TEXT_LEN) && left == "<<" + (dash + (gap + ([quote] + text)))
  {
    var inner := text + ([quote] + rest);
    var expected := "<<" + (dash + (gap + ([quote] + inner)));
    var kept := "<<" + (dash + (gap + ([quote] + text)));
    MarkGoes(dash, gap, [quote] + inner);
    QuoteFound(text, quote, rest);
    Nested(dash, gap, [quote] + text, [quote] + rest);
    Regroup([quote], text, [quote] + rest);
    assert expected == kept + ([quote] + rest) && inner[..|text|] == text;
    assert |expected| - |inner| + |text| == |kept| && expected[..|kept|] == kept;
    hide *;
    DelimInQuotes(expected, quote, inner);
  }

  lemma Nested(a: string, b: string, c: string, d: string)
    ensures "<<" + (a + (b + (c + d))) == "<<" + (a + (b + c)) + d
  {
  }

  /** Nothing but blanks gives no delimiter, and quotes that are not closed take all that follows. */
  lemma OpenDelimiter(dash: string, gap: string, quote: char, text: string)
    requires dash in {"", "-"} && Blank(gap) && (quote == '\'' || quote == '"') && quote !in text
    ensures HeredocDelim("<<" + (dash + gap)) == ("", "<<" + (dash + gap))
    ensures var expected := "<<" + (dash + (gap + ([quote] + text)));
            HeredocDelim(expected) == (Cut(text, TEXT_LEN), expected)
  {
    MarkGoes(dash, gap, "");
    MarkGoes(dash, gap, [quote] + text);
    assert gap + "" == gap && text[..|text|] == text;
    assert forall i :: 0 <= i < |text| ==> text[i] in text;
    hide TrimLeft, Blank, IsSpace;
    DelimInQuotes("<<" + (dash + (gap + ([quote] + text))), quote, text);
  }

  // ---------------------------------------------------------------- texts to send

  /** Every character with a backslash in front of it. */
  function Backslashed(s: string): string {
    if s == "" then "" else ['\\', s[0]] + Backslashed(s[1..])
  }

  /** Any text can be sent: backslashes protect it outside quotes and inside them. */
  lemma {:induction false} BackslashedIsDecoded(s: string, quote: char, rest: string)
    ensures DecodeTui(Backslashed(s) + rest, quote) == (s + DecodeTui(rest, quote).0, DecodeTui(rest, quote).1)
    decreases |s|
  {
    hide DecodeTui, Backslashed;
    BackslashedAhead(s, rest);
    if s == "" {
      assert s + DecodeTui(rest, quote).0 == DecodeTui(rest, quote).0;
    } else {
      BackslashedIsDecoded(s[1..], quote, rest);
      ProtectedIsDecoded(s[0], Backslashed(s[1..]) + rest, quote);
      assert [s[0]] + (s[1..] + DecodeTui(rest, quote).0) == s + DecodeTui(rest, quote).0;
    }
  }

  lemma BackslashedAhead(s: string, rest: string)
    ensures s == "" ==> Backslashed(s) + rest == rest
    ensures s != "" ==> Backslashed(s) + rest == ['\\', s[0]] + (Backslashed(s[1..]) + rest)
  {
  }

  lemma ProtectedIsDecoded(c: char, more: string, quote: char)
    ensures DecodeTui(['\\', c] + more, quote) == ([c] + DecodeTui(more, quote).0, DecodeTui(more, quote).1)
  {
    assert (['\\', c] + more)[2..] == more;
  }

  /** Text without backslashes and without the quotes that count there is sent as it is. */
  lemma {:induction false} PlainIsDecoded(s: string, quote: char, rest: string)
    requires '\\' !in s && (if quote == '\0' then '\'' !in s && '"' !in s else quote !in s)
    requires quote in {'\0', '\'', '"'}
    ensures DecodeTui(s + rest, quote) == (s + DecodeTui(rest, quote).0, DecodeTui(rest, quote).1)
    decreases |s|
  {
    if s == "" {
      assert s + rest == rest && s + DecodeTui(rest, quote).0 == DecodeTui(rest, quote).0;
    } else {
      PlainIsDecoded(s[1..], quote, rest);
      assert (s + rest)[0] == s[0] && (s + rest)[1..] == s[1..] + rest;
      assert [s[0]] + (s[1..] + DecodeTui(rest, quote).0) == s + DecodeTui(rest, quote).0;
    }
  }

  /** Quotes are taken off in pairs; a missing one is noticed. */
  lemma QuotedIsDecoded(s: string, quote: char, rest: string)
    requires (quote == '\'' || quote == '"') && '\\' !in s && quote !in s
    ensures DecodeTui([quote] + (s + ([quote] + rest)), '\0') == (s + DecodeTui(rest, '\0').0, DecodeTui(rest, '\0').1)
    ensures DecodeTui([quote] + s, '\0') == (s, false)
  {
    var tail := [quote] + rest;
    assert ([quote] + (s + tail))[1..] == s + tail && tail[1..] == rest;
    PlainIsDecoded(s, quote, tail);
    PlainIsDecoded(s, quote, "");
    assert ([quote] + s)[1..] == s == s + "";
    assert DecodeTui(tail, quote) == DecodeTui(rest, '\0');
    assert DecodeTui("", quote) == ("", false);
  }

  /** As a whole: protected text is decoded to itself with all quotes closed. */
  lemma WholeIsDecoded(s: string)
    ensures DecodeTui(Backslashed(s), '\0') == (s, true)
  {
    BackslashedIsDecoded(s, '\0', "");
    assert Backslashed(s) + "" == Backslashed(s) && s + "" == s;
  }

  // ---------------------------------------------------------------- times

  predicate AllDigits(s: string) {
    forall i :: 0 <= i < |s| ==> IsDigit(s[i])
  }

  /** A time is a row of digits with at most one dot in it, and at least one digit. */
  lemma TimesAreNumbers(whole: string, part: string)
    requires AllDigits(whole) && AllDigits(part)
    ensures IsSleepTime(whole) <==> whole != ""
    ensures IsSleepTime(whole + "." + part) <==> whole + part != ""
  {
    var s := whole + "." + part;
    assert s[|whole|] == '.' && !IsDigit('.');
    if whole != "" { assert IsDigit(s[0]); }
    if part != "" { assert IsDigit(s[|whole| + 1]); }
    assert whole != "" ==> IsDigit(whole[0]);
  }

  lemma OnlyNumbersAreTimes(s: string) returns (dot: nat)
    requires IsSleepTime(s)
    ensures dot <= |s| && AllDigits(s[..dot])
    ensures dot == |s| || (s[dot] == '.' && AllDigits(s[dot + 1..]))
  {
    dot := IndexOf(s, '.');
  }
}
