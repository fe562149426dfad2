/** The validator and the expander are separate passes over the same lines.  What the first
    accepts, the second expands without any of its [NG] fragments, with exactly the check
    captures that the counter finds. */
module ScriptAgreement {
  import opened Options
  import opened CStrings
  import opened ScriptText
  import opened ScriptDirectives
  import opened ScriptValidator
  import opened ScriptExpander

  predicate Spaceless(name: string) {
    forall c :: c in name ==> !IsSpace(c)
  }

  predicate Marked(s: string) { s != "" && s[0] == '@' }

  /** A line starts at most one directive. */
  lemma OneDirective(line: string, first: string, second: string)
    requires Spaceless(first) && Spaceless(second) && first != second
    requires HasDirective(Trimmed(line, LONG_LEN), first)
    ensures !HasDirective(Trimmed(line, LONG_LEN), second) && DirectiveArg(line, second).None?
  {
    assert forall i :: 0 <= i < |first| ==> first[i] in first;
    assert forall i :: 0 <= i < |second| ==> second[i] in second;
    HasDirectiveIsFirstWord(Trimmed(line, LONG_LEN), first);
    HasDirectiveIsFirstWord(Trimmed(line, LONG_LEN), second);
  }

  /** The same line read into a short and a long buffer compares alike to a short word. */
  lemma BuffersAgree(line: string, word: string)
    requires |word| < TEXT_LEN - 1
    ensures Trimmed(line, TEXT_LEN) == word <==> Trimmed(line, LONG_LEN) == word
  {
  }

  lemma {:induction false} NoHelper(line: string, names: seq<string>, own: string)
    requires HasDirective(Trimmed(line, LONG_LEN), own) && Spaceless(own) && own !in names
    requires forall n :: n in names ==> Spaceless(n)
    ensures FindHelper(line, names).None?
    decreases |names|
  {
    if names != [] {
      OneDirective(line, own, names[0]);
      NoHelper(line, names[1..], own);
    }
  }

  /** A helper line that complains has a bad @evidence-vars argument. */
  lemma {:induction false} HelperComplaint(line: string, names: seq<string>)
    requires FindHelper(line, names).Some? && !FindHelper(line, names).value.Helper?
    ensures DirectiveArg(line, "@evidence-vars").Some?
    ensures FindHelper(line, names).value.Ng? <==> ParseEvidenceVars(DirectiveArg(line, "@evidence-vars").value).Err?
    ensures !FindHelper(line, names).value.CheckCapture?
    decreases |names|
  {
    if DirectiveArg(line, names[0]).None? {
      HelperComplaint(line, names[1..]);
    }
  }

  /** The chain of directive tests lets only good @evidence-vars arguments through. */
  lemma {:induction false} ChainChecksEvidenceVars(line: string, rest: seq<string>)
    requires CheckArgument(line, rest).Ok? && DirectiveArg(line, "@evidence-vars").Some?
    requires Spaceless("@evidence-vars") && forall d :: d in rest ==> Spaceless(d)
    requires "@evidence-vars" in rest
    ensures ParseEvidenceVars(DirectiveArg(line, "@evidence-vars").value).Ok?
    decreases |rest|
  {
    if rest[0] != "@evidence-vars" {
      OneDirective(line, "@evidence-vars", rest[0]);
      ChainChecksEvidenceVars(line, rest[1..]);
    }
  }

  lemma NamesAreSpaceless()
    ensures Spaceless("@check") && Spaceless("@tui")
    ensures Spaceless("@assert") && Spaceless("@backup") && Spaceless("@restore")
    ensures Spaceless("@evidence-comment") && Spaceless("@evidence-capture") && Spaceless("@evidence-vars")
    ensures Spaceless("@evidence") && Spaceless("@capture") && Spaceless("@reboot-if")
  {
  }

  /** What the listed directive names have in common. */
  lemma ListedNames()
    ensures forall n :: n in Directives() ==> Spaceless(n) && Marked(n)
    ensures forall n :: n in Helpers() ==> n in Directives() && n != "@reboot-if" && n != "@check"
    ensures "@evidence-vars" in Directives()
  {
    NamesAreSpaceless();
    assert Directives()[5] == "@evidence-vars";
    forall n | n in Helpers()
      ensures Spaceless(n) && Marked(n) && n != "@reboot-if" && n != "@check"
    {
      var k :| 0 <= k < |Helpers()| && Helpers()[k] == n;
      assert k == 0 || k == 1 || k == 2 || k == 3 || k == 4 || k == 5 || k == 6 || k == 7;
      assert |n| != |"@reboot-if"| && |n| != |"@check"|;
    }
  }

  // ---------------------------------------------------------------- line by line

  /** How the tests of the two passes hang together on one line. */
  ghost predicate Coherent(l: ScriptLine) {
    && (l.check.Some? ==> l.tui.None? && l.helper.None? && !IsTuiEnd(l) && l.instruction.Err?)
    && (l.helper.Some? ==> !l.helper.value.CheckCapture? && (l.argument.Ok? ==> !l.helper.value.Ng?))
    && (l.instruction.Ok? ==> NoComplaint(l.keys) && Captures(l.keys) == [])
    && (l.boundary ==> OnlyBoundary(l))
    && (forall word: string :: |word| < TEXT_LEN - 1 ==> (l.short == word <==> l.long == word))
    && (|l.long| < TEXT_LEN ==> l.short == l.long)
  }

  /** A reboot line is neither a @tui, an @end nor a @check line, nor a line of a block. */
  predicate OnlyBoundary(l: ScriptLine) {
    && l.tui.None? && !l.bareTui && l.check.None? && !l.bareCheck
    && !IsTuiEnd(l) && l.instruction.Err? && l.argument.Ok?
  }

  lemma ArgumentHasDirective(line: string, name: string)
    requires DirectiveArg(line, name).Some?
    ensures HasDirective(Trimmed(line, LONG_LEN), name)
  {
  }

  lemma CheckLineStandsAlone(line: string)
    requires DirectiveArg(line, "@check").Some?
    ensures DirectiveArg(line, "@tui").None? && FindHelper(line, Helpers()).None?
  {
    NamesAreSpaceless();
    CheckIsNoHelper();
    hide Trimmed, DirectiveArg, HasDirective, FindHelper, Helpers, Directives, Spaceless, Marked;
    ArgumentHasDirective(line, "@check");
    assert "@check" != "@tui";
    OneDirective(line, "@check", "@tui");
    NoHelper(line, Helpers(), "@check");
  }

  lemma CheckIsNoHelper()
    ensures "@check" !in Helpers() && forall n :: n in Helpers() ==> Spaceless(n)
  {
    ListedNames();
    hide Helpers, Directives, Spaceless, Marked;
  }

  lemma CheckLineIsNoInstruction(t: string)
    requires "@check" <= t
    ensures t != "@end" && ValidateTui(t).Err?
  {
    assert t[0] == '@' && t[1] == 'c';
  }

  /** How the reboot lines begin. */
  predicate StartsForeign(t: string) {
    |t| >= 2 && t[0] in "r@si" && (t[0] == '@' ==> t[1] == 'r') && (t[0] == 's' ==> t[1] in "yh")
  }

  lemma ForeignStart(t: string)
    requires StartsForeign(t)
    ensures t != "@end" && ValidateTui(t).Err? && !HasDirective(t, "@tui") && !HasDirective(t, "@check")
  {
  }

  lemma RebootCommandStarts(line: string)
    requires IsRebootCommand(line)
    ensures StartsForeign(Trimmed(line, LONG_LEN)) && !Marked(Trimmed(line, LONG_LEN))
  {
  }

  lemma RebootIfStarts(line: string)
    requires DirectiveArg(line, "@reboot-if").Some?
    ensures StartsForeign(Trimmed(line, LONG_LEN))
  {
    assert "@reboot-if"[0] == '@' && "@reboot-if"[1] == 'r';
  }

  lemma RebootLineIsNoInstruction(line: string)
    requires IsRebootBoundary(line)
    ensures var t := Trimmed(line, LONG_LEN);
            t != "@end" && ValidateTui(t).Err? && !HasDirective(t, "@tui") && !HasDirective(t, "@check")
  {
    if DirectiveArg(line, "@reboot-if").Some? { RebootIfStarts(line); } else { RebootCommandStarts(line); }
    ForeignStart(Trimmed(line, LONG_LEN));
  }

  lemma UnmarkedHasNoDirective(line: string, name: string)
    requires !Marked(Trimmed(line, LONG_LEN)) && Marked(name)
    ensures !HasDirective(Trimmed(line, LONG_LEN), name) && DirectiveArg(line, name).None?
  {
  }

  lemma UnmarkedIsNoError(line: string)
    requires !Marked(Trimmed(line, LONG_LEN))
    ensures CheckArgument(line, []).Ok?
  {
    hide Trimmed;
    assert "@"[0] == '@';
  }

  lemma {:induction false} PlainLineHasNoArgumentError(line: string, names: seq<string>)
    requires !Marked(Trimmed(line, LONG_LEN)) && forall n :: n in names ==> Marked(n)
    ensures CheckArgument(line, names).Ok?
    decreases |names|
  {
    hide Trimmed, HasDirective, ArgumentError;
    if names == [] {
      UnmarkedIsNoError(line);
    } else {
      UnmarkedHasNoDirective(line, names[0]);
      PlainLineHasNoArgumentError(line, names[1..]);
    }
  }

  lemma {:induction false} OwnDirectiveIsReached(line: string, names: seq<string>, own: string)
    requires DirectiveArg(line, own).Some? && Spaceless(own) && own !in names && own != "@evidence-vars"
    requires forall n :: n in names ==> Spaceless(n)
    ensures CheckArgument(line, names + [own]).Ok?
    decreases |names|
  {
    if names != [] {
      OneDirective(line, own, names[0]);
      assert (names + [own])[1..] == names[1..] + [own];
      OwnDirectiveIsReached(line, names[1..], own);
    }
  }

  lemma RebootLineHasNoArgumentError(line: string)
    requires IsRebootBoundary(line)
    ensures CheckArgument(line, Directives()).Ok?
  {
    hide CheckArgument, DirectiveArg, Trimmed, IsRebootCommand;
    if DirectiveArg(line, "@reboot-if").Some? {
      NamesAreSpaceless();
      ListedNames();
      OwnDirectiveIsReached(line, Helpers(), "@reboot-if");
    } else {
      RebootCommandStarts(line);
      ListedNames();
      PlainLineHasNoArgumentError(line, Directives());
    }
  }

  lemma HelperLineIsClean(line: string, names: seq<string>, chain: seq<string>)
    requires FindHelper(line, names).Some?
    requires "@evidence-vars" in chain && Spaceless("@evidence-vars") && forall n :: n in chain ==> Spaceless(n)
    ensures !FindHelper(line, names).value.CheckCapture?
    ensures CheckArgument(line, chain).Ok? ==> !FindHelper(line, names).value.Ng?
  {
    if !FindHelper(line, names).value.Helper? {
      HelperComplaint(line, names);
      if CheckArgument(line, chain).Ok? {
        ChainChecksEvidenceVars(line, chain);
      }
    }
  }

  lemma AcceptedInstruction(t: string)
    requires ValidateTui(t).Ok?
    ensures NoComplaint(TuiPieces(t)) && Captures(TuiPieces(t)) == []
  {
  }

  lemma LineIsCoherent(line: string)
    ensures Coherent(ReadScriptLine(line))
  {
    var l := ReadScriptLine(line);
    if l.check.Some? {
      CheckLineStandsAlone(line);
      CheckLineIsNoInstruction(l.long);
      BuffersAgree(line, "@end");
    }
    if l.helper.Some? {
      NamesAreSpaceless();
      ListedNames();
      HelperLineIsClean(line, Helpers(), Directives());
    }
    if l.boundary {
      RebootLineIsNoInstruction(line);
      RebootLineHasNoArgumentError(line);
      BuffersAgree(line, "@end");
    }
    if l.instruction.Ok? { AcceptedInstruction(l.long); }
    ShortText(line);
    forall word: string | |word| < TEXT_LEN - 1
      ensures l.short == word <==> l.long == word
    {
      BuffersAgree(line, word);
    }
  }

  lemma ShortText(line: string)
    ensures |Trimmed(line, LONG_LEN)| < TEXT_LEN ==> Trimmed(line, TEXT_LEN) == Trimmed(line, LONG_LEN)
  {
  }

  lemma {:induction false} ScriptIsCoherent(lines: seq<string>)
    ensures forall l :: l in ReadScript(lines) ==> Coherent(l)
  {
    hide Coherent, ReadScriptLine;
    if lines != [] {
      LineIsCoherent(lines[0]);
      ScriptIsCoherent(lines[1..]);
    }
  }

  /** An accepted line outside a block: it opens a block, a heredoc, or nothing. */
  lemma OutsideLineAgrees(l: ScriptLine, lineNo: nat)
    requires Coherent(l) && OutsideLine(l, lineNo).Ok?
    ensures var next := OutsideLine(l, lineNo).value;
            if next.InHeredoc? then OpensHeredoc(l) && CheckOn(l).value.delim == next.delim
            else
              var turn := OutsideTurn(l);
              && !OpensHeredoc(l) && (CheckOn(l).Some? ==> CheckOn(l).value.delim == "")
              && (next.InTui? <==> turn.tui.Some?) && NoComplaint(turn.pieces)
              && Captures(turn.pieces) == if CheckOn(l).Some? then [CheckOn(l).value.rule] else []
  {
    if l.check.Some? && ValidateCheck(l.check.value).Ok? {
      ValidatedCheck(l.check.value);
      CapturesJoin([CheckCapture(CheckOn(l).value.rule)], [CheckNote]);
    }
  }

  /** An accepted line inside a block. */
  lemma BlockLineAgrees(l: ScriptLine, lineNo: nat, command: string)
    requires Coherent(l) && NextState(InTui, l, lineNo).Ok?
    ensures CheckOn(l).None? && !NextState(InTui, l, lineNo).value.InHeredoc?
    ensures var turn := InsideTurn(l, command);
            && (NextState(InTui, l, lineNo).value.InTui? <==> turn.tui.Some?)
            && NoComplaint(turn.pieces) && Captures(turn.pieces) == []
  {
  }

  // ---------------------------------------------------------------- whole scripts

  ghost predicate AllCoherent(lines: seq<ScriptLine>) {
    forall l :: l in lines ==> Coherent(l)
  }

  lemma CoherentFrom(lines: seq<ScriptLine>, n: nat)
    requires AllCoherent(lines) && n <= |lines|
    ensures AllCoherent(lines[n..])
  {
    hide Coherent;
    assert forall l :: l in lines[n..] ==> l in lines;
  }

  /** Every line that is read in a heredoc closes it for both passes or for neither. */
  predicate ClosesAlike(lines: seq<ScriptLine>, st: LineState, lineNo: nat) {
    lines == [] ||
    var next := NextState(st, lines[0], lineNo);
    && (st.InHeredoc? ==> (lines[0].short == st.delim <==> lines[0].long == st.delim))
    && (next.Err? || ClosesAlike(lines[1..], next.value, lineNo + 1))
  }

  /** Where the validator leaves a heredoc, the expander does too. */
  lemma {:induction false} HeredocLeft(lines: seq<ScriptLine>, delim: string, openLine: nat, lineNo: nat)
    returns (after: nat)
    requires AllCoherent(lines) && ClosesAlike(lines, InHeredoc(delim, openLine), lineNo)
    requires ErrorFrom(lines, InHeredoc(delim, openLine), lineNo).None?
    ensures ErrorFrom(AfterHeredoc(lines, delim), Outside, after).None?
    ensures ClosesAlike(AfterHeredoc(lines, delim), Outside, after) && AllCoherent(AfterHeredoc(lines, delim))
    decreases |lines|
  {
    hide Coherent;
    CoherentFrom(lines, 1);
    after := lineNo + 1;
    if !Closes(lines[0], delim) {
      after := HeredocLeft(lines[1..], delim, openLine, lineNo + 1);
    }
  }

  // ---------------------------------------------------------------- where heredocs are left

  /** The lines below the line that ends a heredoc for the validator. */
  function LeftBelow(lines: seq<ScriptLine>, delim: string): seq<ScriptLine> {
    if lines == [] then [] else if lines[0].long == delim then lines[1..] else LeftBelow(lines[1..], delim)
  }

  /** From every heredoc that the validator enters both passes go on at the same line. */
  predicate LeavesAlike(lines: seq<ScriptLine>, st: LineState, lineNo: nat) {
    lines == [] ||
    var next := NextState(st, lines[0], lineNo);
    && (next.Ok? && next.value.InHeredoc? && !st.InHeredoc? ==>
          AfterHeredoc(lines[1..], next.value.delim) == LeftBelow(lines[1..], next.value.delim))
    && (next.Err? || LeavesAlike(lines[1..], next.value, lineNo + 1))
  }

  lemma DelimIsShort(l: ScriptLine, lineNo: nat)
    requires OutsideLine(l, lineNo).Ok? && OutsideLine(l, lineNo).value.InHeredoc?
    ensures |OutsideLine(l, lineNo).value.delim| < TEXT_LEN
  {
  }

  lemma {:induction false} LeftBelowIsShorter(lines: seq<ScriptLine>, delim: string)
    ensures lines != [] ==> |LeftBelow(lines, delim)| < |lines|
    decreases |lines|
  {
    if lines != [] { LeftBelowIsShorter(lines[1..], delim); }
  }

  /** In an accepted script all heredoc lines close alike if and only if the expander leaves every
      heredoc where the validator does. */
  lemma {:induction false} ClosesAlikeIff(lines: seq<ScriptLine>, st: LineState, lineNo: nat)
    requires ErrorFrom(lines, st, lineNo).None? && AllCoherent(lines) && (st.InHeredoc? ==> |st.delim| < TEXT_LEN)
    ensures ClosesAlike(lines, st, lineNo)
            <==> LeavesAlike(lines, st, lineNo)
                 && (st.InHeredoc? ==> AfterHeredoc(lines, st.delim) == LeftBelow(lines, st.delim))
    decreases |lines|
  {
    if lines == [] { return; }
    var l, rest := lines[0], lines[1..];
    assert l in lines && (|l.long| < TEXT_LEN ==> l.short == l.long);
    CoherentFrom(lines, 1);
    hide Coherent, AllCoherent;
    if st.Outside? && NextState(st, l, lineNo).value.InHeredoc? { DelimIsShort(l, lineNo); }
    LeftBelowIsShorter(rest, if st.InHeredoc? then st.delim else "");
    hide OutsideLine;
    ClosesAlikeIff(rest, NextState(st, l, lineNo).value, lineNo + 1);
  }

  /** Delimiters that leave room in the 256 byte buffer always close alike. */
  lemma {:induction false} ShortDelimitersCloseAlike(lines: seq<ScriptLine>, st: LineState, lineNo: nat)
    requires AllCoherent(lines) && (st.InHeredoc? ==> |st.delim| < TEXT_LEN - 1)
    requires forall l :: l in lines && CheckOn(l).Some? ==> |CheckOn(l).value.delim| < TEXT_LEN - 1
    ensures ClosesAlike(lines, st, lineNo)
    decreases |lines|
  {
    if lines == [] { return; }
    var l, rest := lines[0], lines[1..];
    assert l in lines && forall k :: k in rest ==> k in lines;
    CoherentFrom(lines, 1);
    if st.Outside? && NextState(st, l, lineNo).Ok? { OutsideLineAgrees(l, lineNo); }
    hide CheckOn, OutsideLine;
    if NextState(st, l, lineNo).Ok? {
      ShortDelimitersCloseAlike(rest, NextState(st, l, lineNo).value, lineNo + 1);
    }
  }

  lemma {:induction false} CapturesJoin(first: seq<Piece>, second: seq<Piece>)
    ensures Captures(first + second) == Captures(first) + Captures(second)
    ensures NoComplaint(first) && NoComplaint(second) ==> NoComplaint(first + second)
  {
    if first == [] {
      assert first + second == second;
    } else {
      hide NoComplaint;
      var all := first + second;
      assert all[0] == first[0] && all[1..] == first[1..] + second;
      CapturesJoin(first[1..], second);
      var own := if first[0].CheckCapture? then [first[0].rule] else [];
      assert own + (Captures(first[1..]) + Captures(second)) == own + Captures(first[1..]) + Captures(second);
    }
    ComplaintsJoin(first, second);
  }

  lemma ComplaintsJoin(first: seq<Piece>, second: seq<Piece>)
    ensures NoComplaint(first) && NoComplaint(second) ==> NoComplaint(first + second)
  {
  }

  lemma {:induction false} AgreeFrom(lines: seq<ScriptLine>, st: LineState, lineNo: nat, tui: Option<string>)
    requires ErrorFrom(lines, st, lineNo).None? && AllCoherent(lines) && ClosesAlike(lines, st, lineNo)
    requires !st.InHeredoc? && (st.InTui? <==> tui.Some?)
    ensures NoComplaint(Expand(lines, tui))
    ensures Captures(Expand(lines, tui)) == CheckList(lines)
    decreases |lines|, 0
  {
    hide Coherent, CheckOn;
    if lines == [] { return; }
    var l, rest := lines[0], lines[1..];
    assert l in lines;
    CoherentFrom(lines, 1);
    var next := NextState(st, l, lineNo).value;
    if tui.Some? {
      BlockLineAgrees(l, lineNo, tui.value);
      AgreeAfter(l, rest, next, lineNo + 1, InsideTurn(l, tui.value));
    } else {
      OutsideLineAgrees(l, lineNo);
      if next.InHeredoc? {
        AgreeAfterHeredoc(l, rest, next, lineNo + 1);
        assert lines == [l] + rest;
      } else {
        AgreeAfter(l, rest, next, lineNo + 1, OutsideTurn(l));
      }
    }
  }

  lemma {:induction false} AgreeAfter(l: ScriptLine, rest: seq<ScriptLine>, st: LineState, lineNo: nat, turn: Turn)
    requires ErrorFrom(rest, st, lineNo).None? && AllCoherent(rest) && ClosesAlike(rest, st, lineNo)
    requires !st.InHeredoc? && (st.InTui? <==> turn.tui.Some?) && NoComplaint(turn.pieces)
    ensures NoComplaint(turn.pieces + Expand(rest, turn.tui))
    ensures Captures(turn.pieces + Expand(rest, turn.tui)) == Captures(turn.pieces) + CheckList(rest)
    decreases |rest|, 1
  {
    AgreeFrom(rest, st, lineNo, turn.tui);
    CapturesJoin(turn.pieces, Expand(rest, turn.tui));
  }

  lemma {:induction false} AgreeAfterHeredoc(l: ScriptLine, rest: seq<ScriptLine>, st: LineState, lineNo: nat)
    requires OpensHeredoc(l) && st.InHeredoc? && CheckOn(l).value.delim == st.delim
    requires ErrorFrom(rest, st, lineNo).None? && AllCoherent(rest) && ClosesAlike(rest, st, lineNo)
    ensures NoComplaint(Expand([l] + rest, None))
    ensures Captures(Expand([l] + rest, None)) == CheckList([l] + rest)
    decreases |rest|, 1
  {
    hide Coherent, Expand, CheckList, Captures, NoComplaint, HeredocPieces, HeredocBody, AfterHeredoc, AllCoherent,
         CheckOn, ErrorFrom, ClosesAlike;
    var left := AfterHeredoc(rest, st.delim);
    var after := HeredocLeft(rest, st.delim, st.openLine, lineNo);
    AgreeFrom(left, Outside, after, None);
    HeredocTurn(CheckOn(l).value, HeredocBody(rest, st.delim, "", true), Expand(left, None));
    HeredocExpands(l, rest, CheckOn(l).value);
  }

  lemma HeredocExpands(l: ScriptLine, rest: seq<ScriptLine>, check: ParsedCheck)
    requires OpensHeredoc(l) && CheckOn(l).value == check
    ensures Expand([l] + rest, None) == HeredocPieces(check, HeredocBody(rest, check.delim, "", true))
                                        + Expand(AfterHeredoc(rest, check.delim), None)
    ensures CheckList([l] + rest) == [RuleOf(check, rest)] + CheckList(AfterHeredoc(rest, check.delim))
  {
    assert ([l] + rest)[1..] == rest;
  }

  lemma HeredocTurn(check: ParsedCheck, body: string, more: seq<Piece>)
    ensures Captures(HeredocPieces(check, body) + more) == [check.rule.(expected := body)] + Captures(more)
    ensures NoComplaint(more) ==> NoComplaint(HeredocPieces(check, body) + more)
  {
    CapturesJoin(HeredocPieces(check, body), more);
  }

  /** For every script the validator accepts, if its heredocs close alike: the expansion has none
      of the [NG] fragments (so it also ends outside any block), and captures exactly the checks
      that the counter finds, in order and with the same rule and expected text. */
  lemma AcceptedScriptsExpandCleanly(command: string)
    requires Accepts(Lines(command)) && ClosesAlike(ReadScript(Lines(command)), Outside, 1)
    ensures NoComplaint(Expand(ReadScript(Lines(command)), None))
    ensures Captures(Expand(ReadScript(Lines(command)), None)) == CheckList(ReadScript(Lines(command)))
  {
    ScriptIsCoherent(Lines(command));
    AgreeFrom(ReadScript(Lines(command)), Outside, 1, None);
  }
}
