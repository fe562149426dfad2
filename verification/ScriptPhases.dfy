/** write_command_phase: the part of a script before its first reboot line, and the part after
    it, each expanded on its own. */
module ScriptPhases {
  import opened Options
  import opened ScriptText
  import opened ScriptDirectives
  import opened ScriptExpander

  /** The lines of a phase: no reboot line, and those on the wanted side of the first one. */
  function PhaseLines(lines: seq<ScriptLine>, wantPost: bool, after: bool): (kept: seq<ScriptLine>)
    ensures |kept| <= |lines| && forall l :: l in kept ==> l in lines && !l.boundary
  {
    if lines == [] then []
    else if lines[0].boundary then PhaseLines(lines[1..], wantPost, true)
    else if after == wantPost then [lines[0]] + PhaseLines(lines[1..], wantPost, after)
    else PhaseLines(lines[1..], wantPost, after)
  }

  /** One more line in the 4096 byte phase buffer; a line that does not fit is dropped. */
  function AddPhaseLine(phase: string, raw: string): string {
    if |phase| + |raw| + 2 < LONG_LEN then phase + raw + "\n" else phase
  }

  function PhaseText(phase: string, lines: seq<ScriptLine>): string
    decreases |lines|
  {
    if lines == [] then phase else PhaseText(AddPhaseLine(phase, lines[0].raw), lines[1..])
  }

  /** write_command_phase */
  method WriteCommandPhase(command: string, wantPost: bool) returns (pieces: seq<Piece>)
    ensures var phase := PhaseText("", PhaseLines(ReadScript(Lines(command)), wantPost, false));
            pieces == Expand(ReadScript(Lines(phase)), None)
  {
    var p, after, phase := 0, false, "";
    assert command[0..] == command;
    while p < |command|
      invariant 0 <= p <= |command|
      invariant PhaseText(phase, PhaseLines(LinesFrom(command, p), wantPost, after))
             == PhaseText("", PhaseLines(LinesFrom(command, 0), wantPost, false))
      decreases |command| - p
    {
      p, phase, after := AddLine(command, p, wantPost, phase, after);
    }
    NoLinesLeft(command);
    pieces := WriteCommandExpanded(phase);
  }

  /** One turn of that loop. */
  method AddLine(command: string, p: nat, wantPost: bool, phase: string, after: bool)
    returns (next: nat, phase': string, after': bool)
    requires p < |command|
    ensures p < next <= |command|
    ensures PhaseText(phase', PhaseLines(LinesFrom(command, next), wantPost, after'))
         == PhaseText(phase, PhaseLines(LinesFrom(command, p), wantPost, after))
  {
    var l;
    l, next := ReadNext(command, p);
    OnePhaseLine(l, LinesFrom(command, next), wantPost, phase, after);
    phase' := if !l.boundary && after == wantPost then AddPhaseLine(phase, l.raw) else phase;
    after' := after || l.boundary;
  }

  lemma OnePhaseLine(l: ScriptLine, rest: seq<ScriptLine>, wantPost: bool, phase: string, after: bool)
    ensures PhaseText(phase, PhaseLines([l] + rest, wantPost, after))
         == if l.boundary then PhaseText(phase, PhaseLines(rest, wantPost, true))
            else if after == wantPost then PhaseText(AddPhaseLine(phase, l.raw), PhaseLines(rest, wantPost, after))
            else PhaseText(phase, PhaseLines(rest, wantPost, after))
  {
    OneLineKept(l, rest, wantPost, after);
    if !l.boundary && after == wantPost {
      OneLineAdded(l, PhaseLines(rest, wantPost, after), phase);
    }
  }

  lemma OneLineKept(l: ScriptLine, rest: seq<ScriptLine>, wantPost: bool, after: bool)
    ensures PhaseLines([l] + rest, wantPost, after)
         == if l.boundary then PhaseLines(rest, wantPost, true)
            else if after == wantPost then [l] + PhaseLines(rest, wantPost, after)
            else PhaseLines(rest, wantPost, after)
  {
    assert ([l] + rest)[1..] == rest;
  }

  lemma OneLineAdded(l: ScriptLine, kept: seq<ScriptLine>, phase: string)
    ensures PhaseText(phase, [l] + kept) == PhaseText(AddPhaseLine(phase, l.raw), kept)
  {
    assert ([l] + kept)[1..] == kept;
  }

  // ---------------------------------------------------------------- the buffer

  function Raws(lines: seq<ScriptLine>): (raws: seq<string>)
    ensures |raws| == |lines| && forall i :: 0 <= i < |lines| ==> raws[i] == lines[i].raw
  {
    if lines == [] then [] else [lines[0].raw] + Raws(lines[1..])
  }

  lemma {:induction false} PhaseNeverShrinks(phase: string, lines: seq<ScriptLine>)
    ensures phase <= PhaseText(phase, lines)
    ensures |PhaseText(phase, lines)| <= |phase| + |Unlines(Raws(lines))|
    decreases |lines|
  {
    if lines != [] {
      PhaseNeverShrinks(AddPhaseLine(phase, lines[0].raw), lines[1..]);
      assert Raws(lines)[1..] == Raws(lines[1..]);
    }
  }

  /** The phase text is all its lines if and only if they fit the buffer; otherwise lines are
      missing. */
  lemma {:induction false} PhaseKeepsAllIff(phase: string, lines: seq<ScriptLine>)
    requires |phase| + 1 < LONG_LEN
    ensures PhaseText(phase, lines) == phase + Unlines(Raws(lines))
            <==> |phase| + |Unlines(Raws(lines))| + 1 < LONG_LEN
    decreases |lines|
  {
    if lines != [] {
      var raw, rest := lines[0].raw, lines[1..];
      assert Raws(lines)[1..] == Raws(rest);
      if |phase| + |raw| + 2 < LONG_LEN {
        PhaseKeepsAllIff(phase + raw + "\n", rest);
        assert phase + Unlines(Raws(lines)) == phase + raw + "\n" + Unlines(Raws(rest));
      } else {
        PhaseNeverShrinks(phase, rest);
      }
    } else {
      assert phase + "" == phase;
    }
  }

  /** The lines that the buffer takes when `used` characters are in it. */
  function Stored(used: nat, lines: seq<ScriptLine>): (taken: seq<ScriptLine>)
    ensures |taken| <= |lines| && forall l :: l in taken ==> l in lines
    decreases |lines|
  {
    if lines == [] then []
    else
      var raw := lines[0].raw;
      if used + |raw| + 2 < LONG_LEN then [lines[0]] + Stored(used + |raw| + 1, lines[1..])
      else Stored(used, lines[1..])
  }

  lemma {:induction false} PhaseIsStored(phase: string, lines: seq<ScriptLine>)
    ensures PhaseText(phase, lines) == phase + Unlines(Raws(Stored(|phase|, lines)))
    decreases |lines|
  {
    if lines == [] {
      assert phase + "" == phase;
    } else if |phase| + |lines[0].raw| + 2 < LONG_LEN {
      StoreOne(phase, lines[0], Stored(|phase| + |lines[0].raw| + 1, lines[1..]));
      PhaseIsStored(phase + lines[0].raw + "\n", lines[1..]);
    } else {
      PhaseIsStored(phase, lines[1..]);
    }
  }

  lemma StoreOne(phase: string, l: ScriptLine, taken: seq<ScriptLine>)
    ensures phase + Unlines(Raws([l] + taken)) == phase + l.raw + "\n" + Unlines(Raws(taken))
  {
    assert ([l] + taken)[1..] == taken;
    assert Raws([l] + taken)[1..] == Raws(taken);
    assert phase + (l.raw + "\n" + Unlines(Raws(taken))) == phase + l.raw + "\n" + Unlines(Raws(taken));
  }

  /** The lines fit the buffer together with its final zero. */
  predicate Fits(lines: seq<ScriptLine>) {
    |Unlines(Raws(lines))| + 1 < LONG_LEN
  }

  /** All lines are stored if and only if they fit. */
  lemma {:induction false} StoredAllIff(used: nat, lines: seq<ScriptLine>)
    requires used + 1 < LONG_LEN
    ensures Stored(used, lines) == lines <==> used + |Unlines(Raws(lines))| + 1 < LONG_LEN
    decreases |lines|
  {
    if lines != [] {
      var raw, rest := lines[0].raw, lines[1..];
      assert Raws(lines)[1..] == Raws(rest);
      assert lines == [lines[0]] + rest;
      if used + |raw| + 2 < LONG_LEN {
        StoredAllIff(used + |raw| + 1, rest);
        assert Stored(used, lines)[1..] == Stored(used + |raw| + 1, rest);
      } else {
        assert |Stored(used, lines)| <= |rest|;
      }
    }
  }

  lemma {:induction false} ReadBack(lines: seq<ScriptLine>)
    requires forall l :: l in lines ==> l == ReadScriptLine(l.raw)
    ensures ReadScript(Raws(lines)) == lines
  {
    if lines != [] {
      ReadBack(lines[1..]);
      assert Raws(lines)[1..] == Raws(lines[1..]);
    }
  }

  lemma {:induction false} ScriptIsReadFrom(lines: seq<string>)
    ensures |ReadScript(lines)| == |lines|
    ensures forall l :: l in ReadScript(lines) ==> l == ReadScriptLine(l.raw) && l.raw in lines
  {
    if lines != [] {
      ScriptIsReadFrom(lines[1..]);
    }
  }

  ghost predicate ReadFromText(lines: seq<ScriptLine>) {
    forall l :: l in lines ==> l == ReadScriptLine(l.raw) && '\n' !in l.raw
  }

  lemma TextIsRead(command: string)
    ensures ReadFromText(ReadScript(Lines(command)))
  {
    ScriptIsReadFrom(Lines(command));
  }

  /** What is expanded is what the buffer has taken: all lines of the phase if and only if they
      fit. */
  lemma PhaseReadsBackIff(command: string, wantPost: bool)
    ensures var kept := PhaseLines(ReadScript(Lines(command)), wantPost, false);
            && ReadScript(Lines(PhaseText("", kept))) == Stored(0, kept)
            && (ReadScript(Lines(PhaseText("", kept))) == kept <==> Fits(kept))
  {
    TextIsRead(command);
    hide ReadFromText, ReadScript, Lines;
    var kept := PhaseLines(ReadScript(Lines(command)), wantPost, false);
    StoredAllIff(0, kept);
    StoredReadsBack(kept) by { KeptIsRead(ReadScript(Lines(command)), wantPost); }
  }

  lemma KeptIsRead(lines: seq<ScriptLine>, wantPost: bool)
    requires ReadFromText(lines)
    ensures ReadFromText(PhaseLines(lines, wantPost, false))
  {
  }

  lemma StoredReadsBack(kept: seq<ScriptLine>)
    requires ReadFromText(kept)
    ensures ReadScript(Lines(PhaseText("", kept))) == Stored(0, kept)
  {
    hide ReadScriptLine;
    var taken := Stored(0, kept);
    PhaseIsStored("", kept);
    assert "" + Unlines(Raws(taken)) == Unlines(Raws(taken));
    hide PhaseText, Unlines, ReadScript, Lines;
    LinesOfUnlines(Raws(taken));
    ReadBack(taken);
  }

  // ---------------------------------------------------------------- content

  function Plain(lines: seq<ScriptLine>): seq<ScriptLine> {
    if lines == [] then []
    else if lines[0].boundary then Plain(lines[1..])
    else [lines[0]] + Plain(lines[1..])
  }

  lemma {:induction false} AfterFirstReboot(lines: seq<ScriptLine>)
    ensures PhaseLines(lines, true, true) == Plain(lines) && PhaseLines(lines, false, true) == []
  {
    if lines != [] {
      AfterFirstReboot(lines[1..]);
    }
  }

  /** The two phases together are the script without its reboot lines, in order. */
  lemma {:induction false} PhasesAreTheScript(lines: seq<ScriptLine>)
    ensures PhaseLines(lines, false, false) + PhaseLines(lines, true, false) == Plain(lines)
  {
    if lines != [] {
      if lines[0].boundary {
        AfterFirstReboot(lines[1..]);
      } else {
        PhasesAreTheScript(lines[1..]);
        var pre, post := PhaseLines(lines[1..], false, false), PhaseLines(lines[1..], true, false);
        assert [lines[0]] + pre + post == [lines[0]] + (pre + post);
      }
    }
  }
}
