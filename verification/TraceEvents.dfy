/** What a trace is made of: which lines are calls, frames or neither, and which frames belong to
    which call. */
module TraceEvents {
  import opened Options
  import opened CStrings
  import opened TraceParser
  import opened TraceLines

  // ---------------------------------------------------------------- what a line is

  /** The texts of the lines that the tracer writes about itself. */
  predicate Remark(body: string) {
    "+++" <= body || "---" <= body || "strace:" <= body
  }

  predicate Breaks(s: string) {
    forall i :: 0 <= i < |s| ==> s[i] in "\n\r"
  }

  /** A line of a call in full: no frame, no remark, and nothing left to trim. */
  predicate CallText(call: string) {
    call != "" && !IsSpace(call[0]) && !(">" <= call) && !Remark(call) && call[|call| - 1] !in "\n\r"
  }

  lemma {:induction false} BreaksGo(call: string, breaks: string)
    requires call != "" && call[|call| - 1] !in "\n\r" && Breaks(breaks)
    ensures TrimBreaks(call + breaks) == call
    decreases |breaks|
  {
    var s := call + breaks;
    if breaks == "" {
      assert s == call;
    } else {
      assert breaks[|breaks| - 1] in "\n\r";
      assert s[..|s| - 1] == call + breaks[..|breaks| - 1];
      BreaksGo(call, breaks[..|breaks| - 1]);
    }
  }

  lemma BodyDecides(line: string, pid: int, call: string, breaks: string)
    requires StripPid(line) == (pid, call + breaks) && CallText(call) && Breaks(breaks)
    ensures KindOf(line) == CallLine(pid, EventText(pid, call))
  {
    hide StripPid, TrimBreaks, EventText;
    var body := call + breaks;
    BreaksGo(call, breaks);
    assert body[0] == call[0];
    StartsAlike(call, breaks);
  }

  /** What is behind the last line break cannot make a remark of a call. */
  lemma StartsAlike(call: string, breaks: string)
    requires CallText(call) && Breaks(breaks)
    ensures !Remark(call + breaks)
  {
    NotMadeWhole("+++", call, breaks);
    NotMadeWhole("---", call, breaks);
    NotMadeWhole("strace:", call, breaks);
  }

  lemma NotMadeWhole(mark: string, call: string, breaks: string)
    requires !(mark <= call) && Breaks(breaks) && forall i :: 0 <= i < |mark| ==> mark[i] !in "\n\r"
    ensures !(mark <= call + breaks)
  {
    var s := call + breaks;
    if |mark| <= |call| {
      assert s[..|mark|] == call[..|mark|];
    } else if breaks != "" {
      assert s[|call|] == breaks[0] && breaks[0] in "\n\r";
    }
  }

  /** A call with either of the tracer's prefixes is an event of that process; line breaks at its
      end are not part of the text. */
  lemma CallIsRead(pid: int, call: string, breaks: string)
    requires 0 < pid < 0x8000_0000 && CallText(call) && Breaks(breaks)
    ensures KindOf("[pid " + Decimal(pid) + "] " + (call + breaks)) == CallLine(pid, EventText(pid, call))
    ensures KindOf(Decimal(pid) + " " + (call + breaks)) == CallLine(pid, EventText(pid, call))
  {
    hide StripPid, KindOf;
    var body := call + breaks;
    assert body[0] == call[0];
    PrefixReadsBack(pid, body);
    EventTextIs(pid, body);
    BodyDecides("[pid " + Decimal(pid) + "] " + body, pid, call, breaks);
    BodyDecides(Decimal(pid) + " " + body, pid, call, breaks);
  }

  /** A text that starts like no prefix. */
  predicate Unprefixed(text: string) {
    text != "" && !IsSpace(text[0]) && !IsDigit(text[0]) && !("[pid" <= text)
  }

  /** Without a prefix it is one of process 0. */
  lemma PlainCallIsRead(call: string, breaks: string)
    requires CallText(call) && Unprefixed(call + breaks) && Breaks(breaks)
    ensures KindOf(call + breaks) == CallLine(0, call)
  {
    SpaceThen(call + breaks);
    BodyDecides(call + breaks, 0, call, breaks);
  }

  /** A printed frame is that frame, whatever the prefix. */
  lemma FrameIsRead(pid: int, f: Frame)
    requires 0 < pid < 0x8000_0000 && Printable(f)
    ensures KindOf(ShowFrame(f)) == FrameLine(f)
    ensures KindOf("[pid " + Decimal(pid) + "] " + ShowFrame(f)) == FrameLine(f)
    ensures KindOf(Decimal(pid) + " " + ShowFrame(f)) == FrameLine(f)
  {
    FrameReadsBack(f);
    var body := ShowFrame(f);
    assert body[0] == '>';
    SpaceThen(body);
    PrefixReadsBack(pid, body);
    EventTextIs(pid, body);
    hide ParseFrame, ShowFrame, Decimal;
    assert StripPid(body) == (0, body);
  }

  /** Remarks are passed over, and so are lines with nothing on them. */
  lemma RemarkIsIgnored(pid: int, remark: string)
    requires 0 < pid < 0x8000_0000 && Remark(remark)
    ensures KindOf(remark) == Ignored && KindOf("[pid " + Decimal(pid) + "] " + remark) == Ignored
    ensures KindOf(Decimal(pid) + " " + remark) == Ignored
  {
    assert remark[0] in "+-s";
    SpaceThen(remark);
    PrefixReadsBack(pid, remark);
    EventTextIs(pid, remark);
    hide Decimal;
    assert StripPid(remark) == (0, remark);
  }

  lemma {:induction false} BlankIsIgnored(line: string)
    requires forall i :: 0 <= i < |line| ==> IsSpace(line[i])
    ensures KindOf(line) == Ignored
  {
    AllTrimmed(line);
  }

  lemma {:induction false} AllTrimmed(line: string)
    requires forall i :: 0 <= i < |line| ==> IsSpace(line[i])
    ensures TrimLeft(line) == ""
  {
    if line != "" { AllTrimmed(line[1..]); }
  }

  // ---------------------------------------------------------------- which frames a call has

  function Kind(line: string): LineKind {
    KindOf(CText(line))
  }

  predicate NoCall(lines: seq<string>) {
    forall i :: 0 <= i < |lines| ==> !Kind(lines[i]).CallLine?
  }

  /** The frames on lines, in order. */
  function FramesOn(lines: seq<string>): seq<Frame> {
    if lines == [] then [] else FrameOn(lines[0]) + FramesOn(lines[1..])
  }

  function FrameOn(line: string): seq<Frame> {
    match Kind(line)
    case FrameLine(f) => [f]
    case _ => []
  }

  /** Lines before the first call leave nothing. */
  lemma {:induction false} NothingBeforeCalls(lines: seq<string>)
    requires NoCall(lines)
    ensures FeedAll([], lines) == []
  {
    hide KindOf;
    if lines != [] { NothingBeforeCalls(lines[1..]); }
  }

  /** Lines between calls add their frames to the newest event. */
  lemma {:induction false} FramesAreAdded(events: seq<TraceEvent>, e: TraceEvent, lines: seq<string>)
    requires NoCall(lines) && e.source == Unresolved
    ensures FeedAll(events + [e], lines) == events + [e.(frames := e.frames + FramesOn(lines))]
    decreases |lines|
  {
    hide KindOf, Feed, CText, FrameOn;
    if lines == [] {
      assert e.frames + FramesOn(lines) == e.frames;
    } else {
      var now := e.(frames := e.frames + FrameOn(lines[0]));
      FeedNewest(events, e, lines[0]);
      Regroup(e.frames, FrameOn(lines[0]), FramesOn(lines[1..]));
      FramesAreAdded(events, now, lines[1..]);
    }
  }

  lemma FeedNewest(events: seq<TraceEvent>, e: TraceEvent, line: string)
    requires !Kind(line).CallLine? && e.source == Unresolved
    ensures Feed(events + [e], Kind(line)) == events + [e.(frames := e.frames + FrameOn(line))]
  {
    hide KindOf;
    assert (events + [e])[..|events|] == events && e.frames + [] == e.frames;
  }

  /** From a call on, the events before it stay as they are. */
  lemma {:induction false} EarlierStay(events: seq<TraceEvent>, e: TraceEvent, lines: seq<string>)
    ensures events <= FeedAll(events + [e], lines)
    decreases |lines|
  {
    hide KindOf;
    if lines != [] {
      var kind := Kind(lines[0]);
      var next := Feed(events + [e], kind);
      assert (events + [e])[..|events|] == events;
      if kind.CallLine? {
        EarlierStay(events + [e], TraceEvent(kind.pid, kind.text, [], Unresolved), lines[1..]);
      } else {
        assert next == events + [next[|events|]];
        EarlierStay(events, next[|events|], lines[1..]);
      }
    }
  }

  /** The event of a call: its process and text, and the frames on the lines up to the next call,
      in order; its place among the events is that of the call among the calls. */
  lemma EventOfCall(before: seq<string>, call: string, between: seq<string>, after: seq<string>)
    requires Kind(call).CallLine? && NoCall(between) && (after == [] || Kind(after[0]).CallLine?)
    ensures var events := FeedAll([], before + ([call] + (between + after)));
            && |CallTexts(before)| < |events|
            && events[|CallTexts(before)|]
               == TraceEvent(Kind(call).pid, Kind(call).text, FramesOn(between), Unresolved)
  {
    hide KindOf, FramesOn;
    var rest := between + after;
    var earlier := FeedAll([], before);
    var e := TraceEvent(Kind(call).pid, Kind(call).text, [], Unresolved);
    var full := e.(frames := e.frames + FramesOn(between));
    FeedJoined([], before, [call] + rest);
    assert ([call] + rest)[1..] == rest;
    FeedJoined(earlier + [e], between, after);
    FramesAreAdded(earlier, e, between);
    EventsAreTheCalls([], before);
    OneTextEach(earlier);
    assert Texts([]) + CallTexts(before) == CallTexts(before);
    if after != [] {
      var next := TraceEvent(Kind(after[0]).pid, Kind(after[0]).text, [], Unresolved);
      EarlierStay(earlier + [full], next, after[1..]);
    }
    assert full.frames == FramesOn(between);
  }

  lemma {:induction false} OneTextEach(events: seq<TraceEvent>)
    ensures |Texts(events)| == |events|
  {
    if events != [] { OneTextEach(events[..|events| - 1]); }
  }

  // ---------------------------------------------------------------- C strings

  /** A line ends for the parser at its first zero byte. */
  lemma {:induction false} ZeroEndsLine(line: string, rest: string)
    requires forall i :: 0 <= i < |line| ==> line[i] != '\0'
    ensures CText(line) == line && CText(line + ['\0'] + rest) == line
  {
    if line != "" {
      ZeroEndsLine(line[1..], rest);
      assert (line + ['\0'] + rest)[1..] == line[1..] + ['\0'] + rest;
    }
  }
}
