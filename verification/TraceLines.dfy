/** A byte stream cut into lines, and the events and frames that its lines build. */
module TraceLines {
  import opened Options
  import opened CStrings
  import opened TraceParser

  predicate NoBreak(s: string) {
    '\n' !in s
  }

  /** The lines of a stream that a newline has ended. */
  function Complete(s: string): (lines: seq<string>)
    ensures forall i :: 0 <= i < |lines| ==> NoBreak(lines[i])
    decreases |s|
  {
    var end := IndexOf(s, '\n');
    if end == |s| then [] else [s[..end]] + Complete(s[end + 1..])
  }

  /** What is left behind the last newline. */
  function Remainder(s: string): (r: string)
    ensures NoBreak(r)
    decreases |s|
  {
    var end := IndexOf(s, '\n');
    if end == |s| then s else Remainder(s[end + 1..])
  }

  /** All lines once the stream has ended: the last one need not have a newline. */
  function AllLines(s: string): seq<string> {
    Complete(s) + if Remainder(s) == "" then [] else [Remainder(s)]
  }

  lemma {:induction false} BreakOfJoined(s: string, t: string)
    ensures IndexOf(s + t, '\n') == if IndexOf(s, '\n') < |s| then IndexOf(s, '\n') else |s| + IndexOf(t, '\n')
  {
    if s == "" {
      assert s + t == t;
    } else {
      assert (s + t)[1..] == s[1..] + t;
      BreakOfJoined(s[1..], t);
    }
  }

  lemma NextLine(l: string, rest: string)
    requires NoBreak(l)
    ensures Complete(l + "\n" + rest) == [l] + Complete(rest) && Remainder(l + "\n" + rest) == Remainder(rest)
  {
    var s := l + "\n" + rest;
    NoBreakIn(l);
    BreakOfJoined(l, "\n" + rest);
    assert s == l + ("\n" + rest);
    assert ("\n" + rest)[0] == '\n' && IndexOf(s, '\n') == |l|;
    assert s[..|l|] == l && s[|l| + 1..] == rest;
  }

  lemma NoBreakIn(l: string)
    requires NoBreak(l)
    ensures IndexOf(l, '\n') == |l|
  {
    forall i | 0 <= i < |l|
      ensures l[i] != '\n'
    {
      assert l[i] in l;
    }
  }

  lemma NextOfJoined(s: string, t: string)
    requires IndexOf(s, '\n') < |s|
    ensures var end := IndexOf(s, '\n');
            && Complete(s + t) == [s[..end]] + Complete(s[end + 1..] + t)
            && Remainder(s + t) == Remainder(s[end + 1..] + t)
  {
    hide Complete, Remainder;
    var end := IndexOf(s, '\n');
    BreakOfJoined(s, t);
    hide IndexOf;
    OneLineAhead(s + t);
    assert (s + t)[..end] == s[..end] && (s + t)[end + 1..] == s[end + 1..] + t;
  }

  lemma OneLineAhead(s: string)
    requires IndexOf(s, '\n') < |s|
    ensures Complete(s) == [s[..IndexOf(s, '\n')]] + Complete(s[IndexOf(s, '\n') + 1..])
    ensures Remainder(s) == Remainder(s[IndexOf(s, '\n') + 1..])
  {
    hide IndexOf;
  }

  lemma OnlyRemainder(s: string)
    requires IndexOf(s, '\n') == |s|
    ensures Complete(s) == [] && Remainder(s) == s
  {
  }

  /** More bytes only add lines: those of the remainder and the new bytes together. */
  lemma {:induction false} LinesOfJoined(s: string, t: string)
    ensures Complete(s + t) == Complete(s) + Complete(Remainder(s) + t)
    ensures Remainder(s + t) == Remainder(Remainder(s) + t)
    decreases |s|
  {
    hide Complete, Remainder;
    var end := IndexOf(s, '\n');
    if end == |s| {
      OnlyRemainder(s);
      assert [] + Complete(s + t) == Complete(s + t);
    } else {
      var l, rest := s[..end], s[end + 1..];
      OneLineAhead(s);
      NextOfJoined(s, t);
      LinesOfJoined(rest, t);
      Regroup([l], Complete(rest), Complete(Remainder(rest) + t));
    }
  }

  /** The lines that chunk after chunk hands on, and what is pending at the end. */
  function Handed(pending: string, chunks: seq<string>): (seq<string>, string)
    decreases |chunks|
  {
    if chunks == [] then ([], pending)
    else
      var (lines, left) := Handed(Remainder(pending + chunks[0]), chunks[1..]);
      (Complete(pending + chunks[0]) + lines, left)
  }

  function Concat(chunks: seq<string>): string {
    if chunks == [] then "" else chunks[0] + Concat(chunks[1..])
  }

  /** However a stream is cut into chunks, the lines handed on are the lines of the stream. */
  lemma {:induction false} CutsDoNotMatter(pending: string, chunks: seq<string>)
    requires NoBreak(pending)
    ensures Handed(pending, chunks) == (Complete(pending + Concat(chunks)), Remainder(pending + Concat(chunks)))
    decreases |chunks|
  {
    hide Complete, Remainder;
    if chunks == [] {
      NoLineIn(pending);
      assert pending + "" == pending;
    } else {
      var s := pending + chunks[0];
      CutsDoNotMatter(Remainder(s), chunks[1..]);
      LinesOfJoined(s, Concat(chunks[1..]));
      assert s + Concat(chunks[1..]) == pending + Concat(chunks);
    }
  }

  /** A stream without newlines is all remainder. */
  lemma NoLineIn(s: string)
    requires NoBreak(s)
    ensures Complete(s) == [] && Remainder(s) == s
  {
    NoBreakIn(s);
  }

  lemma RemainderIsStable(s: string)
    ensures Complete(Remainder(s)) == [] && Remainder(Remainder(s)) == Remainder(s)
  {
    NoLineIn(Remainder(s));
  }

  // ---------------------------------------------------------------- what the lines build

  datatype Source = Unresolved | Resolved(path: string, line: int) | Unavailable

  datatype TraceEvent = TraceEvent(pid: int, text: string, frames: seq<Frame>, source: Source)

  /** feed_line hands the line on as a C string. */
  function CText(line: string): string {
    if line == "" || line[0] == '\0' then "" else [line[0]] + CText(line[1..])
  }

  /** trace_model_feed_line: a call is a new event; a frame belongs to the newest event, whose
      source is open again. */
  function Feed(events: seq<TraceEvent>, kind: LineKind): seq<TraceEvent> {
    match kind
    case Ignored => events
    case FrameLine(frame) =>
      if events == [] then events
      else
        var last := events[|events| - 1];
        events[..|events| - 1] + [last.(frames := last.frames + [frame], source := Unresolved)]
    case CallLine(pid, text) => events + [TraceEvent(pid, text, [], Unresolved)]
  }

  function FeedAll(events: seq<TraceEvent>, lines: seq<string>): seq<TraceEvent>
    decreases |lines|
  {
    if lines == [] then events else FeedAll(Feed(events, KindOf(CText(lines[0]))), lines[1..])
  }

  lemma {:induction false} FeedJoined(events: seq<TraceEvent>, a: seq<string>, b: seq<string>)
    ensures FeedAll(events, a + b) == FeedAll(FeedAll(events, a), b)
    decreases |a|
  {
    if a == [] {
      assert a + b == b;
    } else {
      assert (a + b)[1..] == a[1..] + b;
      FeedJoined(Feed(events, KindOf(CText(a[0]))), a[1..], b);
    }
  }

  function CallTexts(lines: seq<string>): seq<string> {
    if lines == [] then []
    else
      var kind := KindOf(CText(lines[0]));
      (if kind.CallLine? then [kind.text] else []) + CallTexts(lines[1..])
  }

  function Texts(events: seq<TraceEvent>): seq<string> {
    if events == [] then [] else Texts(events[..|events| - 1]) + [events[|events| - 1].text]
  }

  /** The events are the calls, in order. */
  lemma {:induction false} EventsAreTheCalls(events: seq<TraceEvent>, lines: seq<string>)
    ensures Texts(FeedAll(events, lines)) == Texts(events) + CallTexts(lines)
    decreases |lines|
  {
    if lines == [] {
      assert Texts(events) + [] == Texts(events);
    } else {
      var kind := KindOf(CText(lines[0]));
      OneMoreText(events, kind);
      hide Feed, Texts;
      EventsAreTheCalls(Feed(events, kind), lines[1..]);
      Regroup(Texts(events), if kind.CallLine? then [kind.text] else [], CallTexts(lines[1..]));
    }
  }

  lemma OneMoreText(events: seq<TraceEvent>, kind: LineKind)
    ensures Texts(Feed(events, kind)) == Texts(events) + if kind.CallLine? then [kind.text] else []
  {
    var next := Feed(events, kind);
    match kind
    case Ignored => assert Texts(events) + [] == Texts(events);
    case CallLine(pid, text) => assert next[..|next| - 1] == events;
    case FrameLine(frame) =>
      assert Texts(events) + [] == Texts(events);
      if events != [] { assert next[..|next| - 1] == events[..|events| - 1]; }
  }
}
