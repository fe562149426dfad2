/** read_trace: chunks of the tracer's output go into a pending buffer, and lines out of it into
    the model. */
module TracePump {
  import opened Options
  import opened TraceLines
  import opened TraceParser

  /** What one read call gives. */
  datatype ReadResult = Data(bytes: string) | EndOfFile | WouldBlock | Failed

  class App {
    var pending: string
    var events: seq<TraceEvent>
    var traceDone: bool
    ghost var stream: string              // everything read so far
    ghost var flushed: bool

    /** The state is a function of the bytes read, however they were cut into chunks. */
    ghost predicate Valid()
      reads this
    {
      && (!flushed ==> pending == Remainder(stream) && events == FeedAll([], Complete(stream)))
      && (flushed ==> traceDone && pending == "" && events == FeedAll([], AllLines(stream)))
    }

    constructor ()
      ensures Valid() && stream == "" && !traceDone && !flushed
    {
      pending, events, traceDone, stream, flushed := "", [], false, "", false;
    }

    /** trace_model_feed_line */
    method FeedLine(line: string)
      modifies this`events
      ensures events == Feed(old(events), KindOf(CText(line)))
    {
      hide KindOf, CText;
      var kind := KindOf(CText(line));
      match kind
      case Ignored =>
      case FrameLine(frame) =>
        if |events| > 0 {
          var last := events[|events| - 1];
          events := events[|events| - 1 := last.(frames := last.frames + [frame], source := Unresolved)];
          assert events == old(events)[..|events| - 1] + [events[|events| - 1]];
        }
      case CallLine(pid, text) =>
        events := events + [TraceEvent(pid, text, [], Unresolved)];
    }

    /** process_complete_lines */
    method ProcessCompleteLines(flush: bool)
      modifies this`events, this`pending
      ensures pending == if flush then "" else Remainder(old(pending))
      ensures events == FeedAll(old(events), if flush then AllLines(old(pending)) else Complete(old(pending)))
    {
      hide Complete, Remainder, Feed, CText, KindOf;
      ghost var all := FeedAll(events, Complete(pending));
      var start, i := 0, 0;
      assert pending[0..] == pending;
      while i < |pending|
        invariant 0 <= start <= i <= |pending| && pending == old(pending)
        invariant NoBreak(pending[start..i])
        invariant FeedAll(events, Complete(pending[start..])) == all
        invariant Remainder(pending[start..]) == Remainder(pending)
      {
        if pending[i] == '\n' {
          LineAhead(pending, start, i);
          FeedLine(pending[start..i]);
          start := i + 1;
        }
        i := i + 1;
      }
      NoLineIn(pending[start..]);
      assert Complete(pending[start..]) == [] && events == all;
      if flush && start < |pending| {
        FeedLine(pending[start..]);
        FeedJoined(old(events), Complete(old(pending)), [pending[start..]]);
        assert [pending[start..]][1..] == [];
        start := |pending|;
      }
      assert flush && Remainder(old(pending)) == "" ==> AllLines(old(pending)) == Complete(old(pending));
      pending := pending[start..];
    }

    /** One data chunk of read_trace: pending_append, then the complete lines. */
    method TakeChunk(bytes: string)
      requires Valid() && !traceDone
      modifies this
      ensures Valid() && !traceDone && !flushed && stream == old(stream) + bytes
      ensures NoBreak(pending)
    {
      LinesOfJoined(stream, bytes);
      FeedJoined([], Complete(stream), Complete(Remainder(stream) + bytes));
      pending := pending + bytes;
      ProcessCompleteLines(false);
      stream := stream + bytes;
    }

    /** End of file: the last line is handed on without its newline. */
    method TakeEnd()
      requires Valid() && !traceDone
      modifies this
      ensures Valid() && traceDone && flushed && stream == old(stream)
    {
      hide Complete, Remainder, AllLines, FeedAll;
      RemainderIsStable(stream);
      FeedJoined([], Complete(stream), AllLines(Remainder(stream)));
      EndLines(stream);
      ProcessCompleteLines(true);
      traceDone, flushed := true, true;
    }

    /** read_trace: reads until there is nothing more for now.  The results are those of the
        read calls; how many of them were used comes back. */
    method ReadTrace(results: seq<ReadResult>) returns (used: nat)
      requires Valid()
      modifies this
      ensures Valid() && used <= |results|
      ensures old(traceDone) ==> used == 0 && stream == old(stream) && events == old(events)
      ensures !old(traceDone) ==>
                && stream == old(stream) + DataIn(results[..used])
                && (traceDone <==> used > 0 && (results[used - 1].EndOfFile? || results[used - 1].Failed?))
                && (flushed <==> used > 0 && results[used - 1].EndOfFile?)
    {
      hide DataIn, Complete, Remainder, AllLines, FeedAll;
      used := 0;
      if traceDone { return; }
      NoReads(results);
      while used < |results|
        invariant 0 <= used <= |results| && Valid() && !traceDone && !flushed
        invariant stream == old(stream) + DataIn(results[..used])
        invariant used > 0 ==> results[used - 1].Data?
      {
        var result := results[used];
        OneMoreRead(results, used);
        used := used + 1;
        match result
        case Data(bytes) =>
          TakeChunk(bytes);
        case EndOfFile =>
          TakeEnd();
          return;
        case WouldBlock =>
          return;
        case Failed =>
          traceDone := true;
          return;
      }
    }
  }

  /** The bytes that some reads give, one after the other. */
  function DataIn(results: seq<ReadResult>): string {
    if results == [] then ""
    else DataIn(results[..|results| - 1]) + match results[|results| - 1] case Data(bytes) => bytes case _ => ""
  }

  lemma NoReads(results: seq<ReadResult>)
    ensures DataIn(results[..0]) == ""
  {
  }

  lemma OneMoreRead(results: seq<ReadResult>, n: nat)
    requires n < |results|
    ensures DataIn(results[..n + 1]) == DataIn(results[..n]) + if results[n].Data? then results[n].bytes else ""
  {
    assert results[..n + 1][..n] == results[..n];
  }

  lemma LineAhead(s: string, start: nat, i: nat)
    requires start <= i < |s| && NoBreak(s[start..i]) && s[i] == '\n'
    ensures Complete(s[start..]) == [s[start..i]] + Complete(s[i + 1..])
    ensures Remainder(s[start..]) == Remainder(s[i + 1..])
  {
    assert s[start..] == s[start..i] + "\n" + s[i + 1..];
    NextLine(s[start..i], s[i + 1..]);
  }

  lemma EndLines(stream: string)
    ensures AllLines(stream) == Complete(stream) + AllLines(Remainder(stream))
  {
    RemainderIsStable(stream);
    assert [] + AllLines(Remainder(stream)) == AllLines(Remainder(stream));
  }
}
