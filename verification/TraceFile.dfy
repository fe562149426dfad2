/** The save and load loops of strace-src over an open file. */
module TraceFile {
  import opened Options
  import opened TraceFormat

  /** A file that is written from its start to its end. */
  class FileWriter {
    var data: bytes

    constructor ()
      ensures data == []
    {
      data := [];
    }

    /** write_u32 */
    method WriteU32(v: uint32)
      modifies this
      ensures data == old(data) + PutU32(v)
    {
      data := data + [v / 0x100_0000, v / 0x1_0000 % 0x100, v / 0x100 % 0x100, v % 0x100];
    }

    /** write_u64: the eight bytes are filled from the last to the first. */
    method WriteU64(v: uint64)
      modifies this
      ensures data == old(data) + PutBytes(v, 8)
    {
      var buffer := new byte[8](_ => 0);
      var i, value: nat := 7, v;
      ghost var written: bytes := [];
      while i >= 0
        invariant -1 <= i <= 7
        invariant buffer[i + 1..] == written && PutBytes(value, i + 1) + written == PutBytes(v, 8)
        modifies buffer
      {
        buffer[i] := value % 0x100;
        ghost var more := PutBytes(value / 0x100, i);
        assert PutBytes(value, i + 1) == more + [value % 0x100];
        written := [value % 0x100] + written;
        assert more + written == more + [value % 0x100] + buffer[i + 1..];
        value, i := value / 0x100, i - 1;
      }
      assert i == -1 && PutBytes(value, 0) + written == PutBytes(v, 8);
      assert PutBytes(value, 0) + written == written;
      assert buffer[..] == buffer[i + 1..];
      data := data + buffer[..];
    }

    /** write_string; it fails on a string whose length needs more than 32 bits. */
    method WriteString(t: Text) returns (ok: bool)
      modifies this
      ensures ok <==> TextFits(t)
      ensures ok ==> data == old(data) + PutString(t)
    {
      var s := if t.Some? then t.value else [];
      if |s| >= U32 { return false; }
      WriteU32(|s|);
      data := data + s;
      ok := true;
    }

    method WriteFrame(f: Frame) returns (ok: bool)
      modifies this
      ensures ok <==> FrameFits(f)
      ensures ok ==> data == old(data) + PutFrame(f)
    {
      hide TextFits, PutString;
      ok := WriteString(f.moduleName);
      if ok { ok := WriteString(f.function_); }
      if ok { ok := WriteString(f.offset); }
      if ok { ok := WriteString(f.address); }
    }

    method WriteFrames(fs: seq<Frame>) returns (ok: bool)
      modifies this
      ensures ok <==> forall i :: 0 <= i < |fs| ==> FrameFits(fs[i])
      ensures ok ==> data == old(data) + PutFrames(fs)
    {
      hide FrameFits, PutFrame;
      assert fs[0..] == fs;
      for i := 0 to |fs|
        invariant forall j :: 0 <= j < i ==> FrameFits(fs[j])
        invariant (forall j :: i <= j < |fs| ==> FrameFits(fs[j]))
                ==> data + PutFrames(fs[i..]) == old(data) + PutFrames(fs)
      {
        ghost var before := data;
        ok := WriteFrame(fs[i]);
        if !ok { return; }
        assert fs[i..][1..] == fs[i + 1..];
        assert data == before + PutFrame(fs[i]);
      }
      ok := true;
    }

    /** The fields of write_event before the frames. */
    method WriteHead(e: Event) returns (ok: bool)
      modifies this
      ensures ok <==> TextFits(e.comm) && TextFits(e.text)
      ensures ok && EventFits(e) ==> data == old(data) + PutHead(e, TRACE_FORMAT_VERSION)
    {
      hide TextFits, PutString, PutU32;
      WriteU32(AsU32(e.pid));
      WriteU32(AsU32(e.tid));
      ok := WriteString(e.comm);
      if ok { ok := WriteString(e.text); }
    }

    /** Its fields after the frames. */
    method WriteTail(e: Event) returns (ok: bool)
      modifies this
      ensures ok <==> TextFits(e.source.path) && TextFits(e.source.function_)
      ensures ok && EventFits(e) ==> data == old(data) + PutTail(e, TRACE_FORMAT_VERSION)
    {
      hide TextFits, PutString, PutU32;
      WriteU32(AsU32(e.source.state));
      WriteU32(e.sourceFrame % U32);
      ok := WriteString(e.source.path);
      if !ok { return; }
      WriteU32(AsU32(e.source.line));
      ok := WriteString(e.source.function_);
    }

    /** write_event, for an event that has been resolved */
    method WriteEvent(e: Event) returns (ok: bool)
      modifies this
      ensures ok <==> EventFits(e)
      ensures ok ==> data == old(data) + PutEvent(e, TRACE_FORMAT_VERSION)
    {
      hide PutHead, PutTail, PutFrames, PutU32, FrameFits, TextFits;
      ok := WriteHead(e);
      if !ok { return; }
      if |e.frames| >= U32 { return false; }
      WriteU32(|e.frames|);
      ok := WriteFrames(e.frames);
      if ok { ok := WriteTail(e); }
    }
  }

  /** trace_model_save: the finished file, or none, when nothing takes the place of an old one. */
  method Save(m: Model) returns (file: Option<bytes>)
    requires |m.events| < U64
    ensures file == if ModelFits(m) then Some(PutModel(m, TRACE_FORMAT_VERSION)) else None
  {
    hide PutEvent, EventFits, PutU32, PutBytes;
    var out := new FileWriter();
    out.data := MAGIC;
    out.WriteU32(TRACE_FORMAT_VERSION);
    out.WriteU64(|m.events|);
    ghost var header := out.data;
    assert m.events[0..] == m.events;
    for i := 0 to |m.events|
      invariant forall j :: 0 <= j < i ==> EventFits(m.events[j])
      invariant (forall j :: i <= j < |m.events| ==> EventFits(m.events[j])) ==>
                  out.data + PutEvents(m.events[i..], TRACE_FORMAT_VERSION)
                      == header + PutEvents(m.events, TRACE_FORMAT_VERSION)
    {
      ghost var before := out.data;
      var ok := out.WriteEvent(m.events[i]);
      if !ok { return None; }
      assert m.events[i..][1..] == m.events[i + 1..];
      assert out.data == before + PutEvent(m.events[i], TRACE_FORMAT_VERSION);
    }
    assert PutEvents([], TRACE_FORMAT_VERSION) == [] && out.data + [] == out.data;
    assert m.events[|m.events|..] == [];
    assert header == MAGIC + PutU32(TRACE_FORMAT_VERSION) + PutBytes(|m.events|, 8);
    file := Some(out.data);
  }

  /** A file that is read from its start; every read tells whether there was enough to read. */
  class FileReader {
    const data: bytes
    var pos: nat

    ghost predicate Valid()
      reads this
    {
      pos <= |data|
    }

    ghost function Rest(): bytes
      reads this
      requires Valid()
    {
      data[pos..]
    }

    constructor (data: bytes)
      ensures Valid() && Rest() == data
    {
      this.data := data;
      pos := 0;
    }

    method ReadBytes(n: nat) returns (got: Option<bytes>)
      requires Valid()
      modifies this
      ensures Valid()
      ensures if old(|Rest()|) < n then got == None
              else got == Some(old(Rest())[..n]) && Rest() == old(Rest())[n..]
    {
      if |data| - pos < n { return None; }
      assert data[pos..][..n] == data[pos..pos + n] && data[pos..][n..] == data[pos + n..];
      got := Some(data[pos..pos + n]);
      pos := pos + n;
    }

    /** read_u32 */
    method ReadU32() returns (got: Option<uint32>)
      requires Valid()
      modifies this
      ensures Valid()
      ensures if got.Some? then GetU32(old(Rest())) == Done(got.value, Rest()) else GetU32(old(Rest())) == Bad
    {
      var buffer := ReadBytes(4);
      if buffer.None? { return None; }
      var a: int, b: int, c: int, d: int := buffer.value[0], buffer.value[1], buffer.value[2], buffer.value[3];
      got := Some(a * 0x100_0000 + b * 0x1_0000 + c * 0x100 + d);
    }

    /** read_u64 */
    method ReadU64() returns (got: Option<nat>)
      requires Valid()
      modifies this
      ensures Valid()
      ensures if got.Some? then GetU64(old(Rest())) == Done(got.value, Rest()) else GetU64(old(Rest())) == Bad
    {
      var buffer := ReadBytes(8);
      if buffer.None? { return None; }
      var result: nat := 0;
      for i := 0 to 8
        invariant result == Number(buffer.value[..i])
      {
        var digit: int := buffer.value[i];
        assert buffer.value[..i + 1][..i] == buffer.value[..i];
        result := result * 0x100 + digit;
      }
      assert buffer.value[..8] == buffer.value;
      got := Some(result);
    }

    /** read_string */
    method ReadString() returns (got: Option<Text>)
      requires Valid()
      modifies this
      ensures Valid()
      ensures if got.Some? then GetString(old(Rest())) == Done(got.value, Rest()) else GetString(old(Rest())) == Bad
    {
      var n := ReadU32();
      if n.None? || n.value > MAX_STRING { return None; }
      var value := ReadBytes(n.value);
      if value.None? { return None; }
      got := Some(Some(CString(value.value)));
    }

    method ReadFrame() returns (got: Option<Frame>)
      requires Valid()
      modifies this
      ensures Valid()
      ensures if got.Some? then GetFrame(old(Rest())) == Done(got.value, Rest()) else GetFrame(old(Rest())) == Bad
    {
      hide GetString;
      var m := ReadString();
      if m.None? { return None; }
      var f := ReadString();
      if f.None? { return None; }
      var o := ReadString();
      if o.None? { return None; }
      var a := ReadString();
      if a.None? { return None; }
      got := Some(Frame(m.value, f.value, o.value, a.value, NO_SOURCE));
    }

    method ReadFrames(n: nat) returns (got: Option<seq<Frame>>)
      requires Valid()
      modifies this
      ensures Valid()
      ensures if got.Some? then GetFrames(old(Rest()), n) == Done(got.value, Rest())
              else GetFrames(old(Rest()), n) == Bad
    {
      hide GetFrame;
      var frames: seq<Frame> := [];
      AheadNothing(GetFrames(Rest(), n));
      for i := 0 to n
        invariant Valid()
        invariant GetFrames(old(Rest()), n) == Ahead(frames, GetFrames(Rest(), n - i))
      {
        ghost var before := frames;
        var f := ReadFrame();
        if f.None? { return None; }
        frames := frames + [f.value];
        assert forall more: seq<Frame> :: before + ([f.value] + more) == frames + more;
      }
      assert frames + [] == frames;
      got := Some(frames);
    }

    method ReadHead(version: nat) returns (got: Option<Head>)
      requires Valid()
      modifies this
      ensures Valid()
      ensures if got.Some? then GetHead(old(Rest()), version) == Done(got.value, Rest())
              else GetHead(old(Rest()), version) == Bad
    {
      hide GetString, GetU32;
      var pid := ReadU32();
      if pid.None? { return None; }
      var tid := ReadU32();
      if tid.None? { return None; }
      var comm := Some(Some([]));
      if version >= 3 {
        comm := ReadString();
        if comm.None? { return None; }
      }
      var text := ReadString();
      if text.None? { return None; }
      got := Some(Head(AsInt(pid.value), AsInt(tid.value), comm.value, text.value));
    }

    method ReadTail(version: nat, frames: nat) returns (got: Option<(Source, uint32)>)
      requires Valid()
      modifies this
      ensures Valid()
      ensures if got.Some? then GetTail(old(Rest()), version, frames) == Done(got.value, Rest())
              else GetTail(old(Rest()), version, frames) == Bad
    {
      hide GetString, GetU32;
      var state := ReadU32();
      if state.None? || state.value > 2 { return None; }
      var selected := Some(0);
      if version >= 2 {
        selected := ReadU32();
        if selected.None? { return None; }
      }
      if selected.value > frames { return None; }
      var path := ReadString();
      if path.None? { return None; }
      var line := ReadU32();
      if line.None? { return None; }
      var fn := ReadString();
      if fn.None? { return None; }
      got := Some((Source(state.value, NonEmpty(path.value), NonEmpty(fn.value), AsInt(line.value)), selected.value));
    }

    /** read_event */
    method ReadEvent(version: nat) returns (got: Option<Event>)
      requires Valid()
      modifies this
      ensures Valid()
      ensures if got.Some? then GetEvent(old(Rest()), version) == Done(got.value, Rest())
              else GetEvent(old(Rest()), version) == Bad
    {
      hide GetHead, GetU32, GetFrames, GetTail;
      var head := ReadHead(version);
      if head.None? { return None; }
      var n := ReadU32();
      if n.None? || n.value > MAX_FRAMES { return None; }
      var frames := ReadFrames(n.value);
      if frames.None? { return None; }
      var tail := ReadTail(version, n.value);
      if tail.None? { return None; }
      var h := head.value;
      got := Some(Event(h.pid, h.tid, h.comm, h.text, frames.value, tail.value.0, tail.value.1));
    }
  }

  /** A list with more read behind it. */
  function Ahead<T>(first: seq<T>, more: Read<seq<T>>): Read<seq<T>> {
    if more.Bad? then Bad else Done(first + more.parsed.value, more.parsed.rest)
  }

  lemma AheadNothing<T>(more: Read<seq<T>>)
    ensures Ahead([], more) == more
  {
    if more.Got? {
      assert [] + more.parsed.value == more.parsed.value;
    }
  }

  /** trace_model_load */
  method LoadFile(file: bytes) returns (m: Option<Model>)
    ensures m == Load(file)
  {
    hide GetEvents, GetU32, GetU64;
    var reader := new FileReader(file);
    var magic := reader.ReadBytes(8);
    if magic.None? || magic.value != MAGIC { return None; }
    var version := reader.ReadU32();
    if version.None? || version.value < 1 || version.value > TRACE_FORMAT_VERSION { return None; }
    var count := reader.ReadU64();
    if count.None? || count.value > MAX_EVENTS { return None; }
    var events := LoadEvents(reader, count.value, version.value);
    if events.None? { return None; }
    var extra := reader.ReadBytes(1);
    if extra.Some? { return None; }
    m := Some(Model(events.value));
  }

  method LoadEvents(reader: FileReader, n: nat, version: nat) returns (got: Option<seq<Event>>)
    requires reader.Valid()
    modifies reader
    ensures reader.Valid()
    ensures if got.Some? then GetEvents(old(reader.Rest()), n, version) == Done(got.value, reader.Rest())
            else GetEvents(old(reader.Rest()), n, version) == Bad
  {
    hide GetEvent, Settled;
    var events: seq<Event> := [];
    AheadNothing(GetEvents(reader.Rest(), n, version));
    for i := 0 to n
      invariant reader.Valid()
      invariant GetEvents(old(reader.Rest()), n, version) == Ahead(events, GetEvents(reader.Rest(), n - i, version))
    {
      ghost var before := events;
      var e := reader.ReadEvent(version);
      if e.None? { return None; }
      events := events + [Settled(e.value)];
      assert forall more: seq<Event> :: before + ([Settled(e.value)] + more) == events + more;
    }
    assert events + [] == events;
    got := Some(events);
  }
}
