/** The binary trace file of strace-src: what is written for a model, and what reading accepts. */
module TraceFormat {
  import opened Options

  const TRACE_FORMAT_VERSION := 3
  const MAX_EVENTS := 10000000
  const MAX_FRAMES := 4096
  const MAX_STRING := 16 * 1024 * 1024
  const U32 := 0x1_0000_0000
  const U64 := 0x1_0000_0000_0000_0000

  type byte = x: int | 0 <= x < 256
  type bytes = seq<byte>
  type int32 = x: int | -0x8000_0000 <= x < 0x8000_0000
  type uint32 = x: int | 0 <= x < U32
  type uint64 = x: int | 0 <= x < U64

  const MAGIC: bytes := [83, 83, 82, 67, 66, 73, 78, 49]

  /** A char pointer: null, or a string without a zero byte. */
  type Text = Option<bytes>

  datatype Source = Source(state: int32, path: Text, function_: Text, line: int32)
  datatype Frame = Frame(moduleName: Text, function_: Text, offset: Text, address: Text, source: Source)
  datatype Event = Event(pid: int32, tid: int32, comm: Text, text: Text, frames: seq<Frame>,
                         source: Source, sourceFrame: uint64)
  datatype Model = Model(events: seq<Event>)

  // ---------------------------------------------------------------- numbers and strings

  function PutU32(v: uint32): (s: bytes)
    ensures |s| == 4
  {
    [v / 0x100_0000, v / 0x1_0000 % 0x100, v / 0x100 % 0x100, v % 0x100]
  }

  /** The n low bytes of v, the highest first. */
  function PutBytes(v: nat, n: nat): (s: bytes)
    ensures |s| == n
  {
    if n == 0 then [] else PutBytes(v / 0x100, n - 1) + [v % 0x100]
  }

  function Chars(t: Text): bytes {
    if t.None? then [] else t.value
  }

  /** write_string, for a string whose length fits 32 bits */
  function PutString(t: Text): bytes
    requires |Chars(t)| < U32
  {
    PutU32(|Chars(t)|) + Chars(t)
  }

  /** Two's complement, as the casts to uint32_t and back do. */
  function AsU32(v: int32): uint32 {
    if v < 0 then v + U32 else v
  }

  function AsInt(v: uint32): int32 {
    if v < 0x8000_0000 then v else v - U32
  }

  /** What a read gives: a value and the bytes after it, or a failure. */
  datatype Parsed<T> = Parsed(value: T, rest: bytes)

  datatype Read<T> = Bad | Got(parsed: Parsed<T>) {
    predicate IsFailure() { Bad? }

    function PropagateFailure<U>(): Read<U>
      requires Bad?
    {
      Bad
    }

    function Extract(): Parsed<T>
      requires Got?
    {
      parsed
    }
  }

  function Done<T>(value: T, rest: bytes): Read<T> {
    Got(Parsed(value, rest))
  }

  function GetU32(s: bytes): Read<uint32> {
    if |s| < 4 then Bad
    else
      var a: int, b: int, c: int, d: int := s[0], s[1], s[2], s[3];
      Done(a * 0x100_0000 + b * 0x1_0000 + c * 0x100 + d, s[4..])
  }

  /** The number that bytes stand for, the highest first. */
  function Number(s: bytes): nat {
    if s == [] then 0 else Number(s[..|s| - 1]) * 0x100 + s[|s| - 1]
  }

  function GetU64(s: bytes): Read<nat> {
    if |s| < 8 then Bad else Done(Number(s[..8]), s[8..])
  }

  /** What is left of a buffer read as a C string. */
  function CString(s: bytes): bytes {
    if s == [] || s[0] == 0 then [] else [s[0]] + CString(s[1..])
  }

  function GetString(s: bytes): Read<Text> {
    var n :- GetU32(s);
    if n.value > MAX_STRING || |n.rest| < n.value then Bad
    else Done(Some(CString(n.rest[..n.value])), n.rest[n.value..])
  }

  // ---------------------------------------------------------------- events

  function PutFrame(f: Frame): bytes
    requires FrameFits(f)
  {
    PutString(f.moduleName) + PutString(f.function_) + PutString(f.offset) + PutString(f.address)
  }

  function PutFrames(fs: seq<Frame>): bytes
    requires forall i :: 0 <= i < |fs| ==> FrameFits(fs[i])
  {
    if fs == [] then [] else PutFrame(fs[0]) + PutFrames(fs[1..])
  }

  /** The fields before the frames; comm since version 3. */
  function PutHead(e: Event, version: nat): bytes
    requires EventFits(e)
  {
    PutU32(AsU32(e.pid)) + PutU32(AsU32(e.tid)) + (if version >= 3 then PutString(e.comm) else []) + PutString(e.text)
  }

  /** The fields after the frames; the selected frame since version 2. */
  function PutTail(e: Event, version: nat): bytes
    requires EventFits(e)
  {
    PutU32(AsU32(e.source.state)) + (if version >= 2 then PutU32(e.sourceFrame % U32) else [])
    + PutString(e.source.path) + PutU32(AsU32(e.source.line)) + PutString(e.source.function_)
  }

  function PutEvent(e: Event, version: nat): bytes
    requires EventFits(e)
  {
    PutHead(e, version) + PutU32(|e.frames|) + PutFrames(e.frames) + PutTail(e, version)
  }

  function PutEvents(es: seq<Event>, version: nat): bytes
    requires forall i :: 0 <= i < |es| ==> EventFits(es[i])
  {
    if es == [] then [] else PutEvent(es[0], version) + PutEvents(es[1..], version)
  }

  /** A whole file. */
  function PutModel(m: Model, version: uint32): bytes
    requires ModelFits(m)
  {
    MAGIC + PutU32(version) + PutBytes(|m.events|, 8) + PutEvents(m.events, version)
  }

  /** Lengths that 32 bits can hold: what write_string and write_event check. */
  predicate TextFits(t: Text) { |Chars(t)| < U32 }

  predicate FrameFits(f: Frame) {
    TextFits(f.moduleName) && TextFits(f.function_) && TextFits(f.offset) && TextFits(f.address)
  }

  predicate EventFits(e: Event) {
    && TextFits(e.comm) && TextFits(e.text) && TextFits(e.source.path) && TextFits(e.source.function_)
    && |e.frames| < U32 && forall i :: 0 <= i < |e.frames| ==> FrameFits(e.frames[i])
  }

  predicate ModelFits(m: Model) {
    |m.events| < U64 && forall i :: 0 <= i < |m.events| ==> EventFits(m.events[i])
  }

  const NO_SOURCE := Source(0, None, None, 0)

  function GetFrame(s: bytes): Read<Frame> {
    var m :- GetString(s);
    var f :- GetString(m.rest);
    var o :- GetString(f.rest);
    var a :- GetString(o.rest);
    Done(Frame(m.value, f.value, o.value, a.value, NO_SOURCE), a.rest)
  }

  function GetFrames(s: bytes, n: nat): Read<seq<Frame>>
    decreases n
  {
    if n == 0 then Done([], s)
    else
      var f :- GetFrame(s);
      var more :- GetFrames(f.rest, n - 1);
      Done([f.value] + more.value, more.rest)
  }

  datatype Head = Head(pid: int32, tid: int32, comm: Text, text: Text)

  function GetHead(s: bytes, version: nat): Read<Head> {
    var pid :- GetU32(s);
    var tid :- GetU32(pid.rest);
    var comm :- if version >= 3 then GetString(tid.rest) else Done(Some([]), tid.rest);
    var text :- GetString(comm.rest);
    Done(Head(AsInt(pid.value), AsInt(tid.value), comm.value, text.value), text.rest)
  }

  /** An empty string read back stands for none. */
  function NonEmpty(t: Text): Text {
    if Chars(t) == [] then None else t
  }

  function GetTail(s: bytes, version: nat, frames: nat): Read<(Source, uint32)> {
    var state :- GetU32(s);
    if state.value > 2 then Bad
    else
      var selected :- if version >= 2 then GetU32(state.rest) else Done(0, state.rest);
      if selected.value > frames then Bad
      else
        var path :- GetString(selected.rest);
        var line :- GetU32(path.rest);
        var fn :- GetString(line.rest);
        Done((Source(state.value, NonEmpty(path.value), NonEmpty(fn.value), AsInt(line.value)), selected.value),
            fn.rest)
  }

  /** read_event */
  function GetEvent(s: bytes, version: nat): Read<Event> {
    var head :- GetHead(s, version);
    var n :- GetU32(head.rest);
    if n.value > MAX_FRAMES then Bad
    else
      var fs :- GetFrames(n.rest, n.value);
      var tail :- GetTail(fs.rest, version, n.value);
      var h := head.value;
      Done(Event(h.pid, h.tid, h.comm, h.text, fs.value, tail.value.0, tail.value.1), tail.rest)
  }

  /** A found source without its parts counts as not available. */
  function Settled(e: Event): Event {
    if e.source.state == 1 && (e.source.path.None? || e.source.function_.None? || e.source.line <= 0) then
      e.(source := e.source.(state := 2))
    else e
  }

  function GetEvents(s: bytes, n: nat, version: nat): Read<seq<Event>>
    decreases n
  {
    if n == 0 then Done([], s)
    else
      var e :- GetEvent(s, version);
      var more :- GetEvents(e.rest, n - 1, version);
      Done([Settled(e.value)] + more.value, more.rest)
  }

  function GetMagic(s: bytes): Read<()> {
    if |s| < 8 || s[..8] != MAGIC then Bad else Done((), s[8..])
  }

  /** trace_model_load up to the last event. */
  function GetModel(s: bytes): Read<Model> {
    var magic :- GetMagic(s);
    var version :- GetU32(magic.rest);
    if version.value < 1 || version.value > TRACE_FORMAT_VERSION then Bad
    else
      var count :- GetU64(version.rest);
      if count.value > MAX_EVENTS then Bad
      else
        var es :- GetEvents(count.rest, count.value, version.value);
        Done(Model(es.value), es.rest)
  }

  /** trace_model_load: the whole file, to its last byte. */
  function Load(s: bytes): Option<Model> {
    var m := GetModel(s);
    if m.Bad? || m.parsed.rest != [] then None else Some(m.parsed.value)
  }
}
