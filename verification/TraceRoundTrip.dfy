/** Reading back what was written: exact for every model within the limits, refused beyond them,
    and never fooled by a cut or lengthened file. */
module TraceRoundTrip {
  import opened Options
  import opened TraceFormat

  // ---------------------------------------------------------------- what comes back

  predicate NoZero(s: bytes) {
    forall i :: 0 <= i < |s| ==> s[i] != 0
  }

  predicate Whole(t: Text) {
    NoZero(Chars(t))
  }

  predicate FrameSound(f: Frame) {
    Whole(f.moduleName) && Whole(f.function_) && Whole(f.offset) && Whole(f.address)
  }

  predicate EventSound(e: Event) {
    && Whole(e.comm) && Whole(e.text) && Whole(e.source.path) && Whole(e.source.function_)
    && 0 <= e.source.state <= 2 && e.sourceFrame <= |e.frames|
    && forall i :: 0 <= i < |e.frames| ==> FrameSound(e.frames[i])
  }

  predicate TextLoads(t: Text) { |Chars(t)| <= MAX_STRING }

  predicate FrameLoads(f: Frame) {
    TextLoads(f.moduleName) && TextLoads(f.function_) && TextLoads(f.offset) && TextLoads(f.address)
  }

  predicate FramesLoad(fs: seq<Frame>) {
    forall i :: 0 <= i < |fs| ==> FrameLoads(fs[i])
  }

  /** Within the limits that loading sets. */
  predicate EventLoads(e: Event, version: nat) {
    && (version >= 3 ==> TextLoads(e.comm)) && TextLoads(e.text)
    && TextLoads(e.source.path) && TextLoads(e.source.function_)
    && |e.frames| <= MAX_FRAMES && FramesLoad(e.frames)
  }

  predicate EventsLoad(es: seq<Event>, version: nat) {
    forall i :: 0 <= i < |es| ==> EventLoads(es[i], version)
  }

  predicate ModelLoads(m: Model, version: nat) {
    |m.events| <= MAX_EVENTS && EventsLoad(m.events, version)
  }

  function Present(t: Text): Text {
    Some(Chars(t))
  }

  /** What is kept of a frame: its texts, none of them absent, and no source. */
  function KeptFrame(f: Frame): Frame {
    Frame(Present(f.moduleName), Present(f.function_), Present(f.offset), Present(f.address), NO_SOURCE)
  }

  function KeptFrames(fs: seq<Frame>): seq<Frame> {
    if fs == [] then [] else [KeptFrame(fs[0])] + KeptFrames(fs[1..])
  }

  /** What is kept of an event by a file of a version. */
  function KeptEvent(e: Event, version: nat): Event {
    Event(e.pid, e.tid, if version >= 3 then Present(e.comm) else Some([]), Present(e.text), KeptFrames(e.frames),
          e.source.(path := NonEmpty(e.source.path), function_ := NonEmpty(e.source.function_)),
          if version >= 2 then e.sourceFrame else 0)
  }

  function KeptEvents(es: seq<Event>, version: nat): seq<Event> {
    if es == [] then [] else [Settled(KeptEvent(es[0], version))] + KeptEvents(es[1..], version)
  }

  // ---------------------------------------------------------------- numbers and strings

  lemma U32Back(v: uint32, rest: bytes)
    ensures GetU32(PutU32(v) + rest) == Done(v, rest)
  {
    assert (PutU32(v) + rest)[4..] == rest;
    FourBytes(v);
  }

  lemma FourBytes(v: uint32)
    ensures v == v / 0x100_0000 * 0x100_0000 + v / 0x1_0000 % 0x100 * 0x1_0000 + v / 0x100 % 0x100 * 0x100 + v % 0x100
  {
    var high := v / 0x100;
    assert high / 0x100 == v / 0x1_0000;
    assert high / 0x100 / 0x100 == v / 0x100_0000;
  }

  function Power(n: nat): nat {
    if n == 0 then 1 else 0x100 * Power(n - 1)
  }

  lemma {:induction false} NumberBack(v: nat, n: nat)
    requires v < Power(n)
    ensures Number(PutBytes(v, n)) == v
    decreases n
  {
    if n > 0 {
      NumberBack(v / 0x100, n - 1);
      var s := PutBytes(v, n);
      assert s[..|s| - 1] == PutBytes(v / 0x100, n - 1);
    }
  }

  lemma PowerOfEight()
    ensures Power(8) == U64
  {
    assert Power(2) == 0x1_0000;
    assert Power(4) == 0x1_0000_0000;
    assert Power(6) == 0x1_0000_0000_0000;
  }

  lemma U64Back(v: nat, rest: bytes)
    requires v < U64
    ensures GetU64(PutBytes(v, 8) + rest) == Done(v, rest)
  {
    PowerOfEight();
    NumberBack(v, 8);
    assert (PutBytes(v, 8) + rest)[..8] == PutBytes(v, 8) && (PutBytes(v, 8) + rest)[8..] == rest;
  }

  lemma {:induction false} CStringOfWhole(s: bytes)
    requires NoZero(s)
    ensures CString(s) == s
  {
    if s != [] {
      CStringOfWhole(s[1..]);
      assert [s[0]] + s[1..] == s;
    }
  }

  lemma StringBack(t: Text, rest: bytes)
    requires TextFits(t) && Whole(t)
    ensures GetString(PutString(t) + rest) == if TextLoads(t) then Done(Present(t), rest) else Bad
  {
    var s := Chars(t);
    assert PutString(t) + rest == PutU32(|s|) + (s + rest);
    U32Back(|s|, s + rest);
    CStringOfWhole(s);
    assert (s + rest)[..|s|] == s && (s + rest)[|s|..] == rest;
  }

  // ---------------------------------------------------------------- frames and events

  lemma FrameBack(f: Frame, rest: bytes)
    requires FrameFits(f) && FrameSound(f)
    ensures GetFrame(PutFrame(f) + rest) == if FrameLoads(f) then Done(KeptFrame(f), rest) else Bad
  {
    hide GetString, PutString, TextLoads, Whole;
    var a, b, c, d := PutString(f.moduleName), PutString(f.function_), PutString(f.offset), PutString(f.address);
    assert PutFrame(f) + rest == a + (b + (c + (d + rest)));
    StringBack(f.moduleName, b + (c + (d + rest)));
    StringBack(f.function_, c + (d + rest));
    StringBack(f.offset, d + rest);
    StringBack(f.address, rest);
  }

  lemma {:induction false} FramesBack(fs: seq<Frame>, rest: bytes)
    requires forall i :: 0 <= i < |fs| ==> FrameFits(fs[i]) && FrameSound(fs[i])
    ensures GetFrames(PutFrames(fs) + rest, |fs|) == if FramesLoad(fs) then Done(KeptFrames(fs), rest) else Bad
    decreases |fs|
  {
    hide GetFrame, PutFrame, FrameFits, FrameSound, FrameLoads, KeptFrame;
    if fs == [] {
      assert PutFrames(fs) + rest == rest;
    } else {
      assert PutFrames(fs) + rest == PutFrame(fs[0]) + (PutFrames(fs[1..]) + rest);
      FrameBack(fs[0], PutFrames(fs[1..]) + rest);
      FramesBack(fs[1..], rest);
      FramesLoadStep(fs);
    }
  }

  lemma FramesLoadStep(fs: seq<Frame>)
    requires fs != []
    ensures FramesLoad(fs) <==> FrameLoads(fs[0]) && FramesLoad(fs[1..])
  {
    assert forall i :: 1 <= i < |fs| ==> fs[i] == fs[1..][i - 1];
  }

  predicate HeadLoads(e: Event, version: nat) {
    (version >= 3 ==> TextLoads(e.comm)) && TextLoads(e.text)
  }

  lemma HeadBack(e: Event, version: nat, rest: bytes)
    requires EventFits(e) && EventSound(e)
    ensures GetHead(PutHead(e, version) + rest, version)
            == if HeadLoads(e, version)
               then Done(Head(e.pid, e.tid, if version >= 3 then Present(e.comm) else Some([]), Present(e.text)), rest)
               else Bad
  {
    hide GetU32, PutU32, GetString, PutString, TextLoads, Whole;
    var a, b, d := PutU32(AsU32(e.pid)), PutU32(AsU32(e.tid)), PutString(e.text);
    var c := if version >= 3 then PutString(e.comm) else [];
    var s3 := d + rest;
    var s2 := c + s3;
    var s1 := b + s2;
    FourParts(a, b, c, d, rest);
    U32Back(AsU32(e.pid), s1);
    U32Back(AsU32(e.tid), s2);
    if version >= 3 {
      StringBack(e.comm, s3);
    } else {
      assert s2 == s3;
    }
    StringBack(e.text, rest);
  }

  lemma FourParts(a: bytes, b: bytes, c: bytes, d: bytes, rest: bytes)
    ensures a + b + c + d + rest == a + (b + (c + (d + rest)))
  {
  }

  predicate TailLoads(e: Event) {
    TextLoads(e.source.path) && TextLoads(e.source.function_)
  }

  lemma TailBack(e: Event, version: nat, rest: bytes)
    requires EventFits(e) && EventSound(e)
    ensures var kept := KeptEvent(e, version);
            GetTail(PutTail(e, version) + rest, version, |e.frames|)
            == if TailLoads(e) then Done((kept.source, kept.sourceFrame), rest) else Bad
  {
    hide GetU32, PutU32, GetString, PutString, TextLoads, Whole;
    var a, c := PutU32(AsU32(e.source.state)), PutString(e.source.path);
    var b := if version >= 2 then PutU32(e.sourceFrame % U32) else [];
    var d, f := PutU32(AsU32(e.source.line)), PutString(e.source.function_);
    var s4 := f + rest;
    var s3 := d + s4;
    var s2 := c + s3;
    var s1 := b + s2;
    FourParts(a, b, c, d + f, rest);
    assert PutTail(e, version) == a + b + c + (d + f);
    assert d + f + rest == s3;
    U32Back(AsU32(e.source.state), s1);
    if version >= 2 {
      U32Back(e.sourceFrame % U32, s2);
    } else {
      assert s1 == s2;
    }
    StringBack(e.source.path, s3);
    U32Back(AsU32(e.source.line), s4);
    StringBack(e.source.function_, rest);
  }

  lemma EventBack(e: Event, version: nat, rest: bytes)
    requires EventFits(e) && EventSound(e)
    ensures GetEvent(PutEvent(e, version) + rest, version)
            == if EventLoads(e, version) then Done(KeptEvent(e, version), rest) else Bad
  {
    var a, b := PutHead(e, version), PutU32(|e.frames|);
    var c, d := PutFrames(e.frames), PutTail(e, version);
    assert PutEvent(e, version) + rest == a + (b + (c + (d + rest)));
    HeadBack(e, version, b + (c + (d + rest)));
    U32Back(|e.frames|, c + (d + rest));
    FramesBack(e.frames, d + rest);
    TailBack(e, version, rest);
    hide GetHead, GetU32, GetFrames, GetTail, PutHead, PutU32, PutFrames, PutTail, FramesLoad, TextLoads;
  }

  lemma {:induction false} EventsBack(es: seq<Event>, version: nat, rest: bytes)
    requires forall i :: 0 <= i < |es| ==> EventFits(es[i]) && EventSound(es[i])
    ensures GetEvents(PutEvents(es, version) + rest, |es|, version)
            == if EventsLoad(es, version) then Done(KeptEvents(es, version), rest) else Bad
    decreases |es|
  {
    hide GetEvent, PutEvent, EventFits, EventSound, EventLoads, KeptEvent, Settled;
    if es == [] {
      assert PutEvents(es, version) + rest == rest;
    } else {
      assert PutEvents(es, version) + rest == PutEvent(es[0], version) + (PutEvents(es[1..], version) + rest);
      EventBack(es[0], version, PutEvents(es[1..], version) + rest);
      EventsBack(es[1..], version, rest);
      EventsLoadStep(es, version);
    }
  }

  lemma EventsLoadStep(es: seq<Event>, version: nat)
    requires es != []
    ensures EventsLoad(es, version) <==> EventLoads(es[0], version) && EventsLoad(es[1..], version)
  {
    hide EventLoads;
    assert forall i :: 1 <= i < |es| ==> es[i] == es[1..][i - 1];
  }

  // ---------------------------------------------------------------- whole files

  ghost predicate ModelSound(m: Model) {
    forall i :: 0 <= i < |m.events| ==> EventSound(m.events[i])
  }

  /** A saved model loads if and only if it keeps the limits of the format, and what comes back
      is the model with its texts made definite and the parts that are not stored left out. */
  lemma LoadAfterSaveIff(m: Model, version: uint32)
    requires ModelFits(m) && ModelSound(m) && 1 <= version <= TRACE_FORMAT_VERSION
    ensures Load(PutModel(m, version))
            == if ModelLoads(m, version) then Some(Model(KeptEvents(m.events, version))) else None
  {
    hide GetEvents, PutEvents, GetU32, PutU32, GetU64, PutBytes, Number, EventsLoad, KeptEvents, EventFits, EventSound;
    var n := |m.events|;
    var es := PutEvents(m.events, version);
    var counted := PutBytes(n, 8) + es;
    var file := PutModel(m, version);
    assert file == MAGIC + (PutU32(version) + counted) && file[..8] == MAGIC && file[8..] == PutU32(version) + counted;
    U32Back(version, counted);
    U64Back(n, es);
    EventsBack(m.events, version, []);
    assert es + [] == es;
  }
}
