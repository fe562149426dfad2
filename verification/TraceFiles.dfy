/** Which byte sequences are trace files: no file is the beginning of another, and every file,
    of any version, can be saved anew without a change. */
module TraceFiles {
  import opened Options
  import opened TraceFormat
  import opened TraceRoundTrip

  /** A successful read goes the same way when more bytes follow. */
  predicate Grows<T(==)>(short: Read<T>, long: Read<T>, extra: bytes) {
    short.Got? ==> long == Done(short.parsed.value, short.parsed.rest + extra)
  }

  lemma U32Grows(s: bytes, extra: bytes)
    ensures Grows(GetU32(s), GetU32(s + extra), extra)
  {
    if |s| >= 4 {
      assert (s + extra)[4..] == s[4..] + extra;
    }
  }

  lemma U64Grows(s: bytes, extra: bytes)
    ensures Grows(GetU64(s), GetU64(s + extra), extra)
  {
    if |s| >= 8 {
      assert (s + extra)[8..] == s[8..] + extra && (s + extra)[..8] == s[..8];
    }
  }

  lemma StringGrows(s: bytes, extra: bytes)
    ensures Grows(GetString(s), GetString(s + extra), extra)
  {
    if GetString(s).Got? {
      var n := GetU32(s).parsed;
      U32Grows(s, extra);
      assert (n.rest + extra)[..n.value] == n.rest[..n.value];
      assert (n.rest + extra)[n.value..] == n.rest[n.value..] + extra;
    }
  }

  lemma FrameGrows(s: bytes, extra: bytes)
    ensures Grows(GetFrame(s), GetFrame(s + extra), extra)
  {
    hide GetString;
    if GetFrame(s).Got? {
      StringGrows(s, extra);
      var m := GetString(s).parsed.rest;
      StringGrows(m, extra);
      var f := GetString(m).parsed.rest;
      StringGrows(f, extra);
      StringGrows(GetString(f).parsed.rest, extra);
    }
  }

  lemma {:induction false} FramesGrow(s: bytes, n: nat, extra: bytes)
    ensures Grows(GetFrames(s, n), GetFrames(s + extra, n), extra)
    decreases n
  {
    hide GetFrame;
    if n > 0 && GetFrame(s).Got? {
      FrameGrows(s, extra);
      FramesGrow(GetFrame(s).parsed.rest, n - 1, extra);
    }
  }

  lemma HeadGrows(s: bytes, version: nat, extra: bytes)
    ensures Grows(GetHead(s, version), GetHead(s + extra, version), extra)
  {
    hide GetString, GetU32;
    if GetHead(s, version).Got? {
      U32Grows(s, extra);
      var pid := GetU32(s).parsed.rest;
      U32Grows(pid, extra);
      var tid := GetU32(pid).parsed.rest;
      StringGrows(tid, extra);
      StringGrows(if version >= 3 then GetString(tid).parsed.rest else tid, extra);
    }
  }

  lemma TailGrows(s: bytes, version: nat, frames: nat, extra: bytes)
    ensures Grows(GetTail(s, version, frames), GetTail(s + extra, version, frames), extra)
  {
    hide GetString, GetU32;
    if GetTail(s, version, frames).Got? {
      U32Grows(s, extra);
      var state := GetU32(s).parsed.rest;
      U32Grows(state, extra);
      var selected := if version >= 2 then GetU32(state).parsed.rest else state;
      StringGrows(selected, extra);
      var path := GetString(selected).parsed.rest;
      U32Grows(path, extra);
      StringGrows(GetU32(path).parsed.rest, extra);
    }
  }

  lemma EventGrows(s: bytes, version: nat, extra: bytes)
    ensures Grows(GetEvent(s, version), GetEvent(s + extra, version), extra)
  {
    hide GetHead, GetU32, GetFrames, GetTail;
    if GetEvent(s, version).Got? {
      HeadGrows(s, version, extra);
      var head := GetHead(s, version).parsed.rest;
      U32Grows(head, extra);
      var n := GetU32(head).parsed;
      FramesGrow(n.rest, n.value, extra);
      TailGrows(GetFrames(n.rest, n.value).parsed.rest, version, n.value, extra);
    }
  }

  lemma {:induction false} EventsGrow(s: bytes, n: nat, version: nat, extra: bytes)
    ensures Grows(GetEvents(s, n, version), GetEvents(s + extra, n, version), extra)
    decreases n
  {
    hide GetEvent, Settled;
    if n > 0 && GetEvent(s, version).Got? {
      EventGrows(s, version, extra);
      EventsGrow(GetEvent(s, version).parsed.rest, n - 1, version, extra);
    }
  }

  lemma MagicGrows(s: bytes, extra: bytes)
    ensures Grows(GetMagic(s), GetMagic(s + extra), extra)
  {
    if |s| >= 8 {
      assert (s + extra)[8..] == s[8..] + extra && (s + extra)[..8] == s[..8];
    }
  }

  lemma ModelGrows(s: bytes, extra: bytes)
    ensures Grows(GetModel(s), GetModel(s + extra), extra)
  {
    hide GetU32, GetU64, GetEvents, GetMagic;
    if GetModel(s).Got? {
      MagicGrows(s, extra);
      var magic := GetMagic(s).parsed.rest;
      U32Grows(magic, extra);
      var version := GetU32(magic).parsed;
      U64Grows(version.rest, extra);
      var count := GetU64(version.rest).parsed;
      EventsGrow(count.rest, count.value, version.value, extra);
    }
  }

  /** No file that loads can be lengthened, and so none can be cut short, into another. */
  lemma NoFileStartsAnother(file: bytes, extra: bytes)
    requires Load(file).Some? && extra != []
    ensures Load(file + extra) == None
  {
    hide GetModel;
    ModelGrows(file, extra);
    assert [] + extra == extra;
  }

  /** In particular a saved file loads neither cut short nor lengthened. */
  lemma SavedFileIsWhole(m: Model, version: uint32, n: nat, extra: bytes)
    requires ModelFits(m) && ModelSound(m) && ModelLoads(m, version) && 1 <= version <= TRACE_FORMAT_VERSION
    requires n < |PutModel(m, version)| && extra != []
    ensures Load(PutModel(m, version)[..n]) == None
    ensures Load(PutModel(m, version) + extra) == None
  {
    hide Load, PutModel;
    var file := PutModel(m, version);
    LoadAfterSaveIff(m, version);
    NoFileStartsAnother(file, extra);
    assert file[..n] + file[n..] == file;
    if Load(file[..n]).Some? {
      NoFileStartsAnother(file[..n], file[n..]);
    }
  }

  // ---------------------------------------------------------------- loaded models

  lemma {:induction false} CStringIsWhole(s: bytes)
    ensures NoZero(CString(s)) && |CString(s)| <= |s|
  {
    if s != [] {
      CStringIsWhole(s[1..]);
    }
  }

  predicate TextLoaded(t: Text) {
    t.Some? && Whole(t) && TextLoads(t)
  }

  lemma StringLoaded(s: bytes)
    ensures GetString(s).Got? ==> TextLoaded(GetString(s).parsed.value)
  {
    if GetString(s).Got? {
      var n := GetU32(s).parsed;
      CStringIsWhole(n.rest[..n.value]);
    }
  }

  predicate FrameLoaded(f: Frame) {
    && TextLoaded(f.moduleName) && TextLoaded(f.function_) && TextLoaded(f.offset) && TextLoaded(f.address)
    && f.source == NO_SOURCE
  }

  lemma FrameIsLoaded(s: bytes)
    ensures GetFrame(s).Got? ==> FrameLoaded(GetFrame(s).parsed.value)
  {
    hide GetString, TextLoaded;
    if GetFrame(s).Got? {
      StringLoaded(s);
      var m := GetString(s).parsed.rest;
      StringLoaded(m);
      var f := GetString(m).parsed.rest;
      StringLoaded(f);
      StringLoaded(GetString(f).parsed.rest);
    }
  }

  predicate FramesLoaded(fs: seq<Frame>) {
    forall i :: 0 <= i < |fs| ==> FrameLoaded(fs[i])
  }

  lemma {:induction false} FramesAreLoaded(s: bytes, n: nat)
    ensures GetFrames(s, n).Got? ==> FramesLoaded(GetFrames(s, n).parsed.value) && |GetFrames(s, n).parsed.value| == n
    decreases n
  {
    hide GetFrame, FrameLoaded;
    if n > 0 && GetFrame(s).Got? {
      FrameIsLoaded(s);
      FramesAreLoaded(GetFrame(s).parsed.rest, n - 1);
    }
  }

  predicate PartLoaded(t: Text) {
    t.None? || (TextLoaded(t) && t.value != [])
  }

  /** Everything that reading an event guarantees, whatever the version of the file. */
  predicate EventLoaded(e: Event) {
    && TextLoaded(e.comm) && TextLoaded(e.text) && PartLoaded(e.source.path) && PartLoaded(e.source.function_)
    && 0 <= e.source.state <= 2 && e.sourceFrame <= |e.frames| <= MAX_FRAMES && FramesLoaded(e.frames)
  }

  lemma HeadIsLoaded(s: bytes, version: nat)
    ensures GetHead(s, version).Got? ==>
              TextLoaded(GetHead(s, version).parsed.value.comm) && TextLoaded(GetHead(s, version).parsed.value.text)
  {
    hide GetString, GetU32;
    if GetHead(s, version).Got? {
      var tid := GetU32(GetU32(s).parsed.rest).parsed.rest;
      StringLoaded(tid);
      StringLoaded(if version >= 3 then GetString(tid).parsed.rest else tid);
    }
  }

  lemma TailIsLoaded(s: bytes, version: nat, frames: nat)
    ensures GetTail(s, version, frames).Got? ==>
              var (source, selected) := GetTail(s, version, frames).parsed.value;
              PartLoaded(source.path) && PartLoaded(source.function_) && 0 <= source.state <= 2 && selected <= frames
  {
    hide GetString, GetU32, TextLoaded;
    if GetTail(s, version, frames).Got? {
      var state := GetU32(s).parsed.rest;
      var selected := if version >= 2 then GetU32(state).parsed.rest else state;
      StringLoaded(selected);
      StringLoaded(GetU32(GetString(selected).parsed.rest).parsed.rest);
    }
  }

  lemma EventIsLoaded(s: bytes, version: nat)
    ensures GetEvent(s, version).Got? ==> EventLoaded(Settled(GetEvent(s, version).parsed.value))
  {
    hide GetHead, GetU32, GetFrames, GetTail, TextLoaded, PartLoaded, FramesLoaded;
    if GetEvent(s, version).Got? {
      HeadIsLoaded(s, version);
      var n := GetU32(GetHead(s, version).parsed.rest).parsed;
      FramesAreLoaded(n.rest, n.value);
      TailIsLoaded(GetFrames(n.rest, n.value).parsed.rest, version, n.value);
    }
  }

  lemma {:induction false} EventsAreLoaded(s: bytes, n: nat, version: nat)
    ensures GetEvents(s, n, version).Got? ==>
              var es := GetEvents(s, n, version).parsed.value;
              |es| == n && forall i :: 0 <= i < n ==> EventLoaded(es[i]) && Settled(es[i]) == es[i]
    decreases n
  {
    hide GetEvent, EventLoaded;
    if n > 0 && GetEvent(s, version).Got? {
      EventIsLoaded(s, version);
      EventsAreLoaded(GetEvent(s, version).parsed.rest, n - 1, version);
    }
  }

  lemma {:induction false} FramesStay(fs: seq<Frame>)
    requires FramesLoaded(fs)
    ensures KeptFrames(fs) == fs && FramesLoad(fs)
    ensures forall i :: 0 <= i < |fs| ==> FrameSound(fs[i]) && FrameFits(fs[i])
  {
    if fs != [] {
      assert FrameLoaded(fs[0]);
      FramesStay(fs[1..]);
      assert forall i :: 1 <= i < |fs| ==> fs[i] == fs[1..][i - 1];
    }
  }

  lemma EventStays(e: Event)
    requires EventLoaded(e)
    ensures EventFits(e) && EventSound(e) && EventLoads(e, 3) && KeptEvent(e, 3) == e
  {
    FramesStay(e.frames);
    hide FrameSound, FrameFits, FramesLoaded;
  }

  lemma {:induction false} EventsStay(es: seq<Event>)
    requires forall i :: 0 <= i < |es| ==> EventLoaded(es[i]) && Settled(es[i]) == es[i]
    ensures KeptEvents(es, 3) == es && EventsLoad(es, 3)
    ensures forall i :: 0 <= i < |es| ==> EventFits(es[i]) && EventSound(es[i])
  {
    hide EventLoaded, EventFits, EventSound, EventLoads, Settled;
    if es != [] {
      EventStays(es[0]);
      EventsStay(es[1..]);
      EventsLoadStep(es, 3);
      assert forall i :: 1 <= i < |es| ==> es[i] == es[1..][i - 1];
    }
  }

  /** Whatever version a file has, the model it loads as is saved and loaded again unchanged. */
  lemma SavingALoadedFileChangesNothing(file: bytes)
    requires Load(file).Some?
    ensures var m := Load(file).value;
            && ModelFits(m) && ModelSound(m) && ModelLoads(m, TRACE_FORMAT_VERSION)
            && Load(PutModel(m, TRACE_FORMAT_VERSION)) == Some(m)
  {
    var m := Load(file).value;
    ModelIsLoaded(file);
    EventsStay(m.events);
    LoadAfterSaveIff(m, TRACE_FORMAT_VERSION);
  }

  lemma ModelIsLoaded(file: bytes)
    requires GetModel(file).Got?
    ensures var es := GetModel(file).parsed.value.events;
            |es| <= MAX_EVENTS && forall i :: 0 <= i < |es| ==> EventLoaded(es[i]) && Settled(es[i]) == es[i]
  {
    hide GetU32, GetU64, GetEvents, EventLoaded, Settled;
    var version := GetU32(GetMagic(file).parsed.rest).parsed;
    var count := GetU64(version.rest).parsed;
    EventsAreLoaded(count.rest, count.value, version.value);
  }
}
