/** What a loaded trace holds, part by part: of a saved model, and of any file. */
module TraceKept {
  import opened Options
  import opened TraceFormat
  import opened TraceRoundTrip

  /** The same characters, and never absent. */
  predicate SameText(was: Text, back: Text) {
    back.Some? && back.value == if was.Some? then was.value else []
  }

  /** The same characters, and absent when there are none. */
  predicate SameOrAbsent(was: Text, back: Text) {
    if was.None? || was.value == [] then back.None? else back == was
  }

  /** An event as it comes back from a file of a version, field by field. */
  predicate ComesBack(was: Event, back: Event, version: nat) {
    && back.pid == was.pid && back.tid == was.tid && SameText(was.text, back.text)
    && (if version == 3 then SameText(was.comm, back.comm) else back.comm == Some([]))
    && back.sourceFrame == (if version == 1 then 0 else was.sourceFrame)
    && SameOrAbsent(was.source.path, back.source.path) && SameOrAbsent(was.source.function_, back.source.function_)
    && back.source.line == was.source.line
    && back.source.state == (if was.source.state == 1 && !Named(was.source) then 2 else was.source.state)
    && |back.frames| == |was.frames|
    && forall k :: 0 <= k < |was.frames| ==> FrameComesBack(was.frames[k], back.frames[k])
  }

  predicate FrameComesBack(was: Frame, back: Frame) {
    && SameText(was.moduleName, back.moduleName) && SameText(was.function_, back.function_)
    && SameText(was.offset, back.offset) && SameText(was.address, back.address)
  }

  /** A place in a source file: a path, a function and a line that counts from 1. */
  predicate Named(s: Source) {
    s.path.Some? && s.path.value != [] && s.function_.Some? && s.function_.value != [] && s.line >= 1
  }

  lemma {:induction false} FramesComeBack(fs: seq<Frame>)
    ensures |KeptFrames(fs)| == |fs|
    ensures forall k :: 0 <= k < |fs| ==> FrameComesBack(fs[k], KeptFrames(fs)[k])
  {
    if fs != [] { FramesComeBack(fs[1..]); }
  }

  lemma EventComesBack(e: Event, version: nat)
    requires 1 <= version <= 3
    ensures ComesBack(e, Settled(KeptEvent(e, version)), version)
  {
    FramesComeBack(e.frames);
    hide KeptFrames, FrameComesBack;
  }

  lemma {:induction false} EventsComeBack(es: seq<Event>, version: nat)
    requires 1 <= version <= 3
    ensures |KeptEvents(es, version)| == |es|
    ensures forall i :: 0 <= i < |es| ==> ComesBack(es[i], KeptEvents(es, version)[i], version)
  {
    hide Settled, KeptEvent, ComesBack;
    if es != [] {
      EventComesBack(es[0], version);
      EventsComeBack(es[1..], version);
    }
  }

  /** A model within the limits comes back with its events in order, each field by field. */
  lemma SavedEventsComeBack(m: Model, version: uint32)
    requires ModelFits(m) && ModelSound(m) && 1 <= version <= 3 && ModelLoads(m, version)
    ensures var back := Load(PutModel(m, version));
            && back.Some? && |back.value.events| == |m.events|
            && forall i :: 0 <= i < |m.events| ==> ComesBack(m.events[i], back.value.events[i], version)
  {
    hide PutModel, Load, ModelSound, ModelFits, ModelLoads, ComesBack;
    LoadAfterSaveIff(m, version);
    EventsComeBack(m.events, version);
  }

  // ---------------------------------------------------------------- any file

  /** What can be relied on in a loaded event: a source marked as found is named, its frame is
      one of the event's, and no text is absent that should not be. */
  predicate Reliable(e: Event) {
    && 0 <= e.source.state <= 2 && (e.source.state == 1 ==> Named(e.source))
    && e.sourceFrame <= |e.frames| <= 4096 && e.text.Some? && e.comm.Some?
    && (e.source.path.Some? ==> e.source.path.value != [])
    && (e.source.function_.Some? ==> e.source.function_.value != [])
  }

  lemma EventIsReliable(s: bytes, version: nat)
    requires GetEvent(s, version).Got?
    ensures Reliable(Settled(GetEvent(s, version).parsed.value))
  {
    hide GetU32, GetFrames, CString;
    var n := GetU32(GetHead(s, version).parsed.rest).parsed;
    FramesAreCounted(n.rest, n.value);
  }

  lemma {:induction false} FramesAreCounted(s: bytes, n: nat)
    ensures GetFrames(s, n).Got? ==> |GetFrames(s, n).parsed.value| == n
    decreases n
  {
    hide GetFrame;
    if n > 0 && GetFrame(s).Got? { FramesAreCounted(GetFrame(s).parsed.rest, n - 1); }
  }

  lemma {:induction false} EventsAreReliable(s: bytes, n: nat, version: nat)
    requires GetEvents(s, n, version).Got?
    ensures forall e <- GetEvents(s, n, version).parsed.value :: Reliable(e)
    decreases n
  {
    hide GetEvent, Settled, Reliable;
    if n > 0 {
      EventIsReliable(s, version);
      EventsAreReliable(GetEvent(s, version).parsed.rest, n - 1, version);
    }
  }

  /** Whatever bytes were loaded, the events can be relied on. */
  lemma LoadedEventsAreReliable(s: bytes)
    requires Load(s).Some?
    ensures forall e <- Load(s).value.events :: Reliable(e)
  {
    hide GetU32, GetU64, GetMagic, GetEvents, Reliable;
    var count := GetU64(GetU32(GetMagic(s).parsed.rest).parsed.rest).parsed;
    EventsAreReliable(count.rest, count.value, GetU32(GetMagic(s).parsed.rest).parsed.value);
  }

  /** Whatever was loaded starts with the eight letters of the format, a version from 1 to 3 and a
      number of events. */
  lemma LoadedFileIsNamed(s: bytes)
    requires Load(s).Some?
    ensures |s| >= 20 && forall i :: 0 <= i < 8 ==> s[i] == "SSRCBIN1"[i] as int
    ensures s[8] == s[9] == s[10] == 0 && 1 <= s[11] <= 3
    ensures Number(s[12..20]) == |Load(s).value.events| <= 10_000_000
  {
    hide GetEvents, Number;
    var rest := s[8..];
    assert rest[4..][..8] == s[12..20];
    var count := GetU64(rest[4..]).parsed;
    EventsAreCounted(count.rest, count.value, s[11]);
  }

  lemma {:induction false} EventsAreCounted(s: bytes, n: nat, version: nat)
    ensures GetEvents(s, n, version).Got? ==> |GetEvents(s, n, version).parsed.value| == n
    decreases n
  {
    hide GetEvent, Settled;
    if n > 0 && GetEvent(s, version).Got? { EventsAreCounted(GetEvent(s, version).parsed.rest, n - 1, version); }
  }
}
