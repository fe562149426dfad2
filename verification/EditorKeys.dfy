/** What each key does to the whole editor, as a function: text, cursor, undo stack, clipboards
    and the anchor of a selection.  Over any keys, undo brings back the lines. */
module EditorKeys {
  import opened Options
  import opened EditorText
  import opened EditorEdits
  import opened EditorForms
  import opened EditorUndo

  datatype Desk = Desk(session: Session, chars: Option<string>, lineClip: seq<string>, anchor: Point)

  datatype Op =
    | Typed(bytes: string) | TemplateKey(text: string) | NewlineKey | OpenKey | BackspaceKey | EraseKey
    | DeleteKey(count: int) | RangeDelete(from: int) | VisualLineDelete | DeleteSelection | PasteKey(above: bool)
    | ReplaceKey(start: int, end: int, text: string) | TuiKey(start: int, end: int)
    | ShellKey(start: int, end: int, isFor: bool)
    | CopyKey(count: int) | RangeCopy(from: int) | VisualLineCopy | CopySelection
    | MoveKey(to: Point) | VisualKey | UndoKey

  predicate DeskFine(d: Desk) {
    && Fine(d.session.buf) && Kept(d.session.stack)
    && |d.lineClip| <= EDITOR_LINES && Clean(d.lineClip)
  }

  /** What the callers of an edit see to. */
  predicate Allowed(d: Desk, op: Op)
    requires DeskFine(d)
  {
    var b := d.session.buf;
    match op
    case Typed(bytes) => OneLine(bytes)
    case TemplateKey(text) => OneLine(text)
    case RangeDelete(from) => 0 <= from < |b.lines|
    case RangeCopy(from) => 0 <= from < |b.lines|
    case VisualLineDelete => 0 <= d.anchor.row < |b.lines|
    case VisualLineCopy => 0 <= d.anchor.row < |b.lines|
    case ReplaceKey(start, _, text) => start <= |b.lines[b.row]| && OneLine(text)
    case TuiKey(start, _) => start <= |b.lines[b.row]|
    case ShellKey(start, _, _) => start <= |b.lines[b.row]|
    case MoveKey(to) => Inside(b.lines, to)
    case _ => true
  }

  function Min(i: int, j: int): int {
    if i < j then i else j
  }

  function Max(i: int, j: int): int {
    if i > j then i else j
  }

  /** Where a key puts the cursor before it edits anything, if it edits at all: `p` steps over the
      character under the cursor, `o` goes to the line's end, and deleting a range of lines
      goes to its first line, keeping the column or not. */
  function Poised(d: Desk, op: Op): Buf
    requires DeskFine(d) && Allowed(d, op)
  {
    var b := d.session.buf;
    match op
    case PasteKey(above) => if d.chars.Some? && !above then StepRight(b) else b
    case OpenKey => b.(col := |b.lines[b.row]|)
    case RangeDelete(from) => b.(row := Min(from, b.row))
    case VisualLineDelete => b.(row := Min(d.anchor.row, b.row), col := 0)
    case MoveKey(to) => b.(row := to.row, col := to.col)
    case _ => b
  }

  /** editor_insert_text: one edit for each character. */
  function Insertions(b: Buf, text: string): seq<Change>
    requires Fine(b) && OneLine(text)
    decreases |text|
  {
    if text == "" then []
    else
      InsertIsTextual(b, [text[0]]);
      var after := InsertBytes(b, [text[0]]);
      [Change(b, after)] + Insertions(after, text[1..])
  }

  lemma InsertionsStep(b: Buf, text: string, stack: seq<Buf>)
    requires Fine(b) && OneLine(text) && text != "" && OneLine([text[0]]) && OneLine(text[1..])
    ensures var after := InsertBytes(b, [text[0]]);
            && Fine(after)
            && Edits(Session(b, stack), Insertions(b, text))
                == Edits(Session(after, Push(stack, b)), Insertions(after, text[1..]))
  {
    hide InsertBytes, OneLine, Fine, Push;
    InsertIsTextual(b, [text[0]]);
    assert Insertions(b, text)[1..] == Insertions(InsertBytes(b, [text[0]]), text[1..]);
  }

  lemma NoInsertions(b: Buf, stack: seq<Buf>)
    requires Fine(b)
    ensures Edits(Session(b, stack), Insertions(b, "")) == Session(b, stack)
  {
  }

  /** The text after a key that makes one edit. */
  function EditedBy(d: Desk, op: Op): Option<Buf>
    requires DeskFine(d) && Allowed(d, op)
  {
    var b := Poised(d, op);
    match op
    case Typed(bytes) => if bytes == "" then None else Some(InsertBytes(b, bytes))
    case NewlineKey => if |b.lines| >= EDITOR_LINES then None else Some(Newline(b))
    case OpenKey => if |b.lines| >= EDITOR_LINES then None else Some(Newline(b))
    case BackspaceKey => if Cursor(b) == Point(0, 0) then None else Some(Backspace(b))
    case EraseKey => if b.col >= |b.lines[b.row]| then None else Some(EraseNext(b))
    case DeleteKey(count) => Some(DeleteLines(b, count))
    case RangeDelete(from) => Some(DeleteLines(b, Max(from, d.session.buf.row) - b.row + 1))
    case VisualLineDelete => Some(DeleteLines(b, Max(d.anchor.row, d.session.buf.row) - b.row + 1))
    case DeleteSelection => Some(DeleteVisual(b, d.anchor))
    case PasteKey(above) =>
      if d.chars.Some? then
        if d.chars.value == "" || !Fits(b, d.chars.value) then None else Some(PasteText(b, d.chars.value))
      else if d.lineClip == [] || |b.lines| == EDITOR_LINES then None
      else Some(PasteLines(b, d.lineClip, above))
    case ReplaceKey(start, end, text) => Some(ReplaceRange(b, start, end, text))
    case TuiKey(start, end) =>
      Some(if |b.lines| >= EDITOR_LINES then ReplaceRange(b, start, end, "@tui ") else CompleteTui(b, start, end))
    case ShellKey(start, end, isFor) =>
      Some(if |b.lines| + 2 > EDITOR_LINES then ReplaceRange(b, start, end, if isFor then "for " else "if ")
           else CompleteShell(b, start, end, isFor))
    case _ => None
  }

  /** The edits that a key makes: none, one, or one for each character of a template. */
  function ChangesBy(d: Desk, op: Op): seq<Change>
    requires DeskFine(d) && Allowed(d, op)
  {
    var b, after := Poised(d, op), EditedBy(d, op);
    if op.TemplateKey? then Insertions(b, op.text) else if after.None? then [] else [Change(b, after.value)]
  }

  /** The lines from one row to another, in either order. */
  function LinesFrom(b: Buf, from: int): seq<string>
    requires Fine(b) && 0 <= from < |b.lines|
  {
    b.lines[Min(from, b.row)..Max(from, b.row) + 1]
  }

  /** One key. */
  function Apply(d: Desk, op: Op): Desk
    requires DeskFine(d) && Allowed(d, op)
  {
    var b := d.session.buf;
    var next := if op.UndoKey? then Undo(d.session)
                else Edits(Session(Poised(d, op), d.session.stack), ChangesBy(d, op));
    match op
    case CopyKey(count) => Desk(next, None, b.lines[b.row..b.row + Clamp(count, 1, |b.lines| - b.row)], d.anchor)
    case RangeCopy(from) => Desk(next, None, LinesFrom(b, from), d.anchor)
    case VisualLineCopy => Desk(next, None, LinesFrom(b, d.anchor.row), d.anchor)
    case VisualLineDelete => Desk(next, None, LinesFrom(b, d.anchor.row), d.anchor)
    case CopySelection => Desk(next, Some(Selected(b, d.anchor)), [], d.anchor)
    case DeleteSelection => Desk(next, Some(Selected(b, d.anchor)), [], d.anchor)
    case VisualKey => d.(session := next, anchor := Cursor(b))
    case _ => d.(session := next)
  }

  /** A key that edits once or not at all. */
  lemma AppliedOnce(d: Desk, op: Op)
    requires DeskFine(d) && Allowed(d, op) && !op.UndoKey? && !op.TemplateKey?
    ensures var b, after := Poised(d, op), EditedBy(d, op);
            Apply(d, op).session == if after.None? then Session(b, d.session.stack)
                                    else Session(after.value, Push(d.session.stack, b))
  {
    hide EditedBy, Poised, Fine, Push, Selected, LinesFrom;
    EditOnce(Session(Poised(d, op), d.session.stack), EditedBy(d, op));
  }

  lemma EditOnce(s: Session, after: Option<Buf>)
    ensures Edits(s, []) == s
    ensures after.Some? ==> Edits(s, [Change(s.buf, after.value)]) == Session(after.value, Push(s.stack, s.buf))
  {
    if after.Some? {
      var cs := [Change(s.buf, after.value)];
      assert cs[1..] == [];
      assert Edits(s, cs) == Edits(Edit(s, cs[0]), []);
    }
  }

  // ---------------------------------------------------------------- every key keeps order

  lemma CompletedIsFine(b: Buf, start: int, end: int)
    requires Fine(b) && start <= |b.lines[b.row]|
    ensures |b.lines| < EDITOR_LINES ==> Fine(CompleteTui(b, start, end))
    ensures |b.lines| + 2 <= EDITOR_LINES ==>
              Fine(CompleteShell(b, start, end, true)) && Fine(CompleteShell(b, start, end, false))
  {
    var line := b.lines[b.row];
    assert OneLine(line);
    var indent := Indent(line);
    IndentedIsClean(line, "@end");
    IndentedIsClean(line, "  ");
    IndentedIsClean(line, "done");
    IndentedIsClean(line, "fi");
    hide Fine, CompleteBlock, Indent;
    if |b.lines| < EDITOR_LINES {
      CompletionIsFine(b, start, end, "@tui ", 0, [indent + "@end"]);
    }
    if |b.lines| + 2 <= EDITOR_LINES {
      CompletionIsFine(b, start, end, "for item in ; do", 4, [indent + "  ", indent + "done"]);
      CompletionIsFine(b, start, end, "if [  ]; then", 8, [indent + "  ", indent + "fi"]);
    }
  }

  lemma PoisedIsStorable(d: Desk, op: Op)
    requires DeskFine(d) && Allowed(d, op)
    ensures Storable(Poised(d, op)) && Poised(d, op).lines == d.session.buf.lines
    ensures !op.RangeDelete? ==> Fine(Poised(d, op))
  {
  }

  /** Edits that go on from one another: each saves what it finds and leaves a text in order. */
  ghost predicate Sound(b: Buf, cs: seq<Change>)
    decreases |cs|
  {
    cs == [] || (cs[0].snap == b && Storable(b) && Fine(cs[0].after) && Sound(cs[0].after, cs[1..]))
  }

  lemma OneIsSound(b: Buf, after: Buf)
    requires Storable(b) && Fine(after)
    ensures Sound(b, [Change(b, after)])
  {
    assert [Change(b, after)][1..] == [];
  }

  lemma {:induction false} InsertionsAreSound(b: Buf, text: string)
    requires Fine(b) && OneLine(text)
    ensures Sound(b, Insertions(b, text))
    decreases |text|
  {
    hide InsertBytes, OneLine;
    if text != "" {
      assert OneLine([text[0]]) && OneLine(text[1..]) by { PartsOfLine(text); }
      InsertIsTextual(b, [text[0]]);
      var after := InsertBytes(b, [text[0]]);
      InsertionsAreSound(after, text[1..]);
      assert Insertions(b, text)[1..] == Insertions(after, text[1..]);
    }
  }

  lemma PartsOfLine(text: string)
    requires OneLine(text) && text != ""
    ensures OneLine([text[0]]) && OneLine(text[1..])
  {
  }

  lemma EditedIsFine(d: Desk, op: Op)
    requires DeskFine(d) && Allowed(d, op) && EditedBy(d, op).Some?
    ensures Fine(EditedBy(d, op).value)
  {
    var b := Poised(d, op);
    PoisedIsStorable(d, op);
    hide InsertBytes, Newline, Backspace, EraseNext, DeleteLines, DeleteVisual, PasteText, PasteLines;
    hide ReplaceRange, CompleteTui, CompleteShell, Fits, Clean, Poised;
    match op
    case Typed(bytes) => InsertIsTextual(b, bytes);
    case NewlineKey => NewlineIsTextual(b);
    case OpenKey => NewlineIsTextual(b);
    case BackspaceKey => BackspaceIsTextual(b);
    case EraseKey => EraseNextIsTextual(b);
    case DeleteKey(count) => DeleteLinesKeepsTheOthers(b, count);
    case RangeDelete(from) => DeleteLinesKeepsTheOthers(b, Max(from, d.session.buf.row) - b.row + 1);
    case VisualLineDelete => DeleteLinesKeepsTheOthers(b, Max(d.anchor.row, d.session.buf.row) - b.row + 1);
    case DeleteSelection => DeleteVisualIsTextual(b, d.anchor);
    case PasteKey(above) => PasteByKeyIsFine(d, op);
    case _ => CompletionByKeyIsFine(d, op);
  }

  lemma PasteByKeyIsFine(d: Desk, op: Op)
    requires DeskFine(d) && Allowed(d, op) && op.PasteKey? && EditedBy(d, op).Some?
    ensures Fine(EditedBy(d, op).value)
  {
    var b := Poised(d, op);
    PoisedIsStorable(d, op);
    hide PasteText, PasteLines, Fits, Clean, Poised;
    if d.chars.Some? { PasteIsTextual(b, d.chars.value); } else { PasteLinesIsFine(b, d.lineClip, op.above); }
  }

  lemma CompletionByKeyIsFine(d: Desk, op: Op)
    requires DeskFine(d) && Allowed(d, op) && (op.ReplaceKey? || op.TuiKey? || op.ShellKey?)
    ensures EditedBy(d, op).Some? && Fine(EditedBy(d, op).value)
  {
    var b := d.session.buf;
    hide ReplaceRange, CompleteTui, CompleteShell, Fine;
    match op
    case ReplaceKey(start, end, text) => ReplaceRangeIsFine(b, start, end, text);
    case TuiKey(start, end) =>
      CompletedIsFine(b, start, end);
      ReplaceRangeIsFine(b, start, end, "@tui ");
    case ShellKey(start, end, isFor) =>
      CompletedIsFine(b, start, end);
      ReplaceRangeIsFine(b, start, end, if isFor then "for " else "if ");
  }

  lemma ChangesAreSound(d: Desk, op: Op)
    requires DeskFine(d) && Allowed(d, op)
    ensures Sound(Poised(d, op), ChangesBy(d, op))
  {
    PoisedIsStorable(d, op);
    hide EditedBy, Poised, Fine, Storable, DeskFine;
    if op.TemplateKey? {
      InsertionsAreSound(Poised(d, op), op.text);
    } else if EditedBy(d, op).Some? {
      EditedIsFine(d, op);
      OneIsSound(Poised(d, op), EditedBy(d, op).value);
    }
  }

  /** Edits that go on from one another keep the session in order. */
  lemma {:induction false} SoundEdits(s: Session, cs: seq<Change>)
    requires Kept(s.stack) && Sound(s.buf, cs)
    ensures var after := Edits(s, cs);
            && Kept(after.stack)
            && (cs != [] ==> Fine(after.buf)) && (cs == [] ==> after == s)
    ensures SavesLines(s, cs)
    decreases |cs|
  {
    hide Fine, Storable, Push, Kept;
    if cs != [] {
      var next := Edit(s, cs[0]);
      PushKeeps(s.stack, cs[0].snap);
      SoundEdits(next, cs[1..]);
      forall i | 0 <= i < |cs|
        ensures cs[i].snap.lines == LinesBefore(s, cs, i)
      {
        if i > 0 { assert cs[1..][i - 1].snap.lines == LinesBefore(next, cs[1..], i - 1); }
      }
    }
  }

  lemma RestoredIsFine(b: Buf)
    requires Storable(b)
    ensures Fine(Restored(b))
  {
  }

  lemma ApplyIsFine(d: Desk, op: Op)
    requires DeskFine(d) && Allowed(d, op)
    ensures DeskFine(Apply(d, op))
  {
    PoisedIsStorable(d, op);
    ChangesAreSound(d, op);
    SoundEdits(Session(Poised(d, op), d.session.stack), ChangesBy(d, op));
    if op.UndoKey? && d.session.stack != [] {
      PopKeeps(d.session.stack);
      RestoredIsFine(d.session.stack[|d.session.stack| - 1]);
    }
    if op.RangeDelete? { assert ChangesBy(d, op) != []; }
    CopiedIsFine(d, op);
    hide ChangesBy, Poised, Fine, Storable, Kept, Selected, Edits, Restored, Sound, LinesFrom;
    NothingIsClean();
  }

  lemma NothingIsClean()
    ensures Clean([])
  {
  }

  lemma CopiedIsFine(d: Desk, op: Op)
    requires DeskFine(d) && Allowed(d, op)
    ensures var clip := Apply(d, op).lineClip; Clean(clip) && |clip| <= EDITOR_LINES
  {
    hide ChangesBy, Poised, Selected, Edits, Restored;
  }

  // ---------------------------------------------------------------- keys and undo

  /** The keys that move the cursor before they save: `p` of characters and `o` in front of the
      line's end, a range of lines that begins above the cursor, and a visual range of lines
      unless the cursor is at the start of its first line. */
  predicate MovesFirst(d: Desk, op: Op)
    requires DeskFine(d)
  {
    var b := d.session.buf;
    match op
    case PasteKey(above) => !above && d.chars.Some? && b.col < |b.lines[b.row]|
    case OpenKey => b.col < |b.lines[b.row]|
    case RangeDelete(from) => from < b.row
    case VisualLineDelete => d.anchor.row < b.row || b.col > 0
    case _ => false
  }

  lemma MovesFirstIff(d: Desk, op: Op)
    requires DeskFine(d) && Allowed(d, op) && !op.MoveKey?
    ensures Restored(Poised(d, op)) == d.session.buf <==> !MovesFirst(d, op)
  {
  }

  lemma FirstSnapshot(d: Desk, op: Op)
    requires DeskFine(d) && Allowed(d, op) && ChangesBy(d, op) != []
    ensures ChangesBy(d, op)[0].snap == Poised(d, op) && !op.MoveKey?
  {
    hide Poised, InsertBytes, DeskFine;
  }

  /** Every key but undo leaves a stack that grew by its edits alone, each of them saving the lines
      it found.  The first snapshot shows the cursor as it was if and only if the key did not
      move it before. */
  lemma ApplyIsEdit(d: Desk, op: Op)
    requires DeskFine(d) && Allowed(d, op) && !op.UndoKey?
    ensures var cs, after := ChangesBy(d, op), Apply(d, op).session;
            && SavesLines(d.session, cs)
            && after.stack == Edits(d.session, cs).stack && after.buf.lines == Edits(d.session, cs).buf.lines
            && (cs != [] ==> (Restored(cs[0].snap) == d.session.buf <==> !MovesFirst(d, op)))
            && |cs| == (if op.TemplateKey? then |op.text| else if EditedBy(d, op).Some? then 1 else 0)
  {
    var start := Session(Poised(d, op), d.session.stack);
    PoisedIsStorable(d, op);
    ChangesAreSound(d, op);
    SoundEdits(start, ChangesBy(d, op));
    SameStart(start, d.session, ChangesBy(d, op));
    if op.TemplateKey? { OneForEach(Poised(d, op), op.text); }
    if ChangesBy(d, op) != [] {
      FirstSnapshot(d, op);
      MovesFirstIff(d, op);
    }
    hide EditedBy, Poised, Fine, Storable, Selected, Edits, Restored, Sound, MovesFirst, Insertions;
  }

  lemma {:induction false} OneForEach(b: Buf, text: string)
    requires Fine(b) && OneLine(text)
    ensures |Insertions(b, text)| == |text|
    decreases |text|
  {
    hide InsertBytes, OneLine;
    if text != "" {
      PartsOfLine(text);
      InsertIsTextual(b, [text[0]]);
      OneForEach(InsertBytes(b, [text[0]]), text[1..]);
    }
  }

  /** Keys that may be pressed one after the other. */
  ghost predicate Playable(d: Desk, ops: seq<Op>)
    requires DeskFine(d)
    decreases |ops|
  {
    ops == [] || (Allowed(d, ops[0]) && (ApplyIsFine(d, ops[0]); Playable(Apply(d, ops[0]), ops[1..])))
  }

  ghost function ApplyAll(d: Desk, ops: seq<Op>): (r: Desk)
    requires DeskFine(d) && Playable(d, ops)
    ensures DeskFine(r)
    decreases |ops|
  {
    if ops == [] then d
    else
      ApplyIsFine(d, ops[0]);
      ApplyAll(Apply(d, ops[0]), ops[1..])
  }

  /** The edits among some keys, in order. */
  ghost function ChangesOf(d: Desk, ops: seq<Op>): seq<Change>
    requires DeskFine(d) && Playable(d, ops)
    decreases |ops|
  {
    if ops == [] then []
    else
      ApplyIsFine(d, ops[0]);
      (if ops[0].UndoKey? then [] else ChangesBy(d, ops[0])) + ChangesOf(Apply(d, ops[0]), ops[1..])
  }

  predicate NoUndo(ops: seq<Op>) {
    forall i :: 0 <= i < |ops| ==> !ops[i].UndoKey?
  }

  /** The editor just before the first edit among the keys, and the key that makes it. */
  ghost function FirstEdit(d: Desk, ops: seq<Op>): (r: Option<(Desk, Op)>)
    requires DeskFine(d) && Playable(d, ops)
    ensures r.Some? ==> DeskFine(r.value.0)
    decreases |ops|
  {
    if ops == [] then None
    else if !ops[0].UndoKey? && ChangesBy(d, ops[0]) != [] then Some((d, ops[0]))
    else
      ApplyIsFine(d, ops[0]);
      FirstEdit(Apply(d, ops[0]), ops[1..])
  }

  /** Keys without undo are their edits, as far as lines and stack are concerned. */
  lemma {:induction false} KeysAreEdits(d: Desk, ops: seq<Op>)
    requires DeskFine(d) && Playable(d, ops) && NoUndo(ops)
    ensures var cs, after := ChangesOf(d, ops), ApplyAll(d, ops).session;
            && SavesLines(d.session, cs)
            && after.stack == Edits(d.session, cs).stack && after.buf.lines == Edits(d.session, cs).buf.lines
            && (cs == [] <==> FirstEdit(d, ops).None?)
            && (cs != [] ==> (Restored(cs[0].snap) == FirstEdit(d, ops).value.0.session.buf
                              <==> !MovesFirst(FirstEdit(d, ops).value.0, FirstEdit(d, ops).value.1)))
    decreases |ops|
  {
    hide Apply, ChangesBy, MovesFirst, Fine, DeskFine, Allowed, SavesLines, Restored;
    if ops == [] {
      NoEdits(d.session);
    } else {
      var op := ops[0];
      ApplyIsFine(d, op);
      ApplyIsEdit(d, op);
      KeysAreEdits(Apply(d, op), ops[1..]);
      MoreEdits(d.session, ChangesBy(d, op), Apply(d, op).session, ChangesOf(Apply(d, op), ops[1..]));
    }
  }

  lemma NoEdits(s: Session)
    ensures SavesLines(s, []) && Edits(s, []) == s
  {
  }

  lemma MoreEdits(s: Session, cs: seq<Change>, t: Session, rest: seq<Change>)
    requires SavesLines(s, cs) && SavesLines(t, rest)
    requires t.stack == Edits(s, cs).stack && t.buf.lines == Edits(s, cs).buf.lines
    ensures SavesLines(s, cs + rest)
    ensures Edits(s, cs + rest).stack == Edits(t, rest).stack
            && Edits(s, cs + rest).buf.lines == Edits(t, rest).buf.lines
  {
    hide Edits;
    EditsJoin(s, cs, rest);
    SameStart(t, Edits(s, cs), rest);
    EditsEnd(s, cs);
    var all := cs + rest;
    forall i | 0 <= i < |all|
      ensures all[i].snap.lines == LinesBefore(s, all, i)
    {
      if i < |cs| {
        assert cs[i].snap.lines == LinesBefore(s, cs, i);
      } else {
        assert rest[i - |cs|].snap.lines == LinesBefore(t, rest, i - |cs|);
      }
    }
  }

  lemma {:induction false} EditsEnd(s: Session, cs: seq<Change>)
    ensures Edits(s, cs).buf == if cs == [] then s.buf else cs[|cs| - 1].after
    decreases |cs|
  {
    if cs != [] { EditsEnd(Edit(s, cs[0]), cs[1..]); }
  }

  /** What edits do to lines and stack does not depend on the cursor. */
  lemma SameStart(s: Session, other: Session, cs: seq<Change>)
    requires s.stack == other.stack && s.buf.lines == other.buf.lines && SavesLines(s, cs)
    ensures SavesLines(other, cs)
    ensures Edits(s, cs).stack == Edits(other, cs).stack && Edits(s, cs).buf.lines == Edits(other, cs).buf.lines
  {
    if cs != [] { assert Edit(s, cs[0]) == Edit(other, cs[0]); }
    forall i | 0 <= i < |cs|
      ensures cs[i].snap.lines == LinesBefore(other, cs, i)
    {
      assert cs[i].snap.lines == LinesBefore(s, cs, i);
    }
  }

  lemma UndosNeedTheStack(s: Session, other: Session, n: nat)
    requires s.stack == other.stack && 1 <= n <= |s.stack|
    ensures Undos(s, n) == Undos(other, n)
  {
    UndosPop(s, n);
    UndosPop(other, n);
  }

  /** Any keys with n edits among them, n up to 32, then n undos: always the lines of the start;
      and the cursor just before the first edit if and only if the key that made it did not
      move it before. */
  lemma KeysThenUndos(d: Desk, ops: seq<Op>)
    requires DeskFine(d) && Playable(d, ops) && NoUndo(ops)
    requires 1 <= |ChangesOf(d, ops)| <= EDITOR_UNDO_DEPTH
    ensures var back := Undos(ApplyAll(d, ops).session, |ChangesOf(d, ops)|).buf;
            var first := FirstEdit(d, ops);
            && back.lines == d.session.buf.lines
            && first.Some? && first.value.0.session.buf.lines == d.session.buf.lines
            && (back == first.value.0.session.buf <==> !MovesFirst(first.value.0, first.value.1))
  {
    hide Apply, ChangesBy, MovesFirst, Undos, Edits, Fine, Playable, Restored;
    var cs, after := ChangesOf(d, ops), ApplyAll(d, ops).session;
    KeysAreEdits(d, ops);
    FirstEditFindsLines(d, ops);
    UndoInvertsEdits(d.session, cs);
    UndoGoesBack(d.session, cs, |cs|);
    StackEnd(d.session, cs, |cs|);
    UndosNeedTheStack(after, Edits(d.session, cs), |cs|);
  }

  lemma {:induction false} FirstEditFindsLines(d: Desk, ops: seq<Op>)
    requires DeskFine(d) && Playable(d, ops) && NoUndo(ops)
    ensures FirstEdit(d, ops).Some? ==> FirstEdit(d, ops).value.0.session.buf.lines == d.session.buf.lines
    decreases |ops|
  {
    hide Apply, ChangesBy, Fine, DeskFine, Allowed;
    if ops != [] && ChangesBy(d, ops[0]) == [] {
      ApplyIsFine(d, ops[0]);
      ApplyIsEdit(d, ops[0]);
      FirstEditFindsLines(Apply(d, ops[0]), ops[1..]);
    }
  }

  /** The cursor that does not come back: `p` of one character at the start of "ab". */
  lemma PasteMovesTheCursorBack()
    ensures var d := Desk(Session(Buf(["ab"], 0, 0), []), Some("x"), [], Point(0, 0));
            && DeskFine(d) && Allowed(d, PasteKey(false))
            && Undo(Apply(d, PasteKey(false)).session) == Session(Buf(["ab"], 0, 1), [])
  {
    var d := Desk(Session(Buf(["ab"], 0, 0), []), Some("x"), [], Point(0, 0));
    assert d.session.buf.lines[0] == "ab" && CharLen("ab", 0) == 1;
    SplitOneLine("x");
    assert Poised(d, PasteKey(false)) == Buf(["ab"], 0, 1);
  }

  /** `o` at the start of "ab", and its undo: the cursor is at the line's end. */
  lemma OpenMovesTheCursor()
    ensures var d := Desk(Session(Buf(["ab"], 0, 0), []), None, [], Point(0, 0));
            && DeskFine(d) && Allowed(d, OpenKey)
            && Undo(Apply(d, OpenKey).session) == Session(Buf(["ab"], 0, 2), [])
  {
    var d := Desk(Session(Buf(["ab"], 0, 0), []), None, [], Point(0, 0));
    assert Poised(d, OpenKey) == Buf(["ab"], 0, 2);
  }

  /** A range of lines deleted from its last line: the snapshot has a column that its line does
      not have, and undo goes to that line's end. */
  lemma RangeSavesAColumnBeyondItsLine()
    ensures var d := Desk(Session(Buf(["a", "abc"], 1, 3), []), None, [], Point(0, 0));
            && DeskFine(d) && Allowed(d, RangeDelete(0))
            && Apply(d, RangeDelete(0)).session == Session(Buf([""], 0, 0), [Buf(["a", "abc"], 0, 3)])
            && Undo(Apply(d, RangeDelete(0)).session) == Session(Buf(["a", "abc"], 0, 1), [])
  {
    var d := Desk(Session(Buf(["a", "abc"], 1, 3), []), None, [], Point(0, 0));
    assert Poised(d, RangeDelete(0)) == Buf(["a", "abc"], 0, 3);
    assert Without(["a", "abc"], 0, 2) == [""];
  }

  /** A template's text stands as if it had been typed at once. */
  lemma {:induction false} InsertionsAreInsertion(b: Buf, text: string, stack: seq<Buf>)
    requires Fine(b) && OneLine(text) && text != ""
    ensures Edits(Session(b, stack), Insertions(b, text)).buf == InsertBytes(b, text)
    decreases |text|
  {
    var first, more := [text[0]], text[1..];
    PartsOfLine(text);
    InsertIsTextual(b, first);
    var after := InsertBytes(b, first);
    assert Insertions(b, text)[1..] == Insertions(after, more);
    hide InsertBytes, OneLine, Fine;
    if more == "" {
      assert text == first;
    } else {
      InsertionsAreInsertion(after, more, Push(stack, b));
      InsertTwice(b, first, more);
      assert first + more == text;
    }
  }

  lemma InsertTwice(b: Buf, s: string, t: string)
    requires Fine(b) && OneLine(s) && OneLine(t)
    ensures Fine(InsertBytes(b, s)) && InsertBytes(InsertBytes(b, s), t) == InsertBytes(b, s + t)
  {
    InsertIsTextual(b, s);
    InsertForm(b, s);
    InsertForm(b, s + t);
    InsertForm(InsertBytes(b, s), t);
    hide InsertBytes, Fine;
    SpliceTwice(b.lines[b.row], b.col, s, t);
  }

  lemma InsertForm(b: Buf, s: string)
    requires Fine(b)
    ensures var line := b.lines[b.row];
            InsertBytes(b, s) == Buf(b.lines[b.row := line[..b.col] + s + line[b.col..]], b.row, b.col + |s|)
  {
    OneLineForm(b, Cursor(b), Cursor(b), s);
  }

  lemma SpliceTwice(line: string, col: nat, s: string, t: string)
    requires col <= |line|
    ensures var once := line[..col] + s + line[col..];
            once[..col + |s|] + t + once[col + |s|..] == line[..col] + (s + t) + line[col..]
  {
    var once := line[..col] + s + line[col..];
    assert once[..col + |s|] == line[..col] + s && once[col + |s|..] == line[col..];
  }
}
