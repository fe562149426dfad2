/** What the keys that type and erase do to the text of the editor. */
module EditorTyping {
  import opened Options
  import opened EditorText
  import opened EditorEdits
  import opened EditorChars
  import opened EditorUndo
  import opened EditorKeys

  /** In the joined lines bytes are put at an offset, and the cursor stands behind them. */
  predicate Puts(b: Buf, after: Buf, at: nat, bytes: string)
    requires Fine(b)
  {
    var text := Joined(b.lines);
    && Fine(after) && at <= |text| && Joined(after.lines) == text[..at] + bytes + text[at..]
    && At(after) == at + |bytes|
  }

  /** Bytes are taken away behind an offset, where the cursor then stands. */
  predicate Takes(b: Buf, after: Buf, at: int, bytes: string)
    requires Fine(b)
  {
    var text := Joined(b.lines);
    && Fine(after) && 0 <= at && at + |bytes| <= |text| && text[at..at + |bytes|] == bytes
    && Joined(after.lines) == text[..at] + text[at + |bytes|..] && At(after) == at
  }

  // ---------------------------------------------------------------- the text

  lemma NewlinePuts(b: Buf)
    requires Fine(b) && |b.lines| < 160
    ensures Puts(b, Newline(b), At(b), "\n" + Indent(b.lines[b.row]))
  {
    hide Newline, Joined, Clean, At, Indent;
    NewlineIsTextual(b);
  }

  lemma InsertPuts(b: Buf, bytes: string)
    requires Fine(b) && OneLine(bytes)
    ensures Puts(b, InsertBytes(b, bytes), At(b), bytes)
  {
    hide InsertBytes, Joined, Clean, At;
    InsertIsTextual(b, bytes);
  }

  lemma BackspaceTakesNewline(b: Buf)
    requires Fine(b) && b.row > 0 && b.col == 0
    ensures Takes(b, Backspace(b), At(b) - 1, "\n")
  {
    hide Backspace, Joined, Clean, At;
    BackspaceIsTextual(b);
    assert |Joined(b.lines)[At(Backspace(b))..At(b)]| == 1;
  }

  lemma BackspaceTakesCharacter(b: Buf, front: string, c: nat, rest: string)
    requires Fine(b) && c < 0x11_0000 && b.lines[b.row] == front + Utf8(c) + rest && b.col == |front| + |Utf8(c)|
    ensures Takes(b, Backspace(b), At(b) - |Utf8(c)|, Utf8(c))
  {
    hide Backspace, Joined, Clean, At, Utf8, PrevIndex;
    BackspaceIsTextual(b);
    PrevIsOneCharacter(front, c, rest);
    assert b.lines[b.row][|front|..b.col] == Utf8(c);
  }

  lemma EraseTakesCharacter(b: Buf, front: string, c: nat, rest: string)
    requires Fine(b) && c < 0x11_0000 && b.lines[b.row] == front + Utf8(c) + rest && b.col == |front|
    ensures b.col < |b.lines[b.row]| && Takes(b, EraseNext(b), At(b), Utf8(c))
  {
    hide EraseNext, Joined, Clean, Utf8, NextIndex, At;
    EraseNextIsTextual(b);
    NextIsOneCharacter(front, c, rest);
    assert b.lines[b.row][|front|..|front| + |Utf8(c)|] == Utf8(c);
  }

  lemma DeleteTakesSelection(b: Buf, anchor: Point)
    requires Fine(b)
    ensures Fine(DeleteVisual(b, anchor))
    ensures Takes(b, DeleteVisual(b, anchor), At(DeleteVisual(b, anchor)), Selected(b, anchor))
  {
    hide DeleteVisual, Selected, Joined, Clean, At;
    DeleteVisualIsTextual(b, anchor);
  }

  // ---------------------------------------------------------------- the keys

  predicate Types(op: Op) {
    op.Typed? || op.TemplateKey? || op.NewlineKey? || op.OpenKey? || op.BackspaceKey? || op.EraseKey?
  }

  /** Typing and erasing leave clipboards and anchor alone. */
  lemma OnlySession(d: Desk, op: Op)
    requires DeskFine(d) && Allowed(d, op) && Types(op)
    ensures Apply(d, op) == d.(session := Apply(d, op).session)
  {
    hide Edits, Poised, ChangesBy, Clean, Kept;
  }

  /** A key that edits nothing. */
  lemma NoEdit(d: Desk, op: Op)
    requires DeskFine(d) && Allowed(d, op) && Types(op) && !op.TemplateKey? && !op.OpenKey? && EditedBy(d, op).None?
    ensures Apply(d, op) == d
  {
    OnlySession(d, op);
    hide Apply, EditedBy, Clean, Kept;
    AppliedOnce(d, op);
  }

  lemma OneEdit(d: Desk, op: Op, after: Buf)
    requires DeskFine(d) && Allowed(d, op) && Types(op) && !op.TemplateKey? && EditedBy(d, op) == Some(after)
    ensures Apply(d, op).session.buf == after
  {
    hide Apply, EditedBy, Clean, Kept;
    AppliedOnce(d, op);
  }

  /** Typing puts the bytes at the cursor. */
  lemma TypedBytes(d: Desk, bytes: string)
    requires DeskFine(d) && OneLine(bytes)
    ensures bytes != "" ==> Puts(d.session.buf, Apply(d, Typed(bytes)).session.buf, At(d.session.buf), bytes)
    ensures bytes == "" ==> Apply(d, Typed(bytes)) == d
  {
    hide Apply, InsertBytes, Puts, Clean, Kept, At;
    if bytes == "" {
      NoEdit(d, Typed(bytes));
    } else {
      OneEdit(d, Typed(bytes), InsertBytes(d.session.buf, bytes));
      InsertPuts(d.session.buf, bytes);
    }
  }

  /** A template is put as it stands. */
  lemma TypedTemplate(d: Desk, text: string)
    requires DeskFine(d) && OneLine(text)
    ensures text != "" ==> Puts(d.session.buf, Apply(d, TemplateKey(text)).session.buf, At(d.session.buf), text)
    ensures text == "" ==> Apply(d, TemplateKey(text)) == d
  {
    OnlySession(d, TemplateKey(text));
    TemplateEdits(d, text);
    hide Apply, Insertions, InsertBytes, Puts, Clean, Kept, At, Edits;
    if text != "" {
      InsertionsAreInsertion(d.session.buf, text, d.session.stack);
      InsertPuts(d.session.buf, text);
    }
  }

  lemma TemplateEdits(d: Desk, text: string)
    requires DeskFine(d) && OneLine(text)
    ensures Apply(d, TemplateKey(text)).session == Edits(d.session, Insertions(d.session.buf, text))
    ensures text == "" ==> Apply(d, TemplateKey(text)).session == d.session
  {
    hide EditedBy, Clean, Kept;
  }

  /** Return puts a newline and the indentation of the line, unless there are 160 lines. */
  lemma TypedNewline(d: Desk)
    requires DeskFine(d)
    ensures var b, after := d.session.buf, Apply(d, NewlineKey);
            if |b.lines| < 160 then Puts(b, after.session.buf, At(b), "\n" + Indent(b.lines[b.row])) else after == d
  {
    hide Apply, Newline, Puts, Clean, Kept, At, Indent;
    if |d.session.buf.lines| < 160 {
      OneEdit(d, NewlineKey, Newline(d.session.buf));
      NewlinePuts(d.session.buf);
    } else {
      NoEdit(d, NewlineKey);
    }
  }

  /** The key o puts them at the end of the line. */
  lemma OpenedLine(d: Desk)
    requires DeskFine(d)
    ensures var b, after := d.session.buf, Apply(d, OpenKey).session;
            if |b.lines| < 160 then Puts(b, after.buf, Offset(b.lines, Point(b.row, |b.lines[b.row]|)),
                                         "\n" + Indent(b.lines[b.row]))
            else after == Session(b.(col := |b.lines[b.row]|), d.session.stack)
  {
    var end := Poised(d, OpenKey);
    if |d.session.buf.lines| < 160 {
      NewlinePuts(end);
      hide Apply, Newline, Joined, Clean, Kept, Offset, Indent;
      OneEdit(d, OpenKey, Newline(end));
    } else {
      hide Apply, Newline, Clean, Kept;
      AppliedOnce(d, OpenKey);
    }
  }

  /** Backspace behind a whole character takes just that one. */
  lemma BackspacedCharacter(d: Desk, front: string, c: nat, rest: string)
    requires DeskFine(d) && c < 0x11_0000
    requires var b := d.session.buf; b.lines[b.row] == front + Utf8(c) + rest && b.col == |front| + |Utf8(c)|
    ensures Takes(d.session.buf, Apply(d, BackspaceKey).session.buf, At(d.session.buf) - |Utf8(c)|, Utf8(c))
  {
    hide Apply, Backspace, Takes, Clean, Kept, At, Utf8;
    BackspaceTakesCharacter(d.session.buf, front, c, rest);
    OneEdit(d, BackspaceKey, Backspace(d.session.buf));
  }

  /** At the start of a line it takes the newline before it, and at the start of the text nothing. */
  lemma BackspacedLine(d: Desk)
    requires DeskFine(d) && d.session.buf.col == 0
    ensures var b, after := d.session.buf, Apply(d, BackspaceKey);
            if b.row == 0 then after == d else Takes(b, after.session.buf, At(b) - 1, "\n")
  {
    var b := d.session.buf;
    hide Apply, Backspace, Takes, Clean, Kept, At;
    if b.row == 0 {
      NoEdit(d, BackspaceKey);
    } else {
      BackspaceTakesNewline(b);
      OneEdit(d, BackspaceKey, Backspace(b));
    }
  }

  /** x takes the character under the cursor, and at the end of a line nothing. */
  lemma Erased(d: Desk, front: string, c: nat, rest: string)
    requires DeskFine(d) && c < 0x11_0000
    ensures var b, after := d.session.buf, Apply(d, EraseKey);
            && (b.col == |b.lines[b.row]| ==> after == d)
            && (b.lines[b.row] == front + Utf8(c) + rest && b.col == |front| ==>
                  Takes(b, after.session.buf, At(b), Utf8(c)))
  {
    var b := d.session.buf;
    hide Apply, EraseNext, Takes, Clean, Kept, At, Utf8;
    if b.col == |b.lines[b.row]| {
      NoEdit(d, EraseKey);
    } else if b.lines[b.row] == front + Utf8(c) + rest && b.col == |front| {
      EraseTakesCharacter(b, front, c, rest);
      OneEdit(d, EraseKey, EraseNext(b));
    }
  }

  /** Moves and the start of a selection change no text. */
  lemma Moved(d: Desk, to: Point)
    requires DeskFine(d) && Inside(d.session.buf.lines, to)
    ensures Apply(d, MoveKey(to)) == d.(session := d.session.(buf := Buf(d.session.buf.lines, to.row, to.col)))
    ensures Apply(d, VisualKey) == d.(anchor := Cursor(d.session.buf))
  {
    AppliedOnce(d, MoveKey(to));
    AppliedOnce(d, VisualKey);
  }

  /** A selection that is copied is in the clipboard; one that is deleted is there too, and gone from
      the text. */
  lemma TakenSelection(d: Desk)
    requires DeskFine(d)
    ensures var b, copied, cut := d.session.buf, Apply(d, CopySelection), Apply(d, DeleteSelection);
            && copied == Desk(d.session, Some(Selected(b, d.anchor)), [], d.anchor)
            && cut == copied.(session := cut.session) && Fine(cut.session.buf)
            && Takes(b, cut.session.buf, At(cut.session.buf), Selected(b, d.anchor))
  {
    hide DeleteVisual, Selected, Takes, Clean, Kept, At, Push;
    DeleteTakesSelection(d.session.buf, d.anchor);
    AppliedOnce(d, CopySelection);
    AppliedOnce(d, DeleteSelection);
  }
}
