/** The script editor: an array of lines and a cursor that every edit changes in place, and an
    array of undo slots. */
module Editor {
  import opened Options
  import opened EditorText
  import opened EditorEdits
  import opened EditorForms
  import opened EditorUndo
  import EditorKeys

  class Editor {
    const lines: array<string>
    var count: nat
    var row: int
    var col: int
    const undo: array<Buf>
    var undoCount: nat
    var charClipboard: Option<string>
    var clipboard: seq<string>
    var anchor: Point
    var dirty: bool

    predicate Sized()
      reads this`count, this`undoCount
    {
      lines.Length == EDITOR_LINES && undo.Length == EDITOR_UNDO_DEPTH
      && count <= EDITOR_LINES && undoCount <= EDITOR_UNDO_DEPTH
    }

    function Text(): Buf
      reads this`count, this`row, this`col, lines
      requires lines.Length == EDITOR_LINES && count <= EDITOR_LINES
    {
      Buf(lines[..count], row, col)
    }

    function Stack(): seq<Buf>
      reads this`undoCount, undo
      requires undo.Length == EDITOR_UNDO_DEPTH && undoCount <= EDITOR_UNDO_DEPTH
    {
      undo[..undoCount]
    }

    /** In order, but for the cursor's column. */
    ghost predicate Steady()
      reads this, lines, undo
    {
      && Sized() && Storable(Text())
      && Kept(Stack())
      && |clipboard| <= EDITOR_LINES && Clean(clipboard)
    }

    ghost predicate Valid()
      reads this, lines, undo
    {
      Steady() && Fine(Text())
    }

    constructor (text: string)
      ensures Valid() && fresh(lines) && fresh(undo) && Stack() == [] && !dirty
      ensures charClipboard == None && clipboard == []
      ensures Text() == Buf(Split(text)[..Clamp(|Split(text)|, 1, EDITOR_LINES)], 0, 0)
    {
      lines := new string[EDITOR_LINES](_ => "");
      undo := new Buf[EDITOR_UNDO_DEPTH](_ => Buf([""], 0, 0));
      count, row, col, undoCount, dirty := 0, 0, 0, 0, false;
      charClipboard, clipboard, anchor := None, [], Point(0, 0);
      new;
      hide Split;
      Load(text);
      assert Inside(Text().lines, Point(0, 0)) && Clean(lines[..count]);
    }

    /** load_editor_text: the lines of a text, as many of them as there is room for. */
    method Load(text: string)
      requires Sized()
      modifies this`count, this`row, this`col, lines
      ensures Sized() && Text() == Buf(Split(text)[..Clamp(|Split(text)|, 1, EDITOR_LINES)], 0, 0)
    {
      hide Split, OneLine;
      ghost var parts := Split(text);
      count, row, col := 0, 0, 0;
      var start, more := 0, true;
      assert text[0..] == text && parts[0..] == parts;
      while count < EDITOR_LINES && more
        invariant 0 <= count <= EDITOR_LINES && count <= |parts| && start <= |text|
        invariant more ==> count < |parts| && Split(text[start..]) == parts[count..]
        invariant !more ==> count == |parts|
        invariant lines[..count] == parts[..count]
        modifies this`count, lines
        decreases EDITOR_LINES - count
      {
        var nl := NextBreak(text, start);
        NextPart(text, start, nl, parts, count);
        lines[count] := text[start..nl];
        count := count + 1;
        if nl < |text| { start := nl + 1; } else { more := false; }
      }
    }

    // -------------------------------------------------------------- the array of lines

    /** Moves the lines from `at` on n places down. */
    method OpenGap(at: nat, n: nat)
      requires Sized() && at <= count && count + n <= EDITOR_LINES
      modifies lines
      ensures lines[..at] == old(lines[..at])
      ensures lines[at + n..count + n] == old(lines[at..count])
    {
      var r := count;
      while r > at
        invariant at <= r <= count
        invariant forall i :: 0 <= i < r ==> lines[i] == old(lines[i])
        invariant forall i :: r + n <= i < count + n ==> lines[i] == old(lines[i - n])
      {
        r := r - 1;
        lines[r + n] := lines[r];
      }
    }

    /** Moves the lines after `at` + n up to `at`. */
    method CloseGap(at: nat, n: nat)
      requires Sized() && at + n <= count
      modifies lines
      ensures lines[..count - n] == old(lines[..count])[..at] + old(lines[..count])[at + n..]
    {
      ghost var was := lines[..];
      var r := at;
      while r + n < count
        invariant at <= r <= count - n
        invariant forall i :: 0 <= i < at ==> lines[i] == was[i]
        invariant forall i :: at <= i < r ==> lines[i] == was[i + n]
        invariant forall i :: r <= i < lines.Length ==> lines[i] == was[i]
      {
        lines[r] := lines[r + n];
        r := r + 1;
      }
      assert r == count - n;
      GapClosed(was, lines[..], at, n, count);
      assert lines[..][..count - n] == lines[..count - n] && was[..count] == old(lines[..count]);
    }

    /** editor_insert_empty_line */
    method InsertEmptyLine(at: int) returns (ok: bool)
      requires Sized()
      modifies this`count, lines
      ensures ok <==> old(count) < EDITOR_LINES
      ensures !ok ==> count == old(count) && lines[..count] == old(lines[..count])
      ensures ok ==> Sized() && var i := Clamp(at, 0, old(count));
                lines[..count] == old(lines[..count])[..i] + [""] + old(lines[..count])[i..]
    {
      if count >= EDITOR_LINES { return false; }
      var i := Clamp(at, 0, count);
      ghost var was := lines[..count];
      OpenGap(i, 1);
      assert lines[..i] == was[..i] && lines[i + 1..count + 1] == was[i..];
      PutEmpty(i);
      count := count + 1;
      ok := true;
    }

    method PutEmpty(i: nat)
      requires Sized() && i <= count < EDITOR_LINES
      modifies lines
      ensures lines[..count + 1] == old(lines[..i]) + [""] + old(lines[i + 1..count + 1])
    {
      lines[i] := "";
      assert lines[..count + 1] == lines[..i] + [lines[i]] + lines[i + 1..count + 1];
    }

    // -------------------------------------------------------------- undo

    /** editor_save_undo */
    method SaveUndo()
      requires Steady()
      modifies this`undoCount, this`dirty, undo
      ensures Steady() && (old(Valid()) ==> Valid()) && dirty && Stack() == Push(old(Stack()), Text())
    {
      PushKeeps(Stack(), Text());
      hide Fine, Storable, Clean, Kept, Push, Text, Stack;
      dirty := true;
      PushSlot(Text());
    }

    method PushSlot(b: Buf)
      requires Sized()
      modifies this`undoCount, undo
      ensures Sized() && Stack() == Push(old(Stack()), b)
    {
      assert |Stack()| == undoCount;
      hide Stack;
      if undoCount >= EDITOR_UNDO_DEPTH {
        DropOldest();
      }
      PutSlot(b);
    }

    method PutSlot(b: Buf)
      requires Sized() && undoCount < EDITOR_UNDO_DEPTH
      modifies this`undoCount, undo
      ensures Sized() && Stack() == old(Stack()) + [b]
    {
      undo[undoCount] := b;
      undoCount := undoCount + 1;
    }

    /** The full stack without its oldest slot. */
    method DropOldest()
      requires Sized() && undoCount == EDITOR_UNDO_DEPTH
      modifies this`undoCount, undo
      ensures Sized() && undoCount == EDITOR_UNDO_DEPTH - 1 && Stack() == old(Stack())[1..]
    {
      ShiftUndo();
      undoCount := EDITOR_UNDO_DEPTH - 1;
    }

    /** The slots one place down. */
    method ShiftUndo()
      requires undo.Length == EDITOR_UNDO_DEPTH
      modifies undo
      ensures undo[..EDITOR_UNDO_DEPTH - 1] == old(undo[..EDITOR_UNDO_DEPTH])[1..]
    {
      ghost var was := undo[..EDITOR_UNDO_DEPTH];
      var i := 1;
      while i < EDITOR_UNDO_DEPTH
        invariant 1 <= i <= EDITOR_UNDO_DEPTH
        invariant forall j :: 0 <= j < i - 1 ==> undo[j] == was[j + 1]
        invariant forall j :: i - 1 <= j < EDITOR_UNDO_DEPTH ==> undo[j] == was[j]
      {
        undo[i - 1] := undo[i];
        i := i + 1;
      }
    }

    /** editor_undo */
    method Undo()
      requires Valid()
      modifies this`count, this`row, this`col, this`undoCount, lines
      ensures Valid()
      ensures Session(Text(), Stack()) == EditorUndo.Undo(Session(old(Text()), old(Stack())))
    {
      if undoCount == 0 { return; }
      PopKeeps(Stack());
      hide Kept;
      undoCount := undoCount - 1;
      var saved := undo[undoCount];
      count := Clamp(|saved.lines|, 1, EDITOR_LINES);
      var r := 0;
      while r < count
        invariant 0 <= r <= count
        invariant forall i :: 0 <= i < r ==> lines[i] == saved.lines[i]
        modifies lines
      {
        lines[r] := saved.lines[r];
        r := r + 1;
      }
      assert lines[..count] == saved.lines;
      row := Clamp(saved.row, 0, count - 1);
      var len := |lines[row]|;
      col := if saved.col > len then len else saved.col;
    }

    // -------------------------------------------------------------- edits

    /** editor_insert_bytes, and editor_insert_char with one byte */
    method InsertBytes(bytes: string)
      requires Valid() && OneLine(bytes)
      modifies this`row, this`col, this`undoCount, this`dirty, lines, undo
      ensures Valid()
      ensures if bytes == "" then Text() == old(Text()) && Stack() == old(Stack())
              else Text() == EditorEdits.InsertBytes(old(Text()), bytes) && Stack() == Push(old(Stack()), old(Text()))
    {
      hide Edited, Clean, Push, WithRows;
      if bytes == "" { return; }
      ghost var b := Text();
      SaveUndo();
      var line := lines[row];
      col := Clamp(col, 0, |line|);
      SetLine(line[..col] + bytes + line[col..]);
      col := col + |bytes|;
      OneLineForm(b, Cursor(b), Cursor(b), bytes);
      InsertIsTextual(b, bytes);
    }

    /** Puts a line break at the cursor; the cursor's line goes on as `nextLine`. */
    method BreakLine(nextLine: string)
      requires Sized() && count < EDITOR_LINES && 0 <= row < count && 0 <= col <= |lines[row]|
      modifies this`count, lines
      ensures Sized()
      ensures lines[..count] == WithRows(old(lines[..count]), row, row, [old(lines[row][..col]), nextLine])
    {
      var line := lines[row];
      ghost var was := lines[..count];
      var _ := InsertEmptyLine(row + 1);
      ghost var gapped := lines[..count];
      assert gapped == was[..row + 1] + [""] + was[row + 1..];
      lines[row] := line[..col];
      lines[row + 1] := nextLine;
      assert lines[..count] == gapped[row := line[..col]][row + 1 := nextLine];
    }

    /** The array part of editor_newline. */
    method BreakAtCursor()
      requires Sized() && Fine(Text()) && count < EDITOR_LINES
      modifies this`count, this`row, this`col, lines
      ensures Sized() && Text() == EditorEdits.Newline(old(Text()))
    {
      ghost var b := Text();
      var line := lines[row];
      col := if col > |line| then |line| else col;
      var indent := Indent(line);
      TwoLineForm(b, Cursor(b), "", indent);
      assert line[..b.col] + "" == line[..b.col];
      hide Fine, Edited, WithRows;
      BreakLine(indent + line[col..]);
      row := row + 1;
      col := |indent|;
    }

    /** editor_newline */
    method Newline()
      requires Valid()
      modifies this`count, this`row, this`col, this`undoCount, this`dirty, lines, undo
      ensures Valid()
      ensures if old(count) >= EDITOR_LINES then Text() == old(Text()) && Stack() == old(Stack())
              else Text() == EditorEdits.Newline(old(Text())) && Stack() == Push(old(Stack()), old(Text()))
    {
      hide Push, EditorEdits.Newline;
      if count >= EDITOR_LINES { return; }
      NewlineIsTextual(Text());
      SaveUndo();
      BreakAtCursor();
    }

    /** Appends the cursor's line to the line before it. */
    method JoinLine()
      requires Sized() && 0 < row < count
      modifies this`count, lines
      ensures Sized()
      ensures lines[..count] == WithRows(old(lines[..count]), row - 1, row, [old(lines[row - 1]) + old(lines[row])])
    {
      ReplaceRows(row - 1, row, lines[row - 1] + lines[row]);
    }

    /** editor_backspace inside a line */
    method EraseChar()
      requires Valid() && col > 0
      modifies this`col, this`undoCount, this`dirty, lines, undo
      ensures Valid()
      ensures Text() == EditorEdits.Backspace(old(Text())) && Stack() == Push(old(Stack()), old(Text()))
    {
      hide Edited, Clean, Push, WithRows;
      ghost var b := Text();
      var line := lines[row];
      var prev := PrevIndex(line, col);
      SaveUndo();
      SetLine(line[..prev] + line[col..]);
      col := prev;
      assert line[..prev] + line[b.col..] == line[..prev] + "" + line[b.col..];
      OneLineForm(b, BackFrom(b), Cursor(b), "");
      BackspaceIsTextual(b);
    }

    /** editor_backspace at the start of a line */
    method EraseNewline()
      requires Valid() && col == 0 && row > 0
      modifies this`count, this`row, this`col, this`undoCount, this`dirty, lines, undo
      ensures Valid()
      ensures Text() == EditorEdits.Backspace(old(Text())) && Stack() == Push(old(Stack()), old(Text()))
    {
      hide Edited, Clean, Push, WithRows;
      ghost var b := Text();
      var prevLen := |lines[row - 1]|;
      SaveUndo();
      JoinLine();
      row := row - 1;
      col := prevLen;
      assert b.lines[row] + b.lines[row + 1] == b.lines[row][..prevLen] + "" + b.lines[row + 1][b.col..];
      OneLineForm(b, BackFrom(b), Cursor(b), "");
      BackspaceIsTextual(b);
    }

    /** editor_backspace */
    method Backspace()
      requires Valid()
      modifies this`count, this`row, this`col, this`undoCount, this`dirty, lines, undo
      ensures Valid()
      ensures if old(Cursor(Text())) == Point(0, 0) then Text() == old(Text()) && Stack() == old(Stack())
              else Text() == EditorEdits.Backspace(old(Text())) && Stack() == Push(old(Stack()), old(Text()))
    {
      hide EditorEdits.Backspace, Push;
      if col > 0 {
        EraseChar();
      } else if row > 0 {
        EraseNewline();
      }
    }

    /** Gives the cursor's line a new text. */
    method SetLine(line: string)
      requires Sized() && 0 <= row < count
      modifies lines
      ensures lines[..count] == WithRows(old(lines[..count]), row, row, [line])
    {
      lines[row] := line;
    }

    /** Takes out n lines from the cursor's on; an empty one stays if none is left. */
    method RemoveLines(n: nat)
      requires Sized() && 0 <= row && row + n <= count
      modifies this`count, lines
      ensures Sized() && count >= 1
      ensures lines[..count] == Without(old(lines[..count]), row, n)
    {
      CloseGap(row, n);
      count := count - n;
      if count < 1 {
        count := 1;
        lines[0] := "";
        assert lines[..count] == [""];
      }
    }

    /** The array part of editor_delete_lines. */
    method DropLines(n: int)
      requires Sized() && Storable(Text())
      modifies this`count, this`row, this`col, lines
      ensures Sized() && Text() == EditorEdits.DeleteLines(old(Text()), n)
    {
      ghost var b := Text();
      assert 1 <= count && 0 <= row < count && 0 <= col;
      hide Storable, Without;
      if count <= 1 {
        row, col := 0, 0;
        lines[0] := "";
        assert lines[..count] == [""];
      } else {
        RemoveLines(Clamp(n, 1, count - row));
        KeepCursorInText();
      }
    }

    method KeepCursorInText()
      requires Sized() && count >= 1 && 0 <= row && 0 <= col
      modifies this`row, this`col
      ensures row == Clamp(old(row), 0, count - 1) && col == Clamp(old(col), 0, |lines[..count][row]|)
    {
      row := if row >= count then count - 1 else row;
      var len := |lines[row]|;
      col := if col > len then len else col;
    }

    /** editor_delete_lines */
    method DeleteLines(n: int)
      requires Steady()
      modifies this`count, this`row, this`col, this`undoCount, this`dirty, lines, undo
      ensures Valid()
      ensures Text() == EditorEdits.DeleteLines(old(Text()), n) && Stack() == Push(old(Stack()), old(Text()))
    {
      hide Push, EditorEdits.DeleteLines;
      DeleteLinesKeepsTheOthers(Text(), n);
      SaveUndo();
      DropLines(n);
    }

    /** The key d at the other end of a range of lines: the cursor goes to the first line, its
        column as it was. */
    method DeleteRangeOfLines(from: int)
      requires Valid() && 0 <= from < count
      modifies this`count, this`row, this`col, this`undoCount, this`dirty, lines, undo
      ensures Valid()
      ensures var b := old(Text()).(row := EditorKeys.Min(from, old(row)));
              Text() == EditorEdits.DeleteLines(b, EditorKeys.Max(from, old(row)) - b.row + 1)
              && Stack() == Push(old(Stack()), b)
    {
      hide Push, EditorEdits.DeleteLines;
      var start, end := from, row;
      if start > end { start, end := end, start; }
      row := start;
      DeleteLines(end - start + 1);
    }

    /** The key x */
    method EraseNextChar()
      requires Valid()
      modifies this`undoCount, this`dirty, lines, undo
      ensures Valid()
      ensures if old(col) >= |old(lines[row])| then Text() == old(Text()) && Stack() == old(Stack())
              else Text() == EditorEdits.EraseNext(old(Text())) && Stack() == Push(old(Stack()), old(Text()))
    {
      hide Edited, Clean, Push, WithRows;
      ghost var b := Text();
      var line := lines[row];
      if col >= |line| { return; }
      var next := NextIndex(line, col);
      SaveUndo();
      SetLine(line[..col] + line[next..]);
      assert line[..col] + line[next..] == line[..col] + "" + line[next..];
      OneLineForm(b, Cursor(b), Point(b.row, next), "");
      EraseNextIsTextual(b);
    }

    /** The key o, before it starts inserting */
    method OpenLine()
      requires Valid()
      modifies this`count, this`row, this`col, this`undoCount, this`dirty, lines, undo
      ensures Valid()
      ensures var b := old(Text()).(col := |old(lines[row])|);
              if old(count) >= EDITOR_LINES then Text() == b && Stack() == old(Stack())
              else Text() == EditorEdits.Newline(b) && Stack() == Push(old(Stack()), b)
    {
      hide Push, EditorEdits.Newline;
      col := |lines[row]|;
      Newline();
    }

    /** editor_insert_text: every character is an edit of its own. */
    method InsertText(text: string)
      requires Valid() && OneLine(text)
      modifies this`row, this`col, this`undoCount, this`dirty, lines, undo
      ensures Valid()
      ensures Session(Text(), Stack())
              == Edits(Session(old(Text()), old(Stack())), EditorKeys.Insertions(old(Text()), text))
    {
      hide Push, EditorEdits.InsertBytes, Fine, EditorKeys.Insertions, Edits, Storable;
      assert text[0..] == text;
      for i := 0 to |text|
        invariant Valid() && OneLine(text[i..])
        invariant Edits(Session(old(Text()), old(Stack())), EditorKeys.Insertions(old(Text()), text))
                  == Edits(Session(Text(), Stack()), EditorKeys.Insertions(Text(), text[i..]))
        modifies this`row, this`col, this`undoCount, this`dirty, lines, undo
      {
        var c := [text[i]];
        assert text[i..][0] == text[i] && text[i..][1..] == text[i + 1..];
        EditorKeys.PartsOfLine(text[i..]);
        EditorKeys.InsertionsStep(Text(), text[i..], Stack());
        InsertBytes(c);
      }
      EditorKeys.NoInsertions(Text(), Stack());
    }

    // -------------------------------------------------------------- selection and paste

    /** editor_copy_lines; a clipboard of lines replaces one of characters. */
    method CopyLines(n: int)
      requires Valid()
      modifies this`charClipboard, this`clipboard
      ensures Valid() && charClipboard == None
      ensures clipboard == Text().lines[row..row + Clamp(n, 1, count - row)]
    {
      var end := row + Clamp(n, 1, count - row);
      CleanSlice(Text().lines, row, end);
      hide Fine, Storable, Clean;
      charClipboard := None;
      clipboard := lines[..count][row..end];
    }

    /** editor_copy_line_range, from a line of the text to the cursor's */
    method CopyLineRange(from: int)
      requires Valid() && 0 <= from < count
      modifies this`charClipboard, this`clipboard
      ensures Valid() && charClipboard == None && clipboard == EditorKeys.LinesFrom(Text(), from)
    {
      var start, end := from, row;
      if start > end { start, end := end, start; }
      CleanSlice(Text().lines, start, end + 1);
      assert end < count <= EDITOR_LINES;
      hide Fine, Storable, Clean;
      charClipboard := None;
      clipboard := lines[..count][start..end + 1];
    }

    /** The keys d and x in visual line mode */
    method DeleteVisualLines()
      requires Valid() && 0 <= anchor.row < count
      modifies this`count, this`row, this`col, this`undoCount, this`dirty, this`charClipboard, this`clipboard, lines,
          undo
      ensures Valid() && charClipboard == None && clipboard == EditorKeys.LinesFrom(old(Text()), anchor.row)
      ensures var b := old(Text()).(row := EditorKeys.Min(anchor.row, old(row)), col := 0);
              Text() == EditorEdits.DeleteLines(b, EditorKeys.Max(anchor.row, old(row)) - b.row + 1)
              && Stack() == Push(old(Stack()), b)
    {
      hide Push, EditorEdits.DeleteLines, EditorKeys.LinesFrom;
      var start, end := anchor.row, row;
      if start > end { start, end := end, start; }
      CopyLineRange(anchor.row);
      row, col := start, 0;
      DeleteLines(end - start + 1);
    }

    /** editor_copy_visual_chars: the selected text, line by line. */
    method CopyVisualChars()
      requires Valid()
      modifies this`charClipboard, this`clipboard
      ensures Valid() && clipboard == [] && charClipboard == Some(Selected(Text(), anchor))
    {
      hide Between, VisualRange, Joined;
      var (p, q) := VisualRange(Text(), anchor);
      ghost var b := Text();
      var copy := "";
      var r := p.row;
      ghost var at := p;
      NothingBetween(b.lines, p);
      while r < q.row
        invariant p.row <= r <= q.row && at == (if r == p.row then p else Point(r, 0))
        invariant copy == Joined(Between(b.lines, p, at))
      {
        RestOfLine(b.lines, p, at);
        copy := copy + lines[r][if r == p.row then p.col else 0..] + "\n";
        r := r + 1;
        at := Point(r, 0);
      }
      PartOfLine(b.lines, p, at, q);
      copy := copy + lines[r][(if r == p.row then p.col else 0)..q.col];
      clipboard := [];
      charClipboard := Some(copy);
    }

    /** Takes out a range of characters; the cursor stands where it was. */
    method DeleteRange(p: Point, q: Point)
      requires Sized() && Fine(Text()) && Inside(Text().lines, p) && Inside(Text().lines, q) && Before(p, q)
      modifies this`count, this`row, this`col, lines
      ensures Sized() && Text() == Edited(old(Text()), p, q, [""])
    {
      OneLineForm(Text(), p, q, "");
      hide Fine, Edited, WithRows;
      var joined := lines[p.row][..p.col] + lines[q.row][q.col..];
      assert joined == lines[p.row][..p.col] + "" + lines[q.row][q.col..];
      ReplaceRows(p.row, q.row, joined);
      row, col := p.row, p.col;
    }

    /** One line in the place of several. */
    method ReplaceRows(first: nat, last: nat, line: string)
      requires Sized() && first <= last < count
      modifies this`count, lines
      ensures Sized() && lines[..count] == WithRows(old(lines[..count]), first, last, [line])
    {
      lines[first] := line;
      if first < last {
        CloseGap(first + 1, last - first);
        count := count - (last - first);
      }
    }

    /** editor_delete_visual_chars */
    method DeleteVisualChars()
      requires Valid()
      modifies this`count, this`row, this`col, this`undoCount, this`dirty, this`charClipboard, this`clipboard, lines,
          undo
      ensures Valid() && clipboard == [] && charClipboard == Some(Selected(old(Text()), anchor))
      ensures Text() == DeleteVisual(old(Text()), anchor) && Stack() == Push(old(Stack()), old(Text()))
    {
      hide Push, Edited, VisualRange, Selected, Fine;
      var (p, q) := VisualRange(Text(), anchor);
      DeleteVisualIsTextual(Text(), anchor);
      CopyVisualChars();
      SaveUndo();
      DeleteRange(p, q);
      FineIsStorable(Text());
    }

    /** A line of its own below the cursor's, and the cursor on it. */
    method PlaceLine(t: string)
      requires Sized() && 0 <= row < count < EDITOR_LINES
      modifies this`count, this`row, lines
      ensures Sized() && row == old(row) + 1
      ensures lines[..count] == old(lines[..count])[..row] + [t] + old(lines[..count])[row..]
    {
      var _ := InsertEmptyLine(row + 1);
      ghost var gapped := lines[..count];
      row := row + 1;
      lines[row] := t;
      assert lines[..count] == gapped[row := t];
    }

    /** The first line of a pasted text, at the cursor; what was behind it is cut off. */
    method PlaceFirst(t: string)
      requires Sized() && Fine(Text())
      modifies this`col, lines
      ensures Sized()
      ensures Text() == Buf(Placed(old(Text()).lines, old(Cursor(Text())), [t], ""), row, old(col) + |t|)
    {
      ghost var b := Text();
      PlacedFirst(b.lines, Cursor(b), t, "");
      hide Fine, Placed;
      var line := lines[row];
      SetLine(line[..col] + t);
      col := col + |t|;
      assert line[..b.col] + t + "" == line[..b.col] + t;
    }

    /** One more line of it, with `rest` behind it. */
    method PlaceNext(t: string, rest: string, ghost old_lines: seq<string>, ghost p: Point, ghost parts: seq<string>,
          ghost k: nat)
      requires Sized() && 0 <= row < count < EDITOR_LINES && Inside(old_lines, p) && 1 <= k < |parts| && t == parts[k]
      requires row == p.row + k - 1 && lines[..count] == Placed(old_lines, p, parts[..k], "")
      modifies this`count, this`row, this`col, lines
      ensures Sized() && Text() == Buf(Placed(old_lines, p, parts[..k + 1], rest), p.row + k, |t|)
    {
      hide Placed;
      PlaceLine(t + rest);
      PlacedOneMore(old_lines, p, parts, k, rest);
      col := |t|;
    }

    /** The loop over the lines after the first. */
    method PlaceOthers(text: string, first: nat, suffix: string, ghost old_lines: seq<string>, ghost p: Point,
          ghost parts: seq<string>)
      requires Sized() && Inside(old_lines, p) && parts != [] && |old_lines| + |parts| - 1 <= EDITOR_LINES
      requires first <= |text| && (first == |text| <==> |parts| == 1)
      requires first < |text| ==> Split(text[first + 1..]) == parts[1..]
      requires Text() == Buf(Placed(old_lines, p, parts[..1], ""), p.row, p.col + |parts[0]|)
      modifies this`count, this`row, this`col, lines
      ensures Sized()
      ensures Text() == Buf(Placed(old_lines, p, parts, if 1 < |parts| then suffix else ""),
                            p.row + |parts| - 1, (if |parts| == 1 then p.col else 0) + |parts[|parts| - 1]|)
    {
      hide Placed, Split, OneLine;
      var nl := first;
      ghost var k := 1;
      PlacedSize(old_lines, p, parts);
      while nl < |text|
        invariant nl <= |text| && 1 <= k <= |parts| && (k == |parts| <==> nl == |text|)
        invariant nl < |text| ==> Split(text[nl + 1..]) == parts[k..]
        invariant Sized()
        invariant Text() == Buf(Placed(old_lines, p, parts[..k], if 1 < k == |parts| then suffix else ""),
                                p.row + k - 1, (if k == 1 then p.col else 0) + |parts[k - 1]|)
        decreases |text| - nl
      {
        var segment := nl + 1;
        nl := NextBreak(text, segment);
        NextPart(text, segment, nl, parts, k);
        PlaceNext(text[segment..nl], if nl < |text| then "" else suffix, old_lines, p, parts, k);
        k := k + 1;
      }
      assert parts[..k] == parts;
    }

    /** The array part of editor_paste_text. */
    method PlaceText(text: string)
      requires Sized() && Fine(Text()) && Fits(Text(), text)
      modifies this`count, this`row, this`col, lines
      ensures Sized() && Text() == PasteText(old(Text()), text)
    {
      ghost var b, parts := Text(), Split(text);
      ghost var p := Cursor(b);
      var suffix := lines[row][col..];
      var nl := NextBreak(text, 0);
      SplitFirst(text, nl);
      var whole := nl == |text|;
      PlaceFirst(text[..nl]);
      hide Fine, Edited, Placed, Split;
      assert parts[..1] == [text[..nl]];
      PlaceOthers(text, nl, suffix, b.lines, p, parts);
      if whole {
        assert parts == [parts[0]];
        PlaceRest(suffix, b.lines, p, parts[0]);
      }
      PlacedAll(b, p, parts);
    }

    /** Puts back what was behind the cursor when only one line was pasted. */
    method PlaceRest(suffix: string, ghost old_lines: seq<string>, ghost p: Point, ghost t: string)
      requires Sized() && Inside(old_lines, p) && lines[..count] == Placed(old_lines, p, [t], "") && row == p.row
      modifies lines
      ensures lines[..count] == Placed(old_lines, p, [t], suffix)
    {
      PlacedFirst(old_lines, p, t, "");
      PlacedFirst(old_lines, p, t, suffix);
      hide Placed;
      assert old_lines[p.row][..p.col] + t + "" == old_lines[p.row][..p.col] + t;
      SetLine(lines[row] + suffix);
    }

    /** Counting the newlines of a text to be pasted. */
    static method CountBreaks(text: string) returns (n: nat)
      ensures |Split(text)| == n + 1
    {
      n := 0;
      var i := 0;
      assert text[0..] == text;
      while i < |text|
        invariant 0 <= i <= |text|
        invariant |Split(text)| == n + |Split(text[i..])|
      {
        assert text[i..][1..] == text[i + 1..];
        n := if text[i] == '\n' then n + 1 else n;
        i := i + 1;
      }
    }

    /** editor_paste_text */
    method PasteAtCursor(text: string)
      requires Valid()
      modifies this`count, this`row, this`col, this`undoCount, this`dirty, lines, undo
      ensures Valid()
      ensures if text == "" || !Fits(old(Text()), text) then Text() == old(Text()) && Stack() == old(Stack())
              else Text() == PasteText(old(Text()), text) && Stack() == Push(old(Stack()), old(Text()))
    {
      if text == "" { return; }
      var newLines := CountBreaks(text);
      if count + newLines > EDITOR_LINES { return; }
      PasteFitting(text);
    }

    method PasteFitting(text: string)
      requires Valid() && Fits(Text(), text)
      modifies this`count, this`row, this`col, this`undoCount, this`dirty, lines, undo
      ensures Valid()
      ensures Text() == PasteText(old(Text()), text) && Stack() == Push(old(Stack()), old(Text()))
    {
      hide Fine, Fits, Edited, Push, Split, PasteText;
      PasteIsTextual(Text(), text);
      SaveUndo();
      PlaceText(text);
      FineIsStorable(Text());
    }

    /** editor_paste_lines with a line clipboard */
    method PasteLinesHere(above: bool)
      requires Valid()
      modifies this`count, this`row, this`col, this`undoCount, this`dirty, lines, undo
      ensures Valid()
      ensures if clipboard == [] || old(count) == EDITOR_LINES then Text() == old(Text()) && Stack() == old(Stack())
              else Text() == PasteLines(old(Text()), clipboard, above) && Stack() == Push(old(Stack()), old(Text()))
    {
      hide Push, PasteLines, Clean;
      var n := Clamp(|clipboard|, 0, EDITOR_LINES - count);
      if clipboard == [] || n <= 0 { return; }
      PasteLinesIsFine(Text(), clipboard, above);
      SaveUndo();
      PutClipboard(above, n);
    }

    /** The array part of it. */
    method PutClipboard(above: bool, n: nat)
      requires Sized() && Fine(Text()) && n == Clamp(|clipboard|, 0, EDITOR_LINES - count)
      modifies this`count, this`row, this`col, lines
      ensures Sized() && Text() == PasteLines(old(Text()), clipboard, above)
    {
      PasteLinesForm(Text(), clipboard, above);
      assert 0 <= row < count;
      hide Fine, PasteLines;
      var at := if above then row else row + 1;
      PutLines(at, clipboard[..n]);
      row := at;
      col := 0;
    }

    /** Makes room for some lines and copies them there. */
    method PutLines(at: nat, added: seq<string>)
      requires Sized() && at <= count && count + |added| <= EDITOR_LINES
      modifies this`count, lines
      ensures Sized() && lines[..count] == old(lines[..count])[..at] + added + old(lines[..count])[at..]
    {
      OpenGap(at, |added|);
      ghost var moved := lines[at + |added|..count + |added|];
      assert moved == old(lines[..count])[at..];
      FillLines(at, added);
      count := count + |added|;
      assert lines[at + |added|..count] == moved;
      assert lines[..at] == old(lines[..count])[..at];
      assert lines[..count] == lines[..at] + lines[at..at + |added|] + lines[at + |added|..count];
    }

    method FillLines(at: nat, added: seq<string>)
      requires Sized() && at + |added| <= EDITOR_LINES
      modifies lines
      ensures lines[..at] == old(lines[..at]) && lines[at..at + |added|] == added
      ensures forall i :: at + |added| <= i < EDITOR_LINES ==> lines[i] == old(lines[i])
    {
      for i := 0 to |added|
        invariant forall j :: 0 <= j < at || at + i <= j < EDITOR_LINES ==> lines[j] == old(lines[j])
        invariant lines[at..at + i] == added[..i]
        modifies lines
      {
        lines[at + i] := added[i];
      }
    }

    /** editor_paste_lines: `P` with above, `p` without. */
    method Paste(above: bool)
      requires Valid()
      modifies this`count, this`row, this`col, this`undoCount, this`dirty, lines, undo
      ensures Valid()
      ensures charClipboard == None ==>
                if clipboard == [] || old(count) == EDITOR_LINES then Text() == old(Text()) && Stack() == old(Stack())
                else Text() == PasteLines(old(Text()), clipboard, above) && Stack() == Push(old(Stack()), old(Text()))
      ensures charClipboard.Some? ==>
                var b := if above then old(Text()) else StepRight(old(Text()));
                if charClipboard.value == "" || !Fits(b, charClipboard.value)
                then Text() == b && Stack() == old(Stack())
                else Text() == PasteText(b, charClipboard.value) && Stack() == Push(old(Stack()), b)
    {
      hide Push, PasteLines, PasteText, Fits;
      if charClipboard.None? {
        PasteLinesHere(above);
        return;
      }
      if !above {
        col := NextIndex(lines[row], col);
      }
      PasteAtCursor(charClipboard.value);
    }

    /** editor_replace_range */
    method ReplaceOnLine(start: int, end: int, text: string)
      requires Valid() && start <= |Text().lines[row]| && OneLine(text)
      modifies this`col, this`undoCount, this`dirty, lines, undo
      ensures Valid()
      ensures Text() == ReplaceRange(old(Text()), start, end, text) && Stack() == Push(old(Stack()), old(Text()))
    {
      ReplaceRangeIsFine(Text(), start, end, text);
      SaveUndo();
      SpliceLine(start, end, text);
    }

    /** The array part of editor_replace_range. */
    method SpliceLine(start: int, end: int, text: string)
      requires Sized() && Fine(Text()) && start <= |Text().lines[row]|
      modifies this`col, lines
      ensures Text() == ReplaceRange(old(Text()), start, end, text)
    {
      var line := lines[row];
      var from := Clamp(start, 0, |line|);
      var to := Clamp(end, from, |line|);
      OneLineForm(Text(), Point(row, from), Point(row, to), text);
      hide Fine, Edited;
      SetLine(line[..from] + text + line[to..]);
      col := from + |text|;
    }

    /** What the block completions have in common. */
    method CompleteHere(start: int, end: int, header: string, back: nat, below: seq<string>)
      requires Valid() && start <= |Text().lines[row]| && OneLine(header) && back <= |header|
      requires Clean(below) && count + |below| <= EDITOR_LINES
      modifies this`count, this`col, this`undoCount, this`dirty, lines, undo
      ensures Valid() && Stack() == Push(old(Stack()), old(Text()))
      ensures Text() == CompleteBlock(old(Text()), start, end, header, back, below)
    {
      CompletionIsFine(Text(), start, end, header, back, below);
      ReplaceRangeIsFine(Text(), start, end, header);
      hide Push, ReplaceRange, Clean;
      SaveUndo();
      SpliceLine(start, end, header);
      PutLines(row + 1, below);
      col := col - back;
    }

    /** editor_complete_tui_block */
    method CompleteTuiBlock(start: int, end: int)
      requires Valid() && start <= |Text().lines[row]|
      modifies this`count, this`col, this`undoCount, this`dirty, lines, undo
      ensures Valid() && Stack() == Push(old(Stack()), old(Text()))
      ensures Text() == if old(count) >= EDITOR_LINES then ReplaceRange(old(Text()), start, end, "@tui ")
                        else CompleteTui(old(Text()), start, end)
    {
      hide Push, ReplaceRange, CompleteBlock;
      if count >= EDITOR_LINES {
        ReplaceOnLine(start, end, "@tui ");
        return;
      }
      IndentedIsClean(lines[row], "@end");
      CompleteHere(start, end, "@tui ", 0, [Indent(lines[row]) + "@end"]);
    }

    /** editor_complete_shell_block; the cursor goes where the list or the condition is missing. */
    method CompleteShellBlock(start: int, end: int, isFor: bool)
      requires Valid() && start <= |Text().lines[row]|
      modifies this`count, this`col, this`undoCount, this`dirty, lines, undo
      ensures Valid() && Stack() == Push(old(Stack()), old(Text()))
      ensures Text() == if old(count) + 2 > EDITOR_LINES
              then ReplaceRange(old(Text()), start, end, if isFor then "for " else "if ")
                        else CompleteShell(old(Text()), start, end, isFor)
    {
      hide Push, ReplaceRange, CompleteBlock;
      if count + 2 > EDITOR_LINES {
        ReplaceOnLine(start, end, if isFor then "for " else "if ");
        return;
      }
      var indent := Indent(lines[row]);
      IndentedIsClean(lines[row], "  ");
      if isFor {
        IndentedIsClean(lines[row], "done");
        CompleteHere(start, end, "for item in ; do", 4, [indent + "  ", indent + "done"]);
      } else {
        IndentedIsClean(lines[row], "fi");
        CompleteHere(start, end, "if [  ]; then", 8, [indent + "  ", indent + "fi"]);
      }
    }

    // -------------------------------------------------------------- keys

    /** Everything that keys change. */
    function Desk(): EditorKeys.Desk
      reads this, lines, undo
      requires Sized()
    {
      EditorKeys.Desk(Session(Text(), Stack()), charClipboard, clipboard, anchor)
    }

    /** A motion, which leaves everything but the cursor alone. */
    method Move(to: Point)
      requires Valid() && Inside(Text().lines, to)
      modifies this`row, this`col
      ensures Valid() && Text() == Buf(old(Text()).lines, to.row, to.col)
    {
      row, col := to.row, to.col;
    }

    /** Any key: what the functions on values say of it, the editor does. */
    method Do(op: EditorKeys.Op)
      requires Valid() && EditorKeys.DeskFine(Desk()) && EditorKeys.Allowed(Desk(), op)
      modifies this, lines, undo
      ensures Valid() && EditorKeys.DeskFine(Desk())
      ensures Desk() == EditorKeys.Apply(old(Desk()), op)
    {
      EditorKeys.ApplyIsFine(Desk(), op);
      hide EditorKeys.DeskFine, EditorKeys.Apply, EditorKeys.Allowed;
      if op.Typed? || op.NewlineKey? || op.BackspaceKey? || op.EraseKey? || op.DeleteKey? {
        DoEdit(op);
      } else if op.OpenKey? || op.RangeDelete? || op.VisualLineDelete? {
        DoMovingEdit(op);
      } else if op.TemplateKey? {
        DoTemplate(op);
      } else if op.ReplaceKey? || op.TuiKey? || op.ShellKey? {
        DoCompletion(op);
      } else if op.PasteKey? {
        DoPaste(op);
      } else if op.CopyKey? || op.RangeCopy? || op.VisualLineCopy? {
        DoCopy(op);
      } else if op.CopySelection? || op.DeleteSelection? {
        DoSelection(op);
      } else {
        DoOther(op);
      }
    }

    method DoEdit(op: EditorKeys.Op)
      requires Valid() && EditorKeys.DeskFine(Desk()) && EditorKeys.Allowed(Desk(), op)
      requires op.Typed? || op.NewlineKey? || op.BackspaceKey? || op.EraseKey? || op.DeleteKey?
      modifies this`count, this`row, this`col, this`undoCount, this`dirty, lines, undo
      ensures Valid() && Desk() == EditorKeys.Apply(old(Desk()), op)
    {
      hide Push, EditorEdits.InsertBytes, EditorEdits.Newline, EditorEdits.Backspace, EditorEdits.EraseNext,
           EditorEdits.DeleteLines;
      EditorKeys.AppliedOnce(Desk(), op);
      hide EditorKeys.ChangesBy, Edits;
      match op
      case Typed(bytes) => InsertBytes(bytes);
      case NewlineKey => Newline();
      case BackspaceKey => Backspace();
      case EraseKey => EraseNextChar();
      case DeleteKey(n) => DeleteLines(n);
    }

    method DoMovingEdit(op: EditorKeys.Op)
      requires Valid() && EditorKeys.DeskFine(Desk()) && EditorKeys.Allowed(Desk(), op)
      requires op.OpenKey? || op.RangeDelete? || op.VisualLineDelete?
      modifies this, lines, undo
      ensures Valid() && Desk() == EditorKeys.Apply(old(Desk()), op)
    {
      hide Push, EditorEdits.Newline, EditorEdits.DeleteLines, EditorKeys.LinesFrom;
      EditorKeys.AppliedOnce(Desk(), op);
      hide Edits, EditorKeys.ChangesBy;
      match op
      case OpenKey => OpenLine();
      case RangeDelete(from) => DeleteRangeOfLines(from);
      case VisualLineDelete => DeleteVisualLines();
    }

    method DoTemplate(op: EditorKeys.Op)
      requires Valid() && EditorKeys.DeskFine(Desk()) && EditorKeys.Allowed(Desk(), op) && op.TemplateKey?
      modifies this`row, this`col, this`undoCount, this`dirty, lines, undo
      ensures Valid() && Desk() == EditorKeys.Apply(old(Desk()), op)
    {
      hide Push, EditorKeys.Insertions, Edits;
      InsertText(op.text);
    }

    method DoCompletion(op: EditorKeys.Op)
      requires Valid() && EditorKeys.DeskFine(Desk()) && EditorKeys.Allowed(Desk(), op)
      requires op.ReplaceKey? || op.TuiKey? || op.ShellKey?
      modifies this`count, this`col, this`undoCount, this`dirty, lines, undo
      ensures Valid() && Desk() == EditorKeys.Apply(old(Desk()), op)
    {
      hide Push, ReplaceRange, CompleteTui, CompleteShell;
      EditorKeys.AppliedOnce(Desk(), op);
      hide EditorKeys.ChangesBy, Edits;
      match op
      case ReplaceKey(start, end, text) => ReplaceOnLine(start, end, text);
      case TuiKey(start, end) => CompleteTuiBlock(start, end);
      case ShellKey(start, end, isFor) => CompleteShellBlock(start, end, isFor);
    }

    method DoPaste(op: EditorKeys.Op)
      requires Valid() && EditorKeys.DeskFine(Desk()) && EditorKeys.Allowed(Desk(), op) && op.PasteKey?
      modifies this`count, this`row, this`col, this`undoCount, this`dirty, lines, undo
      ensures Valid() && Desk() == EditorKeys.Apply(old(Desk()), op)
    {
      hide Push, PasteText, PasteLines, Fits;
      EditorKeys.AppliedOnce(Desk(), op);
      hide EditorKeys.ChangesBy, Edits;
      Paste(op.above);
    }

    method DoCopy(op: EditorKeys.Op)
      requires Valid() && EditorKeys.DeskFine(Desk()) && EditorKeys.Allowed(Desk(), op)
      requires op.CopyKey? || op.RangeCopy? || op.VisualLineCopy?
      modifies this`charClipboard, this`clipboard
      ensures Valid() && Desk() == EditorKeys.Apply(old(Desk()), op)
    {
      hide Push, EditorKeys.LinesFrom;
      EditorKeys.AppliedOnce(Desk(), op);
      hide EditorKeys.ChangesBy, Edits;
      match op
      case CopyKey(n) => CopyLines(n);
      case RangeCopy(from) => CopyLineRange(from);
      case VisualLineCopy => CopyLineRange(anchor.row);
    }

    method DoSelection(op: EditorKeys.Op)
      requires Valid() && EditorKeys.DeskFine(Desk()) && EditorKeys.Allowed(Desk(), op)
      requires op.CopySelection? || op.DeleteSelection?
      modifies this, lines, undo
      ensures Valid() && Desk() == EditorKeys.Apply(old(Desk()), op)
    {
      hide Push, DeleteVisual, Selected;
      EditorKeys.AppliedOnce(Desk(), op);
      hide EditorKeys.ChangesBy, Edits;
      match op
      case CopySelection => CopyVisualChars();
      case DeleteSelection => DeleteVisualChars();
    }

    method DoOther(op: EditorKeys.Op)
      requires Valid() && EditorKeys.DeskFine(Desk()) && EditorKeys.Allowed(Desk(), op)
      requires op.MoveKey? || op.VisualKey? || op.UndoKey?
      modifies this, lines, undo
      ensures Valid() && Desk() == EditorKeys.Apply(old(Desk()), op)
    {
      hide Push, Restored;
      if !op.UndoKey? { EditorKeys.AppliedOnce(Desk(), op); }
      hide EditorKeys.ChangesBy, Edits;
      match op
      case MoveKey(to) => Move(to);
      case VisualKey => anchor := Point(row, col);
      case UndoKey => Undo();
    }

    /** strchr from a position on. */
    static method NextBreak(text: string, from: nat) returns (nl: nat)
      requires from <= |text|
      ensures from <= nl <= |text| && OneLine(text[from..nl]) && (nl < |text| ==> text[nl] == '\n')
    {
      nl := from;
      while nl < |text| && text[nl] != '\n'
        invariant from <= nl <= |text| && OneLine(text[from..nl])
      {
        nl := nl + 1;
      }
    }
  }

  lemma GapClosed(was: seq<string>, now: seq<string>, at: nat, n: nat, count: nat)
    requires at + n <= count <= |was| == |now|
    requires forall i :: 0 <= i < at ==> now[i] == was[i]
    requires forall i :: at <= i < count - n ==> now[i] == was[i + n]
    ensures now[..count - n] == was[..count][..at] + was[..count][at + n..]
  {
  }

  lemma BreakFound(text: string, segment: nat, nl: nat)
    requires segment <= nl <= |text| && OneLine(text[segment..nl]) && (nl < |text| ==> text[nl] == '\n')
    ensures Split(text[segment..]) == [text[segment..nl]] + if nl < |text| then Split(text[nl + 1..]) else []
  {
    hide Split, OneLine;
    var rest := text[segment..];
    assert rest[..nl - segment] == text[segment..nl];
    SplitFirst(rest, nl - segment);
    if nl < |text| {
      assert rest[nl - segment + 1..] == text[nl + 1..];
    }
  }

  lemma NextPart(text: string, segment: nat, nl: nat, parts: seq<string>, k: nat)
    requires segment <= nl <= |text| && OneLine(text[segment..nl]) && (nl < |text| ==> text[nl] == '\n')
    requires k < |parts| && Split(text[segment..]) == parts[k..]
    ensures parts[k] == text[segment..nl] && (k + 1 == |parts| <==> nl == |text|)
    ensures nl < |text| ==> Split(text[nl + 1..]) == parts[k + 1..]
  {
    BreakFound(text, segment, nl);
    hide Split, OneLine;
    assert parts[k..][0] == parts[k] && parts[k..][1..] == parts[k + 1..];
  }
}
