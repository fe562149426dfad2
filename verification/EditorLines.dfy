/** Whole lines in the editor: which go, where they come back, and what a completed block looks
    like. */
module EditorLines {
  import opened Options
  import opened EditorText
  import opened EditorEdits
  import opened EditorForms
  import opened EditorChars
  import opened EditorUndo
  import opened EditorKeys

  // ---------------------------------------------------------------- lines that go

  /** Rows from lo to hi are gone, the others are as they were; an empty line stands for none. */
  predicate Gone(was: seq<string>, now: seq<string>, lo: nat, hi: nat) {
    && lo <= hi < |was|
    && (hi - lo + 1 == |was| ==> now == [""])
    && (hi - lo + 1 < |was| ==>
          && |now| == |was| - (hi - lo + 1)
          && (forall i :: 0 <= i < lo ==> now[i] == was[i])
          && forall i :: hi < i < |was| ==> now[i - (hi - lo + 1)] == was[i])
  }

  lemma RowsGo(b: Buf, count: int)
    requires Storable(b)
    ensures var after := DeleteLines(b, count);
            var n := if count <= 1 then 1 else if count <= |b.lines| - b.row then count else |b.lines| - b.row;
            && Gone(b.lines, after.lines, b.row, b.row + n - 1)
            && after.row == (if b.row < |after.lines| then b.row else |after.lines| - 1)
            && after.col == (if b.col <= |after.lines[after.row]| then b.col else |after.lines[after.row]|)
  {
  }

  /** The rows between the cursor and another one. */
  function Lower(b: Buf, from: int): int {
    if from < b.row then from else b.row
  }

  function Upper(b: Buf, from: int): int {
    if from < b.row then b.row else from
  }

  predicate DeletesTo(d: Desk, op: Op, from: int) {
    0 <= from < |d.session.buf.lines| && (op == RangeDelete(from) || (op.VisualLineDelete? && d.anchor.row == from))
  }

  /** The keys that delete lines from the cursor to another row, in either order; those of a
      selection are in the clipboard afterwards. */
  lemma DeletingKeys(d: Desk, op: Op, from: int)
    requires DeskFine(d) && DeletesTo(d, op, from)
    ensures Allowed(d, op)
    ensures var b, after := d.session.buf, Apply(d, op);
            && Gone(b.lines, after.session.buf.lines, Lower(b, from), Upper(b, from))
            && after.session.buf.row == (if Lower(b, from) < |after.session.buf.lines| then Lower(b, from)
                                         else |after.session.buf.lines| - 1)
  {
    hide Apply, DeleteLines, Gone, Clean, Kept, Poised, Storable;
    var b := d.session.buf;
    DeletedAsRows(d, op, from);
    RowsGo(Poised(d, op), Upper(b, from) - Lower(b, from) + 1);
  }

  /** Deleting n lines takes the n from the cursor on, as far as there are that many. */
  lemma DeletedLines(d: Desk, count: int)
    requires DeskFine(d)
    ensures var b, after := d.session.buf, Apply(d, DeleteKey(count));
            var n := if count <= 1 then 1 else if count <= |b.lines| - b.row then count else |b.lines| - b.row;
            Gone(b.lines, after.session.buf.lines, b.row, b.row + n - 1)
  {
    hide Apply, DeleteLines, Gone, Clean, Kept;
    AppliedOnce(d, DeleteKey(count));
    RowsGo(d.session.buf, count);
  }

  lemma DeletedAsRows(d: Desk, op: Op, from: int)
    requires DeskFine(d) && DeletesTo(d, op, from)
    ensures Allowed(d, op) && Poised(d, op).row == Lower(d.session.buf, from)
    ensures Poised(d, op).lines == d.session.buf.lines && Storable(Poised(d, op))
    ensures Apply(d, op).session.buf
            == DeleteLines(Poised(d, op), Upper(d.session.buf, from) - Lower(d.session.buf, from) + 1)
  {
    hide DeleteLines, Fine, Storable, Apply, Push, Clean, Kept;
    PoisedIsStorable(d, op);
    AppliedOnce(d, op);
  }

  lemma CutLinesAreKept(d: Desk)
    requires DeskFine(d) && 0 <= d.anchor.row < |d.session.buf.lines|
    ensures var b, after := d.session.buf, Apply(d, VisualLineDelete);
            && after.lineClip == b.lines[Lower(b, d.anchor.row)..Upper(b, d.anchor.row) + 1]
            && after.chars == None && DeskFine(after)
  {
    hide Poised, Edits, EditedBy, ChangesBy, Clean, Kept, Fine;
    ApplyIsFine(d, VisualLineDelete);
  }

  // ---------------------------------------------------------------- lines that come

  /** The clipboard's lines stand at a row, as many as there is room for among 160; what was there
      is below them. */
  predicate Come(was: seq<string>, now: seq<string>, at: nat, clipboard: seq<string>) {
    var n := if |was| + |clipboard| <= 160 then |clipboard| else 160 - |was|;
    && 0 <= n && at <= |was| && |now| == |was| + n
    && (forall i :: 0 <= i < at ==> now[i] == was[i])
    && (forall i :: 0 <= i < n ==> now[at + i] == clipboard[i])
    && forall i :: at <= i < |was| ==> now[i + n] == was[i]
  }

  lemma PastedLines(d: Desk, above: bool)
    requires DeskFine(d) && d.chars == None && d.lineClip != []
    ensures var b, after := d.session.buf, Apply(d, PasteKey(above)).session.buf;
            var at := if above then b.row else b.row + 1;
            && Come(b.lines, after.lines, at, d.lineClip)
            && (|b.lines| < 160 ==> after.row == at && after.col == 0) && (|b.lines| == 160 ==> after == b)
  {
    AppliedOnce(d, PasteKey(above));
    hide PasteLines, Apply, Come, Push, Clean, Kept;
    LinesCome(d.session.buf, d.lineClip, above);
  }

  lemma LinesCome(b: Buf, clipboard: seq<string>, above: bool)
    requires Fine(b) && |clipboard| <= 160
    ensures var after, at := PasteLines(b, clipboard, above), if above then b.row else b.row + 1;
            && Come(b.lines, after.lines, at, clipboard) && after.row == at && after.col == 0
            && (|b.lines| == 160 ==> Come(b.lines, b.lines, at, clipboard))
  {
  }

  /** Lines that were deleted as a selection come back where they were: with P, or with p when they
      were the last ones. */
  lemma CutLinesComeBack(d: Desk, above: bool)
    requires DeskFine(d) && 0 <= d.anchor.row < |d.session.buf.lines|
    requires var b := d.session.buf;
             if above then Upper(b, d.anchor.row) < |b.lines| - 1
             else 0 < Lower(b, d.anchor.row) && Upper(b, d.anchor.row) == |b.lines| - 1
    ensures DeskFine(Apply(d, VisualLineDelete))
    ensures Apply(Apply(d, VisualLineDelete), PasteKey(above)).session.buf.lines == d.session.buf.lines
  {
    hide Apply, Clean, Kept;
    CutLinesAreKept(d);
    var b, cut := d.session.buf, Apply(d, VisualLineDelete);
    var lo, hi := Lower(b, d.anchor.row), Upper(b, d.anchor.row);
    assert 0 <= lo <= hi < |b.lines| <= 160;
    assert DeletesTo(d, VisualLineDelete, d.anchor.row) && Allowed(cut, PasteKey(above));
    var pasted := Apply(cut, PasteKey(above));
    hide *;
    DeletingKeys(d, VisualLineDelete, d.anchor.row);
    GoneAreCounted(b.lines, cut.session.buf.lines, lo, hi);
    PastedLines(cut, above);
    GoneAndCome(b.lines, cut.session.buf.lines, pasted.session.buf.lines, lo, hi);
  }

  lemma GoneAreCounted(was: seq<string>, mid: seq<string>, lo: nat, hi: nat)
    requires Gone(was, mid, lo, hi)
    ensures |mid| == if hi - lo + 1 == |was| then 1 else |was| - (hi - lo + 1)
  {
  }

  lemma GoneAndCome(was: seq<string>, mid: seq<string>, now: seq<string>, lo: nat, hi: nat)
    requires Gone(was, mid, lo, hi) && hi - lo + 1 < |was| <= 160 && Come(mid, now, lo, was[lo..hi + 1])
    ensures now == was
  {
    forall i | 0 <= i < |was|
      ensures now[i] == was[i]
    {
      var n := hi - lo + 1;
      if lo <= i <= hi {
        assert now[lo + (i - lo)] == was[lo..hi + 1][i - lo];
      } else if hi < i {
        assert now[(i - n) + n] == mid[i - n];
      }
    }
  }

  /** The keys that copy lines and the rows they copy: from the cursor on, or to another row. */
  predicate Copies(d: Desk, op: Op, lo: int, hi: int) {
    var b := d.session.buf;
    && 0 <= lo <= hi < |b.lines|
    && match op
       case CopyKey(count) =>
         lo == b.row && hi == b.row + (if count <= 1 then 0
                                       else if count <= |b.lines| - b.row then count - 1 else |b.lines| - b.row - 1)
       case RangeCopy(from) => 0 <= from < |b.lines| && lo == Lower(b, from) && hi == Upper(b, from)
       case VisualLineCopy =>
         0 <= d.anchor.row < |b.lines| && lo == Lower(b, d.anchor.row) && hi == Upper(b, d.anchor.row)
       case _ => false
  }

  /** Copied lines change nothing and are pasted as they stand, instead of any characters copied
      before. */
  lemma CopiedLinesCome(d: Desk, op: Op, lo: int, hi: int, above: bool)
    requires DeskFine(d) && Copies(d, op, lo, hi)
    ensures Allowed(d, op) && DeskFine(Apply(d, op)) && Apply(d, op).session == d.session
    ensures var b := d.session.buf;
            Come(b.lines, Apply(Apply(d, op), PasteKey(above)).session.buf.lines, if above then b.row else b.row + 1,
                 b.lines[lo..hi + 1])
  {
    hide Clean, Kept, Come, EditedBy;
    CopiedLines(d, op, lo, hi);
    hide Apply;
    PastedLines(Apply(d, op), above);
  }

  lemma CopiedLines(d: Desk, op: Op, lo: int, hi: int)
    requires DeskFine(d) && Copies(d, op, lo, hi)
    ensures Allowed(d, op) && DeskFine(Apply(d, op)) && Apply(d, op).session == d.session
    ensures Apply(d, op).chars == None && Apply(d, op).lineClip == d.session.buf.lines[lo..hi + 1]
  {
    ClipOfCopy(d, op, lo, hi);
    hide Apply, DeskFine, Clean, Kept;
    AppliedOnce(d, op);
    ApplyIsFine(d, op);
  }

  lemma ClipOfCopy(d: Desk, op: Op, lo: int, hi: int)
    requires DeskFine(d) && Copies(d, op, lo, hi)
    ensures Allowed(d, op)
    ensures Apply(d, op).chars == None && Apply(d, op).lineClip == d.session.buf.lines[lo..hi + 1]
  {
    hide Clean, Kept, Edits, Undo, Poised, EditedBy, ChangesBy, Selected;
  }

  /** A selection that was cut comes back with P, whatever the limit of lines. */
  lemma CutSelectionComesBack(d: Desk)
    requires DeskFine(d)
    ensures var cut := Apply(d, DeleteSelection);
            DeskFine(cut) && Apply(cut, PasteKey(true)).session.buf.lines == d.session.buf.lines
  {
    var b := d.session.buf;
    hide Clean, Kept, Push, DeleteVisual, Selected, PasteText, Fits, Fine;
    DeletePasteIsIdentity(b, d.anchor);
    AppliedOnce(d, DeleteSelection);
    ApplyIsFine(d, DeleteSelection);
    var cut := Apply(d, DeleteSelection);
    AppliedOnce(cut, PasteKey(true));
    if Selected(b, d.anchor) == "" { NothingCut(b, d.anchor); }
  }

  lemma NothingCut(b: Buf, anchor: Point)
    requires Fine(b) && Selected(b, anchor) == ""
    ensures DeleteVisual(b, anchor).lines == b.lines
  {
    DeletePasteIsIdentity(b, anchor);
    hide DeleteVisual, Selected;
    var cut := DeleteVisual(b, anchor);
    InsertNothing(cut);
  }

  lemma InsertNothing(b: Buf)
    requires Fine(b)
    ensures PasteText(b, "").lines == b.lines
  {
    GlueNothing(Head(b.lines, Cursor(b)));
    CutAndGlue(b.lines, Cursor(b));
    assert Split("") == [""];
  }

  // ---------------------------------------------------------------- completed blocks

  /** A range of the cursor's line is replaced, the cursor stands within the replacement, and lines
      with the same indentation are put below; all other lines are as they were. */
  predicate Completed(b: Buf, after: Buf, start: nat, end: nat, left: string, right: string, below: seq<string>)
    requires Fine(b) && start <= end <= |b.lines[b.row]|
  {
    var line := b.lines[b.row];
    && after.row == b.row && after.col == start + |left| && |after.lines| == |b.lines| + |below|
    && after.lines[b.row] == line[..start] + left + right + line[end..]
    && (forall i :: 0 <= i < b.row ==> after.lines[i] == b.lines[i])
    && (forall i :: 0 <= i < |below| ==> after.lines[b.row + 1 + i] == Indent(line) + below[i])
    && forall i :: b.row < i < |b.lines| ==> after.lines[i + |below|] == b.lines[i]
  }

  /** The @tui block as it is completed: with its end below it, if a line more is possible. */
  lemma TuiBlock(d: Desk, start: nat, end: nat)
    requires DeskFine(d) && start <= end <= |d.session.buf.lines[d.session.buf.row]|
    ensures var b := d.session.buf;
            Completed(b, Apply(d, TuiKey(start, end)).session.buf, start, end, "@tui ", "",
                      if |b.lines| < 160 then ["@end"] else [])
  {
    var b := d.session.buf;
    hide Apply, Completed, Clean, Kept, CompleteTui, ReplaceRange;
    TuiEdited(d, start, end);
    if |b.lines| < 160 {
      TuiIsCompleted(b, start, end);
    } else {
      OnlyReplaced(b, start, end, "@tui ");
    }
  }

  lemma TuiEdited(d: Desk, start: nat, end: nat)
    requires DeskFine(d) && start <= end <= |d.session.buf.lines[d.session.buf.row]|
    ensures var b := d.session.buf;
            Apply(d, TuiKey(start, end)).session.buf
            == if |b.lines| >= 160 then ReplaceRange(b, start, end, "@tui ") else CompleteTui(b, start, end)
  {
    hide Apply, Clean, Kept, CompleteTui, ReplaceRange, Push;
    AppliedOnce(d, TuiKey(start, end));
  }

  lemma TuiIsCompleted(b: Buf, start: nat, end: nat)
    requires Fine(b) && start <= end <= |b.lines[b.row]| && |b.lines| < 160
    ensures Completed(b, CompleteTui(b, start, end), start, end, "@tui ", "", ["@end"])
  {
    assert "@tui " + "" == "@tui ";
    hide Completed, CompleteBlock, Fine, Indent;
    BlockIsCompleted(b, start, end, "@tui ", "", ["@end"], [Indent(b.lines[b.row]) + "@end"]);
  }

  /** The shell blocks: the cursor stands where the list or the condition goes, the body is indented
      by two more blanks; without room for two more lines only the keyword is put. */
  lemma ShellBlock(d: Desk, start: nat, end: nat, isFor: bool)
    requires DeskFine(d) && start <= end <= |d.session.buf.lines[d.session.buf.row]|
    ensures var b, after := d.session.buf, Apply(d, ShellKey(start, end, isFor)).session.buf;
            if |b.lines| + 2 > 160 then Completed(b, after, start, end, if isFor then "for " else "if ", "", [])
            else if isFor then Completed(b, after, start, end, "for item in ", "; do", ["  ", "done"])
            else Completed(b, after, start, end, "if [ ", " ]; then", ["  ", "fi"])
  {
    var b := d.session.buf;
    hide Apply, Completed, Clean, Kept, CompleteShell, ReplaceRange;
    ShellEdited(d, start, end, isFor);
    if |b.lines| + 2 > 160 {
      OnlyReplaced(b, start, end, if isFor then "for " else "if ");
    } else if isFor {
      ForIsCompleted(b, start, end);
    } else {
      IfIsCompleted(b, start, end);
    }
  }

  lemma ShellEdited(d: Desk, start: nat, end: nat, isFor: bool)
    requires DeskFine(d) && start <= end <= |d.session.buf.lines[d.session.buf.row]|
    ensures var b := d.session.buf;
            Apply(d, ShellKey(start, end, isFor)).session.buf
            == if |b.lines| + 2 > 160 then ReplaceRange(b, start, end, if isFor then "for " else "if ")
               else CompleteShell(b, start, end, isFor)
  {
    hide Apply, Clean, Kept, CompleteShell, ReplaceRange, Push;
    AppliedOnce(d, ShellKey(start, end, isFor));
  }

  lemma ForIsCompleted(b: Buf, start: nat, end: nat)
    requires Fine(b) && start <= end <= |b.lines[b.row]| && |b.lines| + 2 <= 160
    ensures Completed(b, CompleteShell(b, start, end, true), start, end, "for item in ", "; do", ["  ", "done"])
  {
    var indent := Indent(b.lines[b.row]);
    assert "for item in " + "; do" == "for item in ; do";
    hide Completed, CompleteBlock, Fine, Indent;
    BlockIsCompleted(b, start, end, "for item in ", "; do", ["  ", "done"], [indent + "  ", indent + "done"]);
  }

  lemma IfIsCompleted(b: Buf, start: nat, end: nat)
    requires Fine(b) && start <= end <= |b.lines[b.row]| && |b.lines| + 2 <= 160
    ensures Completed(b, CompleteShell(b, start, end, false), start, end, "if [ ", " ]; then", ["  ", "fi"])
  {
    var indent := Indent(b.lines[b.row]);
    assert "if [ " + " ]; then" == "if [  ]; then";
    hide Completed, CompleteBlock, Fine, Indent;
    BlockIsCompleted(b, start, end, "if [ ", " ]; then", ["  ", "fi"], [indent + "  ", indent + "fi"]);
  }

  /** Any other completion replaces the typed range. */
  lemma ReplacedRange(d: Desk, start: nat, end: nat, text: string)
    requires DeskFine(d) && start <= end <= |d.session.buf.lines[d.session.buf.row]| && OneLine(text)
    ensures Completed(d.session.buf, Apply(d, ReplaceKey(start, end, text)).session.buf, start, end, text, "", [])
  {
    hide Apply, Completed, Clean, Kept, ReplaceRange;
    AppliedOnce(d, ReplaceKey(start, end, text));
    OnlyReplaced(d.session.buf, start, end, text);
  }

  lemma BlockIsCompleted(b: Buf, start: nat, end: nat, left: string, right: string, words: seq<string>,
                         below: seq<string>)
    requires Fine(b) && start <= end <= |b.lines[b.row]| && |words| == |below| <= 160 - |b.lines|
    requires forall i :: 0 <= i < |words| ==> OneLine(words[i]) && below[i] == Indent(b.lines[b.row]) + words[i]
    requires OneLine(left) && OneLine(right)
    ensures Completed(b, CompleteBlock(b, start, end, left + right, |right|, below), start, end, left, right, words)
  {
    forall i | 0 <= i < |below|
      ensures OneLine(below[i])
    {
      IndentedIsClean(b.lines[b.row], words[i]);
    }
    assert OneLine(left + right);
    hide CompleteBlock, Indent, OneLine;
    CompletionIsFine(b, start, end, left + right, |right|, below);
    hide Clean, Fine, Inside;
    var line := b.lines[b.row];
    Regroup(line[..start], left, right);
    Around(b.lines, b.row, line[..start] + left + right + line[end..], below);
  }

  lemma Around(lines: seq<string>, row: int, put: string, below: seq<string>)
    requires 0 <= row < |lines|
    ensures var r := lines[..row] + [put] + below + lines[row + 1..];
            && |r| == |lines| + |below| && r[row] == put && (forall i :: 0 <= i < row ==> r[i] == lines[i])
            && (forall i :: 0 <= i < |below| ==> r[row + 1 + i] == below[i])
            && forall i :: row < i < |lines| ==> r[i + |below|] == lines[i]
  {
  }

  lemma OnlyReplaced(b: Buf, start: nat, end: nat, text: string)
    requires Fine(b) && start <= end <= |b.lines[b.row]| && OneLine(text)
    ensures Completed(b, ReplaceRange(b, start, end, text), start, end, text, "", [])
  {
    var below: seq<string> := [];
    assert CompleteBlock(b, start, end, text, 0, below).lines == ReplaceRange(b, start, end, text).lines;
    BlockIsCompleted(b, start, end, text, "", [], below);
    assert text + "" == text;
  }

  // ---------------------------------------------------------------- characters that come

  /** P pastes characters in front of the one under the cursor and p behind it; at the end of a line
      both paste there. */
  lemma PastedCharacters(d: Desk, front: string, c: nat, rest: string, above: bool)
    requires DeskFine(d) && d.chars.Some? && d.chars.value != "" && Fits(d.session.buf, d.chars.value)
    requires c < 0x11_0000 && d.session.buf.col == |front|
    requires d.session.buf.lines[d.session.buf.row] == front + Utf8(c) + rest
    ensures var b, after := d.session.buf, Apply(d, PasteKey(above)).session.buf;
            var text, at := Joined(b.lines), At(b) + if above then 0 else |Utf8(c)|;
            Fine(after) && at <= |text| && Joined(after.lines) == text[..at] + d.chars.value + text[at..]
  {
    var b := d.session.buf;
    hide Apply, PasteText, Joined, Clean, Kept, NextIndex, Utf8, Push, Fits;
    AppliedOnce(d, PasteKey(above));
    NextIsOneCharacter(front, c, rest);
    assert |front + Utf8(c) + rest| == |front| + |Utf8(c)| + |rest|;
    var col := if above then b.col else b.col + |Utf8(c)|;
    assert Poised(d, PasteKey(above)) == b.(col := col);
    assert Fits(b.(col := col), d.chars.value) by { FitsByLines(b, col, d.chars.value); }
    PastedAt(b, col, d.chars.value);
  }

  lemma FitsByLines(b: Buf, col: nat, pasted: string)
    ensures Fits(b.(col := col), pasted) <==> Fits(b, pasted)
  {
  }

  lemma PastedAt(b: Buf, col: nat, pasted: string)
    requires Fine(b) && b.col <= col <= |b.lines[b.row]| && Fits(b, pasted)
    ensures var text, at, after := Joined(b.lines), At(b) + (col - b.col), PasteText(b.(col := col), pasted);
            Fine(after) && at <= |text| && Joined(after.lines) == text[..at] + pasted + text[at..]
  {
    hide PasteText, Joined, Clean;
    SameRowOffset(b, col);
    PasteIsTextual(b.(col := col), pasted);
  }

  lemma SameRowOffset(b: Buf, col: nat)
    requires Fine(b) && b.col <= col <= |b.lines[b.row]|
    ensures At(b.(col := col)) == At(b) + (col - b.col)
  {
    OffsetIsCounted(b.lines, Cursor(b));
    OffsetIsCounted(b.lines, Point(b.row, col));
  }
}
