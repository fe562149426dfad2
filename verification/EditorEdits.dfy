/** The edits of the script editor as functions on its text and cursor, and what each of them
    does to the newline-joined text. */
module EditorEdits {
  import opened Options
  import opened EditorText

  const EDITOR_LINES := 160

  datatype Buf = Buf(lines: seq<string>, row: int, col: int)

  function Cursor(b: Buf): Point {
    Point(b.row, b.col)
  }

  /** What the editor keeps between two keys. */
  predicate Fine(b: Buf) {
    1 <= |b.lines| <= EDITOR_LINES && Inside(b.lines, Cursor(b)) && Clean(b.lines)
  }

  /** What a snapshot may hold: its column can be beyond the end of its line. */
  predicate Storable(b: Buf) {
    1 <= |b.lines| <= EDITOR_LINES && Clean(b.lines) && 0 <= b.row < |b.lines| && 0 <= b.col
  }

  lemma FineIsStorable(b: Buf)
    requires Fine(b)
    ensures Storable(b)
  {
  }

  function At(b: Buf): nat
    requires Fine(b)
  {
    Offset(b.lines, Cursor(b))
  }

  // ---------------------------------------------------------------- bytes

  /** utf8_char_len_at */
  function CharLen(s: string, i: nat): (n: nat)
    requires i < |s|
    ensures 1 <= n <= |s| - i
  {
    var c := s[i] as int;
    if c < 0x80 then 1
    else if 0xc0 <= c < 0xe0 && i + 1 < |s| then 2
    else if 0xe0 <= c < 0xf0 && i + 2 < |s| then 3
    else if 0xf0 <= c < 0xf8 && i + 3 < |s| then 4
    else 1
  }

  /** utf8_next_index */
  function NextIndex(s: string, col: nat): (n: nat)
    ensures n <= |s| && (col < |s| ==> col < n)
  {
    if col >= |s| then |s| else col + CharLen(s, col)
  }

  function BackOverTrail(s: string, col: nat): (n: nat)
    requires col < |s|
    ensures n <= col
  {
    if col > 0 && 0x80 <= s[col] as int < 0xc0 then BackOverTrail(s, col - 1) else col
  }

  /** utf8_prev_index */
  function PrevIndex(s: string, col: nat): (n: nat)
    requires col <= |s|
    ensures n <= col && (col > 0 ==> n < col)
  {
    if col == 0 then 0 else BackOverTrail(s, col - 1)
  }

  /** The blanks and tabs a line starts with. */
  function Indent(s: string): (r: string)
    ensures r <= s
  {
    if s != "" && (s[0] == ' ' || s[0] == '\t') then [s[0]] + Indent(s[1..]) else ""
  }

  // ---------------------------------------------------------------- the edits

  /** A range replaced, the cursor left at the end of what was put in. */
  function Edited(b: Buf, p: Point, q: Point, ins: seq<string>): Buf
    requires Inside(b.lines, p) && Inside(b.lines, q) && Before(p, q) && ins != []
  {
    var end := End(Glue(Head(b.lines, p), ins));
    Buf(Replace(b.lines, p, q, ins), end.row, end.col)
  }

  /** editor_insert_bytes; editor_insert_char is the case of one byte */
  function InsertBytes(b: Buf, bytes: string): Buf
    requires Fine(b)
  {
    Edited(b, Cursor(b), Cursor(b), [bytes])
  }

  /** editor_newline, when there is room */
  function Newline(b: Buf): Buf
    requires Fine(b)
  {
    Edited(b, Cursor(b), Cursor(b), ["", Indent(b.lines[b.row])])
  }

  /** Where editor_backspace starts deleting. */
  function BackFrom(b: Buf): (p: Point)
    requires Fine(b)
    ensures Inside(b.lines, p) && Before(p, Cursor(b))
  {
    if b.col > 0 then Point(b.row, PrevIndex(b.lines[b.row], b.col))
    else if b.row > 0 then Point(b.row - 1, |b.lines[b.row - 1]|)
    else Cursor(b)
  }

  /** editor_backspace, except at the very start */
  function Backspace(b: Buf): Buf
    requires Fine(b)
  {
    Edited(b, BackFrom(b), Cursor(b), [""])
  }

  /** The key x: the character at the cursor, unless the line ends there. */
  function EraseNext(b: Buf): Buf
    requires Fine(b)
  {
    Edited(b, Cursor(b), Point(b.row, NextIndex(b.lines[b.row], b.col)), [""])
  }

  function Clamp(n: int, low: int, high: int): int {
    if n < low then low else if n > high then high else n
  }

  /** Lines with n of them taken out; an empty one stays if none is left. */
  function Without(lines: seq<string>, at: int, n: int): (r: seq<string>)
    requires 0 <= at && 0 <= n && at + n <= |lines|
    ensures r != []
  {
    var left := lines[..at] + lines[at + n..];
    if left == [] then [""] else left
  }

  /** editor_delete_lines */
  function DeleteLines(b: Buf, count: int): Buf
    requires Storable(b)
  {
    if |b.lines| <= 1 then Buf([""], 0, 0)
    else
      var lines := Without(b.lines, b.row, Clamp(count, 1, |b.lines| - b.row));
      var row := Clamp(b.row, 0, |lines| - 1);
      Buf(lines, row, Clamp(b.col, 0, |lines[row]|))
  }

  /** editor_visual_char_range: from the earlier end to past the character at the later one. */
  function VisualRange(b: Buf, anchor: Point): (r: (Point, Point))
    requires Fine(b)
    ensures Inside(b.lines, r.0) && Inside(b.lines, r.1) && Before(r.0, r.1)
  {
    var ar := Clamp(anchor.row, 0, |b.lines| - 1);
    var a := Point(ar, Clamp(anchor.col, 0, |b.lines[ar]|));
    var c := Cursor(b);
    var (first, last) := if a.row < c.row || (a.row == c.row && a.col <= c.col) then (a, c) else (c, a);
    (first, Point(last.row, NextIndex(b.lines[last.row], last.col)))
  }

  /** editor_copy_visual_chars: the selected text. */
  function Selected(b: Buf, anchor: Point): string
    requires Fine(b)
  {
    var (p, q) := VisualRange(b, anchor);
    Joined(Between(b.lines, p, q))
  }

  /** editor_delete_visual_chars */
  function DeleteVisual(b: Buf, anchor: Point): Buf
    requires Fine(b)
  {
    var (p, q) := VisualRange(b, anchor);
    Edited(b, p, q, [""])
  }

  /** Whether editor_paste_text stays within the line limit. */
  predicate Fits(b: Buf, text: string) {
    |b.lines| + |Split(text)| - 1 <= EDITOR_LINES
  }

  /** editor_paste_text, when it fits */
  function PasteText(b: Buf, text: string): Buf
    requires Fine(b)
  {
    Edited(b, Cursor(b), Cursor(b), Split(text))
  }

  /** editor_paste_lines with a line clipboard */
  function PasteLines(b: Buf, clipboard: seq<string>, above: bool): Buf
    requires Fine(b)
  {
    var at := if above then b.row else b.row + 1;
    var n := Clamp(|clipboard|, 0, EDITOR_LINES - |b.lines|);
    Buf(b.lines[..at] + clipboard[..n] + b.lines[at..], at, 0)
  }

  /** The cursor one character to the right, where `p` pastes. */
  function StepRight(b: Buf): Buf
    requires Fine(b)
  {
    b.(col := NextIndex(b.lines[b.row], b.col))
  }

  /** editor_replace_range */
  function ReplaceRange(b: Buf, start: int, end: int, text: string): Buf
    requires Fine(b) && start <= |b.lines[b.row]|
  {
    var from := Clamp(start, 0, |b.lines[b.row]|);
    Edited(b, Point(b.row, from), Point(b.row, Clamp(end, from, |b.lines[b.row]|)), [text])
  }

  function InsertLines(b: Buf, at: int, lines: seq<string>): Buf
    requires 0 <= at <= |b.lines|
  {
    b.(lines := b.lines[..at] + lines + b.lines[at..])
  }

  /** A range replaced, the cursor some way back from its end, and lines put below. */
  function CompleteBlock(b: Buf, start: int, end: int, header: string, back: nat, below: seq<string>): Buf
    requires Fine(b) && start <= |b.lines[b.row]|
  {
    var r := ReplaceRange(b, start, end, header);
    InsertLines(r.(col := r.col - back), b.row + 1, below)
  }

  /** editor_complete_tui_block, when one more line fits */
  function CompleteTui(b: Buf, start: int, end: int): Buf
    requires Fine(b) && start <= |b.lines[b.row]|
  {
    CompleteBlock(b, start, end, "@tui ", 0, [Indent(b.lines[b.row]) + "@end"])
  }

  /** editor_complete_shell_block, when two more lines fit */
  function CompleteShell(b: Buf, start: int, end: int, isFor: bool): Buf
    requires Fine(b) && start <= |b.lines[b.row]|
  {
    var indent := Indent(b.lines[b.row]);
    if isFor then CompleteBlock(b, start, end, "for item in ; do", 4, [indent + "  ", indent + "done"])
    else CompleteBlock(b, start, end, "if [  ]; then", 8, [indent + "  ", indent + "fi"])
  }

  // ---------------------------------------------------------------- what they mean

  /** An edit of a range, in terms of the joined text: the text of the range is replaced, and
      the cursor stands after the replacement. */
  lemma EditIsTextual(b: Buf, p: Point, q: Point, ins: seq<string>)
    requires Fine(b) && Inside(b.lines, p) && Inside(b.lines, q) && Before(p, q) && ins != [] && Clean(ins)
    requires |b.lines| - (q.row - p.row) + |ins| - 1 <= EDITOR_LINES
    ensures var text, after := Joined(b.lines), Edited(b, p, q, ins);
            && Fine(after) && Offset(b.lines, p) <= Offset(b.lines, q) <= |text|
            && Joined(after.lines) == text[..Offset(b.lines, p)] + Joined(ins) + text[Offset(b.lines, q)..]
            && At(after) == Offset(b.lines, p) + |Joined(ins)|
  {
    ReplaceIsTextual(b.lines, p, q, ins);
    EndOfReplacement(b.lines, p, q, ins);
    CleanReplace(b.lines, p, q, ins);
  }

  /** Typing puts the bytes at the cursor. */
  lemma InsertIsTextual(b: Buf, bytes: string)
    requires Fine(b) && OneLine(bytes)
    ensures var text, after := Joined(b.lines), InsertBytes(b, bytes);
            && Fine(after) && At(b) <= |text| && At(after) == At(b) + |bytes|
            && Joined(after.lines) == text[..At(b)] + bytes + text[At(b)..]
  {
    EditIsTextual(b, Cursor(b), Cursor(b), [bytes]);
  }

  /** A new line puts a newline and the line's indentation at the cursor. */
  lemma NewlineIsTextual(b: Buf)
    requires Fine(b) && |b.lines| < EDITOR_LINES
    ensures var text, after := Joined(b.lines), Newline(b);
            var added := "\n" + Indent(b.lines[b.row]);
            && Fine(after) && At(b) <= |text| && At(after) == At(b) + |added|
            && Joined(after.lines) == text[..At(b)] + added + text[At(b)..]
  {
    hide Edited, Indent, Joined, Clean;
    var indent := Indent(b.lines[b.row]);
    IndentIsOneLine(b);
    TwoLines(indent);
    EditIsTextual(b, Cursor(b), Cursor(b), ["", indent]);
  }

  lemma IndentIsOneLine(b: Buf)
    requires Fine(b)
    ensures OneLine(Indent(b.lines[b.row]))
  {
    assert OneLine(b.lines[b.row]);
  }

  lemma TwoLines(u: string)
    requires OneLine(u)
    ensures Clean(["", u]) && Joined(["", u]) == "\n" + u
  {
    assert ["", u][1..] == [u];
  }

  /** Backspace takes away what lies between the new cursor and the old one: the bytes of one
      character, or the newline before the line. */
  lemma BackspaceIsTextual(b: Buf)
    requires Fine(b) && Cursor(b) != Point(0, 0)
    ensures var text, after := Joined(b.lines), Backspace(b);
            && Fine(after) && At(after) < At(b) <= |text|
            && Joined(after.lines) == text[..At(after)] + text[At(b)..]
            && (b.col == 0 ==> text[At(after)..At(b)] == "\n")
            && (b.col > 0 ==> text[At(after)..At(b)] == b.lines[b.row][PrevIndex(b.lines[b.row], b.col)..b.col])
  {
    hide Edited, Joined, Between, BackFrom;
    var p, q := BackFrom(b), Cursor(b);
    EditIsTextual(b, p, q, [""]);
    OffsetsOrdered(b.lines, p, q);
    BackspaceTakes(b);
    NothingJoined();
    var before := Joined(b.lines)[..Offset(b.lines, p)];
    hide At, Offset, Inside, Before, Clean, PrevIndex;
    assert before + "" == before;
  }

  /** x takes away the bytes of the character at the cursor, which stays where it is. */
  lemma EraseNextIsTextual(b: Buf)
    requires Fine(b) && b.col < |b.lines[b.row]|
    ensures var text, after := Joined(b.lines), EraseNext(b);
            var erased := b.lines[b.row][b.col..NextIndex(b.lines[b.row], b.col)];
            && Fine(after) && Cursor(after) == Cursor(b) && At(after) == At(b) && At(b) + |erased| <= |text|
            && text[At(b)..At(b) + |erased|] == erased
            && Joined(after.lines) == text[..At(b)] + text[At(b) + |erased|..]
  {
    var line := b.lines[b.row];
    var p, q := Cursor(b), Point(b.row, NextIndex(line, b.col));
    EraseForm(b, q);
    SameLineBetween(b.lines, p, q);
    hide Edited, Joined, Between, NextIndex, Offset, Clean, Inside, Before;
    RangeIsErased(b, p, q);
  }

  lemma RangeIsErased(b: Buf, p: Point, q: Point)
    requires Fine(b) && Inside(b.lines, p) && Inside(b.lines, q) && Before(p, q)
    ensures var text, after, erased := Joined(b.lines), Edited(b, p, q, [""]), Joined(Between(b.lines, p, q));
            && Fine(after) && At(after) == Offset(b.lines, p) && Offset(b.lines, p) + |erased| <= |text|
            && text[Offset(b.lines, p)..Offset(b.lines, p) + |erased|] == erased
            && Joined(after.lines) == text[..Offset(b.lines, p)] + text[Offset(b.lines, p) + |erased|..]
  {
    hide Edited, Joined, Between, Offset;
    EditIsTextual(b, p, q, [""]);
    OffsetsOrdered(b.lines, p, q);
    NothingJoined();
    var before := Joined(b.lines)[..Offset(b.lines, p)];
    assert before + "" == before;
  }

  lemma EraseForm(b: Buf, q: Point)
    requires Fine(b) && Inside(b.lines, q) && q.row == b.row && b.col < q.col
    ensures Cursor(Edited(b, Cursor(b), q, [""])) == Cursor(b) && Before(Cursor(b), q)
  {
  }

  lemma SameLineBetween(lines: seq<string>, p: Point, q: Point)
    requires Inside(lines, p) && Inside(lines, q) && p.row == q.row && p.col <= q.col
    ensures Joined(Between(lines, p, q)) == lines[p.row][p.col..q.col]
  {
  }

  lemma CleanSlice(lines: seq<string>, from: int, to: int)
    requires Clean(lines) && 0 <= from <= to <= |lines|
    ensures Clean(lines[from..to])
  {
  }

  lemma NewlineAlone()
    ensures Joined(["", ""]) == "\n"
  {
    assert ["", ""][1..] == [""];
  }

  lemma BackspaceTakes(b: Buf)
    requires Fine(b) && Cursor(b) != Point(0, 0)
    ensures Joined(Between(b.lines, BackFrom(b), Cursor(b)))
            == if b.col == 0 then "\n" else b.lines[b.row][PrevIndex(b.lines[b.row], b.col)..b.col]
  {
    if b.col == 0 {
      var before := b.lines[b.row - 1];
      assert before[|before|..] == "" && b.lines[b.row][..0] == "" && b.lines[b.row..b.row] == [];
      assert Between(b.lines, BackFrom(b), Cursor(b)) == [""] + [] + [""] == ["", ""];
      NewlineAlone();
    }
  }

  /** It does not matter at which end of the selection the cursor is. */
  lemma SelectionIsSymmetric(b: Buf, anchor: Point)
    requires Fine(b) && Inside(b.lines, anchor)
    ensures VisualRange(b, anchor) == VisualRange(Buf(b.lines, anchor.row, anchor.col), Cursor(b))
  {
  }

  /** Deleting the selection takes away exactly the text that copying it saves. */
  lemma DeleteVisualIsTextual(b: Buf, anchor: Point)
    requires Fine(b)
    ensures var text, after, kept := Joined(b.lines), DeleteVisual(b, anchor), Selected(b, anchor);
            && Fine(after) && At(after) + |kept| <= |text|
            && text[At(after)..At(after) + |kept|] == kept
            && Joined(after.lines) == text[..At(after)] + text[At(after) + |kept|..]
  {
    hide VisualRange, Between, Edited, Offset, Joined, At;
    var (p, q) := VisualRange(b, anchor);
    RangeIsErased(b, p, q);
  }

  lemma NothingJoined()
    ensures Joined([""]) == ""
  {
  }

  /** Pasting puts the text at the cursor and leaves the cursor after it. */
  lemma PasteIsTextual(b: Buf, pasted: string)
    requires Fine(b) && Fits(b, pasted)
    ensures var text, after := Joined(b.lines), PasteText(b, pasted);
            && Fine(after) && At(b) <= |text| && At(after) == At(b) + |pasted|
            && Joined(after.lines) == text[..At(b)] + pasted + text[At(b)..]
  {
    EditIsTextual(b, Cursor(b), Cursor(b), Split(pasted));
    JoinedSplit(pasted);
  }

  /** Deleting the selection and pasting it back at the cursor restores every line, and the
      pasted text always fits the line limit. */
  lemma DeletePasteIsIdentity(b: Buf, anchor: Point)
    requires Fine(b)
    ensures var cut := DeleteVisual(b, anchor);
            && Fine(cut) && Fits(cut, Selected(b, anchor))
            && PasteText(cut, Selected(b, anchor)).lines == b.lines
  {
    hide VisualRange, Between, Joined;
    var (p, q) := VisualRange(b, anchor);
    EditIsTextual(b, p, q, [""]);
    GlueNothing(Head(b.lines, p));
    DeleteThenPaste(b.lines, p, q);
    CleanBetween(b.lines, p, q);
    SplitJoined(Between(b.lines, p, q));
  }

  /** Deleting lines takes away the lines from the cursor on, as many as asked for, and leaves
      at least one. */
  lemma DeleteLinesKeepsTheOthers(b: Buf, count: int)
    requires Storable(b)
    ensures var after, n := DeleteLines(b, count), Clamp(count, 1, |b.lines| - b.row);
            && Fine(after)
            && (n < |b.lines| ==> after.lines == b.lines[..b.row] + b.lines[b.row + n..])
            && (n == |b.lines| ==> after.lines == [""])
  {
  }

  lemma PasteLinesIsFine(b: Buf, clipboard: seq<string>, above: bool)
    requires Fine(b) && Clean(clipboard) && clipboard != [] && |b.lines| < EDITOR_LINES
    ensures Fine(PasteLines(b, clipboard, above))
  {
  }

  /** The completions keep the buffer in order, with the cursor where the blank is to be filled. */
  lemma CompletionIsFine(b: Buf, start: int, end: int, header: string, back: nat, below: seq<string>)
    requires Fine(b) && start <= |b.lines[b.row]| && OneLine(header) && back <= |header|
    requires Clean(below) && |b.lines| + |below| <= EDITOR_LINES
    ensures var r := CompleteBlock(b, start, end, header, back, below);
            var line, from := b.lines[b.row], Clamp(start, 0, |b.lines[b.row]|);
            && Fine(r) && r.row == b.row && r.col == from + |header| - back
            && r.lines == b.lines[..b.row] + [line[..from] + header + line[Clamp(end, from, |line|)..]]
                          + below + b.lines[b.row + 1..]
  {
    ReplaceRangeIsFine(b, start, end, header);
  }

  lemma IndentedIsClean(line: string, word: string)
    requires OneLine(line) && OneLine(word)
    ensures OneLine(Indent(line) + word)
  {
  }

  lemma ReplaceRangeIsFine(b: Buf, start: int, end: int, text: string)
    requires Fine(b) && start <= |b.lines[b.row]| && OneLine(text)
    ensures var r := ReplaceRange(b, start, end, text);
            Fine(r) && r.row == b.row && |r.lines| == |b.lines| && r.col >= |text|
  {
    var from := Clamp(start, 0, |b.lines[b.row]|);
    EditIsTextual(b, Point(b.row, from), Point(b.row, Clamp(end, from, |b.lines[b.row]|)), [text]);
  }
}
