/** Soft-wrap scrolling of the script editor: the scroll position is kept as a line and a row
    within that line's wrapped rows. */
module EditorScroll {
  import opened EditorText
  import opened EditorEdits

  const EDITOR_TAB_WIDTH := 4

  /** utf8_char_width_at */
  function CharWidth(c: char): nat {
    if c == '\t' then EDITOR_TAB_WIDTH else if c as int < 0x80 then 1 else 2
  }

  /** editor_visual_col, from byte i on */
  function VisualFrom(line: string, i: nat, col: int): nat
    decreases |line| - i
  {
    if i >= |line| || i >= col then 0
    else CharWidth(line[i]) + VisualFrom(line, i + CharLen(line, i), col)
  }

  function VisualCol(line: string, col: int): nat {
    VisualFrom(line, 0, col)
  }

  /** editor_wrapped_rows_for_line: at least one row, and the cursor's row on its own line. */
  function Rows(b: Buf, r: nat, wrap: nat): (n: nat)
    requires Fine(b) && r < |b.lines| && wrap >= 1
    ensures n >= 1
    ensures r == b.row ==> VisualCol(b.lines[b.row], b.col) / wrap < n
  {
    var visual := VisualCol(b.lines[r], |b.lines[r]|);
    var rows := if visual > 0 then (visual + wrap - 1) / wrap else 1;
    var cursorRow := VisualCol(b.lines[b.row], b.col) / wrap;
    var all := if r == b.row && rows <= cursorRow then cursorRow + 1 else rows;
    if all < 1 then 1 else all
  }

  /** The screen rows above line n. */
  function RowsAbove(b: Buf, n: nat, wrap: nat): nat
    requires Fine(b) && n <= |b.lines| && wrap >= 1
  {
    if n == 0 then 0 else RowsAbove(b, n - 1, wrap) + Rows(b, n - 1, wrap)
  }

  lemma {:induction false} RowsGrow(b: Buf, n: nat, later: nat, wrap: nat)
    requires Fine(b) && n <= later <= |b.lines| && wrap >= 1
    ensures RowsAbove(b, n, wrap) + (later - n) <= RowsAbove(b, later, wrap)
    decreases later
  {
    if n < later { RowsGrow(b, n, later - 1, wrap); }
  }

  /** The cursor's screen row, from the top of the text. */
  function CursorRow(b: Buf, wrap: nat): nat
    requires Fine(b) && wrap >= 1
  {
    RowsAbove(b, b.row, wrap) + VisualCol(b.lines[b.row], b.col) / wrap
  }

  function Total(b: Buf, wrap: nat): nat
    requires Fine(b) && wrap >= 1
  {
    RowsAbove(b, |b.lines|, wrap)
  }

  /** The cursor is always on one of the rows. */
  lemma CursorIsInText(b: Buf, wrap: nat)
    requires Fine(b) && wrap >= 1
    ensures CursorRow(b, wrap) < Total(b, wrap)
  {
    RowsGrow(b, b.row + 1, |b.lines|, wrap);
  }

  function MaxScroll(b: Buf, rows: nat, wrap: nat): nat
    requires Fine(b) && wrap >= 1
  {
    if Total(b, wrap) > rows then Total(b, wrap) - rows else 0
  }

  /** The window over a text: `buf` stands for the fields of the editor that it only reads. */
  class Viewport {
    var buf: Buf
    var firstRow: int
    var firstWrapRow: int

    constructor (buf: Buf)
      requires Fine(buf)
      ensures this.buf == buf && firstRow == 0 && firstWrapRow == 0
    {
      this.buf, firstRow, firstWrapRow := buf, 0, 0;
    }

    /** editor_scroll_screen_row */
    function ScrollRow(wrap: nat): nat
      requires Fine(buf) && 0 <= firstRow < |buf.lines| && wrap >= 1
      reads this
    {
      RowsAbove(buf, firstRow, wrap) + Clamp(firstWrapRow, 0, Rows(buf, firstRow, wrap) - 1)
    }

    /** editor_set_scroll_screen_row: reading the position back gives the clamped one. */
    method SetScroll(scroll: int, rows: nat, wrap: nat)
      requires Fine(buf) && wrap >= 1 && rows >= 1
      modifies this`firstRow, this`firstWrapRow
      ensures 0 <= firstRow < |buf.lines| && 0 <= firstWrapRow < Rows(buf, firstRow, wrap)
      ensures ScrollRow(wrap) == Clamp(scroll, 0, MaxScroll(buf, rows, wrap))
    {
      var total := TotalRows(wrap);
      var target := Clamp(scroll, 0, if total > rows then total - rows else 0);
      RowsGrow(buf, 0, |buf.lines|, wrap);
      assert target < Total(buf, wrap);
      var acc, r := 0, 0;
      while r < |buf.lines|
        invariant 0 <= r <= |buf.lines| && acc == RowsAbove(buf, r, wrap) <= target
      {
        var wrapped := Rows(buf, r, wrap);
        if target < acc + wrapped {
          firstRow, firstWrapRow := r, target - acc;
          return;
        }
        acc, r := acc + wrapped, r + 1;
      }
    }

    /** editor_total_screen_rows */
    method TotalRows(wrap: nat) returns (total: nat)
      requires Fine(buf) && wrap >= 1
      ensures total == Total(buf, wrap) >= 1
    {
      total := 0;
      for r := 0 to |buf.lines|
        invariant total == RowsAbove(buf, r, wrap)
      {
        total := total + Rows(buf, r, wrap);
      }
      RowsGrow(buf, 0, |buf.lines|, wrap);
    }

    /** editor_ensure_cursor_visible: the cursor's row is in the window, the window within the
        text, and the window only moves as far as it must. */
    method EnsureCursorVisible(rows: nat, wrap: nat)
      requires Fine(buf) && wrap >= 1 && rows >= 1 && 0 <= firstRow < |buf.lines|
      modifies this`firstRow, this`firstWrapRow
      ensures 0 <= firstRow < |buf.lines|
      ensures ScrollRow(wrap) <= CursorRow(buf, wrap) < ScrollRow(wrap) + rows
      ensures ScrollRow(wrap) <= MaxScroll(buf, rows, wrap)
      ensures var before := Clamp(old(ScrollRow(wrap)), 0, MaxScroll(buf, rows, wrap));
              var cursor := CursorRow(buf, wrap);
              ScrollRow(wrap) == if cursor < before then cursor
                                 else if cursor >= before + rows then cursor - rows + 1 else before
    {
      SetScroll(ScrollRow(wrap), rows, wrap);
      var scroll := ScrollRow(wrap);
      var cursor := CursorRow(buf, wrap);
      CursorIsInText(buf, wrap);
      var kept := if cursor < scroll then cursor else if cursor >= scroll + rows then cursor - rows + 1 else scroll;
      SetScroll(kept, rows, wrap);
    }
  }
}
