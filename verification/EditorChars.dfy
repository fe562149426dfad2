/** Characters of the script editor: bytes of UTF-8, the characters at the two ends of a
    selection, and what x, backspace and a selection take away of them. */
module EditorChars {
  import opened Options
  import opened EditorText
  import opened EditorEdits
  import opened EditorForms

  // ---------------------------------------------------------------- UTF-8

  /** The bytes of a character, as RFC 3629 has them. */
  function Utf8(c: nat): (bytes: string)
    requires c < 0x11_0000
    ensures 1 <= |bytes| <= 4
  {
    if c < 0x80 then [c as char]
    else if c < 0x800 then [(0xC0 + c / 0x40) as char, (0x80 + c % 0x40) as char]
    else if c < 0x1_0000 then
      [(0xE0 + c / 0x1000) as char, (0x80 + c / 0x40 % 0x40) as char, (0x80 + c % 0x40) as char]
    else
      [(0xF0 + c / 0x4_0000) as char, (0x80 + c / 0x1000 % 0x40) as char,
       (0x80 + c / 0x40 % 0x40) as char, (0x80 + c % 0x40) as char]
  }

  /** A step to the right goes over exactly one character, whatever stands before and behind it. */
  lemma NextIsOneCharacter(front: string, c: nat, rest: string)
    requires c < 0x11_0000
    ensures NextIndex(front + Utf8(c) + rest, |front|) == |front| + |Utf8(c)|
  {
    var s := front + Utf8(c) + rest;
    assert s[|front|] == Utf8(c)[0];
  }

  /** A step to the left goes back over exactly one. */
  lemma PrevIsOneCharacter(front: string, c: nat, rest: string)
    requires c < 0x11_0000
    ensures PrevIndex(front + Utf8(c) + rest, |front| + |Utf8(c)|) == |front|
  {
    var s, n := front + Utf8(c) + rest, |Utf8(c)|;
    assert forall i :: 0 <= i < n ==> s[|front| + i] == Utf8(c)[i];
    TrailGoesBack(s, |front|, |front| + n - 1);
  }

  lemma {:induction false} TrailGoesBack(s: string, start: nat, col: nat)
    requires start <= col < |s| && !(0x80 <= s[start] as int < 0xC0)
    requires forall i :: start < i <= col ==> 0x80 <= s[i] as int < 0xC0
    ensures BackOverTrail(s, col) == start
    decreases col
  {
    if start < col { TrailGoesBack(s, start, col - 1); }
  }

  // ---------------------------------------------------------------- how far a point is

  /** The lines above, each with its newline, and the column. */
  lemma {:induction false} OffsetIsCounted(lines: seq<string>, p: Point)
    requires Inside(lines, p)
    ensures Offset(lines, p) == p.col + if p.row == 0 then 0
                                        else Offset(lines, Point(p.row - 1, |lines[p.row - 1]|)) + 1
  {
    if p.row > 0 {
      var end := Point(p.row - 1, |lines[p.row - 1]|);
      OffsetsOrdered(lines, end, p);
      assert Between(lines, end, p) == ["", lines[p.row][..p.col]];
      assert ["", lines[p.row][..p.col]][1..] == [lines[p.row][..p.col]];
    } else {
      assert Head(lines, p) == [lines[0][..p.col]];
    }
  }

  lemma OffsetsDiffer(lines: seq<string>, p: Point, q: Point)
    requires Inside(lines, p) && Inside(lines, q) && Before(p, q) && p != q
    ensures Offset(lines, p) < Offset(lines, q)
  {
    OffsetsOrdered(lines, p, q);
    var lie := Between(lines, p, q);
    if p.row == q.row {
      assert Joined(lie) == lines[p.row][p.col..q.col];
    } else {
      assert |lie| >= 2;
      assert |Joined(lie)| >= 1;
    }
  }

  // ---------------------------------------------------------------- selections

  /** The bytes of the character that stands at a point: none at the end of a line. */
  function Width(lines: seq<string>, p: Point): nat
    requires Inside(lines, p)
  {
    NextIndex(lines[p.row], p.col) - p.col
  }

  /** Where the anchor of a selection counts from, if the text has changed since. */
  function Held(b: Buf, anchor: Point): (a: Point)
    requires Fine(b)
    ensures Inside(b.lines, a) && (Inside(b.lines, anchor) ==> a == anchor)
  {
    var row := if anchor.row < 0 then 0 else if anchor.row >= |b.lines| then |b.lines| - 1 else anchor.row;
    var line := b.lines[row];
    Point(row, if anchor.col < 0 then 0 else if anchor.col > |line| then |line| else anchor.col)
  }

  /** What is selected is the joined text from the earlier end to the later one, with the whole
      character that stands at the later one. */
  lemma SelectionIsWhole(b: Buf, anchor: Point)
    requires Fine(b)
    ensures var text, a, c := Joined(b.lines), Held(b, anchor), Cursor(b);
            var i, j := Offset(b.lines, a), Offset(b.lines, c);
            && i + Width(b.lines, a) <= |text| && j + Width(b.lines, c) <= |text|
            && (i <= j ==> Selected(b, anchor) == text[i..j + Width(b.lines, c)])
            && (j <= i ==> Selected(b, anchor) == text[j..i + Width(b.lines, a)])
  {
    var lines, a, c := b.lines, Held(b, anchor), Cursor(b);
    PastCharacter(lines, a);
    PastCharacter(lines, c);
    if Before(a, c) {
      SelectedFrom(b, anchor, a, c);
      if a != c { OffsetsDiffer(lines, a, c); }
    } else {
      OffsetsDiffer(lines, c, a);
      SelectedFrom(b, anchor, c, a);
    }
  }

  lemma PastCharacter(lines: seq<string>, p: Point)
    requires Inside(lines, p)
    ensures var q := Point(p.row, p.col + Width(lines, p));
            Inside(lines, q) && Offset(lines, q) == Offset(lines, p) + Width(lines, p) <= |Joined(lines)|
  {
    var q := Point(p.row, p.col + Width(lines, p));
    OffsetsOrdered(lines, p, q);
    assert Joined(Between(lines, p, q)) == lines[p.row][p.col..q.col];
  }

  lemma RangeEnds(b: Buf, anchor: Point, first: Point, last: Point)
    requires Fine(b) && Inside(b.lines, first) && Inside(b.lines, last) && Before(first, last)
    requires (first == Held(b, anchor) && last == Cursor(b))
             || (first == Cursor(b) && last == Held(b, anchor) && first != last)
    ensures VisualRange(b, anchor) == (first, Point(last.row, last.col + Width(b.lines, last)))
  {
    hide NextIndex, Clean;
  }

  lemma SelectedFrom(b: Buf, anchor: Point, first: Point, last: Point)
    requires Fine(b) && Inside(b.lines, first) && Inside(b.lines, last) && Before(first, last)
    requires (first == Held(b, anchor) && last == Cursor(b))
             || (first == Cursor(b) && last == Held(b, anchor) && first != last)
    ensures Offset(b.lines, first) <= Offset(b.lines, last) + Width(b.lines, last) <= |Joined(b.lines)|
    ensures Selected(b, anchor) == Joined(b.lines)[Offset(b.lines, first)..Offset(b.lines, last) + Width(b.lines, last)]
  {
    RangeEnds(b, anchor, first, last);
    PastCharacter(b.lines, last);
    hide VisualRange, Offset, Joined, Between, Width, Held, Clean;
    OffsetsOrdered(b.lines, first, Point(last.row, last.col + Width(b.lines, last)));
  }

  /** On one character a selection takes what x takes: its own bytes, all of them. */
  lemma OneCharacterSelected(b: Buf)
    requires Fine(b) && b.col < |b.lines[b.row]|
    ensures Selected(b, Cursor(b)) == b.lines[b.row][b.col..NextIndex(b.lines[b.row], b.col)]
    ensures DeleteVisual(b, Cursor(b)) == EraseNext(b)
  {
  }

  /** A line of whole characters: x takes the one behind the cursor, backspace the one before it. */
  lemma KeysTakeOneCharacter(b: Buf, front: string, c: nat, rest: string)
    requires Fine(b) && c < 0x11_0000 && b.lines[b.row] == front + Utf8(c) + rest
    ensures b.col == |front| ==>
              EraseNext(b).lines == b.lines[b.row := front + rest] && Cursor(EraseNext(b)) == Cursor(b)
    ensures b.col == |front| + |Utf8(c)| ==>
              Backspace(b).lines == b.lines[b.row := front + rest] && Cursor(Backspace(b)) == Point(b.row, |front|)
  {
    var n := |Utf8(c)|;
    NextIsOneCharacter(front, c, rest);
    PrevIsOneCharacter(front, c, rest);
    PartsOfLine(front, Utf8(c), rest);
    hide Utf8, NextIndex, PrevIndex, Edited, WithRows, Clean;
    if b.col == |front| { TakenOut(b, b.col, |front| + n, front + rest); }
    if b.col == |front| + n { TakenOut(b, |front|, b.col, front + rest); }
  }

  lemma PartsOfLine(front: string, character: string, rest: string)
    ensures var line := front + character + rest;
            && line[..|front|] == front && line[|front| + |character|..] == rest
            && front + "" + rest == front + rest
  {
  }

  lemma TakenOut(b: Buf, from: nat, to: nat, left: string)
    requires Fine(b) && from <= to <= |b.lines[b.row]| && left == b.lines[b.row][..from] + "" + b.lines[b.row][to..]
    ensures Edited(b, Point(b.row, from), Point(b.row, to), [""]) == Buf(b.lines[b.row := left], b.row, from)
  {
    OneLineForm(b, Point(b.row, from), Point(b.row, to), "");
    hide Edited;
  }

  // ---------------------------------------------------------------- indentation

  /** All blanks and tabs at the start of a line, and nothing else. */
  lemma {:induction false} IndentIsAllBlanks(s: string)
    ensures Indent(s) == s[..|Indent(s)|]
    ensures forall i :: 0 <= i < |Indent(s)| ==> s[i] in " \t"
    ensures |Indent(s)| < |s| ==> s[|Indent(s)|] !in " \t"
  {
    if s != "" && (s[0] == ' ' || s[0] == '\t') {
      IndentIsAllBlanks(s[1..]);
    }
  }
}
