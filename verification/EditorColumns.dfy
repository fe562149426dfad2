/** How wide a text is on the screen, how many rows it takes, and where the cursor is on it. */
module EditorColumns {
  import opened EditorText
  import opened EditorEdits
  import opened EditorChars
  import opened EditorScroll

  type Character = c: int | 0 <= c < 0x11_0000

  function Encoded(text: seq<Character>): string {
    if text == [] then "" else Utf8(text[0]) + Encoded(text[1..])
  }

  /** The columns of a text: four for a tab, one for any other ASCII character, two for the rest. */
  function Columns(text: seq<Character>): nat {
    if text == [] then 0 else (if text[0] == 9 then 4 else if text[0] < 128 then 1 else 2) + Columns(text[1..])
  }

  /** Rows filled one after the other; at least one. */
  function RowsFor(columns: nat, wrap: nat): (n: nat)
    requires wrap >= 1
    ensures n >= 1
  {
    if columns <= wrap then 1 else 1 + RowsFor(columns - wrap, wrap)
  }

  lemma CharacterAt(front: string, c: Character, rest: string)
    ensures var line := front + Utf8(c) + rest;
            CharLen(line, |front|) == |Utf8(c)|
            && CharWidth(line[|front|]) == if c == 9 then 4 else if c < 128 then 1 else 2
  {
    var line := front + Utf8(c) + rest;
    NextIsOneCharacter(front, c, rest);
    assert line[|front|] == Utf8(c)[0];
  }

  lemma {:induction false} VisualOfText(front: string, text: seq<Character>, rest: string)
    ensures VisualFrom(front + Encoded(text) + rest, |front|, |front| + |Encoded(text)|) == Columns(text)
    decreases |text|
  {
    hide CharLen, CharWidth, Utf8;
    if text != [] {
      var c, more := text[0], Encoded(text[1..]);
      assert front + Encoded(text) + rest == front + Utf8(c) + (more + rest);
      assert front + Encoded(text) + rest == (front + Utf8(c)) + more + rest;
      CharacterAt(front, c, more + rest);
      VisualOfText(front + Utf8(c), text[1..], rest);
    }
  }

  /** Behind a text one is as far to the right as the text has columns. */
  lemma WidthIsColumns(text: seq<Character>, rest: string)
    ensures VisualCol(Encoded(text) + rest, |Encoded(text)|) == Columns(text)
  {
    VisualOfText("", text, rest);
    assert "" + Encoded(text) + rest == Encoded(text) + rest;
  }

  lemma {:induction false} RowsRoundUp(columns: nat, wrap: nat)
    requires wrap >= 1
    ensures RowsFor(columns, wrap) == if columns == 0 then 1 else (columns + wrap - 1) / wrap
    decreases columns
  {
    if columns > wrap {
      RowsRoundUp(columns - wrap, wrap);
      OneRowMore(columns - 1, wrap);
    } else if columns > 0 {
      OneRowMore(columns - 1, wrap);
      Less(columns - 1, wrap);
    }
  }

  lemma OneRowMore(n: int, wrap: nat)
    requires wrap >= 1
    ensures (n + wrap) / wrap == n / wrap + 1
  {
    var q, m := n / wrap, n % wrap;
    assert n + wrap == (q + 1) * wrap + m;
    Quotient(n + wrap, wrap, q + 1, m);
  }

  lemma Quotient(n: int, wrap: nat, q: int, m: nat)
    requires wrap >= 1 && n == q * wrap + m && m < wrap
    ensures n / wrap == q
  {
    var d := n / wrap - q;
    assert d * wrap == m - n % wrap;
    AtLeastOne(d, wrap);
    AtLeastOne(-d, wrap);
  }

  lemma AtLeastOne(d: int, wrap: nat)
    ensures d >= 1 ==> d * wrap >= wrap
  {
  }

  lemma Less(n: nat, wrap: nat)
    requires n < wrap
    ensures n / wrap == 0
  {
  }

  // ---------------------------------------------------------------- a whole text

  /** The lines of the editor show these texts, and the cursor stands between two parts of one. */
  predicate ShowsText(b: Buf, texts: seq<seq<Character>>, before: seq<Character>, after: seq<Character>) {
    && Fine(b) && |texts| == |b.lines| && (forall i :: 0 <= i < |texts| ==> b.lines[i] == Encoded(texts[i]))
    && texts[b.row] == before + after && b.col == |Encoded(before)|
  }

  function RowsOfTexts(texts: seq<seq<Character>>, wrap: nat): nat
    requires wrap >= 1
  {
    if texts == [] then 0 else RowsOfTexts(texts[..|texts| - 1], wrap) + RowsFor(Columns(texts[|texts| - 1]), wrap)
  }

  lemma {:induction false} EncodedJoins(a: seq<Character>, b: seq<Character>)
    ensures Encoded(a + b) == Encoded(a) + Encoded(b) && Columns(a + b) == Columns(a) + Columns(b)
  {
    if a == [] {
      assert a + b == b;
    } else {
      assert (a + b)[1..] == a[1..] + b;
      EncodedJoins(a[1..], b);
    }
  }

  lemma RowsOfLine(b: Buf, texts: seq<seq<Character>>, before: seq<Character>, after: seq<Character>, r: nat, wrap: nat)
    requires ShowsText(b, texts, before, after) && r < |b.lines| && r != b.row && wrap >= 1
    ensures Rows(b, r, wrap) == RowsFor(Columns(texts[r]), wrap)
  {
    WidthIsColumns(texts[r], "");
    assert Encoded(texts[r]) + "" == Encoded(texts[r]);
    RowsRoundUp(Columns(texts[r]), wrap);
  }

  lemma CursorColumn(b: Buf, texts: seq<seq<Character>>, before: seq<Character>, after: seq<Character>)
    requires ShowsText(b, texts, before, after)
    ensures VisualCol(b.lines[b.row], b.col) == Columns(before)
    ensures VisualCol(b.lines[b.row], |b.lines[b.row]|) == Columns(before) + Columns(after)
  {
    EncodedJoins(before, after);
    WidthIsColumns(before, Encoded(after));
    WidthIsColumns(before + after, "");
    assert Encoded(before + after) + "" == Encoded(before + after);
  }

  /** The cursor's line has a row more than its text when the text fills its last row and the
      cursor stands behind it. */
  lemma RowsOfCursorLine(b: Buf, texts: seq<seq<Character>>, before: seq<Character>, after: seq<Character>, wrap: nat)
    requires ShowsText(b, texts, before, after) && wrap >= 1
    ensures Rows(b, b.row, wrap)
            == RowsFor(Columns(texts[b.row]), wrap)
               + if Columns(after) == 0 && Columns(before) > 0 && Columns(before) % wrap == 0 then 1 else 0
  {
    CursorColumn(b, texts, before, after);
    EncodedJoins(before, after);
    var c, all := Columns(before), Columns(before) + Columns(after);
    RowsRoundUp(all, wrap);
    assert Fine(b) && Columns(texts[b.row]) == all;
    hide VisualCol, Columns, ShowsText, RowsFor, Encoded, Fine;
    RowsAgainstCursor(c, all, wrap);
  }

  /** How many rows a width rounds up to, against the row that a column in it is on. */
  lemma RowsAgainstCursor(c: nat, all: nat, wrap: nat)
    requires wrap >= 1 && c <= all
    ensures all > 0 ==> var rows := (all + wrap - 1) / wrap;
                        c / wrap <= rows && (rows <= c / wrap <==> c == all && c % wrap == 0)
    ensures all == 0 ==> c / wrap == 0
  {
    if all > 0 {
      OneRowMore(all - 1, wrap);
      var q, m := (all - 1) / wrap, (all - 1) % wrap;
      if c < all {
        Monotone(c, all - 1, wrap);
      } else if m == wrap - 1 {
        assert all == (q + 1) * wrap + 0;
        Quotient(all, wrap, q + 1, 0);
      } else {
        assert all == q * wrap + (m + 1);
        Quotient(all, wrap, q, m + 1);
      }
    } else {
      Less(0, wrap);
    }
  }

  lemma Monotone(a: nat, b: nat, wrap: nat)
    requires wrap >= 1 && a <= b
    ensures a / wrap <= b / wrap
  {
    var d := a / wrap - b / wrap;
    AtLeastOne(d, wrap);
    assert d * wrap == a / wrap * wrap - b / wrap * wrap;
  }

  lemma {:induction false} RowsAboveOfTexts(b: Buf, texts: seq<seq<Character>>, before: seq<Character>,
                                            after: seq<Character>, n: nat, wrap: nat)
    requires ShowsText(b, texts, before, after) && n <= b.row && wrap >= 1
    ensures RowsAbove(b, n, wrap) == RowsOfTexts(texts[..n], wrap)
  {
    hide Rows, RowsFor, Columns, Encoded;
    if n > 0 {
      RowsOfLine(b, texts, before, after, n - 1, wrap);
      RowsAboveOfTexts(b, texts, before, after, n - 1, wrap);
      assert texts[..n][..n - 1] == texts[..n - 1];
    }
  }

  /** The cursor's row on the screen, from the top of the text: the rows of the lines above, and
      those that the text before the cursor fills. */
  lemma CursorRowIsCounted(b: Buf, texts: seq<seq<Character>>, before: seq<Character>, after: seq<Character>, wrap: nat)
    requires ShowsText(b, texts, before, after) && wrap >= 1
    ensures CursorRow(b, wrap) == RowsOfTexts(texts[..b.row], wrap) + Columns(before) / wrap
  {
    RowsAboveOfTexts(b, texts, before, after, b.row, wrap);
    CursorColumn(b, texts, before, after);
  }

  /** The rows of all lines, those of the cursor's line as stated above. */
  lemma {:induction false} TotalIsCounted(b: Buf, texts: seq<seq<Character>>, before: seq<Character>,
                                          after: seq<Character>, n: nat, wrap: nat)
    requires ShowsText(b, texts, before, after) && b.row < n <= |texts| && wrap >= 1
    ensures RowsAbove(b, n, wrap)
            == RowsOfTexts(texts[..n], wrap)
               + if Columns(after) == 0 && Columns(before) > 0 && Columns(before) % wrap == 0 then 1 else 0
    decreases n
  {
    hide Rows, RowsFor, Columns, Encoded;
    assert texts[..n][..n - 1] == texts[..n - 1];
    if n - 1 == b.row {
      RowsOfCursorLine(b, texts, before, after, wrap);
      RowsAboveOfTexts(b, texts, before, after, n - 1, wrap);
    } else {
      RowsOfLine(b, texts, before, after, n - 1, wrap);
      TotalIsCounted(b, texts, before, after, n - 1, wrap);
    }
  }

  /** Scrolled as far as it goes, the window ends with the last row; a text that fits stays put. */
  lemma FurthestScroll(b: Buf, texts: seq<seq<Character>>, before: seq<Character>, after: seq<Character>,
                       rows: nat, wrap: nat)
    requires ShowsText(b, texts, before, after) && wrap >= 1
    ensures var behind := Columns(after) == 0 && Columns(before) > 0 && Columns(before) % wrap == 0;
            var all := RowsOfTexts(texts, wrap) + if behind then 1 else 0;
            if all <= rows then MaxScroll(b, rows, wrap) == 0 else MaxScroll(b, rows, wrap) + rows == all
  {
    TotalIsCounted(b, texts, before, after, |texts|, wrap);
    assert texts[..|texts|] == texts;
  }
}
