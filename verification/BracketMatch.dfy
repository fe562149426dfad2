/** match_bracket of gd: the scan over the lines of a source, and the flat text it amounts to. */
module BracketMatch {
  import opened Options
  import opened Brackets

  datatype Place = Place(line: int, column: int)

  /** The characters before line ln. */
  function Offset(lines: seq<string>, ln: int): nat
    requires 0 <= ln <= |lines|
  {
    if ln == 0 then 0 else Offset(lines, ln - 1) + |lines[ln - 1]|
  }

  /** The lines without anything between them. */
  function Text(lines: seq<string>): string {
    if lines == [] then "" else Text(lines[..|lines| - 1]) + lines[|lines| - 1]
  }

  predicate OnChar(lines: seq<string>, at: Place) {
    0 <= at.line < |lines| && 0 <= at.column < |lines[at.line]|
  }

  predicate OnBracket(lines: seq<string>, at: Place) {
    OnChar(lines, at) && IsBracket(lines[at.line][at.column])
  }

  predicate IsBracket(c: char) { IsOpen(c) || IsClose(c) }

  function Flat(lines: seq<string>, at: Place): nat
    requires OnChar(lines, at)
  {
    Offset(lines, at.line) + at.column
  }

  // ---------------------------------------------------------------- lines and flat text

  lemma {:induction false} TextLength(lines: seq<string>)
    ensures |Text(lines)| == Offset(lines, |lines|)
  {
    if lines != [] {
      var init := lines[..|lines| - 1];
      TextLength(init);
      OffsetOfPrefix(lines, |lines| - 1, |lines| - 1);
    }
  }

  lemma {:induction false} OffsetOfPrefix(lines: seq<string>, ln: int, n: int)
    requires 0 <= ln <= n <= |lines|
    ensures Offset(lines[..n], ln) == Offset(lines, ln)
  {
    if ln > 0 {
      OffsetOfPrefix(lines, ln - 1, n);
    }
  }

  lemma {:induction false} OffsetsGrow(lines: seq<string>, ln: int, later: int)
    requires 0 <= ln <= later <= |lines|
    ensures Offset(lines, ln) <= Offset(lines, later)
    decreases later
  {
    if ln < later {
      OffsetsGrow(lines, ln, later - 1);
    }
  }

  /** The flat text has at a place's flat position what the line has there. */
  lemma {:induction false} CharAt(lines: seq<string>, at: Place)
    requires OnChar(lines, at)
    ensures Flat(lines, at) < |Text(lines)| && Text(lines)[Flat(lines, at)] == lines[at.line][at.column]
    decreases |lines|
  {
    var last := |lines| - 1;
    TextLength(lines[..last]);
    OffsetOfPrefix(lines, last, last);
    if at.line < last {
      CharAt(lines[..last], at);
      OffsetOfPrefix(lines, at.line, last);
    }
  }

  lemma FlatIsInjective(lines: seq<string>, at: Place, other: Place)
    requires OnChar(lines, at) && OnChar(lines, other) && Flat(lines, at) == Flat(lines, other)
    ensures at == other
  {
    if at.line < other.line {
      OffsetsGrow(lines, at.line + 1, other.line);
    } else if other.line < at.line {
      OffsetsGrow(lines, other.line + 1, at.line);
    }
  }

  // ---------------------------------------------------------------- the scan

  /** The first bracket of a line at or after a column. */
  function FirstBracket(t: string, column: int): (c: Option<int>)
    requires 0 <= column
    ensures c.Some? ==> column <= c.value < |t| && t[c.value] in "([{)]}" && IsBracket(t[c.value])
    ensures forall i :: column <= i < (if c.Some? then c.value else |t|) ==> t[i] !in "([{)]}"
    decreases |t| - column
  {
    if column >= |t| then None
    else if IsBracket(t[column]) then Some(column)
    else FirstBracket(t, column + 1)
  }

  /** Past the ends of lines, and over empty ones, to the next character or out of the text. */
  method Settle(lines: seq<string>, at: Place, direction: int) returns (place: Place)
    requires 0 <= at.line < |lines| && (direction == 1 || direction == -1)
    requires if direction == 1 then 0 <= at.column <= |lines[at.line]| else -1 <= at.column < |lines[at.line]|
    ensures var flat := Offset(lines, at.line) + at.column;
            if OnChar(lines, place) then Flat(lines, place) == flat
            else (place.line < 0 || place.line >= |lines|) && flat == if direction == 1 then |Text(lines)| else -1
  {
    var ln, col := at.line, at.column;
    ghost var flat := Offset(lines, ln) + col;
    while 0 <= ln < |lines| && (col < 0 || col >= |lines[ln]|)
      invariant -1 <= ln <= |lines|
      invariant 0 <= ln < |lines| ==>
                  flat == Offset(lines, ln) + col
                  && if direction == 1 then 0 <= col <= |lines[ln]| else -1 <= col < |lines[ln]|
      invariant ln == |lines| ==> direction == 1 && flat == Offset(lines, |lines|)
      invariant ln == -1 ==> direction == -1 && flat == -1
      decreases if direction == 1 then |lines| - ln else ln + 1
    {
      if direction > 0 {
        ln, col := ln + 1, 0;
      } else {
        ln := ln - 1;
        if ln >= 0 { col := |lines[ln]| - 1; }
      }
    }
    TextLength(lines);
    place := Place(ln, col);
  }

  /** Where the scan goes from a flat position, in either direction. */
  function Scan(text: string, flat: int, direction: int, open: char, depth: nat, steps: nat): Option<int>
    requires IsOpen(open) && -1 <= flat <= |text|
  {
    if direction == 1 then (if flat == -1 then None else Forward(text, flat, open, depth, steps))
    else if flat == |text| then None else Backward(text, flat, open, depth, steps)
  }

  /** The loop of match_bracket from a bracket on. */
  method ScanFrom(lines: seq<string>, start: Place, direction: int, open: char) returns (found: Option<Place>)
    requires OnChar(lines, start) && IsOpen(open) && (direction == 1 || direction == -1)
    ensures Flat(lines, start) < |Text(lines)|
    ensures found.Some? ==> OnBracket(lines, found.value)
    ensures (if found.Some? then Some(Flat(lines, found.value)) else None)
         == Scan(Text(lines), Flat(lines, start) + direction, direction, open, 0, STEPS)
  {
    CharAt(lines, start);
    ghost var text := Text(lines);
    ghost var all := Scan(text, Flat(lines, start) + direction, direction, open, 0, STEPS);
    var at, depth, guard := start, 0, 0;
    while guard < STEPS
      invariant 0 <= guard <= STEPS && depth >= 0 && OnChar(lines, at) && Flat(lines, at) < |text|
      invariant Scan(text, Flat(lines, at) + direction, direction, open, depth, STEPS - guard) == all
    {
      ghost var was := Flat(lines, at);
      at := Settle(lines, at.(column := at.column + direction), direction);
      if at.line < 0 || at.line >= |lines| {
        return None;
      }
      CharAt(lines, at);
      var c := lines[at.line][at.column];
      assert text[was + direction] == c;
      if c == (if direction > 0 then open else Partner(open)) {
        depth := depth + 1;
      } else if c == (if direction > 0 then Partner(open) else open) {
        if depth == 0 {
          return Some(at);
        }
        depth := depth - 1;
      }
      guard := guard + 1;
    }
    found := None;
  }

  /** match_bracket as a whole: from the first bracket of the line on. */
  method MatchBracket(lines: seq<string>, at: Place) returns (found: Option<Place>)
    requires lines != [] ==> 0 <= at.line < |lines| && 0 <= at.column
    ensures found.Some? ==> OnBracket(lines, found.value)
    ensures if lines == [] || FirstBracket(lines[at.line], at.column).None? then found.None?
            else
              var start := Place(at.line, FirstBracket(lines[at.line], at.column).value);
              && Flat(lines, start) < |Text(lines)| && IsBracket(Text(lines)[Flat(lines, start)])
              && Match(Text(lines), Flat(lines, start)) == if found.Some? then Some(Flat(lines, found.value)) else None
  {
    if lines == [] { return None; }
    var t := lines[at.line];
    var i := at.column;
    while i < |t| && !IsBracket(t[i])
      invariant at.column <= i
      invariant FirstBracket(t, at.column) == FirstBracket(t, i)
    {
      i := i + 1;
    }
    if i >= |t| { return None; }
    var start := Place(at.line, i);
    CharAt(lines, start);
    var open := if IsOpen(t[i]) then t[i] else Partner(t[i]);
    found := ScanFrom(lines, start, if IsOpen(t[i]) then 1 else -1, open);
  }

  // ---------------------------------------------------------------- what % promises

  /** What a call of match_bracket finds, as its contract has it. */
  ghost predicate Finds(lines: seq<string>, at: Place, found: Place) {
    && OnBracket(lines, at) && OnChar(lines, found)
    && Flat(lines, at) < |Text(lines)| && IsBracket(Text(lines)[Flat(lines, at)])
    && Match(Text(lines), Flat(lines, at)) == Some(Flat(lines, found))
  }

  /** Pressing % on a bracket and again where it lands: back at the start, on the other bracket
      of a pair with balanced text between, after as many steps. */
  lemma PercentReturns(lines: seq<string>, at: Place, found: Place, back: Place)
    requires Finds(lines, at, found)
    ensures OnBracket(lines, found)
    ensures Finds(lines, found, back) <==> back == at
    ensures var (p, q) := (Flat(lines, at), Flat(lines, found));
            (Matched(Text(lines), p, q) && q - p <= 100000) || (Matched(Text(lines), q, p) && p - q <= 100000)
  {
    var text, p, q := Text(lines), Flat(lines, at), Flat(lines, found);
    CharAt(lines, at);
    CharAt(lines, found);
    MatchIsAnInvolution(text, p, q);
    MatchInWords(text, p, q);
    if Finds(lines, found, back) {
      FlatIsInjective(lines, back, at);
    }
  }
}
