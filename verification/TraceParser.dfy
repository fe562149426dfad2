/** The line parser of strace-src: process prefixes, stack frames, and what a line is. */
module TraceParser {
  import opened Options
  import opened CStrings

  // ---------------------------------------------------------------- numbers

  /** The digits a text starts with. */
  function Digits(s: string): (d: string)
    ensures d <= s && forall i :: 0 <= i < |d| ==> IsDigit(d[i])
  {
    if s != "" && IsDigit(s[0]) then [s[0]] + Digits(s[1..]) else ""
  }

  function Value(d: string): nat
    requires forall i :: 0 <= i < |d| ==> IsDigit(d[i])
  {
    if d == "" then 0
    else
      assert IsDigit(d[|d| - 1]);
      Value(d[..|d| - 1]) * 10 + (d[|d| - 1] as int - '0' as int)
  }

  /** strtol on text without leading space: the value, and how much of the text it took. */
  function Strtol(s: string): (int, nat) {
    var sign := s != "" && (s[0] == '-' || s[0] == '+');
    var d := Digits(if sign then s[1..] else s);
    if d == "" then (0, 0)
    else
      var v: int := Value(d);
      (Saturated(if sign && s[0] == '-' then -v else v), |d| + if sign then 1 else 0)
  }

  function Saturated(v: int): int {
    if v > 0x7fff_ffff_ffff_ffff then 0x7fff_ffff_ffff_ffff
    else if v < -0x8000_0000_0000_0000 then -0x8000_0000_0000_0000
    else v
  }

  /** The cast of a long to an int. */
  function AsInt(v: int): int {
    var low := v % 0x1_0000_0000;
    if low < 0x8000_0000 then low else low - 0x1_0000_0000
  }

  function Decimal(n: nat): string {
    if n < 10 then [('0' as int + n) as char] else Decimal(n / 10) + [('0' as int + n % 10) as char]
  }

  // ---------------------------------------------------------------- the process prefix

  /** strip_pid_prefix: the process, 0 when none is named, and the text behind the prefix. */
  function StripPid(line: string): (int, string) {
    var p := TrimLeft(line);
    if "[pid" <= p && |p| > 4 && IsSpace(p[4]) then
      var q := TrimLeft(p[4..]);
      var (v, n) := Strtol(q);
      if 0 < n < |q| && q[n] == ']' then (AsInt(v), TrimLeft(q[n + 1..])) else (0, q)
    else if p != "" && IsDigit(p[0]) then
      var (v, n) := Strtol(p);
      if 0 < n < |p| && IsSpace(p[n]) then (AsInt(v), TrimLeft(p[n..])) else (0, p)
    else (0, p)
  }

  /** The text of an event, as append_event writes it. */
  function EventText(pid: int, body: string): string {
    if pid > 0 then "[pid " + Decimal(pid) + "] " + body else body
  }

  // ---------------------------------------------------------------- stack frames

  datatype Frame = Frame(moduleName: string, function_: string, offset: string, address: string)

  /** strrchr: the last position of c, or None. */
  function Last(s: string, c: char): (i: Option<nat>)
    ensures i.Some? ==> i.value < |s| && s[i.value] == c
  {
    if s == "" then None
    else if s[|s| - 1] == c then Some(|s| - 1)
    else Last(s[..|s| - 1], c)
  }

  /** Where the offset of a function starts: behind the last plus before "0x" at or below k. */
  function OffsetAt(s: string, k: nat): (i: Option<nat>)
    requires k <= |s|
    ensures i.Some? ==> 0 < i.value <= k
  {
    if k == 0 then None
    else if k + 1 < |s| && s[k - 1] == '+' && s[k] == '0' && s[k + 1] == 'x' then Some(k)
    else OffsetAt(s, k - 1)
  }

  /** parse_frame on a text that starts with the frame mark. */
  function ParseFrame(body: string): Option<Frame> {
    if body == "" || body[0] != '>' then None
    else
      var s := TrimLeft(body[1..]);
      var open := IndexOf(s, '(');
      var bracket := Last(s, '[');
      if open == |s| || bracket.None? || open >= bracket.value then None
      else
        var end := IndexOf(s[bracket.value..], ']');
        var call := TrimRight(s[..bracket.value]);
        if end == |s| - bracket.value || |call| <= open + 1 || call[|call| - 1] != ')' then None
        else
          Some(FrameOf(s[..open], call[open + 1..|call| - 1], s[bracket.value + 1..bracket.value + end]))
  }

  /** A frame from its parts; what is between the parentheses may end in an offset. */
  function FrameOf(moduleName: string, inner: string, address: string): Frame {
    var at := OffsetAt(inner, |inner|);
    if at.Some? then Frame(moduleName, inner[..at.value - 1], inner[at.value..], address)
    else Frame(moduleName, inner, "", address)
  }

  // ---------------------------------------------------------------- what a line is

  datatype LineKind = Ignored | FrameLine(frame: Frame) | CallLine(pid: int, text: string)

  function TrimBreaks(s: string): string {
    if s != "" && (s[|s| - 1] == '\n' || s[|s| - 1] == '\r') then TrimBreaks(s[..|s| - 1]) else s
  }

  /** The decisions of trace_model_feed_line. */
  function KindOf(line: string): LineKind {
    var (pid, body) := StripPid(line);
    if body == "" then Ignored
    else if body[0] == '>' then
      var frame := ParseFrame(body);
      if frame.Some? then FrameLine(frame.value) else Ignored
    else if "+++" <= body || "---" <= body || "strace:" <= body then Ignored
    else CallLine(pid, EventText(pid, TrimBreaks(body)))
  }

  // ---------------------------------------------------------------- prefixes read back

  lemma {:induction false} DecimalDigits(n: nat)
    ensures Decimal(n) != "" && forall i :: 0 <= i < |Decimal(n)| ==> IsDigit(Decimal(n)[i])
    ensures Value(Decimal(n)) == n
    decreases n
  {
    var d := Decimal(n);
    if n >= 10 {
      DecimalDigits(n / 10);
      assert d[..|d| - 1] == Decimal(n / 10);
    } else {
      assert d[..|d| - 1] == "";
    }
  }

  lemma {:induction false} DigitsAhead(d: string, rest: string)
    requires forall i :: 0 <= i < |d| ==> IsDigit(d[i])
    requires rest == "" || !IsDigit(rest[0])
    ensures Digits(d + rest) == d
  {
    if d == "" {
      assert d + rest == rest;
    } else {
      assert (d + rest)[1..] == d[1..] + rest;
      DigitsAhead(d[1..], rest);
      assert [d[0]] + d[1..] == d;
    }
  }

  lemma StrtolReadsBack(n: nat, rest: string)
    requires n < 0x8000_0000 && (rest == "" || !IsDigit(rest[0]))
    ensures Strtol(Decimal(n) + rest) == (n, |Decimal(n)|)
  {
    DecimalDigits(n);
    DigitsAhead(Decimal(n), rest);
    assert (Decimal(n) + rest)[0] == Decimal(n)[0];
  }

  /** The text of an event gives back the process and the call it was made of; so does the
      other prefix that the tracer writes. */
  lemma PrefixReadsBack(pid: int, body: string)
    requires 0 < pid < 0x8000_0000 && body != "" && !IsSpace(body[0])
    ensures StripPid(EventText(pid, body)) == (pid, body)
    ensures StripPid(Decimal(pid) + " " + body) == (pid, body)
  {
    BracketPrefix(pid, body);
    NumberPrefix(pid, body);
  }

  lemma SpaceThen(s: string)
    requires s != "" && !IsSpace(s[0])
    ensures TrimLeft(s) == s && TrimLeft(" " + s) == s
  {
    assert (" " + s)[1..] == s;
  }

  lemma BracketPrefix(pid: int, body: string)
    requires 0 < pid < 0x8000_0000 && body != "" && !IsSpace(body[0])
    ensures StripPid(EventText(pid, body)) == (pid, body)
  {
    var d := Decimal(pid);
    DecimalDigits(pid);
    StrtolReadsBack(pid, "] " + body);
    SpaceThen(body);
    hide *;
    BracketText(d, body);
    var q := d + ("] " + body);
    DigitIsNoSpace(d, "] " + body);
    SpaceThen(q);
    SpaceThen("[pid" + (" " + q));
    StartsWithPid(q);
    AfterBracket("[pid" + (" " + q), q, pid, body, |d|);
    EventTextIs(pid, body);
  }

  lemma EventTextIs(pid: int, body: string)
    requires pid > 0
    ensures EventText(pid, body) == "[pid " + Decimal(pid) + "] " + body
  {
  }

  lemma DigitIsNoSpace(d: string, rest: string)
    requires d != "" && forall i :: 0 <= i < |d| ==> IsDigit(d[i])
    ensures (d + rest) != "" && !IsSpace((d + rest)[0]) && IsDigit((d + rest)[0])
    ensures !IsSpace(("[pid" + (" " + (d + rest)))[0])
  {
    assert (d + rest)[0] == d[0];
  }

  lemma BracketText(d: string, body: string)
    requires d != "" && body != "" && TrimLeft(" " + body) == body
    ensures "[pid" + (" " + (d + ("] " + body))) == "[pid " + d + "] " + body
    ensures var q := d + ("] " + body);
            |d| < |q| && q[|d|] == ']' && TrimLeft(q[|d| + 1..]) == body
  {
    hide TrimLeft;
    var q := d + ("] " + body);
    assert q[|d| + 1..] == " " + body;
    assert "[pid" + " " == "[pid ";
  }

  lemma AfterBracket(line: string, q: string, pid: int, body: string, n: nat)
    requires TrimLeft(line) == line && "[pid" <= line && |line| > 4 && IsSpace(line[4]) && TrimLeft(line[4..]) == q
    requires Strtol(q) == (pid, n) && 0 < n < |q| && q[n] == ']' && TrimLeft(q[n + 1..]) == body
    requires 0 < pid < 0x8000_0000
    ensures StripPid(line) == (pid, body)
  {
    hide Strtol, TrimLeft, IsSpace;
  }

  lemma StartsWithPid(q: string)
    requires q != "" && !IsSpace(q[0])
    ensures var line := "[pid" + (" " + q);
            "[pid" <= line && |line| > 4 && IsSpace(line[4]) && TrimLeft(line[4..]) == q
  {
    SpaceThen(q);
    hide TrimLeft;
    var line := "[pid" + (" " + q);
    assert line[4..] == " " + q;
  }

  lemma NumberPrefix(pid: int, body: string)
    requires 0 < pid < 0x8000_0000 && body != "" && !IsSpace(body[0])
    ensures StripPid(Decimal(pid) + " " + body) == (pid, body)
  {
    var d := Decimal(pid);
    hide *;
    DecimalDigits(pid);
    StrtolReadsBack(pid, " " + body);
    SpaceThen(body);
    DigitIsNoSpace(d, " " + body);
    var line := d + (" " + body);
    SpaceThen(line);
    AfterNumber(line, pid, body, d);
    Regroup(d, " ", body);
  }

  lemma AfterNumber(line: string, pid: int, body: string, d: string)
    requires d != "" && line == d + (" " + body) && TrimLeft(line) == line && TrimLeft(" " + body) == body
    requires IsDigit(line[0]) && Strtol(line) == (pid, |d|) && 0 < pid < 0x8000_0000
    ensures StripPid(line) == (pid, body)
  {
    hide Strtol, TrimLeft;
    assert line[|d|] == ' ' && line[|d|..] == " " + body;
    AfterDigits(line, pid, body, |d|);
  }

  lemma AfterDigits(line: string, pid: int, body: string, n: nat)
    requires TrimLeft(line) == line != "" && IsDigit(line[0]) && Strtol(line) == (pid, n) && 0 < pid < 0x8000_0000
    requires 0 < n < |line| && IsSpace(line[n]) && TrimLeft(line[n..]) == body
    ensures StripPid(line) == (pid, body)
  {
    hide Strtol, TrimLeft;
    assert "[pid"[0] == '[';
  }

  // ---------------------------------------------------------------- frames read back

  /** A frame as the tracer prints it. */
  function ShowFrame(f: Frame): string {
    ">" + (" " + (ShowCall(f) + " [" + f.address + "]"))
  }

  function ShowCall(f: Frame): string {
    f.moduleName + "(" + ShowFunction(f) + ")"
  }

  function ShowFunction(f: Frame): string {
    if f.offset == "" then f.function_ else f.function_ + "+" + f.offset
  }

  predicate Without(s: string, c: char) {
    forall i :: 0 <= i < |s| ==> s[i] != c
  }

  /** No offset could be read inside the text. */
  predicate NoOffset(s: string) {
    OffsetAt(s, |s|).None?
  }

  predicate Printable(f: Frame) {
    && Without(f.moduleName, '(') && (f.moduleName == "" || !IsSpace(f.moduleName[0]))
    && Without(f.address, '[') && Without(f.address, ']')
    && (f.offset == "" ==> NoOffset(f.function_))
    && (f.offset != "" ==> "0x" <= f.offset && NoOffset(f.offset) && Without(f.offset, '+'))
  }

  lemma {:induction false} FirstAhead(s: string, c: char, rest: string)
    requires Without(s, c)
    ensures IndexOf(s + [c] + rest, c) == |s|
  {
    if s != "" {
      assert (s + [c] + rest)[1..] == s[1..] + [c] + rest;
      FirstAhead(s[1..], c, rest);
    }
  }

  lemma {:induction false} LastBehind(s: string, c: char, rest: string)
    requires Without(rest, c)
    ensures Last(s + [c] + rest, c) == Some(|s|)
    decreases |rest|
  {
    var all := s + [c] + rest;
    if rest == "" {
      assert all == s + [c];
    } else {
      assert all[..|all| - 1] == s + [c] + rest[..|rest| - 1];
      LastBehind(s, c, rest[..|rest| - 1]);
    }
  }

  /** The offset of a call is found behind its plus, whatever the name contains. */
  lemma {:induction false} OffsetFound(name: string, offset: string, k: nat)
    requires "0x" <= offset && Without(offset, '+') && |name| + 1 <= k <= |name| + 1 + |offset|
    ensures OffsetAt(name + "+" + offset, k) == Some(|name| + 1)
    decreases k
  {
    var s := name + "+" + offset;
    assert s[|name|] == '+' && s[|name| + 1] == '0' && s[|name| + 2] == 'x';
    if k > |name| + 1 {
      assert s[k - 1] == offset[k - 2 - |name|];
      OffsetFound(name, offset, k - 1);
    }
  }

  /** The parts of a printed frame, found again behind its mark. */
  lemma OpenFound(f: Frame, more: string)
    requires Printable(f)
    ensures IndexOf(f.moduleName + "(" + more, '(') == |f.moduleName|
  {
    FirstAhead(f.moduleName, '(', more);
    assert f.moduleName + "(" + more == f.moduleName + ['('] + more;
  }

  lemma AddressFound(f: Frame, call: string)
    requires Printable(f) && call != "" && call[|call| - 1] == ')'
    ensures var s := call + " [" + f.address + "]";
            && Last(s, '[') == Some(|call| + 1)
            && IndexOf(s[|call| + 1..], ']') == |f.address| + 1
            && TrimRight(s[..|call| + 1]) == call
            && s[|call| + 2..|call| + 2 + |f.address|] == f.address
  {
    hide Last, IndexOf, TrimRight;
    var s := call + " [" + f.address + "]";
    var behind := f.address + "]";
    assert s == (call + " ") + ['['] + behind;
    assert Without(behind, '[');
    LastBehind(call + " ", '[', behind);
    var at := "[" + f.address;
    assert s[|call| + 1..] == at + [']'] + "";
    assert Without(at, ']');
    FirstAhead(at, ']', "");
    assert s[..|call| + 1] == call + " ";
    TrimOne(call);
  }

  lemma TrimOne(call: string)
    requires call != "" && call[|call| - 1] == ')'
    ensures TrimRight(call + " ") == call
  {
    assert (call + " ")[..|call|] == call;
  }

  /** A printed frame is read back part by part; the function's name may contain anything but,
      when there is no offset, something that looks like one. */
  lemma FrameReadsBack(f: Frame)
    requires Printable(f)
    ensures ParseFrame(ShowFrame(f)) == Some(f)
  {
    hide IndexOf, Last, TrimRight, OffsetAt, TrimLeft, ParseFrame, FrameOf, Printable, ShowFunction, ShowFrame;
    var inner, call := ShowFunction(f), ShowCall(f);
    var s := call + " [" + f.address + "]";
    PartsOfCall(f.moduleName, inner, f.address);
    OpenFound(f, inner + ")" + " [" + f.address + "]");
    AddressFound(f, call);
    FrameBehindMark(f, s);
    InnerReadsBack(f);
    PartsMakeFrame(f, ShowFrame(f), s, call, inner);
  }

  lemma PartsOfCall(m: string, inner: string, address: string)
    ensures var call := m + "(" + inner + ")";
            var s := call + " [" + address + "]";
            && s == m + "(" + (inner + ")" + " [" + address + "]") && |s| == |call| + 3 + |address|
            && |m| < |call| - 1 && call[|call| - 1] == ')'
            && call[|m| + 1..|call| - 1] == inner && s[..|m|] == m
  {
  }

  lemma FrameBehindMark(f: Frame, s: string)
    requires Printable(f) && s == ShowCall(f) + " [" + f.address + "]"
    ensures ShowFrame(f) != "" && ShowFrame(f)[0] == '>' && TrimLeft(ShowFrame(f)[1..]) == s
  {
    assert s[0] == if f.moduleName == "" then '(' else f.moduleName[0];
    SpaceThen(s);
    hide TrimLeft;
    assert (">" + (" " + s))[1..] == " " + s;
  }

  lemma PartsMakeFrame(f: Frame, body: string, s: string, call: string, inner: string)
    requires body != "" && body[0] == '>' && TrimLeft(body[1..]) == s
    requires IndexOf(s, '(') == |f.moduleName| < |call| - 1 && Last(s, '[') == Some(|call| + 1)
    requires IndexOf(s[|call| + 1..], ']') == |f.address| + 1 && |s| == |call| + 3 + |f.address|
    requires TrimRight(s[..|call| + 1]) == call && call[|call| - 1] == ')'
    requires s[..|f.moduleName|] == f.moduleName && call[|f.moduleName| + 1..|call| - 1] == inner
    requires s[|call| + 2..|call| + 2 + |f.address|] == f.address
    requires FrameOf(f.moduleName, inner, f.address) == f
    ensures ParseFrame(body) == Some(f)
  {
    hide IndexOf, Last, TrimRight, FrameOf, TrimLeft, ParseFrame;
    FrameFrom(body, s, |f.moduleName|, |call| + 1, |f.address| + 1, call, f);
  }

  lemma FrameFrom(body: string, s: string, open: nat, bracket: nat, end: nat, call: string, f: Frame)
    requires body != "" && body[0] == '>' && TrimLeft(body[1..]) == s
    requires IndexOf(s, '(') == open < |s| && Last(s, '[') == Some(bracket) && open < bracket < |s|
    requires IndexOf(s[bracket..], ']') == end < |s| - bracket
    requires TrimRight(s[..bracket]) == call && |call| > open + 1 && call[|call| - 1] == ')'
    requires FrameOf(s[..open], call[open + 1..|call| - 1], s[bracket + 1..bracket + end]) == f
    ensures ParseFrame(body) == Some(f)
  {
    hide IndexOf, Last, TrimRight, FrameOf, TrimLeft;
  }

  lemma InnerReadsBack(f: Frame)
    requires Printable(f)
    ensures FrameOf(f.moduleName, ShowFunction(f), f.address) == f
  {
    if f.offset != "" {
      OffsetFound(f.function_, f.offset, |ShowFunction(f)|);
    }
  }
}
