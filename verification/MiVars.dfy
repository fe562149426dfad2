/** parse_var_list: reading back a list of variables as the debugger prints it. */
module MiVars {
  import opened Options
  import opened CStrings
  import opened MiText
  import opened MiNesting

  const NAME_LEN := 128
  const TYPE_LEN := 256
  const VALUE_LEN := 1024
  const ITEM_LEN := 8192

  datatype Var = Var(name: string, kind: string, value: string)

  // ---------------------------------------------------------------- the parser

  function OpenFrom(s: string, p: nat): (r: Option<nat>)
    requires p <= |s|
    ensures r.Some? ==> p <= r.value < |s|
    decreases |s| - p
  {
    if p == |s| then None else if s[p] == '{' then Some(p) else OpenFrom(s, p + 1)
  }

  /** The variable a record describes, when it has a name. */
  function ReadVar(item: string): Option<Var> {
    var name := MiString(item, "name", NAME_LEN);
    if name.None? then None
    else
      var kind := MiString(item, "type", TYPE_LEN);
      var value := MiString(item, "value", VALUE_LEN);
      Some(Var(name.value, if kind.Some? then kind.value else "", if value.Some? then value.value else "?"))
  }

  function Add(vars: seq<Var>, v: Option<Var>): seq<Var> {
    if v.None? || v.value in vars then vars else vars + [v.value]
  }

  /** The next record of the list, cut to the parser's buffer, and the position behind it. */
  function NextItem(list: string, p: nat, listEnd: nat): (r: Option<(string, nat)>)
    requires p <= |list| && listEnd < |list|
    ensures r.Some? ==> p < r.value.1 <= |list|
  {
    var record := OpenFrom(list, p);
    if record.None? || record.value >= listEnd then None
    else
      var end := EndFrom(list, record.value, '{', '}', 0, false, false);
      if end.None? || end.value > listEnd then None
      else Some((Cut(list[record.value..end.value + 1], ITEM_LEN), end.value + 1))
  }

  /** The loop of parse_var_list. */
  function ParseFrom(list: string, p: nat, listEnd: nat, vars: seq<Var>, max: nat): seq<Var>
    requires p <= |list| && listEnd < |list|
    decreases |list| - p
  {
    if p >= listEnd || |vars| >= max then vars
    else
      var item := NextItem(list, p, listEnd);
      if item.None? then vars else ParseFrom(list, item.value.1, listEnd, Add(vars, ReadVar(item.value.0)), max)
  }

  function ParseVarList(list: string, max: nat): seq<Var> {
    if list == "" || list[0] != '[' then []
    else
      var listEnd := EndFrom(list, 0, '[', ']', 0, false, false);
      if listEnd.None? then [] else ParseFrom(list, 1, listEnd.value, [], max)
  }

  /** mi_string on its own text. */
  method ReadField(line: string, key: string, size: nat) returns (out: Option<string>)
    requires size > 0
    ensures out == MiString(line, key, size)
  {
    var needle := key + "=\"";
    var at := Find(line, needle);
    if at.None? { return None; }
    var text := ReadQuoted(line, at.value + |needle|, size);
    out := Some(text);
  }

  /** parse_var_list */
  method ReadVarList(list: string, max: nat) returns (vars: seq<Var>)
    ensures vars == ParseVarList(list, max)
  {
    hide ReadVar, NextItem, EndFrom;
    vars := [];
    if list == "" || list[0] != '[' { return; }
    var listEnd := ScanEnd(list, 0, '[', ']');
    if listEnd.None? { return; }
    var p := 1;
    while p < listEnd.value && |vars| < max
      invariant 1 <= p <= |list|
      invariant ParseFrom(list, p, listEnd.value, vars, max) == ParseVarList(list, max)
      decreases |list| - p
    {
      var item := ReadItem(list, p, listEnd.value);
      if item.None? { break; }
      var candidate := ReadCandidate(item.value.0);
      if candidate.Some? && candidate.value !in vars {
        vars := vars + [candidate.value];
      }
      p := item.value.1;
    }
  }

  method ReadItem(list: string, p: nat, listEnd: nat) returns (item: Option<(string, nat)>)
    requires p <= |list| && listEnd < |list|
    ensures item == NextItem(list, p, listEnd)
  {
    hide EndFrom, Cut;
    var record := OpenFrom(list, p);
    if record.None? || record.value >= listEnd { return None; }
    var end := ScanEnd(list, record.value, '{', '}');
    if end.None? || end.value > listEnd { return None; }
    item := Some((Cut(list[record.value..end.value + 1], ITEM_LEN), end.value + 1));
  }

  method ReadCandidate(item: string) returns (v: Option<Var>)
    ensures v == ReadVar(item)
  {
    hide MiString;
    var name := ReadField(item, "name", NAME_LEN);
    if name.None? { return None; }
    var value := ReadField(item, "value", VALUE_LEN);
    var kind := ReadField(item, "type", TYPE_LEN);
    v := Some(Var(name.value, if kind.Some? then kind.value else "", if value.Some? then value.value else "?"));
  }

  // ---------------------------------------------------------------- finding a key

  predicate EndsWith(s: string, t: string) {
    |t| <= |s| && s[|s| - |t|..] == t
  }

  predicate Unquoted(s: string) {
    forall i :: 0 <= i < |s| ==> s[i] != '"' && s[i] != '\\'
  }

  /** A literal and the quoted text after it. */
  function Part(lit: string, v: string): string {
    lit + Quoted(v, true)
  }

  lemma {:induction false} QuoteIsProtected(v: string, q: nat)
    requires q < |Esc(v, true)| && Esc(v, true)[q] == '"'
    ensures q > 0 && Esc(v, true)[q - 1] == '\\'
  {
    var e := EscChar(v[0], true);
    if q >= |e| {
      QuoteIsProtected(v[1..], q - |e|);
    }
  }

  lemma PartIndex(lit: string, v: string, rest: string, i: nat)
    requires i < |Part(lit, v)|
    ensures var s, e := Part(lit, v) + rest, Esc(v, true);
            && |Part(lit, v)| == |lit| + |e| + 2
            && (i < |lit| ==> s[i] == lit[i])
            && (|lit| < i < |lit| + 1 + |e| ==> s[i] == e[i - |lit| - 1])
            && (i == |lit| || i == |lit| + 1 + |e| ==> s[i] == '"')
  {
  }

  lemma OccursChars(s: string, needle: string, i: nat)
    requires OccursAt(s, needle, i)
    ensures i + |needle| <= |s| && forall x :: i <= x < i + |needle| ==> s[x] == needle[x - i]
  {
    forall x | i <= x < i + |needle|
      ensures s[x] == needle[x - i]
    {
      assert s[i..][x - i] == needle[x - i];
    }
  }

  /** Where the needle of a key can stand in a part: before the opening quote when the literal
      ends in the key, before the closing one when the printed text does. */
  lemma KeyPlaces(lit: string, v: string, key: string, rest: string, i: nat)
    requires Unquoted(lit) && Unquoted(key) && i < |Part(lit, v)|
    requires OccursAt(Part(lit, v) + rest, key + "=\"", i)
    ensures (i + |key| + 1 == |lit| && EndsWith(lit, key + "="))
            || (i + |key| + 2 == |Part(lit, v)| && EndsWith(Esc(v, true), key + "="))
  {
    hide OccursAt, EndsWith, Part, Esc;
    var s, e, needle := Part(lit, v) + rest, Esc(v, true), key + "=\"";
    var word := key + "=";
    var last := i + |word|;
    var closing := |lit| + 1 + |e|;
    OccursChars(s, needle, i);
    PartIndex(lit, v, rest, i);
    PartIndex(lit, v, rest, closing);
    assert last <= closing;
    PartIndex(lit, v, rest, last);
    PartIndex(lit, v, rest, last - 1);
    assert s[last] == '"' && s[last - 1] == '=';
    if last != |lit| && last != closing {
      QuoteIsProtected(v, last - |lit| - 1);
    }
    KeyBefore(s, i, lit, v, rest, word, last);
  }

  /** The needle's text stands before the quote at `last`, within the literal or the text. */
  lemma KeyBefore(s: string, i: nat, lit: string, v: string, rest: string, word: string, last: nat)
    requires s == Part(lit, v) + rest && last == i + |word| && (last == |lit| || last == |lit| + 1 + |Esc(v, true)|)
    requires forall x :: i <= x < last ==> s[x] == word[x - i] != '"'
    ensures last == |lit| ==> EndsWith(lit, word)
    ensures last != |lit| ==> EndsWith(Esc(v, true), word)
  {
    var e := Esc(v, true);
    if last == |lit| {
      forall x | i <= x < last
        ensures lit[x] == word[x - i]
      {
        PartIndex(lit, v, rest, x);
      }
      assert lit[i..] == word;
    } else {
      PartIndex(lit, v, rest, |lit|);
      assert i > |lit|;
      var from := i - |lit| - 1;
      forall x | from <= x < |e|
        ensures e[x] == word[x - from]
      {
        PartIndex(lit, v, rest, x + |lit| + 1);
        assert s[x + |lit| + 1] == word[x - from];
      }
      assert e[from..] == word;
    }
  }

  /** So the key of one field never occurs in another, unless that one's printed text ends in it. */
  lemma NoKeyInPart(lit: string, v: string, key: string, rest: string, i: nat)
    requires Unquoted(lit) && Unquoted(key) && i < |Part(lit, v)|
    requires !EndsWith(lit, key + "=") && !EndsWith(Esc(v, true), key + "=")
    ensures !OccursAt(Part(lit, v) + rest, key + "=\"", i)
  {
    hide OccursAt, EndsWith, Part, Esc;
    if OccursAt(Part(lit, v) + rest, key + "=\"", i) {
      KeyPlaces(lit, v, key, rest, i);
    }
  }

  lemma {:induction false} FindSkips(a: string, rest: string, needle: string)
    requires forall i :: 0 <= i < |a| ==> !OccursAt(a + rest, needle, i)
    ensures Find(a + rest, needle) == var f := Find(rest, needle); if f.Some? then Some(|a| + f.value) else None
  {
    hide OccursAt;
    var s := a + rest;
    if a == "" {
      assert s == rest;
    } else {
      assert s[1..] == a[1..] + rest;
      forall i | 0 <= i < |a| - 1
        ensures !OccursAt(s[1..], needle, i)
      {
        OccursShifted(s, needle, i);
      }
      FindSkips(a[1..], rest, needle);
      assert !OccursAt(s, needle, 0);
      FindLater(s, needle);
    }
  }

  lemma OccursShifted(s: string, needle: string, i: nat)
    requires s != ""
    ensures OccursAt(s[1..], needle, i) <==> OccursAt(s, needle, i + 1)
  {
    if i < |s| { assert s[1..][i..] == s[i + 1..]; }
  }

  lemma FindLater(s: string, needle: string)
    requires s != "" && !OccursAt(s, needle, 0)
    ensures Find(s, needle) == var f := Find(s[1..], needle); if f.Some? then Some(1 + f.value) else None
  {
    assert s[0..] == s;
  }

  lemma FindFirst(s: string, needle: string, at: nat)
    requires needle != "" && OccursAt(s, needle, at) && forall i :: 0 <= i < at ==> !OccursAt(s, needle, i)
    ensures Find(s, needle) == Some(at)
  {
    assert at < |s|;
    hide Find, OccursAt;
  }

  /** A needle ends in a quote, and there is none in the literal. */
  lemma NoneInLiteral(lit: string, v: string, key: string, rest: string, i: nat)
    requires Unquoted(lit) && i + |key| + 1 < |lit|
    ensures !OccursAt(Part(lit, v) + rest, key + "=\"", i)
  {
    var s, needle := Part(lit, v) + rest, key + "=\"";
    var k := |key| + 1;
    PartIndex(lit, v, rest, i + k);
    assert needle[k] == '"' && s[i + k] != '"';
    assert s[i..][k] == s[i + k];
  }

  lemma OwnLiteralOccurs(lit: string, v: string, key: string, rest: string)
    requires EndsWith(lit, key + "=")
    ensures OccursAt(Part(lit, v) + rest, key + "=\"", |lit| - |key| - 1)
  {
    var tail := Esc(v, true) + ['"'] + rest;
    var word := key + "=";
    assert lit == lit[..|lit| - |word|] + word;
    assert Part(lit, v) + rest == lit[..|lit| - |word|] + (key + "=\"" + tail);
  }

  /** A key's own literal is found before anything else. */
  lemma FindsOwnPart(lit: string, v: string, key: string, rest: string)
    requires Unquoted(lit) && EndsWith(lit, key + "=")
    ensures Find(Part(lit, v) + rest, key + "=\"") == Some(|lit| - |key| - 1)
  {
    hide OccursAt, Find, Part;
    forall i | 0 <= i < |lit| - |key| - 1
      ensures !OccursAt(Part(lit, v) + rest, key + "=\"", i)
    {
      NoneInLiteral(lit, v, key, rest, i);
    }
    OwnLiteralOccurs(lit, v, key, rest);
    FindFirst(Part(lit, v) + rest, key + "=\"", |lit| - |key| - 1);
  }

  /** The part of another key is passed over. */
  lemma SkipsPart(lit: string, v: string, key: string, rest: string)
    requires Unquoted(lit) && Unquoted(key)
    requires !EndsWith(lit, key + "=") && !EndsWith(Esc(v, true), key + "=")
    ensures var needle := key + "=\"";
            var f := Find(rest, needle);
            Find(Part(lit, v) + rest, needle) == if f.Some? then Some(|Part(lit, v)| + f.value) else None
  {
    forall i | 0 <= i < |Part(lit, v)|
      ensures !OccursAt(Part(lit, v) + rest, key + "=\"", i)
    {
      NoKeyInPart(lit, v, key, rest, i);
    }
    FindSkips(Part(lit, v), rest, key + "=\"");
  }

  // ---------------------------------------------------------------- where a search lands

  /** The position behind the first occurrence of a key and its opening quote. */
  function Behind(s: string, key: string): (b: Option<nat>)
    ensures b.Some? ==> b.value <= |s|
  {
    var f := Find(s, key + "=\"");
    if f.Some? then Some(f.value + |key| + 2) else None
  }

  lemma ReadsBehind(s: string, key: string, size: nat)
    requires size > 0
    ensures MiString(s, key, size) == var b := Behind(s, key);
            if b.Some? then Some(Decode(s[b.value..], size - 1)) else None
  {
    hide Find, Decode;
  }

  /** A field with the key: behind its own opening quote. */
  lemma LandsInOwnPart(lit: string, v: string, key: string, rest: string)
    requires Unquoted(lit) && EndsWith(lit, key + "=")
    ensures Behind(Part(lit, v) + rest, key) == Some(|lit| + 1)
  {
    hide Find, Part;
    FindsOwnPart(lit, v, key, rest);
  }

  /** A field of another key: the search goes on behind it. */
  lemma PassesPart(lit: string, v: string, key: string, rest: string)
    requires Unquoted(lit) && Unquoted(key)
    requires !EndsWith(lit, key + "=") && !EndsWith(Esc(v, true), key + "=")
    ensures Behind(Part(lit, v) + rest, key) == var b := Behind(rest, key);
            if b.Some? then Some(|Part(lit, v)| + b.value) else None
  {
    hide Find, Part, EndsWith;
    SkipsPart(lit, v, key, rest);
  }

  /** A field of another key whose printed text ends in this one: behind its closing quote. */
  lemma LandsAtPartEnd(lit: string, v: string, key: string, rest: string)
    requires Unquoted(lit) && Unquoted(key)
    requires !EndsWith(lit, key + "=") && EndsWith(Esc(v, true), key + "=")
    ensures Behind(Part(lit, v) + rest, key) == Some(|Part(lit, v)|)
  {
    hide OccursAt, Find, Part, EndsWith, Esc;
    var s, needle := Part(lit, v) + rest, key + "=\"";
    KeyAtPartEnd(lit, v, key, rest);
    var at := |Part(lit, v)| - |key| - 2;
    forall i | 0 <= i < at
      ensures !OccursAt(s, needle, i)
    {
      if OccursAt(s, needle, i) { KeyPlaces(lit, v, key, rest, i); }
    }
    FindFirst(s, needle, at);
  }

  lemma KeyAtPartEnd(lit: string, v: string, key: string, rest: string)
    requires EndsWith(Esc(v, true), key + "=")
    ensures |Part(lit, v)| >= |key| + 2
    ensures OccursAt(Part(lit, v) + rest, key + "=\"", |Part(lit, v)| - |key| - 2)
  {
    hide Esc;
    var e, word := Esc(v, true), key + "=";
    var front := e[..|e| - |word|];
    assert e == front + word;
    NeedleAtEnd(lit, front, key, rest);
  }

  lemma NeedleAtEnd(lit: string, front: string, key: string, rest: string)
    ensures OccursAt(lit + (['"'] + (front + (key + "=")) + ['"']) + rest, key + "=\"", |lit| + 1 + |front|)
  {
    assert key + "=\"" == key + "=" + ['"'];
    assert lit + (['"'] + (front + (key + "=")) + ['"']) + rest == (lit + ['"'] + front) + (key + "=\"" + rest);
    NeedleBehind(lit + ['"'] + front, key + "=\"", rest);
  }

  lemma NeedleBehind(a: string, needle: string, rest: string)
    ensures OccursAt(a + (needle + rest), needle, |a|)
  {
    assert (a + (needle + rest))[|a|..] == needle + rest;
  }

  /** A search in the beginning of a text. */
  lemma CutBehind(s: string, n: nat, key: string)
    requires n <= |s|
    ensures Behind(s[..n], key) == var b := Behind(s, key); if b.Some? && b.value <= n then b else None
  {
    hide OccursAt;
    var needle := key + "=\"";
    forall i | 0 <= i <= |s|
      ensures i <= n && OccursAt(s[..n], needle, i) <==> OccursAt(s, needle, i) && i + |needle| <= n
    {
      CutOccurs(s, n, needle, i);
    }
    CutFind(s, n, needle);
  }

  lemma CutFind(s: string, n: nat, needle: string)
    requires n <= |s| && needle != ""
    requires forall i :: 0 <= i <= |s| ==>
               (i <= n && OccursAt(s[..n], needle, i) <==> OccursAt(s, needle, i) && i + |needle| <= n)
    ensures Find(s[..n], needle) == var f := Find(s, needle); if f.Some? && f.value + |needle| <= n then f else None
  {
    hide Find;
    var f, g := Find(s, needle), Find(s[..n], needle);
    assert (f.Some? ==> f.value <= |s|) && (g.Some? ==> g.value <= n);
    hide OccursAt;
    if f.Some? && f.value + |needle| <= n {
      FindFirst(s[..n], needle, f.value);
    }
  }

  lemma CutOccurs(s: string, n: nat, needle: string, i: nat)
    requires n <= |s| && i <= |s| && needle != ""
    ensures i <= n && OccursAt(s[..n], needle, i) <==> OccursAt(s, needle, i) && i + |needle| <= n
  {
    if i <= n {
      assert s[..n][i..] == s[i..n];
      if i + |needle| <= n {
        assert s[..n][i..][..|needle|] == s[i..i + |needle|] == s[i..][..|needle|];
      }
    }
  }

  /** mi_string gives back what quote_mi wrote, whatever the text contains. */
  lemma QuotedFieldReadsBack(key: string, src: string, rest: string, size: nat)
    requires size > 0
    ensures MiString(key + "=" + Quoted(src, false) + rest, key, size) == Some(Cut(src, size))
  {
    hide Find, Decode, OccursAt;
    var needle, tail := key + "=\"", Esc(src, false) + ['"'] + rest;
    var line := key + "=" + Quoted(src, false) + rest;
    assert "=\"" == "=" + ['"'];
    assert line == needle + tail;
    StartsHere(needle, tail);
    FindFirst(line, needle, 0);
    assert line[|needle|..] == tail;
    DecodeEsc(src, rest, size - 1, false);
  }

  lemma StartsHere(needle: string, tail: string)
    ensures OccursAt(needle + tail, needle, 0)
  {
    assert (needle + tail)[0..] == needle + tail;
  }
}
