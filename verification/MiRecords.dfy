/** One printed record: where the search for each of its fields lands, what is read there, and
    exactly when that is the field itself. */
module MiRecords {
  import opened Options
  import opened CStrings
  import opened MiText
  import opened MiNesting
  import opened MiVars

  // ---------------------------------------------------------------- fields in a row

  /** A field: its literal up to the equals sign, and the text that is quoted behind it. */
  datatype Field = Field(lit: string, text: string)

  /** The fields of a record and its closing brace. */
  function FieldsText(fs: seq<Field>): string {
    if fs == [] then "}" else Part(fs[0].lit, fs[0].text) + FieldsText(fs[1..])
  }

  /** What stands next: a literal or the brace. */
  function NextLiteral(fs: seq<Field>): string {
    if fs == [] then "}" else fs[0].lit
  }

  /** Where a search ends, and the text that is read from there on. */
  datatype Landing = Landing(at: nat, text: string)

  function Shifted(l: Option<Landing>, d: nat): Option<Landing> {
    if l.Some? then Some(Landing(d + l.value.at, l.value.text)) else None
  }

  /** The search for a key stops in the first field that has the key, or whose printed text
      ends in it; in the second case the text between the fields is taken for the value. */
  function Lands(fs: seq<Field>, key: string): Option<Landing> {
    if fs == [] then None
    else
      var f := fs[0];
      var word := key + "=";
      if EndsWith(f.lit, word) then Some(Landing(|f.lit| + 1, f.text))
      else if EndsWith(Esc(f.text, true), word) then Some(Landing(|Part(f.lit, f.text)|, NextLiteral(fs[1..])))
      else Shifted(Lands(fs[1..], key), |Part(f.lit, f.text)|)
  }

  predicate Literal(lit: string) {
    Unquoted(lit) && Esc(lit, true) == lit
  }

  /** s is the brace alone or opens with the text in quotes, without the first quote. */
  predicate Opens(s: string, text: string) {
    (s == "}" && text == "}") || Esc(text, true) + ['"'] <= s
  }

  lemma DecodeOpens(s: string, text: string, m: nat, room: nat)
    requires Opens(s, text) && m <= |s|
    ensures Decode(s[..m], room) == Taken(text, m, room)
  {
    if s == "}" && text == "}" {
      BraceIsTaken(m, room);
    } else {
      var front := Esc(text, true) + ['"'];
      assert s == front + s[|front|..];
      DecodeCut(text, s[|front|..], m, room);
    }
  }

  lemma BraceIsTaken(m: nat, room: nat)
    requires m <= 1
    ensures Decode("}"[..m], room) == Taken("}", m, room)
  {
    if m == 1 {
      assert "}"[..1] == ['}'] + "";
      if room > 0 { DecodePlain('}', "", room); }
      DecodeStops("", 0);
      assert "}"[1..] == "";
      assert EscChar('}', true) == ['}'];
      assert ['}'] + Taken("", 0, if room > 0 then room - 1 else 0) == "}";
    }
  }

  lemma BehindPart(lit: string, text: string, rest: string)
    ensures (Part(lit, text) + rest)[|Part(lit, text)|..] == rest
    ensures Esc(text, true) + ['"'] <= (Part(lit, text) + rest)[|lit| + 1..]
  {
    hide Esc;
    var e := Esc(text, true) + ['"'];
    assert Part(lit, text) + rest == (lit + ['"']) + (e + rest);
    assert (Part(lit, text) + rest)[|lit| + 1..] == e + rest;
  }

  lemma OpensNext(fs: seq<Field>)
    requires forall f :: f in fs ==> Literal(f.lit)
    ensures Opens(FieldsText(fs), NextLiteral(fs))
  {
    if fs != [] {
      var f := fs[0];
      assert Esc(f.lit, true) + ['"'] <= Part(f.lit, f.text);
    }
  }

  /** The search in the whole text. */
  lemma {:induction false} SearchLands(fs: seq<Field>, key: string)
    requires Unquoted(key) && forall f :: f in fs ==> Literal(f.lit)
    ensures Behind(FieldsText(fs), key) == var l := Lands(fs, key); if l.Some? then Some(l.value.at) else None
    ensures var s, l := FieldsText(fs), Lands(fs, key);
            l.Some? ==> l.value.at <= |s| && Opens(s[l.value.at..], l.value.text)
    decreases |fs|
  {
    hide Behind, Part, Esc, EndsWith, Unquoted;
    if fs == [] {
      NothingInBrace(key);
    } else {
      var f, rest, word := fs[0], FieldsText(fs[1..]), key + "=";
      BehindPart(f.lit, f.text, rest);
      if EndsWith(f.lit, word) {
        LandsInOwnPart(f.lit, f.text, key, rest);
        LiteralInPart(f.lit, f.text);
      } else if EndsWith(Esc(f.text, true), word) {
        LandsAtPartEnd(f.lit, f.text, key, rest);
        OpensNext(fs[1..]);
      } else {
        PassesPart(f.lit, f.text, key, rest);
        SearchLands(fs[1..], key);
        ShiftedSuffix(Part(f.lit, f.text), rest, Lands(fs[1..], key));
      }
    }
  }

  lemma NothingInBrace(key: string)
    ensures Behind("}", key) == None
  {
  }

  lemma LiteralInPart(lit: string, text: string)
    ensures |lit| + 1 <= |Part(lit, text)|
  {
  }

  lemma ShiftedSuffix(part: string, rest: string, l: Option<Landing>)
    requires l.Some? ==> l.value.at <= |rest|
    ensures var m := Shifted(l, |part|); m.Some? ==> (part + rest)[m.value.at..] == rest[l.value.at..]
  {
  }

  /** What is read of a key when only n characters of the record are kept. */
  function FieldRead(fs: seq<Field>, n: nat, key: string, size: nat, absent: string): string
    requires size > 0
  {
    LandingRead(Lands(fs, key), n, size, absent)
  }

  function LandingRead(l: Option<Landing>, n: nat, size: nat, absent: string): string
    requires size > 0
  {
    if l.None? || l.value.at > n then absent else Taken(l.value.text, n - l.value.at, size - 1)
  }

  lemma FieldIsRead(fs: seq<Field>, n: nat, key: string, size: nat, absent: string)
    requires size > 0 && n <= |FieldsText(fs)|
    requires Unquoted(key) && forall f :: f in fs ==> Literal(f.lit)
    ensures var r := MiString(FieldsText(fs)[..n], key, size);
            FieldRead(fs, n, key, size, absent) == if r.Some? then r.value else absent
    ensures MiString(FieldsText(fs)[..n], key, size).Some? <==> Lands(fs, key).Some? && Lands(fs, key).value.at <= n
  {
    hide MiString, Decode, Taken, Behind, Lands, FieldsText, Opens;
    var s, l := FieldsText(fs), Lands(fs, key);
    SearchLands(fs, key);
    CutBehind(s, n, key);
    ReadsBehind(s[..n], key, size);
    if l.Some? && l.value.at <= n {
      var at := l.value.at;
      assert s[..n][at..] == s[at..][..n - at];
      DecodeOpens(s[at..], l.value.text, n - at, size - 1);
    }
  }

  // ---------------------------------------------------------------- the record of a variable

  /** A variable as it is printed; its type and value may be left out. */
  datatype Printed = Printed(name: string, kind: Option<string>, value: Option<string>)

  function OptionalField(lit: string, text: Option<string>): seq<Field> {
    if text.Some? then [Field(lit, text.value)] else []
  }

  /** The fields behind the name. */
  function LaterFields(v: Printed): seq<Field> {
    OptionalField(",type=", v.kind) + OptionalField(",value=", v.value)
  }

  function Fields(v: Printed): seq<Field> {
    [Field("{name=", v.name)] + LaterFields(v)
  }

  function RecordText(v: Printed): string {
    FieldsText(Fields(v))
  }

  /** What fits the buffers of a GdbVar. */
  function ReadBack(v: Printed): Var {
    Var(Cut(v.name, NAME_LEN), if v.kind.Some? then Cut(v.kind.value, TYPE_LEN) else "",
        if v.value.Some? then Cut(v.value.value, VALUE_LEN) else "?")
  }

  /** How much of the record the item buffer holds. */
  function Held(v: Printed): nat {
    if |RecordText(v)| < ITEM_LEN then |RecordText(v)| else ITEM_LEN - 1
  }

  /** The variable that is made of the record. */
  function RecordRead(v: Printed): Var {
    Var(FieldRead(Fields(v), Held(v), "name", NAME_LEN, ""),
        FieldRead(Fields(v), Held(v), "type", TYPE_LEN, ""),
        FieldRead(Fields(v), Held(v), "value", VALUE_LEN, "?"))
  }

  predicate Plain(s: string) {
    forall i :: 0 <= i < |s| ==> s[i] !in "\\\"\n\r\t"
  }

  lemma {:induction false} EscPlain(s: string)
    requires Plain(s)
    ensures Esc(s, true) == s
  {
    if s != "" {
      EscPlain(s[1..]);
      assert [s[0]] + s[1..] == s;
    }
  }

  lemma Literals()
    ensures Literal("{name=") && Literal(",type=") && Literal(",value=")
    ensures Unquoted("name") && Unquoted("type") && Unquoted("value")
  {
    hide Esc;
    assert Plain("{name=") && Plain(",type=") && Plain(",value=");
    hide Plain;
    EscPlain("{name=");
    EscPlain(",type=");
    EscPlain(",value=");
  }

  lemma KeyWords()
    ensures "name" + "=" == "name=" && "type" + "=" == "type=" && "value" + "=" == "value="
    ensures EndsWith("{name=", "name=") && EndsWith(",type=", "type=") && EndsWith(",value=", "value=")
    ensures !EndsWith("{name=", "type=") && !EndsWith("{name=", "value=")
    ensures !EndsWith(",type=", "value=") && !EndsWith(",value=", "type=")
  {
    assert "{name="[1..][0] == 'n' && "type="[0] == 't' && "{name="[0..][0] == '{' && "value="[0] == 'v';
    assert ",type="[0..][0] == ',' && ",value="[2..][0] == 'a';
  }

  lemma FieldsAreLiteral(v: Printed)
    ensures forall f :: f in Fields(v) ==> Literal(f.lit)
  {
    Literals();
    hide Literal;
  }

  lemma NameLands(v: Printed)
    ensures Lands(Fields(v), "name") == Some(Landing(7, v.name))
    ensures 7 + |Esc(v.name, true)| <= |RecordText(v)|
  {
    KeyWords();
    hide EndsWith;
  }

  /** What parse_var_list makes of any record, however long and whatever its texts contain. */
  lemma RecordIsRead(v: Printed)
    ensures ReadVar(Cut(RecordText(v), ITEM_LEN)) == Some(RecordRead(v))
    ensures RecordRead(v).name == Cut(v.name, NAME_LEN)
  {
    hide FieldsText, Lands, FieldRead, Fields, MiString, Taken, Literal, Unquoted;
    var s, n := RecordText(v), Held(v);
    Literals();
    FieldsAreLiteral(v);
    assert Cut(s, ITEM_LEN) == s[..n];
    FieldIsRead(Fields(v), n, "name", NAME_LEN, "");
    FieldIsRead(Fields(v), n, "type", TYPE_LEN, "");
    FieldIsRead(Fields(v), n, "value", VALUE_LEN, "?");
    NameLands(v);
    TakenWhole(v.name, n - 7, NAME_LEN - 1);
    NameIsTaken(v);
  }

  lemma NameIsTaken(v: Printed)
    requires Lands(Fields(v), "name") == Some(Landing(7, v.name)) && 7 <= Held(v)
    ensures FieldRead(Fields(v), Held(v), "name", NAME_LEN, "") == Taken(v.name, Held(v) - 7, NAME_LEN - 1)
  {
  }

  // ---------------------------------------------------------------- when a field comes back

  /** Of a printed text `avail` characters are enough: all of it, or all but the second
      backslash of a last character that is one. */
  predicate Survives(w: string, avail: int) {
    w == "" || |Esc(w, true)| <= avail || (w[|w| - 1] == '\\' && |Esc(w, true)| == avail + 1)
  }

  lemma {:induction false} TakenIsWholeIff(v: string, avail: nat, room: nat)
    ensures Taken(v, avail, room) == Cut(v, room + 1) <==> Survives(Cut(v, room + 1), avail)
    decreases |v|
  {
    if v != "" && room > 0 {
      var w := Cut(v, room + 1);
      var more := Cut(v[1..], room);
      assert w == [v[0]] + more;
      assert w[1..] == more && Esc(w, true) == EscChar(v[0], true) + Esc(more, true);
      EscapedIsTwo(v[0]);
      EscIsLonger(more);
      TakenIsWholeIff(v[1..], if |EscChar(v[0], true)| <= avail then avail - |EscChar(v[0], true)| else 0, room - 1);
    }
  }

  lemma {:induction false} EscIsLonger(s: string)
    ensures |Esc(s, true)| >= |s|
  {
    if s != "" { EscIsLonger(s[1..]); }
  }

  /** What a search that ends between two fields shows: the literal there, as far as it is held. */
  function SeenFrom(next: string, from: nat, n: nat, absent: string): string {
    if from > n then absent else if n - from < |next| then next[..n - from] else next
  }

  lemma {:induction false} TakenPlain(s: string, avail: nat, room: nat)
    requires room >= |s| && Plain(s)
    ensures Taken(s, avail, room) == SeenFrom(s, 0, avail, "")
    decreases |s|
  {
    if s != "" && avail > 0 {
      assert EscChar(s[0], true) == [s[0]];
      TakenPlain(s[1..], avail - 1, room - 1);
      if avail < |s| { assert [s[0]] + s[1..][..avail - 1] == s[..avail]; }
    }
  }

  function NameLen(v: Printed): nat {
    |Part("{name=", v.name)|
  }

  function KindLen(v: Printed): nat {
    if v.kind.Some? then |Part(",type=", v.kind.value)| else 0
  }

  /** The type that is expected comes back: behind a name that ends in the type's key it must be
      what stands between the fields; elsewhere its own text must be held; and where there is
      none, the value's printed end must not be taken for its key. */
  predicate KindComesBack(v: Printed) {
    if EndsWith(Esc(v.name, true), "type=") then
      (if v.kind.Some? then v.kind.value else "") == SeenFrom(NextLiteral(LaterFields(v)), NameLen(v), Held(v), "")
    else if v.kind.Some? then
      Survives(Cut(v.kind.value, TYPE_LEN), Held(v) - NameLen(v) - 7)
    else
      v.value.Some? && EndsWith(Esc(v.value.value, true), "type=") ==> |RecordText(v)| >= ITEM_LEN
  }

  /** The same for the value, in front of which the name and the type may end in its key. */
  predicate ValueComesBack(v: Printed) {
    var want := if v.value.Some? then v.value.value else "?";
    if EndsWith(Esc(v.name, true), "value=") then
      want == SeenFrom(NextLiteral(LaterFields(v)), NameLen(v), Held(v), "?")
    else if v.kind.Some? && EndsWith(Esc(v.kind.value, true), "value=") then
      want == SeenFrom(NextLiteral(OptionalField(",value=", v.value)), NameLen(v) + KindLen(v), Held(v), "?")
    else if v.value.Some? && NameLen(v) + KindLen(v) + 8 <= Held(v) then
      Survives(Cut(want, VALUE_LEN), Held(v) - NameLen(v) - KindLen(v) - 8)
    else want == "?"
  }

  // ---------------------------------------------------------------- the two searches

  /** Where the type is looked for. */
  function KindLanding(v: Printed): Option<Landing> {
    if EndsWith(Esc(v.name, true), "type=") then Some(Landing(NameLen(v), NextLiteral(LaterFields(v))))
    else if v.kind.Some? then Some(Landing(NameLen(v) + 7, v.kind.value))
    else if v.value.Some? && EndsWith(Esc(v.value.value, true), "type=") then Some(Landing(|RecordText(v)| - 1, "}"))
    else None
  }

  function ValueLanding(v: Printed): Option<Landing> {
    if EndsWith(Esc(v.name, true), "value=") then Some(Landing(NameLen(v), NextLiteral(LaterFields(v))))
    else if v.kind.Some? && EndsWith(Esc(v.kind.value, true), "value=") then
      Some(Landing(NameLen(v) + KindLen(v), NextLiteral(OptionalField(",value=", v.value))))
    else if v.value.Some? then Some(Landing(NameLen(v) + KindLen(v) + 8, v.value.value))
    else None
  }

  lemma RecordParts(v: Printed)
    ensures Fields(v) != [] && Fields(v)[0] == Field("{name=", v.name) && Fields(v)[1..] == LaterFields(v)
    ensures var later, last := LaterFields(v), OptionalField(",value=", v.value);
            && (v.kind.None? ==> later == last)
            && (v.kind.Some? ==> later != [] && later[0] == Field(",type=", v.kind.value) && later[1..] == last)
            && (v.value.None? ==> last == [])
            && (v.value.Some? ==> last != [] && last[0] == Field(",value=", v.value.value) && last[1..] == [])
  {
  }

  lemma RecordLength(v: Printed)
    ensures |RecordText(v)|
            == NameLen(v) + KindLen(v) + (if v.value.Some? then |Part(",value=", v.value.value)| else 0) + 1
  {
    hide Part;
    RecordParts(v);
    hide Fields, LaterFields, OptionalField;
    var last := OptionalField(",value=", v.value);
    assert |FieldsText(last)|
        == (if v.value.Some? then |Part(",value=", v.value.value)| else 0) + 1 by { LastFields(v); }
    assert |FieldsText(LaterFields(v))| == KindLen(v) + |FieldsText(last)|;
  }

  lemma LastFields(v: Printed)
    ensures v.value.None? ==> FieldsText(OptionalField(",value=", v.value)) == "}"
    ensures v.value.Some? ==> FieldsText(OptionalField(",value=", v.value)) == Part(",value=", v.value.value) + "}"
    ensures v.value.None? ==>
              && Lands(OptionalField(",value=", v.value), "type") == None
              && Lands(OptionalField(",value=", v.value), "value") == None
    ensures v.value.Some? ==> Lands(OptionalField(",value=", v.value), "value") == Some(Landing(8, v.value.value))
    ensures v.value.Some? ==> Lands(OptionalField(",value=", v.value), "type")
                              == if EndsWith(Esc(v.value.value, true), "type=")
                                  then Some(Landing(|Part(",value=", v.value.value)|, "}")) else None
  {
    KeyWords();
    RecordParts(v);
    hide Part, EndsWith, Esc, OptionalField;
    assert FieldsText([]) == "}" && NextLiteral([]) == "}";
    assert Lands([], "type") == None && Lands([], "value") == None;
  }

  lemma KindIsSearched(v: Printed)
    ensures Lands(Fields(v), "type") == KindLanding(v)
  {
    KeyWords();
    RecordParts(v);
    RecordLength(v);
    LastFields(v);
    hide EndsWith, Part, Esc, Fields, LaterFields, OptionalField, RecordText;
    var later := Lands(LaterFields(v), "type");
    assert later == if v.kind.Some? then Some(Landing(7, v.kind.value))
        else Lands(OptionalField(",value=", v.value), "type");
  }

  lemma ValueIsSearched(v: Printed)
    ensures Lands(Fields(v), "value") == ValueLanding(v)
  {
    KeyWords();
    RecordParts(v);
    LastFields(v);
    hide EndsWith, Part, Esc, Fields, LaterFields, OptionalField, RecordText;
    var later, last := Lands(LaterFields(v), "value"), OptionalField(",value=", v.value);
    assert later == if v.kind.None? then Lands(last, "value")
                    else if EndsWith(Esc(v.kind.value, true), "value=")
                        then Some(Landing(KindLen(v), NextLiteral(last)))
                    else Shifted(Lands(last, "value"), KindLen(v));
  }

  /** A text between the fields, as it is taken for a value. */
  lemma SeenComesBackIff(s: string, at: nat, n: nat, size: nat, want: string, absent: string)
    requires s in {"}", ",type=", ",value="} && size > 8 && absent in {"", "?"}
    ensures LandingRead(Some(Landing(at, s)), n, size, absent) == SeenFrom(s, at, n, absent)
    ensures Cut(want, size) == SeenFrom(s, at, n, absent) <==> want == SeenFrom(s, at, n, absent)
  {
    assert |s| <= 7 && Plain(s);
    hide Plain;
    if at <= n { TakenPlain(s, n - at, size - 1); }
  }

  /** The field's own text. */
  lemma OwnComesBackIff(text: string, at: nat, n: nat, size: nat, absent: string)
    requires size > 8 && absent in {"", "?"}
    ensures LandingRead(Some(Landing(at, text)), n, size, absent) == Cut(text, size)
            <==> if at > n then text == absent else Survives(Cut(text, size), n - at)
  {
    if at <= n { TakenIsWholeIff(text, n - at, size - 1); }
  }

  lemma KindComesBackIff(v: Printed)
    ensures RecordRead(v).kind == ReadBack(v).kind <==> KindComesBack(v)
  {
    KindIsSearched(v);
    NextLiterals(v);
    hide EndsWith, Part, Esc, LaterFields, Fields, RecordText, Held, NameLen, LandingRead, SeenFrom, Lands, Survives;
    var n: int, a: int := Held(v), NameLen(v);
    var want := if v.kind.Some? then v.kind.value else "";
    if EndsWith(Esc(v.name, true), "type=") {
      SeenComesBackIff(NextLiteral(LaterFields(v)), a, n, TYPE_LEN, want, "");
    } else if v.kind.Some? {
      OwnComesBackIff(want, a + 7, n, TYPE_LEN, "");
      NothingSurvives(Cut(want, TYPE_LEN), n - a - 7);
      CutToNothing(want);
    } else if v.value.Some? && EndsWith(Esc(v.value.value, true), "type=") {
      BraceIsSeen(v);
    } else {
      NothingIsRead(n, TYPE_LEN, "");
    }
  }

  lemma ValueComesBackIff(v: Printed)
    ensures RecordRead(v).value == ReadBack(v).value <==> ValueComesBack(v)
  {
    ValueIsSearched(v);
    NextLiterals(v);
    hide EndsWith, Part, Esc, LaterFields, OptionalField, Fields, RecordText, Held, NameLen, KindLen, LandingRead,
         SeenFrom, Lands, Survives;
    var n: int, a: int, b: int := Held(v), NameLen(v), KindLen(v);
    var want := if v.value.Some? then v.value.value else "?";
    if EndsWith(Esc(v.name, true), "value=") {
      SeenComesBackIff(NextLiteral(LaterFields(v)), a, n, VALUE_LEN, want, "?");
    } else if v.kind.Some? && EndsWith(Esc(v.kind.value, true), "value=") {
      SeenComesBackIff(NextLiteral(OptionalField(",value=", v.value)), a + b, n, VALUE_LEN, want, "?");
    } else if v.value.Some? {
      OwnComesBackIff(want, a + b + 8, n, VALUE_LEN, "?");
    } else {
      NothingIsRead(n, VALUE_LEN, "?");
    }
  }

  lemma NothingIsRead(n: nat, size: nat, absent: string)
    requires size > 0
    ensures LandingRead(None, n, size, absent) == absent
  {
  }

  lemma CutToNothing(s: string)
    ensures Cut(s, TYPE_LEN) == "" <==> s == ""
  {
  }

  /** Only a cut keeps the closing brace from being read. */
  lemma BraceIsSeen(v: Printed)
    requires |RecordText(v)| > 0
    ensures LandingRead(Some(Landing(|RecordText(v)| - 1, "}")), Held(v), TYPE_LEN, "") == ""
            <==> |RecordText(v)| >= ITEM_LEN
  {
    hide RecordText;
    SeenComesBackIff("}", |RecordText(v)| - 1, Held(v), TYPE_LEN, "", "");
  }

  lemma NextLiterals(v: Printed)
    ensures NextLiteral(LaterFields(v)) == if v.kind.Some? then ",type=" else if v.value.Some? then ",value=" else "}"
    ensures NextLiteral(OptionalField(",value=", v.value)) == if v.value.Some? then ",value=" else "}"
  {
  }

  lemma PartLength(lit: string, text: string)
    ensures |Part(lit, text)| == |lit| + |Esc(text, true)| + 2
  {
  }

  lemma NothingSurvives(w: string, avail: int)
    ensures avail < 0 ==> (Survives(w, avail) <==> w == "")
  {
    if w != "" { EscIsLonger(w); }
  }

  lemma HeldIsAll(v: Printed)
    ensures Held(v) == |RecordText(v)| <==> |RecordText(v)| < ITEM_LEN
    ensures Held(v) <= |RecordText(v)| && |RecordText(v)| > 0
    ensures |RecordText(v)| >= ITEM_LEN ==> Held(v) < |RecordText(v)|
  {
  }

  /** The exact condition, for every record. */
  lemma RecordReadsBackIff(v: Printed)
    ensures ReadVar(Cut(RecordText(v), ITEM_LEN)) == Some(ReadBack(v)) <==> KindComesBack(v) && ValueComesBack(v)
  {
    hide RecordRead, ReadBack, KindComesBack, ValueComesBack, ReadVar, RecordText, Cut;
    RecordIsRead(v);
    KindComesBackIff(v);
    ValueComesBackIff(v);
    NameComesBack(v);
  }

  lemma NameComesBack(v: Printed)
    ensures ReadBack(v).name == Cut(v.name, NAME_LEN)
  {
  }

  /** A record that is not cut: a name or a type may end in a later key only when what stands
      between the fields happens to be the text that was to be read. */
  lemma ShortRecordReadsBackIff(v: Printed)
    requires |RecordText(v)| < ITEM_LEN
    ensures KindComesBack(v) <==>
              if EndsWith(Esc(v.name, true), "type=") then v.kind == Some(",type=")
              else !(v.kind.None? && v.value.Some? && EndsWith(Esc(v.value.value, true), "type="))
    ensures ValueComesBack(v) <==>
              if EndsWith(Esc(v.name, true), "value=")
              then v.value == Some(if v.kind.Some? then ",type=" else ",value=")
              else (v.kind.Some? && EndsWith(Esc(v.kind.value, true), "value=") ==> v.value == Some(",value="))
  {
    NextLiterals(v);
    RecordLength(v);
    HeldIsAll(v);
    if v.kind.Some? {
      PartLength(",type=", v.kind.value);
      EscOfCut(v.kind.value, TYPE_LEN);
    }
    if v.value.Some? {
      PartLength(",value=", v.value.value);
      EscOfCut(v.value.value, VALUE_LEN);
    }
    hide EndsWith, Part, Esc, Cut, LaterFields, OptionalField, RecordText, Held, NameLen, KindLen;
  }

  lemma EscOfCut(s: string, size: nat)
    requires size > 0
    ensures |Esc(Cut(s, size), true)| <= |Esc(s, true)|
  {
    var w := Cut(s, size);
    assert s == w + s[|w|..];
    EscJoins(w, s[|w|..], true);
  }

  /** Whatever the type is, a name whose printed text ends in the type's key hides it. */
  lemma NameEndingInKeyMisleads(v: Printed)
    requires v.kind.Some? && EndsWith(Esc(v.name, true), "type=") && NameLen(v) + 6 < ITEM_LEN
    ensures var r := ReadVar(Cut(RecordText(v), ITEM_LEN)); r.Some? && r.value.kind == ",type="
  {
    RecordIsRead(v);
    KindIsSearched(v);
    NextLiterals(v);
    KindIsHeld(v);
    hide EndsWith, Part, Esc, LaterFields, Fields, ReadVar, Cut, RecordText, Held, NameLen, LandingRead, Lands;
    SeenComesBackIff(",type=", NameLen(v), Held(v), TYPE_LEN, "", "");
  }

  lemma KindIsHeld(v: Printed)
    requires v.kind.Some? && NameLen(v) + 6 < ITEM_LEN
    ensures Held(v) >= NameLen(v) + 6
  {
    RecordLength(v);
    PartLength(",type=", v.kind.value);
  }
}
