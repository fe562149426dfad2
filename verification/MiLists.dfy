/** What parse_var_list makes of a list of variables that the debugger prints: the variables of
    its records, in order, each once. */
module MiLists {
  import opened Options
  import opened CStrings
  import opened MiText
  import opened MiNesting
  import opened MiVars
  import opened MiRecords

  // ---------------------------------------------------------------- a record as a value

  function KindNodes(v: Printed): seq<Node> {
    if v.kind.Some? then [Bare(",type="), Str(v.kind.value)] else []
  }

  function ValueNodes(v: Printed): seq<Node> {
    if v.value.Some? then [Bare(",value="), Str(v.value.value)] else []
  }

  function Record(v: Printed): Node {
    Braces([Bare("name="), Str(v.name)] + (KindNodes(v) + ValueNodes(v)))
  }

  /** The records with commas between them. */
  function Records(vs: seq<Printed>): seq<Node> {
    if vs == [] then [] else if |vs| == 1 then [Record(vs[0])]
    else [Record(vs[0]), Bare(",")] + Records(vs[1..])
  }

  lemma {:induction false} ShowJoins(a: seq<Node>, b: seq<Node>)
    ensures Show(a + b) == Show(a) + Show(b)
  {
    if a == [] {
      assert a + b == b;
    } else {
      assert (a + b)[1..] == a[1..] + b;
      ShowJoins(a[1..], b);
    }
  }

  lemma ShowPair(lit: string, v: string)
    ensures Show([Bare(lit), Str(v)]) == Part(lit, v)
  {
    hide Quoted;
    var nodes := [Bare(lit), Str(v)];
    assert nodes[1..] == [Str(v)] && nodes[1..][1..] == [];
    assert Show(nodes[1..]) == Quoted(v, true) + "";
  }

  lemma PartInBrace(name: string)
    ensures "{" + Part("name=", name) == Part("{name=", name)
  {
    assert "{" + "name=" == "{name=";
  }

  function OptionalPart(lit: string, text: Option<string>): string {
    if text.Some? then Part(lit, text.value) else ""
  }

  lemma PartsOfRecord(v: Printed)
    ensures RecordText(v)
            == Part("{name=", v.name) + (OptionalPart(",type=", v.kind) + (OptionalPart(",value=", v.value) + "}"))
  {
    hide Part;
    RecordParts(v);
    LastFields(v);
    hide Fields, LaterFields, OptionalField;
    var last := OptionalField(",value=", v.value);
    assert FieldsText(last) == OptionalPart(",value=", v.value) + "}";
    assert FieldsText(LaterFields(v)) == OptionalPart(",type=", v.kind) + FieldsText(last);
  }

  /** The record in braces is the text that is searched. */
  lemma RecordIsShown(v: Printed)
    ensures ShowNode(Record(v)) == RecordText(v)
  {
    hide Part;
    PartsOfRecord(v);
    var fields := KindNodes(v) + ValueNodes(v);
    ShowJoins([Bare("name="), Str(v.name)], fields);
    ShowJoins(KindNodes(v), ValueNodes(v));
    ShowPair("name=", v.name);
    if v.kind.Some? { ShowPair(",type=", v.kind.value); }
    if v.value.Some? { ShowPair(",value=", v.value.value); }
    PartInBrace(v.name);
    hide Show, OptionalPart, KindNodes, ValueNodes, RecordText;
    BraceParts(Part("name=", v.name), OptionalPart(",type=", v.kind), OptionalPart(",value=", v.value));
  }

  lemma BraceParts(a: string, b: string, c: string)
    ensures "{" + (a + (b + c)) + "}" == "{" + a + (b + (c + "}"))
  {
  }

  // ---------------------------------------------------------------- the list

  /** The variables in order, each added once, until there are enough. */
  function Collected(vs: seq<Printed>, so: seq<Var>, max: nat): seq<Var>
    decreases |vs|
  {
    if vs == [] || |so| >= max then so else Collected(vs[1..], Add(so, Some(RecordRead(vs[0]))), max)
  }

  /** What follows a record: a comma and more records, or nothing. */
  function Following(vs: seq<Printed>): string {
    if vs == [] then "" else "," + (ShowNode(Record(vs[0])) + Following(vs[1..]))
  }

  lemma {:induction false} RecordsFollow(vs: seq<Printed>)
    requires vs != []
    ensures Show(Records(vs)) == ShowNode(Record(vs[0])) + Following(vs[1..])
    decreases |vs|
  {
    hide Record, ShowNode;
    var r := ShowNode(Record(vs[0]));
    ShowHead(Record(vs[0]), []);
    if |vs| == 1 {
      assert r + "" == r;
    } else {
      var more := Records(vs[1..]);
      RecordsFollow(vs[1..]);
      CommaShown();
      ShowHead(Bare(","), more);
      ShowHead(Record(vs[0]), [Bare(",")] + more);
      assert Records(vs) == [Record(vs[0])] + ([Bare(",")] + more);
      hide Records, Show;
    }
  }

  lemma ShowHead(n: Node, more: seq<Node>)
    ensures Show([n] + more) == ShowNode(n) + Show(more)
    ensures Show([]) == "" && [n] + [] == [n]
  {
    assert ([n] + more)[1..] == more;
  }

  lemma CommaShown()
    ensures ShowNode(Bare(",")) == ","
  {
  }

  lemma RecordIsWellFormed(v: Printed)
    ensures WellFormed(Record(v))
  {
    var rest := KindNodes(v) + ValueNodes(v);
    assert forall i :: 0 <= i < |rest| ==> WellFormed(rest[i]);
    assert WellFormed(Bare("name="));
    var items := [Bare("name="), Str(v.name)] + rest;
    assert forall i :: 2 <= i < |items| ==> items[i] == rest[i - 2];
  }

  lemma {:induction false} RecordsAreWellFormed(vs: seq<Printed>)
    ensures AllWellFormed(Records(vs))
    decreases |vs|
  {
    hide Record, WellFormed;
    if vs != [] {
      RecordIsWellFormed(vs[0]);
      RecordsAreWellFormed(vs[1..]);
      CommaIsWellFormed();
    }
  }

  lemma CommaIsWellFormed()
    ensures WellFormed(Bare(","))
  {
  }

  lemma OpenAtRecord(s: string, p: nat, v: Printed, rest: string, lead: string)
    requires Has(s, p, lead + (ShowNode(Record(v)) + rest)) && lead in {"", ","}
    ensures OpenFrom(s, p) == Some(p + |lead|)
    ensures Has(s, p + |lead|, ShowNode(Record(v))) && Has(s, p + |lead| + |ShowNode(Record(v))|, rest)
    ensures |ShowNode(Record(v))| >= 2
  {
    var r := ShowNode(Record(v));
    HasParts(s, p, lead, r + rest);
    HasParts(s, p + |lead|, r, rest);
    var items := [Bare("name="), Str(v.name)] + (KindNodes(v) + ValueNodes(v));
    assert r == ['{'] + (Show(items) + ['}']);
    HasFirst(s, p + |lead|, '{', Show(items) + ['}']);
    if lead == "," {
      assert "," == [','];
      HasFirst(s, p, ',', r + rest);
    }
  }

  lemma RecordEnds(s: string, p: nat, v: Printed)
    requires Has(s, p, ShowNode(Record(v)))
    ensures EndFrom(s, p, '{', '}', 0, false, false) == Some(p + |ShowNode(Record(v))| - 1)
  {
    RecordIsWellFormed(v);
    EndsAtOwnCloser(s, p, Record(v).items, '{', '}');
  }

  lemma RecordIsNext(s: string, p: nat, v: Printed, rest: string, listEnd: nat, lead: string)
    requires listEnd < |s| && lead in {"", ","}
    requires Has(s, p, lead + (ShowNode(Record(v)) + rest))
    requires p + |lead| + |ShowNode(Record(v))| <= listEnd
    ensures var r := ShowNode(Record(v));
            && NextItem(s, p, listEnd) == Some((Cut(r, ITEM_LEN), p + |lead| + |r|)) && p < listEnd
            && Has(s, p + |lead| + |r|, rest)
  {
    hide Record, ShowNode, OpenFrom, EndFrom, Cut;
    OpenAtRecord(s, p, v, rest, lead);
    RecordEnds(s, p + |lead|, v);
  }

  /** From any record on, the loop collects the records up to the end of the list. */
  lemma {:induction false} LoopCollects(s: string, p: nat, vs: seq<Printed>, listEnd: nat, so: seq<Var>, max: nat,
        lead: string)
    requires listEnd < |s| && lead in {"", ","}
    requires if vs == [] then p == listEnd
             else Has(s, p, lead + (ShowNode(Record(vs[0])) + Following(vs[1..])))
                  && p + |lead| + |ShowNode(Record(vs[0]))| + |Following(vs[1..])| == listEnd
    ensures ParseFrom(s, p, listEnd, so, max) == Collected(vs, so, max)
    decreases |vs|
  {
    hide Record, ShowNode, RecordText, RecordRead, ReadVar, NextItem, Has, Cut;
    if vs != [] && |so| < max {
      var r := ShowNode(Record(vs[0]));
      RecordIsNext(s, p, vs[0], Following(vs[1..]), listEnd, lead);
      RecordIsShown(vs[0]);
      RecordIsRead(vs[0]);
      LoopCollects(s, p + |lead| + |r|, vs[1..], listEnd, Add(so, Some(RecordRead(vs[0]))), max, ",");
    }
  }

  function ListText(vs: seq<Printed>): string {
    ShowNode(Brackets(Records(vs)))
  }

  /** A printed list, whatever its records hold and whatever follows it, gives the variables of
      its records: in order, each once, as many as there is room for. */
  lemma ListIsRead(vs: seq<Printed>, rest: string, max: nat)
    ensures ParseVarList(ListText(vs) + rest, max) == Collected(vs, [], max)
  {
    hide Record, ParseFrom, EndFrom, Records;
    var s, inner := ListText(vs) + rest, Show(Records(vs));
    assert s == ['['] + inner + [']'] + rest;
    assert Has(s, 0, ['['] + inner + [']']);
    RecordsAreWellFormed(vs);
    EndsAtOwnCloser(s, 0, Records(vs), '[', ']');
    assert Has(s, 1, inner);
    if vs == [] {
      assert Records(vs) == [] by { EmptyRecords(); }
    } else {
      RecordsFollow(vs);
      assert "" + inner == inner;
    }
    LoopCollects(s, 1, vs, |inner| + 1, [], max, "");
  }

  lemma EmptyRecords()
    ensures Records([]) == []
  {
  }

  // ---------------------------------------------------------------- what is collected

  predicate Distinct(vars: seq<Var>) {
    forall i, j :: 0 <= i < j < |vars| ==> vars[i] != vars[j]
  }

  function AllRead(vs: seq<Printed>): seq<Var> {
    if vs == [] then [] else [RecordRead(vs[0])] + AllRead(vs[1..])
  }

  /** Never a variable twice, never more than there is room for. */
  lemma {:induction false} CollectedAreDistinct(vs: seq<Printed>, so: seq<Var>, max: nat)
    requires Distinct(so) && |so| <= max
    ensures Distinct(Collected(vs, so, max)) && |Collected(vs, so, max)| <= max
    ensures so <= Collected(vs, so, max)
    decreases |vs|
  {
    if vs != [] && |so| < max {
      CollectedAreDistinct(vs[1..], Add(so, Some(RecordRead(vs[0]))), max);
    }
  }

  /** With room enough no variable is lost. */
  lemma {:induction false} CollectedIsComplete(vs: seq<Printed>, so: seq<Var>, max: nat)
    requires |so| + |vs| <= max
    ensures forall v :: v in Collected(vs, so, max) <==> v in so || v in AllRead(vs)
    decreases |vs|
  {
    if vs != [] {
      CollectedIsComplete(vs[1..], Add(so, Some(RecordRead(vs[0]))), max);
    }
  }

  lemma AddOne(so: seq<Var>, v: Var)
    ensures Add(so, Some(v)) == so || Add(so, Some(v)) == so + [v]
  {
  }

  lemma CollectedStep(vs: seq<Printed>, so: seq<Var>, max: nat)
    requires vs != [] && |so| < max
    ensures Collected(vs, so, max) == Collected(vs[1..], Add(so, Some(RecordRead(vs[0]))), max)
    ensures AllRead(vs) == [RecordRead(vs[0])] + AllRead(vs[1..])
  {
  }

  /** Variables that differ come back exactly as listed. */
  lemma {:induction false} CollectedInOrder(vs: seq<Printed>, so: seq<Var>, max: nat)
    requires |so| + |vs| <= max && Distinct(so + AllRead(vs))
    ensures Collected(vs, so, max) == so + AllRead(vs)
    decreases |vs|
  {
    if vs == [] {
      assert so + [] == so;
    } else {
      hide RecordRead, Collected, AllRead, Distinct, Add;
      var v, more := RecordRead(vs[0]), vs[1..];
      CollectedStep(vs, so, max);
      Regroup(so, [v], AllRead(more));
      DistinctIsNew(so, v, AllRead(more));
      CollectedInOrder(more, so + [v], max);
    }
  }

  lemma DistinctIsNew(so: seq<Var>, v: Var, more: seq<Var>)
    requires Distinct(so + ([v] + more))
    ensures Add(so, Some(v)) == so + [v]
  {
    var all := so + ([v] + more);
    assert all[|so|] == v;
    assert forall i :: 0 <= i < |so| ==> all[i] == so[i];
  }

  // ---------------------------------------------------------------- when a list comes back

  /** The variables as they should come back. */
  function Expected(vs: seq<Printed>): seq<Var> {
    if vs == [] then [] else [ReadBack(vs[0])] + Expected(vs[1..])
  }

  lemma {:induction false} AllReadIsExpectedIff(vs: seq<Printed>)
    ensures |AllRead(vs)| == |Expected(vs)| == |vs|
    ensures AllRead(vs) == Expected(vs) <==> forall i :: 0 <= i < |vs| ==> KindComesBack(vs[i]) && ValueComesBack(vs[i])
  {
    hide RecordRead, ReadBack, KindComesBack, ValueComesBack;
    if vs != [] {
      var v, more := vs[0], vs[1..];
      AllReadIsExpectedIff(more);
      RecordComesBackIff(v);
      assert forall i :: 0 < i < |vs| ==> vs[i] == more[i - 1];
      assert AllRead(vs)[0] == RecordRead(v) && AllRead(vs)[1..] == AllRead(more);
      assert Expected(vs)[0] == ReadBack(v) && Expected(vs)[1..] == Expected(more);
    }
  }

  lemma RecordComesBackIff(v: Printed)
    ensures RecordRead(v) == ReadBack(v) <==> KindComesBack(v) && ValueComesBack(v)
  {
    hide KindComesBack, ValueComesBack, ReadVar, RecordText, Cut;
    RecordIsRead(v);
    RecordReadsBackIff(v);
  }

  /** As many variables as records means that none was dropped as a repetition. */
  lemma {:induction false} NoneIsDropped(vs: seq<Printed>, so: seq<Var>, max: nat)
    requires |so| + |vs| <= max
    ensures |Collected(vs, so, max)| <= |so| + |vs|
    ensures |Collected(vs, so, max)| == |so| + |vs| ==> Collected(vs, so, max) == so + AllRead(vs)
    decreases |vs|
  {
    if vs == [] {
      assert so + [] == so;
    } else {
      hide RecordRead, Collected, AllRead, Add;
      var v, more := RecordRead(vs[0]), vs[1..];
      CollectedStep(vs, so, max);
      AddOne(so, v);
      NoneIsDropped(more, Add(so, Some(v)), max);
      Regroup(so, [v], AllRead(more));
    }
  }

  /** Different variables, with room for all of them, come back exactly when each record is one
      whose fields come back. */
  lemma ListReadsBackIff(vs: seq<Printed>, rest: string, max: nat)
    requires |vs| <= max && Distinct(Expected(vs))
    ensures ParseVarList(ListText(vs) + rest, max) == Expected(vs)
            <==> forall i :: 0 <= i < |vs| ==> KindComesBack(vs[i]) && ValueComesBack(vs[i])
  {
    hide KindComesBack, ValueComesBack, ParseVarList, ListText, Collected;
    ListIsRead(vs, rest, max);
    AllReadIsExpectedIff(vs);
    assert [] + AllRead(vs) == AllRead(vs);
    NoneIsDropped(vs, [], max);
    if AllRead(vs) == Expected(vs) {
      CollectedInOrder(vs, [], max);
    }
  }
}
