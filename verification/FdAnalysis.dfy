/** The analysis loop: fd_analysis_build over FdTable objects, FdEventInfo records filled in
    place and a growing object array. */
module FdAnalysis {
  import opened Options
  import opened FdMachine
  import opened FdChains
  import opened FdTracker

  class FdEventInfo {
    var refs: seq<FdRef>
    var primary: int
    var jump: int
    var creator: int
    var openAfter: bool

    constructor ()
      ensures Value() == BLANK
    {
      refs, primary, jump, creator, openAfter := [], -1, -1, -1, false;
    }

    function Value(): Info
      reads this
    {
      Info(refs, primary, jump, creator, openAfter)
    }

    /** add_ref */
    method AddRef(fd: int, obj: int)
      modifies this`refs
      ensures refs == old(refs) + [FdRef(fd, obj)]
    {
      refs := refs + [FdRef(fd, obj)];
    }

    method Point(primary: int, jump: int, creator: int, openAfter: bool)
      modifies this`primary, this`jump, this`creator, this`openAfter
      ensures Value() == Info(refs, primary, jump, creator, openAfter)
    {
      this.primary, this.jump, this.creator, this.openAfter := primary, jump, creator, openAfter;
    }
  }

  datatype Row = Row(pid: int, table: Table)

  predicate DistinctPids(rows: seq<Row>) {
    forall i, j :: 0 <= i < j < |rows| ==> rows[i].pid != rows[j].pid
  }

  function ProcsOf(rows: seq<Row>): Procs
    requires DistinctPids(rows)
  {
    map i | 0 <= i < |rows| :: rows[i].pid := rows[i].table
  }

  lemma FoundRow(rows: seq<Row>, i: int)
    requires DistinctPids(rows) && 0 <= i < |rows|
    ensures rows[i].pid in ProcsOf(rows) && ProcsOf(rows)[rows[i].pid] == rows[i].table
  {
  }

  lemma AppendedRow(rows: seq<Row>, row: Row)
    requires DistinctPids(rows) && row.pid !in ProcsOf(rows)
    ensures DistinctPids(rows + [row]) && ProcsOf(rows + [row]) == ProcsOf(rows)[row.pid := row.table]
  {
    var grown := rows + [row];
    forall i | 0 <= i < |rows|
      ensures rows[i].pid != row.pid
    {
      FoundRow(rows, i);
    }
    assert grown[|rows|] == row;
    forall pid | pid in ProcsOf(rows)
      ensures pid in ProcsOf(grown)
    {
      var i :| 0 <= i < |rows| && rows[i].pid == pid;
      assert grown[i].pid == pid;
    }
  }

  lemma UpdatedRow(rows: seq<Row>, at: int, table: Table)
    requires DistinctPids(rows) && 0 <= at < |rows|
    ensures var changed := rows[at := Row(rows[at].pid, table)];
            DistinctPids(changed) && ProcsOf(changed) == ProcsOf(rows)[rows[at].pid := table]
  {
    var changed := rows[at := Row(rows[at].pid, table)];
    assert forall i :: 0 <= i < |rows| ==> changed[i].pid == rows[i].pid;
  }

  class Analysis {
    var tables: seq<FdTable>
    var objects: seq<FdObject>
    const infos: seq<FdEventInfo>

    ghost predicate Valid()
      reads this, tables
    {
      && (forall i :: 0 <= i < |tables| ==> tables[i].Valid())
      && (forall i, j :: 0 <= i < j < |tables| ==> tables[i].pid != tables[j].pid)
    }

    ghost function Rows(): (rows: seq<Row>)
      reads this, tables
      requires Valid()
      ensures DistinctPids(rows) && |rows| == |tables|
    {
      seq(|tables|, i requires 0 <= i < |tables| reads this, tables =>
                      if tables[i].Valid() then Row(tables[i].pid, tables[i].Fds()) else Row(0, map[]))
    }

    /** The map machine's process map that the tables represent. */
    ghost function AsProcs(): Procs
      reads this, tables
      requires Valid()
    {
      ProcsOf(Rows())
    }

    constructor (infos: seq<FdEventInfo>)
      ensures Valid() && tables == [] && objects == [] && this.infos == infos
    {
      tables, objects, this.infos := [], [], infos;
    }

    /** find_table */
    method FindTable(pid: int) returns (at: int)
      requires Valid()
      ensures at == -1 <==> pid !in AsProcs()
      ensures at != -1 ==> 0 <= at < |tables| && tables[at].pid == pid && tables[at].Fds() == AsProcs()[pid]
    {
      at := 0;
      while at < |tables|
        invariant 0 <= at <= |tables|
        invariant forall k :: 0 <= k < at ==> Rows()[k].pid != pid
      {
        if tables[at].pid == pid {
          FoundRow(Rows(), at);
          return;
        }
        at := at + 1;
      }
      at := -1;
    }

    /** get_table: find the process, or materialise it from its parent. */
    method GetTable(pid: int, parents: seq<(int, int)>) returns (t: FdTable)
      requires Valid()
      modifies this`tables
      ensures Valid() && t in tables && t.pid == pid
      ensures forall x :: x in tables ==> x in old(tables) || fresh(x)
      ensures AsProcs() == Materialise(old(AsProcs()), parents, pid)
    {
      hide AsProcs, Rows, Inherited, AsTable;
      var at := FindTable(pid);
      if at != -1 {
        return tables[at];
      }
      var copied := CopyOfParent(pid, parents);
      t := Adopt(pid, copied);
    }

    /** A copy of the bindings of a process's parent, empty when the parent has no table. */
    method CopyOfParent(pid: int, parents: seq<(int, int)>) returns (copied: seq<Binding>)
      requires Valid()
      ensures DistinctFds(copied) && AsTable(copied) == Inherited(AsProcs(), parents, pid)
    {
      var at := FindTable(ParentOf(parents, pid));
      copied := [];
      if at != -1 {
        copied := tables[at].bindings;
      }
    }

    method Adopt(pid: int, copied: seq<Binding>) returns (t: FdTable)
      requires Valid() && pid !in AsProcs() && DistinctFds(copied)
      modifies this`tables
      ensures Valid() && fresh(t) && t.pid == pid && tables == old(tables) + [t]
      ensures AsProcs() == old(AsProcs())[pid := AsTable(copied)]
    {
      ghost var rows := Rows();
      t := new FdTable(pid, copied);
      assert Valid();
      assert Rows() == rows;
      Append(t);
    }

    method Append(t: FdTable)
      requires Valid() && t.Valid() && t.pid !in AsProcs()
      modifies this`tables
      ensures Valid() && tables == old(tables) + [t]
      ensures AsProcs() == old(AsProcs())[t.pid := t.Fds()]
    {
      hide ProcsOf, AsTable, DistinctFds;
      ghost var rows, row := Rows(), Row(t.pid, t.Fds());
      AppendedRow(rows, row);
      forall i | 0 <= i < |tables|
        ensures tables[i].pid != t.pid
      {
        FoundRow(rows, i);
      }
      tables := tables + [t];
      assert Rows() == rows + [row];
    }

    /** add_object */
    method AddObject(origin: nat, target: Target) returns (id: nat)
      modifies this`objects
      ensures id == |old(objects)| && objects == old(objects) + [FdObject(origin, target)]
    {
      id := |objects|;
      objects := objects + [FdObject(origin, target)];
    }

    /** What one event's code must leave behind. */
    twostate predicate Done(t: FdTable, info: FdEventInfo, op: Op, i: nat)
      requires old(t.Valid())
      reads this`objects, t, info
    {
      && t.Valid()
      && t.Fds() == NextTable(old(t.Fds()), op, i, |old(objects)|)
      && objects == old(objects) + NewObject(op, i)
      && info.Value() == InfoOf(old(t.Fds()), op, i, |old(objects)|)
    }

    method OnCreate(t: FdTable, info: FdEventInfo, target: Target, fd: int, cloexec: bool, i: nat)
      requires t.Valid() && info.Value() == BLANK
      modifies this`objects, t, info
      ensures Done(t, info, Create(target, fd, cloexec), i)
    {
      var id := AddObject(i, target);
      t.Bind(fd, Entry(id, i, cloexec));
      info.AddRef(fd, id);
      info.Point(0, -1, i, true);
    }

    method OnAccept(t: FdTable, info: FdEventInfo, listener: Option<int>, fd: int, cloexec: bool, i: nat)
      requires t.Valid() && info.Value() == BLANK
      modifies this`objects, t, info
      ensures Done(t, info, Accept(listener, fd, cloexec), i)
    {
      var id := AddObject(i, AcceptedSocket);
      if listener.Some? {
        var at := t.Find(listener.value);
        info.AddRef(listener.value, if at != -1 then t.bindings[at].entry.obj else -1);
      }
      t.Bind(fd, Entry(id, i, cloexec));
      info.AddRef(fd, id);
      info.Point(|info.refs| - 1, -1, i, true);
    }

    method BindBoth(t: FdTable, left: int, right: int, entry: Entry)
      requires t.Valid()
      modifies t
      ensures t.Valid() && t.Fds() == old(t.Fds())[left := entry][right := entry]
    {
      t.Remove(left);
      t.Remove(right);
      t.Set(left, entry);
      t.Set(right, entry);
      RemoveBothThenSet(old(t.Fds()), left, right, entry);
    }

    method OnPipe(t: FdTable, info: FdEventInfo, left: int, right: int, cloexec: bool, i: nat)
      requires t.Valid() && info.Value() == BLANK
      modifies this`objects, t, info
      ensures Done(t, info, Pipe(left, right, cloexec), i)
    {
      var id := AddObject(i, PipeEnds);
      BindBoth(t, left, right, Entry(id, i, cloexec));
      info.AddRef(left, id);
      info.AddRef(right, id);
      info.Point(0, -1, i, true);
    }

    /** The tail shared by dup and fcntl(F_DUPFD) once the source is known. */
    method Rebind(t: FdTable, info: FdEventInfo, source: Entry, result: int, cloexec: bool, i: nat)
      requires t.Valid()
      modifies t, info
      ensures t.Valid() && t.Fds() == old(t.Fds())[result := Entry(source.obj, i, cloexec)]
      ensures var refs := old(info.refs);
              info.Value() == Info(refs + [FdRef(result, source.obj)], |refs|, source.creator, i, true)
    {
      t.Bind(result, Entry(source.obj, i, cloexec));
      info.AddRef(result, source.obj);
      info.Point(|info.refs| - 1, source.creator, i, true);
    }

    method MentionSource(t: FdTable, info: FdEventInfo, src: int, named: Option<int>) returns (at: int)
      requires t.Valid() && info.refs == []
      modifies info`refs
      ensures info.refs == SourceRefs(t.Fds(), src, named)
      ensures at == -1 <==> src !in t.Fds()
      ensures at != -1 ==> 0 <= at < |t.bindings| && t.bindings[at].entry == t.Fds()[src]
    {
      at := t.Find(src);
      var obj := if at != -1 then t.bindings[at].entry.obj else -1;
      info.AddRef(src, obj);
      if named.Some? {
        info.AddRef(named.value, obj);
      }
    }

    method OnDup(t: FdTable, info: FdEventInfo, src: int, named: Option<int>, result: int, cloexec: bool, i: nat)
      requires t.Valid() && info.Value() == BLANK
      modifies this`objects, t, info
      ensures Done(t, info, Dup(src, named, result, cloexec), i)
    {
      var at := MentionSource(t, info, src, named);
      if at != -1 {
        Rebind(t, info, t.bindings[at].entry, result, cloexec, i);
      }
    }

    method OnFcntlDup(t: FdTable, info: FdEventInfo, src: int, result: int, cloexec: bool, i: nat)
      requires t.Valid() && info.Value() == BLANK
      modifies this`objects, t, info
      ensures Done(t, info, FcntlDup(src, result, cloexec), i)
    {
      var at := MentionSource(t, info, src, None);
      info.primary := 0;
      if at != -1 {
        Rebind(t, info, t.bindings[at].entry, result, cloexec, i);
      }
    }

    method OnFcntlOther(t: FdTable, info: FdEventInfo, src: int, i: nat)
      requires t.Valid() && info.Value() == BLANK
      modifies this`objects, t, info
      ensures Done(t, info, FcntlOther(src), i)
    {
      var at := t.Find(src);
      info.AddRef(src, if at != -1 then t.bindings[at].entry.obj else -1);
      info.primary := 0;
    }

    /** The common part of the calls that only mention an fd. */
    method MentionFd(t: FdTable, info: FdEventInfo, fd: int, openAfter: bool) returns (at: int)
      requires t.Valid() && info.Value() == BLANK
      modifies info
      ensures info.Value() == Mention(t.Fds(), fd, openAfter)
      ensures at == -1 <==> fd !in t.Fds()
      ensures at != -1 ==> 0 <= at < |t.bindings| && t.bindings[at].fd == fd && t.bindings[at].entry == t.Fds()[fd]
    {
      at := t.Find(fd);
      info.AddRef(fd, if at != -1 then t.bindings[at].entry.obj else -1);
      info.primary := 0;
      if at != -1 {
        info.Point(0, t.bindings[at].entry.creator, t.bindings[at].entry.creator, openAfter);
      }
    }

    method OnSetFd(t: FdTable, info: FdEventInfo, src: int, cloexec: bool, i: nat)
      requires t.Valid() && info.Value() == BLANK
      modifies this`objects, t, info
      ensures Done(t, info, FcntlSetFd(src, cloexec), i)
    {
      var at := MentionFd(t, info, src, true);
      if at != -1 {
        t.Set(src, t.bindings[at].entry.(cloexec := cloexec));
      }
    }

    method OnUse(t: FdTable, info: FdEventInfo, fd: int, i: nat)
      requires t.Valid() && info.Value() == BLANK
      modifies this`objects, t, info
      ensures Done(t, info, Use(fd), i)
    {
      var _ := MentionFd(t, info, fd, true);
    }

    method OnClose(t: FdTable, info: FdEventInfo, fd: int, i: nat)
      requires t.Valid() && info.Value() == BLANK
      modifies this`objects, t, info
      ensures Done(t, info, Close(fd), i)
    {
      var _ := MentionFd(t, info, fd, false);
      t.Remove(fd);
    }

    method Apply(t: FdTable, info: FdEventInfo, op: Op, i: nat)
      requires t.Valid() && info.Value() == BLANK
      modifies this`objects, t, info
      ensures Done(t, info, op, i)
    {
      match op
      case Exec => t.CloseOnExec();
      case Create(target, fd, cloexec) => OnCreate(t, info, target, fd, cloexec, i);
      case Accept(listener, fd, cloexec) => OnAccept(t, info, listener, fd, cloexec, i);
      case Pipe(left, right, cloexec) => OnPipe(t, info, left, right, cloexec, i);
      case Dup(src, named, result, cloexec) => OnDup(t, info, src, named, result, cloexec, i);
      case FcntlDup(src, result, cloexec) => OnFcntlDup(t, info, src, result, cloexec, i);
      case FcntlSetFd(src, cloexec) => OnSetFd(t, info, src, cloexec, i);
      case FcntlOther(src) => OnFcntlOther(t, info, src, i);
      case Use(fd) => OnUse(t, info, fd, i);
      case Close(fd) => OnClose(t, info, fd, i);
      case _ =>
    }

    /** The first `from` event records are those of the machine, the others untouched. */
    ghost predicate Holds(m: Machine, from: nat)
      reads this, tables, infos
    {
      && Shows(m)
      && |m.infos| == from <= |infos|
      && (forall k :: 0 <= k < from ==> infos[k].Value() == m.infos[k])
      && (forall k :: from <= k < |infos| ==> infos[k].Value() == BLANK)
    }

    /** The effect of one event's code on its own table, seen on all tables. */
    lemma OneTableChanged(rows: seq<Row>, t: FdTable)
      requires Valid() && t in tables && DistinctPids(rows) && |rows| == |tables|
      requires forall k :: 0 <= k < |tables| && tables[k] != t ==> Rows()[k] == rows[k]
      requires forall k :: 0 <= k < |tables| ==> rows[k].pid == tables[k].pid
      ensures AsProcs() == ProcsOf(rows)[t.pid := t.Fds()]
    {
      var at :| 0 <= at < |tables| && tables[at] == t;
      UpdatedRow(rows, at, t.Fds());
      assert Rows() == rows[at := Row(rows[at].pid, t.Fds())];
    }

    ghost predicate DistinctInfos()
      reads this
    {
      forall j, k :: 0 <= j < k < |infos| ==> infos[j] != infos[k]
    }

    method ApplyTo(t: FdTable, op: Op, i: nat, ghost procs: Procs)
      requires Valid() && t in tables && i < |infos| && infos[i].Value() == BLANK
      requires AsProcs() == procs && t.pid in procs && procs[t.pid] == t.Fds()
      modifies this`objects, t, infos[i]
      ensures Valid() && AsProcs() == procs[t.pid := NextTable(procs[t.pid], op, i, |old(objects)|)]
      ensures objects == old(objects) + NewObject(op, i)
      ensures infos[i].Value() == InfoOf(procs[t.pid], op, i, |old(objects)|)
    {
      ghost var rows := Rows();
      Apply(t, infos[i], op, i);
      OneTableChanged(rows, t);
    }

    lemma RowOf(t: FdTable)
      requires Valid() && t in tables
      ensures t.pid in AsProcs() && AsProcs()[t.pid] == t.Fds()
    {
      var at :| 0 <= at < |tables| && tables[at] == t;
      FoundRow(Rows(), at);
    }

    /** The tables and objects are those of the machine. */
    ghost predicate Shows(m: Machine)
      reads this, tables
    {
      Valid() && AsProcs() == m.procs && objects == m.objects
    }

    method OnSpawn(e: Event, parents: seq<(int, int)>, ghost m: Machine)
      requires Shows(m) && e.op.Spawn?
      modifies this`tables
      ensures Shows(Step(m, parents, e))
      ensures forall x :: x in tables ==> x in old(tables) || fresh(x)
    {
      var _ := GetTable(e.pid, parents);
      var _ := GetTable(e.op.child, parents);
    }

    method OnCall(e: Event, i: nat, parents: seq<(int, int)>, ghost m: Machine)
      requires Shows(m) && i == |m.infos| && i < |infos| && infos[i].Value() == BLANK && !e.op.Spawn?
      modifies this`tables, this`objects, tables, infos[i]
      ensures Shows(Step(m, parents, e))
      ensures infos[i].Value() == Step(m, parents, e).infos[i]
      ensures forall x :: x in tables ==> x in old(tables) || fresh(x)
    {
      var t := GetTable(e.pid, parents);
      RowOf(t);
      ApplyTo(t, e.op, i, AsProcs());
    }

    method OnEvent(e: Event, i: nat, parents: seq<(int, int)>, ghost m: Machine)
      requires Holds(m, i) && i < |infos| && DistinctInfos()
      modifies this`tables, this`objects, tables, infos[i]
      ensures Holds(Step(m, parents, e), i + 1)
      ensures forall x :: x in tables ==> x in old(tables) || fresh(x)
    {
      if e.op.Spawn? {
        OnSpawn(e, parents, m);
      } else {
        OnCall(e, i, parents, m);
      }
    }

    method OnTrace(events: seq<Event>, parents: seq<(int, int)>)
      requires Holds(EMPTY, 0) && DistinctInfos() && |infos| == |events|
      modifies this`tables, this`objects, tables, infos
      ensures Holds(Run(parents, events), |events|)
    {
      hide Step, Run, Holds;
      ghost var m := EMPTY;
      NoEvents(parents, events);
      for i := 0 to |events|
        invariant m == Run(parents, events[..i])
        invariant Holds(m, i)
        invariant forall t :: t in tables ==> t in old(tables) || fresh(t)
      {
        assert infos[i] in infos && forall k :: 0 <= k < |tables| ==> tables[k] in tables;
        OnEvent(events[i], i, parents, m);
        OneMoreEvent(parents, events, i);
        m := Step(m, parents, events[i]);
      }
      assert events[..|events|] == events;
    }
  }

  lemma NoEvents(parents: seq<(int, int)>, events: seq<Event>)
    ensures Run(parents, events[..0]) == EMPTY
  {
  }

  lemma OneMoreEvent(parents: seq<(int, int)>, events: seq<Event>, i: nat)
    requires i < |events|
    ensures Run(parents, events[..i + 1]) == Step(Run(parents, events[..i]), parents, events[i])
  {
    assert events[..i + 1][..i] == events[..i];
  }

  /** collect_parents */
  method CollectParents(events: seq<Event>) returns (parents: seq<(int, int)>)
    ensures parents == Parents(events)
  {
    parents := [];
    for i := 0 to |events|
      invariant parents == Parents(events[..i])
    {
      assert events[..i + 1][..i] == events[..i];
      if events[i].op.Spawn? {
        parents := parents + [(events[i].op.child, events[i].pid)];
      }
    }
    assert events[..|events|] == events;
  }

  /** calloc and the initialisation loop of fd_analysis_build. */
  method BlankInfos(count: nat) returns (infos: seq<FdEventInfo>)
    ensures |infos| == count && forall k :: 0 <= k < count ==> fresh(infos[k])
    ensures forall k :: 0 <= k < count ==> infos[k].Value() == BLANK
    ensures forall j, k :: 0 <= j < k < count ==> infos[j] != infos[k]
  {
    infos := [];
    while |infos| < count
      invariant |infos| <= count && forall k :: 0 <= k < |infos| ==> fresh(infos[k])
      invariant forall k :: 0 <= k < |infos| ==> infos[k].Value() == BLANK
      invariant forall j, k :: 0 <= j < k < |infos| ==> infos[j] != infos[k]
    {
      var info := new FdEventInfo();
      infos := infos + [info];
    }
  }

  /** fd_analysis_build: the tables, objects and event records after the whole trace are those
      of the map machine. */
  method Build(events: seq<Event>) returns (a: Analysis)
    ensures fresh(a) && a.Holds(Run(Parents(events), events), |events|)
    ensures |a.infos| == |events|
  {
    var parents := CollectParents(events);
    var infos := BlankInfos(|events|);
    a := new Analysis(infos);
    a.OnTrace(events, parents);
  }

  /** Pressing `o` until nothing happens: jump_fd_origin followed to its end. */
  method FollowToOrigin(infos: seq<Info>, ghost m: Machine, from: nat) returns (at: int, presses: nat)
    requires Linked(m) && m.infos == infos && from < |infos|
    requires infos[from].jump >= 0
    ensures 0 <= at < |infos| && infos[at].jump < 0
    ensures presses == |Chain(infos, from)| - 1
    ensures var obj := PrimaryObject(infos[from]);
            0 <= obj < |m.objects| && at == m.objects[obj].origin
  {
    at, presses := from, 0;
    ghost var obj := PrimaryObject(infos[from]);
    ChainLeadsToOrigin(m, from, obj);
    while infos[at].jump >= 0 && infos[at].jump < |infos|
      invariant 0 <= at < |infos| && PrimaryObject(infos[at]) == obj
      invariant infos[at].jump >= 0 || infos[at].creator == at
      invariant presses + |Chain(infos, at)| == |Chain(infos, from)|
      invariant Chain(infos, at)[|Chain(infos, at)| - 1] == m.objects[obj].origin
      decreases at
    {
      assert GoodInfo(m, at);
      at, presses := infos[at].jump, presses + 1;
    }
    assert GoodInfo(m, at);
  }

  /** The History section of the FD popup for a selected event: the creators from its own back
      to, but without, the origin of its object; `room` rows are free. */
  method HistoryRows(infos: seq<Info>, objects: seq<FdObject>, selected: nat, room: nat, ghost m: Machine)
    returns (rows: seq<int>)
    requires Linked(m) && m.infos == infos && m.objects == objects && selected < |infos|
    ensures |rows| <= room
    ensures infos[selected].creator < 0 ==> rows == []
    ensures infos[selected].creator >= 0 ==>
              && infos[selected].creator < |infos| && 0 <= PrimaryObject(infos[selected]) < |objects|
              && rows <= Chain(infos, infos[selected].creator)
              && (|rows| < room ==>
                    rows + [objects[PrimaryObject(infos[selected])].origin] == Chain(infos, infos[selected].creator))
  {
    hide Chain, PrimaryObject;
    rows := [];
    if infos[selected].creator < 0 { return; }
    CreatorMadeBinding(m, selected);
    var obj := PrimaryObject(infos[selected]);
    var at, origin := infos[selected].creator, objects[obj].origin;
    ghost var chain := Chain(infos, at);
    while at >= 0 && at != origin && |rows| < room
      invariant 0 <= at < |infos| && PrimaryObject(infos[at]) == obj && infos[at].creator == at
      invariant |rows| <= room && rows + Chain(infos, at) == chain
      decreases at
    {
      JumpKeepsObject(m, at);
      Regroup(rows, [at], Chain(infos, infos[at].jump));
      rows := rows + [at];
      at := infos[at].jump;
    }
    OnlyOriginHasNoJump(m, at);
    OriginEndsChain(m, at);
  }

  lemma CreatorMadeBinding(m: Machine, i: int)
    requires Linked(m) && 0 <= i < |m.infos| && m.infos[i].creator >= 0
    ensures MadeBinding(m, m.infos[i].creator, PrimaryObject(m.infos[i]))
  {
    assert GoodInfo(m, i);
  }

  /** Any creator but the origin jumps to an older creator of the same object. */
  lemma JumpKeepsObject(m: Machine, c: int)
    requires Linked(m) && 0 <= c < |m.infos| && m.infos[c].creator == c
    requires 0 <= PrimaryObject(m.infos[c]) < |m.objects| ==> c != m.objects[PrimaryObject(m.infos[c])].origin
    ensures var next := m.infos[c].jump;
            && 0 <= next < c && m.infos[next].creator == next
            && PrimaryObject(m.infos[next]) == PrimaryObject(m.infos[c])
            && Chain(m.infos, c) == [c] + Chain(m.infos, next)
  {
    OnlyOriginHasNoJump(m, c);
    assert GoodInfo(m, c);
  }

  lemma OriginEndsChain(m: Machine, c: int)
    requires 0 <= c < |m.infos|
    ensures m.infos[c].jump < 0 ==> Chain(m.infos, c) == [c]
  {
  }

  /** Among the events that made a binding, exactly the object's origin has no jump. */
  lemma OnlyOriginHasNoJump(m: Machine, c: int)
    requires Linked(m) && 0 <= c < |m.infos| && m.infos[c].creator == c
    ensures var obj := PrimaryObject(m.infos[c]);
            0 <= obj < |m.objects| && (m.infos[c].jump < 0 <==> c == m.objects[obj].origin)
  {
    assert GoodInfo(m, c);
  }
}
