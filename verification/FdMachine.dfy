/** The file descriptor lineage tracker as a map machine: each process has a map from fd to
    the object it refers to, the event that made the binding, and its close-on-exec flag.
    This is what the arrays of fd_analysis_build (FdTracker.dfy) are proved to represent. */
module FdMachine {
  import opened Options

  datatype Target = Path | Socket | AcceptedSocket | PipeEnds

  /** A traced system call after argument decoding, in the order the tracker tries them. */
  datatype Op =
    | Spawn(child: int)                                        // fork family, not CLONE_THREAD
    | Exec
    | Create(target: Target, fd: int, cloexec: bool)           // open family, socket
    | Accept(listener: Option<int>, fd: int, cloexec: bool)
    | Pipe(left: int, right: int, cloexec: bool)
    | Dup(src: int, named: Option<int>, result: int, cloexec: bool)   // named: dup2/dup3 argument
    | FcntlDup(src: int, result: int, cloexec: bool)
    | FcntlSetFd(src: int, cloexec: bool)
    | FcntlOther(src: int)
    | Use(fd: int)                                             // read, write, ... and a failed close
    | Close(fd: int)
    | Ignored

  datatype Event = Event(pid: int, op: Op)

  datatype Entry = Entry(obj: int, creator: int, cloexec: bool)
  type Table = map<int, Entry>
  type Procs = map<int, Table>

  datatype FdObject = FdObject(origin: int, target: Target)
  datatype FdRef = FdRef(fd: int, obj: int)
  datatype Info = Info(refs: seq<FdRef>, primary: int, jump: int, creator: int, openAfter: bool)

  const BLANK := Info([], -1, -1, -1, false)

  /** collect_parents over the whole trace, first match wins in parent_of. */
  function Parents(events: seq<Event>): seq<(int, int)> {
    if events == [] then []
    else
      var last := events[|events| - 1];
      Parents(events[..|events| - 1]) + if last.op.Spawn? then [(last.op.child, last.pid)] else []
  }

  function ParentOf(parents: seq<(int, int)>, child: int): int {
    if parents == [] then 0
    else if parents[0].0 == child then parents[0].1
    else ParentOf(parents[1..], child)
  }

  /** What a process seen for the first time starts with: a copy of its parent's table. */
  function Inherited(procs: Procs, parents: seq<(int, int)>, pid: int): Table {
    var parent := ParentOf(parents, pid);
    if parent in procs then procs[parent] else map[]
  }

  function Materialise(procs: Procs, parents: seq<(int, int)>, pid: int): Procs {
    if pid in procs then procs else procs[pid := Inherited(procs, parents, pid)]
  }

  function ObjectOf(t: Table, fd: int): int {
    if fd in t then t[fd].obj else -1
  }

  function KeptOverExec(t: Table): Table {
    map fd | fd in t && !t[fd].cloexec :: t[fd]
  }

  /** What event number i, making object `newObj` if it makes one, does to its process's table. */
  function NextTable(t: Table, op: Op, i: int, newObj: int): Table {
    match op
    case Exec => KeptOverExec(t)
    case Create(_, fd, cloexec) => t[fd := Entry(newObj, i, cloexec)]
    case Accept(_, fd, cloexec) => t[fd := Entry(newObj, i, cloexec)]
    case Pipe(left, right, cloexec) => t[left := Entry(newObj, i, cloexec)][right := Entry(newObj, i, cloexec)]
    case Dup(src, _, result, cloexec) => if src in t then t[result := Entry(t[src].obj, i, cloexec)] else t
    case FcntlDup(src, result, cloexec) => if src in t then t[result := Entry(t[src].obj, i, cloexec)] else t
    case FcntlSetFd(src, cloexec) => if src in t then t[src := t[src].(cloexec := cloexec)] else t
    case Close(fd) => t - {fd}
    case _ => t
  }

  function NewObject(op: Op, i: int): seq<FdObject> {
    match op
    case Create(target, _, _) => [FdObject(i, target)]
    case Accept(_, _, _) => [FdObject(i, AcceptedSocket)]
    case Pipe(_, _, _) => [FdObject(i, PipeEnds)]
    case _ => []
  }

  /** A reference to one fd that says which event bound it. */
  function Mention(t: Table, fd: int, openAfter: bool): Info {
    var refs := [FdRef(fd, ObjectOf(t, fd))];
    if fd in t then Info(refs, 0, t[fd].creator, t[fd].creator, openAfter)
    else Info(refs, 0, -1, -1, false)
  }

  /** What a dup mentions before its result: the source, and dup2's target by the same object. */
  function SourceRefs(t: Table, src: int, named: Option<int>): seq<FdRef> {
    [FdRef(src, ObjectOf(t, src))] + (if named.Some? then [FdRef(named.value, ObjectOf(t, src))] else [])
  }

  function Duplicate(t: Table, src: int, named: Option<int>, result: int, i: int, untracked: int): Info {
    var refs := SourceRefs(t, src, named);
    if src in t then Info(refs + [FdRef(result, t[src].obj)], |refs|, t[src].creator, i, true)
    else Info(refs, untracked, -1, -1, false)
  }

  /** What the tracker records about event number i. */
  function InfoOf(t: Table, op: Op, i: int, newObj: int): Info {
    match op
    case Create(_, fd, _) => Info([FdRef(fd, newObj)], 0, -1, i, true)
    case Accept(listener, fd, _) =>
      var refs := if listener.Some? then [FdRef(listener.value, ObjectOf(t, listener.value))] else [];
      Info(refs + [FdRef(fd, newObj)], |refs|, -1, i, true)
    case Pipe(left, right, _) => Info([FdRef(left, newObj), FdRef(right, newObj)], 0, -1, i, true)
    case Dup(src, named, result, _) => Duplicate(t, src, named, result, i, -1)
    case FcntlDup(src, result, _) => Duplicate(t, src, None, result, i, 0)
    case FcntlSetFd(src, _) => Mention(t, src, true)
    case FcntlOther(src) => Info([FdRef(src, ObjectOf(t, src))], 0, -1, -1, false)
    case Use(fd) => Mention(t, fd, true)
    case Close(fd) => Mention(t, fd, false)
    case _ => BLANK
  }

  datatype Machine = Machine(procs: Procs, objects: seq<FdObject>, infos: seq<Info>)

  const EMPTY := Machine(map[], [], [])

  function Step(m: Machine, parents: seq<(int, int)>, e: Event): Machine {
    var i := |m.infos|;
    var procs := Materialise(m.procs, parents, e.pid);
    var t := procs[e.pid];
    var newObj := |m.objects|;
    Machine(if e.op.Spawn? then Materialise(procs, parents, e.op.child)
            else procs[e.pid := NextTable(t, e.op, i, newObj)],
            m.objects + NewObject(e.op, i),
            m.infos + [InfoOf(t, e.op, i, newObj)])
  }

  function Run(parents: seq<(int, int)>, events: seq<Event>): (m: Machine)
    ensures |m.infos| == |events|
  {
    if events == [] then EMPTY
    else Step(Run(parents, events[..|events| - 1]), parents, events[|events| - 1])
  }

  // ---------------------------------------------------------------- processes are separate

  /** An event changes no table but its own process's; every known process stays known. */
  lemma OtherTablesUntouched(m: Machine, parents: seq<(int, int)>, e: Event, pid: int)
    requires pid in m.procs && pid != e.pid
    ensures pid in Step(m, parents, e).procs && Step(m, parents, e).procs[pid] == m.procs[pid]
  {
  }

  /** A table stays what it was until its own process acts, whatever the parent does. */
  lemma {:induction false} SnapshotKept(parents: seq<(int, int)>, events: seq<Event>, later: seq<Event>, pid: int)
    requires pid in Run(parents, events).procs
    requires forall e :: e in later ==> e.pid != pid
    ensures pid in Run(parents, events + later).procs
    ensures Run(parents, events + later).procs[pid] == Run(parents, events).procs[pid]
  {
    if later == [] {
      assert events + later == events;
    } else {
      var front, last := later[..|later| - 1], later[|later| - 1];
      SnapshotKept(parents, events, front, pid);
      assert (events + later)[..|events + later| - 1] == events + front;
      OtherTablesUntouched(Run(parents, events + front), parents, last, pid);
    }
  }

  // ---------------------------------------------------------------- forks

  /** Every process that an event names is known from then on. */
  lemma {:induction false} NamedAreKnown(parents: seq<(int, int)>, events: seq<Event>, k: nat)
    requires k < |events|
    ensures events[k].pid in Run(parents, events).procs
    ensures events[k].op.Spawn? ==> events[k].op.child in Run(parents, events).procs
  {
    var front := events[..|events| - 1];
    if k < |front| {
      NamedAreKnown(parents, front, k);
      assert front[k] == events[k];
    }
  }

  lemma {:induction false} ParentsJoin(a: seq<Event>, b: seq<Event>)
    ensures Parents(a + b) == Parents(a) + Parents(b)
  {
    if b == [] {
      assert a + b == a;
    } else {
      assert (a + b)[..|a + b| - 1] == a + b[..|b| - 1];
      ParentsJoin(a, b[..|b| - 1]);
    }
  }

  /** Without a spawn of the process among the events, none of their entries names it. */
  lemma {:induction false} NotSpawned(events: seq<Event>, child: int)
    requires forall k :: 0 <= k < |events| ==> !(events[k].op.Spawn? && events[k].op.child == child)
    ensures forall j :: 0 <= j < |Parents(events)| ==> Parents(events)[j].0 != child
  {
    if events != [] {
      NotSpawned(events[..|events| - 1], child);
    }
  }

  lemma {:induction false} FirstMatchWins(front: seq<(int, int)>, child: int, parent: int, rest: seq<(int, int)>)
    requires forall j :: 0 <= j < |front| ==> front[j].0 != child
    ensures ParentOf(front + [(child, parent)] + rest, child) == parent
  {
    var all := front + [(child, parent)] + rest;
    if front != [] {
      assert all[1..] == front[1..] + [(child, parent)] + rest;
      FirstMatchWins(front[1..], child, parent, rest);
    }
  }

  /** In the table of parents that is collected from the whole trace, the parent of a process
      first named by a fork is the one that forked it. */
  lemma ForkNamesTheParent(events: seq<Event>, fork: Event, later: seq<Event>)
    requires fork.op.Spawn?
    requires fork.op.child !in Run(Parents(events + [fork] + later), events).procs
    ensures ParentOf(Parents(events + [fork] + later), fork.op.child) == fork.pid
  {
    var child, parents := fork.op.child, Parents(events + [fork] + later);
    forall k | 0 <= k < |events|
      ensures !(events[k].op.Spawn? && events[k].op.child == child)
    {
      NamedAreKnown(parents, events, k);
    }
    NotSpawned(events, child);
    ParentsJoin(events + [fork], later);
    ParentsJoin(events, [fork]);
    assert [fork][..0] == [];
    FirstMatchWins(Parents(events), child, fork.pid, Parents(later));
  }

  /** Over every trace: from a fork until the child acts itself the child's table is that of
      its parent at the fork if and only if the child is new there, or had that very table
      already.  Closes and dups of the parent after the fork do not reach it. */
  lemma ForkCopiesIff(events: seq<Event>, fork: Event, later: seq<Event>)
    requires fork.op.Spawn? && forall e :: e in later ==> e.pid != fork.op.child
    ensures var parents := Parents(events + [fork] + later);
            var before := Materialise(Run(parents, events).procs, parents, fork.pid);
            var after := Run(parents, events + [fork] + later).procs;
            && fork.op.child in after
            && (after[fork.op.child] == before[fork.pid]
                <==> fork.op.child !in before || before[fork.op.child] == before[fork.pid])
            && (fork.op.child in before ==> after[fork.op.child] == before[fork.op.child])
  {
    var parents := Parents(events + [fork] + later);
    if fork.op.child !in Run(parents, events).procs {
      ForkNamesTheParent(events, fork, later);
    }
    assert (events + [fork])[..|events|] == events;
    SnapshotKept(parents, events + [fork], later, fork.op.child);
  }

  /** A child that acts before its fork line, as a tracer may show it: its parent is the one that
      forks it later, and it starts with the table that this one has at the child's first event. */
  lemma EarlyChildStartsWithParents(events: seq<Event>, first: Event, middle: seq<Event>, fork: Event,
                                    later: seq<Event>)
    requires fork.op.Spawn? && fork.op.child == first.pid
    requires forall e :: e in [first] + middle ==> !(e.op.Spawn? && e.op.child == first.pid)
    requires first.pid !in Run(Parents(events + [first] + middle + [fork] + later), events).procs
    ensures var parents := Parents(events + [first] + middle + [fork] + later);
            var before, after := Run(parents, events), Run(parents, events + [first]);
            var start := if fork.pid in before.procs then before.procs[fork.pid] else map[];
            && ParentOf(parents, first.pid) == fork.pid && first.pid in after.procs
            && after.procs[first.pid]
               == if first.op.Spawn? then start else NextTable(start, first.op, |events|, |before.objects|)
  {
    var child, ahead := first.pid, events + [first] + middle;
    var parents := Parents(ahead + [fork] + later);
    forall k | 0 <= k < |ahead|
      ensures !(ahead[k].op.Spawn? && ahead[k].op.child == child)
    {
      if k < |events| {
        NamedAreKnown(parents, events, k);
      } else {
        assert ahead[k] == ([first] + middle)[k - |events|];
      }
    }
    NotSpawned(ahead, child);
    ParentsJoin(ahead + [fork], later);
    ParentsJoin(ahead, [fork]);
    assert [fork][..0] == [];
    FirstMatchWins(Parents(ahead), child, fork.pid, Parents(later));
    assert (events + [first])[..|events|] == events;
  }

  /** A child that the trace shows before its fork line lacks what the parent opened between. */
  lemma EarlyChildMissesOpen()
    ensures var events := [Event(2, Ignored), Event(1, Create(Path, 3, false)), Event(1, Spawn(2))];
            var procs := Run(Parents(events), events).procs;
            2 in procs && 1 in procs && 3 in procs[1] && 3 !in procs[2]
  {
    var early, open, fork := Event(2, Ignored), Event(1, Create(Path, 3, false)), Event(1, Spawn(2));
    var events := [early, open, fork];
    var parents := Parents(events);
    OneByOne(parents, early, open, fork);
    assert ParentOf(parents, 2) == 1 && ParentOf(parents, 1) == 0 by {
      ParentsOfThree(early, open, fork);
    }
  }

  lemma OneByOne(parents: seq<(int, int)>, a: Event, b: Event, c: Event)
    ensures Run(parents, [a, b, c]) == Step(Step(Step(EMPTY, parents, a), parents, b), parents, c)
  {
    hide Step;
    assert [a, b, c][..2] == [a, b] && [a, b][..1] == [a] && [a][..0] == [];
    assert Run(parents, [a]) == Step(EMPTY, parents, a);
  }

  lemma ParentsOfThree(a: Event, b: Event, c: Event)
    requires !a.op.Spawn? && !b.op.Spawn?
    ensures Parents([a, b, c]) == if c.op.Spawn? then [(c.op.child, c.pid)] else []
  {
    assert [a, b, c][..2] == [a, b] && [a, b][..1] == [a] && [a][..0] == [];
    assert Parents([a]) == [];
    assert Parents([a, b]) == [];
  }

  // ---------------------------------------------------------------- processes without a fork

  /** A process that no fork in the trace made starts without descriptors if and only if
      process 0 has none: a missing parent is looked up as process 0. */
  lemma UnknownParentStartsEmptyIff(procs: Procs, parents: seq<(int, int)>, pid: int)
    requires pid !in procs && forall k :: 0 <= k < |parents| ==> parents[k].0 != pid
    ensures Materialise(procs, parents, pid)[pid] == map[] <==> 0 !in procs || procs[0] == map[]
  {
    NoEntryMeansZero(parents, pid);
  }

  lemma {:induction false} NoEntryMeansZero(parents: seq<(int, int)>, pid: int)
    requires forall k :: 0 <= k < |parents| ==> parents[k].0 != pid
    ensures ParentOf(parents, pid) == 0
  {
    if parents != [] {
      NoEntryMeansZero(parents[1..], pid);
    }
  }

  /** Lines without a process prefix count as process 0; what they open shows up in the next
      process that has no fork. */
  lemma UnprefixedOpenLeaks()
    ensures var events := [Event(0, Ignored), Event(0, Create(Path, 3, false)), Event(5, Ignored)];
            var procs := Run(Parents(events), events).procs;
            5 in procs && 3 in procs[5]
  {
    var a, b, c := Event(0, Ignored), Event(0, Create(Path, 3, false)), Event(5, Ignored);
    OneByOne(Parents([a, b, c]), a, b, c);
    ParentsOfThree(a, b, c);
  }

  // ---------------------------------------------------------------- exec and dup

  /** What a table shows of a descriptor: its object and its close-on-exec flag. */
  function Shown(t: Table): map<int, (int, bool)> {
    map fd | fd in t :: (t[fd].obj, t[fd].cloexec)
  }

  /** The kernel's dup, dup2, dup3 and fcntl duplicates.  A descriptor duplicated onto itself
      stays as it is; any other result is bound anew.  A source that the trace never saw opened
      leaves the result bound to something unknown, which no table can name. */
  function KernelDup(t: Table, src: int, result: int, cloexec: bool, i: int): Table {
    if src == result then t
    else if src in t then t[result := Entry(t[src].obj, i, cloexec)]
    else t - {result}
  }

  /** The tracker shows what the kernel has if and only if it knows the source and does not
      change the flag of a descriptor duplicated onto itself, or it shows no result anyway. */
  lemma DupFollowsKernelIff(t: Table, src: int, named: Option<int>, result: int, cloexec: bool, i: int, newObj: int)
    ensures Shown(NextTable(t, Dup(src, named, result, cloexec), i, newObj))
            == Shown(KernelDup(t, src, result, cloexec, i))
            <==> DupIsRight(t, src, result, cloexec)
    ensures Shown(NextTable(t, FcntlDup(src, result, cloexec), i, newObj))
            == Shown(KernelDup(t, src, result, cloexec, i))
            <==> DupIsRight(t, src, result, cloexec)
  {
    var mine, kernels := NextTable(t, Dup(src, named, result, cloexec), i, newObj),
        KernelDup(t, src, result, cloexec, i);
    if result in t && !DupIsRight(t, src, result, cloexec) {
      assert result in Shown(mine);
      assert result in Shown(kernels) ==> Shown(mine)[result] != Shown(kernels)[result];
    }
    if src == result && DupIsRight(t, src, result, cloexec) {
      assert Shown(mine) == Shown(kernels);
    }
  }

  predicate DupIsRight(t: Table, src: int, result: int, cloexec: bool) {
    (src in t && (src != result || t[src].cloexec == cloexec)) || result !in t
  }

  /** open with close-on-exec, dup2 onto itself, exec: the tracker keeps the descriptor that
      the kernel has closed. */
  lemma DupOntoItselfSurvivesExec(parents: seq<(int, int)>, pid: int)
    ensures var procs := Run(parents,
            [Event(pid, Create(Path, 3, true)), Event(pid, Dup(3, Some(3), 3, false)), Event(pid, Exec)]).procs;
            pid in procs && 3 in procs[pid]
    ensures var t := Step(EMPTY, parents, Event(pid, Create(Path, 3, true))).procs[pid];
            3 in t && 3 !in KeptOverExec(KernelDup(t, 3, 3, false, 1))
  {
    OneByOne(parents, Event(pid, Create(Path, 3, true)), Event(pid, Dup(3, Some(3), 3, false)), Event(pid, Exec));
  }
}
