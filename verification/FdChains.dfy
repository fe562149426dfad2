/** Creator chains: following jump_event from any event leads back, through ever earlier
    events about the same object, to the event that made the object. */
module FdChains {
  import opened Options
  import opened FdMachine

  function PrimaryObject(info: Info): int {
    if 0 <= info.primary < |info.refs| then info.refs[info.primary].obj else -1
  }

  /** Event c made a binding of object `obj`: as its origin, or from an earlier binding. */
  predicate MadeBinding(m: Machine, c: int, obj: int) {
    && 0 <= c < |m.infos| && 0 <= obj < |m.objects|
    && m.infos[c].creator == c
    && PrimaryObject(m.infos[c]) == obj
    && (m.infos[c].jump < 0 ==> m.objects[obj].origin == c)
  }

  predicate GoodEntry(m: Machine, e: Entry) {
    MadeBinding(m, e.creator, e.obj)
  }

  /** An event points back only to an earlier event that made a binding of its own object. */
  predicate GoodInfo(m: Machine, i: int)
    requires 0 <= i < |m.infos|
  {
    var info := m.infos[i];
    && (info.jump >= 0 ==> info.jump < i && MadeBinding(m, info.jump, PrimaryObject(info)))
    && (info.creator >= 0 ==> info.creator == i || info.creator == info.jump)
    && (info.creator == i ==> MadeBinding(m, i, PrimaryObject(info)))
  }

  ghost predicate Linked(m: Machine) {
    && (forall pid, fd :: pid in m.procs && fd in m.procs[pid] ==> GoodEntry(m, m.procs[pid][fd]))
    && (forall i :: 0 <= i < |m.infos| ==> GoodInfo(m, i))
    && (forall o :: 0 <= o < |m.objects| ==>
          MadeBinding(m, m.objects[o].origin, o) && m.infos[m.objects[o].origin].jump < 0)
  }

  ghost predicate GoodTable(m: Machine, t: Table) {
    forall fd :: fd in t ==> GoodEntry(m, t[fd])
  }

  lemma MaterialiseGood(m: Machine, parents: seq<(int, int)>, pid: int)
    requires forall p :: p in m.procs ==> GoodTable(m, m.procs[p])
    ensures forall p :: p in Materialise(m.procs, parents, pid) ==> GoodTable(m, Materialise(m.procs, parents, pid)[p])
  {
  }

  /** Later events and objects do not change what an earlier event recorded. */
  lemma GoodEntryGrows(m: Machine, m': Machine, e: Entry)
    requires GoodEntry(m, e) && m.infos <= m'.infos && m.objects <= m'.objects
    ensures GoodEntry(m', e)
  {
  }

  lemma NewInfoGood(m: Machine, m': Machine, t: Table, op: Op)
    requires GoodTable(m, t)
    requires m'.objects == m.objects + NewObject(op, |m.infos|)
    requires m'.infos == m.infos + [InfoOf(t, op, |m.infos|, |m.objects|)]
    ensures GoodInfo(m', |m.infos|)
    ensures GoodTable(m', NextTable(t, op, |m.infos|, |m.objects|))
    ensures forall o :: |m.objects| <= o < |m'.objects| ==>
              MadeBinding(m', m'.objects[o].origin, o) && m'.infos[m'.objects[o].origin].jump < 0
  {
    var i, newObj := |m.infos|, |m.objects|;
    assert m'.infos[i] == InfoOf(t, op, i, newObj);
    forall fd | fd in t
      ensures GoodEntry(m', t[fd])
    {
      GoodEntryGrows(m, m', t[fd]);
    }
  }

  lemma StepLinked(m: Machine, parents: seq<(int, int)>, e: Event)
    requires Linked(m)
    ensures Linked(Step(m, parents, e))
  {
    var m' := Step(m, parents, e);
    var procs := Materialise(m.procs, parents, e.pid);
    var t := procs[e.pid];
    MaterialiseGood(m, parents, e.pid);
    NewInfoGood(m, m', t, e.op);
    if e.op.Spawn? {
      MaterialiseGood(m.(procs := procs), parents, e.op.child);
    }
    forall pid, fd | pid in m'.procs && fd in m'.procs[pid]
      ensures GoodEntry(m', m'.procs[pid][fd])
    {
      if pid != e.pid || e.op.Spawn? {
        GoodEntryGrows(m, m', m'.procs[pid][fd]);
      }
    }
    forall i | 0 <= i < |m'.infos|
      ensures GoodInfo(m', i)
    {
      if i < |m.infos| {
        assert GoodInfo(m, i) && m'.infos[i] == m.infos[i];
      }
    }
  }

  lemma {:induction false} RunLinked(parents: seq<(int, int)>, events: seq<Event>)
    ensures Linked(Run(parents, events))
  {
    if events != [] {
      RunLinked(parents, events[..|events| - 1]);
      StepLinked(Run(parents, events[..|events| - 1]), parents, events[|events| - 1]);
    }
  }

  /** The events visited by pressing `o` again and again, starting from event i. */
  function Chain(infos: seq<Info>, i: int): (c: seq<int>)
    requires 0 <= i < |infos|
    ensures c != [] && c[0] == i
    decreases i
  {
    var next := infos[i].jump;
    if 0 <= next < i then [i] + Chain(infos, next) else [i]
  }

  lemma {:induction false} ChainLeadsToOrigin(m: Machine, i: int, obj: int)
    requires Linked(m) && 0 <= i < |m.infos| && PrimaryObject(m.infos[i]) == obj
    requires m.infos[i].jump >= 0 || m.infos[i].creator == i
    ensures 0 <= obj < |m.objects|
    ensures var c := Chain(m.infos, i);
            && c[|c| - 1] == m.objects[obj].origin
            && (forall k :: 0 <= k < |c| ==> 0 <= c[k] <= i && PrimaryObject(m.infos[c[k]]) == obj)
            && (forall k :: 0 <= k < |c| - 1 ==> c[k + 1] == m.infos[c[k]].jump && c[k + 1] < c[k])
    decreases i
  {
    assert GoodInfo(m, i);
    var next := m.infos[i].jump;
    if next >= 0 {
      ChainLeadsToOrigin(m, next, obj);
    }
  }

  /** For every trace: from an event that points back, the chain of jumps strictly descends,
      stays with the event's primary object, and ends exactly at that object's origin. */
  lemma CreatorChainsEndAtOrigin(parents: seq<(int, int)>, events: seq<Event>, i: int)
    requires 0 <= i < |events| && Run(parents, events).infos[i].jump >= 0
    ensures var m := Run(parents, events);
            var obj := PrimaryObject(m.infos[i]);
            var c := Chain(m.infos, i);
            && 0 <= obj < |m.objects|
            && c[|c| - 1] == m.objects[obj].origin
            && (forall k :: 0 <= k < |c| ==> 0 <= c[k] <= i && PrimaryObject(m.infos[c[k]]) == obj)
            && (forall k :: 0 <= k < |c| - 1 ==> c[k + 1] == m.infos[c[k]].jump && c[k + 1] < c[k])
  {
    var m := Run(parents, events);
    RunLinked(parents, events);
    ChainLeadsToOrigin(m, i, PrimaryObject(m.infos[i]));
  }
}
