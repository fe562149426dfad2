/** What a trace says about one descriptor of one process, told by its calls alone: which of them
    bind it, release it, sweep it or set its flag, and what an event that mentions it records. */
module FdHistory {
  import opened Options
  import opened FdMachine

  /** The call gives the process this descriptor. */
  predicate Binds(t: Table, op: Op, fd: int) {
    || (op.Create? && op.fd == fd) || (op.Accept? && op.fd == fd)
    || (op.Pipe? && (op.left == fd || op.right == fd))
    || ((op.Dup? || op.FcntlDup?) && op.result == fd && op.src in t)
  }

  /** The call takes the descriptor away, whatever its flag. */
  predicate Releases(op: Op, fd: int) {
    op == Close(fd)
  }

  /** The call decides whether the descriptor stays over exec. */
  predicate SetsFlag(t: Table, op: Op, fd: int) {
    Binds(t, op, fd) || (op.FcntlSetFd? && op.src == fd)
  }

  predicate FlagArgument(op: Op)
    requires op.Create? || op.Accept? || op.Pipe? || op.Dup? || op.FcntlDup? || op.FcntlSetFd?
  {
    op.cloexec
  }

  // ---------------------------------------------------------------- one call

  /** What a call leaves of a descriptor of its own process. */
  lemma CallSays(m: Machine, parents: seq<(int, int)>, e: Event, fd: int)
    ensures var before := Materialise(m.procs, parents, e.pid)[e.pid];
            var m' := Step(m, parents, e);
            && e.pid in m'.procs
            && var after := m'.procs[e.pid];
            && (fd in after <==>
                  || Binds(before, e.op, fd)
                  || (fd in before && !Releases(e.op, fd) && !(e.op.Exec? && before[fd].cloexec)))
            && (fd in after ==>
                  && (after[fd].cloexec == if SetsFlag(before, e.op, fd) then FlagArgument(e.op)
                                           else before[fd].cloexec)
                  && (after[fd].creator == if Binds(before, e.op, fd) then |m.infos| else before[fd].creator)
                  && (after[fd].obj == if !Binds(before, e.op, fd) then before[fd].obj
                                       else if e.op.Dup? || e.op.FcntlDup? then before[e.op.src].obj else |m.objects|))
  {
  }

  // ---------------------------------------------------------------- the whole trace

  /** What a process has after k events. */
  ghost function TableAt(parents: seq<(int, int)>, events: seq<Event>, k: nat, pid: int): Table
    requires k <= |events|
  {
    var procs := Run(parents, events[..k]).procs;
    if pid in procs then procs[pid] else map[]
  }

  ghost predicate BindsAt(parents: seq<(int, int)>, events: seq<Event>, k: nat, pid: int, fd: int)
    requires k < |events|
  {
    events[k].pid == pid && Binds(TableAt(parents, events, k, pid), events[k].op, fd)
  }

  /** A close of it, or an exec that finds its flag set. */
  ghost predicate EndsAt(parents: seq<(int, int)>, events: seq<Event>, k: nat, pid: int, fd: int)
    requires k < |events|
  {
    && events[k].pid == pid
    && (Releases(events[k].op, fd)
        || (events[k].op.Exec? && fd in TableAt(parents, events, k, pid)
            && TableAt(parents, events, k, pid)[fd].cloexec))
  }

  ghost predicate FlagSetAt(parents: seq<(int, int)>, events: seq<Event>, k: nat, pid: int, fd: int)
    requires k < |events|
  {
    events[k].pid == pid && SetsFlag(TableAt(parents, events, k, pid), events[k].op, fd)
  }

  /** It was there at moment a, or event b - 1 bound it. */
  ghost predicate Began(parents: seq<(int, int)>, events: seq<Event>, a: nat, b: nat, pid: int, fd: int)
    requires a <= b <= |events|
  {
    (b == a && fd in TableAt(parents, events, a, pid)) || (b > a && BindsAt(parents, events, b - 1, pid, fd))
  }

  /** One more event, seen from a process that is known. */
  lemma OneMoreEvent(parents: seq<(int, int)>, events: seq<Event>, k: nat, pid: int, fd: int)
    requires k < |events| && pid in Run(parents, events[..k]).procs
    ensures pid in Run(parents, events[..k + 1]).procs
    ensures var before, after := TableAt(parents, events, k, pid), TableAt(parents, events, k + 1, pid);
            && (fd in after <==>
                  BindsAt(parents, events, k, pid, fd) || (fd in before && !EndsAt(parents, events, k, pid, fd)))
            && (fd in after ==>
                  && (after[fd].cloexec == if FlagSetAt(parents, events, k, pid, fd) then FlagArgument(events[k].op)
                                           else before[fd].cloexec)
                  && (after[fd].creator == if BindsAt(parents, events, k, pid, fd) then k else before[fd].creator))
  {
    var m, e := Run(parents, events[..k]), events[k];
    assert events[..k + 1][..k] == events[..k] && events[..k + 1][k] == e;
    assert Run(parents, events[..k + 1]) == Step(m, parents, e);
    if e.pid == pid {
      CallSays(m, parents, e, fd);
    } else {
      OtherTablesUntouched(m, parents, e, pid);
    }
  }

  lemma {:induction false} StaysKnown(parents: seq<(int, int)>, events: seq<Event>, a: nat, k: nat, pid: int)
    requires a <= k <= |events| && pid in Run(parents, events[..a]).procs
    ensures pid in Run(parents, events[..k]).procs
    decreases k
  {
    if a < k {
      StaysKnown(parents, events, a, k - 1, pid);
      OneMoreEvent(parents, events, k - 1, pid, 0);
    }
  }

  /** From moment b on nothing ended it. */
  ghost predicate NotEnded(parents: seq<(int, int)>, events: seq<Event>, b: nat, n: nat, pid: int, fd: int)
    requires n <= |events|
  {
    forall k :: b <= k < n ==> !EndsAt(parents, events, k, pid, fd)
  }

  /** Over every trace, for a process known since moment a: it has the descriptor at moment n if and
      only if there was a beginning, then or later, that no close of it and no exec with its
      flag set came after. */
  lemma BoundIff(parents: seq<(int, int)>, events: seq<Event>, a: nat, n: nat, pid: int, fd: int)
    requires a <= n <= |events| && pid in Run(parents, events[..a]).procs
    ensures fd in TableAt(parents, events, n, pid)
            <==> exists b :: a <= b <= n && Began(parents, events, a, b, pid, fd)
                             && NotEnded(parents, events, b, n, pid, fd)
  {
    hide TableAt, Began, NotEnded;
    if fd in TableAt(parents, events, n, pid) {
      var b := BeganWhen(parents, events, a, n, pid, fd);
    }
    forall b | a <= b <= n && Began(parents, events, a, b, pid, fd) && NotEnded(parents, events, b, n, pid, fd)
      ensures fd in TableAt(parents, events, n, pid)
    {
      StillBound(parents, events, a, b, n, pid, fd);
    }
  }

  lemma {:induction false} BeganWhen(parents: seq<(int, int)>, events: seq<Event>, a: nat, n: nat, pid: int, fd: int)
    returns (b: nat)
    requires a <= n <= |events| && pid in Run(parents, events[..a]).procs && fd in TableAt(parents, events, n, pid)
    ensures a <= b <= n && Began(parents, events, a, b, pid, fd) && NotEnded(parents, events, b, n, pid, fd)
    decreases n
  {
    hide TableAt, BindsAt, EndsAt;
    if a == n || BindsAt(parents, events, n - 1, pid, fd) { return n; }
    StaysKnown(parents, events, a, n - 1, pid);
    OneMoreEvent(parents, events, n - 1, pid, fd);
    b := BeganWhen(parents, events, a, n - 1, pid, fd);
  }

  lemma {:induction false} StillBound(parents: seq<(int, int)>, events: seq<Event>, a: nat, b: nat, n: nat, pid: int,
                                      fd: int)
    requires a <= b <= n <= |events| && pid in Run(parents, events[..a]).procs
    requires Began(parents, events, a, b, pid, fd) && NotEnded(parents, events, b, n, pid, fd)
    ensures fd in TableAt(parents, events, n, pid)
    decreases n
  {
    hide TableAt, BindsAt, EndsAt;
    if a < n {
      StaysKnown(parents, events, a, n - 1, pid);
      OneMoreEvent(parents, events, n - 1, pid, fd);
      if b < n { StillBound(parents, events, a, b, n - 1, pid, fd); }
    }
  }

  /** Its flag is what the last call said that bound it or set the flag. */
  lemma {:induction false} FlagIsLastSet(parents: seq<(int, int)>, events: seq<Event>, c: nat, n: nat, pid: int,
                                         fd: int)
    requires c < n <= |events| && pid in Run(parents, events[..c]).procs && fd in TableAt(parents, events, n, pid)
    requires FlagSetAt(parents, events, c, pid, fd)
    requires forall k :: c < k < n ==> !FlagSetAt(parents, events, k, pid, fd)
    ensures TableAt(parents, events, n, pid)[fd].cloexec == FlagArgument(events[c].op)
    decreases n
  {
    hide TableAt, BindsAt, EndsAt, FlagSetAt;
    StaysKnown(parents, events, c, n - 1, pid);
    OneMoreEvent(parents, events, n - 1, pid, fd);
    if c < n - 1 {
      BindingSetsFlag(parents, events, n - 1, pid, fd);
      FlagIsLastSet(parents, events, c, n - 1, pid, fd);
    }
  }

  /** And if there was no such call since moment a, what it was then. */
  lemma {:induction false} FlagIsKept(parents: seq<(int, int)>, events: seq<Event>, a: nat, n: nat, pid: int, fd: int)
    requires a <= n <= |events| && pid in Run(parents, events[..a]).procs && fd in TableAt(parents, events, n, pid)
    requires forall k :: a <= k < n ==> !FlagSetAt(parents, events, k, pid, fd)
    ensures fd in TableAt(parents, events, a, pid)
    ensures TableAt(parents, events, n, pid)[fd].cloexec == TableAt(parents, events, a, pid)[fd].cloexec
    decreases n
  {
    hide TableAt, BindsAt, EndsAt, FlagSetAt;
    if a < n {
      StaysKnown(parents, events, a, n - 1, pid);
      OneMoreEvent(parents, events, n - 1, pid, fd);
      BindingSetsFlag(parents, events, n - 1, pid, fd);
      FlagIsKept(parents, events, a, n - 1, pid, fd);
    }
  }

  lemma BindingSetsFlag(parents: seq<(int, int)>, events: seq<Event>, k: nat, pid: int, fd: int)
    requires k < |events|
    ensures BindsAt(parents, events, k, pid, fd) ==> FlagSetAt(parents, events, k, pid, fd)
  {
  }

  /** Its creator is the last event that bound it. */
  lemma {:induction false} CreatorIsLastBinding(parents: seq<(int, int)>, events: seq<Event>, c: nat, n: nat, pid: int,
                                                fd: int)
    requires c < n <= |events| && pid in Run(parents, events[..c]).procs && fd in TableAt(parents, events, n, pid)
    requires BindsAt(parents, events, c, pid, fd) && forall k :: c < k < n ==> !BindsAt(parents, events, k, pid, fd)
    ensures TableAt(parents, events, n, pid)[fd].creator == c
    decreases n
  {
    hide TableAt, BindsAt, EndsAt, FlagSetAt;
    StaysKnown(parents, events, c, n - 1, pid);
    OneMoreEvent(parents, events, n - 1, pid, fd);
    if c < n - 1 { CreatorIsLastBinding(parents, events, c, n - 1, pid, fd); }
  }

  /** And if nothing bound it since moment a, what it was then. */
  lemma {:induction false} CreatorIsKept(parents: seq<(int, int)>, events: seq<Event>, a: nat, n: nat, pid: int,
                                         fd: int)
    requires a <= n <= |events| && pid in Run(parents, events[..a]).procs && fd in TableAt(parents, events, n, pid)
    requires forall k :: a <= k < n ==> !BindsAt(parents, events, k, pid, fd)
    ensures fd in TableAt(parents, events, a, pid)
    ensures TableAt(parents, events, n, pid)[fd].creator == TableAt(parents, events, a, pid)[fd].creator
    decreases n
  {
    hide TableAt, BindsAt, EndsAt, FlagSetAt;
    if a < n {
      StaysKnown(parents, events, a, n - 1, pid);
      OneMoreEvent(parents, events, n - 1, pid, fd);
      CreatorIsKept(parents, events, a, n - 1, pid, fd);
    }
  }

  // ---------------------------------------------------------------- what an event records

  predicate Looks(op: Op) {
    op.Use? || op.Close? || op.FcntlSetFd? || op.FcntlOther?
  }

  function LookedAt(op: Op): int
    requires Looks(op)
  {
    if op.Use? || op.Close? then op.fd else op.src
  }

  /** The descriptor a binding call returns; of a pipe the reading end. */
  function Returned(op: Op): int
    requires op.Create? || op.Accept? || op.Pipe? || op.Dup? || op.FcntlDup?
  {
    match op
    case Create(_, fd, _) => fd
    case Accept(_, fd, _) => fd
    case Pipe(left, _, _) => left
    case Dup(_, _, result, _) => result
    case FcntlDup(_, result, _) => result
  }

  ghost function RecordAt(parents: seq<(int, int)>, events: seq<Event>, k: nat): Info
    requires k < |events|
  {
    Run(parents, events[..k + 1]).infos[k]
  }

  /** A record stays as its event wrote it. */
  lemma {:induction false} RecordStays(parents: seq<(int, int)>, events: seq<Event>, k: nat, n: nat)
    requires k < n <= |events|
    ensures Run(parents, events[..n]).infos[k] == RecordAt(parents, events, k)
    decreases n
  {
    if k + 1 < n {
      RecordStays(parents, events, k, n - 1);
      assert events[..n][..n - 1] == events[..n - 1];
    }
  }

  /** An event that looks at one descriptor mentions just that one: with its object, and with the
      event that bound it as jump and creator, if it is bound; with -1 otherwise.  It is open
      after anything but a close. */
  lemma LookSays(m: Machine, parents: seq<(int, int)>, e: Event)
    requires Looks(e.op)
    ensures var t := Materialise(m.procs, parents, e.pid)[e.pid];
            var info, fd := Step(m, parents, e).infos[|m.infos|], LookedAt(e.op);
            && info.primary == 0 && |info.refs| == 1 && info.refs[0].fd == fd
            && (fd in t ==> info.refs[0].obj == t[fd].obj)
            && (fd !in t ==> info.refs[0].obj == -1 && info.jump == info.creator == -1 && !info.openAfter)
            && (fd in t && !e.op.FcntlOther? ==>
                  info.jump == info.creator == t[fd].creator && (info.openAfter <==> !e.op.Close?))
            && (e.op.FcntlOther? ==> info.jump == info.creator == -1 && !info.openAfter)
  {
  }

  /** An event that binds mentions what it returns, with the object that the table then has for
      it, as the primary one; it jumps to the event that bound the source of a dup. */
  lemma BindingSays(m: Machine, parents: seq<(int, int)>, e: Event)
    requires e.op.Create? || e.op.Accept? || e.op.Pipe? || e.op.Dup? || e.op.FcntlDup?
    ensures var t := Materialise(m.procs, parents, e.pid)[e.pid];
            var m' := Step(m, parents, e);
            var info := m'.infos[|m.infos|];
            if Binds(t, e.op, Returned(e.op)) then
              && 0 <= info.primary < |info.refs| && info.refs[info.primary].fd == Returned(e.op)
              && e.pid in m'.procs && Returned(e.op) in m'.procs[e.pid]
              && info.refs[info.primary].obj == m'.procs[e.pid][Returned(e.op)].obj
              && info.creator == |m.infos| && info.openAfter
              && info.jump == (if e.op.Dup? || e.op.FcntlDup? then t[e.op.src].creator else -1)
            else info.creator == info.jump == -1 && !info.openAfter && info.primary == if e.op.FcntlDup? then 0 else -1
  {
  }

  /** The descriptors an event mentions, in the order of the call. */
  function Mentioned(t: Table, op: Op): seq<int> {
    match op
    case Create(_, fd, _) => [fd]
    case Accept(listener, fd, _) => (if listener.Some? then [listener.value] else []) + [fd]
    case Pipe(left, right, _) => [left, right]
    case Dup(src, named, result, _) =>
      [src] + (if named.Some? then [named.value] else []) + (if src in t then [result] else [])
    case FcntlDup(src, result, _) => [src] + (if src in t then [result] else [])
    case _ => if Looks(op) then [LookedAt(op)] else []
  }

  /** Each of them with the object it refers to before the call or after it; the target that a dup
      names has that of the source. */
  lemma MentionsSay(m: Machine, parents: seq<(int, int)>, e: Event)
    ensures var t := Materialise(m.procs, parents, e.pid)[e.pid];
            var m' := Step(m, parents, e);
            var refs := m'.infos[|m.infos|].refs;
            && e.pid in m'.procs && |refs| == |Mentioned(t, e.op)|
            && forall r :: 0 <= r < |refs| ==>
                 && refs[r].fd == Mentioned(t, e.op)[r]
                 && (refs[r].obj == ObjectOf(t, refs[r].fd) || refs[r].obj == ObjectOf(m'.procs[e.pid], refs[r].fd)
                     || (e.op.Dup? && refs[r].obj == ObjectOf(t, e.op.src)))
  {
  }

  /** Every event makes an object exactly if it opens, and that object's origin is the event. */
  lemma ObjectsSay(m: Machine, parents: seq<(int, int)>, e: Event)
    ensures var m' := Step(m, parents, e);
            if e.op.Create? || e.op.Accept? || e.op.Pipe? then
              && |m'.objects| == |m.objects| + 1 && m'.objects[..|m.objects|] == m.objects
              && m'.objects[|m.objects|].origin == |m.infos|
              && m'.objects[|m.objects|].target
                 == (if e.op.Create? then e.op.target else if e.op.Accept? then AcceptedSocket else PipeEnds)
            else m'.objects == m.objects
  {
  }

  /** A descriptor that is used after its close, with no call between that could bind it, has no
      object and points nowhere. */
  lemma UseAfterClose(parents: seq<(int, int)>, before: seq<Event>, middle: seq<Event>, pid: int, fd: int)
    requires forall e :: e in middle && e.pid == pid ==> forall t: Table :: !Binds(t, e.op, fd)
    ensures var events := before + [Event(pid, Close(fd))] + middle + [Event(pid, Use(fd))];
            Run(parents, events).infos[|events| - 1] == Info([FdRef(fd, -1)], 0, -1, -1, false)
  {
    var close, use := Event(pid, Close(fd)), Event(pid, Use(fd));
    var events := before + [close] + middle + [use];
    var a, n := |before| + 1, |events| - 1;
    assert events[..a] == before + [close] && events[..n] == before + [close] + middle;
    assert (before + [close])[..|before|] == before;
    CallSays(Run(parents, before), parents, close, fd);
    GoneStays(parents, before + [close], middle, pid, fd);
    LookSays(Run(parents, events[..n]), parents, use);
    assert events[n] == use;
  }

  lemma {:induction false} GoneStays(parents: seq<(int, int)>, events: seq<Event>, later: seq<Event>, pid: int, fd: int)
    requires pid in Run(parents, events).procs && fd !in Run(parents, events).procs[pid]
    requires forall e :: e in later && e.pid == pid ==> forall t: Table :: !Binds(t, e.op, fd)
    ensures pid in Run(parents, events + later).procs && fd !in Run(parents, events + later).procs[pid]
    decreases |later|
  {
    if later == [] {
      assert events + later == events;
    } else {
      var front, last := later[..|later| - 1], later[|later| - 1];
      GoneStays(parents, events, front, pid, fd);
      assert (events + later)[..|events + later| - 1] == events + front && last in later;
      if last.pid == pid {
        CallSays(Run(parents, events + front), parents, last, fd);
      } else {
        OtherTablesUntouched(Run(parents, events + front), parents, last, pid);
      }
    }
  }

  /** An event that uses, closes or flags a descriptor points to the last event that bound it. */
  lemma UsePointsToLastBinding(parents: seq<(int, int)>, events: seq<Event>, c: nat, n: nat)
    requires c < n < |events| && Looks(events[n].op) && !events[n].op.FcntlOther?
    requires var pid, fd := events[n].pid, LookedAt(events[n].op);
             && pid in Run(parents, events[..c]).procs && fd in TableAt(parents, events, n, pid)
             && BindsAt(parents, events, c, pid, fd) && forall k :: c < k < n ==> !BindsAt(parents, events, k, pid, fd)
    ensures RecordAt(parents, events, n).jump == RecordAt(parents, events, n).creator == c
  {
    var pid, fd := events[n].pid, LookedAt(events[n].op);
    LookAt(parents, events, n, c);
    hide TableAt, BindsAt, RecordAt;
    CreatorIsLastBinding(parents, events, c, n, pid, fd);
  }

  lemma LookAt(parents: seq<(int, int)>, events: seq<Event>, n: nat, a: nat)
    requires a <= n < |events| && Looks(events[n].op) && !events[n].op.FcntlOther?
    requires events[n].pid in Run(parents, events[..a]).procs
    ensures var fd, t := LookedAt(events[n].op), TableAt(parents, events, n, events[n].pid);
            var info := RecordAt(parents, events, n);
            fd in t ==> info.jump == info.creator == t[fd].creator
  {
    StaysKnown(parents, events, a, n, events[n].pid);
    assert events[..n + 1][..n] == events[..n] && events[..n + 1][n] == events[n];
    LookSays(Run(parents, events[..n]), parents, events[n]);
  }
}
