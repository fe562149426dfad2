/** The process graph of strace-src as an order of visits: what a drawing of it must satisfy. */
module ProcessForest {
  datatype Process = Process(pid: int, parent: int, tids: seq<int>)
  datatype GraphLine = ProcessLine(depth: nat, pid: int, selected: bool) | TidLine(depth: nat, tid: int, selected: bool)

  /** A process as it is drawn: which one, and how far to the right. */
  datatype Drawn = Drawn(index: nat, depth: nat)

  predicate IsChild(ps: seq<Process>, child: nat, parent: nat) {
    child < |ps| && parent < |ps| && ps[child].parent == ps[parent].pid
  }

  /** No parent, or none that is known. */
  predicate IsRoot(ps: seq<Process>, i: nat)
    requires i < |ps|
  {
    ps[i].parent == 0 || forall j :: 0 <= j < |ps| ==> ps[j].pid != ps[i].parent
  }

  /** The lines of one process: itself, then its threads. */
  function Block(p: Process, depth: nat, pid: int, tid: int): (lines: seq<GraphLine>)
    ensures |lines| == 1 + |p.tids|
  {
    [ProcessLine(depth, p.pid, pid == p.pid && tid == p.pid)] + TidLines(p, depth, pid, tid, |p.tids|)
  }

  function TidLines(p: Process, depth: nat, pid: int, tid: int, n: nat): (lines: seq<GraphLine>)
    requires n <= |p.tids|
    ensures |lines| == n
  {
    if n == 0 then []
    else TidLines(p, depth, pid, tid, n - 1) + [TidLine(depth + 1, p.tids[n - 1], pid == p.pid && tid == p.tids[n - 1])]
  }

  predicate InRange(ps: seq<Process>, order: seq<Drawn>) {
    forall k :: 0 <= k < |order| ==> order[k].index < |ps|
  }

  /** The lines of the processes in the order they are drawn. */
  function LinesOf(ps: seq<Process>, order: seq<Drawn>, pid: int, tid: int): seq<GraphLine>
    requires InRange(ps, order)
  {
    if order == [] then []
    else LinesOf(ps, order[..|order| - 1], pid, tid)
         + Block(ps[order[|order| - 1].index], order[|order| - 1].depth, pid, tid)
  }

  predicate Distinct(order: seq<Drawn>) {
    forall j, k :: 0 <= j < k < |order| ==> order[j].index != order[k].index
  }

  predicate IsDrawn(order: seq<Drawn>, i: nat) {
    exists k :: 0 <= k < |order| && order[k].index == i
  }

  /** The entry at k stands under the entry at j: one step to the right, with only entries
      further to the right than j between them. */
  predicate Under(order: seq<Drawn>, j: nat, k: nat) {
    j < k < |order| && order[k].depth == order[j].depth + 1
    && forall m :: j < m <= k ==> order[m].depth > order[j].depth
  }

  predicate HasParentAbove(ps: seq<Process>, order: seq<Drawn>, from: nat, k: nat)
    requires InRange(ps, order)
  {
    exists j :: from <= j < |order| && Under(order, j, k) && IsChild(ps, order[k].index, order[j].index)
  }

  /** From `from` on, every entry stands under an entry of its parent, except those at a depth
      of `least`. */
  predicate Nested(ps: seq<Process>, order: seq<Drawn>, from: nat, least: nat)
    requires InRange(ps, order)
  {
    forall k :: from <= k < |order| ==>
      order[k].depth >= least && (order[k].depth > least ==> HasParentAbove(ps, order, from, k))
  }

  // ---------------------------------------------------------------- the room for the lines

  function Weight(p: Process): nat { 1 + |p.tids| }

  /** line_cap without the spare line: processes and threads together. */
  function Total(ps: seq<Process>): nat {
    if ps == [] then 0 else Total(ps[..|ps| - 1]) + Weight(ps[|ps| - 1])
  }

  function Taken(ps: seq<Process>, visited: seq<bool>): nat
    requires |ps| == |visited|
  {
    if ps == [] then 0
    else Taken(ps[..|ps| - 1], visited[..|ps| - 1]) + if visited[|ps| - 1] then Weight(ps[|ps| - 1]) else 0
  }

  lemma {:induction false} TakenFits(ps: seq<Process>, visited: seq<bool>)
    requires |ps| == |visited|
    ensures Taken(ps, visited) <= Total(ps)
  {
    if ps != [] { TakenFits(ps[..|ps| - 1], visited[..|ps| - 1]); }
  }

  lemma {:induction false} TakeOne(ps: seq<Process>, visited: seq<bool>, i: nat)
    requires |ps| == |visited| && i < |ps| && !visited[i]
    ensures Taken(ps, visited[i := true]) == Taken(ps, visited) + Weight(ps[i])
  {
    var n := |ps| - 1;
    if i < n {
      TakeOne(ps[..n], visited[..n], i);
      assert visited[i := true][..n] == visited[..n][i := true];
    } else {
      assert visited[i := true][..n] == visited[..n];
    }
  }

  lemma {:induction false} NothingTaken(ps: seq<Process>, visited: seq<bool>)
    requires |ps| == |visited| && forall i :: 0 <= i < |visited| ==> !visited[i]
    ensures Taken(ps, visited) == 0
  {
    if ps != [] { NothingTaken(ps[..|ps| - 1], visited[..|ps| - 1]); }
  }

  lemma {:induction false} AllTaken(ps: seq<Process>, visited: seq<bool>)
    requires |ps| == |visited| && forall i :: 0 <= i < |visited| ==> visited[i]
    ensures Taken(ps, visited) == Total(ps)
  {
    if ps != [] { AllTaken(ps[..|ps| - 1], visited[..|ps| - 1]); }
  }

  /** The processes not visited yet: fewer at every level of the recursion. */
  function Left(visited: seq<bool>): nat {
    if visited == [] then 0 else Left(visited[..|visited| - 1]) + if visited[|visited| - 1] then 0 else 1
  }

  lemma {:induction false} LeftFalls(visited: seq<bool>, i: nat)
    requires i < |visited| && !visited[i]
    ensures Left(visited[i := true]) == Left(visited) - 1
  {
    var n := |visited| - 1;
    if i < n {
      LeftFalls(visited[..n], i);
      assert visited[i := true][..n] == visited[..n][i := true];
    } else {
      assert visited[i := true][..n] == visited[..n];
    }
  }

  predicate Later(was: seq<bool>, now: seq<bool>) {
    |was| == |now| && forall i :: 0 <= i < |was| ==> was[i] ==> now[i]
  }

  lemma {:induction false} LeftNeverRises(was: seq<bool>, now: seq<bool>)
    requires Later(was, now)
    ensures Left(now) <= Left(was)
  {
    if was != [] { LeftNeverRises(was[..|was| - 1], now[..|now| - 1]); }
  }

  /** Whoever was visited since then has all children visited too. */
  ghost predicate Closed(ps: seq<Process>, was: seq<bool>, now: seq<bool>)
    requires |was| == |now| == |ps|
  {
    forall v: nat, c: nat :: IsChild(ps, c, v) && now[v] && !was[v] ==> now[c]
  }

  ghost predicate ChildrenVisited(ps: seq<Process>, now: seq<bool>, v: nat, n: nat)
    requires |now| == |ps|
  {
    forall c: nat :: IsChild(ps, c, v) && c < n ==> now[c]
  }

  // ---------------------------------------------------------------- putting orders together

  lemma ParentStays(ps: seq<Process>, order: seq<Drawn>, n: nat, from: nat, k: nat)
    requires n <= |order| && InRange(ps, order) && k < n
    requires HasParentAbove(ps, order[..n], from, k)
    ensures HasParentAbove(ps, order, from, k)
  {
    var j :| from <= j < n && Under(order[..n], j, k) && IsChild(ps, order[..n][k].index, order[..n][j].index);
    assert Under(order, j, k) by {
      forall m | j < m <= k
        ensures order[m].depth > order[j].depth
      {
        assert order[..n][m].depth > order[..n][j].depth;
      }
    }
  }

  lemma ParentFurtherBack(ps: seq<Process>, order: seq<Drawn>, from: nat, later: nat, k: nat)
    requires InRange(ps, order) && from <= later && HasParentAbove(ps, order, later, k)
    ensures HasParentAbove(ps, order, from, k)
  {
  }

  /** A child's entries after those of the process and its earlier children. */
  lemma ChildJoins(ps: seq<Process>, order: seq<Drawn>, start: nat, n: nat)
    requires InRange(ps, order) && start < n < |order|
    requires Nested(ps, order[..n], start, order[start].depth)
    requires forall k :: start < k < n ==> order[k].depth > order[start].depth
    requires order[n].depth == order[start].depth + 1 && IsChild(ps, order[n].index, order[start].index)
    requires Nested(ps, order, n, order[n].depth)
    requires forall k :: n < k < |order| ==> order[k].depth > order[n].depth
    ensures Nested(ps, order, start, order[start].depth)
    ensures forall k :: start < k < |order| ==> order[k].depth > order[start].depth
  {
    forall k | start <= k < |order|
      ensures order[k].depth >= order[start].depth
      ensures order[k].depth > order[start].depth ==> HasParentAbove(ps, order, start, k)
    {
      if k < n {
        assert order[..n][k] == order[k];
        if order[k].depth > order[start].depth { ParentStays(ps, order, n, start, k); }
      } else if order[k].depth > order[n].depth {
        ParentFurtherBack(ps, order, start, n, k);
      } else {
        assert Under(order, start, k);
      }
    }
  }

  /** A further tree after the ones drawn so far. */
  lemma TreeJoins(ps: seq<Process>, order: seq<Drawn>, n: nat)
    requires InRange(ps, order) && n <= |order|
    requires Nested(ps, order[..n], 0, 0) && Nested(ps, order, n, 0)
    ensures Nested(ps, order, 0, 0)
  {
    forall k | 0 <= k < |order|
      ensures order[k].depth > 0 ==> HasParentAbove(ps, order, 0, k)
    {
      if k < n {
        assert order[..n][k] == order[k];
        if order[k].depth > 0 { ParentStays(ps, order, n, 0, k); }
      } else if order[k].depth > 0 {
        ParentFurtherBack(ps, order, 0, n, k);
      }
    }
  }

  // ---------------------------------------------------------------- what has been visited

  lemma NothingOpen(ps: seq<Process>, now: seq<bool>, v: nat)
    requires |now| == |ps|
    ensures Closed(ps, now, now) && ChildrenVisited(ps, now, v, 0)
  {
  }

  lemma ClosedJoins(ps: seq<Process>, was: seq<bool>, mid: seq<bool>, now: seq<bool>)
    requires |ps| == |was| == |mid| && Closed(ps, was, mid) && Later(mid, now) && Closed(ps, mid, now)
    ensures Closed(ps, was, now)
  {
    forall v: nat, c: nat | IsChild(ps, c, v) && now[v] && !was[v]
      ensures now[c]
    {
      if mid[v] { assert mid[c]; }
    }
  }

  lemma ClosedWithParent(ps: seq<Process>, was: seq<bool>, i: nat, now: seq<bool>)
    requires |ps| == |was| == |now| && i < |ps|
    requires Closed(ps, was[i := true], now) && ChildrenVisited(ps, now, i, |ps|)
    ensures Closed(ps, was, now)
  {
    forall v: nat, c: nat | IsChild(ps, c, v) && now[v] && !was[v]
      ensures now[c]
    {
      if v != i { assert !was[i := true][v]; }
    }
  }

  lemma OneMoreChild(ps: seq<Process>, mid: seq<bool>, now: seq<bool>, v: nat, c: nat)
    requires |ps| == |mid| && c < |ps| && Later(mid, now) && ChildrenVisited(ps, mid, v, c)
    requires IsChild(ps, c, v) ==> now[c]
    ensures ChildrenVisited(ps, now, v, c + 1)
  {
    forall k: nat | IsChild(ps, k, v) && k < c + 1
      ensures now[k]
    {
      if k < c { assert mid[k]; }
    }
  }

  // ---------------------------------------------------------------- roots

  /** n parent links lead from process i to a root. */
  ghost predicate DescendsIn(ps: seq<Process>, i: nat, n: nat)
    requires i < |ps|
    decreases n
  {
    if n == 0 then IsRoot(ps, i) else exists j: nat :: IsChild(ps, i, j) && DescendsIn(ps, j, n - 1)
  }

  ghost predicate Descends(ps: seq<Process>, i: nat)
    requires i < |ps|
  {
    exists n: nat :: DescendsIn(ps, i, n)
  }

  ghost predicate RootsVisited(ps: seq<Process>, now: seq<bool>, n: nat)
    requires |now| == |ps|
  {
    forall i :: 0 <= i < |ps| && i < n && IsRoot(ps, i) ==> now[i]
  }

  lemma {:induction false} DescendantsVisited(ps: seq<Process>, none: seq<bool>, now: seq<bool>, i: nat, n: nat)
    requires |none| == |now| == |ps| && (forall v :: 0 <= v < |none| ==> !none[v])
    requires Closed(ps, none, now) && RootsVisited(ps, now, |ps|) && i < |ps| && DescendsIn(ps, i, n)
    ensures now[i]
    decreases n
  {
    if n > 0 {
      var j: nat :| IsChild(ps, i, j) && DescendsIn(ps, j, n - 1);
      DescendantsVisited(ps, none, now, j, n - 1);
      assert now[j] && !none[j];
    }
  }

  /** Only roots, and processes that no root leads to, stand at the left edge. */
  ghost predicate LeftEdge(ps: seq<Process>, order: seq<Drawn>)
    requires InRange(ps, order)
  {
    forall k :: 0 <= k < |order| && order[k].depth == 0 ==> IsRoot(ps, order[k].index) || !Descends(ps, order[k].index)
  }

  lemma EdgeJoins(ps: seq<Process>, order: seq<Drawn>, n: nat)
    requires InRange(ps, order) && n < |order| && LeftEdge(ps, order[..n])
    requires IsRoot(ps, order[n].index) || !Descends(ps, order[n].index)
    requires forall k :: n < k < |order| ==> order[k].depth > 0
    ensures LeftEdge(ps, order)
  {
    forall k | 0 <= k < |order| && order[k].depth == 0
      ensures IsRoot(ps, order[k].index) || !Descends(ps, order[k].index)
    {
      if k < n { assert order[..n][k] == order[k]; }
    }
  }

  lemma AllAreDescendants(ps: seq<Process>, none: seq<bool>, now: seq<bool>)
    requires |none| == |now| == |ps| && (forall v :: 0 <= v < |none| ==> !none[v])
    requires Closed(ps, none, now) && RootsVisited(ps, now, |ps|)
    ensures forall i :: 0 <= i < |ps| && Descends(ps, i) ==> now[i]
  {
    forall i | 0 <= i < |ps| && Descends(ps, i)
      ensures now[i]
    {
      var n: nat :| DescendsIn(ps, i, n);
      DescendantsVisited(ps, none, now, i, n);
    }
  }

  lemma MoreRootsVisited(ps: seq<Process>, mid: seq<bool>, now: seq<bool>, i: nat)
    requires |ps| == |mid| && i < |ps| && Later(mid, now) && RootsVisited(ps, mid, i)
    requires IsRoot(ps, i) ==> now[i]
    ensures RootsVisited(ps, now, i + 1)
  {
  }

  // ---------------------------------------------------------------- what the lines show

  /** The lines above those of an entry: one for each process drawn before it and one for each of
      its threads. */
  function LinesBefore(ps: seq<Process>, order: seq<Drawn>, k: nat): nat
    requires InRange(ps, order) && k <= |order|
  {
    if k == 0 then 0 else LinesBefore(ps, order, k - 1) + 1 + |ps[order[k - 1].index].tids|
  }

  /** One process at its depth and its threads, in order, one step further to the right; a line is
      marked when both the process and the thread are the selected ones. */
  predicate ShowsProcess(lines: seq<GraphLine>, at: nat, p: Process, depth: nat, pid: int, tid: int) {
    && at + |p.tids| < |lines| && lines[at] == ProcessLine(depth, p.pid, p.pid == pid && p.pid == tid)
    && forall t :: 0 <= t < |p.tids| ==>
         lines[at + 1 + t] == TidLine(depth + 1, p.tids[t], p.pid == pid && p.tids[t] == tid)
  }

  lemma {:induction false} ThreadLines(p: Process, depth: nat, pid: int, tid: int, n: nat)
    requires n <= |p.tids|
    ensures forall t :: 0 <= t < n ==>
              TidLines(p, depth, pid, tid, n)[t] == TidLine(depth + 1, p.tids[t], p.pid == pid && p.tids[t] == tid)
  {
    if n > 0 { ThreadLines(p, depth, pid, tid, n - 1); }
  }

  /** A drawing shows each entry of its order once, below all entries drawn before it. */
  lemma {:induction false} DrawingShows(ps: seq<Process>, order: seq<Drawn>, pid: int, tid: int, k: nat)
    requires InRange(ps, order) && k < |order|
    ensures |LinesOf(ps, order, pid, tid)| == LinesBefore(ps, order, |order|)
    ensures ShowsProcess(LinesOf(ps, order, pid, tid), LinesBefore(ps, order, k), ps[order[k].index], order[k].depth,
                         pid, tid)
  {
    var n := |order| - 1;
    var front := order[..n];
    LinesAreCounted(ps, order, pid, tid, n);
    LinesAreCounted(ps, order, pid, tid, n + 1);
    assert order[..n + 1] == order;
    var above := LinesOf(ps, front, pid, tid);
    hide LinesOf, LinesBefore;
    if k < n {
      DrawingShows(ps, front, pid, tid, k);
      SameLinesBefore(ps, order, n, k);
      StillShows(above, Block(ps[order[n].index], order[n].depth, pid, tid), LinesBefore(ps, order, k),
                 ps[order[k].index], order[k].depth, pid, tid);
    } else {
      BlockShows(above, ps[order[n].index], order[n].depth, pid, tid);
    }
  }

  lemma StillShows(lines: seq<GraphLine>, more: seq<GraphLine>, at: nat, p: Process, depth: nat, pid: int, tid: int)
    requires ShowsProcess(lines, at, p, depth, pid, tid)
    ensures ShowsProcess(lines + more, at, p, depth, pid, tid)
  {
  }

  lemma BlockShows(lines: seq<GraphLine>, p: Process, depth: nat, pid: int, tid: int)
    ensures ShowsProcess(lines + Block(p, depth, pid, tid), |lines|, p, depth, pid, tid)
  {
    ThreadLines(p, depth, pid, tid, |p.tids|);
  }

  lemma {:induction false} LinesAreCounted(ps: seq<Process>, order: seq<Drawn>, pid: int, tid: int, n: nat)
    requires InRange(ps, order) && n <= |order|
    ensures |LinesOf(ps, order[..n], pid, tid)| == LinesBefore(ps, order, n)
  {
    if n > 0 {
      LinesAreCounted(ps, order, pid, tid, n - 1);
      assert order[..n][..n - 1] == order[..n - 1];
    }
  }

  lemma {:induction false} SameLinesBefore(ps: seq<Process>, order: seq<Drawn>, n: nat, k: nat)
    requires InRange(ps, order) && k <= n <= |order|
    ensures LinesBefore(ps, order[..n], k) == LinesBefore(ps, order, k)
  {
    if k > 0 { SameLinesBefore(ps, order, n, k - 1); }
  }
}
