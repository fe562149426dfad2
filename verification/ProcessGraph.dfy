/** The process graph of strace-src: a depth-first walk over parent links that need not form a
    forest. */
module ProcessGraph {
  import opened Options
  import opened ProcessForest

  class Graph {
    const procs: seq<Process>
    const pid: int                       // the process and thread that are selected
    const tid: int
    const visited: array<bool>
    const lines: array<GraphLine>
    var lineCount: nat
    ghost var order: seq<Drawn>

    /** The lines so far are those of the visited processes, each drawn once. */
    ghost predicate Valid()
      reads this, visited, lines
    {
      && visited.Length == |procs| && lines.Length == Total(procs) + 1
      && InRange(procs, order) && Distinct(order)
      && (forall i :: 0 <= i < |procs| ==> (visited[i] <==> IsDrawn(order, i)))
      && lineCount <= lines.Length && lineCount == Taken(procs, visited[..])
      && lines[..lineCount] == LinesOf(procs, order, pid, tid)
    }

    constructor (procs: seq<Process>, pid: int, tid: int)
      ensures Valid() && this.procs == procs && order == [] && fresh(visited) && fresh(lines)
      ensures forall i :: 0 <= i < |procs| ==> !visited[i]
    {
      this.procs, this.pid, this.tid := procs, pid, tid;
      visited := new bool[|procs|](_ => false);
      lines := new GraphLine[Total(procs) + 1](_ => TidLine(0, 0, false));
      lineCount, order := 0, [];
      new;
      NothingTaken(procs, visited[..]);
    }

    /** The lines of one process, as long as there is room. */
    method DrawBlock(i: nat, depth: nat)
      requires i < |procs| && lineCount + Weight(procs[i]) < lines.Length
      modifies this`lineCount, lines
      ensures lineCount == old(lineCount) + Weight(procs[i])
      ensures lines[..lineCount] == old(lines[..lineCount]) + Block(procs[i], depth, pid, tid)
    {
      var p := procs[i];
      lines[lineCount] := ProcessLine(depth, p.pid, pid == p.pid && tid == p.pid);
      lineCount := lineCount + 1;
      var t := 0;
      while t < |p.tids| && lineCount < lines.Length
        invariant 0 <= t <= |p.tids| && lineCount == old(lineCount) + 1 + t
        invariant lines[..lineCount] == old(lines[..lineCount])
                  + [ProcessLine(depth, p.pid, pid == p.pid && tid == p.pid)] + TidLines(p, depth, pid, tid, t)
      {
        lines[lineCount] := TidLine(depth + 1, p.tids[t], pid == p.pid && tid == p.tids[t]);
        lineCount := lineCount + 1;
        t := t + 1;
      }
    }

    /** Marks a process and draws it. */
    method Draw(i: nat, depth: nat)
      requires Valid() && i < |procs| && !visited[i]
      modifies this`lineCount, this`order, visited, lines
      ensures Valid() && order == old(order) + [Drawn(i, depth)]
      ensures visited[..] == old(visited[..])[i := true]
    {
      TakeOne(procs, visited[..], i);
      TakenFits(procs, visited[..][i := true]);
      ghost var was := order;
      visited[i] := true;
      assert visited[..] == old(visited[..])[i := true];
      DrawBlock(i, depth);
      order := was + [Drawn(i, depth)];
      assert order[..|order| - 1] == was;
      DrawnOnceMore(was, i, depth);
    }

    /** append_graph_process: a process that is not drawn yet, and what hangs below it. */
    method Append(i: nat, depth: nat)
      requires Valid() && i < |procs|
      modifies this`lineCount, this`order, visited, lines
      ensures Valid() && visited[i] && Later(old(visited[..]), visited[..])
      ensures old(visited[i]) ==> order == old(order)
      ensures !old(visited[i]) ==> Grown(old(order), Drawn(i, depth))
      ensures Closed(procs, old(visited[..]), visited[..])
      decreases Left(visited[..]), 0
    {
      ghost var was := visited[..];
      NothingOpen(procs, was, i);
      TakenFits(procs, was);
      hide Closed, ChildrenVisited, LinesOf, Nested, Taken, Left;
      if visited[i] || lineCount >= lines.Length { return; }
      LeftFalls(was, i);
      Draw(i, depth);
      AppendChildren(i, depth);
      ClosedWithParent(procs, was, i, visited[..]);
    }

    /** What a call of Append on a fresh process adds to the order. */
    ghost predicate Grown(was: seq<Drawn>, first: Drawn)
      reads this
    {
      && InRange(procs, order) && |was| < |order| && order[..|was|] == was && order[|was|] == first
      && (forall k :: |was| < k < |order| ==> order[k].depth > first.depth)
      && Nested(procs, order, |was|, first.depth)
    }

    /** Its loop over all processes for the children of this one. */
    method AppendChildren(i: nat, depth: nat)
      requires Valid() && i < |procs| && visited[i] && |order| > 0 && order[|order| - 1] == Drawn(i, depth)
      modifies this`lineCount, this`order, visited, lines
      ensures Valid() && Later(old(visited[..]), visited[..])
      ensures Grown(old(order)[..|old(order)| - 1], Drawn(i, depth))
      ensures ChildrenVisited(procs, visited[..], i, |procs|)
      ensures Closed(procs, old(visited[..]), visited[..])
      decreases Left(visited[..]), 2
    {
      ghost var was, start := order[..|order| - 1], visited[..];
      NothingOpen(procs, start, i);
      hide Closed, ChildrenVisited, LinesOf, Taken, Left, Distinct, IsDrawn;
      assert Grown(was, Drawn(i, depth));
      hide Nested;
      for c := 0 to |procs|
        invariant Valid() && visited[i] && Later(start, visited[..])
        invariant Grown(was, Drawn(i, depth))
        invariant ChildrenVisited(procs, visited[..], i, c)
        invariant Closed(procs, start, visited[..])
      {
        ghost var mid := visited[..];
        LeftNeverRises(start, mid);
        AppendIfChild(c, i, depth, was);
        ClosedJoins(procs, start, mid, visited[..]);
        OneMoreChild(procs, mid, visited[..], i, c);
      }
    }

    /** One turn of that loop. */
    method AppendIfChild(c: nat, i: nat, depth: nat, ghost was: seq<Drawn>)
      requires Valid() && c < |procs| && i < |procs| && visited[i] && Grown(was, Drawn(i, depth))
      modifies this`lineCount, this`order, visited, lines
      ensures Valid() && Later(old(visited[..]), visited[..]) && Grown(was, Drawn(i, depth))
      ensures IsChild(procs, c, i) ==> visited[c]
      ensures Closed(procs, old(visited[..]), visited[..])
      decreases Left(visited[..]), 1
    {
      hide Closed, LinesOf, Taken, Left, Distinct, IsDrawn, Nested, IsRoot, Descends;
      NothingOpen(procs, visited[..], i);
      if procs[c].parent == procs[i].pid {
        ghost var before := order;
        Append(c, depth + 1);
        if order != before {
          assert order[..|before|] == before && order[|was|] == before[|was|];
          assert order[..|was|] == before[..|was|];
          ChildJoins(procs, order, |was|, |before|);
        }
      }
    }

    /** Draws a further tree at the left edge. */
    method AppendTree(i: nat)
      requires Valid() && i < |procs| && Nested(procs, order, 0, 0) && LeftEdge(procs, order)
      requires visited[i] || IsRoot(procs, i) || !Descends(procs, i)
      modifies this`lineCount, this`order, visited, lines
      ensures Valid() && visited[i] && Later(old(visited[..]), visited[..])
      ensures Nested(procs, order, 0, 0) && LeftEdge(procs, order)
      ensures Closed(procs, old(visited[..]), visited[..])
    {
      hide Closed, LinesOf, Taken, Left, Distinct, IsDrawn, Nested, IsRoot, Descends;
      ghost var before := order;
      ghost var drawn := visited[i];
      Append(i, 0);
      if !drawn {
        assert order[..|before|] == before;
        TreeJoins(procs, order, |before|);
        EdgeJoins(procs, order, |before|);
      }
    }

    /** find_process */
    method FindProcess(wanted: int) returns (found: bool)
      ensures found <==> exists j :: 0 <= j < |procs| && procs[j].pid == wanted
    {
      for j := 0 to |procs|
        invariant forall k :: 0 <= k < j ==> procs[k].pid != wanted
      {
        if procs[j].pid == wanted { return true; }
      }
      found := false;
    }

    /** The two loops of draw_process_graph_popup: first the trees below the roots, then
        whatever is left, which hangs on a cycle of parent links. */
    method DrawAll()
      requires Valid() && order == [] && forall i :: 0 <= i < |procs| ==> !visited[i]
      modifies this`lineCount, this`order, visited, lines
      ensures Valid() && Complete()
    {
      ghost var none := visited[..];
      NothingOpen(procs, none, 0);
      for i := 0 to |procs|
        invariant Valid() && Nested(procs, order, 0, 0) && LeftEdge(procs, order)
        invariant RootsVisited(procs, visited[..], i) && Closed(procs, none, visited[..])
      {
        ghost var mid := visited[..];
        NothingOpen(procs, mid, 0);
        var known := FindProcess(procs[i].parent);
        if procs[i].parent == 0 || !known {
          AppendTree(i);
        }
        MoreRootsVisited(procs, mid, visited[..], i);
        ClosedJoins(procs, none, mid, visited[..]);
      }
      AllAreDescendants(procs, none, visited[..]);
      DrawRest();
    }

    method DrawRest()
      requires Valid() && Nested(procs, order, 0, 0) && LeftEdge(procs, order)
      requires forall i :: 0 <= i < |procs| && Descends(procs, i) ==> visited[i]
      modifies this`lineCount, this`order, visited, lines
      ensures Valid() && Complete()
    {
      hide Closed, LinesOf, Left, Distinct, Nested, IsRoot, Descends;
      for i := 0 to |procs|
        invariant Valid() && Nested(procs, order, 0, 0) && LeftEdge(procs, order)
        invariant forall j :: 0 <= j < |procs| && Descends(procs, j) ==> visited[j]
        invariant forall j :: 0 <= j < i ==> visited[j]
      {
        if !visited[i] {
          AppendTree(i);
        }
      }
      AllTaken(procs, visited[..]);
    }

    /** Every process once with its threads, each under its parent; at the left edge only roots
        and what no root leads to. */
    ghost predicate Complete()
      reads this, lines
    {
      && InRange(procs, order) && Distinct(order) && (forall i :: 0 <= i < |procs| ==> IsDrawn(order, i))
      && Nested(procs, order, 0, 0) && LeftEdge(procs, order)
      && lineCount == Total(procs) < lines.Length
      && lines[..lineCount] == LinesOf(procs, order, pid, tid)
    }
  }

  lemma DrawnOnceMore(was: seq<Drawn>, i: nat, depth: nat)
    requires Distinct(was) && !IsDrawn(was, i)
    ensures Distinct(was + [Drawn(i, depth)])
    ensures forall j :: IsDrawn(was + [Drawn(i, depth)], j) <==> j == i || IsDrawn(was, j)
  {
    var now := was + [Drawn(i, depth)];
    assert now[|was|].index == i;
    forall j | IsDrawn(was, j)
      ensures IsDrawn(now, j)
    {
      var k :| 0 <= k < |was| && was[k].index == j;
      assert now[k].index == j;
    }
  }
}
