/** fd_analysis_build in its own shape: per-process arrays of bindings searched linearly, a
    growing array of objects, and one FdEventInfo record per event filled in place; proved to
    represent the map machine of FdMachine after every event. */
module FdTracker {
  import opened Options
  import opened FdMachine
  import opened FdChains

  datatype Binding = Binding(fd: int, entry: Entry)

  ghost predicate DistinctFds(bs: seq<Binding>) {
    forall i, j :: 0 <= i < j < |bs| ==> bs[i].fd != bs[j].fd
  }

  ghost function AsTable(bs: seq<Binding>): Table
    requires DistinctFds(bs)
  {
    map i | 0 <= i < |bs| :: bs[i].fd := bs[i].entry
  }

  lemma Bound(bs: seq<Binding>, i: int)
    requires DistinctFds(bs) && 0 <= i < |bs|
    ensures bs[i].fd in AsTable(bs) && AsTable(bs)[bs[i].fd] == bs[i].entry
  {
  }

  class FdTable {
    const pid: int
    var bindings: seq<Binding>

    ghost predicate Valid()
      reads this
    {
      DistinctFds(bindings)
    }

    ghost function Fds(): Table
      reads this
      requires Valid()
    {
      AsTable(bindings)
    }

    constructor (pid: int, bindings: seq<Binding>)
      requires DistinctFds(bindings)
      ensures this.pid == pid && this.bindings == bindings
    {
      this.pid, this.bindings := pid, bindings;
    }

    /** find_binding: the position of an fd, or -1. */
    method Find(fd: int) returns (at: int)
      requires Valid()
      ensures at == -1 <==> fd !in Fds()
      ensures at != -1 ==> 0 <= at < |bindings| && bindings[at].fd == fd && bindings[at].entry == Fds()[fd]
    {
      at := 0;
      while at < |bindings|
        invariant 0 <= at <= |bindings|
        invariant forall k :: 0 <= k < at ==> bindings[k].fd != fd
      {
        if bindings[at].fd == fd {
          Bound(bindings, at);
          return;
        }
        at := at + 1;
      }
      at := -1;
    }

    /** remove_binding */
    method Remove(fd: int)
      requires Valid()
      modifies this
      ensures Valid() && Fds() == old(Fds()) - {fd}
      ensures forall i :: 0 <= i < |old(bindings)| && old(bindings)[i].fd == fd ==>
                bindings == old(bindings)[..i] + old(bindings)[i + 1..]
    {
      var at := Find(fd);
      if at != -1 {
        ghost var was := bindings;
        bindings := bindings[..at] + bindings[at + 1..];
        assert WithoutAt(was, bindings, at);
        StaysDistinct(was, bindings, at);
        RemoveAt(was, bindings, at);
      }
    }

    /** set_binding */
    method Set(fd: int, entry: Entry)
      requires Valid()
      modifies this
      ensures Valid() && Fds() == old(Fds())[fd := entry]
    {
      var at := Find(fd);
      ghost var was := bindings;
      if at == -1 {
        bindings := bindings + [Binding(fd, entry)];
        Extended(was, Binding(fd, entry));
      } else {
        bindings := bindings[at := Binding(fd, entry)];
        Replaced(was, at, entry);
      }
    }

    /** remove_binding then set_binding, as every call that opens an fd does. */
    method Bind(fd: int, entry: Entry)
      requires Valid()
      modifies this
      ensures Valid() && Fds() == old(Fds())[fd := entry]
    {
      Remove(fd);
      Set(fd, entry);
      RemoveThenSet(old(Fds()), fd, entry);
    }

    /** The close-on-exec sweep: bindings are removed under the moving position b. */
    method CloseOnExec()
      requires Valid()
      modifies this
      ensures Valid() && Fds() == KeptOverExec(old(Fds()))
    {
      var b := 0;
      while b < |bindings|
        invariant 0 <= b <= |bindings| && Valid()
        invariant forall k :: 0 <= k < b ==> !bindings[k].entry.cloexec
        invariant KeptOverExec(Fds()) == KeptOverExec(old(Fds()))
        decreases |bindings| - b
      {
        Bound(bindings, b);
        if bindings[b].entry.cloexec {
          DropCloexec(Fds(), bindings[b].fd);
          Remove(bindings[b].fd);
        } else {
          b := b + 1;
        }
      }
      AllKept(bindings);
    }
  }

  function Skipping(at: int, k: int): int {
    if k < at then k else k + 1
  }

  ghost predicate WithoutAt(was: seq<Binding>, bs: seq<Binding>, at: int) {
    && 0 <= at < |was| == |bs| + 1
    && forall k :: 0 <= k < |bs| ==> bs[k] == was[Skipping(at, k)]
  }

  lemma StaysDistinct(was: seq<Binding>, bs: seq<Binding>, at: int)
    requires DistinctFds(was) && WithoutAt(was, bs, at)
    ensures DistinctFds(bs)
  {
    forall i, j | 0 <= i < j < |bs|
      ensures bs[i].fd != bs[j].fd
    {
      assert bs[i] == was[Skipping(at, i)] && bs[j] == was[Skipping(at, j)];
    }
  }

  lemma RemovedKeeps(was: seq<Binding>, bs: seq<Binding>, at: int, fd: int)
    requires DistinctFds(was) && DistinctFds(bs) && WithoutAt(was, bs, at)
    requires fd in AsTable(bs)
    ensures fd in AsTable(was) && fd != was[at].fd && AsTable(was)[fd] == AsTable(bs)[fd]
  {
    var k :| 0 <= k < |bs| && bs[k].fd == fd;
    Bound(bs, k);
    Bound(was, Skipping(at, k));
  }

  lemma RemovedLosesOne(was: seq<Binding>, bs: seq<Binding>, at: int, fd: int)
    requires DistinctFds(was) && DistinctFds(bs) && WithoutAt(was, bs, at)
    requires fd in AsTable(was) && fd != was[at].fd
    ensures fd in AsTable(bs)
  {
    var i :| 0 <= i < |was| && was[i].fd == fd;
    var k := if i < at then i else i - 1;
    assert i == Skipping(at, k);
    Bound(bs, k);
  }

  lemma RemoveAt(was: seq<Binding>, bs: seq<Binding>, at: int)
    requires DistinctFds(was) && DistinctFds(bs) && WithoutAt(was, bs, at)
    ensures AsTable(bs) == AsTable(was) - {was[at].fd}
  {
    assert 0 <= at < |was|;
    hide AsTable, DistinctFds, WithoutAt;
    forall fd | fd in AsTable(bs)
      ensures fd in AsTable(was) && fd != was[at].fd && AsTable(was)[fd] == AsTable(bs)[fd]
    {
      RemovedKeeps(was, bs, at, fd);
    }
    forall fd | fd in AsTable(was) && fd != was[at].fd
      ensures fd in AsTable(bs)
    {
      RemovedLosesOne(was, bs, at, fd);
    }
  }

  lemma Extended(was: seq<Binding>, b: Binding)
    requires DistinctFds(was) && b.fd !in AsTable(was)
    ensures DistinctFds(was + [b]) && AsTable(was + [b]) == AsTable(was)[b.fd := b.entry]
  {
    var bs := was + [b];
    forall i | 0 <= i < |was|
      ensures was[i].fd != b.fd
    {
      Bound(was, i);
    }
    assert bs[|was|] == b;
    forall fd | fd in AsTable(was)
      ensures fd in AsTable(bs)
    {
      var i :| 0 <= i < |was| && was[i].fd == fd;
      assert bs[i].fd == fd;
    }
  }

  lemma Replaced(was: seq<Binding>, at: int, entry: Entry)
    requires DistinctFds(was) && 0 <= at < |was|
    ensures DistinctFds(was[at := Binding(was[at].fd, entry)])
    ensures AsTable(was[at := Binding(was[at].fd, entry)]) == AsTable(was)[was[at].fd := entry]
  {
    var bs := was[at := Binding(was[at].fd, entry)];
    assert forall i :: 0 <= i < |was| ==> bs[i].fd == was[i].fd;
  }

  lemma AllKept(bs: seq<Binding>)
    requires DistinctFds(bs) && forall k :: 0 <= k < |bs| ==> !bs[k].entry.cloexec
    ensures KeptOverExec(AsTable(bs)) == AsTable(bs)
  {
  }

  lemma RemoveThenSet(t: Table, fd: int, entry: Entry)
    ensures (t - {fd})[fd := entry] == t[fd := entry]
  {
  }

  lemma RemoveBothThenSet(t: Table, left: int, right: int, entry: Entry)
    ensures (t - {left} - {right})[left := entry][right := entry] == t[left := entry][right := entry]
  {
  }

  lemma DropCloexec(t: Table, fd: int)
    requires fd in t && t[fd].cloexec
    ensures KeptOverExec(t - {fd}) == KeptOverExec(t)
  {
  }
}
