/** What a directory total counts, path by path: every directory that a path of subdirectory
    entries leads to, once for each such path, with the files that lie in it. */
module DuPaths {
  import opened Options
  import opened DuTotals

  /** Positions of entries, one below the other. */
  type Path = seq<nat>

  /** Without --one-file-system every directory is entered; with it, those on the root's device. */
  predicate Entered(scope: Scope, key: Key) {
    scope.oneFilesystem ==> key.device == scope.root
  }

  /** The directory that a path leads to from a start, through readable directories that are
      entered; the last one need not be. */
  function EndOf(disk: Disk, scope: Scope, start: Key, path: Path): (end: Option<Key>)
    requires start in disk
    ensures end.Some? ==> end.value in disk
    decreases |path|
  {
    if path == [] then Some(start)
    else
      var dir := disk[start];
      if !dir.readable || path[0] >= |dir.entries| then None
      else
        match dir.entries[path[0]]
        case Sub(key) =>
          if key !in disk then None
          else if |path| == 1 then Some(key)
          else if Entered(scope, key) then EndOf(disk, scope, key, path[1..])
          else None
        case _ => None
  }

  function FileSizes(entries: seq<Entry>): nat {
    if entries == [] then 0
    else (if entries[0].File? && entries[0].size > 0 then entries[0].size else 0) + FileSizes(entries[1..])
  }

  /** What the end of a path adds: its own size, and that of its files if it is entered and can be
      read.  The start is always entered. */
  function Amount(disk: Disk, scope: Scope, start: Key, path: Path): nat
    requires start in disk && EndOf(disk, scope, start, path).Some?
  {
    var key := EndOf(disk, scope, start, path).value;
    (if disk[key].size > 0 then disk[key].size else 0)
    + (if disk[key].readable && (path == [] || Entered(scope, key)) then FileSizes(disk[key].entries) else 0)
  }

  predicate AllLead(disk: Disk, scope: Scope, start: Key, paths: seq<Path>)
    requires start in disk
  {
    forall i :: 0 <= i < |paths| ==> EndOf(disk, scope, start, paths[i]).Some?
  }

  function Sum(disk: Disk, scope: Scope, start: Key, paths: seq<Path>): nat
    requires start in disk && AllLead(disk, scope, start, paths)
  {
    if paths == [] then 0
    else
      assert AllLead(disk, scope, start, paths[1..]);
      Amount(disk, scope, start, paths[0]) + Sum(disk, scope, start, paths[1..])
  }

  predicate Different(paths: seq<Path>) {
    forall i, j :: 0 <= i < j < |paths| ==> paths[i] != paths[j]
  }

  /** No entered directory is under itself. */
  ghost predicate Acyclic(disk: Disk, scope: Scope, rank: Key -> nat) {
    forall dir, i :: dir in disk && 0 <= i < |disk[dir].entries| ==>
      (var e := disk[dir].entries[i]; e.Sub? && e.key in disk && Entered(scope, e.key) ==> rank(e.key) < rank(dir))
  }

  lemma AcyclicIsRanked(disk: Disk, scope: Scope, rank: Key -> nat)
    requires Acyclic(disk, scope, rank)
    ensures Ranked(disk, scope, rank)
  {
  }

  // ---------------------------------------------------------------- all paths

  ghost function Paths(disk: Disk, scope: Scope, start: Key, rank: Key -> nat): seq<Path>
    requires start in disk && Acyclic(disk, scope, rank)
    decreases rank(start), 1, 0
  {
    [[]] + if disk[start].readable then PathsFrom(disk, scope, start, 0, rank) else []
  }

  /** Those through the entries from the n-th on. */
  ghost function PathsFrom(disk: Disk, scope: Scope, dir: Key, n: nat, rank: Key -> nat): seq<Path>
    requires dir in disk && n <= |disk[dir].entries| && Acyclic(disk, scope, rank)
    decreases rank(dir), 0, |disk[dir].entries| - n
  {
    if n == |disk[dir].entries| then []
    else PathsThrough(disk, scope, dir, n, rank) + PathsFrom(disk, scope, dir, n + 1, rank)
  }

  ghost function PathsThrough(disk: Disk, scope: Scope, dir: Key, n: nat, rank: Key -> nat): seq<Path>
    requires dir in disk && n < |disk[dir].entries| && Acyclic(disk, scope, rank)
    decreases rank(dir), 0, 0
  {
    var e := disk[dir].entries[n];
    if !e.Sub? || e.key !in disk then []
    else if Entered(scope, e.key) then OneDown(n, Paths(disk, scope, e.key, rank))
    else [[n]]
  }

  /** The paths one level further down. */
  function OneDown(n: nat, paths: seq<Path>): (down: seq<Path>)
    ensures |down| == |paths| && forall i :: 0 <= i < |paths| ==> down[i] == [n] + paths[i]
  {
    seq(|paths|, i requires 0 <= i < |paths| => [n] + paths[i])
  }

  // ---------------------------------------------------------------- the sum over them

  lemma {:induction false} SumJoins(disk: Disk, scope: Scope, start: Key, a: seq<Path>, b: seq<Path>)
    requires start in disk && AllLead(disk, scope, start, a) && AllLead(disk, scope, start, b)
    ensures AllLead(disk, scope, start, a + b)
    ensures Sum(disk, scope, start, a + b) == Sum(disk, scope, start, a) + Sum(disk, scope, start, b)
  {
    hide EndOf, Amount;
    if a == [] {
      assert a + b == b;
    } else {
      assert (a + b)[1..] == a[1..] + b;
      SumJoins(disk, scope, start, a[1..], b);
    }
  }

  /** One level further down nothing changes. */
  lemma OneDownLeads(disk: Disk, scope: Scope, dir: Key, n: nat, path: Path)
    requires dir in disk && disk[dir].readable && n < |disk[dir].entries|
    requires var e := disk[dir].entries[n]; e.Sub? && e.key in disk && Entered(scope, e.key)
    ensures var key := disk[dir].entries[n].key;
            && EndOf(disk, scope, dir, [n] + path) == EndOf(disk, scope, key, path)
            && (EndOf(disk, scope, key, path).Some? ==>
                  Amount(disk, scope, dir, [n] + path) == Amount(disk, scope, key, path))
  {
    hide FileSizes;
    assert ([n] + path)[1..] == path;
  }

  lemma {:induction false} SumOneDown(disk: Disk, scope: Scope, dir: Key, n: nat, paths: seq<Path>)
    requires dir in disk && disk[dir].readable && n < |disk[dir].entries|
    requires var e := disk[dir].entries[n]; e.Sub? && e.key in disk && Entered(scope, e.key)
    requires AllLead(disk, scope, disk[dir].entries[n].key, paths)
    ensures AllLead(disk, scope, dir, OneDown(n, paths))
    ensures Sum(disk, scope, dir, OneDown(n, paths)) == Sum(disk, scope, disk[dir].entries[n].key, paths)
    decreases |paths|
  {
    forall i | 0 <= i < |paths|
      ensures EndOf(disk, scope, dir, OneDown(n, paths)[i]).Some?
    {
      OneDownLeads(disk, scope, dir, n, paths[i]);
    }
    if paths != [] {
      hide EndOf, Amount;
      OneDownLeads(disk, scope, dir, n, paths[0]);
      assert OneDown(n, paths)[1..] == OneDown(n, paths[1..]);
      SumOneDown(disk, scope, dir, n, paths[1..]);
    }
  }

  /** The paths of a directory: the listed ones are exactly those that lead somewhere, none is
      listed twice, and what their ends add makes the plain sum. */
  lemma {:induction false} PathsAreAll(disk: Disk, scope: Scope, start: Key, rank: Key -> nat)
    requires start in disk && Acyclic(disk, scope, rank)
    ensures var ps := Paths(disk, scope, start, rank);
            && Ranked(disk, scope, rank) && AllLead(disk, scope, start, ps) && Different(ps)
            && Sum(disk, scope, start, ps) == Plain(disk, scope, start, rank)
    ensures forall p: Path :: EndOf(disk, scope, start, p).Some? ==> p in Paths(disk, scope, start, rank)
    decreases rank(start), 1, 0
  {
    AcyclicIsRanked(disk, scope, rank);
    hide Acyclic, Ranked, PathsFrom, PlainEntries, Amount;
    var own: seq<Path> := [[]];
    StartAdds(disk, scope, start);
    if disk[start].readable {
      FromIsAll(disk, scope, start, 0, rank);
      var from := PathsFrom(disk, scope, start, 0, rank);
      assert disk[start].entries[0..] == disk[start].entries;
      SumJoins(disk, scope, start, own, from);
      hide Sum, Different, EndOf;
      StartDiffers(from);
    } else {
      assert own + [] == own;
    }
  }

  lemma StartDiffers(below: seq<Path>)
    requires Different(below) && forall i :: 0 <= i < |below| ==> below[i] != []
    ensures var own: seq<Path> := [[]];
            Different(own + below)
  {
  }

  lemma StartAdds(disk: Disk, scope: Scope, start: Key)
    requires start in disk
    ensures var own: seq<Path> := [[]];
            && AllLead(disk, scope, start, own)
            && Sum(disk, scope, start, own)
               == StatSize(disk[start].size) + if disk[start].readable then FileSizes(disk[start].entries) else 0
  {
    hide FileSizes;
    var own: seq<Path> := [[]];
    assert own[1..] == [];
  }

  lemma {:induction false} FromIsAll(disk: Disk, scope: Scope, dir: Key, n: nat, rank: Key -> nat)
    requires dir in disk && disk[dir].readable && n <= |disk[dir].entries| && Acyclic(disk, scope, rank)
    ensures var ps := PathsFrom(disk, scope, dir, n, rank);
            && Ranked(disk, scope, rank) && AllLead(disk, scope, dir, ps) && Different(ps)
            && (forall i :: 0 <= i < |ps| ==> ps[i] != [] && ps[i][0] >= n)
            && PlainEntries(disk, scope, dir, n, rank) == FileSizes(disk[dir].entries[n..]) + Sum(disk, scope, dir, ps)
    ensures forall p: Path :: p != [] && p[0] >= n && EndOf(disk, scope, dir, p).Some? ==>
              p in PathsFrom(disk, scope, dir, n, rank)
    decreases rank(dir), 0, |disk[dir].entries| - n
  {
    AcyclicIsRanked(disk, scope, rank);
    if n < |disk[dir].entries| {
      ThroughIsAll(disk, scope, dir, n, rank);
      FromIsAll(disk, scope, dir, n + 1, rank);
      var one, more := PathsThrough(disk, scope, dir, n, rank), PathsFrom(disk, scope, dir, n + 1, rank);
      assert disk[dir].entries[n..][1..] == disk[dir].entries[n + 1..];
      SumJoins(disk, scope, dir, one, more);
      hide Acyclic, Ranked, PlainEntry, PathsThrough, EndOf, Amount, Sum, Different;
      BothDiffer(one, more, n);
      forall p: Path | p != [] && p[0] >= n && EndOf(disk, scope, dir, p).Some?
        ensures p in one + more
      {
        if p[0] == n { assert p in one; } else { assert p in more; }
      }
    }
  }

  lemma BothDiffer(one: seq<Path>, more: seq<Path>, n: nat)
    requires Different(one) && forall i :: 0 <= i < |one| ==> one[i] != [] && one[i][0] == n
    requires Different(more) && forall i :: 0 <= i < |more| ==> more[i] != [] && more[i][0] > n
    ensures Different(one + more)
    ensures forall i :: 0 <= i < |one + more| ==> (one + more)[i] != [] && (one + more)[i][0] >= n
  {
  }

  lemma {:induction false} ThroughIsAll(disk: Disk, scope: Scope, dir: Key, n: nat, rank: Key -> nat)
    requires dir in disk && disk[dir].readable && n < |disk[dir].entries| && Acyclic(disk, scope, rank)
    ensures var ps, e := PathsThrough(disk, scope, dir, n, rank), disk[dir].entries[n];
            && Ranked(disk, scope, rank) && AllLead(disk, scope, dir, ps) && Different(ps)
            && (forall i :: 0 <= i < |ps| ==> ps[i] != [] && ps[i][0] == n)
            && PlainEntry(disk, scope, e, rank(dir), rank)
               == (if e.File? && e.size > 0 then e.size else 0) + Sum(disk, scope, dir, ps)
    ensures forall p: Path :: p != [] && p[0] == n && EndOf(disk, scope, dir, p).Some? ==>
              p in PathsThrough(disk, scope, dir, n, rank)
    decreases rank(dir), 0, 0
  {
    AcyclicIsRanked(disk, scope, rank);
    var e := disk[dir].entries[n];
    if e.Sub? && e.key in disk {
      if Entered(scope, e.key) {
        PathsAreAll(disk, scope, e.key, rank);
        var ps := Paths(disk, scope, e.key, rank);
        SumOneDown(disk, scope, dir, n, ps);
        AllOneDown(disk, scope, dir, n, ps);
      } else {
        OneOutside(disk, scope, dir, n);
      }
    }
  }

  lemma AllOneDown(disk: Disk, scope: Scope, dir: Key, n: nat, ps: seq<Path>)
    requires dir in disk && disk[dir].readable && n < |disk[dir].entries|
    requires var e := disk[dir].entries[n]; e.Sub? && e.key in disk && Entered(scope, e.key)
    requires Different(ps) && forall p: Path :: EndOf(disk, scope, disk[dir].entries[n].key, p).Some? ==> p in ps
    ensures Different(OneDown(n, ps))
    ensures forall p: Path :: p != [] && p[0] == n && EndOf(disk, scope, dir, p).Some? ==> p in OneDown(n, ps)
  {
    var down := OneDown(n, ps);
    forall i, j | 0 <= i < j < |down|
      ensures down[i] != down[j]
    {
      assert down[i][1..] == ps[i] && down[j][1..] == ps[j];
    }
    forall p: Path | p != [] && p[0] == n && EndOf(disk, scope, dir, p).Some?
      ensures p in down
    {
      assert p == [n] + p[1..];
      OneDownLeads(disk, scope, dir, n, p[1..]);
      var i :| 0 <= i < |ps| && ps[i] == p[1..];
      assert down[i] == p;
    }
  }

  lemma OneOutside(disk: Disk, scope: Scope, dir: Key, n: nat)
    requires dir in disk && disk[dir].readable && n < |disk[dir].entries|
    requires var e := disk[dir].entries[n]; e.Sub? && e.key in disk && !Entered(scope, e.key)
    ensures var one: seq<Path> := [[n]];
            && AllLead(disk, scope, dir, one)
            && Sum(disk, scope, dir, one) == StatSize(disk[disk[dir].entries[n].key].size)
            && forall p: Path :: p != [] && p[0] == n && EndOf(disk, scope, dir, p).Some? ==> p in one
  {
    var one: seq<Path> := [[n]];
    assert one[1..] == [];
    forall p: Path | p != [] && p[0] == n && EndOf(disk, scope, dir, p).Some?
      ensures p in one
    {
      assert p == [n];
    }
  }

  /** A sum up to the largest number of 64 bits. */
  function Capped(sum: nat): nat {
    if sum < 0x1_0000_0000_0000_0000 then sum else 0xFFFF_FFFF_FFFF_FFFF
  }

  /** One call of directory_total: there is a list of all the paths that lead somewhere, each once,
      and the total is the sum of what their ends add, up to the largest number.  What is not there
      has nothing. */
  lemma VisitCountsPaths(disk: Disk, scope: Scope, start: Key, rank: Key -> nat) returns (paths: seq<Path>)
    requires Acyclic(disk, scope, rank)
    ensures start !in disk ==> Visit(disk, scope, start, map[]).total == 0
    ensures start in disk ==>
              && AllLead(disk, scope, start, paths) && Different(paths)
              && (forall p: Path :: EndOf(disk, scope, start, p).Some? ==> p in paths)
              && Visit(disk, scope, start, map[]).total == Capped(Sum(disk, scope, start, paths))
  {
    if start !in disk { return []; }
    paths := Paths(disk, scope, start, rank);
    PathsAreAll(disk, scope, start, rank);
    hide Paths, Plain, Visit, Sum;
    VisitIsPlain(disk, scope, start, map[], {}, rank);
  }

  /** One call after another with the cache that the earlier ones left: each still counts all its
      paths, those below directories counted before included. */
  lemma EveryCallCountsPaths(disk: Disk, scope: Scope, keys: seq<Key>, i: nat, rank: Key -> nat)
    returns (paths: seq<Path>)
    requires Acyclic(disk, scope, rank) && i < |keys| && forall k :: k in keys ==> k in disk
    ensures AllLead(disk, scope, keys[i], paths) && Different(paths)
    ensures forall p: Path :: EndOf(disk, scope, keys[i], p).Some? ==> p in paths
    ensures |Totals(disk, scope, keys, map[])| == |keys|
    ensures Totals(disk, scope, keys, map[])[i] == Capped(Sum(disk, scope, keys[i], paths))
  {
    paths := Paths(disk, scope, keys[i], rank);
    PathsAreAll(disk, scope, keys[i], rank);
    hide Paths, Plain, Visit, Sum, Totals;
    EveryCallIsPlain(disk, scope, keys, map[], rank);
  }
}
