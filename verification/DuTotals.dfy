/** directory_total as a function of the disk and the size cache, and the plain recursion it
    stands for. */
module DuTotals {
  const UINTMAX: nat := 0xFFFF_FFFF_FFFF_FFFF

  type OffT = x: int | -0x8000_0000_0000_0000 <= x < 0x8000_0000_0000_0000
  type Uint = x: nat | x <= UINTMAX

  /** What names a directory: st_dev and st_ino. */
  datatype Key = Key(device: bv64, inode: bv64)

  /** What lstat says about an entry other than "." and "..". */
  datatype Entry = Gone | File(size: OffT) | Sub(key: Key)

  /** opendir fails on a directory that is not readable. */
  datatype Dir = Dir(size: OffT, readable: bool, entries: seq<Entry>)

  /** The directories there are; lstat fails on the others. */
  type Disk = map<Key, Dir>

  /** --one-file-system, and the device of the root that is walked. */
  datatype Scope = Scope(oneFilesystem: bool, root: bv64)

  type Cache = map<Key, Uint>

  /** stat_size */
  function StatSize(size: OffT): Uint {
    if size > 0 then size else 0
  }

  /** add_size */
  function AddSize(total: Uint, amount: Uint): Uint {
    if UINTMAX - total < amount then UINTMAX else total + amount
  }

  predicate Follows(disk: Disk, scope: Scope, key: Key) {
    key in disk && (!scope.oneFilesystem || key.device == scope.root)
  }

  // ---------------------------------------------------------------- with the cache

  /** A total, and the cache as it is left. */
  datatype Seen = Seen(total: Uint, cache: Cache)

  /** The directories that are not in the cache yet: fewer at every level of the recursion. */
  ghost function Missing(disk: Disk, cache: Cache): nat {
    |disk.Keys - cache.Keys|
  }

  /** directory_total */
  function Visit(disk: Disk, scope: Scope, key: Key, cache: Cache): (r: Seen)
    ensures Extends(cache, r.cache)
    decreases Missing(disk, cache), 0
  {
    if key !in disk then Seen(0, cache)
    else if key in cache then Seen(cache[key], cache)
    else
      var own := StatSize(disk[key].size);
      var started := Opened(cache, key, own);
      if !disk[key].readable then Seen(own, started)
      else
        Shrinks(disk, cache, key, own);
        var read := VisitEntries(disk, scope, key, 0, Seen(own, started));
        Seen(read.total, read.cache[key := read.total])
  }

  /** Its loop over the entries, from the n-th on. */
  function VisitEntries(disk: Disk, scope: Scope, dir: Key, n: nat, so: Seen): (r: Seen)
    requires dir in disk && n <= |disk[dir].entries|
    ensures Extends(so.cache, r.cache)
    decreases Missing(disk, so.cache), |disk[dir].entries| - n + 2
  {
    if n == |disk[dir].entries| then so
    else
      var one := VisitEntry(disk, scope, disk[dir].entries[n], so);
      NeverGrows(disk, so.cache, one.cache);
      VisitEntries(disk, scope, dir, n + 1, one)
  }

  function VisitEntry(disk: Disk, scope: Scope, e: Entry, so: Seen): (r: Seen)
    ensures Extends(so.cache, r.cache)
    decreases Missing(disk, so.cache), 1
  {
    match e
    case Gone => so
    case File(size) => so.(total := AddSize(so.total, StatSize(size)))
    case Sub(key) =>
      if key !in disk then so
      else if Follows(disk, scope, key) then
        var below := Visit(disk, scope, key, so.cache);
        Seen(AddSize(so.total, below.total), below.cache)
      else so.(total := AddSize(so.total, StatSize(disk[key].size)))
  }

  /** The later cache has every entry of the earlier one, unchanged. */
  predicate Extends(earlier: Cache, later: Cache) {
    earlier.Keys <= later.Keys && forall k :: k in earlier ==> later[k] == earlier[k]
  }

  /** The cache with an entry for a directory that is being read. */
  function Opened(cache: Cache, key: Key, own: Uint): (r: Cache)
    ensures r.Keys == cache.Keys + {key}
  {
    cache[key := own]
  }

  lemma Shrinks(disk: Disk, cache: Cache, key: Key, own: Uint)
    requires key in disk && key !in cache
    ensures Missing(disk, Opened(cache, key, own)) < Missing(disk, cache)
  {
    assert disk.Keys - cache.Keys == (disk.Keys - Opened(cache, key, own).Keys) + {key};
  }

  lemma {:induction false} NeverGrows(disk: Disk, cache: Cache, seen: Cache)
    requires cache.Keys <= seen.Keys
    ensures Missing(disk, seen) <= Missing(disk, cache)
  {
    SubsetSize(disk.Keys - seen.Keys, disk.Keys - cache.Keys);
  }

  lemma {:induction false} SubsetSize(small: set<Key>, large: set<Key>)
    requires small <= large
    ensures |small| <= |large|
  {
    if small != {} {
      var k :| k in small;
      SubsetSize(small - {k}, large - {k});
    }
  }

  // ---------------------------------------------------------------- plain recursion

  /** The followed subdirectories rank below their parent: no directory is under itself. */
  ghost predicate Ranked(disk: Disk, scope: Scope, rank: Key -> nat) {
    forall dir, i :: dir in disk && 0 <= i < |disk[dir].entries|
      ==> EntryRanked(disk, scope, disk[dir].entries[i], rank, rank(dir))
  }

  ghost predicate EntryRanked(disk: Disk, scope: Scope, e: Entry, rank: Key -> nat, bound: nat) {
    e.Sub? && Follows(disk, scope, e.key) ==> rank(e.key) < bound
  }

  /** The sizes in a directory tree, added up without a bound. */
  ghost function Plain(disk: Disk, scope: Scope, key: Key, rank: Key -> nat): nat
    requires key in disk && Ranked(disk, scope, rank)
    decreases rank(key), 1, 0
  {
    StatSize(disk[key].size) + if disk[key].readable then PlainEntries(disk, scope, key, 0, rank) else 0
  }

  ghost function PlainEntries(disk: Disk, scope: Scope, dir: Key, n: nat, rank: Key -> nat): nat
    requires dir in disk && n <= |disk[dir].entries| && Ranked(disk, scope, rank)
    decreases rank(dir), 0, |disk[dir].entries| - n + 1
  {
    if n == |disk[dir].entries| then 0
    else PlainEntry(disk, scope, disk[dir].entries[n], rank(dir), rank) + PlainEntries(disk, scope, dir, n + 1, rank)
  }

  ghost function PlainEntry(disk: Disk, scope: Scope, e: Entry, bound: nat, rank: Key -> nat): nat
    requires Ranked(disk, scope, rank) && EntryRanked(disk, scope, e, rank, bound)
    decreases bound, 0, 0
  {
    match e
    case Gone => 0
    case File(size) => StatSize(size)
    case Sub(key) =>
      if key !in disk then 0
      else if Follows(disk, scope, key) then Plain(disk, scope, key, rank)
      else StatSize(disk[key].size)
  }

  function Saturated(n: nat): Uint {
    if n < UINTMAX then n else UINTMAX
  }

  // ---------------------------------------------------------------- the two agree

  /** Finished directories have their full totals, the open ones only their own size. */
  ghost predicate Sound(disk: Disk, scope: Scope, rank: Key -> nat, cache: Cache, unfinished: set<Key>)
    requires Ranked(disk, scope, rank)
  {
    forall key :: key in cache ==>
      && key in disk
      && cache[key] == if key in unfinished then StatSize(disk[key].size) else Saturated(Plain(disk, scope, key, rank))
  }

  /** What is looked for lies below the directories being read. */
  ghost predicate Below(rank: Key -> nat, key: Key, unfinished: set<Key>) {
    forall k :: k in unfinished ==> rank(key) < rank(k)
  }

  lemma {:induction false} VisitIsPlain(disk: Disk, scope: Scope, key: Key, cache: Cache, unfinished: set<Key>,
        rank: Key -> nat)
    requires Ranked(disk, scope, rank) && Sound(disk, scope, rank, cache, unfinished)
    requires key in disk && Below(rank, key, unfinished)
    ensures Visit(disk, scope, key, cache).total == Saturated(Plain(disk, scope, key, rank))
    ensures Sound(disk, scope, rank, Visit(disk, scope, key, cache).cache, unfinished)
    decreases Missing(disk, cache), 0
  {
    hide VisitEntries, PlainEntries, Sound, Ranked, Missing;
    if key in cache {
      FoundIsPlain(disk, scope, key, cache, unfinished, rank);
    } else {
      var own := StatSize(disk[key].size);
      var started := Seen(own, Opened(cache, key, own));
      Shrinks(disk, cache, key, own);
      StaysSound(disk, scope, key, own, cache, unfinished, rank);
      if disk[key].readable {
        var read := VisitEntries(disk, scope, key, 0, started);
        EntriesArePlain(disk, scope, key, 0, own, started, unfinished + {key}, rank);
        FinishedIsSound(disk, scope, key, read.total, read.cache, unfinished, rank);
      } else {
        FinishedIsSound(disk, scope, key, own, started.cache, unfinished, rank);
        assert started.cache[key := own] == started.cache;
      }
    }
  }

  lemma FoundIsPlain(disk: Disk, scope: Scope, key: Key, cache: Cache, unfinished: set<Key>, rank: Key -> nat)
    requires Ranked(disk, scope, rank) && Sound(disk, scope, rank, cache, unfinished)
    requires key in disk && Below(rank, key, unfinished) && key in cache
    ensures cache[key] == Saturated(Plain(disk, scope, key, rank))
  {
    hide Plain;
  }

  lemma FinishedIsSound(disk: Disk, scope: Scope, key: Key, total: Uint, seen: Cache, unfinished: set<Key>,
        rank: Key -> nat)
    requires Ranked(disk, scope, rank) && Sound(disk, scope, rank, seen, unfinished + {key})
    requires key in disk && key !in unfinished && total == Saturated(Plain(disk, scope, key, rank))
    ensures Sound(disk, scope, rank, seen[key := total], unfinished)
  {
    hide Plain;
  }

  lemma StaysSound(disk: Disk, scope: Scope, key: Key, own: Uint, cache: Cache, unfinished: set<Key>, rank: Key -> nat)
    requires Ranked(disk, scope, rank) && Sound(disk, scope, rank, cache, unfinished)
    requires key in disk && key !in cache && own == StatSize(disk[key].size)
    ensures Sound(disk, scope, rank, Opened(cache, key, own), unfinished + {key})
  {
  }

  lemma {:induction false} EntriesArePlain(disk: Disk, scope: Scope, dir: Key, n: nat, sum: nat, so: Seen,
                                           unfinished: set<Key>, rank: Key -> nat)
    requires Ranked(disk, scope, rank) && Sound(disk, scope, rank, so.cache, unfinished)
    requires dir in disk && n <= |disk[dir].entries| && dir in unfinished && Below(rank, dir, unfinished - {dir})
    requires so.total == Saturated(sum)
    ensures var r := VisitEntries(disk, scope, dir, n, so);
            && r.total == Saturated(sum + PlainEntries(disk, scope, dir, n, rank))
            && Sound(disk, scope, rank, r.cache, unfinished)
    decreases Missing(disk, so.cache), |disk[dir].entries| - n + 2
  {
    hide VisitEntry, PlainEntry, Sound, Below, Missing;
    if n < |disk[dir].entries| {
      var e := disk[dir].entries[n];
      var one := VisitEntry(disk, scope, e, so);
      OneEntryIsPlain(disk, scope, dir, e, sum, so, unfinished, rank);
      NeverGrows(disk, so.cache, one.cache);
      EntriesArePlain(disk, scope, dir, n + 1, sum + PlainEntry(disk, scope, e, rank(dir), rank), one, unfinished,
          rank);
    }
  }

  lemma {:induction false} OneEntryIsPlain(disk: Disk, scope: Scope, dir: Key, e: Entry, sum: nat, so: Seen,
                                           unfinished: set<Key>, rank: Key -> nat)
    requires Ranked(disk, scope, rank) && Sound(disk, scope, rank, so.cache, unfinished)
    requires dir in unfinished && Below(rank, dir, unfinished - {dir})
    requires so.total == Saturated(sum) && EntryRanked(disk, scope, e, rank, rank(dir))
    ensures var r := VisitEntry(disk, scope, e, so);
            && r.total == Saturated(sum + PlainEntry(disk, scope, e, rank(dir), rank))
            && Sound(disk, scope, rank, r.cache, unfinished)
    decreases Missing(disk, so.cache), 1
  {
    hide Visit, Plain, Sound, Missing;
    if e.Sub? && Follows(disk, scope, e.key) {
      VisitIsPlain(disk, scope, e.key, so.cache, unfinished, rank);
    }
  }

  /** The answers to one call after another, all for the same root. */
  function Totals(disk: Disk, scope: Scope, keys: seq<Key>, cache: Cache): seq<Uint> {
    if keys == [] then []
    else
      var seen := Visit(disk, scope, keys[0], cache);
      [seen.total] + Totals(disk, scope, keys[1..], seen.cache)
  }

  /** Whatever was asked before, every call answers with the saturated plain sum. */
  lemma {:induction false} EveryCallIsPlain(disk: Disk, scope: Scope, keys: seq<Key>, cache: Cache, rank: Key -> nat)
    requires Ranked(disk, scope, rank) && Sound(disk, scope, rank, cache, {})
    requires forall k :: k in keys ==> k in disk
    ensures |Totals(disk, scope, keys, cache)| == |keys|
    ensures forall i :: 0 <= i < |keys| ==>
              Totals(disk, scope, keys, cache)[i] == Saturated(Plain(disk, scope, keys[i], rank))
    decreases |keys|
  {
    if keys != [] {
      var seen := Visit(disk, scope, keys[0], cache).cache;
      VisitIsPlain(disk, scope, keys[0], cache, {}, rank);
      EveryCallIsPlain(disk, scope, keys[1..], seen, rank);
    }
  }

  // ---------------------------------------------------------------- two roots

  /** A second call, for another root, still gives the plain sum. */
  ghost predicate RootsAgree(oneFilesystem: bool, first: bv64, second: bv64) {
    forall disk: Disk, rank: Key -> nat, asked: Key, key: Key ::
      asked in disk && key in disk
      && Ranked(disk, Scope(oneFilesystem, first), rank) && Ranked(disk, Scope(oneFilesystem, second), rank) ==>
        SecondTotal(disk, oneFilesystem, first, asked, second, key)
        == Saturated(Plain(disk, Scope(oneFilesystem, second), key, rank))
  }

  function SecondTotal(disk: Disk, oneFilesystem: bool, first: bv64, asked: Key, second: bv64, key: Key): Uint {
    Visit(disk, Scope(oneFilesystem, second), key, Visit(disk, Scope(oneFilesystem, first), asked, map[]).cache).total
  }

  /** Without --one-file-system the root does not matter. */
  lemma {:induction false} PlainIgnoresRoot(disk: Disk, scope: Scope, other: Scope, key: Key, rank: Key -> nat)
    requires !scope.oneFilesystem && !other.oneFilesystem && key in disk
    requires Ranked(disk, scope, rank) && Ranked(disk, other, rank)
    ensures Plain(disk, scope, key, rank) == Plain(disk, other, key, rank)
    decreases rank(key), 1, 0
  {
    EntriesIgnoreRoot(disk, scope, other, key, 0, rank);
  }

  lemma {:induction false} EntriesIgnoreRoot(disk: Disk, scope: Scope, other: Scope, dir: Key, n: nat, rank: Key -> nat)
    requires !scope.oneFilesystem && !other.oneFilesystem && dir in disk && n <= |disk[dir].entries|
    requires Ranked(disk, scope, rank) && Ranked(disk, other, rank)
    ensures PlainEntries(disk, scope, dir, n, rank) == PlainEntries(disk, other, dir, n, rank)
    decreases rank(dir), 0, |disk[dir].entries| - n
  {
    hide Plain;
    if n < |disk[dir].entries| {
      var e := disk[dir].entries[n];
      if e.Sub? && e.key in disk {
        PlainIgnoresRoot(disk, scope, other, e.key, rank);
      }
      EntriesIgnoreRoot(disk, scope, other, dir, n + 1, rank);
    }
  }

  lemma SecondIsPlain(disk: Disk, oneFilesystem: bool, first: bv64, asked: Key, second: bv64, key: Key,
        rank: Key -> nat)
    requires !oneFilesystem || first == second
    requires asked in disk && key in disk
    requires Ranked(disk, Scope(oneFilesystem, first), rank) && Ranked(disk, Scope(oneFilesystem, second), rank)
    ensures SecondTotal(disk, oneFilesystem, first, asked, second, key)
            == Saturated(Plain(disk, Scope(oneFilesystem, second), key, rank))
  {
    hide Visit, Plain, Ranked;
    var before, now := Scope(oneFilesystem, first), Scope(oneFilesystem, second);
    var cache := Visit(disk, before, asked, map[]).cache;
    VisitIsPlain(disk, before, asked, map[], {}, rank);
    if !oneFilesystem {
      forall k | k in cache
        ensures Plain(disk, before, k, rank) == Plain(disk, now, k, rank)
      {
        PlainIgnoresRoot(disk, before, now, k, rank);
      }
    }
    VisitIsPlain(disk, now, key, cache, {}, rank);
  }

  /** A directory on the second root's file system, with a file one level down. */
  function TwoLevels(device: bv64): Disk {
    map[Key(device, 1) := Dir(0, true, [Sub(Key(device, 2))]), Key(device, 2) := Dir(0, true, [File(1)])]
  }

  function Level(key: Key): nat {
    if key.inode == 1 then 1 else 0
  }

  lemma FirstRootStopsShort(first: bv64, second: bv64)
    requires first != second
    ensures Visit(TwoLevels(second), Scope(true, first), Key(second, 1), map[]).cache[Key(second, 1) := 0]
            == Visit(TwoLevels(second), Scope(true, first), Key(second, 1), map[]).cache
  {
    var disk, scope, top := TwoLevels(second), Scope(true, first), Key(second, 1);
    var started := Seen(0, Opened(map[], top, 0));
    assert VisitEntry(disk, scope, Sub(Key(second, 2)), started) == started;
    assert VisitEntries(disk, scope, top, 1, started) == started;
    assert VisitEntries(disk, scope, top, 0, started) == started;
  }

  lemma TwoLevelsHoldOne(device: bv64)
    ensures Ranked(TwoLevels(device), Scope(true, device), Level)
    ensures Plain(TwoLevels(device), Scope(true, device), Key(device, 1), Level) == 1
  {
    var disk, scope, top, low := TwoLevels(device), Scope(true, device), Key(device, 1), Key(device, 2);
    assert PlainEntries(disk, scope, low, 1, Level) == 0;
    assert PlainEntry(disk, scope, File(1), 0, Level) == 1;
    assert PlainEntries(disk, scope, low, 0, Level) == 1;
    assert Plain(disk, scope, low, Level) == 1;
    assert PlainEntries(disk, scope, top, 1, Level) == 0;
    assert PlainEntry(disk, scope, Sub(low), 1, Level) == 1;
  }

  /** The cache key omits the root's device: calls for two roots are answered right on every
      disk if and only if --one-file-system is off or both roots are on the same device. */
  lemma RootsAgreeIff(oneFilesystem: bool, first: bv64, second: bv64)
    ensures RootsAgree(oneFilesystem, first, second) <==> !oneFilesystem || first == second
  {
    hide Visit, Plain, Ranked, SecondTotal;
    if !oneFilesystem || first == second {
      forall disk: Disk, rank: Key -> nat, asked: Key, key: Key |
        asked in disk && key in disk
        && Ranked(disk, Scope(oneFilesystem, first), rank) && Ranked(disk, Scope(oneFilesystem, second), rank)
        ensures SecondTotal(disk, oneFilesystem, first, asked, second, key)
                == Saturated(Plain(disk, Scope(oneFilesystem, second), key, rank))
      {
        SecondIsPlain(disk, oneFilesystem, first, asked, second, key, rank);
      }
    } else {
      TwoLevelsDisagree(first, second);
    }
  }

  lemma TwoLevelsDisagree(first: bv64, second: bv64)
    requires first != second
    ensures var disk := TwoLevels(second);
            && Key(second, 1) in disk
            && Ranked(disk, Scope(true, first), Level) && Ranked(disk, Scope(true, second), Level)
            && SecondTotal(disk, true, first, Key(second, 1), second, Key(second, 1))
               != Saturated(Plain(disk, Scope(true, second), Key(second, 1), Level))
  {
    hide Plain, VisitEntries;
    FirstRootStopsShort(first, second);
    TwoLevelsHoldOne(second);
  }
}
