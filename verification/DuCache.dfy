/** The size cache of ltree as it is stored: chained buckets of entries that are updated in
    place, and the recursive directory_total that fills it. */
module DuCache {
  import opened Options
  import opened DuTotals

  const SIZE_CACHE_BUCKETS := 4099

  class CacheItem {
    const key: Key
    var size: Uint

    constructor (key: Key, size: Uint)
      ensures this.key == key && this.size == size
    {
      this.key := key;
      this.size := size;
    }
  }

  /** The product and the exclusive or of size_cache_bucket, in 64-bit arithmetic. */
  function Mixed(key: Key): nat {
    ((key.device * 11400714819323198485) ^ key.inode) as nat
  }

  function Slot(mixed: nat): (b: nat)
    ensures b < SIZE_CACHE_BUCKETS
  {
    mixed % SIZE_CACHE_BUCKETS
  }

  /** size_cache_bucket */
  function Bucket(key: Key): (b: nat)
    ensures b < SIZE_CACHE_BUCKETS
  {
    Slot(Mixed(key))
  }

  class SizeCache {
    const buckets: array<seq<CacheItem>>
    ghost var items: set<CacheItem>
    ghost var contents: Cache

    /** The items are those in the buckets, each in its own. */
    ghost predicate Filed()
      reads this`items, buckets
    {
      && buckets.Length == SIZE_CACHE_BUCKETS
      && (forall b, i :: 0 <= b < buckets.Length && 0 <= i < |buckets[b]| ==>
            buckets[b][i] in items && Bucket(buckets[b][i].key) == b)
      && (forall it :: it in items ==> it in buckets[Bucket(it.key)])
    }

    /** Their keys are those of contents, without repetition. */
    ghost predicate Listed()
      reads this, items
    {
      && (forall it :: it in items ==> it.key in contents && contents[it.key] == it.size)
      && (forall it, other :: it in items && other in items && it.key == other.key ==> it == other)
      && (forall key :: key in contents ==> exists it :: it in items && it.key == key)
    }

    ghost predicate Valid()
      reads this, buckets, items
    {
      Filed() && Listed()
    }

    constructor ()
      ensures Valid() && contents == map[] && fresh(buckets)
    {
      buckets := new seq<CacheItem>[SIZE_CACHE_BUCKETS](_ => []);
      items := {};
      contents := map[];
    }

    /** size_cache_find */
    method Find(key: Key) returns (found: Option<CacheItem>)
      requires Valid()
      ensures found.Some? <==> key in contents
      ensures found.Some? ==> found.value in items && found.value.key == key && found.value.size == contents[key]
    {
      hide Bucket;
      var chain := buckets[Bucket(key)];
      for i := 0 to |chain|
        invariant forall j :: 0 <= j < i ==> chain[j].key != key
      {
        if chain[i].key == key {
          return Some(chain[i]);
        }
      }
      assert forall it :: it in items && it.key == key ==> it in chain;
      found := None;
    }

    /** size_cache_store, for a key that is not in the cache */
    method Store(key: Key, size: Uint) returns (item: CacheItem)
      requires Valid() && key !in contents
      modifies this, buckets
      ensures Valid() && contents == Opened(old(contents), key, size)
      ensures items == old(items) + {item} && item.key == key && fresh(item)
    {
      hide Filed;
      item := new CacheItem(key, size);
      File(item);
      contents := contents[key := size];
      assert item in items;
    }

    /** The new item becomes the head of its chain. */
    method File(item: CacheItem)
      requires Filed() && item !in items
      modifies this`items, buckets
      ensures Filed() && items == old(items) + {item}
    {
      hide Bucket;
      var bucket := Bucket(item.key);
      buckets[bucket] := [item] + buckets[bucket];
      items := items + {item};
      assert buckets[bucket][0] == item;
      assert forall i :: 0 <= i < |old(buckets[bucket])| ==> buckets[bucket][i + 1] == old(buckets[bucket][i]);
    }

    /** cached->size = total */
    method Finish(item: CacheItem, total: Uint)
      requires Valid() && item in items
      modifies this, item
      ensures Valid() && contents == old(contents)[item.key := total] && items == old(items)
    {
      hide Bucket;
      item.size := total;
      contents := contents[item.key := total];
    }
  }

  /** directory_total */
  method DirectoryTotal(disk: Disk, scope: Scope, key: Key, cache: SizeCache) returns (total: Uint)
    requires cache.Valid()
    modifies cache, cache.buckets, cache.items
    ensures cache.Valid() && old(cache.items) <= cache.items && fresh(cache.items - old(cache.items))
    ensures Seen(total, cache.contents) == Visit(disk, scope, key, old(cache.contents))
    decreases Missing(disk, cache.contents), 0
  {
    hide Missing, VisitEntries, cache.Valid;
    if key !in disk { return 0; }
    var found := cache.Find(key);
    if found.Some? { return found.value.size; }
    ghost var before := cache.contents;
    total := StatSize(disk[key].size);
    Shrinks(disk, before, key, total);
    var item := cache.Store(key, total);
    if !disk[key].readable { return; }
    total := EntriesTotal(disk, scope, key, total, cache);
    cache.Finish(item, total);
  }

  /** Its loop over the directory's entries, after the directory's own size. */
  method EntriesTotal(disk: Disk, scope: Scope, dir: Key, own: Uint, cache: SizeCache) returns (total: Uint)
    requires cache.Valid() && dir in disk
    modifies cache, cache.buckets, cache.items
    ensures cache.Valid() && old(cache.items) <= cache.items && fresh(cache.items - old(cache.items))
    ensures Seen(total, cache.contents) == VisitEntries(disk, scope, dir, 0, Seen(own, old(cache.contents)))
    decreases Missing(disk, cache.contents), 2
  {
    hide Missing, VisitEntry, cache.Valid;
    ghost var start := cache.contents;
    total := own;
    for n := 0 to |disk[dir].entries|
      invariant cache.Valid() && old(cache.items) <= cache.items && fresh(cache.items - old(cache.items))
      invariant VisitEntries(disk, scope, dir, n, Seen(total, cache.contents))
             == VisitEntries(disk, scope, dir, 0, Seen(own, start))
      invariant start.Keys <= cache.contents.Keys
    {
      NeverGrows(disk, start, cache.contents);
      total := AddEntry(disk, scope, disk[dir].entries[n], total, cache);
    }
  }

  /** One turn of that loop. */
  method AddEntry(disk: Disk, scope: Scope, e: Entry, sum: Uint, cache: SizeCache) returns (total: Uint)
    requires cache.Valid()
    modifies cache, cache.buckets, cache.items
    ensures cache.Valid() && old(cache.items) <= cache.items && fresh(cache.items - old(cache.items))
    ensures Seen(total, cache.contents) == VisitEntry(disk, scope, e, Seen(sum, old(cache.contents)))
    decreases Missing(disk, cache.contents), 1
  {
    match e
    case Gone => total := sum;
    case File(size) => total := AddSize(sum, StatSize(size));
    case Sub(key) =>
      if key !in disk { return sum; }
      var childSize := StatSize(disk[key].size);
      if Follows(disk, scope, key) {
        childSize := DirectoryTotal(disk, scope, key, cache);
      }
      total := AddSize(sum, childSize);
  }
}
