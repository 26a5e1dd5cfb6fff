/**
 * The worker's disk cache (pkg/worker/cache.go) over an abstract disk: for every key a data
 * file, a metadata file and a leftover temporary file. Removals succeed; the steps of a store
 * may fail. Times are nanoseconds; one operation reads the clock once.
 */
module CacheSpec {
  import opened ByteStrings
  import opened MapSums
  import opened Options

  const STALE_TEMP_AGE := 3_600_000_000_000

  datatype Meta = Meta(createdAt: int, size: int, ttl: int)
  datatype MetaFile = Readable(meta: Meta) | Corrupt
  datatype TempFile = TempFile(size: nat, modTime: int)
  datatype Disk = Disk(data: map<string, Bytes>, meta: map<string, MetaFile>, temp: map<string, TempFile>)

  datatype Config = Config(ttl: int, maxSize: int)
  datatype Stats = Stats(hits: int, misses: int, evictions: int, currentSize: int, entryCount: int)

  /** sizes and used are the LRU index: the tracked keys with their size and last use. */
  datatype Cache = Cache(cfg: Config, disk: Disk, sizes: map<string, int>, used: map<string, int>, stats: Stats)

  const NoStats := Stats(0, 0, 0, 0, 0)
  const EmptyDisk := Disk(map[], map[], map[])

  predicate IsHex(c: char) { '0' <= c <= '9' || 'a' <= c <= 'f' }

  predicate ValidKey(key: string) { |key| == 64 && forall i :: 0 <= i < |key| ==> IsHex(key[i]) }

  function EntryTtl(cfg: Config, meta: Meta): int { if meta.ttl > 0 then meta.ttl else cfg.ttl }

  predicate Expired(cfg: Config, meta: Meta, now: int) { now - meta.createdAt > EntryTtl(cfg, meta) }

  function AtLeastZero(x: int): int { if x < 0 then 0 else x }

  function Missed(c: Cache): Cache { c.(stats := c.stats.(misses := c.stats.misses + 1)) }

  function Evicted(c: Cache): Cache { c.(stats := c.stats.(evictions := c.stats.evictions + 1)) }

  function Released(c: Cache, size: int): Cache {
    c.(stats := c.stats.(currentSize := AtLeastZero(c.stats.currentSize - size)))
  }

  /** Data and metadata are deleted, the key leaves the index, size is given back. */
  function Removed(c: Cache, key: string, size: int): Cache {
    var d := c.(disk := c.disk.(data := c.disk.data - {key}, meta := c.disk.meta - {key}),
                sizes := c.sizes - {key}, used := c.used - {key});
    var e := Released(d, size);
    e.(stats := e.stats.(entryCount := if e.stats.entryCount > 0 then e.stats.entryCount - 1 else e.stats.entryCount))
  }

  // ----- lookup

  function Checked(c: Cache, key: string, now: int): (Cache, bool) {
    if !ValidKey(key) || key !in c.disk.data || key !in c.disk.meta || c.disk.meta[key].Corrupt? then (Missed(c), false)
    else
      var meta := c.disk.meta[key].meta;
      var size := |c.disk.data[key]|;
      if Expired(c.cfg, meta, now) || size != meta.size || size == 0 then (Missed(Removed(c, key, meta.size)), false)
      else (c, true)
  }

  function Confirmed(c: Cache, key: string, now: int): Cache {
    if !ValidKey(key) then c
    else
      c.(stats := c.stats.(hits := c.stats.hits + 1), used := if key in c.used then c.used[key := now] else c.used)
  }

  // ----- store

  /** What an unfinished metadata write leaves behind: the old file, a torn one, or the new one. */
  datatype Leftover = Untouched | Torn | Written

  datatype Fault = NoFault | ShardDirFails | CopyFails | RenameFails | MetaFails(left: Leftover)

  function Tracked(c: Cache, key: string, size: int, now: int): Cache {
    var stats := if key in c.sizes then c.stats.(currentSize := c.stats.currentSize - c.sizes[key])
                 else c.stats.(entryCount := c.stats.entryCount + 1);
    c.(sizes := c.sizes[key := size], used := c.used[key := now],
       stats := stats.(currentSize := stats.currentSize + size))
  }

  function MetaAfter(files: map<string, MetaFile>, key: string, meta: Meta, left: Leftover): map<string, MetaFile> {
    match left
    case Untouched => files
    case Torn => files[key := Corrupt]
    case Written => files[key := Readable(meta)]
  }

  /** source is the file to store, or None when it cannot be read. */
  function Stored(c: Cache, key: string, source: Option<Bytes>, ttl: int, now: int, fault: Fault): (Cache, bool) {
    if !ValidKey(key) || source.None? || fault.ShardDirFails? then (c, false)
    else
      var content := source.value;
      var d := if key in c.disk.temp then Released(c, c.disk.temp[key].size) else c;
      var e := d.(disk := d.disk.(temp := d.disk.temp - {key}));
      if fault.CopyFails? || fault.RenameFails? then (e, false)
      else
        var meta := Meta(now, |content|, if ttl > 0 then ttl else 0);
        if fault.MetaFails? then
          (e.(disk := e.disk.(data := e.disk.data - {key}, meta := MetaAfter(e.disk.meta, key, meta, fault.left))), false)
        else
          var f := e.(disk := e.disk.(data := e.disk.data[key := content], meta := e.disk.meta[key := Readable(meta)]));
          (Tracked(f, key, |content|, now), true)
  }

  // ----- sweeps, scans, eviction

  /** A directory walk visits every file once. */
  ghost predicate Enumerates<V>(order: seq<string>, m: map<string, V>) {
    && (forall i, j :: 0 <= i < j < |order| ==> order[i] != order[j])
    && (forall k :: k in order <==> k in m)
  }

  predicate DueAt(c: Cache, key: string, now: int) {
    key in c.disk.meta && c.disk.meta[key].Readable? && Expired(c.cfg, c.disk.meta[key].meta, now)
  }

  function Due(c: Cache, order: seq<string>, now: int): seq<string> {
    if order == [] then []
    else
      var init, key := Due(c, order[..|order| - 1], now), order[|order| - 1];
      if DueAt(c, key, now) then init + [key] else init
  }

  function DataSize(c: Cache, key: string): nat { if key in c.disk.data then |c.disk.data[key]| else 0 }

  function SweptKey(c: Cache, key: string): Cache { Evicted(Removed(c, key, DataSize(c, key))) }

  function SweptKeys(c: Cache, keys: seq<string>): Cache {
    if keys == [] then c else SweptKey(SweptKeys(c, keys[..|keys| - 1]), keys[|keys| - 1])
  }

  predicate OldTemp(c: Cache, key: string, now: int) {
    key in c.disk.temp && c.disk.temp[key].modTime <= now - STALE_TEMP_AGE
  }

  /** The temporary files of order that are old, and the bytes they hold. */
  function OldTemps(c: Cache, order: seq<string>, now: int): (set<string>, int) {
    if order == [] then ({}, 0)
    else
      var (keys, bytes) := OldTemps(c, order[..|order| - 1], now);
      var key := order[|order| - 1];
      if OldTemp(c, key, now) then (keys + {key}, bytes + c.disk.temp[key].size) else (keys, bytes)
  }

  function SweptTemps(c: Cache, order: seq<string>, now: int): Cache {
    var (keys, bytes) := OldTemps(c, order, now);
    var d := c.(disk := c.disk.(temp := c.disk.temp - keys));
    if bytes > 0 then Released(d, bytes) else d
  }

  function Swept(c: Cache, order: seq<string>, temps: seq<string>, now: int): Cache {
    SweptTemps(SweptKeys(c, Due(c, order, now)), temps, now)
  }

  function ScannedEntry(c: Cache, key: string, now: int): Cache {
    if key !in c.disk.meta || c.disk.meta[key].Corrupt? then c
    else if key !in c.disk.data then c.(disk := c.disk.(meta := c.disk.meta - {key}))
    else
      var size := c.disk.meta[key].meta.size;
      c.(sizes := c.sizes[key := size], used := c.used[key := now],
         stats := c.stats.(currentSize := c.stats.currentSize + size, entryCount := c.stats.entryCount + 1))
  }

  function ScannedTemp(c: Cache, key: string, now: int): Cache {
    if key !in c.disk.temp then c
    else if c.disk.temp[key].modTime < now - STALE_TEMP_AGE then c.(disk := c.disk.(temp := c.disk.temp - {key}))
    else c.(stats := c.stats.(currentSize := c.stats.currentSize + c.disk.temp[key].size))
  }

  function ScannedEntries(c: Cache, order: seq<string>, now: int): Cache {
    if order == [] then c else ScannedEntry(ScannedEntries(c, order[..|order| - 1], now), order[|order| - 1], now)
  }

  function ScannedTemps(c: Cache, temps: seq<string>, now: int): Cache {
    if temps == [] then c else ScannedTemp(ScannedTemps(c, temps[..|temps| - 1], now), temps[|temps| - 1], now)
  }

  /** A cache opened on an existing disk. */
  function Opened(cfg: Config, disk: Disk, order: seq<string>, temps: seq<string>, now: int): Cache {
    ScannedTemps(ScannedEntries(Cache(cfg, disk, map[], map[], NoStats), order, now), temps, now)
  }

  function TrackedSize(c: Cache, key: string): int { if key in c.sizes then c.sizes[key] else 0 }

  function EvictOne(c: Cache, key: string): Cache { Evicted(Removed(c, key, TrackedSize(c, key))) }

  function EvictAll(c: Cache, keys: seq<string>): Cache {
    if keys == [] then c else EvictOne(EvictAll(c, keys[..|keys| - 1]), keys[|keys| - 1])
  }

  /** Over budget, and no tracked entry was used before this one. */
  ghost predicate MayEvict(c: Cache, key: string) {
    && c.stats.currentSize > c.cfg.maxSize
    && key in c.sizes && key in c.used && forall k :: k in c.used ==> c.used[key] <= c.used[k]
  }

  /** Each key of the chain was due for eviction when its turn came. */
  ghost predicate DueChain(c: Cache, keys: seq<string>) {
    keys != [] ==>
      DueChain(c, keys[..|keys| - 1]) && MayEvict(EvictAll(c, keys[..|keys| - 1]), keys[|keys| - 1])
  }

  function Cleared(c: Cache): Cache { Cache(c.cfg, EmptyDisk, map[], map[], NoStats) }
}

module Caches {
  import opened ByteStrings
  import opened CacheSpec
  import opened LruTrackers
  import opened Options

  class Cache {
    const cfg: Config
    var disk: Disk
    var lruList: LruTracker
    var stats: Stats

    ghost predicate Valid()
      reads this, lruList
    {
      lruList.Valid()
    }

    ghost function State(): CacheSpec.Cache
      reads this, lruList
      requires Valid()
    {
      CacheSpec.Cache(cfg, disk, lruList.Sizes(), lruList.Used(), stats)
    }

    constructor (cfg: Config, disk: Disk, order: seq<string>, temps: seq<string>, now: int)
      ensures Valid() && fresh(lruList) && State() == Opened(cfg, disk, order, temps, now)
    {
      this.cfg := cfg;
      this.disk := disk;
      lruList := new LruTracker();
      stats := NoStats;
      new;
      ScanExisting(order, temps, now);
    }

    /** Rebuilds the index and the accounting from the disk. */
    method ScanExisting(order: seq<string>, temps: seq<string>, now: int)
      requires Valid() && lruList.Sizes() == map[] && lruList.Used() == map[] && stats == NoStats
      modifies this, lruList
      ensures Valid() && lruList == old(lruList) && State() == Opened(cfg, old(disk), order, temps, now)
    {
      ghost var start := State();
      hide ScannedEntry, ScannedTemp;
      for i := 0 to |order|
        invariant Valid() && lruList == old(lruList) && State() == ScannedEntries(start, order[..i], now)
      {
        assert order[..i + 1][..i] == order[..i];
        ScanEntry(order[i], now);
      }
      assert order[..|order|] == order;
      ghost var entries := State();
      for i := 0 to |temps|
        invariant Valid() && lruList == old(lruList) && State() == ScannedTemps(entries, temps[..i], now)
      {
        assert temps[..i + 1][..i] == temps[..i];
        ScanTemp(temps[i], now);
      }
      assert temps[..|temps|] == temps;
    }

    method ScanEntry(key: string, now: int)
      requires Valid()
      modifies this, lruList
      ensures Valid() && lruList == old(lruList) && State() == ScannedEntry(old(State()), key, now)
    {
      if key !in disk.meta || disk.meta[key].Corrupt? { return; }
      if key !in disk.data {
        disk := disk.(meta := disk.meta - {key});
        return;
      }
      var size := disk.meta[key].meta.size;
      lruList.Add(key, size, now);
      stats := stats.(currentSize := stats.currentSize + size, entryCount := stats.entryCount + 1);
    }

    method ScanTemp(key: string, now: int)
      requires Valid()
      modifies this
      ensures Valid() && lruList == old(lruList) && State() == ScannedTemp(old(State()), key, now)
    {
      if key !in disk.temp { return; }
      if disk.temp[key].modTime < now - STALE_TEMP_AGE {
        disk := disk.(temp := disk.temp - {key});
        return;
      }
      stats := stats.(currentSize := stats.currentSize + disk.temp[key].size);
    }

    method RemoveEntry(key: string, size: int)
      requires Valid()
      modifies this, lruList
      ensures Valid() && lruList == old(lruList) && State() == Removed(old(State()), key, size)
    {
      disk := disk.(data := disk.data - {key}, meta := disk.meta - {key});
      lruList.Remove(key);
      stats := stats.(currentSize := stats.currentSize - size);
      if stats.currentSize < 0 {
        stats := stats.(currentSize := 0);
      }
      if stats.entryCount > 0 {
        stats := stats.(entryCount := stats.entryCount - 1);
      }
    }

    method Check(key: string, now: int) returns (hit: bool)
      requires Valid()
      modifies this, lruList
      ensures Valid() && lruList == old(lruList) && (State(), hit) == Checked(old(State()), key, now)
    {
      hide Removed;
      hit := false;
      if !ValidKey(key) || key !in disk.data || key !in disk.meta || disk.meta[key].Corrupt? {
        stats := stats.(misses := stats.misses + 1);
        return;
      }
      var meta := disk.meta[key].meta;
      var size := |disk.data[key]|;
      if Expired(cfg, meta, now) {
        RemoveEntry(key, meta.size);
        stats := stats.(misses := stats.misses + 1);
        return;
      }
      if size != meta.size || size == 0 {
        RemoveEntry(key, meta.size);
        stats := stats.(misses := stats.misses + 1);
        return;
      }
      hit := true;
    }

    method ConfirmHit(key: string, now: int)
      requires Valid()
      modifies this, lruList
      ensures Valid() && lruList == old(lruList) && State() == Confirmed(old(State()), key, now)
    {
      if !ValidKey(key) { return; }
      stats := stats.(hits := stats.hits + 1);
      lruList.Touch(key, now);
    }

    method Put(key: string, source: Option<Bytes>, ttl: int, now: int, fault: Fault) returns (ok: bool)
      requires Valid()
      modifies this, lruList
      ensures Valid() && lruList == old(lruList) && (State(), ok) == Stored(old(State()), key, source, ttl, now, fault)
    {
      ok := false;
      hide Tracked;
      if !ValidKey(key) || source.None? || fault.ShardDirFails? { return; }
      var content := source.value;
      if key in disk.temp {
        stats := stats.(currentSize := stats.currentSize - disk.temp[key].size);
        if stats.currentSize < 0 {
          stats := stats.(currentSize := 0);
        }
      }
      // The copy reuses the temporary file and the rename or the clean-up takes it away.
      disk := disk.(temp := disk.temp - {key});
      if fault.CopyFails? || fault.RenameFails? { return; }
      assert disk.data[key := content] - {key} == disk.data - {key};
      disk := disk.(data := disk.data[key := content]);
      var meta := Meta(now, |content|, if ttl > 0 then ttl else 0);
      if fault.MetaFails? {
        if fault.left.Torn? {
          disk := disk.(meta := disk.meta[key := Corrupt]);
        } else if fault.left.Written? {
          disk := disk.(meta := disk.meta[key := Readable(meta)]);
        }
        disk := disk.(data := disk.data - {key});
        return;
      }
      disk := disk.(meta := disk.meta[key := Readable(meta)]);
      Track(key, |content|, now);
      ok := true;
    }

    /** Re-caching a key swaps the accounted size instead of adding a second copy. */
    method Track(key: string, size: int, now: int)
      requires Valid()
      modifies this, lruList
      ensures Valid() && lruList == old(lruList) && State() == Tracked(old(State()), key, size, now)
    {
      var previous := lruList.SizeOf(key);
      if previous.Some? {
        stats := stats.(currentSize := stats.currentSize - previous.value);
      } else {
        stats := stats.(entryCount := stats.entryCount + 1);
      }
      lruList.Add(key, size, now);
      stats := stats.(currentSize := stats.currentSize + size);
    }

    method EvictExpired(order: seq<string>, temps: seq<string>, now: int)
      requires Valid()
      modifies this, lruList
      ensures Valid() && lruList == old(lruList) && State() == Swept(old(State()), order, temps, now)
    {
      hide *;
      SweptParts(order, temps, now);
      var expiredKeys := CollectDue(order, now);
      RemoveDue(expiredKeys);
      ReclaimTemps(temps, now);
    }

    lemma SweptParts(order: seq<string>, temps: seq<string>, now: int)
      requires Valid()
      ensures Swept(State(), order, temps, now) == SweptTemps(SweptKeys(State(), Due(State(), order, now)), temps, now)
    {
    }

    method CollectDue(order: seq<string>, now: int) returns (expiredKeys: seq<string>)
      requires Valid()
      ensures expiredKeys == Due(State(), order, now)
    {
      hide DueAt;
      expiredKeys := [];
      for i := 0 to |order|
        invariant expiredKeys == Due(State(), order[..i], now)
      {
        assert order[..i + 1][..i] == order[..i];
        var due := IsDue(order[i], now);
        if due {
          expiredKeys := expiredKeys + [order[i]];
        }
      }
      assert order[..|order|] == order;
    }

    method RemoveDue(expiredKeys: seq<string>)
      requires Valid()
      modifies this, lruList
      ensures Valid() && lruList == old(lruList) && State() == SweptKeys(old(State()), expiredKeys)
    {
      ghost var start := State();
      hide Removed;
      for i := 0 to |expiredKeys|
        invariant Valid() && lruList == old(lruList) && State() == SweptKeys(start, expiredKeys[..i])
      {
        assert expiredKeys[..i + 1][..i] == expiredKeys[..i];
        var key := expiredKeys[i];
        RemoveEntry(key, if key in disk.data then |disk.data[key]| else 0);
        stats := stats.(evictions := stats.evictions + 1);
      }
      assert expiredKeys[..|expiredKeys|] == expiredKeys;
    }

    method IsDue(key: string, now: int) returns (due: bool)
      requires Valid()
      ensures due == DueAt(State(), key, now)
    {
      due := key in disk.meta && disk.meta[key].Readable? && Expired(cfg, disk.meta[key].meta, now);
    }

    method ReclaimTemps(temps: seq<string>, now: int)
      requires Valid()
      modifies this
      ensures Valid() && lruList == old(lruList) && State() == SweptTemps(old(State()), temps, now)
    {
      var stale: set<string>, reclaimed := {}, 0;
      for i := 0 to |temps|
        invariant Valid() && lruList == old(lruList) && State() == old(State())
        invariant (stale, reclaimed) == OldTemps(State(), temps[..i], now)
      {
        assert temps[..i + 1][..i] == temps[..i];
        var key := temps[i];
        if key in disk.temp && disk.temp[key].modTime <= now - STALE_TEMP_AGE {
          stale := stale + {key};
          reclaimed := reclaimed + disk.temp[key].size;
        }
      }
      assert temps[..|temps|] == temps;
      disk := disk.(temp := disk.temp - stale);
      if reclaimed > 0 {
        stats := stats.(currentSize := stats.currentSize - reclaimed);
        if stats.currentSize < 0 {
          stats := stats.(currentSize := 0);
        }
      }
    }

    /** Evicts until the cache is within budget or nothing is tracked; the ghost result lists the
        evicted keys in order. */
    method EvictLRUIfNeeded() returns (ghost keys: seq<string>)
      requires Valid()
      modifies this, lruList
      ensures Valid() && lruList == old(lruList)
      ensures DueChain(old(State()), keys) && State() == EvictAll(old(State()), keys)
      ensures stats.currentSize <= cfg.maxSize || State().sizes == map[]
    {
      keys := [];
      ghost var start := State();
      hide EvictOne;
      while stats.currentSize > cfg.maxSize
        invariant Valid() && lruList == old(lruList)
        invariant DueChain(start, keys) && State() == EvictAll(start, keys)
        decreases State().sizes.Keys
      {
        var lru := lruList.GetLRU();
        SameKeys();
        if lru.None? { return; }
        var key := lru.value.key;
        assert (keys + [key])[..|keys|] == keys;
        assert MayEvict(State(), key);
        EvictEntry(key, lru.value.size);
        keys := keys + [key];
      }
    }

    lemma SameKeys()
      requires Valid()
      ensures State().sizes.Keys == State().used.Keys
    {
    }

    method EvictEntry(key: string, size: int)
      requires Valid() && key in State().sizes && State().sizes[key] == size
      modifies this, lruList
      ensures Valid() && lruList == old(lruList) && State() == EvictOne(old(State()), key)
      ensures State().sizes == old(State().sizes) - {key}
    {
      RemoveEntry(key, size);
      stats := stats.(evictions := stats.evictions + 1);
    }

    method Clear()
      requires Valid()
      modifies this
      ensures Valid() && fresh(lruList) && State() == Cleared(old(State()))
    {
      disk := EmptyDisk;
      lruList := new LruTracker();
      stats := NoStats;
    }
  }
}
