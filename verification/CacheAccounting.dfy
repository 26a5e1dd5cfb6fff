/**
 * What the counters of the worker cache add up to, over whole runs.
 */
module CacheAccounting {
  import opened ByteStrings
  import opened CacheRuns
  import opened CacheSpec
  import opened MapSums
  import opened Options

  ghost function TempSizes(temp: map<string, TempFile>): map<string, int> { map k | k in temp :: temp[k].size }

  ghost predicate Natural(d: Disk) { forall k :: k in d.meta && d.meta[k].Readable? ==> d.meta[k].meta.size >= 0 }

  /** The index covers every entry that has data and readable metadata. */
  ghost predicate Tracking(c: Cache) {
    && Natural(c.disk)
    && c.used.Keys == c.sizes.Keys
    && (forall k :: k in c.sizes ==> c.sizes[k] >= 0)
    && (forall k :: k in c.disk.data && k in c.disk.meta && c.disk.meta[k].Readable? ==>
          k in c.sizes && c.sizes[k] == c.disk.meta[k].meta.size)
  }

  ghost predicate Balanced(c: Cache, leaked: int) {
    leaked >= 0 && c.stats.currentSize == Sum(c.sizes) + Sum(TempSizes(c.disk.temp)) + leaked
  }

  ghost predicate Sized(c: Cache, leaked: int) { Tracking(c) && Balanced(c, leaked) }

  /** The entry count is short by miscount. */
  ghost predicate Counted(c: Cache, miscount: int) {
    0 <= miscount <= |c.sizes| && c.stats.entryCount == |c.sizes| - miscount
  }

  // ----- the size

  lemma TempsNonNegative(temp: map<string, TempFile>)
    ensures Sum(TempSizes(temp)) >= 0
  {
    SumNonNegative(TempSizes(temp));
  }

  lemma TempRemoved(temp: map<string, TempFile>, key: string)
    requires key in temp
    ensures Sum(TempSizes(temp)) == temp[key].size + Sum(TempSizes(temp - {key}))
  {
    hide Sum;
    SumRemove(TempSizes(temp), key);
    assert TempSizes(temp - {key}) == TempSizes(temp) - {key};
  }

  lemma RemoveFromIndex(m: map<string, int>, k: string)
    requires k in m
    ensures |m - {k}| == |m| - 1 && Sum(m) == m[k] + Sum(m - {k})
  {
    SumRemove(m, k);
    assert (m - {k}).Keys == m.Keys - {k};
    assert |(m - {k}).Keys| == |m.Keys| - 1;
  }

  lemma PutInIndex(m: map<string, int>, k: string, v: int)
    ensures |m[k := v]| == (if k in m then |m| else |m| + 1)
    ensures Sum(m[k := v]) == Sum(m) - (if k in m then m[k] else 0) + v
  {
    hide Sum;
    SumUpdate(m, k, v);
    if k in m {
      SumRemove(m, k);
      assert m[k := v].Keys == m.Keys;
    } else {
      SumAbsent(m, k);
      assert m[k := v].Keys == m.Keys + {k};
    }
    assert |m[k := v].Keys| == |m[k := v]| && |m.Keys| == |m|;
  }

  lemma RemoveKeepsTracking(c: Cache, key: string, size: int)
    requires Tracking(c)
    ensures Tracking(Removed(c, key, size))
  {
  }

  /** Removing an entry gives back size bytes, never cut off at zero; what the entry held beyond
      them leaks. */
  lemma RemoveIsSized(c: Cache, leaked: int, key: string, size: int)
    requires Sized(c, leaked) && 0 <= size <= TrackedSize(c, key)
    ensures Sized(Removed(c, key, size), leaked + TrackedSize(c, key) - size)
    ensures Removed(c, key, size).stats.currentSize == c.stats.currentSize - size
  {
    RemoveKeepsTracking(c, key, size);
    hide Sum, TempSizes;
    TempsNonNegative(c.disk.temp);
    SumNonNegative(c.sizes - {key});
    if key in c.sizes {
      RemoveFromIndex(c.sizes, key);
    } else {
      SumAbsent(c.sizes, key);
    }
  }

  lemma LookupIsSized(c: Cache, leaked: int, key: string, now: int)
    requires Sized(c, leaked)
    ensures Sized(Checked(c, key, now).0, leaked)
  {
    hide ValidKey, Removed, Sum, TempSizes;
    if key in c.disk.data && key in c.disk.meta && c.disk.meta[key].Readable? {
      RemoveIsSized(c, leaked, key, c.disk.meta[key].meta.size);
    }
  }

  lemma ReleaseTemp(c: Cache, leaked: int, key: string)
    requires Sized(c, leaked)
    ensures
      var d := if key in c.disk.temp then Released(c, c.disk.temp[key].size) else c;
      Sized(d.(disk := d.disk.(temp := d.disk.temp - {key})), leaked)
  {
    hide Sum, TempSizes;
    if key in c.disk.temp {
      SumNonNegative(c.sizes);
      TempRemoved(c.disk.temp, key);
      TempsNonNegative(c.disk.temp - {key});
    } else {
      assert c.disk.temp - {key} == c.disk.temp;
    }
  }

  lemma TrackIsSized(c: Cache, leaked: int, key: string, content: Bytes, now: int, meta: Meta)
    requires Sized(c, leaked) && meta.size == |content|
    ensures
      var f := c.(disk := c.disk.(data := c.disk.data[key := content], meta := c.disk.meta[key := Readable(meta)]));
      Sized(Tracked(f, key, |content|, now), leaked)
  {
    hide Sum, TempSizes;
    PutInIndex(c.sizes, key, |content|);
  }

  lemma DropIsSized(c: Cache, leaked: int, key: string, meta: Meta, left: Leftover)
    requires Sized(c, leaked) && meta.size >= 0
    ensures Sized(c.(disk := c.disk.(data := c.disk.data - {key}, meta := MetaAfter(c.disk.meta, key, meta, left))), leaked)
  {
    hide Sum, TempSizes;
  }

  /** A store that fails at whatever step, however its metadata write ends, keeps the size. */
  lemma PutIsSized(c: Cache, leaked: int, key: string, source: Option<Bytes>, ttl: int, now: int, fault: Fault)
    requires Sized(c, leaked)
    ensures Sized(Stored(c, key, source, ttl, now, fault).0, leaked)
  {
    hide Sum, ValidKey, Tracked, Released, Sized, MetaAfter;
    ReleaseTemp(c, leaked, key);
    var d := if key in c.disk.temp then Released(c, c.disk.temp[key].size) else c;
    var e := d.(disk := d.disk.(temp := d.disk.temp - {key}));
    if source.Some? {
      var content := source.value;
      var meta := Meta(now, |content|, if ttl > 0 then ttl else 0);
      TrackIsSized(e, leaked, key, content, now, meta);
      if fault.MetaFails? {
        DropIsSized(e, leaked, key, meta, fault.left);
      }
    }
  }

  /** The entry's data is longer than tracked, and something else is counted: giving the data's bytes
      back takes away bytes of others. */
  predicate FallsShort(c: Cache, key: string) {
    DataSize(c, key) > TrackedSize(c, key) && c.stats.currentSize > TrackedSize(c, key)
  }

  /** Sweeping an entry keeps the size balanced exactly when it does not fall short. */
  lemma SweepBalancesExactly(c: Cache, leaked: int, key: string)
    requires Sized(c, leaked) && key in c.disk.meta && c.disk.meta[key].Readable?
    ensures Tracking(SweptKey(c, key))
    ensures Balanced(SweptKey(c, key), leaked + Leak(c, key)) <==> !FallsShort(c, key)
  {
    RemoveKeepsTracking(c, key, DataSize(c, key));
    OnlyStats(Removed(c, key, DataSize(c, key)), SweptKey(c, key));
    hide Sum, TempSizes;
    TempsNonNegative(c.disk.temp);
    SumNonNegative(c.sizes - {key});
    if key in c.sizes {
      RemoveFromIndex(c.sizes, key);
    } else {
      SumAbsent(c.sizes, key);
    }
  }

  // ----- sweeps and evictions

  ghost predicate Distinct(keys: seq<string>) {
    forall i, j :: 0 <= i < j < |keys| ==> keys[i] != keys[j]
  }

  /** Sweeping some keys leaves the files of every other key alone. */
  lemma {:induction false} SweptKeysFrame(c: Cache, keys: seq<string>, k: string)
    requires k !in keys
    ensures
      var d := SweptKeys(c, keys).disk;
      && (k in d.meta <==> k in c.disk.meta) && (k in d.meta ==> d.meta[k] == c.disk.meta[k])
      && (k in d.data <==> k in c.disk.data) && (k in d.data ==> d.data[k] == c.disk.data[k])
    ensures SweptKeys(c, keys).disk.temp == c.disk.temp
  {
    if keys != [] {
      var init := keys[..|keys| - 1];
      assert k !in init && k != keys[|keys| - 1];
      SweptKeysFrame(c, init, k);
    }
  }

  ghost predicate AllReadable(d: Disk, keys: seq<string>) {
    forall i :: 0 <= i < |keys| ==> keys[i] in d.meta && d.meta[keys[i]].Readable?
  }

  lemma AllButLast(d: Disk, keys: seq<string>)
    requires keys != [] && Distinct(keys) && AllReadable(d, keys)
    ensures
      var init, key := keys[..|keys| - 1], keys[|keys| - 1];
      && Distinct(init) && AllReadable(d, init)
      && key !in init && key in d.meta && d.meta[key].Readable?
  {
  }

  /** No entry falls short when its turn comes. */
  ghost predicate FairSweep(c: Cache, keys: seq<string>) {
    keys != [] ==>
      && FairSweep(c, keys[..|keys| - 1])
      && !FallsShort(SweptKeys(c, keys[..|keys| - 1]), keys[|keys| - 1])
  }

  /** The size is balanced after every entry of the sweep. */
  ghost predicate BalancedSweep(c: Cache, leaked: int, keys: seq<string>) {
    && Balanced(SweptKeys(c, keys), leaked + Leaks(c, keys))
    && (keys != [] ==> BalancedSweep(c, leaked, keys[..|keys| - 1]))
  }

  lemma {:induction false} SweptKeysBalanceExactly(c: Cache, leaked: int, keys: seq<string>)
    requires Sized(c, leaked) && Distinct(keys) && AllReadable(c.disk, keys)
    ensures Tracking(SweptKeys(c, keys))
    ensures BalancedSweep(c, leaked, keys) <==> FairSweep(c, keys)
    ensures FairSweep(c, keys) ==> Balanced(SweptKeys(c, keys), leaked + Leaks(c, keys))
  {
    hide SweptKey, Leak, Tracking, Balanced, Distinct, AllReadable, FallsShort;
    if keys != [] {
      var init, key := keys[..|keys| - 1], keys[|keys| - 1];
      AllButLast(c.disk, keys);
      SweptKeysBalanceExactly(c, leaked, init);
      SweptKeysFrame(c, init, key);
      if FairSweep(c, init) {
        SweepBalancesExactly(SweptKeys(c, init), leaked + Leaks(c, init), key);
      } else {
        SweptKeysKeepTracking(c, keys);
      }
    }
  }

  lemma {:induction false} DueKeys(c: Cache, order: seq<string>, now: int)
    requires Distinct(order)
    ensures Distinct(Due(c, order, now)) && AllReadable(c.disk, Due(c, order, now))
    ensures forall k :: k in Due(c, order, now) ==> k in order
  {
    if order != [] {
      var init := order[..|order| - 1];
      DueKeys(c, init, now);
      assert forall k :: k in init ==> k in order;
      assert order[|order| - 1] !in init;
    }
  }

  ghost predicate TempsLeft(c: Cache, keys: set<string>, bytes: int) {
    && keys <= c.disk.temp.Keys && bytes >= 0
    && Sum(TempSizes(c.disk.temp)) == Sum(TempSizes(c.disk.temp - keys)) + bytes
  }

  lemma {:induction false} OldTempsSum(c: Cache, order: seq<string>, now: int)
    requires Distinct(order)
    ensures TempsLeft(c, OldTemps(c, order, now).0, OldTemps(c, order, now).1)
    ensures forall k :: k in OldTemps(c, order, now).0 ==> k in order
  {
    hide Sum;
    if order == [] {
      assert c.disk.temp - {} == c.disk.temp;
    } else {
      var init, key := order[..|order| - 1], order[|order| - 1];
      OldTempsSum(c, init, now);
      assert key !in init;
      var (keys, bytes) := OldTemps(c, init, now);
      if OldTemp(c, key, now) {
        var left := c.disk.temp - keys;
        TempRemoved(left, key);
        assert c.disk.temp - (keys + {key}) == left - {key};
      }
    }
  }

  lemma FewerTempsAreSized(c: Cache, leaked: int, temp: map<string, TempFile>, bytes: int)
    requires Sized(c, leaked) && bytes >= 0
    requires Sum(TempSizes(c.disk.temp)) == Sum(TempSizes(temp)) + bytes
    ensures
      var d := c.(disk := c.disk.(temp := temp));
      Sized(Released(d, bytes), leaked) && (bytes == 0 ==> Sized(d, leaked))
  {
    TempsNonNegative(temp);
    SumNonNegative(c.sizes);
    hide Sum, TempSizes;
  }

  lemma SweptTempsAreSized(c: Cache, leaked: int, temps: seq<string>, now: int)
    requires Sized(c, leaked) && Distinct(temps)
    ensures Sized(SweptTemps(c, temps, now), leaked)
  {
    hide Sum, OldTemps, TempSizes, Sized, Released;
    OldTempsSum(c, temps, now);
    var (keys, bytes) := OldTemps(c, temps, now);
    FewerTempsAreSized(c, leaked, c.disk.temp - keys, bytes);
  }

  lemma SweepIsSized(c: Cache, leaked: int, order: seq<string>, temps: seq<string>, now: int)
    requires Sized(c, leaked) && Distinct(order) && Distinct(temps)
    ensures BalancedSweep(c, leaked, Due(c, order, now)) <==> FairSweep(c, Due(c, order, now))
    ensures FairSweep(c, Due(c, order, now)) ==> Sized(Swept(c, order, temps, now), leaked + Leaks(c, Due(c, order, now)))
  {
    hide Sum, Tracking, Balanced, SweptTemps, Due, SweptKeys, Leaks, BalancedSweep, FairSweep;
    var keys := Due(c, order, now);
    DueKeys(c, order, now);
    SweptKeysBalanceExactly(c, leaked, keys);
    if FairSweep(c, keys) {
      SweptTempsAreSized(SweptKeys(c, keys), leaked + Leaks(c, keys), temps, now);
    }
  }

  lemma {:induction false} EvictionIsSized(c: Cache, leaked: int, keys: seq<string>)
    requires Sized(c, leaked)
    ensures DueChain(c, keys) ==> Sized(EvictAll(c, keys), leaked)
  {
    hide Sized;
    if keys != [] && DueChain(c, keys) {
      var init, key := keys[..|keys| - 1], keys[|keys| - 1];
      EvictionIsSized(c, leaked, init);
      assert MayEvict(EvictAll(c, init), key);
      EvictOneIsSized(EvictAll(c, init), leaked, key);
    }
  }

  lemma EvictOneIsSized(c: Cache, leaked: int, key: string)
    requires Sized(c, leaked) && key in c.sizes
    ensures Sized(EvictOne(c, key), leaked)
  {
    hide Sum, TempSizes, Removed;
    RemoveIsSized(c, leaked, key, c.sizes[key]);
  }

  // ----- opening

  /** Half-way through a scan: the index covers the entries before the cut. */
  ghost predicate ScanIndex(d: Cache, disk: Disk, done: seq<string>) {
    && d.used.Keys == d.sizes.Keys && d.disk.data == disk.data && d.disk.temp == disk.temp
    && (forall k :: k in d.sizes ==> k in done && d.sizes[k] >= 0)
    && (forall k :: k in done && k in d.disk.meta && d.disk.meta[k].Readable? ==>
          k in d.sizes && d.sizes[k] == d.disk.meta[k].meta.size)
    && (forall k :: k in d.disk.meta ==> k in disk.meta && d.disk.meta[k] == disk.meta[k])
    && (forall k :: k in disk.meta && k !in done ==> k in d.disk.meta)
  }

  ghost predicate Scanning(d: Cache, disk: Disk, done: seq<string>) {
    && ScanIndex(d, disk, done)
    && d.stats.entryCount == |d.sizes| && d.stats.currentSize == Sum(d.sizes)
  }

  lemma ScanIndexGrows(d: Cache, disk: Disk, done: seq<string>, key: string, now: int)
    requires ScanIndex(d, disk, done) && key !in done && Natural(disk)
    ensures ScanIndex(ScannedEntry(d, key, now), disk, done + [key])
    ensures key !in d.sizes
  {
  }

  lemma ScanOne(d: Cache, disk: Disk, done: seq<string>, key: string, now: int)
    requires Scanning(d, disk, done) && key !in done && Natural(disk)
    ensures Scanning(ScannedEntry(d, key, now), disk, done + [key])
  {
    hide Sum, ScanIndex, Natural;
    ScanIndexGrows(d, disk, done, key, now);
    if key in d.disk.meta && d.disk.meta[key].Readable? {
      PutInIndex(d.sizes, key, d.disk.meta[key].meta.size);
    }
  }

  lemma {:induction false} ScanAll(c: Cache, order: seq<string>, now: int)
    requires Scanning(c, c.disk, []) && Distinct(order) && Natural(c.disk)
    ensures Scanning(ScannedEntries(c, order, now), c.disk, order)
  {
    hide Scanning, Natural;
    if order != [] {
      var init, key := order[..|order| - 1], order[|order| - 1];
      assert key !in init;
      ScanAll(c, init, now);
      ScanOne(ScannedEntries(c, init, now), c.disk, init, key, now);
      assert order == init + [key];
    }
  }

  /** The temporary files a scan has not reached yet. */
  ghost function Unscanned(d: Disk, done: seq<string>): map<string, int> {
    map k | k in d.temp && k !in done :: d.temp[k].size
  }

  /** Half-way through the temporary files: what is still to be added closes the gap. */
  ghost predicate AddingTemps(d: Cache, c: Cache, done: seq<string>) {
    && d.sizes == c.sizes && d.used == c.used && d.disk.meta == c.disk.meta && d.disk.data == c.disk.data
    && d.stats.entryCount == c.stats.entryCount
    && (forall k :: k in d.disk.temp ==> k in c.disk.temp)
    && d.stats.currentSize + Sum(Unscanned(d.disk, done)) == c.stats.currentSize + Sum(TempSizes(d.disk.temp))
  }

  lemma AddTemp(d: Cache, c: Cache, done: seq<string>, key: string, now: int)
    requires AddingTemps(d, c, done) && key !in done
    ensures AddingTemps(ScannedTemp(d, key, now), c, done + [key])
  {
    hide Sum;
    var e := ScannedTemp(d, key, now);
    if key in d.disk.temp {
      SumRemove(Unscanned(d.disk, done), key);
      assert Unscanned(e.disk, done + [key]) == Unscanned(d.disk, done) - {key};
      if e.disk != d.disk {
        TempRemoved(d.disk.temp, key);
      }
    } else {
      assert Unscanned(e.disk, done + [key]) == Unscanned(d.disk, done);
    }
  }

  lemma {:induction false} AddTemps(c: Cache, temps: seq<string>, now: int)
    requires Distinct(temps)
    ensures AddingTemps(ScannedTemps(c, temps, now), c, temps)
  {
    hide AddingTemps;
    if temps == [] {
      NoTempsYet(c);
    } else {
      var init, key := temps[..|temps| - 1], temps[|temps| - 1];
      assert key !in init;
      AddTemps(c, init, now);
      AddTemp(ScannedTemps(c, init, now), c, init, key, now);
      assert temps == init + [key];
    }
  }

  lemma NoTempsYet(c: Cache)
    ensures AddingTemps(c, c, [])
  {
    hide Sum;
    assert Unscanned(c.disk, []) == TempSizes(c.disk.temp);
  }

  lemma NothingSums()
    ensures Sum(map[]) == 0
  {
  }

  /** A cache opened on whatever disk a process finds starts with right counters. */
  lemma OpenedIsRight(cfg: Config, disk: Disk, order: seq<string>, temps: seq<string>, now: int)
    requires Enumerates(order, disk.meta) && Enumerates(temps, disk.temp) && Natural(disk)
    ensures
      var c := Opened(cfg, disk, order, temps, now);
      && Tracking(c) && Balanced(c, 0) && Counted(c, 0)
      && (forall k :: k in c.disk.meta && c.disk.meta[k].Readable? ==> k in c.sizes)
  {
    var c := Cache(cfg, disk, map[], map[], NoStats);
    assert Scanning(c, disk, []);
    hide Sum, ScannedEntries, ScannedTemps, TempSizes;
    ScanAll(c, order, now);
    var d := ScannedEntries(c, order, now);
    AddTemps(d, temps, now);
    var e := ScannedTemps(d, temps, now);
    assert Unscanned(e.disk, temps) == map[];
    NothingSums();
  }

  // ----- the index over runs

  lemma {:induction false} SweptKeysKeepTracking(c: Cache, keys: seq<string>)
    requires Tracking(c)
    ensures Tracking(SweptKeys(c, keys))
  {
    hide Tracking, Removed;
    if keys != [] {
      var d := SweptKeys(c, keys[..|keys| - 1]);
      SweptKeysKeepTracking(c, keys[..|keys| - 1]);
      RemoveKeepsTracking(d, keys[|keys| - 1], DataSize(d, keys[|keys| - 1]));
      OnlyStats(Removed(d, keys[|keys| - 1], DataSize(d, keys[|keys| - 1])), SweptKeys(c, keys));
    }
  }

  lemma {:induction false} EvictAllKeepsTracking(c: Cache, keys: seq<string>)
    requires Tracking(c)
    ensures Tracking(EvictAll(c, keys))
  {
    hide Tracking, Removed;
    if keys != [] {
      var d, key := EvictAll(c, keys[..|keys| - 1]), keys[|keys| - 1];
      EvictAllKeepsTracking(c, keys[..|keys| - 1]);
      RemoveKeepsTracking(d, key, TrackedSize(d, key));
      OnlyStats(Removed(d, key, TrackedSize(d, key)), EvictAll(c, keys));
    }
  }

  lemma OnlyStats(c: Cache, d: Cache)
    requires Tracking(c) && d == c.(stats := d.stats)
    ensures Tracking(d)
  {
  }

  lemma PutKeepsTracking(c: Cache, key: string, source: Option<Bytes>, ttl: int, now: int, fault: Fault)
    requires Tracking(c)
    ensures Tracking(Stored(c, key, source, ttl, now, fault).0)
  {
    hide ValidKey, AtLeastZero;
  }

  lemma InterruptedIsNatural(d: Disk, key: string, content: Bytes, ttl: int, at: int, left: Leftover)
    requires Natural(d)
    ensures Natural(Interrupted(d, key, content, ttl, at, left))
  {
  }

  lemma StepKeepsTracking(c: Cache, e: Event)
    requires Tracking(c) && Possible(c, e)
    ensures Tracking(CacheStep(c, e))
  {
    hide ValidKey, Stored, SweptKeys, EvictAll, Opened, Due, OldTemps, Enumerates, Interrupted, DueChain;
    if Opens(e) {
      if e.CrashAfterRename? {
        InterruptedIsNatural(c.disk, e.key, e.content, e.ttl, e.at, e.left);
      }
      OpenedIsRight(c.cfg, Found(c, e), e.order, e.temps, e.now);
    } else if e.Put? {
      PutKeepsTracking(c, e.key, e.source, e.ttl, e.now, e.fault);
    } else if e.Lookup? {
      RemoveKeepsTracking(c, e.key, if e.key in c.disk.meta && c.disk.meta[e.key].Readable? then c.disk.meta[e.key].meta.size else 0);
    } else if e.Sweep? {
      SweptKeysKeepTracking(c, Due(c, e.order, e.now));
    } else if e.Evict? {
      EvictAllKeepsTracking(c, e.keys);
    }
  }

  // ----- the count

  /** A removal lowers the count of a right cache by one, tracked or not, as far as there is any. */
  lemma RemoveIsCounted(c: Cache, miscount: int, key: string, size: int)
    requires Counted(c, miscount)
    ensures
      var d := Removed(c, key, size);
      Counted(d, Min(miscount + (if key in c.sizes then 0 else 1), |d.sizes|))
  {
    if key in c.sizes {
      RemoveFromIndex(c.sizes, key);
    } else {
      SumAbsent(c.sizes, key);
    }
  }

  lemma {:induction false} SweptKeysKeepIndex(c: Cache, keys: seq<string>, k: string)
    ensures k in SweptKeys(c, keys).sizes <==> k in c.sizes && k !in keys
  {
    if keys != [] {
      SweptKeysKeepIndex(c, keys[..|keys| - 1], k);
      assert keys == keys[..|keys| - 1] + [keys[|keys| - 1]];
    }
  }

  lemma {:induction false} SweptKeysAreCounted(c: Cache, miscount: int, keys: seq<string>)
    requires Counted(c, miscount) && Distinct(keys)
    ensures
      var d := SweptKeys(c, keys);
      Counted(d, Min(miscount + Untracked(c, keys), |d.sizes|))
  {
    hide Removed;
    if keys != [] {
      var init, key := keys[..|keys| - 1], keys[|keys| - 1];
      var d := SweptKeys(c, init);
      SweptKeysAreCounted(c, miscount, init);
      assert key !in init;
      SweptKeysKeepIndex(c, init, key);
      RemoveIsCounted(d, Min(miscount + Untracked(c, init), |d.sizes|), key, DataSize(d, key));
      FewerSizes(d, key, DataSize(d, key));
    }
  }

  lemma FewerSizes(c: Cache, key: string, size: int)
    ensures |Removed(c, key, size).sizes| <= |c.sizes|
  {
    if key in c.sizes {
      RemoveFromIndex(c.sizes, key);
    } else {
      SumAbsent(c.sizes, key);
    }
  }

  lemma {:induction false} EvictionIsCounted(c: Cache, miscount: int, keys: seq<string>)
    requires Counted(c, miscount)
    ensures DueChain(c, keys) ==> Counted(EvictAll(c, keys), Min(miscount, |EvictAll(c, keys).sizes|))
  {
    hide Removed;
    if keys != [] && DueChain(c, keys) {
      var init, key := keys[..|keys| - 1], keys[|keys| - 1];
      var d := EvictAll(c, init);
      EvictionIsCounted(c, miscount, init);
      assert MayEvict(d, key);
      RemoveIsCounted(d, Min(miscount, |d.sizes|), key, TrackedSize(d, key));
      FewerSizes(d, key, TrackedSize(d, key));
    }
  }

  lemma PutIsCounted(c: Cache, miscount: int, key: string, source: Option<Bytes>, ttl: int, now: int, fault: Fault)
    requires Counted(c, miscount)
    ensures Counted(Stored(c, key, source, ttl, now, fault).0, miscount)
  {
    hide ValidKey, AtLeastZero, MetaAfter;
    if source.Some? {
      PutInIndex(c.sizes, key, |source.value|);
    }
  }

  lemma {:induction false} UntrackedMeans(c: Cache, keys: seq<string>)
    ensures Untracked(c, keys) == 0 <==> forall k :: k in keys ==> k in c.sizes
  {
    if keys != [] {
      UntrackedMeans(c, keys[..|keys| - 1]);
      assert keys == keys[..|keys| - 1] + [keys[|keys| - 1]];
    }
  }

  /** A sweep leaves a right count right exactly when everything it removes is tracked, or nothing
      tracked is left. */
  lemma SweepCountsRightExactly(c: Cache, keys: seq<string>)
    requires Counted(c, 0) && Distinct(keys)
    ensures
      var d := SweptKeys(c, keys);
      d.stats.entryCount == |d.sizes| <==> (forall k :: k in keys ==> k in c.sizes) || d.sizes == map[]
  {
    hide *;
    SweptKeysAreCounted(c, 0, keys);
    UntrackedMeans(c, keys);
    RightExactly(SweptKeys(c, keys), Untracked(c, keys));
  }

  lemma RightExactly(d: Cache, untracked: nat)
    requires Counted(d, Min(0 + untracked, |d.sizes|))
    ensures d.stats.entryCount == |d.sizes| <==> untracked == 0 || d.sizes == map[]
  {
  }

  lemma WalkIsDistinct<V>(order: seq<string>, m: map<string, V>)
    requires Enumerates(order, m)
    ensures Distinct(order)
  {
  }

  lemma SweepIsCounted(c: Cache, miscount: int, order: seq<string>, temps: seq<string>, now: int)
    requires Counted(c, miscount) && Distinct(order)
    ensures
      var d := Swept(c, order, temps, now);
      Counted(d, Min(miscount + Untracked(c, Due(c, order, now)), |d.sizes|))
  {
    hide SweptKeys, Due, Untracked, SweptTemps, Distinct;
    DueKeys(c, order, now);
    SweptKeysAreCounted(c, miscount, Due(c, order, now));
    SweptTempsKeepCount(SweptKeys(c, Due(c, order, now)), temps, now);
  }

  lemma SweptTempsKeepCount(c: Cache, temps: seq<string>, now: int)
    ensures
      var d := SweptTemps(c, temps, now);
      d.sizes == c.sizes && d.stats.entryCount == c.stats.entryCount
  {
    hide OldTemps;
  }

  lemma StepIsCounted(w: World, e: Event)
    requires Tracking(w.c) && Possible(w.c, e) && Counted(w.c, w.miscount)
    ensures Counted(Step(w, e).c, Step(w, e).miscount)
  {
    hide ValidKey, Stored, Swept, EvictAll, Opened, Due, Enumerates, Interrupted, DueChain, Removed, Untracked, Sum;
    if Opens(e) {
      if e.CrashAfterRename? {
        InterruptedIsNatural(w.c.disk, e.key, e.content, e.ttl, e.at, e.left);
      }
      OpenedIsRight(w.c.cfg, Found(w.c, e), e.order, e.temps, e.now);
    } else if e.Put? {
      PutIsCounted(w.c, w.miscount, e.key, e.source, e.ttl, e.now, e.fault);
    } else if e.Lookup? {
      if e.key in w.c.disk.data && e.key in w.c.disk.meta && w.c.disk.meta[e.key].Readable? {
        RemoveIsCounted(w.c, w.miscount, e.key, w.c.disk.meta[e.key].meta.size);
      }
    } else if e.Sweep? {
      WalkIsDistinct(e.order, w.c.disk.meta);
      SweepIsCounted(w.c, w.miscount, e.order, e.temps, e.now);
    } else if e.Evict? {
      EvictionIsCounted(w.c, w.miscount, e.keys);
    }
  }

  lemma StartIsRight(cfg: Config)
    ensures Tracking(Start(cfg).c) && Balanced(Start(cfg).c, 0) && Counted(Start(cfg).c, 0)
    ensures AllTracked(Start(cfg).c)
  {
    OpenedIsRight(cfg, EmptyDisk, [], [], 0);
  }

  lemma {:induction false} RunIsCounted(w: World, es: seq<Event>)
    requires Run(w, es) && Tracking(w.c) && Counted(w.c, w.miscount)
    ensures Tracking(After(w, es).c) && Counted(After(w, es).c, After(w, es).miscount)
    decreases |es|
  {
    hide Tracking, Counted, CacheStep, LastStep, StrayStep, LeakStep, MiscountStep, Possible;
    if es != [] {
      StepKeepsTracking(w.c, es[0]);
      StepIsCounted(w, es[0]);
      RunIsCounted(Step(w, es[0]), es[1..]);
    }
  }

  /** The entry count. Over every run from an empty cache, whatever store fails or crashes at
      whatever step, the count is the number of tracked keys less the swept entries nothing tracked
      since the last start, as far as there were tracked ones to be short of. */
  lemma CountAddsUp(cfg: Config, es: seq<Event>)
    requires Run(Start(cfg), es)
    ensures
      var w := After(Start(cfg), es);
      && 0 <= w.miscount <= |w.c.sizes|
      && w.c.stats.entryCount == |w.c.sizes| - w.miscount
  {
    hide Run, After, Start, Tracking;
    StartIsRight(cfg);
    assert Start(cfg).miscount == 0 by { StartCounts(cfg); }
    RunIsCounted(Start(cfg), es);
  }

  lemma StartCounts(cfg: Config)
    ensures Start(cfg).miscount == 0 && Start(cfg).leaked == 0
  {
  }

  /** A store that reports a failed metadata write has not completed it for a key nothing tracks. */
  predicate Honest(c: Cache, e: Event) { Renames(e) && e.fault == MetaFails(Written) ==> e.key in c.sizes }

  ghost predicate HonestRun(w: World, es: seq<Event>)
    decreases |es|
  {
    es != [] ==> Honest(w.c, es[0]) && HonestRun(Step(w, es[0]), es[1..])
  }

  ghost predicate AllTracked(c: Cache) { forall k :: k in c.disk.meta && c.disk.meta[k].Readable? ==> k in c.sizes }

  lemma {:induction false} SweptKeysKeepMeta(c: Cache, keys: seq<string>)
    requires AllTracked(c)
    ensures AllTracked(SweptKeys(c, keys))
  {
    if keys != [] { SweptKeysKeepMeta(c, keys[..|keys| - 1]); }
  }

  lemma {:induction false} EvictAllKeepsMeta(c: Cache, keys: seq<string>)
    requires AllTracked(c)
    ensures AllTracked(EvictAll(c, keys))
  {
    if keys != [] { EvictAllKeepsMeta(c, keys[..|keys| - 1]); }
  }

  lemma PutKeepsMeta(c: Cache, e: Event)
    requires e.Put? && AllTracked(c) && Honest(c, e)
    ensures AllTracked(Stored(c, e.key, e.source, e.ttl, e.now, e.fault).0)
  {
    hide ValidKey, AtLeastZero;
  }

  lemma StepKeepsMeta(c: Cache, e: Event)
    requires Tracking(c) && AllTracked(c) && Possible(c, e) && Honest(c, e)
    ensures AllTracked(CacheStep(c, e))
  {
    hide ValidKey, Stored, SweptKeys, EvictAll, Opened, Due, OldTemps, Enumerates, Interrupted, DueChain, Renames, Tracking;
    if Opens(e) {
      FoundIsNatural(c, e);
      OpenedIsRight(c.cfg, Found(c, e), e.order, e.temps, e.now);
    } else if e.Put? {
      PutKeepsMeta(c, e);
    } else if e.Sweep? {
      SweptKeysKeepMeta(c, Due(c, e.order, e.now));
    } else if e.Evict? {
      EvictAllKeepsMeta(c, e.keys);
    }
  }

  lemma FoundIsNatural(c: Cache, e: Event)
    requires Tracking(c)
    ensures Natural(Found(c, e))
  {
    if e.CrashAfterRename? {
      InterruptedIsNatural(c.disk, e.key, e.content, e.ttl, e.at, e.left);
    }
  }

  lemma {:induction false} NothingMiscounts(w: World, es: seq<Event>)
    requires Run(w, es) && HonestRun(w, es) && Tracking(w.c) && AllTracked(w.c) && w.miscount == 0
    ensures After(w, es).miscount == 0
    decreases |es|
  {
    hide Tracking, AllTracked, CacheStep, LastStep, StrayStep, LeakStep, Possible, Honest;
    if es != [] {
      StepKeepsTracking(w.c, es[0]);
      StepKeepsMeta(w.c, es[0]);
      MiscountStaysZero(w, es[0]);
      NothingMiscounts(Step(w, es[0]), es[1..]);
    }
  }

  lemma MiscountStaysZero(w: World, e: Event)
    requires AllTracked(w.c) && Possible(w.c, e) && w.miscount == 0
    ensures MiscountStep(w, e) == 0
  {
    hide CacheStep, Due, Untracked;
    if e.Sweep? {
      DueIsReadable(w.c, e.order, e.now);
      UntrackedMeans(w.c, Due(w.c, e.order, e.now));
    }
  }

  lemma {:induction false} DueIsReadable(c: Cache, order: seq<string>, now: int)
    ensures forall k :: k in Due(c, order, now) ==> k in c.disk.meta && c.disk.meta[k].Readable?
  {
    if order != [] { DueIsReadable(c, order[..|order| - 1], now); }
  }

  /** When no metadata write of an untracked key completes behind a reported failure, the count is
      the number of tracked keys. */
  lemma CountIsExact(cfg: Config, es: seq<Event>)
    requires Run(Start(cfg), es) && HonestRun(Start(cfg), es)
    ensures After(Start(cfg), es).c.stats.entryCount == |After(Start(cfg), es).c.sizes|
  {
    hide Run, HonestRun, After, Start, Tracking, AllTracked;
    StartIsRight(cfg);
    assert Start(cfg).miscount == 0 by { StartCounts(cfg); }
    CountAddsUp(cfg, es);
    NothingMiscounts(Start(cfg), es);
  }

  // ----- the size over runs

  ghost predicate Fair(c: Cache, e: Event) { e.Sweep? ==> FairSweep(c, Due(c, e.order, e.now)) }

  ghost predicate FairRun(w: World, es: seq<Event>)
    decreases |es|
  {
    es != [] ==> Fair(w.c, es[0]) && FairRun(Step(w, es[0]), es[1..])
  }

  /** The size is balanced after every event of the run and after every entry of its sweeps. */
  ghost predicate BalancedRun(w: World, es: seq<Event>)
    decreases |es|
  {
    && Balanced(w.c, w.leaked)
    && (es != [] ==>
          && (es[0].Sweep? ==> BalancedSweep(w.c, w.leaked, Due(w.c, es[0].order, es[0].now)))
          && BalancedRun(Step(w, es[0]), es[1..]))
  }

  lemma ConfirmIsSized(c: Cache, leaked: int, key: string, now: int)
    requires Sized(c, leaked)
    ensures Sized(Confirmed(c, key, now), leaked)
  {
    hide ValidKey, Sum, TempSizes;
  }

  lemma ClearIsSized(c: Cache)
    ensures Sized(Cleared(c), 0)
  {
    NothingSums();
    assert TempSizes(EmptyDisk.temp) == map[];
  }

  lemma OpenIsSized(c: Cache, e: Event)
    requires Opens(e) && Tracking(c) && Possible(c, e)
    ensures Sized(Opened(c.cfg, Found(c, e), e.order, e.temps, e.now), 0)
  {
    FoundIsNatural(c, e);
    hide Opened, Tracking, Balanced, Natural, Counted, Found, Enumerates;
    OpenedIsRight(c.cfg, Found(c, e), e.order, e.temps, e.now);
  }

  lemma CallIsSized(w: World, e: Event)
    requires !Opens(e) && Sized(w.c, w.leaked) && Possible(w.c, e)
    ensures Fair(w.c, e) ==> Sized(CacheStep(w.c, e), LeakStep(w, e))
    ensures e.Sweep? ==> (BalancedSweep(w.c, w.leaked, Due(w.c, e.order, e.now)) <==> Fair(w.c, e))
  {
    hide Sized, Stored, Checked, Confirmed, Cleared, Swept, EvictAll, Due, Leaks, DueChain, Enumerates, FairSweep, BalancedSweep;
    match e
    case Put(key, source, ttl, now, fault) => PutIsSized(w.c, w.leaked, key, source, ttl, now, fault);
    case Lookup(key, now) => LookupIsSized(w.c, w.leaked, key, now);
    case Confirm(key, now) => ConfirmIsSized(w.c, w.leaked, key, now);
    case Sweep(order, temps, now) =>
      WalkIsDistinct(order, w.c.disk.meta);
      WalkIsDistinct(temps, w.c.disk.temp);
      SweepIsSized(w.c, w.leaked, order, temps, now);
    case Evict(keys) => EvictionIsSized(w.c, w.leaked, keys);
    case Clear => ClearIsSized(w.c);
    case _ =>
  }

  lemma StepIsSized(w: World, e: Event)
    requires Sized(w.c, w.leaked) && Possible(w.c, e)
    ensures Fair(w.c, e) ==> Sized(Step(w, e).c, Step(w, e).leaked)
    ensures e.Sweep? ==> (BalancedSweep(w.c, w.leaked, Due(w.c, e.order, e.now)) <==> Fair(w.c, e))
  {
    hide Tracking, Balanced, Possible, Fair, Found, Opened, Swept, Stored, Checked, Due, Leaks, BalancedSweep;
    if Opens(e) {
      OpenIsSized(w.c, e);
    } else {
      CallIsSized(w, e);
    }
  }

  lemma {:induction false} RunIsSized(w: World, es: seq<Event>)
    requires Run(w, es) && Sized(w.c, w.leaked)
    ensures BalancedRun(w, es) <==> FairRun(w, es)
    ensures FairRun(w, es) ==> Sized(After(w, es).c, After(w, es).leaked)
    decreases |es|
  {
    hide Tracking, Balanced, BalancedSweep, FairSweep, CacheStep, LastStep, StrayStep, LeakStep, MiscountStep, Possible, Due;
    if es != [] {
      StepIsSized(w, es[0]);
      if Fair(w.c, es[0]) {
        RunIsSized(Step(w, es[0]), es[1..]);
      }
    }
  }

  /** The size. Over every run from an empty cache, whatever store fails or crashes at whatever step
      and however its metadata write ends, the size is at every point the tracked sizes plus the
      leftover temporary files plus exactly the tracked bytes that sweeps did not find on the disk -
      exactly as long as no sweep meets an entry whose data is longer than tracked while something
      else is counted. */
  lemma SizeAddsUpExactly(cfg: Config, es: seq<Event>)
    requires Run(Start(cfg), es)
    ensures BalancedRun(Start(cfg), es) <==> FairRun(Start(cfg), es)
    ensures FairRun(Start(cfg), es) ==>
      var w := After(Start(cfg), es);
      && w.c.stats.currentSize == Sum(w.c.sizes) + Sum(TempSizes(w.c.disk.temp)) + w.leaked
      && Sum(w.c.sizes) >= 0 && Sum(TempSizes(w.c.disk.temp)) >= 0 && w.leaked >= 0
  {
    StartIsRight(cfg);
    StartCounts(cfg);
    hide Sum, Run, BalancedRun, FairRun, After, Start, TempSizes;
    RunIsSized(Start(cfg), es);
    if FairRun(Start(cfg), es) {
      SumNonNegative(After(Start(cfg), es).c.sizes);
      TempsNonNegative(After(Start(cfg), es).c.disk.temp);
    }
  }

  // ----- which runs are fair

  /** No data file is longer than its readable metadata says. */
  ghost predicate Fitting(d: Disk) {
    forall k :: k in d.data && k in d.meta && d.meta[k].Readable? ==> |d.data[k]| <= d.meta[k].meta.size
  }

  /** A crashed store leaves data no longer than the metadata it leaves says. */
  ghost predicate Modest(c: Cache, e: Event) {
    e.CrashAfterRename? ==>
      var f := Found(c, e).meta;
      e.key in f && f[e.key].Readable? ==> |e.content| <= f[e.key].meta.size
  }

  ghost predicate ModestRun(w: World, es: seq<Event>)
    decreases |es|
  {
    es != [] ==> Modest(w.c, es[0]) && ModestRun(Step(w, es[0]), es[1..])
  }

  lemma {:induction false} SweptKeysFit(c: Cache, keys: seq<string>)
    requires Fitting(c.disk)
    ensures Fitting(SweptKeys(c, keys).disk)
  {
    if keys != [] { SweptKeysFit(c, keys[..|keys| - 1]); }
  }

  lemma {:induction false} EvictAllFits(c: Cache, keys: seq<string>)
    requires Fitting(c.disk)
    ensures Fitting(EvictAll(c, keys).disk)
  {
    if keys != [] { EvictAllFits(c, keys[..|keys| - 1]); }
  }

  lemma {:induction false} ScannedEntriesFit(c: Cache, order: seq<string>, now: int)
    requires Fitting(c.disk)
    ensures Fitting(ScannedEntries(c, order, now).disk)
  {
    if order != [] { ScannedEntriesFit(c, order[..|order| - 1], now); }
  }

  lemma OpenedFits(cfg: Config, disk: Disk, order: seq<string>, temps: seq<string>, now: int)
    requires Fitting(disk)
    ensures Fitting(Opened(cfg, disk, order, temps, now).disk)
  {
    var c := Cache(cfg, disk, map[], map[], NoStats);
    ScannedEntriesFit(c, order, now);
    TempScansKeepEntries(ScannedEntries(c, order, now), temps, now);
    hide ScannedEntries, ScannedTemps;
  }

  lemma PutFits(c: Cache, key: string, source: Option<Bytes>, ttl: int, now: int, fault: Fault)
    requires Fitting(c.disk)
    ensures Fitting(Stored(c, key, source, ttl, now, fault).0.disk)
  {
    hide ValidKey, AtLeastZero;
  }

  lemma StepFits(c: Cache, e: Event)
    requires Fitting(c.disk) && Modest(c, e)
    ensures Fitting(CacheStep(c, e).disk)
  {
    hide ValidKey, Stored, SweptKeys, EvictAll, Opened, Due, OldTemps;
    if Opens(e) {
      assert Fitting(Found(c, e));
      OpenedFits(c.cfg, Found(c, e), e.order, e.temps, e.now);
    } else if e.Put? {
      PutFits(c, e.key, e.source, e.ttl, e.now, e.fault);
    } else if e.Sweep? {
      SweptKeysFit(c, Due(c, e.order, e.now));
    } else if e.Evict? {
      EvictAllFits(c, e.keys);
    }
  }

  lemma {:induction false} FittingIsFair(c: Cache, keys: seq<string>)
    requires Tracking(c) && Fitting(c.disk) && Distinct(keys) && AllReadable(c.disk, keys)
    ensures FairSweep(c, keys)
  {
    hide Tracking, Fitting, FallsShort, SweptKeys, Distinct, AllReadable;
    if keys != [] {
      var init, key := keys[..|keys| - 1], keys[|keys| - 1];
      AllButLast(c.disk, keys);
      FittingIsFair(c, init);
      SweptKeysFrame(c, init, key);
      SweptKeysKeepTracking(c, init);
      SweptKeysFit(c, init);
      FittingEntryIsFair(SweptKeys(c, init), key);
    }
  }

  lemma FittingEntryIsFair(c: Cache, key: string)
    requires Tracking(c) && Fitting(c.disk) && key in c.disk.meta && c.disk.meta[key].Readable?
    ensures !FallsShort(c, key)
  {
  }

  /** A run is fair when no crash leaves an entry's data longer than its metadata says. */
  lemma {:induction false} ModestRunsAreFair(w: World, es: seq<Event>)
    requires Run(w, es) && ModestRun(w, es) && Tracking(w.c) && Fitting(w.c.disk)
    ensures FairRun(w, es)
    decreases |es|
  {
    hide Tracking, Fitting, CacheStep, LastStep, StrayStep, LeakStep, MiscountStep, Modest, FairSweep, Due, Enumerates, DueChain;
    if es != [] {
      var e := es[0];
      StepKeepsTracking(w.c, e);
      StepFits(w.c, e);
      if e.Sweep? {
        assert Found(w.c, e) == w.c.disk;
        WalkIsDistinct(e.order, w.c.disk.meta);
        DueKeys(w.c, e.order, e.now);
        FittingIsFair(w.c, Due(w.c, e.order, e.now));
      }
      ModestRunsAreFair(Step(w, e), es[1..]);
    }
  }

  // ----- when nothing leaks

  /** Every entry's data is there and as long as its readable metadata says. */
  ghost predicate Whole(d: Disk) {
    forall k :: k in d.meta && d.meta[k].Readable? ==> k in d.data && |d.data[k]| == d.meta[k].meta.size
  }

  /** No metadata write fails, and a crash leaves data as long as the metadata it leaves says. */
  ghost predicate MetaSafe(c: Cache, e: Event) {
    && (e.Put? ==> !e.fault.MetaFails?)
    && (e.CrashAfterRename? ==>
          var f := Found(c, e).meta;
          e.key in f && f[e.key].Readable? ==> |e.content| == f[e.key].meta.size)
  }

  ghost predicate SafeRun(w: World, es: seq<Event>)
    decreases |es|
  {
    es != [] ==> MetaSafe(w.c, es[0]) && SafeRun(Step(w, es[0]), es[1..])
  }

  lemma {:induction false} SweptKeysWhole(c: Cache, keys: seq<string>)
    requires Whole(c.disk)
    ensures Whole(SweptKeys(c, keys).disk)
  {
    if keys != [] { SweptKeysWhole(c, keys[..|keys| - 1]); }
  }

  lemma {:induction false} EvictAllWhole(c: Cache, keys: seq<string>)
    requires Whole(c.disk)
    ensures Whole(EvictAll(c, keys).disk)
  {
    if keys != [] { EvictAllWhole(c, keys[..|keys| - 1]); }
  }

  lemma {:induction false} ScannedEntriesWhole(c: Cache, order: seq<string>, now: int)
    requires Whole(c.disk)
    ensures Whole(ScannedEntries(c, order, now).disk)
  {
    if order != [] { ScannedEntriesWhole(c, order[..|order| - 1], now); }
  }

  lemma {:induction false} ScannedTempsWhole(c: Cache, temps: seq<string>, now: int)
    requires Whole(c.disk)
    ensures Whole(ScannedTemps(c, temps, now).disk)
  {
    if temps != [] { ScannedTempsWhole(c, temps[..|temps| - 1], now); }
  }

  lemma OpenedWhole(cfg: Config, disk: Disk, order: seq<string>, temps: seq<string>, now: int)
    requires Whole(disk)
    ensures Whole(Opened(cfg, disk, order, temps, now).disk)
  {
    var c := Cache(cfg, disk, map[], map[], NoStats);
    ScannedEntriesWhole(c, order, now);
    ScannedTempsWhole(ScannedEntries(c, order, now), temps, now);
    hide ScannedEntries, ScannedTemps, Whole;
  }

  lemma StepKeepsWhole(c: Cache, e: Event)
    requires Whole(c.disk) && MetaSafe(c, e)
    ensures Whole(CacheStep(c, e).disk)
  {
    hide ValidKey, SweptKeys, EvictAll, Opened, Due, OldTemps;
    if Opens(e) {
      assert Whole(Found(c, e));
      OpenedWhole(c.cfg, Found(c, e), e.order, e.temps, e.now);
    } else if e.Sweep? {
      SweptKeysWhole(c, Due(c, e.order, e.now));
    } else if e.Evict? {
      EvictAllWhole(c, e.keys);
    }
  }

  lemma {:induction false} WholeNeverLeaks(c: Cache, keys: seq<string>)
    requires Tracking(c) && Whole(c.disk) && Distinct(keys) && AllReadable(c.disk, keys)
    ensures Leaks(c, keys) == 0
  {
    hide Tracking, Whole, Leak, SweptKeys, Distinct, AllReadable;
    if keys != [] {
      var init, key := keys[..|keys| - 1], keys[|keys| - 1];
      AllButLast(c.disk, keys);
      WholeNeverLeaks(c, init);
      SweptKeysFrame(c, init, key);
      SweptKeysKeepTracking(c, init);
      SweptKeysWhole(c, init);
      WholeEntryLeaksNothing(SweptKeys(c, init), key);
    }
  }

  lemma WholeEntryLeaksNothing(c: Cache, key: string)
    requires Tracking(c) && Whole(c.disk) && key in c.disk.meta && c.disk.meta[key].Readable?
    ensures Leak(c, key) == 0
  {
  }

  lemma {:induction false} NothingLeaks(w: World, es: seq<Event>)
    requires Run(w, es) && SafeRun(w, es) && Tracking(w.c) && Whole(w.c.disk) && w.leaked == 0
    ensures After(w, es).leaked == 0 && ModestRun(w, es)
    decreases |es|
  {
    hide Whole, Tracking, CacheStep, LastStep, StrayStep, MiscountStep, Due, Leaks, Enumerates, Found, DueChain;
    if es != [] {
      var e := es[0];
      StepKeepsWhole(w.c, e);
      StepKeepsTracking(w.c, e);
      if e.Sweep? {
        assert Found(w.c, e) == w.c.disk by { FoundBySweep(w.c, e); }
        WalkIsDistinct(e.order, w.c.disk.meta);
        DueKeys(w.c, e.order, e.now);
        WholeNeverLeaks(w.c, Due(w.c, e.order, e.now));
      }
      NothingLeaks(Step(w, e), es[1..]);
    }
  }

  lemma FoundBySweep(c: Cache, e: Event)
    requires e.Sweep?
    ensures Found(c, e) == c.disk
  {
  }

  /** When every metadata write succeeds - the other steps of a store may fail - the size is exactly
      the tracked sizes plus the leftover temporary files. */
  lemma SizeIsExact(cfg: Config, es: seq<Event>)
    requires Run(Start(cfg), es) && SafeRun(Start(cfg), es)
    ensures
      var w := After(Start(cfg), es);
      w.c.stats.currentSize == Sum(w.c.sizes) + Sum(TempSizes(w.c.disk.temp))
  {
    StartIsRight(cfg);
    StartCounts(cfg);
    assert Whole(Start(cfg).c.disk) && Fitting(Start(cfg).c.disk) by {
      OpenedWhole(cfg, EmptyDisk, [], [], 0);
      OpenedFits(cfg, EmptyDisk, [], [], 0);
    }
    hide Sum, Run, SafeRun, ModestRun, FairRun, BalancedRun, After, Start, Whole, Fitting, Tracking, TempSizes;
    NothingLeaks(Start(cfg), es);
    ModestRunsAreFair(Start(cfg), es);
    SizeAddsUpExactly(cfg, es);
  }
}
