/**
 * What the cache's index, its order and its counters mean in terms of the events of a run, and what
 * a lookup, a sweep and an opening do to each key (pkg/worker/cache.go).
 */
module CacheUses {
  import opened ByteStrings
  import opened CacheSpec
  import opened CacheRuns
  import opened Options

  // ----- the last use of a key

  /** A use of the key: a store of it that succeeds, a confirmed hit, or an opening of the cache. */
  ghost predicate UsesKey(e: Event, key: string) {
    || (e.Put? && e.key == key && ValidKey(key) && e.source.Some? && e.fault == NoFault)
    || (e.Confirm? && e.key == key && ValidKey(key))
    || Opens(e)
  }

  /** The clock reading of the latest event that used the key. */
  ghost function LastUse(es: seq<Event>, key: string): Option<int> {
    if es == [] then None
    else
      var e := es[|es| - 1];
      if UsesKey(e, key) then Some(e.now) else LastUse(es[..|es| - 1], key)
  }

  lemma {:induction false} AfterLast(w: World, es: seq<Event>, e: Event)
    ensures After(w, es + [e]) == Step(After(w, es), e)
    decreases |es|
  {
    hide Step;
    if es == [] {
      assert [] + [e] == [e] && [e][1..] == [];
      assert After(w, [e]) == After(Step(w, e), []);
    } else {
      AfterLast(Step(w, es[0]), es[1..], e);
      assert (es + [e])[1..] == es[1..] + [e];
    }
  }

  lemma {:induction false} SweepForgets(c: Cache, keys: seq<string>, key: string)
    ensures key in SweptKeys(c, keys).used <==> key in c.used && key !in keys
    ensures key in SweptKeys(c, keys).used ==> SweptKeys(c, keys).used[key] == c.used[key]
    ensures key in SweptKeys(c, keys).disk.data <==> key in c.disk.data && key !in keys
    ensures SweptKeys(c, keys).disk.temp == c.disk.temp
  {
    if keys != [] {
      var init := keys[..|keys| - 1];
      SweepForgets(c, init, key);
      assert keys == init + [keys[|keys| - 1]];
    }
  }

  lemma {:induction false} ScanUses(c: Cache, order: seq<string>, now: int, key: string)
    ensures
      var d := ScannedEntries(c, order, now);
      key in d.used ==> d.used[key] == now || (key in c.used && d.used[key] == c.used[key])
  {
    if order != [] {
      ScanUses(c, order[..|order| - 1], now, key);
    }
  }

  lemma {:induction false} TempScanKeepsIndex(c: Cache, temps: seq<string>, now: int)
    ensures ScannedTemps(c, temps, now).used == c.used && ScannedTemps(c, temps, now).sizes == c.sizes
  {
    if temps != [] {
      TempScanKeepsIndex(c, temps[..|temps| - 1], now);
    }
  }

  lemma OpenedUses(cfg: Config, disk: Disk, order: seq<string>, temps: seq<string>, now: int, key: string)
    ensures
      var c := Opened(cfg, disk, order, temps, now);
      key in c.used ==> c.used[key] == now
  {
    var c := Cache(cfg, disk, map[], map[], NoStats);
    ScanUses(c, order, now, key);
    TempScanKeepsIndex(ScannedEntries(c, order, now), temps, now);
    hide ScannedEntries, ScannedTemps;
  }

  /** One event: a key it uses is stamped with its clock reading, any other keeps its stamp. */
  lemma StepStamps(c: Cache, e: Event, key: string)
    ensures
      var d := CacheStep(c, e);
      key in d.used ==>
        if UsesKey(e, key) then d.used[key] == e.now else key in c.used && d.used[key] == c.used[key]
  {
    hide ValidKey, Opened, Interrupted, WithTemp, DueAt, AtLeastZero;
    match e
    case Sweep(order, temps, now) =>
      SweepForgets(c, Due(c, order, now), key);
      hide SweptKeys, Due;
    case Evict(keys) => EvictAllForgets(c, keys, key);
    case Restart(order, temps, now) => OpenedUses(c.cfg, Found(c, e), order, temps, now, key);
    case CrashInCopy(_, _, _, order, temps, now) => OpenedUses(c.cfg, Found(c, e), order, temps, now, key);
    case CrashAfterRename(_, _, _, _, _, order, temps, now) => OpenedUses(c.cfg, Found(c, e), order, temps, now, key);
    case _ =>
  }

  /** Over every run the tracked last use of a key is the clock reading of the latest event that stored
      it, confirmed a hit on it or opened the cache. */
  lemma {:induction false} LastUseIsTrue(cfg: Config, es: seq<Event>, key: string)
    ensures
      var c := After(Start(cfg), es).c;
      key in c.used ==> LastUse(es, key) == Some(c.used[key])
    decreases |es|
  {
    hide CacheStep, UsesKey;
    if es == [] {
      StartTracksNothing(cfg);
    } else {
      var init, e := es[..|es| - 1], es[|es| - 1];
      assert es == init + [e];
      AfterLast(Start(cfg), init, e);
      LastUseIsTrue(cfg, init, key);
      StepStamps(After(Start(cfg), init).c, e, key);
      hide Start, After, LastStep, StrayStep, LeakStep, MiscountStep;
    }
  }

  lemma StartTracksNothing(cfg: Config)
    ensures Start(cfg).c.used == map[] && Start(cfg).c.stats == NoStats
  {
  }

  /** LRU order over a run. Whatever is evicted after the run was last used - stored, confirmed or
      found at an opening - no later than every key that stays, and the cache was over budget. */
  lemma EvictedWasUsedFirst(cfg: Config, es: seq<Event>, keys: seq<string>, k: nat, s: string)
    requires DueChain(After(Start(cfg), es).c, keys) && k < |keys|
    requires s in EvictAll(After(Start(cfg), es).c, keys).used
    ensures EvictAll(After(Start(cfg), es).c, keys[..k]).stats.currentSize > After(Start(cfg), es).c.cfg.maxSize
    ensures LastUse(es, keys[k]).Some? && LastUse(es, s).Some?
    ensures LastUse(es, keys[k]).value <= LastUse(es, s).value
  {
    var c := After(Start(cfg), es).c;
    EvictionIsLru(c, keys, k, s);
    LastUseIsTrue(cfg, es, keys[k]);
    LastUseIsTrue(cfg, es, s);
    hide *;
  }

  // ----- what each operation does to each key

  /** A key is valid exactly when it is 64 lower-case hexadecimal digits. */
  lemma ValidKeysAreHashes(key: string)
    ensures ValidKey(key) <==> |key| == 64 && forall c :: c in key ==> c in "0123456789abcdef"
  {
    forall c: char
      ensures IsHex(c) <==> c in "0123456789abcdef"
    {
      HexDigit(c);
    }
    hide IsHex;
    if ValidKey(key) {
      forall c | c in key
        ensures c in "0123456789abcdef"
      {
        var i :| 0 <= i < |key| && key[i] == c;
      }
    }
  }

  lemma HexDigit(c: char)
    ensures IsHex(c) <==> c in "0123456789abcdef"
  {
    var digits := "0123456789abcdef";
    if '0' <= c <= '9' {
      assert digits[c as int - '0' as int] == c;
    } else if 'a' <= c <= 'f' {
      assert digits[c as int - 'a' as int + 10] == c;
    }
  }

  /** A store that succeeds is tracked with its size; any other store tracks nothing new. */
  lemma PutTracks(c: Cache, e: Event)
    requires e.Put?
    ensures
      var (d, ok) := Stored(c, e.key, e.source, e.ttl, e.now, e.fault);
      && (ok <==> UsesKey(e, e.key))
      && (ok ==> d.sizes == c.sizes[e.key := |e.source.value|] && d.used == c.used[e.key := e.now])
      && (!ok ==> d.sizes == c.sizes && d.used == c.used)
  {
    hide ValidKey, AtLeastZero;
  }

  /** A lookup hits exactly when the key is valid, its data and readable metadata are there, the entry
      is within its lifetime and the file has the recorded, non-zero length. An entry that fails only
      the last two is deleted; a miss of any other kind, and a hit, leave disk and index alone. */
  lemma LookupExactly(c: Cache, key: string, now: int)
    ensures
      var (d, hit) := Checked(c, key, now);
      var there := ValidKey(key) && key in c.disk.data && key in c.disk.meta && c.disk.meta[key].Readable?;
      var good := there
                  && var m := c.disk.meta[key].meta;
                     now - m.createdAt <= (if m.ttl > 0 then m.ttl else c.cfg.ttl) && m.size == |c.disk.data[key]| > 0;
      && (hit <==> good)
      && d.disk == (if there && !good then Disk(c.disk.data - {key}, c.disk.meta - {key}, c.disk.temp) else c.disk)
      && d.sizes == (if there && !good then c.sizes - {key} else c.sizes)
      && d.used == (if there && !good then c.used - {key} else c.used)
  {
    hide ValidKey;
  }

  lemma {:induction false} DueIs(c: Cache, order: seq<string>, now: int, key: string)
    ensures key in Due(c, order, now) <==> key in order && DueAt(c, key, now)
  {
    hide DueAt;
    if order != [] {
      DueIs(c, order[..|order| - 1], now, key);
      assert order == order[..|order| - 1] + [order[|order| - 1]];
    }
  }

  lemma {:induction false} OldTempsAre(c: Cache, temps: seq<string>, now: int, key: string)
    ensures key in OldTemps(c, temps, now).0 <==> key in temps && OldTemp(c, key, now)
  {
    hide OldTemp;
    if temps != [] {
      OldTempsAre(c, temps[..|temps| - 1], now, key);
      assert temps == temps[..|temps| - 1] + [temps[|temps| - 1]];
    }
  }

  /** The entry's readable metadata says it has outlived its lifetime. */
  ghost predicate Outlived(c: Cache, key: string, now: int) {
    && key in c.disk.meta && c.disk.meta[key].Readable?
    && var m := c.disk.meta[key].meta;
       now - m.createdAt > (if m.ttl > 0 then m.ttl else c.cfg.ttl)
  }

  /** A sweep deletes and forgets exactly the entries that have outlived their lifetime, and the
      temporary files at least an hour old. */
  lemma SweepRemovesExactly(c: Cache, order: seq<string>, temps: seq<string>, now: int, key: string)
    requires Enumerates(order, c.disk.meta) && Enumerates(temps, c.disk.temp)
    ensures
      var d := Swept(c, order, temps, now);
      && (key in d.disk.data <==> key in c.disk.data && !Outlived(c, key, now))
      && (key in d.used <==> key in c.used && !Outlived(c, key, now))
      && (key in d.disk.temp <==> key in c.disk.temp && now - c.disk.temp[key].modTime < 3_600_000_000_000)
  {
    var keys := Due(c, order, now);
    var swept := SweptKeys(c, keys);
    DueIs(c, order, now, key);
    SweepForgets(c, keys, key);
    assert swept.disk.temp == c.disk.temp;
    OldTempsAre(swept, temps, now, key);
    hide SweptKeys, Due, OldTemps, AtLeastZero, Enumerates;
    assert key in order <==> key in c.disk.meta by { Listed(order, c.disk.meta, key); }
    assert key in temps <==> key in c.disk.temp by { Listed(temps, c.disk.temp, key); }
  }

  lemma Listed<V>(order: seq<string>, m: map<string, V>, key: string)
    requires Enumerates(order, m)
    ensures key in order <==> key in m
  {
  }

  /** A readable entry with its data. */
  ghost predicate Entry(d: Disk, key: string) { key in d.data && key in d.meta && d.meta[key].Readable? }

  lemma {:induction false} ScanTracks(c: Cache, order: seq<string>, now: int, key: string)
    requires key !in c.sizes && key !in c.used
    ensures
      var d := ScannedEntries(c, order, now);
      && d.disk.data == c.disk.data && d.disk.temp == c.disk.temp
      && (key in d.sizes <==> key in order && Entry(c.disk, key))
      && (key in d.used <==> key in d.sizes)
      && (key in d.sizes ==> d.sizes[key] == c.disk.meta[key].meta.size && d.used[key] == now)
      && (key in d.disk.meta <==>
            key in c.disk.meta && !(key in order && c.disk.meta[key].Readable? && key !in c.disk.data))
      && (key in d.disk.meta ==> d.disk.meta[key] == c.disk.meta[key])
  {
    if order != [] {
      var init, last := order[..|order| - 1], order[|order| - 1];
      ScanTracks(c, init, now, key);
      assert order == init + [last];
      var before := ScannedEntries(c, init, now);
      hide ScannedEntries;
      assert ScannedEntries(c, order, now) == ScannedEntry(before, last, now) by { ScanUnfolds(c, order, now); }
    }
  }

  lemma ScanUnfolds(c: Cache, order: seq<string>, now: int)
    requires order != []
    ensures ScannedEntries(c, order, now)
         == ScannedEntry(ScannedEntries(c, order[..|order| - 1], now), order[|order| - 1], now)
  {
  }

  lemma {:induction false} TempScanKeeps(c: Cache, temps: seq<string>, now: int, key: string)
    ensures
      var d := ScannedTemps(c, temps, now);
      && (key in d.disk.temp <==>
            key in c.disk.temp && !(key in temps && c.disk.temp[key].modTime < now - 3_600_000_000_000))
      && (key in d.disk.temp ==> d.disk.temp[key] == c.disk.temp[key])
  {
    if temps != [] {
      var init := temps[..|temps| - 1];
      TempScanKeeps(c, init, now, key);
      assert temps == init + [temps[|temps| - 1]];
    }
  }

  /** Opening a cache tracks exactly the readable entries whose data is there, with their recorded size
      and as used now; it deletes readable metadata without data and temporary files over an hour old. */
  lemma OpenTracksExactly(cfg: Config, disk: Disk, order: seq<string>, temps: seq<string>, now: int, key: string)
    requires Enumerates(order, disk.meta) && Enumerates(temps, disk.temp)
    ensures
      var c := Opened(cfg, disk, order, temps, now);
      && (key in c.sizes <==> Entry(disk, key)) && (key in c.used <==> Entry(disk, key))
      && (Entry(disk, key) ==> c.sizes[key] == disk.meta[key].meta.size && c.used[key] == now)
      && c.disk.data == disk.data
      && (key in c.disk.meta <==> key in disk.meta && (disk.meta[key].Corrupt? || key in disk.data))
      && (key in c.disk.temp <==> key in disk.temp && now - disk.temp[key].modTime <= 3_600_000_000_000)
  {
    var start := Cache(cfg, disk, map[], map[], NoStats);
    ScanTracks(start, order, now, key);
    var scanned := ScannedEntries(start, order, now);
    TempScanKeeps(scanned, temps, now, key);
    TempScanKeepsIndex(scanned, temps, now);
    TempScansKeepEntries(scanned, temps, now);
    Listed(order, disk.meta, key);
    Listed(temps, disk.temp, key);
    hide ScannedEntries, ScannedTemps, Enumerates;
  }

  // ----- the counters

  ghost function HitsOf(es: seq<Event>): nat {
    if es == [] then 0
    else
      var e := es[|es| - 1];
      if e.Clear? || Opens(e) then 0
      else HitsOf(es[..|es| - 1]) + (if e.Confirm? && ValidKey(e.key) then 1 else 0)
  }

  ghost function MissesOf(cfg: Config, es: seq<Event>): nat {
    if es == [] then 0
    else
      var init, e := es[..|es| - 1], es[|es| - 1];
      if e.Clear? || Opens(e) then 0
      else MissesOf(cfg, init) + (if e.Lookup? && !Checked(After(Start(cfg), init).c, e.key, e.now).1 then 1 else 0)
  }

  ghost function EvictionsOf(cfg: Config, es: seq<Event>): nat {
    if es == [] then 0
    else
      var init, e := es[..|es| - 1], es[|es| - 1];
      if e.Clear? || Opens(e) then 0
      else
        EvictionsOf(cfg, init) + if e.Sweep? then |Due(After(Start(cfg), init).c, e.order, e.now)|
                                 else if e.Evict? then |e.keys| else 0
  }

  lemma {:induction false} SweepCounters(c: Cache, keys: seq<string>)
    ensures
      var s := SweptKeys(c, keys).stats;
      s.hits == c.stats.hits && s.misses == c.stats.misses && s.evictions == c.stats.evictions + |keys|
  {
    if keys != [] {
      SweepCounters(c, keys[..|keys| - 1]);
    }
  }

  lemma {:induction false} EvictCounters(c: Cache, keys: seq<string>)
    ensures
      var s := EvictAll(c, keys).stats;
      s.hits == c.stats.hits && s.misses == c.stats.misses && s.evictions == c.stats.evictions + |keys|
  {
    if keys != [] {
      EvictCounters(c, keys[..|keys| - 1]);
    }
  }

  lemma {:induction false} ScanCounters(c: Cache, order: seq<string>, now: int)
    ensures
      var s := ScannedEntries(c, order, now).stats;
      s.hits == c.stats.hits && s.misses == c.stats.misses && s.evictions == c.stats.evictions
  {
    if order != [] {
      ScanCounters(c, order[..|order| - 1], now);
    }
  }

  lemma {:induction false} TempScanCounters(c: Cache, temps: seq<string>, now: int)
    ensures
      var s := ScannedTemps(c, temps, now).stats;
      s.hits == c.stats.hits && s.misses == c.stats.misses && s.evictions == c.stats.evictions
  {
    if temps != [] {
      TempScanCounters(c, temps[..|temps| - 1], now);
    }
  }

  lemma OpenedCounters(cfg: Config, disk: Disk, order: seq<string>, temps: seq<string>, now: int)
    ensures
      var s := Opened(cfg, disk, order, temps, now).stats;
      s.hits == 0 && s.misses == 0 && s.evictions == 0
  {
    var c := Cache(cfg, disk, map[], map[], NoStats);
    ScanCounters(c, order, now);
    TempScanCounters(ScannedEntries(c, order, now), temps, now);
    hide ScannedEntries, ScannedTemps;
  }

  lemma StepCounters(c: Cache, e: Event)
    ensures
      var s, t := c.stats, CacheStep(c, e).stats;
      if e.Clear? || Opens(e) then t.hits == 0 && t.misses == 0 && t.evictions == 0
      else
        && t.hits == s.hits + (if e.Confirm? && ValidKey(e.key) then 1 else 0)
        && t.misses == s.misses + (if e.Lookup? && !Checked(c, e.key, e.now).1 then 1 else 0)
        && t.evictions == s.evictions + (if e.Sweep? then |Due(c, e.order, e.now)| else if e.Evict? then |e.keys| else 0)
  {
    hide ValidKey, Opened, Interrupted, WithTemp, DueAt, AtLeastZero, OldTemps;
    match e
    case Sweep(order, temps, now) =>
      SweepCounters(c, Due(c, order, now));
      hide SweptKeys, Due;
    case Evict(keys) => EvictCounters(c, keys);
    case Restart(order, temps, now) => OpenedCounters(c.cfg, Found(c, e), order, temps, now);
    case CrashInCopy(_, _, _, order, temps, now) => OpenedCounters(c.cfg, Found(c, e), order, temps, now);
    case CrashAfterRename(_, _, _, _, _, order, temps, now) => OpenedCounters(c.cfg, Found(c, e), order, temps, now);
    case _ =>
  }

  /** The statistics are tallies of the run since the last opening or clear: confirmed hits, lookups
      that missed, and entries swept or evicted. */
  lemma {:induction false} StatsAreTallies(cfg: Config, es: seq<Event>)
    ensures
      var s := After(Start(cfg), es).c.stats;
      s.hits == HitsOf(es) && s.misses == MissesOf(cfg, es) && s.evictions == EvictionsOf(cfg, es)
    decreases |es|
  {
    hide CacheStep, Checked, Due, ValidKey;
    if es == [] {
      StartTracksNothing(cfg);
    } else {
      var init, e := es[..|es| - 1], es[|es| - 1];
      assert es == init + [e];
      AfterLast(Start(cfg), init, e);
      StatsAreTallies(cfg, init);
      StepCounters(After(Start(cfg), init).c, e);
      hide Start, After, LastStep, StrayStep, LeakStep, MiscountStep;
    }
  }
}
