/**
 * The worker cache over whole runs of stores, lookups, sweeps, evictions, clears, restarts and
 * crashes inside a store: what a hit promises.
 */
module CacheRuns {
  import opened ByteStrings
  import opened CacheSpec
  import opened Options

  /** The most recent successful store of a key. */
  datatype Kept = Kept(content: Bytes, at: int, ttl: int)

  /** last holds the successful stores and stray the bytes a crashed store put in place after the
      last store of the key that ran to its end; leaked counts the bytes that sweeps forgot without
      giving them back, and miscount the swept entries that nothing tracked, as far as tracked
      entries are left to be short of. */
  datatype World = World(c: Cache, last: map<string, Kept>, stray: map<string, Bytes>, leaked: int, miscount: int)

  datatype Event =
    | Put(key: string, source: Option<Bytes>, ttl: int, now: int, fault: Fault)
    | Lookup(key: string, now: int)
    | Confirm(key: string, now: int)
    | Sweep(order: seq<string>, temps: seq<string>, now: int)
    | Evict(keys: seq<string>)
    | Clear
    | Restart(order: seq<string>, temps: seq<string>, now: int)
    | CrashInCopy(key: string, size: nat, modTime: int, order: seq<string>, temps: seq<string>, now: int)
    | CrashAfterRename(key: string, content: Bytes, ttl: int, at: int, left: Leftover,
                       order: seq<string>, temps: seq<string>, now: int)

  function WithTemp(d: Disk, key: string, size: nat, modTime: int): Disk {
    d.(temp := d.temp[key := TempFile(size, modTime)])
  }

  function MetaOf(content: Bytes, ttl: int, at: int): Meta { Meta(at, |content|, if ttl > 0 then ttl else 0) }

  /** The disk a store leaves when the process dies between the rename and the end of Put. */
  function Interrupted(d: Disk, key: string, content: Bytes, ttl: int, at: int, left: Leftover): Disk {
    d.(data := d.data[key := content], temp := d.temp - {key},
       meta := MetaAfter(d.meta, key, MetaOf(content, ttl, at), left))
  }

  /** The disk a process starts on. */
  function Found(c: Cache, e: Event): Disk {
    match e
    case CrashInCopy(key, size, modTime, _, _, _) => WithTemp(c.disk, key, size, modTime)
    case CrashAfterRename(key, content, ttl, at, left, _, _, _) => Interrupted(c.disk, key, content, ttl, at, left)
    case _ => c.disk
  }

  predicate Opens(e: Event) { e.Restart? || e.CrashInCopy? || e.CrashAfterRename? }

  /** Walks visit what is on the disk; evictions follow the recency order. */
  ghost predicate Possible(c: Cache, e: Event) {
    && (e.CrashInCopy? || e.CrashAfterRename? ==> ValidKey(e.key))
    && (e.Sweep? || Opens(e) ==> Enumerates(e.order, Found(c, e).meta) && Enumerates(e.temps, Found(c, e).temp))
    && (e.Evict? ==> DueChain(c, e.keys))
  }

  function CacheStep(c: Cache, e: Event): Cache {
    match e
    case Put(key, source, ttl, now, fault) => Stored(c, key, source, ttl, now, fault).0
    case Lookup(key, now) => Checked(c, key, now).0
    case Confirm(key, now) => Confirmed(c, key, now)
    case Sweep(order, temps, now) => Swept(c, order, temps, now)
    case Evict(keys) => EvictAll(c, keys)
    case Clear => Cleared(c)
    case _ => Opened(c.cfg, Found(c, e), e.order, e.temps, e.now)
  }

  function LastStep(w: World, e: Event): map<string, Kept> {
    if e.Put? && Stored(w.c, e.key, e.source, e.ttl, e.now, e.fault).1
    then w.last[e.key := Kept(e.source.value, e.now, if e.ttl > 0 then e.ttl else 0)]
    else w.last
  }

  predicate Renames(e: Event) {
    e.Put? && ValidKey(e.key) && e.source.Some? && !e.fault.ShardDirFails? && !e.fault.CopyFails? && !e.fault.RenameFails?
  }

  function StrayStep(w: World, e: Event): map<string, Bytes> {
    if e.CrashAfterRename? then w.stray[e.key := e.content]
    else if Renames(e) then w.stray - {e.key}
    else w.stray
  }

  /** The tracked bytes that sweeping keys forgets without giving them back. */
  function Leaks(c: Cache, keys: seq<string>): int {
    if keys == [] then 0
    else Leaks(c, keys[..|keys| - 1]) + Leak(SweptKeys(c, keys[..|keys| - 1]), keys[|keys| - 1])
  }

  function Leak(c: Cache, key: string): int { AtLeastZero(TrackedSize(c, key) - DataSize(c, key)) }

  function LeakStep(w: World, e: Event): int {
    if e.Sweep? then w.leaked + Leaks(w.c, Due(w.c, e.order, e.now))
    else if e.Clear? || Opens(e) then 0
    else w.leaked
  }

  /** How many of the keys nothing tracks. */
  function Untracked(c: Cache, keys: seq<string>): nat {
    if keys == [] then 0
    else Untracked(c, keys[..|keys| - 1]) + (if keys[|keys| - 1] in c.sizes then 0 else 1)
  }

  function Min(a: int, b: int): int { if a < b then a else b }

  function MiscountStep(w: World, e: Event): int {
    if e.Clear? || Opens(e) then 0
    else
      Min(w.miscount + (if e.Sweep? then Untracked(w.c, Due(w.c, e.order, e.now)) else 0), |CacheStep(w.c, e).sizes|)
  }

  function Step(w: World, e: Event): World {
    World(CacheStep(w.c, e), LastStep(w, e), StrayStep(w, e), LeakStep(w, e), MiscountStep(w, e))
  }

  function After(w: World, es: seq<Event>): World
    decreases |es|
  {
    if es == [] then w else After(Step(w, es[0]), es[1..])
  }

  ghost predicate Run(w: World, es: seq<Event>)
    decreases |es|
  {
    es != [] ==> Possible(w.c, es[0]) && Run(Step(w, es[0]), es[1..])
  }

  function Start(cfg: Config): World { World(Opened(cfg, EmptyDisk, [], [], 0), map[], map[], 0, 0) }

  // ----- content

  /** Every data file holds the bytes of a crashed store, or is the last successful store of its
      key, described by its own metadata. */
  ghost predicate Faithful(d: Disk, last: map<string, Kept>, stray: map<string, Bytes>) {
    forall k :: k in d.data ==> if k in stray then d.data[k] == stray[k] else Described(d, last, k)
  }

  ghost predicate Described(d: Disk, last: map<string, Kept>, k: string) {
    && k in d.data && k in d.meta && k in last
    && d.data[k] == last[k].content
    && d.meta[k] == Readable(Meta(last[k].at, |last[k].content|, last[k].ttl))
  }

  /** d has no data that c lacks, and what it has it describes as c does. */
  ghost predicate Shrinks(c: Disk, d: Disk) {
    forall k :: k in d.data ==> k in c.data && d.data[k] == c.data[k] && (k in c.meta ==> k in d.meta && d.meta[k] == c.meta[k])
  }

  lemma ShrinkingStaysFaithful(c: Disk, d: Disk, last: map<string, Kept>, stray: map<string, Bytes>)
    requires Faithful(c, last, stray) && Shrinks(c, d)
    ensures Faithful(d, last, stray)
  {
    forall k | k in d.data && k !in stray
      ensures Described(d, last, k)
    {
      assert Described(c, last, k);
    }
  }

  lemma ShrinksCompose(c: Disk, d: Disk, e: Disk)
    requires Shrinks(c, d) && Shrinks(d, e)
    ensures Shrinks(c, e)
  {
  }

  lemma {:induction false} SweptKeysShrink(c: Cache, keys: seq<string>)
    ensures Shrinks(c.disk, SweptKeys(c, keys).disk) && SweptKeys(c, keys).cfg == c.cfg
  {
    if keys != [] {
      var d := SweptKeys(c, keys[..|keys| - 1]);
      SweptKeysShrink(c, keys[..|keys| - 1]);
      ShrinksCompose(c.disk, d.disk, SweptKeys(c, keys).disk);
    }
  }

  lemma {:induction false} EvictAllShrinks(c: Cache, keys: seq<string>)
    ensures Shrinks(c.disk, EvictAll(c, keys).disk) && EvictAll(c, keys).cfg == c.cfg
  {
    if keys != [] {
      var d := EvictAll(c, keys[..|keys| - 1]);
      EvictAllShrinks(c, keys[..|keys| - 1]);
      ShrinksCompose(c.disk, d.disk, EvictAll(c, keys).disk);
    }
  }

  lemma {:induction false} ScannedEntriesShrink(c: Cache, order: seq<string>, now: int)
    ensures Shrinks(c.disk, ScannedEntries(c, order, now).disk) && ScannedEntries(c, order, now).cfg == c.cfg
  {
    if order != [] {
      var d := ScannedEntries(c, order[..|order| - 1], now);
      ScannedEntriesShrink(c, order[..|order| - 1], now);
      assert Shrinks(d.disk, ScannedEntry(d, order[|order| - 1], now).disk);
      ShrinksCompose(c.disk, d.disk, ScannedEntries(c, order, now).disk);
    }
  }

  lemma {:induction false} ScannedTempsShrink(c: Cache, temps: seq<string>, now: int)
    ensures Shrinks(c.disk, ScannedTemps(c, temps, now).disk) && ScannedTemps(c, temps, now).cfg == c.cfg
  {
    if temps != [] {
      var d := ScannedTemps(c, temps[..|temps| - 1], now);
      ScannedTempsShrink(c, temps[..|temps| - 1], now);
      assert Shrinks(d.disk, ScannedTemp(d, temps[|temps| - 1], now).disk);
      ShrinksCompose(c.disk, d.disk, ScannedTemps(c, temps, now).disk);
    }
  }

  lemma OpenedShrinks(cfg: Config, disk: Disk, order: seq<string>, temps: seq<string>, now: int)
    ensures Shrinks(disk, Opened(cfg, disk, order, temps, now).disk) && Opened(cfg, disk, order, temps, now).cfg == cfg
  {
    var c := Cache(cfg, disk, map[], map[], NoStats);
    ScannedEntriesShrink(c, order, now);
    var d := ScannedEntries(c, order, now);
    ScannedTempsShrink(d, temps, now);
    hide ScannedEntries, ScannedTemps;
    ShrinksCompose(disk, d.disk, ScannedTemps(d, temps, now).disk);
  }

  /** What a store does to the files of any one key. */
  lemma PutFiles(c: Cache, e: Event, k: string)
    requires e.Put?
    ensures
      var (stored, ok) := Stored(c, e.key, e.source, e.ttl, e.now, e.fault);
      var d := stored.disk;
      && (ok ==> Renames(e))
      && (k != e.key || !Renames(e) ==>
            && (k in d.data <==> k in c.disk.data) && (k in d.data ==> d.data[k] == c.disk.data[k])
            && (k in d.meta <==> k in c.disk.meta) && (k in d.meta ==> d.meta[k] == c.disk.meta[k]))
      && (k == e.key && Renames(e) && !ok ==> k !in d.data)
      && (k == e.key && ok ==>
            && k in d.data && d.data[k] == e.source.value
            && k in d.meta && d.meta[k] == Readable(MetaOf(e.source.value, e.ttl, e.now)))
  {
    hide AtLeastZero, ValidKey;
  }

  lemma PutStaysFaithful(w: World, e: Event)
    requires e.Put? && Faithful(w.c.disk, w.last, w.stray)
    ensures Faithful(CacheStep(w.c, e).disk, LastStep(w, e), StrayStep(w, e))
  {
    hide Stored, Renames;
    var d, last, stray := CacheStep(w.c, e).disk, LastStep(w, e), StrayStep(w, e);
    forall k | k in d.data
      ensures if k in stray then d.data[k] == stray[k] else Described(d, last, k)
    {
      PutFiles(w.c, e, k);
      assert k in w.c.disk.data && k !in w.stray ==> Described(w.c.disk, w.last, k);
    }
  }

  lemma CrashStaysFaithful(d: Disk, last: map<string, Kept>, stray: map<string, Bytes>, key: string, content: Bytes,
                           ttl: int, at: int, left: Leftover)
    requires Faithful(d, last, stray)
    ensures Faithful(Interrupted(d, key, content, ttl, at, left), last, stray[key := content])
  {
    forall k | k in d.data && k != key && k !in stray
      ensures Described(Interrupted(d, key, content, ttl, at, left), last, k)
    {
      assert Described(d, last, k);
    }
  }

  lemma StepShrinks(c: Cache, e: Event)
    requires !e.Put?
    ensures Shrinks(Found(c, e), CacheStep(c, e).disk) && CacheStep(c, e).cfg == c.cfg
  {
    hide Interrupted, WithTemp, ValidKey;
    match e
    case Sweep(order, temps, now) => SweptKeysShrink(c, Due(c, order, now));
    case Evict(keys) => EvictAllShrinks(c, keys);
    case Restart(order, temps, now) => OpenedShrinks(c.cfg, Found(c, e), order, temps, now);
    case CrashInCopy(_, _, _, order, temps, now) => OpenedShrinks(c.cfg, Found(c, e), order, temps, now);
    case CrashAfterRename(_, _, _, _, _, order, temps, now) => OpenedShrinks(c.cfg, Found(c, e), order, temps, now);
    case _ =>
  }

  lemma StepStaysFaithful(w: World, e: Event)
    requires Faithful(w.c.disk, w.last, w.stray)
    ensures Faithful(Step(w, e).c.disk, Step(w, e).last, Step(w, e).stray) && Step(w, e).c.cfg == w.c.cfg
  {
    if e.Put? {
      PutStaysFaithful(w, e);
    } else {
      StepShrinks(w.c, e);
      FoundIsFaithful(w, e);
      hide Faithful, Stored, CacheStep, Shrinks, Found;
      ShrinkingStaysFaithful(Found(w.c, e), CacheStep(w.c, e).disk, w.last, StrayStep(w, e));
    }
  }

  lemma FoundIsFaithful(w: World, e: Event)
    requires !e.Put? && Faithful(w.c.disk, w.last, w.stray)
    ensures Faithful(Found(w.c, e), w.last, StrayStep(w, e))
  {
    if e.CrashAfterRename? {
      CrashStaysFaithful(w.c.disk, w.last, w.stray, e.key, e.content, e.ttl, e.at, e.left);
    } else if e.CrashInCopy? {
      ShrinkingStaysFaithful(w.c.disk, Found(w.c, e), w.last, w.stray);
    }
  }

  lemma {:induction false} RunStaysFaithful(w: World, es: seq<Event>)
    requires Faithful(w.c.disk, w.last, w.stray)
    ensures Faithful(After(w, es).c.disk, After(w, es).last, After(w, es).stray) && After(w, es).c.cfg == w.c.cfg
    decreases |es|
  {
    hide Faithful, Step;
    if es != [] {
      StepStaysFaithful(w, es[0]);
      RunStaysFaithful(Step(w, es[0]), es[1..]);
    }
  }

  /** Cache content. After every run from an empty cache, with stores that fail or crash at any
      step, a hit serves non-empty bytes: those a crash left behind, if the key's last rename was
      one, and otherwise those of its most recent successful store, within that entry's lifetime.
      So the hit serves the last successful store exactly unless a crash left other bytes. */
  lemma HitServesTheLastStore(cfg: Config, es: seq<Event>, key: string, now: int)
    requires Checked(After(Start(cfg), es).c, key, now).1
    ensures
      var w := After(Start(cfg), es);
      && key in w.c.disk.data && w.c.disk.data[key] != []
      && (key in w.stray ==> w.c.disk.data[key] == w.stray[key])
      && (key !in w.stray ==>
            && key in w.last && w.c.disk.data[key] == w.last[key].content
            && now - w.last[key].at <= (if w.last[key].ttl > 0 then w.last[key].ttl else cfg.ttl))
      && (key in w.last && w.c.disk.data[key] == w.last[key].content
          <==> (key in w.stray ==> key in w.last && w.stray[key] == w.last[key].content))
  {
    RunStaysFaithful(Start(cfg), es);
    var w := After(Start(cfg), es);
    assert key !in w.stray ==> Described(w.c.disk, w.last, key);
  }

  /** Bytes are stray only of a key whose store crashed, and only until the next store of the key
      gets as far as its rename. */
  lemma {:induction false} StrayComesFromACrash(w: World, es: seq<Event>, key: string)
    ensures key in After(w, es).stray <==>
      || (key in w.stray && forall i :: 0 <= i < |es| ==> !(Renames(es[i]) && es[i].key == key))
      || exists i :: Strays(es, i, key)
    decreases |es|
  {
    hide CacheStep, LastStep, LeakStep, MiscountStep, ValidKey;
    if es != [] {
      var v := Step(w, es[0]);
      StrayComesFromACrash(v, es[1..], key);
      if i :| Strays(es[1..], i, key) {
        StraysLater(es, i, key);
      }
      if i :| Strays(es, i, key) {
        if i > 0 {
          StraysLater(es, i - 1, key);
        }
      }
      assert forall i :: 0 <= i < |es| - 1 ==> es[1..][i] == es[i + 1];
      assert forall i :: 0 < i < |es| ==> es[i] == es[1..][i - 1];
      assert Strays(es, 0, key) <==> es[0].CrashAfterRename? && es[0].key == key
                                     && forall j :: 0 <= j < |es| - 1 ==> !(Renames(es[1..][j]) && es[1..][j].key == key);
    }
  }

  /** The i-th event is a crash that leaves bytes of the key, and no later store renames. */
  ghost predicate Strays(es: seq<Event>, i: int, key: string) {
    && 0 <= i < |es| && es[i].CrashAfterRename? && es[i].key == key
    && forall j :: i < j < |es| ==> !(Renames(es[j]) && es[j].key == key)
  }

  lemma StraysLater(es: seq<Event>, i: int, key: string)
    requires es != [] && i >= 0
    ensures Strays(es[1..], i, key) <==> Strays(es, i + 1, key)
  {
    assert forall j :: 0 <= j < |es| - 1 ==> es[1..][j] == es[j + 1];
    assert forall j :: 0 < j < |es| ==> es[j] == es[1..][j - 1];
  }

  // ----- a single crash

  /** A scan deletes no data, and no metadata of an entry that has data. */
  lemma {:induction false} ScansKeepEntry(c: Cache, order: seq<string>, now: int, key: string)
    requires key in c.disk.data
    ensures
      var d := ScannedEntries(c, order, now).disk;
      && d.data == c.disk.data
      && (key in d.meta <==> key in c.disk.meta) && (key in d.meta ==> d.meta[key] == c.disk.meta[key])
  {
    if order != [] {
      ScansKeepEntry(c, order[..|order| - 1], now, key);
    }
  }

  lemma {:induction false} TempScansKeepEntries(c: Cache, temps: seq<string>, now: int)
    ensures ScannedTemps(c, temps, now).disk.data == c.disk.data && ScannedTemps(c, temps, now).disk.meta == c.disk.meta
    ensures ScannedTemps(c, temps, now).cfg == c.cfg
  {
    if temps != [] {
      TempScansKeepEntries(c, temps[..|temps| - 1], now);
    }
  }

  /** After a crash between rename and metadata and a reopen, a lookup of the key hits exactly when
      readable, unexpired metadata of the very length of the new bytes is there, and then it serves
      the new bytes. */
  lemma CrashHitsExactly(cfg: Config, disk: Disk, key: string, content: Bytes, ttl: int, at: int, left: Leftover,
                         order: seq<string>, temps: seq<string>, now: int, later: int)
    requires ValidKey(key)
    ensures
      var found := Interrupted(disk, key, content, ttl, at, left);
      var c := Opened(cfg, found, order, temps, now);
      && key in c.disk.data && c.disk.data[key] == content
      && (Checked(c, key, later).1
          <==> && key in found.meta && found.meta[key].Readable?
               && !Expired(cfg, found.meta[key].meta, later)
               && found.meta[key].meta.size == |content| && content != [])
  {
    hide ValidKey, Removed, MetaAfter;
    var start := Cache(cfg, Interrupted(disk, key, content, ttl, at, left), map[], map[], NoStats);
    ScansKeepEntry(start, order, now, key);
    ScannedEntriesShrink(start, order, now);
    TempScansKeepEntries(ScannedEntries(start, order, now), temps, now);
    hide ScannedEntries, ScannedTemps;
  }

  /** A store that succeeds is served until it expires, unless something removes it. */
  lemma StoreThenHit(c: Cache, key: string, content: Bytes, ttl: int, now: int, fault: Fault, later: int)
    requires content != [] && Stored(c, key, Some(content), ttl, now, fault).1
    requires later - now <= (if ttl > 0 then ttl else c.cfg.ttl)
    ensures
      var d := Stored(c, key, Some(content), ttl, now, fault).0;
      Checked(d, key, later) == (d, true) && d.disk.data[key] == content
  {
    hide ValidKey;
  }

  // ----- eviction order

  lemma {:induction false} EvictAllForgets(c: Cache, keys: seq<string>, s: string)
    ensures s in EvictAll(c, keys).used <==> s in c.used && s !in keys
    ensures s in EvictAll(c, keys).used ==> EvictAll(c, keys).used[s] == c.used[s]
    ensures EvictAll(c, keys).cfg == c.cfg
  {
    if keys != [] {
      var init := keys[..|keys| - 1];
      EvictAllForgets(c, init, s);
      assert keys == init + [keys[|keys| - 1]];
    }
  }

  /** LRU order. Every evicted key was tracked and used no later than every key that survives, and
      before each removal the cache was over its budget. */
  lemma {:induction false} EvictionIsLru(c: Cache, keys: seq<string>, k: nat, s: string)
    requires DueChain(c, keys) && k < |keys|
    ensures keys[k] in c.used && EvictAll(c, keys[..k]).stats.currentSize > c.cfg.maxSize
    ensures s in EvictAll(c, keys).used ==> s in c.used && c.used[keys[k]] <= c.used[s]
  {
    hide EvictOne;
    var init, key := keys[..|keys| - 1], keys[|keys| - 1];
    assert MayEvict(EvictAll(c, init), key);
    EvictAllForgets(c, init, key);
    EvictAllForgets(c, init, s);
    EvictAllForgets(c, keys, s);
    assert keys == init + [key];
    if k < |init| {
      EvictionIsLru(c, init, k, s);
      assert keys[..k] == init[..k];
    }
  }
}
