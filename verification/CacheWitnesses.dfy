/**
 * Runs of the worker cache in which its counters or its content go wrong: one for each way the
 * exact theorems leave open.
 */
module CacheWitnesses {
  import opened ByteStrings
  import opened CacheRuns
  import opened CacheSpec
  import opened Options

  const ROOMY := Config(10, 100)

  function KeyOf(c: char): (key: string)
    requires IsHex(c)
    ensures ValidKey(key) && key[0] == c
  {
    seq(64, _ => c)
  }

  const A: string := KeyOf('a')
  const B: string := KeyOf('b')

  lemma KeysDiffer()
    ensures ValidKey(A) && ValidKey(B) && A != B
  {
    assert A[0] == 'a' && B[0] == 'b';
  }

  /** The run goes on with e and then like rest. */
  lemma Goes(w: World, e: Event, rest: seq<Event>)
    ensures Run(w, [e] + rest) <==> Possible(w.c, e) && Run(Step(w, e), rest)
    ensures After(w, [e] + rest) == After(Step(w, e), rest)
  {
    hide Possible, Step;
    assert ([e] + rest)[1..] == rest;
  }

  lemma Stays(w: World)
    ensures Run(w, []) && After(w, []) == w
  {
  }

  function Entry(key: string, content: Bytes): World {
    World(Cache(ROOMY, Disk(map[key := content], map[key := Readable(Meta(0, |content|, 0))], map[]),
                map[key := |content|], map[key := 0], Stats(0, 0, 0, |content|, 1)),
          map[key := Kept(content, 0, 0)], map[], 0, 0)
  }

  /** Every run below starts with one stored entry. */
  lemma FirstStore(content: Bytes)
    ensures Step(Start(ROOMY), Put(A, Some(content), 0, 0, NoFault)) == Entry(A, content)
    ensures Possible(Start(ROOMY).c, Put(A, Some(content), 0, 0, NoFault))
  {
    KeysDiffer();
    hide ValidKey, KeyOf;
    assert Start(ROOMY).c == Cache(ROOMY, EmptyDisk, map[], map[], NoStats);
    hide Start;
  }

  // ----- content

  /** A crash between the rename and the metadata write is not a failed store the code can undo:
      after the restart the lookup serves the new bytes, of the same length, as the old entry. */
  lemma CrashAfterRenameServesTheUnfinishedStore() returns (es: seq<Event>)
    ensures |es| == 2 && es[1].CrashAfterRename? && Run(Start(ROOMY), es)
    ensures
      var w := After(Start(ROOMY), es);
      && Checked(w.c, A, 5).1 && A in w.c.disk.data && w.c.disk.data[A] == [8]
      && A in w.last && w.last[A].content == [7]
  {
    var crash := CrashAfterRename(A, [8], 0, 1, Untouched, [A], [], 5);
    FirstStore([7]);
    KeysDiffer();
    hide ValidKey, KeyOf, Start;
    var w := Entry(A, [7]);
    var end := Step(w, crash);
    assert Possible(w.c, crash);
    CrashHitsExactly(ROOMY, w.c.disk, A, [8], 0, 1, Untouched, [A], [], 5, 5);
    StepOfCrash(w, crash);
    assert A in w.last && w.last[A].content == [7] && w.c.cfg == ROOMY;
    hide Step, Possible, CacheStep, Entry, Opened;
    Stays(end);
    Goes(w, crash, []);
    assert [crash] + [] == [crash];
    es := [Put(A, Some([7]), 0, 0, NoFault)] + [crash];
    Goes(Start(ROOMY), Put(A, Some([7]), 0, 0, NoFault), [crash]);
  }

  lemma StepOfCrash(w: World, e: Event)
    ensures e.CrashAfterRename? ==>
      && Step(w, e).last == w.last
      && Step(w, e).c == Opened(w.c.cfg, Interrupted(w.c.disk, e.key, e.content, e.ttl, e.at, e.left), e.order, e.temps, e.now)
  {
  }

  // ----- accounting

  const LOST := Put(A, Some([8]), 0, 0, MetaFails(Untouched))

  /** Metadata of a tracked one-byte entry whose data file is gone. */
  function Orphaned(): World {
    Entry(A, [7]).(c := Entry(A, [7]).c.(disk := Disk(map[], map[A := Readable(Meta(0, 1, 0))], map[])))
  }

  lemma SecondStoreLosesData()
    ensures Possible(Entry(A, [7]).c, LOST) && Step(Entry(A, [7]), LOST) == Orphaned()
  {
    KeysDiffer();
    hide ValidKey, KeyOf;
  }

  lemma OrphanGoes()
    ensures SweptKey(Orphaned().c, A) == Cache(ROOMY, EmptyDisk, map[], map[], Stats(0, 0, 1, 1, 0))
    ensures DueAt(Orphaned().c, A, 20)
  {
    hide ValidKey, KeyOf;
  }

  lemma OrphanIsWalked()
    ensures Possible(Orphaned().c, Sweep([A], [], 20))
  {
    hide ValidKey, KeyOf;
  }

  lemma OrphanIsSwept()
    ensures Possible(Orphaned().c, Sweep([A], [], 20))
    ensures Step(Orphaned(), Sweep([A], [], 20)).c == Cache(ROOMY, EmptyDisk, map[], map[], Stats(0, 0, 1, 1, 0))
  {
    hide *;
    OrphanIsWalked();
    OrphanGoes();
    SweepOne(Orphaned().c, A, 20);
    SweepDoes(Orphaned(), [A], 20);
  }

  lemma SweepDoes(w: World, order: seq<string>, now: int)
    ensures Step(w, Sweep(order, [], now)).c == SweptKeys(w.c, Due(w.c, order, now))
  {
    hide SweptKeys, Due, LastStep, StrayStep, LeakStep, MiscountStep;
    var c := SweptKeys(w.c, Due(w.c, order, now));
    assert c.disk.temp - {} == c.disk.temp;
  }

  lemma SweepOne(c: Cache, key: string, now: int)
    requires DueAt(c, key, now)
    ensures Due(c, [key], now) == [key] && SweptKeys(c, [key]) == SweptKey(c, key)
  {
    hide DueAt, SweptKey;
    assert [key][..0] == [];
    assert Due(c, [], now) == [] && SweptKeys(c, []) == c;
  }

  /** A re-store whose metadata write fails loses the data file; when the sweep then expires the
      old metadata, the entry's bytes stay in the size although nothing is tracked any more. */
  lemma LostDataLeaks() returns (es: seq<Event>)
    ensures es == [Put(A, Some([7]), 0, 0, NoFault)] + ([LOST] + [Sweep([A], [], 20)]) && Run(Start(ROOMY), es)
    ensures
      var c := After(Start(ROOMY), es).c;
      c.sizes == map[] && c.disk == EmptyDisk && c.stats.currentSize == 1
  {
    FirstStore([7]);
    SecondStoreLosesData();
    OrphanIsSwept();
    hide Step, Possible, Entry, Orphaned, Start;
    Stays(Step(Orphaned(), Sweep([A], [], 20)));
    Goes(Orphaned(), Sweep([A], [], 20), []);
    assert [Sweep([A], [], 20)] + [] == [Sweep([A], [], 20)];
    Goes(Entry(A, [7]), LOST, [Sweep([A], [], 20)]);
    Goes(Start(ROOMY), Put(A, Some([7]), 0, 0, NoFault), [LOST] + [Sweep([A], [], 20)]);
    es := [Put(A, Some([7]), 0, 0, NoFault)] + ([LOST] + [Sweep([A], [], 20)]);
  }

  const COMPLETED := Put(B, Some([8]), 1, 5, MetaFails(Written))

  /** A one-byte tracked entry, and complete metadata of another key whose store was given up. */
  function HalfStored(): World {
    Entry(A, [7]).(c := Entry(A, [7]).c.(
      disk := Disk(map[A := [7]], map[A := Readable(Meta(0, 1, 0)), B := Readable(Meta(5, 1, 1))], map[])))
  }

  lemma ReportedFailureHalfStores()
    ensures Possible(Entry(A, [7]).c, COMPLETED) && Step(Entry(A, [7]), COMPLETED) == HalfStored()
  {
    KeysDiffer();
    hide ValidKey, KeyOf;
  }

  lemma DueSecond(c: Cache, a: string, b: string, now: int)
    requires !DueAt(c, a, now) && DueAt(c, b, now)
    ensures Due(c, [a, b], now) == [b] && SweptKeys(c, [b]) == SweptKey(c, b)
  {
    hide DueAt, SweptKey;
    assert [a, b][..1] == [a] && [a][..0] == [];
    assert Due(c, [], now) == [] && Due(c, [a], now) == [];
    assert [b][..0] == [] && SweptKeys(c, []) == c;
  }

  lemma HalfStoredGoes()
    ensures !DueAt(HalfStored().c, A, 7) && DueAt(HalfStored().c, B, 7)
    ensures
      var c := SweptKey(HalfStored().c, B);
      c.sizes == map[A := 1] && c.stats.entryCount == 0 && A in c.disk.data
  {
    KeysDiffer();
    hide ValidKey, KeyOf;
  }

  lemma HalfStoredIsWalked()
    ensures Possible(HalfStored().c, Sweep([A, B], [], 7))
  {
    KeysDiffer();
    hide ValidKey, KeyOf;
  }

  lemma HalfStoredIsSwept()
    ensures Possible(HalfStored().c, Sweep([A, B], [], 7))
    ensures
      var w := Step(HalfStored(), Sweep([A, B], [], 7));
      w.c.sizes == map[A := 1] && w.c.stats.entryCount == 0 && A in w.c.disk.data
  {
    hide *;
    HalfStoredIsWalked();
    HalfStoredGoes();
    DueSecond(HalfStored().c, A, B, 7);
    SweepDoes(HalfStored(), [A, B], 7);
  }

  /** A metadata write that completes on disk and still reports an error leaves metadata nothing
      tracks; when the sweep expires it, the entry count loses an entry that is still tracked. */
  lemma CompletedMetadataMiscounts() returns (es: seq<Event>)
    ensures es == [Put(A, Some([7]), 0, 0, NoFault)] + ([COMPLETED] + [Sweep([A, B], [], 7)]) && Run(Start(ROOMY), es)
    ensures
      var c := After(Start(ROOMY), es).c;
      c.sizes == map[A := 1] && A in c.disk.data && c.stats.entryCount == 0
  {
    FirstStore([7]);
    ReportedFailureHalfStores();
    HalfStoredIsSwept();
    hide Step, Possible, Entry, HalfStored, Start;
    var sweep := Sweep([A, B], [], 7);
    Stays(Step(HalfStored(), sweep));
    Goes(HalfStored(), sweep, []);
    assert [sweep] + [] == [sweep];
    Goes(Entry(A, [7]), COMPLETED, [sweep]);
    Goes(Start(ROOMY), Put(A, Some([7]), 0, 0, NoFault), [COMPLETED] + [sweep]);
    es := [Put(A, Some([7]), 0, 0, NoFault)] + ([COMPLETED] + [sweep]);
  }

  const LASTING := Put(B, Some([8, 8]), 100, 0, NoFault)
  const OVERLONG := CrashAfterRename(A, [1, 2, 3], 0, 1, Untouched, [A, B], [], 1)

  function TwoEntries(a: Bytes, at: int): World {
    World(Cache(ROOMY,
                Disk(map[A := a, B := [8, 8]], map[A := Readable(Meta(0, 1, 0)), B := Readable(Meta(0, 2, 100))], map[]),
                map[A := 1, B := 2], map[A := at, B := at], Stats(0, 0, 0, 3, 2)),
          map[A := Kept([7], 0, 0), B := Kept([8, 8], 0, 100)],
          if a == [7] then map[] else map[A := a], 0, 0)
  }

  lemma TwoStores()
    ensures Possible(Entry(A, [7]).c, LASTING) && Step(Entry(A, [7]), LASTING) == TwoEntries([7], 0)
  {
    KeysDiffer();
    hide ValidKey, KeyOf;
  }

  lemma ScanTwo(c: Cache, now: int)
    ensures ScannedEntries(c, [A, B], now) == ScannedEntry(ScannedEntry(c, A, now), B, now)
  {
    hide ScannedEntry;
    assert [A, B][..1] == [A] && [A][..0] == [];
    assert ScannedEntries(c, [], now) == c;
    assert ScannedEntries(c, [A], now) == ScannedEntry(c, A, now);
  }

  lemma OverlongIsFound()
    ensures ValidKey(OVERLONG.key)
    ensures Found(TwoEntries([7], 0).c, OVERLONG) == TwoEntries([1, 2, 3], 1).c.disk
  {
    KeysDiffer();
    hide ValidKey, KeyOf;
  }

  lemma OverlongIsPossible()
    ensures Possible(TwoEntries([7], 0).c, OVERLONG)
    ensures Found(TwoEntries([7], 0).c, OVERLONG) == TwoEntries([1, 2, 3], 1).c.disk
  {
    KeysDiffer();
    OverlongIsFound();
    hide ValidKey, KeyOf, Found;
  }

  lemma OverlongOpens()
    ensures Opened(ROOMY, TwoEntries([1, 2, 3], 1).c.disk, [A, B], [], 1) == TwoEntries([1, 2, 3], 1).c
  {
    KeysDiffer();
    hide ValidKey, KeyOf;
    var start := Cache(ROOMY, TwoEntries([1, 2, 3], 1).c.disk, map[], map[], NoStats);
    ScanTwo(start, 1);
    assert ScannedTemps(ScannedEntries(start, [A, B], 1), [], 1) == ScannedEntries(start, [A, B], 1);
    hide ScannedEntries, ScannedTemps;
  }

  lemma CrashLeavesALongerEntry()
    ensures Possible(TwoEntries([7], 0).c, OVERLONG)
    ensures Step(TwoEntries([7], 0), OVERLONG) == TwoEntries([1, 2, 3], 1)
  {
    OverlongIsPossible();
    OverlongOpens();
    hide ValidKey, KeyOf, Opened, Found, Possible;
  }

  lemma DueFirst(c: Cache, a: string, b: string, now: int)
    requires DueAt(c, a, now) && !DueAt(c, b, now)
    ensures Due(c, [a, b], now) == [a] && SweptKeys(c, [a]) == SweptKey(c, a)
  {
    hide DueAt, SweptKey;
    assert [a, b][..1] == [a] && [a][..0] == [];
    assert Due(c, [], now) == [] && Due(c, [a], now) == [a];
    assert SweptKeys(c, []) == c;
  }

  lemma LongerEntryGoes()
    ensures DueAt(TwoEntries([1, 2, 3], 1).c, A, 20) && !DueAt(TwoEntries([1, 2, 3], 1).c, B, 20)
    ensures
      var c := SweptKey(TwoEntries([1, 2, 3], 1).c, A);
      c.sizes == map[B := 2] && c.stats.currentSize == 0 && B in c.disk.data && c.disk.data[B] == [8, 8]
  {
    KeysDiffer();
    hide ValidKey, KeyOf;
  }

  lemma LongerEntryIsWalked()
    ensures Possible(TwoEntries([1, 2, 3], 1).c, Sweep([A, B], [], 20))
  {
    KeysDiffer();
    hide ValidKey, KeyOf;
  }

  lemma LongerEntryIsSwept()
    ensures Possible(TwoEntries([1, 2, 3], 1).c, Sweep([A, B], [], 20))
    ensures
      var w := Step(TwoEntries([1, 2, 3], 1), Sweep([A, B], [], 20));
      w.c.sizes == map[B := 2] && w.c.stats.currentSize == 0 && B in w.c.disk.data && w.c.disk.data[B] == [8, 8]
  {
    hide *;
    LongerEntryIsWalked();
    LongerEntryGoes();
    DueFirst(TwoEntries([1, 2, 3], 1).c, A, B, 20);
    SweepDoes(TwoEntries([1, 2, 3], 1), [A, B], 20);
  }

  /** A crash leaves three bytes under metadata of one; the sweep gives back all three, and the other
      entry's two bytes are no longer counted. */
  lemma OverlongCrashFallsShort() returns (es: seq<Event>)
    ensures es == [Put(A, Some([7]), 0, 0, NoFault)] + ([LASTING] + ([OVERLONG] + [Sweep([A, B], [], 20)]))
    ensures Run(Start(ROOMY), es)
    ensures
      var c := After(Start(ROOMY), es).c;
      c.sizes == map[B := 2] && B in c.disk.data && |c.disk.data[B]| == 2 && c.stats.currentSize == 0
  {
    FirstStore([7]);
    TwoStores();
    CrashLeavesALongerEntry();
    LongerEntryIsSwept();
    hide Step, Possible, Entry, TwoEntries, Start;
    var sweep := Sweep([A, B], [], 20);
    Stays(Step(TwoEntries([1, 2, 3], 1), sweep));
    Goes(TwoEntries([1, 2, 3], 1), sweep, []);
    assert [sweep] + [] == [sweep];
    Goes(TwoEntries([7], 0), OVERLONG, [sweep]);
    Goes(Entry(A, [7]), LASTING, [OVERLONG] + [sweep]);
    Goes(Start(ROOMY), Put(A, Some([7]), 0, 0, NoFault), [LASTING] + ([OVERLONG] + [sweep]));
    es := [Put(A, Some([7]), 0, 0, NoFault)] + ([LASTING] + ([OVERLONG] + [sweep]));
  }
}
