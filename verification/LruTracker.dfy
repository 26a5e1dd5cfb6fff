/**
 * The LRU index of the worker cache (pkg/worker/cache.go): a slice of entries with a key index,
 * removal by swapping with the last entry. It stands for a map from key to last use and size.
 */
module LruTrackers {
  import opened MapSums
  import opened Options

  datatype Entry = Entry(key: string, lastUsed: int, size: int)

  /** Every key points at its own entry and every entry is pointed at. */
  ghost predicate Indexed(es: seq<Entry>, ix: map<string, nat>) {
    && (forall k :: k in ix ==> ix[k] < |es| && es[ix[k]].key == k)
    && (forall i :: 0 <= i < |es| ==> es[i].key in ix && ix[es[i].key] == i)
  }

  ghost function UsedOf(es: seq<Entry>, ix: map<string, nat>): map<string, int>
    requires Indexed(es, ix)
  {
    map k | k in ix :: es[ix[k]].lastUsed
  }

  ghost function SizesOf(es: seq<Entry>, ix: map<string, nat>): map<string, int>
    requires Indexed(es, ix)
  {
    map k | k in ix :: es[ix[k]].size
  }

  class LruTracker {
    var entries: seq<Entry>
    var keyIndex: map<string, nat>

    ghost predicate Valid()
      reads this
    {
      Indexed(entries, keyIndex)
    }

    /** The tracked keys with their last use. */
    ghost function Used(): map<string, int>
      reads this
      requires Valid()
    {
      UsedOf(entries, keyIndex)
    }

    /** The tracked keys with their size. */
    ghost function Sizes(): map<string, int>
      reads this
      requires Valid()
    {
      SizesOf(entries, keyIndex)
    }

    constructor ()
      ensures Valid() && Used() == map[] && Sizes() == map[]
    {
      entries, keyIndex := [], map[];
    }

    method Touch(key: string, now: int)
      requires Valid()
      modifies this
      ensures Valid() && Sizes() == old(Sizes())
      ensures Used() == if key in old(Used()) then old(Used())[key := now] else old(Used())
    {
      if key !in keyIndex { return; }
      var idx := keyIndex[key];
      UpdateKeepsIndex(entries, keyIndex, idx, now, entries[idx].size);
      entries := entries[idx := entries[idx].(lastUsed := now)];
    }

    method Add(key: string, size: int, now: int)
      requires Valid()
      modifies this
      ensures Valid() && Used() == old(Used())[key := now] && Sizes() == old(Sizes())[key := size]
    {
      hide Indexed, UsedOf, SizesOf;
      if key in keyIndex {
        var idx := IndexFor(key);
        UpdateKeepsIndex(entries, keyIndex, idx, now, size);
        entries := entries[idx := entries[idx].(lastUsed := now, size := size)];
        return;
      }
      AppendKeepsIndex(entries, keyIndex, Entry(key, now, size));
      entries := entries + [Entry(key, now, size)];
      keyIndex := keyIndex[key := |entries| - 1];
    }

    method Remove(key: string)
      requires Valid()
      modifies this
      ensures Valid() && Used() == old(Used()) - {key} && Sizes() == old(Sizes()) - {key}
    {
      if key !in keyIndex {
        AbsentKey(entries, keyIndex, key);
        return;
      }
      hide Indexed, UsedOf, SizesOf;
      SwapKeepsIndex(entries, keyIndex, key);
      var es, ix := entries, keyIndex;
      var idx := ix[key];
      var lastIdx := |es| - 1;
      if idx != lastIdx {
        es := es[idx := es[lastIdx]];
        ix := ix[es[idx].key := idx];
      }
      entries, keyIndex := es[..lastIdx], ix - {key};
    }

    method IndexFor(key: string) returns (idx: nat)
      requires Valid() && key in keyIndex
      ensures idx == keyIndex[key] && idx < |entries| && entries[idx].key == key
    {
      idx := keyIndex[key];
    }

    method SizeOf(key: string) returns (size: Option<int>)
      requires Valid()
      ensures size == if key in Sizes() then Some(Sizes()[key]) else None
    {
      if key !in keyIndex { return None; }
      size := Some(entries[keyIndex[key]].size);
    }

    /** A least recently used entry, or none when nothing is tracked. */
    method GetLRU() returns (oldest: Option<Entry>)
      requires Valid()
      ensures oldest.None? <==> Used() == map[]
      ensures oldest.Some? ==>
        var e := oldest.value;
        && e.key in Used() && Used()[e.key] == e.lastUsed && Sizes()[e.key] == e.size
        && forall k :: k in Used() ==> e.lastUsed <= Used()[k]
    {
      if |entries| == 0 {
        return None;
      }
      assert entries[0].key in Used();
      var e := entries[0];
      var i := 1;
      while i < |entries|
        invariant 1 <= i <= |entries| && e in entries
        invariant forall j :: 0 <= j < i ==> e.lastUsed <= entries[j].lastUsed
      {
        if entries[i].lastUsed < e.lastUsed {
          e := entries[i];
        }
        i := i + 1;
      }
      oldest := Some(e);
    }

    method TotalSize() returns (total: int)
      requires Valid()
      ensures total == Sum(Sizes())
    {
      hide Sum;
      total := 0;
      NothingListed();
      for i := 0 to |entries|
        invariant total == Sum(Listed(entries[..i]))
      {
        ListedStep(entries, keyIndex, i);
        total := total + entries[i].size;
      }
      assert entries[..|entries|] == entries;
      ListedIsSizes(entries, keyIndex);
    }
  }

  // ----- what each slice operation does to the index

  lemma UpdateKeepsIndex(es: seq<Entry>, ix: map<string, nat>, idx: nat, lastUsed: int, size: int)
    requires Indexed(es, ix) && idx < |es|
    ensures
      var es', key := es[idx := es[idx].(lastUsed := lastUsed, size := size)], es[idx].key;
      && Indexed(es', ix)
      && UsedOf(es', ix) == UsedOf(es, ix)[key := lastUsed]
      && SizesOf(es', ix) == SizesOf(es, ix)[key := size]
      && key in UsedOf(es, ix)
  {
  }

  lemma AppendKeepsIndex(es: seq<Entry>, ix: map<string, nat>, e: Entry)
    requires Indexed(es, ix) && e.key !in ix
    ensures
      var es', ix' := es + [e], ix[e.key := |es|];
      && Indexed(es', ix')
      && UsedOf(es', ix') == UsedOf(es, ix)[e.key := e.lastUsed]
      && SizesOf(es', ix') == SizesOf(es, ix)[e.key := e.size]
  {
  }

  lemma AbsentKey(es: seq<Entry>, ix: map<string, nat>, key: string)
    requires Indexed(es, ix) && key !in ix
    ensures UsedOf(es, ix) - {key} == UsedOf(es, ix) && SizesOf(es, ix) - {key} == SizesOf(es, ix)
  {
  }

  function SwappedEntries(es: seq<Entry>, idx: nat): seq<Entry>
    requires idx < |es|
  {
    es[idx := es[|es| - 1]][..|es| - 1]
  }

  function SwappedIndex(es: seq<Entry>, ix: map<string, nat>, idx: nat): map<string, nat>
    requires idx < |es|
  {
    (if idx != |es| - 1 then ix[es[|es| - 1].key := idx] else ix) - {es[idx].key}
  }

  /** Moving the last entry into the hole and cutting the slice removes exactly one key. */
  lemma SwapKeepsIndex(es: seq<Entry>, ix: map<string, nat>, key: string)
    requires Indexed(es, ix) && key in ix
    ensures ix[key] < |es| && es[ix[key]].key == key
    ensures
      var es', ix' := SwappedEntries(es, ix[key]), SwappedIndex(es, ix, ix[key]);
      && Indexed(es', ix')
      && UsedOf(es', ix') == UsedOf(es, ix) - {key}
      && SizesOf(es', ix') == SizesOf(es, ix) - {key}
  {
    SwapIsIndexed(es, ix, key);
    var es', ix' := SwappedEntries(es, ix[key]), SwappedIndex(es, ix, ix[key]);
    hide Indexed;
    assert ix'.Keys == ix.Keys - {key};
    forall k | k in ix'
      ensures es'[ix'[k]] == es[ix[k]]
    {
    }
  }

  lemma SwapIsIndexed(es: seq<Entry>, ix: map<string, nat>, key: string)
    requires Indexed(es, ix) && key in ix
    ensures
      var es', ix' := SwappedEntries(es, ix[key]), SwappedIndex(es, ix, ix[key]);
      && Indexed(es', ix') && ix'.Keys == ix.Keys - {key}
      && forall k :: k in ix' ==> es'[ix'[k]] == es[ix[k]]
  {
  }

  // ----- the sizes of a list of entries

  ghost function Listed(es: seq<Entry>): map<string, int> {
    if es == [] then map[] else Listed(es[..|es| - 1])[es[|es| - 1].key := es[|es| - 1].size]
  }

  lemma NothingListed()
    ensures Sum(Listed([])) == 0
  {
  }

  lemma {:induction false} ListedPrefix(es: seq<Entry>, ix: map<string, nat>, n: nat)
    requires Indexed(es, ix) && n <= |es|
    ensures forall k :: k in Listed(es[..n]) <==> k in ix && ix[k] < n
    ensures forall k :: k in ix && ix[k] < n ==> Listed(es[..n])[k] == es[ix[k]].size
  {
    if n > 0 {
      ListedPrefix(es, ix, n - 1);
      assert es[..n][..n - 1] == es[..n - 1];
    }
  }

  lemma ListedStep(es: seq<Entry>, ix: map<string, nat>, n: nat)
    requires Indexed(es, ix) && n < |es|
    ensures Sum(Listed(es[..n + 1])) == Sum(Listed(es[..n])) + es[n].size
  {
    hide Sum;
    ListedPrefix(es, ix, n);
    assert es[..n + 1][..n] == es[..n];
    SumUpdate(Listed(es[..n]), es[n].key, es[n].size);
    SumAbsent(Listed(es[..n]), es[n].key);
  }

  lemma ListedIsSizes(es: seq<Entry>, ix: map<string, nat>)
    requires Indexed(es, ix)
    ensures Listed(es) == SizesOf(es, ix)
  {
    ListedPrefix(es, ix, |es|);
    assert es[..|es|] == es;
  }
}
