/** What single cache operations guarantee (src/SipiCache.cpp, src/SipiCache.h). */
module CacheLaws {
  import opened CacheModel
  import Wrap

  // ---------------------------------------------------------------- purge

  lemma {:induction false} VictimsDistinct(s: State, order: seq<string>)
    requires Distinct(order)
    ensures Distinct(Victims(s, order))
  {
    if |order| > 0 {
      VictimsDistinct(s, order[1..]);
    }
  }

  ghost predicate SortedByAccess(t: Table, ks: seq<string>) {
    && (forall i :: 0 <= i < |ks| ==> ks[i] in t)
    && (forall i, j :: 0 <= i < j < |ks| ==> t[ks[i]].accessTime <= t[ks[j]].accessTime)
  }

  /** Victims keep the order of the list. */
  lemma {:induction false} VictimsSorted(s: State, order: seq<string>)
    requires SortedByAccess(s.table, order)
    ensures SortedByAccess(s.table, Victims(s, order))
  {
    if |order| > 0 {
      VictimsSorted(s, order[1..]);
      var w := Victims(s, order[1..]);
      forall j | 0 <= j < |w|
        ensures s.table[order[0]].accessTime <= s.table[w[j]].accessTime
      {
        LaterInOrder(s.table, order, w[j]);
      }
      SortedCons(s.table, order[0], w);
    }
  }

  lemma LaterInOrder(t: Table, order: seq<string>, k: string)
    requires |order| > 0 && SortedByAccess(t, order) && k in order[1..]
    ensures t[order[0]].accessTime <= t[k].accessTime
  {
    var i :| 0 <= i < |order[1..]| && order[1..][i] == k;
    assert order[i + 1] == k;
  }

  lemma SortedCons(t: Table, k: string, w: seq<string>)
    requires k in t && SortedByAccess(t, w) && forall j :: 0 <= j < |w| ==> t[k].accessTime <= t[w[j]].accessTime
    ensures SortedByAccess(t, [k] + w)
  {
  }

  /**
   When `purge` fires it evicts only unpinned entries, each no more recently used than any unpinned
   survivor; a non-negative result counts the evictions and means both low-water marks are met; -1
   means every survivor is pinned. Pinned files stay on disk, and without firing nothing changes.
   */
  lemma PurgeLaw(s: State, order: seq<string>)
    requires LruOrder(s.table, order)
    ensures var (s', r) := Purge(s, order);
            && s'.table.Keys <= s.table.Keys && (forall k :: k in s'.table ==> s'.table[k] == s.table[k])
            && s'.blocked == s.blocked && s'.dir == s.dir && s'.maxSize == s.maxSize && s'.maxFiles == s.maxFiles
            && (forall k :: k in s.table && k !in s'.table ==> !Pinned(s, s.table[k].cachepath))
            && (forall e, u :: e in s.table && e !in s'.table && u in s'.table && !Pinned(s, s.table[u].cachepath) ==>
                 s.table[e].accessTime <= s.table[u].accessTime)
            && (!Fires(s) ==> s' == s && r == 0)
            && (Fires(s) && r >= 0 ==> Low(s') && r == |s.table.Keys - s'.table.Keys|)
            && (r < 0 ==> r == -1 && !Low(s') && forall k :: k in s'.table ==> Pinned(s, s'.table[k].cachepath))
            && s'.disk <= s.disk && (forall n :: n in s.disk && Pinned(s, n) ==> n in s'.disk)
  {
    if Fires(s) {
      EvictIsPrefix(s, order);
      var (s', n) := Evict(s, order);
      OldestUnpinnedGo(s, order, s', n);
      EvictionsCounted(s, order, s', n);
      PinnedFilesStay(s, order, s', n);
      SurvivorsPinned(s, s', n, Victims(s, order));
    }
  }

  lemma OldestUnpinnedGo(s: State, order: seq<string>, s': State, n: nat)
    requires LruOrder(s.table, order) && EvictedPrefix(s, s', n, Victims(s, order))
    ensures forall k :: k in s.table && k !in s'.table ==> !Pinned(s, s.table[k].cachepath)
    ensures forall e, u :: e in s.table && e !in s'.table && u in s'.table && !Pinned(s, s.table[u].cachepath) ==>
                 s.table[e].accessTime <= s.table[u].accessTime
  {
    VictimsSorted(s, order);
    PrefixIsOldest(s, s', n, Victims(s, order));
  }

  lemma EvictionsCounted(s: State, order: seq<string>, s': State, n: nat)
    requires LruOrder(s.table, order) && EvictedPrefix(s, s', n, Victims(s, order))
    ensures n == |s.table.Keys - s'.table.Keys|
  {
    VictimsDistinct(s, order);
    EvictedCount(s, s', Victims(s, order)[..n]);
  }

  lemma PinnedFilesStay(s: State, order: seq<string>, s': State, n: nat)
    requires EvictedPrefix(s, s', n, Victims(s, order))
    ensures forall x :: x in s.disk && Pinned(s, x) ==> x in s'.disk
  {
    VictimsUnpinned(s, order);
    PinnedStay(s, s', Victims(s, order)[..n]);
  }

  lemma VictimsUnpinned(s: State, order: seq<string>)
    ensures forall i :: 0 <= i < |Victims(s, order)| ==>
      Victims(s, order)[i] in s.table && !Pinned(s, s.table[Victims(s, order)[i]].cachepath)
  {
    assert forall i :: 0 <= i < |Victims(s, order)| ==> Victims(s, order)[i] in Victims(s, order);
  }

  lemma EvictedCount(s: State, s': State, ks: seq<string>)
    requires EvictedFrom(s, s', ks) && Distinct(ks)
    ensures |s.table.Keys - s'.table.Keys| == |ks|
  {
    DistinctCard(ks);
    assert s.table.Keys - s'.table.Keys == KeySet(ks);
  }

  lemma SurvivorsPinned(s: State, s': State, n: nat, v: seq<string>)
    requires EvictedPrefix(s, s', n, v)
    requires forall k :: k in s.table && !Pinned(s, s.table[k].cachepath) ==> k in v
    ensures Low(s') || forall k :: k in s'.table ==> Pinned(s, s'.table[k].cachepath)
  {
    LowAfterIsLow(s, s', v[..n]);
    if !Low(s') {
      assert v[..n] == v;
    }
  }

  lemma LowAfterIsLow(s: State, s': State, ks: seq<string>)
    requires EvictedFrom(s, s', ks)
    ensures LowAfter(s, ks) == Low(s')
  {
  }

  lemma PinnedStay(s: State, s': State, ks: seq<string>)
    requires EvictedFrom(s, s', ks) && forall i :: 0 <= i < |ks| ==> !Pinned(s, s.table[ks[i]].cachepath)
    ensures forall x :: x in s.disk && Pinned(s, x) ==> x in s'.disk
  {
  }

  /** Evicting a prefix of the unpinned entries, oldest first, leaves only newer unpinned ones. */
  lemma PrefixIsOldest(s: State, s': State, n: nat, v: seq<string>)
    requires SortedByAccess(s.table, v) && n <= |v| && s'.table == s.table - KeySet(v[..n])
    requires forall k :: k in s.table && !Pinned(s, s.table[k].cachepath) ==> k in v
    ensures forall e, u :: e in s.table && e !in s'.table && u in s'.table && !Pinned(s, s.table[u].cachepath) ==>
                 s.table[e].accessTime <= s.table[u].accessTime
  {
    forall e, u | e in s.table && e !in s'.table && u in s'.table && !Pinned(s, s.table[u].cachepath)
      ensures s.table[e].accessTime <= s.table[u].accessTime
    {
      assert u in v && e in v[..n];
      var i :| 0 <= i < n && v[..n][i] == e;
      var j :| 0 <= j < |v| && v[j] == u;
      assert u !in v[..n];
    }
  }

  lemma {:induction false} DistinctCard(ks: seq<string>)
    requires Distinct(ks)
    ensures |KeySet(ks)| == |ks|
  {
    if |ks| > 0 {
      var n := |ks| - 1;
      DistinctCard(ks[..n]);
      assert KeySet(ks) == KeySet(ks[..n]) + {ks[n]};
    }
  }

  // ---------------------------------------------------------------- accounting

  /** How far the byte counter is from the sizes in the table. */
  ghost function BytesOff(s: State): int { s.used - Total(s.table) }

  /** How far the file counter is from the number of entries. */
  ghost function FilesOff(s: State): int { s.nfiles - |s.table| }

  /** What has been added and subtracted is what the table holds. */
  ghost predicate Counted(s: State) { BytesOff(s) == 0 && FilesOff(s) == 0 }

  /** The program's counters, which are residues, say what the table holds. */
  ghost predicate Exact(s: State) { s.used % W64 == Total(s.table) && s.nfiles % W32 == |s.table| }

  /** The table's totals are within the range of the counters. */
  ghost predicate SumsFit(t: Table) { Total(t) < W64 && |t| < W32 }

  lemma ExactIff(s: State)
    ensures Exact(s) <==> SumsFit(s.table) && BytesOff(s) % W64 == 0 && FilesOff(s) % W32 == 0
  {
    Wrap.ResidueIff(s.used, Total(s.table), W64);
    Wrap.ResidueIff(s.nfiles, |s.table|, W32);
  }

  /** Uncounted wraps apart, the two notions agree. */
  lemma CountedExactIff(s: State)
    requires Counted(s)
    ensures Exact(s) <==> SumsFit(s.table)
  {
    ExactIff(s);
  }

  /** Taking the entries of `ks` out takes off their sizes and their number. */
  ghost predicate TakenOff(t: Table, ks: seq<string>)
    requires forall i :: 0 <= i < |ks| ==> ks[i] in t
  {
    Total(t - KeySet(ks)) == Total(t) - SizeOf(t, ks) && |t - KeySet(ks)| == |t| - |ks|
  }

  lemma {:induction false} TotalRemoveSeq(t: Table, ks: seq<string>)
    requires Distinct(ks) && forall i :: 0 <= i < |ks| ==> ks[i] in t
    ensures TakenOff(t, ks)
  {
    if |ks| == 0 {
      TakenOffNone(t, ks);
    } else {
      DistinctFront(ks);
      TotalRemoveSeq(t, ks[..|ks| - 1]);
      TakenOffLast(t, ks);
    }
  }

  lemma {:induction false} TakenOffNone(t: Table, ks: seq<string>)
    requires |ks| == 0
    ensures TakenOff(t, ks)
  {
    assert t - KeySet(ks) == t;
  }

  lemma DistinctFront(ks: seq<string>)
    requires |ks| > 0 && Distinct(ks)
    ensures Distinct(ks[..|ks| - 1])
  {
  }

  lemma {:induction false} TakenOffLast(t: Table, ks: seq<string>)
    requires |ks| > 0 && Distinct(ks) && (forall i :: 0 <= i < |ks| ==> ks[i] in t) && TakenOff(t, ks[..|ks| - 1])
    ensures TakenOff(t, ks)
  {
    RemoveLast(t, ks, t - KeySet(ks[..|ks| - 1]));
  }

  lemma RemoveLast(t: Table, ks: seq<string>, u: Table)
    requires |ks| > 0 && Distinct(ks) && (forall i :: 0 <= i < |ks| ==> ks[i] in t) && u == t - KeySet(ks[..|ks| - 1])
    ensures Total(t - KeySet(ks)) == Total(u) - t[ks[|ks| - 1]].fsize && |t - KeySet(ks)| == |u| - 1
    ensures SizeOf(t, ks) == SizeOf(t, ks[..|ks| - 1]) + t[ks[|ks| - 1]].fsize
  {
    KeySetLast(t, ks);
    TotalRemove(u, ks[|ks| - 1]);
  }

  lemma KeySetLast(t: Table, ks: seq<string>)
    requires |ks| > 0 && Distinct(ks) && ks[|ks| - 1] in t
    ensures ks[|ks| - 1] in t - KeySet(ks[..|ks| - 1])
    ensures t - KeySet(ks) == t - KeySet(ks[..|ks| - 1]) - {ks[|ks| - 1]}
  {
    var n := |ks| - 1;
    assert KeySet(ks) == KeySet(ks[..n]) + {ks[n]};
  }

  /** Whatever a state's counters are off by, evicting entries keeps them off by the same amount. */
  lemma EvictedDrift(s: State, s': State, ks: seq<string>)
    requires Distinct(ks) && EvictedFrom(s, s', ks)
    ensures BytesOff(s') == BytesOff(s) && FilesOff(s') == FilesOff(s)
  {
    TotalRemoveSeq(s.table, ks);
  }

  lemma PurgeDrift(s: State, order: seq<string>)
    requires LruOrder(s.table, order)
    ensures BytesOff(Purge(s, order).0) == BytesOff(s) && FilesOff(Purge(s, order).0) == FilesOff(s)
  {
    if Fires(s) {
      EvictIsPrefix(s, order);
      VictimsDistinct(s, order);
      EvictedDrift(s, Evict(s, order).0, Victims(s, order)[..Evict(s, order).1]);
    }
  }

  /** `check` changes only an access time and a pin, never the accounts. */
  lemma CheckDrift(s: State, origMtime: int, canonical: string, block: bool, now: int)
    ensures var s' := Check(s, origMtime, canonical, block, now).0;
            BytesOff(s') == BytesOff(s) && FilesOff(s') == FilesOff(s)
  {
    if canonical in s.table {
      TotalReplace(s.table, canonical, s.table[canonical].(accessTime := now));
    }
  }

  lemma RemoveDrift(s: State, canonical: string)
    ensures BytesOff(Remove(s, canonical).0) == BytesOff(s) && FilesOff(Remove(s, canonical).0) == FilesOff(s)
  {
    if canonical in s.table {
      TotalRemove(s.table, canonical);
    }
  }

  /** The replaced entry is still there after the purge inside `add`, and the purge succeeds. */
  ghost predicate SafeReplacement(s: State, canonical: string, order: seq<string>) {
    var (s1, r) := Purge(Forgotten(s, canonical), order);
    r != -1 && canonical in s1.table
  }

  /** Entering a record shifts the accounts only by what it overwrites. */
  lemma InsertDrift(s: State, canonical: string, fr: Record)
    ensures var s' := s.(table := s.table[canonical := fr], used := s.used + fr.fsize, nfiles := s.nfiles + 1);
            if canonical in s.table
            then BytesOff(s') == BytesOff(s) + s.table[canonical].fsize && FilesOff(s') == FilesOff(s) + 1
            else BytesOff(s') == BytesOff(s) && FilesOff(s') == FilesOff(s)
  {
    if canonical in s.table {
      TotalReplace(s.table, canonical, fr);
    } else {
      TotalInsert(s.table, canonical, fr);
    }
  }

  /**
   `add` enters the record if its purge does not refuse; otherwise no entry is new and the new file is gone.
   */
  lemma AddOutcome(s: State, k: string, fr: Record, order: seq<string>)
    requires LruOrder(s.table, order)
    ensures var s' := Add(s, k, fr, order);
            if Room(s, k, order) then k in s'.table && s'.table[k] == fr
            else (forall j :: j in s'.table ==> j in s.table && s'.table[j] == s.table[j]) && fr.cachepath !in s'.disk
    ensures Room(s, k, order) <==> !Refuses(Forgotten(s, k), order)
  {
    PurgeFailsIff(Forgotten(s, k), order);
    PurgeLaw(Forgotten(s, k), order);
  }

  // ---------------------------------------------------------------- when a purge fails

  /** No number of evictions from the front of `v` brings both counters to their marks. */
  ghost predicate NeverLow(s: State, v: seq<string>) {
    && (forall i :: 0 <= i < |v| ==> v[i] in s.table)
    && (forall n :: 0 <= n <= |v| ==> !LowAfter(s, v[..n]))
  }

  /** The purge fires, and no number of evictions suffices. */
  ghost predicate Refuses(s: State, order: seq<string>) { Fires(s) && NeverLow(s, Victims(s, order)) }

  lemma PrefixNeverLow(s: State, s': State, n: nat, v: seq<string>)
    requires EvictedPrefix(s, s', n, v)
    ensures !Low(s') <==> NeverLow(s, v)
  {
    LowAfterIsLow(s, s', v[..n]);
  }

  /** A purge returns -1 exactly then. */
  lemma PurgeFailsIff(s: State, order: seq<string>)
    requires LruOrder(s.table, order)
    ensures Purge(s, order).1 == -1 <==> Refuses(s, order)
  {
    if Fires(s) {
      EvictIsPrefix(s, order);
      PrefixNeverLow(s, Evict(s, order).0, Evict(s, order).1, Victims(s, order));
    }
  }

  ghost function PinnedKeys(s: State): set<string> { set k | k in s.table && Pinned(s, s.table[k].cachepath) }

  /** What the counters come to when every unpinned entry is gone. */
  ghost predicate PinsLow(s: State) {
    LowCounts(s.maxSize, s.maxFiles, s.used - (Total(s.table) - SumOver(s.table, PinnedKeys(s))),
              s.nfiles - (|s.table| - |PinnedKeys(s)|))
  }

  /** The counters do not wrap while all unpinned entries are evicted. */
  ghost predicate NoWrap(s: State) {
    && Total(s.table) - SumOver(s.table, PinnedKeys(s)) <= s.used < W64
    && |s.table| - |PinnedKeys(s)| <= s.nfiles < W32
  }

  /** The unpinned entries are what the pinned ones leave of the table. */
  lemma UnpinnedTotals(s: State, order: seq<string>)
    requires LruOrder(s.table, order)
    ensures (forall i :: 0 <= i < |Victims(s, order)| ==> Victims(s, order)[i] in s.table)
    ensures SizeOf(s.table, Victims(s, order)) == Total(s.table) - SumOver(s.table, PinnedKeys(s))
    ensures |Victims(s, order)| == |s.table| - |PinnedKeys(s)|
  {
    var v, t := Victims(s, order), s.table;
    VictimsUnpinned(s, order);
    VictimsDistinct(s, order);
    TotalRemoveSeq(t, v);
    var u := t - KeySet(v);
    assert u.Keys == PinnedKeys(s);
    SumOverAgree(t, u, u.Keys);
  }

  /**
   While no counter wraps, a firing purge fails if and only if the pinned entries alone exceed a low-water
   mark, whatever the order it goes through.
   */
  lemma PurgeFailsByPins(s: State, order: seq<string>)
    requires LruOrder(s.table, order) && Fires(s) && NoWrap(s)
    ensures Purge(s, order).1 == -1 <==> !PinsLow(s)
  {
    PurgeFailsIff(s, order);
    UnpinnedTotals(s, order);
    RefusesByPins(s, Victims(s, order));
  }

  lemma RefusesByPins(s: State, v: seq<string>)
    requires NoWrap(s) && (forall i :: 0 <= i < |v| ==> v[i] in s.table)
    requires SizeOf(s.table, v) == Total(s.table) - SumOver(s.table, PinnedKeys(s))
    requires |v| == |s.table| - |PinnedKeys(s)|
    ensures NeverLow(s, v) <==> !PinsLow(s)
  {
    NeverLowIff(s, v);
  }

  /** Without wrapping, all evictions together go lowest. */
  lemma NeverLowIff(s: State, v: seq<string>)
    requires forall i :: 0 <= i < |v| ==> v[i] in s.table
    requires 0 <= s.used - SizeOf(s.table, v) && s.used < W64 && 0 <= s.nfiles - |v| && s.nfiles < W32
    ensures NeverLow(s, v) <==> !LowAfter(s, v)
  {
    assert v[..|v|] == v;
    if !NeverLow(s, v) {
      var n :| 0 <= n <= |v| && LowAfter(s, v[..n]);
      LowAfterMonotone(s, v, n);
    }
  }

  /**
   `add` of a new key, or of the key of a pinned entry, finds room exactly if the pins, without that
   entry, allow it.
   */
  lemma RoomIff(s: State, k: string, order: seq<string>)
    requires Counted(s) && SumsFit(s.table) && LruOrder(s.table, order) &&
      (k in s.table ==> Pinned(s, s.table[k].cachepath))
    ensures Room(s, k, order) <==> !Fires(Forgotten(s, k)) || PinsLow(Forgotten(s, k))
  {
    var s1 := Forgotten(s, k);
    if Fires(s1) {
      assert PinnedKeys(s1) == PinnedKeys(s);
      PinnedPart(s.table, PinnedKeys(s));
      if k in s.table {
        SumOverRemove(s.table, PinnedKeys(s), k);
      }
      PurgeFailsByPins(s1, order);
    }
  }

  /** Some of the entries have no more bytes than all. */
  lemma PinnedPart(t: Table, keys: set<string>)
    requires keys <= t.Keys
    ensures SumOver(t, keys) <= Total(t) && |keys| <= |t|
  {
    SumOverSubset(t, keys, t.Keys);
  }

  /** A purge changes no record. */
  lemma PurgeKeepsRecord(s: State, order: seq<string>, k: string)
    requires LruOrder(s.table, order)
    ensures var s' := Purge(s, order).0; k in s'.table ==> k in s.table && s'.table[k] == s.table[k]
  {
    PurgeLaw(s, order);
  }

  /**
   `add` keeps the accounts exactly as far off as they were, except in an unsafe replacement:
   then the bytes come out short by the old size and the files short by one.
   */
  lemma AddDrift(s: State, canonical: string, fr: Record, order: seq<string>)
    requires LruOrder(s.table, order)
    ensures var s' := Add(s, canonical, fr, order);
            if canonical !in s.table || SafeReplacement(s, canonical, order)
            then BytesOff(s') == BytesOff(s) && FilesOff(s') == FilesOff(s)
            else BytesOff(s') == BytesOff(s) - s.table[canonical].fsize && FilesOff(s') == FilesOff(s) - 1
  {
    var s1 := Forgotten(s, canonical);
    PurgeDrift(s1, order);
    PurgeKeepsRecord(s1, order, canonical);
    InsertDrift(Purge(s1, order).0, canonical, fr);
  }

  // ---------------------------------------------------------------- when a replacement is safe

  lemma {:induction false} VictimsConcat(s: State, a: seq<string>, b: seq<string>)
    ensures Victims(s, a + b) == Victims(s, a) + Victims(s, b)
  {
    if |a| == 0 {
      assert a + b == b;
    } else {
      assert (a + b)[1..] == a[1..] + b;
      VictimsConcat(s, a[1..], b);
    }
  }

  /** The unpinned entries that purge goes through before entry number `i` of the list, or all if that one is pinned. */
  function Ahead(s: State, order: seq<string>, i: nat): seq<string>
    requires i < |order| && order[i] in s.table
  {
    if Pinned(s, s.table[order[i]].cachepath) then Victims(s, order) else Victims(s, order[..i])
  }

  lemma AheadIsPrefix(s: State, order: seq<string>, i: nat)
    requires i < |order| && order[i] in s.table && Distinct(order)
    ensures Ahead(s, order, i) <= Victims(s, order)
    ensures order[i] !in Ahead(s, order, i) && Distinct(Ahead(s, order, i))
    ensures forall j :: 0 <= j < |Ahead(s, order, i)| ==> Ahead(s, order, i)[j] in s.table
    ensures if Pinned(s, s.table[order[i]].cachepath) then Ahead(s, order, i) == Victims(s, order)
            else |Ahead(s, order, i)| < |Victims(s, order)| && Victims(s, order)[|Ahead(s, order, i)|] == order[i]
  {
    assert order == order[..i] + ([order[i]] + order[i + 1..]);
    VictimsConcat(s, order[..i], [order[i]] + order[i + 1..]);
    VictimsDistinct(s, order);
    VictimsDistinct(s, order[..i]);
    VictimsUnpinned(s, order);
    VictimsUnpinned(s, order[..i]);
  }

  /** With counters that do not wrap, evicting more can only help to reach the marks. */
  lemma LowAfterMonotone(s: State, ks: seq<string>, n: nat)
    requires n <= |ks| && (forall j :: 0 <= j < |ks| ==> ks[j] in s.table)
    requires 0 <= s.used - SizeOf(s.table, ks) && s.used < W64 && 0 <= s.nfiles - |ks| && s.nfiles < W32
    requires LowAfter(s, ks[..n])
    ensures LowAfter(s, ks)
  {
    SizeOfPrefix(s.table, ks, n);
    LowCountsMono(s.maxSize, s.maxFiles, s.used - SizeOf(s.table, ks[..n]), s.nfiles - n,
                  s.used - SizeOf(s.table, ks), s.nfiles - |ks|);
  }

  lemma LowCountsMono(maxSize: int, maxFiles: nat, used: int, nfiles: int, used': int, nfiles': int)
    requires 0 <= used' <= used < W64 && 0 <= nfiles' <= nfiles < W32 && LowCounts(maxSize, maxFiles, used, nfiles)
    ensures LowCounts(maxSize, maxFiles, used', nfiles')
  {
  }

  lemma {:induction false} SizeOfPrefix(t: Table, ks: seq<string>, n: nat)
    requires n <= |ks| && forall j :: 0 <= j < |ks| ==> ks[j] in t
    ensures SizeOf(t, ks[..n]) <= SizeOf(t, ks)
  {
    if n == |ks| {
      assert ks[..n] == ks;
    } else {
      SizeOfPrefix(t, ks[..|ks| - 1], n);
      assert ks[..|ks| - 1][..n] == ks[..n];
    }
  }

  /** Counters that are exact and have not wrapped. */
  ghost predicate Sound(s: State) { Counted(s) && s.used < W64 && s.nfiles < W32 }

  /** Forgetting `k` and evicting other entries never takes the counters below zero. */
  lemma AheadFits(s: State, k: string, ks: seq<string>)
    requires Sound(s) && k in s.table && k !in ks && Distinct(ks) && forall j :: 0 <= j < |ks| ==> ks[j] in s.table
    ensures var s1 := Forgotten(s, k);
            0 <= s1.used - SizeOf(s1.table, ks) && s1.used < W64 && 0 <= s1.nfiles - |ks| && s1.nfiles < W32
  {
    TotalRemoveSeq(s.table, ks);
    TotalRemove(s.table - KeySet(ks), k);
  }

  /**
   Replacing entry number `i` of the purge order keeps the accounts exact if and only if, without
   the replaced entry, the cache is below its limits, or both low-water marks are met by the time
   purge would come to that entry (or to the end of the list, if it is pinned). The same holds of
   the program's counters as long as the new size does not make them wrap.
   */
  lemma ReplacementSafeIff(s: State, order: seq<string>, i: nat, fr: Record)
    requires Sound(s) && LruOrder(s.table, order) && i < |order| && order[i] in s.table
    ensures var s1 := Forgotten(s, order[i]);
            && (forall j :: 0 <= j < |Ahead(s1, order, i)| ==> Ahead(s1, order, i)[j] in s1.table)
            && var safe := !Fires(s1) || LowAfter(s1, Ahead(s1, order, i));
               && (Counted(Add(s, order[i], fr, order)) <==> safe)
               && (s.used + fr.fsize < W64 ==> (Exact(Add(s, order[i], fr, order)) <==> safe))
  {
    var s1 := Forgotten(s, order[i]);
    AheadIsPrefix(s1, order, i);
    AheadFits(s, order[i], Ahead(s1, order, i));
    AddDrift(s, order[i], fr, order);
    if Fires(s1) {
      EvictIsPrefix(s1, order);
      SafeByAhead(s1, order, i, Evict(s1, order).0, Evict(s1, order).1);
    }
    if s.used + fr.fsize < W64 {
      ReplacedExact(s, order[i], fr, order);
    }
  }

  lemma SubTable(t: Table, u: Table)
    requires u.Keys <= t.Keys && forall k :: k in u ==> u[k] == t[k]
    ensures Total(u) <= Total(t) && |u| <= |t|
  {
    SumOverAgree(t, u, u.Keys);
    SumOverSubset(t, u.Keys, t.Keys);
  }

  lemma {:induction false} SumOverSubset(t: Table, a: set<string>, b: set<string>)
    requires a <= b <= t.Keys
    ensures SumOver(t, a) <= SumOver(t, b) && |a| <= |b|
    decreases b
  {
    if a != {} {
      var k :| k in a;
      SumOverRemove(t, a, k);
      SumOverRemove(t, b, k);
      SumOverSubset(t, a - {k}, b - {k});
    }
  }

  /** A replacement adds at most the new size to the table, and no entry. */
  lemma AddFits(s: State, k: string, fr: Record, order: seq<string>)
    requires LruOrder(s.table, order) && k in s.table
    ensures var t := Add(s, k, fr, order).table; Total(t) <= Total(s.table) + fr.fsize && |t| <= |s.table|
  {
    var s1 := Forgotten(s, k);
    PurgeLaw(s1, order);
    var t := Purge(s1, order).0.table;
    SubTable(s.table, t);
    if k in t {
      TotalReplace(t, k, fr);
    } else {
      TotalInsert(t, k, fr);
      FewerKeys(t.Keys, s.table.Keys, k);
    }
  }

  lemma FewerKeys(a: set<string>, b: set<string>, k: string)
    requires a <= b && k in b && k !in a
    ensures |a| < |b|
  {
    SubsetCard(a, b - {k});
  }

  lemma {:induction false} SubsetCard(a: set<string>, b: set<string>)
    requires a <= b
    ensures |a| <= |b|
  {
    if a != {} {
      var x :| x in a;
      SubsetCard(a - {x}, b - {x});
    }
  }

  /** After a replacement the program's counters are right exactly if the sums are, unless they wrap. */
  lemma ReplacedExact(s: State, k: string, fr: Record, order: seq<string>)
    requires Sound(s) && LruOrder(s.table, order) && k in s.table && s.used + fr.fsize < W64
    ensures Exact(Add(s, k, fr, order)) <==> Counted(Add(s, k, fr, order))
  {
    var s' := Add(s, k, fr, order);
    AddDrift(s, k, fr, order);
    ExactIff(s');
    AddFits(s, k, fr, order);
  }

  lemma SafeByAhead(s1: State, order: seq<string>, i: nat, s2: State, n: nat)
    requires i < |order| && order[i] in s1.table && Distinct(order)
    requires EvictedPrefix(s1, s2, n, Victims(s1, order))
    requires var ks := Ahead(s1, order, i);
             && ks <= Victims(s1, order) && order[i] !in ks && (forall j :: 0 <= j < |ks| ==> ks[j] in s1.table)
             && (if Pinned(s1, s1.table[order[i]].cachepath) then ks == Victims(s1, order)
                 else |ks| < |Victims(s1, order)| && Victims(s1, order)[|ks|] == order[i])
             && 0 <= s1.used - SizeOf(s1.table, ks) && s1.used < W64 && 0 <= s1.nfiles - |ks| && s1.nfiles < W32
    ensures Low(s2) && order[i] in s2.table <==> LowAfter(s1, Ahead(s1, order, i))
  {
    var ks, v := Ahead(s1, order, i), Victims(s1, order);
    LowAfterIsLow(s1, s2, v[..n]);
    VictimsDistinct(s1, order);
    assert v[..|ks|] == ks;
    assert order[i] in s2.table <==> n <= |ks| by {
      if n > |ks| {
        assert v[..n][|ks|] == order[i];
      } else {
        assert v[..n] == ks[..n];
      }
    }
    if n <= |ks| {
      assert v[..n] == ks[..n];
      if Low(s2) {
        LowAfterMonotone(s1, ks, n);
      }
    }
  }
}
