/**
 The state of the file cache and its operations as functions on that state (src/SipiCache.cpp).

 Each public method holds the mutex for its whole body, so it is one atomic step. Files in the
 cache directory are named without the directory; pins are kept under the full path, as in the
 source. The two counters are unsigned and wrap: `used` and `nfiles` are the amounts added and
 subtracted so far, and what the source compares with a limit is their residue.
 */
module CacheModel {

  const W64: nat := 0x1_0000_0000_0000_0000
  const W32: nat := 0x1_0000_0000

  datatype Record = Record(
    imgW: nat, imgH: nat, tileW: nat, tileH: nat, clevels: int, numpages: int,
    origpath: string, cachepath: string, mtime: int, accessTime: int, fsize: nat)

  type Table = map<string, Record>

  datatype State = State(
    dir: string,
    maxSize: int,
    maxFiles: nat,
    table: Table,
    blocked: map<string, int>,
    used: int,
    nfiles: int,
    disk: set<string>)

  function PathOf(dir: string, name: string): string { dir + "/" + name }

  predicate Pinned(s: State, name: string) {
    var p := PathOf(s.dir, name);
    p in s.blocked && s.blocked[p] > 0
  }

  // ---------------------------------------------------------------- table sizes

  /** The sizes of the entries of `ks`, added up in that order. */
  function SizeOf(t: Table, ks: seq<string>): nat
    requires forall i :: 0 <= i < |ks| ==> ks[i] in t
  {
    if |ks| == 0 then 0 else SizeOf(t, ks[..|ks| - 1]) + t[ks[|ks| - 1]].fsize
  }

  /** Total size of the entries under `keys`. */
  ghost function SumOver(t: Table, keys: set<string>): nat
    requires keys <= t.Keys
  {
    if keys == {} then 0 else
      var k :| k in keys;
      t[k].fsize + SumOver(t, keys - {k})
  }

  ghost function Total(t: Table): nat { SumOver(t, t.Keys) }

  lemma {:induction false} SumOverRemove(t: Table, keys: set<string>, k: string)
    requires keys <= t.Keys && k in keys
    ensures SumOver(t, keys) == t[k].fsize + SumOver(t, keys - {k})
    decreases keys
  {
    var j :| j in keys && SumOver(t, keys) == t[j].fsize + SumOver(t, keys - {j});
    if j != k {
      SumOverRemove(t, keys - {j}, k);
      SumOverRemove(t, keys - {k}, j);
      assert keys - {j} - {k} == keys - {k} - {j};
    }
  }

  lemma {:induction false} SumOverAgree(t: Table, t': Table, keys: set<string>)
    requires keys <= t.Keys && keys <= t'.Keys
    requires forall k :: k in keys ==> t[k].fsize == t'[k].fsize
    ensures SumOver(t, keys) == SumOver(t', keys)
    decreases keys
  {
    if keys != {} {
      var k :| k in keys;
      SumOverRemove(t, keys, k);
      SumOverRemove(t', keys, k);
      SumOverAgree(t, t', keys - {k});
    }
  }

  /** Dropping an entry takes its size off the total. */
  lemma TotalRemove(t: Table, k: string)
    requires k in t
    ensures Total(t) == Total(t - {k}) + t[k].fsize
    ensures |t - {k}| == |t| - 1
  {
    SumOverRemove(t, t.Keys, k);
    assert (t - {k}).Keys == t.Keys - {k};
    SumOverAgree(t, t - {k}, t.Keys - {k});
  }

  /** Storing a new entry puts its size onto the total. */
  lemma TotalInsert(t: Table, k: string, r: Record)
    requires k !in t
    ensures Total(t[k := r]) == Total(t) + r.fsize
    ensures |t[k := r]| == |t| + 1
  {
    TotalRemove(t[k := r], k);
    assert t[k := r] - {k} == t;
  }

  /** Replacing an entry exchanges the two sizes. */
  lemma TotalReplace(t: Table, k: string, r: Record)
    requires k in t
    ensures Total(t[k := r]) == Total(t) - t[k].fsize + r.fsize
    ensures |t[k := r]| == |t|
  {
    TotalRemove(t, k);
    TotalInsert(t - {k}, k, r);
    assert (t - {k})[k := r] == t[k := r];
  }

  // ---------------------------------------------------------------- limits

  predicate SizeOver(s: State) { s.maxSize > 0 && s.used % W64 >= s.maxSize }

  predicate FilesOver(s: State) { s.maxFiles > 0 && s.nfiles % W32 >= s.maxFiles }

  /** `purge` gets past its early returns. */
  predicate Fires(s: State) {
    !(s.maxSize < 0 && s.maxFiles == 0) && (SizeOver(s) || FilesOver(s))
  }

  /** Low-water marks: 80% of each limit, rounded down. */
  function Mark(limit: nat): nat { limit * 4 / 5 }

  /** Both counters, wrapped, are at or below their marks. */
  predicate LowCounts(maxSize: int, maxFiles: nat, used: int, nfiles: int) {
    && (maxSize <= 0 || used % W64 <= Mark(maxSize))
    && (maxFiles == 0 || nfiles % W32 <= Mark(maxFiles))
  }

  predicate Low(s: State) { LowCounts(s.maxSize, s.maxFiles, s.used, s.nfiles) }

  // ---------------------------------------------------------------- eviction

  /** An entry leaves the table, its file the disk, and both counters go down. */
  function Dropped(s: State, k: string): State
    requires k in s.table
  {
    s.(table := s.table - {k}, disk := s.disk - {s.table[k].cachepath},
       used := s.used - s.table[k].fsize, nfiles := s.nfiles - 1)
  }

  /** The eviction loop over the sorted list: stop at the low-water marks, skip erased and pinned entries. */
  function Evict(s: State, order: seq<string>): (r: (State, nat))
    decreases |order|
  {
    if |order| == 0 || Low(s) then (s, 0)
    else if order[0] !in s.table || Pinned(s, s.table[order[0]].cachepath) then Evict(s, order[1..])
    else
      var (s', n) := Evict(Dropped(s, order[0]), order[1..]);
      (s', n + 1)
  }

  /** `purge`: the new state, and the number of files evicted or -1. */
  function Purge(s: State, order: seq<string>): (r: (State, int)) {
    if !Fires(s) then (s, 0)
    else
      var (s', n) := Evict(s, order);
      if Low(s') then (s', n as int) else (s', -1)
  }

  /** A result `std::sort` may produce: all keys once, least recently used first. */
  ghost predicate LruOrder(t: Table, order: seq<string>) {
    && (forall k :: k in order <==> k in t)
    && (forall i, j :: 0 <= i < j < |order| ==> order[i] != order[j])
    && (forall i, j :: 0 <= i < j < |order| ==> t[order[i]].accessTime <= t[order[j]].accessTime)
  }

  // ---------------------------------------------------------------- the other operations

  /** `check`: the new state and the path of an up-to-date cache file, empty if there is none. */
  function Check(s: State, origMtime: int, canonical: string, block: bool, now: int): (r: (State, string)) {
    if canonical !in s.table then (s, "")
    else
      var rec := s.table[canonical];
      var s1 := s.(table := s.table[canonical := rec.(accessTime := now)]);
      if origMtime > rec.mtime then (s1, "")
      else
        var p := PathOf(s.dir, rec.cachepath);
        (if block then s1.(blocked := s1.blocked[p := (if p in s1.blocked then s1.blocked[p] else 0) + 1]) else s1, p)
  }

  function Deblock(s: State, p: string): State {
    if p !in s.blocked then s
    else if s.blocked[p] - 1 < 1 then s.(blocked := s.blocked - {p})
    else s.(blocked := s.blocked[p := s.blocked[p] - 1])
  }

  /** The first part of `add`: an existing entry's file goes and the counters forget it, but it stays in the table. */
  function Forgotten(s: State, canonical: string): State {
    if canonical !in s.table then s
    else
      s.(disk := s.disk - {s.table[canonical].cachepath},
         used := s.used - s.table[canonical].fsize, nfiles := s.nfiles - 1)
  }

  /** `add` of a new record, with the order its purge goes through. */
  function Add(s: State, canonical: string, fr: Record, order: seq<string>): State {
    var (s1, r) := Purge(Forgotten(s, canonical), order);
    if r == -1 then s1.(disk := s1.disk - {fr.cachepath})
    else s1.(table := s1.table[canonical := fr], used := s1.used + fr.fsize, nfiles := s1.nfiles + 1)
  }

  /** The purge inside `add` makes room; otherwise `add` gives the new file up. */
  predicate Room(s: State, canonical: string, order: seq<string>) {
    Purge(Forgotten(s, canonical), order).1 != -1
  }

  function Remove(s: State, canonical: string): (r: (State, bool)) {
    if canonical !in s.table || Pinned(s, s.table[canonical].cachepath) then (s, false)
    else (Dropped(s, canonical), true)
  }

  // ---------------------------------------------------------------- what the eviction loop does

  /** The entries of `order` that purge may evict, in that order. */
  function Victims(s: State, order: seq<string>): (v: seq<string>)
    ensures forall k :: k in v <==> k in order && k in s.table && !Pinned(s, s.table[k].cachepath)
  {
    if |order| == 0 then []
    else if order[0] !in s.table || Pinned(s, s.table[order[0]].cachepath) then Victims(s, order[1..])
    else [order[0]] + Victims(s, order[1..])
  }

  /** Both low-water marks are met once the entries of `ks` are gone. */
  predicate LowAfter(s: State, ks: seq<string>)
    requires forall i :: 0 <= i < |ks| ==> ks[i] in s.table
  {
    LowCounts(s.maxSize, s.maxFiles, s.used - SizeOf(s.table, ks), s.nfiles - |ks|)
  }

  ghost function KeySet(ks: seq<string>): set<string> { set k | k in ks }

  /** The cache files of the entries of `ks`. */
  ghost function FilesOf(t: Table, ks: seq<string>): set<string>
    requires forall i :: 0 <= i < |ks| ==> ks[i] in t
  {
    set i | 0 <= i < |ks| :: t[ks[i]].cachepath
  }

  /** State `s` after evicting exactly the entries of `ks`. */
  ghost predicate EvictedFrom(s: State, s': State, ks: seq<string>) {
    && (forall i :: 0 <= i < |ks| ==> ks[i] in s.table)
    && s'.dir == s.dir && s'.maxSize == s.maxSize && s'.maxFiles == s.maxFiles && s'.blocked == s.blocked
    && s'.table == s.table - KeySet(ks)
    && s'.disk == s.disk - FilesOf(s.table, ks)
    && s'.used == s.used - SizeOf(s.table, ks)
    && s'.nfiles == s.nfiles - |ks|
  }

  ghost predicate Distinct(order: seq<string>) {
    forall i, j :: 0 <= i < j < |order| ==> order[i] != order[j]
  }

  lemma {:induction false} SizeOfFront(t: Table, k: string, ks: seq<string>)
    requires k in t && (forall i :: 0 <= i < |ks| ==> ks[i] in t)
    ensures SizeOf(t, [k] + ks) == t[k].fsize + SizeOf(t, ks)
  {
    if |ks| == 0 {
      assert [k] + ks == [k];
      assert [k][..0] == [];
    } else {
      var n := |ks| - 1;
      SizeOfFront(t, k, ks[..n]);
      assert ([k] + ks)[..n + 1] == [k] + ks[..n];
    }
  }

  lemma {:induction false} SizeOfAgree(t: Table, t': Table, ks: seq<string>)
    requires forall i :: 0 <= i < |ks| ==> ks[i] in t && ks[i] in t' && t[ks[i]].fsize == t'[ks[i]].fsize
    ensures SizeOf(t, ks) == SizeOf(t', ks)
  {
    if |ks| > 0 {
      SizeOfAgree(t, t', ks[..|ks| - 1]);
    }
  }

  lemma {:induction false} VictimsDropped(s: State, k: string, order: seq<string>)
    requires k in s.table && k !in order
    ensures Victims(Dropped(s, k), order) == Victims(s, order)
  {
    if |order| > 0 {
      VictimsDropped(s, k, order[1..]);
    }
  }

  /** Evicting `k` first and then `ks` is evicting both, as far as the counters go. */
  lemma CountsShift(s: State, k: string, ks: seq<string>)
    requires k in s.table && k !in ks && (forall i :: 0 <= i < |ks| ==> ks[i] in s.table)
    ensures forall i :: 0 <= i < |ks| ==> ks[i] in Dropped(s, k).table
    ensures SizeOf(Dropped(s, k).table, ks) == SizeOf(s.table, ks)
    ensures forall i :: 0 <= i < |[k] + ks| ==> ([k] + ks)[i] in s.table
    ensures SizeOf(s.table, [k] + ks) == s.table[k].fsize + SizeOf(s.table, ks)
    ensures LowAfter(s, [k] + ks) == LowAfter(Dropped(s, k), ks)
  {
    SizeOfFront(s.table, k, ks);
    SizeOfAgree(s.table, Dropped(s, k).table, ks);
  }

  lemma EvictedShift(s: State, k: string, s': State, ks: seq<string>)
    requires k in s.table && k !in ks && EvictedFrom(Dropped(s, k), s', ks)
    ensures EvictedFrom(s, s', [k] + ks)
  {
    CountsShift(s, k, ks);
    assert KeySet([k] + ks) == {k} + KeySet(ks);
    assert s.table - {k} - KeySet(ks) == s.table - ({k} + KeySet(ks));
    FilesOfFront(s.table, k, Dropped(s, k).table, ks);
  }

  lemma FilesOfFront(t: Table, k: string, t': Table, ks: seq<string>)
    requires k in t && forall i :: 0 <= i < |ks| ==> ks[i] in t && ks[i] in t' && t[ks[i]] == t'[ks[i]]
    requires forall i :: 0 <= i < |[k] + ks| ==> ([k] + ks)[i] in t
    ensures FilesOf(t, [k] + ks) == {t[k].cachepath} + FilesOf(t', ks)
  {
    var all := [k] + ks;
    forall i | 0 <= i < |ks|
      ensures t'[ks[i]].cachepath in FilesOf(t, all)
    {
      assert all[i + 1] == ks[i];
    }
    assert all[0] == k;
    forall i | 0 <= i < |all|
      ensures t[all[i]].cachepath in {t[k].cachepath} + FilesOf(t', ks)
    {
      if i > 0 {
        assert all[i] == ks[i - 1];
      }
    }
  }

  /**
   From `s` to `s'` the first `n` of the candidates `v` were evicted and nothing else; before each
   eviction some limit was above its low-water mark; short of the last candidate both marks are met.
   */
  ghost predicate EvictedPrefix(s: State, s': State, n: nat, v: seq<string>) {
    && (forall i :: 0 <= i < |v| ==> v[i] in s.table)
    && n <= |v| && EvictedFrom(s, s', v[..n])
    && (forall j :: 0 <= j < n ==> !LowAfter(s, v[..j]))
    && (n < |v| ==> LowAfter(s, v[..n]))
  }

  lemma EvictedPrefixStep(s: State, k: string, s': State, n: nat, w: seq<string>)
    requires !Low(s) && k in s.table && k !in w
    requires EvictedPrefix(Dropped(s, k), s', n, w)
    ensures EvictedPrefix(s, s', n + 1, [k] + w)
  {
    var v := [k] + w;
    assert v[..n + 1] == [k] + w[..n];
    EvictedShift(s, k, s', w[..n]);
    CountsShift(s, k, w[..n]);
    forall j | 0 <= j < n + 1
      ensures !LowAfter(s, v[..j])
    {
      if j == 0 {
        assert v[..0] == [];
      } else {
        assert v[..j] == [k] + w[..j - 1];
        CountsShift(s, k, w[..j - 1]);
      }
    }
  }

  /** The eviction loop, for every order of distinct keys, evicts a prefix of the unpinned entries. */
  lemma {:induction false} EvictIsPrefix(s: State, order: seq<string>)
    requires Distinct(order)
    ensures EvictedPrefix(s, Evict(s, order).0, Evict(s, order).1, Victims(s, order))
    decreases |order|
  {
    if |order| == 0 || Low(s) {
      assert Victims(s, order)[..0] == [];
      assert EvictedFrom(s, s, []);
    } else if order[0] !in s.table || Pinned(s, s.table[order[0]].cachepath) {
      EvictIsPrefix(s, order[1..]);
    } else {
      var k, rest := order[0], order[1..];
      assert k !in rest;
      VictimsDropped(s, k, rest);
      EvictIsPrefix(Dropped(s, k), rest);
      EvictedPrefixStep(s, k, Evict(Dropped(s, k), rest).0, Evict(Dropped(s, k), rest).1, Victims(s, rest));
    }
  }
}
