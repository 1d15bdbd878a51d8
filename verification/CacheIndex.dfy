/** The cache index: loading it at startup, recovering from its loss, saving it at shutdown (src/SipiCache.cpp). */
module CacheIndex {
  import opened CacheModel
  import opened CacheLaws

  /** One stored record; its strings are read as C strings. */
  datatype FileRecord = FileRecord(
    imgW: nat, imgH: nat, tileW: nat, tileH: nat, clevels: int, numpages: int,
    canonical: string, origpath: string, cachepath: string, mtime: int, accessTime: int, fsize: nat)

  /** The index file: absent, or whole records followed by some bytes that are not one. */
  datatype Index = Missing | Stored(records: seq<FileRecord>, trailing: nat)

  const INDEX_NAME := ".sipicache"

  // ---------------------------------------------------------------- loading

  /** Names that the directory scans leave alone. */
  predicate Hidden(name: string) { |name| == 0 || name[0] == '.' }

  /** `access` on cachedir/name: a directory entry, or the directory itself. */
  predicate Accessible(disk: set<string>, name: string) { name in disk || name == "" || name == "." || name == ".." }

  function Loaded(fr: FileRecord): Record {
    Record(fr.imgW, fr.imgH, fr.tileW, fr.tileH, fr.clevels, fr.numpages,
           fr.origpath, fr.cachepath, fr.mtime, fr.accessTime, fr.fsize)
  }

  /** Table, bytes and files after the load loop has gone through `recs`. */
  function Load(disk: set<string>, recs: seq<FileRecord>): (r: (Table, nat, nat)) {
    if |recs| == 0 then (map[], 0, 0)
    else
      var n := |recs| - 1;
      var (t, used, nfiles) := Load(disk, recs[..n]);
      if Accessible(disk, recs[n].cachepath)
      then (t[recs[n].canonical := Loaded(recs[n])], used + recs[n].fsize, nfiles + 1)
      else (t, used, nfiles)
  }

  function Paths(t: Table): set<string> { set k | k in t :: t[k].cachepath }

  /** The directory without its unhidden files that the table does not name. */
  function WithoutOrphans(disk: set<string>, t: Table): set<string> {
    set n | n in disk && (Hidden(n) || n in Paths(t))
  }

  /** An index whose records are used: one with trailing bytes is thrown away. */
  predicate Whole(index: Index) { index.Stored? && index.trailing == 0 }

  /** The state before the startup purge. */
  function LoadedState(dir: string, maxSize: int, maxFiles: nat, disk: set<string>, index: Index): State {
    match index
    case Missing => State(dir, maxSize, maxFiles, map[], map[], 0, 0, WithoutOrphans(disk, map[]))
    case Stored(recs, trailing) =>
      if trailing != 0
      then State(dir, maxSize, maxFiles, map[], map[], 0, 0, WithoutOrphans(disk, map[]) - {INDEX_NAME})
      else
        var (t, used, nfiles) := Load(disk, recs);
        State(dir, maxSize, maxFiles, t, map[], used, nfiles, WithoutOrphans(disk, t))
  }

  /** The state a new cache starts in, its purge going through `order`. */
  function Startup(dir: string, maxSize: int, maxFiles: nat, disk: set<string>, index: Index, order: seq<string>): State
  {
    Purge(LoadedState(dir, maxSize, maxFiles, disk, index), order).0
  }

  // ---------------------------------------------------------------- what startup guarantees

  /** The records whose file is there, in order. */
  function Accepted(disk: set<string>, recs: seq<FileRecord>): seq<FileRecord> {
    if |recs| == 0 then []
    else
      var n := |recs| - 1;
      Accepted(disk, recs[..n]) + (if Accessible(disk, recs[n].cachepath) then [recs[n]] else [])
  }

  ghost predicate DistinctKeys(recs: seq<FileRecord>) {
    forall i, j :: 0 <= i < j < |recs| ==> recs[i].canonical != recs[j].canonical
  }

  ghost predicate DistinctPaths(recs: seq<FileRecord>) {
    forall i, j :: 0 <= i < j < |recs| ==> recs[i].cachepath != recs[j].cachepath
  }

  /** The accepted record an entry was loaded from. */
  lemma {:induction false} EntryRecord(disk: set<string>, recs: seq<FileRecord>, k: string) returns (i: nat)
    requires k in Load(disk, recs).0
    ensures var a := Accepted(disk, recs);
            i < |a| && a[i].canonical == k && Load(disk, recs).0[k] == Loaded(a[i]) && Accessible(disk, a[i].cachepath)
  {
    var n := |recs| - 1;
    assert recs == recs[..n] + [recs[n]];
    if !Accessible(disk, recs[n].cachepath) {
      i := EntryRecord(disk, recs[..n], k);
    } else {
      LoadLast(disk, recs[..n], recs[n]);
      AcceptedLast(disk, recs[..n], recs[n]);
      if recs[n].canonical == k {
        i := |Accepted(disk, recs[..n])|;
      } else {
        i := EntryRecord(disk, recs[..n], k);
      }
    }
  }

  ghost predicate HasKey(a: seq<FileRecord>, k: string) { exists i :: 0 <= i < |a| && a[i].canonical == k }

  /** The size in the last record of key `k`. */
  ghost function LastSize(a: seq<FileRecord>, k: string): nat {
    if |a| == 0 then 0 else if a[|a| - 1].canonical == k then a[|a| - 1].fsize else LastSize(a[..|a| - 1], k)
  }

  /** How many records repeat the key of an earlier one, and so replace its entry. */
  ghost function Repeated(a: seq<FileRecord>): nat {
    if |a| == 0 then 0
    else var n := |a| - 1; Repeated(a[..n]) + (if HasKey(a[..n], a[n].canonical) then 1 else 0)
  }

  /** The sizes of the entries that are replaced. */
  ghost function RepeatedBytes(a: seq<FileRecord>): nat {
    if |a| == 0 then 0
    else
      var n := |a| - 1;
      RepeatedBytes(a[..n]) + (if HasKey(a[..n], a[n].canonical) then LastSize(a[..n], a[n].canonical) else 0)
  }

  lemma RepeatedLast(a: seq<FileRecord>, r: FileRecord)
    ensures Repeated(a + [r]) == Repeated(a) + (if HasKey(a, r.canonical) then 1 else 0)
    ensures RepeatedBytes(a + [r]) ==
      RepeatedBytes(a) + (if HasKey(a, r.canonical) then LastSize(a, r.canonical) else 0)
    ensures forall k :: LastSize(a + [r], k) == if r.canonical == k then r.fsize else LastSize(a, k)
  {
    assert (a + [r])[..|a|] == a;
  }

  lemma {:induction false} RepeatedNoneIff(a: seq<FileRecord>)
    ensures Repeated(a) <= |a|
    ensures Repeated(a) == 0 <==> DistinctKeys(a)
    ensures Repeated(a) == 0 ==> RepeatedBytes(a) == 0
  {
    if |a| > 0 {
      var n := |a| - 1;
      RepeatedNoneIff(a[..n]);
      DistinctKeysAppend(a[..n], a[n]);
      assert a == a[..n] + [a[n]];
    }
  }

  /** The entry of a key has the size in its last accepted record. */
  lemma {:induction false} LoadedSize(disk: set<string>, recs: seq<FileRecord>, k: string)
    ensures k in Load(disk, recs).0 <==> HasKey(Accepted(disk, recs), k)
    ensures k in Load(disk, recs).0 ==> Load(disk, recs).0[k].fsize == LastSize(Accepted(disk, recs), k)
  {
    if |recs| > 0 {
      var n := |recs| - 1;
      LoadedSize(disk, recs[..n], k);
      if Accessible(disk, recs[n].cachepath) {
        assert recs == recs[..n] + [recs[n]];
        LoadLast(disk, recs[..n], recs[n]);
        AcceptedLast(disk, recs[..n], recs[n]);
        RepeatedLast(Accepted(disk, recs[..n]), recs[n]);
        HasKeyLast(Accepted(disk, recs[..n]), recs[n], k);
      } else {
        assert Accepted(disk, recs) == Accepted(disk, recs[..n]);
      }
    }
  }

  lemma HasKeyLast(a: seq<FileRecord>, r: FileRecord, k: string)
    ensures HasKey(a + [r], k) <==> HasKey(a, k) || r.canonical == k
  {
    var b := a + [r];
    assert b[|a|] == r;
    assert forall i :: 0 <= i < |a| ==> b[i] == a[i];
  }

  /** Each accepted record is counted; the table lacks exactly those that a later one of the same key replaced. */
  ghost predicate LoadCounted(disk: set<string>, recs: seq<FileRecord>) {
    var (t, used, nfiles) := Load(disk, recs);
    var a := Accepted(disk, recs);
    nfiles == |t| + Repeated(a) && used == Total(t) + RepeatedBytes(a)
  }

  lemma {:induction false} LoadDrift(disk: set<string>, recs: seq<FileRecord>)
    ensures LoadCounted(disk, recs)
  {
    if |recs| > 0 {
      var n := |recs| - 1;
      LoadDrift(disk, recs[..n]);
      LoadDriftStep(disk, recs[..n], recs[n]);
      assert recs == recs[..n] + [recs[n]];
    }
  }

  lemma LoadDriftStep(disk: set<string>, recs: seq<FileRecord>, r: FileRecord)
    requires LoadCounted(disk, recs)
    ensures LoadCounted(disk, recs + [r])
  {
    if Accessible(disk, r.cachepath) {
      LoadDriftAccepted(disk, recs, r);
    } else {
      assert (recs + [r])[..|recs|] == recs;
      assert Accepted(disk, recs + [r]) == Accepted(disk, recs);
    }
  }

  lemma LoadDriftAccepted(disk: set<string>, recs: seq<FileRecord>, r: FileRecord)
    requires Accessible(disk, r.cachepath) && LoadCounted(disk, recs)
    ensures LoadCounted(disk, recs + [r])
  {
    LoadLast(disk, recs, r);
    AcceptedLast(disk, recs, r);
    LoadedSize(disk, recs, r.canonical);
    RepeatedLast(Accepted(disk, recs), r);
    var t := Load(disk, recs).0;
    if r.canonical in t {
      TotalReplace(t, r.canonical, Loaded(r));
    } else {
      TotalInsert(t, r.canonical, Loaded(r));
    }
  }

  lemma AcceptedLast(disk: set<string>, recs: seq<FileRecord>, r: FileRecord)
    requires Accessible(disk, r.cachepath)
    ensures Accepted(disk, recs + [r]) == Accepted(disk, recs) + [r]
  {
    assert (recs + [r])[..|recs|] == recs;
  }

  lemma {:induction false} AcceptedCount(disk: set<string>, recs: seq<FileRecord>)
    ensures |Accepted(disk, recs)| <= |recs|
  {
    if |recs| > 0 {
      AcceptedCount(disk, recs[..|recs| - 1]);
    }
  }

  lemma DistinctKeysAppend(a: seq<FileRecord>, r: FileRecord)
    ensures DistinctKeys(a + [r]) <==> DistinctKeys(a) && !HasKey(a, r.canonical)
  {
    var b := a + [r];
    assert forall i :: 0 <= i < |a| ==> b[i] == a[i];
    assert b[|a|] == r;
  }

  /**
   Startup counters are exact if and only if the totals are in range and the records that repeat a
   key come to whole turns of the counters. The number of records is an `int`, so that means: if and
   only if no two records whose file is there share a key.
   */
  lemma StartupExactIff(dir: string, maxSize: int, maxFiles: nat, disk: set<string>, recs: seq<FileRecord>,
                        order: seq<string>)
    requires LruOrder(Load(disk, recs).0, order)
    ensures var s := Startup(dir, maxSize, maxFiles, disk, Stored(recs, 0), order); var a := Accepted(disk, recs);
            && (Exact(s) <==> SumsFit(s.table) && RepeatedBytes(a) % W64 == 0 && Repeated(a) % W32 == 0)
            && (SumsFit(s.table) && |recs| < W32 ==> (Exact(s) <==> DistinctKeys(a)))
  {
    var s0 := LoadedState(dir, maxSize, maxFiles, disk, Stored(recs, 0));
    var a := Accepted(disk, recs);
    LoadDrift(disk, recs);
    PurgeDrift(s0, order);
    OffExactIff(Purge(s0, order).0, RepeatedBytes(a), Repeated(a));
    RepeatedNoneIff(a);
    AcceptedCount(disk, recs);
    ZeroTurns(Repeated(a), W32);
    ZeroTurns(RepeatedBytes(a), W64);
  }

  lemma OffExactIff(s: State, bytes: nat, files: nat)
    requires BytesOff(s) == bytes && FilesOff(s) == files
    ensures Exact(s) <==> SumsFit(s.table) && bytes % W64 == 0 && files % W32 == 0
  {
    ExactIff(s);
  }

  function Stored1(key: string, name: string): FileRecord { FileRecord(1, 1, 0, 0, 0, 0, key, "o", name, 0, 0, 1) }

  /** Two records of the key "k" with both files present: the counters start wrong. */
  lemma RepeatedKeyExample(dir: string, order: seq<string>)
    requires LruOrder(Load({"f1", "f2"}, [Stored1("k", "f1"), Stored1("k", "f2")]).0, order)
    ensures !Exact(Startup(dir, -1, 0, {"f1", "f2"}, Stored([Stored1("k", "f1"), Stored1("k", "f2")], 0), order))
  {
    var disk: set<string> := {"f1", "f2"};
    var a, b := Stored1("k", "f1"), Stored1("k", "f2");
    AcceptedLast(disk, [], a);
    AcceptedLast(disk, [a], b);
    assert [] + [a] == [a] && [a] + [b] == [a, b];
    assert Accepted(disk, [a, b]) == [a, b];
    assert [a, b][0].canonical == [a, b][1].canonical;
    StartupExactIff(dir, -1, 0, disk, [a, b], order);
  }

  lemma ZeroTurns(n: nat, w: nat)
    requires w > 0
    ensures n == 0 ==> n % w == 0
    ensures n < w && n % w == 0 ==> n == 0
  {
  }

  ghost predicate UniquePaths(t: Table) {
    forall k, j :: k in t && j in t && k != j ==> t[k].cachepath != t[j].cachepath
  }

  /** The unhidden files on disk are the unhidden files the table names. */
  ghost predicate DiskMatches(s: State) {
    forall n :: !Hidden(n) ==> (n in s.disk <==> n in Paths(s.table))
  }

  lemma LoadedPaths(disk: set<string>, recs: seq<FileRecord>)
    requires DistinctPaths(Accepted(disk, recs))
    ensures UniquePaths(Load(disk, recs).0)
  {
    var t, a := Load(disk, recs).0, Accepted(disk, recs);
    forall k, j | k in t && j in t && k != j
      ensures t[k].cachepath != t[j].cachepath
    {
      var x := EntryRecord(disk, recs, k);
      var y := EntryRecord(disk, recs, j);
      assert x < y ==> a[x].cachepath != a[y].cachepath;
      assert y < x ==> a[y].cachepath != a[x].cachepath;
    }
  }

  lemma LoadedDiskMatches(dir: string, maxSize: int, maxFiles: nat, disk: set<string>, index: Index)
    ensures DiskMatches(LoadedState(dir, maxSize, maxFiles, disk, index))
  {
    if index.Stored? && index.trailing == 0 {
      var t := Load(disk, index.records).0;
      forall n | n in Paths(t) && !Hidden(n)
        ensures n in disk
      {
        var k :| k in t && t[k].cachepath == n;
        var i := EntryRecord(disk, index.records, k);
      }
    }
  }

  lemma FilesOfMember(t: Table, ks: seq<string>, k: string)
    requires forall i :: 0 <= i < |ks| ==> ks[i] in t
    ensures k in ks ==> t[k].cachepath in FilesOf(t, ks)
  {
  }

  lemma EvictedDiskMatches(s: State, s': State, ks: seq<string>)
    requires UniquePaths(s.table) && DiskMatches(s) && EvictedFrom(s, s', ks)
    ensures DiskMatches(s')
  {
    forall n | !Hidden(n)
      ensures n in s'.disk <==> n in Paths(s'.table)
    {
      if n in Paths(s'.table) {
        var k :| k in s'.table && s'.table[k].cachepath == n;
        assert k in s.table && n in Paths(s.table);
        assert n !in FilesOf(s.table, ks) by {
          assert forall i :: 0 <= i < |ks| ==> ks[i] in KeySet(ks) && ks[i] != k;
        }
      }
      if n in s'.disk {
        var k :| k in s.table && s.table[k].cachepath == n;
        FilesOfMember(s.table, ks, k);
        assert k in s'.table;
      }
    }
  }

  /** A purge with nothing pinned and exact counters always succeeds, and leaves both limits met. */
  lemma UnpinnedPurge(s: State, order: seq<string>)
    requires LruOrder(s.table, order) && Counted(s) && s.blocked == map[]
    ensures Purge(s, order).1 >= 0 && !Fires(Purge(s, order).0)
  {
    PurgeOutcome(s, order);
    PurgeDrift(s, order);
    EmptyIsLow(Purge(s, order).0);
  }

  /** A purge meets the marks, or finds only pinned entries left and says so. */
  lemma PurgeOutcome(s: State, order: seq<string>)
    requires LruOrder(s.table, order) && s.blocked == map[]
    ensures var (s', r) := Purge(s, order);
            if r < 0 then !Low(s') && s'.table == map[] else if Fires(s) then Low(s') else s' == s
  {
    PurgeLaw(s, order);
    var (s', r) := Purge(s, order);
    if r < 0 {
      NothingPinned(s, s');
    }
  }

  /** An empty cache with exact counters is below its marks; below the marks, nothing fires. */
  lemma EmptyIsLow(s: State)
    requires Counted(s)
    ensures s.table == map[] ==> Low(s)
    ensures Low(s) ==> !Fires(s)
  {
  }

  lemma NothingPinned(s: State, s': State)
    requires s.blocked == map[] && forall k :: k in s'.table ==> Pinned(s, s'.table[k].cachepath)
    ensures s'.table == map[]
  {
    assert s'.table.Keys == {};
  }

  /**
   For every directory and every index whose present files have distinct keys and distinct paths,
   or that is thrown away, startup ends with exact counters if the totals are in their range, met
   limits, nothing pinned, and a table that names exactly the unhidden files on disk.
   */
  lemma StartupSound(dir: string, maxSize: int, maxFiles: nat, disk: set<string>, index: Index, order: seq<string>)
    requires LruOrder(LoadedState(dir, maxSize, maxFiles, disk, index).table, order)
    requires Whole(index) ==>
      DistinctKeys(Accepted(disk, index.records)) && DistinctPaths(Accepted(disk, index.records))
    ensures var s := Startup(dir, maxSize, maxFiles, disk, index, order);
            && Counted(s) && (SumsFit(s.table) ==> Exact(s)) && !Fires(s)
            && s.blocked == map[] && UniquePaths(s.table) && DiskMatches(s)
  {
    var s0 := LoadedState(dir, maxSize, maxFiles, disk, index);
    LoadedExact(dir, maxSize, maxFiles, disk, index);
    LoadedDiskMatches(dir, maxSize, maxFiles, disk, index);
    PurgeDrift(s0, order);
    UnpinnedPurge(s0, order);
    PurgeDiskMatches(s0, order);
    CountedExactIff(Purge(s0, order).0);
    PurgeLaw(s0, order);
  }

  lemma LoadedExact(dir: string, maxSize: int, maxFiles: nat, disk: set<string>, index: Index)
    requires Whole(index) ==>
      DistinctKeys(Accepted(disk, index.records)) && DistinctPaths(Accepted(disk, index.records))
    ensures var s := LoadedState(dir, maxSize, maxFiles, disk, index);
            Counted(s) && UniquePaths(s.table) && s.blocked == map[]
  {
    if Whole(index) {
      LoadDrift(disk, index.records);
      RepeatedNoneIff(Accepted(disk, index.records));
      LoadedPaths(disk, index.records);
    }
  }

  lemma PurgeDiskMatches(s: State, order: seq<string>)
    requires LruOrder(s.table, order) && UniquePaths(s.table) && DiskMatches(s)
    ensures DiskMatches(Purge(s, order).0) && Purge(s, order).0.blocked == s.blocked
  {
    if Fires(s) {
      EvictIsPrefix(s, order);
      EvictedDiskMatches(s, Evict(s, order).0, Victims(s, order)[..Evict(s, order).1]);
    }
  }

  // ---------------------------------------------------------------- saving

  const FIELD := 255

  /** What a 256-byte field keeps of a string: up to 255 bytes, and nothing from a zero byte on. */
  function CField(s: string): (r: string)
    ensures |r| <= 255 && r <= s
    ensures r == s <==> |s| <= 255 && '\0' !in s
  {
    CFieldFrom(s, 0)
  }

  function CFieldFrom(s: string, i: nat): (r: string)
    requires i <= |s| && i <= FIELD && '\0' !in s[..i]
    ensures s[..i] <= r <= s && |r| <= FIELD && '\0' !in r
    ensures r == s <==> |s| <= FIELD && '\0' !in s
    decreases |s| - i
  {
    if i == |s| || i == FIELD || s[i] == '\0' then s[..i] else
      assert s[..i + 1] == s[..i] + [s[i]];
      CFieldFrom(s, i + 1)
  }

  predicate Fits(s: string) { CField(s) == s }

  function Saved(k: string, r: Record): FileRecord {
    FileRecord(r.imgW, r.imgH, r.tileW, r.tileH, r.clevels, r.numpages,
               CField(k), CField(r.origpath), CField(r.cachepath), r.mtime, r.accessTime, r.fsize)
  }

  /** The records the destructor writes, in the order the hash table delivers its keys. */
  function Save(t: Table, order: seq<string>): (recs: seq<FileRecord>)
    requires forall i :: 0 <= i < |order| ==> order[i] in t
    ensures |recs| == |order|
  {
    seq(|order|, i requires 0 <= i < |order| => Saved(order[i], t[order[i]]))
  }

  ghost predicate Enumerates(order: seq<string>, t: Table) {
    (forall k :: k in order <==> k in t) && Distinct(order)
  }

  /** Every string of the table survives a 256-byte field. */
  ghost predicate AllFit(t: Table) {
    forall k :: k in t ==> Fits(k) && Fits(t[k].origpath) && Fits(t[k].cachepath)
  }

  ghost function Restricted(t: Table, order: seq<string>): Table
    requires forall i :: 0 <= i < |order| ==> order[i] in t
  {
    map k | k in KeySet(order) :: t[k]
  }

  lemma SavedFits(k: string, r: Record)
    requires Fits(k) && Fits(r.origpath) && Fits(r.cachepath)
    ensures Loaded(Saved(k, r)) == r && Saved(k, r).canonical == k && Saved(k, r).cachepath == r.cachepath
  {
  }

  /** Loading saved records of keys that fit gives back those entries. */
  lemma {:induction false} LoadSaved(disk: set<string>, t: Table, order: seq<string>)
    requires (forall i :: 0 <= i < |order| ==> order[i] in t) && AllFit(t)
    requires forall k :: k in t ==> Accessible(disk, t[k].cachepath)
    ensures Load(disk, Save(t, order)) == (Restricted(t, order), SizeOf(t, order), |order|)
  {
    if |order| == 0 {
      assert Restricted(t, order) == map[];
    } else {
      var n := |order| - 1;
      var k := order[n];
      LoadSaved(disk, t, order[..n]);
      SaveLast(t, order);
      SavedFits(k, t[k]);
      LoadLast(disk, Save(t, order[..n]), Saved(k, t[k]));
      RestrictedLast(t, order);
      assert SizeOf(t, order) == SizeOf(t, order[..n]) + t[k].fsize;
    }
  }

  lemma SaveLast(t: Table, order: seq<string>)
    requires |order| > 0 && forall i :: 0 <= i < |order| ==> order[i] in t
    ensures var n := |order| - 1; Save(t, order) == Save(t, order[..n]) + [Saved(order[n], t[order[n]])]
  {
  }

  lemma LoadLast(disk: set<string>, recs: seq<FileRecord>, r: FileRecord)
    requires Accessible(disk, r.cachepath)
    ensures var (t, used, nfiles) := Load(disk, recs);
            Load(disk, recs + [r]) == (t[r.canonical := Loaded(r)], used + r.fsize, nfiles + 1)
  {
    assert (recs + [r])[..|recs|] == recs;
  }

  lemma RestrictedLast(t: Table, order: seq<string>)
    requires |order| > 0 && forall i :: 0 <= i < |order| ==> order[i] in t
    ensures var n := |order| - 1; Restricted(t, order) == Restricted(t, order[..n])[order[n] := t[order[n]]]
  {
  }

  lemma RestrictedAll(t: Table, order: seq<string>)
    requires Enumerates(order, t) && forall i :: 0 <= i < |order| ==> order[i] in t
    ensures Restricted(t, order) == t && SizeOf(t, order) == Total(t) && |order| == |t|
  {
    assert KeySet(order) == t.Keys;
    TotalRemoveSeq(t, order);
    assert t - KeySet(order) == map[];
  }

  lemma {:induction false} CFieldIdempotent(s: string)
    ensures Fits(CField(s))
  {
    var r := CField(s);
    assert '\0' !in r by { assert '\0' !in CFieldFrom(s, 0); }
  }

  /** Every entry of a loaded table comes from one of the saved entries. */
  lemma LoadedFromSaved(disk: set<string>, t: Table, order: seq<string>, k: string) returns (j: string)
    requires forall i :: 0 <= i < |order| ==> order[i] in t
    requires k in Load(disk, Save(t, order)).0
    ensures j in order && j in t && CField(j) == k && Load(disk, Save(t, order)).0[k] == Loaded(Saved(j, t[j]))
  {
    var recs := Save(t, order);
    var i := EntryRecord(disk, recs, k);
    AcceptedFrom(disk, recs);
    var x :| 0 <= x < |recs| && recs[x] == Accepted(disk, recs)[i];
    j := order[x];
  }

  /** If the loaded table equals the saved one, every string must have fitted. */
  lemma ReloadedMustFit(disk: set<string>, t: Table, order: seq<string>)
    requires forall i :: 0 <= i < |order| ==> order[i] in t
    requires Load(disk, Save(t, order)).0 == t
    ensures AllFit(t)
  {
    forall k | k in t
      ensures Fits(k)
    {
      var j := LoadedFromSaved(disk, t, order, k);
      CFieldIdempotent(j);
    }
    forall k | k in t
      ensures Fits(t[k].origpath) && Fits(t[k].cachepath)
    {
      var j := LoadedFromSaved(disk, t, order, k);
      assert Fits(j) && j == k;
      assert t[k].origpath == CField(t[k].origpath) && t[k].cachepath == CField(t[k].cachepath);
    }
  }

  lemma {:induction false} AcceptedFrom(disk: set<string>, recs: seq<FileRecord>)
    ensures forall i :: 0 <= i < |Accepted(disk, recs)| ==> Accepted(disk, recs)[i] in recs
  {
    if |recs| > 0 {
      AcceptedFrom(disk, recs[..|recs| - 1]);
    }
  }

  /** With all cache files present, saving and loading reproduces the table iff every string fits its field. */
  lemma SaveLoadIff(disk: set<string>, t: Table, order: seq<string>)
    requires Enumerates(order, t) && (forall i :: 0 <= i < |order| ==> order[i] in t)
    requires forall k :: k in t ==> Accessible(disk, t[k].cachepath)
    ensures Load(disk, Save(t, order)).0 == t <==> AllFit(t)
  {
    if Load(disk, Save(t, order)).0 == t {
      ReloadedMustFit(disk, t, order);
    }
    if AllFit(t) {
      LoadSaved(disk, t, order);
      RestrictedAll(t, order);
    }
  }

  /** A key of 256 bytes is cut when it is saved, and the entry comes back under another key. */
  lemma LongKeyExample(r: Record)
    requires Fits(r.origpath) && Fits(r.cachepath)
    ensures var k := seq(256, _ => 'x'); Load({r.cachepath}, Save(map[k := r], [k])).0 != map[k := r]
  {
    var k := seq(256, _ => 'x');
    SaveLoadIff({r.cachepath}, map[k := r], [k]);
    assert !Fits(k);
    assert k in map[k := r];
  }

  /** The state with counters that say what its table holds. */
  ghost function Recounted(s: State): State { s.(used := Total(s.table), nfiles := |s.table|) }

  /**
   A clean shutdown and restart brings back the table and makes the counters exact, however far off they were,
   if the strings fit their fields and the table itself is below the limits.
   */
  lemma RestartRestores(s: State, saveOrder: seq<string>, order: seq<string>)
    requires AllFit(s.table) && SumsFit(s.table) && !Fires(Recounted(s))
    requires Enumerates(saveOrder, s.table) && (forall i :: 0 <= i < |saveOrder| ==> saveOrder[i] in s.table)
    requires forall k :: k in s.table ==> Accessible(s.disk, s.table[k].cachepath)
    ensures var s' := Startup(s.dir, s.maxSize, s.maxFiles, s.disk, Stored(Save(s.table, saveOrder), 0), order);
            && s'.table == s.table && s'.used == Total(s.table) && s'.nfiles == |s.table|
            && Exact(s') && s'.blocked == map[]
  {
    LoadSaved(s.disk, s.table, saveOrder);
    RestrictedAll(s.table, saveOrder);
    UnfiredStartup(s, Save(s.table, saveOrder), order);
    CountedExactIff(Startup(s.dir, s.maxSize, s.maxFiles, s.disk, Stored(Save(s.table, saveOrder), 0), order));
  }

  lemma UnfiredStartup(s: State, recs: seq<FileRecord>, order: seq<string>)
    requires Load(s.disk, recs) == (s.table, Total(s.table), |s.table|) && !Fires(Recounted(s))
    ensures var s' := Startup(s.dir, s.maxSize, s.maxFiles, s.disk, Stored(recs, 0), order);
            s'.table == s.table && s'.used == Total(s.table) && s'.nfiles == |s.table| && s'.blocked == map[]
  {
    assert !Fires(LoadedState(s.dir, s.maxSize, s.maxFiles, s.disk, Stored(recs, 0)));
  }

  /** An empty cache is released by a restart even if its counters have wrapped and refuse everything. */
  lemma RestartUnwedges(s: State)
    requires s.table == map[]
    ensures var s' := Startup(s.dir, s.maxSize, s.maxFiles, s.disk, Stored(Save(s.table, []), 0), []);
            Exact(s') && !Fires(s')
  {
    assert Save(s.table, []) == [];
    CountedExactIff(LoadedState(s.dir, s.maxSize, s.maxFiles, s.disk, Stored([], 0)));
  }
}
