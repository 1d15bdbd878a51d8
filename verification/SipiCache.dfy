/** The cache object: its fields, and its methods as the source performs them step by step (src/SipiCache.cpp). */
module SipiCacheClass {
  import FilenameHash
  import Wrap
  import opened CacheModel
  import opened CacheIndex

  /** The result of a `stat` call, or none if it failed. */
  datatype FileStat = NoFile | Found(mtime: int, size: nat)

  class SipiCache {
    const dir: string
    const maxSize: int
    const maxFiles: nat
    var table: Table
    var blocked: map<string, int>
    /** `cache_used_bytes`, an unsigned 64-bit counter. */
    var usedBytes: nat
    /** `nfiles`, an unsigned 32-bit counter. */
    var nfiles: nat
    /** The names in the cache directory. */
    var disk: set<string>
    /** What has been added to and taken off the two counters. */
    ghost var used: int
    ghost var count: int

    ghost predicate Valid()
      reads this
    {
      usedBytes == used % W64 && nfiles == count % W32
    }

    ghost function Abs(): State
      reads this
    {
      State(dir, maxSize, maxFiles, table, blocked, used, count, disk)
    }

    // -------------------------------------------------------------- startup and shutdown

    /**
     Opens the cache on a directory holding the files `disk_p`: loads the index, or clears the
     directory if the index is missing or cut off, then evicts down to the marks if over a limit.
     */
    constructor (dir_p: string, maxSize_p: int, maxFiles_p: nat, disk_p: set<string>, index: Index)
      ensures Valid()
      ensures exists order :: LruOrder(LoadedState(dir_p, maxSize_p, maxFiles_p, disk_p, index).table, order)
                              && Abs() == Startup(dir_p, maxSize_p, maxFiles_p, disk_p, index, order)
    {
      dir, maxSize, maxFiles := dir_p, maxSize_p, maxFiles_p;
      table, blocked, usedBytes, nfiles, disk := map[], map[], 0, 0, disk_p;
      used, count := 0, 0;
      new;
      match index {
        case Missing =>
          RemoveUnknown({});
        case Stored(recs, trailing) =>
          if trailing != 0 {
            RemoveUnknown({});
            disk := disk - {INDEX_NAME};
          } else {
            LoadLoop(recs);
            RemoveUnknown(Paths(table));
          }
      }
      assert Abs() == LoadedState(dir_p, maxSize_p, maxFiles_p, disk_p, index);
      var n;
      ghost var order;
      n, order := Purge();
      assert LruOrder(LoadedState(dir_p, maxSize_p, maxFiles_p, disk_p, index).table, order);
    }

    /** Reads the records one by one, skipping those whose file is not there. */
    method LoadLoop(recs: seq<FileRecord>)
      requires Valid() && table == map[] && used == 0 && count == 0
      modifies this
      ensures Valid() && blocked == old(blocked) && disk == old(disk)
      ensures (table, used, count) == Load(disk, recs)
    {
      for i := 0 to |recs|
        invariant Valid() && blocked == old(blocked) && disk == old(disk)
        invariant (table, used, count) == Load(disk, recs[..i])
      {
        assert recs[..i + 1][..i] == recs[..i];
        if Accessible(disk, recs[i].cachepath) {
          Insert(recs[i].canonical, Loaded(recs[i]));
        }
      }
      assert recs[..|recs|] == recs;
    }

    /** Scans the directory and removes the unhidden files that are not in `known`. */
    method RemoveUnknown(known: set<string>)
      modifies this`disk
      ensures disk == set n | n in old(disk) && (Hidden(n) || n in known)
    {
      var todo := disk;
      while todo != {}
        invariant todo <= old(disk)
        invariant disk == set n | n in old(disk) && (n in todo || Hidden(n) || n in known)
      {
        var n :| n in todo;
        if !Hidden(n) && n !in known { disk := disk - {n}; }
        todo := todo - {n};
      }
    }

    /** The destructor: writes one record per entry. */
    method WriteIndex() returns (recs: seq<FileRecord>, ghost order: seq<string>)
      ensures Enumerates(order, table) && (forall i :: 0 <= i < |order| ==> order[i] in table)
      ensures recs == Save(table, order)
    {
      recs, order := [], [];
      var rest := table.Keys;
      while rest != {}
        invariant rest <= table.Keys && (forall i :: 0 <= i < |order| ==> order[i] in table)
        invariant forall k :: k in order <==> k in table && k !in rest
        invariant Distinct(order) && recs == Save(table, order)
      {
        var k :| k in rest;
        assert k !in order;
        recs := recs + [Saved(k, table[k])];
        order := order + [k];
        assert recs == Save(table, order);
        rest := rest - {k};
      }
    }

    // -------------------------------------------------------------- purge

    predicate SizeOk()
      reads this
    {
      maxSize <= 0 || usedBytes <= Mark(maxSize)
    }

    predicate FilesOk()
      reads this
    {
      maxFiles == 0 || nfiles <= Mark(maxFiles)
    }

    /** A pin is held on the file of this name. */
    predicate InUse(name: string)
      reads this
    {
      PathOf(dir, name) in blocked && blocked[PathOf(dir, name)] > 0
    }

    /** The least recently used key of a non-empty set of keys. */
    method Oldest(keys: set<string>) returns (k: string)
      requires keys != {} && keys <= table.Keys
      ensures k in keys && forall j :: j in keys ==> table[k].accessTime <= table[j].accessTime
    {
      k :| k in keys;
      var rest := keys - {k};
      while rest != {}
        invariant rest <= keys && k in keys
        invariant forall j :: j in keys && j !in rest ==> table[k].accessTime <= table[j].accessTime
      {
        var j :| j in rest;
        if table[j].accessTime < table[k].accessTime { k := j; }
        rest := rest - {j};
      }
    }

    /** The list of all keys sorted by access time; ties in any order. */
    method SortedKeys() returns (order: seq<string>)
      ensures LruOrder(table, order)
    {
      order := [];
      var rest := table.Keys;
      while rest != {}
        invariant rest <= table.Keys
        invariant forall k :: k in order <==> k in table && k !in rest
        invariant forall i, j :: 0 <= i < j < |order| ==> order[i] != order[j]
        invariant forall i, j :: 0 <= i < j < |order| ==> table[order[i]].accessTime <= table[order[j]].accessTime
        invariant forall i, k :: 0 <= i < |order| && k in rest ==> table[order[i]].accessTime <= table[k].accessTime
      {
        var k := Oldest(rest);
        assert k !in order;
        order := order + [k];
        rest := rest - {k};
      }
    }

    /** Unlinks the file of an entry, takes it off both counters and erases it. */
    method Drop(k: string)
      requires Valid() && k in table
      modifies this
      ensures Valid() && Abs() == Dropped(old(Abs()), k)
    {
      disk := disk - {table[k].cachepath};
      usedBytes := (usedBytes - table[k].fsize) % W64;
      used := used - table[k].fsize;
      nfiles := (nfiles - 1) % W32;
      count := count - 1;
      Wrap.ModSub(old(used), table[k].fsize, W64);
      Wrap.ModSub(old(count), 1, W32);
      table := table - {k};
    }

    /** The eviction loop. */
    method EvictLoop(order: seq<string>) returns (n: nat)
      requires Valid()
      modifies this
      ensures Valid() && (Abs(), n) == Evict(old(Abs()), order)
    {
      n := 0;
      var i := 0;
      while i < |order|
        invariant 0 <= i <= |order| && Valid()
        invariant Evict(old(Abs()), order).0 == Evict(Abs(), order[i..]).0
        invariant Evict(old(Abs()), order).1 == n + Evict(Abs(), order[i..]).1
      {
        if SizeOk() && FilesOk() { return; }
        assert order[i..][1..] == order[i + 1..];
        if order[i] in table && !InUse(table[order[i]].cachepath) {
          Drop(order[i]);
          n := n + 1;
        }
        i := i + 1;
      }
    }

    /** LRU eviction down to the low-water marks; the number of evictions, or -1 if they were not reached. */
    method Purge() returns (n: int, ghost order: seq<string>)
      requires Valid()
      modifies this
      ensures Valid() && LruOrder(old(table), order)
      ensures (Abs(), n) == CacheModel.Purge(old(Abs()), order)
    {
      var list := SortedKeys();
      order := list;
      n := 0;
      if maxSize < 0 && maxFiles == 0 { return; }
      var sizeOver := maxSize > 0 && usedBytes >= maxSize;
      var filesOver := maxFiles > 0 && nfiles >= maxFiles;
      if !sizeOver && !filesOver { return; }
      var evicted := EvictLoop(list);
      n := evicted;
      if !SizeOk() || !FilesOk() { n := -1; }
    }

    // -------------------------------------------------------------- check, deblock, add, remove

    /** Looks up a cached rendition; `stat` is that of the original file, whose absence is an error. */
    method Check(stat: FileStat, canonical: string, block: bool, now: int) returns (ok: bool, res: string)
      requires Valid()
      modifies this
      ensures Valid() && ok == stat.Found?
      ensures !ok ==> Abs() == old(Abs())
      ensures ok ==> (Abs(), res) == CacheModel.Check(old(Abs()), stat.mtime, canonical, block, now)
    {
      ok, res := stat.Found?, "";
      if !ok || canonical !in table { return; }
      var rec := table[canonical];
      table := table[canonical := rec.(accessTime := now)];
      if stat.mtime > rec.mtime { return; }
      res := PathOf(dir, rec.cachepath);
      if block {
        blocked := blocked[res := (if res in blocked then blocked[res] else 0) + 1];
      }
    }

    method Deblock(res: string)
      requires Valid()
      modifies this
      ensures Valid() && Abs() == CacheModel.Deblock(old(Abs()), res)
    {
      if res !in blocked { return; }
      blocked := blocked[res := blocked[res] - 1];
      if blocked[res] < 1 {
        blocked := blocked - {res};
        assert blocked == old(blocked) - {res};
      }
    }

    /** The record `add` makes of a new cache file. */
    static function NewRecord(origpath: string, cachepath: string, imgW: nat, imgH: nat, tileW: nat, tileH: nat,
                              clevels: int, numpages: int, stat: FileStat, now: int): Record
      requires stat.Found?
    {
      Record(imgW, imgH, tileW, tileH, clevels, numpages, origpath, FilenameHash.BaseName(cachepath), stat.mtime, now,
             stat.size)
    }

    /** Registers a cache file, replacing an entry of the same key; `stat` is that of the new file. */
    method Add(origpath: string, canonical: string, cachepath: string, imgW: nat, imgH: nat, tileW: nat, tileH: nat,
               clevels: int, numpages: int, stat: FileStat, now: int)
    returns (ok: bool, entered: bool, ghost order: seq<string>)
      requires Valid()
      modifies this
      ensures Valid() && ok == stat.Found? && (entered <==> ok && Room(old(Abs()), canonical, order))
      ensures !ok ==> Abs() == old(Abs())
      ensures ok ==> LruOrder(old(table), order) && Abs() == CacheModel.Add(old(Abs()), canonical,
                NewRecord(origpath, cachepath, imgW, imgH, tileW, tileH, clevels, numpages, stat, now), order)
      ensures entered ==> canonical in table && var r := table[canonical];
        && r.fsize == stat.size && r.mtime == stat.mtime && r.accessTime == now
        && r.origpath == origpath && r.cachepath == FilenameHash.BaseName(cachepath)
        && r.imgW == imgW && r.imgH == imgH && r.tileW == tileW && r.tileH == tileH
        && r.clevels == clevels && r.numpages == numpages
    {
      ok, entered, order := stat.Found?, false, [];
      if !ok { return; }
      var fr := NewRecord(origpath, cachepath, imgW, imgH, tileW, tileH, clevels, numpages, stat, now);
      entered, order := Register(canonical, fr);
    }

    method Register(canonical: string, fr: Record) returns (entered: bool, ghost order: seq<string>)
      requires Valid()
      modifies this
      ensures entered <==> Room(old(Abs()), canonical, order)
      ensures Valid() && LruOrder(old(table), order) && Abs() == CacheModel.Add(old(Abs()), canonical, fr, order)
    {
      if canonical in table { Forget(canonical); }
      ghost var s := Forgotten(old(Abs()), canonical);
      assert Abs() == s && s.table == old(table);
      entered, order := Enter(canonical, fr);
    }

    /** Makes room for the new record and enters it, or gives up and unlinks its file. */
    method Enter(canonical: string, fr: Record) returns (entered: bool, ghost order: seq<string>)
      requires Valid()
      modifies this
      ensures entered <==> CacheModel.Purge(old(Abs()), order).1 != -1
      ensures Valid() && LruOrder(old(table), order)
      ensures var (s, r) := CacheModel.Purge(old(Abs()), order);
              Abs() == if r == -1 then s.(disk := s.disk - {fr.cachepath})
                       else s.(table := s.table[canonical := fr], used := s.used + fr.fsize, nfiles := s.nfiles + 1)
    {
      var r;
      r, order := Purge();
      entered := r != -1;
      if r == -1 {
        disk := disk - {fr.cachepath};
      } else {
        Insert(canonical, fr);
      }
    }

    method Forget(canonical: string)
      requires Valid() && canonical in table
      modifies this
      ensures Valid() && Abs() == Forgotten(old(Abs()), canonical)
    {
      disk := disk - {table[canonical].cachepath};
      usedBytes := (usedBytes - table[canonical].fsize) % W64;
      used := used - table[canonical].fsize;
      nfiles := (nfiles - 1) % W32;
      count := count - 1;
      Wrap.ModSub(old(used), table[canonical].fsize, W64);
      Wrap.ModSub(old(count), 1, W32);
    }

    method Insert(canonical: string, fr: Record)
      requires Valid()
      modifies this
      ensures Valid()
      ensures var s := old(Abs());
              Abs() == s.(table := s.table[canonical := fr], used := s.used + fr.fsize, nfiles := s.nfiles + 1)
    {
      table := table[canonical := fr];
      usedBytes := (usedBytes + fr.fsize) % W64;
      used := used + fr.fsize;
      nfiles := (nfiles + 1) % W32;
      count := count + 1;
      Wrap.ModSub(old(used), -(fr.fsize as int), W64);
      Wrap.ModSub(old(count), -1, W32);
    }

    method Remove(canonical: string) returns (removed: bool)
      requires Valid()
      modifies this
      ensures Valid() && (Abs(), removed) == CacheModel.Remove(old(Abs()), canonical)
    {
      removed := false;
      if canonical !in table { return; }
      if InUse(table[canonical].cachepath) { return; }
      Drop(canonical);
      removed := true;
    }
  }
}
