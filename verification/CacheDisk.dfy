/** What the cache keeps on disk, step by step and over whole runs (src/SipiCache.cpp). */
module CacheDisk {
  import opened CacheModel
  import opened CacheLaws
  import opened CacheRuns
  import opened CacheIndex

  // ---------------------------------------------------------------- which files go

  /** The files of the entries of `t` that `t'` no longer has. */
  ghost function FilesGone(t: Table, t': Table): set<string> { set k | k in t && k !in t' :: t[k].cachepath }

  lemma EvictedFiles(s: State, s': State, ks: seq<string>)
    requires EvictedFrom(s, s', ks)
    ensures s'.disk == s.disk - FilesGone(s.table, s'.table)
  {
    assert FilesOf(s.table, ks) == FilesGone(s.table, s'.table) by {
      forall x
        ensures x in FilesOf(s.table, ks) <==> x in FilesGone(s.table, s'.table)
      {
        if x in FilesGone(s.table, s'.table) {
          var k :| k in s.table && k !in s'.table && s.table[k].cachepath == x;
          assert k in KeySet(ks);
        }
        if x in FilesOf(s.table, ks) {
          var i :| 0 <= i < |ks| && s.table[ks[i]].cachepath == x;
          assert ks[i] in KeySet(ks) && ks[i] !in s'.table;
        }
      }
    }
  }

  /** A purge unlinks exactly the files of the entries it evicts. */
  lemma PurgeDisk(s: State, order: seq<string>)
    requires LruOrder(s.table, order)
    ensures Purge(s, order).0.disk == s.disk - FilesGone(s.table, Purge(s, order).0.table)
  {
    if Fires(s) {
      EvictIsPrefix(s, order);
      var (s', n) := Evict(s, order);
      EvictedFiles(s, s', Victims(s, order)[..n]);
    } else {
      assert FilesGone(s.table, s.table) == {};
    }
  }

  /** The file of an entry that `add` replaces. */
  ghost function Replaced(s: State, e: Event): set<string> {
    if e.AddCall? && e.canonical in s.table then {s.table[e.canonical].cachepath} else {}
  }

  /** The new file, when `add` has to give it up. */
  ghost function GivenUp(s: State, e: Event): set<string> {
    if e.AddCall? && !Room(s, e.canonical, e.order) then {e.fr.cachepath} else {}
  }

  ghost function Created(e: Event): set<string> { if e.CreateCall? then {e.name} else {} }

  /**
   Every step, exactly: on disk is what was there or was created, without the files of entries that are dropped,
   of the entry that is replaced, and of a new entry that finds no room. Nothing else goes.
   */
  lemma StepDisk(s: State, e: Event)
    requires Legal(s, e)
    ensures Step(s, e).disk
         == s.disk + Created(e) - FilesGone(s.table, Step(s, e).table) - Replaced(s, e) - GivenUp(s, e)
  {
    match e
    case CreateCall(n) => assert FilesGone(s.table, s.table) == {};
    case CheckCall(m, c, b, now) => assert FilesGone(s.table, Step(s, e).table) == {};
    case DeblockCall(p) => assert FilesGone(s.table, s.table) == {};
    case AddCall(c, fr, order) => AddDisk(s, c, fr, order);
    case RemoveCall(c) => RemoveDisk(s, c);
    case PurgeCall(order) => PurgeDisk(s, order);
  }

  lemma RemoveDisk(s: State, c: string)
    ensures var (s', done) := Remove(s, c);
            && s'.disk == s.disk - FilesGone(s.table, s'.table)
            && (done ==> s.table[c].cachepath !in s'.disk && c !in s'.table)
            && (done <==> c in s.table && !Pinned(s, s.table[c].cachepath))
  {
    var (s', done) := Remove(s, c);
    if done {
      assert FilesGone(s.table, s'.table) == {s.table[c].cachepath} by {
        assert c in s.table && c !in s'.table;
      }
    } else {
      assert FilesGone(s.table, s.table) == {};
    }
  }

  lemma AddDisk(s: State, c: string, fr: Record, order: seq<string>)
    requires LruOrder(s.table, order)
    ensures var e, s' := AddCall(c, fr, order), Add(s, c, fr, order);
            s'.disk == s.disk - FilesGone(s.table, s'.table) - Replaced(s, e) - GivenUp(s, e)
  {
    PurgeDisk(Forgotten(s, c), order);
    AddFiles(s, Purge(Forgotten(s, c), order).0, AddCall(c, fr, order), Add(s, c, fr, order));
  }

  lemma AddFiles(s: State, s2: State, e: Event, s': State)
    requires e.AddCall? && s2 == Purge(Forgotten(s, e.canonical), e.order).0
    requires s' == Add(s, e.canonical, e.fr, e.order)
    requires s2.disk == Forgotten(s, e.canonical).disk - FilesGone(s.table, s2.table)
    ensures s'.disk == s.disk - FilesGone(s.table, s'.table) - Replaced(s, e) - GivenUp(s, e)
  {
    assert Forgotten(s, e.canonical).disk == s.disk - Replaced(s, e);
    assert s'.disk == s2.disk - GivenUp(s, e);
    forall x
      ensures x in FilesGone(s.table, s2.table) + Replaced(s, e) <==> x in FilesGone(s.table, s'.table) + Replaced(s, e)
    {
      GoneOrReplaced(s, s2.table, s'.table, e, x);
    }
  }

  lemma GoneOrReplaced(s: State, t: Table, t': Table, e: Event, x: string)
    requires e.AddCall? && (t' == t || t' == t[e.canonical := e.fr])
    ensures x in FilesGone(s.table, t) + Replaced(s, e) <==> x in FilesGone(s.table, t') + Replaced(s, e)
  {
    if x in FilesGone(s.table, t) {
      var k :| k in s.table && k !in t && s.table[k].cachepath == x;
      assert k == e.canonical || k !in t';
    }
  }

  // ---------------------------------------------------------------- what an entry says

  /** The same record but for the time of its last use. */
  ghost predicate SameFile(a: Record, b: Record) { a == b.(accessTime := a.accessTime) }

  /** After a step every entry is the one just added, or was there before with the same record. */
  lemma StepEntries(s: State, e: Event, k: string)
    requires Legal(s, e) && k in Step(s, e).table
    ensures var r := Step(s, e).table[k];
            (e.AddCall? && k == e.canonical && r == e.fr) || (k in s.table && SameFile(r, s.table[k]))
  {
    match e
    case CreateCall(n) =>
    case CheckCall(m, c, b, now) =>
    case DeblockCall(p) =>
    case AddCall(c, fr, order) => AddEntries(s, c, fr, order, k);
    case RemoveCall(c) =>
    case PurgeCall(order) => PurgeEntries(s, order, k);
  }

  lemma PurgeEntries(s: State, order: seq<string>, k: string)
    requires LruOrder(s.table, order) && k in Purge(s, order).0.table
    ensures k in s.table && Purge(s, order).0.table[k] == s.table[k]
  {
    PurgeLaw(s, order);
  }

  lemma AddEntries(s: State, c: string, fr: Record, order: seq<string>, k: string)
    requires LruOrder(s.table, order) && k in Add(s, c, fr, order).table
    ensures var r := Add(s, c, fr, order).table[k]; (k == c && r == fr) || (k in s.table && r == s.table[k])
  {
    if k in Purge(Forgotten(s, c), order).0.table {
      PurgeEntries(Forgotten(s, c), order, k);
    }
  }

  /** A file just added is found again exactly while its original is not newer than it. */
  lemma AddThenCheck(s: State, c: string, fr: Record, order: seq<string>, origMtime: int, block: bool, now: int)
    requires LruOrder(s.table, order) && Room(s, c, order)
    ensures var s1 := Add(s, c, fr, order);
            var (s2, path) := Check(s1, origMtime, c, block, now);
            && path == (if origMtime <= fr.mtime then PathOf(s.dir, fr.cachepath) else "")
            && c in s2.table && s2.table[c] == fr.(accessTime := now)
  {
    PurgeLaw(Forgotten(s, c), order);
  }

  // ---------------------------------------------------------------- bytes on disk

  /** How long each file is at some moment. */
  type Lengths = string -> nat

  /** The bytes of the files of all entries. */
  ghost function FileBytes(t: Table, len: Lengths): nat { Total(map k | k in t :: t[k].(fsize := len(t[k].cachepath))) }

  /** Every entry has the length of its file for its size. */
  ghost predicate Sized(s: State, len: Lengths) {
    forall k :: k in s.table ==> s.table[k].fsize == len(s.table[k].cachepath)
  }

  /** During a step nobody writes to the file of an entry, and `add` is told the length of the new file. */
  ghost predicate Honest(s: State, e: Event, len: Lengths, len': Lengths) {
    && (forall k :: k in s.table ==> len'(s.table[k].cachepath) == len(s.table[k].cachepath))
    && (e.AddCall? ==> e.fr.fsize == len(e.fr.cachepath) == len'(e.fr.cachepath))
  }

  ghost predicate HonestRun(s: State, es: seq<Event>, lens: seq<Lengths>) {
    |lens| == |es| + 1 && forall i :: 0 <= i < |es| ==> Honest(Run(s, es[..i]), es[i], lens[i], lens[i + 1])
  }

  lemma StepSized(s: State, e: Event, len: Lengths, len': Lengths)
    requires Legal(s, e) && Sized(s, len) && Honest(s, e, len, len')
    ensures Sized(Step(s, e), len')
  {
    forall k | k in Step(s, e).table
      ensures Step(s, e).table[k].fsize == len'(Step(s, e).table[k].cachepath)
    {
      StepEntries(s, e, k);
    }
  }

  /** Recorded sizes stay those of the files over every run. */
  lemma {:induction false} RunSized(s: State, es: seq<Event>, lens: seq<Lengths>)
    requires LegalRun(s, es) && HonestRun(s, es, lens) && Sized(s, lens[0])
    ensures Sized(Run(s, es), lens[|es|])
  {
    if |es| > 0 {
      var n := |es| - 1;
      assert HonestRun(s, es[..n], lens[..n + 1]) by {
        forall i | 0 <= i < n
          ensures Honest(Run(s, es[..n][..i]), es[..n][i], lens[..n + 1][i], lens[..n + 1][i + 1])
        {
          assert es[..n][..i] == es[..i];
        }
      }
      RunSized(s, es[..n], lens[..n + 1]);
      StepSized(Run(s, es[..n]), es[n], lens[n], lens[n + 1]);
    }
  }

  lemma SizedBytes(s: State, len: Lengths)
    requires Sized(s, len)
    ensures FileBytes(s.table, len) == Total(s.table)
  {
    assert (map k | k in s.table :: s.table[k].(fsize := len(s.table[k].cachepath))) == s.table;
  }

  /**
   With a size limit, the files of the entries together have less than twice that many bytes after every run
   without unsafe replacements of files within the limit, and the byte counter is their length.
   */
  lemma RunFileBytes(s: State, es: seq<Event>, lens: seq<Lengths>)
    requires BytesLimited(s) && LegalRun(s, es) && UnsafeSteps(s, es) == 0
    requires HonestRun(s, es, lens) && Sized(s, lens[0])
    requires forall i :: 0 <= i < |es| ==> Admitted(s, es[i])
    ensures FileBytes(Run(s, es).table, lens[|es|]) < 2 * s.maxSize
    ensures Run(s, es).used % W64 == FileBytes(Run(s, es).table, lens[|es|])
  {
    RunSized(s, es, lens);
    RunBytesLimited(s, es);
    LimitedBytes(Run(s, es), lens[|es|]);
  }

  lemma LimitedBytes(s: State, len: Lengths)
    requires BytesLimited(s) && Sized(s, len)
    ensures FileBytes(s.table, len) < 2 * s.maxSize && s.used % W64 == FileBytes(s.table, len)
  {
    SizedBytes(s, len);
  }

  // ---------------------------------------------------------------- limits and marks

  /** In a counted cache a purge fires exactly if the entries reach a limit that is set. */
  lemma FiresAtLimits(s: State)
    requires Counted(s) && SumsFit(s.table)
    ensures Fires(s) <==>
      (s.maxSize > 0 && Total(s.table) >= s.maxSize) || (s.maxFiles > 0 && |s.table| >= s.maxFiles)
  {
    assert s.used % W64 == Total(s.table) && s.nfiles % W32 == |s.table|;
  }

  /** A purge that fires and succeeds brings a counted cache to at most 80% of each limit that is set. */
  lemma PurgeToMarks(s: State, order: seq<string>)
    requires LruOrder(s.table, order) && Counted(s) && SumsFit(s.table) && Fires(s) && Purge(s, order).1 >= 0
    ensures var t := Purge(s, order).0.table;
            (s.maxSize > 0 ==> 5 * Total(t) <= 4 * s.maxSize) && (s.maxFiles > 0 ==> 5 * |t| <= 4 * s.maxFiles)
  {
    PurgeLaw(s, order);
    PurgeDrift(s, order);
    SubTable(s.table, Purge(s, order).0.table);
    AtMarks(Purge(s, order).0);
  }

  lemma AtMarks(s: State)
    requires Counted(s) && SumsFit(s.table) && Low(s)
    ensures (s.maxSize > 0 ==> 5 * Total(s.table) <= 4 * s.maxSize)
         && (s.maxFiles > 0 ==> 5 * |s.table| <= 4 * s.maxFiles)
  {
    if s.maxSize > 0 { MarkIs(s.maxSize); }
    MarkIs(s.maxFiles);
  }

  /** The mark is 80% of the limit, rounded down. */
  lemma MarkIs(limit: nat)
    ensures 5 * Mark(limit) <= 4 * limit < 5 * Mark(limit) + 5
  {
  }

  // ---------------------------------------------------------------- startup

  /**
   Startup leaves a file whose name begins with a dot alone, unless it is an entry's or the index that is thrown
   away, and removes every other file that no entry of the loaded index names.
   */
  lemma StartupDisk(dir: string, maxSize: int, maxFiles: nat, disk: set<string>, index: Index, order: seq<string>,
                    name: string)
    requires LruOrder(LoadedState(dir, maxSize, maxFiles, disk, index).table, order) && |name| >= 1
    ensures var loaded, s := LoadedState(dir, maxSize, maxFiles, disk, index).table,
                             Startup(dir, maxSize, maxFiles, disk, index, order);
            && (name[0] == '.' && name != ".sipicache" && name !in Paths(loaded) ==> (name in s.disk <==> name in disk))
            && (name[0] != '.' && name !in Paths(loaded) ==> name !in s.disk)
            && (name !in disk ==> name !in s.disk)
  {
    var s0 := LoadedState(dir, maxSize, maxFiles, disk, index);
    PurgeDisk(s0, order);
    assert forall x :: x in FilesGone(s0.table, Purge(s0, order).0.table) ==> x in Paths(s0.table);
  }
}
