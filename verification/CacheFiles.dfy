/** Entries and their files over whole runs, from startup on (src/SipiCache.cpp). */
module CacheFiles {
  import opened CacheModel
  import opened CacheLaws
  import opened CacheRuns
  import opened CacheIndex
  import CachePins

  /** The entries whose file is not on disk. */
  ghost function Lost(s: State): set<string> { set k | k in s.table && s.table[k].cachepath !in s.disk }

  /** New files have names no entry has, and `add` is handed such a file that is on disk. */
  ghost predicate NewFile(s: State, e: Event) {
    && (e.CreateCall? ==> e.name !in Paths(s.table))
    && (e.AddCall? ==> e.fr.cachepath in s.disk && e.fr.cachepath !in Paths(s.table))
  }

  ghost predicate NewFiles(s: State, es: seq<Event>) {
    forall i :: 0 <= i < |es| ==> NewFile(Run(s, es[..i]), es[i])
  }

  /** A replacement of a pinned entry whose purge fails: the old file is gone and the entry stays. */
  ghost predicate Strands(s: State, e: Event) {
    && e.AddCall? && e.canonical in s.table && Pinned(s, s.table[e.canonical].cachepath)
    && Refuses(Forgotten(s, e.canonical), e.order)
  }

  /** Counted sums in range: exactly if without the entry a limit is reached and the other pins exceed a mark. */
  lemma StrandsIff(s: State, e: Event)
    requires e.AddCall? && Legal(s, e) && Counted(s) && SumsFit(s.table)
    requires e.canonical in s.table && Pinned(s, s.table[e.canonical].cachepath)
    ensures Strands(s, e) <==> Fires(Forgotten(s, e.canonical)) && !PinsLow(Forgotten(s, e.canonical))
  {
    PurgeFailsIff(Forgotten(s, e.canonical), e.order);
    RoomIff(s, e.canonical, e.order);
  }

  /** The entries left without a file by a run: stranded, and neither dropped nor given another file since. */
  ghost function Stranded(s: State, es: seq<Event>): set<string> {
    if |es| == 0 then {}
    else
      var n := |es| - 1;
      var before, after := Run(s, es[..n]), Run(s, es);
      (set k | k in Stranded(s, es[..n]) && k in before.table && k in after.table
               && after.table[k].cachepath == before.table[k].cachepath)
      + (if Strands(before, es[n]) then {es[n].canonical} else {})
  }

  // ---------------------------------------------------------------- one step

  lemma EvictedLost(s: State, s': State, ks: seq<string>)
    requires UniquePaths(s.table) && EvictedFrom(s, s', ks)
    ensures UniquePaths(s'.table) && Lost(s') == set k | k in Lost(s) && k in s'.table
  {
    forall k | k in s'.table
      ensures s'.table[k].cachepath in s'.disk <==> s.table[k].cachepath in s.disk
    {
      assert s.table[k].cachepath !in FilesOf(s.table, ks) by {
        assert forall i :: 0 <= i < |ks| ==> ks[i] in KeySet(ks) && ks[i] != k;
      }
    }
  }

  /** A purge loses no file of an entry that stays. */
  lemma PurgeLost(s: State, order: seq<string>)
    requires UniquePaths(s.table) && LruOrder(s.table, order)
    ensures var s' := Purge(s, order).0; UniquePaths(s'.table) && Lost(s') == set k | k in Lost(s) && k in s'.table
  {
    if Fires(s) {
      EvictIsPrefix(s, order);
      EvictedLost(s, Evict(s, order).0, Victims(s, order)[..Evict(s, order).1]);
    }
  }

  /** A purge unlinks only files of entries. */
  lemma PurgeKeepsOthers(s: State, order: seq<string>, x: string)
    requires LruOrder(s.table, order) && x in s.disk && x !in Paths(s.table)
    ensures x in Purge(s, order).0.disk
  {
    if Fires(s) {
      EvictIsPrefix(s, order);
      NotOfTheirs(s.table, Victims(s, order)[..Evict(s, order).1], x);
    }
  }

  lemma NotOfTheirs(t: Table, ks: seq<string>, x: string)
    requires (forall i :: 0 <= i < |ks| ==> ks[i] in t) && x !in Paths(t)
    ensures x !in FilesOf(t, ks)
  {
  }

  /** The lost entries of `s` that still have the same file in `s'`. */
  ghost function StillLost(s: State, s': State): set<string> {
    set k | k in Lost(s) && k in s'.table && s'.table[k].cachepath == s.table[k].cachepath
  }

  /** What a purge from `s` to `s2` does to entries and files. */
  ghost predicate Purged(s: State, s2: State) {
    && s2.table.Keys <= s.table.Keys && (forall k :: k in s2.table ==> s2.table[k] == s.table[k])
    && (forall k :: k in s.table && k !in s2.table ==> !Pinned(s, s.table[k].cachepath))
    && UniquePaths(s2.table) && Lost(s2) == set k | k in Lost(s) && k in s2.table
  }

  lemma PurgeIsPurged(s: State, order: seq<string>)
    requires UniquePaths(s.table) && LruOrder(s.table, order)
    ensures Purged(s, Purge(s, order).0)
    ensures Purge(s, order).1 < 0 ==> forall k :: k in Purge(s, order).0.table ==> Pinned(s, s.table[k].cachepath)
  {
    PurgeLaw(s, order);
    PurgeLost(s, order);
  }

  lemma AddLost(s: State, c: string, fr: Record, order: seq<string>)
    requires UniquePaths(s.table) && LruOrder(s.table, order) && NewFile(s, AddCall(c, fr, order))
    ensures var s' := Add(s, c, fr, order);
            && UniquePaths(s'.table)
            && Lost(s') == StillLost(s, s') + (if Strands(s, AddCall(c, fr, order)) then {c} else {})
  {
    var s1 := Forgotten(s, c);
    var (s2, r) := Purge(s1, order);
    PurgeIsPurged(s1, order);
    PurgeFailsIff(s1, order);
    PurgeKeepsOthers(s1, order, fr.cachepath) by {
      assert c in s.table ==> s.table[c].cachepath in Paths(s.table);
    }
    if r == -1 {
      RefusedLost(s, s2, c, fr);
    } else {
      EnteredLost(s, s2, c, fr);
    }
  }

  lemma SubPaths(t: Table, u: Table, x: string)
    requires u.Keys <= t.Keys && (forall k :: k in u ==> u[k] == t[k]) && x !in Paths(t)
    ensures x !in Paths(u)
  {
  }

  lemma RefusedLost(s: State, s2: State, c: string, fr: Record)
    requires UniquePaths(s.table) && fr.cachepath !in Paths(s.table) && Purged(Forgotten(s, c), s2)
    requires forall k :: k in s2.table ==> Pinned(s, s.table[k].cachepath)
    ensures var s' := s2.(disk := s2.disk - {fr.cachepath});
            Lost(s') == StillLost(s, s') + (if c in s.table && Pinned(s, s.table[c].cachepath) then {c} else {})
  {
    ForgottenLost(s, c);
    SubPaths(s.table, s2.table, fr.cachepath);
    UnlinkedLost(s2, fr.cachepath);
  }

  lemma ForgottenLost(s: State, c: string)
    requires UniquePaths(s.table)
    ensures Lost(Forgotten(s, c)) == Lost(s) + (if c in s.table then {c} else {})
  {
  }

  lemma UnlinkedLost(s: State, x: string)
    requires x !in Paths(s.table)
    ensures Lost(s.(disk := s.disk - {x})) == Lost(s)
  {
    assert forall k :: k in s.table ==> s.table[k].cachepath in Paths(s.table);
  }

  lemma EnteredLost(s: State, s2: State, c: string, fr: Record)
    requires UniquePaths(s.table) && fr.cachepath !in Paths(s.table) && Purged(Forgotten(s, c), s2) &&
      fr.cachepath in s2.disk
    ensures var s' := s2.(table := s2.table[c := fr], used := s2.used + fr.fsize, nfiles := s2.nfiles + 1);
            UniquePaths(s'.table) && Lost(s') == StillLost(s, s')
  {
    ForgottenLost(s, c);
    SubPaths(s.table, s2.table, fr.cachepath);
    EnteredPaths(s2.table, c, fr);
    var s' := s2.(table := s2.table[c := fr], used := s2.used + fr.fsize, nfiles := s2.nfiles + 1);
    assert c in s.table ==> s.table[c].cachepath in Paths(s.table);
    forall k
      ensures k in Lost(s') <==> k in StillLost(s, s')
    {
      if k != c {
        assert k in Lost(s') <==> k in Lost(s2);
        assert k in Lost(s2) <==> k in Lost(s) && k in s2.table;
      }
    }
  }

  lemma EnteredPaths(t: Table, c: string, fr: Record)
    requires UniquePaths(t) && fr.cachepath !in Paths(t)
    ensures UniquePaths(t[c := fr])
  {
    assert forall k :: k in t ==> t[k].cachepath in Paths(t);
  }

  /** Exactly which entries have lost their file after a step. */
  lemma StepLost(s: State, e: Event)
    requires UniquePaths(s.table) && Legal(s, e) && NewFile(s, e)
    ensures UniquePaths(Step(s, e).table)
    ensures Lost(Step(s, e)) == StillLost(s, Step(s, e)) + (if Strands(s, e) then {e.canonical} else {})
  {
    match e
    case CreateCall(n) => CreateLost(s, n);
    case CheckCall(m, c, b, now) => CheckLost(s, m, c, b, now);
    case DeblockCall(p) => DeblockLost(s, p);
    case AddCall(c, fr, order) => AddLost(s, c, fr, order);
    case RemoveCall(c) => RemoveLost(s, c);
    case PurgeCall(order) => PurgeStillLost(s, order);
  }

  lemma DeblockLost(s: State, p: string)
    ensures var s' := Deblock(s, p); s'.table == s.table && Lost(s') == StillLost(s, s')
  {
  }

  lemma PurgeStillLost(s: State, order: seq<string>)
    requires UniquePaths(s.table) && LruOrder(s.table, order)
    ensures var s' := Purge(s, order).0; UniquePaths(s'.table) && Lost(s') == StillLost(s, s')
  {
    PurgeIsPurged(s, order);
  }

  lemma CreateLost(s: State, n: string)
    requires n !in Paths(s.table)
    ensures var s' := Step(s, CreateCall(n)); Lost(s') == StillLost(s, s')
  {
    assert forall k :: k in s.table ==> s.table[k].cachepath in Paths(s.table);
  }

  lemma CheckLost(s: State, m: int, c: string, b: bool, now: int)
    requires UniquePaths(s.table)
    ensures var s' := Check(s, m, c, b, now).0; UniquePaths(s'.table) && Lost(s') == StillLost(s, s')
  {
  }

  lemma RemoveLost(s: State, c: string)
    requires UniquePaths(s.table)
    ensures var s' := Remove(s, c).0; UniquePaths(s'.table) && Lost(s') == StillLost(s, s')
  {
  }

  // ---------------------------------------------------------------- whole runs

  /**
   After any run from a state in which every entry has its file, the entries without a file are
   exactly the stranded ones; so every entry has its file if and only if none is stranded.
   */
  lemma {:induction false} RunFiles(s: State, es: seq<Event>)
    requires UniquePaths(s.table) && Lost(s) == {} && LegalRun(s, es) && NewFiles(s, es)
    ensures UniquePaths(Run(s, es).table) && Lost(Run(s, es)) == Stranded(s, es)
  {
    if |es| > 0 {
      var n := |es| - 1;
      forall i | 0 <= i < n
        ensures NewFile(Run(s, es[..n][..i]), es[..n][i])
      {
        assert es[..n][..i] == es[..i];
      }
      RunFiles(s, es[..n]);
      StepLost(Run(s, es[..n]), es[n]);
    }
  }

  // ---------------------------------------------------------------- from startup

  /** After startup every entry has its file, and with both limits set the cache is within them. */
  lemma StartupReady(dir: string, maxSize: int, maxFiles: nat, disk: set<string>, index: Index, order: seq<string>)
    requires LruOrder(LoadedState(dir, maxSize, maxFiles, disk, index).table, order)
    requires Whole(index) ==>
      DistinctKeys(Accepted(disk, index.records)) && DistinctPaths(Accepted(disk, index.records))
    ensures var s := Startup(dir, maxSize, maxFiles, disk, index, order);
            && UniquePaths(s.table)
            && ((forall k :: k in s.table ==> !Hidden(s.table[k].cachepath)) ==> Lost(s) == {})
            && (0 < maxSize < W64 / 2 && 0 < maxFiles < W32 && SumsFit(s.table) ==> Bounded(s))
  {
    StartupSound(dir, maxSize, maxFiles, disk, index, order);
    var s := Startup(dir, maxSize, maxFiles, disk, index, order);
    assert forall k :: k in s.table ==> s.table[k].cachepath in Paths(s.table);
    PurgeLaw(LoadedState(dir, maxSize, maxFiles, disk, index), order);
    if 0 < maxSize < W64 / 2 && 0 < maxFiles < W32 && SumsFit(s.table) {
      FileRoom(s);
      ByteRoom(s);
    }
  }

  // ---------------------------------------------------------------- a stranded entry

  /** Limit 10 bytes, "a" of 1 byte and "b" of 10, both pinned; then "a" is replaced. */
  function StrandStory(): seq<Event> {
    var hits := [CheckCall(0, "a", true, 3), CheckCall(0, "b", true, 4)];
    CachePins.Story()[..2] + hits + [AddCall("a", CachePins.Rec("f3", 1, 5), ["a", "b"])]
  }

  function BothPinned(): State {
    CachePins.TwoFiles().(table := map["a" := CachePins.Rec("f1", 1, 3), "b" := CachePins.Rec("f2", 10, 4)],
                          blocked := map["c/f1" := 1, "c/f2" := 1])
  }

  lemma BothPinnedReached()
    ensures LegalRun(CachePins.Fresh(10, CachePins.THREE), StrandStory()[..4])
    ensures Run(CachePins.Fresh(10, CachePins.THREE), StrandStory()[..4]) == BothPinned()
  {
    CachePins.StoryStart();
    HitBoth();
    var es, e, f := CachePins.Story()[..2], CheckCall(0, "a", true, 3), CheckCall(0, "b", true, 4);
    CachePins.RunAppendTwo(CachePins.Fresh(10, CachePins.THREE), es, e, f);
    assert StrandStory()[..4] == es + [e, f];
  }

  lemma HitBoth()
    ensures Step(Step(CachePins.TwoFiles(), CheckCall(0, "a", true, 3)), CheckCall(0, "b", true, 4)) == BothPinned()
  {
    assert PathOf("c", "f1") == "c/f1" && PathOf("c", "f2") == "c/f2";
    var s := Step(CachePins.TwoFiles(), CheckCall(0, "a", true, 3));
    assert s.table == map["a" := CachePins.Rec("f1", 1, 3), "b" := CachePins.Rec("f2", 10, 2)];
    assert s.blocked == map["c/f1" := 1];
  }

  lemma LastStrands()
    ensures Legal(BothPinned(), StrandStory()[4])
    ensures var s := Step(BothPinned(), StrandStory()[4]);
            "a" in s.table && s.table["a"].cachepath == "f1" && "f1" !in s.disk
  {
    assert PathOf("c", "f1") == "c/f1" && PathOf("c", "f2") == "c/f2";
    var f := Forgotten(BothPinned(), "a");
    assert Fires(f) && !Low(f);
    assert ["a", "b"][1..] == ["b"] && ["b"][1..] == [];
    assert Evict(f, ["b"]) == (f, 0);
    assert Evict(f, ["a", "b"]) == (f, 0);
  }

  /** A run from a new cache that leaves the entry "a" without its file. */
  lemma StrandedExample()
    ensures LegalRun(CachePins.Fresh(10, CachePins.THREE), StrandStory())
    ensures "a" in Lost(Run(CachePins.Fresh(10, CachePins.THREE), StrandStory()))
  {
    var es := StrandStory();
    BothPinnedReached();
    LastStrands();
    CachePins.RunAppend(CachePins.Fresh(10, CachePins.THREE), es[..4], es[4]);
    assert es[..4] + [es[4]] == es;
  }
}
