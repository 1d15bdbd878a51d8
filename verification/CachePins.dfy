/** Pins of cache files over whole runs, and what a replacement can break (src/SipiCache.cpp). */
module CachePins {
  import opened CacheModel
  import opened CacheLaws
  import opened CacheRuns

  /** How often path `p` is pinned. */
  function Pin(s: State, p: string): int { if p in s.blocked then s.blocked[p] else 0 }

  /** No entry of the pin table is zero or less. */
  ghost predicate NoZero(s: State) { forall p :: p in s.blocked ==> s.blocked[p] >= 1 }

  /** A cache hit that pins path `p`. */
  ghost predicate BlockingHit(s: State, e: Event, p: string) {
    e.CheckCall? && e.block && e.canonical in s.table && e.origMtime <= s.table[e.canonical].mtime
    && p == PathOf(s.dir, s.table[e.canonical].cachepath)
  }

  ghost function Hits(s: State, es: seq<Event>, p: string): nat {
    if |es| == 0 then 0
    else
      var n := |es| - 1;
      Hits(s, es[..n], p) + (if BlockingHit(Run(s, es[..n]), es[n], p) then 1 else 0)
  }

  function Releases(es: seq<Event>, p: string): nat {
    if |es| == 0 then 0
    else Releases(es[..|es| - 1], p) + (if es[|es| - 1] == DeblockCall(p) then 1 else 0)
  }

  /** At no point have more releases of `p` been made than there were pins. */
  ghost predicate Matched(s: State, es: seq<Event>, p: string) {
    forall i :: 0 <= i <= |es| ==> Releases(es[..i], p) <= Pin(s, p) + Hits(s, es[..i], p)
  }

  lemma StepPins(s: State, e: Event, p: string)
    requires NoZero(s) && Legal(s, e)
    ensures NoZero(Step(s, e)) && Step(s, e).dir == s.dir
    ensures Pin(Step(s, e), p) == Pin(s, p) + (if BlockingHit(s, e, p) then 1 else 0)
                                  - (if e == DeblockCall(p) && Pin(s, p) > 0 then 1 else 0)
  {
    match e
    case AddCall(c, fr, order) => PurgeKeepsPins(Forgotten(s, c), order);
    case PurgeCall(order) => PurgeKeepsPins(s, order);
    case _ =>
  }

  lemma PurgeKeepsPins(s: State, order: seq<string>)
    requires LruOrder(s.table, order)
    ensures Purge(s, order).0.blocked == s.blocked && Purge(s, order).0.dir == s.dir
  {
    PurgeLaw(s, order);
  }

  /**
   In every run the pin count of a path is the blocking cache hits minus the releases, as long as
   releases match pins, and no zero entry is ever stored.
   */
  lemma {:induction false} RunPins(s: State, es: seq<Event>, p: string)
    requires NoZero(s) && LegalRun(s, es) && Matched(s, es, p)
    ensures NoZero(Run(s, es))
    ensures Pin(Run(s, es), p) == Pin(s, p) + Hits(s, es, p) - Releases(es, p)
  {
    if |es| > 0 {
      var n := |es| - 1;
      forall i | 0 <= i <= n
        ensures Releases(es[..n][..i], p) <= Pin(s, p) + Hits(s, es[..n][..i], p)
      {
        assert es[..n][..i] == es[..i];
      }
      RunPins(s, es[..n], p);
      StepPins(Run(s, es[..n]), es[n], p);
      assert es[..|es|] == es;
    }
  }

  /** Once every pin taken in a run has been released, the path is pinned exactly as at its start. */
  lemma BalancedRun(s: State, es: seq<Event>, p: string)
    requires NoZero(s) && LegalRun(s, es) && Matched(s, es, p) && Hits(s, es, p) == Releases(es, p)
    ensures Pin(Run(s, es), p) == Pin(s, p)
  {
    RunPins(s, es, p);
  }

  // ---------------------------------------------------------------- pinned files on disk

  /**
   A step takes a pinned file off the disk if and only if it is an `add` that replaces the entry of
   that file, or an `add` whose purge fails and whose own new file it is. `purge` and `remove` never do.
   */
  lemma PinnedUnlinkIff(s: State, e: Event, x: string)
    requires Legal(s, e) && x in s.disk && Pinned(s, x)
    ensures x !in Step(s, e).disk <==>
      (e.AddCall? && ((e.canonical in s.table && s.table[e.canonical].cachepath == x)
                      || (Refuses(Forgotten(s, e.canonical), e.order) && e.fr.cachepath == x)))
  {
    match e
    case AddCall(c, fr, order) => AddUnlinksPinned(s, c, fr, order, x);
    case PurgeCall(order) => PurgeKeepsPinned(s, order, x);
    case _ =>
  }

  lemma PurgeKeepsPinned(s: State, order: seq<string>, x: string)
    requires LruOrder(s.table, order) && Pinned(s, x)
    ensures x in Purge(s, order).0.disk <==> x in s.disk
  {
    PurgeLaw(s, order);
  }

  lemma AddUnlinksPinned(s: State, c: string, fr: Record, order: seq<string>, x: string)
    requires LruOrder(s.table, order) && x in s.disk && Pinned(s, x)
    ensures x !in Add(s, c, fr, order).disk <==>
      (c in s.table && s.table[c].cachepath == x) || (Refuses(Forgotten(s, c), order) && fr.cachepath == x)
  {
    PurgeFailsIff(Forgotten(s, c), order);
    PurgeKeepsPinned(Forgotten(s, c), order, x);
  }

  /** A blocking hit followed by an `add` of the same key takes the pinned file off the disk, in every state. */
  lemma HitThenReplace(s: State, key: string, mtime: int, now: int, fr: Record, order: seq<string>)
    requires key in s.table && mtime <= s.table[key].mtime && s.table[key].cachepath in s.disk
    requires Legal(Step(s, CheckCall(mtime, key, true, now)), AddCall(key, fr, order))
    requires NoZero(s)
    ensures var s1 := Step(s, CheckCall(mtime, key, true, now)); var s2 := Step(s1, AddCall(key, fr, order));
            var x := s.table[key].cachepath;
            Pinned(s1, x) && x in s1.disk && Pinned(s2, x) && x !in s2.disk
  {
    var s1 := Step(s, CheckCall(mtime, key, true, now));
    PinnedUnlinkIff(s1, AddCall(key, fr, order), s.table[key].cachepath);
    PurgeKeepsPins(Forgotten(s1, key), order);
  }

  // ---------------------------------------------------------------- an unsafe replacement, worked through

  function Rec(name: string, size: nat, at: int): Record {
    Record(1, 1, 0, 0, 0, 0, "o", name, 0, at, size)
  }

  /** A new cache whose directory holds the files of `disk`, made by encoders. */
  function Fresh(maxSize: int, disk: set<string>): State { State("c", maxSize, 0, map[], map[], 0, 0, disk) }

  const THREE: set<string> := {"f1", "f2", "f3"}

  /** Limit 10 bytes: add "a" (1 byte) and "b" (10 bytes), then replace "a". */
  function Story(): seq<Event> {
    [AddCall("a", Rec("f1", 1, 1), []), AddCall("b", Rec("f2", 10, 2), ["a"]),
     AddCall("a", Rec("f3", 1, 3), ["a", "b"])]
  }

  lemma RunAppend(s: State, es: seq<Event>, e: Event)
    ensures Run(s, es + [e]) == Step(Run(s, es), e)
    ensures LegalRun(s, es + [e]) <==> LegalRun(s, es) && Legal(Run(s, es), e)
  {
    assert (es + [e])[..|es|] == es;
  }

  lemma RunAppendTwo(s: State, es: seq<Event>, e: Event, f: Event)
    ensures Run(s, es + [e, f]) == Step(Step(Run(s, es), e), f)
    ensures LegalRun(s, es + [e, f]) <==> LegalRun(s, es) && Legal(Run(s, es), e) && Legal(Step(Run(s, es), e), f)
  {
    RunAppend(s, es, e);
    RunAppend(s, es + [e], f);
    assert es + [e] + [f] == es + [e, f];
  }

  /** The state after the two harmless steps of the story. */
  function TwoFiles(): State {
    State("c", 10, 0, map["a" := Rec("f1", 1, 1), "b" := Rec("f2", 10, 2)], map[], 11, 2, THREE)
  }

  lemma StoryStart()
    ensures Run(Fresh(10, THREE), Story()[..2]) == TwoFiles() && LegalRun(Fresh(10, THREE), Story()[..2])
  {
    var s0, es := Fresh(10, THREE), Story();
    var s1 := Step(s0, es[0]);
    assert s1 == State("c", 10, 0, map["a" := Rec("f1", 1, 1)], map[], 1, 1, THREE);
    assert Step(s1, es[1]) == TwoFiles();
    RunAppend(s0, [], es[0]);
    RunAppend(s0, [es[0]], es[1]);
    assert [] + [es[0]] == [es[0]] && [es[0]] + [es[1]] == es[..2];
  }

  lemma LastStep()
    ensures Legal(TwoFiles(), Story()[2])
    ensures var s := Step(TwoFiles(), Story()[2]); s.table == map[] && s.used == -1 && s.nfiles == -1
  {
    var f := Forgotten(TwoFiles(), "a");
    var d := Dropped(f, "a");
    var d2 := Dropped(d, "b");
    assert d2.table == map[] && d2.used == -1 && d2.nfiles == -1;
    assert ["a", "b"][1..] == ["b"] && ["b"][1..] == [];
    assert Evict(d, ["b"]) == (d2, 1);
    assert Evict(f, ["a", "b"]) == (d2, 2);
  }

  /** The replaced entry is evicted, its size comes off twice, the counters wrap, and everything is evicted. */
  lemma ReplacementWedges()
    ensures LegalRun(Fresh(10, THREE), Story())
    ensures var s := Run(Fresh(10, THREE), Story());
            s.table == map[] && s.used % W64 == W64 - 1 && s.nfiles % W32 == W32 - 1
  {
    StoryStart();
    LastStep();
    RunAppend(Fresh(10, THREE), Story()[..2], Story()[2]);
    assert Story()[..2] + [Story()[2]] == Story();
  }

  /** An empty table with a counter above its mark stays empty: every later `add` is refused. */
  lemma WedgedForever(s: State, e: Event)
    requires s.table == map[] && Fires(s) && !Low(s) && Legal(s, e)
    ensures var s' := Step(s, e); s'.table == map[] && Fires(s') && !Low(s')
  {
    match e
    case AddCall(c, fr, order) => EmptyOrder(order);
    case PurgeCall(order) => EmptyOrder(order);
    case _ =>
  }

  lemma HeadIn(order: seq<string>)
    requires |order| > 0
    ensures order[0] in order
  {
  }

  lemma EmptyOrder(order: seq<string>)
    requires LruOrder(map[], order)
    ensures order == []
  {
    if |order| > 0 {
      HeadIn(order);
    }
  }

  /** From a new cache: make a file, add it, hit it, make another and replace it; the first is pinned and gone. */
  function PinStory(): seq<Event> {
    [CreateCall("f1"), AddCall("a", Rec("f1", 1, 1), []), CheckCall(0, "a", true, 2),
     CreateCall("f2"), AddCall("a", Rec("f2", 1, 3), ["a"])]
  }

  function Hit(): State { State("c", 10, 0, map["a" := Rec("f1", 1, 2)], map["c/f1" := 1], 1, 1, {"f1"}) }

  lemma PinStorySteps()
    ensures var s1 := Fresh(10, {"f1"}); var s2 := State("c", 10, 0, map["a" := Rec("f1", 1, 1)], map[], 1, 1, {"f1"});
            && Step(Fresh(10, {}), PinStory()[0]) == s1 && Step(s1, PinStory()[1]) == s2
            && Step(s2, PinStory()[2]) == Hit() && Legal(s1, PinStory()[1])
  {
    assert PathOf("c", "f1") == "c/f1";
  }

  lemma PinStoryState()
    ensures LegalRun(Fresh(10, {}), PinStory()[..4])
    ensures Run(Fresh(10, {}), PinStory()[..4]) == Hit().(disk := {"f1", "f2"})
  {
    var s0, es := Fresh(10, {}), PinStory();
    PinStorySteps();
    RunAppend(s0, [], es[0]);
    RunAppend(s0, [es[0]], es[1]);
    assert [] + [es[0]] == [es[0]] && [es[0]] + [es[1]] == es[..2];
    PinStoryEnd();
  }

  lemma PinStoryEnd()
    requires LegalRun(Fresh(10, {}), PinStory()[..2])
    requires Step(Run(Fresh(10, {}), PinStory()[..2]), PinStory()[2]) == Hit()
    ensures LegalRun(Fresh(10, {}), PinStory()[..4])
    ensures Run(Fresh(10, {}), PinStory()[..4]) == Hit().(disk := {"f1", "f2"})
  {
    var s0, es := Fresh(10, {}), PinStory();
    RunAppend(s0, es[..2], es[2]);
    RunAppend(s0, es[..3], es[3]);
    assert es[..2] + [es[2]] == es[..3] && es[..3] + [es[3]] == es[..4];
  }

  lemma PinStoryLast(s: State)
    requires s == Hit().(disk := {"f1", "f2"})
    ensures Legal(s, PinStory()[4])
    ensures Pinned(Step(s, PinStory()[4]), "f1") && "f1" !in Step(s, PinStory()[4]).disk
  {
    assert PathOf("c", "f1") == "c/f1";
    PinnedUnlinkIff(s, PinStory()[4], "f1");
    PurgeKeepsPins(Forgotten(s, "a"), ["a"]);
  }

  lemma PinnedFileUnlinked()
    ensures LegalRun(Fresh(10, {}), PinStory())
    ensures var s := Run(Fresh(10, {}), PinStory()); Pinned(s, "f1") && "f1" !in s.disk
  {
    PinStoryState();
    var es := PinStory();
    RunAppend(Fresh(10, {}), es[..4], es[4]);
    assert es[..4] + [es[4]] == es;
    PinStoryLast(Run(Fresh(10, {}), es[..4]));
  }
}
