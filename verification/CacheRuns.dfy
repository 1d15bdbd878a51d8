/** Whole runs of the cache: every interleaving of its public methods (src/SipiCache.cpp). */
module CacheRuns {
  import opened CacheModel
  import opened CacheLaws
  import Wrap

  /** One locked call; `order` is the sorted list that the purge inside it goes through. */
  datatype Event =
    /** `getNewCacheFileName`: a new, empty file for an encoder to fill. */
    | CreateCall(name: string)
    | CheckCall(origMtime: int, canonical: string, block: bool, now: int)
    | DeblockCall(path: string)
    | AddCall(canonical: string, fr: Record, order: seq<string>)
    | RemoveCall(canonical: string)
    | PurgeCall(order: seq<string>)

  ghost predicate Legal(s: State, e: Event) {
    (e.CreateCall? ==> e.name !in s.disk) && (e.AddCall? || e.PurgeCall? ==> LruOrder(s.table, e.order))
  }

  function Step(s: State, e: Event): State {
    match e
    case CreateCall(n) => s.(disk := s.disk + {n})
    case CheckCall(m, c, b, now) => Check(s, m, c, b, now).0
    case DeblockCall(p) => Deblock(s, p)
    case AddCall(c, fr, order) => Add(s, c, fr, order)
    case RemoveCall(c) => Remove(s, c).0
    case PurgeCall(order) => Purge(s, order).0
  }

  function Run(s: State, es: seq<Event>): State {
    if |es| == 0 then s else Step(Run(s, es[..|es| - 1]), es[|es| - 1])
  }

  ghost predicate LegalRun(s: State, es: seq<Event>) {
    |es| == 0 || (LegalRun(s, es[..|es| - 1]) && Legal(Run(s, es[..|es| - 1]), es[|es| - 1]))
  }

  // ---------------------------------------------------------------- accounting

  /** An `add` that replaces an entry which its own purge evicts, or whose purge fails. */
  ghost predicate Unsafe(s: State, e: Event) {
    e.AddCall? && e.canonical in s.table && !SafeReplacement(s, e.canonical, e.order)
  }

  /** How many steps of the run were unsafe replacements. */
  ghost function UnsafeSteps(s: State, es: seq<Event>): nat {
    if |es| == 0 then 0
    else
      var n := |es| - 1;
      UnsafeSteps(s, es[..n]) + (if Unsafe(Run(s, es[..n]), es[n]) then 1 else 0)
  }

  /** The bytes that unsafe replacements took off twice. */
  ghost function UnsafeBytes(s: State, es: seq<Event>): nat {
    if |es| == 0 then 0
    else
      var n := |es| - 1;
      var s' := Run(s, es[..n]);
      UnsafeBytes(s, es[..n]) + (if Unsafe(s', es[n]) then s'.table[es[n].canonical].fsize else 0)
  }

  lemma StepDrift(s: State, e: Event)
    requires Legal(s, e)
    ensures if Unsafe(s, e)
            then FilesOff(Step(s, e)) == FilesOff(s) - 1 &&
                 BytesOff(Step(s, e)) == BytesOff(s) - s.table[e.canonical].fsize
            else FilesOff(Step(s, e)) == FilesOff(s) && BytesOff(Step(s, e)) == BytesOff(s)
  {
    match e
    case CreateCall(n) =>
    case CheckCall(m, c, b, now) => CheckDrift(s, m, c, b, now);
    case DeblockCall(p) =>
    case AddCall(c, fr, order) => AddDrift(s, c, fr, order);
    case RemoveCall(c) => RemoveDrift(s, c);
    case PurgeCall(order) => PurgeDrift(s, order);
  }

  /**
   In every run the file counter falls behind the table by one for each unsafe replacement and the
   byte counter by the sizes replaced; nothing else ever moves them apart.
   */
  lemma {:induction false} RunDrift(s: State, es: seq<Event>)
    requires LegalRun(s, es)
    ensures FilesOff(Run(s, es)) == FilesOff(s) - UnsafeSteps(s, es)
    ensures BytesOff(Run(s, es)) == BytesOff(s) - UnsafeBytes(s, es)
  {
    if |es| > 0 {
      var n := |es| - 1;
      RunDrift(s, es[..n]);
      StepDrift(Run(s, es[..n]), es[n]);
    }
  }

  /**
   A run from exact counters ends with exact counters if and only if the table's totals are in
   their range and the unsafe replacements, in number and in bytes, come to whole turns of the
   counters. With fewer than 2^32 unsafe replacements that means: if and only if there was none.
   */
  lemma RunExactIff(s: State, es: seq<Event>)
    requires LegalRun(s, es) && Exact(s)
    ensures Exact(Run(s, es)) <==>
      SumsFit(Run(s, es).table) && UnsafeBytes(s, es) % W64 == 0 && UnsafeSteps(s, es) % W32 == 0
    ensures SumsFit(Run(s, es).table) && UnsafeSteps(s, es) < W32 ==> (Exact(Run(s, es)) <==> UnsafeSteps(s, es) == 0)
  {
    RunDrift(s, es);
    NoStepsNoBytes(s, es);
    DriftExactIff(s, Run(s, es), UnsafeBytes(s, es), UnsafeSteps(s, es));
    SmallTurns(UnsafeSteps(s, es), W32);
  }

  lemma DriftExactIff(s: State, s': State, bytes: nat, files: nat)
    requires Exact(s) && BytesOff(s') == BytesOff(s) - bytes && FilesOff(s') == FilesOff(s) - files
    ensures Exact(s') <==> SumsFit(s'.table) && bytes % W64 == 0 && files % W32 == 0
  {
    ExactIff(s);
    ExactIff(s');
    Wrap.MultipleSub(BytesOff(s), bytes, W64);
    Wrap.MultipleSub(FilesOff(s), files, W32);
  }

  lemma SmallTurns(n: nat, w: nat)
    requires w > 0
    ensures n < w ==> (n % w == 0 <==> n == 0)
    ensures 0 % w == 0
  {
  }

  /** In every run the counters are the table's totals less what was lost. */
  lemma RunTotals(s: State, es: seq<Event>)
    requires LegalRun(s, es)
    ensures Run(s, es).nfiles == |Run(s, es).table| + FilesOff(s) - UnsafeSteps(s, es)
    ensures Run(s, es).used == Total(Run(s, es).table) + BytesOff(s) - UnsafeBytes(s, es)
  {
    RunDrift(s, es);
  }

  /** In every run the program's counters are the residues of the table's totals less what was lost. */
  lemma RunResidues(s: State, es: seq<Event>)
    requires LegalRun(s, es)
    ensures Run(s, es).nfiles % W32 == (|Run(s, es).table| + FilesOff(s) - UnsafeSteps(s, es)) % W32
    ensures Run(s, es).used % W64 == (Total(Run(s, es).table) + BytesOff(s) - UnsafeBytes(s, es)) % W64
  {
    RunTotals(s, es);
  }

  lemma {:induction false} NoStepsNoBytes(s: State, es: seq<Event>)
    ensures UnsafeSteps(s, es) == 0 ==> UnsafeBytes(s, es) == 0
  {
    if |es| > 0 {
      NoStepsNoBytes(s, es[..|es| - 1]);
    }
  }

  // ---------------------------------------------------------------- limits

  /** A file limit, within the range of its C type, and observed. */
  ghost predicate FilesLimited(s: State) { 0 < s.maxFiles < W32 && Counted(s) && s.nfiles <= s.maxFiles }

  /** A size limit, within the range of its C type, and observed up to one file. */
  ghost predicate BytesLimited(s: State) { 0 < s.maxSize < W64 / 2 && Counted(s) && s.used < 2 * s.maxSize }

  ghost predicate Bounded(s: State) { FilesLimited(s) && BytesLimited(s) }

  /** What the encoder lets through: no file above the size limit. */
  ghost predicate Admitted(s: State, e: Event) {
    e.AddCall? ==> e.fr.fsize <= s.maxSize
  }

  /** The bytes of the entries that remain, and the replaced one among them, are still counted or forgotten. */
  lemma AfterPurge(s: State, k: string, order: seq<string>)
    requires Counted(s) && LruOrder(s.table, order)
    ensures var s1 := Forgotten(s, k);
            var s2 := Purge(s1, order).0;
            && s2.used <= s1.used && s2.nfiles <= s1.nfiles
            && (k in s2.table || k !in s.table ==> 0 <= s2.used && 0 <= s2.nfiles)
  {
    var s1 := Forgotten(s, k);
    PurgeDrift(s1, order);
    PurgeLaw(s1, order);
    var s2 := Purge(s1, order).0;
    SubTable(s.table, s2.table);
    if k in s2.table {
      TotalRemove(s2.table, k);
    }
  }

  /** Without wrapping, a purge that does not fire, or has met its marks, leaves room for one more file. */
  lemma FileRoom(s: State)
    requires 0 <= s.nfiles < W32 && s.maxFiles > 0 && (!Fires(s) || Low(s))
    ensures s.nfiles < s.maxFiles
  {
  }

  lemma ByteRoom(s: State)
    requires 0 <= s.used < W64 && s.maxSize > 0 && (!Fires(s) || Low(s))
    ensures s.used < s.maxSize
  {
  }

  /** A step keeps each limit that is set, whether the other one is set or not. */
  ghost predicate LimitsKept(s: State, s': State, admitted: bool) {
    && s'.maxSize == s.maxSize && s'.maxFiles == s.maxFiles
    && (FilesLimited(s) ==> FilesLimited(s'))
    && (BytesLimited(s) && admitted ==> BytesLimited(s'))
  }

  lemma AddLimited(s: State, k: string, fr: Record, order: seq<string>)
    requires Counted(s) && LruOrder(s.table, order) && (k in s.table ==> SafeReplacement(s, k, order))
    ensures LimitsKept(s, Add(s, k, fr, order), fr.fsize <= s.maxSize)
  {
    var s1 := Forgotten(s, k);
    var (s2, r) := Purge(s1, order);
    AfterPurge(s, k, order);
    PurgeLaw(s1, order);
    AddDrift(s, k, fr, order);
    if r != -1 {
      assert !Fires(s2) || Low(s2);
      if FilesLimited(s) { FileRoom(s2); }
      if BytesLimited(s) { ByteRoom(s2); }
    }
  }

  lemma PurgeLimited(s: State, order: seq<string>)
    requires Counted(s) && LruOrder(s.table, order)
    ensures LimitsKept(s, Purge(s, order).0, true)
  {
    PurgeDrift(s, order);
    PurgeLaw(s, order);
    SubTable(s.table, Purge(s, order).0.table);
  }

  lemma CheckLimited(s: State, m: int, k: string, block: bool, now: int)
    requires Counted(s)
    ensures LimitsKept(s, Check(s, m, k, block, now).0, true)
  {
    CheckDrift(s, m, k, block, now);
  }

  lemma RemoveLimited(s: State, k: string)
    requires Counted(s)
    ensures LimitsKept(s, Remove(s, k).0, true)
  {
    RemoveDrift(s, k);
  }

  lemma StepLimited(s: State, e: Event)
    requires Counted(s) && Legal(s, e) && !Unsafe(s, e)
    ensures LimitsKept(s, Step(s, e), Admitted(s, e))
  {
    match e
    case CreateCall(n) =>
    case CheckCall(m, c, b, now) => CheckLimited(s, m, c, b, now);
    case DeblockCall(p) =>
    case AddCall(c, fr, order) => AddLimited(s, c, fr, order);
    case RemoveCall(c) => RemoveLimited(s, c);
    case PurgeCall(order) => PurgeLimited(s, order);
  }

  /** With a file limit, every run without unsafe replacements keeps at most that many entries. */
  lemma {:induction false} RunFilesLimited(s: State, es: seq<Event>)
    requires FilesLimited(s) && LegalRun(s, es) && UnsafeSteps(s, es) == 0
    ensures FilesLimited(Run(s, es)) && Run(s, es).maxFiles == s.maxFiles && |Run(s, es).table| <= s.maxFiles
  {
    if |es| > 0 {
      var n := |es| - 1;
      RunFilesLimited(s, es[..n]);
      StepLimited(Run(s, es[..n]), es[n]);
    }
  }

  /** With a size limit, every such run of admitted files keeps less than twice that many bytes. */
  lemma {:induction false} RunBytesLimited(s: State, es: seq<Event>)
    requires BytesLimited(s) && LegalRun(s, es) && UnsafeSteps(s, es) == 0
    requires forall i :: 0 <= i < |es| ==> Admitted(s, es[i])
    ensures BytesLimited(Run(s, es)) && Run(s, es).maxSize == s.maxSize && Total(Run(s, es).table) < 2 * s.maxSize
  {
    if |es| > 0 {
      var n := |es| - 1;
      assert forall i :: 0 <= i < n ==> es[..n][i] == es[i];
      RunBytesLimited(s, es[..n]);
      assert Admitted(Run(s, es[..n]), es[n]);
      StepLimited(Run(s, es[..n]), es[n]);
    }
  }

  /** A bounded cache has exact counters. */
  lemma BoundedIsExact(s: State)
    requires Bounded(s)
    ensures Exact(s)
  {
    CountedExactIff(s);
  }

  /**
   With both limits set, every state of a run without unsafe replacements has at most the allowed
   number of files and less than twice the allowed bytes, and its counters say so exactly.
   */
  lemma RunBounded(s: State, es: seq<Event>)
    requires Bounded(s) && LegalRun(s, es) && UnsafeSteps(s, es) == 0
    requires forall i :: 0 <= i < |es| ==> Admitted(s, es[i])
    ensures Bounded(Run(s, es)) && Run(s, es).maxSize == s.maxSize && Exact(Run(s, es))
  {
    RunFilesLimited(s, es);
    RunBytesLimited(s, es);
    BoundedIsExact(Run(s, es));
  }
}
