/**
 The streamed body of an image response and the commit of its cache file
 (src/ffi/serve_image.cpp, `ImageEncodeProducer`).

 A codec is any sequence of chunks; it stops with an error after a non-zero write, and may also
 fail by itself. When the stream is closed, a prefix of what the file took is on disk.
 */
module ServeImage {
  import FilenameHash
  import opened OutputSink
  import opened CacheModel
  import opened CacheLaws
  import opened CacheRuns
  import opened SipiCacheClass

  const SOCKET: nat := 0

  /** One encoded chunk and how the socket and the cache file answer it. */
  datatype Chunk = Chunk(data: Bytes, socket: Reply, file: Reply)

  /** The sink of a cached response: the socket and the cache file. */
  function Tee(cachefile: string): Sink { TeeSink([CallbackSink(SOCKET), FilePath(cachefile)]) }

  lemma {:induction false} TeeLeaves(cachefile: string, opens: set<string>)
    ensures Leaves(Tee(cachefile), opens) == [CallbackLeaf(SOCKET, []), FileLeaf(cachefile, [], cachefile !in opens)]
  {
    var ss := [CallbackSink(SOCKET), FilePath(cachefile)];
    assert ss[..1] == [CallbackSink(SOCKET)] && ss[..1][..0] == [];
    assert LeavesOf([], opens) == [];
    assert Leaves(ss[0], opens) == [CallbackLeaf(SOCKET, [])];
    assert LeavesOf(ss[..1], opens) == [] + [CallbackLeaf(SOCKET, [])];
    assert Leaves(ss[1], opens) == [FileLeaf(cachefile, [], cachefile !in opens)];
    assert LeavesOf(ss, opens) == LeavesOf(ss[..1], opens) + Leaves(ss[1], opens);
  }

  /** The bytes of the first `n` chunks. */
  function Joined(chunks: seq<Chunk>): Bytes {
    if |chunks| == 0 then [] else Joined(chunks[..|chunks| - 1]) + chunks[|chunks| - 1].data
  }

  /** Every chunk is taken by the cache file as a whole. */
  ghost predicate FileOk(chunks: seq<Chunk>) {
    forall i :: 0 <= i < |chunks| ==> chunks[i].file.accepted >= |chunks[i].data|
  }

  /** The codec hands out `n` chunks: all, or those up to the first that the socket refuses. */
  ghost predicate HandedOut(chunks: seq<Chunk>, n: nat) {
    && n <= |chunks| && (n > 0 ==> SocketOk(chunks[..n - 1]))
    && (n < |chunks| ==> n > 0 && chunks[n - 1].socket.code != 0)
  }

  ghost predicate SocketOk(chunks: seq<Chunk>) { forall i :: 0 <= i < |chunks| ==> chunks[i].socket.code == 0 }

  /** What the encode left behind: the byte count, and the file as the stream wrote it. */
  datatype Encoded = Encoded(ok: bool, bytes: nat, content: Bytes)

  /** The file of the tee after `sent`: all of it while the file could be opened and took every chunk, else less. */
  ghost predicate FileState(leaf: Leaf, isOpen: bool, chunks: seq<Chunk>, sent: Bytes) {
    && leaf.FileLeaf? && (leaf.failed <==> !(isOpen && FileOk(chunks)))
    && (leaf.failed ==> leaf.content == [] || |leaf.content| < |sent|)
    && (leaf.failed && !isOpen ==> leaf.content == [])
  }

  lemma FileGiven(leaf: Leaf, isOpen: bool, chunks: seq<Chunk>, sent: Bytes, c: Chunk)
    requires FileState(leaf, isOpen, chunks, sent) && Faithful(leaf, sent)
    ensures FileState(Given(leaf, c.data, c.file), isOpen, chunks + [c], sent + c.data)
  {
    assert FileOk(chunks + [c]) <==> FileOk(chunks) && c.file.accepted >= |c.data| by {
      assert (chunks + [c])[|chunks|] == c;
      assert forall i :: 0 <= i < |chunks| ==> (chunks + [c])[i] == chunks[i];
    }
  }

  /** A file that took less is shorter, unless there was nothing to take. */
  lemma FileWhole(leaf: Leaf, isOpen: bool, chunks: seq<Chunk>, sent: Bytes)
    requires FileState(leaf, isOpen, chunks, sent) && Faithful(leaf, sent)
    ensures leaf.content == sent <==> sent == [] || (isOpen && FileOk(chunks))
  {
  }

  /** The tee has handed `chunks` to its socket and its file. */
  ghost predicate TeeState(stream: SinkStream, isOpen: bool, chunks: seq<Chunk>)
    reads stream
  {
    && stream.Valid() && |stream.leaves| == 2 && stream.leaves[0].CallbackLeaf?
    && stream.sent == Joined(chunks) && FileState(stream.leaves[1], isOpen, chunks, stream.sent)
  }

  lemma JoinedNext(chunks: seq<Chunk>, i: nat)
    requires i < |chunks|
    ensures chunks[..i + 1] == chunks[..i] + [chunks[i]]
    ensures SocketOk(chunks[..i + 1]) <==> SocketOk(chunks[..i]) && chunks[i].socket.code == 0
  {
    forall j | 0 <= j < i
      ensures chunks[..i + 1][j] == chunks[..i][j]
    {
    }
    assert chunks[..i + 1][i] == chunks[i];
  }

  method SendChunk(stream: SinkStream, c: Chunk, ghost isOpen: bool, ghost chunks: seq<Chunk>) returns (rc: int)
    requires TeeState(stream, isOpen, chunks)
    modifies stream
    ensures TeeState(stream, isOpen, chunks + [c]) && |stream.sent| == old(|stream.sent|) + |c.data|
    ensures rc == 0 <==> c.socket.code == 0
  {
    FileGiven(stream.leaves[1], isOpen, chunks, stream.sent, c);
    assert (chunks + [c])[..|chunks|] == chunks;
    rc := stream.Write(c.data, [c.socket, c.file]);
  }

  /**
   Streams the chunks to the socket and the cache file, counting the bytes handed to the socket. The file has
   all that the client received exactly if it could be opened and took every chunk, or there was nothing.
   */
  method Encode(chunks: seq<Chunk>, codecFails: bool, cachefile: string, opens: set<string>)
    returns (r: Encoded, received: Bytes, ghost n: nat)
    ensures r.ok <==> SocketOk(chunks) && !codecFails
    ensures r.ok ==> n == |chunks| && received == Joined(chunks)
    ensures HandedOut(chunks, n) && received == Joined(chunks[..n])
    ensures r.bytes == |received| && r.content <= received
    ensures r.content == received <==> received == [] || (cachefile in opens && FileOk(chunks[..n]))
  {
    var stream := new SinkStream(Tee(cachefile), opens);
    TeeLeaves(cachefile, opens);
    var bytes := 0;
    var i := 0;
    while i < |chunks|
      invariant 0 <= i <= |chunks| && SocketOk(chunks[..i]) && fresh(stream)
      invariant TeeState(stream, cachefile in opens, chunks[..i]) && bytes == |stream.sent|
    {
      bytes := bytes + |chunks[i].data|;
      JoinedNext(chunks, i);
      var rc := SendChunk(stream, chunks[i], cachefile in opens, chunks[..i]);
      if rc != 0 {
        FileWhole(stream.leaves[1], cachefile in opens, chunks[..i + 1], stream.sent);
        return Encoded(false, bytes, stream.leaves[1].content), stream.leaves[0].got, i + 1;
      }
      i := i + 1;
    }
    assert chunks[..|chunks|] == chunks;
    FileWhole(stream.leaves[1], cachefile in opens, chunks, stream.sent);
    r, received, n := Encoded(!codecFails, bytes, stream.leaves[1].content), stream.leaves[0].got, |chunks|;
  }

  /** The cache file at the time of the final `stat`: gone, or some bytes of modification time `mtime`. */
  datatype OnDisk = Gone | Present(bytes: Bytes, mtime: int)

  function StatOf(f: OnDisk): FileStat { if f.Gone? then NoFile else Found(f.mtime, |f.bytes|) }

  /** The gate in front of `add`. */
  predicate Commits(f: OnDisk, streamed: nat, maxSize: int) {
    f.Present? && |f.bytes| != 0 && |f.bytes| == streamed && !(maxSize > 0 && |f.bytes| > maxSize)
  }

  /** What a producer knows about the file it makes. */
  datatype Job = Job(infile: string, key: string, cachefile: string, imgW: nat, imgH: nat, tileW: nat, tileH: nat,
                     clevels: int, numpages: int)

  function RecordOf(job: Job, f: OnDisk, now: int): Record
    requires f.Present?
  {
    SipiCache.NewRecord(job.infile, job.cachefile, job.imgW, job.imgH, job.tileW, job.tileH, job.clevels, job.numpages,
                        StatOf(f), now)
  }

  /**
   Offers the cache file to the cache if it is whole, not empty and not too large, and deletes it
   otherwise. The cache registers an offered file if it finds room for it, and deletes it if not.
   */
  method FinalizeCache(cache: SipiCache, job: Job, f: OnDisk, streamed: nat, now: int)
    returns (offered: bool, registered: bool, ghost order: seq<string>)
    requires cache.Valid()
    modifies cache
    ensures cache.Valid()
    ensures offered <==> Commits(f, streamed, cache.maxSize)
    ensures registered <==> offered && Room(old(cache.Abs()), job.key, order)
    ensures offered ==> LruOrder(old(cache.table), order)
    ensures offered ==> cache.Abs() == CacheModel.Add(old(cache.Abs()), job.key, RecordOf(job, f, now), order)
    ensures registered ==> job.key in cache.table && cache.table[job.key] == RecordOf(job, f, now)
    ensures !registered ==> NoNewEntry(old(cache.table), cache.table)
    ensures !registered && f.Present? ==> FilenameHash.BaseName(job.cachefile) !in cache.disk
    ensures !offered ==> cache.Abs() == old(cache.Abs()).(disk := cache.disk)
    ensures !offered ==>
      cache.disk == if f.Gone? then old(cache.disk) else old(cache.disk) - {FilenameHash.BaseName(job.cachefile)}
  {
    offered, registered, order := false, false, [];
    if f.Gone? { return; }
    var written := |f.bytes|;
    if written == 0 || written != streamed {
      cache.disk := cache.disk - {FilenameHash.BaseName(job.cachefile)};
      return;
    }
    if cache.maxSize > 0 && written > cache.maxSize {
      cache.disk := cache.disk - {FilenameHash.BaseName(job.cachefile)};
      return;
    }
    offered, registered, order := Offer(cache, job, f, now);
  }

  /** The table has no entry that was not there before. */
  ghost predicate NoNewEntry(before: Table, after: Table) {
    forall k :: k in after ==> k in before && after[k] == before[k]
  }

  method Offer(cache: SipiCache, job: Job, f: OnDisk, now: int)
    returns (ok: bool, registered: bool, ghost order: seq<string>)
    requires cache.Valid() && f.Present?
    modifies cache
    ensures cache.Valid() && ok && LruOrder(old(cache.table), order) &&
      (registered <==> Room(old(cache.Abs()), job.key, order))
    ensures cache.Abs() == CacheModel.Add(old(cache.Abs()), job.key, RecordOf(job, f, now), order)
    ensures registered ==> job.key in cache.table && cache.table[job.key] == RecordOf(job, f, now)
    ensures !registered ==>
      NoNewEntry(old(cache.table), cache.table) && FilenameHash.BaseName(job.cachefile) !in cache.disk
  {
    ok, registered, order := cache.Add(job.infile, job.key, job.cachefile, job.imgW, job.imgH, job.tileW, job.tileH,
                                       job.clevels, job.numpages, StatOf(f), now);
    AddOutcome(old(cache.Abs()), job.key, RecordOf(job, f, now), order);
  }

  /** What is on disk once the stream is closed: its last bytes may be lost, or the whole file gone. */
  function Closed(content: Bytes, lost: nat, gone: bool, mtime: int): (f: OnDisk)
    ensures f.Present? ==> f.bytes <= content && f.mtime == mtime
  {
    if gone then Gone else Present(content[..if lost <= |content| then |content| - lost else 0], mtime)
  }

  /** A prefix of what was received passes the gate only if it is all of it: equal length forces equality. */
  lemma CommitsIff(f: OnDisk, content: Bytes, received: Bytes, maxSize: int, mtime: int)
    requires content <= received && (f.Present? ==> f.bytes <= content && f.mtime == mtime)
    ensures Commits(f, |received|, maxSize) <==>
      f == Present(received, mtime) && received != [] && (maxSize <= 0 || |received| <= maxSize)
  {
  }

  /** What is on disk is what was received exactly if the file is there and nothing of it was lost. */
  lemma ClosedWhole(content: Bytes, received: Bytes, lost: nat, gone: bool, mtime: int)
    requires content <= received && received != []
    ensures Closed(content, lost, gone, mtime) == Present(received, mtime) <==>
      content == received && lost == 0 && !gone
  {
  }

  /** The cache file could be opened, took every chunk, and is there as a whole after it was closed. */
  ghost predicate SoundFile(job: Job, chunks: seq<Chunk>, opens: set<string>, lost: nat, gone: bool) {
    job.cachefile in opens && FileOk(chunks) && lost == 0 && !gone
  }

  /** An offer of `key` replaces no entry, or replaces it safely. */
  ghost predicate SafeOffer(s: State, key: string, order: seq<string>) {
    key in s.table ==> SafeReplacement(s, key, order)
  }

  /**
   Encodes with caching. The file is offered to the cache if and only if the encode succeeded and the
   file on disk is byte for byte what the client received, is not empty and is within the size limit: so
   exactly if nothing went wrong with socket, codec and file. It has an entry afterwards if moreover the
   cache found room; if not, there is no new entry and the file is deleted. A cache within its limits
   stays so unless an unsafe replacement is made.
   */
  method Produce(cache: SipiCache, job: Job, chunks: seq<Chunk>, codecFails: bool, opens: set<string>, lost: nat,
                 gone: bool, mtime: int, now: int)
    returns (rc: int, received: Bytes, offered: bool, registered: bool, f: OnDisk, ghost order: seq<string>)
    requires cache.Valid()
    modifies cache
    ensures cache.Valid()
    ensures rc == 0 <==> SocketOk(chunks) && !codecFails
    ensures rc == 0 ==> received == Joined(chunks)
    ensures offered <==> rc == 0 && f == Present(received, mtime) && received != []
                         && (cache.maxSize <= 0 || |received| <= cache.maxSize)
    ensures offered <==> SocketOk(chunks) && !codecFails && SoundFile(job, chunks, opens, lost, gone)
                         && Joined(chunks) != [] && (cache.maxSize <= 0 || |Joined(chunks)| <= cache.maxSize)
    ensures registered <==> offered && Room(old(cache.Abs()), job.key, order)
    ensures offered ==> LruOrder(old(cache.table), order)
    ensures offered ==> cache.Abs() == CacheModel.Add(old(cache.Abs()), job.key, RecordOf(job, f, now), order)
    ensures registered ==> job.key in cache.table && var e := cache.table[job.key];
      && e.fsize == |received| && e.mtime == mtime && e.accessTime == now
      && e.origpath == job.infile && e.cachepath == FilenameHash.BaseName(job.cachefile)
      && e.imgW == job.imgW && e.imgH == job.imgH && e.tileW == job.tileW && e.tileH == job.tileH
      && e.clevels == job.clevels && e.numpages == job.numpages
    ensures !registered ==> NoNewEntry(old(cache.table), cache.table)
    ensures !registered && f.Present? ==> FilenameHash.BaseName(job.cachefile) !in cache.disk
    ensures !offered ==> cache.table == old(cache.table) && cache.blocked == old(cache.blocked)
    ensures Bounded(old(cache.Abs())) && (offered ==> SafeOffer(old(cache.Abs()), job.key, order)) ==>
      Bounded(cache.Abs())
  {
    var r;
    ghost var n;
    r, received, n := Encode(chunks, codecFails, job.cachefile, opens);
    f := Closed(r.content, lost, gone, mtime);
    rc := if r.ok then 0 else 1;
    assert chunks[..|chunks|] == chunks;
    if received != [] { ClosedWhole(r.content, received, lost, gone, mtime); }
    CommitsIff(f, r.content, received, cache.maxSize, mtime);
    offered, registered, order := AfterEncode(cache, job, f, r.ok, r.bytes, now);
    if offered && Bounded(old(cache.Abs())) && SafeOffer(old(cache.Abs()), job.key, order) {
      OfferBounded(old(cache.Abs()), job, f, r.bytes, now, order);
    }
  }

  /** A failed encode drops the partial cache file, a finished one goes through the gate. */
  method AfterEncode(cache: SipiCache, job: Job, f: OnDisk, encoded: bool, streamed: nat, now: int)
    returns (offered: bool, registered: bool, ghost order: seq<string>)
    requires cache.Valid()
    modifies cache
    ensures cache.Valid()
    ensures offered <==> encoded && Commits(f, streamed, cache.maxSize)
    ensures registered <==> offered && Room(old(cache.Abs()), job.key, order)
    ensures offered ==> LruOrder(old(cache.table), order)
    ensures offered ==> cache.Abs() == CacheModel.Add(old(cache.Abs()), job.key, RecordOf(job, f, now), order)
    ensures registered ==> job.key in cache.table && cache.table[job.key] == RecordOf(job, f, now)
    ensures !registered ==> NoNewEntry(old(cache.table), cache.table)
    ensures !registered && f.Present? ==> FilenameHash.BaseName(job.cachefile) !in cache.disk
    ensures !offered ==> cache.Abs() == old(cache.Abs()).(disk := cache.disk)
  {
    offered, registered, order := false, false, [];
    if encoded {
      offered, registered, order := FinalizeCache(cache, job, f, streamed, now);
    } else {
      cache.disk := cache.disk - {FilenameHash.BaseName(job.cachefile)};
    }
  }

  /** A file that passes the gate keeps a bounded cache bounded, unless it makes an unsafe replacement. */
  lemma OfferBounded(s: State, job: Job, f: OnDisk, streamed: nat, now: int, order: seq<string>)
    requires Bounded(s) && LruOrder(s.table, order) && Commits(f, streamed, s.maxSize)
    requires SafeOffer(s, job.key, order)
    ensures Bounded(CacheModel.Add(s, job.key, RecordOf(job, f, now), order))
  {
    AddLimited(s, job.key, RecordOf(job, f, now), order);
  }
}
