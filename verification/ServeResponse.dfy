/**
 Delivering a response and releasing the pin of a cached file
 (src/ffi/serve_response.cpp `apply`, src/ffi/serve_image.cpp `build_image_response`).

 A transport callback that throws is a step that fails; `failAt` is the number of the first one
 that does, counting from zero, if there are that many.
 */
module ServeResponse {
  import opened CacheModel
  import opened CachePins
  import opened SipiCacheClass

  /** Exactly one body: none, a file, or a producer that streams. */
  datatype Body = EmptyBody | FileBody(path: string, offset: nat, length: nat) | StreamBody

  /** `onComplete` names the pinned file that delivery has to release, if any. */
  datatype OnComplete = Nothing | Release(path: string)

  datatype Response = Response(status: nat, headers: seq<(string, string)>, body: Body, onComplete: OnComplete)

  /** The calls made to the transport. */
  datatype Call =
    | SetStatus(code: nat)
    | AddHeader(name: string, value: string)
    | SendFile(path: string, offset: nat, length: nat)
    | RunProducer

  function BodyCalls(b: Body): seq<Call> {
    match b
    case EmptyBody => []
    case FileBody(p, o, l) => [SendFile(p, o, l)]
    case StreamBody => [RunProducer]
  }

  /** All calls a complete delivery makes: the status, each header in order, then the one body. */
  function Script(r: Response): seq<Call> {
    [SetStatus(r.status)]
    + seq(|r.headers|, i requires 0 <= i < |r.headers| => AddHeader(r.headers[i].0, r.headers[i].1))
    + BodyCalls(r.body)
  }

  /** The status comes first, then the headers in order, then the body if there is one, once and last. */
  lemma ScriptInOrder(r: Response)
    ensures |Script(r)| == 1 + |r.headers| + (if r.body.EmptyBody? then 0 else 1) && Script(r)[0] == SetStatus(r.status)
    ensures forall i :: 0 <= i < |r.headers| ==> Script(r)[i + 1] == AddHeader(r.headers[i].0, r.headers[i].1)
    ensures forall i :: 0 <= i < |Script(r)| ==>
      (Script(r)[i].RunProducer? <==> r.body.StreamBody? && i == |Script(r)| - 1)
    ensures forall i :: 0 <= i < |Script(r)| ==> (Script(r)[i].SendFile? <==> r.body.FileBody? && i == |Script(r)| - 1)
    ensures r.body.FileBody? ==>
      Script(r)[|Script(r)| - 1] == SendFile(r.body.path, r.body.offset, r.body.length)
  {
  }

  /** Status, headers and body, until a callback throws. */
  method Deliver(r: Response, failAt: nat) returns (calls: seq<Call>, threw: bool)
    ensures threw <==> failAt < |Script(r)|
    ensures calls == if threw then Script(r)[..failAt + 1] else Script(r)
  {
    calls := [SetStatus(r.status)];
    threw := failAt == 0;
    if threw { return; }
    var i := 0;
    while i < |r.headers|
      invariant 0 <= i <= |r.headers| && failAt > i
      invariant calls == Script(r)[..i + 1]
    {
      calls := calls + [AddHeader(r.headers[i].0, r.headers[i].1)];
      i := i + 1;
      threw := failAt == i;
      if threw { return; }
    }
    match r.body {
      case EmptyBody =>
      case FileBody(p, o, l) =>
        calls := calls + [SendFile(p, o, l)];
        threw := failAt == i + 1;
      case StreamBody =>
        calls := calls + [RunProducer];
        threw := failAt == i + 1;
    }
    assert calls == Script(r);
  }

  /** `apply`: whatever happens during delivery, the finalizer runs once, at the end. */
  method Apply(cache: SipiCache, r: Response, failAt: nat) returns (calls: seq<Call>, threw: bool)
    requires cache.Valid()
    modifies cache
    ensures cache.Valid()
    ensures threw <==> failAt < |Script(r)|
    ensures calls == if threw then Script(r)[..failAt + 1] else Script(r)
    ensures cache.Abs() ==
      if r.onComplete.Release? then Deblock(old(cache.Abs()), r.onComplete.path) else old(cache.Abs())
  {
    calls, threw := Deliver(r, failAt);
    if r.onComplete.Release? { cache.Deblock(r.onComplete.path); }
  }

  /**
   The cache-hit branch of a request: no hit, an error after the pin was released, or a response that
   will release it.
   */
  datatype Built = Miss | Failed(status: nat) | Hit(response: Response)

  /** Looks for an up-to-date cache file and pins it; `file` is the `stat` of that file. */
  method BuildCacheHit(cache: SipiCache, orig: FileStat, key: string, headers: seq<(string, string)>, file: FileStat,
                       now: int)
    returns (b: Built)
    requires cache.Valid()
    modifies cache
    ensures cache.Valid()
    ensures b.Hit? ==>
      orig.Found? && b.response.onComplete == Release(Check(old(cache.Abs()), orig.mtime, key, true, now).1)
                       && cache.Abs() == Check(old(cache.Abs()), orig.mtime, key, true, now).0
                       && Check(old(cache.Abs()), orig.mtime, key, true, now).1 != ""
    ensures b.Hit? ==> b.response.status == 200 && b.response.headers == headers
    ensures b.Hit? ==>
      b.response.body ==
      (if file.Found? && file.size > 0 then FileBody(b.response.onComplete.path, 0, file.size) else EmptyBody)
    ensures b.Failed? && orig.Found? ==>
      !file.Found? && var (s, p) := Check(old(cache.Abs()), orig.mtime, key, true, now);
                                                          p != "" && cache.Abs() == Deblock(s, p)
    ensures !orig.Found? ==> b == Failed(500) && cache.Abs() == old(cache.Abs())
    ensures b.Miss? ==> cache.blocked == old(cache.blocked)
  {
    var ok, path := cache.Check(orig, key, true, now);
    if !ok { return Failed(500); }
    if path == "" { return Miss; }
    if !file.Found? {
      cache.Deblock(path);
      return Failed(500);
    }
    var body := if file.size == 0 then EmptyBody else FileBody(path, 0, file.size);
    b := Hit(Response(200, headers, body, Release(path)));
  }

  /** A blocking hit followed by one release leaves every pin as it was. */
  lemma PinReleased(s: State, mtime: int, key: string, now: int)
    requires NoZero(s) && Check(s, mtime, key, true, now).1 != ""
    ensures Deblock(Check(s, mtime, key, true, now).0, Check(s, mtime, key, true, now).1).blocked == s.blocked
  {
  }

  /**
   A whole cache-hit response, from the lookup to the end of delivery: it releases its pin exactly
   once, whether the file has vanished, a callback throws, or everything succeeds.
   */
  method ServeCached(cache: SipiCache, orig: FileStat, key: string, headers: seq<(string, string)>, file: FileStat,
                     now: int, failAt: nat)
    returns (b: Built, calls: seq<Call>)
    requires cache.Valid() && NoZero(cache.Abs())
    modifies cache
    ensures cache.Valid() && cache.blocked == old(cache.blocked)
    ensures !b.Hit? ==> calls == []
    ensures b.Hit? ==>
      calls == if failAt < |Script(b.response)| then Script(b.response)[..failAt + 1] else Script(b.response)
    ensures b.Hit? ==> |calls| >= 1 && calls[0] == SetStatus(200)
    ensures b.Hit? ==> forall i :: 0 <= i < |headers| && i + 1 < |calls| ==>
      calls[i + 1] == AddHeader(headers[i].0, headers[i].1)
    ensures b.Hit? && file.Found? && file.size > 0 && failAt > |headers| ==>
      && orig.Found? && |calls| == |headers| + 2
      && calls[|headers| + 1] == SendFile(Check(old(cache.Abs()), orig.mtime, key, true, now).1, 0, file.size)
  {
    calls := [];
    b := BuildCacheHit(cache, orig, key, headers, file, now);
    if orig.Found? && !b.Miss? {
      PinReleased(old(cache.Abs()), orig.mtime, key, now);
    }
    if b.Hit? {
      var threw;
      calls, threw := Apply(cache, b.response, failAt);
      ScriptInOrder(b.response);
    }
  }
}
