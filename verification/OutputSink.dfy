/**
 Typed write destinations and the stream that broadcasts to them (src/formats/output_sink.cpp).

 What the environment does with a chunk is a parameter of each write: the return code of a
 callback, and how many bytes a file takes before its stream fails.
 */
module OutputSink {

  type Bytes = seq<bv8>

  datatype Sink = FilePath(path: string) | CallbackSink(ctx: nat) | TeeSink(sinks: seq<Sink>)

  /** A leaf and what it has been given: a fatal callback, or a best-effort file stream. */
  datatype Leaf =
    | CallbackLeaf(ctx: nat, got: Bytes)
    | FileLeaf(path: string, content: Bytes, failed: bool)

  /** The environment's answer to one chunk at one leaf. */
  datatype Reply = Reply(code: int, accepted: nat)

  /** The leaves of a sink, left to right; `opens` says which files can be opened. */
  function Leaves(sink: Sink, opens: set<string>): seq<Leaf> {
    match sink
    case FilePath(p) => [FileLeaf(p, [], p !in opens)]
    case CallbackSink(c) => [CallbackLeaf(c, [])]
    case TeeSink(ss) => LeavesOf(ss, opens)
  }

  function LeavesOf(ss: seq<Sink>, opens: set<string>): seq<Leaf> {
    if |ss| == 0 then [] else LeavesOf(ss[..|ss| - 1], opens) + Leaves(ss[|ss| - 1], opens)
  }

  /** A leaf after one chunk: a callback always sees it; a good file takes what it can, a failed one nothing. */
  function Given(leaf: Leaf, data: Bytes, reply: Reply): Leaf {
    match leaf
    case CallbackLeaf(c, got) => CallbackLeaf(c, got + data)
    case FileLeaf(p, content, failed) =>
      if failed then leaf
      else if reply.accepted < |data| then FileLeaf(p, content + data[..reply.accepted], true)
      else FileLeaf(p, content + data, false)
  }

  /** What every leaf keeps after the bytes `sent`: callbacks have all, files a prefix, good files all. */
  ghost predicate Faithful(leaf: Leaf, sent: Bytes) {
    match leaf
    case CallbackLeaf(_, got) => got == sent
    case FileLeaf(_, content, failed) => content <= sent && (!failed ==> content == sent)
  }

  lemma GivenFaithful(leaf: Leaf, sent: Bytes, data: Bytes, reply: Reply)
    requires Faithful(leaf, sent)
    ensures Faithful(Given(leaf, data, reply), sent + data)
  {
    if leaf.FileLeaf? && !leaf.failed && reply.accepted < |data| {
      var k := reply.accepted;
      assert sent + data == (sent + data[..k]) + data[k..];
    }
  }

  lemma LeavesFaithful(sink: Sink, opens: set<string>)
    ensures forall i :: 0 <= i < |Leaves(sink, opens)| ==> Faithful(Leaves(sink, opens)[i], [])
    decreases sink, 1
  {
    if sink.TeeSink? {
      LeavesOfFaithful(sink, sink.sinks, opens);
    }
  }

  lemma LeavesOfFaithful(parent: Sink, ss: seq<Sink>, opens: set<string>)
    requires forall i :: 0 <= i < |ss| ==> ss[i] < parent
    ensures forall i :: 0 <= i < |LeavesOf(ss, opens)| ==> Faithful(LeavesOf(ss, opens)[i], [])
    decreases parent, 0, |ss|
  {
    if |ss| > 0 {
      LeavesOfFaithful(parent, ss[..|ss| - 1], opens);
      LeavesFaithful(ss[|ss| - 1], opens);
    }
  }

  class SinkStream {
    var leaves: seq<Leaf>
    /** All bytes written so far. */
    ghost var sent: Bytes

    ghost predicate Valid()
      reads this
    {
      forall i :: 0 <= i < |leaves| ==> Faithful(leaves[i], sent)
    }

    constructor (sink: Sink, opens: set<string>)
      ensures Valid() && sent == [] && leaves == Leaves(sink, opens)
    {
      leaves, sent := [], [];
      new;
      Flatten(sink, opens);
      LeavesFaithful(sink, opens);
    }

    /** Appends the leaves of `sink`, walking into tees. */
    method Flatten(sink: Sink, opens: set<string>)
      modifies this`leaves
      ensures leaves == old(leaves) + Leaves(sink, opens)
      decreases sink
    {
      match sink
      case FilePath(p) => leaves := leaves + [FileLeaf(p, [], p !in opens)];
      case CallbackSink(c) => leaves := leaves + [CallbackLeaf(c, [])];
      case TeeSink(ss) =>
        for i := 0 to |ss|
          invariant leaves == old(leaves) + LeavesOf(ss[..i], opens)
        {
          assert ss[..i + 1][..i] == ss[..i];
          Flatten(ss[i], opens);
        }
        assert ss[..|ss|] == ss;
    }

    /**
     Hands one chunk to every leaf, a failed callback included. The result is zero exactly when
     every callback returned zero; a file never fails the write.
     */
    method Write(data: Bytes, replies: seq<Reply>) returns (rc: int)
      requires Valid() && |replies| == |leaves|
      modifies this
      ensures Valid() && sent == old(sent) + data
      ensures |leaves| == |old(leaves)| && forall i :: 0 <= i < |leaves| ==>
        leaves[i] == Given(old(leaves)[i], data, replies[i])
      ensures rc == 0 <==> forall i :: 0 <= i < |leaves| && old(leaves)[i].CallbackLeaf? ==> replies[i].code == 0
    {
      rc := 0;
      var i := 0;
      while i < |leaves|
        invariant 0 <= i <= |leaves| == |old(leaves)| && sent == old(sent)
        invariant forall j :: 0 <= j < i ==> leaves[j] == Given(old(leaves)[j], data, replies[j])
        invariant forall j :: i <= j < |leaves| ==> leaves[j] == old(leaves)[j]
        invariant rc == 0 <==> forall j :: 0 <= j < i && old(leaves)[j].CallbackLeaf? ==> replies[j].code == 0
      {
        var leaf := leaves[i];
        match leaf {
          case CallbackLeaf(c, got) =>
            leaves := leaves[i := CallbackLeaf(c, got + data)];
            if replies[i].code != 0 { rc := replies[i].code; }
          case FileLeaf(p, content, failed) =>
            if !failed {
              if replies[i].accepted < |data| {
                leaves := leaves[i := FileLeaf(p, content + data[..replies[i].accepted], true)];
              } else {
                leaves := leaves[i := FileLeaf(p, content + data, false)];
              }
            }
        }
        i := i + 1;
      }
      forall j | 0 <= j < |leaves|
        ensures Faithful(leaves[j], sent + data)
      {
        GivenFaithful(old(leaves)[j], old(sent), data, replies[j]);
      }
      sent := sent + data;
    }
  }
}
