/**
 The in-memory file behind a TIFF handle (src/formats/SipiIOTiff.cpp, `MEMTIFF`): a buffer that
 grows on writes and seeks. Whether `realloc` finds room, and what the bytes it adds hold, are
 inputs of each operation. Offsets are read as signed numbers; sizes stay below 2^63.
 */
module TiffMemory {

  type Byte = x: int | 0 <= x < 256

  datatype Mem = Mem(data: seq<Byte>, incsiz: nat, flen: int, fptr: int) {
    /** The file ends inside the buffer and the position inside the file. */
    ghost predicate Valid() { 0 <= fptr <= flen <= |data| }
  }

  datatype Op =
    | Write(bytes: seq<Byte>, room: bool, junk: nat -> Byte)
    | Read(n: nat)
    | SeekSet(off: int, room: bool, junk: nat -> Byte)
    | SeekCur(off: int, room: bool, junk: nat -> Byte)
    | SeekEnd(off: int, room: bool, junk: nat -> Byte)

  // ---------------------------------------------------------------- one operation

  function Realloc(data: seq<Byte>, n: nat, junk: nat -> Byte): seq<Byte> {
    seq(n, p requires 0 <= p < n => if p < |data| then data[p] else junk(p))
  }

  /** Copying `bytes` over the buffer from `at` on. */
  function Put(data: seq<Byte>, at: nat, bytes: seq<Byte>): (r: seq<Byte>)
    requires at + |bytes| <= |data|
    ensures |r| == |data|
  {
    data[..at] + bytes + data[at + |bytes|..]
  }

  /** The position after a seek; the comparison with the length is unsigned, so a negative position wins it. */
  function At(s: Mem, data: seq<Byte>, fptr: int): Mem {
    Mem(data, s.incsiz, if fptr < 0 || fptr > s.flen then fptr else s.flen, fptr)
  }

  /** Whether the operation is carried out: enough buffer, or `realloc` provides it. */
  predicate Accepted(s: Mem, op: Op) {
    match op
    case Write(bytes, room, _) => room || s.fptr + |bytes| <= |s.data|
    case Read(_) => true
    case SeekSet(off, room, _) => room || off <= |s.data|
    case SeekCur(off, room, _) => room || s.fptr + off <= |s.data|
    case SeekEnd(off, room, _) => room || off <= 0
  }

  function ReadCount(s: Mem, n: nat): nat
    requires s.Valid()
  {
    if s.fptr + n <= s.flen then n else s.flen - s.fptr
  }

  function Buffer(s: Mem, op: Op): seq<Byte>
    requires s.Valid()
  {
    match op
    case Write(bytes, _, junk) =>
      if s.fptr + |bytes| > |s.data| then Realloc(s.data, s.fptr + s.incsiz + |bytes|, junk) else s.data
    case Read(_) => s.data
    case SeekSet(off, _, junk) => if off > |s.data| then Realloc(s.data, |s.data| + s.incsiz + off, junk) else s.data
    case SeekCur(off, _, junk) =>
      if s.fptr + off > |s.data| then Realloc(s.data, s.fptr + s.incsiz + off, junk) else s.data
    case SeekEnd(off, _, junk) => if off > 0 then Realloc(s.data, |s.data| + s.incsiz + off, junk) else s.data
  }

  function Step(s: Mem, op: Op): Mem
    requires s.Valid()
  {
    if !Accepted(s, op) then s
    else
      var data := Buffer(s, op);
      match op
      case Write(bytes, _, _) => At(s, Put(data, s.fptr, bytes), s.fptr + |bytes|)
      case Read(n) => s.(fptr := s.fptr + ReadCount(s, n))
      case SeekSet(off, _, _) => At(s, data, off)
      case SeekCur(off, _, _) => At(s, data, s.fptr + off)
      case SeekEnd(off, _, _) => At(s, data, |data| + off)
  }

  /** Where the operation would put the position, for a seek inside or just past the buffer. */
  predicate Legal(s: Mem, op: Op) {
    match op
    case Write(_, _, _) => true
    case Read(_) => true
    case SeekSet(off, _, _) => off >= 0
    case SeekCur(off, _, _) => s.fptr + off >= 0
    case SeekEnd(off, _, _) => -|s.data| <= off <= 0 || !Accepted(s, op)
  }

  /** An operation keeps the file inside the buffer exactly if it is legal: never a seek past the end by SEEK_END. */
  lemma StepValidIff(s: Mem, op: Op)
    requires s.Valid()
    ensures Step(s, op).Valid() <==> Legal(s, op)
  {
  }

  /**
   SEEK_END by a positive offset, from any file: the position lands past the grown buffer, and the file
   "ends" there.
   */
  lemma SeekEndEscapes(s: Mem, off: int, junk: nat -> Byte)
    requires s.Valid() && off >= 1
    ensures var t := Step(s, SeekEnd(off, true, junk));
            |t.data| == |s.data| + s.incsiz + off && t.fptr == t.flen == |t.data| + off && !t.Valid()
  {
  }

  /** SEEK_END counts from the capacity: it finds the end of the file only in a full buffer. */
  lemma SeekEndIsFileEndIff(s: Mem, off: int, room: bool, junk: nat -> Byte)
    requires s.Valid() && -|s.data| <= off <= 0
    ensures Step(s, SeekEnd(off, room, junk)).fptr == s.flen + off <==> s.flen == |s.data|
  {
  }

  // ---------------------------------------------------------------- whole runs

  ghost predicate LegalRun(s: Mem, ops: seq<Op>)
    requires s.Valid()
    decreases |ops|
  {
    |ops| == 0 || (Legal(s, ops[0]) && Step(s, ops[0]).Valid() && LegalRun(Step(s, ops[0]), ops[1..]))
  }

  function Run(s: Mem, ops: seq<Op>): (r: Mem)
    requires s.Valid() && LegalRun(s, ops)
    ensures r.Valid()
    decreases |ops|
  {
    if |ops| == 0 then s else Run(Step(s, ops[0]), ops[1..])
  }

  /** `op` is a write that is carried out and covers offset `p`. */
  predicate Covers(s: Mem, op: Op, p: nat) {
    op.Write? && Accepted(s, op) && s.fptr <= p < s.fptr + |op.bytes|
  }

  ghost predicate NeverCovered(s: Mem, ops: seq<Op>, p: nat)
    requires s.Valid() && LegalRun(s, ops)
    decreases |ops|
  {
    |ops| == 0 || (!Covers(s, ops[0], p) && NeverCovered(Step(s, ops[0]), ops[1..], p))
  }

  lemma StepKeeps(s: Mem, op: Op, p: nat)
    requires s.Valid() && Legal(s, op) && p < s.flen && !Covers(s, op, p)
    ensures p < Step(s, op).flen <= |Step(s, op).data| && Step(s, op).data[p] == s.data[p]
  {
  }

  lemma {:induction false} RunKeeps(s: Mem, ops: seq<Op>, p: nat)
    requires s.Valid() && LegalRun(s, ops) && p < s.flen && NeverCovered(s, ops, p)
    ensures p < Run(s, ops).flen && Run(s, ops).data[p] == s.data[p]
    decreases |ops|
  {
    if |ops| > 0 {
      StepKeeps(s, ops[0], p);
      RunKeeps(Step(s, ops[0]), ops[1..], p);
    }
  }

  lemma WriteCovers(s: Mem, op: Op, p: nat)
    requires s.Valid() && Covers(s, op, p)
    ensures Step(s, op).Valid() && p < Step(s, op).flen && Step(s, op).data[p] == op.bytes[p - s.fptr]
  {
  }

  /**
   Last writer wins: after any run, offset `p` of the file holds the byte of the last write that covered it,
   through every growth, failed growth, seek and read in between.
   */
  lemma LastWriter(s: Mem, before: seq<Op>, op: Op, after: seq<Op>, p: nat)
    requires s.Valid() && LegalRun(s, before) && Covers(Run(s, before), op, p)
    requires LegalRun(Step(Run(s, before), op), after) && NeverCovered(Step(Run(s, before), op), after, p)
    ensures LegalRun(s, before + [op] + after)
    ensures var r := Run(s, before + [op] + after);
            p < r.flen && r.data[p] == op.bytes[p - Run(s, before).fptr]
  {
    var m := Run(s, before);
    WriteCovers(m, op, p);
    RunKeeps(Step(m, op), after, p);
    assert ([op] + after)[1..] == after;
    RunConcat(s, before, [op] + after);
    assert before + [op] + after == before + ([op] + after);
  }

  lemma {:induction false} RunConcat(s: Mem, a: seq<Op>, b: seq<Op>)
    requires s.Valid() && LegalRun(s, a) && LegalRun(Run(s, a), b)
    ensures LegalRun(s, a + b) && Run(s, a + b) == Run(Run(s, a), b)
    decreases |a|
  {
    if |a| == 0 {
      assert a + b == b;
    } else {
      assert (a + b)[1..] == a[1..] + b;
      RunConcat(Step(s, a[0]), a[1..], b);
    }
  }

  function ReadBytes(s: Mem, n: nat): seq<Byte>
    requires s.Valid()
  {
    s.data[s.fptr..s.fptr + ReadCount(s, n)]
  }

  /** Reading back: seek to where a write began and read its length, after any run that left those bytes alone. */
  lemma ReadBack(s: Mem, op: Op, after: seq<Op>, room: bool, junk: nat -> Byte)
    requires s.Valid() && op.Write? && Accepted(s, op) && Step(s, op).Valid() && LegalRun(Step(s, op), after)
    requires forall p: nat :: s.fptr <= p < s.fptr + |op.bytes| ==> NeverCovered(Step(s, op), after, p)
    ensures var m := Run(Step(s, op), after);
            var t := Step(m, SeekSet(s.fptr, room, junk));
            t.Valid() && ReadBytes(t, |op.bytes|) == op.bytes
  {
    var m := Run(Step(s, op), after);
    LengthGrows(Step(s, op), after);
    forall p: nat | s.fptr <= p < s.fptr + |op.bytes|
      ensures p < m.flen && m.data[p] == op.bytes[p - s.fptr]
    {
      WriteCovers(s, op, p);
      RunKeeps(Step(s, op), after, p);
    }
    SeekRead(m, s.fptr, op.bytes, room, junk);
  }

  lemma SeekRead(m: Mem, at: nat, bytes: seq<Byte>, room: bool, junk: nat -> Byte)
    requires m.Valid() && at + |bytes| <= m.flen
    requires forall p: nat :: at <= p < at + |bytes| ==> m.data[p] == bytes[p - at]
    ensures var t := Step(m, SeekSet(at, room, junk)); t.Valid() && ReadBytes(t, |bytes|) == bytes
  {
  }

  /** The length never shrinks. */
  lemma {:induction false} LengthGrows(s: Mem, ops: seq<Op>)
    requires s.Valid() && LegalRun(s, ops)
    ensures s.flen <= Run(s, ops).flen
    decreases |ops|
  {
    if |ops| > 0 {
      LengthGrows(Step(s, ops[0]), ops[1..]);
    }
  }

  // ---------------------------------------------------------------- an ordinary file

  /** A file as its user sees it: what it holds and where the next byte goes. */
  datatype File = File(content: seq<Byte>, pos: int)

  ghost function FileOf(s: Mem): File
    requires s.Valid()
  {
    File(s.data[..s.flen], s.fptr)
  }

  /** `content` with `bytes` from `pos` on, longer if they reach past its end. */
  function Overwritten(content: seq<Byte>, pos: nat, bytes: seq<Byte>): seq<Byte>
    requires pos <= |content|
  {
    content[..pos] + bytes + (if pos + |bytes| < |content| then content[pos + |bytes|..] else [])
  }

  /** The next `n` bytes, or what is left. */
  function Next(f: File, n: nat): seq<Byte>
    requires 0 <= f.pos <= |f.content|
  {
    if f.pos + n <= |f.content| then f.content[f.pos..f.pos + n] else f.content[f.pos..]
  }

  /** Seeking to `pos` keeps the content and makes it reach that far. */
  ghost predicate Sought(f: File, pos: int, f': File) {
    f'.pos == pos && f.content <= f'.content && |f'.content| == if pos > |f.content| then pos else |f.content|
  }

  /** What an operation does to a file; SEEK_END counts from `end`. */
  ghost predicate Acts(f: File, op: Op, end: nat, f': File)
    requires 0 <= f.pos <= |f.content|
  {
    match op
    case Write(bytes, _, _) => f' == File(Overwritten(f.content, f.pos, bytes), f.pos + |bytes|)
    case Read(n) => f' == File(f.content, f.pos + |Next(f, n)|)
    case SeekSet(off, _, _) => Sought(f, off, f')
    case SeekCur(off, _, _) => Sought(f, f.pos + off, f')
    case SeekEnd(off, _, _) => Sought(f, end + off, f')
  }

  /**
   The growing buffer is an ordinary file: an accepted operation does what it does to a file, SEEK_END with the
   capacity for the end, and a refused one nothing. A read returns the next bytes.
   */
  lemma StepActs(s: Mem, op: Op)
    requires s.Valid() && Legal(s, op)
    ensures Step(s, op).Valid()
    ensures if Accepted(s, op) then Acts(FileOf(s), op, |s.data|, FileOf(Step(s, op)))
            else FileOf(Step(s, op)) == FileOf(s)
    ensures op.Read? ==> ReadBytes(s, op.n) == Next(FileOf(s), op.n)
  {
    StepValidIff(s, op);
    if Accepted(s, op) {
      match op {
        case Write(bytes, _, _) => WriteActs(s, op);
        case Read(n) => NextIs(s, n);
        case SeekSet(off, _, _) => SeekKeeps(s, op);
        case SeekCur(off, _, _) => SeekKeeps(s, op);
        case SeekEnd(off, _, _) => SeekKeeps(s, op);
      }
    }
    if op.Read? { NextIs(s, op.n); }
  }

  lemma NextIs(s: Mem, n: nat)
    requires s.Valid()
    ensures ReadBytes(s, n) == Next(FileOf(s), n)
  {
  }

  lemma WriteActs(s: Mem, op: Op)
    requires s.Valid() && op.Write? && Accepted(s, op)
    ensures Step(s, op).Valid()
    ensures FileOf(Step(s, op)) == File(Overwritten(FileOf(s).content, s.fptr, op.bytes), s.fptr + |op.bytes|)
  {
    var t, b := Step(s, op), op.bytes;
    var want := Overwritten(FileOf(s).content, s.fptr, b);
    assert |want| == t.flen;
    forall p | 0 <= p < t.flen
      ensures t.data[p] == want[p]
    {
      if s.fptr <= p < s.fptr + |b| {
        WriteCovers(s, op, p);
      } else {
        StepKeeps(s, op, p);
      }
    }
  }

  lemma SeekKeeps(s: Mem, op: Op)
    requires s.Valid() && !op.Write? && !op.Read? && Legal(s, op) && Step(s, op).Valid()
    ensures FileOf(s).content <= FileOf(Step(s, op)).content
  {
    forall p | 0 <= p < s.flen
      ensures p < Step(s, op).flen && Step(s, op).data[p] == s.data[p]
    {
      StepKeeps(s, op, p);
    }
  }

  // ---------------------------------------------------------------- where the position is

  /** What the procedure returns: bytes written or read, or the position of a seek and -1 if it is refused. */
  function Told(s: Mem, op: Op): int
    requires s.Valid()
  {
    match op
    case Write(bytes, _, _) => if Accepted(s, op) then |bytes| else 0
    case Read(n) => |ReadBytes(s, n)|
    case SeekSet(_, _, _) => if Accepted(s, op) then Step(s, op).fptr else -1
    case SeekCur(_, _, _) => if Accepted(s, op) then Step(s, op).fptr else -1
    case SeekEnd(_, _, _) => if Accepted(s, op) then Step(s, op).fptr else -1
  }

  /** The position as a caller can count it, from the operations and what they returned. */
  function Count(pos: int, op: Op, told: int): int {
    match op
    case Write(_, _, _) => pos + told
    case Read(_) => pos + told
    case SeekSet(off, _, _) => if told == -1 then pos else off
    case SeekCur(off, _, _) => if told == -1 then pos else pos + off
    case SeekEnd(_, _, _) => if told == -1 then pos else told
  }

  ghost function CountRun(s: Mem, pos: int, ops: seq<Op>): int
    requires s.Valid() && LegalRun(s, ops)
    decreases |ops|
  {
    if |ops| == 0 then pos
    else CountRun(Step(s, ops[0]), Count(pos, ops[0], Told(s, ops[0])), ops[1..])
  }

  lemma StepCounted(s: Mem, op: Op)
    requires s.Valid() && Legal(s, op)
    ensures Step(s, op).fptr == Count(s.fptr, op, Told(s, op))
  {
  }

  /** After every legal run the position is what a caller has counted. */
  lemma {:induction false} PositionCounted(s: Mem, ops: seq<Op>)
    requires s.Valid() && LegalRun(s, ops)
    ensures Run(s, ops).fptr == CountRun(s, s.fptr, ops)
    decreases |ops|
  {
    if |ops| > 0 {
      StepCounted(s, ops[0]);
      PositionCounted(Step(s, ops[0]), ops[1..]);
    }
  }

  // ---------------------------------------------------------------- one after the other

  /** The bytes of the writes that were accepted, in order. */
  ghost function WrittenBy(s: Mem, ops: seq<Op>): seq<Byte>
    requires s.Valid() && LegalRun(s, ops)
    decreases |ops|
  {
    if |ops| == 0 then []
    else Delivered(s, ops[0]) + WrittenBy(Step(s, ops[0]), ops[1..])
  }

  function Delivered(s: Mem, op: Op): seq<Byte> { if op.Write? && Accepted(s, op) then op.bytes else [] }

  ghost predicate OnlyWrites(ops: seq<Op>) { forall i :: 0 <= i < |ops| ==> ops[i].Write? }

  lemma WriteAppends(s: Mem, op: Op)
    requires s.Valid() && s.fptr == s.flen && op.Write?
    ensures var t := Step(s, op);
            t.Valid() && t.fptr == t.flen && FileOf(t).content == FileOf(s).content + Delivered(s, op)
  {
    StepActs(s, op);
  }

  /** Writes at the end of a file append. */
  lemma {:induction false} WritesAppend(s: Mem, ops: seq<Op>)
    requires s.Valid() && s.fptr == s.flen && OnlyWrites(ops)
    ensures LegalRun(s, ops)
    ensures var r := Run(s, ops);
            r.fptr == r.flen && FileOf(r).content == FileOf(s).content + WrittenBy(s, ops)
    decreases |ops|
  {
    if |ops| > 0 {
      var t := Step(s, ops[0]);
      WriteAppends(s, ops[0]);
      WritesAppend(t, ops[1..]);
      Appended(FileOf(s).content, Delivered(s, ops[0]), WrittenBy(t, ops[1..]));
    } else {
      assert FileOf(s).content + [] == FileOf(s).content;
    }
  }

  lemma Appended(a: seq<Byte>, b: seq<Byte>, c: seq<Byte>)
    ensures a + b + c == a + (b + c)
  {
  }

  /** From a new file: writes, a seek to the start and one read give back everything written. */
  lemma WriteAllReadAll(s: Mem, ops: seq<Op>, room: bool, junk: nat -> Byte, n: nat)
    requires s.Valid() && s.flen == 0 && OnlyWrites(ops)
    ensures LegalRun(s, ops)
    ensures var t := Step(Run(s, ops), SeekSet(0, room, junk));
            t.Valid() && (n >= |WrittenBy(s, ops)| ==> ReadBytes(t, n) == WrittenBy(s, ops))
  {
    WritesAppend(s, ops);
    assert FileOf(s).content == [];
    assert FileOf(Run(s, ops)).content == WrittenBy(s, ops);
    Rewind(Run(s, ops), room, junk, n);
  }

  lemma Rewind(m: Mem, room: bool, junk: nat -> Byte, n: nat)
    requires m.Valid()
    ensures var t := Step(m, SeekSet(0, room, junk));
            t.Valid() && (n >= m.flen ==> ReadBytes(t, n) == FileOf(m).content)
  {
  }

  /** Two reads in a row return what one read of both lengths returns. */
  lemma ReadsConsecutive(s: Mem, a: nat, b: nat)
    requires s.Valid()
    ensures Step(s, Read(a)).Valid()
    ensures ReadBytes(s, a + b) == ReadBytes(s, a) + ReadBytes(Step(s, Read(a)), b)
  {
  }

  // ---------------------------------------------------------------- the object

  class MemTiff {
    var data: array<Byte>
    var incsiz: nat
    var flen: int
    var fptr: int

    ghost function Abs(): Mem
      reads this, data
    {
      Mem(data[..], incsiz, flen, fptr)
    }

    constructor (incsiz: nat, initsiz: nat, junk: nat -> Byte)
      ensures fresh(data) && this.incsiz == incsiz && Abs().Valid() && flen == 0
      ensures data.Length == if initsiz == 0 then incsiz else initsiz
    {
      this.incsiz := incsiz;
      data := new Byte[if initsiz == 0 then incsiz else initsiz](junk);
      flen, fptr := 0, 0;
    }

    method Grow(n: nat, junk: nat -> Byte)
      modifies this`data
      ensures fresh(data) && data[..] == Realloc(old(data[..]), n, junk)
    {
      var newdata := new Byte[n];
      for p := 0 to n
        invariant data == old(data) && data[..] == old(data[..]) && fresh(newdata)
        invariant forall q :: 0 <= q < p ==> newdata[q] == Realloc(data[..], n, junk)[q]
      {
        newdata[p] := if p < data.Length then data[p] else junk(p);
      }
      data := newdata;
    }

    method ReadProc(size: nat) returns (buf: seq<Byte>)
      requires Abs().Valid()
      modifies this`fptr
      ensures Abs() == Step(old(Abs()), Read(size)) && buf == ReadBytes(old(Abs()), size)
    {
      var n := if fptr + size <= flen then size else flen - fptr;
      buf := data[fptr..fptr + n];
      fptr := fptr + n;
    }

    method WriteProc(buf: seq<Byte>, room: bool, junk: nat -> Byte) returns (written: nat)
      requires Abs().Valid()
      modifies this, data
      ensures data == old(data) || fresh(data)
      ensures Abs() == Step(old(Abs()), Write(buf, room, junk))
      ensures written == if Accepted(old(Abs()), Write(buf, room, junk)) then |buf| else 0
    {
      if fptr + |buf| > data.Length {
        if !room { return 0; }
        Grow(fptr + incsiz + |buf|, junk);
      }
      Copy(buf);
      fptr := fptr + |buf|;
      if fptr > flen { flen := fptr; }
      written := |buf|;
    }

    method Copy(buf: seq<Byte>)
      requires 0 <= fptr && fptr + |buf| <= data.Length
      modifies data
      ensures data[..] == Put(old(data[..]), fptr, buf)
    {
      for k := 0 to |buf|
        invariant forall q :: 0 <= q < data.Length ==>
                    data[q] == if fptr <= q < fptr + k then buf[q - fptr] else old(data[q])
      {
        data[fptr + k] := buf[k];
      }
    }

    method SeekProc(op: Op) returns (pos: int)
      requires Abs().Valid() && (op.SeekSet? || op.SeekCur? || op.SeekEnd?)
      modifies this
      ensures data == old(data) || fresh(data)
      ensures Abs() == Step(old(Abs()), op)
      ensures pos == if Accepted(old(Abs()), op) then fptr else -1
    {
      match op {
        case SeekSet(off, room, junk) =>
          if off > data.Length {
            if !room { return -1; }
            Grow(data.Length + incsiz + off, junk);
          }
          fptr := off;
        case SeekCur(off, room, junk) =>
          if fptr + off > data.Length {
            if !room { return -1; }
            Grow(fptr + incsiz + off, junk);
          }
          fptr := fptr + off;
        case SeekEnd(off, room, junk) =>
          if data.Length + off > data.Length {
            if !room { return -1; }
            Grow(data.Length + incsiz + off, junk);
          }
          fptr := data.Length + off;
      }
      if fptr < 0 || fptr > flen { flen := fptr; }
      pos := fptr;
    }
  }
}
