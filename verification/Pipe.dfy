/** The pipe: a ring buffer of 4096 bytes shared by any number of reading and writing ends. */
module Pipes {

  const PipeSize: nat := 4096
  const EndOfFile: int := -3
  const BrokenPipe: int := -9
  const PipeFull: int := -10

  /** The bytes between the read and the write position, round the end of the buffer. */
  function Ring<T>(buffer: seq<T>, r: nat, w: nat): (held: seq<T>)
    requires |buffer| == PipeSize && r < PipeSize && w < PipeSize
    ensures |held| == (if r <= w then w - r else PipeSize - r + w) < PipeSize
  {
    if r <= w then buffer[r..w] else buffer[r..] + buffer[..w]
  }

  function After(i: nat): nat {
    if i + 1 >= PipeSize then 0 else i + 1
  }

  predicate IsFull(r: nat, w: nat) {
    (w == PipeSize - 1 && r == 0) || w + 1 == r
  }

  /** The two full tests together say that one more byte would make the ring look empty. */
  lemma FullMeans<T>(buffer: seq<T>, r: nat, w: nat)
    requires |buffer| == PipeSize && r < PipeSize && w < PipeSize
    ensures IsFull(r, w) <==> |Ring(buffer, r, w)| == 4095
  {
  }

  /** Writing at the write position appends to the ring. */
  lemma RingPut<T>(buffer: seq<T>, r: nat, w: nat, c: T)
    requires |buffer| == PipeSize && r < PipeSize && w < PipeSize && !IsFull(r, w)
    ensures Ring(buffer[w := c], r, After(w)) == Ring(buffer, r, w) + [c]
  {
  }

  /** Advancing the read position takes the first byte off the ring. */
  lemma RingTake<T>(buffer: seq<T>, r: nat, w: nat)
    requires |buffer| == PipeSize && r < PipeSize && w < PipeSize && r != w
    ensures [buffer[r]] + Ring(buffer, After(r), w) == Ring(buffer, r, w)
  {
  }

  function Min(a: int, b: int): int {
    if a < b then a else b
  }

  /** How many bytes a put accepts: as many as fit. */
  function Accepted(held: nat, n: int): (c: nat)
    requires held < PipeSize
    ensures held + c <= 4095 && (n <= 0 ==> c == 0) && (n > 0 ==> c <= n && (c < n ==> held + c == 4095))
  {
    if n < 0 then 0 else Min(n, PipeSize - 1 - held)
  }

  class Pipe {
    const buffer: array<int>
    var writePos: nat
    var readPos: nat
    var readerCount: int
    var writerCount: int
    /** Everything ever accepted and everything ever delivered, by any end. */
    ghost var accepted: seq<int>
    ghost var delivered: seq<int>

    ghost predicate InRange()
      reads this
    {
      buffer.Length == PipeSize && writePos < PipeSize && readPos < PipeSize
    }

    ghost function Held(): seq<int>
      requires InRange()
      reads this, buffer
    {
      Ring(buffer[..], readPos, writePos)
    }

    ghost function View(): PipeState
      requires InRange()
      reads this, buffer
    {
      PipeState(Held(), readerCount, writerCount, accepted, delivered)
    }

    /** What was delivered is a prefix of what was accepted, and the ring holds the rest. */
    ghost predicate Valid()
      reads this, buffer
    {
      InRange() && accepted == delivered + Held()
    }

    constructor ()
      ensures Valid() && fresh(buffer) && Held() == [] && accepted == [] && readerCount == 0 && writerCount == 0
    {
      buffer := new int[PipeSize];
      writePos, readPos, readerCount, writerCount := 0, 0, 0, 0;
      accepted, delivered := [], [];
    }

    /** Accepts as many bytes as fit; refuses without a reader, and reports a full pipe only when it took nothing. */
    method Put(data: seq<int>, n: int) returns (status: int)
      requires Valid() && n <= |data|
      modifies this`writePos, this`accepted, buffer
      ensures Valid() && delivered == old(delivered)
      ensures readerCount == 0 ==> status == -9 && accepted == old(accepted) && Held() == old(Held())
      ensures readerCount != 0 ==> var c := Accepted(|old(Held())|, n);
        && c <= |data| && accepted == old(accepted) + data[..c] && Held() == old(Held()) + data[..c]
        && status == (if n > 0 && |old(Held())| == 4095 then -10 else c)
      ensures View() == PipeApply(old(View()), PutStep(data[..if n < 0 then 0 else n]))
    {
      hide Ring;
      if readerCount == 0 {
        return BrokenPipe;
      }
      ghost var held := Held();
      var c: nat := 0;
      FullMeans(buffer[..], readPos, writePos);
      while c < n && !(writePos == PipeSize - 1 && readPos == 0) && !(writePos + 1 == readPos)
        modifies this`writePos, buffer
        invariant InRange() && c <= |data| && (c <= n || c == 0)
        invariant Held() == held + data[..c]
        invariant IsFull(readPos, writePos) <==> |Held()| == PipeSize - 1
      {
        PutByte(data[c]);
        assert data[..c + 1] == data[..c] + [data[c]];
        c := c + 1;
        FullMeans(buffer[..], readPos, writePos);
      }
      assert accepted + data[..c] == delivered + (held + data[..c]);
      accepted := accepted + data[..c];
      assert n >= 0 ==> data[..n][..c] == data[..c];
      if n > 0 && c == 0 {
        return PipeFull;
      } else {
        return c;
      }
    }

    /** Writes one byte and steps the write position round. */
    method PutByte(v: int)
      requires InRange() && !IsFull(readPos, writePos)
      modifies this`writePos, buffer
      ensures InRange() && Held() == old(Held()) + [v]
    {
      hide Ring;
      RingPut(buffer[..], readPos, writePos, v);
      ghost var after := buffer[..][writePos := v];
      buffer[writePos] := v;
      assert buffer[..] == after;
      writePos := writePos + 1;
      if writePos >= PipeSize {
        writePos := 0;
      }
    }

    /** Takes up to n bytes off the ring, in order. */
    method Read(dest: array<int>, n: int) returns (c: nat)
      requires Valid() && n <= dest.Length && dest != buffer
      modifies this`readPos, this`delivered, dest
      ensures Valid() && accepted == old(accepted)
      ensures c == (if n < 0 then 0 else Min(n, |old(Held())|)) && c <= dest.Length
      ensures dest[..c] == old(Held())[..c] && Held() == old(Held())[c..]
      ensures delivered == old(delivered) + old(Held())[..c]
      ensures dest[c..] == old(dest[..])[c..]
      ensures View() == PipeApply(old(View()), ReadStep(if n < 0 then 0 else n))
    {
      hide Ring;
      ghost var held := Held();
      c := 0;
      while readPos != writePos && c < n
        modifies this`readPos, dest
        invariant InRange() && c <= |held| && c <= dest.Length && (c <= n || c == 0)
        invariant Held() == held[c..]
        invariant forall k :: 0 <= k < c ==> dest[k] == held[k]
        invariant forall k :: c <= k < dest.Length ==> dest[k] == old(dest[k])
        decreases n - c
      {
        var v := TakeByte();
        TakeStep(held, c, v, Held());
        dest[c] := v;
        c := c + 1;
      }
      EmptyRing(buffer[..], readPos, writePos);
      delivered := delivered + held[..c];
    }

    /** Takes one byte and steps the read position round. */
    method TakeByte() returns (v: int)
      requires InRange() && readPos != writePos
      modifies this`readPos
      ensures InRange() && old(Held()) == [v] + Held()
    {
      hide Ring;
      RingTake(buffer[..], readPos, writePos);
      v := buffer[readPos];
      readPos := readPos + 1;
      if readPos >= PipeSize {
        readPos := 0;
      }
    }

    /** A reading end: end of file exactly when nothing came and no writer is left. */
    method ReaderRead(dest: array<int>, n: int) returns (status: int)
      requires Valid() && n <= dest.Length && dest != buffer
      modifies this`readPos, this`delivered, dest
      ensures Valid() && accepted == old(accepted)
      ensures status == -3 <==> writerCount == 0 && (n <= 0 || old(Held()) == [])
      ensures status != -3 ==> status == if n < 0 then 0 else Min(n, |old(Held())|)
      ensures status != -3 ==> 0 <= status <= dest.Length && dest[..status] == old(Held())[..status]
      ensures delivered <= accepted
    {
      hide Ring;
      var c := Read(dest, n);
      if c == 0 && writerCount == 0 {
        return EndOfFile;
      } else {
        return c;
      }
    }

    /** An end comes or goes. */
    method AddReader()
      requires InRange()
      modifies this`readerCount
      ensures readerCount == old(readerCount) + 1 && View() == PipeApply(old(View()), PipeStep.AddReader)
    {
      readerCount := readerCount + 1;
    }

    method RemoveReader()
      requires InRange()
      modifies this`readerCount
      ensures readerCount == old(readerCount) - 1 && View() == PipeApply(old(View()), PipeStep.RemoveReader)
    {
      readerCount := readerCount - 1;
    }

    method AddWriter()
      requires InRange()
      modifies this`writerCount
      ensures writerCount == old(writerCount) + 1 && View() == PipeApply(old(View()), PipeStep.AddWriter)
    {
      writerCount := writerCount + 1;
    }

    method RemoveWriter()
      requires InRange()
      modifies this`writerCount
      ensures writerCount == old(writerCount) - 1 && View() == PipeApply(old(View()), PipeStep.RemoveWriter)
    {
      writerCount := writerCount - 1;
    }
  }

  lemma TakeStep<T>(held: seq<T>, c: nat, v: T, rest: seq<T>)
    requires c <= |held| && held[c..] == [v] + rest
    ensures c < |held| && held[c] == v && rest == held[c + 1..]
  {
    assert held[c..][0] == v && held[c..][1..] == rest;
  }

  lemma EmptyRing<T>(buffer: seq<T>, r: nat, w: nat)
    requires |buffer| == PipeSize && r < PipeSize && w < PipeSize
    ensures Ring(buffer, r, w) == [] <==> r == w
  {
  }

  /** What the ends of a pipe do to it. */
  datatype PipeStep =
    | PutStep(data: seq<int>)
    | ReadStep(n: nat)
    | AddReader
    | RemoveReader
    | AddWriter
    | RemoveWriter

  datatype PipeState = PipeState(held: seq<int>, readers: int, writers: int, accepted: seq<int>, delivered: seq<int>)

  function PipeApply(p: PipeState, e: PipeStep): PipeState
    requires |p.held| < PipeSize
  {
    match e
    case PutStep(data) =>
      if p.readers == 0 then p
      else var c := Accepted(|p.held|, |data|); p.(held := p.held + data[..c], accepted := p.accepted + data[..c])
    case ReadStep(n) => var c := Min(n, |p.held|); p.(held := p.held[c..], delivered := p.delivered + p.held[..c])
    case AddReader => p.(readers := p.readers + 1)
    case RemoveReader => p.(readers := p.readers - 1)
    case AddWriter => p.(writers := p.writers + 1)
    case RemoveWriter => p.(writers := p.writers - 1)
  }

  ghost predicate PipeInv(p: PipeState) {
    |p.held| < PipeSize && p.accepted == p.delivered + p.held
  }

  ghost function PipeRun(p: PipeState, es: seq<PipeStep>): (r: PipeState)
    requires PipeInv(p)
    ensures PipeInv(r)
    decreases |es|
  {
    if es == [] then p
    else
      PipeStepKeeps(p, es[0]);
      PipeRun(PipeApply(p, es[0]), es[1..])
  }

  lemma PipeStepKeeps(p: PipeState, e: PipeStep)
    requires PipeInv(p)
    ensures PipeInv(PipeApply(p, e))
  {
    if e.ReadStep? {
      var c := Min(e.n, |p.held|);
      assert p.held == p.held[..c] + p.held[c..];
    }
  }

  /** Over every interleaving of puts, reads and ends coming and going, delivery is first in first out: the bytes read
  are a prefix of those accepted, less than a bufferful behind, and later bytes never overtake. */
  lemma {:induction false} PipeFifo(p: PipeState, es: seq<PipeStep>)
    requires PipeInv(p)
    ensures var r := PipeRun(p, es);
      && r.delivered <= r.accepted && |r.accepted| - |r.delivered| < 4096
      && p.accepted <= r.accepted && p.delivered <= r.delivered
    decreases |es|
  {
    if es != [] {
      PipeStepKeeps(p, es[0]);
      var q := PipeApply(p, es[0]);
      PipeFifo(q, es[1..]);
      assert p.accepted <= q.accepted && p.delivered <= q.delivered;
    }
  }

  /** How often a step occurs in a run. */
  ghost function Times(es: seq<PipeStep>, e: PipeStep): nat
    decreases |es|
  {
    if es == [] then 0 else (if es[0] == e then 1 else 0) + Times(es[1..], e)
  }

  /** Over every run the ends are counted: those there at the start, those that came less those that went. */
  lemma {:induction false} EndsCounted(p: PipeState, es: seq<PipeStep>)
    requires PipeInv(p)
    ensures var r := PipeRun(p, es);
      && r.readers == p.readers + Times(es, AddReader) - Times(es, RemoveReader)
      && r.writers == p.writers + Times(es, AddWriter) - Times(es, RemoveWriter)
    decreases |es|
  {
    if es != [] {
      PipeStepKeeps(p, es[0]);
      EndsCounted(PipeApply(p, es[0]), es[1..]);
    }
  }
}
