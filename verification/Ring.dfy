/** The circular buffer of the pipe device: pure arithmetic on `rp`, `wp` and the bytes. */
module Ring {
  import opened Kernel

  /** Pointers are offsets from `buffer`; `end` is `|buf|`. */
  datatype Ring = Ring(buf: seq<Byte>, rp: nat, wp: nat)
  {
    /** Pointers lie in [buffer, end): what holds whenever the semaphore is free. */
    predicate Ok() { rp < |buf| && wp < |buf| }

    /** As Ok, but `wp` may rest on `end` between the advance and the wrap of a write. */
    predicate Loose() { rp < |buf| && wp <= |buf| && (wp == |buf| ==> 0 < rp) }

    predicate Empty() { rp == wp }

    /** The queued bytes, oldest first. */
    function Contents(): seq<Byte>
      requires Loose()
    {
      if rp <= wp then buf[rp..wp] else buf[rp..] + buf[..wp]
    }

    /** The clamp of read: within the contiguous part of the queue. It computes something also on
        pointers outside the buffer: `end - rp` is then negative, and huge as a size_t. */
    function ReadCount(count: nat): (n: nat)
      ensures n <= count
    {
      if rp < wp then Min(count, wp - rp)
      else if |buf| < rp then count
      else Min(count, |buf| - rp)
    }

    /** What a copy of `n` bytes from the read pointer on delivers. Past the end of the buffer there
        is nothing to know; the protocol records that case. */
    function Peek(n: nat): seq<Byte> {
      if rp + n <= |buf| then buf[rp .. rp + n] else seq(n, _ => 0)
    }

    /** The read pointer moved by `n`, with its wrap test. */
    function Past(n: nat): Ring {
      this.(rp := if rp + n == |buf| then 0 else rp + n)
    }

    function ReadBytes(count: nat): seq<Byte> { Peek(ReadCount(count)) }

    function AfterRead(count: nat): Ring { Past(ReadCount(count)) }

    function Free(): int { SpaceFree(|buf|, rp, wp) }

    /** The three-way clamp of write. A negative free space, too, is huge as a size_t. */
    function WriteCount(count: nat): (n: nat)
      ensures n <= count
    {
      var n := if rp > wp then Min(count, rp - wp)
               else if |buf| < wp then count
               else Min(count, |buf| - wp);
      if Free() < 0 then n else Min(n, Free())
    }

    /** The buffer with `bytes` stored at the write pointer, the pointer unmoved. What would go past
        the end is not the ring's. */
    function Stored(bytes: seq<Byte>): Ring {
      if wp + |bytes| <= |buf| then this.(buf := buf[..wp] + bytes + buf[wp + |bytes|..]) else this
    }

    /** The copy and `wp += count`, before the wrap test. */
    function Advanced(bytes: seq<Byte>): Ring { Stored(bytes).(wp := wp + |bytes|) }

    function Wrapped(): Ring { if wp == |buf| then this.(wp := 0) else this }
  }

  /** C's `%`, which takes the sign of `a`. A buffer has at least one byte, so 0 is never divided by. */
  function Rem(a: int, b: nat): int {
    if b == 0 then 0 else if a >= 0 then a % b else -(-a % b)
  }

  /** `spacefree`, on whatever pointer values were loaded (`wp` may be `end`). */
  function SpaceFree(size: nat, rp: nat, wp: nat): (free: int)
    ensures rp < size && wp <= size ==> -1 <= free < size
  {
    if wp == rp then size - 1 else Rem(rp + size - wp, size) - 1
  }

  /** `%` written out for the operands that occur. */
  lemma SpaceFreeCases(size: nat, rp: nat, wp: nat)
    requires rp < size && wp <= size
    ensures Rem(rp + size - wp, size) == if rp < wp then rp + size - wp else rp - wp
    ensures wp <= rp ==> SpaceFree(size, rp, wp) == if wp == rp then size - 1 else rp - wp - 1
    ensures rp < wp ==> SpaceFree(size, rp, wp) == rp + size - wp - 1
  {
    if rp < wp {
      ModOfLess(size, rp + size - wp);
    } else {
      ModOfSum(size, rp - wp);
    }
  }

  lemma ModOfLess(size: nat, d: nat)
    requires d < size
    ensures d % size == d
  {
  }

  lemma ModOfSum(size: nat, d: nat)
    requires d < size
    ensures (d + size) % size == d
  {
  }

  /** Free space and queued bytes always fill the ring up to its reserved slot. */
  lemma Accounting(r: Ring)
    requires r.Loose()
    ensures r.Free() + |r.Contents()| == |r.buf| - 1
  {
    SpaceFreeCases(|r.buf|, r.rp, r.wp);
  }

  /** Copying and passing over `n` bytes, within the clamp, takes a prefix off the queue. */
  lemma PassTakesPrefix(r: Ring, n: nat)
    requires r.Ok() && !r.Empty() && r.ReadCount(n) == n
    ensures r.rp + n <= |r.buf| && r.Past(n).Ok()
    ensures r.Contents() == r.Peek(n) + r.Past(n).Contents()
  {
    if r.rp < r.wp {
      assert r.buf[r.rp..r.wp] == r.buf[r.rp .. r.rp + n] + r.buf[r.rp + n .. r.wp];
    } else if r.rp + n == |r.buf| {
      assert r.Past(n).Contents() == r.buf[..r.wp];
    } else {
      assert r.buf[r.rp..] == r.buf[r.rp .. r.rp + n] + r.buf[r.rp + n ..];
      assert r.Past(n).Contents() == r.buf[r.rp + n ..] + r.buf[..r.wp];
    }
  }

  lemma ReadCountIdempotent(r: Ring, count: nat)
    ensures r.ReadCount(r.ReadCount(count)) == r.ReadCount(count)
  {
  }

  lemma ReadCountExact(r: Ring, count: nat)
    requires r.Ok() && !r.Empty()
    ensures var n := r.ReadCount(count);
      |r.Peek(n)| == n && (n == count || n == |r.Contents()| || r.rp + n == |r.buf|)
  {
  }

  /** A read delivers a prefix of the queue and leaves the rest, in order; it stops short of what
      was asked for only where the queue ends or the buffer does. */
  lemma ReadTakesPrefix(r: Ring, count: nat)
    requires r.Ok() && !r.Empty()
    ensures r.AfterRead(count).Ok()
    ensures r.Contents() == r.ReadBytes(count) + r.AfterRead(count).Contents()
    ensures count > 0 ==> r.ReadBytes(count) != []
    ensures var n := |r.ReadBytes(count)|;
      n <= count && (n == count || n == |r.Contents()| || r.rp + n == |r.buf|)
  {
    hide Ring.Contents;
    ReadCountExact(r, count);
    ReadCountIdempotent(r, count);
    PassTakesPrefix(r, r.ReadCount(count));
  }

  /** The clamp of write keeps it within the buffer and clear of the read pointer, and cuts it short
      only at the end of the free space or of the buffer. */
  lemma WriteFits(r: Ring, count: nat)
    requires r.Ok()
    ensures r.wp + r.WriteCount(count) <= |r.buf|
    ensures r.wp + r.WriteCount(count) == |r.buf| ==> 0 < r.rp
    ensures r.wp < r.rp ==> r.wp + r.WriteCount(count) < r.rp
    ensures r.Free() > 0 && count > 0 ==> r.WriteCount(count) > 0
    ensures var n := r.WriteCount(count);
      n <= r.Free() && (n == count || n == r.Free() || r.wp + n == |r.buf|)
  {
    SpaceFreeCases(|r.buf|, r.rp, r.wp);
  }

  /** A write appends exactly the accepted bytes, also while `wp` rests on `end`, and a
      non-empty write never makes the ring look empty. */
  lemma WriteAppends(r: Ring, bytes: seq<Byte>)
    requires r.Ok() && |bytes| <= r.WriteCount(|bytes|)
    ensures r.wp + |bytes| <= |r.buf|
    ensures var a := r.Advanced(bytes);
      && a.Loose()
      && a.Contents() == r.Contents() + bytes
      && a.Wrapped().Ok()
      && a.Wrapped().Contents() == a.Contents()
      && (bytes != [] ==> !a.Empty() && !a.Wrapped().Empty())
  {
    WriteFits(r, |bytes|);
    var a := r.Advanced(bytes);
    assert |a.buf| == |r.buf|;
    if r.rp <= r.wp {
      assert a.buf[r.rp..a.wp] == r.buf[r.rp..r.wp] + bytes;
    } else {
      assert a.buf[r.rp..] == r.buf[r.rp..];
      assert a.buf[..a.wp] == r.buf[..r.wp] + bytes;
      assert a.Contents() == r.buf[r.rp..] + (r.buf[..r.wp] + bytes);
    }
    if a.wp == |a.buf| {
      assert a.Wrapped().Contents() == a.buf[r.rp..] + a.buf[..0];
    }
  }

  /** A faulting copy scribbles only on free slots: the queue is untouched. */
  lemma ScribbleKeepsQueue(r: Ring, count: nat, garbage: seq<Byte>)
    requires r.Ok() && |garbage| <= r.WriteCount(count)
    ensures r.wp + |garbage| <= |r.buf|
    ensures r.Stored(garbage).Ok()
    ensures r.Stored(garbage).Contents() == r.Contents()
  {
    WriteFits(r, count);
    var a := r.Stored(garbage);
    if r.rp > r.wp {
      assert a.buf[r.rp..] == r.buf[r.rp..];
      assert a.buf[..r.wp] == r.buf[..r.wp];
    } else {
      assert a.buf[r.rp..r.wp] == r.buf[r.rp..r.wp];
    }
  }

  /** Two uninterrupted reads that ask for enough drain any ring. */
  lemma TwoReadsDrain(r: Ring, count1: nat, count2: nat)
    requires r.Ok() && !r.Empty()
    requires |r.Contents()| <= count1 && |r.Contents()| <= count2
    ensures var r1 := r.AfterRead(count1);
      && r1.Ok()
      && (if r1.Empty() then r.ReadBytes(count1) == r.Contents()
          else && r1.AfterRead(count2).Ok() && r1.AfterRead(count2).Empty()
               && r.ReadBytes(count1) + r1.ReadBytes(count2) == r.Contents())
  {
    ReadTakesPrefix(r, count1);
    var r1 := r.AfterRead(count1);
    if !r1.Empty() {
      ReadTakesPrefix(r1, count2);
      assert r1.AfterRead(count2).Contents() == [];
    }
  }

  /** What one write call does to the ring: copy, advance, wrap. */
  function AfterWrite(r: Ring, data: seq<Byte>): Ring {
    r.Advanced(data[..r.WriteCount(|data|)]).Wrapped()
  }

  /** One write call appends what it accepts, and stops short of the whole only when the ring is full
      or the end of the buffer is reached. */
  lemma OneWrite(r: Ring, data: seq<Byte>)
    requires r.Ok()
    ensures var n := r.WriteCount(|data|);
      && 0 <= n <= |data|
      && (n == |data| || |r.Contents()| + n == |r.buf| - 1 || r.wp + n == |r.buf|)
      && AfterWrite(r, data).Ok()
      && AfterWrite(r, data).Contents() == r.Contents() + data[..n]
  {
    var n := r.WriteCount(|data|);
    WriteFits(r, |data|);
    Accounting(r);
    assert r.WriteCount(n) == n;
    WriteAppends(r, data[..n]);
  }

  lemma SecondWriteTakesRest(r: Ring, data: seq<Byte>)
    requires r.Ok() && |data| <= r.Free()
    ensures var n := r.WriteCount(|data|); var r1 := AfterWrite(r, data);
      n <= |data| && r1.Ok() && r1.WriteCount(|data| - n) == |data| - n
  {
    OneWrite(r, data);
    var r1 := AfterWrite(r, data);
    WriteFits(r, |data|);
    SpaceFreeCases(|r.buf|, r.rp, r.wp);
    SpaceFreeCases(|r1.buf|, r1.rp, r1.wp);
  }

  /** Two uninterrupted writes accept any message that fits the free space. */
  lemma TwoWritesAccept(r: Ring, data: seq<Byte>)
    requires r.Ok() && |data| <= r.Free()
    ensures var n1 := r.WriteCount(|data|); var r1 := AfterWrite(r, data);
      && n1 <= |data| && r1.Ok()
      && var rest := data[n1..]; var r2 := AfterWrite(r1, rest);
      && n1 + r1.WriteCount(|rest|) == |data|
      && r2.Ok()
      && r2.Contents() == r.Contents() + data
  {
    hide AfterWrite, Ring.Free, Ring.WriteCount, Ring.Contents;
    var n1 := r.WriteCount(|data|);
    OneWrite(r, data);
    SecondWriteTakesRest(r, data);
    var rest := data[n1..];
    OneWrite(AfterWrite(r, data), rest);
    assert rest[..|rest|] == rest;
    assert data == data[..n1] + rest;
    assert r.Contents() + data[..n1] + rest == r.Contents() + (data[..n1] + rest);
  }
}
