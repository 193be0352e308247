/** Runs of calls on a device in kernel memory: what they conserve. */
module StoreSession {
  import opened Kernel
  import opened StoreSpec
  import opened StoreMemory
  import opened StoreDevice
  import opened StoreFlat
  import opened StoreRoundTrip

  /** Memory without the cells of a device. */
  function Outside(m: Cells, x: Image): Cells { m - x.role.Keys }

  /** A call that only grows the device does not touch the rest of memory. */
  lemma GrowthConserves(m: Cells, x: Image, m': Cells, x': Image)
    requires Grows(m, x, m', x')
    ensures Outside(m', x') == Outside(m, x)
  {
    forall p
      ensures p in Outside(m', x') <==> p in Outside(m, x)
    {
    }
  }

  function AfterAll(st: Store, calls: seq<Call>): (st': Store)
    requires Ok(st) && forall i :: 0 <= i < |calls| ==> CallOk(calls[i])
    ensures Ok(st')
  {
    if calls == [] then st
    else After(AfterAll(st, calls[..|calls| - 1]), calls[|calls| - 1])
  }

  /** The call makes a block shorter than the quantum. */
  predicate CallMakesShort(kind: Kind, st: Store, c: Call)
    requires Ok(st)
  {
    c.WriteCall? && MakesShort(kind, st, c.pos, c.memory)
  }

  /** One call: what it does to the device and answers, that memory outside is as before, and that it passes
      the end of a block, if none was passed before, exactly when it makes a short one. */
  method Perform(dev: Device, c: Call) returns (reply: Reply)
    requires dev.Valid() && CallOk(c)
    modifies dev, dev.heap
    ensures dev.Valid() && Ok(old(dev.St())) && dev.St() == After(old(dev.St()), c)
    ensures reply == ReplyTo(old(dev.St()), c)
    ensures dev.overran <==> old(dev.overran) || CallMakesShort(dev.kind, old(dev.St()), c)
    ensures Outside(dev.heap.cells, dev.image) == old(Outside(dev.heap.cells, dev.image))
  {
    hide Rep, Sized, Grows, Allocates, Write, Read;
    RepItemsOk(dev.heap.cells, dev.image, dev.data, dev.items, dev.quantum, dev.qset);
    match c
    case ReadCall(pos, count, memory, copied) =>
      var r, pos' := dev.Read(pos, count, memory, copied);
      reply := ReadReply(r);
      GrowthConserves(old(dev.heap.cells), old(dev.image), dev.heap.cells, dev.image);
    case WriteCall(pos, data, memory, garbage, junk) =>
      var left := Cut(dev.quantum, dev.qset, pos, data, garbage);
      var r, pos' := dev.Write(pos, data, memory, left, junk);
      reply := WriteReply(r);
      GrowthConserves(old(dev.heap.cells), old(dev.image), dev.heap.cells, dev.image);
    case TrimCall(quantum, qset) =>
      dev.Trim(quantum, qset);
      reply := NoReply;
  }

  /** Call number `k` of a session makes a short block. */
  predicate ShortAt(kind: Kind, st: Store, calls: seq<Call>, k: nat)
    requires Ok(st) && k < |calls| && forall i :: 0 <= i < |calls| ==> CallOk(calls[i])
  {
    CallMakesShort(kind, AfterAll(st, calls[..k]), calls[k])
  }

  lemma AfterOneMore(st: Store, calls: seq<Call>, i: nat)
    requires Ok(st) && i < |calls| && forall k :: 0 <= k < |calls| ==> CallOk(calls[k])
    ensures AfterAll(st, calls[..i + 1]) == After(AfterAll(st, calls[..i]), calls[i])
  {
    assert calls[..i + 1][..i] == calls[..i];
  }

  /** What the calls of a session answer. */
  function Replies(st: Store, calls: seq<Call>): seq<Reply>
    requires Ok(st) && forall i :: 0 <= i < |calls| ==> CallOk(calls[i])
  {
    if calls == [] then []
    else
      var before := calls[..|calls| - 1];
      Replies(st, before) + [ReplyTo(AfterAll(st, before), calls[|calls| - 1])]
  }

  /** Any session of reads, writes, faults, failed allocations and trims, and then a trim. Its answers
      are those of the value level. It passes
      the end of a block exactly if one of its writes makes a short one; if not, memory is what it
      was without the device: every cell the session allocated is freed, once, and no other cell
      is touched. */
  method RunThenTrim(dev: Device, calls: seq<Call>, quantum: nat, qset: nat) returns (replies: seq<Reply>)
    requires dev.Valid() && GeometryOk(quantum, qset)
    requires forall i :: 0 <= i < |calls| ==> CallOk(calls[i])
    modifies dev, dev.heap
    ensures dev.Valid() && dev.St() == Trimmed(quantum, qset) && dev.image == Image([], map[])
    ensures Ok(old(dev.St())) && replies == Replies(old(dev.St()), calls)
    ensures dev.overran <==> old(dev.overran) || exists k :: 0 <= k < |calls| && ShortAt(dev.kind, old(dev.St()), calls, k)
    ensures dev.heap.cells.Keys == old(dev.heap.cells.Keys - dev.image.role.Keys)
    ensures !dev.overran ==> dev.heap.cells == old(dev.heap.cells - dev.image.role.Keys)
  {
    hide Rep, Sized, After, ReplyTo, CallMakesShort;
    RepItemsOk(dev.heap.cells, dev.image, dev.data, dev.items, dev.quantum, dev.qset);
    ghost var st0 := dev.St();
    replies := [];
    for i := 0 to |calls|
      invariant dev.Valid() && dev.St() == AfterAll(st0, calls[..i])
      invariant replies == Replies(st0, calls[..i])
      invariant dev.overran <==> old(dev.overran) || exists k :: 0 <= k < i && ShortAt(dev.kind, st0, calls, k)
      invariant Outside(dev.heap.cells, dev.image) == old(Outside(dev.heap.cells, dev.image))
    {
      AfterOneMore(st0, calls, i);
      ghost var short := CallMakesShort(dev.kind, dev.St(), calls[i]);
      assert short == ShortAt(dev.kind, st0, calls, i);
      var reply := Perform(dev, calls[i]);
      replies := replies + [reply];
      assert calls[..i + 1][..i] == calls[..i];
    }
    assert calls[..|calls|] == calls;
    dev.Trim(quantum, qset);
  }

  /** The write loop of a user program on a trimmed device: the whole message goes in, and the
      end of a block is passed exactly if there is something to write and blocks are short. */
  method Send(dev: Device, msg: seq<Byte>, ask: Requests)
    requires dev.Valid() && dev.St() == Trimmed(dev.quantum, dev.qset)
    requires |msg| <= Limit(dev.quantum, dev.qset)
    modifies dev, dev.heap
    ensures dev.Valid() && dev.quantum == old(dev.quantum) && dev.qset == old(dev.qset)
    ensures dev.overran <==> old(dev.overran) || (msg != [] && !dev.Fits())
    ensures !dev.overran ==> Holds(dev.St(), msg, |msg|)
  {
    var pos, k := 0, 0;
    while pos < |msg|
      invariant 0 <= pos <= |msg|
      invariant dev.Valid() && dev.quantum == old(dev.quantum) && dev.qset == old(dev.qset)
      invariant Holds(dev.St(), msg, pos) && (pos == 0 ==> dev.St() == Trimmed(dev.quantum, dev.qset))
      invariant dev.overran <==> old(dev.overran) || (pos > 0 && !dev.Fits())
    {
      var chunk := msg[pos .. pos + Min(ask(k) + 1, |msg| - pos)];
      WriteStep(dev.St(), msg, pos, chunk);
      if pos == 0 { FirstWriteAllocates(dev.quantum, dev.qset); }
      var r;
      r, pos := dev.Write(pos, chunk, Ample, None, 0);
      k := k + 1;
    }
  }

  /** The read loop: exactly the message comes out, whatever the request sizes. */
  method Receive(dev: Device, ghost msg: seq<Byte>, ask: Requests) returns (got: seq<Byte>)
    requires dev.Valid() && Holds(dev.St(), msg, |msg|) && |msg| <= Limit(dev.quantum, dev.qset)
    modifies dev, dev.heap
    ensures dev.Valid() && got == msg
  {
    got := [];
    var pos, k := 0, 0;
    while true
      invariant 0 <= pos <= |msg| && got == msg[..pos]
      invariant dev.Valid() && dev.quantum == old(dev.quantum) && dev.qset == old(dev.qset)
      invariant Holds(dev.St(), msg, |msg|)
      decreases |msg| - pos
    {
      if pos < |msg| { ReadStep(dev.St(), msg, pos, ask(k) + 1); }
      var r;
      r, pos := dev.Read(pos, ask(k) + 1, Ample, true);
      if r.bytes == [] {
        break;
      }
      got := got + r.bytes;
      k := k + 1;
    }
  }
}
