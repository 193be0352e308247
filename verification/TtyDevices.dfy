/** The per-terminal device: a list of private devices, one for each controlling tty, all in the
    same kernel memory. */
module TtyDevices {
  import opened Kernel
  import opened StoreSpec
  import opened StoreMemory
  import opened StoreDevice

  type Key = nat

  /** `struct scull_listitem`. */
  datatype Entry = Entry(key: Key, dev: Device)

  predicate Apart(x: Image, y: Image) { x.role.Keys !! y.role.Keys }

  /** A device keeps its contents while another one grows. */
  lemma GrowthSpares(m: Cells, x: Image, m': Cells, x': Image, y: Image, head: Ptr, items: seq<Item>,
                     quantum: nat, qset: nat, len: nat, ok: bool)
    requires Grows(m, x, m', x') && Apart(x, y) && Rep(m, y, head, items, quantum, qset) && Sized(m, y, len, ok)
    ensures Rep(m', y, head, items, quantum, qset) && Sized(m', y, len, ok) && Apart(x', y)
  {
    OwnedCells(m, y, head, items, quantum, qset);
    RepFrame(m, m', y, head, items, quantum, qset);
  }

  /** A device keeps its contents while another one is trimmed. */
  lemma TrimSpares(m: Cells, x: Image, y: Image, head: Ptr, items: seq<Item>,
                   quantum: nat, qset: nat, len: nat, ok: bool)
    requires Apart(x, y) && Rep(m, y, head, items, quantum, qset) && Sized(m, y, len, ok)
    ensures Rep(m - x.role.Keys, y, head, items, quantum, qset) && Sized(m - x.role.Keys, y, len, ok)
  {
    RepFrame(m, m - x.role.Keys, y, head, items, quantum, qset);
  }

  class ScullC {
    const heap: Heap
    var list: seq<Entry>   // newest first

    ghost function Devices(): set<Device>
      reads this
    {
      set i | 0 <= i < |list| :: list[i].dev
    }

    /** One device per key, each key once, every device sound and sharing no cell with another. */
    ghost predicate Valid()
      reads this, heap, Devices()
    {
      && (forall i :: 0 <= i < |list| ==> list[i].dev.heap == heap && list[i].dev.kind.Basic? && !list[i].dev.overran)
      && (forall i :: 0 <= i < |list| ==> list[i].dev.Valid())
      && (forall i, j :: 0 <= i < |list| && 0 <= j < |list| && i != j ==>
            list[i].key != list[j].key && list[i].dev != list[j].dev && Apart(list[i].dev.image, list[j].dev.image))
    }

    constructor (heap: Heap)
      ensures Valid() && list == [] && this.heap == heap
    {
      this.heap, list := heap, [];
    }

    ghost predicate Absent(key: Key)
      reads this
    {
      forall i :: 0 <= i < |list| ==> list[i].key != key
    }

    /** What the terminal `key` has stored: nothing before its first open. */
    ghost predicate Shows(key: Key, v: Option<Store>)
      reads this, Devices()
    {
      if v.None? then Absent(key)
      else Ok(v.value) && exists i :: 0 <= i < |list| && list[i].key == key && list[i].dev.St() == v.value
    }

    ghost predicate ShowsAt(key: Key, v: Option<Store>, at: nat)
      reads this, Devices()
    {
      if v.None? then Absent(key)
      else Ok(v.value) && at < |list| && list[at].key == key && list[at].dev.St() == v.value
    }

    lemma Where(key: Key, v: Option<Store>) returns (at: nat)
      requires Shows(key, v)
      ensures ShowsAt(key, v, at)
    {
      at := 0;
      if v.Some? { at :| 0 <= at < |list| && list[at].key == key && list[at].dev.St() == v.value; }
    }

    lemma Here(key: Key, v: Option<Store>, at: nat)
      requires ShowsAt(key, v, at)
      ensures Shows(key, v)
    {
    }

    /** scull_c_lookfor_device: the device of the key, made empty under the global geometry if the
        key is new; null only for a new key without memory. Existing entries stay as they are. */
    method LookFor(key: Key, memory: Kernel.Memory, quantum: nat, qset: nat) returns (r: Device?)
      requires Valid() && GeometryOk(quantum, qset)
      modifies this
      ensures Valid()
      ensures r == null <==> old(Absent(key)) && !memory.CanAlloc()
      ensures !old(Absent(key)) || r == null ==> list == old(list)
      ensures r != null ==> Entry(key, r) in list
      ensures r != null && old(Absent(key)) ==>
        list == [Entry(key, r)] + old(list) && fresh(r) && r.St() == Trimmed(quantum, qset)
    {
      hide Rep, Grows, Sized;
      for i := 0 to |list|
        invariant forall k :: 0 <= k < i ==> list[k].key != key
      {
        if list[i].key == key {
          return list[i].dev;
        }
      }
      if !memory.CanAlloc() {
        return null;
      }
      var dev := new Device(heap, Basic, quantum, qset);
      list := [Entry(key, dev)] + list;
      r := dev;
    }

    /** What the other terminals see. */
    twostate predicate OthersUntouched(i: nat)
      requires i < |old(list)| == |list|
      reads this, Devices()
    {
      list == old(list) && forall j :: 0 <= j < |list| && j != i ==>
        list[j].dev.St() == old(list[j].dev.St()) && list[j].dev.image == old(list[j].dev.image)
    }

    /** A write through one terminal: it does to its own device what scull_write does, and
        nothing that another terminal could read. */
    method Write(dev: Device, ghost i: nat, pos: nat, buff: seq<Byte>, memory: Kernel.Memory, garbage: Option<seq<Byte>>, junk: Byte)
      returns (r: Result, pos': nat)
      requires Valid() && i < |list| && list[i].dev == dev
      requires garbage.Some? ==> |garbage.value| <= WriteLen(dev.St(), pos, |buff|)
      modifies heap, dev
      ensures Valid() && OthersUntouched(i)
      ensures Ok(old(dev.St()))
      ensures (dev.St(), r) == StoreSpec.Write(old(dev.St()), pos, buff, memory, garbage)
      ensures pos' == if r.Moved? then pos + r.n else pos
    {
      hide Rep, Grows, Sized;
      ghost var m, x := heap.cells, dev.image;
      assert dev.Valid();
      r, pos' := dev.Write(pos, buff, memory, garbage, junk);
      forall j | 0 <= j < |list| && j != i
        ensures list[j].dev.Valid() && Apart(dev.image, list[j].dev.image)
      {
        var d := list[j].dev;
        assert old(d.Valid());
        GrowthSpares(m, x, heap.cells, dev.image, d.image, d.data, d.items, d.quantum, d.qset,
          Capacity(d.kind, d.quantum), d.overran || d.Fits());
      }
    }

    /** A read through one terminal changes no contents anywhere. */
    method Read(dev: Device, ghost i: nat, pos: nat, count: nat, memory: Kernel.Memory, copied: bool) returns (r: ReadResult, pos': nat)
      requires Valid() && i < |list| && list[i].dev == dev
      modifies heap, dev
      ensures Valid() && OthersUntouched(i)
      ensures Ok(old(dev.St()))
      ensures (dev.St(), r) == StoreSpec.Read(old(dev.St()), pos, count, memory, copied)
      ensures pos' == if r.Got? then pos + |r.bytes| else pos
    {
      hide Rep, Grows, Sized;
      ghost var m, x := heap.cells, dev.image;
      assert dev.Valid();
      r, pos' := dev.Read(pos, count, memory, copied);
      forall j | 0 <= j < |list| && j != i
        ensures list[j].dev.Valid() && Apart(dev.image, list[j].dev.image)
      {
        var d := list[j].dev;
        assert old(d.Valid());
        GrowthSpares(m, x, heap.cells, dev.image, d.image, d.data, d.items, d.quantum, d.qset,
          Capacity(d.kind, d.quantum), d.overran || d.Fits());
      }
    }

    /** The trim of a write-only open through one terminal. */
    method Trim(dev: Device, ghost i: nat, quantum: nat, qset: nat)
      requires Valid() && i < |list| && list[i].dev == dev && GeometryOk(quantum, qset)
      modifies heap, dev
      ensures Valid() && OthersUntouched(i)
      ensures dev.St() == Trimmed(quantum, qset)
    {
      hide Rep, Grows, Sized;
      ghost var m, x := heap.cells, dev.image;
      assert dev.Valid();
      dev.Trim(quantum, qset);
      forall j | 0 <= j < |list| && j != i
        ensures list[j].dev.Valid() && Apart(dev.image, list[j].dev.image)
      {
        var d := list[j].dev;
        assert old(d.Valid());
        TrimSpares(m, x, d.image, d.data, d.items, d.quantum, d.qset,
          Capacity(d.kind, d.quantum), d.overran || d.Fits());
      }
    }

    /** scull_c_open. */
    method Open(tty: Option<Key>, writeOnly: bool, memory: Kernel.Memory, quantum: nat, qset: nat)
      returns (e: Option<Errno>, dev: Device?)
      requires Valid() && GeometryOk(quantum, qset)
      modifies this, heap, Devices()
      ensures Valid()
      ensures e.None? ==> tty.Some? && dev != null && Entry(tty.value, dev) in list
      ensures e.None? && (writeOnly || old(Absent(tty.value))) ==> dev.St() == Trimmed(quantum, qset)
      ensures tty.None? ==> e == Some(EINVAL)
      ensures tty.Some? ==> e == if old(Absent(tty.value)) && !memory.CanAlloc() then Some(ENOMEM) else None
      ensures e.Some? || !old(Absent(tty.value)) ==> list == old(list)
      ensures e.None? && old(Absent(tty.value)) ==> list == [Entry(tty.value, dev)] + old(list)
      ensures fresh(Devices() - old(Devices()))
      ensures forall o :: o in old(list) && (e.Some? || o.key != tty.value || !writeOnly) ==> o.dev.St() == old(o.dev.St())
    {
      hide Rep, Grows, Sized, Apart, GeometryOk;
      dev := null;
      if tty.None? {
        return Some(EINVAL), null;
      }
      dev := LookFor(tty.value, memory, quantum, qset);
      if dev == null {
        return Some(ENOMEM), null;
      }
      if writeOnly {
        ghost var i :| 0 <= i < |list| && list[i] == Entry(tty.value, dev);
        Trim(dev, i, quantum, qset);
      }
      e := None;
    }

    /** The device a terminal's file points to: the one the list has for its key. */
    method Find(key: Key) returns (dev: Device?, ghost i: nat)
      requires Valid()
      ensures dev == null <==> Absent(key)
      ensures dev != null ==> i < |list| && list[i] == Entry(key, dev)
    {
      i := 0;
      for k := 0 to |list|
        invariant forall k' :: 0 <= k' < k ==> list[k'].key != key
      {
        if list[k].key == key {
          return list[k].dev, k;
        }
      }
      dev := null;
    }

    /** One call by the terminal `k`, seen from the terminal `key`. */
    method Perform(k: Key, c: TtyCall, ghost key: Key, ghost v: Option<Store>) returns (reply: TtyReply)
      requires Valid() && TtyCallOk(c) && Shows(key, v)
      modifies this, heap, Devices()
      ensures Valid() && Shows(key, if k == key then AfterTty(v, c) else v)
      ensures k == key ==> reply == ReplyToTty(v, c)
      ensures fresh(Devices() - old(Devices())) && forall o :: o in old(list) ==> o in list
    {
      hide Rep, Grows, Sized;
      match c
      case OpenCall(writeOnly, memory, quantum, qset) =>
        reply := OpenFor(k, writeOnly, memory, quantum, qset, key, v);
      case DeviceCall(d) =>
        reply := CallFor(k, d, key, v);
    }

    method OpenFor(k: Key, writeOnly: bool, memory: Kernel.Memory, quantum: nat, qset: nat, ghost key: Key, ghost v: Option<Store>)
      returns (reply: TtyReply)
      requires Valid() && GeometryOk(quantum, qset) && Shows(key, v)
      modifies this, heap, Devices()
      ensures Valid() && Shows(key, if k == key then AfterTty(v, OpenCall(writeOnly, memory, quantum, qset)) else v)
      ensures k == key ==> reply == ReplyToTty(v, OpenCall(writeOnly, memory, quantum, qset))
      ensures fresh(Devices() - old(Devices())) && forall o :: o in old(list) ==> o in list
    {
      hide Rep, Grows, Sized, Shows, GeometryOk, Apart, ItemsOk;
      ghost var at := Where(key, v);
      ghost var was := list;
      var e, dev := Open(Some(k), writeOnly, memory, quantum, qset);
      reply := OpenReply(e);
      ghost var v' := if k == key then AfterTty(v, OpenCall(writeOnly, memory, quantum, qset)) else v;
      if v.Some? {
        assert |list| - |was| + at < |list| && list[|list| - |was| + at] == was[at];
        Here(key, v', |list| - |was| + at);
      } else {
        Here(key, v', 0);
      }
    }

    /** A call through one terminal: it does to its own device what the call does, and nothing that
        another terminal could read. */
    method CallOn(dev: Device, ghost i: nat, c: Call) returns (reply: Reply)
      requires Valid() && i < |list| && list[i].dev == dev && CallOk(c)
      modifies heap, dev
      ensures Valid() && OthersUntouched(i)
      ensures Ok(old(dev.St())) && dev.St() == After(old(dev.St()), c) && reply == ReplyTo(old(dev.St()), c)
    {
      hide Rep, Grows, Sized, Apart, ItemsOk, StoreSpec.Write, StoreSpec.Read, Locate, Cut;
      assert list[i].dev.Valid();
      match c
      case ReadCall(pos, count, memory, copied) =>
        var r, pos' := Read(dev, i, pos, count, memory, copied);
        reply := ReadReply(r);
      case WriteCall(pos, data, memory, garbage, junk) =>
        var left := Cut(dev.quantum, dev.qset, pos, data, garbage);
        var r, pos' := Write(dev, i, pos, data, memory, left, junk);
        reply := WriteReply(r);
      case TrimCall(quantum, qset) =>
        DeviceOk(dev);
        Trim(dev, i, quantum, qset);
        reply := NoReply;
    }

    method CallFor(k: Key, c: Call, ghost key: Key, ghost v: Option<Store>) returns (reply: TtyReply)
      requires Valid() && Shows(key, v) && CallOk(c)
      modifies this, heap, Devices()
      ensures Valid() && Shows(key, if k == key then AfterTty(v, DeviceCall(c)) else v) && list == old(list)
      ensures k == key ==> reply == ReplyToTty(v, DeviceCall(c))
    {
      hide Rep, Grows, Sized, Shows, After, ReplyTo;
      ghost var at := Where(key, v);
      var dev, i := Find(k);
      reply := NoDevice;
      if dev != null {
        var r := CallOn(dev, i, c);
        reply := DeviceReply(r);
      }
      Here(key, if k == key then AfterTty(v, DeviceCall(c)) else v, at);
    }

    /** Isolation over whole runs: any terminals make any calls in any order, and what a terminal
        has stored, and what its calls were answered, is what its own calls alone would have left
        and got. Every terminal keeps its device. */
    method Run(calls: seq<(Key, TtyCall)>, ghost key: Key, ghost v: Option<Store>) returns (replies: seq<TtyReply>)
      requires Valid() && Shows(key, v) && forall n :: 0 <= n < |calls| ==> TtyCallOk(calls[n].1)
      modifies this, heap, Devices()
      ensures Valid() && Shows(key, Alone(v, OwnCalls(key, calls)))
      ensures |replies| == |calls| && OwnReplies(key, calls, replies) == RepliesAlone(v, OwnCalls(key, calls))
      ensures forall o :: o in old(list) ==> o in list
    {
      hide Valid, AfterTty, ReplyToTty;
      assert calls[..0] == [];
      replies := [];
      for n := 0 to |calls|
        invariant Valid() && (forall o :: o in old(list) ==> o in list)
        invariant Shows(key, Alone(v, OwnCalls(key, calls[..n])))
        invariant |replies| == n && OwnReplies(key, calls[..n], replies) == RepliesAlone(v, OwnCalls(key, calls[..n]))
        invariant fresh(Devices() - old(Devices()))
      {
        assert calls[..n + 1][..n] == calls[..n];
        var reply := Perform(calls[n].0, calls[n].1, key, Alone(v, OwnCalls(key, calls[..n])));
        assert (replies + [reply])[..n] == replies;
        replies := replies + [reply];
      }
      assert calls[..|calls|] == calls;
    }
  }

  datatype TtyCall =
    | OpenCall(writeOnly: bool, memory: Kernel.Memory, quantum: nat, qset: nat)
    | DeviceCall(c: Call)

  predicate TtyCallOk(c: TtyCall) { if c.OpenCall? then GeometryOk(c.quantum, c.qset) else CallOk(c.c) }

  /** What one call of a terminal does to what it has stored. */
  function AfterTty(v: Option<Store>, c: TtyCall): (v': Option<Store>)
    requires TtyCallOk(c) && (v.Some? ==> Ok(v.value))
    ensures v'.Some? ==> Ok(v'.value)
  {
    match c
    case OpenCall(writeOnly, memory, quantum, qset) =>
      if v.None? && !memory.CanAlloc() then None
      else if v.None? || writeOnly then Some(Trimmed(quantum, qset)) else v
    case DeviceCall(d) =>
      if v.None? then None else Some(After(v.value, d))
  }

  /** The same of several. */
  function Alone(v: Option<Store>, calls: seq<TtyCall>): (v': Option<Store>)
    requires (v.Some? ==> Ok(v.value)) && forall n :: 0 <= n < |calls| ==> TtyCallOk(calls[n])
    ensures v'.Some? ==> Ok(v'.value)
  {
    if calls == [] then v else AfterTty(Alone(v, calls[..|calls| - 1]), calls[|calls| - 1])
  }

  /** The calls of one terminal among those of all. */
  function OwnCalls(key: Key, calls: seq<(Key, TtyCall)>): (own: seq<TtyCall>)
    ensures (forall n :: 0 <= n < |calls| ==> TtyCallOk(calls[n].1)) ==> forall n :: 0 <= n < |own| ==> TtyCallOk(own[n])
  {
    if calls == [] then []
    else
      var before := OwnCalls(key, calls[..|calls| - 1]);
      var (k, c) := calls[|calls| - 1];
      if k == key then before + [c] else before
  }

  datatype TtyReply = OpenReply(e: Option<Errno>) | DeviceReply(r: Reply) | NoDevice

  /** What one call of a terminal is answered, from what it has stored. */
  function ReplyToTty(v: Option<Store>, c: TtyCall): TtyReply
    requires TtyCallOk(c) && (v.Some? ==> Ok(v.value))
  {
    match c
    case OpenCall(_, memory, _, _) => OpenReply(if v.None? && !memory.CanAlloc() then Some(ENOMEM) else None)
    case DeviceCall(d) => if v.None? then NoDevice else DeviceReply(ReplyTo(v.value, d))
  }

  /** The same of several. */
  function RepliesAlone(v: Option<Store>, calls: seq<TtyCall>): seq<TtyReply>
    requires (v.Some? ==> Ok(v.value)) && forall n :: 0 <= n < |calls| ==> TtyCallOk(calls[n])
  {
    if calls == [] then []
    else
      var before := calls[..|calls| - 1];
      RepliesAlone(v, before) + [ReplyToTty(Alone(v, before), calls[|calls| - 1])]
  }

  /** The answers to one terminal among those to all. */
  function OwnReplies(key: Key, calls: seq<(Key, TtyCall)>, replies: seq<TtyReply>): seq<TtyReply>
    requires |calls| == |replies|
  {
    if calls == [] then []
    else
      var last := |calls| - 1;
      OwnReplies(key, calls[..last], replies[..last]) + if calls[last].0 == key then [replies[last]] else []
  }

  lemma DeviceOk(dev: Device)
    requires dev.Valid()
    ensures Ok(dev.St())
  {
    RepItemsOk(dev.heap.cells, dev.image, dev.data, dev.items, dev.quantum, dev.qset);
  }
}
