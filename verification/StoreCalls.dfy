/** The outcome of every call on a scull device, for any amount of memory: which error, how many
    allocations, and what became of the bytes. */
module StoreCalls {
  import opened Kernel
  import opened StoreSpec
  import opened StoreFlat

  // ----- allocations

  function Quanta(slots: Slots): nat {
    if slots == [] then 0
    else Quanta(slots[..|slots| - 1]) + (if slots[|slots| - 1].Some? then 1 else 0)
  }

  function ItemCells(it: Item): nat { if it.None? then 0 else 1 + Quanta(it.value) }

  /** How many objects a device has allocated: list nodes, pointer arrays and quanta. */
  function Cells(items: seq<Item>): nat {
    if items == [] then 0
    else Cells(items[..|items| - 1]) + 1 + ItemCells(items[|items| - 1])
  }

  /** List nodes that are missing up to `item`; for a negative one the head, if there is none. */
  function NeedsNodes(st: Store, item: int): nat {
    if item < 0 then (if st.items == [] then 1 else 0)
    else if item < |st.items| then 0 else item + 1 - |st.items|
  }

  /** What a write at `p` has to allocate. */
  function Needs(st: Store, p: Place): nat {
    NeedsNodes(st, p.item)
      + if p.item < 0 || HasBlock(st.items, p.item, p.s) then 0
        else if p.item < |st.items| && st.items[p.item].Some? then 1 else 2
  }

  predicate Enough(memory: Memory, n: nat) { memory.Ample? || n <= memory.n }

  /** Allocations that succeed when `n` are needed: all of them, or all there is memory for. */
  function Granted(memory: Memory, n: nat): nat { if memory.Ample? || n <= memory.n then n else memory.n }

  lemma {:induction false} NewNodes(items: seq<Item>, k: nat)
    ensures Cells(items + Nones(k)) == Cells(items) + k
  {
    if k == 0 {
      assert items + Nones(0) == items;
    } else {
      NewNodes(items, k - 1);
      assert (items + Nones(k))[..|items| + k - 1] == items + Nones(k - 1);
    }
  }

  lemma {:induction false} OneItemChanged(items: seq<Item>, i: nat, it: Item)
    requires i < |items|
    ensures Cells(items[i := it]) == Cells(items) - ItemCells(items[i]) + ItemCells(it)
  {
    var front := items[..|items| - 1];
    if i < |front| {
      OneItemChanged(front, i, it);
      assert items[i := it][..|items| - 1] == front[i := it];
    } else {
      assert items[i := it][..|items| - 1] == front;
    }
  }

  lemma {:induction false} OneSlotFilled(slots: Slots, j: nat, b: Quantum)
    requires j < |slots| && slots[j].None?
    ensures Quanta(slots[j := Some(b)]) == Quanta(slots) + 1
  {
    var front := slots[..|slots| - 1];
    if j < |front| {
      OneSlotFilled(front, j, b);
      assert slots[j := Some(b)][..|slots| - 1] == front[j := Some(b)];
    } else {
      assert slots[j := Some(b)][..|slots| - 1] == front;
    }
  }

  lemma {:induction false} OneSlotPatched(slots: Slots, j: nat, b: Quantum)
    requires j < |slots| && slots[j].Some?
    ensures Quanta(slots[j := Some(b)]) == Quanta(slots)
  {
    var front := slots[..|slots| - 1];
    if j < |front| {
      OneSlotPatched(front, j, b);
      assert slots[j := Some(b)][..|slots| - 1] == front[j := Some(b)];
    } else {
      assert slots[j := Some(b)][..|slots| - 1] == front;
    }
  }

  lemma {:induction false} NoQuanta(n: nat)
    ensures Quanta(Nones(n)) == 0
  {
    if n > 0 {
      NoQuanta(n - 1);
      assert Nones<Quantum>(n)[..n - 1] == Nones<Quantum>(n - 1);
    }
  }

  lemma TableCounts(items: seq<Item>, i: nat, qset: nat)
    requires i < |items|
    ensures Cells(WithTable(items, i, qset)) == Cells(items) + if items[i].Some? then 0 else 1
  {
    if items[i].None? {
      NoQuanta(qset);
      OneItemChanged(items, i, Some(Nones(qset)));
    }
  }

  lemma BlockCounts(items: seq<Item>, i: nat, s: nat, quantum: nat)
    requires i < |items| && items[i].Some? && s < |items[i].value|
    ensures Cells(WithBlock(items, i, s, quantum)) == Cells(items) + if items[i].value[s].Some? then 0 else 1
  {
    if items[i].value[s].None? {
      OneSlotFilled(items[i].value, s, Zeros(quantum));
      OneItemChanged(items, i, Some(items[i].value[s := Some(Zeros(quantum))]));
    }
  }

  lemma BytesCountNothing(items: seq<Item>, i: nat, s: nat, q: nat, bytes: seq<Byte>)
    requires HasBlock(items, i, s) && q + |bytes| <= |items[i].value[s].value|
    ensures Cells(WithBytes(items, i, s, q, bytes)) == Cells(items)
  {
    var b := Patched(items[i].value[s].value, q, bytes);
    OneSlotPatched(items[i].value, s, b);
    OneItemChanged(items, i, Some(items[i].value[s := Some(b)]));
  }

  lemma FollowCounts(st: Store, item: int, memory: Memory)
    ensures Cells(Followed(st.items, item, memory)) == Cells(st.items) + Granted(memory, NeedsNodes(st, item))
    ensures Found(|st.items|, item, memory) <==> item >= 0 && Enough(memory, NeedsNodes(st, item))
  {
    NewNodes(st.items, Made(|st.items|, item, memory));
  }

  /** The allocations of a write, in their order, succeed as long as memory lasts: it gets through
      exactly if there is enough for all it needs, and otherwise it has used up what there was. */
  lemma PrepareCounts(st: Store, p: Place, memory: Memory)
    requires Ok(st) && p.s < st.qset
    ensures var (items, ok) := Prepare(st, p, memory);
      && (ok <==> p.item >= 0 && Enough(memory, Needs(st, p)))
      && Cells(items) == Cells(st.items) + Granted(memory, Needs(st, p))
  {
    hide Cells;
    FollowCounts(st, p.item, memory);
    if Found(|st.items|, p.item, memory) {
      var items1 := Followed(st.items, p.item, memory);
      TableCounts(items1, p.item, st.qset);
      var items2 := WithTable(items1, p.item, st.qset);
      BlockCounts(items2, p.item, p.s, st.quantum);
    }
  }

  /** Every write, for any memory and any fault: -ENOMEM exactly if its item number is negative or
      there is less memory than it needs, -EFAULT exactly if it gets to a copy that faults. It
      makes all the allocations it needs, or all that memory allows. */
  lemma WriteOutcome(st: Store, pos: nat, data: seq<Byte>, memory: Memory, garbage: Option<seq<Byte>>)
    requires Ok(st) && (garbage.Some? ==> |garbage.value| <= WriteLen(st, pos, |data|))
    ensures var p := Locate(pos, st.quantum, st.qset);
      var (st', r) := Write(st, pos, data, memory, garbage);
      && (r == Failed(ENOMEM) <==> p.item < 0 || !Enough(memory, Needs(st, p)))
      && (r == Failed(EFAULT) <==> p.item >= 0 && Enough(memory, Needs(st, p)) && garbage.Some?)
      && (r.Moved? || r == Failed(ENOMEM) || r == Failed(EFAULT))
      && Cells(st'.items) == Cells(st.items) + Granted(memory, Needs(st, p))
  {
    hide Prepare, Cells, Enough, Granted, Needs, Locate;
    var p := Locate(pos, st.quantum, st.qset);
    PrepareCounts(st, p, memory);
    var (items, ok) := Prepare(st, p, memory);
    if ok {
      BytesCountNothing(items, p.item, p.s, p.q,
        if garbage.Some? then garbage.value else data[..WriteLen(st, pos, |data|)]);
    }
  }

  /** Every read: -EFAULT exactly if there is a byte at its position and the copy faults. It allocates
      list nodes only, up to its item, and none at the end of the device. */
  lemma ReadOutcome(st: Store, pos: nat, count: nat, memory: Memory, copied: bool)
    requires Ok(st)
    ensures var p := Locate(pos, st.quantum, st.qset);
      var start := Canon(pos, st.quantum, st.qset);
      var (st', r) := Read(st, pos, count, memory, copied);
      && (r.ReadFailed? <==> !copied && pos < st.size && start >= 0 && ByteAt(st, start).Some?)
      && (r.ReadFailed? ==> r.e == EFAULT)
      && Cells(st'.items) == Cells(st.items) + if pos < st.size then Granted(memory, NeedsNodes(st, p.item)) else 0
  {
    var p := Locate(pos, st.quantum, st.qset);
    FollowCounts(st, p.item, memory);
    ByteThereIff(st, pos);
    FoundWhereByteIs(st, p, memory);
    hide ByteAt, Locate, Canon, Cells, Granted, Found, Made, GeometryOk, ItemsOk, HasBlock;
  }

  /** A position has a byte exactly if its place has a quantum. */
  lemma ByteThereIff(st: Store, pos: nat)
    requires Ok(st)
    ensures var p, start := Locate(pos, st.quantum, st.qset), Canon(pos, st.quantum, st.qset);
      start >= 0 && ByteAt(st, start).Some? <==> HasBlock(st.items, p.item, p.s)
  {
    var p := Locate(pos, st.quantum, st.qset);
    if p.item >= 0 {
      CanonAddress(pos, st.quantum, st.qset);
    } else {
      NegativeAddress(p.item, p.s, p.q, st.quantum, st.qset);
    }
  }

  lemma NegativeAddress(item: int, s: nat, q: nat, quantum: nat, qset: nat)
    requires item < 0 && s < qset && q < quantum
    ensures (item * qset + s) * quantum + q < 0
  {
    MulMonotone(qset, item, -1);
    MulMonotone(quantum, item * qset + s, -1);
  }

  lemma FoundWhereByteIs(st: Store, p: Place, memory: Memory)
    requires Ok(st)
    ensures var items := Followed(st.items, p.item, memory);
      Found(|st.items|, p.item, memory) && items[p.item].Some? && p.s < |items[p.item].value| && items[p.item].value[p.s].Some?
      <==> HasBlock(st.items, p.item, p.s)
  {
  }

  // ----- what a call leaves

  /** Nothing stored anywhere. */
  ghost predicate Blank(st: Store)
    requires st.quantum > 0 && st.qset > 0
  {
    st.size == 0 && forall off: nat :: ByteAt(st, off).None?
  }

  /** What a call does to the bytes of the device, the size and the geometry, for every call:
      a read changes none of them; a write stores and reports the head of its data, as much as the
      quantum has room for, where its position leads, or leaves there what a faulting copy did, or,
      out of memory or of item numbers, does nothing; a trim clears the device and gives it a
      geometry. */
  lemma CallIsExact(st: Store, c: Call)
    requires Ok(st) && CallOk(c)
    ensures var st' := After(st, c);
      if c.TrimCall? then Blank(st') && st'.quantum == c.quantum && st'.qset == c.qset
      else
        && st'.quantum == st.quantum && st'.qset == st.qset
        && if c.ReadCall? then SameBytes(st, st') && st'.size == st.size else WriteLeaves(st, c, st')
  {
    hide Write, Read, ByteAt, Locate, Canon, Needs;
    match c
    case ReadCall(pos, count, memory, copied) => ReadIsPure(st, pos, count, memory, copied);
    case WriteCall(_, _, _, _, _) => WriteCallLeaves(st, c);
    case TrimCall(quantum, qset) => TrimmedIsBlank(quantum, qset);
  }

  lemma WriteCallLeaves(st: Store, c: Call)
    requires Ok(st) && c.WriteCall?
    ensures After(st, c).quantum == st.quantum && After(st, c).qset == st.qset && WriteLeaves(st, c, After(st, c))
  {
    var g := Cut(st.quantum, st.qset, c.pos, c.data, c.garbage);
    CutFits(st, c.pos, c.data, c.garbage);
    WriteOutcome(st, c.pos, c.data, c.memory, g);
    WriteLenFills(st, c.pos, |c.data|);
    hide Write, ByteAt, Locate, Canon, Needs, Enough, WriteLen, Overwrites;
    var r := Write(st, c.pos, c.data, c.memory, g).1;
    if r == Failed(ENOMEM) {
      FailedAllocationChangesNothing(st, c.pos, c.data, c.memory, g);
    } else if g.None? {
      WriteIsExact(st, c.pos, c.data, c.memory);
    } else {
      FaultingWriteIsConfined(st, c.pos, c.data, c.memory, g.value);
      assert c.garbage.value[..|g.value|] == g.value;
    }
  }

  lemma TrimmedIsBlank(quantum: nat, qset: nat)
    requires GeometryOk(quantum, qset)
    ensures Blank(Trimmed(quantum, qset))
  {
  }

  /** What a fault leaves behind is never more than the call was to write. */
  lemma CutFits(st: Store, pos: nat, data: seq<Byte>, garbage: Option<seq<Byte>>)
    requires st.quantum > 0 && st.qset > 0
    ensures var g := Cut(st.quantum, st.qset, pos, data, garbage);
      && (g.Some? <==> garbage.Some?)
      && (g.Some? ==> g.value <= garbage.value && |g.value| == Min(|garbage.value|, WriteLen(st, pos, |data|)))
  {
  }

  /** The three ways a write can end. */
  ghost predicate WriteLeaves(st: Store, c: Call, st': Store)
    requires Ok(st) && c.WriteCall? && st'.quantum == st.quantum && st'.qset == st.qset
  {
    var p := Locate(c.pos, st.quantum, st.qset);
    var start := Canon(c.pos, st.quantum, st.qset);
    if p.item < 0 || !Enough(c.memory, Needs(st, p)) then
      SameBytes(st, st') && st'.size == st.size && ReplyTo(st, c) == WriteReply(Failed(ENOMEM))
    else if c.garbage.None? then
      start >= 0 && exists n: nat ::
        && FillsQuantum(c.pos, |c.data|, n, st.quantum) && ReplyTo(st, c) == WriteReply(Moved(n))
        && st'.size == st.size + n && Overwrites(st, st', start, c.data[..n])
    else
      start >= 0 && ReplyTo(st, c) == WriteReply(Failed(EFAULT)) && exists n: nat ::
        && n <= |c.garbage.value| && n <= |c.data| && c.pos % st.quantum + n <= st.quantum
        && (n == |c.garbage.value| || FillsQuantum(c.pos, |c.data|, n, st.quantum))
        && st'.size == st.size && Overwrites(st, st', start, c.garbage.value[..n])
  }
}
