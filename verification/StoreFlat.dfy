/** The sparse store as a flat partial map from offsets to bytes. */
module StoreFlat {
  import opened Kernel
  import opened StoreSpec

  // ----- the reference view: quanta numbered from 0, offset = number * quantum + index

  function SlotAt(items: seq<Item>, i: nat, s: nat): Option<Quantum> {
    if i < |items| && items[i].Some? && s < |items[i].value| then items[i].value[s] else None
  }

  /** How many whole times `d` goes into `x`, and what is left: counted off one by one. */
  function Quot(x: nat, d: nat): nat
    requires d > 0
  {
    if x < d then 0 else 1 + Quot(x - d, d)
  }

  function Rem(x: nat, d: nat): (r: nat)
    requires d > 0
    ensures r < d
  {
    if x < d then x else Rem(x - d, d)
  }

  function QuantumAt(items: seq<Item>, qset: nat, k: nat): Option<Quantum>
    requires qset > 0
  {
    SlotAt(items, Quot(k, qset), Rem(k, qset))
  }

  function ByteAt(st: Store, off: nat): Option<Byte>
    requires st.quantum > 0 && st.qset > 0
  {
    var block := QuantumAt(st.items, st.qset, Quot(off, st.quantum));
    var q := Rem(off, st.quantum);
    if block.Some? && q < |block.value| then Some(block.value[q]) else None
  }

  /** The same bytes at every offset. */
  ghost predicate SameBytes(st: Store, st': Store) {
    && st.quantum > 0 && st.qset > 0 && st'.quantum > 0 && st'.qset > 0
    && forall off: nat :: ByteAt(st', off) == ByteAt(st, off)
  }

  // ----- arithmetic

  lemma DivModUnique(x: int, d: int, quot: int, rem: int)
    requires d > 0 && 0 <= rem < d && x == quot * d + rem
    ensures x / d == quot && x % d == rem
  {
    var e := x / d - quot;
    assert x == d * (x / d) + x % d;
    assert e * d == rem - x % d;
    MulBound(e, d);
  }

  lemma MulBound(e: int, d: int)
    requires d > 0
    ensures e > 0 ==> e * d >= d
    ensures e < 0 ==> e * d <= -d
    ensures e == 0 ==> e * d == 0
  {
  }

  lemma Distribute(i: int, s: int, quantum: int, qset: int)
    ensures (i * qset + s) * quantum == i * (quantum * qset) + s * quantum
  {
    assert (i * qset) * quantum == i * (quantum * qset);
  }

  lemma RestBound(s: nat, q: nat, quantum: nat, qset: nat)
    requires s < qset && q < quantum
    ensures 0 <= s * quantum + q < quantum * qset
  {
    assert (s + 1) * quantum <= qset * quantum by { MulMonotone(quantum, s + 1, qset); }
  }

  lemma {:induction false} QuotRemIsDivMod(x: nat, d: nat)
    requires d > 0
    ensures Quot(x, d) == x / d && Rem(x, d) == x % d
  {
    if x >= d {
      QuotRemIsDivMod(x - d, d);
      DivModUnique(x, d, (x - d) / d + 1, (x - d) % d);
    } else {
      DivModUnique(x, d, 0, x);
    }
  }

  /** Dividing by quantum*qset is dividing by quantum, then by qset. */
  lemma TwoLevels(pos: nat, quantum: nat, qset: nat)
    requires quantum > 0 && qset > 0
    ensures quantum * qset > 0
    ensures pos / (quantum * qset) == (pos / quantum) / qset
    ensures (pos % (quantum * qset)) / quantum == (pos / quantum) % qset
    ensures (pos % (quantum * qset)) % quantum == pos % quantum
  {
    var k, q := pos / quantum, pos % quantum;
    var i, s := k / qset, k % qset;
    RestBound(s, q, quantum, qset);
    Distribute(i, s, quantum, qset);
    DivModUnique(pos, quantum * qset, i, s * quantum + q);
    DivModUnique(s * quantum + q, quantum, s, q);
  }

  /** The offset a position really addresses, once `item` has been truncated to an `int`. */
  function Canon(pos: nat, quantum: nat, qset: nat): int
    requires quantum > 0 && qset > 0
  {
    var p := Locate(pos, quantum, qset);
    (p.item * qset + p.s) * quantum + p.q
  }

  lemma Reassemble(pos: nat, quantum: nat, qset: nat)
    requires quantum > 0 && qset > 0
    ensures pos / quantum / qset >= 0
    ensures pos == (pos / quantum / qset * qset + pos / quantum % qset) * quantum + pos % quantum
  {
    var k := pos / quantum;
    assert k >= 0;
    assert k == k / qset * qset + k % qset;
  }

  lemma OnlySameItem(i: int, i': int, s: nat, q: nat, quantum: nat, qset: nat)
    requires quantum > 0 && qset > 0
    ensures (i * qset + s) * quantum + q == (i' * qset + s) * quantum + q <==> i == i'
  {
    if i != i' {
      MulDiff(i, i', qset);
      MulDiff(i * qset + s, i' * qset + s, quantum);
      NonZeroProduct(i - i', qset);
      NonZeroProduct((i - i') * qset, quantum);
    }
  }

  /** The position is addressed exactly when its item number is an `int`. */
  lemma CanonIsIdentityIff(pos: nat, quantum: nat, qset: nat)
    requires quantum > 0 && qset > 0
    ensures Canon(pos, quantum, qset) == pos <==> pos / quantum / qset < TWO31
  {
    TwoLevels(pos, quantum, qset);
    Reassemble(pos, quantum, qset);
    var i := pos / quantum / qset;
    OnlySameItem(Int32(i), i, pos / quantum % qset, pos % quantum, quantum, qset);
  }

  lemma MulDiff(a: int, b: int, c: int)
    ensures a * c - b * c == (a - b) * c
  {
  }

  lemma NonZeroProduct(a: int, b: int)
    requires a != 0 && b != 0
    ensures a * b != 0
  {
  }

  /** (item, s_pos, q_pos) determines the offset and the offset determines it. */
  lemma LocateBijective(pos: nat, pos': nat, quantum: nat, qset: nat)
    requires quantum > 0 && qset > 0
    requires pos / quantum / qset < TWO31 && pos' / quantum / qset < TWO31
    ensures Locate(pos, quantum, qset) == Locate(pos', quantum, qset) <==> pos == pos'
  {
    CanonIsIdentityIff(pos, quantum, qset);
    CanonIsIdentityIff(pos', quantum, qset);
  }

  /** Beyond 2^32 items two different positions address the same byte. */
  lemma FarPositionsAlias(pos: nat, quantum: nat, qset: nat)
    requires quantum > 0 && qset > 0
    ensures Locate(pos + TWO32 * (quantum * qset), quantum, qset) == Locate(pos, quantum, qset)
  {
    MulPositive(quantum, qset);
    var d := quantum * qset;
    var far := pos + TWO32 * d;
    assert far == (pos / d + TWO32) * d + pos % d by {
      assert pos == (pos / d) * d + pos % d;
      assert (pos / d + TWO32) * d == (pos / d) * d + TWO32 * d;
    }
    DivModUnique(far, d, pos / d + TWO32, pos % d);
  }

  // ----- what each stage does to the quanta

  lemma FollowKeepsSlots(items: seq<Item>, item: int, memory: Memory, i: nat, s: nat)
    ensures SlotAt(Followed(items, item, memory), i, s) == SlotAt(items, i, s)
  {
  }

  lemma BlockAddsOne(items: seq<Item>, i0: nat, s0: nat, quantum: nat, i: nat, s: nat)
    requires i0 < |items| && items[i0].Some? && s0 < |items[i0].value|
    ensures SlotAt(WithBlock(items, i0, s0, quantum), i, s)
         == if i == i0 && s == s0 && SlotAt(items, i, s).None? then Some(Zeros(quantum)) else SlotAt(items, i, s)
  {
  }

  lemma BytesChangeOne(items: seq<Item>, i0: nat, s0: nat, q: nat, bytes: seq<Byte>, i: nat, s: nat)
    requires i0 < |items| && items[i0].Some? && s0 < |items[i0].value|
    requires items[i0].value[s0].Some? && q + |bytes| <= |items[i0].value[s0].value|
    ensures SlotAt(WithBytes(items, i0, s0, q, bytes), i, s)
         == if i == i0 && s == s0 then Some(Patched(items[i0].value[s0].value, q, bytes)) else SlotAt(items, i, s)
  {
  }

  /** The list just before the copy of a write: node, pointer array and quantum all exist. */
  function Prepared(st: Store, p: Place, memory: Memory): (items: seq<Item>)
    requires Ok(st) && Found(|st.items|, p.item, memory) && p.s < st.qset
    ensures ItemsOk(items, st.quantum, st.qset)
    ensures p.item < |items| && items[p.item].Some? && items[p.item].value[p.s].Some?
  {
    WithBlock(WithTable(Followed(st.items, p.item, memory), p.item, st.qset), p.item, p.s, st.quantum)
  }

  /** What the quantum at a place holds, or would hold freshly allocated. */
  function OrZeros(st: Store, i: nat, s: nat): (block: Quantum)
    requires Ok(st)
    ensures |block| == st.quantum
  {
    if SlotAt(st.items, i, s).Some? then SlotAt(st.items, i, s).value else Zeros(st.quantum)
  }

  /** All that a call which reached the copy did, slot by slot. */
  lemma CopyChangesOneSlot(st: Store, p: Place, memory: Memory, bytes: seq<Byte>, i: nat, s: nat)
    requires Ok(st) && Found(|st.items|, p.item, memory) && p.s < st.qset && p.q + |bytes| <= st.quantum
    ensures SlotAt(WithBytes(Prepared(st, p, memory), p.item, p.s, p.q, bytes), i, s)
         == if i == p.item && s == p.s then Some(Patched(OrZeros(st, i, s), p.q, bytes)) else SlotAt(st.items, i, s)
  {
    var items1 := Followed(st.items, p.item, memory);
    var items2 := WithTable(items1, p.item, st.qset);
    FollowKeepsSlots(st.items, p.item, memory, i, s);
    assert SlotAt(items2, i, s) == SlotAt(items1, i, s);
    BlockAddsOne(items2, p.item, p.s, st.quantum, i, s);
    BytesChangeOne(Prepared(st, p, memory), p.item, p.s, p.q, bytes, i, s);
  }

  // ----- the flat map after each call

  /** The flat map with `bytes` at `start` and a newly allocated quantum around them zeroed. */
  ghost predicate Overwrites(st: Store, st': Store, start: nat, bytes: seq<Byte>)
    requires st.quantum > 0 && st.qset > 0 && st'.quantum > 0 && st'.qset > 0
  {
    forall off: nat :: OverwritesAt(st, st', start, bytes, off)
  }

  /** Offsets start.. within one quantum are the indices q.. of that quantum. */
  lemma {:induction false} WithinQuantum(start: nat, n: nat, quantum: nat, off: nat)
    requires quantum > 0 && Rem(start, quantum) + n <= quantum
    ensures start <= off < start + n <==>
            Quot(off, quantum) == Quot(start, quantum) && Rem(start, quantum) <= Rem(off, quantum) < Rem(start, quantum) + n
    ensures Quot(off, quantum) == Quot(start, quantum) ==> Rem(off, quantum) - Rem(start, quantum) == off - start
  {
    if start >= quantum && off >= quantum {
      WithinQuantum(start - quantum, n, quantum, off - quantum);
    }
  }

  predicate AddressOf(p: Place, start: nat, quantum: nat, qset: nat)
    requires quantum > 0 && qset > 0
  {
    && Quot(Quot(start, quantum), qset) == p.item && Rem(Quot(start, quantum), qset) == p.s
    && Rem(start, quantum) == p.q
  }

  /** One byte of the quantum that was written to. */
  lemma PatchCase(was: Option<Quantum>, quantum: nat, q: nat, bytes: seq<Byte>, j: nat)
    requires q + |bytes| <= quantum && j < quantum && (was.Some? ==> |was.value| == quantum)
    ensures Patched(if was.Some? then was.value else Zeros(quantum), q, bytes)[j]
         == if q <= j < q + |bytes| then bytes[j - q] else if was.None? then 0 else was.value[j]
  {
  }

  /** The flat map after the copy, at one offset. */
  predicate OverwritesAt(st: Store, st': Store, start: nat, bytes: seq<Byte>, off: nat)
    requires st.quantum > 0 && st.qset > 0 && st'.quantum > 0 && st'.qset > 0
  {
    ByteAt(st', off) ==
      if start <= off < start + |bytes| then Some(bytes[off - start])
      else if ByteAt(st, off).None? && Quot(off, st.quantum) == Quot(start, st.quantum) then Some(0)
      else ByteAt(st, off)
  }

  lemma ByteInside(st: Store, st': Store, p: Place, start: nat, bytes: seq<Byte>, off: nat)
    requires Ok(st) && st'.quantum == st.quantum && st'.qset == st.qset
    requires p.item >= 0 && AddressOf(p, start, st.quantum, st.qset) && p.q + |bytes| <= st.quantum
    requires Quot(off, st.quantum) == Quot(start, st.quantum)
    requires SlotAt(st'.items, p.item, p.s) == Some(Patched(OrZeros(st, p.item, p.s), p.q, bytes))
    ensures OverwritesAt(st, st', start, bytes, off)
  {
    WithinQuantum(start, |bytes|, st.quantum, off);
    PatchCase(SlotAt(st.items, p.item, p.s), st.quantum, p.q, bytes, Rem(off, st.quantum));
  }

  lemma ByteOutside(st: Store, st': Store, p: Place, start: nat, bytes: seq<Byte>, off: nat)
    requires Ok(st) && st'.quantum == st.quantum && st'.qset == st.qset
    requires AddressOf(p, start, st.quantum, st.qset) && p.q + |bytes| <= st.quantum
    requires Quot(off, st.quantum) != Quot(start, st.quantum)
    requires QuantumAt(st'.items, st.qset, Quot(off, st.quantum)) == QuantumAt(st.items, st.qset, Quot(off, st.quantum))
    ensures OverwritesAt(st, st', start, bytes, off)
  {
    WithinQuantum(start, |bytes|, st.quantum, off);
  }

  lemma {:induction false} SameQuantumIff(k: nat, k0: nat, qset: nat)
    requires qset > 0
    ensures k == k0 <==> Quot(k, qset) == Quot(k0, qset) && Rem(k, qset) == Rem(k0, qset)
  {
    if k >= qset && k0 >= qset {
      SameQuantumIff(k - qset, k0 - qset, qset);
    }
  }

  lemma CopyOverwritesAt(st: Store, p: Place, memory: Memory, bytes: seq<Byte>, st': Store, start: nat, off: nat)
    requires Ok(st) && Found(|st.items|, p.item, memory) && p.s < st.qset && p.q + |bytes| <= st.quantum
    requires st'.quantum == st.quantum && st'.qset == st.qset
    requires st'.items == WithBytes(Prepared(st, p, memory), p.item, p.s, p.q, bytes)
    requires AddressOf(p, start, st.quantum, st.qset)
    ensures OverwritesAt(st, st', start, bytes, off)
  {
    var k := Quot(off, st.quantum);
    SameQuantumIff(k, Quot(start, st.quantum), st.qset);
    CopyChangesOneSlot(st, p, memory, bytes, Quot(k, st.qset), Rem(k, st.qset));
    if k == Quot(start, st.quantum) {
      ByteInside(st, st', p, start, bytes, off);
    } else {
      ByteOutside(st, st', p, start, bytes, off);
    }
  }

  lemma CopyOverwrites(st: Store, p: Place, memory: Memory, bytes: seq<Byte>, st': Store, start: nat)
    requires Ok(st) && Found(|st.items|, p.item, memory) && p.s < st.qset && p.q + |bytes| <= st.quantum
    requires st'.quantum == st.quantum && st'.qset == st.qset
    requires st'.items == WithBytes(Prepared(st, p, memory), p.item, p.s, p.q, bytes)
    requires AddressOf(p, start, st.quantum, st.qset)
    ensures Overwrites(st, st', start, bytes)
  {
    forall off: nat
      ensures OverwritesAt(st, st', start, bytes, off)
    {
      CopyOverwritesAt(st, p, memory, bytes, st', start, off);
    }
  }

  lemma CanonAddress(pos: nat, quantum: nat, qset: nat)
    requires quantum > 0 && qset > 0 && Locate(pos, quantum, qset).item >= 0
    ensures Canon(pos, quantum, qset) >= 0
    ensures AddressOf(Locate(pos, quantum, qset), Canon(pos, quantum, qset), quantum, qset)
  {
    var p := Locate(pos, quantum, qset);
    var k := p.item * qset + p.s;
    DivModUnique(k, qset, p.item, p.s);
    DivModUnique(k * quantum + p.q, quantum, k, p.q);
    QuotRemIsDivMod(k, qset);
    QuotRemIsDivMod(k * quantum + p.q, quantum);
  }

  // ----- the calls

  /** `n` bytes from `pos` on are as many of `count` as the quantum of `pos` has room for: they end
      in it, and short of `count` only at its end. */
  predicate FillsQuantum(pos: nat, count: nat, n: nat, quantum: nat)
    requires quantum > 0
  {
    && n <= count && pos % quantum + n <= quantum
    && (n == count || (pos + n) % quantum == 0)
    && (count > 0 ==> n > 0)
  }

  lemma WriteLenFills(st: Store, pos: nat, count: nat)
    requires st.quantum > 0 && st.qset > 0
    ensures FillsQuantum(pos, count, WriteLen(st, pos, count), st.quantum)
  {
    TwoLevels(pos, st.quantum, st.qset);
    var n := WriteLen(st, pos, count);
    if pos % st.quantum + n == st.quantum {
      var k := pos / st.quantum;
      assert pos == k * st.quantum + pos % st.quantum;
      assert pos + n == (k + 1) * st.quantum;
      DivModUnique(pos + n, st.quantum, k + 1, 0);
    }
  }

  /** A successful write accepts all the data, or else all that its quantum has room for; it stores
      exactly the accepted bytes at the position it addresses, zeroes the rest of a quantum it had
      to allocate, and touches no other offset. */
  lemma WriteIsExact(st: Store, pos: nat, data: seq<Byte>, memory: Memory)
    requires Ok(st) && Write(st, pos, data, memory, None).1.Moved?
    ensures var (st', r) := Write(st, pos, data, memory, None);
      var start := Canon(pos, st.quantum, st.qset);
      && start >= 0
      && r.n == WriteLen(st, pos, |data|) && FillsQuantum(pos, |data|, r.n, st.quantum)
      && st'.size == st.size + r.n
      && Overwrites(st, st', start, data[..r.n])
  {
    var p := Locate(pos, st.quantum, st.qset);
    var (st', r) := Write(st, pos, data, memory, None);
    WriteLenFills(st, pos, |data|);
    CanonAddress(pos, st.quantum, st.qset);
    assert st'.items == WithBytes(Prepared(st, p, memory), p.item, p.s, p.q, data[..r.n]);
    CopyOverwrites(st, p, memory, data[..r.n], st', Canon(pos, st.quantum, st.qset));
  }

  /** A write whose copy faults may spoil the bytes it was to replace, and nothing else; the
      size stays. */
  lemma FaultingWriteIsConfined(st: Store, pos: nat, data: seq<Byte>, memory: Memory, garbage: seq<Byte>)
    requires Ok(st) && |garbage| <= WriteLen(st, pos, |data|)
    requires Write(st, pos, data, memory, Some(garbage)).1 == Failed(EFAULT)
    ensures var st' := Write(st, pos, data, memory, Some(garbage)).0;
      var start := Canon(pos, st.quantum, st.qset);
      start >= 0 && st'.size == st.size && Overwrites(st, st', start, garbage)
  {
    var p := Locate(pos, st.quantum, st.qset);
    var st' := Write(st, pos, data, memory, Some(garbage)).0;
    CanonAddress(pos, st.quantum, st.qset);
    assert st'.items == WithBytes(Prepared(st, p, memory), p.item, p.s, p.q, garbage);
    CopyOverwrites(st, p, memory, garbage, st', Canon(pos, st.quantum, st.qset));
  }

  lemma SameSlotsSameBytes(st: Store, st': Store)
    requires Ok(st) && st'.quantum == st.quantum && st'.qset == st.qset
    requires forall i: nat, s: nat :: SlotAt(st'.items, i, s) == SlotAt(st.items, i, s)
    ensures SameBytes(st, st')
  {
    forall off: nat
      ensures ByteAt(st', off) == ByteAt(st, off)
    {
      var k := Quot(off, st.quantum);
      var i, s := Quot(k, st.qset), Rem(k, st.qset);
      assert SlotAt(st'.items, i, s) == SlotAt(st.items, i, s);
    }
  }

  /** Running out of memory, wherever it happens, changes no byte and no size. */
  lemma FailedAllocationChangesNothing(st: Store, pos: nat, data: seq<Byte>, memory: Memory, garbage: Option<seq<Byte>>)
    requires Ok(st) && (garbage.Some? ==> |garbage.value| <= WriteLen(st, pos, |data|))
    requires Write(st, pos, data, memory, garbage).1 == Failed(ENOMEM)
    ensures SameBytes(st, Write(st, pos, data, memory, garbage).0)
    ensures Write(st, pos, data, memory, garbage).0.size == st.size
  {
    SameSlotsSameBytes(st, Write(st, pos, data, memory, garbage).0);
  }

  /** With memory to spare and no fault, a write fails exactly beyond the `int` range of items. */
  lemma WriteSucceedsIff(st: Store, pos: nat, data: seq<Byte>)
    requires Ok(st)
    ensures Write(st, pos, data, Ample, None).1.Moved? <==> Locate(pos, st.quantum, st.qset).item >= 0
    ensures pos / st.quantum / st.qset < TWO31 ==> Locate(pos, st.quantum, st.qset).item >= 0
  {
    TwoLevels(pos, st.quantum, st.qset);
    Reassemble(pos, st.quantum, st.qset);
  }

  /** The first `n` bytes stored from `start` on. */
  ghost predicate Slice(st: Store, start: nat, bytes: seq<Byte>)
    requires st.quantum > 0 && st.qset > 0
  {
    forall j :: 0 <= j < |bytes| ==> ByteAt(st, start + j) == Some(bytes[j])
  }

  /** Reading changes no byte, no size and no geometry, even when it adds list nodes; and it
      delivers the flat map's slice, cut at the size and at the end of the quantum. It delivers
      nothing exactly when asked for nothing, at the end, on a hole or out of memory for nodes. */
  lemma ReadIsPure(st: Store, pos: nat, count: nat, memory: Memory, copied: bool)
    requires Ok(st)
    ensures var (st', r) := Read(st, pos, count, memory, copied);
      && SameBytes(st, st') && st'.size == st.size && st.items <= st'.items
      && (r.Got? ==>
          var start := Canon(pos, st.quantum, st.qset);
          && (r.bytes != [] ==>
              && pos < st.size && start >= 0 && Slice(st, start, r.bytes)
              && |r.bytes| == Min(Min(count, st.size - pos), st.quantum - pos % st.quantum))
          && (r.bytes == [] <==>
              || count == 0 || pos >= st.size
              || !Found(|st.items|, Locate(pos, st.quantum, st.qset).item, memory)
              || start < 0 || ByteAt(st, start).None?))
      && (r.ReadFailed? ==> !copied && r.e == EFAULT)
  {
    var (st', r) := Read(st, pos, count, memory, copied);
    assert forall i: nat, s: nat :: SlotAt(st'.items, i, s) == SlotAt(st.items, i, s);
    SameSlotsSameBytes(st, st');
    TwoLevels(pos, st.quantum, st.qset);
    var p := Locate(pos, st.quantum, st.qset);
    if pos < st.size && Found(|st.items|, p.item, memory) {
      CanonAddress(pos, st.quantum, st.qset);
      var start := Canon(pos, st.quantum, st.qset);
      if SlotAt(st.items, p.item, p.s).Some? && copied {
        ReadSlice(st, p, start, r.bytes);
      }
    }
  }

  lemma ReadSlice(st: Store, p: Place, start: nat, bytes: seq<Byte>)
    requires Ok(st) && p.item >= 0 && AddressOf(p, start, st.quantum, st.qset) && p.q + |bytes| <= st.quantum
    requires SlotAt(st.items, p.item, p.s).Some?
    requires |SlotAt(st.items, p.item, p.s).value| == st.quantum
    requires bytes == SlotAt(st.items, p.item, p.s).value[p.q .. p.q + |bytes|]
    ensures Slice(st, start, bytes)
    ensures ByteAt(st, start).Some?
  {
    forall j | 0 <= j < |bytes|
      ensures ByteAt(st, start + j) == Some(bytes[j])
    {
      WithinQuantum(start, |bytes|, st.quantum, start + j);
    }
  }

  // ----- the first write after a trim

  lemma FirstPlace(quantum: nat, qset: nat)
    requires GeometryOk(quantum, qset)
    ensures Locate(0, quantum, qset) == Place(0, 0, 0)
  {
    MulPositive(quantum, qset);
    DivModUnique(0, quantum * qset, 0, 0);
    DivModUnique(0, quantum, 0, 0);
  }

  lemma FirstWriteAllocates(quantum: nat, qset: nat)
    requires GeometryOk(quantum, qset)
    ensures Allocates(Trimmed(quantum, qset), Locate(0, quantum, qset), Ample)
  {
    FirstPlace(quantum, qset);
  }
}
