/** Whole runs on one device: any number of file handles, reads, writes, opens that trim, and
    ioctl changes of the global geometry. */
module StoreRuns {
  import opened Kernel
  import opened StoreSpec
  import opened StoreFlat
  import opened StoreDevice

  type Hid = nat

  datatype Action =
    | Open(h: Hid, writeOnly: bool)
    | Close(h: Hid)
    | ReadBy(h: Hid, count: nat, memory: Memory, copied: bool)
    | WriteBy(h: Hid, data: seq<Byte>, memory: Memory, garbage: Option<seq<Byte>>)
    | Ioctl(quantum: nat, qset: nat)

  datatype Geometry = Geometry(quantum: nat, qset: nat)

  /** Item number and index in the pointer array. */
  type Slot = (int, nat)

  /** First offset and length of a write. */
  type Extent = (int, nat)

  datatype State = State(
    kind: Kind,
    st: Store,
    lens: map<Slot, nat>,     // bytes the allocator gave to each block
    overran: bool,            // some access has passed the end of its block
    global: Geometry,         // scull_quantum and scull_qset_n
    pos: map<Hid, nat>,       // f_pos of the open handles
    recent: set<Hid>,         // handles opened since the last trim
    sum: nat,                 // bytes accepted by writes since the last trim
    written: seq<Extent>)     // where writes of recent handles stored

  predicate Defined(g: Geometry) { GeometryOk(g.quantum, g.qset) }

  /** A device as its module sets it up. For scullp its geometry is not the global one. */
  function Init(kind: Kind, dev: Geometry, global: Geometry): (s: State)
    requires Defined(dev) && Defined(global)
    ensures Inv(s)
  {
    State(kind, Trimmed(dev.quantum, dev.qset), map[], false, global, map[], {}, 0, [])
  }

  /** An access to the first `upTo` bytes of a block passes its end. */
  predicate Passes(lens: map<Slot, nat>, slot: Slot, upTo: nat) { slot in lens && upTo > lens[slot] }

  function OpenStep(s: State, h: Hid, writeOnly: bool): State {
    if writeOnly then
      s.(st := Trimmed(s.global.quantum, s.global.qset), lens := map[],
         pos := s.pos[h := 0], recent := {h}, sum := 0, written := [])
    else s.(pos := s.pos[h := 0], recent := s.recent + {h})
  }

  function ReadStep(s: State, h: Hid, count: nat, memory: Memory, copied: bool): State
    requires Ok(s.st) && h in s.pos
  {
    var pos := s.pos[h];
    var p := Locate(pos, s.st.quantum, s.st.qset);
    var (st', r) := Read(s.st, pos, count, memory, copied);
    var reached := pos < s.st.size && Found(|s.st.items|, p.item, memory);
    s.(st := st',
       overran := s.overran || (reached && Passes(s.lens, (p.item, p.s), p.q + ReadLen(s.st, pos, count))),
       pos := if r.Got? then s.pos[h := pos + |r.bytes|] else s.pos)
  }

  /** The memset of a new block and the copy are the accesses of a write. */
  function WriteStep(s: State, h: Hid, data: seq<Byte>, memory: Memory, garbage: Option<seq<Byte>>): State
    requires Ok(s.st) && h in s.pos
    requires garbage.Some? ==> |garbage.value| <= WriteLen(s.st, s.pos[h], |data|)
  {
    var pos := s.pos[h];
    var p := Locate(pos, s.st.quantum, s.st.qset);
    var (st', r) := Write(s.st, pos, data, memory, garbage);
    var lens := if Allocates(s.st, p, memory) then s.lens[(p.item, p.s) := Capacity(s.kind, s.st.quantum)] else s.lens;
    var cleared := if Allocates(s.st, p, memory) then s.st.quantum else 0;
    var copied := if !Prepare(s.st, p, memory).1 then 0
                  else p.q + if garbage.Some? then |garbage.value| else WriteLen(s.st, pos, |data|);
    var s' := s.(st := st', lens := lens,
                 overran := s.overran || Passes(lens, (p.item, p.s), cleared) || Passes(lens, (p.item, p.s), copied));
    if r.Failed? then s'
    else
      s'.(pos := s.pos[h := pos + r.n], sum := s.sum + r.n,
          written := if h in s.recent then s.written + [(Canon(pos, s.st.quantum, s.st.qset), r.n)] else s.written)
  }

  /** One call, treated as atomic; None when it is not possible now. */
  function Step(s: State, a: Action): Option<State>
    requires Ok(s.st)
  {
    match a
    case Open(h, writeOnly) => if h in s.pos then None else Some(OpenStep(s, h, writeOnly))
    case Close(h) => Some(s.(pos := s.pos - {h}, recent := s.recent - {h}))
    case ReadBy(h, count, memory, copied) =>
      if h !in s.pos then None else Some(ReadStep(s, h, count, memory, copied))
    case WriteBy(h, data, memory, garbage) =>
      if h !in s.pos || (garbage.Some? && |garbage.value| > WriteLen(s.st, s.pos[h], |data|)) then None
      else Some(WriteStep(s, h, data, memory, garbage))
    case Ioctl(quantum, qset) =>
      if GeometryOk(quantum, qset) then Some(s.(global := Geometry(quantum, qset))) else None
  }

  // ----- what every call keeps

  /** Handles opened since the trim never stand past the size, nor did they ever store past it. */
  predicate Sequential(s: State) {
    && s.recent <= s.pos.Keys
    && (forall h :: h in s.recent ==> s.pos[h] <= s.st.size)
    && (forall k :: 0 <= k < |s.written| ==> s.written[k].0 + s.written[k].1 <= s.st.size)
  }

  /** Exactly the quanta that exist have a block, of the size its allocator gives; and blocks
      shorter than the quantum exist only after an overrun. */
  ghost predicate Blocks(s: State) {
    && (forall i: int, j: nat :: HasBlock(s.st.items, i, j) <==> (i, j) in s.lens)
    && (forall slot :: slot in s.lens ==> s.lens[slot] == Capacity(s.kind, s.st.quantum))
    && (s.lens != map[] ==> s.overran || s.st.quantum <= Capacity(s.kind, s.st.quantum))
  }

  ghost predicate Inv(s: State) {
    && Ok(s.st) && Defined(s.global)
    && s.st.size == s.sum && Sequential(s) && Blocks(s) && Present(s.st, s.written)
  }

  /** The bytes of every recorded write are there. */
  predicate Present(st: Store, written: seq<Extent>)
    requires Ok(st)
  {
    forall k :: 0 <= k < |written| ==> AllThere(st, written[k])
  }

  predicate AllThere(st: Store, w: Extent)
    requires Ok(st)
  {
    w.0 >= 0 && forall off: nat :: w.0 <= off < w.0 + w.1 ==> ByteAt(st, off).Some?
  }

  /** Truncating the item number never moves a position up. */
  lemma CanonNotAbove(pos: nat, quantum: nat, qset: nat)
    requires quantum > 0 && qset > 0
    ensures Canon(pos, quantum, qset) <= pos
  {
    TwoLevels(pos, quantum, qset);
    Reassemble(pos, quantum, qset);
    var i := pos / quantum / qset;
    var s, q := pos / quantum % qset, pos % quantum;
    assert Int32(i) <= i;
    MulMonotone(qset, Int32(i), i);
    MulMonotone(quantum, Int32(i) * qset + s, i * qset + s);
  }

  /** No call but a trim takes a byte away. */
  lemma BytesStay(st: Store, st': Store, written: seq<Extent>)
    requires Ok(st) && Ok(st') && Present(st, written)
    requires forall off: nat :: ByteAt(st, off).Some? ==> ByteAt(st', off).Some?
    ensures Present(st', written)
  {
    forall k | 0 <= k < |written|
      ensures AllThere(st', written[k])
    {
      assert AllThere(st, written[k]);
    }
  }

  lemma WriteKeepsBytes(st: Store, pos: nat, data: seq<Byte>, memory: Memory, garbage: Option<seq<Byte>>)
    requires Ok(st) && (garbage.Some? ==> |garbage.value| <= WriteLen(st, pos, |data|))
    ensures var (st', r) := Write(st, pos, data, memory, garbage);
      && (forall off: nat :: ByteAt(st, off).Some? ==> ByteAt(st', off).Some?)
      && (r.Moved? ==> AllThere(st', (Canon(pos, st.quantum, st.qset), r.n)))
  {
    hide ByteAt, Locate, Prepare, Canon;
    var (st', r) := Write(st, pos, data, memory, garbage);
    if r.Moved? {
      WriteIsExact(st, pos, data, memory);
      var start := Canon(pos, st.quantum, st.qset);
      forall off: nat
        ensures ByteAt(st, off).Some? || start <= off < start + r.n ==> ByteAt(st', off).Some?
      {
        assert OverwritesAt(st, st', start, data[..r.n], off);
      }
    } else if r.e == ENOMEM {
      FailedAllocationChangesNothing(st, pos, data, memory, garbage);
    } else {
      FaultingWriteIsConfined(st, pos, data, memory, garbage.value);
      forall off: nat
        ensures ByteAt(st, off).Some? ==> ByteAt(st', off).Some?
      {
        assert OverwritesAt(st, st', Canon(pos, st.quantum, st.qset), garbage.value, off);
      }
    }
  }

  /** A write adds a quantum exactly if it allocates. */
  lemma WriteAddsBlock(st: Store, pos: nat, data: seq<Byte>, memory: Memory, garbage: Option<seq<Byte>>, i: int, j: nat)
    requires Ok(st) && (garbage.Some? ==> |garbage.value| <= WriteLen(st, pos, |data|))
    ensures var p := Locate(pos, st.quantum, st.qset);
      HasBlock(Write(st, pos, data, memory, garbage).0.items, i, j)
      <==> HasBlock(st.items, i, j) || (Allocates(st, p, memory) && i == p.item && j == p.s)
  {
    hide Prepare, Locate;
  }

  lemma WriteKeepsBlocks(s: State, h: Hid, data: seq<Byte>, memory: Memory, garbage: Option<seq<Byte>>)
    requires Ok(s.st) && Blocks(s) && h in s.pos
    requires garbage.Some? ==> |garbage.value| <= WriteLen(s.st, s.pos[h], |data|)
    ensures var s' := WriteStep(s, h, data, memory, garbage);
      && Blocks(s')
      && (s'.overran <==> s.overran || MakesShort(s.kind, s.st, s.pos[h], memory))
  {
    hide Prepare, Locate, Capacity;
    var s' := WriteStep(s, h, data, memory, garbage);
    forall i: int, j: nat
      ensures HasBlock(s'.st.items, i, j) <==> (i, j) in s'.lens
    {
      WriteAddsBlock(s.st, s.pos[h], data, memory, garbage, i, j);
    }
  }

  lemma ReadKeepsBlocks(s: State, h: Hid, count: nat, memory: Memory, copied: bool)
    requires Ok(s.st) && Blocks(s) && h in s.pos
    ensures var s' := ReadStep(s, h, count, memory, copied); Blocks(s') && s'.overran == s.overran
  {
    hide Locate, Capacity;
    var s' := ReadStep(s, h, count, memory, copied);
    forall i: int, j: nat
      ensures HasBlock(s'.st.items, i, j) <==> HasBlock(s.st.items, i, j)
    {
    }
  }

  lemma WriteKeepsInv(s: State, h: Hid, data: seq<Byte>, memory: Memory, garbage: Option<seq<Byte>>)
    requires Inv(s) && h in s.pos && (garbage.Some? ==> |garbage.value| <= WriteLen(s.st, s.pos[h], |data|))
    ensures Inv(WriteStep(s, h, data, memory, garbage))
  {
    hide Blocks, Allocates, Prepare, Write, AllThere, Canon, WriteLen, Locate;
    var s' := WriteStep(s, h, data, memory, garbage);
    WriteKeepsBlocks(s, h, data, memory, garbage);
    WriteKeepsBytes(s.st, s.pos[h], data, memory, garbage);
    BytesStay(s.st, s'.st, s.written);
    CanonNotAbove(s.pos[h], s.st.quantum, s.st.qset);
  }

  lemma ReadKeepsInv(s: State, h: Hid, count: nat, memory: Memory, copied: bool)
    requires Inv(s) && h in s.pos
    ensures Inv(ReadStep(s, h, count, memory, copied))
  {
    hide Blocks, Read, AllThere, ByteAt, Locate, Canon;
    ReadKeepsBlocks(s, h, count, memory, copied);
    ReadIsPure(s.st, s.pos[h], count, memory, copied);
    BytesStay(s.st, ReadStep(s, h, count, memory, copied).st, s.written);
  }

  lemma StepKeepsInv(s: State, a: Action)
    requires Inv(s) && Step(s, a).Some?
    ensures Inv(Step(s, a).value)
  {
    hide ReadStep, WriteStep;
    match a
    case WriteBy(h, data, memory, garbage) => WriteKeepsInv(s, h, data, memory, garbage);
    case ReadBy(h, count, memory, copied) => ReadKeepsInv(s, h, count, memory, copied);
    case _ =>
  }

  /** The state after a whole run, if every call of it was possible. */
  function Exec(s: State, run: seq<Action>): (r: Option<State>)
    requires Inv(s)
    ensures r.Some? ==> Inv(r.value)
  {
    if run == [] then Some(s)
    else
      var last := |run| - 1;
      match Exec(s, run[..last])
      case None => None
      case Some(m) =>
        if Step(m, run[last]).Some? then
          StepKeepsInv(m, run[last]);
          Step(m, run[last])
        else None
  }

  // ----- size

  /** In every run the size is the number of bytes accepted since the last trim; and no handle
      opened since then stands, or has stored a byte, past it. */
  lemma SizeAccounting(kind: Kind, dev: Geometry, global: Geometry, run: seq<Action>, s: State)
    requires Defined(dev) && Defined(global) && Exec(Init(kind, dev, global), run) == Some(s)
    ensures s.st.size == s.sum
    ensures forall h :: h in s.recent ==> h in s.pos && s.pos[h] <= s.st.size
    ensures forall k :: 0 <= k < |s.written| ==> s.written[k].0 + s.written[k].1 <= s.st.size
    ensures forall k, off: nat :: 0 <= k < |s.written| && s.written[k].0 <= off < s.written[k].0 + s.written[k].1 ==>
      ByteAt(s.st, off).Some?
  {
    assert Inv(s);
    forall k, off: nat | 0 <= k < |s.written| && s.written[k].0 <= off < s.written[k].0 + s.written[k].1
      ensures ByteAt(s.st, off).Some?
    {
      assert AllThere(s.st, s.written[k]);
    }
  }

  function EndOf(w: Extent): int { if w.1 > 0 then w.0 + w.1 else 0 }

  /** Where the data ends. */
  function End(written: seq<Extent>): (e: int)
    ensures forall k :: 0 <= k < |written| && written[k].1 > 0 ==> written[k].0 + written[k].1 <= e
    ensures e == 0 || exists k :: 0 <= k < |written| && written[k].1 > 0 && written[k].0 + written[k].1 == e
  {
    if written == [] then 0
    else
      var e := End(written[..|written| - 1]);
      var last := written[|written| - 1];
      if EndOf(last) > e then EndOf(last) else e
  }

  /** For a call that stores something: where it begins, and the size at that moment. */
  function StoreAt(s: State, a: Action): Option<(int, nat)>
    requires Inv(s)
  {
    if a.WriteBy? && Step(s, a).Some? && Step(s, a).value.st.size > s.st.size
    then Some((Canon(s.pos[a.h], s.st.quantum, s.st.qset), s.st.size)) else None
  }

  predicate Trims(a: Action) { a.Open? && a.writeOnly }

  /** The last write since the last trim that stored something. */
  function LastStore(s: State, run: seq<Action>): Option<(int, nat)>
    requires Inv(s)
  {
    if run == [] || Trims(run[|run| - 1]) then None
    else
      var before := run[..|run| - 1];
      match Exec(s, before)
      case Some(m) =>
        if StoreAt(m, run[|run| - 1]).Some? then StoreAt(m, run[|run| - 1]) else LastStore(s, before)
      case None => None
  }

  /** Since the last trim only handles opened since then have stored anything. */
  predicate OnlyRecentStore(s: State, run: seq<Action>)
    requires Inv(s)
  {
    if run == [] || Trims(run[|run| - 1]) then true
    else
      var before := run[..|run| - 1];
      && OnlyRecentStore(s, before)
      && var a := run[|run| - 1];
      (a.WriteBy? && Exec(s, before).Some? && StoreAt(Exec(s, before).value, a).Some? ==>
         a.h in Exec(s, before).value.recent)
  }

  /** What the next call does to size and end of the data. */
  lemma StepEnd(s: State, a: Action)
    requires Inv(s) && Step(s, a).Some?
    requires a.WriteBy? && StoreAt(s, a).Some? ==> a.h in s.recent
    ensures var s' := Step(s, a).value;
      if Trims(a) then s'.st.size == 0 && End(s'.written) == 0
      else if StoreAt(s, a).None? then s'.st.size == s.st.size && End(s'.written) == End(s.written)
      else
        && End(s'.written) <= s'.st.size
        && (End(s'.written) == s'.st.size <==> StoreAt(s, a).value.0 == StoreAt(s, a).value.1)
  {
    hide ReadStep, WriteStep, Canon, Blocks, Present, End;
    match a
    case WriteBy(h, data, memory, garbage) => WriteEnd(s, h, data, memory, garbage);
    case ReadBy(h, count, memory, copied) => ReadSparesRecord(s, h, count, memory, copied);
    case Open(_, _) => assert End([]) == 0 by { NoEnd(); }
    case _ =>
  }

  lemma NoEnd()
    ensures End([]) == 0
  {
  }

  lemma EndAfter(written: seq<Extent>, w: Extent)
    ensures End(written + [w]) == if EndOf(w) > End(written) then EndOf(w) else End(written)
  {
    assert (written + [w])[..|written|] == written;
  }

  lemma {:induction false} EndBound(written: seq<Extent>, size: nat)
    requires forall k :: 0 <= k < |written| ==> written[k].0 + written[k].1 <= size
    ensures 0 <= End(written) <= size
  {
    if written != [] { EndBound(written[..|written| - 1], size); }
  }

  lemma WriteEnd(s: State, h: Hid, data: seq<Byte>, memory: Memory, garbage: Option<seq<Byte>>)
    requires Inv(s) && h in s.pos && (garbage.Some? ==> |garbage.value| <= WriteLen(s.st, s.pos[h], |data|))
    ensures var s' := WriteStep(s, h, data, memory, garbage);
      var start := Canon(s.pos[h], s.st.quantum, s.st.qset);
      && s.st.size <= s'.st.size
      && (s'.st.size == s.st.size ==> End(s'.written) == End(s.written))
      && (s'.st.size > s.st.size && h in s.recent ==>
            End(s'.written) <= s'.st.size && (End(s'.written) == s'.st.size <==> start == s.st.size))
  {
    hide Canon, Write, Blocks, Present, Locate, WriteLen, Allocates, Prepare, End;
    var (st', r) := Write(s.st, s.pos[h], data, memory, garbage);
    CanonNotAbove(s.pos[h], s.st.quantum, s.st.qset);
    EndBound(s.written, s.st.size);
    if r.Moved? { EndAfter(s.written, (Canon(s.pos[h], s.st.quantum, s.st.qset), r.n)); }
  }

  lemma ReadSparesRecord(s: State, h: Hid, count: nat, memory: Memory, copied: bool)
    requires Inv(s) && h in s.pos
    ensures var s' := ReadStep(s, h, count, memory, copied);
      s'.written == s.written && s'.st.size == s.st.size
  {
  }

  /** `size += count`: as long as only handles opened since the last trim store, the size is the
      end of the data exactly if the last write that stored anything began at the size of that
      moment. Overwriting inflates it; a write that begins at the inflated size meets it again. */
  lemma {:induction false} SizeIsEndIff(s0: State, run: seq<Action>, s: State)
    requires Inv(s0) && s0.st.size == 0 && s0.written == []
    requires Exec(s0, run) == Some(s) && OnlyRecentStore(s0, run)
    ensures var last := LastStore(s0, run);
      s.st.size == End(s.written) <==> last.None? || last.value.0 == last.value.1
    ensures LastStore(s0, run).None? ==> s.st.size == 0
  {
    hide Step, StoreAt, Inv;
    if run != [] {
      var before := run[..|run| - 1];
      var m := Exec(s0, before).value;
      if !Trims(run[|run| - 1]) { SizeIsEndIff(s0, before, m); }
      StepEnd(m, run[|run| - 1]);
    }
  }

  /** A write of one byte by a recent handle that stands at 0. */
  lemma WriteAtZero(s: State, h: Hid, b: Byte)
    requires Inv(s) && h in s.recent && s.pos[h] == 0
    ensures Step(s, WriteBy(h, [b], Ample, None)).Some?
    ensures var s' := Step(s, WriteBy(h, [b], Ample, None)).value;
      && s'.st.size == s.st.size + 1 && s'.written == s.written + [(0, 1)]
      && s'.pos == s.pos[h := 1] && s'.recent == s.recent && Inv(s')
  {
    hide Write, Prepare, Blocks, Present, Allocates, Locate;
    FirstPlace(s.st.quantum, s.st.qset);
    WriteSucceedsIff(s.st, 0, [b]);
    WriteKeepsInv(s, h, [b], Ample, None);
  }

  /** Where the size is not the end of the data: two handles each write one byte at 0. */
  lemma TwoWritersInflateSize(kind: Kind, dev: Geometry, global: Geometry, b: Byte, c: Byte)
    requires Defined(dev) && Defined(global)
    ensures var s0 := Init(kind, dev, global);
      var run := [Open(0, true), Open(1, false), WriteBy(0, [b], Ample, None), WriteBy(1, [c], Ample, None)];
      && Exec(s0, run).Some? && OnlyRecentStore(s0, run)
      && Exec(s0, run).value.st.size == 2 && End(Exec(s0, run).value.written) == 1
  {
    hide WriteStep, ReadStep, Inv, Exec, OnlyRecentStore;
    var s0 := Init(kind, dev, global);
    ExecNothing(s0);
    OneMore(s0, [], s0, Open(0, true));
    assert [] + [Open(0, true)] == [Open(0, true)];
    var s1 := OpenStep(s0, 0, true);
    OneMore(s0, [Open(0, true)], s1, Open(1, false));
    var s2 := OpenStep(s1, 1, false);
    var run := [Open(0, true), Open(1, false)];
    assert run == [Open(0, true)] + [Open(1, false)];
    StepKeepsInv(s0, Open(0, true));
    StepKeepsInv(s1, Open(1, false));
    TwoWrites(s0, run, s2, b, c);
    assert run + [WriteBy(0, [b], Ample, None), WriteBy(1, [c], Ample, None)]
      == [Open(0, true), Open(1, false), WriteBy(0, [b], Ample, None), WriteBy(1, [c], Ample, None)];
  }

  lemma TwoWrites(s0: State, run: seq<Action>, s: State, b: Byte, c: Byte)
    requires Inv(s0) && Exec(s0, run) == Some(s) && OnlyRecentStore(s0, run)
    requires s.recent == {0, 1} && s.pos == map[0 := 0, 1 := 0] && s.st.size == 0 && s.written == []
    ensures var run' := run + [WriteBy(0, [b], Ample, None), WriteBy(1, [c], Ample, None)];
      && Exec(s0, run').Some? && OnlyRecentStore(s0, run')
      && Exec(s0, run').value.st.size == 2 && End(Exec(s0, run').value.written) == 1
  {
    hide Step, Exec, OnlyRecentStore, Blocks, Present, Sequential, GeometryOk, ItemsOk, End;
    var w0, w1 := WriteBy(0, [b], Ample, None), WriteBy(1, [c], Ample, None);
    WriteAtZero(s, 0, b);
    OneMore(s0, run, s, w0);
    var s' := Step(s, w0).value;
    WriteAtZero(s', 1, c);
    OneMore(s0, run + [w0], s', w1);
    assert run + [w0] + [w1] == run + [w0, w1];
    SameExtentTwice(s.written, s'.written, Step(s', w1).value.written);
  }

  lemma SameExtentTwice(w0: seq<Extent>, w1: seq<Extent>, w2: seq<Extent>)
    requires w0 == [] && w1 == w0 + [(0, 1)] && w2 == w1 + [(0, 1)]
    ensures End(w2) == 1
  {
    EndAfter(w0, (0, 1));
    EndAfter(w1, (0, 1));
  }

  lemma ExecNothing(s: State)
    requires Inv(s)
    ensures Exec(s, []) == Some(s) && OnlyRecentStore(s, [])
  {
  }

  lemma OneMore(s0: State, run: seq<Action>, s: State, a: Action)
    requires Inv(s0) && Exec(s0, run) == Some(s) && OnlyRecentStore(s0, run)
    requires a.WriteBy? ==> a.h in s.recent
    ensures Exec(s0, run + [a]) == Step(s, a) && OnlyRecentStore(s0, run + [a])
  {
    hide Step, StoreAt, Blocks, Present;
    assert (run + [a])[..|run|] == run;
  }

  // ----- file positions

  /** What a call on the device returns, in bytes. */
  function Result(s: State, a: Action): nat
    requires Ok(s.st)
  {
    match a
    case WriteBy(h, data, memory, garbage) =>
      if h !in s.pos || (garbage.Some? && |garbage.value| > WriteLen(s.st, s.pos[h], |data|)) then 0
      else
        var r := Write(s.st, s.pos[h], data, memory, garbage).1;
        if r.Moved? then r.n else 0
    case ReadBy(h, count, memory, copied) =>
      if h !in s.pos then 0
      else
        var r := Read(s.st, s.pos[h], count, memory, copied).1;
        if r.Got? then |r.bytes| else 0
    case _ => 0
  }

  /** Bytes that the calls on a handle have written and read since it was opened. */
  function Travelled(s0: State, run: seq<Action>, h: Hid): nat
    requires Inv(s0)
  {
    if run == [] then 0
    else
      var a := run[|run| - 1];
      var before := run[..|run| - 1];
      if a.Open? && a.h == h then 0
      else
        Travelled(s0, before, h)
          + if (a.WriteBy? || a.ReadBy?) && a.h == h && Exec(s0, before).Some? then Result(Exec(s0, before).value, a) else 0
  }

  lemma StepTravels(s: State, a: Action, h: Hid)
    requires Ok(s.st) && Step(s, a).Some?
    ensures var s' := Step(s, a).value;
      h in s'.pos ==>
        if a.Open? && a.h == h then s'.pos[h] == 0
        else h in s.pos && s'.pos[h] == s.pos[h] + if (a.WriteBy? || a.ReadBy?) && a.h == h then Result(s, a) else 0
  {
    hide Write, Read, Locate, Canon, Prepare, Allocates, WriteLen;
  }

  /** In every run an open handle stands exactly as far from 0 as its own calls since its open have
      moved bytes: no trim, no failed call and no other handle moves it. */
  lemma {:induction false} PositionAccounting(kind: Kind, dev: Geometry, global: Geometry, run: seq<Action>, s: State, h: Hid)
    requires Defined(dev) && Defined(global) && Exec(Init(kind, dev, global), run) == Some(s) && h in s.pos
    ensures s.pos[h] == Travelled(Init(kind, dev, global), run, h)
  {
    hide Step, Inv, Result;
    if run != [] {
      var last := |run| - 1;
      var m := Exec(Init(kind, dev, global), run[..last]).value;
      OkOf(m);
      StepTravels(m, run[last], h);
      if h in m.pos { PositionAccounting(kind, dev, global, run[..last], m, h); }
    }
  }

  lemma OkOf(s: State)
    requires Inv(s)
    ensures Ok(s.st)
  {
  }

  // ----- geometry

  /** The geometry set by the last ioctl of a run. */
  function AtLastIoctl(global: Geometry, run: seq<Action>): Geometry {
    if run == [] then global
    else if run[|run| - 1].Ioctl? then Geometry(run[|run| - 1].quantum, run[|run| - 1].qset)
    else AtLastIoctl(global, run[..|run| - 1])
  }

  /** The global geometry in force at the last trim of a run; the device's own before the first. */
  function AtLastTrim(dev: Geometry, global: Geometry, run: seq<Action>): Geometry {
    if run == [] then dev
    else if Trims(run[|run| - 1]) then AtLastIoctl(global, run)
    else AtLastTrim(dev, global, run[..|run| - 1])
  }

  function Own(s: State): Geometry { Geometry(s.st.quantum, s.st.qset) }

  lemma StepGeometry(s: State, a: Action)
    requires Ok(s.st) && Step(s, a).Some?
    ensures var s' := Step(s, a).value;
      && s'.kind == s.kind
      && Own(s') == (if Trims(a) then s.global else Own(s))
      && s'.global == (if a.Ioctl? then Geometry(a.quantum, a.qset) else s.global)
  {
  }

  /** Only a trim changes a device's geometry: ioctl takes effect there and not before. All
      pointer arrays have that qset, and every block the size its allocator gives. */
  lemma {:induction false} GeometryStable(kind: Kind, dev: Geometry, global: Geometry, run: seq<Action>, s: State)
    requires Defined(dev) && Defined(global) && Exec(Init(kind, dev, global), run) == Some(s)
    ensures s.kind == kind
    ensures Own(s) == AtLastTrim(dev, global, run) && s.global == AtLastIoctl(global, run)
    ensures ItemsOk(s.st.items, s.st.quantum, s.st.qset)
    ensures forall i: int, j: nat :: HasBlock(s.st.items, i, j) ==>
      && (i, j) in s.lens
      && s.lens[(i, j)] == (match kind
                            case Basic => AtLastTrim(dev, global, run).quantum
                            case Cache(objsize) => objsize
                            case Pages(bytes) => bytes)
  {
    assert Inv(s);
    if run != [] {
      var before := run[..|run| - 1];
      var m := Exec(Init(kind, dev, global), before).value;
      GeometryStable(kind, dev, global, before, m);
      StepGeometry(m, run[|run| - 1]);
    }
  }

  // ----- accesses past the end of a block

  /** Call number `k` is a write that allocates a quantum. */
  predicate AllocatesAt(s: State, run: seq<Action>, k: nat)
    requires Inv(s) && k < |run|
  {
    && run[k].WriteBy? && Exec(s, run[..k]).Some?
    && var m := Exec(s, run[..k]).value;
       run[k].h in m.pos && Allocates(m.st, Locate(m.pos[run[k].h], m.st.quantum, m.st.qset), run[k].memory)
  }

  /** Call number `k` allocates while the quantum in force is larger than what the allocator gives. */
  predicate TooSmallAt(kind: Kind, dev: Geometry, global: Geometry, run: seq<Action>, k: nat)
    requires Defined(dev) && Defined(global) && k < |run|
  {
    && AllocatesAt(Init(kind, dev, global), run, k)
    && var q := AtLastTrim(dev, global, run[..k]).quantum; q > Capacity(kind, q)
  }

  lemma StepOverruns(s: State, a: Action)
    requires Inv(s) && Step(s, a).Some?
    ensures Step(s, a).value.overran <==> s.overran || (a.WriteBy? && a.h in s.pos && MakesShort(s.kind, s.st, s.pos[a.h], a.memory))
  {
    hide ReadStep, WriteStep, Allocates, Locate;
    match a
    case WriteBy(h, data, memory, garbage) => WriteKeepsBlocks(s, h, data, memory, garbage);
    case ReadBy(h, count, memory, copied) => ReadKeepsBlocks(s, h, count, memory, copied);
    case _ =>
  }

  lemma StepNeedsHandle(s: State, a: Action)
    requires Ok(s.st) && Step(s, a).Some? && a.WriteBy?
    ensures a.h in s.pos
  {
  }

  lemma PrefixOf(run: seq<Action>, k: nat)
    requires k < |run|
    ensures run[..|run| - 1][..k] == run[..k]
  {
  }

  /** A run accesses memory past the end of a block exactly if some write of it allocates a
      quantum while the quantum taken over by the last trim is more than the allocator gives.
      No read and no copy is ever the first to do so. */
  lemma {:induction false} OverrunsIff(kind: Kind, dev: Geometry, global: Geometry, run: seq<Action>, s: State)
    requires Defined(dev) && Defined(global) && Exec(Init(kind, dev, global), run) == Some(s)
    ensures s.overran <==> exists k :: 0 <= k < |run| && TooSmallAt(kind, dev, global, run, k)
  {
    hide Step, Allocates, Locate, Blocks, Present, Sequential;
    if run != [] {
      var last := |run| - 1;
      var before := run[..last];
      var m := Exec(Init(kind, dev, global), before).value;
      OverrunsIff(kind, dev, global, before, m);
      GeometryStable(kind, dev, global, before, m);
      if run[last].WriteBy? { StepNeedsHandle(m, run[last]); }
      StepOverruns(m, run[last]);
      forall k | 0 <= k < last
        ensures TooSmallAt(kind, dev, global, run, k) <==> TooSmallAt(kind, dev, global, before, k)
      {
        PrefixOf(run, k);
      }
      assert TooSmallAt(kind, dev, global, run, last) <==> run[last].WriteBy? && MakesShort(m.kind, m.st, m.pos[run[last].h], run[last].memory);
    }
  }

  /** kmalloc follows the quantum, so its devices never overrun. */
  lemma KmallocNeverOverruns(dev: Geometry, global: Geometry, run: seq<Action>, s: State)
    requires Defined(dev) && Defined(global) && Exec(Init(Basic, dev, global), run) == Some(s)
    ensures !s.overran
  {
    OverrunsIff(Basic, dev, global, run, s);
  }

  lemma {:induction false} NoIoctlNoChange(dev: Geometry, global: Geometry, run: seq<Action>)
    requires forall k :: 0 <= k < |run| ==> !run[k].Ioctl?
    ensures AtLastIoctl(global, run) == global
    ensures AtLastTrim(dev, global, run) == dev || AtLastTrim(dev, global, run) == global
  {
    if run != [] { NoIoctlNoChange(dev, global, run[..|run| - 1]); }
  }

  /** Nor does any other device as long as nobody uses ioctl, if the allocator can hold the quantum
      the device was set up with and the one the first trim brings. */
  lemma NeverOverrunsWithoutIoctl(kind: Kind, dev: Geometry, global: Geometry, run: seq<Action>, s: State)
    requires Defined(dev) && Defined(global) && Exec(Init(kind, dev, global), run) == Some(s)
    requires dev.quantum <= Capacity(kind, dev.quantum) && global.quantum <= Capacity(kind, global.quantum)
    requires forall k :: 0 <= k < |run| ==> !run[k].Ioctl?
    ensures !s.overran
  {
    OverrunsIff(kind, dev, global, run, s);
    forall k | 0 <= k < |run|
      ensures !TooSmallAt(kind, dev, global, run, k)
    {
      NoIoctlNoChange(dev, global, run[..k]);
    }
  }

  /** The failing case: raise the quantum by ioctl, open for writing, and the first byte written
      clears a quantum in a block of a cache, or of pages, of the old size. */
  lemma RaisedQuantumOverruns(kind: Kind, quantum: nat, qset: nat)
    requires kind == Cache(quantum) || kind == Pages(quantum)
    requires GeometryOk(quantum, qset) && GeometryOk(quantum + 1, qset)
    ensures var g := Geometry(quantum, qset);
      var run := [Ioctl(quantum + 1, qset), Open(0, true), WriteBy(0, [0], Ample, None)];
      && Exec(Init(kind, g, g), run).Some?
      && var s := Exec(Init(kind, g, g), run).value;
      s.overran && (0, 0) in s.lens && s.lens[(0, 0)] < s.st.quantum
  {
    hide Allocates, Locate, Blocks, Write, Prepare, Canon, Exec, OnlyRecentStore;
    var g := Geometry(quantum, qset);
    var s0 := Init(kind, g, g);
    var ioctl, open, write := Ioctl(quantum + 1, qset), Open(0, true), WriteBy(0, [0], Ample, None);
    ExecNothing(s0);
    OneMore(s0, [], s0, ioctl);
    assert [] + [ioctl] == [ioctl];
    var s1 := s0.(global := Geometry(quantum + 1, qset));
    OneMore(s0, [ioctl], s1, open);
    var s2 := OpenStep(s1, 0, true);
    OneMore(s0, [ioctl] + [open], s2, write);
    assert [ioctl] + [open] + [write] == [ioctl, open, write];
    FirstWriteAllocates(quantum + 1, qset);
    FirstPlace(quantum + 1, qset);
    StepOverruns(s2, write);
  }
}
