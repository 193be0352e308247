/** The sparse store of a scull device on values: what each call does to the two-level table. */
module StoreSpec {
  import opened Kernel

  /** A quantum holds `quantum` bytes; a pointer array has `qset` slots; a list node may have
      no pointer array yet. */
  type Quantum = seq<Byte>
  type Slots = seq<Option<Quantum>>
  type Item = Option<Slots>

  const TWO31: int := 0x8000_0000
  const TWO32: int := 0x1_0000_0000

  /** Conversion to `int`. */
  function Int32(x: int): int {
    var r := x % TWO32;
    if r < TWO31 then r else r - TWO32
  }

  /** Geometries under which the C arithmetic is defined: positive, item size an `int`. */
  predicate GeometryOk(quantum: int, qset: int) {
    0 < quantum && 0 < qset && quantum * qset < TWO31
  }

  datatype Store = Store(items: seq<Item>, quantum: nat, qset: nat, size: nat)

  predicate ItemOk(it: Item, quantum: nat, qset: nat) {
    it.Some? ==>
      && |it.value| == qset
      && forall j :: 0 <= j < qset && it.value[j].Some? ==> |it.value[j].value| == quantum
  }

  predicate ItemsOk(items: seq<Item>, quantum: nat, qset: nat) {
    forall i :: 0 <= i < |items| ==> ItemOk(items[i], quantum, qset)
  }

  predicate Ok(st: Store) {
    GeometryOk(st.quantum, st.qset) && ItemsOk(st.items, st.quantum, st.qset)
  }

  // ----- where an offset lives

  datatype Place = Place(item: int, s: nat, q: nat)

  /** item, s_pos and q_pos as scull_read and scull_write compute them; `item` is an `int`. */
  function Locate(pos: nat, quantum: nat, qset: nat): (p: Place)
    requires quantum > 0 && qset > 0
    ensures p.s < qset && p.q < quantum
  {
    var itemsize := quantum * qset;
    MulPositive(quantum, qset);
    var rest := pos % itemsize;
    DivBelow(rest, quantum, qset);
    Place(Int32(pos / itemsize), rest / quantum, rest % quantum)
  }

  lemma MulPositive(a: nat, b: nat)
    requires a > 0 && b > 0
    ensures a * b > 0
  {
  }

  lemma DivBelow(x: nat, d: nat, m: nat)
    requires d > 0 && x < d * m
    ensures 0 <= x / d < m
  {
    if x / d >= m {
      assert d * (x / d) >= d * m by { MulMonotone(d, m, x / d); }
    }
  }

  lemma MulMonotone(d: nat, a: int, b: int)
    requires a <= b
    ensures d * a <= d * b
  {
  }

  // ----- the stages of a call

  function Nones<T>(n: nat): (s: seq<Option<T>>)
    ensures |s| == n && forall i :: 0 <= i < n ==> s[i] == None
  {
    seq(n, _ => None)
  }

  function Zeros(n: nat): (s: seq<Byte>)
    ensures |s| == n && forall i :: 0 <= i < n ==> s[i] == 0
  {
    seq(n, _ => 0)
  }

  /** Nodes scull_follow has to add: a head even for a negative item, then up to `item`. */
  function Missing(len: nat, item: int): nat {
    if item < 0 then (if len == 0 then 1 else 0)
    else if item < len then 0 else item + 1 - len
  }

  /** Nodes it manages to add. */
  function Made(len: nat, item: int, memory: Memory): nat {
    if memory.Ample? then Missing(len, item) else Min(Missing(len, item), memory.n)
  }

  function LeftOver(memory: Memory, used: nat): Memory
    requires memory.Scarce? ==> used <= memory.n
  {
    if memory.Ample? then Ample else Scarce(memory.n - used)
  }

  /** The list after scull_follow: as far as memory went, empty nodes at the end. */
  function Followed(items: seq<Item>, item: int, memory: Memory): (r: seq<Item>)
    ensures items <= r && forall i :: |items| <= i < |r| ==> r[i] == None
    ensures memory.Ample? ==> item < |r| && r != []
  {
    items + Nones(Made(|items|, item, memory))
  }

  /** scull_follow returned a node. */
  predicate Found(len: nat, item: int, memory: Memory) {
    item >= 0 && Made(len, item, memory) == Missing(len, item)
  }

  function WithTable(items: seq<Item>, i: nat, qset: nat): seq<Item>
    requires i < |items|
  {
    if items[i].Some? then items else items[i := Some(Nones(qset))]
  }

  function WithBlock(items: seq<Item>, i: nat, s: nat, quantum: nat): seq<Item>
    requires i < |items| && items[i].Some? && s < |items[i].value|
  {
    if items[i].value[s].Some? then items
    else items[i := Some(items[i].value[s := Some(Zeros(quantum))])]
  }

  /** `block` with `bytes` stored from `q` on. */
  function Patched(block: Quantum, q: nat, bytes: seq<Byte>): (b: Quantum)
    requires q + |bytes| <= |block|
    ensures |b| == |block|
  {
    block[..q] + bytes + block[q + |bytes|..]
  }

  function WithBytes(items: seq<Item>, i: nat, s: nat, q: nat, bytes: seq<Byte>): seq<Item>
    requires i < |items| && items[i].Some? && s < |items[i].value| && items[i].value[s].Some?
    requires q + |bytes| <= |items[i].value[s].value|
  {
    items[i := Some(items[i].value[s := Some(Patched(items[i].value[s].value, q, bytes))])]
  }

  /** The place has a quantum. */
  predicate HasBlock(items: seq<Item>, item: int, s: nat) {
    0 <= item < |items| && items[item].Some? && s < |items[item].value| && items[item].value[s].Some?
  }

  // ----- the calls

  datatype Result = Moved(n: nat) | Failed(e: Errno)

  /** Bytes a write can place before the end of its quantum. */
  function WriteLen(st: Store, pos: nat, count: nat): nat
    requires st.quantum > 0 && st.qset > 0
  {
    Min(count, st.quantum - Locate(pos, st.quantum, st.qset).q)
  }

  /** The part of scull_write before the copy: node, pointer array and quantum, each allocated
      if missing. False as soon as an allocation fails; what was allocated stays. */
  function Prepare(st: Store, p: Place, memory: Memory): (r: (seq<Item>, bool))
    requires Ok(st) && p.s < st.qset
    ensures ItemsOk(r.0, st.quantum, st.qset)
    ensures r.1 ==> HasBlock(r.0, p.item, p.s)
    ensures forall i, j: nat :: HasBlock(st.items, i, j) ==> HasBlock(r.0, i, j) && r.0[i].value[j] == st.items[i].value[j]
    ensures forall i, j: nat :: HasBlock(r.0, i, j) && !HasBlock(st.items, i, j) ==>
      r.1 && i == p.item && j == p.s && r.0[i].value[j] == Some(Zeros(st.quantum))
  {
    var items1 := Followed(st.items, p.item, memory);
    if !Found(|st.items|, p.item, memory) then (items1, false)
    else
      var memory1 := LeftOver(memory, Made(|st.items|, p.item, memory));
      if items1[p.item].None? && !memory1.CanAlloc() then (items1, false)
      else
        var memory2 := if items1[p.item].None? then memory1.Used() else memory1;
        var items2 := WithTable(items1, p.item, st.qset);
        if items2[p.item].value[p.s].None? && !memory2.CanAlloc() then (items2, false)
        else (WithBlock(items2, p.item, p.s, st.quantum), true)
  }

  /** A write at `p` gets as far as scull_alloc, and scull_alloc succeeds. */
  predicate Allocates(st: Store, p: Place, memory: Memory)
    requires Ok(st) && p.s < st.qset
  {
    Prepare(st, p, memory).1 && !HasBlock(st.items, p.item, p.s)
  }

  /** scull_write. `garbage` is what a faulting copy_from_user left in the block. */
  function Write(st: Store, pos: nat, data: seq<Byte>, memory: Memory, garbage: Option<seq<Byte>>): (r: (Store, Result))
    requires Ok(st)
    requires garbage.Some? ==> |garbage.value| <= WriteLen(st, pos, |data|)
    ensures Ok(r.0) && r.0.quantum == st.quantum && r.0.qset == st.qset
    ensures r.0.size == st.size + if r.1.Moved? then r.1.n else 0
    ensures r.1.Moved? ==> r.1.n <= |data| && (data != [] ==> r.1.n > 0)
    ensures r.1.Moved? ==>
      var q := Locate(pos, st.quantum, st.qset).q;
      q + r.1.n <= st.quantum && (r.1.n == |data| || q + r.1.n == st.quantum)
    ensures |st.items| <= |r.0.items|
  {
    var p := Locate(pos, st.quantum, st.qset);
    var (items, ok) := Prepare(st, p, memory);
    var n := WriteLen(st, pos, |data|);
    if !ok then (st.(items := items), Failed(ENOMEM))
    else if garbage.Some? then
      (st.(items := WithBytes(items, p.item, p.s, p.q, garbage.value)), Failed(EFAULT))
    else
      (st.(items := WithBytes(items, p.item, p.s, p.q, data[..n]), size := st.size + n), Moved(n))
  }

  /** A fault cannot leave more behind than the call was to write. */
  function Cut(quantum: nat, qset: nat, pos: nat, data: seq<Byte>, garbage: Option<seq<Byte>>): (g: Option<seq<Byte>>)
    requires quantum > 0 && qset > 0
    ensures g.Some? ==> |g.value| <= Min(|data|, quantum - Locate(pos, quantum, qset).q)
  {
    var len := Min(|data|, quantum - Locate(pos, quantum, qset).q);
    if garbage.Some? && |garbage.value| > len then Some(garbage.value[..len]) else garbage
  }

  /** Bytes a read asks copy_to_user for, before the end. */
  function ReadLen(st: Store, pos: nat, count: nat): nat
    requires st.quantum > 0 && st.qset > 0 && pos < st.size
  {
    Min(Min(count, st.size - pos), st.quantum - Locate(pos, st.quantum, st.qset).q)
  }

  datatype ReadResult = Got(bytes: seq<Byte>) | ReadFailed(e: Errno)

  /** scull_read. The list may grow, through scull_follow. */
  function Read(st: Store, pos: nat, count: nat, memory: Memory, copied: bool): (r: (Store, ReadResult))
    requires Ok(st)
    ensures Ok(r.0) && r.0.quantum == st.quantum && r.0.qset == st.qset
    ensures r.0.size == st.size && st.items <= r.0.items
    ensures r.1.Got? ==> |r.1.bytes| <= count && (r.1.bytes != [] ==> pos + |r.1.bytes| <= st.size)
  {
    if pos >= st.size then (st, Got([]))
    else
      var p := Locate(pos, st.quantum, st.qset);
      var items1 := Followed(st.items, p.item, memory);
      var st1 := st.(items := items1);
      if !Found(|st.items|, p.item, memory) || items1[p.item].None? || items1[p.item].value[p.s].None?
      then (st1, Got([]))
      else if !copied then (st1, ReadFailed(EFAULT))
      else
        var n := ReadLen(st, pos, count);
        (st1, Got(items1[p.item].value[p.s].value[p.q .. p.q + n]))
  }

  /** scull_trim: an empty store under the current global geometry. */
  function Trimmed(quantum: nat, qset: nat): Store { Store([], quantum, qset, 0) }

  /** One call on a device. `junk` is what the allocator leaves in a new block. */
  datatype Call =
    | ReadCall(pos: nat, count: nat, memory: Memory, copied: bool)
    | WriteCall(pos: nat, data: seq<Byte>, memory: Memory, garbage: Option<seq<Byte>>, junk: Byte)
    | TrimCall(quantum: nat, qset: nat)

  /** Trims use defined geometries. */
  predicate CallOk(c: Call) { c.TrimCall? ==> GeometryOk(c.quantum, c.qset) }

  /** What a call does to the contents of the device. */
  function After(st: Store, c: Call): (st': Store)
    requires Ok(st) && CallOk(c)
    ensures Ok(st')
  {
    match c
    case ReadCall(pos, count, memory, copied) => Read(st, pos, count, memory, copied).0
    case WriteCall(pos, data, memory, garbage, _) => Write(st, pos, data, memory, Cut(st.quantum, st.qset, pos, data, garbage)).0
    case TrimCall(quantum, qset) => Trimmed(quantum, qset)
  }

  /** What a call answers its caller. */
  datatype Reply = WriteReply(w: Result) | ReadReply(g: ReadResult) | NoReply

  function ReplyTo(st: Store, c: Call): Reply
    requires Ok(st)
  {
    match c
    case ReadCall(pos, count, memory, copied) => ReadReply(Read(st, pos, count, memory, copied).1)
    case WriteCall(pos, data, memory, garbage, _) =>
      WriteReply(Write(st, pos, data, memory, Cut(st.quantum, st.qset, pos, data, garbage)).1)
    case TrimCall(_, _) => NoReply
  }
}
