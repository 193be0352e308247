/** Kernel memory as a map from addresses to cells, and how a scull device lies in it: a
    null-terminated list of nodes, each with an optional pointer array, each pointer null or
    the address of a block of bytes. */
module StoreMemory {
  import opened Kernel
  import opened StoreSpec

  type Ptr = nat
  const NULL: Ptr := 0

  /** A block was allocated with `len` bytes; `bytes` are those the driver has reached through its
      pointer, more than `len` only after an access past the end. */
  datatype Cell = Node(data: Ptr, next: Ptr) | Table(slots: seq<Ptr>) | Block(len: nat, bytes: seq<Byte>)

  type Cells = map<Ptr, Cell>

  /** The part a cell plays in a device. A cell plays one part only, so nothing is shared. */
  datatype Role = AsNode(i: nat) | AsTable(i: nat) | AsBlock(i: nat, j: nat)

  /** The cells of one device: its list in order, and the role of every cell it owns. */
  datatype Image = Image(nodes: seq<Ptr>, role: map<Ptr, Role>)

  predicate Plays(x: Image, p: Ptr, r: Role) { p in x.role && x.role[p] == r }

  function NextOf(nodes: seq<Ptr>, i: nat): Ptr { if i + 1 < |nodes| then nodes[i + 1] else NULL }

  predicate SlotRep(m: Cells, x: Image, i: nat, j: nat, b: Ptr, slot: Option<Quantum>, quantum: nat) {
    if b == NULL then slot == None
    else
      && Plays(x, b, AsBlock(i, j)) && b in m && m[b].Block?
      && quantum <= |m[b].bytes| && slot == Some(m[b].bytes[..quantum])
  }

  predicate TableRep(m: Cells, x: Image, i: nat, d: Ptr, it: Item, quantum: nat, qset: nat) {
    if d == NULL then it == None
    else
      && Plays(x, d, AsTable(i)) && d in m && m[d].Table? && |m[d].slots| == qset
      && it.Some? && |it.value| == qset
      && forall j :: 0 <= j < qset ==> SlotRep(m, x, i, j, m[d].slots[j], it.value[j], quantum)
  }

  predicate NodeRep(m: Cells, x: Image, i: nat, it: Item, quantum: nat, qset: nat)
    requires i < |x.nodes|
  {
    var n := x.nodes[i];
    && Plays(x, n, AsNode(i)) && n in m && m[n].Node?
    && m[n].next == NextOf(x.nodes, i)
    && TableRep(m, x, i, m[n].data, it, quantum, qset)
  }

  /** Cell `p` is where its role says. */
  predicate InPlace(m: Cells, x: Image, p: Ptr)
    requires p in x.role
  {
    var i := x.role[p].i;
    && p != NULL && p in m && i < |x.nodes| && x.nodes[i] in m && m[x.nodes[i]].Node?
    && var d := m[x.nodes[i]].data;
    match x.role[p]
    case AsNode(_) => p == x.nodes[i]
    case AsTable(_) => p == d
    case AsBlock(_, j) => d != NULL && d in m && m[d].Table? && j < |m[d].slots| && p == m[d].slots[j]
  }

  /** From `head` on, memory holds `items`, in exactly the cells of the image. */
  predicate Rep(m: Cells, x: Image, head: Ptr, items: seq<Item>, quantum: nat, qset: nat) {
    && |x.nodes| == |items|
    && head == (if |x.nodes| == 0 then NULL else x.nodes[0])
    && (forall i {:trigger NodeRep(m, x, i, items[i], quantum, qset)} ::
          0 <= i < |x.nodes| ==> NodeRep(m, x, i, items[i], quantum, qset))
    && (forall p {:trigger InPlace(m, x, p)} :: p in x.role ==> InPlace(m, x, p))
  }

  // ----- frames

  /** Memory and image agree on everything that belongs to node `i`. */
  predicate SameAt(m: Cells, x: Image, m': Cells, x': Image, i: nat) {
    forall p :: p in x.role && x.role[p].i == i ==>
      p in x'.role && x'.role[p] == x.role[p] && (p in m ==> p in m' && m'[p] == m[p])
  }

  lemma TableFrame(m: Cells, x: Image, m': Cells, x': Image, i: nat, d: Ptr, it: Item, quantum: nat, qset: nat)
    requires TableRep(m, x, i, d, it, quantum, qset) && SameAt(m, x, m', x', i)
    ensures TableRep(m', x', i, d, it, quantum, qset)
  {
    if d != NULL {
      forall j | 0 <= j < qset
        ensures SlotRep(m', x', i, j, m'[d].slots[j], it.value[j], quantum)
      {
        assert SlotRep(m, x, i, j, m[d].slots[j], it.value[j], quantum);
      }
    }
  }

  /** Changing cells a device does not own leaves it as it is. */
  lemma RepFrame(m: Cells, m': Cells, x: Image, head: Ptr, items: seq<Item>, quantum: nat, qset: nat)
    requires Rep(m, x, head, items, quantum, qset)
    requires forall p :: p in x.role && p in m ==> p in m' && m'[p] == m[p]
    ensures Rep(m', x, head, items, quantum, qset)
  {
    forall i | 0 <= i < |x.nodes|
      ensures NodeRep(m', x, i, items[i], quantum, qset)
    {
      assert NodeRep(m, x, i, items[i], quantum, qset);
      TableFrame(m, x, m', x, i, m[x.nodes[i]].data, items[i], quantum, qset);
    }
    forall p | p in x.role
      ensures InPlace(m', x, p)
    {
      assert InPlace(m, x, p);
      var i := x.role[p].i;
      assert NodeRep(m, x, i, items[i], quantum, qset);
    }
  }

  // ----- one new node at the end of the list

  /** What kmalloc of a node and `prev->next = qs` (or `*head = qs`) do to memory. */
  function LinkCells(m: Cells, nodes: seq<Ptr>, p: Ptr): Cells
    requires |nodes| > 0 ==> nodes[|nodes| - 1] in m && m[nodes[|nodes| - 1]].Node?
  {
    if |nodes| == 0 then m[p := Node(NULL, NULL)]
    else
      var last := nodes[|nodes| - 1];
      m[p := Node(NULL, NULL)][last := Node(m[last].data, p)]
  }

  function LinkImage(x: Image, p: Ptr): Image {
    Image(x.nodes + [p], x.role[p := AsNode(|x.nodes|)])
  }

  lemma LinkNode(m: Cells, x: Image, head: Ptr, items: seq<Item>, quantum: nat, qset: nat, p: Ptr, i: nat)
    requires Rep(m, x, head, items, quantum, qset) && p != NULL && p !in m && i < |x.nodes|
    ensures var last := x.nodes[|x.nodes| - 1];
      && last in m && m[last].Node?
      && NodeRep(LinkCells(m, x.nodes, p), LinkImage(x, p), i, items[i], quantum, qset)
  {
    var last := |x.nodes| - 1;
    assert NodeRep(m, x, last, items[last], quantum, qset);
    assert NodeRep(m, x, i, items[i], quantum, qset);
    var m', x' := LinkCells(m, x.nodes, p), LinkImage(x, p);
    forall q | q in x.role
      ensures q in m && q != p
    {
      assert InPlace(m, x, q);
    }
    var n := x.nodes[i];
    // the pointer array and the blocks of node i are neither p nor a node
    TableLinkFrame(m, x, m', x', i, m[n].data, items[i], quantum, qset, p, x.nodes[last]);
  }

  lemma TableLinkFrame(m: Cells, x: Image, m': Cells, x': Image, i: nat, d: Ptr, it: Item, quantum: nat, qset: nat, p: Ptr, last: Ptr)
    requires TableRep(m, x, i, d, it, quantum, qset)
    requires forall q :: q in x.role ==> q in x'.role && x'.role[q] == x.role[q]
    requires p !in m && last in x.role && x.role[last].AsNode?
    requires forall q :: q in m && q != p && q != last ==> q in m' && m'[q] == m[q]
    ensures TableRep(m', x', i, d, it, quantum, qset)
  {
    if d != NULL {
      forall j | 0 <= j < qset
        ensures SlotRep(m', x', i, j, m'[d].slots[j], it.value[j], quantum)
      {
        assert SlotRep(m, x, i, j, m[d].slots[j], it.value[j], quantum);
      }
    }
  }

  lemma LinkRep(m: Cells, x: Image, head: Ptr, items: seq<Item>, quantum: nat, qset: nat, p: Ptr)
    requires Rep(m, x, head, items, quantum, qset) && p != NULL && p !in m
    ensures |x.nodes| > 0 ==> x.nodes[|x.nodes| - 1] in m && m[x.nodes[|x.nodes| - 1]].Node?
    ensures Rep(LinkCells(m, x.nodes, p), LinkImage(x, p), if |x.nodes| == 0 then p else head,
                items + [None], quantum, qset)
  {
    if |x.nodes| > 0 { assert NodeRep(m, x, |x.nodes| - 1, items[|x.nodes| - 1], quantum, qset); }
    var m', x' := LinkCells(m, x.nodes, p), LinkImage(x, p);
    var items' := items + [None];
    forall i | 0 <= i < |x'.nodes|
      ensures NodeRep(m', x', i, items'[i], quantum, qset)
    {
      if i < |x.nodes| { LinkNode(m, x, head, items, quantum, qset, p, i); }
    }
    forall q | q in x'.role
      ensures InPlace(m', x', q)
    {
      if q != p { LinkInPlace(m, x, head, items, quantum, qset, p, q); }
    }
  }

  lemma LinkInPlace(m: Cells, x: Image, head: Ptr, items: seq<Item>, quantum: nat, qset: nat, p: Ptr, q: Ptr)
    requires Rep(m, x, head, items, quantum, qset) && p != NULL && p !in m && q in x.role
    requires |x.nodes| > 0 ==> x.nodes[|x.nodes| - 1] in m && m[x.nodes[|x.nodes| - 1]].Node?
    ensures InPlace(LinkCells(m, x.nodes, p), LinkImage(x, p), q)
  {
    assert InPlace(m, x, q);
    var i := x.role[q].i;
    assert NodeRep(m, x, i, items[i], quantum, qset);
    assert NodeRep(m, x, |x.nodes| - 1, items[|x.nodes| - 1], quantum, qset);
  }

  // ----- changes inside one node

  /** If only cells of node `k` changed, only node `k` has to be looked at again. */
  lemma LocalRep(m: Cells, x: Image, m': Cells, x': Image, head: Ptr, items: seq<Item>, items': seq<Item>,
                 quantum: nat, qset: nat, k: nat)
    requires Rep(m, x, head, items, quantum, qset)
    requires k < |items| && x'.nodes == x.nodes && |items'| == |items| && items' == items[k := items'[k]]
    requires forall i :: 0 <= i < |items| && i != k ==> SameAt(m, x, m', x', i)
    requires forall p :: p in x'.role && x'.role[p].i != k ==> p in x.role && x.role[p] == x'.role[p]
    requires NodeRep(m', x', k, items'[k], quantum, qset)
    requires forall p :: p in x'.role && x'.role[p].i == k ==> InPlace(m', x', p)
    ensures Rep(m', x', head, items', quantum, qset)
  {
    forall i | 0 <= i < |x'.nodes|
      ensures NodeRep(m', x', i, items'[i], quantum, qset)
    {
      if i != k {
        assert NodeRep(m, x, i, items[i], quantum, qset);
        TableFrame(m, x, m', x', i, m[x.nodes[i]].data, items[i], quantum, qset);
      }
    }
    forall p | p in x'.role
      ensures InPlace(m', x', p)
    {
      if x'.role[p].i != k {
        var i := x.role[p].i;
        assert InPlace(m, x, p);
        assert NodeRep(m, x, i, items[i], quantum, qset);
        assert SameAt(m, x, m', x', i);
      }
    }
  }

  /** kmalloc of a zeroed pointer array for node `k`, and `dptr->data = it`. */
  function TableCells(m: Cells, n: Ptr, p: Ptr, qset: nat): Cells
    requires n in m && m[n].Node?
  {
    m[p := Table(seq(qset, _ => NULL))][n := Node(p, m[n].next)]
  }

  lemma AddTable(m: Cells, x: Image, head: Ptr, items: seq<Item>, quantum: nat, qset: nat, k: nat, p: Ptr)
    requires Rep(m, x, head, items, quantum, qset) && p != NULL && p !in m
    requires k < |items| && items[k] == None
    ensures x.nodes[k] in m && m[x.nodes[k]].Node?
    ensures Rep(TableCells(m, x.nodes[k], p, qset), x.(role := x.role[p := AsTable(k)]), head,
                items[k := Some(Nones(qset))], quantum, qset)
  {
    assert NodeRep(m, x, k, items[k], quantum, qset);
    var m', x' := TableCells(m, x.nodes[k], p, qset), x.(role := x.role[p := AsTable(k)]);
    var items' := items[k := Some(Nones(qset))];
    OwnedCells(m, x, head, items, quantum, qset);
    assert NodeRep(m', x', k, items'[k], quantum, qset) by {
      assert forall j :: 0 <= j < qset ==> SlotRep(m', x', k, j, m'[p].slots[j], items'[k].value[j], quantum);
    }
    forall q | q in x'.role && x'.role[q].i == k
      ensures InPlace(m', x', q)
    {
      if q != p { assert InPlace(m, x, q); }
    }
    LocalRep(m, x, m', x', head, items, items', quantum, qset, k);
  }

  lemma OwnedCells(m: Cells, x: Image, head: Ptr, items: seq<Item>, quantum: nat, qset: nat)
    requires Rep(m, x, head, items, quantum, qset)
    ensures forall q :: q in x.role ==> q in m && q != NULL
  {
    forall q | q in x.role
      ensures q in m && q != NULL
    {
      assert InPlace(m, x, q);
    }
  }

  /** The allocator's answer for slot `j` of table `d`, already cleared. */
  function BlockCells(m: Cells, d: Ptr, j: nat, p: Ptr, c: Cell): Cells
    requires d in m && m[d].Table? && j < |m[d].slots|
  {
    m[p := c][d := Table(m[d].slots[j := p])]
  }

  lemma AddBlockTable(m: Cells, x: Image, d: Ptr, it: Item, quantum: nat, qset: nat,
                      k: nat, j: nat, p: Ptr, c: Cell)
    requires TableRep(m, x, k, d, it, quantum, qset) && d != NULL && p != NULL && p !in m && p !in x.role
    requires it.Some? && j < |it.value| && c.Block? && quantum <= |c.bytes| && c.bytes[..quantum] == Zeros(quantum)
    ensures TableRep(BlockCells(m, d, j, p, c), x.(role := x.role[p := AsBlock(k, j)]), k, d,
                     Some(it.value[j := Some(Zeros(quantum))]), quantum, qset)
  {
    var m', x' := BlockCells(m, d, j, p, c), x.(role := x.role[p := AsBlock(k, j)]);
    var value' := it.value[j := Some(Zeros(quantum))];
    forall j' | 0 <= j' < qset
      ensures SlotRep(m', x', k, j', m'[d].slots[j'], value'[j'], quantum)
    {
      assert SlotRep(m, x, k, j', m[d].slots[j'], it.value[j'], quantum);
    }
  }

  lemma AddBlockInPlace(m: Cells, x: Image, k: nat, j: nat, d: Ptr, p: Ptr, c: Cell, q: Ptr)
    requires k < |x.nodes| && x.nodes[k] in m && m[x.nodes[k]].Node? && m[x.nodes[k]].data == d
    requires d != NULL && d in m && m[d].Table? && j < |m[d].slots| && m[d].slots[j] == NULL
    requires p != NULL && p !in m && p !in x.role && x.nodes[k] != d
    requires q == p || (q in x.role && x.role[q].i == k && InPlace(m, x, q))
    ensures InPlace(BlockCells(m, d, j, p, c), x.(role := x.role[p := AsBlock(k, j)]), q)
  {
  }

  lemma AddBlockElsewhere(m: Cells, x: Image, k: nat, j: nat, d: Ptr, p: Ptr, c: Cell, i: nat)
    requires Plays(x, d, AsTable(k)) && d in m && m[d].Table? && j < |m[d].slots|
    requires p !in m && p !in x.role && i != k
    ensures SameAt(m, x, BlockCells(m, d, j, p, c), x.(role := x.role[p := AsBlock(k, j)]), i)
  {
  }

  lemma AddBlock(m: Cells, x: Image, head: Ptr, items: seq<Item>, quantum: nat, qset: nat,
                 k: nat, j: nat, p: Ptr, c: Cell)
    requires Rep(m, x, head, items, quantum, qset) && p != NULL && p !in m
    requires k < |items| && items[k].Some? && j < |items[k].value| && items[k].value[j] == None
    requires c.Block? && quantum <= |c.bytes| && c.bytes[..quantum] == Zeros(quantum)
    ensures x.nodes[k] in m && m[x.nodes[k]].Node?
    ensures var d := m[x.nodes[k]].data;
      && d in m && m[d].Table? && j < |m[d].slots|
      && Rep(BlockCells(m, d, j, p, c), x.(role := x.role[p := AsBlock(k, j)]), head,
             WithBlock(items, k, j, quantum), quantum, qset)
  {
    assert NodeRep(m, x, k, items[k], quantum, qset);
    var d := m[x.nodes[k]].data;
    var m', x' := BlockCells(m, d, j, p, c), x.(role := x.role[p := AsBlock(k, j)]);
    var items' := WithBlock(items, k, j, quantum);
    assert p !in x.role && x.nodes[k] != d && m[d].slots[j] == NULL by {
      OwnedCells(m, x, head, items, quantum, qset);
      assert SlotRep(m, x, k, j, m[d].slots[j], items[k].value[j], quantum);
    }
    assert NodeRep(m', x', k, items'[k], quantum, qset) by {
      AddBlockTable(m, x, d, items[k], quantum, qset, k, j, p, c);
    }
    forall q | q in x'.role && x'.role[q].i == k
      ensures InPlace(m', x', q)
    {
      if q != p { assert InPlace(m, x, q); }
      AddBlockInPlace(m, x, k, j, d, p, c, q);
    }
    forall i | 0 <= i < |items| && i != k
      ensures SameAt(m, x, m', x', i)
    {
      AddBlockElsewhere(m, x, k, j, d, p, c, i);
    }
    LocalRep(m, x, m', x', head, items, items', quantum, qset, k);
  }

  /** New contents for the block of slot (k, j): same length, first quantum `block`. */
  lemma SetBlock(m: Cells, x: Image, head: Ptr, items: seq<Item>, quantum: nat, qset: nat,
                 k: nat, j: nat, bytes: seq<Byte>)
    requires Rep(m, x, head, items, quantum, qset)
    requires k < |items| && items[k].Some? && j < |items[k].value| && items[k].value[j].Some?
    requires quantum <= |bytes|
    ensures x.nodes[k] in m && m[x.nodes[k]].Node?
    ensures var d := m[x.nodes[k]].data;
      && d in m && m[d].Table? && j < |m[d].slots|
      && var b := m[d].slots[j];
      && b in m && m[b].Block? && quantum <= |m[b].bytes| && items[k].value[j].value == m[b].bytes[..quantum]
      && Rep(m[b := Block(m[b].len, bytes)], x, head,
             items[k := Some(items[k].value[j := Some(bytes[..quantum])])], quantum, qset)
  {
    assert NodeRep(m, x, k, items[k], quantum, qset);
    var d := m[x.nodes[k]].data;
    var b := m[d].slots[j];
    assert SlotRep(m, x, k, j, b, items[k].value[j], quantum);
    var m' := m[b := Block(m[b].len, bytes)];
    var items' := items[k := Some(items[k].value[j := Some(bytes[..quantum])])];
    forall j' | 0 <= j' < qset
      ensures SlotRep(m', x, k, j', m'[d].slots[j'], items'[k].value[j'], quantum)
    {
      assert SlotRep(m, x, k, j', m[d].slots[j'], items[k].value[j'], quantum);
    }
    assert NodeRep(m', x, k, items'[k], quantum, qset);
    forall q | q in x.role && x.role[q].i == k
      ensures InPlace(m', x, q)
    {
      assert InPlace(m, x, q);
    }
    LocalRep(m, x, m', x, head, items, items', quantum, qset, k);
  }

  // ----- what the allocator handed out

  /** Every block has the length its allocator gives, and `ok` holds as soon as there is one. */
  predicate Sized(m: Cells, x: Image, len: nat, ok: bool) {
    forall p :: p in x.role && x.role[p].AsBlock? ==> p in m && m[p].Block? && m[p].len == len && ok
  }

  /** Blocks keep their length while nodes and pointer arrays are added or changed. */
  lemma SizedFrame(m: Cells, x: Image, m': Cells, x': Image, len: nat, ok: bool)
    requires Sized(m, x, len, ok)
    requires forall p :: p in x'.role && x'.role[p].AsBlock? ==>
      p in x.role && x.role[p].AsBlock? && (p in m && m[p].Block? ==> p in m' && m'[p] == m[p])
    ensures Sized(m', x', len, ok)
  {
  }

  lemma LinkSized(m: Cells, x: Image, head: Ptr, items: seq<Item>, quantum: nat, qset: nat, p: Ptr, len: nat, ok: bool)
    requires Rep(m, x, head, items, quantum, qset) && p != NULL && p !in m && Sized(m, x, len, ok)
    ensures |x.nodes| > 0 ==> x.nodes[|x.nodes| - 1] in m && m[x.nodes[|x.nodes| - 1]].Node?
    ensures Sized(LinkCells(m, x.nodes, p), LinkImage(x, p), len, ok)
  {
    if |x.nodes| > 0 { TableAt(m, x, head, items, quantum, qset, |x.nodes| - 1); }
    SizedFrame(m, x, LinkCells(m, x.nodes, p), LinkImage(x, p), len, ok);
  }

  lemma TableSized(m: Cells, x: Image, n: Ptr, p: Ptr, qset: nat, k: nat, len: nat, ok: bool)
    requires n in m && m[n].Node? && p !in m && Sized(m, x, len, ok)
    ensures Sized(TableCells(m, n, p, qset), x.(role := x.role[p := AsTable(k)]), len, ok)
  {
    SizedFrame(m, x, TableCells(m, n, p, qset), x.(role := x.role[p := AsTable(k)]), len, ok);
  }

  lemma BlockSized(m: Cells, x: Image, d: Ptr, k: nat, j: nat, p: Ptr, c: Cell, ok: bool, ok': bool)
    requires d in m && m[d].Table? && j < |m[d].slots| && p !in m && c.Block?
    requires Sized(m, x, c.len, ok) && (ok ==> ok') && ok'
    ensures Sized(BlockCells(m, d, j, p, c), x.(role := x.role[p := AsBlock(k, j)]), c.len, ok')
  {
  }

  // ----- what a call may do to memory

  /** From (m, x) to (m', x'): the device took only free cells, gave none back, only
      appended to its list, and left every cell it does not own as it was. */
  predicate Grows(m: Cells, x: Image, m': Cells, x': Image) {
    && x.nodes <= x'.nodes
    && x.role.Keys <= x'.role.Keys
    && m'.Keys == m.Keys + x'.role.Keys
    && (forall p :: p in x'.role && p !in x.role ==> p !in m)
    && (forall p :: p in m && p !in x.role ==> m'[p] == m[p])
  }

  lemma GrowsReflexive(m: Cells, x: Image, head: Ptr, items: seq<Item>, quantum: nat, qset: nat)
    requires Rep(m, x, head, items, quantum, qset)
    ensures Grows(m, x, m, x)
  {
    OwnedCells(m, x, head, items, quantum, qset);
  }

  /** One new cell `p`, hung into the owned cell `c`. */
  lemma GrowsByOne(m: Cells, x: Image, m': Cells, p: Ptr, r: Role, c: Ptr)
    requires p !in m && c in x.role && x.role.Keys <= m.Keys
    requires m'.Keys == m.Keys + {p} && (forall q :: q in m && q != c ==> m'[q] == m[q])
    ensures Grows(m, x, m', x.(role := x.role[p := r]))
  {
  }

  lemma GrowsTransitive(m: Cells, x: Image, m1: Cells, x1: Image, m2: Cells, x2: Image)
    requires Grows(m, x, m1, x1) && Grows(m1, x1, m2, x2)
    ensures Grows(m, x, m2, x2)
  {
  }

  lemma LinkGrows(m: Cells, x: Image, head: Ptr, items: seq<Item>, quantum: nat, qset: nat, p: Ptr)
    requires Rep(m, x, head, items, quantum, qset) && p != NULL && p !in m
    ensures |x.nodes| > 0 ==> x.nodes[|x.nodes| - 1] in m && m[x.nodes[|x.nodes| - 1]].Node?
    ensures Grows(m, x, LinkCells(m, x.nodes, p), LinkImage(x, p))
  {
    OwnedCells(m, x, head, items, quantum, qset);
    if |x.nodes| > 0 { assert NodeRep(m, x, |x.nodes| - 1, items[|x.nodes| - 1], quantum, qset); }
  }

  // ----- reading through the pointers

  lemma NodeAt(m: Cells, x: Image, head: Ptr, items: seq<Item>, quantum: nat, qset: nat, i: nat)
    requires Rep(m, x, head, items, quantum, qset) && i < |x.nodes|
    ensures x.nodes[i] != NULL && x.nodes[i] in m && m[x.nodes[i]].Node?
    ensures m[x.nodes[i]].next == NextOf(x.nodes, i)
  {
    assert NodeRep(m, x, i, items[i], quantum, qset);
    assert InPlace(m, x, x.nodes[i]);
  }

  lemma LastNode(m: Cells, x: Image, head: Ptr, items: seq<Item>, quantum: nat, qset: nat)
    requires Rep(m, x, head, items, quantum, qset)
    ensures |x.nodes| > 0 ==>
      var last := x.nodes[|x.nodes| - 1]; last != NULL && last in m && m[last].Node?
  {
    if |x.nodes| > 0 { NodeAt(m, x, head, items, quantum, qset, |x.nodes| - 1); }
  }

  lemma NullHead(m: Cells, x: Image, head: Ptr, items: seq<Item>, quantum: nat, qset: nat)
    requires Rep(m, x, head, items, quantum, qset)
    ensures head == NULL <==> items == []
  {
    if items != [] { NodeAt(m, x, head, items, quantum, qset, 0); }
  }

  /** `dptr->data` is null exactly when the item has no pointer array. */
  lemma TableAt(m: Cells, x: Image, head: Ptr, items: seq<Item>, quantum: nat, qset: nat, k: nat)
    requires Rep(m, x, head, items, quantum, qset) && k < |items|
    ensures x.nodes[k] != NULL && x.nodes[k] in m && m[x.nodes[k]].Node? && Plays(x, x.nodes[k], AsNode(k))
    ensures var d := m[x.nodes[k]].data;
      && (d == NULL <==> items[k].None?)
      && (d != NULL ==> d in m && m[d].Table? && |m[d].slots| == qset && |items[k].value| == qset)
      && (d != NULL ==> Plays(x, d, AsTable(k)))
  {
    NodeAt(m, x, head, items, quantum, qset, k);
    assert NodeRep(m, x, k, items[k], quantum, qset);
  }

  /** `dptr->data[s_pos]` is null exactly when the quantum does not exist, and else points to it. */
  lemma BlockAt(m: Cells, x: Image, head: Ptr, items: seq<Item>, quantum: nat, qset: nat, k: nat, j: nat)
    requires Rep(m, x, head, items, quantum, qset) && k < |items| && items[k].Some? && j < qset
    ensures x.nodes[k] in m && m[x.nodes[k]].Node?
    ensures var d := m[x.nodes[k]].data;
      && d != NULL && d in m && m[d].Table? && |m[d].slots| == |items[k].value| == qset
      && Plays(x, d, AsTable(k))
      && var b := m[d].slots[j];
      && (b == NULL <==> items[k].value[j].None?)
      && (b != NULL ==> b in m && m[b].Block? && quantum <= |m[b].bytes| && items[k].value[j].value == m[b].bytes[..quantum])
      && (b != NULL ==> Plays(x, b, AsBlock(k, j)))
  {
    TableAt(m, x, head, items, quantum, qset, k);
    assert NodeRep(m, x, k, items[k], quantum, qset);
    var d := m[x.nodes[k]].data;
    assert SlotRep(m, x, k, j, m[d].slots[j], items[k].value[j], quantum);
  }

  /** Pointers stored in the device lead to owned cells, so the list always ends the walk. */
  lemma RepItemsOk(m: Cells, x: Image, head: Ptr, items: seq<Item>, quantum: nat, qset: nat)
    requires Rep(m, x, head, items, quantum, qset)
    ensures ItemsOk(items, quantum, qset)
  {
    forall i | 0 <= i < |items|
      ensures ItemOk(items[i], quantum, qset)
    {
      if items[i].Some? {
        TableAt(m, x, head, items, quantum, qset, i);
        forall j | 0 <= j < qset && items[i].value[j].Some?
          ensures |items[i].value[j].value| == quantum
        {
          BlockAt(m, x, head, items, quantum, qset, i, j);
        }
      }
    }
  }

  // ----- trimming

  /** The cells freed once nodes 0..i are gone and slots 0..j of node i. */
  function Freed(x: Image, i: nat, j: nat): set<Ptr> {
    set p | p in x.role && (x.role[p].i < i || (x.role[p].AsBlock? && x.role[p].i == i && x.role[p].j < j))
  }

  lemma FreedNothing(x: Image)
    ensures Freed(x, 0, 0) == {}
  {
  }

  lemma FreedSlot(m: Cells, x: Image, head: Ptr, items: seq<Item>, quantum: nat, qset: nat, i: nat, j: nat)
    requires Rep(m, x, head, items, quantum, qset) && i < |items| && items[i].Some? && j < qset
    ensures x.nodes[i] in m && m[x.nodes[i]].Node?
    ensures var d := m[x.nodes[i]].data;
      && d in m && m[d].Table? && j < |m[d].slots|
      && var b := m[d].slots[j];
      && Freed(x, i, j + 1) == Freed(x, i, j) + (if b == NULL then {} else {b})
      && (b != NULL ==> b in m && b !in Freed(x, i, j))
  {
    BlockAt(m, x, head, items, quantum, qset, i, j);
    var d := m[x.nodes[i]].data;
    var b := m[d].slots[j];
    forall p | p in Freed(x, i, j + 1) && p !in Freed(x, i, j)
      ensures p == b && b != NULL
    {
      assert InPlace(m, x, p);
    }
  }

  lemma FreedNode(m: Cells, x: Image, head: Ptr, items: seq<Item>, quantum: nat, qset: nat, i: nat)
    requires Rep(m, x, head, items, quantum, qset) && i < |items|
    ensures x.nodes[i] in m && m[x.nodes[i]].Node?
    ensures var n := x.nodes[i]; var d := m[n].data;
      && Freed(x, i + 1, 0) == Freed(x, i, if d == NULL then 0 else qset) + (if d == NULL then {} else {d}) + {n}
      && n !in Freed(x, i, qset) && n != d
      && (d != NULL ==> d in m && d !in Freed(x, i, qset))
  {
    TableAt(m, x, head, items, quantum, qset, i);
    var n := x.nodes[i];
    var d := m[n].data;
    var upTo := if d == NULL then 0 else qset;
    forall p | p in Freed(x, i + 1, 0) && p !in Freed(x, i, upTo)
      ensures p == n || (p == d && d != NULL)
    {
      assert InPlace(m, x, p);
    }
  }

  lemma FreedAll(m: Cells, x: Image, head: Ptr, items: seq<Item>, quantum: nat, qset: nat)
    requires Rep(m, x, head, items, quantum, qset)
    ensures Freed(x, |x.nodes|, 0) == x.role.Keys
  {
    forall p | p in x.role
      ensures x.role[p].i < |x.nodes|
    {
      assert InPlace(m, x, p);
    }
  }
}
